/** The machine an assembly programmer has in mind: code pointers are positions in function bodies,
    calls go to functions by name, jumps to labels. */
module SourceVm {
  import opened Words
  import opened Isa
  import opened Program
  import opened Machine
  import opened AssemblerProofs

  /** A module and how its externs are linked: extern function number to the module and function
      number that provides it. */
  datatype Module = Module(funcs: seq<Func>, vars: seq<string>, links: map<nat, (nat, nat)>)

  datatype Linked = Linked(mods: seq<Module>, lay: Layout)

  /** Before item `i` of function `f` of module `m`. */
  datatype Pos = Pos(m: nat, f: nat, i: nat)

  predicate IsBody(prog: Linked, m: nat, f: nat) {
    m < |prog.mods| && f < |prog.mods[m].funcs| && prog.mods[m].funcs[f].Body?
  }

  predicate ValidPos(prog: Linked, p: Pos) {
    IsBody(prog, p.m, p.f) && p.i <= |prog.mods[p.m].funcs[p.f].items|
  }

  function ItemsAt(prog: Linked, m: nat, f: nat): seq<Item>
    requires IsBody(prog, m, f)
  {
    prog.mods[m].funcs[f].items
  }

  /** The function that extern `f` of module `m` is linked to. */
  function LinkOf(prog: Linked, m: nat, f: nat): Option<(nat, nat)>
    requires m < |prog.mods|
  {
    var links := prog.mods[m].links;
    if f in links && IsBody(prog, links[f].0, links[f].1) then Some(links[f]) else None
  }

  /** Calling function `f` of module `m` by name. */
  function NamedCallee(prog: Linked, m: nat, f: nat): Callee<Pos>
    requires m < |prog.mods| && f < |prog.mods[m].funcs|
  {
    match prog.mods[m].funcs[f]
    case Body(_, _) => Local(Pos(m, f, 0))
    case Native(_) => Fail(ERR_BAD_NATIVE)
    case Extern(_) =>
      var l := LinkOf(prog, m, f);
      if l.None? then Fail(ERR_BAD_EXTERN) else Foreign(Pos(l.value.0, l.value.1, 0), l.value.0)
  }

  function Provide(prog: Linked, m: nat, f: nat): Callee<Pos> {
    if m != prog.lay.root then Foreign(Pos(m, f, 0), m) else Local(Pos(m, f, 0))
  }

  /** Calling through a pointer to function `f` of module `m`. */
  function PointedCallee(prog: Linked, m: nat, f: nat): Callee<Pos>
    requires m < |prog.mods| && f < |prog.mods[m].funcs|
  {
    match prog.mods[m].funcs[f]
    case Body(_, _) => Provide(prog, m, f)
    case Native(_) => Fail(ERR_BAD_NATIVE)
    case Extern(_) =>
      var l := LinkOf(prog, m, f);
      if l.None? then Fail(ERR_BAD_EXTERN) else Provide(prog, l.value.0, l.value.1)
  }

  function PointerCallee(prog: Linked, v: u64): Callee<Pos> {
    if v == 0 then Fail(ERR_BAD_FUNC)
    else
      var e := FindItem(prog.lay, v, 0);
      if e.Some? && e.value.0 < |prog.mods| && e.value.1 < |prog.mods[e.value.0].funcs|
      then PointedCallee(prog, e.value.0, e.value.1)
      else NoCode
  }

  /** The effect of a statement, with names resolved in the statement's own module and body. */
  function Resolve(prog: Linked, m: nat, f: nat, st: Stmt, s: State<Pos>): Action<Pos>
    requires IsBody(prog, m, f)
  {
    var names := NameList(prog.mods[m].funcs);
    match st
    case Ins(I1(Callr, a)) =>
      if HasReg(s.core, a) then Invoke(PointerCallee(prog, Reg(s.core, a))) else NoAction
    case Ins(i) => Plain(i)
    case Branch(op, lab) => Goto(op, Pos(m, f, MarkIndex(ItemsAt(prog, m, f), lab)))
    case CallFn(name) =>
      if name in names then Invoke(NamedCallee(prog, m, IndexOf(names, name))) else NoAction
    case LoadFn(reg, name) => Plain(IR(Ldfn, reg, IndexOf(names, name)))
    case LoadVar(reg, name) => Plain(IR(Ldvar, reg, IndexOf(prog.mods[m].vars, name)))
  }

  /** One statement. Running off the end of a body, or running a body while another module's tables
      are in force, is undefined. */
  function Step(prog: Linked, p: Pos, s: State<Pos>): Outcome<Pos> {
    if !ValidPos(prog, p) || p.m != s.mod then Undefined
    else
      var items := ItemsAt(prog, p.m, p.f);
      var j := SkipMarks(items, p.i);
      if j == |items| then Undefined
      else Perform(prog.lay, Resolve(prog, p.m, p.f, items[j].s, s), Pos(p.m, p.f, j + 1), s)
  }

  function Stepper(prog: Linked): (Pos, State<Pos>) -> Outcome<Pos> {
    (p, s) => Step(prog, p, s)
  }
}
