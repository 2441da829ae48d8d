/** Where control goes: jumps, calls by name, calls through pointers, and a loop. */
module ControlTransfer {
  import opened Words
  import opened Isa
  import opened Program
  import opened Machine
  import opened AssemblerProofs
  import opened SourceVm
  import opened Recursion
  import Codec
  import B = ByteVm

  // ----- jumps -----

  /** `jmp` always goes to its label, `jnz` when the condition holds, `jz` when it does not; otherwise control goes on
      with the next statement. */
  lemma SourceJumps(prog: Linked, p: Pos, s: State<Pos>, op: OpJ, lab: string, k: nat, t: nat)
    requires At(prog, p, s, k, Branch(op, lab))
    requires var items := ItemsAt(prog, p.m, p.f);
             t < |items| && items[t] == Mark(lab) && forall j :: 0 <= j < t ==> items[j] != Mark(lab)
    ensures var o := SourceVm.Step(prog, p, s);
            var there, on := Running(Pos(p.m, p.f, t), s), Running(Pos(p.m, p.f, k + 1), s);
            && (op == Jmp ==> o == there)
            && (op == Jz ==> o == if s.core.cond then on else there)
            && (op == Jnz ==> o == if s.core.cond then there else on)
  {
    assert MarkIndex(ItemsAt(prog, p.m, p.f), lab) == t;
  }

  /** In the code, the displacement is added to the address of the next instruction. */
  lemma ByteJumps(img: B.Image, ip: nat, s: State<nat>, op: OpJ, d: int, next: nat)
    requires Codec.Fetch(img.mem, ip) == Codec.Fetched(IJ(op, d), next) && next + d >= 0
    ensures var o := B.Step(img, ip, s);
            var there, on := Running(next + d, s), Running(next, s);
            && (op == Jmp ==> o == there)
            && (op == Jz ==> o == if s.core.cond then on else there)
            && (op == Jnz ==> o == if s.core.cond then there else on)
  {
  }

  // ----- calls by name -----

  /** The first function named is called: its own module's code with the return address in the link register, another
      module's in a loop of its own, with that module's tables and no link register; natives and externs that are not
      linked stop with the error. */
  lemma CallsByName(prog: Linked, p: Pos, s: State<Pos>, k: nat, name: string, f: nat)
    requires At(prog, p, s, k, CallFn(name))
    requires var funcs := prog.mods[p.m].funcs;
             f < |funcs| && funcs[f].name == name && forall j :: 0 <= j < f ==> funcs[j].name != name
    ensures var o := SourceVm.Step(prog, p, s);
            var next := Pos(p.m, p.f, k + 1);
            match prog.mods[p.m].funcs[f]
            case Body(_, _) => o == Running(Pos(p.m, f, 0), s.(lr := Some(next)))
            case Native(_) => o == Exit(s.(core := s.core.(err := 1)))
            case Extern(_) =>
              var links := prog.mods[p.m].links;
              if f !in links || !IsBody(prog, links[f].0, links[f].1) then o == Exit(s.(core := s.core.(err := 2)))
              else |s.calls| < prog.lay.callCap ==>
                o == Running(Pos(links[f].0, links[f].1, 0), Nested(s, next, links[f].0))
  {
    assert IndexOf(NameList(prog.mods[p.m].funcs), name) == f;
  }

  /** The state in which another module's code is entered. */
  function Nested<P>(s: State<P>, next: P, owner: nat): State<P> {
    State(s.core, None, s.calls + [s.lr], s.host + [Host(next, s.mod)], owner)
  }

  /** When its loop ends, with an error or without, the caller goes on behind the call, if there is one. */
  lemma NestedEnds<P>(s: State<P>, next: P, owner: nat, c: Core)
    ensures Exit(Nested(s, next, owner).(core := c)) == Running(next, s.(core := c))
    ensures s.host == [] ==> Exit(s.(core := c)) == Stopped(s.(core := c))
  {
    var t := Nested(s, next, owner).(core := c);
    assert t.host[..|t.host| - 1] == s.host && t.calls[..|t.calls| - 1] == s.calls;
  }

  // ----- calls through pointers -----

  /** Function tables that do not overlap. */
  ghost predicate TablesApart(lay: Layout) {
    forall m, n :: 0 <= m < n < |lay.funcs| ==> Clear(lay.funcs[m], lay.funcs[n])
  }

  predicate Clear(t: Table, u: Table) {
    t.addr + 24 * t.len <= u.addr || u.addr + 24 * u.len <= t.addr
  }

  /** What `ldfn` leaves for function `n` is found again as function `n` of the same module. */
  lemma LoadedFunctionIsFound(lay: Layout, mod: nat, a: int, n: nat, c: Core)
    requires HasReg(c, a) && TablesApart(lay) && mod < |lay.funcs| && n < lay.funcs[mod].len
    requires lay.funcs[mod].addr + 24 * lay.funcs[mod].len <= TWO64
    ensures var v := lay.funcs[mod].addr + 24 * n;
            Data(lay, mod, IR(Ldfn, a, n), c) == Done(SetReg(c, a, v)) && FindItem(lay, v, 0) == Some((mod, n))
  {
    var v := lay.funcs[mod].addr + 24 * n;
    ModUnique(v, TWO64, 0, v);
    FoundFrom(lay, mod, n, 0);
  }

  lemma {:induction false} FoundFrom(lay: Layout, mod: nat, n: nat, m: nat)
    requires TablesApart(lay) && m <= mod < |lay.funcs| && n < lay.funcs[mod].len
    ensures FindItem(lay, lay.funcs[mod].addr + 24 * n, m) == Some((mod, n))
    decreases mod - m
  {
    if m < mod {
      assert Clear(lay.funcs[m], lay.funcs[mod]);
      FoundFrom(lay, mod, n, m + 1);
    }
  }

  /** A call through the null pointer stops with the error. A call through the pointer to a function with code is a
      local call when its module is the one the host started, and otherwise that of another module; to an extern, it
      is a call of the function it is linked to. Natives and externs that are not linked stop with the error. */
  lemma CallsThroughPointer(prog: Linked, p: Pos, s: State<Pos>, k: nat, a: int, m: nat, n: nat)
    requires At(prog, p, s, k, Ins(I1(Callr, a))) && HasReg(s.core, a)
    requires m < |prog.mods| && n < |prog.mods[m].funcs|
    requires TablesApart(prog.lay) && m < |prog.lay.funcs| && n < prog.lay.funcs[m].len && prog.lay.funcs[m].addr > 0
    ensures Reg(s.core, a) == 0 ==> SourceVm.Step(prog, p, s) == Exit(s.(core := s.core.(err := 6)))
    ensures Reg(s.core, a) == prog.lay.funcs[m].addr + 24 * n ==>
              var o := SourceVm.Step(prog, p, s);
              var next := Pos(p.m, p.f, k + 1);
              match prog.mods[m].funcs[n]
              case Body(_, _) => EntersAt(prog, s, next, m, n, o)
              case Native(_) => o == Exit(s.(core := s.core.(err := 1)))
              case Extern(_) =>
                var links := prog.mods[m].links;
                if n !in links || !IsBody(prog, links[n].0, links[n].1) then o == Exit(s.(core := s.core.(err := 2)))
                else EntersAt(prog, s, next, links[n].0, links[n].1, o)
  {
    FoundFrom(prog.lay, m, n, 0);
  }

  /** The step to the start of function `n` of module `m`. */
  predicate EntersAt(prog: Linked, s: State<Pos>, next: Pos, m: nat, n: nat, o: Outcome<Pos>) {
    if m == prog.lay.root then o == Running(Pos(m, n, 0), s.(lr := Some(next)))
    else |s.calls| < prog.lay.callCap ==> o == Running(Pos(m, n, 0), Nested(s, next, m))
  }

  // ----- returns -----

  /** `ret` goes where the link register says; with a clear one, and at `halt` always, the loop ends. */
  lemma Returns(prog: Linked, p: Pos, s: State<Pos>, k: nat, op: Op0)
    requires At(prog, p, s, k, Ins(I0(op))) && op in {Ret, Halt}
    ensures var o := SourceVm.Step(prog, p, s);
            o == if op == Ret && s.lr.Some? then Running(s.lr.value, s) else Exit(s)
  {
  }

  /** `pushlr` stores the link register behind those stored before, `poplr` takes back the last. */
  lemma KeepsLink(prog: Linked, p: Pos, s: State<Pos>, k: nat, op: Op0, rest: seq<Option<Pos>>, lr: Option<Pos>)
    requires At(prog, p, s, k, Ins(I0(op))) && op in {Pushlr, Poplr}
    ensures var o := SourceVm.Step(prog, p, s);
            var next := Pos(p.m, p.f, k + 1);
            if op == Pushlr then
              |s.calls| < prog.lay.callCap ==> o == Running(next, s.(calls := s.calls + [s.lr]))
            else s.calls == rest + [lr] ==> o == Running(next, s.(calls := rest, lr := lr))
  {
  }
}
