/** Assembling preserves meaning: the byte machine on the assembled code of linked modules runs in
    step with the label-level machine on their source. */
module Simulation {
  import opened Words
  import opened Isa
  import opened Codec
  import opened Program
  import opened Machine
  import opened AssemblerProofs
  import opened Relate
  import S = SourceVm
  import B = ByteVm

  ghost predicate ModulesOk(prog: S.Linked) {
    forall m :: 0 <= m < |prog.mods| ==> ProgramOk(prog.mods[m].funcs, prog.mods[m].vars)
  }

  /** What a loaded and linked function-table entry holds for a declared function. */
  ghost predicate EntryLoaded(prog: S.Linked, img: B.Image, m: nat, f: nat)
    requires m < |prog.mods| && f < |prog.mods[m].funcs|
    requires m < |img.tables| && f < |img.tables[m]|
  {
    var it := img.tables[m][f];
    match prog.mods[m].funcs[f]
    case Body(_, _) =>
      var code := CodeOf(prog.mods[m].funcs, prog.mods[m].vars, f);
      && it.item > 0 && it.owner == Some(m) && it.flags == 0
      && code.Some? && PlacedAt(img.mem, it.item, code.value)
    case Native(_) =>
      it == B.Item(0, Some(m), B.FLAG_NATIVE)
    case Extern(_) =>
      var l := S.LinkOf(prog, m, f);
      if l.None? then it == B.Item(0, None, B.FLAG_EXTERN)
      else
        var (m', f') := l.value;
        m' < |img.tables| && f' < |img.tables[m']|
        && it == B.Item(img.tables[m'][f'].item, Some(m'), B.FLAG_EXTERN + B.FLAG_LINKED)
  }

  /** The image holds the program: same layout, one table a module, one entry a function. */
  ghost predicate Loaded(prog: S.Linked, img: B.Image) {
    && img.lay == prog.lay && |img.tables| == |prog.mods|
    && forall m :: 0 <= m < |prog.mods| ==>
         && |img.tables[m]| == |prog.mods[m].funcs|
         && forall f :: 0 <= f < |prog.mods[m].funcs| ==> EntryLoaded(prog, img, m, f)
  }

  /** The address of a source position. */
  function AddrOf(prog: S.Linked, img: B.Image, p: S.Pos): nat
    requires S.ValidPos(prog, p) && p.m < |img.tables| && p.f < |img.tables[p.m]|
  {
    img.tables[p.m][p.f].item + PcAt(S.ItemsAt(prog, p.m, p.f), p.i)
  }

  predicate AtAddr(prog: S.Linked, img: B.Image, p: S.Pos, a: nat) {
    && S.ValidPos(prog, p) && p.m < |img.tables| && p.f < |img.tables[p.m]|
    && a == AddrOf(prog, img, p)
  }

  /** Code pointers correspond: a position and the address of its byte offset. */
  function AddrRel(prog: S.Linked, img: B.Image): (S.Pos, nat) -> bool {
    (p, a: nat) => AtAddr(prog, img, p, a)
  }

  lemma EntryAt(prog: S.Linked, img: B.Image, m: nat, f: nat)
    requires Loaded(prog, img) && S.IsBody(prog, m, f)
    ensures m < |img.tables| && f < |img.tables[m]|
    ensures EntryLoaded(prog, img, m, f)
    ensures AtAddr(prog, img, S.Pos(m, f, 0), img.tables[m][f].item)
  {
  }

  lemma NamedCalleeRelated(prog: S.Linked, img: B.Image, m: nat, f: nat)
    requires Loaded(prog, img) && m < |prog.mods| && f < |prog.mods[m].funcs|
    ensures RelCallee(AddrRel(prog, img), S.NamedCallee(prog, m, f), B.CallItem(img.tables[m][f]))
  {
    assert EntryLoaded(prog, img, m, f);
    match prog.mods[m].funcs[f] {
      case Body(_, _) => EntryAt(prog, img, m, f);
      case Native(_) =>
      case Extern(_) =>
        var l := S.LinkOf(prog, m, f);
        if l.Some? {
          EntryAt(prog, img, l.value.0, l.value.1);
        }
    }
  }

  lemma PointedCalleeRelated(prog: S.Linked, img: B.Image, m: nat, f: nat)
    requires Loaded(prog, img) && m < |prog.mods| && f < |prog.mods[m].funcs|
    ensures RelCallee(AddrRel(prog, img), S.PointedCallee(prog, m, f),
                      B.CallPointer(img.tables[m][f], prog.lay.root))
  {
    assert EntryLoaded(prog, img, m, f);
    match prog.mods[m].funcs[f] {
      case Body(_, _) => EntryAt(prog, img, m, f);
      case Native(_) =>
      case Extern(_) =>
        var l := S.LinkOf(prog, m, f);
        if l.Some? {
          EntryAt(prog, img, l.value.0, l.value.1);
        }
    }
  }

  lemma PointerCalleeRelated(prog: S.Linked, img: B.Image, v: u64)
    requires Loaded(prog, img)
    ensures RelCallee(AddrRel(prog, img), S.PointerCallee(prog, v), B.PointerCallee(img, v))
  {
    var e := FindItem(prog.lay, v, 0);
    if v != 0 && e.Some? && e.value.0 < |prog.mods| && e.value.1 < |prog.mods[e.value.0].funcs| {
      PointedCalleeRelated(prog, img, e.value.0, e.value.1);
    }
  }

  /** The instruction assembled for a statement means what the statement means. */
  lemma ResolveRelated(
    prog: S.Linked, img: B.Image, m: nat, f: nat, j: nat, next: nat, s: State<S.Pos>, t: State<nat>)
    requires ModulesOk(prog) && Loaded(prog, img) && S.IsBody(prog, m, f)
    requires j < |S.ItemsAt(prog, m, f)| && S.ItemsAt(prog, m, f)[j].Do?
    requires s.mod == m && AtAddr(prog, img, S.Pos(m, f, j + 1), next)
    requires RelState(AddrRel(prog, img), s, t)
    ensures var st := S.ItemsAt(prog, m, f)[j].s;
            var i := Meaning(prog.mods[m].funcs, prog.mods[m].vars, prog.mods[m].funcs[f], j);
            RelAction(AddrRel(prog, img), S.Resolve(prog, m, f, st, s), B.Resolve(img, i, next, t))
  {
    var mod := prog.mods[m];
    var fn := mod.funcs[f];
    var items := fn.items;
    assert ProgramOk(mod.funcs, mod.vars) && BodyOk(mod.funcs, mod.vars, fn);
    assert StmtOk(mod.funcs, mod.vars, fn, items[j].s);
    match items[j].s {
      case Ins(i) =>
        if i.I1? && i.op1 == Callr && HasReg(s.core, i.a) {
          PointerCalleeRelated(prog, img, Reg(s.core, i.a));
        }
      case Branch(op, lab) =>
        var k := MarkIndex(items, lab);
        assert AtAddr(prog, img, S.Pos(m, f, k), img.tables[m][f].item + PcAt(items, k));
      case CallFn(name) =>
        NamedCalleeRelated(prog, img, m, IndexOf(NameList(mod.funcs), name));
      case _ =>
    }
  }

  /** One step: wherever the label-level machine is defined, the byte machine, started at the address
      of the same position, does the same and arrives at the address of the new position. */
  lemma StepSimulates(prog: S.Linked, img: B.Image, p: S.Pos, a: nat, s: State<S.Pos>, t: State<nat>)
    requires ModulesOk(prog) && Loaded(prog, img)
    requires AtAddr(prog, img, p, a) && RelState(AddrRel(prog, img), s, t)
    ensures S.Step(prog, p, s).Undefined?
            || RelOutcome(AddrRel(prog, img), S.Step(prog, p, s), B.Step(img, a, t))
  {
    var items := S.ItemsAt(prog, p.m, p.f);
    var j := SkipMarks(items, p.i);
    if p.m == s.mod && j < |items| {
      var next := ByteSide(prog, img, p, a, t, j);
      SourceStepAt(prog, p, s, j);
      StatementRelated(prog, img, p.m, p.f, j, next, s, t, S.Step(prog, p, s), B.Step(img, a, t));
    }
  }

  /** The byte machine's step at the address of a position. */
  lemma ByteSide(prog: S.Linked, img: B.Image, p: S.Pos, a: nat, t: State<nat>, j: nat) returns (next: nat)
    requires ModulesOk(prog) && Loaded(prog, img) && AtAddr(prog, img, p, a)
    requires j == SkipMarks(S.ItemsAt(prog, p.m, p.f), p.i) < |S.ItemsAt(prog, p.m, p.f)|
    ensures S.ItemsAt(prog, p.m, p.f)[j].Do? && AtAddr(prog, img, S.Pos(p.m, p.f, j + 1), next)
    ensures var i := Meaning(prog.mods[p.m].funcs, prog.mods[p.m].vars, prog.mods[p.m].funcs[p.f], j);
            B.Step(img, a, t) == Perform(img.lay, B.Resolve(img, i, next, t), next, t)
  {
    FetchAt(prog, img, p.m, p.f, j);
    NextAt(prog, img, p.m, p.f, j);
    next := img.tables[p.m][p.f].item + PcAt(S.ItemsAt(prog, p.m, p.f), j + 1);
    ByteStepAt(img, a, t, Meaning(prog.mods[p.m].funcs, prog.mods[p.m].vars, prog.mods[p.m].funcs[p.f], j), next);
  }

  lemma ByteStepAt(img: B.Image, a: nat, t: State<nat>, i: Instr, next: nat)
    requires Fetch(img.mem, a) == Fetched(i, next)
    ensures B.Step(img, a, t) == Perform(img.lay, B.Resolve(img, i, next, t), next, t)
  {
  }

  lemma SourceStepAt(prog: S.Linked, p: S.Pos, s: State<S.Pos>, j: nat)
    requires S.ValidPos(prog, p) && p.m == s.mod
    requires j == SkipMarks(S.ItemsAt(prog, p.m, p.f), p.i) < |S.ItemsAt(prog, p.m, p.f)|
    ensures S.Step(prog, p, s)
            == Perform(prog.lay, S.Resolve(prog, p.m, p.f, S.ItemsAt(prog, p.m, p.f)[j].s, s),
                       S.Pos(p.m, p.f, j + 1), s)
  {
  }

  lemma StatementRelated(
    prog: S.Linked, img: B.Image, m: nat, f: nat, j: nat, next: nat, s: State<S.Pos>, t: State<nat>,
    o: Outcome<S.Pos>, u: Outcome<nat>)
    requires ModulesOk(prog) && Loaded(prog, img) && S.IsBody(prog, m, f)
    requires j < |S.ItemsAt(prog, m, f)| && S.ItemsAt(prog, m, f)[j].Do?
    requires s.mod == m && AtAddr(prog, img, S.Pos(m, f, j + 1), next) && RelState(AddrRel(prog, img), s, t)
    requires var st := S.ItemsAt(prog, m, f)[j].s;
             o == Perform(prog.lay, S.Resolve(prog, m, f, st, s), S.Pos(m, f, j + 1), s)
    requires var i := Meaning(prog.mods[m].funcs, prog.mods[m].vars, prog.mods[m].funcs[f], j);
             u == Perform(img.lay, B.Resolve(img, i, next, t), next, t)
    ensures RelOutcome(AddrRel(prog, img), o, u)
  {
    var i := Meaning(prog.mods[m].funcs, prog.mods[m].vars, prog.mods[m].funcs[f], j);
    ResolveRelated(prog, img, m, f, j, next, s, t);
    PerformRelated(AddrRel(prog, img), prog.lay, S.Resolve(prog, m, f, S.ItemsAt(prog, m, f)[j].s, s),
                   B.Resolve(img, i, next, t), S.Pos(m, f, j + 1), next, s, t);
  }

  lemma CodeLoaded(prog: S.Linked, img: B.Image, m: nat, f: nat) returns (code: seq<byte>)
    requires Loaded(prog, img) && S.IsBody(prog, m, f)
    ensures m < |img.tables| && f < |img.tables[m]|
    ensures CodeOf(prog.mods[m].funcs, prog.mods[m].vars, f) == Some(code)
    ensures PlacedAt(img.mem, img.tables[m][f].item, code)
  {
    EntryAt(prog, img, m, f);
    code := CodeOf(prog.mods[m].funcs, prog.mods[m].vars, f).value;
  }

  lemma NextAt(prog: S.Linked, img: B.Image, m: nat, f: nat, j: nat)
    requires Loaded(prog, img) && S.IsBody(prog, m, f) && j < |S.ItemsAt(prog, m, f)|
    ensures m < |img.tables| && f < |img.tables[m]|
    ensures AtAddr(prog, img, S.Pos(m, f, j + 1), img.tables[m][f].item + PcAt(S.ItemsAt(prog, m, f), j + 1))
  {
    EntryAt(prog, img, m, f);
  }

  lemma FetchAt(prog: S.Linked, img: B.Image, m: nat, f: nat, j: nat)
    requires ModulesOk(prog) && Loaded(prog, img) && S.IsBody(prog, m, f)
    requires j < |S.ItemsAt(prog, m, f)| && S.ItemsAt(prog, m, f)[j].Do?
    ensures m < |img.tables| && f < |img.tables[m]|
    ensures var items, entry := S.ItemsAt(prog, m, f), img.tables[m][f].item;
            Fetch(img.mem, entry + PcAt(items, j))
            == Fetched(Meaning(prog.mods[m].funcs, prog.mods[m].vars, prog.mods[m].funcs[f], j),
                       entry + PcAt(items, j + 1))
  {
    var code := CodeLoaded(prog, img, m, f);
    FetchStatement(prog.mods[m].funcs, prog.mods[m].vars, f, j, code, img.mem, img.tables[m][f].item);
  }

  /** Every run: as long as the label-level run is defined, the byte run of the same length ends in the
      same outcome, with the same data and with link register, call stack and host stack holding the
      addresses of the source positions. */
  lemma {:induction false} RunSimulates(prog: S.Linked, img: B.Image, n: nat, o: Outcome<S.Pos>, u: Outcome<nat>)
    requires ModulesOk(prog) && Loaded(prog, img)
    requires RelOutcome(AddrRel(prog, img), o, u)
    ensures Run(S.Stepper(prog), n, o).Undefined?
            || RelOutcome(AddrRel(prog, img), Run(S.Stepper(prog), n, o), Run(B.Stepper(img), n, u))
  {
    var r := AddrRel(prog, img);
    forall p, a: nat, s, t | r(p, a) && RelState(r, s, t)
      ensures S.Stepper(prog)(p, s).Undefined?
              || RelOutcome(r, S.Stepper(prog)(p, s), B.Stepper(img)(a, t))
    {
      StepSimulates(prog, img, p, a, s, t);
    }
    RunRelated(r, S.Stepper(prog), B.Stepper(img), n, o, u);
  }

  /** A source state determines the byte state it corresponds to. */
  lemma SameAddresses(prog: S.Linked, img: B.Image, s: State<S.Pos>, t: State<nat>, t': State<nat>)
    requires RelState(AddrRel(prog, img), s, t) && RelState(AddrRel(prog, img), s, t')
    ensures t' == t
  {
    forall k | 0 <= k < |t.calls| ensures t'.calls[k] == t.calls[k] {
      assert RelPtr(AddrRel(prog, img), s.calls[k], t.calls[k]);
      assert RelPtr(AddrRel(prog, img), s.calls[k], t'.calls[k]);
    }
    assert t'.calls == t.calls;
    forall k | 0 <= k < |t.host| ensures t'.host[k] == t.host[k] {
      assert AtAddr(prog, img, s.host[k].resume, t.host[k].resume);
      assert AtAddr(prog, img, s.host[k].resume, t'.host[k].resume);
    }
    assert t'.host == t.host;
  }

  lemma SameOutcome(prog: S.Linked, img: B.Image, o: Outcome<S.Pos>, u: Outcome<nat>, u': Outcome<nat>)
    requires RelOutcome(AddrRel(prog, img), o, u) && RelOutcome(AddrRel(prog, img), o, u')
    ensures u' == u
  {
    if !o.Undefined? {
      SameAddresses(prog, img, o.s, u.s, u'.s);
    }
  }
}
