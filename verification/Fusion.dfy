/** Replacing instruction sequences by super-instructions is a correct program transformation. */
module Fusion {
  import opened Words
  import opened Isa
  import opened Program
  import opened Machine
  import opened AssemblerProofs
  import opened SourceVm
  import opened Relate

  // ----- the transformation -----

  predicate IsIns(items: seq<Item>, k: nat, i: Instr) {
    k < |items| && items[k] == Do(Ins(i))
  }

  /** The operand of a one-byte instruction at item `k`, if `op` is what stands there. */
  predicate IsUnary(items: seq<Item>, k: nat, op: Op1) {
    k < |items| && items[k].Do? && items[k].s.Ins? && items[k].s.i.I1? && items[k].s.i.op1 == op
  }

  /** The sequences that have a super-instruction. No label may stand inside one. */
  datatype Group = PushAlloc(n: int) | PopReduxRet(n: int) | ReduxRet(n: int) | PopRet | Single

  function GroupAt(items: seq<Item>, k: nat): Group {
    if IsIns(items, k, I0(Pushlr)) && IsUnary(items, k + 1, Op1.Alloc) then
      PushAlloc(items[k + 1].s.i.a)
    else if IsIns(items, k, I0(Poplr)) && IsUnary(items, k + 1, Op1.Redux)
            && IsIns(items, k + 2, I0(Ret)) then
      PopReduxRet(items[k + 1].s.i.a)
    else if IsUnary(items, k, Op1.Redux) && IsIns(items, k + 1, I0(Ret)) then
      ReduxRet(items[k].s.i.a)
    else if IsIns(items, k, I0(Poplr)) && IsIns(items, k + 1, I0(Ret)) then
      PopRet
    else Single
  }

  function GroupLen(g: Group): nat {
    match g
    case PopReduxRet(_) => 3
    case Single => 1
    case _ => 2
  }

  /** The super-instruction for a sequence. */
  function SuperOf(g: Group): Instr
    requires !g.Single?
  {
    match g
    case PushAlloc(n) => I1(Enter, n)
    case PopReduxRet(n) => I1(Leave, n)
    case ReduxRet(n) => I1(Remit, n)
    case PopRet => I0(Restore)
  }

  function Fused(g: Group, item: Item): Item {
    if g.Single? then item else Do(Ins(SuperOf(g)))
  }

  lemma GroupFits(items: seq<Item>, k: nat)
    requires k < |items|
    ensures k + GroupLen(GroupAt(items, k)) <= |items|
  {
  }

  /** The fused body from item `k` on. */
  function FuseFrom(items: seq<Item>, k: nat): seq<Item>
    requires k <= |items|
    decreases |items| - k
  {
    if k == |items| then []
    else
      var g := GroupAt(items, k);
      GroupFits(items, k);
      [Fused(g, items[k])] + FuseFrom(items, k + GroupLen(g))
  }

  function Fuse(items: seq<Item>): seq<Item> {
    FuseFrom(items, 0)
  }

  function FuseFunc(f: Func): Func {
    match f
    case Body(name, items) => Body(name, Fuse(items))
    case _ => f
  }

  function FuseFuncs(fs: seq<Func>): (r: seq<Func>)
    ensures |r| == |fs| && forall k :: 0 <= k < |fs| ==> r[k] == FuseFunc(fs[k])
  {
    seq(|fs|, k requires 0 <= k < |fs| => FuseFunc(fs[k]))
  }

  function FuseMods(ms: seq<Module>): (r: seq<Module>)
    ensures |r| == |ms|
    ensures forall k :: 0 <= k < |ms| ==> r[k] == ms[k].(funcs := FuseFuncs(ms[k].funcs))
  {
    seq(|ms|, k requires 0 <= k < |ms| => ms[k].(funcs := FuseFuncs(ms[k].funcs)))
  }

  /** Every body of every module fused; labels are resolved afresh by name. */
  function FuseLinked(prog: Linked): Linked {
    prog.(mods := FuseMods(prog.mods))
  }

  // ----- positions correspond -----

  /** Where the groups from item `k` on start, and the end. */
  function Starts(items: seq<Item>, k: nat): (r: seq<nat>)
    requires k <= |items|
    ensures |r| == |FuseFrom(items, k)| + 1 && r[0] == k
    decreases |items| - k
  {
    if k == |items| then [k]
    else
      GroupFits(items, k);
      [k] + Starts(items, k + GroupLen(GroupAt(items, k)))
  }

  /** Each fused item stands for the group at its start; groups follow each other without gaps. */
  lemma {:induction false} StartsAt(items: seq<Item>, k: nat, j: nat)
    requires k <= |items| && j < |FuseFrom(items, k)|
    ensures var st := Starts(items, k);
            var g := GroupAt(items, st[j]);
            && k <= st[j] < |items| && FuseFrom(items, k)[j] == Fused(g, items[st[j]])
            && st[j + 1] == st[j] + GroupLen(g) <= |items|
    decreases |items| - k
  {
    GroupFits(items, k);
    var k' := k + GroupLen(GroupAt(items, k));
    if j > 0 {
      StartsAt(items, k', j - 1);
    } else {
      assert Starts(items, k)[1] == Starts(items, k')[0];
    }
  }

  lemma {:induction false} StartsEnd(items: seq<Item>, k: nat, j: nat)
    requires k <= |items| && j <= |FuseFrom(items, k)|
    ensures var st := Starts(items, k);
            st[j] <= |items| && (st[j] == |items| <==> j == |FuseFrom(items, k)|)
    decreases |items| - k
  {
    if k < |items| {
      GroupFits(items, k);
      if j > 0 {
        StartsEnd(items, k + GroupLen(GroupAt(items, k)), j - 1);
      }
    }
  }

  /** A group starts with a mark or contains none. */
  lemma NoMarkInside(items: seq<Item>, k: nat, lab: string)
    requires k < |items| && items[k] != Mark(lab)
    ensures var k' := k + GroupLen(GroupAt(items, k));
            k' <= |items| && MarkFrom(items, lab, k) == MarkFrom(items, lab, k')
  {
    var k' := k + GroupLen(GroupAt(items, k));
    GroupFits(items, k);
    assert forall i :: k < i < k' ==> items[i].Do?;
    MarkSkip(items, lab, k, k');
  }

  /** Marks are never swallowed: every mark from `k` on starts a group, under the same label. */
  lemma {:induction false} MarkStarts(items: seq<Item>, k: nat, lab: string)
    requires k <= |items|
    ensures Starts(items, k)[MarkFrom(FuseFrom(items, k), lab, 0)] == MarkFrom(items, lab, k)
    decreases |items| - k
  {
    if k < |items| {
      GroupFits(items, k);
      var k' := k + GroupLen(GroupAt(items, k));
      MarkStarts(items, k', lab);
      MarkShift(FuseFrom(items, k), lab);
      assert FuseFrom(items, k)[1..] == FuseFrom(items, k');
      if items[k] != Mark(lab) {
        NoMarkInside(items, k, lab);
      }
    }
  }

  lemma {:induction false} MarkSkip(items: seq<Item>, lab: string, k: nat, k': nat)
    requires k <= k' <= |items| && forall i :: k <= i < k' ==> items[i] != Mark(lab)
    ensures MarkFrom(items, lab, k) == MarkFrom(items, lab, k')
    decreases k' - k
  {
    if k < k' {
      MarkSkip(items, lab, k + 1, k');
    }
  }

  lemma {:induction false} MarkUnique(items: seq<Item>, lab: string, k: nat)
    requires k <= |items| && (k < |items| ==> items[k] == Mark(lab))
    requires forall i :: 0 <= i < k ==> items[i] != Mark(lab)
    ensures MarkFrom(items, lab, 0) == k
  {
  }

  /** Searching a list is searching its tail, one further. */
  lemma {:induction false} MarkShift(items: seq<Item>, lab: string)
    requires items != []
    ensures MarkFrom(items, lab, 0)
            == if items[0] == Mark(lab) then 0 else 1 + MarkFrom(items[1..], lab, 0)
  {
    if items[0] != Mark(lab) {
      var b := MarkFrom(items[1..], lab, 0);
      assert forall i :: 1 <= i < |items| ==> items[i] == items[1..][i - 1];
      MarkUnique(items, lab, 1 + b);
    }
  }

  /** `st` says where each item of `fused` comes from: marks from marks, one for one. */
  predicate MarksMatch(fused: seq<Item>, items: seq<Item>, st: seq<nat>) {
    && |st| == |fused| + 1 && st[|fused|] == |items|
    && forall j :: 0 <= j < |fused| ==> MarkMatches(fused, items, st, j)
  }

  predicate MarkMatches(fused: seq<Item>, items: seq<Item>, st: seq<nat>, j: nat)
    requires j < |fused| && |st| == |fused| + 1
  {
    && st[j] < |items| && (fused[j].Mark? <==> items[st[j]].Mark?)
    && (fused[j].Mark? ==> st[j + 1] == st[j] + 1)
  }

  lemma {:induction false} SkipMatches(fused: seq<Item>, items: seq<Item>, st: seq<nat>, j: nat)
    requires MarksMatch(fused, items, st) && j <= |fused|
    ensures st[j] <= |items| && st[SkipMarks(fused, j)] == SkipMarks(items, st[j])
    decreases |fused| - j
  {
    if j < |fused| {
      assert MarkMatches(fused, items, st, j);
      if fused[j].Mark? {
        SkipMatches(fused, items, st, j + 1);
      }
    }
  }

  /** Skipping marks keeps the correspondence. */
  lemma SkipStarts(items: seq<Item>, j: nat)
    requires j <= |Fuse(items)|
    ensures Starts(items, 0)[j] <= |items|
    ensures Starts(items, 0)[SkipMarks(Fuse(items), j)] == SkipMarks(items, Starts(items, 0)[j])
  {
    forall k | 0 <= k < |Fuse(items)| ensures MarkMatches(Fuse(items), items, Starts(items, 0), k) {
      StartsAt(items, 0, k);
    }
    StartsEnd(items, 0, |Fuse(items)|);
    SkipMatches(Fuse(items), items, Starts(items, 0), j);
  }

  // ----- one group -----

  /** Instructions in sequence, each continuing at the given pointer unless it leaves. */
  function InTurn<P>(lay: Layout, parts: seq<Instr>, ps: seq<P>, s: State<P>): Outcome<P>
    requires |parts| == |ps| > 0
    decreases |parts|
  {
    var o := Perform(lay, Plain(parts[0]), ps[0], s);
    if |parts| == 1 || !o.Running? then o else InTurn(lay, parts[1..], ps[1..], o.s)
  }

  function Parts(g: Group): seq<Instr> {
    match g
    case PushAlloc(n) => [I0(Pushlr), I1(Op1.Alloc, n)]
    case PopReduxRet(n) => [I0(Poplr), I1(Op1.Redux, n), I0(Ret)]
    case ReduxRet(n) => [I1(Op1.Redux, n), I0(Ret)]
    case PopRet => [I0(Poplr), I0(Ret)]
    case Single => []
  }

  /** A super-instruction is its parts in sequence: on every state, overflow, saturation and undefined
      cases included. */
  lemma {:induction false} SuperIsParts<P>(lay: Layout, g: Group, ps: seq<P>, s: State<P>)
    requires !g.Single? && |ps| == GroupLen(g)
    ensures |Parts(g)| == GroupLen(g)
    ensures InTurn(lay, Parts(g), ps, s)
            == Perform(lay, Plain(SuperOf(g)), ps[|ps| - 1], s)
  {
    match g {
      case PushAlloc(n) =>
        assert InTurn(lay, [I1(Op1.Alloc, n)], ps[1..], PushLr(s))
               == Perform(lay, Plain(I1(Op1.Alloc, n)), ps[1], PushLr(s));
      case PopReduxRet(n) =>
        PopReduxRetIsLeave(lay, n, ps, s);
      case ReduxRet(n) =>
        assert Parts(g)[1..] == [I0(Ret)];
      case PopRet =>
        assert Parts(g)[1..] == [I0(Ret)];
    }
  }

  lemma {:induction false} PopReduxRetIsLeave<P>(lay: Layout, n: int, ps: seq<P>, s: State<P>)
    requires |ps| == 3
    ensures InTurn(lay, [I0(Poplr), I1(Op1.Redux, n), I0(Ret)], ps, s) == Perform(lay, Plain(I1(Leave, n)), ps[2], s)
  {
    var parts := [I0(Poplr), I1(Op1.Redux, n), I0(Ret)];
    if s.calls != [] {
      var t := PopLr(s);
      assert parts[1..][1..] == [I0(Ret)] && ps[1..][1..] == [ps[2]];
      assert InTurn(lay, parts[1..], ps[1..], t)
             == if n < 0 then Undefined
                else InTurn(lay, [I0(Ret)], [ps[2]], t.(core := Machine.Redux(n, t.core)));
    }
  }

  /** Allocating before pushing, the order in which documentation/ISA.md lists the parts of `enter`. */
  function AllocThenPush<P>(lay: Layout, n: int, p: P, q: P, s: State<P>): Outcome<P> {
    match Data(lay, s.mod, I1(Op1.Alloc, n), s.core)
    case Done(c) => Perform(lay, Plain(I0(Pushlr)), q, s.(core := c))
    case Trap(c) => Continue(Trap(c), p, s)
    case Stuck => Undefined
  }

  /** It is the same exactly when the cells are there: on overflow, allocating first leaves the link register where
      it is, and `enter` has pushed it. */
  lemma EnterIsAllocThenPushIff<P>(lay: Layout, n: nat, p: P, q: P, s: State<P>)
    requires |s.calls| < lay.callCap
    ensures AllocThenPush(lay, n, p, q, s) == Perform(lay, Plain(I1(Enter, n)), q, s) <==> n <= s.core.osp
  {
    assert Data(lay, s.mod, I1(Op1.Alloc, n), s.core) == Machine.Alloc(n, s.core);
    ExitsDiffer(s.(core := s.core.(err := ERR_STACK_OF)));
  }

  lemma ExitsDiffer<P>(s: State<P>)
    ensures Exit(s) != Exit(PushLr(s))
  {
  }

  /** In the original body, the group at item `i` runs as its fused item would. */
  lemma {:induction false} GroupRuns(prog: Linked, m: nat, f: nat, i: nat, s: State<Pos>)
    requires IsBody(prog, m, f) && s.mod == m
    requires i < |ItemsAt(prog, m, f)| && ItemsAt(prog, m, f)[i].Do?
    ensures var items := ItemsAt(prog, m, f);
            var g := GroupAt(items, i);
            Run(Stepper(prog), GroupLen(g), Running(Pos(m, f, i), s))
            == Perform(prog.lay, SourceVm.Resolve(prog, m, f, Fused(g, items[i]).s, s),
                       Pos(m, f, i + GroupLen(g)), s)
  {
    var g := GroupAt(ItemsAt(prog, m, f), i);
    if g.Single? {
      RunOne(Stepper(prog), Pos(m, f, i), s);
    } else {
      SuperRuns(prog, m, f, i, g, s);
    }
  }

  lemma {:induction false} SuperRuns(prog: Linked, m: nat, f: nat, i: nat, g: Group, s: State<Pos>)
    requires IsBody(prog, m, f) && s.mod == m
    requires i < |ItemsAt(prog, m, f)| && g == GroupAt(ItemsAt(prog, m, f), i) && !g.Single?
    ensures Run(Stepper(prog), GroupLen(g), Running(Pos(m, f, i), s))
            == Perform(prog.lay, Plain(SuperOf(g)), Pos(m, f, i + GroupLen(g)), s)
  {
    GroupFits(ItemsAt(prog, m, f), i);
    PartsStand(ItemsAt(prog, m, f), i);
    SuperIsParts(prog.lay, g, Following(m, f, i, GroupLen(g)), s);
    PartsRun(prog, m, f, i, Parts(g), s);
  }

  /** The parts of a group stand where the group was found. */
  lemma PartsStand(items: seq<Item>, i: nat)
    requires i < |items| && !GroupAt(items, i).Single?
    ensures var parts := Parts(GroupAt(items, i));
            && |parts| == GroupLen(GroupAt(items, i))
            && (forall k :: 0 <= k < |parts| ==>
                  IsIns(items, i + k, parts[k]) && !(parts[k].I1? && parts[k].op1 == Callr))
            && (forall k :: 0 <= k < |parts| - 1 ==> FallsThrough(parts[k]))
  {
  }

  /** The positions after each of `n` items from `i` on. */
  function Following(m: nat, f: nat, i: nat, n: nat): (ps: seq<Pos>)
    ensures |ps| == n && forall k :: 0 <= k < n ==> ps[k] == Pos(m, f, i + k + 1)
  {
    seq(n, k requires 0 <= k < n => Pos(m, f, i + k + 1))
  }

  /** The step at item i + k performs the k-th of the instructions. */
  predicate Performs(
    step: (Pos, State<Pos>) -> Outcome<Pos>, lay: Layout, m: nat, f: nat, i: nat, parts: seq<Instr>, k: nat,
    s: State<Pos>)
    requires k < |parts|
  {
    step(Pos(m, f, i + k), s) == Perform(lay, Plain(parts[k]), Pos(m, f, i + k + 1), s)
  }

  ghost predicate PerformsAll(
    step: (Pos, State<Pos>) -> Outcome<Pos>, lay: Layout, m: nat, f: nat, i: nat, parts: seq<Instr>)
  {
    forall k, s: State<Pos> :: 0 <= k < |parts| && s.mod == m ==> Performs(step, lay, m, f, i, parts, k, s)
  }

  /** Consecutive instructions that fall through to the next, except possibly the last, run in turn. */
  lemma {:induction false} PartsInTurn(
    step: (Pos, State<Pos>) -> Outcome<Pos>, lay: Layout, m: nat, f: nat, i: nat, parts: seq<Instr>, s: State<Pos>)
    requires s.mod == m && parts != [] && PerformsAll(step, lay, m, f, i, parts)
    requires forall k :: 0 <= k < |parts| - 1 ==> FallsThrough(parts[k])
    ensures Run(step, |parts|, Running(Pos(m, f, i), s)) == InTurn(lay, parts, Following(m, f, i, |parts|), s)
    decreases |parts|
  {
    var ps := Following(m, f, i, |parts|);
    var o := Perform(lay, Plain(parts[0]), ps[0], s);
    assert Performs(step, lay, m, f, i, parts, 0, s);
    RunFirst(step, |parts| - 1, Running(Pos(m, f, i), s));
    if |parts| > 1 && o.Running? {
      FallThrough(lay, parts[0], ps[0], s);
      assert ps[1..] == Following(m, f, i + 1, |parts| - 1);
      PerformsRest(step, lay, m, f, i, parts);
      PartsInTurn(step, lay, m, f, i + 1, parts[1..], o.s);
    }
  }

  lemma PerformsRest(
    step: (Pos, State<Pos>) -> Outcome<Pos>, lay: Layout, m: nat, f: nat, i: nat, parts: seq<Instr>)
    requires parts != [] && PerformsAll(step, lay, m, f, i, parts)
    ensures PerformsAll(step, lay, m, f, i + 1, parts[1..])
  {
    var j, rest := i + 1, parts[1..];
    forall k, s: State<Pos> | 0 <= k < |rest| && s.mod == m ensures Performs(step, lay, m, f, j, rest, k, s) {
      assert Performs(step, lay, m, f, i, parts, k + 1, s);
    }
  }

  lemma PartsRun(prog: Linked, m: nat, f: nat, i: nat, parts: seq<Instr>, s: State<Pos>)
    requires IsBody(prog, m, f) && s.mod == m && parts != []
    requires i + |parts| <= |ItemsAt(prog, m, f)|
    requires forall k :: 0 <= k < |parts| ==>
               IsIns(ItemsAt(prog, m, f), i + k, parts[k]) && !(parts[k].I1? && parts[k].op1 == Callr)
    requires forall k :: 0 <= k < |parts| - 1 ==> FallsThrough(parts[k])
    ensures Run(Stepper(prog), |parts|, Running(Pos(m, f, i), s))
            == InTurn(prog.lay, parts, Following(m, f, i, |parts|), s)
  {
    forall k, t: State<Pos> | 0 <= k < |parts| && t.mod == m
      ensures Performs(Stepper(prog), prog.lay, m, f, i, parts, k, t)
    {
      InsStep(prog, m, f, i + k, parts[k], t);
    }
    PartsInTurn(Stepper(prog), prog.lay, m, f, i, parts, s);
  }

  lemma InsStep(prog: Linked, m: nat, f: nat, i: nat, ins: Instr, s: State<Pos>)
    requires IsBody(prog, m, f) && s.mod == m && IsIns(ItemsAt(prog, m, f), i, ins)
    requires !(ins.I1? && ins.op1 == Callr)
    ensures Stepper(prog)(Pos(m, f, i), s) == Perform(prog.lay, Plain(ins), Pos(m, f, i + 1), s)
  {
  }

  /** Instructions that, if they do not stop, go on to the next in the same module. */
  predicate FallsThrough(i: Instr) {
    i == I0(Pushlr) || i == I0(Poplr) || (i.I1? && i.op1 == Op1.Redux)
  }

  lemma FallThrough(lay: Layout, i: Instr, p: Pos, s: State<Pos>)
    requires FallsThrough(i)
    ensures var o := Perform(lay, Plain(i), p, s);
            o.Undefined? || (o.Running? && o.at == p && o.s.mod == s.mod)
  {
  }

  // ----- whole programs -----

  /** Fused position and original position: the start of the same group. */
  predicate SamePlace(prog: Linked, q: Pos, p: Pos) {
    && q.m == p.m && q.f == p.f && IsBody(prog, p.m, p.f)
    && q.i <= |Fuse(ItemsAt(prog, p.m, p.f))|
    && Starts(ItemsAt(prog, p.m, p.f), 0)[q.i] == p.i
  }

  function FuseRel(prog: Linked): (Pos, Pos) -> bool {
    (q, p) => SamePlace(prog, q, p)
  }

  lemma FusedBody(prog: Linked, m: nat, f: nat)
    ensures IsBody(FuseLinked(prog), m, f) <==> IsBody(prog, m, f)
    ensures IsBody(prog, m, f) ==> ItemsAt(FuseLinked(prog), m, f) == Fuse(ItemsAt(prog, m, f))
    ensures IsBody(prog, m, f) ==> SamePlace(prog, Pos(m, f, 0), Pos(m, f, 0))
  {
  }

  lemma SameNames(prog: Linked, m: nat)
    requires m < |prog.mods|
    ensures NameList(FuseLinked(prog).mods[m].funcs) == NameList(prog.mods[m].funcs)
  {
  }

  lemma CalleesRelated(prog: Linked, m: nat, f: nat)
    requires m < |prog.mods| && f < |prog.mods[m].funcs|
    ensures RelCallee(FuseRel(prog), NamedCallee(FuseLinked(prog), m, f), NamedCallee(prog, m, f))
    ensures RelCallee(FuseRel(prog), PointedCallee(FuseLinked(prog), m, f), PointedCallee(prog, m, f))
  {
    FusedBody(prog, m, f);
    var links := prog.mods[m].links;
    if f in links {
      FusedBody(prog, links[f].0, links[f].1);
    }
  }

  lemma PointersRelated(prog: Linked, v: u64)
    ensures RelCallee(FuseRel(prog), SourceVm.PointerCallee(FuseLinked(prog), v),
                      SourceVm.PointerCallee(prog, v))
  {
    var e := FindItem(prog.lay, v, 0);
    if v != 0 && e.Some? && e.value.0 < |prog.mods| && e.value.1 < |prog.mods[e.value.0].funcs| {
      CalleesRelated(prog, e.value.0, e.value.1);
    }
  }

  /** A statement resolves alike in the fused program and in the original. */
  lemma StatementsRelated(prog: Linked, m: nat, f: nat, st: Stmt, t: State<Pos>, s: State<Pos>)
    requires IsBody(prog, m, f) && RelState(FuseRel(prog), t, s)
    ensures IsBody(FuseLinked(prog), m, f)
    ensures RelAction(FuseRel(prog), SourceVm.Resolve(FuseLinked(prog), m, f, st, t),
                      SourceVm.Resolve(prog, m, f, st, s))
  {
    FusedBody(prog, m, f);
    SameNames(prog, m);
    match st {
      case Ins(i) =>
        if i.I1? && i.op1 == Callr && HasReg(s.core, i.a) {
          PointersRelated(prog, Reg(s.core, i.a));
        }
      case Branch(op, lab) =>
        MarkStarts(ItemsAt(prog, m, f), 0, lab);
      case CallFn(name) =>
        if name in NameList(prog.mods[m].funcs) {
          CalleesRelated(prog, m, IndexOf(NameList(prog.mods[m].funcs), name));
        }
      case _ =>
    }
  }

  /** A step at item `j`. */
  lemma StepAt(prog: Linked, q: Pos, t: State<Pos>, j: nat)
    requires ValidPos(prog, q) && q.m == t.mod
    requires j == SkipMarks(ItemsAt(prog, q.m, q.f), q.i) < |ItemsAt(prog, q.m, q.f)|
    ensures var st := ItemsAt(prog, q.m, q.f)[j].s;
            SourceVm.Step(prog, q, t)
            == Perform(prog.lay, SourceVm.Resolve(prog, q.m, q.f, st, t), Pos(q.m, q.f, j + 1), t)
  {
  }

  /** What the fused item for the group at `i` does in the original. */
  function GroupOutcome(prog: Linked, m: nat, f: nat, i: nat, s: State<Pos>): Outcome<Pos>
    requires IsBody(prog, m, f) && i < |ItemsAt(prog, m, f)| && ItemsAt(prog, m, f)[i].Do?
  {
    var items := ItemsAt(prog, m, f);
    var g := GroupAt(items, i);
    Perform(prog.lay, SourceVm.Resolve(prog, m, f, Fused(g, items[i]).s, s), Pos(m, f, i + GroupLen(g)), s)
  }

  /** In the original, that is a run of the group. */
  lemma {:induction false} GroupRunRelated(
    prog: Linked, m: nat, f: nat, i: nat, s: State<Pos>, u: Outcome<Pos>, o: Outcome<Pos>)
    requires IsBody(prog, m, f) && s.mod == m && i < |ItemsAt(prog, m, f)| && ItemsAt(prog, m, f)[i].Do?
    requires var items := ItemsAt(prog, m, f);
             var g := GroupAt(items, i);
             o == Perform(prog.lay, SourceVm.Resolve(prog, m, f, Fused(g, items[i]).s, s),
                          Pos(m, f, i + GroupLen(g)), s)
    requires RelOutcome(FuseRel(prog), u, o)
    ensures StepsTo(FuseRel(prog), u, Stepper(prog), Pos(m, f, i), s)
  {
    GroupRuns(prog, m, f, i, s);
    StepsIn(FuseRel(prog), u, Stepper(prog), Pos(m, f, i), s, GroupLen(GroupAt(ItemsAt(prog, m, f), i)));
  }

  /** The step of the fused program at item `j`, and where it stands in the original. */
  lemma {:induction false} FusedStepAt(prog: Linked, q: Pos, t: State<Pos>, p: Pos, s: State<Pos>, j: nat, i: nat)
    returns (st: Stmt, next: Pos, next': Pos)
    requires SamePlace(prog, q, p) && p.m == t.mod
    requires j == SkipMarks(Fuse(ItemsAt(prog, p.m, p.f)), q.i) < |Fuse(ItemsAt(prog, p.m, p.f))|
    requires i == Starts(ItemsAt(prog, p.m, p.f), 0)[j] < |ItemsAt(prog, p.m, p.f)|
    requires ItemsAt(prog, p.m, p.f)[i].Do?
    ensures IsBody(FuseLinked(prog), p.m, p.f) && FuseRel(prog)(next, next')
    ensures SourceVm.Step(FuseLinked(prog), q, t)
            == Perform(prog.lay, SourceVm.Resolve(FuseLinked(prog), p.m, p.f, st, t), next, t)
    ensures GroupOutcome(prog, p.m, p.f, i, s)
            == Perform(prog.lay, SourceVm.Resolve(prog, p.m, p.f, st, s), next', s)
  {
    var items := ItemsAt(prog, p.m, p.f);
    st := Fused(GroupAt(items, i), items[i]).s;
    next, next' := Pos(q.m, q.f, j + 1), Pos(p.m, p.f, i + GroupLen(GroupAt(items, i)));
    FusedBody(prog, p.m, p.f);
    FusedPlace(prog, p.m, p.f, j, i);
    StepAt(FuseLinked(prog), q, t, j);
    OutcomeAt(prog, p.m, p.f, i, s, st, next');
  }

  lemma OutcomeAt(prog: Linked, m: nat, f: nat, i: nat, s: State<Pos>, st: Stmt, next: Pos)
    requires IsBody(prog, m, f) && i < |ItemsAt(prog, m, f)| && ItemsAt(prog, m, f)[i].Do?
    requires var items := ItemsAt(prog, m, f);
             st == Fused(GroupAt(items, i), items[i]).s && next == Pos(m, f, i + GroupLen(GroupAt(items, i)))
    ensures GroupOutcome(prog, m, f, i, s) == Perform(prog.lay, SourceVm.Resolve(prog, m, f, st, s), next, s)
  {
  }

  lemma FusedPlace(prog: Linked, m: nat, f: nat, j: nat, i: nat)
    requires IsBody(prog, m, f) && j < |Fuse(ItemsAt(prog, m, f))|
    requires i == Starts(ItemsAt(prog, m, f), 0)[j] < |ItemsAt(prog, m, f)| && ItemsAt(prog, m, f)[i].Do?
    ensures var items := ItemsAt(prog, m, f);
            var g := GroupAt(items, i);
            && FuseRel(prog)(Pos(m, f, j + 1), Pos(m, f, i + GroupLen(g)))
            && Fused(g, items[i]).Do? && Fuse(items)[j] == Fused(g, items[i])
  {
    StartsAt(ItemsAt(prog, m, f), 0, j);
  }

  lemma GroupRelated(prog: Linked, m: nat, f: nat, st: Stmt, t: State<Pos>, s: State<Pos>, q: Pos, p: Pos)
    requires IsBody(prog, m, f) && RelState(FuseRel(prog), t, s) && FuseRel(prog)(q, p)
    ensures IsBody(FuseLinked(prog), m, f)
    ensures RelOutcome(FuseRel(prog),
                       Perform(prog.lay, SourceVm.Resolve(FuseLinked(prog), m, f, st, t), q, t),
                       Perform(prog.lay, SourceVm.Resolve(prog, m, f, st, s), p, s))
  {
    StatementsRelated(prog, m, f, st, t, s);
    PerformRelated(FuseRel(prog), prog.lay, SourceVm.Resolve(FuseLinked(prog), m, f, st, t),
                   SourceVm.Resolve(prog, m, f, st, s), q, p, t, s);
  }

  /** The step of the fused program does what the group's fused item does in the original. */
  lemma FusedOutcome(prog: Linked, q: Pos, t: State<Pos>, p: Pos, s: State<Pos>, j: nat, i: nat, o: Outcome<Pos>)
    requires SamePlace(prog, q, p) && RelState(FuseRel(prog), t, s) && p.m == s.mod
    requires j == SkipMarks(Fuse(ItemsAt(prog, p.m, p.f)), q.i) < |Fuse(ItemsAt(prog, p.m, p.f))|
    requires i == Starts(ItemsAt(prog, p.m, p.f), 0)[j] < |ItemsAt(prog, p.m, p.f)|
    requires ItemsAt(prog, p.m, p.f)[i].Do? && o == GroupOutcome(prog, p.m, p.f, i, s)
    ensures RelOutcome(FuseRel(prog), SourceVm.Step(FuseLinked(prog), q, t), o)
  {
    var st, next, next' := FusedStepAt(prog, q, t, p, s, j, i);
    GroupRelated(prog, p.m, p.f, st, t, s, next, next');
  }

  lemma OutcomeRuns(prog: Linked, m: nat, f: nat, i: nat, s: State<Pos>, u: Outcome<Pos>, o: Outcome<Pos>)
    requires IsBody(prog, m, f) && s.mod == m && i < |ItemsAt(prog, m, f)| && ItemsAt(prog, m, f)[i].Do?
    requires o == GroupOutcome(prog, m, f, i, s) && RelOutcome(FuseRel(prog), u, o)
    ensures StepsTo(FuseRel(prog), u, Stepper(prog), Pos(m, f, i), s)
  {
    GroupRunRelated(prog, m, f, i, s, u, o);
  }

  /** The step of the fused program at item `j` is a run of the group it stands for. */
  lemma FusedGroup(prog: Linked, q: Pos, t: State<Pos>, p: Pos, s: State<Pos>, j: nat, i: nat, u: Outcome<Pos>)
    requires SamePlace(prog, q, p) && RelState(FuseRel(prog), t, s) && p.m == s.mod
    requires j == SkipMarks(Fuse(ItemsAt(prog, p.m, p.f)), q.i) < |Fuse(ItemsAt(prog, p.m, p.f))|
    requires i == Starts(ItemsAt(prog, p.m, p.f), 0)[j] < |ItemsAt(prog, p.m, p.f)|
    requires ItemsAt(prog, p.m, p.f)[i].Do? && u == SourceVm.Step(FuseLinked(prog), q, t)
    ensures StepsTo(FuseRel(prog), u, Stepper(prog), Pos(p.m, p.f, i), s)
  {
    var o := GroupOutcome(prog, p.m, p.f, i, s);
    FusedOutcome(prog, q, t, p, s, j, i, o);
    OutcomeRuns(prog, p.m, p.f, i, s, u, o);
  }

  /** The next statement of the original, and the fused program's step as a run from there. */
  lemma FusedSide(prog: Linked, q: Pos, t: State<Pos>, p: Pos, s: State<Pos>, u: Outcome<Pos>) returns (i: nat)
    requires SamePlace(prog, q, p) && RelState(FuseRel(prog), t, s) && p.m == s.mod
    requires ValidPos(prog, p) && SkipMarks(ItemsAt(prog, p.m, p.f), p.i) < |ItemsAt(prog, p.m, p.f)|
    requires u == SourceVm.Step(FuseLinked(prog), q, t)
    ensures i == SkipMarks(ItemsAt(prog, p.m, p.f), p.i)
    ensures StepsTo(FuseRel(prog), u, Stepper(prog), Pos(p.m, p.f, i), s)
  {
    var items := ItemsAt(prog, p.m, p.f);
    i := SkipMarks(items, p.i);
    var j := SkipMarks(Fuse(items), q.i);
    SkipStarts(items, q.i);
    StartsEnd(items, 0, j);
    FusedGroup(prog, q, t, p, s, j, i, u);
  }

  /** Where the original is undefined for want of a statement, so is the fused program. */
  lemma FusedEnds(prog: Linked, q: Pos, t: State<Pos>, p: Pos, s: State<Pos>)
    requires SamePlace(prog, q, p) && t.mod == s.mod && ValidPos(prog, p)
    requires p.m != s.mod || SkipMarks(ItemsAt(prog, p.m, p.f), p.i) == |ItemsAt(prog, p.m, p.f)|
    ensures SourceVm.Step(FuseLinked(prog), q, t) == Undefined == SourceVm.Step(prog, p, s)
  {
    var items := ItemsAt(prog, p.m, p.f);
    FusedBody(prog, p.m, p.f);
    SkipStarts(items, q.i);
    StartsEnd(items, 0, SkipMarks(Fuse(items), q.i));
    StartsEnd(items, 0, q.i);
  }

  /** One step of the fused program is one to three steps of the original. */
  lemma FusedStep(prog: Linked, q: Pos, t: State<Pos>, p: Pos, s: State<Pos>)
    requires SamePlace(prog, q, p) && RelState(FuseRel(prog), t, s)
    ensures StepsTo(FuseRel(prog), Stepper(FuseLinked(prog))(q, t), Stepper(prog), p, s)
  {
    StartsEnd(ItemsAt(prog, p.m, p.f), 0, q.i);
    if p.m == s.mod && SkipMarks(ItemsAt(prog, p.m, p.f), p.i) < |ItemsAt(prog, p.m, p.f)| {
      var u := Stepper(FuseLinked(prog))(q, t);
      var i := FusedSide(prog, q, t, p, s, u);
      StepsFromMark(prog, p, i, s, u);
    } else {
      FusedEnds(prog, q, t, p, s);
      EndSteps(prog, p, s);
    }
  }

  lemma EndSteps(prog: Linked, p: Pos, s: State<Pos>)
    requires SourceVm.Step(prog, p, s) == Undefined
    ensures StepsTo(FuseRel(prog), Undefined, Stepper(prog), p, s)
  {
    RunOne(Stepper(prog), p, s);
    StepsIn(FuseRel(prog), Undefined, Stepper(prog), p, s, 1);
  }

  lemma StepsFromMark(prog: Linked, p: Pos, i: nat, s: State<Pos>, u: Outcome<Pos>)
    requires ValidPos(prog, p) && i == SkipMarks(ItemsAt(prog, p.m, p.f), p.i)
    ensures StepsTo(FuseRel(prog), u, Stepper(prog), Pos(p.m, p.f, i), s)
            ==> StepsTo(FuseRel(prog), u, Stepper(prog), p, s)
  {
    assert SkipMarks(ItemsAt(prog, p.m, p.f), i) == i;
    StepsFrom(FuseRel(prog), u, Stepper(prog), p, Pos(p.m, p.f, i), s);
  }

  lemma FusedStutters(prog: Linked)
    ensures Stutters(FuseRel(prog), Stepper(FuseLinked(prog)), Stepper(prog))
  {
    forall q, t, p, s | FuseRel(prog)(q, p) && RelState(FuseRel(prog), t, s)
      ensures StepsTo(FuseRel(prog), Stepper(FuseLinked(prog))(q, t), Stepper(prog), p, s)
    {
      FusedStep(prog, q, t, p, s);
    }
  }

  /** Every run of the fused program is a run of the original with the same outcome. */
  lemma FusedRunIsRun(prog: Linked, n: nat, u: Outcome<Pos>, o: Outcome<Pos>) returns (k: nat)
    requires RelOutcome(FuseRel(prog), u, o)
    ensures k <= 3 * n && (Run(Stepper(FuseLinked(prog)), n, u).Running? ==> n <= k)
    ensures RelOutcome(FuseRel(prog), Run(Stepper(FuseLinked(prog)), n, u), Run(Stepper(prog), k, o))
  {
    FusedStutters(prog);
    k := CoarseRunIsRun(FuseRel(prog), Stepper(FuseLinked(prog)), Stepper(prog), n, u, o);
  }

  /** Every run of the original that comes to an end does so fused, in no more steps and with the same
      outcome: the same operand stack, memory, condition and error, and link register and call stack
      holding the corresponding positions. */
  lemma RunIsFusedRun(prog: Linked, k: nat, u: Outcome<Pos>, o: Outcome<Pos>) returns (n: nat)
    requires RelOutcome(FuseRel(prog), u, o) && !Run(Stepper(prog), k, o).Running?
    ensures n <= k
    ensures RelOutcome(FuseRel(prog), Run(Stepper(FuseLinked(prog)), n, u), Run(Stepper(prog), k, o))
  {
    FusedStutters(prog);
    n := RunIsCoarseRun(FuseRel(prog), Stepper(FuseLinked(prog)), Stepper(prog), k, u, o);
  }
}
