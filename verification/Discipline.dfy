/** Call discipline over whole runs: in a program whose bodies take and give back their cells and save
    their link register in a balanced way, every completed call resumes after the call with both stacks
    as they were, through nested calls within and across modules. */
module Discipline {
  import opened Words
  import opened Isa
  import opened Program
  import opened Machine
  import opened SourceVm
  import opened AssemblerProofs

  // ----- balanced bodies -----

  /** What a function has done to the stacks at some position of its body: the cells it has taken from the
      operand stack since its entry, and whether its link register is on the call stack. */
  datatype Frame = Frame(cells: nat, saved: bool)

  /** A frame for every item of every body. */
  type Framing = (nat, nat, nat) -> Frame

  function FrameAt(fr: Framing, p: Pos): Frame {
    fr(p.m, p.f, p.i)
  }

  /** The frame after an instruction that goes on to the next; `None` for those that do not, and for those that
      give back what was not taken. */
  function Flow(fr: Frame, i: Instr): Option<Frame> {
    match i
    case I0(Pushlr) => if fr.saved then None else Some(fr.(saved := true))
    case I0(Poplr) => if fr.saved then Some(fr.(saved := false)) else None
    case I1(Enter, n) => if 0 <= n && !fr.saved then Some(Frame(fr.cells + n, true)) else None
    case I1(Alloc, n) => if 0 <= n then Some(fr.(cells := fr.cells + n)) else None
    case I1(Redux, n) => if 0 <= n <= fr.cells then Some(fr.(cells := fr.cells - n)) else None
    case I1(Callr, _) => if fr.saved then Some(fr) else None
    case _ => if IsFrame(i) then None else Some(fr)
  }

  /** The instruction goes back to the caller and gives back everything. */
  predicate Closes(fr: Frame, i: Instr) {
    || (fr.saved && (i == I1(Leave, fr.cells) || (i == I0(Restore) && fr.cells == 0)))
    || (!fr.saved && (i == I1(Remit, fr.cells) || (i == I0(Ret) && fr.cells == 0)))
  }

  /** A call by name within the module needs the link register saved; one into another module does not. */
  predicate MayCall(fr: Frame, funcs: seq<Func>, name: string) {
    fr.saved || (var k := IndexOf(NameList(funcs), name); k < |funcs| && !funcs[k].Body?)
  }

  /** Item `k` passes its frame on to whatever may follow it. */
  predicate ItemKept(prog: Linked, fr: Framing, m: nat, f: nat, k: nat)
    requires IsBody(prog, m, f) && k < |ItemsAt(prog, m, f)|
  {
    var here, next := fr(m, f, k), fr(m, f, k + 1);
    match ItemsAt(prog, m, f)[k]
    case Mark(_) => next == here
    case Do(Ins(i)) => Closes(here, i) || Flow(here, i) == Some(next)
    case Do(Branch(op, lab)) => fr(m, f, MarkIndex(ItemsAt(prog, m, f), lab)) == here && (op == Jmp || next == here)
    case Do(CallFn(name)) => MayCall(here, prog.mods[m].funcs, name) && next == here
    case Do(_) => next == here
  }

  predicate Balanced(prog: Linked, fr: Framing, m: nat, f: nat)
    requires IsBody(prog, m, f)
  {
    && fr(m, f, 0) == Frame(0, false)
    && forall k :: 0 <= k < |ItemsAt(prog, m, f)| ==> ItemKept(prog, fr, m, f, k)
  }

  ghost predicate ProgramBalanced(prog: Linked, fr: Framing) {
    forall m, f :: IsBody(prog, m, f) ==> Balanced(prog, fr, m, f)
  }

  /** The usual shape: `enter n` first, `leave n` wherever the function ends, allocation nowhere else, and no jump
      before the entry. */
  predicate EntersAndLeaves(prog: Linked, m: nat, f: nat, n: nat)
    requires IsBody(prog, m, f)
  {
    var items := ItemsAt(prog, m, f);
    && items != [] && items[0] == Do(Ins(I1(Enter, n)))
    && forall k :: 0 < k < |items| ==>
         match items[k]
         case Do(Ins(i)) => i == I1(Leave, n) || Flow(Frame(n, true), i) == Some(Frame(n, true))
         case Do(Branch(_, lab)) => MarkIndex(items, lab) > 0
         case _ => true
  }

  /** It is balanced, with `n` cells taken everywhere past the entry. */
  lemma EnterLeaveIsBalanced(prog: Linked, fr: Framing, m: nat, f: nat, n: nat)
    requires IsBody(prog, m, f) && EntersAndLeaves(prog, m, f, n)
    requires forall i :: fr(m, f, i) == if i == 0 then Frame(0, false) else Frame(n, true)
    ensures Balanced(prog, fr, m, f)
  {
    forall k | 0 <= k < |ItemsAt(prog, m, f)| ensures ItemKept(prog, fr, m, f, k) {
    }
  }

  /** Labels do not change the frame. */
  lemma {:induction false} FrameAfterMarks(prog: Linked, fr: Framing, m: nat, f: nat, i: nat)
    requires IsBody(prog, m, f) && Balanced(prog, fr, m, f) && i <= |ItemsAt(prog, m, f)|
    ensures fr(m, f, SkipMarks(ItemsAt(prog, m, f), i)) == fr(m, f, i)
    decreases |ItemsAt(prog, m, f)| - i
  {
    var items := ItemsAt(prog, m, f);
    if i < |items| && items[i].Mark? {
      assert ItemKept(prog, fr, m, f, i);
      FrameAfterMarks(prog, fr, m, f, i + 1);
    }
  }

  // ----- activations -----

  /** One call in progress: the function, and at its entry the operand stack pointer, the depths of
      the call stack and of nested execution loops, and the link register. */
  datatype Act = Act(m: nat, f: nat, osp: nat, csp: nat, host: nat, ret: Option<Pos>)

  predicate InBody(prog: Linked, a: Act, p: Pos) {
    ValidPos(prog, p) && p.m == a.m && p.f == a.f
  }

  /** `a` is running: the stacks differ from those at its entry by its frame. */
  predicate Active(prog: Linked, fr: Framing, a: Act, p: Pos, s: State<Pos>) {
    && InBody(prog, a, p) && s.mod == a.m && |s.host| == a.host && a.osp <= |s.core.stack|
    && InFrame(FrameAt(fr, p), a, s.core.osp, s.calls, s.lr)
  }

  predicate InFrame(fr: Frame, a: Act, osp: nat, calls: seq<Option<Pos>>, lr: Option<Pos>) {
    && osp + fr.cells == a.osp
    && if fr.saved then |calls| == a.csp + 1 && calls[a.csp] == a.ret else |calls| == a.csp && lr == a.ret
  }

  /** `a` waits for `b`, which it called within its module or in another. */
  predicate Waits(prog: Linked, fr: Framing, a: Act, b: Act, s: State<Pos>) {
    && a.osp <= |s.core.stack| && a.csp < |s.calls| && s.calls[a.csp] == a.ret
    && if b.ret.Some? then
         && b.m == a.m && b.host == a.host && WaitsAt(prog, fr, a, b, b.ret.value)
         && FrameAt(fr, b.ret.value).saved && b.csp == a.csp + 1
       else
         && a.host < |s.host| && b.host == a.host + 1 && s.host[a.host].mod == a.m
         && WaitsAt(prog, fr, a, b, s.host[a.host].resume)
         && b.csp == a.csp + (if FrameAt(fr, s.host[a.host].resume).saved then 2 else 1)
  }

  predicate WaitsAt(prog: Linked, fr: Framing, a: Act, b: Act, p: Pos) {
    InBody(prog, a, p) && b.osp + FrameAt(fr, p).cells == a.osp
  }

  /** The stacks of the host, below those of the first activation. */
  datatype Base = Base(calls: seq<Option<Pos>>, host: seq<Host<Pos>>)

  /** The activations since some entry: the first is that entry's, each waits for the next, the last
      is running, and nothing below the first has been touched. */
  ghost predicate Inv(prog: Linked, fr: Framing, base: Base, acts: seq<Act>, p: Pos, s: State<Pos>) {
    && acts != [] && acts[0].csp == |base.calls| && acts[0].host == |base.host|
    && base.calls <= s.calls && base.host <= s.host && s.core.err == ERR_NONE
    && Active(prog, fr, acts[|acts| - 1], p, s)
    && (forall k :: 0 <= k < |acts| - 1 ==> Waits(prog, fr, acts[k], acts[k + 1], s))
    && (forall j, k :: 0 <= j < k < |acts| ==> acts[j].csp < acts[k].csp && acts[j].host <= acts[k].host)
  }

  ghost predicate Keeps(prog: Linked, fr: Framing, base: Base, acts: seq<Act>, o: Outcome<Pos>) {
    o.Running? && Inv(prog, fr, base, acts, o.at, o.s)
  }

  /** The call of `a` has come back: control went wherever the link register it was entered with
      leads, with the operand stack pointer and both stacks as they were at its entry. */
  ghost predicate Back(a: Act, base: Base, o: Outcome<Pos>) {
    exists c: Core :: c.osp == a.osp && o == Return(State(c, a.ret, base.calls, base.host, a.m))
  }

  /** An error was raised, or control is about to run a function with another module's tables in
      force (which is undefined). */
  predicate Errored(o: Outcome<Pos>) {
    o.Undefined? || o.s.core.err != ERR_NONE || Misplaced(o)
  }

  predicate Misplaced(o: Outcome<Pos>) {
    o.Running? && o.at.m != o.s.mod
  }

  /** What a step of a call in good order may lead to: an error, the end of the call, or more of it. */
  ghost predicate KeptOrBack(prog: Linked, fr: Framing, base: Base, act: Act, acts: seq<Act>, o: Outcome<Pos>) {
    || Errored(o) || Back(act, base, o)
    || (acts != [] && acts[0] == act && Keeps(prog, fr, base, acts, o))
  }

  // ----- one step -----

  /** Going on in the same activation: only the last frame, and what is above it, has changed. */
  lemma Goes(prog: Linked, fr: Framing, base: Base, acts: seq<Act>, p: Pos, s: State<Pos>, q: Pos, t: State<Pos>)
    requires Inv(prog, fr, base, acts, p, s)
    requires Active(prog, fr, acts[|acts| - 1], q, t) && t.core.err == ERR_NONE
    requires t.host == s.host && |t.core.stack| == |s.core.stack|
    requires var n := acts[|acts| - 1].csp; n <= |t.calls| && n <= |s.calls| && t.calls[..n] == s.calls[..n]
    ensures Keeps(prog, fr, base, acts, Running(q, t))
  {
    var n := acts[|acts| - 1].csp;
    forall k | 0 <= k < |acts| - 1 ensures Waits(prog, fr, acts[k], acts[k + 1], t) {
      assert Waits(prog, fr, acts[k], acts[k + 1], s);
      assert acts[k].csp < n;
      assert t.calls[acts[k].csp] == t.calls[..n][acts[k].csp] == s.calls[acts[k].csp];
    }
    BaseBelow(base.calls, s.calls, t.calls, n);
  }

  lemma BaseBelow<T>(base: seq<T>, s: seq<T>, t: seq<T>, n: nat)
    requires base <= s && |base| <= n <= |s| && n <= |t| && t[..n] == s[..n]
    ensures base <= t
  {
    assert base == s[..n][..|base|];
  }

  /** Instructions on data, allocation included. */
  lemma DataKeeps(lay: Layout, mod: nat, i: Instr, c: Core, fr: Frame, next: Frame)
    requires !IsFrame(i) && Flow(fr, i) == Some(next) && c.osp + fr.cells <= |c.stack|
    ensures next.saved == fr.saved
    ensures var e := Data(lay, mod, i, c);
            && (e.Done? ==>
                  e.c.osp + next.cells == c.osp + fr.cells && |e.c.stack| == |c.stack| && e.c.err == c.err)
            && (e.Trap? ==> e.c.err != ERR_NONE)
  {
  }

  lemma DataGoes(prog: Linked, fr: Framing, base: Base, acts: seq<Act>, p: Pos, s: State<Pos>, i: Instr, q: Pos,
                 here: Frame)
    requires Inv(prog, fr, base, acts, p, s) && InBody(prog, acts[|acts| - 1], q)
    requires here == FrameAt(fr, p) && !IsFrame(i) && Flow(here, i) == Some(FrameAt(fr, q))
    ensures var o := Perform(prog.lay, Plain(i), q, s);
            Errored(o) || Keeps(prog, fr, base, acts, o)
  {
    DataKeeps(prog.lay, s.mod, i, s.core, here, FrameAt(fr, q));
    var e := Data(prog.lay, s.mod, i, s.core);
    if e.Done? {
      Goes(prog, fr, base, acts, p, s, q, s.(core := e.c));
    } else if e.Trap? {
      ExitKeepsCore(s.(core := e.c));
    }
  }

  lemma ExitKeepsCore(s: State<Pos>)
    ensures Exit(s).Undefined? || Exit(s).s.core == s.core
  {
  }

  /** Saving and taking back the link register, and entering a frame. */
  lemma FrameGoes(prog: Linked, fr: Framing, base: Base, acts: seq<Act>, p: Pos, s: State<Pos>, i: Instr, q: Pos,
                  here: Frame)
    requires Inv(prog, fr, base, acts, p, s) && InBody(prog, acts[|acts| - 1], q)
    requires here == FrameAt(fr, p) && IsFrame(i) && Flow(here, i) == Some(FrameAt(fr, q))
    ensures var o := Perform(prog.lay, Plain(i), q, s);
            Errored(o) || Keeps(prog, fr, base, acts, o)
  {
    if i == I0(Poplr) {
      Goes(prog, fr, base, acts, p, s, q, PopLr(s));
    } else if |s.calls| < prog.lay.callCap {
      if i == I0(Pushlr) {
        Goes(prog, fr, base, acts, p, s, q, PushLr(s));
      } else {
        EnterGoes(prog, fr, base, acts, p, s, i.a, q);
      }
    }
  }

  lemma EnterGoes(prog: Linked, fr: Framing, base: Base, acts: seq<Act>, p: Pos, s: State<Pos>, n: nat, q: Pos)
    requires Inv(prog, fr, base, acts, p, s) && InBody(prog, acts[|acts| - 1], q)
    requires !FrameAt(fr, p).saved && FrameAt(fr, q) == Frame(FrameAt(fr, p).cells + n, true)
    ensures var o := Continue(Machine.Alloc(n, s.core), q, PushLr(s));
            Errored(o) || Keeps(prog, fr, base, acts, o)
  {
    if n <= s.core.osp {
      Goes(prog, fr, base, acts, p, s, q, PushLr(s).(core := s.core.(osp := s.core.osp - n)));
    } else {
      ExitKeepsCore(PushLr(s).(core := s.core.(err := ERR_STACK_OF)));
    }
  }

  /** The state in which a closing instruction goes back is that of the entry. */
  ghost predicate Closed(a: Act, s: State<Pos>, t: State<Pos>) {
    && t.lr == a.ret && |t.calls| == a.csp && t.calls <= s.calls && t.host == s.host && t.mod == s.mod
    && t.core.osp == a.osp && t.core == s.core.(osp := a.osp)
  }

  lemma Closing(prog: Linked, fr: Framing, a: Act, p: Pos, s: State<Pos>, i: Instr, next: Pos) returns (t: State<Pos>)
    requires Active(prog, fr, a, p, s) && Closes(FrameAt(fr, p), i)
    ensures Perform(prog.lay, Plain(i), next, s) == Return(t) && Closed(a, s, t)
  {
    var n := FrameAt(fr, p).cells;
    var c := s.core.(osp := s.core.osp + n);
    t := if FrameAt(fr, p).saved then PopLr(s).(core := c) else s.(core := c);
  }

  /** Going back from the last activation. */
  lemma Leaves(prog: Linked, fr: Framing, base: Base, acts: seq<Act>, p: Pos, s: State<Pos>, t: State<Pos>)
    requires Inv(prog, fr, base, acts, p, s) && Closed(acts[|acts| - 1], s, t)
    ensures KeptOrBack(prog, fr, base, acts[0], acts[..|acts| - 1], Return(t))
  {
    if |acts| == 1 {
      assert t.calls == base.calls && t.host == base.host;
      assert t == State(t.core, acts[0].ret, base.calls, base.host, acts[0].m);
    } else {
      LeavesInner(prog, fr, base, acts, p, s, t);
    }
  }

  lemma LeavesInner(prog: Linked, fr: Framing, base: Base, acts: seq<Act>, p: Pos, s: State<Pos>, t: State<Pos>)
    requires Inv(prog, fr, base, acts, p, s) && |acts| > 1 && Closed(acts[|acts| - 1], s, t)
    ensures Keeps(prog, fr, base, acts[..|acts| - 1], Return(t))
  {
    var b, a := acts[|acts| - 1], acts[|acts| - 2];
    var rest := acts[..|acts| - 1];
    var o := Return(t);
    assert Waits(prog, fr, a, b, s);
    assert rest[|rest| - 1] == a;
    CallerActive(prog, fr, a, b, s, t);
    forall k | 0 <= k < |rest| - 1 ensures Waits(prog, fr, rest[k], rest[k + 1], o.s) {
      assert Waits(prog, fr, acts[k], acts[k + 1], s);
      assert acts[k].csp < a.csp && acts[k].host <= a.host;
      assert acts[k + 1].host <= a.host;
    }
  }

  /** The caller is running again. */
  lemma CallerActive(prog: Linked, fr: Framing, a: Act, b: Act, s: State<Pos>, t: State<Pos>)
    requires Waits(prog, fr, a, b, s) && Closed(b, s, t) && s.mod == b.m && |s.host| == b.host
    ensures var o := Return(t);
            && o.Running? && Active(prog, fr, a, o.at, o.s) && o.s.core == t.core
            && o.s.calls <= t.calls && |o.s.calls| >= a.csp
            && o.s.host <= t.host && |o.s.host| == a.host
  {
  }

  /** Calling from the last activation. */
  lemma Enters(prog: Linked, fr: Framing, base: Base, acts: seq<Act>, p: Pos, s: State<Pos>, callee: Callee<Pos>,
               next: Pos) returns (acts': seq<Act>)
    requires Inv(prog, fr, base, acts, p, s) && ProgramBalanced(prog, fr)
    requires InBody(prog, acts[|acts| - 1], next) && FrameAt(fr, next) == FrameAt(fr, p)
    requires EntryOrError(prog, callee) && (callee.Local? ==> FrameAt(fr, p).saved)
    ensures KeptOrBack(prog, fr, base, acts[0], acts', Machine.Call(prog.lay, callee, next, s))
  {
    acts' := acts;
    match callee {
      case Local(e) =>
        acts' := acts + [Act(e.m, e.f, s.core.osp, |s.calls|, |s.host|, Some(next))];
        EntersLocal(prog, fr, base, acts, p, s, e, next);
      case Foreign(e, owner) =>
        acts' := acts + [Act(e.m, e.f, s.core.osp, |s.calls| + 1, |s.host| + 1, None)];
        EntersForeign(prog, fr, base, acts, p, s, e, next);
      case Fail(err) =>
        ExitKeepsCore(s.(core := s.core.(err := err)));
      case NoCode =>
    }
  }

  /** What call statements resolve to: an error, or the entry of a body. */
  predicate EntryOrError(prog: Linked, callee: Callee<Pos>) {
    && (callee.Fail? ==> callee.err != ERR_NONE)
    && (callee.Local? || callee.Foreign? ==> IsBody(prog, callee.entry.m, callee.entry.f) && callee.entry.i == 0)
    && (callee.Foreign? ==> callee.owner == callee.entry.m)
  }

  lemma EntersLocal(prog: Linked, fr: Framing, base: Base, acts: seq<Act>, p: Pos, s: State<Pos>, e: Pos, next: Pos)
    requires Inv(prog, fr, base, acts, p, s) && ProgramBalanced(prog, fr)
    requires InBody(prog, acts[|acts| - 1], next) && FrameAt(fr, next) == FrameAt(fr, p) && FrameAt(fr, p).saved
    requires IsBody(prog, e.m, e.f) && e.i == 0
    ensures var o := Machine.Call(prog.lay, Local(e), next, s);
            || Errored(o)
            || Keeps(prog, fr, base, acts + [Act(e.m, e.f, s.core.osp, |s.calls|, |s.host|, Some(next))], o)
  {
    if e.m == s.mod {
      var t := s.(lr := Some(next));
      assert Balanced(prog, fr, e.m, e.f);
      AddAct(prog, fr, base, acts, p, s, Act(e.m, e.f, s.core.osp, |s.calls|, |s.host|, Some(next)), e, t);
    }
  }

  lemma EntersForeign(prog: Linked, fr: Framing, base: Base, acts: seq<Act>, p: Pos, s: State<Pos>, e: Pos, next: Pos)
    requires Inv(prog, fr, base, acts, p, s) && ProgramBalanced(prog, fr)
    requires InBody(prog, acts[|acts| - 1], next) && FrameAt(fr, next) == FrameAt(fr, p)
    requires IsBody(prog, e.m, e.f) && e.i == 0
    ensures var o := Machine.Call(prog.lay, Foreign(e, e.m), next, s);
            || Errored(o)
            || Keeps(prog, fr, base, acts + [Act(e.m, e.f, s.core.osp, |s.calls| + 1, |s.host| + 1, None)], o)
  {
    if |s.calls| < prog.lay.callCap {
      var t := PushLr(s).(lr := None, host := s.host + [Host(next, s.mod)], mod := e.m);
      assert Balanced(prog, fr, e.m, e.f);
      AddAct(prog, fr, base, acts, p, s, Act(e.m, e.f, s.core.osp, |s.calls| + 1, |s.host| + 1, None), e, t);
    }
  }

  /** The last activation waits for a new one. */
  lemma AddAct(prog: Linked, fr: Framing, base: Base, acts: seq<Act>, p: Pos, s: State<Pos>, b: Act, e: Pos,
               t: State<Pos>)
    requires Inv(prog, fr, base, acts, p, s)
    requires Active(prog, fr, b, e, t) && Waits(prog, fr, acts[|acts| - 1], b, t)
    requires t.core == s.core && s.calls <= t.calls && s.host <= t.host
    ensures Keeps(prog, fr, base, acts + [b], Running(e, t))
  {
    var more := acts + [b];
    forall k | 0 <= k < |more| - 1 ensures Waits(prog, fr, more[k], more[k + 1], t) {
      if k < |acts| - 1 {
        assert Waits(prog, fr, acts[k], acts[k + 1], s);
      }
    }
  }

  /** One step of a balanced program keeps the discipline, comes back, or raises an error. */
  lemma StepKeeps(prog: Linked, fr: Framing, base: Base, acts: seq<Act>, p: Pos, s: State<Pos>)
    returns (acts': seq<Act>)
    requires ProgramBalanced(prog, fr) && Inv(prog, fr, base, acts, p, s)
    ensures KeptOrBack(prog, fr, base, acts[0], acts', SourceVm.Step(prog, p, s))
  {
    acts' := acts;
    var j := SkipMarks(ItemsAt(prog, p.m, p.f), p.i);
    if j < |ItemsAt(prog, p.m, p.f)| {
      ItemReached(prog, fr, p);
      acts' := ItemKeeps(prog, fr, base, acts, p, s, j, SourceVm.Step(prog, p, s));
    }
  }

  lemma ItemReached(prog: Linked, fr: Framing, p: Pos)
    requires ProgramBalanced(prog, fr) && ValidPos(prog, p)
    ensures var j := SkipMarks(ItemsAt(prog, p.m, p.f), p.i);
            j < |ItemsAt(prog, p.m, p.f)| ==> ItemKept(prog, fr, p.m, p.f, j) && fr(p.m, p.f, j) == FrameAt(fr, p)
  {
    assert Balanced(prog, fr, p.m, p.f);
    FrameAfterMarks(prog, fr, p.m, p.f, p.i);
  }

  lemma ItemKeeps(
    prog: Linked, fr: Framing, base: Base, acts: seq<Act>, p: Pos, s: State<Pos>, j: nat, o: Outcome<Pos>)
    returns (acts': seq<Act>)
    requires ProgramBalanced(prog, fr) && Inv(prog, fr, base, acts, p, s)
    requires j < |ItemsAt(prog, p.m, p.f)| && ItemsAt(prog, p.m, p.f)[j].Do?
    requires ItemKept(prog, fr, p.m, p.f, j) && fr(p.m, p.f, j) == FrameAt(fr, p)
    requires var st := ItemsAt(prog, p.m, p.f)[j].s;
             o == Perform(prog.lay, SourceVm.Resolve(prog, p.m, p.f, st, s), Pos(p.m, p.f, j + 1), s)
    ensures KeptOrBack(prog, fr, base, acts[0], acts', o)
  {
    var st := ItemsAt(prog, p.m, p.f)[j].s;
    var next := Pos(p.m, p.f, j + 1);
    var act := SourceVm.Resolve(prog, p.m, p.f, st, s);
    acts' := acts;
    match act {
      case Plain(i) =>
        acts' := PlainKeeps(prog, fr, base, acts, p, s, i, next);
      case Goto(op, target) =>
        var q := if Taken(op, s.core) then target else next;
        Goes(prog, fr, base, acts, p, s, q, s);
      case Invoke(callee) =>
        CalleeIsEntry(prog, p.m, p.f, st, s);
        CallIsSaved(prog, fr, p.m, p.f, j, s);
        acts' := Enters(prog, fr, base, acts, p, s, callee, next);
      case NoAction =>
    }
  }

  lemma PlainKeeps(prog: Linked, fr: Framing, base: Base, acts: seq<Act>, p: Pos, s: State<Pos>, i: Instr, next: Pos)
    returns (acts': seq<Act>)
    requires Inv(prog, fr, base, acts, p, s) && InBody(prog, acts[|acts| - 1], next)
    requires Closes(FrameAt(fr, p), i) || Flow(FrameAt(fr, p), i) == Some(FrameAt(fr, next))
    ensures KeptOrBack(prog, fr, base, acts[0], acts', Perform(prog.lay, Plain(i), next, s))
  {
    acts' := acts;
    if Closes(FrameAt(fr, p), i) {
      var t := Closing(prog, fr, acts[|acts| - 1], p, s, i, next);
      Leaves(prog, fr, base, acts, p, s, t);
      acts' := acts[..|acts| - 1];
    } else if IsFrame(i) {
      FrameGoes(prog, fr, base, acts, p, s, i, next, FrameAt(fr, p));
    } else {
      DataGoes(prog, fr, base, acts, p, s, i, next, FrameAt(fr, p));
    }
  }

  /** Whatever a call statement resolves to is an error or the entry of a body. */
  lemma CalleeIsEntry(prog: Linked, m: nat, f: nat, st: Stmt, s: State<Pos>)
    requires IsBody(prog, m, f)
    requires SourceVm.Resolve(prog, m, f, st, s).Invoke?
    ensures EntryOrError(prog, SourceVm.Resolve(prog, m, f, st, s).callee)
  {
  }

  lemma CallIsSaved(prog: Linked, fr: Framing, m: nat, f: nat, j: nat, s: State<Pos>)
    requires IsBody(prog, m, f) && j < |ItemsAt(prog, m, f)| && ItemsAt(prog, m, f)[j].Do?
    requires SourceVm.Resolve(prog, m, f, ItemsAt(prog, m, f)[j].s, s).Invoke? && ItemKept(prog, fr, m, f, j)
    ensures fr(m, f, j + 1) == fr(m, f, j)
    ensures SourceVm.Resolve(prog, m, f, ItemsAt(prog, m, f)[j].s, s).callee.Local? ==> fr(m, f, j).saved
  {
  }

  // ----- whole runs -----

  /** Inside the call of `act`, in good order. */
  ghost function InCall(prog: Linked, fr: Framing, base: Base, act: Act): (Pos, State<Pos>) -> bool {
    (p, s) => exists acts: seq<Act> :: acts != [] && acts[0] == act && Inv(prog, fr, base, acts, p, s)
  }

  ghost function ErroredOrBack(base: Base, act: Act): Outcome<Pos> -> bool {
    o => Errored(o) || Back(act, base, o)
  }

  lemma StepsKeep(prog: Linked, fr: Framing, base: Base, act: Act)
    requires ProgramBalanced(prog, fr)
    ensures Preserved(Stepper(prog), InCall(prog, fr, base, act), ErroredOrBack(base, act))
  {
    forall p, s | InCall(prog, fr, base, act)(p, s)
      ensures var o := Stepper(prog)(p, s);
              ErroredOrBack(base, act)(o) || (o.Running? && InCall(prog, fr, base, act)(o.at, o.s))
    {
      var acts: seq<Act> :| acts != [] && acts[0] == act && Inv(prog, fr, base, acts, p, s);
      var acts' := StepKeeps(prog, fr, base, acts, p, s);
    }
  }

  /** At the entry of a body. */
  predicate AtEntry(prog: Linked, p: Pos, s: State<Pos>) {
    && IsBody(prog, p.m, p.f) && p.i == 0 && s.mod == p.m
    && s.core.osp <= |s.core.stack| && s.core.err == ERR_NONE
  }

  /** The call entered in state `s` has come back in outcome `o`: control went where the link register of `s`
      leads, and but for the data, all is as it was. */
  ghost predicate CameBack<P(!new)>(s: State<P>, o: Outcome<P>) {
    exists c: Core :: c.osp == s.core.osp && o == Return(s.(core := c))
  }

  /** Every call in a balanced program: at any later time an error was raised, or the call has come
      back with both stacks restored, or it is still in progress. */
  lemma EveryCallIsKept(prog: Linked, fr: Framing, p: Pos, s: State<Pos>, n: nat) returns (k: nat)
    requires ProgramBalanced(prog, fr) && AtEntry(prog, p, s)
    ensures k <= n
    ensures var o := Run(Stepper(prog), k, Running(p, s));
            Errored(o) || CameBack(s, o) || (k == n && o.Running?)
  {
    var base, act := Base(s.calls, s.host), EntryAct(p, s);
    EntryKept(prog, fr, p, s);
    StepsKeep(prog, fr, base, act);
    k := RunPreserves(Stepper(prog), InCall(prog, fr, base, act), ErroredOrBack(base, act), p, s, n);
    BackIsCameBack(act, base, s, Run(Stepper(prog), k, Running(p, s)));
  }

  function EntryAct(p: Pos, s: State<Pos>): Act {
    Act(p.m, p.f, s.core.osp, |s.calls|, |s.host|, s.lr)
  }

  lemma EntryKept(prog: Linked, fr: Framing, p: Pos, s: State<Pos>)
    requires ProgramBalanced(prog, fr) && AtEntry(prog, p, s)
    ensures InCall(prog, fr, Base(s.calls, s.host), EntryAct(p, s))(p, s)
  {
    assert Balanced(prog, fr, p.m, p.f);
    assert Inv(prog, fr, Base(s.calls, s.host), [EntryAct(p, s)], p, s);
  }

  lemma BackIsCameBack(act: Act, base: Base, s: State<Pos>, o: Outcome<Pos>)
    requires act.ret == s.lr && act.osp == s.core.osp && act.m == s.mod && base == Base(s.calls, s.host)
    ensures Back(act, base, o) ==> CameBack(s, o)
  {
    if Back(act, base, o) {
      var c: Core :| c.osp == act.osp && o == Return(State(c, act.ret, base.calls, base.host, act.m));
      assert State(c, act.ret, base.calls, base.host, act.m) == s.(core := c);
    }
  }

  /** Coming back from a call within a module: control is at the instruction after the call, with the
      caller's operand stack pointer, call stack and tables. */
  lemma BackFromLocalCall(prog: Linked, entry: Pos, next: Pos, s: State<Pos>, o: Outcome<Pos>)
    requires CameBack(Machine.Call(prog.lay, Local(entry), next, s).s, o)
    ensures o.Running? && o.at == next && o.s.core.osp == s.core.osp
    ensures o.s.calls == s.calls && o.s.host == s.host && o.s.mod == s.mod
  {
  }

  /** Coming back from a call into another module: besides, the caller's link register is back. */
  lemma BackFromForeignCall(prog: Linked, entry: Pos, next: Pos, s: State<Pos>, o: Outcome<Pos>)
    requires |s.calls| < prog.lay.callCap
    requires CameBack(Machine.Call(prog.lay, Foreign(entry, entry.m), next, s).s, o)
    ensures o.Running? && o.at == next && o.s.core.osp == s.core.osp
    ensures o.s.calls == s.calls && o.s.host == s.host && o.s.mod == s.mod && o.s.lr == s.lr
  {
    var t := Machine.Call(prog.lay, Foreign(entry, entry.m), next, s).s;
    assert t.calls[..|t.calls| - 1] == s.calls && t.host[..|t.host| - 1] == s.host;
  }

  // ----- errors -----

  lemma DataError(lay: Layout, mod: nat, i: Instr, c: Core)
    requires c.err != ERR_NONE
    ensures var e := Data(lay, mod, i, c); !e.Stuck? ==> e.c.err != ERR_NONE
  {
  }

  lemma PerformError(lay: Layout, a: Action<Pos>, next: Pos, s: State<Pos>)
    requires s.core.err != ERR_NONE
    requires a.Invoke? && a.callee.Fail? ==> a.callee.err != ERR_NONE
    ensures var o := Perform(lay, a, next, s); o.Undefined? || o.s.core.err != ERR_NONE
  {
    match a {
      case Plain(i) =>
        if IsFrame(i) {
          FrameError(lay, i, next, s);
        } else {
          DataError(lay, s.mod, i, s.core);
          ContinueError(Data(lay, s.mod, i, s.core), next, s);
        }
      case Goto(_, _) =>
      case Invoke(callee) =>
        CallError(lay, callee, next, s);
      case NoAction =>
    }
  }

  lemma ContinueError(e: Effect, next: Pos, s: State<Pos>)
    requires !e.Stuck? ==> e.c.err != ERR_NONE
    ensures var o := Continue(e, next, s); o.Undefined? || o.s.core.err != ERR_NONE
  {
    if e.Trap? {
      ExitKeepsCore(s.(core := e.c));
    }
  }

  lemma ReturnError(s: State<Pos>)
    requires s.core.err != ERR_NONE
    ensures var o := Return(s); o.Undefined? || o.s.core.err != ERR_NONE
  {
    ExitKeepsCore(s);
  }

  lemma CallError(lay: Layout, callee: Callee<Pos>, next: Pos, s: State<Pos>)
    requires s.core.err != ERR_NONE && (callee.Fail? ==> callee.err != ERR_NONE)
    ensures var o := Machine.Call(lay, callee, next, s); o.Undefined? || o.s.core.err != ERR_NONE
  {
    if callee.Fail? {
      ExitKeepsCore(s.(core := s.core.(err := callee.err)));
    }
  }

  lemma FrameError(lay: Layout, i: Instr, next: Pos, s: State<Pos>)
    requires s.core.err != ERR_NONE && IsFrame(i)
    ensures var o := Machine.Frame(lay, i, next, s); o.Undefined? || o.s.core.err != ERR_NONE
  {
    match i {
      case I0(Halt) => ExitKeepsCore(s);
      case I0(Ret) => ReturnError(s);
      case I0(Restore) => if s.calls != [] { ReturnError(PopLr(s)); }
      case I1(Enter, n) => if n >= 0 { ContinueError(Machine.Alloc(n, s.core), next, PushLr(s)); }
      case I1(Leave, n) =>
        if s.calls != [] && n >= 0 { ReturnError(PopLr(s).(core := Machine.Redux(n, s.core))); }
      case I1(Remit, n) => if n >= 0 { ReturnError(s.(core := Machine.Redux(n, s.core))); }
      case _ =>
    }
  }

  /** Execution may go on after an error, but the error stays. */
  lemma {:induction false} ErrorsStick(prog: Linked, n: nat, o: Outcome<Pos>)
    requires o.Undefined? || o.s.core.err != ERR_NONE
    ensures var o' := Run(Stepper(prog), n, o); o'.Undefined? || o'.s.core.err != ERR_NONE
    decreases n
  {
    if n > 0 && o.Running? {
      StepError(prog, o.at, o.s);
      ErrorsStick(prog, n - 1, Stepper(prog)(o.at, o.s));
    }
  }

  lemma StepError(prog: Linked, p: Pos, s: State<Pos>)
    requires s.core.err != ERR_NONE
    ensures var o := Stepper(prog)(p, s); o.Undefined? || o.s.core.err != ERR_NONE
  {
    if ValidPos(prog, p) && p.m == s.mod {
      var items := ItemsAt(prog, p.m, p.f);
      var j := SkipMarks(items, p.i);
      if j < |items| {
        var a := SourceVm.Resolve(prog, p.m, p.f, items[j].s, s);
        if a.Invoke? {
          CalleeIsEntry(prog, p.m, p.f, items[j].s, s);
        }
        PerformError(prog.lay, a, Pos(p.m, p.f, j + 1), s);
      }
    }
  }

  /** Nothing errored ends well. */
  lemma {:induction false} ErroredEnds(prog: Linked, n: nat, o: Outcome<Pos>)
    requires Errored(o)
    ensures var o' := Run(Stepper(prog), n, o);
            o'.Running? || o'.Undefined? || o'.s.core.err != ERR_NONE
  {
    if o.Undefined? || o.s.core.err != ERR_NONE {
      ErrorsStick(prog, n, o);
    } else if n > 0 {
      assert Stepper(prog)(o.at, o.s).Undefined?;
      RunOver(Stepper(prog), n - 1, Stepper(prog)(o.at, o.s));
    }
  }

  // ----- calls and the tables in force -----

  /** A call by name never misplaces control. */
  lemma NamedCallsArePlaced(prog: Linked, m: nat, f: nat, next: Pos, s: State<Pos>)
    requires m < |prog.mods| && f < |prog.mods[m].funcs| && s.mod == m
    requires Machine.Call(prog.lay, NamedCallee(prog, m, f), next, s).Running?
    requires !NamedCallee(prog, m, f).Fail?
    ensures !Misplaced(Machine.Call(prog.lay, NamedCallee(prog, m, f), next, s))
  {
  }

  /** The module whose code runs for function `f` of module `m`: its own, or the one it is linked to. */
  function Provider(prog: Linked, m: nat, f: nat): Option<nat>
    requires m < |prog.mods| && f < |prog.mods[m].funcs|
  {
    match prog.mods[m].funcs[f]
    case Body(_, _) => Some(m)
    case Native(_) => None
    case Extern(_) => if LinkOf(prog, m, f).None? then None else Some(LinkOf(prog, m, f).value.0)
  }

  /** A call through a pointer does exactly when the function is provided by the module the host started and the
      tables in force are another module's. */
  lemma PointerCallsMisplaceIff(prog: Linked, m: nat, f: nat, next: Pos, s: State<Pos>)
    requires m < |prog.mods| && f < |prog.mods[m].funcs| && Provider(prog, m, f).Some?
    requires |s.calls| < prog.lay.callCap
    ensures var o := Machine.Call(prog.lay, PointedCallee(prog, m, f), next, s);
            && o.Running?
            && (Misplaced(o) <==> Provider(prog, m, f) == Some(prog.lay.root) && s.mod != prog.lay.root)
  {
  }

  /** A program that does it: `main` passes the address of `own` to `apply` of a library, which calls it. */
  const MAIN: Func := Body("main", [Do(Ins(I1(Enter, 0))), Do(LoadFn(0, "own")), Do(CallFn("apply")),
                                    Do(Ins(I1(Leave, 0)))])
  const OWN: Func := Body("own", [Do(Ins(I1(Enter, 0))), Do(Ins(I1(Leave, 0)))])
  const APPLY: Func := Body("apply", [Do(Ins(I1(Enter, 0))), Do(Ins(I1(Callr, 0))), Do(Ins(I1(Leave, 0)))])

  function Applying(lay: Layout): Linked {
    Linked([Module([MAIN, OWN, Extern("apply")], [], map[2 := (1, 0)]), Module([APPLY], [], map[])], lay)
  }

  /** Where its tables lie, started from the first module. */
  predicate AppliedLayout(lay: Layout) {
    && lay.root == 0 && |lay.funcs| == 2 && lay.funcs[0].len == 3 && 0 < lay.funcs[0].addr < TWO64 - 24
    && lay.callCap >= 4
  }

  /** It is balanced, and its call through the pointer arrives in `own` with the library's tables in force. */
  lemma ApplyingMisplaces(lay: Layout, c: Core) returns (fr: Framing, n: nat)
    requires AppliedLayout(lay) && c.osp < |c.stack|
    ensures ProgramBalanced(Applying(lay), fr)
    ensures var o := Run(Stepper(Applying(lay)), n, Running(Pos(0, 0, 0), State(c, None, [], [], 0)));
            o.Running? && o.at == Pos(0, 1, 0) && o.s.mod == 1 && o.s.core.err == c.err && Misplaced(o)
  {
    fr, n := (m, f, i) => Frame(0, i > 0), 5;
    ApplyingBalanced(Applying(lay), fr);
    ApplyingRuns(Applying(lay), c, n);
  }

  lemma ApplyingBalanced(prog: Linked, fr: Framing)
    requires prog == Applying(prog.lay) && forall m, f, i :: fr(m, f, i) == Frame(0, i > 0)
    ensures ProgramBalanced(prog, fr)
  {
    forall m, f | IsBody(prog, m, f) ensures Balanced(prog, fr, m, f) {
      forall k | 0 <= k < |ItemsAt(prog, m, f)| ensures ItemKept(prog, fr, m, f, k) {
      }
    }
  }

  lemma ApplyingNames(prog: Linked)
    requires prog == Applying(prog.lay)
    ensures var names := NameList(prog.mods[0].funcs);
            IndexOf(names, "own") == 1 && IndexOf(names, "apply") == 2
  {
    var names := NameList(prog.mods[0].funcs);
    assert |names| == 3 && names[0] == "main" && names[1] == "own" && names[2] == "apply";
    assert |names[0]| == 4 && |names[1]| == 3 && |names[2]| == 5;
  }

  /** The state in which the library is entered. */
  function Applied(prog: Linked, c: Core): State<Pos>
    requires |prog.lay.funcs| == 2 && c.osp < |c.stack|
  {
    State(SetReg(c, 0, (prog.lay.funcs[0].addr + ITEM_SIZE) % TWO64), None, [None, None], [Host(Pos(0, 0, 3), 0)], 1)
  }

  lemma ApplyingRuns(prog: Linked, c: Core, n: nat)
    requires prog == Applying(prog.lay) && AppliedLayout(prog.lay) && c.osp < |c.stack| && n == 5
    ensures var o := Run(Stepper(prog), n, Running(Pos(0, 0, 0), State(c, None, [], [], 0)));
            o.Running? && o.at == Pos(0, 1, 0) && o.s.mod == 1 && o.s.core.err == c.err
  {
    MainRuns(prog, c, n - 2);
    ApplyRuns(prog, Applied(prog, c), n - 3);
    RunMore(Stepper(prog), n - 2, n - 3, Running(Pos(0, 0, 0), State(c, None, [], [], 0)));
  }

  lemma MainRuns(prog: Linked, c: Core, n: nat)
    requires prog == Applying(prog.lay) && AppliedLayout(prog.lay) && c.osp < |c.stack| && n == 3
    ensures Run(Stepper(prog), n, Running(Pos(0, 0, 0), State(c, None, [], [], 0)))
            == Running(Pos(1, 0, 0), Applied(prog, c))
  {
    var s0, s1 := State(c, None, [], [], 0), State(c, None, [None], [], 0);
    var s2 := s1.(core := Applied(prog, c).core);
    MainEnters(prog, s0);
    MainLoads(prog, s1);
    MainCalls(prog, s2);
    assert PushLr(s2).(lr := None, host := s2.host + [Host(Pos(0, 0, 3), 0)], mod := 1) == Applied(prog, c);
    ThreeSteps(Stepper(prog), n, Running(Pos(0, 0, 0), s0), Running(Pos(0, 0, 1), s1), Running(Pos(0, 0, 2), s2),
               Running(Pos(1, 0, 0), Applied(prog, c)));
  }

  lemma ThreeSteps<P>(
    step: (P, State<P>) -> Outcome<P>, n: nat, o0: Outcome<P>, o1: Outcome<P>, o2: Outcome<P>, o3: Outcome<P>)
    requires o0.Running? && o1.Running? && o2.Running? && n == 3
    requires step(o0.at, o0.s) == o1 && step(o1.at, o1.s) == o2 && step(o2.at, o2.s) == o3
    ensures Run(step, n, o0) == o3
  {
    RunOne(step, o2.at, o2.s);
    RunFirst(step, n - 2, o1);
    RunFirst(step, n - 1, o0);
  }

  lemma ApplyRuns(prog: Linked, s: State<Pos>, n: nat)
    requires prog == Applying(prog.lay) && AppliedLayout(prog.lay) && s.mod == 1 && |s.calls| < 4 && n == 2
    requires HasReg(s.core, 0) && Reg(s.core, 0) == (prog.lay.funcs[0].addr + ITEM_SIZE) % TWO64
    ensures Run(Stepper(prog), n, Running(Pos(1, 0, 0), s))
            == Running(Pos(0, 1, 0), PushLr(s).(lr := Some(Pos(1, 0, 2))))
  {
    ApplyEnters(prog, s);
    ApplyCalls(prog, PushLr(s));
    RunOne(Stepper(prog), Pos(1, 0, 1), PushLr(s));
    RunFirst(Stepper(prog), n - 1, Running(Pos(1, 0, 0), s));
  }

  lemma MainEnters(prog: Linked, s: State<Pos>)
    requires prog == Applying(prog.lay) && s.mod == 0 && |s.calls| < prog.lay.callCap
    ensures Step(prog, Pos(0, 0, 0), s) == Running(Pos(0, 0, 1), PushLr(s))
  {
    assert ItemsAt(prog, 0, 0)[0] == Do(Ins(I1(Enter, 0)));
  }

  lemma MainLoads(prog: Linked, s: State<Pos>)
    requires prog == Applying(prog.lay) && AppliedLayout(prog.lay) && s.mod == 0 && HasReg(s.core, 0)
    ensures Step(prog, Pos(0, 0, 1), s)
            == Running(Pos(0, 0, 2), s.(core := SetReg(s.core, 0, (prog.lay.funcs[0].addr + ITEM_SIZE) % TWO64)))
  {
    assert ItemsAt(prog, 0, 0)[1] == Do(LoadFn(0, "own"));
    ApplyingNames(prog);
  }

  lemma MainCalls(prog: Linked, s: State<Pos>)
    requires prog == Applying(prog.lay) && AppliedLayout(prog.lay) && s.mod == 0 && |s.calls| < prog.lay.callCap
    ensures Step(prog, Pos(0, 0, 2), s)
            == Running(Pos(1, 0, 0), PushLr(s).(lr := None, host := s.host + [Host(Pos(0, 0, 3), 0)], mod := 1))
  {
    assert ItemsAt(prog, 0, 0)[2] == Do(CallFn("apply"));
    ApplyingNames(prog);
    assert prog.mods[0].funcs[2] == Extern("apply") && LinkOf(prog, 0, 2) == Some((1, 0));
  }

  lemma ApplyEnters(prog: Linked, s: State<Pos>)
    requires prog == Applying(prog.lay) && s.mod == 1 && |s.calls| < prog.lay.callCap
    ensures Step(prog, Pos(1, 0, 0), s) == Running(Pos(1, 0, 1), PushLr(s))
  {
    assert ItemsAt(prog, 1, 0)[0] == Do(Ins(I1(Enter, 0)));
  }

  lemma ApplyCalls(prog: Linked, s: State<Pos>)
    requires prog == Applying(prog.lay) && AppliedLayout(prog.lay) && s.mod == 1 && HasReg(s.core, 0)
    requires Reg(s.core, 0) == (prog.lay.funcs[0].addr + ITEM_SIZE) % TWO64
    ensures Step(prog, Pos(1, 0, 1), s) == Running(Pos(0, 1, 0), s.(lr := Some(Pos(1, 0, 2))))
  {
    assert ItemsAt(prog, 1, 0)[1] == Do(Ins(I1(Callr, 0)));
    var v := prog.lay.funcs[0].addr + ITEM_SIZE;
    ModUnique(v, TWO64, 0, v);
    assert FindItem(prog.lay, v, 0) == Some((0, 1));
  }

  // ----- invoking a module from the host -----

  /** Starting takes a cell for the value and one for each argument, puts the arguments into registers 1, 2, ... in
      order, and changes no other cell; it fails exactly when there are not so many cells. */
  lemma StartPlaces<P>(s: State<P>, args: seq<u64>)
    requires s.core.osp <= |s.core.stack|
    ensures Start(s, args).None? <==> s.core.osp < |args| + 1
    ensures Start(s, args).Some? ==>
              var t := Start(s, args).value;
              && t == s.(core := s.core.(osp := t.core.osp, stack := t.core.stack), lr := None)
              && t.core.osp + |args| + 1 == s.core.osp && |t.core.stack| == |s.core.stack|
              && (forall i :: 0 <= i < |args| ==> t.core.stack[t.core.osp + 1 + i] == args[i])
              && forall k :: 0 <= k <= t.core.osp || s.core.osp <= k < |s.core.stack| ==>
                   t.core.stack[k] == s.core.stack[k]
  {
  }

  /** Where the host's start of function `f` of module `m` begins, if not with an error: in the code its item points
      to, which for a linked function is another module's. The tables in force stay those of `m`. */
  function HostEntry(prog: Linked, m: nat, f: nat): Option<Pos>
    requires m < |prog.mods| && f < |prog.mods[m].funcs|
  {
    match NamedCallee(prog, m, f)
    case Local(p) => Some(p)
    case Foreign(p, _) => Some(p)
    case Fail(_) => None
  }

  /** A start runs code with its own module's tables exactly when the module provides the function itself. */
  lemma HostStartPlacedIff(prog: Linked, m: nat, f: nat, s: State<Pos>, args: seq<u64>)
    requires m < |prog.mods| && f < |prog.mods[m].funcs| && HostEntry(prog, m, f).Some?
    requires s.mod == m && Start(s, args).Some?
    ensures IsBody(prog, HostEntry(prog, m, f).value.m, HostEntry(prog, m, f).value.f)
    ensures Misplaced(Running(HostEntry(prog, m, f).value, Start(s, args).value))
            <==> Provider(prog, m, f) != Some(m)
  {
  }

  lemma StartsAtEntry(prog: Linked, m: nat, f: nat, p: Pos, s: State<Pos>, args: seq<u64>)
    requires m < |prog.mods| && f < |prog.mods[m].funcs| && s.mod == m && s.core.err == ERR_NONE
    requires HostEntry(prog, m, f) == Some(p) && Provider(prog, m, f) == Some(m) && Start(s, args).Some?
    ensures AtEntry(prog, p, Start(s, args).value)
  {
    HostStartPlacedIff(prog, m, f, s, args);
  }

  /** Starting a function that the module itself provides, in a balanced program, and running it to its end without
      an error leaves the operand stack pointer, once the arguments are dropped again, and the call stack as the host
      had them. */
  lemma {:induction false} HostCallRestores(
    prog: Linked, fr: Framing, m: nat, f: nat, p: Pos, s: State<Pos>, args: seq<u64>, n: nat)
    requires ProgramBalanced(prog, fr) && m < |prog.mods| && f < |prog.mods[m].funcs|
    requires HostEntry(prog, m, f) == Some(p) && Provider(prog, m, f) == Some(m) && s.mod == m
    requires s.host == [] && s.core.err == ERR_NONE && Start(s, args).Some?
    requires var o := Run(Stepper(prog), n, Running(p, Start(s, args).value));
             o.Stopped? && o.s.core.err == ERR_NONE
    ensures var o := Run(Stepper(prog), n, Running(p, Start(s, args).value));
            o.s.core.osp + |args| + 1 == s.core.osp && o.s.calls == s.calls
  {
    StartsAtEntry(prog, m, f, p, s, args);
    RunComesBack(prog, fr, p, Start(s, args).value, n);
  }

  /** A run that has ended without an error has come back. */
  lemma RunComesBack(prog: Linked, fr: Framing, p: Pos, t: State<Pos>, n: nat)
    requires ProgramBalanced(prog, fr) && AtEntry(prog, p, t) && t.lr.None? && t.host == []
    requires EndedWell(Run(Stepper(prog), n, Running(p, t)))
    ensures CameBack(t, Run(Stepper(prog), n, Running(p, t)))
  {
    var base, act := Base(t.calls, t.host), EntryAct(p, t);
    EntryKept(prog, fr, p, t);
    StepsKeep(prog, fr, base, act);
    OnlyBackEnds(prog, base, act);
    EndedIsBack(Stepper(prog), InCall(prog, fr, base, act), ErroredOrBack(base, act), o => Back(act, base, o), p, t, n);
    BackIsCameBack(act, base, t, Run(Stepper(prog), n, Running(p, t)));
  }

  lemma OnlyBackEnds(prog: Linked, base: Base, act: Act)
    requires act.ret.None? && base.host == []
    ensures EndsOnlyBack(Stepper(prog), ErroredOrBack(base, act), o => Back(act, base, o))
  {
    forall n: nat, o | ErroredOrBack(base, act)(o) && EndedWell(Run(Stepper(prog), n, o))
      ensures Back(act, base, Run(Stepper(prog), n, o))
    {
      if Errored(o) {
        ErroredEnds(prog, n, o);
      } else {
        BackToHost(act, base, o);
        RunOver(Stepper(prog), n, o);
      }
    }
  }

  /** Coming back to the host ends the run. */
  lemma BackToHost(a: Act, base: Base, o: Outcome<Pos>)
    requires Back(a, base, o) && a.ret.None? && base.host == []
    ensures o.Stopped?
  {
  }
}
