/** Whole calls from the host: arguments in, the program run to its end, the value out. */
module HostCalls {
  import opened Words
  import opened Isa
  import opened Program
  import opened Machine
  import opened SourceVm
  import opened Recursion
  import Relate
  import Simulation
  import B = ByteVm
  import D = Discipline
  import DB = DisciplineOnBytes

  /** The host starts the function at `p` with these arguments; after `n` steps it ends in `t`, with `v` in the cell
      that the host then reads. */
  predicate HostReturns(prog: Linked, p: Pos, s: State<Pos>, args: seq<u64>, n: nat, v: u64, t: State<Pos>) {
    && Start(s, args).Some? && Stops(prog, n, p, Start(s, args).value, t)
    && HasReg(t.core, 0) && Reg(t.core, 0) == v
  }

  // ----- a function that passes its argument on -----

  /** It calls `factorial` with its argument and returns the result to the host. */
  predicate IsAsking(items: seq<Item>) {
    && |items| == 5
    && items[0] == Do(Ins(I1(Enter, 1)))
    && items[1] == Do(Ins(I2(Mov, 0, 2)))
    && items[2] == Do(CallFn("factorial"))
    && items[3] == Do(Ins(I2(Mov, 1, 0)))
    && items[4] == Do(Ins(I1(Leave, 1)))
  }

  /** In module `m`, function `g` asks and function `f` is `factorial`. */
  predicate Asks(prog: Linked, m: nat, g: nat, f: nat) {
    IsBody(prog, m, g) && IsAsking(ItemsAt(prog, m, g)) && Factorials(prog, m, f)
  }

  /** To the entry of `factorial`, with the argument in its place. */
  lemma Asking(prog: Linked, m: nat, g: nat, f: nat, s: State<Pos>, c: Core)
    requires Asks(prog, m, g, f) && s.mod == m
    requires 1 <= s.core.osp && s.core.osp + 1 < |s.core.stack| && |s.calls| < prog.lay.callCap
    requires c == s.core.(osp := s.core.osp - 1, stack := s.core.stack[s.core.osp - 1 := s.core.stack[s.core.osp + 1]])
    ensures Reaches(prog, 3, Pos(m, g, 0), s, Pos(m, f, 0), PushLr(s).(core := c, lr := Some(Pos(m, g, 3))))
  {
    var s1 := PushLr(s).(core := s.core.(osp := s.core.osp - 1));
    var s2 := s1.(core := c);
    EnterStep(prog, Pos(m, g, 0), 0, 1, s);
    StraightOne(prog.lay, m, ItemsAt(prog, m, g), 1, s1.core, c);
    StraightRuns(prog, m, g, 1, 2, s1, c);
    Chain(prog, 1, 1, Pos(m, g, 0), s, Pos(m, g, 1), s1, Pos(m, g, 2), s2);
    CallStep(prog, Pos(m, g, 2), 2, "factorial", f, s2);
    Chain(prog, 2, 1, Pos(m, g, 0), s, Pos(m, g, 2), s2, Pos(m, f, 0), s2.(lr := Some(Pos(m, g, 3))));
  }

  /** From the return of `factorial` to the end. */
  lemma Answering(prog: Linked, m: nat, g: nat, f: nat, s: State<Pos>, t: State<Pos>)
    requires Asks(prog, m, g, f) && s.mod == m && s.host == [] && s.core.osp + 1 < |s.core.stack|
    requires s.calls != [] && s.calls[|s.calls| - 1] == None
    requires var c := s.core;
             t == PopLr(s).(core := c.(osp := c.osp + 1, stack := c.stack[c.osp + 1 := c.stack[c.osp]]))
    ensures Stops(prog, 2, Pos(m, g, 3), s, t)
  {
    var s1 := s.(core := s.core.(stack := s.core.stack[s.core.osp + 1 := s.core.stack[s.core.osp]]));
    StraightOne(prog.lay, m, ItemsAt(prog, m, g), 3, s.core, s1.core);
    StraightRuns(prog, m, g, 3, 4, s, s1.core);
    LeavesHost(prog, Pos(m, g, 4), 4, 1, s1, t);
    ChainStop(prog, 1, 1, Pos(m, g, 3), s, Pos(m, g, 4), s1, t);
  }

  /** `leave` with no link register to go back to. */
  lemma LeavesHost(prog: Linked, p: Pos, k: nat, n: nat, s: State<Pos>, t: State<Pos>)
    requires At(prog, p, s, k, Ins(I1(Leave, n)))
    requires s.core.osp + n <= |s.core.stack| && s.host == [] && s.calls != [] && s.calls[|s.calls| - 1] == None
    requires t == PopLr(s).(core := s.core.(osp := s.core.osp + n))
    ensures Stops(prog, 1, p, s, t)
  {
    OneStep(prog, p, s);
  }

  /** The state `factorial` is entered in, for a host call with argument `x`. */
  function Entered(s: State<Pos>, x: u64, m: nat, g: nat): State<Pos>
    requires 3 <= s.core.osp <= |s.core.stack|
  {
    var o := s.core.osp;
    State(s.core.(osp := o - 3, stack := s.core.stack[o - 1 := x][o - 3 := x]), Some(Pos(m, g, 3)),
          s.calls + [None], s.host, s.mod)
  }

  lemma StartedAsking(prog: Linked, m: nat, g: nat, f: nat, s: State<Pos>, x: u64)
    requires Asks(prog, m, g, f) && s.mod == m && 3 <= s.core.osp <= |s.core.stack| && |s.calls| < prog.lay.callCap
    ensures Start(s, [x]).Some?
    ensures Reaches(prog, 3, Pos(m, g, 0), Start(s, [x]).value, Pos(m, f, 0), Entered(s, x, m, g))
  {
    D.StartPlaces(s, [x]);
    var t := Start(s, [x]).value;
    var c := Entered(s, x, m, g).core;
    assert t.core.stack == s.core.stack[s.core.osp - 1 := x];
    Asking(prog, m, g, f, t, c);
  }

  /** A host call: the value is the factorial of the argument, modulo 2^64 (0 for 0), and the call stack, the operand
      stack pointer, once the host has taken its two cells back, and every cell above it are as they were. */
  lemma FactorialFromHost(prog: Linked, m: nat, g: nat, f: nat, s: State<Pos>, x: u64)
    returns (n: nat, t: State<Pos>)
    requires Asks(prog, m, g, f) && s.mod == m && s.host == []
    requires s.core.osp <= |s.core.stack| && 3 + 3 * Max(x, 1) <= s.core.osp
    requires |s.calls| + 1 + Max(x, 1) <= prog.lay.callCap
    ensures HostReturns(prog, Pos(m, g, 0), s, [x], n, FactorialResult(x), t)
    ensures t.core.osp + 2 == s.core.osp && t.calls == s.calls && |t.core.stack| == |s.core.stack|
    ensures forall k :: s.core.osp <= k < |s.core.stack| ==> t.core.stack[k] == s.core.stack[k]
  {
    var s3 := Entered(s, x, m, g);
    StartedAsking(prog, m, g, f, s, x);
    var c := FactorialReturns(prog, m, f, s3, Pos(m, g, 3));
    t := Answered(s, c);
    Answering(prog, m, g, f, s3.(core := c), t);
    n := 5 + FactorialSteps(x);
    Around(prog, Start(s, [x]).value, s3, s3.(core := c), t, Pos(m, g, 0), Pos(m, f, 0), Pos(m, g, 3),
           FactorialSteps(x), n);
  }

  /** The state at the end, for a core `c` in which `factorial` has returned. */
  function Answered(s: State<Pos>, c: Core): State<Pos>
    requires c.osp + 1 < |c.stack|
  {
    State(c.(osp := c.osp + 1, stack := c.stack[c.osp + 1 := c.stack[c.osp]]), None, s.calls, s.host, s.mod)
  }

  lemma Around(prog: Linked, s0: State<Pos>, s1: State<Pos>, s2: State<Pos>, t: State<Pos>, p0: Pos, p1: Pos, p2: Pos,
               k: nat, n: nat)
    requires Reaches(prog, 3, p0, s0, p1, s1) && Reaches(prog, k, p1, s1, p2, s2) && Stops(prog, 2, p2, s2, t)
    requires n == 5 + k
    ensures Stops(prog, n, p0, s0, t)
  {
    Chain(prog, 3, k, p0, s0, p1, s1, p2, s2);
    ChainStop(prog, 3 + k, 2, p0, s0, p2, s2, t);
  }

  // ----- the test program -----

  /** Its main function, with the number left open. */
  predicate IsMain(items: seq<Item>, x: u64) {
    && |items| == 4
    && items[0] == Do(Ins(I1(Enter, 1)))
    && items[1] == Do(Ins(IQ(0, x)))
    && items[2] == Do(CallFn("factorial"))
    && items[3] == Do(Ins(I0(Restore)))
  }

  predicate Runs(prog: Linked, m: nat, g: nat, f: nat, x: u64) {
    IsBody(prog, m, g) && IsMain(ItemsAt(prog, m, g), x) && Factorials(prog, m, f)
  }

  lemma MainAsks(prog: Linked, m: nat, g: nat, f: nat, s: State<Pos>, x: u64, c: Core)
    requires Runs(prog, m, g, f, x) && s.mod == m
    requires 1 <= s.core.osp <= |s.core.stack| && |s.calls| < prog.lay.callCap
    requires c == s.core.(osp := s.core.osp - 1, stack := s.core.stack[s.core.osp - 1 := x])
    ensures Reaches(prog, 3, Pos(m, g, 0), s, Pos(m, f, 0), PushLr(s).(core := c, lr := Some(Pos(m, g, 3))))
  {
    var s1 := PushLr(s).(core := s.core.(osp := s.core.osp - 1));
    var s2 := s1.(core := c);
    EnterStep(prog, Pos(m, g, 0), 0, 1, s);
    StraightOne(prog.lay, m, ItemsAt(prog, m, g), 1, s1.core, c);
    StraightRuns(prog, m, g, 1, 2, s1, c);
    Chain(prog, 1, 1, Pos(m, g, 0), s, Pos(m, g, 1), s1, Pos(m, g, 2), s2);
    CallStep(prog, Pos(m, g, 2), 2, "factorial", f, s2);
    Chain(prog, 2, 1, Pos(m, g, 0), s, Pos(m, g, 2), s2, Pos(m, f, 0), s2.(lr := Some(Pos(m, g, 3))));
  }

  /** `restore` with no link register to go back to. */
  lemma RestoresHost(prog: Linked, m: nat, g: nat, f: nat, x: u64, s: State<Pos>)
    requires Runs(prog, m, g, f, x) && s.mod == m && s.host == [] && s.calls != [] && s.calls[|s.calls| - 1] == None
    ensures Stops(prog, 1, Pos(m, g, 3), s, PopLr(s))
  {
    OneStep(prog, Pos(m, g, 3), s);
  }

  /** The test program, whatever the arguments: the value is the factorial of its number. It never gives back the cell
      it takes, which is the one the host reads, so the host's stack pointer ends one cell lower. */
  lemma MainFromHost(prog: Linked, m: nat, g: nat, f: nat, s: State<Pos>, args: seq<u64>, x: u64)
    returns (n: nat, t: State<Pos>)
    requires Runs(prog, m, g, f, x) && s.mod == m && s.host == []
    requires s.core.osp <= |s.core.stack| && |args| + 2 + 3 * Max(x, 1) <= s.core.osp
    requires |s.calls| + 1 + Max(x, 1) <= prog.lay.callCap
    ensures HostReturns(prog, Pos(m, g, 0), s, args, n, FactorialResult(x), t)
    ensures t.core.osp + |args| + 1 == s.core.osp - 1 && t.calls == s.calls
  {
    D.StartPlaces(s, args);
    var s0 := Start(s, args).value;
    var c0 := s0.core.(osp := s0.core.osp - 1, stack := s0.core.stack[s0.core.osp - 1 := x]);
    var s1 := PushLr(s0).(core := c0, lr := Some(Pos(m, g, 3)));
    MainAsks(prog, m, g, f, s0, x, c0);
    var c := FactorialReturns(prog, m, f, s1, Pos(m, g, 3));
    t := PopLr(s1.(core := c));
    RestoresHost(prog, m, g, f, x, s1.(core := c));
    n := 4 + FactorialSteps(x);
    AroundMain(prog, s0, s1, s1.(core := c), t, Pos(m, g, 0), Pos(m, f, 0), Pos(m, g, 3), FactorialSteps(x), n);
  }

  lemma AroundMain(prog: Linked, s0: State<Pos>, s1: State<Pos>, s2: State<Pos>, t: State<Pos>, p0: Pos, p1: Pos,
                   p2: Pos, k: nat, n: nat)
    requires Reaches(prog, 3, p0, s0, p1, s1) && Reaches(prog, k, p1, s1, p2, s2) && Stops(prog, 1, p2, s2, t)
    requires n == 4 + k
    ensures Stops(prog, n, p0, s0, t)
  {
    Chain(prog, 3, k, p0, s0, p1, s1, p2, s2);
    ChainStop(prog, 3 + k, 1, p0, s0, p2, s2, t);
  }

  // ----- on bytes -----

  /** A host call that returns does so on bytes: with the same value in the same cell. */
  lemma HostReturnsOnBytes(
    prog: Linked, img: B.Image, p: Pos, a: nat, s: State<Pos>, sb: State<nat>, args: seq<u64>, n: nat, v: u64,
    t: State<Pos>)
    returns (tb: State<nat>)
    requires Simulation.ModulesOk(prog) && Simulation.Loaded(prog, img)
    requires Simulation.AtAddr(prog, img, p, a) && Relate.RelState(Simulation.AddrRel(prog, img), s, sb)
    requires HostReturns(prog, p, s, args, n, v, t) && Start(sb, args).Some?
    ensures Run(B.Stepper(img), n, Running(a, Start(sb, args).value)) == Stopped(tb)
    ensures tb.core == t.core && HasReg(tb.core, 0) && Reg(tb.core, 0) == v && |tb.calls| == |t.calls|
  {
    var r := Simulation.AddrRel(prog, img);
    DB.StartsRelated(r, s, sb, args);
    var o, u := Running(p, Start(s, args).value), Running(a, Start(sb, args).value);
    Simulation.RunSimulates(prog, img, n, o, u);
    tb := Run(B.Stepper(img), n, u).s;
  }
}
