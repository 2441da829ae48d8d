/** Whole runs of the recursive test programs, for every argument. */
module Recursion {
  import opened Words
  import opened Isa
  import opened Program
  import opened Machine
  import opened AssemblerProofs
  import opened SourceVm

  // ----- building runs from pieces -----

  /** Running `n` steps leads from one configuration to another. */
  predicate Reaches(prog: Linked, n: nat, p: Pos, s: State<Pos>, q: Pos, t: State<Pos>) {
    Run(Stepper(prog), n, Running(p, s)) == Running(q, t)
  }

  lemma Chain(prog: Linked, a: nat, b: nat, p: Pos, s: State<Pos>, q: Pos, t: State<Pos>,
              r: Pos, u: State<Pos>)
    requires Reaches(prog, a, p, s, q, t) && Reaches(prog, b, q, t, r, u)
    ensures Reaches(prog, a + b, p, s, r, u)
  {
    RunMore(Stepper(prog), a, b, Running(p, s));
  }

  /** After `n` steps the machine has stopped. */
  predicate Stops(prog: Linked, n: nat, p: Pos, s: State<Pos>, t: State<Pos>) {
    Run(Stepper(prog), n, Running(p, s)) == Stopped(t)
  }

  lemma ChainStop(prog: Linked, a: nat, b: nat, p: Pos, s: State<Pos>, q: Pos, t: State<Pos>, u: State<Pos>)
    requires Reaches(prog, a, p, s, q, t) && Stops(prog, b, q, t, u)
    ensures Stops(prog, a + b, p, s, u)
  {
    RunMore(Stepper(prog), a, b, Running(p, s));
  }

  /** Position p is before statement `st`, which item k of its body is. */
  predicate At(prog: Linked, p: Pos, s: State<Pos>, k: nat, st: Stmt) {
    && ValidPos(prog, p) && p.m == s.mod
    && var items := ItemsAt(prog, p.m, p.f);
       k < |items| && SkipMarks(items, p.i) == k && items[k] == Do(st)
  }

  lemma EnterStep(prog: Linked, p: Pos, k: nat, n: nat, s: State<Pos>)
    requires At(prog, p, s, k, Ins(I1(Enter, n)))
    requires n <= s.core.osp && |s.calls| < prog.lay.callCap
    ensures Reaches(prog, 1, p, s, Pos(p.m, p.f, k + 1),
                    PushLr(s).(core := s.core.(osp := s.core.osp - n)))
  {
    OneStep(prog, p, s);
  }

  lemma LeaveStep(prog: Linked, p: Pos, k: nat, n: nat, s: State<Pos>, to: Pos)
    requires At(prog, p, s, k, Ins(I1(Leave, n)))
    requires s.core.osp + n <= |s.core.stack| && s.calls != [] && s.calls[|s.calls| - 1] == Some(to)
    ensures Reaches(prog, 1, p, s, to, PopLr(s).(core := s.core.(osp := s.core.osp + n)))
  {
    OneStep(prog, p, s);
  }

  lemma BranchStep(prog: Linked, p: Pos, k: nat, op: OpJ, lab: string, s: State<Pos>)
    requires At(prog, p, s, k, Branch(op, lab))
    ensures var t := MarkIndex(ItemsAt(prog, p.m, p.f), lab);
            Reaches(prog, 1, p, s, Pos(p.m, p.f, if Taken(op, s.core) then t else k + 1), s)
  {
    OneStep(prog, p, s);
  }

  lemma {:induction false} CallStep(prog: Linked, p: Pos, k: nat, name: string, f: nat, s: State<Pos>)
    requires At(prog, p, s, k, CallFn(name))
    requires IsBody(prog, p.m, f) && IndexOf(NameList(prog.mods[p.m].funcs), name) == f
    ensures Reaches(prog, 1, p, s, Pos(p.m, f, 0), s.(lr := Some(Pos(p.m, p.f, k + 1))))
  {
    OneStep(prog, p, s);
  }

  lemma {:induction false} OneStep(prog: Linked, p: Pos, s: State<Pos>)
    ensures Run(Stepper(prog), 1, Running(p, s)) == SourceVm.Step(prog, p, s)
  {
    var o := Stepper(prog)(p, s);
    assert Run(Stepper(prog), 1, Running(p, s)) == Run(Stepper(prog), 0, o);
  }

  /** A position before marks behaves like the one after them. */
  lemma FromMark(prog: Linked, n: nat, p: Pos, s: State<Pos>, q: Pos, t: State<Pos>)
    requires ValidPos(prog, p) && n > 0
    requires var k := SkipMarks(ItemsAt(prog, p.m, p.f), p.i);
             SkipMarks(ItemsAt(prog, p.m, p.f), k) == k
             && Reaches(prog, n, Pos(p.m, p.f, k), s, q, t)
    ensures Reaches(prog, n, p, s, q, t)
  {
    var p' := Pos(p.m, p.f, SkipMarks(ItemsAt(prog, p.m, p.f), p.i));
    assert Stepper(prog)(p, s) == Stepper(prog)(p', s);
  }

  // ----- straight-line code -----

  predicate IsData(item: Item) {
    item.Do? && item.s.Ins? && !IsFrame(item.s.i) && !(item.s.i.I1? && item.s.i.op1 == Callr)
  }

  predicate AllData(items: seq<Item>, i: nat, j: nat) {
    i <= j <= |items| && forall k :: i <= k < j ==> IsData(items[k])
  }

  /** Data instructions i..j on a core; `None` if one of them does not simply continue. */
  function Straight(lay: Layout, m: nat, items: seq<Item>, i: nat, j: nat, c: Core): Option<Core>
    requires AllData(items, i, j)
    decreases j - i
  {
    if i == j then Some(c)
    else
      assert IsData(items[i]);
      match Data(lay, m, items[i].s.i, c)
      case Done(c') => Straight(lay, m, items, i + 1, j, c')
      case _ => None
  }

  lemma {:induction false} StraightRuns(
    prog: Linked, m: nat, f: nat, i: nat, j: nat, s: State<Pos>, c: Core)
    requires IsBody(prog, m, f) && s.mod == m && AllData(ItemsAt(prog, m, f), i, j)
    requires Straight(prog.lay, m, ItemsAt(prog, m, f), i, j, s.core) == Some(c)
    ensures Reaches(prog, j - i, Pos(m, f, i), s, Pos(m, f, j), s.(core := c))
    decreases j - i
  {
    if i < j {
      var items := ItemsAt(prog, m, f);
      assert IsData(items[i]);
      var c' := Data(prog.lay, m, items[i].s.i, s.core).c;
      var s' := s.(core := c');
      OneStep(prog, Pos(m, f, i), s);
      assert Reaches(prog, 1, Pos(m, f, i), s, Pos(m, f, i + 1), s');
      StraightRuns(prog, m, f, i + 1, j, s', c);
      Chain(prog, 1, j - i - 1, Pos(m, f, i), s, Pos(m, f, i + 1), s', Pos(m, f, j), s.(core := c));
    }
  }

  /** The callee's effect a caller relies on: its result in the caller's r0, everything above r0 and
      the stack pointer as before. */
  predicate Returned(c: Core, c': Core, v: u64)
    requires c.osp < |c.stack|
  {
    && |c'.stack| == |c.stack| && c'.osp == c.osp && c'.globals == c.globals && c'.err == c.err
    && c'.stack[c.osp] == v
    && forall k :: c.osp < k < |c.stack| ==> c'.stack[k] == c.stack[k]
  }

  /** Function `f` of module `m` is a body, and the first of its name. */
  predicate Defines(prog: Linked, m: nat, f: nat, name: string) {
    IsBody(prog, m, f) && IndexOf(NameList(prog.mods[m].funcs), name) == f
  }

  /** Room for `depth` nested frames of `cells` cells on the operand stack, and for their return
      addresses on the call stack. */
  predicate RoomFor(lay: Layout, s: State<Pos>, depth: nat, cells: nat) {
    cells * depth <= s.core.osp && |s.calls| + depth <= lay.callCap
  }

  function Max(a: int, b: int): int { if a < b then b else a }

  // ----- factorial -----

  const FACTORIAL: seq<Item> := [
    Do(Ins(I1(Enter, 3))),
    Do(Ins(I2(Mov, 0, 3))),
    Do(Ins(IQ(1, 1))),
    Do(Ins(I2(Ule, 0, 1))),
    Do(Branch(Jz, "L1")),
    Do(Ins(I2(Mov, 0, 1))),
    Do(Branch(Jmp, "L2")),
    Mark("L1"),
    Do(Ins(I2(Mov, 2, 0))),
    Do(Ins(I2(Sub, 2, 1))),
    Do(Ins(I2(Mov, 0, 2))),
    Do(CallFn("factorial")),
    Do(Ins(I2(Mul, 3, 0))),
    Mark("L2"),
    Do(Ins(I1(Leave, 3)))
  ]

  function Factorial(n: nat): nat {
    if n == 0 then 1 else n * Factorial(n - 1)
  }

  /** The program leaves an argument of 0 or 1 as it is. */
  function FactorialResult(n: u64): u64 {
    if n == 0 then 0 else Factorial(n) % TWO64
  }

  function FactorialSteps(n: nat): nat {
    if n <= 1 then 8 else 11 + FactorialSteps(n - 1)
  }

  /** The same, item by item. */
  predicate IsFactorial(items: seq<Item>) {
    && |items| == 15
    && items[0] == Do(Ins(I1(Enter, 3)))
    && items[1] == Do(Ins(I2(Mov, 0, 3)))
    && items[2] == Do(Ins(IQ(1, 1)))
    && items[3] == Do(Ins(I2(Ule, 0, 1)))
    && items[4] == Do(Branch(Jz, "L1"))
    && items[5] == Do(Ins(I2(Mov, 0, 1)))
    && items[6] == Do(Branch(Jmp, "L2"))
    && items[7] == Mark("L1")
    && items[8] == Do(Ins(I2(Mov, 2, 0)))
    && items[9] == Do(Ins(I2(Sub, 2, 1)))
    && items[10] == Do(Ins(I2(Mov, 0, 2)))
    && items[11] == Do(CallFn("factorial"))
    && items[12] == Do(Ins(I2(Mul, 3, 0)))
    && items[13] == Mark("L2")
    && items[14] == Do(Ins(I1(Leave, 3)))
  }

  lemma {:induction false} FactorialLabels(items: seq<Item>)
    requires IsFactorial(items)
    ensures MarkIndex(items, "L1") == 7 && MarkIndex(items, "L2") == 13
    ensures SkipMarks(items, 7) == 8 && SkipMarks(items, 13) == 14
  {
    assert forall k :: 0 <= k < 15 && k != 7 && k != 13 ==> items[k].Do?;
  }

  /** The factor of the call below this one, taken modulo 2^64 before multiplying. */
  lemma FactorialModulo(n: u64)
    requires n >= 1
    ensures (n * (Factorial(n - 1) % TWO64)) % TWO64 == Factorial(n) % TWO64
  {
    ModMul(n, Factorial(n - 1));
  }

  lemma ModMul(a: nat, b: nat)
    ensures (a * (b % TWO64)) % TWO64 == (a * b) % TWO64
  {
    var q, r := b / TWO64, b % TWO64;
    var p := a * r;
    assert a * b == (a * q + p / TWO64) * TWO64 + p % TWO64 by {
      assert a * b == a * (q * TWO64 + r) == (a * q) * TWO64 + p;
      assert p == (p / TWO64) * TWO64 + p % TWO64;
    }
    ModUnique(a * b, TWO64, a * q + p / TWO64, p % TWO64);
  }

  /** Function `f` of module `m` is `factorial`. */
  predicate Factorials(prog: Linked, m: nat, f: nat) {
    Defines(prog, m, f, "factorial") && IsFactorial(ItemsAt(prog, m, f))
  }

  /** The part before the branch: r0 and r1 are set, cond tells whether n <= 1. */
  lemma {:induction false} FactorialHead(items: seq<Item>, lay: Layout, m: nat, c: Core, n: u64)
    requires IsFactorial(items) && c.osp + 3 < |c.stack| && c.stack[c.osp + 3] == n
    ensures AllData(items, 1, 4)
    ensures Straight(lay, m, items, 1, 4, c)
            == Some(c.(stack := c.stack[c.osp := n][c.osp + 1 := 1], cond := n <= 1))
  {
    var c1 := SetReg(c, 0, n);
    var c2 := SetReg(c1, 1, 1);
    assert Straight(lay, m, items, 3, 4, c2) == Some(c2.(cond := n <= 1));
    assert Straight(lay, m, items, 2, 4, c1) == Some(c2.(cond := n <= 1));
  }

  /** The argument of the recursive call. */
  lemma {:induction false} FactorialArgument(items: seq<Item>, lay: Layout, m: nat, c: Core, n: u64)
    requires IsFactorial(items) && n >= 1 && c.osp + 3 < |c.stack| && c.stack[c.osp] == n && c.stack[c.osp + 1] == 1
    ensures AllData(items, 8, 11)
    ensures Straight(lay, m, items, 8, 11, c)
            == Some(c.(stack := c.stack[c.osp + 2 := n - 1][c.osp := n - 1]))
  {
    var c1 := SetReg(c, 2, n);
    var c2 := SetReg(c1, 2, n - 1);
    var c3 := SetReg(c2, 0, n - 1);
    assert Straight(lay, m, items, 10, 11, c2) == Some(c3);
    assert Straight(lay, m, items, 9, 11, c1) == Some(c3);
    assert c3.stack == c.stack[c.osp + 2 := n - 1][c.osp := n - 1];
  }

  /** One instruction, as a straight line. */
  lemma {:induction false} StraightOne(lay: Layout, m: nat, items: seq<Item>, i: nat, c: Core, c': Core)
    requires i < |items| && IsData(items[i]) && Data(lay, m, items[i].s.i, c) == Done(c')
    ensures AllData(items, i, i + 1) && Straight(lay, m, items, i, i + 1, c) == Some(c')
  {
  }

  /** The cells of the frame when the branch is reached. */
  function FactorialBranch(c: Core): Core
    requires 3 <= c.osp < |c.stack|
  {
    var n := c.stack[c.osp];
    c.(osp := c.osp - 3, stack := c.stack[c.osp - 3 := n][c.osp - 2 := 1], cond := n <= 1)
  }

  lemma {:induction false} FactorialComputes(items: seq<Item>, lay: Layout, m: nat, c: Core)
    requires IsFactorial(items) && 3 <= c.osp < |c.stack|
    ensures AllData(items, 1, 4)
    ensures Straight(lay, m, items, 1, 4, c.(osp := c.osp - 3)) == Some(FactorialBranch(c))
  {
    FactorialHead(items, lay, m, c.(osp := c.osp - 3), c.stack[c.osp]);
  }

  lemma FactorialPushes(prog: Linked, m: nat, f: nat, s: State<Pos>)
    requires Factorials(prog, m, f) && s.mod == m && 3 <= s.core.osp && |s.calls| < prog.lay.callCap
    ensures Reaches(prog, 1, Pos(m, f, 0), s, Pos(m, f, 1), PushLr(s).(core := s.core.(osp := s.core.osp - 3)))
  {
    EnterStep(prog, Pos(m, f, 0), 0, 3, s);
  }

  lemma FactorialTests(prog: Linked, m: nat, f: nat, s: State<Pos>, c: Core)
    requires Factorials(prog, m, f) && s.mod == m && 3 <= c.osp < |c.stack|
    requires s.core == c.(osp := c.osp - 3)
    ensures Reaches(prog, 3, Pos(m, f, 1), s, Pos(m, f, 4), s.(core := FactorialBranch(c)))
  {
    FactorialComputes(ItemsAt(prog, m, f), prog.lay, m, c);
    StraightRuns(prog, m, f, 1, 4, s, FactorialBranch(c));
  }

  /** Entry to the comparison. */
  lemma FactorialCompares(prog: Linked, m: nat, f: nat, s: State<Pos>, c: Core)
    requires Factorials(prog, m, f) && s.mod == m
    requires 3 <= s.core.osp < |s.core.stack| && |s.calls| < prog.lay.callCap
    requires c == FactorialBranch(s.core)
    ensures Reaches(prog, 4, Pos(m, f, 0), s, Pos(m, f, 4), PushLr(s).(core := c))
  {
    var s1 := PushLr(s).(core := s.core.(osp := s.core.osp - 3));
    FactorialPushes(prog, m, f, s);
    FactorialTests(prog, m, f, s1, s.core);
    Chain(prog, 1, 3, Pos(m, f, 0), s, Pos(m, f, 1), s1, Pos(m, f, 4), PushLr(s).(core := c));
  }

  /** Entry to branch. */
  lemma FactorialEnters(prog: Linked, m: nat, f: nat, s: State<Pos>, c: Core)
    requires Factorials(prog, m, f) && s.mod == m
    requires 3 <= s.core.osp < |s.core.stack| && |s.calls| < prog.lay.callCap
    requires c == FactorialBranch(s.core)
    ensures Reaches(prog, 5, Pos(m, f, 0), s,
                    Pos(m, f, if c.cond then 5 else 7), PushLr(s).(core := c))
  {
    FactorialLabels(ItemsAt(prog, m, f));
    var s4 := PushLr(s).(core := c);
    FactorialCompares(prog, m, f, s, c);
    BranchStep(prog, Pos(m, f, 4), 4, Jz, "L1", s4);
    Chain(prog, 4, 1, Pos(m, f, 0), s, Pos(m, f, 4), s4, Pos(m, f, if c.cond then 5 else 7), s4);
  }

  /** From the branch to the return, for arguments 0 and 1. */
  lemma FactorialBase(prog: Linked, m: nat, f: nat, s: State<Pos>, to: Pos, c: Core)
    requires Factorials(prog, m, f) && s.mod == m
    requires s.core.osp + 3 < |s.core.stack|
    requires s.calls != [] && s.calls[|s.calls| - 1] == Some(to)
    requires c == SetReg(s.core, 0, Reg(s.core, 1)).(osp := s.core.osp + 3)
    ensures Reaches(prog, 3, Pos(m, f, 5), s, to, PopLr(s).(core := c))
  {
    FactorialLabels(ItemsAt(prog, m, f));
    var p5, p6, p13 := Pos(m, f, 5), Pos(m, f, 6), Pos(m, f, 13);
    var s6 := s.(core := SetReg(s.core, 0, Reg(s.core, 1)));
    StraightOne(prog.lay, m, ItemsAt(prog, m, f), 5, s.core, s6.core);
    StraightRuns(prog, m, f, 5, 6, s, s6.core);
    BranchStep(prog, p6, 6, Jmp, "L2", s6);
    LeaveStep(prog, p13, 14, 3, s6, to);
    Chain(prog, 1, 1, p5, s, p6, s6, p13, s6);
    Chain(prog, 2, 1, p5, s, p13, s6, to, PopLr(s).(core := c));
  }

  /** From the branch to the entry of the recursive call. */
  lemma FactorialDescends(prog: Linked, m: nat, f: nat, s: State<Pos>, n: u64, c: Core)
    requires Factorials(prog, m, f) && s.mod == m
    requires s.core.osp + 3 < |s.core.stack| && n >= 1
    requires Reg(s.core, 0) == n && Reg(s.core, 1) == 1
    requires c == s.core.(stack := s.core.stack[s.core.osp + 2 := n - 1][s.core.osp := n - 1])
    ensures Reaches(prog, 4, Pos(m, f, 7), s, Pos(m, f, 0),
                    s.(core := c, lr := Some(Pos(m, f, 12))))
  {
    FactorialLabels(ItemsAt(prog, m, f));
    var p7, p8, p11 := Pos(m, f, 7), Pos(m, f, 8), Pos(m, f, 11);
    var s11 := s.(core := c);
    FactorialArgument(ItemsAt(prog, m, f), prog.lay, m, s.core, n);
    StraightRuns(prog, m, f, 8, 11, s, c);
    FromMark(prog, 3, p7, s, p11, s11);
    CallStep(prog, p11, 11, "factorial", f, s11);
    Chain(prog, 3, 1, p7, s, p11, s11, Pos(m, f, 0), s11.(lr := Some(Pos(m, f, 12))));
  }

  /** From the return of the recursive call to the return. */
  lemma FactorialAscends(prog: Linked, m: nat, f: nat, s: State<Pos>, to: Pos, c: Core)
    requires Factorials(prog, m, f) && s.mod == m
    requires s.core.osp + 3 < |s.core.stack|
    requires s.calls != [] && s.calls[|s.calls| - 1] == Some(to)
    requires c == SetReg(s.core, 3, (Reg(s.core, 3) * Reg(s.core, 0)) % TWO64).(osp := s.core.osp + 3)
    ensures Reaches(prog, 2, Pos(m, f, 12), s, to, PopLr(s).(core := c))
  {
    FactorialLabels(ItemsAt(prog, m, f));
    var p12, p13 := Pos(m, f, 12), Pos(m, f, 13);
    var s13 := s.(core := SetReg(s.core, 3, (Reg(s.core, 3) * Reg(s.core, 0)) % TWO64));
    StraightOne(prog.lay, m, ItemsAt(prog, m, f), 12, s.core, s13.core);
    StraightRuns(prog, m, f, 12, 13, s, s13.core);
    LeaveStep(prog, p13, 14, 3, s13, to);
    Chain(prog, 1, 1, p12, s, p13, s13, to, PopLr(s).(core := c));
  }

  /** The cells of the frame when the recursive call is entered. */
  function FactorialCall(c: Core): Core
    requires 3 <= c.osp < |c.stack| && c.stack[c.osp] >= 1
  {
    var n := c.stack[c.osp];
    var c1 := FactorialBranch(c);
    c1.(stack := c1.stack[c.osp - 1 := n - 1][c.osp - 3 := n - 1])
  }

  /** What the frame leaves after the recursive call has returned `c'`. */
  function FactorialLeave(c': Core): Core
    requires c'.osp + 3 < |c'.stack|
  {
    SetReg(c', 3, (Reg(c', 3) * Reg(c', 0)) % TWO64).(osp := c'.osp + 3)
  }

  lemma FactorialValue(c: Core, c': Core)
    requires 3 <= c.osp < |c.stack| && c.stack[c.osp] >= 2
    requires Returned(FactorialCall(c), c', FactorialResult(c.stack[c.osp] - 1))
    ensures Returned(c, FactorialLeave(c'), FactorialResult(c.stack[c.osp]))
  {
    FactorialModulo(c.stack[c.osp]);
  }

  lemma FactorialReturnsBase(prog: Linked, m: nat, f: nat, s: State<Pos>, to: Pos)
    returns (c: Core)
    requires Factorials(prog, m, f) && s.mod == m && s.lr == Some(to)
    requires 3 <= s.core.osp < |s.core.stack| && s.core.stack[s.core.osp] <= 1
    requires |s.calls| < prog.lay.callCap
    ensures Reaches(prog, 8, Pos(m, f, 0), s, to, s.(core := c))
    ensures Returned(s.core, c, FactorialResult(s.core.stack[s.core.osp]))
  {
    c := FactorialSmall(s.core);
    FactorialBaseRuns(prog, m, f, s, to, c);
    FactorialSmallReturned(s.core, c);
  }

  /** What the call leaves for an argument of 0 or 1. */
  function FactorialSmall(c: Core): Core
    requires 3 <= c.osp < |c.stack|
  {
    var c1 := FactorialBranch(c);
    SetReg(c1, 0, Reg(c1, 1)).(osp := c.osp)
  }

  lemma FactorialSmallReturned(c: Core, c': Core)
    requires 3 <= c.osp < |c.stack| && c.stack[c.osp] <= 1 && c' == FactorialSmall(c)
    ensures Returned(c, c', FactorialResult(c.stack[c.osp]))
  {
    assert Factorial(1) == 1 * Factorial(0);
  }

  lemma FactorialBaseRuns(prog: Linked, m: nat, f: nat, s: State<Pos>, to: Pos, c: Core)
    requires Factorials(prog, m, f) && s.mod == m && s.lr == Some(to)
    requires 3 <= s.core.osp < |s.core.stack| && s.core.stack[s.core.osp] <= 1
    requires |s.calls| < prog.lay.callCap && c == FactorialSmall(s.core)
    ensures Reaches(prog, 8, Pos(m, f, 0), s, to, s.(core := c))
  {
    var c1 := FactorialBranch(s.core);
    var s1 := PushLr(s).(core := c1);
    FactorialEnters(prog, m, f, s, c1);
    FactorialBase(prog, m, f, s1, to, c);
    PopPush(s, c1, c);
    Chain(prog, 5, 3, Pos(m, f, 0), s, Pos(m, f, 5), s1, to, s.(core := c));
  }

  /** Pushing and popping the link register around other data restores it and the call stack. */
  lemma PopPush(s: State<Pos>, c: Core, c': Core)
    ensures PopLr(PushLr(s).(core := c)).(core := c') == s.(core := c')
  {
  }

  /** From entry to the entry of the recursive call. */
  lemma FactorialDown(prog: Linked, m: nat, f: nat, s: State<Pos>)
    requires Factorials(prog, m, f) && s.mod == m
    requires 3 <= s.core.osp < |s.core.stack| && s.core.stack[s.core.osp] >= 2
    requires |s.calls| < prog.lay.callCap
    ensures Reaches(prog, 9, Pos(m, f, 0), s, Pos(m, f, 0),
                    PushLr(s).(core := FactorialCall(s.core), lr := Some(Pos(m, f, 12))))
  {
    var c1, c2 := FactorialBranch(s.core), FactorialCall(s.core);
    var s1 := PushLr(s).(core := c1);
    FactorialEnters(prog, m, f, s, c1);
    FactorialDescends(prog, m, f, s1, s.core.stack[s.core.osp], c2);
    Chain(prog, 5, 4, Pos(m, f, 0), s, Pos(m, f, 7), s1, Pos(m, f, 0),
          s1.(core := c2, lr := Some(Pos(m, f, 12))));
  }

  /** From the return of the recursive call to the caller. */
  lemma FactorialUp(prog: Linked, m: nat, f: nat, s: State<Pos>, to: Pos, c': Core)
    requires Factorials(prog, m, f) && s.mod == m && s.lr == Some(to)
    requires c'.osp + 3 < |c'.stack|
    ensures Reaches(prog, 2, Pos(m, f, 12), PushLr(s).(core := c', lr := Some(Pos(m, f, 12))),
                    to, s.(core := FactorialLeave(c')))
  {
    var s3 := PushLr(s).(core := c', lr := Some(Pos(m, f, 12)));
    FactorialAscends(prog, m, f, s3, to, FactorialLeave(c'));
    assert PopLr(s3).(core := FactorialLeave(c')) == s.(core := FactorialLeave(c'));
  }

  /** For every argument with enough room on both stacks, a call of `factorial` comes back to its
      return address with the factorial in the caller's r0, and both stack pointers restored. */
  lemma {:induction false} FactorialReturns(prog: Linked, m: nat, f: nat, s: State<Pos>, to: Pos)
    returns (c: Core)
    requires Factorials(prog, m, f) && s.mod == m && s.lr == Some(to)
    requires s.core.osp < |s.core.stack|
    requires RoomFor(prog.lay, s, Max(s.core.stack[s.core.osp], 1), 3)
    ensures var n := s.core.stack[s.core.osp];
            && Reaches(prog, FactorialSteps(n), Pos(m, f, 0), s, to, s.(core := c))
            && Returned(s.core, c, FactorialResult(n))
    decreases s.core.stack[s.core.osp]
  {
    var n := s.core.stack[s.core.osp];
    if n <= 1 {
      c := FactorialReturnsBase(prog, m, f, s, to);
    } else {
      var s2 := PushLr(s).(core := FactorialCall(s.core), lr := Some(Pos(m, f, 12)));
      var c' := FactorialReturns(prog, m, f, s2, Pos(m, f, 12));
      c := FactorialLeave(c');
      FactorialValue(s.core, c');
      FactorialRuns(prog, m, f, s, to, c', FactorialSteps(n - 1));
    }
  }

  /** The run of a call, given that of its recursive call. */
  lemma FactorialRuns(prog: Linked, m: nat, f: nat, s: State<Pos>, to: Pos, c': Core, k: nat)
    requires Factorials(prog, m, f) && s.mod == m && s.lr == Some(to) && |s.calls| < prog.lay.callCap
    requires 3 <= s.core.osp < |s.core.stack| && s.core.stack[s.core.osp] >= 2 && c'.osp + 3 < |c'.stack|
    requires var s2 := PushLr(s).(core := FactorialCall(s.core), lr := Some(Pos(m, f, 12)));
             Reaches(prog, k, Pos(m, f, 0), s2, Pos(m, f, 12), s2.(core := c'))
    ensures Reaches(prog, 9 + k + 2, Pos(m, f, 0), s, to, s.(core := FactorialLeave(c')))
  {
    var p0, back := Pos(m, f, 0), Pos(m, f, 12);
    var s2 := PushLr(s).(core := FactorialCall(s.core), lr := Some(back));
    FactorialDown(prog, m, f, s);
    FactorialUp(prog, m, f, s, to, c');
    Chain(prog, 9, k, p0, s, p0, s2, back, s2.(core := c'));
    Chain(prog, 9 + k, 2, p0, s, back, s2.(core := c'), to, s.(core := FactorialLeave(c')));
  }

  // ----- fib -----

  const FIB: seq<Item> := [
    Do(Ins(I1(Enter, 6))),
    Do(Ins(IQ(3, 1))),
    Do(Ins(IQ(1, 2))),
    Do(Ins(I2(Ilt, 6, 1))),
    Do(Branch(Jz, "calc")),
    Do(Ins(IQ(0, 1))),
    Do(Ins(I1(Leave, 6))),
    Mark("calc"),
    Do(Ins(I2(Mov, 2, 6))),
    Do(Ins(I2(Sub, 2, 3))),
    Do(Ins(I2(Mov, 0, 2))),
    Do(CallFn("fib")),
    Do(Ins(I2(Mov, 4, 0))),
    Do(Ins(I2(Mov, 2, 6))),
    Do(Ins(I2(Sub, 2, 1))),
    Do(Ins(I2(Mov, 0, 2))),
    Do(CallFn("fib")),
    Do(Ins(I2(Mov, 5, 0))),
    Do(Ins(I2(Add, 4, 5))),
    Do(Ins(I2(Mov, 6, 4))),
    Do(Ins(I1(Leave, 6)))
  ]

  /** The same, item by item. */
  predicate IsFib(items: seq<Item>) {
    && |items| == 21
    && items[0] == Do(Ins(I1(Enter, 6)))
    && items[1] == Do(Ins(IQ(3, 1)))
    && items[2] == Do(Ins(IQ(1, 2)))
    && items[3] == Do(Ins(I2(Ilt, 6, 1)))
    && items[4] == Do(Branch(Jz, "calc"))
    && items[5] == Do(Ins(IQ(0, 1)))
    && items[6] == Do(Ins(I1(Leave, 6)))
    && items[7] == Mark("calc")
    && items[8] == Do(Ins(I2(Mov, 2, 6)))
    && items[9] == Do(Ins(I2(Sub, 2, 3)))
    && items[10] == Do(Ins(I2(Mov, 0, 2)))
    && items[11] == Do(CallFn("fib"))
    && items[12] == Do(Ins(I2(Mov, 4, 0)))
    && items[13] == Do(Ins(I2(Mov, 2, 6)))
    && items[14] == Do(Ins(I2(Sub, 2, 1)))
    && items[15] == Do(Ins(I2(Mov, 0, 2)))
    && items[16] == Do(CallFn("fib"))
    && items[17] == Do(Ins(I2(Mov, 5, 0)))
    && items[18] == Do(Ins(I2(Add, 4, 5)))
    && items[19] == Do(Ins(I2(Mov, 6, 4)))
    && items[20] == Do(Ins(I1(Leave, 6)))
  }

  predicate Fibs(prog: Linked, m: nat, f: nat) {
    Defines(prog, m, f, "fib") && IsFib(ItemsAt(prog, m, f))
  }

  function Fib(n: nat): nat {
    if n < 2 then n else Fib(n - 1) + Fib(n - 2)
  }

  function FibSteps(n: nat): nat {
    if n < 2 then 7 else 18 + FibSteps(n - 1) + FibSteps(n - 2)
  }

  lemma {:induction false} FibLabels(items: seq<Item>)
    requires IsFib(items)
    ensures MarkIndex(items, "calc") == 7 && SkipMarks(items, 7) == 8
  {
    assert forall k :: 0 <= k < 21 && k != 7 ==> items[k].Do?;
  }

  lemma FibModulo(n: u64)
    requires n >= 2
    ensures (Fib(n - 1) % TWO64 + Fib(n - 2) % TWO64) % TWO64 == Fib(n) % TWO64
  {
    var a, b := Fib(n - 1), Fib(n - 2);
    var q, r := a / TWO64 + b / TWO64, a % TWO64 + b % TWO64;
    assert a + b == q * TWO64 + r;
    ModUnique(a + b, TWO64, q + r / TWO64, r % TWO64);
  }

  // The frame of `fib` at each stop, as functions of the core at entry or at the previous stop.

  /** At the branch. */
  function FibBranch(c: Core): Core
    requires 6 <= c.osp < |c.stack|
  {
    c.(osp := c.osp - 6, stack := c.stack[c.osp - 3 := 1][c.osp - 5 := 2], cond := c.stack[c.osp] < 2)
  }

  /** At the first call, from the branch. */
  function FibFirst(c: Core): Core
    requires HasReg(c, 6) && Reg(c, 6) >= 2
  {
    var n := Reg(c, 6);
    SetReg(SetReg(c, 2, n - 1), 0, n - 1)
  }

  /** At the second call, from the return of the first. */
  function FibSecond(c: Core): Core
    requires HasReg(c, 6) && Reg(c, 6) >= 2
  {
    var n := Reg(c, 6);
    SetReg(SetReg(SetReg(c, 4, Reg(c, 0)), 2, n - 2), 0, n - 2)
  }

  /** At the end, from the return of the second. */
  function FibSum(c: Core): Core
    requires HasReg(c, 6)
  {
    var v := (Reg(c, 4) + Reg(c, 0)) % TWO64;
    SetReg(SetReg(SetReg(c, 5, Reg(c, 0)), 4, v), 6, v)
  }

  lemma FibHead(items: seq<Item>, lay: Layout, m: nat, c: Core)
    requires IsFib(items) && 6 <= c.osp < |c.stack| && c.stack[c.osp] < TWO64 / 2
    ensures AllData(items, 1, 4)
    ensures Straight(lay, m, items, 1, 4, c.(osp := c.osp - 6)) == Some(FibBranch(c))
  {
    var c0 := c.(osp := c.osp - 6);
    var c1 := SetReg(c0, 3, 1);
    var c2 := SetReg(c1, 1, 2);
    assert Data(lay, m, items[3].s.i, c2) == Done(FibBranch(c));
    assert Straight(lay, m, items, 3, 4, c2) == Some(FibBranch(c));
    assert Straight(lay, m, items, 2, 4, c1) == Some(FibBranch(c));
  }

  lemma {:induction false} FibFirstArgument(items: seq<Item>, lay: Layout, m: nat, c: Core)
    requires IsFib(items) && HasReg(c, 6) && Reg(c, 6) >= 2 && Reg(c, 3) == 1
    ensures AllData(items, 8, 11)
    ensures Straight(lay, m, items, 8, 11, c) == Some(FibFirst(c))
  {
    var n := Reg(c, 6);
    var c1 := SetReg(c, 2, n);
    var c2 := SetReg(c1, 2, n - 1);
    assert c2 == SetReg(c, 2, n - 1);
    assert Straight(lay, m, items, 10, 11, c2) == Some(FibFirst(c));
    assert Straight(lay, m, items, 9, 11, c1) == Some(FibFirst(c));
  }

  lemma {:induction false} FibSecondArgument(items: seq<Item>, lay: Layout, m: nat, c: Core)
    requires IsFib(items) && HasReg(c, 6) && Reg(c, 6) >= 2 && Reg(c, 1) == 2
    ensures AllData(items, 12, 16)
    ensures Straight(lay, m, items, 12, 16, c) == Some(FibSecond(c))
  {
    var n := Reg(c, 6);
    var c1 := SetReg(c, 4, Reg(c, 0));
    var c2 := SetReg(c1, 2, n);
    var c3 := SetReg(c2, 2, n - 2);
    assert c3 == SetReg(c1, 2, n - 2);
    assert Straight(lay, m, items, 15, 16, c3) == Some(FibSecond(c));
    assert Straight(lay, m, items, 14, 16, c2) == Some(FibSecond(c));
    assert Straight(lay, m, items, 13, 16, c1) == Some(FibSecond(c));
  }

  lemma {:induction false} FibTail(items: seq<Item>, lay: Layout, m: nat, c: Core)
    requires IsFib(items) && HasReg(c, 6)
    ensures AllData(items, 17, 20)
    ensures Straight(lay, m, items, 17, 20, c) == Some(FibSum(c))
  {
    var c1 := SetReg(c, 5, Reg(c, 0));
    var c2 := SetReg(c1, 4, (Reg(c, 4) + Reg(c, 0)) % TWO64);
    assert Straight(lay, m, items, 19, 20, c2) == Some(FibSum(c));
    assert Straight(lay, m, items, 18, 20, c1) == Some(FibSum(c));
  }

  lemma FibFrame(prog: Linked, m: nat, f: nat, s: State<Pos>)
    requires Fibs(prog, m, f) && s.mod == m && RoomFor(prog.lay, s, 1, 6)
    ensures Reaches(prog, 1, Pos(m, f, 0), s, Pos(m, f, 1),
                    PushLr(s).(core := s.core.(osp := s.core.osp - 6)))
  {
    EnterStep(prog, Pos(m, f, 0), 0, 6, s);
  }

  lemma FibHeadRuns(prog: Linked, m: nat, f: nat, s: State<Pos>, s1: State<Pos>)
    requires Fibs(prog, m, f) && s.mod == m && 6 <= s.core.osp < |s.core.stack|
    requires s.core.stack[s.core.osp] < TWO64 / 2
    requires s1 == PushLr(s).(core := s.core.(osp := s.core.osp - 6))
    ensures Reaches(prog, 3, Pos(m, f, 1), s1, Pos(m, f, 4), PushLr(s).(core := FibBranch(s.core)))
  {
    FibHead(ItemsAt(prog, m, f), prog.lay, m, s.core);
    StraightRuns(prog, m, f, 1, 4, s1, FibBranch(s.core));
    assert s1.(core := FibBranch(s.core)) == PushLr(s).(core := FibBranch(s.core));
  }

  lemma FibCompares(prog: Linked, m: nat, f: nat, s: State<Pos>)
    requires Fibs(prog, m, f) && s.mod == m && RoomFor(prog.lay, s, 1, 6)
    requires s.core.osp < |s.core.stack| && s.core.stack[s.core.osp] < TWO64 / 2
    ensures Reaches(prog, 4, Pos(m, f, 0), s, Pos(m, f, 4), PushLr(s).(core := FibBranch(s.core)))
  {
    var s1 := PushLr(s).(core := s.core.(osp := s.core.osp - 6));
    var s4 := PushLr(s).(core := FibBranch(s.core));
    FibFrame(prog, m, f, s);
    FibHeadRuns(prog, m, f, s, s1);
    Chain(prog, 1, 3, Pos(m, f, 0), s, Pos(m, f, 1), s1, Pos(m, f, 4), s4);
  }

  lemma FibEnters(prog: Linked, m: nat, f: nat, s: State<Pos>)
    requires Fibs(prog, m, f) && s.mod == m && RoomFor(prog.lay, s, 1, 6)
    requires s.core.osp < |s.core.stack| && s.core.stack[s.core.osp] < TWO64 / 2
    ensures Reaches(prog, 5, Pos(m, f, 0), s, Pos(m, f, if s.core.stack[s.core.osp] < 2 then 5 else 7),
                    PushLr(s).(core := FibBranch(s.core)))
  {
    FibLabels(ItemsAt(prog, m, f));
    var s4 := PushLr(s).(core := FibBranch(s.core));
    var p := Pos(m, f, if s.core.stack[s.core.osp] < 2 then 5 else 7);
    FibCompares(prog, m, f, s);
    BranchStep(prog, Pos(m, f, 4), 4, Jz, "calc", s4);
    Chain(prog, 4, 1, Pos(m, f, 0), s, Pos(m, f, 4), s4, p, s4);
  }

  lemma FibBase(prog: Linked, m: nat, f: nat, s: State<Pos>, to: Pos)
    requires Fibs(prog, m, f) && s.mod == m && HasReg(s.core, 6)
    requires s.calls != [] && s.calls[|s.calls| - 1] == Some(to)
    ensures Reaches(prog, 2, Pos(m, f, 5), s, to,
                    PopLr(s).(core := SetReg(s.core, 0, 1).(osp := s.core.osp + 6)))
  {
    var s6 := s.(core := SetReg(s.core, 0, 1));
    StraightOne(prog.lay, m, ItemsAt(prog, m, f), 5, s.core, s6.core);
    StraightRuns(prog, m, f, 5, 6, s, s6.core);
    LeaveStep(prog, Pos(m, f, 6), 6, 6, s6, to);
    Chain(prog, 1, 1, Pos(m, f, 5), s, Pos(m, f, 6), s6, to,
          PopLr(s).(core := SetReg(s.core, 0, 1).(osp := s.core.osp + 6)));
  }

  lemma FibCallsFirst(prog: Linked, m: nat, f: nat, s: State<Pos>)
    requires Fibs(prog, m, f) && s.mod == m
    requires HasReg(s.core, 6) && Reg(s.core, 6) >= 2 && Reg(s.core, 3) == 1
    ensures Reaches(prog, 4, Pos(m, f, 7), s, Pos(m, f, 0),
                    s.(core := FibFirst(s.core), lr := Some(Pos(m, f, 12))))
  {
    FibLabels(ItemsAt(prog, m, f));
    var s11 := s.(core := FibFirst(s.core));
    FibFirstArgument(ItemsAt(prog, m, f), prog.lay, m, s.core);
    StraightRuns(prog, m, f, 8, 11, s, s11.core);
    FromMark(prog, 3, Pos(m, f, 7), s, Pos(m, f, 11), s11);
    CallStep(prog, Pos(m, f, 11), 11, "fib", f, s11);
    Chain(prog, 3, 1, Pos(m, f, 7), s, Pos(m, f, 11), s11, Pos(m, f, 0),
          s11.(lr := Some(Pos(m, f, 12))));
  }

  lemma FibCallsSecond(prog: Linked, m: nat, f: nat, s: State<Pos>)
    requires Fibs(prog, m, f) && s.mod == m
    requires HasReg(s.core, 6) && Reg(s.core, 6) >= 2 && Reg(s.core, 1) == 2
    ensures Reaches(prog, 5, Pos(m, f, 12), s, Pos(m, f, 0),
                    s.(core := FibSecond(s.core), lr := Some(Pos(m, f, 17))))
  {
    var s16 := s.(core := FibSecond(s.core));
    FibSecondArgument(ItemsAt(prog, m, f), prog.lay, m, s.core);
    StraightRuns(prog, m, f, 12, 16, s, s16.core);
    CallStep(prog, Pos(m, f, 16), 16, "fib", f, s16);
    Chain(prog, 4, 1, Pos(m, f, 12), s, Pos(m, f, 16), s16, Pos(m, f, 0),
          s16.(lr := Some(Pos(m, f, 17))));
  }

  lemma FibLeaves(prog: Linked, m: nat, f: nat, s: State<Pos>, to: Pos)
    requires Fibs(prog, m, f) && s.mod == m && s.core.osp + 6 <= |s.core.stack|
    requires s.calls != [] && s.calls[|s.calls| - 1] == Some(to)
    ensures Reaches(prog, 1, Pos(m, f, 20), s, to, PopLr(s).(core := s.core.(osp := s.core.osp + 6)))
  {
    LeaveStep(prog, Pos(m, f, 20), 20, 6, s, to);
  }

  lemma FibTailRuns(prog: Linked, m: nat, f: nat, s: State<Pos>)
    requires Fibs(prog, m, f) && s.mod == m && HasReg(s.core, 6)
    ensures Reaches(prog, 3, Pos(m, f, 17), s, Pos(m, f, 20), s.(core := FibSum(s.core)))
  {
    FibTail(ItemsAt(prog, m, f), prog.lay, m, s.core);
    StraightRuns(prog, m, f, 17, 20, s, FibSum(s.core));
  }

  lemma FibAdds(prog: Linked, m: nat, f: nat, s: State<Pos>, to: Pos)
    requires Fibs(prog, m, f) && s.mod == m && HasReg(s.core, 6)
    requires s.calls != [] && s.calls[|s.calls| - 1] == Some(to)
    ensures Reaches(prog, 4, Pos(m, f, 17), s, to,
                    PopLr(s).(core := FibSum(s.core).(osp := s.core.osp + 6)))
  {
    var s20 := s.(core := FibSum(s.core));
    FibTailRuns(prog, m, f, s);
    FibLeaves(prog, m, f, s20, to);
    Chain(prog, 3, 1, Pos(m, f, 17), s, Pos(m, f, 20), s20, to,
          PopLr(s).(core := FibSum(s.core).(osp := s.core.osp + 6)));
  }

  /** The frame inside a call, at its recursive calls: the caller's link register pushed, `back` in
      the link register. */
  function Inside(s: State<Pos>, c: Core, back: Pos): State<Pos> {
    PushLr(s).(core := c, lr := Some(back))
  }

  lemma FibReturnsBase(prog: Linked, m: nat, f: nat, s: State<Pos>, to: Pos) returns (c: Core)
    requires Fibs(prog, m, f) && s.mod == m && s.lr == Some(to) && RoomFor(prog.lay, s, 1, 6)
    requires s.core.osp < |s.core.stack| && s.core.stack[s.core.osp] < 2
    ensures Reaches(prog, 7, Pos(m, f, 0), s, to, s.(core := c))
    ensures Returned(s.core, c, s.core.stack[s.core.osp])
  {
    var c1 := FibBranch(s.core);
    var s1 := PushLr(s).(core := c1);
    c := SetReg(c1, 0, 1).(osp := s.core.osp);
    FibEnters(prog, m, f, s);
    FibBase(prog, m, f, s1, to);
    PopPush(s, c1, c);
    Chain(prog, 5, 2, Pos(m, f, 0), s, Pos(m, f, 5), s1, to, s.(core := c));
  }

  lemma FibDown(prog: Linked, m: nat, f: nat, s: State<Pos>)
    requires Fibs(prog, m, f) && s.mod == m && RoomFor(prog.lay, s, 1, 6)
    requires s.core.osp < |s.core.stack| && 2 <= s.core.stack[s.core.osp] < TWO64 / 2
    ensures Reaches(prog, 9, Pos(m, f, 0), s, Pos(m, f, 0),
                    Inside(s, FibFirst(FibBranch(s.core)), Pos(m, f, 12)))
  {
    var s1 := PushLr(s).(core := FibBranch(s.core));
    FibEnters(prog, m, f, s);
    FibCallsFirst(prog, m, f, s1);
    Chain(prog, 5, 4, Pos(m, f, 0), s, Pos(m, f, 7), s1, Pos(m, f, 0),
          Inside(s, FibFirst(FibBranch(s.core)), Pos(m, f, 12)));
  }

  lemma FibUp(prog: Linked, m: nat, f: nat, s: State<Pos>, to: Pos, c: Core)
    requires Fibs(prog, m, f) && s.mod == m && s.lr == Some(to) && HasReg(c, 6)
    ensures Reaches(prog, 4, Pos(m, f, 17), Inside(s, c, Pos(m, f, 17)), to,
                    s.(core := FibSum(c).(osp := c.osp + 6)))
  {
    var t := Inside(s, c, Pos(m, f, 17));
    FibAdds(prog, m, f, t, to);
    assert PopLr(t).(core := FibSum(c).(osp := c.osp + 6)) == s.(core := FibSum(c).(osp := c.osp + 6));
  }

  /** What the caller finds after both recursive calls have done their part. */
  lemma FibValue(c: Core, c1: Core, c2: Core)
    requires 6 <= c.osp < |c.stack| && c.stack[c.osp] >= 2
    requires Returned(FibFirst(FibBranch(c)), c1, Fib(c.stack[c.osp] - 1) % TWO64)
    requires Returned(FibSecond(c1), c2, Fib(c.stack[c.osp] - 2) % TWO64)
    ensures Returned(c, FibSum(c2).(osp := c2.osp + 6), Fib(c.stack[c.osp]) % TWO64)
  {
    FibModulo(c.stack[c.osp]);
  }

  /** The frame's own registers survive the first call. */
  lemma FibKeeps(c: Core, c1: Core, v: u64)
    requires 6 <= c.osp < |c.stack| && c.stack[c.osp] >= 2
    requires Returned(FibFirst(FibBranch(c)), c1, v)
    ensures HasReg(c1, 6) && Reg(c1, 6) == c.stack[c.osp] && Reg(c1, 1) == 2
    ensures c1.osp == c.osp - 6 && |c1.stack| == |c.stack|
  {
  }

  /** Runs of the pieces of one call, put together. */
  lemma FibPieces(prog: Linked, k: nat, k1: nat, k2: nat, p0: Pos, s: State<Pos>, s1: State<Pos>, b1: Pos,
                  t1: State<Pos>, s2: State<Pos>, b2: Pos, t2: State<Pos>, to: Pos, u: State<Pos>)
    requires Reaches(prog, 9, p0, s, p0, s1) && Reaches(prog, k1, p0, s1, b1, t1)
    requires Reaches(prog, 5, b1, t1, p0, s2) && Reaches(prog, k2, p0, s2, b2, t2)
    requires Reaches(prog, 4, b2, t2, to, u) && k == 18 + k1 + k2
    ensures Reaches(prog, k, p0, s, to, u)
  {
    Chain(prog, 9, k1, p0, s, p0, s1, b1, t1);
    Chain(prog, 9 + k1, 5, p0, s, b1, t1, p0, s2);
    Chain(prog, 14 + k1, k2, p0, s, p0, s2, b2, t2);
    Chain(prog, 14 + k1 + k2, 4, p0, s, b2, t2, to, u);
  }

  /** A call of `fib` in state `s` comes back to `to`, leaving `c`. */
  predicate FibComesBack(prog: Linked, m: nat, f: nat, s: State<Pos>, to: Pos, c: Core)
    requires s.core.osp < |s.core.stack|
  {
    && Reaches(prog, FibSteps(s.core.stack[s.core.osp]), Pos(m, f, 0), s, to, s.(core := c))
    && Returned(s.core, c, Fib(s.core.stack[s.core.osp]) % TWO64)
  }

  /** For every non-negative signed argument with enough room on both stacks, a call of `fib` comes
      back to its return address with the Fibonacci number, modulo 2^64, in the caller's r0, and both
      stack pointers restored. */
  lemma {:induction false} FibReturns(prog: Linked, m: nat, f: nat, s: State<Pos>, to: Pos)
    returns (c: Core)
    requires Fibs(prog, m, f) && s.mod == m && s.lr == Some(to)
    requires s.core.osp < |s.core.stack| && s.core.stack[s.core.osp] < TWO64 / 2
    requires RoomFor(prog.lay, s, Max(s.core.stack[s.core.osp], 1), 6)
    ensures FibComesBack(prog, m, f, s, to, c)
    decreases s.core.stack[s.core.osp], 1
  {
    if s.core.stack[s.core.osp] < 2 {
      c := FibReturnsBase(prog, m, f, s, to);
    } else {
      var c1 := FibFirstReturns(prog, m, f, s);
      var c2 := FibSecondReturns(prog, m, f, s, c1);
      c := FibJoins(prog, m, f, s, to, c1, c2);
    }
  }

  /** The first recursive call ... */
  lemma {:induction false} FibFirstReturns(prog: Linked, m: nat, f: nat, s: State<Pos>) returns (c1: Core)
    requires Fibs(prog, m, f) && s.mod == m
    requires s.core.osp < |s.core.stack| && 2 <= s.core.stack[s.core.osp] < TWO64 / 2
    requires RoomFor(prog.lay, s, s.core.stack[s.core.osp], 6)
    ensures HasReg(c1, 6) && Reg(c1, 6) == s.core.stack[s.core.osp] && Reg(c1, 1) == 2
    ensures c1.osp == s.core.osp - 6 && |c1.stack| == |s.core.stack|
    ensures FibComesBack(prog, m, f, Inside(s, FibFirst(FibBranch(s.core)), Pos(m, f, 12)), Pos(m, f, 12), c1)
    decreases s.core.stack[s.core.osp], 0
  {
    c1 := FibReturns(prog, m, f, Inside(s, FibFirst(FibBranch(s.core)), Pos(m, f, 12)), Pos(m, f, 12));
    FibKeeps(s.core, c1, Fib(s.core.stack[s.core.osp] - 1) % TWO64);
  }

  /** ... and the second. */
  lemma {:induction false} FibSecondReturns(prog: Linked, m: nat, f: nat, s: State<Pos>, c1: Core)
    returns (c2: Core)
    requires Fibs(prog, m, f) && s.mod == m
    requires s.core.osp < |s.core.stack| && 2 <= s.core.stack[s.core.osp] < TWO64 / 2
    requires RoomFor(prog.lay, s, s.core.stack[s.core.osp], 6)
    requires HasReg(c1, 6) && Reg(c1, 6) == s.core.stack[s.core.osp] && Reg(c1, 1) == 2
    requires c1.osp == s.core.osp - 6 && |c1.stack| == |s.core.stack|
    ensures FibComesBack(prog, m, f, Inside(s, FibSecond(c1), Pos(m, f, 17)), Pos(m, f, 17), c2)
    decreases s.core.stack[s.core.osp], 0
  {
    c2 := FibReturns(prog, m, f, Inside(s, FibSecond(c1), Pos(m, f, 17)), Pos(m, f, 17));
  }

  /** Both recursive calls of a frame have come back. */
  predicate BothComeBack(prog: Linked, m: nat, f: nat, s: State<Pos>, c1: Core, c2: Core)
    requires 6 <= s.core.osp < |s.core.stack| && s.core.stack[s.core.osp] >= 2
  {
    && HasReg(c1, 6) && Reg(c1, 6) == s.core.stack[s.core.osp] && Reg(c1, 1) == 2
    && c1.osp == s.core.osp - 6 && |c1.stack| == |s.core.stack|
    && FibComesBack(prog, m, f, Inside(s, FibFirst(FibBranch(s.core)), Pos(m, f, 12)), Pos(m, f, 12), c1)
    && FibComesBack(prog, m, f, Inside(s, FibSecond(c1), Pos(m, f, 17)), Pos(m, f, 17), c2)
  }

  lemma FibJoins(prog: Linked, m: nat, f: nat, s: State<Pos>, to: Pos, c1: Core, c2: Core) returns (c: Core)
    requires Fibs(prog, m, f) && s.mod == m && s.lr == Some(to) && RoomFor(prog.lay, s, 1, 6)
    requires s.core.osp < |s.core.stack| && 2 <= s.core.stack[s.core.osp] < TWO64 / 2
    requires BothComeBack(prog, m, f, s, c1, c2)
    ensures FibComesBack(prog, m, f, s, to, c)
  {
    c := FibSum(c2).(osp := c2.osp + 6);
    FibJoinsValue(prog, m, f, s, c1, c2);
    FibJoinsRuns(prog, m, f, s, to, c1, c2);
  }

  lemma FibJoinsValue(prog: Linked, m: nat, f: nat, s: State<Pos>, c1: Core, c2: Core)
    requires 6 <= s.core.osp < |s.core.stack| && s.core.stack[s.core.osp] >= 2
    requires BothComeBack(prog, m, f, s, c1, c2)
    ensures HasReg(c2, 6)
    ensures Returned(s.core, FibSum(c2).(osp := c2.osp + 6), Fib(s.core.stack[s.core.osp]) % TWO64)
  {
    FibArguments(s.core, c1);
    FibValue(s.core, c1, c2);
  }

  lemma FibJoinsRuns(prog: Linked, m: nat, f: nat, s: State<Pos>, to: Pos, c1: Core, c2: Core)
    requires Fibs(prog, m, f) && s.mod == m && s.lr == Some(to) && RoomFor(prog.lay, s, 1, 6)
    requires s.core.osp < |s.core.stack| && 2 <= s.core.stack[s.core.osp] < TWO64 / 2
    requires BothComeBack(prog, m, f, s, c1, c2)
    ensures HasReg(c2, 6)
    ensures Reaches(prog, FibSteps(s.core.stack[s.core.osp]), Pos(m, f, 0), s, to,
                    s.(core := FibSum(c2).(osp := c2.osp + 6)))
  {
    var n := s.core.stack[s.core.osp];
    FibArguments(s.core, c1);
    FibRuns(prog, m, f, s, to, c1, c2, FibSteps(n - 1), FibSteps(n - 2), FibSteps(n));
  }

  /** The arguments of the recursive calls. */
  lemma FibArguments(c: Core, c1: Core)
    requires 6 <= c.osp < |c.stack| && c.stack[c.osp] >= 2
    requires HasReg(c1, 6) && Reg(c1, 6) == c.stack[c.osp]
    ensures var d := FibFirst(FibBranch(c)); d.osp < |d.stack| && d.stack[d.osp] == c.stack[c.osp] - 1
    ensures var d := FibSecond(c1); d.osp < |d.stack| && d.stack[d.osp] == c.stack[c.osp] - 2
  {
  }

  /** The run of a call, given those of its two recursive calls. */
  lemma FibRuns(
    prog: Linked, m: nat, f: nat, s: State<Pos>, to: Pos, c1: Core, c2: Core, k1: nat, k2: nat, k: nat)
    requires k == 18 + k1 + k2
    requires Fibs(prog, m, f) && s.mod == m && s.lr == Some(to) && RoomFor(prog.lay, s, 1, 6)
    requires s.core.osp < |s.core.stack| && 2 <= s.core.stack[s.core.osp] < TWO64 / 2
    requires HasReg(c1, 6) && Reg(c1, 6) >= 2 && Reg(c1, 1) == 2 && HasReg(c2, 6)
    requires var b1, s1 := Pos(m, f, 12), Inside(s, FibFirst(FibBranch(s.core)), Pos(m, f, 12));
             Reaches(prog, k1, Pos(m, f, 0), s1, b1, s1.(core := c1))
    requires var b2, s2 := Pos(m, f, 17), Inside(s, FibSecond(c1), Pos(m, f, 17));
             Reaches(prog, k2, Pos(m, f, 0), s2, b2, s2.(core := c2))
    ensures Reaches(prog, k, Pos(m, f, 0), s, to, s.(core := FibSum(c2).(osp := c2.osp + 6)))
  {
    var b1, b2 := Pos(m, f, 12), Pos(m, f, 17);
    var s1, s2 := Inside(s, FibFirst(FibBranch(s.core)), b1), Inside(s, FibSecond(c1), b2);
    FibDown(prog, m, f, s);
    FibCallsSecond(prog, m, f, s1.(core := c1));
    FibUp(prog, m, f, s, to, c2);
    FibPieces(prog, k, k1, k2, Pos(m, f, 0), s, s1, b1, s1.(core := c1), s2, b2, s2.(core := c2), to,
              s.(core := FibSum(c2).(osp := c2.osp + 6)));
  }

  lemma FactorialListing()
    ensures IsFactorial(FACTORIAL)
  {
  }

  lemma FibListing()
    ensures IsFib(FIB)
  {
  }
}
