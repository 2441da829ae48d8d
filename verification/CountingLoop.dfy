/** The loop of the test programs, for every bound and whatever the counter starts from. */
module CountingLoop {
  import opened Words
  import opened Isa
  import opened Program
  import opened Machine
  import opened SourceVm
  import opened Recursion

  /** The listing, with the bound left open. */
  predicate IsLoop(items: seq<Item>, bound: u64) {
    && |items| == 8
    && items[0] == Do(Ins(I1(Op1.Alloc, 3)))
    && items[1] == Do(Ins(IQ(2, bound)))
    && items[2] == Do(Ins(IQ(1, 1)))
    && items[3] == Mark("loop")
    && items[4] == Do(Ins(I2(Add, 0, 1)))
    && items[5] == Do(Ins(I2(Cmp, 0, 2)))
    && items[6] == Do(Branch(Jz, "loop"))
    && items[7] == Do(Ins(I1(Remit, 2)))
  }

  predicate Loops(prog: Linked, m: nat, f: nat, bound: u64) {
    IsBody(prog, m, f) && IsLoop(ItemsAt(prog, m, f), bound)
  }

  lemma {:induction false} LoopLabel(items: seq<Item>, bound: u64)
    requires IsLoop(items, bound)
    ensures MarkIndex(items, "loop") == 3 && SkipMarks(items, 3) == 4 && SkipMarks(items, 4) == 4
    ensures SkipMarks(items, 6) == 6 && SkipMarks(items, 7) == 7
  {
  }

  /** The core after the counter has been raised and compared. */
  function Raised(c: Core, bound: u64): Core
    requires HasReg(c, 0)
  {
    var x := (Reg(c, 0) + 1) % TWO64;
    SetReg(c, 0, x).(cond := x == bound)
  }

  /** One round: the counter is raised, modulo 2^64, and the loop left when it is the bound. */
  lemma Round(prog: Linked, m: nat, f: nat, s: State<Pos>, bound: u64)
    requires Loops(prog, m, f, bound) && s.mod == m
    requires HasReg(s.core, 2) && Reg(s.core, 1) == 1 && Reg(s.core, 2) == bound
    ensures var c := Raised(s.core, bound);
            Reaches(prog, 3, Pos(m, f, 3), s, Pos(m, f, if c.cond then 7 else 3), s.(core := c))
  {
    var items := ItemsAt(prog, m, f);
    var c := Raised(s.core, bound);
    var s' := s.(core := c);
    LoopLabel(items, bound);
    Raising(prog.lay, m, items, s.core, bound);
    StraightRuns(prog, m, f, 4, 6, s, c);
    FromMark(prog, 2, Pos(m, f, 3), s, Pos(m, f, 6), s');
    BranchStep(prog, Pos(m, f, 6), 6, Jz, "loop", s');
    Chain(prog, 2, 1, Pos(m, f, 3), s, Pos(m, f, 6), s', Pos(m, f, if c.cond then 7 else 3), s');
  }

  lemma {:induction false} Raising(lay: Layout, m: nat, items: seq<Item>, c: Core, bound: u64)
    requires IsLoop(items, bound) && HasReg(c, 2) && Reg(c, 1) == 1 && Reg(c, 2) == bound
    ensures AllData(items, 4, 6) && Straight(lay, m, items, 4, 6, c) == Some(Raised(c, bound))
  {
    var c1 := SetReg(c, 0, (Reg(c, 0) + 1) % TWO64);
    assert Straight(lay, m, items, 5, 6, c1) == Some(Raised(c, bound));
  }

  /** The counter after `k` rounds. */
  function After(x: u64, k: nat): u64 {
    (x + k) % TWO64
  }

  /** The number of rounds: the least that is positive and leads from `x` to the bound. */
  function Rounds(x: u64, bound: u64): (k: nat)
    ensures 1 <= k <= TWO64 && After(x, k) == bound
    ensures forall j :: 1 <= j < k ==> After(x, j) != bound
  {
    var k := if x < bound then bound - x else TWO64 + bound - x;
    AfterIs(x, k);
    assert forall j :: 1 <= j < k ==> After(x, j) != bound by {
      forall j | 1 <= j < k ensures After(x, j) != bound {
        AfterIs(x, j);
      }
    }
    k
  }

  lemma AfterIs(x: u64, k: nat)
    requires k <= TWO64
    ensures After(x, k) == if x + k < TWO64 then x + k else x + k - TWO64
  {
    ModUnique(x + k, TWO64, if x + k < TWO64 then 0 else 1, if x + k < TWO64 then x + k else x + k - TWO64);
  }

  lemma RoundsLeft(x: u64, bound: u64)
    ensures var y := (x + 1) % TWO64;
            if y == bound then Rounds(x, bound) == 1 else Rounds(x, bound) == 1 + Rounds(y, bound)
  {
    AfterIs(x, 1);
  }

  /** From the loop's head to its end. */
  lemma {:induction false} RoundsRun(prog: Linked, m: nat, f: nat, s: State<Pos>, bound: u64)
    requires Loops(prog, m, f, bound) && s.mod == m
    requires HasReg(s.core, 2) && Reg(s.core, 1) == 1 && Reg(s.core, 2) == bound
    ensures Reaches(prog, 3 * Rounds(Reg(s.core, 0), bound), Pos(m, f, 3), s, Pos(m, f, 7),
                    s.(core := SetReg(s.core, 0, bound).(cond := true)))
    decreases Rounds(Reg(s.core, 0), bound)
  {
    var c := Raised(s.core, bound);
    RoundsLeft(Reg(s.core, 0), bound);
    Round(prog, m, f, s, bound);
    if !c.cond {
      var s' := s.(core := c);
      RoundsRun(prog, m, f, s', bound);
      assert SetReg(c, 0, bound) == SetReg(s.core, 0, bound).(cond := c.cond);
      Chain(prog, 3, 3 * Rounds(Reg(c, 0), bound), Pos(m, f, 3), s, Pos(m, f, 3), s', Pos(m, f, 7),
            s.(core := SetReg(s.core, 0, bound).(cond := true)));
    }
  }

  /** The core at the loop's head. */
  function AtHead(c: Core, bound: u64): Core
    requires 3 <= c.osp <= |c.stack|
  {
    c.(osp := c.osp - 3, stack := c.stack[c.osp - 1 := bound][c.osp - 2 := 1])
  }

  lemma {:induction false} Prepares(lay: Layout, m: nat, items: seq<Item>, c: Core, bound: u64)
    requires IsLoop(items, bound) && 3 <= c.osp <= |c.stack|
    ensures AllData(items, 0, 3) && Straight(lay, m, items, 0, 3, c) == Some(AtHead(c, bound))
  {
    var c1 := c.(osp := c.osp - 3);
    var c2 := SetReg(c1, 2, bound);
    assert Straight(lay, m, items, 2, 3, c2) == Some(AtHead(c, bound));
    assert Straight(lay, m, items, 1, 3, c1) == Some(AtHead(c, bound));
  }

  /** The core at the end: all three registers written, two cells given back. */
  function AtEnd(c: Core, bound: u64): Core
    requires 3 <= c.osp <= |c.stack|
  {
    c.(osp := c.osp - 1, stack := c.stack[c.osp - 1 := bound][c.osp - 2 := 1][c.osp - 3 := bound], cond := true)
  }

  /** The whole program: started by the host, it ends after as many rounds as lead from whatever lay in its first
      register to the bound, with the bound in the cell the host reads. */
  lemma LoopEnds(prog: Linked, m: nat, f: nat, s: State<Pos>, bound: u64) returns (n: nat)
    requires Loops(prog, m, f, bound) && s.mod == m && s.lr.None? && s.host == []
    requires 3 <= s.core.osp <= |s.core.stack|
    ensures n == 4 + 3 * Rounds(s.core.stack[s.core.osp - 3], bound)
    ensures Stops(prog, n, Pos(m, f, 0), s, s.(core := AtEnd(s.core, bound)))
    ensures HasReg(AtEnd(s.core, bound), 0) && Reg(AtEnd(s.core, bound), 0) == bound
  {
    var k := 3 + 3 * Rounds(s.core.stack[s.core.osp - 3], bound);
    var t, u := s.(core := AtEnd(s.core, bound).(osp := s.core.osp - 3)), s.(core := AtEnd(s.core, bound));
    n := k + 1;
    LeavesLoop(prog, m, f, s, bound, t.core, k - 3, k);
    RemitStops(prog, m, f, k, n, s, t, u, bound);
  }

  /** To the end of the loop. */
  lemma LeavesLoop(prog: Linked, m: nat, f: nat, s: State<Pos>, bound: u64, c: Core, n: nat, k: nat)
    requires Loops(prog, m, f, bound) && s.mod == m && 3 <= s.core.osp <= |s.core.stack| && k == 3 + n
    requires c == AtEnd(s.core, bound).(osp := s.core.osp - 3)
    requires n == 3 * Rounds(s.core.stack[s.core.osp - 3], bound)
    ensures Reaches(prog, k, Pos(m, f, 0), s, Pos(m, f, 7), s.(core := c))
  {
    var s3 := s.(core := AtHead(s.core, bound));
    HeadReached(prog, m, f, s, bound);
    HeadToEnd(prog, m, f, s3, bound, c, n);
    Chain(prog, 3, n, Pos(m, f, 0), s, Pos(m, f, 3), s3, Pos(m, f, 7), s.(core := c));
  }

  lemma HeadReached(prog: Linked, m: nat, f: nat, s: State<Pos>, bound: u64)
    requires Loops(prog, m, f, bound) && s.mod == m && 3 <= s.core.osp <= |s.core.stack|
    ensures Reaches(prog, 3, Pos(m, f, 0), s, Pos(m, f, 3), s.(core := AtHead(s.core, bound)))
  {
    Prepares(prog.lay, m, ItemsAt(prog, m, f), s.core, bound);
    StraightRuns(prog, m, f, 0, 3, s, AtHead(s.core, bound));
  }

  lemma HeadToEnd(prog: Linked, m: nat, f: nat, s: State<Pos>, bound: u64, c: Core, n: nat)
    requires Loops(prog, m, f, bound) && s.mod == m
    requires HasReg(s.core, 2) && Reg(s.core, 1) == 1 && Reg(s.core, 2) == bound
    requires c == SetReg(s.core, 0, bound).(cond := true) && n == 3 * Rounds(Reg(s.core, 0), bound)
    ensures Reaches(prog, n, Pos(m, f, 3), s, Pos(m, f, 7), s.(core := c))
  {
    RoundsRun(prog, m, f, s, bound);
  }

  lemma RemitStops(
    prog: Linked, m: nat, f: nat, k: nat, n: nat, s: State<Pos>, t: State<Pos>, u: State<Pos>, bound: u64)
    requires Loops(prog, m, f, bound) && t.mod == m && t.lr.None? && t.host == [] && t.core.osp + 2 <= |t.core.stack|
    requires Reaches(prog, k, Pos(m, f, 0), s, Pos(m, f, 7), t) && n == k + 1
    requires u == t.(core := t.core.(osp := t.core.osp + 2))
    ensures Stops(prog, n, Pos(m, f, 0), s, u)
  {
    RemitStep(prog, m, f, t, u, bound);
    ChainStop(prog, k, 1, Pos(m, f, 0), s, Pos(m, f, 7), t, u);
  }

  lemma RemitStep(prog: Linked, m: nat, f: nat, s: State<Pos>, t: State<Pos>, bound: u64)
    requires Loops(prog, m, f, bound) && s.mod == m && s.lr.None? && s.host == [] && s.core.osp + 2 <= |s.core.stack|
    requires t == s.(core := s.core.(osp := s.core.osp + 2))
    ensures Stops(prog, 1, Pos(m, f, 7), s, t)
  {
    LoopLabel(ItemsAt(prog, m, f), bound);
    OneStep(prog, Pos(m, f, 7), s);
  }
}
