/** The recursive test programs on the byte machine: what holds of their listings holds of their assembled
    code. */
module RecursionOnBytes {
  import opened Words
  import opened Machine
  import opened Relate
  import opened Simulation
  import R = Recursion
  import S = SourceVm
  import B = ByteVm

  /** A run of the source machine that leaves all but the core as it was, on bytes. */
  lemma {:induction false} OnBytes(
    prog: S.Linked, img: B.Image, n: nat, p: S.Pos, s: State<S.Pos>, to: S.Pos, c: Core, t: State<nat>)
    requires ModulesOk(prog) && Loaded(prog, img) && RelState(AddrRel(prog, img), s, t)
    requires S.ValidPos(prog, p) && S.ValidPos(prog, to)
    requires R.Reaches(prog, n, p, s, to, s.(core := c))
    ensures p.m < |img.tables| && p.f < |img.tables[p.m]| && to.m < |img.tables| && to.f < |img.tables[to.m]|
    ensures Run(B.Stepper(img), n, Running(AddrOf(prog, img, p), t))
            == Running(AddrOf(prog, img, to), t.(core := c))
  {
    EntryAt(prog, img, p.m, p.f);
    EntryAt(prog, img, to.m, to.f);
    RunSimulates(prog, img, n, Running(p, s), Running(AddrOf(prog, img, p), t));
    var u := Run(B.Stepper(img), n, Running(AddrOf(prog, img, p), t));
    SameAddresses(prog, img, s.(core := c), t.(core := c), u.s);
  }

  /** The code of function `f` of module `m`, entered with a return address in the link register, comes back
      there after `n` steps with `v` in the caller's r0; the link register, both stack pointers and every other
      cell of the caller are as they were. */
  predicate ComesBack(img: B.Image, m: nat, f: nat, t: State<nat>, n: nat, c: Core, v: u64) {
    && m < |img.tables| && f < |img.tables[m]| && t.lr.Some? && t.core.osp < |t.core.stack|
    && Run(B.Stepper(img), n, Running(img.tables[m][f].item, t)) == Running(t.lr.value, t.(core := c))
    && R.Returned(t.core, c, v)
  }

  lemma CallOnBytes(prog: S.Linked, img: B.Image, m: nat, f: nat, s: State<S.Pos>, t: State<nat>, n: nat, c: Core,
                    v: u64)
    requires ModulesOk(prog) && Loaded(prog, img) && RelState(AddrRel(prog, img), s, t)
    requires S.IsBody(prog, m, f) && s.lr.Some? && s.core.osp < |s.core.stack|
    requires R.Reaches(prog, n, S.Pos(m, f, 0), s, s.lr.value, s.(core := c)) && R.Returned(s.core, c, v)
    ensures ComesBack(img, m, f, t, n, c, v)
  {
    assert AtAddr(prog, img, s.lr.value, t.lr.value);
    OnBytes(prog, img, n, S.Pos(m, f, 0), s, s.lr.value, c, t);
  }

  /** Wherever `factorial` has been loaded, it computes n! modulo 2^64 (but 0 for 0) of the argument in the
      caller's r0. */
  lemma FactorialOnBytes(prog: S.Linked, img: B.Image, m: nat, f: nat, s: State<S.Pos>, t: State<nat>)
    returns (c: Core)
    requires ModulesOk(prog) && Loaded(prog, img) && RelState(AddrRel(prog, img), s, t)
    requires R.Factorials(prog, m, f) && s.mod == m && s.lr.Some?
    requires s.core.osp < |s.core.stack|
    requires R.RoomFor(prog.lay, s, R.Max(s.core.stack[s.core.osp], 1), 3)
    ensures var n := s.core.stack[s.core.osp];
            ComesBack(img, m, f, t, R.FactorialSteps(n), c, R.FactorialResult(n))
  {
    var n := s.core.stack[s.core.osp];
    c := R.FactorialReturns(prog, m, f, s, s.lr.value);
    CallOnBytes(prog, img, m, f, s, t, R.FactorialSteps(n), c, R.FactorialResult(n));
  }

  /** And `fib` the n-th Fibonacci number, for every n that is not negative as a signed number. */
  lemma FibOnBytes(prog: S.Linked, img: B.Image, m: nat, f: nat, s: State<S.Pos>, t: State<nat>)
    returns (c: Core)
    requires ModulesOk(prog) && Loaded(prog, img) && RelState(AddrRel(prog, img), s, t)
    requires R.Fibs(prog, m, f) && s.mod == m && s.lr.Some?
    requires s.core.osp < |s.core.stack| && s.core.stack[s.core.osp] < TWO64 / 2
    requires R.RoomFor(prog.lay, s, R.Max(s.core.stack[s.core.osp], 1), 6)
    ensures var n := s.core.stack[s.core.osp];
            ComesBack(img, m, f, t, R.FibSteps(n), c, R.Fib(n) % TWO64)
  {
    var n := s.core.stack[s.core.osp];
    c := R.FibReturns(prog, m, f, s, s.lr.value);
    CallOnBytes(prog, img, m, f, s, t, R.FibSteps(n), c, R.Fib(n) % TWO64);
  }
}
