/** What every step of every run keeps: the bounds of the operand stack, and the reach of memory
    instructions. */
module MemorySafety {
  import opened Words
  import opened Isa
  import opened Cells
  import opened Machine
  import Codec
  import B = ByteVm

  // ----- the operand stack pointer -----

  /** The operand stack has `n` cells of which osp counts some, and there are `g` bytes of globals. */
  predicate InBounds(c: Core, n: nat, g: nat) {
    |c.stack| == n && c.osp <= n && |c.globals| == g
  }

  lemma DataBounds(lay: Layout, mod: nat, i: Instr, c: Core, n: nat, g: nat)
    requires InBounds(c, n, g)
    ensures var e := Data(lay, mod, i, c); e.Stuck? || InBounds(e.c, n, g)
  {
  }

  predicate OutcomeInBounds<P>(o: Outcome<P>, n: nat, g: nat) {
    o.Undefined? || InBounds(o.s.core, n, g)
  }

  /** However code is addressed, and whatever the operands, an instruction keeps the operand stack
      pointer between the ends of the stack. */
  lemma PerformBounds<P>(lay: Layout, a: Action<P>, next: P, s: State<P>, n: nat, g: nat)
    requires InBounds(s.core, n, g)
    ensures OutcomeInBounds(Perform(lay, a, next, s), n, g)
  {
    match a {
      case Plain(i) =>
        if IsFrame(i) {
          FrameBounds(lay, i, next, s, n, g);
        } else {
          DataBounds(lay, s.mod, i, s.core, n, g);
          ContinueBounds(Data(lay, s.mod, i, s.core), next, s, n, g);
        }
      case Goto(_, _) =>
      case Invoke(callee) =>
        CallBounds(lay, callee, next, s, n, g);
      case NoAction =>
    }
  }

  lemma ContinueBounds<P>(e: Effect, next: P, s: State<P>, n: nat, g: nat)
    requires e.Stuck? || InBounds(e.c, n, g)
    ensures OutcomeInBounds(Continue(e, next, s), n, g)
  {
  }

  lemma CallBounds<P>(lay: Layout, callee: Callee<P>, next: P, s: State<P>, n: nat, g: nat)
    requires InBounds(s.core, n, g)
    ensures OutcomeInBounds(Machine.Call(lay, callee, next, s), n, g)
  {
  }

  lemma FrameBounds<P>(lay: Layout, i: Instr, next: P, s: State<P>, n: nat, g: nat)
    requires InBounds(s.core, n, g) && IsFrame(i)
    ensures OutcomeInBounds(Frame(lay, i, next, s), n, g)
  {
  }

  /** Every byte run, across nested execution of other modules, overflow and error exits included. The
      address of the stack pointer thus stays within the stack and a whole number of cells from its
      top. */
  lemma RunBounds(img: B.Image, k: nat, o: Outcome<nat>, n: nat, g: nat)
    requires OutcomeInBounds(o, n, g)
    ensures var o' := Run(B.Stepper(img), k, o);
            && OutcomeInBounds(o', n, g)
            && (o'.Undefined?
                || (img.lay.opBase <= OspAddr(img.lay, o'.s.core) <= img.lay.opBase + 8 * n
                    && (img.lay.opBase + 8 * n - OspAddr(img.lay, o'.s.core)) % 8 == 0))
  {
    StepsBounds(img, n, g);
    RunKeeps(B.Stepper(img), (u: Outcome<nat>) => OutcomeInBounds(u, n, g), k, o);
    if !Run(B.Stepper(img), k, o).Undefined? {
      EndsWhole(img.lay, Run(B.Stepper(img), k, o), n, g);
    }
  }

  lemma EndsWhole(lay: Layout, o: Outcome<nat>, n: nat, g: nat)
    requires OutcomeInBounds(o, n, g) && !o.Undefined?
    ensures lay.opBase <= OspAddr(lay, o.s.core) <= lay.opBase + 8 * n
    ensures (lay.opBase + 8 * n - OspAddr(lay, o.s.core)) % 8 == 0
  {
    WholeCells(lay, o.s.core, n);
  }

  lemma StepsBounds(img: B.Image, n: nat, g: nat)
    ensures forall ip: nat, s: State<nat> ::
              OutcomeInBounds(Running(ip, s), n, g) ==> OutcomeInBounds(B.Stepper(img)(ip, s), n, g)
  {
    forall ip: nat, s: State<nat> | OutcomeInBounds(Running(ip, s), n, g)
      ensures OutcomeInBounds(B.Stepper(img)(ip, s), n, g)
    {
      StepBounds(img, ip, s, n, g);
    }
  }

  lemma StepBounds(img: B.Image, ip: nat, s: State<nat>, n: nat, g: nat)
    requires InBounds(s.core, n, g)
    ensures OutcomeInBounds(B.Stepper(img)(ip, s), n, g)
  {
    var o := B.Step(img, ip, s);
    if !o.Undefined? {
      var f := Codec.Fetch(img.mem, ip);
      PerformBounds(img.lay, B.Resolve(img, f.i, f.next, s), f.next, s, n, g);
    }
  }

  lemma WholeCells(lay: Layout, c: Core, n: nat)
    requires c.osp <= n
    ensures (lay.opBase + 8 * n - OspAddr(lay, c)) % 8 == 0
  {
    assert lay.opBase + 8 * n - OspAddr(lay, c) == 8 * (n - c.osp);
  }

  // ----- the bounds check -----

  /** The wrap-around comparison holds exactly when the last byte of the access lies between the
      segments. */
  lemma CheckedIff(lay: Layout, c: Core, addr: u64, w: nat)
    requires 1 <= w <= 8
    requires lay.lowSeg <= lay.opBase && HighSeg(lay, c) < TWO64
    ensures Checked(lay, c, addr, w)
            <==> lay.lowSeg <= (addr + w - 1) % TWO64 <= HighSeg(lay, c)
  {
    var last := (addr + w - 1) % TWO64;
    var d := addr + w - 1 - lay.lowSeg;
    var span := HighSeg(lay, c) - lay.lowSeg;
    ModUnique(span, TWO64, 0, span);
    if addr + w - 1 < TWO64 {
      ModUnique(addr + w - 1, TWO64, 0, addr + w - 1);
    } else {
      ModUnique(addr + w - 1, TWO64, 1, addr + w - 1 - TWO64);
    }
    if last >= lay.lowSeg {
      ModUnique(d, TWO64, (addr + w - 1) / TWO64, last - lay.lowSeg);
    } else {
      ModUnique(d, TWO64, (addr + w - 1) / TWO64 - 1, last - lay.lowSeg + TWO64);
    }
  }

  /** The address of byte k of an access. */
  function AddressOf(addr: u64, k: nat): u64 {
    (addr + k) % TWO64
  }

  /** The reach of the check alone, over every address: where it passes, every byte of the access lies at most
      w - 1 bytes below the lower segment and not above the upper, and the access does not wrap around. */
  lemma CheckedReach(lay: Layout, c: Core, addr: u64, w: nat, k: nat)
    requires k < w <= 8
    requires w - 1 <= lay.lowSeg <= lay.opBase && HighSeg(lay, c) < TWO64
    requires Checked(lay, c, addr, w)
    ensures AddressOf(addr, k) == addr + k
    ensures lay.lowSeg - (w - 1) <= AddressOf(addr, k) <= HighSeg(lay, c)
  {
    CheckedIff(lay, c, addr, w);
    if addr + w - 1 >= TWO64 {
      ModUnique(addr + w - 1, TWO64, 1, addr + w - 1 - TWO64);
      assert false;
    }
    ModUnique(addr + w - 1, TWO64, 0, addr + w - 1);
    ModUnique(addr + k, TWO64, 0, addr + k);
  }

  /** Every byte of the access lies between the segments. */
  predicate Between(lay: Layout, c: Core, addr: u64, w: nat) {
    forall k :: 0 <= k < w ==> lay.lowSeg <= AddressOf(addr, k) <= HighSeg(lay, c)
  }

  /** The check does not suffice for that: an access it passes lies between the segments exactly when it also
      starts there. */
  lemma PassedIsBetweenIff(lay: Layout, c: Core, addr: u64, w: nat)
    requires 1 <= w <= 8
    requires w - 1 <= lay.lowSeg <= lay.opBase && HighSeg(lay, c) < TWO64
    requires Checked(lay, c, addr, w)
    ensures Between(lay, c, addr, w) <==> lay.lowSeg <= addr
  {
    CheckedReach(lay, c, addr, w, 0);
    if lay.lowSeg <= addr {
      forall k | 0 <= k < w ensures lay.lowSeg <= AddressOf(addr, k) <= HighSeg(lay, c) {
        CheckedReach(lay, c, addr, w, k);
      }
    } else {
      assert AddressOf(addr, 0) < lay.lowSeg;
    }
  }

  /** Every access that lies between the segments passes. */
  lemma BetweenIsPassed(lay: Layout, c: Core, addr: u64, w: nat)
    requires 1 <= w <= 8
    requires lay.lowSeg <= lay.opBase && HighSeg(lay, c) < TWO64
    requires Between(lay, c, addr, w)
    ensures Checked(lay, c, addr, w)
  {
    CheckedIff(lay, c, addr, w);
    assert lay.lowSeg <= AddressOf(addr, w - 1) <= HighSeg(lay, c);
  }

  /** The reach is attained on both sides: an access of 2 bytes or more can pass although it starts w - 1 bytes
      below the lower segment, and one of any width although it ends 2 bytes past the operand stack. */
  lemma CheckMissesFirstBytes(lay: Layout, c: Core, w: nat)
    requires 2 <= w <= 8 && w <= lay.lowSeg <= lay.opBase && HighSeg(lay, c) < TWO64
    ensures Checked(lay, c, lay.lowSeg - (w - 1), w) && !Between(lay, c, lay.lowSeg - (w - 1), w)
  {
    CheckedIff(lay, c, lay.lowSeg - (w - 1), w);
    ModUnique(lay.lowSeg, TWO64, 0, lay.lowSeg);
    PassedIsBetweenIff(lay, c, lay.lowSeg - (w - 1), w);
  }

  lemma CheckPassesStackEnd(lay: Layout, c: Core, w: nat)
    requires 1 <= w <= 8 && w <= lay.lowSeg <= lay.opBase && HighSeg(lay, c) < TWO64
    ensures var last := lay.opBase + 8 * |c.stack| + 1;
            Checked(lay, c, last - (w - 1), w) && !InStack(lay, c, last - (w - 1), w)
  {
    CheckedIff(lay, c, HighSeg(lay, c) - (w - 1), w);
    ModUnique(HighSeg(lay, c), TWO64, 0, HighSeg(lay, c));
  }

  // ----- loads and stores -----

  /** The byte the model holds at an address, on the operand stack or among the globals. */
  function ByteAt(lay: Layout, c: Core, addr: nat): Option<byte> {
    if lay.opBase <= addr < lay.opBase + 8 * |c.stack| then
      Some(StackByte(c.stack, addr - lay.opBase))
    else if lay.lowSeg <= addr < lay.lowSeg + |c.globals| then
      Some(c.globals[addr - lay.lowSeg])
    else None
  }

  /** Globals and operand stack do not overlap. */
  predicate Disjoint(lay: Layout, c: Core) {
    lay.lowSeg + |c.globals| <= lay.opBase
  }

  lemma WriteBytes(lay: Layout, c: Core, to: u64, bs: seq<byte>, addr: nat)
    requires Disjoint(lay, c) && WriteMem(lay, c, to, bs).Some? && bs != []
    ensures ByteAt(lay, WriteMem(lay, c, to, bs).value, addr)
            == if to <= addr < to + |bs| then Some(bs[addr - to]) else ByteAt(lay, c, addr)
  {
    if InStack(lay, c, to, |bs|) {
      StackWriteBytes(lay, c, to, bs, addr);
    } else {
      GlobalWriteBytes(lay, c, to, bs, addr);
    }
  }

  lemma StackWriteBytes(lay: Layout, c: Core, to: u64, bs: seq<byte>, addr: nat)
    requires Disjoint(lay, c) && InStack(lay, c, to, |bs|) && bs != []
    ensures ByteAt(lay, c.(stack := SetStackBytes(c.stack, to - lay.opBase, bs)), addr)
            == if to <= addr < to + |bs| then Some(bs[addr - to]) else ByteAt(lay, c, addr)
  {
    if lay.opBase <= addr < lay.opBase + 8 * |c.stack| {
      BytesOfSet(c.stack, to - lay.opBase, bs, addr - lay.opBase);
    }
  }

  lemma GlobalWriteBytes(lay: Layout, c: Core, to: u64, bs: seq<byte>, addr: nat)
    requires Disjoint(lay, c) && InGlobals(lay, c, to, |bs|) && bs != []
    ensures var o := to - lay.lowSeg;
            ByteAt(lay, c.(globals := c.globals[..o] + bs + c.globals[o + |bs|..]), addr)
            == if to <= addr < to + |bs| then Some(bs[addr - to]) else ByteAt(lay, c, addr)
  {
    if lay.lowSeg <= addr < lay.lowSeg + |c.globals| {
      Overwritten(c.globals, to - lay.lowSeg, bs, addr - lay.lowSeg);
    }
  }

  lemma Overwritten(g: seq<byte>, o: nat, bs: seq<byte>, k: nat)
    requires o + |bs| <= |g| && k < |g|
    ensures |g[..o] + bs + g[o + |bs|..]| == |g|
    ensures (g[..o] + bs + g[o + |bs|..])[k] == if o <= k < o + |bs| then bs[k - o] else g[k]
  {
  }

  /** What was written is what is read back. */
  lemma ReadAfterWrite(lay: Layout, c: Core, to: u64, bs: seq<byte>)
    requires Disjoint(lay, c) && WriteMem(lay, c, to, bs).Some? && bs != []
    ensures ReadMem(lay, WriteMem(lay, c, to, bs).value, to, |bs|) == Some(bs)
  {
    if InStack(lay, c, to, |bs|) {
      BytesWritten(c.stack, to - lay.opBase, bs, 0, |bs|);
      assert bs[0..0 + |bs|] == bs;
    } else {
      var o := to - lay.lowSeg;
      assert (c.globals[..o] + bs + c.globals[o + |bs|..])[o..o + |bs|] == bs;
    }
  }
}
