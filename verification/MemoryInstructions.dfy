/** What loads and stores do, byte by byte, with the width of each instruction. */
module MemoryInstructions {
  import opened Words
  import opened Isa
  import opened Machine
  import opened MemorySafety
  import opened Arithmetic
  import opened Cells

  // ----- digits -----

  /** Byte `k` of a number, lowest first. */
  function Digit(v: nat, k: nat): (b: byte) {
    (v / Pow256(k)) % 256
  }

  lemma DigitOfRest(v: nat, k: nat)
    requires k > 0
    ensures Digit(v, k) == Digit(v / 256, k - 1)
  {
    var p := Pow256(k - 1);
    var q, r := v / (256 * p), v % (256 * p);
    assert v == q * (256 * p) + r;
    assert v / 256 == q * p + r / 256;
    ModUnique(v / 256, p, q, r / 256);
  }

  lemma {:induction false} LEDigit(w: nat, v: nat, k: nat)
    requires k < w
    ensures LE(w, v)[k] == Digit(v, k)
    decreases k
  {
    if k > 0 {
      DigitOfRest(v, k);
      LEDigit(w - 1, v / 256, k - 1);
    }
  }

  lemma {:induction false} FromLEDigit(s: seq<byte>, k: nat)
    requires k < |s|
    ensures Digit(FromLE(s), k) == s[k]
    decreases k
  {
    var t := FromLE(s[1..]);
    assert FromLE(s) == s[0] + 256 * t;
    if k > 0 {
      DigitOfRest(FromLE(s), k);
      assert FromLE(s) / 256 == t;
      FromLEDigit(s[1..], k - 1);
    }
  }

  // ----- stores -----

  lemma StoreIs(lay: Layout, mod: nat, op: OpM, w: nat, a: int, b: int, off: int, c: Core)
    requires (op, w) in {(St1, 1), (St2, 2), (St4, 4), (St8, 8)} && HasReg(c, a) && HasReg(c, b)
    ensures Data(lay, mod, IM(op, a, b, off), c) == StoreAt(lay, w, (Reg(c, a) + off) % TWO64, Reg(c, b), c)
  {
  }

  /** A store stops with the error exactly when its last byte is not between the segments, and then writes nothing.
      One that goes through writes as many of the low bytes of its register as it is named for, lowest first, and
      changes no other byte: registers change only with the operand stack's bytes. */
  lemma StoreWrites(lay: Layout, mod: nat, op: OpM, w: nat, a: int, b: int, off: int, c: Core, addr: nat)
    requires (op, w) in {(St1, 1), (St2, 2), (St4, 4), (St8, 8)} && HasReg(c, a) && HasReg(c, b)
    requires Disjoint(lay, c) && HighSeg(lay, c) < TWO64
    ensures var to := (Reg(c, a) + off) % TWO64;
            var e := Data(lay, mod, IM(op, a, b, off), c);
            && (e.Trap? <==> !(lay.lowSeg <= (to + w - 1) % TWO64 <= HighSeg(lay, c)))
            && (e.Trap? ==> e.c == c.(err := 5))
            && (e.Done? <==> (lay.lowSeg <= to && to + w <= lay.lowSeg + |c.globals|)
                             || (lay.opBase <= to && to + w <= lay.opBase + 8 * |c.stack|))
            && (e.Done? ==>
                  && e.c == c.(stack := e.c.stack, globals := e.c.globals)
                  && |e.c.stack| == |c.stack| && |e.c.globals| == |c.globals|
                  && ByteAt(lay, e.c, addr)
                     == if to <= addr < to + w then Some(Digit(Reg(c, b), addr - to)) else ByteAt(lay, c, addr))
  {
    StoreIs(lay, mod, op, w, a, b, off, c);
    StoreDigits(lay, w, (Reg(c, a) + off) % TWO64, Reg(c, b), c, addr, Data(lay, mod, IM(op, a, b, off), c));
  }

  lemma StoreDigits(lay: Layout, w: nat, to: u64, v: u64, c: Core, addr: nat, e: Effect)
    requires 1 <= w <= 8 && Disjoint(lay, c) && HighSeg(lay, c) < TWO64 && e == StoreAt(lay, w, to, v, c)
    ensures && (e.Trap? <==> !(lay.lowSeg <= (to + w - 1) % TWO64 <= HighSeg(lay, c)))
            && (e.Trap? ==> e.c == c.(err := 5))
            && (e.Done? <==> (lay.lowSeg <= to && to + w <= lay.lowSeg + |c.globals|)
                             || (lay.opBase <= to && to + w <= lay.opBase + 8 * |c.stack|))
            && (e.Done? ==>
                  && e.c == c.(stack := e.c.stack, globals := e.c.globals)
                  && |e.c.stack| == |c.stack| && |e.c.globals| == |c.globals|
                  && ByteAt(lay, e.c, addr)
                     == if to <= addr < to + w then Some(Digit(v, addr - to)) else ByteAt(lay, c, addr))
  {
    StoreAtWrites(lay, w, to, v, c, addr, e);
    if to <= addr < to + w {
      LEDigit(w, v, addr - to);
    }
  }

  lemma StoreAtWrites(lay: Layout, w: nat, to: u64, v: u64, c: Core, addr: nat, e: Effect)
    requires 1 <= w <= 8 && Disjoint(lay, c) && HighSeg(lay, c) < TWO64 && e == StoreAt(lay, w, to, v, c)
    ensures && (e.Trap? <==> !(lay.lowSeg <= (to + w - 1) % TWO64 <= HighSeg(lay, c)))
            && (e.Trap? ==> e.c == c.(err := 5))
            && (InGlobals(lay, c, to, w) || InStack(lay, c, to, w) <==> e.Done?)
            && (e.Done? ==>
                  && e.c == c.(stack := e.c.stack, globals := e.c.globals)
                  && |e.c.stack| == |c.stack| && |e.c.globals| == |c.globals|
                  && ByteAt(lay, e.c, addr)
                     == (if to <= addr < to + w then Some(LE(w, v)[addr - to]) else ByteAt(lay, c, addr)))
  {
    CheckedIff(lay, c, to, w);
    if WriteMem(lay, c, to, LE(w, v)).Some? {
      ModUnique(to + w - 1, TWO64, 0, to + w - 1);
      WriteBytes(lay, c, to, LE(w, v), addr);
    }
  }

  // ----- loads -----

  /** The `w` bytes at `addr` are those of the number `v`. */
  ghost predicate Holds(lay: Layout, c: Core, addr: nat, w: nat, v: nat) {
    v < Pow256(w) && forall k :: 0 <= k < w ==> ByteAt(lay, c, addr + k) == Some(Digit(v, k))
  }

  /** The word `r` is the `w`-byte number `v`, extended by zeros or by its sign. */
  predicate Extends(r: u64, signed: bool, w: nat, v: nat)
    requires v < Pow256(w)
  {
    if signed then Signed(TWO64, r) == Signed(Pow256(w), v) else r == v
  }

  lemma LoadIs(lay: Layout, mod: nat, op: OpM, w: nat, signed: bool, a: int, b: int, off: int, c: Core)
    requires (op, w, signed) in {(Ld1, 1, true), (Ld2, 2, true), (Ld4, 4, true), (Ld8, 8, false),
                                 (Ldu1, 1, false), (Ldu2, 2, false), (Ldu4, 4, false)}
    requires HasReg(c, a) && HasReg(c, b)
    ensures Data(lay, mod, IM(op, a, b, off), c) == LoadAt(lay, w, signed, a, (Reg(c, b) + off) % TWO64, c)
  {
  }

  /** A load stops with the error exactly when its last byte is not between the segments. One that goes through leaves
      in its register the number in as many bytes as it is named for, extended as it is named for, and changes
      nothing else. */
  lemma LoadReads(lay: Layout, mod: nat, op: OpM, w: nat, signed: bool, a: int, b: int, off: int, c: Core)
    returns (v: nat, r: u64)
    requires (op, w, signed) in {(Ld1, 1, true), (Ld2, 2, true), (Ld4, 4, true), (Ld8, 8, false),
                                 (Ldu1, 1, false), (Ldu2, 2, false), (Ldu4, 4, false)}
    requires HasReg(c, a) && HasReg(c, b) && Disjoint(lay, c) && HighSeg(lay, c) < TWO64
    ensures var from := (Reg(c, b) + off) % TWO64;
            var e := Data(lay, mod, IM(op, a, b, off), c);
            && (e.Trap? <==> !(lay.lowSeg <= (from + w - 1) % TWO64 <= HighSeg(lay, c)))
            && (e.Trap? ==> e.c == c.(err := 5))
            && (e.Done? <==> (lay.lowSeg <= from && from + w <= lay.lowSeg + |c.globals|)
                             || (lay.opBase <= from && from + w <= lay.opBase + 8 * |c.stack|))
            && (e.Done? ==> Holds(lay, c, from, w, v) && Extends(r, signed, w, v) && e.c == SetReg(c, a, r))
  {
    LoadIs(lay, mod, op, w, signed, a, b, off, c);
    v, r := LoadAtReads(lay, w, signed, a, (Reg(c, b) + off) % TWO64, c);
  }

  lemma LoadAtReads(lay: Layout, w: nat, signed: bool, a: int, from: u64, c: Core) returns (v: nat, r: u64)
    requires w in {1, 2, 4, 8} && HasReg(c, a) && Disjoint(lay, c) && HighSeg(lay, c) < TWO64
    ensures var e := LoadAt(lay, w, signed, a, from, c);
            && (e.Trap? <==> !(lay.lowSeg <= (from + w - 1) % TWO64 <= HighSeg(lay, c)))
            && (e.Trap? ==> e.c == c.(err := 5))
            && (e.Done? <==> InGlobals(lay, c, from, w) || InStack(lay, c, from, w))
            && (e.Done? ==> Holds(lay, c, from, w, v) && Extends(r, signed, w, v) && e.c == SetReg(c, a, r))
  {
    CheckedIff(lay, c, from, w);
    v, r := 0, 0;
    var m := ReadMem(lay, c, from, w);
    if m.Some? {
      ModUnique(from + w - 1, TWO64, 0, from + w - 1);
      v, r := FromLE(m.value), Extend(signed, m.value);
      ReadHolds(lay, c, from, w);
      ExtendExtends(signed, m.value);
    }
  }

  lemma ReadHolds(lay: Layout, c: Core, from: u64, w: nat)
    requires Disjoint(lay, c) && w > 0 && ReadMem(lay, c, from, w).Some?
    ensures Holds(lay, c, from, w, FromLE(ReadMem(lay, c, from, w).value))
  {
    var bs := ReadMem(lay, c, from, w).value;
    FromLEBound(bs);
    forall k | 0 <= k < w ensures ByteAt(lay, c, from + k) == Some(Digit(FromLE(bs), k)) {
      FromLEDigit(bs, k);
      ReadByte(lay, c, from, w, k);
    }
  }

  lemma ReadByte(lay: Layout, c: Core, from: u64, w: nat, k: nat)
    requires Disjoint(lay, c) && k < w && ReadMem(lay, c, from, w).Some?
    ensures ByteAt(lay, c, from + k) == Some(ReadMem(lay, c, from, w).value[k])
  {
  }

  lemma ExtendExtends(signed: bool, bs: seq<byte>)
    requires |bs| in {1, 2, 4, 8}
    ensures FromLE(bs) < Pow256(|bs|) && Extends(Extend(signed, bs), signed, |bs|, FromLE(bs))
  {
    FromLEBound(bs);
    Pow256Values();
    if signed {
      WrapFits(TWO64, Signed(Pow256(|bs|), FromLE(bs)));
    } else {
      ModUnique(FromLE(bs), TWO64, 0, FromLE(bs));
    }
  }

  // ----- store, then load -----

  /** A load of the width of a store, from where it went, gives the stored register truncated and extended. */
  lemma StoreThenLoad(lay: Layout, mod: nat, st: OpM, ld: OpM, w: nat, signed: bool, a: int, b: int, off: int,
                      d: int, e: int, off': int, c: Core)
    returns (r: u64)
    requires (st, w) in {(St1, 1), (St2, 2), (St4, 4), (St8, 8)}
    requires (ld, w, signed) in {(Ld1, 1, true), (Ld2, 2, true), (Ld4, 4, true), (Ld8, 8, false),
                                 (Ldu1, 1, false), (Ldu2, 2, false), (Ldu4, 4, false)}
    requires HasReg(c, a) && HasReg(c, b) && HasReg(c, d) && HasReg(c, e)
    requires Disjoint(lay, c) && HighSeg(lay, c) < TWO64
    requires Data(lay, mod, IM(st, a, b, off), c).Done?
    requires var c1 := Data(lay, mod, IM(st, a, b, off), c).c;
             HasReg(c1, e) && (Reg(c1, e) + off') % TWO64 == (Reg(c, a) + off) % TWO64
    ensures var c1 := Data(lay, mod, IM(st, a, b, off), c).c;
            && HasReg(c1, d) && Data(lay, mod, IM(ld, d, e, off'), c1) == Done(SetReg(c1, d, r))
            && Extends(r, signed, w, Reg(c, b) % Pow256(w))
  {
    var to := (Reg(c, a) + off) % TWO64;
    StoreIs(lay, mod, st, w, a, b, off, c);
    r := LoadBack(lay, mod, ld, w, signed, d, e, off', to, Reg(c, b), c, Data(lay, mod, IM(st, a, b, off), c).c);
  }

  /** The load, in the state `c1` after a store of `v`. */
  lemma LoadBack(lay: Layout, mod: nat, ld: OpM, w: nat, signed: bool, d: int, e: int, off: int, to: u64, v: u64,
                 c: Core, c1: Core)
    returns (r: u64)
    requires (ld, w, signed) in {(Ld1, 1, true), (Ld2, 2, true), (Ld4, 4, true), (Ld8, 8, false),
                                 (Ldu1, 1, false), (Ldu2, 2, false), (Ldu4, 4, false)}
    requires HasReg(c, d) && Disjoint(lay, c) && HighSeg(lay, c) < TWO64 && StoreAt(lay, w, to, v, c) == Done(c1)
    requires HasReg(c1, e) && (Reg(c1, e) + off) % TWO64 == to
    ensures HasReg(c1, d) && Data(lay, mod, IM(ld, d, e, off), c1) == Done(SetReg(c1, d, r))
    ensures Extends(r, signed, w, v % Pow256(w))
  {
    r := Extend(signed, LE(w, v));
    FromLEofLE(w, v);
    ExtendExtends(signed, LE(w, v));
    StoreAtLoads(lay, w, signed, d, to, v, c);
    LoadIs(lay, mod, ld, w, signed, d, e, off, c1);
  }

  lemma StoreAtLoads(lay: Layout, w: nat, signed: bool, d: int, to: u64, v: u64, c: Core)
    requires w in {1, 2, 4, 8} && HasReg(c, d) && Disjoint(lay, c) && HighSeg(lay, c) < TWO64
    requires StoreAt(lay, w, to, v, c).Done?
    ensures var c1 := StoreAt(lay, w, to, v, c).c;
            HasReg(c1, d) && LoadAt(lay, w, signed, d, to, c1) == Done(SetReg(c1, d, Extend(signed, LE(w, v))))
  {
    var c1 := StoreDone(lay, w, to, v, c);
    ReadAfterWrite(lay, c, to, LE(w, v));
    LoadDone(lay, w, signed, d, to, c1, LE(w, v));
  }

  lemma StoreDone(lay: Layout, w: nat, to: u64, v: u64, c: Core) returns (c1: Core)
    requires StoreAt(lay, w, to, v, c).Done?
    ensures StoreAt(lay, w, to, v, c) == Done(c1) && WriteMem(lay, c, to, LE(w, v)) == Some(c1)
    ensures |c1.stack| == |c.stack| && c1.osp == c.osp && Checked(lay, c1, to, w)
  {
    c1 := StoreAt(lay, w, to, v, c).c;
  }

  lemma LoadDone(lay: Layout, w: nat, signed: bool, d: int, from: u64, c: Core, bs: seq<byte>)
    requires HasReg(c, d) && Checked(lay, c, from, w) && ReadMem(lay, c, from, w) == Some(bs)
    ensures LoadAt(lay, w, signed, d, from, c) == Done(SetReg(c, d, Extend(signed, bs)))
  {
  }

  // ----- addresses -----

  /** `lea` adds, modulo 2^64. */
  lemma LeaAdds(lay: Layout, mod: nat, a: int, b: int, off: int, c: Core) returns (v: u64)
    requires HasReg(c, a) && HasReg(c, b)
    ensures Leaves(lay, mod, IM(Lea, a, b, off), c, a, v) && Same64(v, Reg(c, b) + off)
  {
    v := (Reg(c, b) + off) % TWO64;
    Truncates(Reg(c, b) + off);
  }

  /** Registers are memory: after `lra` of register n, a load through it reads that register. */
  lemma LraAddresses(lay: Layout, mod: nat, a: int, n: nat, d: int, c: Core)
    requires HasReg(c, a) && HasReg(c, n) && HasReg(c, d) && Disjoint(lay, c) && HighSeg(lay, c) < TWO64
    ensures Leaves(lay, mod, IR(Lra, a, n), c, a, lay.opBase + 8 * (c.osp + n))
    ensures var c1 := SetReg(c, a, lay.opBase + 8 * (c.osp + n));
            Data(lay, mod, IM(Ld8, d, a, 0), c1) == Done(SetReg(c1, d, Reg(c1, n)))
  {
    var addr := lay.opBase + 8 * (c.osp + n);
    ModUnique(addr, TWO64, 0, addr);
    var c1 := SetReg(c, a, addr);
    CellLoaded(lay, n, d, c1);
  }

  lemma CellLoaded(lay: Layout, n: nat, d: int, c: Core)
    requires HasReg(c, n) && HasReg(c, d) && Disjoint(lay, c) && HighSeg(lay, c) < TWO64
    ensures LoadAt(lay, 8, false, d, lay.opBase + 8 * (c.osp + n), c) == Done(SetReg(c, d, Reg(c, n)))
  {
    var from := lay.opBase + 8 * (c.osp + n);
    CellRead(lay, c, c.osp + n, from);
    LoadDone(lay, 8, false, d, from, c, LE(8, Reg(c, n)));
    FromLEofLE(8, Reg(c, n));
    Pow256Values();
    ModUnique(Reg(c, n), TWO64, 0, Reg(c, n));
  }

  lemma CellRead(lay: Layout, c: Core, k: nat, from: nat)
    requires k < |c.stack| && from == lay.opBase + 8 * k && Disjoint(lay, c) && HighSeg(lay, c) < TWO64
    ensures Checked(lay, c, from, 8) && ReadMem(lay, c, from, 8) == Some(LE(8, c.stack[k]))
  {
    CheckedIff(lay, c, from, 8);
    ModUnique(from + 7, TWO64, 0, from + 7);
    CellBytes(c.stack, k);
  }

  lemma {:induction false} CellBytes(stack: seq<u64>, k: nat)
    requires k < |stack|
    ensures StackBytes(stack, 8 * k, 8) == LE(8, stack[k])
    decreases |stack|
  {
    var n := |stack| - 1;
    var low := AllBytes(stack[..n]);
    assert AllBytes(stack) == low + LE(8, stack[n]);
    if k < n {
      CellBytes(stack[..n], k);
      assert AllBytes(stack)[8 * k..8 * k + 8] == low[8 * k..8 * k + 8];
    } else {
      assert AllBytes(stack)[8 * k..8 * k + 8] == LE(8, stack[n]);
    }
  }
}
