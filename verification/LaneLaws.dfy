/** What the vector instructions compute in each lane, by the laws that single it out. */
module LaneLaws {
  import opened Words
  import opened Isa
  import opened Cells
  import opened V = Vector
  import opened MemoryInstructions
  import A = Arithmetic
  import opened Machine

  // ----- the laws -----

  /** The same number but for a multiple of `m`. */
  predicate SameMod(m: int, v: int, w: int)
    requires m > 0
  {
    (v - w) % m == 0
  }

  /** `q` is `x` divided by `p`, rounded down. */
  predicate DividedBy(q: int, x: int, p: int) {
    q * p <= x < (q + 1) * p
  }

  /** What a lane of `w` bytes must hold after an operation on lanes that held `x` and `y`. */
  ghost predicate Law(op: Op2, w: nat, x: nat, y: nat, v: nat) {
    var m := Pow256(w);
    match op
    case Vadd => SameMod(m, v, x + y)
    case Vsub => SameMod(m, v, x - y)
    case Vmul => SameMod(m, v, x * y)
    case Vdiv => y > 0 && DividedBy(v, x, y)
    case Vmod => v < y && exists q: nat :: q * y + v == x
    case Vand => forall k :: 0 <= k < 8 * w ==> (Bit(v, k) <==> Bit(x, k) && Bit(y, k))
    case Vor => forall k :: 0 <= k < 8 * w ==> (Bit(v, k) <==> Bit(x, k) || Bit(y, k))
    case Vxor => forall k :: 0 <= k < 8 * w ==> (Bit(v, k) <==> Bit(x, k) != Bit(y, k))
    case Vsll => SameMod(m, v, x * Pow2(y))
    case Vsrl => DividedBy(v, x, Pow2(y))
    case Vsra => x < m && v < m && DividedBy(Signed(m, v), Signed(m, x), Pow2(y))
    case _ => false
  }

  /** When C defines it: no divisor 0, no shift by the bits of the promoted lane or more, and no overflow of lanes
      promoted to signed 32-bit integers. */
  predicate Defined(op: Op2, w: nat, x: nat, y: nat) {
    match op
    case Vadd | Vsub | Vand | Vor | Vxor => true
    case Vmul => w > 2 || x * y < 0x8000_0000
    case Vdiv | Vmod => y != 0
    case Vsll => y < (if w == 8 then 64 else 32) && (w > 2 || x * Pow2(y) < 0x8000_0000)
    case Vsrl | Vsra => y < if w == 8 then 64 else 32
    case _ => false
  }

  // ----- one lane -----

  lemma KeptIs(w: nat, v: int)
    requires w in {1, 2, 4, 8}
    ensures SameMod(Pow256(w), Kept(w, v), v) && (0 <= v < Pow256(w) ==> Kept(w, v) == v)
  {
    Remains(v, Pow256(w));
  }

  lemma Remains(v: int, m: int)
    requires m > 0
    ensures SameMod(m, v % m, v) && (0 <= v < m ==> v % m == v)
  {
    ModUnique(v % m - v, m, -(v / m), 0);
    if 0 <= v < m {
      ModUnique(v, m, 0, v);
    }
  }

  lemma Divided(x: int, p: int)
    requires p > 0
    ensures DividedBy(x / p, x, p) && (x >= 0 ==> 0 <= x / p <= x)
  {
    assert x == (x / p) * p + x % p;
    assert (x / p + 1) * p == (x / p) * p + p;
    A.QuotientBounds(x, p);
  }

  lemma LaneDivides(w: nat, x: nat, y: nat)
    requires w in {1, 2, 4, 8} && x < LaneSpan(w) && y < LaneSpan(w) && y > 0
    ensures LaneOp(Vdiv, w, x, y) == Some(x / y) && Law(Vdiv, w, x, y, x / y)
    ensures LaneOp(Vmod, w, x, y) == Some(x % y) && Law(Vmod, w, x, y, x % y)
  {
    Divided(x, y);
    Remaining(x, y);
    KeptIs(w, x / y);
    KeptIs(w, x % y);
  }

  lemma Remaining(x: nat, y: nat)
    requires y > 0
    ensures x % y < y && exists q: nat :: q * y + x % y == x
  {
    assert (x / y) * y + x % y == x;
  }

  lemma PowerOfBits(w: nat)
    requires w in {1, 2, 4, 8}
    ensures Pow2(8 * w) == Pow256(w)
  {
    Pow256Values();
    Pow2Is64(8);
    Pow2Add(8, 8);
  }

  /** Truncating keeps the low bits. */
  lemma {:induction false} BitOfTruncated(v: nat, n: nat, k: nat)
    requires k < n
    ensures Bit(v % Pow2(n), k) == Bit(v, k)
    decreases n
  {
    var p := Pow2(n - 1);
    var q, r := v / (2 * p), v % (2 * p);
    assert v == q * (2 * p) + r;
    assert v / 2 == q * p + r / 2 && v % 2 == r % 2;
    ModUnique(v / 2, p, q, r / 2);
    if k > 0 {
      BitOfTruncated(v / 2, n - 1, k - 1);
    }
  }

  lemma KeptBit(w: nat, v: nat, k: nat)
    requires w in {1, 2, 4, 8} && k < 8 * w
    ensures Bit(Kept(w, v), k) == Bit(v, k)
  {
    PowerOfBits(w);
    BitOfTruncated(v, 8 * w, k);
  }

  lemma LaneBit(w: nat, x: u64, y: u64, k: nat)
    requires w in {1, 2, 4, 8} && k < 8 * w
    ensures Bit(Kept(w, BitAnd(x, y)), k) <==> Bit(x, k) && Bit(y, k)
    ensures Bit(Kept(w, BitOr(x, y)), k) <==> Bit(x, k) || Bit(y, k)
    ensures Bit(Kept(w, BitXor(x, y)), k) <==> Bit(x, k) != Bit(y, k)
  {
    A.BitsOf(x, y, k);
    KeptBit(w, BitAnd(x, y), k);
    KeptBit(w, BitOr(x, y), k);
    KeptBit(w, BitXor(x, y), k);
  }

  lemma LaneBits(op: Op2, w: nat, x: nat, y: nat, v: u64)
    requires w in {1, 2, 4, 8} && x < LaneSpan(w) && y < LaneSpan(w) && op in {Vand, Vor, Vxor}
    requires LaneOp(op, w, x, y) == Some(v)
    ensures Law(op, w, x, y, v)
  {
    forall k | 0 <= k < 8 * w
      ensures op == Vand ==> (Bit(v, k) <==> Bit(x, k) && Bit(y, k))
      ensures op == Vor ==> (Bit(v, k) <==> Bit(x, k) || Bit(y, k))
      ensures op == Vxor ==> (Bit(v, k) <==> Bit(x, k) != Bit(y, k))
    {
      LaneBit(w, x, y, k);
    }
  }

  lemma LaneShifts(op: Op2, w: nat, x: nat, y: nat)
    requires w in {1, 2, 4, 8} && x < LaneSpan(w) && y < LaneSpan(w) && op in {Vsll, Vsrl, Vsra}
    requires Defined(op, w, x, y)
    ensures Law(op, w, x, y, LaneOp(op, w, x, y).value)
  {
    var p, m := Pow2(y), Pow256(w);
    if op == Vsll {
      KeptIs(w, x * p);
    } else if op == Vsrl {
      Divided(x, p);
      KeptIs(w, x / p);
    } else {
      var s := Signed(m, x);
      Divided(s, p);
      A.QuotientBounds(s, p);
      WrapFits(m, s / p);
    }
  }

  lemma LaneIsLawful(op: Op2, w: nat, x: nat, y: nat)
    requires w in {1, 2, 4, 8} && x < LaneSpan(w) && y < LaneSpan(w)
    ensures LaneOp(op, w, x, y).Some? <==> Defined(op, w, x, y)
    ensures Defined(op, w, x, y) ==> Law(op, w, x, y, LaneOp(op, w, x, y).value)
  {
    if Defined(op, w, x, y) {
      match op {
        case Vadd => KeptIs(w, x + y);
        case Vsub => KeptIs(w, x - y);
        case Vmul => KeptIs(w, x * y);
        case Vdiv => LaneDivides(w, x, y);
        case Vmod => LaneDivides(w, x, y);
        case Vand | Vor | Vxor => LaneBits(op, w, x, y, LaneOp(op, w, x, y).value);
        case Vsll | Vsrl | Vsra => LaneShifts(op, w, x, y);
      }
    }
  }

  // ----- instructions -----

  /** The width of a lane, by the element width set. */
  predicate IsWidth(width: nat, w: nat) {
    if width == 1 then w == 1 else if width == 2 then w == 2 else if width == 4 then w == 4 else w == 8
  }

  /** Lane `i` is the number whose bytes lie at `w` times `i` from the vector's first cell on, lowest first. */
  lemma {:induction false} LaneIs(stack: seq<u64>, a: nat, w: nat, n: nat, i: nat, k: nat)
    requires w in {1, 2, 4, 8} && i < n && Fits(stack, a, w * n) && k < w
    ensures Fits(stack, a, Extent(w, n)) && 8 * a + w * i + k < 8 * |stack|
    ensures Digit(Lane(stack, a, w, n, i), k) == StackByte(stack, 8 * a + w * i + k)
  {
    ExtentIs(w, n);
    ExtentIs(w, i);
    LaneInside(w, i, n);
    FromLEDigit(LaneBytes(stack, a, w, i), k);
  }

  // ----- vectors -----

  /** `t` is the stack after an operation on the vectors at `p` and `q`: every lane of the first is as the law asks, and
      no other byte has changed. */
  ghost predicate Lawful(op: Op2, w: nat, n: nat, stack: seq<u64>, p: int, q: int, t: seq<u64>) {
    && w in {1, 2, 4, 8} && |t| == |stack|
    && Fits(stack, p, Extent(w, n)) && Fits(stack, q, Extent(w, n)) && OnlyVector(stack, t, p, w, n)
    && forall i :: 0 <= i < n ==> LawAt(op, w, n, stack, p, q, t, i)
  }

  ghost predicate LawAt(op: Op2, w: nat, n: nat, stack: seq<u64>, p: int, q: int, t: seq<u64>, i: nat)
    requires w in {1, 2, 4, 8} && |t| == |stack| && i < n
    requires Fits(stack, p, Extent(w, n)) && Fits(stack, q, Extent(w, n))
  {
    Law(op, w, Lane(stack, p, w, n, i), Lane(stack, q, w, n, i), Lane(t, p, w, n, i))
  }

  lemma VectorIsLawful(op: Op2, w: nat, sh: Shape, stack: seq<u64>, p: int, q: int, r: Option<seq<u64>>)
    requires IsWidth(sh.width, w) && r == V.Binary(op, sh, stack, p, q)
    ensures r.Some? ==> Lawful(op, w, sh.len, stack, p, q, r.value)
  {
    if r.Some? {
      BinaryIsLanewise(op, sh, stack, p, q);
      forall i | 0 <= i < sh.len ensures LawAt(op, w, sh.len, stack, p, q, r.value, i) {
        LaneIsLawful(op, w, Lane(stack, p, w, sh.len, i), Lane(stack, q, w, sh.len, i));
      }
    }
  }

  /** C defines every lane. */
  predicate AllDefined(op: Op2, w: nat, n: nat, stack: seq<u64>, p: nat, q: nat)
    requires w in {1, 2, 4, 8} && Fits(stack, p, Extent(w, n)) && Fits(stack, q, Extent(w, n))
  {
    forall i :: 0 <= i < n ==> DefinedAt(op, w, n, stack, p, q, i)
  }

  predicate DefinedAt(op: Op2, w: nat, n: nat, stack: seq<u64>, p: nat, q: nat, i: nat)
    requires w in {1, 2, 4, 8} && Fits(stack, p, Extent(w, n)) && Fits(stack, q, Extent(w, n)) && i < n
  {
    Defined(op, w, Lane(stack, p, w, n, i), Lane(stack, q, w, n, i))
  }

  /** Both vectors lie on the stack, without overlapping, and C defines every lane. */
  predicate Operable(op: Op2, w: nat, n: nat, stack: seq<u64>, p: nat, q: nat)
    requires w in {1, 2, 4, 8}
  {
    && Fits(stack, p, Extent(w, n)) && Fits(stack, q, Extent(w, n)) && !Overlap(p, q, Extent(w, n))
    && AllDefined(op, w, n, stack, p, q)
  }

  lemma VectorDefinedIff(op: Op2, w: nat, sh: Shape, stack: seq<u64>, p: nat, q: nat, r: Option<seq<u64>>)
    requires IsWidth(sh.width, w) && r == V.Binary(op, sh, stack, p, q)
    ensures r.Some? <==> Operable(op, w, sh.len, stack, p, q)
  {
    if Fits(stack, p, Extent(w, sh.len)) && Fits(stack, q, Extent(w, sh.len)) {
      ZipDefined(op, w, sh.len, stack, p, q);
    }
  }

  lemma ZipDefined(op: Op2, w: nat, n: nat, stack: seq<u64>, p: nat, q: nat)
    requires w in {1, 2, 4, 8} && Fits(stack, p, Extent(w, n)) && Fits(stack, q, Extent(w, n))
    ensures Collect(ZipFn(FnOf(op, w), w, n, stack, p, q), n).Some? <==> AllDefined(op, w, n, stack, p, q)
  {
    var g := ZipFn(FnOf(op, w), w, n, stack, p, q);
    forall i | 0 <= i < n ensures g(i).Some? <==> DefinedAt(op, w, n, stack, p, q, i) {
      ZipAt(op, w, n, stack, p, q, i);
    }
    CollectIff(g, n);
  }

  lemma ZipAt(op: Op2, w: nat, n: nat, stack: seq<u64>, p: nat, q: nat, i: nat)
    requires w in {1, 2, 4, 8} && Fits(stack, p, Extent(w, n)) && Fits(stack, q, Extent(w, n)) && i < n
    ensures ZipFn(FnOf(op, w), w, n, stack, p, q)(i).Some? <==> DefinedAt(op, w, n, stack, p, q, i)
  {
    var x, y := Lane(stack, p, w, n, i), Lane(stack, q, w, n, i);
    ZipIs(FnOf(op, w), w, n, stack, p, q, i, x, y);
    FnIs(op, w, x, y);
    LaneIsLawful(op, w, x, y);
  }

  lemma ZipIs(f: LaneFn, w: nat, n: nat, stack: seq<u64>, p: nat, q: nat, i: nat, x: u64, y: u64)
    requires w in {1, 2, 4, 8} && Fits(stack, p, Extent(w, n)) && Fits(stack, q, Extent(w, n)) && i < n
    requires x == Lane(stack, p, w, n, i) && y == Lane(stack, q, w, n, i)
    ensures ZipFn(f, w, n, stack, p, q)(i) == f(x, y)
  {
  }

  lemma FnIs(op: Op2, w: nat, x: u64, y: u64)
    requires w in {1, 2, 4, 8} && x < LaneSpan(w)
    ensures FnOf(op, w)(x, y) == LaneOp(op, w, x, y)
  {
  }

  lemma {:induction false} CollectIff(g: nat -> Option<u64>, n: nat)
    ensures Collect(g, n).Some? <==> forall i :: 0 <= i < n ==> g(i).Some?
    decreases n
  {
    if n > 0 {
      CollectIff(g, n - 1);
    }
  }

  /** `t` is the stack after every lane of the vector at `p` was negated or complemented. */
  ghost predicate Inverted(op: Op1, w: nat, n: nat, stack: seq<u64>, p: int, t: seq<u64>) {
    && w in {1, 2, 4, 8} && |t| == |stack| && Fits(stack, p, Extent(w, n)) && OnlyVector(stack, t, p, w, n)
    && forall i :: 0 <= i < n ==> InverseLaw(op, w, Lane(stack, p, w, n, i), Lane(t, p, w, n, i))
  }

  ghost predicate InverseLaw(op: Op1, w: nat, x: nat, v: nat) {
    match op
    case Vneg => SameMod(Pow256(w), x + v, 0)
    case Vnot => forall k :: 0 <= k < 8 * w ==> (Bit(v, k) <==> !Bit(x, k))
    case _ => false
  }

  lemma VectorInverts(op: Op1, w: nat, sh: Shape, stack: seq<u64>, p: int, r: Option<seq<u64>>)
    requires op in {Vneg, Vnot} && IsWidth(sh.width, w) && r == V.Unary(op, sh, stack, p)
    ensures r.Some? ==> Inverted(op, w, sh.len, stack, p, r.value)
  {
    if r.Some? {
      UnaryIsLanewise(op, sh, stack, p);
      forall i | 0 <= i < sh.len
        ensures InverseLaw(op, w, Lane(stack, p, w, sh.len, i), Lane(r.value, p, w, sh.len, i))
      {
        LaneInverse(op, w, Lane(stack, p, w, sh.len, i));
      }
    }
  }

  lemma LaneInverse(op: Op1, w: nat, x: u64)
    requires op in {Vneg, Vnot} && w in {1, 2, 4, 8} && x < LaneSpan(w)
    ensures LaneUnary(op, w, x).Some? && InverseLaw(op, w, x, LaneUnary(op, w, x).value)
  {
    forall k | 0 <= k < 8 * w ensures Bit(LaneUnary(Vnot, w, x).value, k) <==> !Bit(x, k) {
      LaneInverts(w, x, k);
    }
    LaneInverts(w, x, 0);
  }

  lemma LaneInverts(w: nat, x: u64, k: nat)
    requires w in {1, 2, 4, 8} && x < LaneSpan(w) && k < 8 * w
    ensures SameMod(Pow256(w), x + LaneUnary(Vneg, w, x).value, 0)
    ensures Bit(LaneUnary(Vnot, w, x).value, k) <==> !Bit(x, k)
  {
    Opposite(x, Pow256(w));
    PowerOfBits(w);
    A.Complement(8 * w, x, k);
  }

  lemma Opposite(x: nat, m: nat)
    requires x < m
    ensures SameMod(m, x + (m - x) % m, 0)
  {
    ModUnique(m - x, m, if x == 0 then 1 else 0, if x == 0 then 0 else m - x);
    ModUnique(m, m, 1, 0);
    ModUnique(0, m, 0, 0);
  }

  /** How an order compares two lanes: as unsigned numbers, or as signed ones. */
  predicate Compares(op: Op2, w: nat, x: nat, y: nat)
    requires x < Pow256(w) && y < Pow256(w)
  {
    match op
    case Vult => x < y
    case Vule => x <= y
    case Vilt => Signed(Pow256(w), x) < Signed(Pow256(w), y)
    case Vile => Signed(Pow256(w), x) <= Signed(Pow256(w), y)
    case _ => false
  }

  predicate ComparesAt(op: Op2, w: nat, n: nat, stack: seq<u64>, p: nat, q: nat, i: nat)
    requires w in {1, 2, 4, 8} && Fits(stack, p, Extent(w, n)) && Fits(stack, q, Extent(w, n)) && i < n
  {
    Compares(op, w, Lane(stack, p, w, n, i), Lane(stack, q, w, n, i))
  }

  predicate AllCompare(op: Op2, w: nat, n: nat, stack: seq<u64>, p: nat, q: nat)
    requires w in {1, 2, 4, 8} && Fits(stack, p, Extent(w, n)) && Fits(stack, q, Extent(w, n))
  {
    forall i :: 0 <= i < n ==> ComparesAt(op, w, n, stack, p, q, i)
  }

  lemma VectorCompares(op: Op2, w: nat, sh: Shape, stack: seq<u64>, p: nat, q: nat, r: Option<bool>)
    requires op in {Vult, Vule, Vilt, Vile} && IsWidth(sh.width, w) && r == Ordered(op, sh, stack, p, q)
    requires Fits(stack, p, Extent(w, sh.len)) && Fits(stack, q, Extent(w, sh.len))
    ensures r == Some(AllCompare(op, w, sh.len, stack, p, q))
  {
    OrderedIsLanewise(op, sh, stack, p, q);
    forall i | 0 <= i < sh.len
      ensures HoldsIn(op, w, sh.len, stack, p, q, i) <==> ComparesAt(op, w, sh.len, stack, p, q, i)
    {
      LaneCompares(op, w, Lane(stack, p, w, sh.len, i), Lane(stack, q, w, sh.len, i));
    }
  }

  lemma LaneCompares(op: Op2, w: nat, x: u64, y: u64)
    requires op in {Vult, Vule, Vilt, Vile} && w in {1, 2, 4, 8} && x < LaneSpan(w) && y < LaneSpan(w)
    ensures LaneCompare(op, w, x, y) == Some(Compares(op, w, x, y))
  {
  }

  // ----- instructions -----

  /** Packed operations on two vectors. */
  predicate IsPacked(op: Op2) {
    op in {Vadd, Vsub, Vmul, Vdiv, Op2.Vmod, Vand, Vor, Vxor, Vsll, Vsrl, Vsra}
  }

  lemma PackedIsLanes(op: Op2)
    ensures IsPacked(op) ==> KindOf(op) == Lanes
    ensures op in {Vult, Vule, Vilt, Vile} ==> KindOf(op) == Order
  {
  }

  lemma VectorData(lay: Layout, mod: nat, op: Op2, a: int, b: int, c: Core)
    requires KindOf(op) != Scalar
    ensures Data(lay, mod, I2(op, a, b), c) == VectorBinary(op, a, b, c)
  {
  }

  lemma ByLanes(op: Op2, a: nat, b: nat, c: Core, p: nat, q: nat, r: Option<seq<u64>>)
    requires KindOf(op) == Lanes && p == c.osp + a && q == c.osp + b && r == V.Binary(op, c.vec, c.stack, p, q)
    ensures VectorBinary(op, a, b, c) == WithStack(c, r)
  {
  }

  lemma OrderData(lay: Layout, mod: nat, op: Op2, a: nat, b: nat, c: Core, r: Option<bool>)
    requires KindOf(op) == Order && r == Ordered(op, c.vec, c.stack, c.osp + a, c.osp + b)
    ensures Data(lay, mod, I2(op, a, b), c) == WithCond(c, r)
  {
    VectorData(lay, mod, op, a, b, c);
  }

  lemma UnaryData(lay: Layout, mod: nat, op: Op1, a: int, c: Core, r: Option<seq<u64>>)
    requires op in {Vneg, Vnot} && r == V.Unary(op, c.vec, c.stack, c.osp + a)
    ensures Data(lay, mod, I1(op, a), c) == if a < 0 then Stuck else WithStack(c, r)
  {
  }

  lemma LanesEffect(op: Op2, w: nat, a: nat, b: nat, c: Core, p: nat, q: nat) returns (r: Option<seq<u64>>)
    requires KindOf(op) == Lanes && IsWidth(c.vec.width, w) && p == c.osp + a && q == c.osp + b
    ensures VectorBinary(op, a, b, c) == WithStack(c, r)
    ensures r.Some? <==> Operable(op, w, c.vec.len, c.stack, p, q)
    ensures r.Some? ==> Lawful(op, w, c.vec.len, c.stack, p, q, r.value)
  {
    r := V.Binary(op, c.vec, c.stack, p, q);
    VectorOperated(op, w, c.vec, c.stack, p, q, r);
    ByLanes(op, a, b, c, p, q, r);
  }

  lemma VectorOperated(op: Op2, w: nat, sh: Shape, stack: seq<u64>, p: nat, q: nat, r: Option<seq<u64>>)
    requires IsWidth(sh.width, w) && r == V.Binary(op, sh, stack, p, q)
    ensures r.Some? <==> Operable(op, w, sh.len, stack, p, q)
    ensures r.Some? ==> Lawful(op, w, sh.len, stack, p, q, r.value)
  {
    VectorDefinedIff(op, w, sh, stack, p, q, r);
    VectorIsLawful(op, w, sh, stack, p, q, r);
  }

  /** A packed operation goes through exactly when both vectors lie on the stack without overlapping and C defines every
      lane; then every lane of the destination holds what the law asks of the lanes that were there, and nothing else
      changes. */
  lemma PackedIsLawful(lay: Layout, mod: nat, op: Op2, w: nat, a: nat, b: nat, c: Core, p: nat, q: nat)
    returns (t: seq<u64>)
    requires IsPacked(op) && IsWidth(c.vec.width, w) && p == c.osp + a && q == c.osp + b
    ensures Data(lay, mod, I2(op, a, b), c)
            == if Operable(op, w, c.vec.len, c.stack, p, q) then Effect.Done(c.(stack := t)) else Stuck
    ensures Operable(op, w, c.vec.len, c.stack, p, q) ==> Lawful(op, w, c.vec.len, c.stack, p, q, t)
  {
    var r := PackedData(lay, mod, op, w, a, b, c, p, q);
    t := r.GetOr([]);
    EffectIs(c, r, Data(lay, mod, I2(op, a, b), c), Operable(op, w, c.vec.len, c.stack, p, q), t);
  }

  lemma PackedData(lay: Layout, mod: nat, op: Op2, w: nat, a: nat, b: nat, c: Core, p: nat, q: nat)
    returns (r: Option<seq<u64>>)
    requires IsPacked(op) && IsWidth(c.vec.width, w) && p == c.osp + a && q == c.osp + b
    ensures Data(lay, mod, I2(op, a, b), c) == WithStack(c, r)
    ensures r.Some? <==> Operable(op, w, c.vec.len, c.stack, p, q)
    ensures r.Some? ==> Lawful(op, w, c.vec.len, c.stack, p, q, r.value)
  {
    PackedIsLanes(op);
    VectorData(lay, mod, op, a, b, c);
    r := LanesEffect(op, w, a, b, c, p, q);
  }

  lemma EffectIs(c: Core, r: Option<seq<u64>>, e: Effect, defined: bool, t: seq<u64>)
    requires e == WithStack(c, r) && (r.Some? <==> defined) && t == r.GetOr([])
    ensures e == if defined then Effect.Done(c.(stack := t)) else Stuck
  {
  }

  lemma InvertedData(lay: Layout, mod: nat, op: Op1, w: nat, a: nat, c: Core) returns (r: Option<seq<u64>>)
    requires op in {Vneg, Vnot} && IsWidth(c.vec.width, w)
    ensures Data(lay, mod, I1(op, a), c) == WithStack(c, r)
    ensures r.Some? ==> Inverted(op, w, c.vec.len, c.stack, c.osp + a, r.value)
  {
    r := V.Unary(op, c.vec, c.stack, c.osp + a);
    UnaryData(lay, mod, op, a, c, r);
    VectorInverts(op, w, c.vec, c.stack, c.osp + a, r);
  }

  /** Packed negation and complement. */
  lemma PackedInverts(lay: Layout, mod: nat, op: Op1, w: nat, a: nat, c: Core) returns (t: seq<u64>)
    requires op in {Vneg, Vnot} && IsWidth(c.vec.width, w) && Data(lay, mod, I1(op, a), c).Done?
    ensures Data(lay, mod, I1(op, a), c) == Effect.Done(c.(stack := t))
    ensures Inverted(op, w, c.vec.len, c.stack, c.osp + a, t)
  {
    var r := InvertedData(lay, mod, op, w, a, c);
    t := r.value;
  }

  /** The orders of vectors set the condition exactly when every lane compares, and change nothing else. */
  lemma PackedOrders(lay: Layout, mod: nat, op: Op2, w: nat, a: nat, b: nat, c: Core)
    requires op in {Vult, Vule, Vilt, Vile} && IsWidth(c.vec.width, w)
    requires Fits(c.stack, c.osp + a, Extent(w, c.vec.len)) && Fits(c.stack, c.osp + b, Extent(w, c.vec.len))
    ensures A.Decides(lay, mod, I2(op, a, b), c, AllCompare(op, w, c.vec.len, c.stack, c.osp + a, c.osp + b))
  {
    PackedIsLanes(op);
    var r := Ordered(op, c.vec, c.stack, c.osp + a, c.osp + b);
    OrderData(lay, mod, op, a, b, c, r);
    VectorCompares(op, w, c.vec, c.stack, c.osp + a, c.osp + b, r);
  }

  /** Copying and comparing for equality go by the shape as it is set. */
  lemma CopiesAndCompares(lay: Layout, mod: nat, a: nat, b: nat, c: Core, r: Option<seq<u64>>, t: Option<bool>)
    requires r == Move(c.vec, c.stack, c.osp + a, c.osp + b) && t == Same(c.vec, c.stack, c.osp + a, c.osp + b)
    ensures Data(lay, mod, I2(Vmov, a, b), c) == WithStack(c, r)
    ensures Data(lay, mod, I2(Vcmp, a, b), c) == WithCond(c, t)
  {
    VectorData(lay, mod, Vmov, a, b, c);
    VectorData(lay, mod, Vcmp, a, b, c);
  }
}
