/** Vector instructions: vectors of lanes of 1, 2, 4 or 8 bytes packed into the cells of the operand stack. */
module Vector {
  import opened Words
  import opened Isa
  import opened Cells

  /** The number of lanes and the element width last set. */
  datatype Shape = Shape(len: nat, width: nat)

  /** Lane-wise operations take every width but 1, 2 and 4 for 8. */
  function LaneWidth(width: nat): (w: nat)
    ensures w in {1, 2, 4, 8}
  {
    if width in {1, 2, 4} then width else 8
  }

  /** The number of values of a lane. */
  function LaneSpan(w: nat): (m: nat)
    requires w in {1, 2, 4, 8}
    ensures 0 < m <= TWO64
  {
    Pow256Values();
    Pow256(w)
  }

  /** The value of a lane's bytes. */
  function LaneValue(bs: seq<byte>): (v: u64)
    requires |bs| in {1, 2, 4, 8}
    ensures v < LaneSpan(|bs|)
  {
    FromLEBound(bs);
    Pow256Values();
    FromLE(bs)
  }

  // ----- one lane -----

  /** Lanes of 1 and 2 bytes are computed as signed 32-bit integers. */
  predicate Overflows(w: nat, v: nat) {
    w <= 2 && v >= TWO32 / 2
  }

  predicate ShiftTooFar(w: nat, y: nat) {
    y >= if w == 8 then 64 else 32
  }

  /** The part of a value that a lane keeps. */
  function Kept(w: nat, v: int): (r: u64)
    requires w in {1, 2, 4, 8}
    ensures r < LaneSpan(w)
  {
    v % LaneSpan(w)
  }

  /** The new value of a lane; `None` where C leaves it undefined. */
  function LaneOp(op: Op2, w: nat, x: u64, y: u64): (r: Option<u64>)
    requires w in {1, 2, 4, 8} && x < LaneSpan(w)
    ensures r.Some? ==> r.value < LaneSpan(w)
  {
    match op
    case Vadd => Some(Kept(w, x + y))
    case Vsub => Some(Kept(w, x - y))
    case Vmul => if Overflows(w, x * y) then None else Some(Kept(w, x * y))
    case Vdiv => if y == 0 then None else Some(Kept(w, x / y))
    case Vmod => if y == 0 then None else Some(Kept(w, x % y))
    case Vand => Some(Kept(w, BitAnd(x, y)))
    case Vor => Some(Kept(w, BitOr(x, y)))
    case Vxor => Some(Kept(w, BitXor(x, y)))
    case Vsll | Vsrl | Vsra => if ShiftTooFar(w, y) then None else LaneShift(op, w, x, Pow2(y))
    case _ => None
  }

  /** A shift by a number of bits with power `p`. */
  function LaneShift(op: Op2, w: nat, x: u64, p: nat): (r: Option<u64>)
    requires w in {1, 2, 4, 8} && x < LaneSpan(w) && p > 0
    ensures r.Some? ==> r.value < LaneSpan(w)
  {
    if op == Vsll then (if Overflows(w, x * p) then None else Some(Kept(w, x * p)))
    else if op == Vsrl then Some(Kept(w, x / p))
    else Some(Kept(w, Signed(LaneSpan(w), x) / p))
  }

  function LaneUnary(op: Op1, w: nat, x: u64): (r: Option<u64>)
    requires w in {1, 2, 4, 8} && x < LaneSpan(w)
    ensures r.Some? ==> r.value < LaneSpan(w)
  {
    match op
    case Vneg => Some((LaneSpan(w) - x) % LaneSpan(w))
    case Vnot => Some(LaneSpan(w) - 1 - x)
    case _ => None
  }

  function LaneCompare(op: Op2, w: nat, x: u64, y: u64): Option<bool>
    requires w in {1, 2, 4, 8} && x < LaneSpan(w) && y < LaneSpan(w)
  {
    match op
    case Vilt => Some(Signed(LaneSpan(w), x) < Signed(LaneSpan(w), y))
    case Vile => Some(Signed(LaneSpan(w), x) <= Signed(LaneSpan(w), y))
    case Vult => Some(x < y)
    case Vule => Some(x <= y)
    case _ => None
  }

  // ----- lanes in cells -----

  /** `n` bytes from cell `a` on lie on the stack. */
  predicate Fits(stack: seq<u64>, a: int, n: nat) {
    0 <= a && 8 * a + n <= 8 * |stack|
  }

  predicate Overlap(a: nat, b: nat, n: nat) {
    8 * a < 8 * b + n && 8 * b < 8 * a + n
  }

  /** Bytes taken by `n` lanes. */
  function Extent(w: nat, n: nat): (r: nat)
    decreases n, w
  {
    if n == 0 then 0 else Extent(w, n - 1) + w
  }

  lemma {:induction false} ExtentIs(w: nat, n: nat)
    ensures Extent(w, n) == w * n
    decreases n
  {
    if n > 0 {
      ExtentIs(w, n - 1);
    }
  }

  lemma {:induction false} LaneInside(w: nat, i: nat, n: nat)
    requires i < n
    ensures Extent(w, i) + w == Extent(w, i + 1) <= Extent(w, n)
    decreases n
  {
    if i < n - 1 {
      LaneInside(w, i, n - 1);
    }
  }

  function LaneBytes(stack: seq<u64>, a: nat, w: nat, i: nat): (s: seq<byte>)
    requires Fits(stack, a, Extent(w, i) + w)
    ensures |s| == w
  {
    StackBytes(stack, 8 * a + Extent(w, i), w)
  }

  /** Lane `i` of the vector of `n` lanes at cell `a`. */
  function Lane(stack: seq<u64>, a: nat, w: nat, n: nat, i: nat): (v: u64)
    requires w in {1, 2, 4, 8} && i < n && Fits(stack, a, Extent(w, n))
    ensures v < LaneSpan(w)
  {
    LaneInside(w, i, n);
    LaneValue(LaneBytes(stack, a, w, i))
  }

  function Lanes(stack: seq<u64>, a: nat, w: nat, n: nat): (vs: seq<u64>)
    requires w in {1, 2, 4, 8} && Fits(stack, a, Extent(w, n))
    ensures |vs| == n && forall i :: 0 <= i < n ==> vs[i] == Lane(stack, a, w, n, i)
    ensures forall i :: 0 <= i < n ==> vs[i] < LaneSpan(w)
  {
    seq(n, i requires 0 <= i < n => Lane(stack, a, w, n, i))
  }

  /** Lanes side by side. */
  function Pack(w: nat, vs: seq<u64>): (s: seq<byte>)
    ensures |s| == Extent(w, |vs|)
  {
    if vs == [] then [] else Pack(w, vs[..|vs| - 1]) + LE(w, vs[|vs| - 1])
  }

  lemma {:induction false} PackAt(w: nat, vs: seq<u64>, i: nat)
    requires i < |vs|
    ensures Extent(w, i) + w <= Extent(w, |vs|)
    ensures Pack(w, vs)[Extent(w, i)..Extent(w, i) + w] == LE(w, vs[i])
    decreases |vs|
  {
    LaneInside(w, i, |vs|);
    var us, last := Pack(w, vs[..|vs| - 1]), LE(w, vs[|vs| - 1]);
    if i < |vs| - 1 {
      LaneInside(w, i, |vs| - 1);
      PackAt(w, vs[..|vs| - 1], i);
      assert (us + last)[Extent(w, i)..Extent(w, i) + w] == us[Extent(w, i)..Extent(w, i) + w];
    } else {
      assert (us + last)[|us|..] == last;
    }
  }

  // ----- instructions -----

  /** What a lane of the destination becomes, given it and the lane of the source. */
  type LaneFn = (u64, u64) -> Option<u64>

  function FnOf(op: Op2, w: nat): LaneFn
    requires w in {1, 2, 4, 8}
  {
    (x: u64, y: u64) => if x < LaneSpan(w) then LaneOp(op, w, x, y) else None
  }

  /** The values of `g` at 0, 1, ... n - 1, if it has them all. */
  function Collect(g: nat -> Option<u64>, n: nat): (r: Option<seq<u64>>)
    ensures r.Some? ==> |r.value| == n
    decreases n, g
  {
    if n == 0 then Some([])
    else
      var prev, v := Collect(g, n - 1), g(n - 1);
      if prev.None? || v.None? then None else Some(prev.value + [v.value])
  }

  lemma {:induction false} CollectAt(g: nat -> Option<u64>, n: nat, i: nat)
    requires i < n
    ensures g(i).None? ==> Collect(g, n).None?
    ensures Collect(g, n).Some? ==> g(i) == Some(Collect(g, n).value[i])
    decreases n
  {
    if i < n - 1 {
      CollectAt(g, n - 1, i);
    }
  }

  /** The stack with the lanes of the vector at cell `a` replaced. */
  function Replace(g: nat -> Option<u64>, w: nat, n: nat, stack: seq<u64>, a: int): (r: Option<seq<u64>>)
    requires Fits(stack, a, Extent(w, n))
    ensures r.Some? ==> |r.value| == |stack|
  {
    match Collect(g, n)
    case None => None
    case Some(vs) => Some(SetStackBytes(stack, 8 * a, Pack(w, vs)))
  }

  function ZipFn(f: LaneFn, w: nat, n: nat, stack: seq<u64>, a: int, b: int): nat -> Option<u64>
    requires w in {1, 2, 4, 8} && Fits(stack, a, Extent(w, n)) && Fits(stack, b, Extent(w, n))
  {
    (i: nat) => if i < n then f(Lane(stack, a, w, n, i), Lane(stack, b, w, n, i)) else None
  }

  /** The stack after a function of the lanes of the vectors at cells `a` and `b` replaces those at `a`. The C compiler
      may take the vectors not to overlap. */
  function Zip(f: LaneFn, w: nat, n: nat, stack: seq<u64>, a: int, b: int): (r: Option<seq<u64>>)
    requires w in {1, 2, 4, 8}
    ensures r.Some? ==> |r.value| == |stack|
  {
    if !Fits(stack, a, Extent(w, n)) || !Fits(stack, b, Extent(w, n)) || Overlap(a, b, Extent(w, n)) then None
    else Replace(ZipFn(f, w, n, stack, a, b), w, n, stack, a)
  }

  /** Lane-wise operations. */
  function Binary(op: Op2, sh: Shape, stack: seq<u64>, a: int, b: int): (r: Option<seq<u64>>)
    ensures r.Some? ==> |r.value| == |stack|
  {
    Zip(FnOf(op, LaneWidth(sh.width)), LaneWidth(sh.width), sh.len, stack, a, b)
  }

  function UnaryFnOf(op: Op1, w: nat): u64 -> Option<u64>
    requires w in {1, 2, 4, 8}
  {
    (x: u64) => if x < LaneSpan(w) then LaneUnary(op, w, x) else None
  }

  function MapFn(f: u64 -> Option<u64>, w: nat, n: nat, stack: seq<u64>, a: int): nat -> Option<u64>
    requires w in {1, 2, 4, 8} && Fits(stack, a, Extent(w, n))
  {
    (i: nat) => if i < n then f(Lane(stack, a, w, n, i)) else None
  }

  function Map(f: u64 -> Option<u64>, w: nat, n: nat, stack: seq<u64>, a: int): (r: Option<seq<u64>>)
    requires w in {1, 2, 4, 8}
    ensures r.Some? ==> |r.value| == |stack|
  {
    if !Fits(stack, a, Extent(w, n)) then None else Replace(MapFn(f, w, n, stack, a), w, n, stack, a)
  }

  function Unary(op: Op1, sh: Shape, stack: seq<u64>, a: int): (r: Option<seq<u64>>)
    ensures r.Some? ==> |r.value| == |stack|
  {
    Map(UnaryFnOf(op, LaneWidth(sh.width)), LaneWidth(sh.width), sh.len, stack, a)
  }

  /** Copying goes by the element width as it was set. */
  function Move(sh: Shape, stack: seq<u64>, a: int, b: int): (r: Option<seq<u64>>)
    ensures r.Some? ==> |r.value| == |stack|
  {
    var n := Extent(sh.width, sh.len);
    if !Fits(stack, a, n) || !Fits(stack, b, n) || Overlap(a, b, n) then None
    else Some(SetStackBytes(stack, 8 * a, StackBytes(stack, 8 * b, n)))
  }

  /** So does the comparison for equality. */
  function Same(sh: Shape, stack: seq<u64>, a: int, b: int): Option<bool> {
    var n := Extent(sh.width, sh.len);
    if !Fits(stack, a, n) || !Fits(stack, b, n) then None
    else Some(StackBytes(stack, 8 * a, n) == StackBytes(stack, 8 * b, n))
  }

  predicate IsOrder(op: Op2) {
    op in {Vilt, Vile, Vult, Vule}
  }

  /** The order holds in lane `i`. */
  predicate HoldsIn(op: Op2, w: nat, n: nat, stack: seq<u64>, a: nat, b: nat, i: nat)
    requires w in {1, 2, 4, 8} && i < n && Fits(stack, a, Extent(w, n)) && Fits(stack, b, Extent(w, n))
  {
    LaneCompare(op, w, Lane(stack, a, w, n, i), Lane(stack, b, w, n, i)) == Some(true)
  }

  /** The order holds in the first `i` lanes. */
  predicate HoldsUpTo(op: Op2, w: nat, n: nat, stack: seq<u64>, a: nat, b: nat, i: nat)
    requires w in {1, 2, 4, 8} && i <= n && Fits(stack, a, Extent(w, n)) && Fits(stack, b, Extent(w, n))
    decreases i, stack
  {
    i == 0 || (HoldsUpTo(op, w, n, stack, a, b, i - 1) && HoldsIn(op, w, n, stack, a, b, i - 1))
  }

  /** An order of two vectors. */
  function Ordered(op: Op2, sh: Shape, stack: seq<u64>, a: int, b: int): Option<bool> {
    var w := LaneWidth(sh.width);
    var n := Extent(w, sh.len);
    if !IsOrder(op) || !Fits(stack, a, n) || !Fits(stack, b, n) then None
    else Some(HoldsUpTo(op, w, sh.len, stack, a, b, sh.len))
  }

  // ----- what they mean -----

  /** What a packed write leaves in each lane. */
  lemma {:induction false} PackedLane(stack: seq<u64>, a: nat, w: nat, vs: seq<u64>, i: nat)
    requires w in {1, 2, 4, 8} && i < |vs| && Fits(stack, a, Extent(w, |vs|))
    ensures Lane(SetStackBytes(stack, 8 * a, Pack(w, vs)), a, w, |vs|, i) == vs[i] % LaneSpan(w)
  {
    PackAt(w, vs, i);
    BytesWritten(stack, 8 * a, Pack(w, vs), Extent(w, i), w);
    assert LaneBytes(SetStackBytes(stack, 8 * a, Pack(w, vs)), a, w, i) == LE(w, vs[i]);
    ReadBack(w, vs[i]);
  }

  lemma {:induction false} ReadBack(w: nat, v: u64)
    requires w in {1, 2, 4, 8}
    ensures LaneValue(LE(w, v)) == v % LaneSpan(w)
    ensures v < LaneSpan(w) ==> v % LaneSpan(w) == v
  {
    FromLEofLE(w, v);
    if v < LaneSpan(w) {
      ModUnique(v, LaneSpan(w), 0, v);
    }
  }

  /** Every lane is replaced, and no byte outside them. */
  lemma {:induction false} ReplacedLane(g: nat -> Option<u64>, w: nat, n: nat, stack: seq<u64>, a: int, i: nat)
    requires w in {1, 2, 4, 8} && Fits(stack, a, Extent(w, n)) && Replace(g, w, n, stack, a).Some? && i < n
    ensures g(i).Some? && Lane(Replace(g, w, n, stack, a).value, a, w, n, i) == g(i).value % LaneSpan(w)
  {
    CollectAt(g, n, i);
    PackedLane(stack, a, w, Collect(g, n).value, i);
  }

  /** No byte but those of the vector of `n` lanes at cell `a` differs. */
  ghost predicate OnlyVector(s: seq<u64>, t: seq<u64>, a: int, w: nat, n: nat) {
    && |s| == |t|
    && forall k :: 0 <= k < 8 * |s| && !(8 * a <= k < 8 * a + Extent(w, n)) ==> StackByte(t, k) == StackByte(s, k)
  }

  lemma {:induction false} WrittenOnly(stack: seq<u64>, a: int, w: nat, n: nat, bs: seq<byte>)
    requires Fits(stack, a, Extent(w, n)) && |bs| == Extent(w, n)
    ensures OnlyVector(stack, SetStackBytes(stack, 8 * a, bs), a, w, n)
  {
    forall k | 0 <= k < 8 * |stack| && !(8 * a <= k < 8 * a + Extent(w, n))
      ensures StackByte(SetStackBytes(stack, 8 * a, bs), k) == StackByte(stack, k)
    {
      BytesOfSet(stack, 8 * a, bs, k);
    }
  }

  /** Lane-wise operations are what they are called: every lane of the destination becomes the operation on the
      lanes that were there, and no byte outside the destination changes. */
  lemma BinaryIsLanewise(op: Op2, sh: Shape, stack: seq<u64>, a: int, b: int)
    requires Binary(op, sh, stack, a, b).Some?
    ensures var w, r := LaneWidth(sh.width), Binary(op, sh, stack, a, b).value;
            && (forall i :: 0 <= i < sh.len ==>
                  Some(Lane(r, a, w, sh.len, i))
                  == LaneOp(op, w, Lane(stack, a, w, sh.len, i), Lane(stack, b, w, sh.len, i)))
            && OnlyVector(stack, r, a, w, sh.len)
  {
    var w, n := LaneWidth(sh.width), sh.len;
    var g := ZipFn(FnOf(op, w), w, n, stack, a, b);
    forall i | 0 <= i < n
      ensures Some(Lane(Binary(op, sh, stack, a, b).value, a, w, n, i))
              == LaneOp(op, w, Lane(stack, a, w, n, i), Lane(stack, b, w, n, i))
    {
      ReplacedLane(g, w, n, stack, a, i);
      FnInRange(op, w, Lane(stack, a, w, n, i), Lane(stack, b, w, n, i));
    }
    WrittenOnly(stack, a, w, n, Pack(w, Collect(g, n).value));
  }

  lemma FnInRange(op: Op2, w: nat, x: u64, y: u64)
    requires w in {1, 2, 4, 8} && x < LaneSpan(w)
    ensures var v := FnOf(op, w)(x, y);
            v == LaneOp(op, w, x, y) && (v.Some? ==> v.value % LaneSpan(w) == v.value)
  {
    if FnOf(op, w)(x, y).Some? {
      ReadBack(w, FnOf(op, w)(x, y).value);
    }
  }

  lemma UnaryIsLanewise(op: Op1, sh: Shape, stack: seq<u64>, a: int)
    requires Unary(op, sh, stack, a).Some?
    ensures var w, r := LaneWidth(sh.width), Unary(op, sh, stack, a).value;
            && (forall i :: 0 <= i < sh.len ==>
                  Some(Lane(r, a, w, sh.len, i)) == LaneUnary(op, w, Lane(stack, a, w, sh.len, i)))
            && OnlyVector(stack, r, a, w, sh.len)
  {
    var w, n := LaneWidth(sh.width), sh.len;
    var g := MapFn(UnaryFnOf(op, w), w, n, stack, a);
    forall i | 0 <= i < n
      ensures Some(Lane(Unary(op, sh, stack, a).value, a, w, n, i)) == LaneUnary(op, w, Lane(stack, a, w, n, i))
    {
      ReplacedLane(g, w, n, stack, a, i);
      ReadBack(w, g(i).value);
    }
    WrittenOnly(stack, a, w, n, Pack(w, Collect(g, n).value));
  }

  lemma {:induction false} HoldsInAll(op: Op2, w: nat, n: nat, stack: seq<u64>, a: nat, b: nat, i: nat)
    requires w in {1, 2, 4, 8} && i <= n && Fits(stack, a, Extent(w, n)) && Fits(stack, b, Extent(w, n))
    ensures HoldsUpTo(op, w, n, stack, a, b, i) <==> forall j :: 0 <= j < i ==> HoldsIn(op, w, n, stack, a, b, j)
    decreases i
  {
    if i > 0 {
      HoldsInAll(op, w, n, stack, a, b, i - 1);
    }
  }

  /** An order holds of two vectors exactly when it holds in every lane. */
  lemma OrderedIsLanewise(op: Op2, sh: Shape, stack: seq<u64>, a: int, b: int)
    requires Ordered(op, sh, stack, a, b).Some?
    ensures var w := LaneWidth(sh.width);
            Ordered(op, sh, stack, a, b).value
            <==> forall i :: 0 <= i < sh.len ==> HoldsIn(op, w, sh.len, stack, a, b, i)
  {
    HoldsInAll(op, LaneWidth(sh.width), sh.len, stack, a, b, sh.len);
  }

  /** Lanes agree when their bytes do. */
  lemma {:induction false} SameLane(stack: seq<u64>, a: nat, t: seq<u64>, b: nat, w: nat, n: nat, i: nat)
    requires w in {1, 2, 4, 8} && i < n && Fits(stack, a, Extent(w, n)) && Fits(t, b, Extent(w, n))
    ensures Extent(w, i) + w <= Extent(w, n)
    ensures Lane(stack, a, w, n, i) == Lane(t, b, w, n, i) <==> LaneBytes(stack, a, w, i) == LaneBytes(t, b, w, i)
  {
    LaneInside(w, i, n);
    if Lane(stack, a, w, n, i) == Lane(t, b, w, n, i) {
      LEofFromLE(LaneBytes(stack, a, w, i));
      LEofFromLE(LaneBytes(t, b, w, i));
    }
  }

  /** The lane that byte `k` of a vector is in. */
  lemma {:induction false} FindLane(w: nat, n: nat, k: nat) returns (i: nat)
    requires k < Extent(w, n)
    ensures i < n && Extent(w, i) <= k < Extent(w, i) + w
    decreases n
  {
    if k < Extent(w, n - 1) {
      i := FindLane(w, n - 1, k);
    } else {
      i := n - 1;
    }
  }

  /** The bytes of a lane among those of its vector. */
  lemma {:induction false} LaneSlice(stack: seq<u64>, a: nat, w: nat, n: nat, i: nat)
    requires i < n && Fits(stack, a, Extent(w, n))
    ensures Extent(w, i) + w <= Extent(w, n)
    ensures LaneBytes(stack, a, w, i) == StackBytes(stack, 8 * a, Extent(w, n))[Extent(w, i)..Extent(w, i) + w]
  {
    LaneInside(w, i, n);
  }

  lemma {:induction false} MovedLane(stack: seq<u64>, a: nat, b: nat, w: nat, n: nat, i: nat)
    requires i < n && Fits(stack, a, Extent(w, n)) && Fits(stack, b, Extent(w, n))
    ensures Extent(w, i) + w <= Extent(w, n)
    ensures LaneBytes(SetStackBytes(stack, 8 * a, StackBytes(stack, 8 * b, Extent(w, n))), a, w, i)
            == LaneBytes(stack, b, w, i)
  {
    LaneSlice(stack, b, w, n, i);
    BytesWritten(stack, 8 * a, StackBytes(stack, 8 * b, Extent(w, n)), Extent(w, i), w);
  }

  /** With a proper element width, copying copies every lane, and changes no byte outside the destination. */
  lemma MoveCopiesLanes(sh: Shape, stack: seq<u64>, a: int, b: int)
    requires sh.width in {1, 2, 4, 8} && Move(sh, stack, a, b).Some?
    ensures var w, r := sh.width, Move(sh, stack, a, b).value;
            && Lanes(r, a, w, sh.len) == Lanes(stack, b, w, sh.len)
            && OnlyVector(stack, r, a, w, sh.len)
  {
    var w, n, r := sh.width, sh.len, Move(sh, stack, a, b).value;
    var bs := StackBytes(stack, 8 * b, Extent(w, n));
    forall i | 0 <= i < n ensures Lane(r, a, w, n, i) == Lane(stack, b, w, n, i) {
      LaneInside(w, i, n);
      MovedLane(stack, a, b, w, n, i);
      SameLane(r, a, stack, b, w, n, i);
    }
    assert Lanes(r, a, w, n) == Lanes(stack, b, w, n);
    WrittenOnly(stack, a, w, n, bs);
  }

  /** All lanes agree. */
  predicate LanesEqual(sh: Shape, stack: seq<u64>, a: int, b: int) {
    var w := LaneWidth(sh.width);
    && Fits(stack, a, Extent(w, sh.len)) && Fits(stack, b, Extent(w, sh.len))
    && Lanes(stack, a, w, sh.len) == Lanes(stack, b, w, sh.len)
  }

  /** With a proper element width, vectors compare equal exactly when all their lanes do. */
  lemma SameIffLanesEqual(sh: Shape, stack: seq<u64>, a: int, b: int)
    requires sh.width in {1, 2, 4, 8} && Same(sh, stack, a, b).Some?
    ensures Same(sh, stack, a, b).value <==> LanesEqual(sh, stack, a, b)
  {
    var w, n := sh.width, sh.len;
    if Same(sh, stack, a, b).value {
      forall i | 0 <= i < n ensures Lane(stack, a, w, n, i) == Lane(stack, b, w, n, i) {
        SameLane(stack, a, stack, b, w, n, i);
        LaneSlice(stack, a, w, n, i);
        LaneSlice(stack, b, w, n, i);
      }
      assert Lanes(stack, a, w, n) == Lanes(stack, b, w, n);
    }
    if LanesEqual(sh, stack, a, b) {
      var s, t := StackBytes(stack, 8 * a, Extent(w, n)), StackBytes(stack, 8 * b, Extent(w, n));
      forall k | 0 <= k < Extent(w, n) ensures s[k] == t[k] {
        SameLanesSameByte(stack, a, b, w, n, k);
      }
      assert s == t;
    }
  }

  lemma {:induction false} SameLanesSameByte(stack: seq<u64>, a: nat, b: nat, w: nat, n: nat, k: nat)
    requires w in {1, 2, 4, 8} && Fits(stack, a, Extent(w, n)) && Fits(stack, b, Extent(w, n)) && k < Extent(w, n)
    requires Lanes(stack, a, w, n) == Lanes(stack, b, w, n)
    ensures StackBytes(stack, 8 * a, Extent(w, n))[k] == StackBytes(stack, 8 * b, Extent(w, n))[k]
  {
    var i := FindLane(w, n, k);
    assert Lanes(stack, a, w, n)[i] == Lanes(stack, b, w, n)[i];
    SameLane(stack, a, stack, b, w, n, i);
    LaneSlice(stack, a, w, n, i);
    LaneSlice(stack, b, w, n, i);
    assert LaneBytes(stack, a, w, i)[k - Extent(w, i)] == LaneBytes(stack, b, w, i)[k - Extent(w, i)];
  }

  lemma {:induction false} WiderIsLonger(v: nat, w: nat, n: nat)
    requires v < w
    ensures Extent(v, n) <= Extent(w, n) && (n > 0 ==> Extent(v, n) < Extent(w, n))
    decreases n
  {
    if n > 0 {
      WiderIsLonger(v, w, n - 1);
    }
  }

  /** Vectors whose bytes differ have different lanes, and the other way round. */
  lemma LanesEqualIffBytes(sh: Shape, stack: seq<u64>, a: nat, b: nat)
    requires LaneWidth(sh.width) == 8 && Fits(stack, a, Extent(8, sh.len)) && Fits(stack, b, Extent(8, sh.len))
    ensures LanesEqual(sh, stack, a, b)
            <==> StackBytes(stack, 8 * a, Extent(8, sh.len)) == StackBytes(stack, 8 * b, Extent(8, sh.len))
  {
    SameIffLanesEqual(Shape(sh.len, 8), stack, a, b);
  }

  /** All zeroes but for one byte. */
  ghost predicate OneByte(stack: seq<u64>, o: nat) {
    o < 8 * |stack| && forall k :: 0 <= k < 8 * |stack| ==> StackByte(stack, k) == if k == o then 1 else 0
  }

  /** Narrower widths leave the last byte out of the comparison. */
  lemma {:induction false} NarrowMisjudges(sh: Shape, stack: seq<u64>)
    requires sh.width < 8 && sh.width !in {1, 2, 4} && sh.len > 0
    requires |stack| == 2 * sh.len && OneByte(stack, 16 * sh.len - 1)
    ensures BothFit(sh, stack, 0, sh.len)
    ensures Same(sh, stack, 0, sh.len) == Some(true) && !LanesEqual(sh, stack, 0, sh.len)
  {
    var n := sh.len;
    ExtentIs(8, n);
    WiderIsLonger(sh.width, 8, n);
    SameZeroes(stack, 0, 8 * n, Extent(sh.width, n), 16 * n - 1);
    LanesEqualIffBytes(sh, stack, 0, n);
    DifferentByte(stack, 0, 8 * n, 8 * n, 8 * n - 1);
  }

  /** Greater widths compare bytes after the vectors. */
  lemma {:induction false} WideMisjudges(sh: Shape, b: nat, stack: seq<u64>)
    requires sh.width > 8 && sh.len > 0 && b == Extent(sh.width, sh.len)
    requires |stack| == 2 * b && OneByte(stack, 8 * sh.len)
    ensures BothFit(sh, stack, 0, b)
    ensures Same(sh, stack, 0, b) == Some(false) && LanesEqual(sh, stack, 0, b)
  {
    var n := sh.len;
    ExtentIs(8, n);
    WiderIsLonger(8, sh.width, n);
    LanesEqualIffBytes(sh, stack, 0, b);
    DifferentByte(stack, 0, 8 * b, b, 8 * n);
    SameZeroes(stack, 0, 8 * b, 8 * n, 8 * n);
  }

  lemma {:induction false} SameZeroes(stack: seq<u64>, p: nat, q: nat, n: nat, o: nat)
    requires p + n <= 8 * |stack| && q + n <= 8 * |stack| && !(p <= o < p + n) && !(q <= o < q + n)
    requires OneByte(stack, o)
    ensures StackBytes(stack, p, n) == StackBytes(stack, q, n)
  {
    var s, t := StackBytes(stack, p, n), StackBytes(stack, q, n);
    forall k | 0 <= k < n ensures s[k] == t[k] {
      assert StackByte(stack, p + k) == 0 && StackByte(stack, q + k) == 0;
    }
  }

  lemma {:induction false} DifferentByte(stack: seq<u64>, p: nat, q: nat, n: nat, k: nat)
    requires p + n <= 8 * |stack| && q + n <= 8 * |stack| && k < n
    requires StackByte(stack, p + k) != StackByte(stack, q + k)
    ensures StackBytes(stack, p, n) != StackBytes(stack, q, n)
  {
    assert StackBytes(stack, p, n)[k] != StackBytes(stack, q, n)[k];
  }

  /** Both vectors lie on the stack. */
  predicate BothFit(sh: Shape, stack: seq<u64>, a: int, b: int) {
    var n := Extent(LaneWidth(sh.width), sh.len);
    Fits(stack, a, n) && Fits(stack, b, n) && Same(sh, stack, a, b).Some?
  }

  /** Comparing for equality means that all lanes are equal, for all vectors, exactly when the element width is
      one of a lane's or the vectors are empty. */
  lemma SameIsLanewiseIff(sh: Shape)
    ensures (forall stack, a, b :: BothFit(sh, stack, a, b) ==>
               (Same(sh, stack, a, b) == Some(LanesEqual(sh, stack, a, b))))
            <==> sh.width in {1, 2, 4, 8} || sh.len == 0
  {
    if sh.width in {1, 2, 4, 8} {
      forall stack, a, b | BothFit(sh, stack, a, b)
        ensures Same(sh, stack, a, b) == Some(LanesEqual(sh, stack, a, b))
      {
        SameIffLanesEqual(sh, stack, a, b);
      }
    } else if sh.len == 0 {
      forall stack, a, b | BothFit(sh, stack, a, b)
        ensures Same(sh, stack, a, b) == Some(LanesEqual(sh, stack, a, b))
      {
        EmptyVectors(sh, stack, a, b);
      }
    } else if sh.width < 8 {
      var stack := StackWithByte(2 * sh.len, 16 * sh.len - 1);
      NarrowMisjudges(sh, stack);
    } else {
      var b := Extent(sh.width, sh.len);
      ExtentIs(8, sh.len);
      WiderIsLonger(8, sh.width, sh.len);
      var stack := StackWithByte(2 * b, 8 * sh.len);
      WideMisjudges(sh, b, stack);
    }
  }

  lemma EmptyVectors(sh: Shape, stack: seq<u64>, a: int, b: int)
    requires sh.len == 0 && BothFit(sh, stack, a, b)
    ensures Same(sh, stack, a, b) == Some(true) && LanesEqual(sh, stack, a, b)
  {
    var w := LaneWidth(sh.width);
    assert Lanes(stack, a, w, 0) == [] && Lanes(stack, b, w, 0) == [];
    assert StackBytes(stack, 8 * a, 0) == [] && StackBytes(stack, 8 * b, 0) == [];
  }

  // ----- when copying copies lanes -----

  /** The vectors lie on the stack and apart, at the width set and at the lanes' width. */
  predicate ApartAndFit(sh: Shape, stack: seq<u64>, a: int, b: int) {
    var n := Extent(LaneWidth(sh.width), sh.len);
    Fits(stack, a, n) && Fits(stack, b, n) && !Overlap(a, b, n) && Move(sh, stack, a, b).Some?
  }

  /** Every lane is copied, and no byte outside the destination changes. */
  ghost predicate CopiesLanes(sh: Shape, stack: seq<u64>, a: int, b: int)
    requires ApartAndFit(sh, stack, a, b)
  {
    var w, r := LaneWidth(sh.width), Move(sh, stack, a, b).value;
    Lanes(r, a, w, sh.len) == Lanes(stack, b, w, sh.len) && OnlyVector(stack, r, a, w, sh.len)
  }

  /** Copying a vector copies its lanes, for all vectors that do not overlap, exactly when the element width is
      one of a lane's or the vectors are empty. */
  lemma MoveIsLanewiseIff(sh: Shape)
    ensures (forall stack, a, b :: ApartAndFit(sh, stack, a, b) ==> CopiesLanes(sh, stack, a, b))
            <==> sh.width in {1, 2, 4, 8} || sh.len == 0
  {
    if sh.width in {1, 2, 4, 8} {
      forall stack, a, b | ApartAndFit(sh, stack, a, b) ensures CopiesLanes(sh, stack, a, b) {
        MoveCopiesLanes(sh, stack, a, b);
      }
    } else if sh.len == 0 {
      forall stack, a, b | ApartAndFit(sh, stack, a, b) ensures CopiesLanes(sh, stack, a, b) {
        EmptyCopied(sh, stack, a, b);
      }
    } else if sh.width < 8 {
      var stack := StackWithByte(2 * sh.len, 16 * sh.len - 1);
      NarrowMiscopies(sh, stack);
    } else {
      var b := Extent(sh.width, sh.len);
      ExtentIs(8, sh.len);
      WiderIsLonger(8, sh.width, sh.len);
      var stack := StackWithByte(2 * b, 8 * sh.len);
      WideMiscopies(sh, b, stack);
    }
  }

  lemma EmptyCopied(sh: Shape, stack: seq<u64>, a: int, b: int)
    requires sh.len == 0 && ApartAndFit(sh, stack, a, b)
    ensures CopiesLanes(sh, stack, a, b)
  {
    var w := LaneWidth(sh.width);
    assert StackBytes(stack, 8 * b, 0) == [];
    SetNothing(stack, 8 * a);
    assert Lanes(stack, a, w, 0) == [] && Lanes(stack, b, w, 0) == [];
  }

  /** Narrower widths leave the last byte behind. */
  lemma {:induction false} NarrowMiscopies(sh: Shape, stack: seq<u64>)
    requires sh.width < 8 && sh.width !in {1, 2, 4} && sh.len > 0
    requires |stack| == 2 * sh.len && OneByte(stack, 16 * sh.len - 1)
    ensures ApartAndFit(sh, stack, 0, sh.len) && !CopiesLanes(sh, stack, 0, sh.len)
  {
    ExtentIs(8, sh.len);
    WiderIsLonger(sh.width, 8, sh.len);
    NarrowMisjudges(sh, stack);
    SetSame(stack, 0, StackBytes(stack, 8 * sh.len, Extent(sh.width, sh.len)));
  }

  /** Greater widths write over bytes after the destination. */
  lemma {:induction false} WideMiscopies(sh: Shape, b: nat, stack: seq<u64>)
    requires sh.width > 8 && sh.len > 0 && b == Extent(sh.width, sh.len)
    requires |stack| == 2 * b && OneByte(stack, 8 * sh.len)
    ensures ApartAndFit(sh, stack, 0, b) && !CopiesLanes(sh, stack, 0, b)
  {
    var k := 8 * sh.len;
    ExtentIs(8, sh.len);
    WiderIsLonger(8, sh.width, sh.len);
    var bs := StackBytes(stack, 8 * b, b);
    BytesOfSet(stack, 0, bs, k);
    assert bs[k] == StackByte(stack, 8 * b + k);
  }

  lemma {:induction false} StackWithByte(cells: nat, o: nat) returns (stack: seq<u64>)
    requires o < 8 * cells
    ensures |stack| == cells && OneByte(stack, o)
  {
    var zeros := seq<u64>(cells, _ => 0);
    ZeroBytes(zeros);
    stack := SetStackBytes(zeros, o, [1]);
    forall k | 0 <= k < 8 * cells ensures StackByte(stack, k) == if k == o then 1 else 0 {
      BytesOfSet(zeros, o, [1], k);
    }
  }

  lemma {:induction false} ZeroBytes(stack: seq<u64>)
    requires forall c :: 0 <= c < |stack| ==> stack[c] == 0
    ensures forall k :: 0 <= k < 8 * |stack| ==> StackByte(stack, k) == 0
    decreases |stack|
  {
    if stack != [] {
      ZeroBytes(stack[..|stack| - 1]);
      assert LE(8, 0) == [0, 0, 0, 0, 0, 0, 0, 0];
      forall k | 0 <= k < 8 * |stack| ensures StackByte(stack, k) == 0 {
        if k < 8 * (|stack| - 1) {
          assert StackByte(stack, k) == StackByte(stack[..|stack| - 1], k);
        }
      }
    }
  }

  // ----- the loops of the machine -----

  /** The next lane of a partly written vector is still the old one. */
  lemma {:induction false} LaneUntouched(stack: seq<u64>, a: nat, w: nat, bs: seq<byte>, b: nat, n: nat, i: nat)
    requires i < n && |bs| == Extent(w, i) && Fits(stack, a, Extent(w, n)) && Fits(stack, b, Extent(w, n))
    requires a == b || !Overlap(a, b, Extent(w, n))
    ensures Extent(w, i) + w <= Extent(w, n)
    ensures LaneBytes(SetStackBytes(stack, 8 * a, bs), b, w, i) == LaneBytes(stack, b, w, i)
  {
    LaneInside(w, i, n);
    BytesElsewhere(stack, 8 * a, bs, 8 * b + Extent(w, i), w);
  }

  /** The first lanes have been written. */
  ghost predicate Partly(stack: seq<u64>, cells: seq<u64>, a: int, w: nat, n: nat, i: nat, bs: seq<byte>) {
    && Fits(stack, a, Extent(w, n)) && i <= n && |bs| == Extent(w, i) <= Extent(w, n)
    && cells == SetStackBytes(stack, 8 * a, bs)
  }

  lemma {:induction false} NothingWritten(stack: seq<u64>, a: nat, w: nat, n: nat)
    requires Fits(stack, a, Extent(w, n))
    ensures Partly(stack, stack, a, w, n, 0, [])
  {
    SetNothing(stack, 8 * a);
  }

  /** The next lane is still the old one, and writing it adds it. */
  lemma {:induction false} NextLane(
    stack: seq<u64>, cells: seq<u64>, a: int, w: nat, n: nat, i: nat, bs: seq<byte>, c: seq<byte>, bs': seq<byte>)
    requires Partly(stack, cells, a, w, n, i, bs) && i < n && |c| == w && bs' == bs + c
    ensures |cells| == |stack| && 8 * a + Extent(w, i) + w <= 8 * |cells|
    ensures Partly(stack, SetStackBytes(cells, 8 * a + Extent(w, i), c), a, w, n, i + 1, bs')
  {
    LaneInside(w, i, n);
    SetInParts(stack, 8 * a, bs, c);
  }

  lemma PackSnoc(w: nat, vs: seq<u64>, v: u64)
    ensures Pack(w, vs + [v]) == Pack(w, vs) + LE(w, v)
  {
    assert (vs + [v])[..|vs|] == vs;
  }

  /** The first lanes have been computed and written. */
  ghost predicate Done(g: nat -> Option<u64>, stack: seq<u64>, cells: seq<u64>, a: int, w: nat, n: nat, vs: seq<u64>) {
    Partly(stack, cells, a, w, n, |vs|, Pack(w, vs)) && Collect(g, |vs|) == Some(vs)
  }

  method WriteLane(ghost g: nat -> Option<u64>, ghost stack: seq<u64>, cells: seq<u64>, a: int, w: nat, ghost n: nat,
                   off: nat, ghost vs: seq<u64>, v: u64)
    returns (r: seq<u64>)
    requires |vs| < n && off == Extent(w, |vs|) && Done(g, stack, cells, a, w, n, vs) && g(|vs|) == Some(v)
    ensures Done(g, stack, r, a, w, n, vs + [v]) && off + w == Extent(w, |vs| + 1)
  {
    PackSnoc(w, vs, v);
    NextLane(stack, cells, a, w, n, |vs|, Pack(w, vs), LE(w, v), Pack(w, vs + [v]));
    r := SetStackBytes(cells, 8 * a + off, LE(w, v));
  }

  /** What is read of a lane not yet written. */
  lemma {:induction false} LaneRead(
    w: nat, n: nat, stack: seq<u64>, cells: seq<u64>, a: int, b: int, i: nat, bs: seq<byte>)
    requires w in {1, 2, 4, 8} && Partly(stack, cells, a, w, n, i, bs) && i < n
    requires Fits(stack, b, Extent(w, n)) && (a == b || !Overlap(a, b, Extent(w, n)))
    ensures |cells| == |stack| && Lane(cells, b, w, n, i) == Lane(stack, b, w, n, i)
  {
    LaneUntouched(stack, a, w, bs, b, n, i);
  }

  /** Lane by lane, in place. */
  method ZipLoop(f: LaneFn, w: nat, n: nat, stack: seq<u64>, a: int, b: int) returns (r: Option<seq<u64>>)
    requires w in {1, 2, 4, 8}
    ensures r == Zip(f, w, n, stack, a, b)
  {
    if !Fits(stack, a, Extent(w, n)) || !Fits(stack, b, Extent(w, n)) || Overlap(a, b, Extent(w, n)) {
      return None;
    }
    ghost var g := ZipFn(f, w, n, stack, a, b);
    ghost var vs: seq<u64> := [];
    var cells, off, i := stack, 0, 0;
    NothingWritten(stack, a, w, n);
    while i < n
      invariant i == |vs| <= n && off == Extent(w, i)
      invariant Done(g, stack, cells, a, w, n, vs)
    {
      LaneRead(w, n, stack, cells, a, a, i, Pack(w, vs));
      LaneRead(w, n, stack, cells, a, b, i, Pack(w, vs));
      var v := f(Lane(cells, a, w, n, i), Lane(cells, b, w, n, i));
      assert v == g(i);
      if v.None? {
        CollectAt(g, n, i);
        return None;
      }
      cells := WriteLane(g, stack, cells, a, w, n, off, vs, v.value);
      vs := vs + [v.value];
      off, i := off + w, i + 1;
    }
    r := Some(cells);
  }

  method BinaryLoop(op: Op2, sh: Shape, stack: seq<u64>, a: int, b: int) returns (r: Option<seq<u64>>)
    ensures r == Binary(op, sh, stack, a, b)
  {
    r := ZipLoop(FnOf(op, LaneWidth(sh.width)), LaneWidth(sh.width), sh.len, stack, a, b);
  }

  method MapLoop(f: u64 -> Option<u64>, w: nat, n: nat, stack: seq<u64>, a: int) returns (r: Option<seq<u64>>)
    requires w in {1, 2, 4, 8}
    ensures r == Map(f, w, n, stack, a)
  {
    if !Fits(stack, a, Extent(w, n)) {
      return None;
    }
    ghost var g := MapFn(f, w, n, stack, a);
    ghost var vs: seq<u64> := [];
    var cells, off, i := stack, 0, 0;
    NothingWritten(stack, a, w, n);
    while i < n
      invariant i == |vs| <= n && off == Extent(w, i)
      invariant Done(g, stack, cells, a, w, n, vs)
    {
      LaneRead(w, n, stack, cells, a, a, i, Pack(w, vs));
      var v := f(Lane(cells, a, w, n, i));
      if v.None? {
        CollectAt(g, n, i);
        return None;
      }
      cells := WriteLane(g, stack, cells, a, w, n, off, vs, v.value);
      vs := vs + [v.value];
      off, i := off + w, i + 1;
    }
    r := Some(cells);
  }

  method UnaryLoop(op: Op1, sh: Shape, stack: seq<u64>, a: int) returns (r: Option<seq<u64>>)
    ensures r == Unary(op, sh, stack, a)
  {
    r := MapLoop(UnaryFnOf(op, LaneWidth(sh.width)), LaneWidth(sh.width), sh.len, stack, a);
  }

  /** Counts the lanes in which the order holds. */
  method OrderLoop(op: Op2, sh: Shape, stack: seq<u64>, a: int, b: int) returns (r: Option<bool>)
    ensures r == Ordered(op, sh, stack, a, b)
  {
    var w := LaneWidth(sh.width);
    var n := Extent(w, sh.len);
    if !IsOrder(op) || !Fits(stack, a, n) || !Fits(stack, b, n) {
      return None;
    }
    var c, i := 0, 0;
    while i < sh.len
      invariant 0 <= c <= i <= sh.len
      invariant c == i <==> HoldsUpTo(op, w, sh.len, stack, a, b, i)
    {
      if HoldsIn(op, w, sh.len, stack, a, b, i) {
        c := c + 1;
      }
      i := i + 1;
    }
    r := Some(c == sh.len);
  }
}
