/** Fixed-width words and their little-endian byte representation. */
module Words {

  datatype Option<+T> = None | Some(value: T) {
    function GetOr(default: T): T {
      if None? then default else value
    }
  }

  type byte = x: int | 0 <= x < 256

  const TWO16: int := 0x1_0000
  const TWO32: int := 0x1_0000_0000
  const TWO64: int := 0x1_0000_0000_0000_0000

  type u64 = x: int | 0 <= x < 0x1_0000_0000_0000_0000

  /** 256 to the power `n`: the number of values an `n`-byte word can hold. */
  function Pow256(n: nat): (p: nat)
    ensures p > 0
  {
    if n == 0 then 1 else 256 * Pow256(n - 1)
  }

  /** The `n` low-order bytes of `v`, lowest first. */
  function LE(n: nat, v: nat): (s: seq<byte>)
    ensures |s| == n
    decreases n, v
  {
    if n == 0 then [] else [v % 256] + LE(n - 1, v / 256)
  }

  /** The word whose bytes, lowest first, are `s`. */
  function FromLE(s: seq<byte>): nat
    decreases |s|
  {
    if s == [] then 0 else s[0] + 256 * FromLE(s[1..])
  }

  /** Reading back a written word gives the word truncated to its width. */
  lemma {:induction false} FromLEofLE(n: nat, v: nat)
    ensures FromLE(LE(n, v)) == v % Pow256(n)
    decreases n
  {
    if n > 0 {
      var s := LE(n, v);
      assert s[0] == v % 256 && s[1..] == LE(n - 1, v / 256);
      FromLEofLE(n - 1, v / 256);
      ModSplit(v, Pow256(n - 1));
    }
  }

  /** Writing back a read word restores its bytes. */
  lemma {:induction false} LEofFromLE(s: seq<byte>)
    ensures LE(|s|, FromLE(s)) == s
    decreases |s|
  {
    if s != [] {
      var t := FromLE(s[1..]);
      assert FromLE(s) == s[0] + 256 * t;
      assert FromLE(s) % 256 == s[0] && FromLE(s) / 256 == t;
      LEofFromLE(s[1..]);
    }
  }

  lemma {:induction false} FromLEBound(s: seq<byte>)
    ensures FromLE(s) < Pow256(|s|)
    decreases |s|
  {
    if s != [] {
      FromLEBound(s[1..]);
    }
  }

  /** Horner step: v mod 256p from the low byte and the rest. */
  lemma ModSplit(v: nat, p: nat)
    requires p > 0
    ensures v % (256 * p) == v % 256 + 256 * ((v / 256) % p)
  {
    var q, r := v / 256, v % 256;
    var a, b := q / p, q % p;
    assert q == a * p + b;
    assert v == 256 * q + r;
    assert v == a * (256 * p) + (256 * b + r) by {
      assert 256 * (a * p) == a * (256 * p);
    }
    ModUnique(v, 256 * p, a, 256 * b + r);
  }

  lemma ModUnique(v: int, m: int, a: int, b: int)
    requires 0 <= b < m && v == a * m + b
    ensures v % m == b && v / m == a
  {
    var d := v / m - a;
    assert d * m == b - v % m by {
      assert v == (v / m) * m + v % m;
      assert (v / m) * m - a * m == d * m;
    }
    NoSmallMultiple(d, m);
  }

  /** The only multiple of `m` strictly between -m and m is 0. */
  lemma NoSmallMultiple(d: int, m: int)
    requires -m < d * m < m
    ensures d == 0
  {
    if d >= 1 {
      MulAtLeast(d, m);
    } else if d <= -1 {
      MulAtLeast(-d, m);
    }
  }

  lemma MulAtLeast(d: int, m: int)
    requires d >= 1 && m >= 0
    ensures d * m >= m
    ensures (-d) * m == -(d * m)
  {
    assert (d - 1) * m >= 0;
  }

  /** A slice of a slice is a slice. */
  lemma SliceOfSlice<T>(s: seq<T>, p: nat, n: nat, k: nat, m: nat)
    requires k + m <= n && p + n <= |s|
    ensures s[p..p + n][k..k + m] == s[p + k..p + k + m]
  {
    var a, b := s[p..p + n], s[p + k..p + k + m];
    assert forall j :: 0 <= j < m ==> a[k..k + m][j] == a[k + j] == b[j];
  }

  /** `part` sits in `mem` at `base`. */
  predicate PlacedAt(mem: seq<byte>, base: nat, part: seq<byte>) {
    base + |part| <= |mem| && mem[base..base + |part|] == part
  }

  lemma PlacedSlice(mem: seq<byte>, base: nat, part: seq<byte>, p: nat, n: nat)
    requires PlacedAt(mem, base, part) && p + n <= |part|
    ensures PlacedAt(mem, base + p, part[p..p + n])
  {
    SliceOfSlice(mem, base, |part|, p, n);
  }

  lemma PlacedSplit(mem: seq<byte>, base: nat, a: seq<byte>, b: seq<byte>)
    requires PlacedAt(mem, base, a + b)
    ensures PlacedAt(mem, base, a) && PlacedAt(mem, base + |a|, b)
  {
    PlacedSlice(mem, base, a + b, 0, |a|);
    PlacedSlice(mem, base, a + b, |a|, |b|);
    assert (a + b)[0..|a|] == a && (a + b)[|a|..|a| + |b|] == b;
  }

  lemma Pow256Values()
    ensures Pow256(0) == 1 && Pow256(1) == 256 && Pow256(2) == TWO16
    ensures Pow256(4) == TWO32 && Pow256(8) == TWO64
  {
    assert Pow256(3) == 256 * Pow256(2);
    assert Pow256(5) == 256 * Pow256(4);
    assert Pow256(6) == 256 * Pow256(5);
    assert Pow256(7) == 256 * Pow256(6);
  }

  /** The value of an unsigned word of modulus `m`, read as two's complement. */
  function Signed(m: int, v: int): (r: int)
    requires 0 <= v < m
    ensures -m <= 2 * r < m && (r == v || r == v - m)
  {
    if 2 * v < m then v else v - m
  }

  /** Two's-complement truncation: the signed value of `v` modulo `m`. */
  function Wrap(m: int, v: int): int
    requires m > 0
  {
    Signed(m, v % m)
  }

  /** Truncating a value that already fits changes nothing. */
  lemma WrapFits(m: int, v: int)
    requires m > 0 && -m <= 2 * v < m
    ensures Wrap(m, v) == v
  {
    if v >= 0 {
      ModUnique(v, m, 0, v);
    } else {
      ModUnique(v, m, -1, v + m);
    }
  }

  /** Rounding up to a multiple of `align`. */
  function AlignSize(size: nat, align: nat): (r: nat)
    requires align > 0
    ensures size <= r < size + align && r % align == 0
  {
    var r := ((size + (align - 1)) / align) * align;
    ModUnique(r, align, (size + (align - 1)) / align, 0);
    assert size + (align - 1) == r + (size + (align - 1)) % align;
    r
  }

  function Pow2(n: nat): (p: nat)
    ensures p > 0
  {
    if n == 0 then 1 else 2 * Pow2(n - 1)
  }

  lemma {:induction false} Pow2Add(m: nat, n: nat)
    ensures Pow2(m + n) == Pow2(m) * Pow2(n)
    decreases m
  {
    if m > 0 {
      Pow2Add(m - 1, n);
      assert Pow2(m) * Pow2(n) == 2 * (Pow2(m - 1) * Pow2(n));
    }
  }

  lemma Pow2Is64(n: nat)
    requires n == 8
    ensures Pow2(n) == 256 && Pow2(4 * n) == TWO32 && Pow2(8 * n) == TWO64
  {
    Pow2Add(n, n);
    Pow2Add(2 * n, 2 * n);
    Pow2Add(4 * n, 4 * n);
  }

  // ----- bits -----

  /** Bit `k` of a word. */
  predicate Bit(v: nat, k: nat)
    decreases k
  {
    if k == 0 then v % 2 == 1 else Bit(v / 2, k - 1)
  }

  /** It is the binary digit of that weight. */
  lemma {:induction false} BitIsDigit(v: nat, k: nat)
    ensures Bit(v, k) <==> (v / Pow2(k)) % 2 == 1
    decreases k
  {
    if k > 0 {
      DivTwice(v, Pow2(k - 1));
      BitIsDigit(v / 2, k - 1);
    }
  }

  /** The word of `n` bits that `f` makes of the bits of `x` and `y`, lowest first. */
  function Bitwise(f: (bool, bool) -> bool, n: nat, x: nat, y: nat): (r: nat)
    ensures r < Pow2(n)
    decreases n, x, y
  {
    if n == 0 then 0
    else 2 * Bitwise(f, n - 1, x / 2, y / 2) + if f(x % 2 == 1, y % 2 == 1) then 1 else 0
  }

  function Wordwise(f: (bool, bool) -> bool, x: u64, y: u64): u64 {
    Pow2Is64(8);
    Bitwise(f, 64, x, y)
  }

  function BitAnd(x: u64, y: u64): u64 { Wordwise((a, b) => a && b, x, y) }
  function BitOr(x: u64, y: u64): u64 { Wordwise((a, b) => a || b, x, y) }
  function BitXor(x: u64, y: u64): u64 { Wordwise((a, b) => a != b, x, y) }

  /** Each bit is made of the bits in its place. */
  lemma {:induction false} BitOfBitwise(f: (bool, bool) -> bool, n: nat, x: nat, y: nat, k: nat)
    requires k < n
    ensures Bit(Bitwise(f, n, x, y), k) == f(Bit(x, k), Bit(y, k))
    decreases n
  {
    if k > 0 {
      BitOfBitwise(f, n - 1, x / 2, y / 2, k - 1);
    }
  }

  lemma DivTwice(v: nat, p: nat)
    requires p > 0
    ensures v / (2 * p) == (v / 2) / p
  {
    var q, r := v / (2 * p), v % (2 * p);
    assert v == q * (2 * p) + r;
    assert v / 2 == q * p + r / 2;
    ModUnique(v / 2, p, q, r / 2);
  }

  /** Words are told apart by their bits. */
  lemma {:induction false} SameBits(n: nat, x: nat, y: nat)
    requires x < Pow2(n) && y < Pow2(n) && forall k :: 0 <= k < n ==> Bit(x, k) == Bit(y, k)
    ensures x == y
    decreases n
  {
    if n > 0 {
      assert Bit(x, 0) == Bit(y, 0);
      forall k | 0 <= k < n - 1 ensures Bit(x / 2, k) == Bit(y / 2, k) {
        assert Bit(x, k + 1) == Bit(y, k + 1);
      }
      SameBits(n - 1, x / 2, y / 2);
    }
  }

  lemma ModSmall(v: nat, m: nat)
    requires m > 0
    ensures v < m ==> v % m == v
  {
    if v < m {
      ModUnique(v, m, 0, v);
    }
  }

  /** Unsigned 32-bit arithmetic. */
  function U32(v: nat): (r: nat)
    ensures r < TWO32 && (v < TWO32 ==> r == v)
  {
    ModSmall(v, TWO32);
    v % TWO32
  }

  lemma AddU32(a: nat, b: nat)
    ensures U32(U32(a) + b) == U32(a + b) && U32(a + U32(b)) == U32(a + b)
  {
    ModUnique(a + b, TWO32, a / TWO32 + (U32(a) + b) / TWO32, (U32(a) + b) % TWO32);
    ModUnique(a + b, TWO32, b / TWO32 + (a + U32(b)) / TWO32, (a + U32(b)) % TWO32);
  }
}
