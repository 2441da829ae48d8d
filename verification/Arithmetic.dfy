/** What the integer instructions compute, by the laws that single them out. */
module Arithmetic {
  import opened Words
  import opened Isa
  import opened Machine

  /** Division and remainder are those of unsigned numbers, and undefined for 0 only. */
  lemma Division(x: u64, y: u64)
    ensures Alu(Idiv, x, y).None? <==> y == 0
    ensures Alu(Mod, x, y).None? <==> y == 0
    ensures y != 0 ==> Alu(Mod, x, y).value < y
                       && Alu(Idiv, x, y).value * y + Alu(Mod, x, y).value == x
  {
    if y != 0 {
      assert x == (x / y) * y + x % y;
    }
  }

  /** Subtraction undoes addition, and addition subtraction, wrap-around included. */
  lemma SubUndoesAdd(x: u64, y: u64)
    ensures Alu(Sub, Alu(Add, x, y).value, y) == Some(x)
    ensures Alu(Add, Alu(Sub, x, y).value, y) == Some(x)
  {
    var s, d := x + y, x - y;
    ModUnique(s, TWO64, if s < TWO64 then 0 else 1, if s < TWO64 then s else s - TWO64);
    ModUnique(d, TWO64, if d >= 0 then 0 else -1, if d >= 0 then d else d + TWO64);
    var s', d' := s % TWO64, d % TWO64;
    ModUnique(s' - y, TWO64, if s' >= y then 0 else -1, x);
    ModUnique(d' + y, TWO64, if d' + y < TWO64 then 0 else 1, x);
  }

  /** The comparisons are total orders, signed and unsigned, with `cmp` as their equality. */
  lemma Orders(x: u64, y: u64)
    ensures Compare(Ile, x, y) == Some(!Compare(Ilt, y, x).value)
    ensures Compare(Ule, x, y) == Some(!Compare(Ult, y, x).value)
    ensures Compare(Cmp, x, y) == Some(!Compare(Ilt, x, y).value && !Compare(Ilt, y, x).value)
    ensures Compare(Cmp, x, y) == Some(!Compare(Ult, x, y).value && !Compare(Ult, y, x).value)
    ensures !(Compare(Ilt, x, y).value && Compare(Ilt, y, x).value)
  {
  }

  /** The two agree on words of the same sign, and are opposite on words of different signs. */
  lemma SignedAgainstUnsigned(x: u64, y: u64)
    ensures Compare(Ilt, x, y)
            == if (x < TWO64 / 2) == (y < TWO64 / 2) then Compare(Ult, x, y) else Compare(Ult, y, x)
  {
  }

  /** Shifting left and back keeps the bits that were not shifted out. */
  lemma ShiftBack(x: u64, n: u64)
    requires n < 64
    ensures Alu(Srl, Alu(Sll, x, n).value, n) == Some(x % Pow2(64 - n))
  {
    Pow2Add(n, 64 - n);
    Pow2Is64(8);
    Shifted(x, Pow2(n), Pow2(64 - n));
  }

  lemma Shifted(x: u64, p: nat, q: nat)
    requires p > 0 && q > 0 && p * q == TWO64
    ensures (x * p) % TWO64 == (x % q) * p && ((x % q) * p) / p == x % q
  {
    var a, b := x / q, x % q;
    Distribute(a, q, b, p);
    MulAtLeast(q - b, p);
    assert (q - b) * p == q * p - b * p;
    ModUnique(x * p, TWO64, a, b * p);
    ModUnique(b * p, p, b, 0);
  }

  lemma Distribute(a: nat, q: nat, b: nat, p: nat)
    ensures (a * q + b) * p == a * (p * q) + b * p
  {
    assert (a * q + b) * p == (a * q) * p + b * p;
    assert (a * q) * p == a * (q * p);
  }

  /** The arithmetic shift divides the signed value, rounding down. */
  lemma ArithmeticShift(x: u64, n: u64)
    requires n < 64
    ensures var r := Signed(TWO64, Alu(Sra, x, n).value);
            r * Pow2(n) <= Signed(TWO64, x) < (r + 1) * Pow2(n)
  {
    Floor(Signed(TWO64, x), Pow2(n));
  }

  lemma Floor(v: int, p: int)
    requires p > 0 && -TWO64 <= 2 * v < TWO64
    ensures var q := Wrap(TWO64, v / p); q * p <= v < (q + 1) * p
  {
    var q := v / p;
    assert v == q * p + v % p;
    QuotientBounds(v, p);
    WrapFits(TWO64, q);
    assert (q + 1) * p == q * p + p;
  }

  lemma QuotientBounds(v: int, p: int)
    requires p > 0
    ensures v >= 0 ==> 0 <= v / p <= v
    ensures v < 0 ==> v <= v / p <= -1
  {
    var q := v / p;
    assert q * p <= v < q * p + p by {
      assert v == q * p + v % p;
    }
    if q > 0 {
      MulAtLeast(q, p);
      MulAtLeast(p, q);
    }
    if q < 0 {
      MulAtLeast(-q, p);
    }
    if v < 0 && q < v {
      MulAtLeast(v - q, p);
      MulAtLeast(p, -v);
    }
  }

  // ----- instructions -----

  /** The instruction leaves `v` in register `a` and changes nothing else. */
  predicate Leaves(lay: Layout, mod: nat, i: Instr, c: Core, a: int, v: int) {
    HasReg(c, a) && 0 <= v < TWO64 && Data(lay, mod, i, c) == Done(SetReg(c, a, v))
  }

  /** It sets the condition to `t` and changes nothing else. */
  predicate Decides(lay: Layout, mod: nat, i: Instr, c: Core, t: bool) {
    Data(lay, mod, i, c) == Done(c.(cond := t))
  }

  /** The same number but for a multiple of 2^64. */
  predicate Same64(v: int, w: int) {
    (v - w) % TWO64 == 0
  }

  lemma Truncates(v: int)
    ensures 0 <= v % TWO64 < TWO64 && Same64(v % TWO64, v)
  {
    ModUnique(v % TWO64 - v, TWO64, -(v / TWO64), 0);
  }

  /** Moves copy the source register, or the constant. */
  lemma Moves(lay: Layout, mod: nat, a: int, b: int, imm: u64, c: Core)
    requires HasReg(c, a) && HasReg(c, b)
    ensures Leaves(lay, mod, I2(Mov, a, b), c, a, Reg(c, b))
    ensures Leaves(lay, mod, IQ(a, imm), c, a, imm)
    ensures Data(lay, mod, I0(Nop), c) == Done(c)
  {
  }

  /** Sum, difference and product, of the destination and the source, modulo 2^64. */
  lemma Sums(lay: Layout, mod: nat, op: Op2, a: int, b: int, c: Core) returns (v: u64)
    requires HasReg(c, a) && HasReg(c, b) && op in {Add, Sub, Mul}
    ensures Leaves(lay, mod, I2(op, a, b), c, a, v)
    ensures op == Add ==> Same64(v, Reg(c, a) + Reg(c, b))
    ensures op == Sub ==> Same64(v, Reg(c, a) - Reg(c, b))
    ensures op == Mul ==> Same64(v, Reg(c, a) * Reg(c, b))
  {
    v := Alu(op, Reg(c, a), Reg(c, b)).value;
    if op == Add {
      Truncates(Reg(c, a) + Reg(c, b));
    } else if op == Sub {
      Truncates(Reg(c, a) - Reg(c, b));
    } else {
      Truncates(Reg(c, a) * Reg(c, b));
    }
  }

  /** Quotient and remainder of unsigned numbers; undefined for divisor 0. */
  lemma Divides(lay: Layout, mod: nat, a: int, b: int, c: Core) returns (q: u64, r: u64)
    requires HasReg(c, a) && HasReg(c, b)
    ensures Reg(c, b) == 0 ==> Data(lay, mod, I2(Idiv, a, b), c) == Stuck == Data(lay, mod, I2(Op2.Mod, a, b), c)
    ensures Reg(c, b) != 0 ==>
              && Leaves(lay, mod, I2(Idiv, a, b), c, a, q) && Leaves(lay, mod, I2(Op2.Mod, a, b), c, a, r)
              && r < Reg(c, b) && q * Reg(c, b) + r == Reg(c, a)
  {
    Division(Reg(c, a), Reg(c, b));
    q, r := 0, 0;
    if Reg(c, b) != 0 {
      q, r := Alu(Idiv, Reg(c, a), Reg(c, b)).value, Alu(Op2.Mod, Reg(c, a), Reg(c, b)).value;
    }
  }

  /** The bitwise instructions, bit by bit. */
  lemma BitByBit(lay: Layout, mod: nat, op: Op2, a: int, b: int, c: Core, k: nat) returns (v: u64)
    requires HasReg(c, a) && HasReg(c, b) && op in {And, Or, Xor} && k < 64
    ensures Leaves(lay, mod, I2(op, a, b), c, a, v)
    ensures op == And ==> (Bit(v, k) <==> Bit(Reg(c, a), k) && Bit(Reg(c, b), k))
    ensures op == Or ==> (Bit(v, k) <==> Bit(Reg(c, a), k) || Bit(Reg(c, b), k))
    ensures op == Xor ==> (Bit(v, k) <==> Bit(Reg(c, a), k) != Bit(Reg(c, b), k))
  {
    v := AluBits(op, Reg(c, a), Reg(c, b), k);
    AluLeaves(lay, mod, op, a, b, c, v);
  }

  lemma AluLeaves(lay: Layout, mod: nat, op: Op2, a: int, b: int, c: Core, v: u64)
    requires HasReg(c, a) && HasReg(c, b) && Alu(op, Reg(c, a), Reg(c, b)) == Some(v)
    ensures Leaves(lay, mod, I2(op, a, b), c, a, v)
  {
  }

  lemma AluBits(op: Op2, x: u64, y: u64, k: nat) returns (v: u64)
    requires op in {And, Or, Xor} && k < 64
    ensures Alu(op, x, y) == Some(v)
    ensures op == And ==> (Bit(v, k) <==> Bit(x, k) && Bit(y, k))
    ensures op == Or ==> (Bit(v, k) <==> Bit(x, k) || Bit(y, k))
    ensures op == Xor ==> (Bit(v, k) <==> Bit(x, k) != Bit(y, k))
  {
    v := Alu(op, x, y).value;
    BitsOf(x, y, k);
  }

  lemma BitsOf(x: u64, y: u64, k: nat)
    requires k < 64
    ensures Bit(BitAnd(x, y), k) <==> Bit(x, k) && Bit(y, k)
    ensures Bit(BitOr(x, y), k) <==> Bit(x, k) || Bit(y, k)
    ensures Bit(BitXor(x, y), k) <==> Bit(x, k) != Bit(y, k)
  {
    BitOfBitwise((a, b) => a && b, 64, x, y, k);
    BitOfBitwise((a, b) => a || b, 64, x, y, k);
    BitOfBitwise((a, b) => a != b, 64, x, y, k);
  }

  /** Negation gives what makes 0 together with the operand, complement the other bits, and `setc` the condition. */
  lemma Inverts(lay: Layout, mod: nat, a: int, c: Core, k: nat) returns (v: u64, w: u64)
    requires HasReg(c, a) && k < 64
    ensures Leaves(lay, mod, I1(Neg, a), c, a, v) && Same64(Reg(c, a) + v, 0)
    ensures Leaves(lay, mod, I1(Not, a), c, a, w) && (Bit(w, k) <==> !Bit(Reg(c, a), k))
    ensures Leaves(lay, mod, I1(Setc, a), c, a, if c.cond then 1 else 0)
  {
    v, w := (TWO64 - Reg(c, a)) % TWO64, TWO64 - 1 - Reg(c, a);
    Negated(Reg(c, a));
    Complemented(Reg(c, a), k);
    UnaryLeaves(lay, mod, a, c);
  }

  lemma UnaryLeaves(lay: Layout, mod: nat, a: int, c: Core)
    requires HasReg(c, a)
    ensures Leaves(lay, mod, I1(Neg, a), c, a, (TWO64 - Reg(c, a)) % TWO64)
    ensures Leaves(lay, mod, I1(Not, a), c, a, TWO64 - 1 - Reg(c, a))
    ensures Leaves(lay, mod, I1(Setc, a), c, a, if c.cond then 1 else 0)
  {
  }

  lemma Complemented(x: u64, k: nat)
    requires k < 64
    ensures Bit(TWO64 - 1 - x, k) <==> !Bit(x, k)
  {
    Pow2Is64(8);
    Complement(64, x, k);
  }

  lemma Negated(x: u64)
    ensures Same64(x + (TWO64 - x) % TWO64, 0)
  {
    ModUnique(TWO64 - x, TWO64, if x == 0 then 1 else 0, if x == 0 then 0 else TWO64 - x);
  }

  lemma {:induction false} Complement(n: nat, x: nat, k: nat)
    requires k < n && x < Pow2(n)
    ensures Bit(Pow2(n) - 1 - x, k) <==> !Bit(x, k)
    decreases n
  {
    var y := Pow2(n) - 1 - x;
    assert Pow2(n) == 2 * Pow2(n - 1);
    assert y % 2 == 1 - x % 2 && y / 2 == Pow2(n - 1) - 1 - x / 2;
    if k > 0 {
      Complement(n - 1, x / 2, k - 1);
    }
  }

  /** Shifts: undefined by 64 bits or more; else the product truncated, and the quotients rounded down. */
  lemma Shifts(lay: Layout, mod: nat, op: Op2, a: int, b: int, c: Core) returns (v: u64)
    requires HasReg(c, a) && HasReg(c, b) && op in {Sll, Srl, Sra}
    ensures Reg(c, b) >= 64 ==> Data(lay, mod, I2(op, a, b), c) == Stuck
    ensures Reg(c, b) < 64 ==>
              var x, p := Reg(c, a), Pow2(Reg(c, b));
              && Leaves(lay, mod, I2(op, a, b), c, a, v)
              && (op == Sll ==> Same64(v, x * p))
              && (op == Srl ==> v * p <= x < (v + 1) * p)
              && (op == Sra ==> Signed(TWO64, v) * p <= Signed(TWO64, x) < (Signed(TWO64, v) + 1) * p)
  {
    var x, y := Reg(c, a), Reg(c, b);
    v := 0;
    if y < 64 {
      v := Alu(op, x, y).value;
      if op == Sll {
        Truncates(x * Pow2(y));
      } else if op == Srl {
        RoundsDown(x, Pow2(y));
      } else {
        ArithmeticShift(x, y);
      }
    }
  }

  lemma RoundsDown(x: int, p: int)
    requires p > 0
    ensures (x / p) * p <= x < (x / p + 1) * p
  {
    assert x == (x / p) * p + x % p;
    assert (x / p + 1) * p == (x / p) * p + p;
  }

  /** `s` is the word `x` as a signed number. */
  predicate IsSigned(s: int, x: u64) {
    -TWO64 <= 2 * s < TWO64 && Same64(s, x)
  }

  lemma SignedIs(s: int, x: u64)
    requires IsSigned(s, x)
    ensures Signed(TWO64, x) == s
  {
    var t := Signed(TWO64, x);
    var q := (s - x) / TWO64;
    assert s - x == q * TWO64;
    if t == x {
      NoSmallMultiple(q, TWO64);
    } else {
      NoSmallMultiple(q + 1, TWO64);
    }
  }

  /** Comparisons set the condition as the numbers compare, unsigned or signed, and nothing else. */
  lemma Comparisons(lay: Layout, mod: nat, a: int, b: int, c: Core, s: int, t: int)
    requires HasReg(c, a) && HasReg(c, b) && IsSigned(s, Reg(c, a)) && IsSigned(t, Reg(c, b))
    ensures Decides(lay, mod, I2(Cmp, a, b), c, Reg(c, a) == Reg(c, b))
    ensures Decides(lay, mod, I2(Ult, a, b), c, Reg(c, a) < Reg(c, b))
    ensures Decides(lay, mod, I2(Ule, a, b), c, Reg(c, a) <= Reg(c, b))
    ensures Decides(lay, mod, I2(Ilt, a, b), c, s < t)
    ensures Decides(lay, mod, I2(Ile, a, b), c, s <= t)
  {
    SignedIs(s, Reg(c, a));
    SignedIs(t, Reg(c, b));
  }

  /** Taking cells lowers the stack pointer by as many, or stops with the overflow error if there are not so many;
      giving them back raises it again, to the top of the stack at most. Nothing else changes. */
  lemma Frames(lay: Layout, mod: nat, n: nat, c: Core) returns (osp: nat)
    requires c.osp <= |c.stack|
    ensures n <= c.osp ==> Data(lay, mod, I1(Op1.Alloc, n), c) == Done(c.(osp := c.osp - n))
    ensures n > c.osp ==> Data(lay, mod, I1(Op1.Alloc, n), c) == Trap(c.(err := 3))
    ensures Data(lay, mod, I1(Op1.Redux, n), c) == Done(c.(osp := osp))
    ensures osp <= |c.stack| && osp <= c.osp + n && (osp == |c.stack| || osp == c.osp + n)
  {
    osp := Data(lay, mod, I1(Op1.Redux, n), c).c.osp;
  }

  /** The shape of vectors: `setelen` sets the bytes of an element, `setvlen` the number of elements. */
  lemma Shapes(lay: Layout, mod: nat, n: nat, c: Core)
    ensures Data(lay, mod, I1(Setelen, n), c) == Done(c.(vec := c.vec.(width := n)))
    ensures Data(lay, mod, IW(Setvlen, n), c) == Done(c.(vec := c.vec.(len := n)))
  {
  }
}
