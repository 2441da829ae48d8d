/** Encoding of instructions, and the two readers of encoded instructions: the VM's dispatch loop,
    which fetches whole words and splits them, and the disassembler, which reads field by field. */
module Codec {
  import opened Words
  import opened Isa

  // ----- the encoder -----

  /** What the encoder makes of the operands: bytes and words are truncated, not checked. */
  function EncodeArgs(i: Instr): (s: seq<byte>)
    ensures |s| == OperandBytes(OpOfInstr(i))
  {
    match i
    case I0(_) => []
    case I1(_, a) => [a % 256]
    case I2(_, a, b) => [a % 256, b % 256]
    case IW(_, n) => LE(2, n % TWO16)
    case IR(_, a, n) => [a % 256] + LE(2, n % TWO16)
    case IM(_, a, b, off) => [a % 256, b % 256] + LE(2, off % TWO16)
    case IJ(_, disp) => LE(4, disp % TWO32)
    case IQ(a, imm) => [a % 256] + LE(8, imm)
  }

  function Encode(i: Instr): (s: seq<byte>)
    ensures |s| == Size(OpOfInstr(i))
  {
    [OpCode(OpOfInstr(i))] + EncodeArgs(i)
  }

  // The bytes of an instruction: the opcode first, then the operands in order, each of its width, lowest byte first.

  /** No operand, one byte, two registers. */
  lemma RegisterLayout(op0: Op0, op1: Op1, op2: Op2, a: byte, b: byte)
    ensures Encode(I0(op0)) == [OpCode(Zero(op0))]
    ensures Encode(I1(op1, a)) == [OpCode(One(op1)), a]
    ensures Encode(I2(op2, a, b)) == [OpCode(Two(op2)), a, b]
  {
  }

  /** A 16-bit word. */
  lemma WordLayout(op: OpW, n: nat)
    requires n < 0x1_0000
    ensures var e := Encode(IW(op, n)); |e| == 3 && e[0] == OpCode(Wide(op)) && Half(e, 1) == n
  {
    TwoBytes(n);
  }

  /** A register and a 16-bit index. */
  lemma IndexedLayout(op: OpR, a: byte, n: nat)
    requires n < 0x1_0000
    ensures var e := Encode(IR(op, a, n)); |e| == 4 && e[0] == OpCode(Indexed(op)) && e[1] == a && Half(e, 2) == n
  {
    TwoBytes(n);
  }

  /** Two registers and a signed 16-bit offset. */
  lemma MemoryLayout(op: OpM, a: byte, b: byte, off: int)
    ensures var e := Encode(IM(op, a, b, off));
            && |e| == 5 && e[0] == OpCode(Memory(op)) && e[1] == a && e[2] == b && (Half(e, 3) - off) % 0x1_0000 == 0
  {
    TwoBytes(off % TWO16);
    Congruent(off, TWO16);
  }

  /** A signed 32-bit displacement. */
  lemma JumpLayout(op: OpJ, disp: int)
    ensures var e := Encode(IJ(op, disp));
            && |e| == 5 && e[0] == OpCode(Jump(op))
            && (Half(e, 1) + 0x1_0000 * Half(e, 3) - disp) % 0x1_0000_0000 == 0
  {
    FourBytes(disp % TWO32);
    Congruent(disp, TWO32);
  }

  /** A register and a 64-bit constant. */
  lemma ConstantLayout(a: byte, imm: u64)
    ensures var e := Encode(IQ(a, imm));
            && |e| == 10 && e[0] == OpCode(Movi) && e[1] == a
            && Half(e, 2) + 0x1_0000 * Half(e, 4) + 0x1_0000_0000 * (Half(e, 6) + 0x1_0000 * Half(e, 8)) == imm
  {
    EightBytes(imm);
    var e := Encode(IQ(a, imm));
    assert e == [OpCode(Movi), a] + LE(8, imm);
    Behind(e, [OpCode(Movi), a], LE(8, imm), 0);
    Behind(e, [OpCode(Movi), a], LE(8, imm), 2);
    Behind(e, [OpCode(Movi), a], LE(8, imm), 4);
    Behind(e, [OpCode(Movi), a], LE(8, imm), 6);
  }

  /** Bytes behind the first ones. */
  lemma Behind(s: seq<byte>, first: seq<byte>, rest: seq<byte>, p: nat)
    requires s == first + rest && p + 1 < |rest|
    ensures Half(s, |first| + p) == Half(rest, p)
  {
  }

  /** Two bytes, the lower first. */
  function Half(s: seq<byte>, p: nat): nat
    requires p + 1 < |s|
  {
    (s[p] as int) + 256 * (s[p + 1] as int)
  }

  lemma Congruent(v: int, m: int)
    requires m > 0
    ensures (v % m - v) % m == 0
  {
    ModUnique(v % m - v, m, -(v / m), 0);
  }

  lemma {:induction false} TwoBytes(v: nat)
    requires v < TWO16
    ensures Half(LE(2, v), 0) == v
  {
    assert LE(2, v)[1..] == LE(1, v / 256);
  }

  lemma {:induction false} LowHalf(n: nat, v: nat)
    ensures Half(LE(n + 2, v), 0) == v % TWO16 && LE(n + 2, v)[2..] == LE(n, v / TWO16)
  {
    var s := LE(n + 2, v);
    assert s[1..] == LE(n + 1, v / 256) && s[1..][1..] == LE(n, v / 256 / 256);
    assert s[2..] == s[1..][1..];
  }

  lemma {:induction false} FourBytes(v: nat)
    requires v < TWO32
    ensures Half(LE(4, v), 0) + TWO16 * Half(LE(4, v), 2) == v
  {
    LowHalf(2, v);
    LowHalf(0, v / TWO16);
    assert Half(LE(4, v), 2) == Half(LE(4, v)[2..], 0);
  }

  lemma {:induction false} EightBytes(v: u64)
    ensures var s := LE(8, v);
            Half(s, 0) + TWO16 * Half(s, 2) + TWO32 * (Half(s, 4) + TWO16 * Half(s, 6)) == v
  {
    var s := LE(8, v);
    LowHalf(6, v);
    LowHalf(4, v / TWO16);
    FourBytes(v / TWO16 / TWO16);
    assert Half(s, 2) == Half(s[2..], 0) && Half(s, 4) == Half(s[2..][2..], 0) && Half(s, 6) == Half(s[2..][2..], 2);
  }

  /** An append-only byte buffer. */
  class ByteBuf {
    var data: seq<byte>

    constructor ()
      ensures data == []
    {
      data := [];
    }

    method InsertByte(b: byte)
      modifies this
      ensures data == old(data) + [b]
    {
      data := data + [b];
    }

    /** Appends the `n` low-order bytes of `v`. */
    method InsertInt(n: nat, v: nat)
      modifies this
      ensures data == old(data) + LE(n, v)
    {
      var k, rest := 0, v;
      while k < n
        invariant 0 <= k <= n
        invariant old(data) + LE(n, v) == data + LE(n - k, rest)
      {
        data := data + [rest % 256];
        rest := rest / 256;
        k := k + 1;
      }
    }

    method InsertZeros(n: nat)
      modifies this
      ensures data == old(data) + Zeros(n)
    {
      var k := 0;
      while k < n
        invariant 0 <= k <= n
        invariant data == old(data) + Zeros(k)
      {
        data := data + [0];
        k := k + 1;
      }
    }

    method Append(s: seq<byte>)
      modifies this
      ensures data == old(data) + s
    {
      data := data + s;
    }
  }

  lemma AppendAssoc(a: seq<byte>, b: seq<byte>, c: seq<byte>)
    ensures a + b + c == a + (b + c)
  {
  }

  function Zeros(n: nat): (s: seq<byte>)
    ensures |s| == n
    ensures forall k :: 0 <= k < n ==> s[k] == 0
  {
    seq(n, _ => 0)
  }

  /** The encoder: appends the instruction when given a buffer and returns its size either way;
      without a buffer it only measures. */
  method InstrGen(buf: ByteBuf?, i: Instr) returns (bytes: nat)
    modifies buf
    ensures bytes == Size(OpOfInstr(i))
    ensures buf != null ==> buf.data == old(buf.data) + Encode(i)
  {
    ghost var before := if buf != null then buf.data else [];
    if buf != null {
      buf.InsertByte(OpCode(OpOfInstr(i)));
    }
    var n := GenArgs(buf, i);
    bytes := 1 + n;
    AppendAssoc(before, [OpCode(OpOfInstr(i))], EncodeArgs(i));
  }

  method GenArgs(buf: ByteBuf?, i: Instr) returns (bytes: nat)
    modifies buf
    ensures bytes == OperandBytes(OpOfInstr(i))
    ensures buf != null ==> buf.data == old(buf.data) + EncodeArgs(i)
  {
    ghost var before := if buf != null then buf.data else [];
    match i {
      case I0(_) =>
        bytes := 0;
      case I1(_, a) =>
        if buf != null { buf.InsertByte(a % 256); }
        bytes := 1;
      case I2(_, a, b) =>
        if buf != null { buf.InsertByte(a % 256); buf.InsertByte(b % 256); }
        bytes := 2;
      case IW(_, n) =>
        if buf != null { buf.InsertInt(2, n % TWO16); }
        bytes := 2;
      case IR(_, a, n) =>
        if buf != null { buf.InsertByte(a % 256); buf.InsertInt(2, n % TWO16); }
        AppendAssoc(before, [a % 256], LE(2, n % TWO16));
        bytes := 3;
      case IM(_, a, b, off) =>
        if buf != null {
          buf.InsertByte(a % 256);
          buf.InsertByte(b % 256);
          buf.InsertInt(2, off % TWO16);
          assert before + [a % 256] + [b % 256] == before + [a % 256, b % 256];
        }
        AppendAssoc(before, [a % 256, b % 256], LE(2, off % TWO16));
        bytes := 4;
      case IJ(_, disp) =>
        if buf != null { buf.InsertInt(4, disp % TWO32); }
        bytes := 4;
      case IQ(a, imm) =>
        if buf != null { buf.InsertByte(a % 256); buf.InsertInt(8, imm); }
        AppendAssoc(before, [a % 256], LE(8, imm));
        bytes := 9;
    }
  }

  // ----- the two readers -----

  /** The little-endian word of `n` bytes at `p`. */
  function Word(code: seq<byte>, p: nat, n: nat): nat
    requires p + n <= |code|
  {
    FromLE(code[p..p + n])
  }

  function Word64(code: seq<byte>, p: nat): u64
    requires p + 8 <= |code|
  {
    var s := code[p..p + 8];
    FromLEBound(s);
    Pow256Values();
    FromLE(s)
  }

  /** An instruction as the dispatch loop fetches it: operands as one word, then masks and shifts. */
  function VmArgs(op: Op, code: seq<byte>, p: nat): Instr
    requires p + OperandBytes(op) <= |code|
  {
    match op
    case Zero(o) => I0(o)
    case One(o) => I1(o, code[p])
    case Two(o) =>
      var w := Word(code, p, 2);
      I2(o, w % 256, w / 256)
    case Wide(o) => IW(o, Word(code, p, 2))
    case Indexed(o) => IR(o, code[p], Word(code, p + 1, 2))
    case Memory(o) =>
      var w := Word(code, p, 4);
      IM(o, w % 256, (w / 256) % 256, Wrap(TWO32, w) / TWO16)
    case Jump(o) => IJ(o, Wrap(TWO32, Word(code, p, 4)))
    case Movi => IQ(code[p], Word64(code, p + 1))
  }

  /** An instruction as the disassembler reads it: one field at a time. */
  function DisArgs(op: Op, code: seq<byte>, p: nat): Instr
    requires p + OperandBytes(op) <= |code|
  {
    match op
    case Zero(o) => I0(o)
    case One(o) => I1(o, code[p])
    case Two(o) => I2(o, code[p], code[p + 1])
    case Wide(o) => IW(o, Word(code, p, 2))
    case Indexed(o) => IR(o, code[p], Word(code, p + 1, 2))
    case Memory(o) => IM(o, code[p], code[p + 1], Wrap(TWO16, Word(code, p + 2, 2)))
    case Jump(o) => IJ(o, Wrap(TWO32, Word(code, p, 4)))
    case Movi => IQ(code[p], Word64(code, p + 1))
  }

  datatype Fetched = NoInstr | Fetched(i: Instr, next: nat)

  /** One fetch by the VM; `NoInstr` when the opcode is out of bounds or the bytes run out. */
  function Fetch(code: seq<byte>, p: nat): Fetched {
    if p < |code| && code[p] < MAX_OPS && p + Size(OpOf(code[p])) <= |code| then
      var op := OpOf(code[p]);
      Fetched(VmArgs(op, code, p + 1), p + Size(op))
    else
      NoInstr
  }

  // ----- agreement -----

  lemma {:induction false} FromLE2(s: seq<byte>)
    requires |s| == 2
    ensures FromLE(s) == 256 * (s[1] as int) + s[0]
  {
    assert s[1..] == [s[1]];
    assert [s[1]][1..] == [];
    assert FromLE([s[1]]) == s[1];
  }

  lemma {:induction false} FromLE4(s: seq<byte>)
    requires |s| == 4
    ensures FromLE(s) == TWO16 * FromLE(s[2..]) + 256 * (s[1] as int) + s[0]
  {
    assert s[1..][0] == s[1] && s[1..][1..] == s[2..];
    assert FromLE(s[1..]) == 256 * FromLE(s[2..]) + s[1];
  }

  /** On any bytes whatever, the word-splitting reader and the field reader see the same operands,
      sign-extended offsets included. */
  lemma ReadersAgree(op: Op, code: seq<byte>, p: nat)
    requires p + OperandBytes(op) <= |code|
    ensures VmArgs(op, code, p) == DisArgs(op, code, p)
    ensures OpOfInstr(VmArgs(op, code, p)) == op
    ensures InRange(VmArgs(op, code, p))
  {
    Pow256Values();
    match op {
      case Zero(_) =>
      case One(_) =>
      case Two(_) =>
        FromLE2(code[p..p + 2]);
      case Wide(_) =>
        FromLEBound(code[p..p + 2]);
      case Indexed(_) =>
        FromLEBound(code[p + 1..p + 3]);
      case Memory(_) =>
        var s := code[p..p + 4];
        FromLE4(s);
        assert s[2..] == code[p + 2..p + 4];
        FromLEBound(code[p + 2..p + 4]);
        SplitOffset(s[0], s[1], Word(code, p + 2, 2));
      case Jump(_) =>
        FromLEBound(code[p..p + 4]);
      case Movi =>
    }
  }

  /** The arithmetic shift of the combined word recovers the sign-extended upper half. */
  lemma SplitOffset(a: byte, b: byte, h: nat)
    requires h < TWO16
    ensures var w := TWO16 * h + 256 * (b as int) + a;
            w % 256 == a && (w / 256) % 256 == b && Wrap(TWO32, w) / TWO16 == Wrap(TWO16, h)
  {
    var lo := 256 * (b as int) + a;
    var w := TWO16 * h + lo;
    ModUnique(w, 256, 256 * h + b, a);
    ModUnique(256 * h + b, 256, h, b);
    ModUnique(w, TWO32, 0, w);
    ModUnique(h, TWO16, 0, h);
    if 2 * h < TWO16 {
      ModUnique(w, TWO16, h, lo);
    } else {
      ModUnique(w - TWO32, TWO16, h - TWO16, lo);
    }
  }

  /** Decoding is a left inverse of encoding: whatever surrounds the bytes of an in-range
      instruction, the VM fetches exactly that instruction and advances by exactly its size. */
  lemma FetchEncoded(code: seq<byte>, p: nat, i: Instr)
    requires InRange(i)
    requires EncodedAt(code, p, i)
    ensures Fetch(code, p) == Fetched(i, p + Size(OpOfInstr(i)))
  {
    var op := OpOfInstr(i);
    var n := Size(op);
    OpOfOpCode(op);
    assert code[p] == code[p..p + n][0] == OpCode(op);
    assert code[p + 1..p + n] == EncodeArgs(i) by {
      SliceOfSlice(code, p, n, 1, n - 1);
      assert code[p..p + n][1..] == code[p..p + n][1..n];
    }
    ReadersAgree(op, code, p + 1);
    DisArgsEncoded(code, p + 1, i);
  }

  /** The bytes at `p` are the encoding of `i`. */
  predicate EncodedAt(code: seq<byte>, p: nat, i: Instr) {
    p + Size(OpOfInstr(i)) <= |code| && code[p..p + Size(OpOfInstr(i))] == Encode(i)
  }

  // Fields written and read back, one lemma a width.

  lemma {:induction false} ReadHalf(code: seq<byte>, p: nat, n: nat)
    requires n < TWO16 && p + 2 <= |code| && code[p..p + 2] == LE(2, n)
    ensures Word(code, p, 2) == n
  {
    Pow256Values();
    FromLEofLE(2, n);
    ModUnique(n, TWO16, 0, n);
  }

  lemma {:induction false} ReadSignedHalf(code: seq<byte>, p: nat, off: int)
    requires -TWO16 <= 2 * off < TWO16
    requires p + 2 <= |code| && code[p..p + 2] == LE(2, off % TWO16)
    ensures 0 <= Word(code, p, 2) && Wrap(TWO16, Word(code, p, 2)) == off
  {
    ReadHalf(code, p, off % TWO16);
    WrapFits(TWO16, off);
    ModUnique(off % TWO16, TWO16, 0, off % TWO16);
  }

  lemma {:induction false} ReadSignedLong(code: seq<byte>, p: nat, disp: int)
    requires -TWO32 <= 2 * disp < TWO32
    requires p + 4 <= |code| && code[p..p + 4] == LE(4, disp % TWO32)
    ensures 0 <= Word(code, p, 4) && Wrap(TWO32, Word(code, p, 4)) == disp
  {
    Pow256Values();
    FromLEofLE(4, disp % TWO32);
    WrapFits(TWO32, disp);
    ModUnique(disp % TWO32, TWO32, 0, disp % TWO32);
  }

  lemma {:induction false} ReadQuad(code: seq<byte>, p: nat, q: u64)
    requires p + 8 <= |code| && code[p..p + 8] == LE(8, q)
    ensures Word64(code, p) == q
  {
    Pow256Values();
    FromLEofLE(8, q);
    ModUnique(q, TWO64, 0, q);
  }

  // Fields read and written again.

  lemma RewriteHalf(code: seq<byte>, p: nat)
    requires p + 2 <= |code|
    ensures LE(2, Word(code, p, 2) % TWO16) == code[p..p + 2]
    ensures LE(2, Wrap(TWO16, Word(code, p, 2)) % TWO16) == code[p..p + 2]
  {
    var s := code[p..p + 2];
    Pow256Values();
    LEofFromLE(s);
    FromLEBound(s);
    RewrapUnsigned(TWO16, FromLE(s));
  }

  lemma RewriteLong(code: seq<byte>, p: nat)
    requires p + 4 <= |code|
    ensures LE(4, Wrap(TWO32, Word(code, p, 4)) % TWO32) == code[p..p + 4]
  {
    var s := code[p..p + 4];
    Pow256Values();
    LEofFromLE(s);
    FromLEBound(s);
    RewrapUnsigned(TWO32, FromLE(s));
  }

  lemma RewriteQuad(code: seq<byte>, p: nat)
    requires p + 8 <= |code|
    ensures LE(8, Word64(code, p)) == code[p..p + 8]
  {
    LEofFromLE(code[p..p + 8]);
  }

  lemma RewrapUnsigned(m: int, w: nat)
    requires w < m
    ensures w % m == w && Wrap(m, w) % m == w
  {
    ModUnique(w, m, 0, w);
    ModUnique(w - m, m, -1, w);
  }

  /** The bytes at `p` are the encoded operands of `i`. */
  predicate OperandsAt(code: seq<byte>, p: nat, i: Instr) {
    var n := OperandBytes(OpOfInstr(i));
    p + n <= |code| && code[p..p + n] == EncodeArgs(i)
  }

  /** The field reader finds `i` at `p`. */
  predicate ReadsAs(code: seq<byte>, p: nat, i: Instr) {
    p + OperandBytes(OpOfInstr(i)) <= |code| && DisArgs(OpOfInstr(i), code, p) == i
  }

  lemma DisEncodedI1(code: seq<byte>, p: nat, i: Instr)
    requires i.I1? && InRange(i) && OperandsAt(code, p, i)
    ensures ReadsAs(code, p, i)
  {
    assert code[p] == code[p..p + 1][0];
  }

  lemma DisEncodedI2(code: seq<byte>, p: nat, i: Instr)
    requires i.I2? && InRange(i) && OperandsAt(code, p, i)
    ensures ReadsAs(code, p, i)
  {
    assert code[p] == code[p..p + 2][0] && code[p + 1] == code[p..p + 2][1];
  }

  lemma DisEncodedIW(code: seq<byte>, p: nat, i: Instr)
    requires i.IW? && InRange(i) && OperandsAt(code, p, i)
    ensures ReadsAs(code, p, i)
  {
    ReadHalf(code, p, i.n);
  }

  lemma DisEncodedIR(code: seq<byte>, p: nat, i: Instr)
    requires i.IR? && InRange(i) && OperandsAt(code, p, i)
    ensures ReadsAs(code, p, i)
  {
    SliceOfSlice(code, p, 3, 1, 2);
    assert code[p] == code[p..p + 3][0];
    ReadHalf(code, p + 1, i.n);
  }

  lemma DisEncodedIM(code: seq<byte>, p: nat, i: Instr)
    requires i.IM? && InRange(i) && OperandsAt(code, p, i)
    ensures ReadsAs(code, p, i)
  {
    SliceOfSlice(code, p, 4, 2, 2);
    assert code[p] == code[p..p + 4][0] && code[p + 1] == code[p..p + 4][1];
    ReadSignedHalf(code, p + 2, i.off);
  }

  lemma DisEncodedIJ(code: seq<byte>, p: nat, i: Instr)
    requires i.IJ? && InRange(i) && OperandsAt(code, p, i)
    ensures ReadsAs(code, p, i)
  {
    ReadSignedLong(code, p, i.disp);
  }

  lemma DisEncodedIQ(code: seq<byte>, p: nat, i: Instr)
    requires i.IQ? && InRange(i) && OperandsAt(code, p, i)
    ensures ReadsAs(code, p, i)
  {
    SliceOfSlice(code, p, 9, 1, 8);
    assert code[p] == code[p..p + 9][0];
    ReadQuad(code, p + 1, i.imm);
  }

  lemma DisArgsEncoded(code: seq<byte>, p: nat, i: Instr)
    requires InRange(i) && OperandsAt(code, p, i)
    ensures ReadsAs(code, p, i)
  {
    match i {
      case I0(_) =>
      case I1(_, _) => DisEncodedI1(code, p, i);
      case I2(_, _, _) => DisEncodedI2(code, p, i);
      case IW(_, _) => DisEncodedIW(code, p, i);
      case IR(_, _, _) => DisEncodedIR(code, p, i);
      case IM(_, _, _, _) => DisEncodedIM(code, p, i);
      case IJ(_, _) => DisEncodedIJ(code, p, i);
      case IQ(_, _) => DisEncodedIQ(code, p, i);
    }
  }

  /** Decoding is also a right inverse: whatever bytes the VM accepts as an instruction are the
      encoding of a unique in-range instruction. */
  lemma FetchedIsEncoded(code: seq<byte>, p: nat)
    requires Fetch(code, p).Fetched?
    ensures var f := Fetch(code, p);
            InRange(f.i) && f.next == p + Size(OpOfInstr(f.i)) && EncodedAt(code, p, f.i)
  {
    var op := OpOf(code[p]);
    OpCodeOfOp(code[p]);
    ReadersAgree(op, code, p + 1);
    ArgsReencode(op, code, p + 1);
    assert code[p..p + Size(op)] == [code[p]] + code[p + 1..p + Size(op)];
  }

  /** Encoding the operands read at `p` gives back the bytes there. */
  predicate Reencodes(op: Op, code: seq<byte>, p: nat) {
    p + OperandBytes(op) <= |code|
    && EncodeArgs(DisArgs(op, code, p)) == code[p..p + OperandBytes(op)]
  }

  lemma ReencodeIndexed(op: Op, code: seq<byte>, p: nat)
    requires op.Indexed? && p + OperandBytes(op) <= |code|
    ensures Reencodes(op, code, p)
  {
    RewriteHalf(code, p + 1);
    assert code[p..p + 3] == [code[p]] + code[p + 1..p + 3];
  }

  lemma ReencodeMemory(op: Op, code: seq<byte>, p: nat)
    requires op.Memory? && p + OperandBytes(op) <= |code|
    ensures Reencodes(op, code, p)
  {
    RewriteHalf(code, p + 2);
    assert code[p..p + 4] == [code[p], code[p + 1]] + code[p + 2..p + 4];
  }

  lemma ReencodeMovi(op: Op, code: seq<byte>, p: nat)
    requires op.Movi? && p + OperandBytes(op) <= |code|
    ensures Reencodes(op, code, p)
  {
    RewriteQuad(code, p + 1);
    assert code[p..p + 9] == [code[p]] + code[p + 1..p + 9];
  }

  lemma ArgsReencode(op: Op, code: seq<byte>, p: nat)
    requires p + OperandBytes(op) <= |code|
    ensures Reencodes(op, code, p)
  {
    match op {
      case Zero(_) =>
      case One(_) =>
      case Two(_) =>
      case Wide(_) => RewriteHalf(code, p);
      case Indexed(_) => ReencodeIndexed(op, code, p);
      case Memory(_) => ReencodeMemory(op, code, p);
      case Jump(_) => RewriteLong(code, p);
      case Movi => ReencodeMovi(op, code, p);
    }
  }
}
