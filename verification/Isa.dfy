/** The instruction set: operations grouped by operand layout, opcode numbers, encoded sizes. */
module Isa {
  import opened Words

  // Operations without operands; with one byte (register or immediate); with two registers.
  datatype Op0 = Halt | Nop | Pushlr | Poplr | Ret | Restore

  datatype Op1 = Alloc | Redux | Setelen | Enter | Neg | Fneg | Not | Setc | Callr | F32tof64
    | F64tof32 | Itof64 | Itof32 | F64toi | F32toi | Vneg | Vfneg | Vnot | Leave | Remit

  datatype Op2 = Mov | Add | Sub | Mul | Idiv | Mod | Fadd | Fsub | Fmul | Fdiv | And | Or | Xor
    | Sll | Srl | Sra | Ilt | Ile | Ult | Ule | Cmp | Flt | Fle | Vmov | Vadd | Vsub | Vmul | Vdiv
    | Vmod | Vfadd | Vfsub | Vfmul | Vfdiv | Vand | Vor | Vxor | Vsll | Vsrl | Vsra | Vcmp | Vilt
    | Vile | Vult | Vule | Vflt | Vfle

  // With a 16-bit word; a register and a 16-bit index; two registers and a signed 16-bit offset;
  // a signed 32-bit displacement.
  datatype OpW = Call | Setvlen

  datatype OpR = Lra | Ldvar | Ldfn

  datatype OpM = Lea | Ld1 | Ld2 | Ld4 | Ld8 | Ldu1 | Ldu2 | Ldu4 | St1 | St2 | St4 | St8

  datatype OpJ = Jmp | Jz | Jnz

  datatype Op =
    | Zero(zero: Op0)
    | One(one: Op1)
    | Two(two: Op2)
    | Wide(wide: OpW)
    | Indexed(indexed: OpR)
    | Memory(memory: OpM)
    | Jump(jump: OpJ)
    | Movi

  /** Opcodes at or above this are out of bounds. */
  const MAX_OPS: int := 93

  // Operations are numbered from zero in the order of the instruction list.

  function Code0(op: Op0): byte {
    match op
    case Halt => 0 case Nop => 1 case Pushlr => 56 case Poplr => 57 case Ret => 60
    case Restore => 89
  }

  function Code1(op: Op1): byte {
    match op
    case Alloc => 2 case Redux => 3 case Setelen => 62 case Enter => 92 case Neg => 26
    case Fneg => 31 case Not => 38 case Setc => 46 case Callr => 59 case F32tof64 => 47
    case F64tof32 => 48 case Itof64 => 49 case Itof32 => 50 case F64toi => 51 case F32toi => 52
    case Vneg => 69 case Vfneg => 74 case Vnot => 81 case Leave => 90 case Remit => 91
  }

  function Code2(op: Op2): byte {
    match op
    case Mov => 5 case Add => 21 case Sub => 22 case Mul => 23 case Idiv => 24 case Mod => 25
    case Fadd => 27 case Fsub => 28 case Fmul => 29 case Fdiv => 30 case And => 32 case Or => 33
    case Xor => 34 case Sll => 35 case Srl => 36 case Sra => 37 case Ilt => 39 case Ile => 40
    case Ult => 41 case Ule => 42 case Cmp => 43 case Flt => 44 case Fle => 45 case Vmov => 63
    case Vadd => 64 case Vsub => 65 case Vmul => 66 case Vdiv => 67 case Vmod => 68
    case Vfadd => 70 case Vfsub => 71 case Vfmul => 72 case Vfdiv => 73 case Vand => 75
    case Vor => 76 case Vxor => 77 case Vsll => 78 case Vsrl => 79 case Vsra => 80 case Vcmp => 82
    case Vilt => 83 case Vile => 84 case Vult => 85 case Vule => 86 case Vflt => 87
    case Vfle => 88
  }

  function CodeW(op: OpW): byte {
    match op
    case Call => 58 case Setvlen => 61
  }

  function CodeR(op: OpR): byte {
    match op
    case Lra => 6 case Ldvar => 8 case Ldfn => 9
  }

  function CodeM(op: OpM): byte {
    match op
    case Lea => 7 case Ld1 => 10 case Ld2 => 11 case Ld4 => 12 case Ld8 => 13 case Ldu1 => 14
    case Ldu2 => 15 case Ldu4 => 16 case St1 => 17 case St2 => 18 case St4 => 19 case St8 => 20
  }

  function CodeJ(op: OpJ): byte {
    match op
    case Jmp => 53 case Jz => 54 case Jnz => 55
  }

  /** The opcode byte of an operation. */
  function OpCode(op: Op): byte {
    match op
    case Zero(o) => Code0(o)
    case One(o) => Code1(o)
    case Two(o) => Code2(o)
    case Wide(o) => CodeW(o)
    case Indexed(o) => CodeR(o)
    case Memory(o) => CodeM(o)
    case Jump(o) => CodeJ(o)
    case Movi => 4
  }

  /** The operation an opcode byte selects. */
  function OpOf(c: int): Op
    requires 0 <= c < MAX_OPS
  {
    if c < 24 then OpBelow24(c)
    else if c < 47 then OpBelow47(c)
    else if c < 63 then OpBelow63(c)
    else if c < 78 then OpBelow78(c)
    else OpBelow93(c)
  }

  function OpBelow24(c: int): Op
    requires 0 <= c < 24
  {
    match c
    case 0 => Zero(Halt) case 1 => Zero(Nop) case 2 => One(Alloc) case 3 => One(Redux)
    case 4 => Movi case 5 => Two(Mov) case 6 => Indexed(Lra) case 7 => Memory(Lea)
    case 8 => Indexed(Ldvar) case 9 => Indexed(Ldfn) case 10 => Memory(Ld1) case 11 => Memory(Ld2)
    case 12 => Memory(Ld4) case 13 => Memory(Ld8) case 14 => Memory(Ldu1) case 15 => Memory(Ldu2)
    case 16 => Memory(Ldu4) case 17 => Memory(St1) case 18 => Memory(St2) case 19 => Memory(St4)
    case 20 => Memory(St8) case 21 => Two(Add) case 22 => Two(Sub) case _ => Two(Mul)
  }

  function OpBelow47(c: int): Op
    requires 24 <= c < 47
  {
    match c
    case 24 => Two(Idiv) case 25 => Two(Mod) case 26 => One(Neg) case 27 => Two(Fadd)
    case 28 => Two(Fsub) case 29 => Two(Fmul) case 30 => Two(Fdiv) case 31 => One(Fneg)
    case 32 => Two(And) case 33 => Two(Or) case 34 => Two(Xor) case 35 => Two(Sll)
    case 36 => Two(Srl) case 37 => Two(Sra) case 38 => One(Not) case 39 => Two(Ilt)
    case 40 => Two(Ile) case 41 => Two(Ult) case 42 => Two(Ule) case 43 => Two(Cmp)
    case 44 => Two(Flt) case 45 => Two(Fle) case _ => One(Setc)
  }

  function OpBelow63(c: int): Op
    requires 47 <= c < 63
  {
    match c
    case 47 => One(F32tof64) case 48 => One(F64tof32) case 49 => One(Itof64)
    case 50 => One(Itof32) case 51 => One(F64toi) case 52 => One(F32toi) case 53 => Jump(Jmp)
    case 54 => Jump(Jz) case 55 => Jump(Jnz) case 56 => Zero(Pushlr) case 57 => Zero(Poplr)
    case 58 => Wide(Call) case 59 => One(Callr) case 60 => Zero(Ret) case 61 => Wide(Setvlen)
    case _ => One(Setelen)
  }

  function OpBelow78(c: int): Op
    requires 63 <= c < 78
  {
    match c
    case 63 => Two(Vmov) case 64 => Two(Vadd) case 65 => Two(Vsub) case 66 => Two(Vmul)
    case 67 => Two(Vdiv) case 68 => Two(Vmod) case 69 => One(Vneg) case 70 => Two(Vfadd)
    case 71 => Two(Vfsub) case 72 => Two(Vfmul) case 73 => Two(Vfdiv) case 74 => One(Vfneg)
    case 75 => Two(Vand) case 76 => Two(Vor) case _ => Two(Vxor)
  }

  function OpBelow93(c: int): Op
    requires 78 <= c < 93
  {
    match c
    case 78 => Two(Vsll) case 79 => Two(Vsrl) case 80 => Two(Vsra) case 81 => One(Vnot)
    case 82 => Two(Vcmp) case 83 => Two(Vilt) case 84 => Two(Vile) case 85 => Two(Vult)
    case 86 => Two(Vule) case 87 => Two(Vflt) case 88 => Two(Vfle) case 89 => Zero(Restore)
    case 90 => One(Leave) case 91 => One(Remit) case _ => One(Enter)
  }

  // The operations in the order of the instruction list.

  const MOVES: seq<Op> := [
    Zero(Halt), Zero(Nop), One(Alloc), One(Redux), Movi, Two(Mov)]

  const ACCESSES: seq<Op> := [
    Indexed(Lra), Memory(Lea), Indexed(Ldvar), Indexed(Ldfn), Memory(Ld1), Memory(Ld2), Memory(Ld4),
    Memory(Ld8), Memory(Ldu1), Memory(Ldu2), Memory(Ldu4), Memory(St1), Memory(St2), Memory(St4), Memory(St8)]

  const SUMS: seq<Op> := [
    Two(Add), Two(Sub), Two(Mul), Two(Idiv), Two(Mod), One(Neg), Two(Fadd), Two(Fsub), Two(Fmul), Two(Fdiv),
    One(Fneg)]

  const BITS: seq<Op> := [
    Two(And), Two(Or), Two(Xor), Two(Sll), Two(Srl), Two(Sra), One(Not)]

  const TESTS: seq<Op> := [
    Two(Ilt), Two(Ile), Two(Ult), Two(Ule), Two(Cmp), Two(Flt), Two(Fle), One(Setc)]

  const CONVERSIONS: seq<Op> := [
    One(F32tof64), One(F64tof32), One(Itof64), One(Itof32), One(F64toi), One(F32toi)]

  const TRANSFERS: seq<Op> := [
    Jump(Jmp), Jump(Jz), Jump(Jnz), Zero(Pushlr), Zero(Poplr), Wide(Call), One(Callr), Zero(Ret)]

  const LANE_SUMS: seq<Op> := [
    Wide(Setvlen), One(Setelen), Two(Vmov), Two(Vadd), Two(Vsub), Two(Vmul), Two(Vdiv), Two(Vmod),
    One(Vneg)]

  const LANE_FLOATS: seq<Op> := [
    Two(Vfadd), Two(Vfsub), Two(Vfmul), Two(Vfdiv), One(Vfneg)]

  const LANE_BITS: seq<Op> := [
    Two(Vand), Two(Vor), Two(Vxor)]

  const LANE_SHIFTS: seq<Op> := [
    Two(Vsll), Two(Vsrl), Two(Vsra), One(Vnot)]

  const LANE_TESTS: seq<Op> := [
    Two(Vcmp), Two(Vilt), Two(Vile)]

  const LANE_ORDERS: seq<Op> := [
    Two(Vult), Two(Vule), Two(Vflt), Two(Vfle)]

  const SUPER: seq<Op> := [
    Zero(Restore), One(Leave), One(Remit), One(Enter)]

  const INSTRUCTIONS: seq<Op> :=
    MOVES + ACCESSES + SUMS + BITS + TESTS + CONVERSIONS + TRANSFERS + LANE_SUMS + LANE_FLOATS
    + LANE_BITS + LANE_SHIFTS + LANE_TESTS + LANE_ORDERS + SUPER

  /** The operations of a list are numbered from `first` on. */
  ghost predicate NumberedFrom(l: seq<Op>, first: nat) {
    forall c :: 0 <= c < |l| ==> OpCode(l[c]) == first + c
  }

  lemma MovesNumbered()
    ensures |MOVES| == 6 && NumberedFrom(MOVES, 0)
  {
  }

  lemma AccessesNumbered()
    ensures |ACCESSES| == 15 && NumberedFrom(ACCESSES, 6)
  {
  }

  lemma SumsNumbered()
    ensures |SUMS| == 11 && NumberedFrom(SUMS, 21)
  {
  }

  lemma BitsNumbered()
    ensures |BITS| == 7 && NumberedFrom(BITS, 32)
  {
  }

  lemma TestsNumbered()
    ensures |TESTS| == 8 && NumberedFrom(TESTS, 39)
  {
  }

  lemma ConversionsNumbered()
    ensures |CONVERSIONS| == 6 && NumberedFrom(CONVERSIONS, 47)
  {
  }

  lemma TransfersNumbered()
    ensures |TRANSFERS| == 8 && NumberedFrom(TRANSFERS, 53)
  {
  }

  lemma LaneSumsNumbered()
    ensures |LANE_SUMS| == 9 && NumberedFrom(LANE_SUMS, 61)
  {
  }

  lemma LaneFloatsNumbered()
    ensures |LANE_FLOATS| == 5 && NumberedFrom(LANE_FLOATS, 70)
  {
  }

  lemma LaneBitsNumbered()
    ensures |LANE_BITS| == 3 && NumberedFrom(LANE_BITS, 75)
  {
  }

  lemma LaneShiftsNumbered()
    ensures |LANE_SHIFTS| == 4 && NumberedFrom(LANE_SHIFTS, 78)
  {
  }

  lemma LaneTestsNumbered()
    ensures |LANE_TESTS| == 3 && NumberedFrom(LANE_TESTS, 82)
  {
  }

  lemma LaneOrdersNumbered()
    ensures |LANE_ORDERS| == 4 && NumberedFrom(LANE_ORDERS, 85)
  {
  }

  lemma SuperNumbered()
    ensures |SUPER| == 4 && NumberedFrom(SUPER, 89)
  {
  }

  lemma Joined(l: seq<Op>, m: seq<Op>, first: nat, next: nat)
    requires NumberedFrom(l, first) && NumberedFrom(m, next) && next == first + |l|
    ensures NumberedFrom(l + m, first)
  {
  }

  /** The numbers are positions in that order. */
  lemma OpcodesArePositions(c: nat)
    ensures |INSTRUCTIONS| == 93
    ensures c < 93 ==> OpCode(INSTRUCTIONS[c]) == c && OpOf(c) == INSTRUCTIONS[c]
  {
    MovesNumbered();
    AccessesNumbered();
    SumsNumbered();
    BitsNumbered();
    TestsNumbered();
    ConversionsNumbered();
    TransfersNumbered();
    LaneSumsNumbered();
    LaneFloatsNumbered();
    LaneBitsNumbered();
    LaneShiftsNumbered();
    LaneTestsNumbered();
    LaneOrdersNumbered();
    SuperNumbered();
    var l := MOVES;
    Joined(l, ACCESSES, 0, 6);
    l := l + ACCESSES;
    Joined(l, SUMS, 0, 21);
    l := l + SUMS;
    Joined(l, BITS, 0, 32);
    l := l + BITS;
    Joined(l, TESTS, 0, 39);
    l := l + TESTS;
    Joined(l, CONVERSIONS, 0, 47);
    l := l + CONVERSIONS;
    Joined(l, TRANSFERS, 0, 53);
    l := l + TRANSFERS;
    Joined(l, LANE_SUMS, 0, 61);
    l := l + LANE_SUMS;
    Joined(l, LANE_FLOATS, 0, 70);
    l := l + LANE_FLOATS;
    Joined(l, LANE_BITS, 0, 75);
    l := l + LANE_BITS;
    Joined(l, LANE_SHIFTS, 0, 78);
    l := l + LANE_SHIFTS;
    Joined(l, LANE_TESTS, 0, 82);
    l := l + LANE_TESTS;
    Joined(l, LANE_ORDERS, 0, 85);
    l := l + LANE_ORDERS;
    Joined(l, SUPER, 0, 89);
    l := l + SUPER;
    if c < 93 {
      OpOfOpCode(INSTRUCTIONS[c]);
    }
  }

  /** The numbering is a bijection. */
  lemma OpCodeOfOp(c: int)
    requires 0 <= c < MAX_OPS
    ensures OpCode(OpOf(c)) == c
  {
    if c < 24 {
      CodeBelow24(c);
    } else if c < 47 {
      CodeBelow47(c);
    } else if c < 63 {
      CodeBelow63(c);
    } else if c < 78 {
      CodeBelow78(c);
    } else {
      CodeBelow93(c);
    }
  }

  lemma CodeBelow24(c: int)
    requires 0 <= c < 24
    ensures OpCode(OpBelow24(c)) == c
  {
  }

  lemma CodeBelow47(c: int)
    requires 24 <= c < 47
    ensures OpCode(OpBelow47(c)) == c
  {
  }

  lemma CodeBelow63(c: int)
    requires 47 <= c < 63
    ensures OpCode(OpBelow63(c)) == c
  {
  }

  lemma CodeBelow78(c: int)
    requires 63 <= c < 78
    ensures OpCode(OpBelow78(c)) == c
  {
  }

  lemma CodeBelow93(c: int)
    requires 78 <= c < 93
    ensures OpCode(OpBelow93(c)) == c
  {
    if c < 86 {
      CodeBelow86(c);
    }
  }

  lemma CodeBelow86(c: int)
    requires 78 <= c < 86
    ensures OpCode(OpBelow93(c)) == c
  {
  }

  lemma OpOfOpCode(op: Op)
    ensures OpCode(op) < MAX_OPS && OpOf(OpCode(op)) == op
  {
    match op {
      case Zero(o) =>
      case One(o) => OpOfCode1(o);
      case Two(o) => OpOfCode2(o);
      case Wide(o) =>
      case Indexed(o) =>
      case Memory(o) =>
      case Jump(o) =>
      case Movi =>
    }
  }

  lemma OpOfCode1(o: Op1)
    ensures Code1(o) < MAX_OPS && OpOf(Code1(o)) == One(o)
  {
  }

  lemma OpOfCode2(o: Op2)
    ensures Code2(o) < MAX_OPS && OpOf(Code2(o)) == Two(o)
  {
    if Code2(o) < 47 {
      OpOfCode2Low(o);
    } else if Code2(o) < 70 {
      OpOfCode2Middle(o);
    } else {
      OpOfCode2High(o);
    }
  }

  lemma OpOfCode2Low(o: Op2)
    requires Code2(o) < 47
    ensures OpOf(Code2(o)) == Two(o)
  {
  }

  lemma OpOfCode2Middle(o: Op2)
    requires 47 <= Code2(o) < 70
    ensures OpOf(Code2(o)) == Two(o)
  {
  }

  lemma OpOfCode2High(o: Op2)
    requires 70 <= Code2(o)
    ensures Code2(o) < MAX_OPS && OpOf(Code2(o)) == Two(o)
  {
  }

  /** Bytes taken by the operands of an operation. */
  function OperandBytes(op: Op): nat {
    match op
    case Zero(_) => 0
    case One(_) => 1
    case Two(_) => 2
    case Wide(_) => 2
    case Indexed(_) => 3
    case Memory(_) => 4
    case Jump(_) => 4
    case Movi => 9
  }

  /** Bytes taken by a whole instruction. */
  function Size(op: Op): (n: nat)
    ensures 1 <= n <= 10
  {
    1 + OperandBytes(op)
  }

  /** An operation with its operands. */
  datatype Instr =
    | I0(op0: Op0)
    | I1(op1: Op1, a: int)
    | I2(op2: Op2, a: int, b: int)
    | IW(opw: OpW, n: int)
    | IR(opr: OpR, a: int, n: int)
    | IM(opm: OpM, a: int, b: int, off: int)
    | IJ(opj: OpJ, disp: int)
    | IQ(a: int, imm: u64)

  function OpOfInstr(i: Instr): Op {
    match i
    case I0(o) => Zero(o)
    case I1(o, _) => One(o)
    case I2(o, _, _) => Two(o)
    case IW(o, _) => Wide(o)
    case IR(o, _, _) => Indexed(o)
    case IM(o, _, _, _) => Memory(o)
    case IJ(o, _) => Jump(o)
    case IQ(_, _) => Movi
  }

  predicate IsByte(x: int) { 0 <= x < 256 }

  /** Every operand lies in the range its field can hold. */
  predicate InRange(i: Instr) {
    match i
    case I0(_) => true
    case I1(_, a) => IsByte(a)
    case I2(_, a, b) => IsByte(a) && IsByte(b)
    case IW(_, n) => 0 <= n < TWO16
    case IR(_, a, n) => IsByte(a) && 0 <= n < TWO16
    case IM(_, a, b, off) => IsByte(a) && IsByte(b) && -TWO16 <= 2 * off < TWO16
    case IJ(_, disp) => -TWO32 <= 2 * disp < TWO32
    case IQ(a, _) => IsByte(a)
  }
}
