/** The disassembler's walk over the code of a function: how it finds back the instructions that were
    assembled. */
module Disassembler {
  import opened Words
  import opened Isa
  import opened Codec
  import opened Program
  import opened AssemblerProofs
  import Assembler
  import ModuleImage

  /** What the walk lists from `pc` on. It stops at a zero byte or at the end of the function; a byte that is no
      opcode is passed over; an instruction is read whole even where it runs past the end. `None`: the walk reads
      beyond the file. */
  function Walk(mem: seq<byte>, pc: nat, end: nat): Option<seq<Instr>>
    decreases |mem| - pc
  {
    if pc >= |mem| then None
    else if mem[pc] == 0 || pc >= end then Some([])
    else if mem[pc] >= MAX_OPS then Walk(mem, pc + 1, end)
    else
      var op := OpOf(mem[pc]);
      if pc + Size(op) > |mem| then None
      else
        var rest := Walk(mem, pc + Size(op), end);
        if rest.None? then None else Some([DisArgs(op, mem, pc + 1)] + rest.value)
  }

  /** With what the walk still lists from `pc` on, `listing` makes up `whole`. */
  predicate Completes(mem: seq<byte>, pc: nat, end: nat, listing: seq<Instr>, whole: seq<Instr>) {
    pc < |mem| && Walk(mem, pc, end).Some? && whole == listing + Walk(mem, pc, end).value
  }

  lemma ListOne(mem: seq<byte>, pc: nat, end: nat, listing: seq<Instr>, whole: seq<Instr>)
    requires Completes(mem, pc, end, listing, whole)
    requires 0 < mem[pc] < MAX_OPS && pc < end
    ensures var op := OpOf(mem[pc]);
            && pc + Size(op) <= |mem|
            && Completes(mem, pc + Size(op), end, listing + [DisArgs(op, mem, pc + 1)], whole)
  {
    var op := OpOf(mem[pc]);
    var rest := Walk(mem, pc + Size(op), end);
    assert Walk(mem, pc, end) == Some([DisArgs(op, mem, pc + 1)] + rest.value);
    assert listing + ([DisArgs(op, mem, pc + 1)] + rest.value) == listing + [DisArgs(op, mem, pc + 1)] + rest.value;
  }

  lemma PassOver(mem: seq<byte>, pc: nat, end: nat, listing: seq<Instr>, whole: seq<Instr>)
    requires Completes(mem, pc, end, listing, whole)
    requires mem[pc] >= MAX_OPS && pc < end
    ensures Completes(mem, pc + 1, end, listing, whole)
  {
  }

  method DisasmFunc(mem: seq<byte>, start: nat, end: nat) returns (listing: seq<Instr>)
    requires Walk(mem, start, end).Some?
    ensures listing == Walk(mem, start, end).value
  {
    ghost var whole := Walk(mem, start, end).value;
    var pc := start;
    listing := [];
    while mem[pc] != 0 && pc < end
      invariant Completes(mem, pc, end, listing, whole)
      decreases |mem| - pc
    {
      var opcode := mem[pc];
      if opcode < MAX_OPS {
        ListOne(mem, pc, end, listing, whole);
      } else {
        PassOver(mem, pc, end, listing, whole);
      }
      pc := pc + 1;
      if opcode < MAX_OPS {
        listing := listing + [DisArgs(OpOf(opcode), mem, pc)];
        pc := pc + OperandBytes(OpOf(opcode));
      }
    }
  }

  /** The bytes of a list of instructions. */
  function Code(instrs: seq<Instr>): seq<byte> {
    if instrs == [] then [] else Encode(instrs[0]) + Code(instrs[1..])
  }

  predicate AllInRange(instrs: seq<Instr>) {
    forall k :: 0 <= k < |instrs| ==> InRange(instrs[k])
  }

  /** The instructions before the first halt. */
  function BeforeHalt(instrs: seq<Instr>): seq<Instr> {
    if instrs == [] || instrs[0] == I0(Halt) then [] else [instrs[0]] + BeforeHalt(instrs[1..])
  }

  lemma {:induction false} WithoutHalt(instrs: seq<Instr>)
    ensures BeforeHalt(instrs) == instrs <==> I0(Halt) !in instrs
  {
    if instrs != [] && instrs[0] != I0(Halt) {
      WithoutHalt(instrs[1..]);
      assert instrs == [instrs[0]] + instrs[1..];
      assert BeforeHalt(instrs)[1..] == BeforeHalt(instrs[1..]);
    }
  }

  /** Only halt has opcode 0. */
  lemma ZeroIsHalt(i: Instr)
    ensures OpCode(OpOfInstr(i)) == 0 <==> i == I0(Halt)
  {
    OpOfOpCode(OpOfInstr(i));
  }

  /** Code of a function, and then zeroes up to `end`. */
  predicate CodeUpTo(mem: seq<byte>, p: nat, instrs: seq<Instr>, end: nat) {
    && PlacedAt(mem, p, Code(instrs)) && p + |Code(instrs)| <= end < |mem|
    && forall k :: p + |Code(instrs)| <= k < end ==> mem[k] == 0
  }

  /** One instruction is read as it was encoded. */
  lemma ReadsOne(mem: seq<byte>, p: nat, i: Instr)
    requires InRange(i) && EncodedAt(mem, p, i)
    ensures mem[p] < MAX_OPS && OpOf(mem[p]) == OpOfInstr(i) && DisArgs(OpOf(mem[p]), mem, p + 1) == i
    ensures mem[p] == 0 <==> i == I0(Halt)
  {
    assert mem[p] == mem[p..p + Size(OpOfInstr(i))][0];
    OpOfOpCode(OpOfInstr(i));
    FetchEncoded(mem, p, i);
    ZeroIsHalt(i);
    ReadersAgree(OpOf(mem[p]), mem, p + 1);
  }

  lemma FirstAndRest(mem: seq<byte>, p: nat, instrs: seq<Instr>, end: nat)
    requires CodeUpTo(mem, p, instrs, end) && instrs != []
    ensures EncodedAt(mem, p, instrs[0])
    ensures CodeUpTo(mem, p + Size(OpOfInstr(instrs[0])), instrs[1..], end)
    ensures p < end
  {
    PlacedSplit(mem, p, Encode(instrs[0]), Code(instrs[1..]));
  }

  /** The walk lists exactly the instructions before the first halt, and stops at the padding. */
  lemma {:induction false} WalkReadsBack(mem: seq<byte>, p: nat, instrs: seq<Instr>, end: nat)
    requires AllInRange(instrs) && CodeUpTo(mem, p, instrs, end)
    ensures Walk(mem, p, end) == Some(BeforeHalt(instrs))
    decreases |instrs|
  {
    if instrs != [] {
      var i := instrs[0];
      FirstAndRest(mem, p, instrs, end);
      ReadsOne(mem, p, i);
      if i != I0(Halt) {
        WalkReadsBack(mem, p + Size(OpOfInstr(i)), instrs[1..], end);
      }
    }
  }

  /** Functions without halt are determined by their padded code. */
  lemma {:induction false} PaddedCodeIsUnique(a: seq<Instr>, b: seq<Instr>, m: nat, n: nat)
    requires AllInRange(a) && AllInRange(b) && I0(Halt) !in a && I0(Halt) !in b
    requires Code(a) + Zeros(m) == Code(b) + Zeros(n)
    ensures a == b
  {
    var mem := Code(a) + Zeros(m) + [0];
    var end := |mem| - 1;
    WithoutHalt(a);
    WithoutHalt(b);
    assert mem == Code(b) + Zeros(n) + [0];
    PaddingIsZero(a, m, mem);
    PaddingIsZero(b, n, mem);
    WalkReadsBack(mem, 0, a, end);
    WalkReadsBack(mem, 0, b, end);
  }

  lemma {:induction false} PaddingIsZero(a: seq<Instr>, m: nat, mem: seq<byte>)
    requires mem == Code(a) + Zeros(m) + [0]
    ensures CodeUpTo(mem, 0, a, |mem| - 1)
  {
    assert mem[0..|Code(a)|] == Code(a);
    forall k | |Code(a)| <= k < |mem| - 1 ensures mem[k] == 0 {
      assert mem[k] == Zeros(m)[k - |Code(a)|];
    }
  }

  /** With halts, codes still determine the instructions: no encoding is the beginning of another. */
  lemma {:induction false} CodeIsUnique(a: seq<Instr>, b: seq<Instr>)
    requires AllInRange(a) && AllInRange(b) && Code(a) == Code(b)
    ensures a == b
    decreases |a|
  {
    if a != [] && b != [] {
      var c := Code(a);
      assert c[0..Size(OpOfInstr(a[0]))] == Encode(a[0]);
      assert c[0..Size(OpOfInstr(b[0]))] == Encode(b[0]);
      FetchEncoded(c, 0, a[0]);
      FetchEncoded(c, 0, b[0]);
      assert Code(a[1..]) == c[Size(OpOfInstr(a[0]))..] == Code(b[1..]);
      CodeIsUnique(a[1..], b[1..]);
      assert a == [a[0]] + a[1..] && b == [b[0]] + b[1..];
    }
  }

  // ----- assembled functions -----

  lemma {:induction false} CodeSnoc(instrs: seq<Instr>, i: Instr)
    ensures Code(instrs + [i]) == Code(instrs) + Encode(i)
    decreases |instrs|
  {
    if instrs == [] {
      assert instrs + [i] == [i];
      assert Code([i]) == Encode(i) + Code([]);
    } else {
      assert (instrs + [i])[1..] == instrs[1..] + [i];
      CodeSnoc(instrs[1..], i);
      AppendAssoc(Encode(instrs[0]), Code(instrs[1..]), Encode(i));
    }
  }

  /** The instructions that the first `k` items of a body stand for. */
  function Listing(src: seq<Func>, vars: seq<string>, f: Func, k: nat): seq<Instr>
    requires f.Body? && k <= |f.items|
  {
    if k == 0 then []
    else
      var prev := Listing(src, vars, f, k - 1);
      if f.items[k - 1].Do? then prev + [Meaning(src, vars, f, k - 1)] else prev
  }

  lemma {:induction false} EmitIsListing(src: seq<Func>, vars: seq<string>, n: nat, k: nat)
    requires ProgramOk(src, vars) && n < |src| && src[n].Body? && k <= |src[n].items|
    ensures Assembler.Emit(Assembler.ContextOf(src, vars), src[n].name, src[n].items, k)
            == Some(Code(Listing(src, vars, src[n], k)))
    ensures AllInRange(Listing(src, vars, src[n], k))
    decreases k
  {
    if k > 0 {
      EmitIsListing(src, vars, n, k - 1);
      if src[n].items[k - 1].Do? {
        EmitNext(src, vars, n, k - 1);
        ListingSnoc(Listing(src, vars, src[n], k - 1), Meaning(src, vars, src[n], k - 1));
      }
    }
  }

  /** One more statement appends the instruction it stands for. */
  lemma {:induction false} EmitNext(src: seq<Func>, vars: seq<string>, n: nat, k: nat)
    requires ProgramOk(src, vars) && n < |src| && src[n].Body?
    requires k < |src[n].items| && src[n].items[k].Do?
    ensures var ctx := Assembler.ContextOf(src, vars);
            var i := Meaning(src, vars, src[n], k);
            var prev := Assembler.Emit(ctx, src[n].name, src[n].items, k);
            && InRange(i)
            && Assembler.Emit(ctx, src[n].name, src[n].items, k + 1)
               == if prev.None? then None else Some(prev.value + Encode(i))
  {
    LowerIsMeaning(src, vars, n, k);
  }

  lemma {:induction false} ListingSnoc(instrs: seq<Instr>, i: Instr)
    requires AllInRange(instrs) && InRange(i)
    ensures Code(instrs + [i]) == Code(instrs) + Encode(i) && AllInRange(instrs + [i])
  {
    CodeSnoc(instrs, i);
  }

  lemma {:induction false} AssembledIsListing(src: seq<Func>, vars: seq<string>, n: nat)
    requires ProgramOk(src, vars) && n < |src| && src[n].Body?
    ensures var instrs := Listing(src, vars, src[n], |src[n].items|);
            CodeOf(src, vars, n) == Some(Code(instrs)) && AllInRange(instrs)
  {
    EmitIsListing(src, vars, n, |src[n].items|);
  }

  lemma {:induction false} PaddedReadsBack(mem: seq<byte>, p: nat, instrs: seq<Instr>, code: seq<byte>)
    requires AllInRange(instrs) && code == Code(instrs)
    requires PlacedAt(mem, p, ModuleImage.Padded(code)) && p + |ModuleImage.Padded(code)| < |mem|
    ensures Walk(mem, p, p + |ModuleImage.Padded(code)|) == Some(BeforeHalt(instrs))
  {
    var pad := Zeros(AlignSize(|code|, 4) - |code|);
    PlacedSplit(mem, p, code, pad);
    var q := p + |code|;
    forall k | q <= k < q + |pad| ensures mem[k] == 0 {
      assert mem[k] == mem[q..q + |pad|][k - q];
    }
    WalkReadsBack(mem, p, instrs, q + |pad|);
  }

  /** An assembled function, padded as in a module image, is read back as the instructions its statements stand
      for, up to the first halt. */
  lemma {:induction false} AssembledIsReadBack(src: seq<Func>, vars: seq<string>, n: nat, code: seq<byte>,
                                               mem: seq<byte>, p: nat)
    requires ProgramOk(src, vars) && n < |src| && src[n].Body? && CodeOf(src, vars, n) == Some(code)
    requires PlacedAt(mem, p, ModuleImage.Padded(code)) && p + |ModuleImage.Padded(code)| < |mem|
    ensures Walk(mem, p, p + |ModuleImage.Padded(code)|)
            == Some(BeforeHalt(Listing(src, vars, src[n], |src[n].items|)))
  {
    AssembledIsListing(src, vars, n);
    PaddedReadsBack(mem, p, Listing(src, vars, src[n], |src[n].items|), code);
  }
}
