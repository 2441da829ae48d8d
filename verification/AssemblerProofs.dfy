/** What the two passes achieve together: label offsets are byte offsets, jumps land on their labels,
    names become table indices. */
module AssemblerProofs {
  import opened Words
  import opened Isa
  import opened Codec
  import opened Program
  import opened Assembler

  // ----- the two passes measure alike -----

  /** The second pass has emitted, before any item, exactly the bytes the first pass counted. */
  lemma {:induction false} EmitLength(ctx: Context, fname: string, items: seq<Item>, k: nat)
    requires k <= |items| && Emit(ctx, fname, items, k).Some?
    ensures |Emit(ctx, fname, items, k).value| == PcAt(items, k)
    decreases k
  {
    if k > 0 {
      EmitLength(ctx, fname, items, k - 1);
    }
  }

  lemma PrefixSlice(code: seq<byte>, b: seq<byte>, e: seq<byte>)
    requires b + e <= code
    ensures |b| + |e| <= |code| && code[|b|..|b| + |e|] == e
  {
    assert forall j :: 0 <= j < |e| ==> code[|b| + j] == (b + e)[|b| + j] == e[j];
  }

  /** In the finished code, each statement's encoding sits at the statement's byte offset. */
  lemma EmitAt(ctx: Context, fname: string, items: seq<Item>, k: nat)
    requires k < |items| && items[k].Do? && Emit(ctx, fname, items, |items|).Some?
    ensures var low := Lower(ctx, fname, PcAt(items, k + 1), items[k].s);
            low.Some? && EncodedAt(Emit(ctx, fname, items, |items|).value, PcAt(items, k), low.value)
  {
    EmitPrefix(ctx, fname, items, k + 1, |items|);
    EmitStep(ctx, fname, items, k);
    EmitLength(ctx, fname, items, k);
    PrefixSlice(Emit(ctx, fname, items, |items|).value, Emit(ctx, fname, items, k).value,
                Encode(Lower(ctx, fname, PcAt(items, k + 1), items[k].s).value));
  }

  // ----- labels -----

  /** Item `k` of function `n` is a mark filed under `key`. */
  predicate FiledAt(src: seq<Func>, n: nat, k: nat, key: string) {
    n < |src| && MarkFiled(src[n], k, key)
  }

  predicate MarkFiled(f: Func, k: nat, key: string) {
    f.Body? && k < |f.items| && f.items[k].Mark? && f.items[k].lab + f.name == key
  }

  /** No two marks of the program are filed under the same key. */
  ghost predicate KeysDistinct(src: seq<Func>) {
    forall n, k, n', k', key :: FiledAt(src, n, k, key) && FiledAt(src, n', k', key) ==> n == n' && k == k'
  }

  /** Marks under other keys leave the entry of `key` alone. */
  lemma {:induction false} BodyLabelsKeep(t: map<string, nat>, f: Func, k: nat, key: string)
    requires f.Body? && k <= |f.items|
    requires forall j :: 0 <= j < k ==> !MarkFiled(f, j, key)
    ensures key in BodyLabels(t, f.name, f.items, k) <==> key in t
    ensures key in t ==> BodyLabels(t, f.name, f.items, k)[key] == t[key]
    decreases k
  {
    if k > 0 {
      BodyLabelsKeep(t, f, k - 1, key);
      assert !MarkFiled(f, k - 1, key);
    }
  }

  lemma {:induction false} BodyLabelsFind(t: map<string, nat>, f: Func, k: nat, n: nat, key: string)
    requires k < n && f.Body? && n <= |f.items| && MarkFiled(f, k, key)
    requires forall j :: 0 <= j < n && MarkFiled(f, j, key) ==> j == k
    ensures var t' := BodyLabels(t, f.name, f.items, n); key in t' && t'[key] == PcAt(f.items, k)
    decreases n
  {
    if k + 1 < n {
      BodyLabelsFind(t, f, k, n - 1, key);
      assert !MarkFiled(f, n - 1, key);
    }
  }

  /** The first pass files every label at the bytes before its mark, whatever follows. */
  lemma {:induction false} LabelsFind(src: seq<Func>, n: nat, m: nat, k: nat, key: string)
    requires KeysDistinct(src) && m < n <= |src| && FiledAt(src, m, k, key)
    ensures key in Labels(src, n) && Labels(src, n)[key] == PcAt(src[m].items, k)
    decreases n
  {
    var f := src[n - 1];
    if m == n - 1 {
      forall j | 0 <= j < |f.items| && MarkFiled(f, j, key) ensures j == k {
        assert FiledAt(src, m, j, key);
      }
      BodyLabelsFind(Labels(src, n - 1), f, k, |f.items|, key);
    } else {
      LabelsFind(src, n - 1, m, k, key);
      if f.Body? {
        forall j | 0 <= j < |f.items| ensures !MarkFiled(f, j, key) {
          assert FiledAt(src, n - 1, j, key) ==> n - 1 == m;
        }
        BodyLabelsKeep(Labels(src, n - 1), f, |f.items|, key);
      }
    }
  }

  // ----- names -----

  function NameList(src: seq<Func>): (names: seq<string>)
    ensures |names| == |src| && forall n :: 0 <= n < |src| ==> names[n] == src[n].name
  {
    seq(|src|, n requires 0 <= n < |src| => src[n].name)
  }

  ghost predicate NamesDistinct(src: seq<Func>) {
    forall m, n :: 0 <= m < n < |src| ==> src[m].name != src[n].name
  }

  lemma {:induction false} NamesInOrder(src: seq<Func>, n: nat)
    requires NamesDistinct(src) && n <= |src|
    ensures Names(src, n) == NameList(src)[..n]
    decreases n
  {
    if n > 0 {
      NamesInOrder(src, n - 1);
      assert NameList(src)[..n] == NameList(src)[..n - 1] + [src[n - 1].name];
    }
  }

  // ----- programs the assembler accepts and renders exactly -----

  /** Operands in range, and every name and label declared where it is used. */
  predicate StmtOk(src: seq<Func>, vars: seq<string>, f: Func, s: Stmt) {
    match s
    case Ins(i) => Accepts(i) && InRange(i)
    case Branch(_, lab) => f.Body? && MarkIndex(f.items, lab) < |f.items|
    case CallFn(name) => name in NameList(src)
    case LoadFn(reg, name) => IsByte(reg) && name in NameList(src)
    case LoadVar(reg, name) => IsByte(reg) && name in vars
  }

  predicate BodyOk(src: seq<Func>, vars: seq<string>, f: Func) {
    f.Body? ==>
      && PcAt(f.items, |f.items|) < TWO32 / 2
      && forall k :: 0 <= k < |f.items| && f.items[k].Do? ==> StmtOk(src, vars, f, f.items[k].s)
  }

  ghost predicate ProgramOk(src: seq<Func>, vars: seq<string>) {
    && NamesDistinct(src) && KeysDistinct(src)
    && |src| < TWO16 && |vars| <= TWO16
    && forall n :: 0 <= n < |src| ==> BodyOk(src, vars, src[n])
  }

  /** The numeric instruction a statement stands for, given what follows the statement in memory:
      names have become table positions (calls count from 1), and a jump's displacement leads from
      the next instruction to the label. */
  function Meaning(src: seq<Func>, vars: seq<string>, f: Func, k: nat): Instr
    requires f.Body? && k < |f.items| && f.items[k].Do?
  {
    match f.items[k].s
    case Ins(i) => i
    case Branch(op, lab) => IJ(op, PcAt(f.items, MarkIndex(f.items, lab)) - PcAt(f.items, k + 1))
    case CallFn(name) => IW(Call, IndexOf(NameList(src), name) + 1)
    case LoadFn(reg, name) => IR(Ldfn, reg, IndexOf(NameList(src), name))
    case LoadVar(reg, name) => IR(Ldvar, reg, IndexOf(vars, name))
  }

  /** Both passes together turn each statement into the instruction it stands for. */
  lemma {:induction false} LowerIsMeaning(src: seq<Func>, vars: seq<string>, n: nat, k: nat)
    requires ProgramOk(src, vars) && n < |src| && src[n].Body?
    requires k < |src[n].items| && src[n].items[k].Do?
    ensures var f := src[n];
            var i := Meaning(src, vars, f, k);
            InRange(i)
            && Lower(ContextOf(src, vars), f.name, PcAt(f.items, k + 1), f.items[k].s) == Some(i)
  {
    if src[n].items[k].s.Branch? {
      BranchResolves(src, vars, n, k);
    } else {
      NamedResolves(src, vars, n, k);
    }
  }

  lemma NamedResolves(src: seq<Func>, vars: seq<string>, n: nat, k: nat)
    requires ProgramOk(src, vars) && n < |src| && src[n].Body?
    requires k < |src[n].items| && src[n].items[k].Do? && !src[n].items[k].s.Branch?
    ensures var f := src[n];
            var i := Meaning(src, vars, f, k);
            InRange(i)
            && Lower(ContextOf(src, vars), f.name, PcAt(f.items, k + 1), f.items[k].s) == Some(i)
  {
    var f := src[n];
    assert BodyOk(src, vars, f) && StmtOk(src, vars, f, f.items[k].s);
    NamesInOrder(src, |src|);
    assert NameList(src)[..|src|] == NameList(src);
  }

  lemma {:induction false} BranchResolves(src: seq<Func>, vars: seq<string>, n: nat, k: nat)
    requires ProgramOk(src, vars) && n < |src| && src[n].Body?
    requires k < |src[n].items| && src[n].items[k].Do? && src[n].items[k].s.Branch?
    ensures var f := src[n];
            var key := f.items[k].s.lab + f.name;
            var ctx := ContextOf(src, vars);
            var d := PcAt(f.items, MarkIndex(f.items, f.items[k].s.lab)) - PcAt(f.items, k + 1);
            && key in ctx.labels && -TWO32 <= 2 * d < TWO32
            && Wrap(TWO32, ctx.labels[key] - PcAt(f.items, k + 1)) == d
  {
    var f := src[n];
    assert BodyOk(src, vars, f) && StmtOk(src, vars, f, f.items[k].s);
    var lab := f.items[k].s.lab;
    var t := MarkIndex(f.items, lab);
    assert FiledAt(src, n, t, lab + f.name);
    LabelsFind(src, |src|, n, t, lab + f.name);
    PcMonotone(f.items, t, |f.items|);
    PcMonotone(f.items, k + 1, |f.items|);
    WrapFits(TWO32, PcAt(f.items, t) - PcAt(f.items, k + 1));
  }

  /** The assembler reports no error on such a program ... */
  lemma {:induction false} ProgramEmits(src: seq<Func>, vars: seq<string>, n: nat, k: nat)
    requires ProgramOk(src, vars) && n < |src| && src[n].Body? && k <= |src[n].items|
    ensures Emit(ContextOf(src, vars), src[n].name, src[n].items, k).Some?
    decreases k
  {
    if k > 0 {
      ProgramEmits(src, vars, n, k - 1);
      if src[n].items[k - 1].Do? {
        LowerIsMeaning(src, vars, n, k - 1);
      }
    }
  }

  /** The code of function `n`. */
  function CodeOf(src: seq<Func>, vars: seq<string>, n: nat): Option<seq<byte>>
    requires n < |src| && src[n].Body?
  {
    Emit(ContextOf(src, vars), src[n].name, src[n].items, |src[n].items|)
  }

  /** ... and wherever the code of a function is placed, fetching at a statement's byte offset yields
      the instruction the statement stands for and moves on to the next statement's byte offset. */
  lemma FetchStatement(src: seq<Func>, vars: seq<string>, n: nat, k: nat, code: seq<byte>, mem: seq<byte>, base: nat)
    requires ProgramOk(src, vars) && n < |src| && src[n].Body?
    requires k < |src[n].items| && src[n].items[k].Do?
    requires CodeOf(src, vars, n) == Some(code) && PlacedAt(mem, base, code)
    ensures var f := src[n];
            Fetch(mem, base + PcAt(f.items, k))
            == Fetched(Meaning(src, vars, f, k), base + PcAt(f.items, k + 1))
  {
    FetchBetween(src, vars, n, k, code, mem, base, PcAt(src[n].items, k), PcAt(src[n].items, k + 1));
  }

  lemma FetchBetween(src: seq<Func>, vars: seq<string>, n: nat, k: nat, code: seq<byte>, mem: seq<byte>, base: nat,
                     p: nat, q: nat)
    requires ProgramOk(src, vars) && n < |src| && src[n].Body?
    requires k < |src[n].items| && src[n].items[k].Do?
    requires CodeOf(src, vars, n) == Some(code) && PlacedAt(mem, base, code)
    requires p == PcAt(src[n].items, k) && q == PcAt(src[n].items, k + 1)
    ensures Fetch(mem, base + p) == Fetched(Meaning(src, vars, src[n], k), base + q)
  {
    var i := MeaningAt(src, vars, n, k);
    FetchPlaced(mem, base, code, p, q, i);
  }

  /** The code holds the instruction a statement stands for at the statement's offset. */
  lemma MeaningAt(src: seq<Func>, vars: seq<string>, n: nat, k: nat) returns (i: Instr)
    requires ProgramOk(src, vars) && n < |src| && src[n].Body?
    requires k < |src[n].items| && src[n].items[k].Do? && CodeOf(src, vars, n).Some?
    ensures i == Meaning(src, vars, src[n], k) && InRange(i)
    ensures EncodedAt(CodeOf(src, vars, n).value, PcAt(src[n].items, k), i)
    ensures PcAt(src[n].items, k + 1) == PcAt(src[n].items, k) + Size(OpOfInstr(i))
  {
    i := Meaning(src, vars, src[n], k);
    LowerIsMeaning(src, vars, n, k);
    EmitAt(ContextOf(src, vars), src[n].name, src[n].items, k);
    MeaningSize(src, vars, src[n], k);
  }

  lemma MeaningSize(src: seq<Func>, vars: seq<string>, f: Func, k: nat)
    requires f.Body? && k < |f.items| && f.items[k].Do?
    ensures PcAt(f.items, k + 1) == PcAt(f.items, k) + Size(OpOfInstr(Meaning(src, vars, f, k)))
  {
  }

  lemma FetchPlaced(mem: seq<byte>, base: nat, code: seq<byte>, p: nat, q: nat, i: Instr)
    requires PlacedAt(mem, base, code) && EncodedAt(code, p, i) && InRange(i) && q == p + Size(OpOfInstr(i))
    ensures Fetch(mem, base + p) == Fetched(i, base + q)
  {
    PlacedSlice(mem, base, code, p, Size(OpOfInstr(i)));
    FetchEncoded(mem, base + p, i);
  }

  /** The instruction at item `k`, placed at `base`, is a jump whose displacement, added to the
      address after it, is the address of `lab`. */
  predicate JumpsTo(mem: seq<byte>, base: nat, items: seq<Item>, k: nat, lab: string)
    requires k <= |items|
  {
    var j := Fetch(mem, base + PcAt(items, k));
    j.Fetched? && j.i.IJ? && j.next + j.i.disp == base + PcAt(items, MarkIndex(items, lab))
  }

  /** Every jump lands on its label, whether the label lies before or behind. */
  lemma JumpLandsOnLabel(src: seq<Func>, vars: seq<string>, n: nat, k: nat, mem: seq<byte>, base: nat)
    requires ProgramOk(src, vars) && n < |src| && src[n].Body?
    requires k < |src[n].items| && src[n].items[k].Do? && src[n].items[k].s.Branch?
    requires CodeOf(src, vars, n).Some? && PlacedAt(mem, base, CodeOf(src, vars, n).value)
    ensures JumpsTo(mem, base, src[n].items, k, src[n].items[k].s.lab)
  {
    FetchStatement(src, vars, n, k, CodeOf(src, vars, n).value, mem, base);
  }

  // ----- where the operand checks are too weak -----

  /** What a statement says, with names and labels resolved to numbers of any size. */
  function Intended(ctx: Context, fname: string, pcAfter: nat, s: Stmt): Instr
    requires Lower(ctx, fname, pcAfter, s).Some?
  {
    match s
    case Ins(i) => i
    case Branch(op, lab) => IJ(op, ctx.labels[lab + fname] - pcAfter)
    case CallFn(name) => IW(Call, IndexOf(ctx.names, name) + 1)
    case LoadFn(reg, name) => IR(Ldfn, reg, IndexOf(ctx.names, name))
    case LoadVar(reg, name) => IR(Ldvar, reg, IndexOf(ctx.vars, name))
  }

  /** The numbers fit their fields. */
  predicate FitsFields(ctx: Context, fname: string, pcAfter: nat, s: Stmt)
    requires Lower(ctx, fname, pcAfter, s).Some?
  {
    match s
    case Ins(IQ(a, _)) => a != 256
    case Ins(IM(_, _, _, off)) => -TWO16 <= 2 * off < TWO16
    case Ins(_) => true
    case Branch(_, lab) => -TWO32 <= 2 * (ctx.labels[lab + fname] - pcAfter) < TWO32
    case CallFn(name) => IndexOf(ctx.names, name) + 1 < TWO16
    case LoadFn(_, name) => IndexOf(ctx.names, name) < TWO16
    case LoadVar(_, name) => IndexOf(ctx.vars, name) < TWO16
  }

  lemma EncodedIsExact(code: seq<byte>, p: nat, i: Instr)
    requires EncodedAt(code, p, i)
    ensures (Fetch(code, p).Fetched? && Fetch(code, p).i == i) <==> InRange(i)
  {
    if InRange(i) {
      FetchEncoded(code, p, i);
    } else if Fetch(code, p).Fetched? {
      FetchedIsEncoded(code, p);
    }
  }

  lemma WrapIsExact(m: int, d: int)
    requires m > 0
    ensures Wrap(m, d) == d <==> -m <= 2 * d < m
    ensures -m <= 2 * Wrap(m, d) < m
  {
    if -m <= 2 * d < m {
      WrapFits(m, d);
    }
  }

  /** An accepted statement is fetched as what it says exactly when its numbers fit their fields. */
  lemma AcceptedIsExact(code: seq<byte>, p: nat, ctx: Context, fname: string, pcAfter: nat, s: Stmt)
    requires Lower(ctx, fname, pcAfter, s).Some? && EncodedAt(code, p, Lower(ctx, fname, pcAfter, s).value)
    ensures (Fetch(code, p).Fetched? && Fetch(code, p).i == Intended(ctx, fname, pcAfter, s))
            <==> FitsFields(ctx, fname, pcAfter, s)
  {
    EncodedIsExact(code, p, Lower(ctx, fname, pcAfter, s).value);
    if s.Branch? {
      WrapIsExact(TWO32, ctx.labels[s.lab + fname] - pcAfter);
    }
  }

  /** The operand checks against the ranges of the fields: they are the same but for register 256 of `movi`, offset
      65535 of `lra`, widths that `setelen` refuses, and offsets of loads and stores, which are not checked. Jumps,
      calls and loads of functions and variables are refused unless written by name. */
  lemma ChecksAgainstRanges(i: Instr)
    ensures match i
            case I0(_) => Accepts(i)
            case I1(op, a) => Accepts(i) <==> InRange(i) && (op == Setelen ==> a == 1 || a == 2 || a == 4 || a == 8)
            case I2(_, _, _) => Accepts(i) <==> InRange(i)
            case IW(op, _) => Accepts(i) <==> InRange(i) && op == Setvlen
            case IR(op, _, n) => Accepts(i) <==> InRange(i) && op == Lra && n != 65535
            case IM(op, a, b, _) => Accepts(i) <==> InRange(IM(op, a, b, 0))
            case IJ(_, _) => !Accepts(i)
            case IQ(a, _) => Accepts(i) <==> InRange(i) || a == 256
  {
  }

  /** `movi r256, v` assembles to the bytes of `movi r0, v`. */
  lemma Register256Is0(imm: u64)
    ensures Accepts(IQ(256, imm)) && Encode(IQ(256, imm)) == Encode(IQ(0, imm))
  {
  }

  /** An offset of 2^15 assembles to the bytes of -2^15. */
  lemma OffsetWraps(op: OpM, a: int, b: int)
    requires IsByte(a) && IsByte(b)
    ensures Accepts(IM(op, a, b, TWO16 / 2)) && Encode(IM(op, a, b, TWO16 / 2)) == Encode(IM(op, a, b, -TWO16 / 2))
  {
    ModUnique(-TWO16 / 2, TWO16, -1, TWO16 / 2);
    ModUnique(TWO16 / 2, TWO16, 0, TWO16 / 2);
  }

  /** Names that differ in length. */
  function Numbered(n: nat): (names: seq<string>)
    ensures |names| == n && forall k :: 0 <= k < n ==> |names[k]| == k + 1
  {
    seq(n, k requires 0 <= k < n => seq(k + 1, _ => 'a'))
  }

  /** A source that declares these names, and a function that refers to the 65536th and the 65537th. */
  function LargeSource(n: nat, reg: int): (src: seq<Func>)
    requires n > TWO16
    ensures |src| == n + 1 && src[n] == Body("", LargeBody(n, reg))
    ensures forall k :: 0 <= k < n ==> src[k] == Extern(Numbered(n)[k])
  {
    seq(n, k requires 0 <= k < n => Extern(Numbered(n)[k])) + [Body("", LargeBody(n, reg))]
  }

  function LargeBody(n: nat, reg: int): seq<Item>
    requires n > TWO16
  {
    var names := Numbered(n);
    [Do(CallFn(names[TWO16 - 1])), Do(LoadFn(reg, names[TWO16])), Do(LoadVar(reg, names[TWO16]))]
  }

  /** The first pass numbers them in order. */
  lemma LargeContext(n: nat, reg: int)
    requires n > TWO16
    ensures ContextOf(LargeSource(n, reg), Numbered(n)).names == Numbered(n) + [""]
  {
    var src := LargeSource(n, reg);
    forall k, l | 0 <= k < l < |src| ensures src[k].name != src[l].name {
      assert |src[k].name| == k + 1 && |src[l].name| == if l < n then l + 1 else 0;
    }
    NamesInOrder(src, |src|);
    assert NameList(src) == Numbered(n) + [""];
  }

  lemma NumberedIndex(n: nat, k: nat)
    requires k < n
    ensures IndexOf(Numbered(n), Numbered(n)[k]) == k && IndexOf(Numbered(n) + [""], Numbered(n)[k]) == k
  {
    assert Numbered(n)[k] in Numbered(n);
    assert (Numbered(n) + [""])[k] == Numbered(n)[k];
  }

  /** Statements are accepted for any number of names: the 65536th function can be called, the 65537th function and
      variable addressed ... */
  lemma LargeIndicesAccepted(n: nat, reg: int, pcAfter: nat)
    requires n > TWO16 && IsByte(reg)
    ensures var ctx := ContextOf(LargeSource(n, reg), Numbered(n));
            var names := Numbered(n);
            && Lower(ctx, "", pcAfter, CallFn(names[TWO16 - 1])) == Some(IW(Call, TWO16))
            && Lower(ctx, "", pcAfter, LoadFn(reg, names[TWO16])) == Some(IR(Ldfn, reg, TWO16))
            && Lower(ctx, "", pcAfter, LoadVar(reg, names[TWO16])) == Some(IR(Ldvar, reg, TWO16))
  {
    LargeContext(n, reg);
    NumberedIndex(n, TWO16 - 1);
    NumberedIndex(n, TWO16);
    var ctx := ContextOf(LargeSource(n, reg), Numbered(n));
    NamedLowers(ctx, pcAfter, Numbered(n)[TWO16 - 1], TWO16 - 1, reg);
    NamedLowers(ctx, pcAfter, Numbered(n)[TWO16], TWO16, reg);
  }

  lemma NamedLowers(ctx: Context, pcAfter: nat, name: string, k: nat, reg: int)
    requires IsByte(reg) && IndexOf(ctx.names, name) == k < |ctx.names| && IndexOf(ctx.vars, name) == k
    ensures Lower(ctx, "", pcAfter, CallFn(name)) == Some(IW(Call, k + 1))
    ensures Lower(ctx, "", pcAfter, LoadFn(reg, name)) == Some(IR(Ldfn, reg, k))
    ensures k < |ctx.vars| ==> Lower(ctx, "", pcAfter, LoadVar(reg, name)) == Some(IR(Ldvar, reg, k))
  {
  }

  /** ... and assemble to the bytes of `call 0`, and of the addresses of the first function and variable. */
  lemma LargeIndicesWrap(reg: int)
    ensures Encode(IW(Call, TWO16)) == Encode(IW(Call, 0))
    ensures Encode(IR(Ldfn, reg, TWO16)) == Encode(IR(Ldfn, reg, 0))
    ensures Encode(IR(Ldvar, reg, TWO16)) == Encode(IR(Ldvar, reg, 0))
  {
    ModUnique(TWO16, TWO16, 1, 0);
  }

  /** A function that jumps over `n` bytes. */
  function JumpBody(op: OpJ, lab: string, n: nat): (items: seq<Item>)
    ensures |items| == n + 2 && items[0] == Do(Branch(op, lab)) && items[n + 1] == Mark(lab)
    ensures forall k :: 1 <= k <= n ==> items[k] == Do(Ins(I0(Nop)))
  {
    [Do(Branch(op, lab))] + seq(n, _ => Do(Ins(I0(Nop)))) + [Mark(lab)]
  }

  lemma {:induction false} JumpBodyPc(op: OpJ, lab: string, n: nat, k: nat)
    requires k <= n
    ensures PcAt(JumpBody(op, lab, n), k + 1) == PcAt(JumpBody(op, lab, n), 1) + k
    decreases k
  {
    if k > 0 {
      JumpBodyPc(op, lab, n, k - 1);
    }
  }

  /** A jump 2^31 bytes ahead is accepted as one 2^31 bytes back. */
  lemma JumpWraps(op: OpJ, lab: string, fname: string, n: nat)
    requires n == TWO32 / 2
    ensures var items := JumpBody(op, lab, n);
            var ctx := ContextOf([Body(fname, items)], []);
            Lower(ctx, fname, PcAt(items, 1), items[0].s) == Some(IJ(op, 0 - n))
  {
    var items := JumpBody(op, lab, n);
    var src := [Body(fname, items)];
    assert FiledAt(src, 0, n + 1, lab + fname);
    LabelsFind(src, 1, 0, n + 1, lab + fname);
    JumpBodyPc(op, lab, n, n);
    ModUnique(n, TWO32, 0, n);
  }
}
