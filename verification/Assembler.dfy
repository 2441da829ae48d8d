/** The two-pass assembler: the first pass records label offsets, the second emits code. */
module Assembler {
  import opened Words
  import opened Isa
  import opened Codec
  import opened Program

  /** What the passes know: function and variable names in declaration order, and label offsets
      keyed by label name followed by function name. */
  datatype Context = Context(names: seq<string>, vars: seq<string>, labels: map<string, nat>)

  // ----- what each statement assembles to -----

  /** The assembler's own operand checks. Calls, name loads and jumps must be written by name. */
  predicate Accepts(i: Instr) {
    match i
    case I0(_) => true
    case I1(op, a) => if op == Setelen then a in {1, 2, 4, 8} else IsByte(a)
    case I2(_, a, b) => IsByte(a) && IsByte(b)
    case IW(op, n) => op == Setvlen && 0 <= n < TWO16
    case IR(op, a, n) => op == Lra && IsByte(a) && 0 <= n < 0xFFFF
    case IM(_, a, b, _) => IsByte(a) && IsByte(b)
    case IJ(_, _) => false
    case IQ(a, _) => 0 <= a <= 256
  }

  /** The instruction passed to the encoder for a statement whose encoding ends at `pcAfter`; `None`
      where the assembler reports an error. */
  function Lower(ctx: Context, fname: string, pcAfter: nat, s: Stmt): (r: Option<Instr>)
    ensures r.Some? ==> OpOfInstr(r.value) == OpOfStmt(s)
  {
    match s
    case Ins(i) =>
      if Accepts(i) then Some(i) else None
    case Branch(op, lab) =>
      var key := lab + fname;
      if key in ctx.labels then Some(IJ(op, Wrap(TWO32, ctx.labels[key] - pcAfter))) else None
    case CallFn(name) =>
      var id := IndexOf(ctx.names, name);
      if id < |ctx.names| then Some(IW(Call, id + 1)) else None
    case LoadFn(reg, name) =>
      var id := IndexOf(ctx.names, name);
      if IsByte(reg) && id < |ctx.names| then Some(IR(Ldfn, reg, id)) else None
    case LoadVar(reg, name) =>
      var id := IndexOf(ctx.vars, name);
      if IsByte(reg) && id < |ctx.vars| then Some(IR(Ldvar, reg, id)) else None
  }

  /** The code of the first `k` items of a body; `None` from the first rejected statement on. */
  function Emit(ctx: Context, fname: string, items: seq<Item>, k: nat): Option<seq<byte>>
    requires k <= |items|
  {
    if k == 0 then Some([])
    else
      var prev := Emit(ctx, fname, items, k - 1);
      match items[k - 1]
      case Mark(_) => prev
      case Do(s) =>
        var low := Lower(ctx, fname, PcAt(items, k), s);
        if prev.None? || low.None? then None else Some(prev.value + Encode(low.value))
  }

  // ----- the first pass -----

  /** Function names in order of first declaration. */
  function Names(src: seq<Func>, n: nat): seq<string>
    requires n <= |src|
  {
    if n == 0 then []
    else
      var prev := Names(src, n - 1);
      if src[n - 1].name in prev then prev else prev + [src[n - 1].name]
  }

  /** A body whose name was declared before. */
  predicate Redefines(src: seq<Func>, n: nat)
    requires n < |src|
  {
    src[n].Body? && src[n].name in Names(src, n)
  }

  function BodyLabels(t: map<string, nat>, fname: string, items: seq<Item>, k: nat): map<string, nat>
    requires k <= |items|
  {
    if k == 0 then t
    else
      var prev := BodyLabels(t, fname, items, k - 1);
      match items[k - 1]
      case Mark(lab) => prev[lab + fname := PcAt(items, k - 1)]
      case Do(_) => prev
  }

  function Labels(src: seq<Func>, n: nat): map<string, nat>
    requires n <= |src|
  {
    if n == 0 then map[]
    else
      var prev := Labels(src, n - 1);
      var f := src[n - 1];
      if f.Body? then BodyLabels(prev, f.name, f.items, |f.items|) else prev
  }

  /** Everything the second pass knows. */
  function ContextOf(src: seq<Func>, vars: seq<string>): Context {
    Context(Names(src, |src|), vars, Labels(src, |src|))
  }

  /** Some statement of the body is rejected by the second pass. */
  predicate Fails(ctx: Context, f: Func) {
    f.Body? && Emit(ctx, f.name, f.items, |f.items|).None?
  }

  lemma {:induction false} EmitPrefix(ctx: Context, fname: string, items: seq<Item>, k: nat, n: nat)
    requires k <= n <= |items| && Emit(ctx, fname, items, n).Some?
    ensures Emit(ctx, fname, items, k).Some?
    ensures Emit(ctx, fname, items, k).value <= Emit(ctx, fname, items, n).value
    decreases n
  {
    if k < n {
      EmitPrefix(ctx, fname, items, k, n - 1);
    }
  }

  lemma EmitStep(ctx: Context, fname: string, items: seq<Item>, k: nat)
    requires k < |items| && items[k].Do?
    ensures var prev := Emit(ctx, fname, items, k);
            var low := Lower(ctx, fname, PcAt(items, k + 1), items[k].s);
            Emit(ctx, fname, items, k + 1)
            == if prev.None? || low.None? then None else Some(prev.value + Encode(low.value))
  {
  }

  class Asm {
    var names: seq<string>
    var vars: seq<string>
    var labels: map<string, nat>
    var data: map<string, seq<byte>>
    var pc: nat
    var err: bool

    constructor (vars: seq<string>)
      ensures names == [] && this.vars == vars && labels == map[] && data == map[]
      ensures pc == 0 && !err
    {
      names, labels, data, pc, err := [], map[], map[], 0, false;
      this.vars := vars;
    }

    /** Measures every body, recording each label at the bytes before it. Stops at a redefinition. */
    method FirstPass(src: seq<Func>)
      requires names == [] && labels == map[] && pc == 0 && !err
      modifies this
      ensures vars == old(vars) && data == old(data)
      ensures err <==> exists n :: 0 <= n < |src| && Redefines(src, n)
      ensures !err ==> names == Names(src, |src|) && labels == Labels(src, |src|) && pc == 0
    {
      var n := 0;
      while n < |src|
        invariant 0 <= n <= |src| && !err && pc == 0
        invariant vars == old(vars) && data == old(data)
        invariant names == Names(src, n) && labels == Labels(src, n)
        invariant forall m :: 0 <= m < n ==> !Redefines(src, m)
      {
        var f := src[n];
        if f.Body? && f.name in names {
          err := true;
          assert Redefines(src, n);
          return;
        }
        if f.name !in names {
          names := names + [f.name];
        }
        if f.Body? {
          MeasureBody(f.name, f.items);
          pc := 0;
        }
        n := n + 1;
      }
    }

    method MeasureBody(fname: string, items: seq<Item>)
      requires pc == 0
      modifies this`labels, this`pc
      ensures labels == BodyLabels(old(labels), fname, items, |items|)
      ensures pc == PcAt(items, |items|)
    {
      var k := 0;
      while k < |items|
        invariant 0 <= k <= |items|
        invariant pc == PcAt(items, k)
        invariant labels == BodyLabels(old(labels), fname, items, k)
      {
        match items[k] {
          case Mark(lab) =>
            labels := labels[lab + fname := pc];
          case Do(s) =>
            pc := pc + Size(OpOfStmt(s));
        }
        k := k + 1;
      }
    }

    /** Emits every body with the labels of the first pass. Stops at the first rejected statement. */
    method SecondPass(src: seq<Func>)
      requires pc == 0 && !err
      modifies this
      ensures names == old(names) && vars == old(vars) && labels == old(labels)
      ensures var ctx := Context(names, vars, labels);
              err <==> exists n :: 0 <= n < |src| && Fails(ctx, src[n])
      ensures var ctx := Context(names, vars, labels);
              !err ==> data == Codes(ctx, src, |src|, old(data))
    {
      ghost var ctx := Context(names, vars, labels);
      var n := 0;
      while n < |src|
        invariant 0 <= n <= |src| && !err && pc == 0
        invariant names == old(names) && vars == old(vars) && labels == old(labels)
        invariant forall m :: 0 <= m < n ==> !Fails(ctx, src[m])
        invariant data == Codes(ctx, src, n, old(data))
      {
        var f := src[n];
        if f.Body? {
          var buf := new ByteBuf();
          EmitBody(f, buf);
          if err {
            assert Fails(ctx, src[n]);
            return;
          }
          data := data[f.name := buf.data];
          pc := 0;
        }
        n := n + 1;
      }
    }

    method EmitBody(f: Func, buf: ByteBuf)
      requires f.Body? && pc == 0 && !err && buf.data == []
      modifies this`pc, this`err, buf
      ensures var code := Emit(Context(names, vars, labels), f.name, f.items, |f.items|);
              if err then code.None? else code == Some(buf.data)
    {
      ghost var ctx := Context(names, vars, labels);
      var items := f.items;
      var k := 0;
      while k < |items|
        invariant 0 <= k <= |items| && !err
        invariant pc == PcAt(items, k)
        invariant Emit(ctx, f.name, items, k) == Some(buf.data)
      {
        if items[k].Do? {
          EmitStep(ctx, f.name, items, k);
          EmitStmt(f.name, items[k].s, buf, PcAt(items, k + 1));
          if err {
            if Emit(ctx, f.name, items, |items|).Some? {
              EmitPrefix(ctx, f.name, items, k + 1, |items|);
            }
            return;
          }
        }
        k := k + 1;
      }
    }

    /** One statement. A jump first advances past its own encoding, so that its displacement counts
        from the following instruction. */
    method EmitStmt(fname: string, s: Stmt, buf: ByteBuf, ghost after: nat)
      requires !err && after == pc + Size(OpOfStmt(s))
      modifies this`pc, this`err, buf
      ensures var low := Lower(Context(names, vars, labels), fname, after, s);
              && (err <==> low.None?)
              && (low.Some? ==> pc == after && buf.data == old(buf.data) + Encode(low.value))
    {
      match s {
        case Ins(i) =>
          if Accepts(i) {
            Gen(buf, i);
          } else {
            err := true;
          }
        case Branch(op, lab) =>
          var key := lab + fname;
          if key in labels {
            var n := InstrGen(null, IJ(op, 0));
            pc := pc + n;
            var offs := Wrap(TWO32, labels[key] - pc);
            n := InstrGen(buf, IJ(op, offs));
          } else {
            err := true;
          }
        case CallFn(name) =>
          if name in names {
            Gen(buf, IW(Call, IndexOf(names, name) + 1));
          } else {
            err := true;
          }
        case LoadFn(reg, name) =>
          if IsByte(reg) && name in names {
            Gen(buf, IR(Ldfn, reg, IndexOf(names, name)));
          } else {
            err := true;
          }
        case LoadVar(reg, name) =>
          if IsByte(reg) && name in vars {
            Gen(buf, IR(Ldvar, reg, IndexOf(vars, name)));
          } else {
            err := true;
          }
      }
    }

    method Gen(buf: ByteBuf, i: Instr)
      modifies this`pc, buf
      ensures pc == old(pc) + Size(OpOfInstr(i)) && buf.data == old(buf.data) + Encode(i)
    {
      var n := InstrGen(buf, i);
      pc := pc + n;
    }
  }

  /** The code buffers after the first `n` functions. */
  function Codes(ctx: Context, src: seq<Func>, n: nat, start: map<string, seq<byte>>)
    : map<string, seq<byte>>
    requires n <= |src|
  {
    if n == 0 then start
    else
      var prev := Codes(ctx, src, n - 1, start);
      var f := src[n - 1];
      if f.Body? && Emit(ctx, f.name, f.items, |f.items|).Some?
      then prev[f.name := Emit(ctx, f.name, f.items, |f.items|).value]
      else prev
  }
}
