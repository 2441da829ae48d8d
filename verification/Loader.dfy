/** The loader: walks the function and variable tables of an image in memory with a moving cursor and
    builds symbol tables; on a written image it recovers exactly what was written. */
module Loader {
  import opened Words
  import opened Codec
  import opened ByteVm
  import opened SymTable
  import opened ModuleImage

  // ----- reading the header -----

  /** An image lies at `script`, as far as its header. */
  predicate HasHeader(mem: seq<byte>, script: nat) {
    script + HEADER_SIZE <= |mem|
  }

  /** `n` words of 32 bits. */
  function ReadLongs(mem: seq<byte>, p: nat, n: nat): (l: seq<nat>)
    requires p + 4 * n <= |mem|
    ensures |l| == n
    decreases n, mem
  {
    if n == 0 then [] else ReadLongs(mem, p, n - 1) + [Word(mem, p + 4 * (n - 1), 4)]
  }

  function HeaderFrom(l: seq<nat>): Header
    requires |l| == 12
  {
    Header(l[0], l[1], l[2], l[3], l[4], l[5], l[6], l[7], l[8], l[9], l[10], l[11])
  }

  function ReadHeader(mem: seq<byte>, script: nat): Header
    requires HasHeader(mem, script)
  {
    HeaderFrom(ReadLongs(mem, script, 12))
  }

  /** The loader's checks of magic number and sizes, in 32 bits. */
  predicate HeaderAccepted(h: Header) {
    && h.magic == MAGIC
    && U32(h.stack + h.heap) == h.mem && U32(U32(h.callstack + h.opstack) + h.heap) == h.mem
  }

  lemma {:induction false} LongRead(mem: seq<byte>, p: nat, v: nat)
    requires PlacedAt(mem, p, LE(4, v))
    ensures Word(mem, p, 4) == U32(v)
  {
    Pow256Values();
    FromLEofLE(4, v);
  }

  lemma {:induction false} LongsRead(mem: seq<byte>, p: nat, l: seq<nat>, k: nat)
    requires PlacedAt(mem, p, Longs(l)) && k < |l|
    ensures Word(mem, p + 4 * k, 4) == U32(l[k])
    decreases k
  {
    PlacedSplit(mem, p, LE(4, l[0]), Longs(l[1..]));
    if k == 0 {
      LongRead(mem, p, l[0]);
    } else {
      LongsRead(mem, p + 4, l[1..], k - 1);
    }
  }

  lemma {:induction false} ReadLongsAt(mem: seq<byte>, p: nat, n: nat, k: nat)
    requires p + 4 * n <= |mem| && k < n
    ensures ReadLongs(mem, p, n)[k] == Word(mem, p + 4 * k, 4)
    decreases n
  {
    if k < n - 1 {
      ReadLongsAt(mem, p, n - 1, k);
    }
  }

  /** Fields are words of 32 bits. */
  lemma HeaderBound(mem: seq<byte>, script: nat)
    requires HasHeader(mem, script)
    ensures ReadHeader(mem, script).funcCount < TWO32 && ReadHeader(mem, script).varCount < TWO32
  {
    LongBound(mem, script, 7);
    LongBound(mem, script, 9);
  }

  lemma LongBound(mem: seq<byte>, p: nat, k: nat)
    requires p + 48 <= |mem| && k < 12
    ensures ReadLongs(mem, p, 12)[k] < TWO32
  {
    ReadLongsAt(mem, p, 12, k);
    FromLEBound(mem[p + 4 * k..p + 4 * k + 4]);
    Pow256Values();
  }

  lemma HeaderFieldRead(mem: seq<byte>, script: nat, h: Header, k: nat)
    requires PlacedAt(mem, script, HeaderBytes(h)) && k < 12
    ensures ReadLongs(mem, script, 12)[k] == U32(Fields(h)[k])
  {
    LongsRead(mem, script, Fields(h), k);
    ReadLongsAt(mem, script, 12, k);
  }

  lemma {:induction false} HeaderRead(mem: seq<byte>, script: nat, h: Header)
    requires PlacedAt(mem, script, HeaderBytes(h))
    ensures ReadHeader(mem, script) == Truncated(h)
  {
    forall k: nat | k < 12 ensures ReadLongs(mem, script, 12)[k] == U32(Fields(h)[k]) {
      HeaderFieldRead(mem, script, h, k);
    }
  }

  /** A header is accepted exactly when it begins with the four magic bytes and its sizes add up both ways, modulo
      2^32. */
  lemma AcceptedIff(mem: seq<byte>, script: nat)
    requires HasHeader(mem, script)
    ensures HeaderAccepted(ReadHeader(mem, script)) <==>
              && mem[script..script + 4] == [0xDE, 0xC0, 0x6A, 0x7A]
              && (Long(mem, script + 12) + Long(mem, script + 16) - Long(mem, script + 20)) % 0x1_0000_0000 == 0
              && (Long(mem, script + 4) + Long(mem, script + 8) + Long(mem, script + 16) - Long(mem, script + 20))
                   % 0x1_0000_0000 == 0
  {
    var h := ReadHeader(mem, script);
    HeaderField(mem, script, 0);
    HeaderField(mem, script, 1);
    HeaderField(mem, script, 2);
    HeaderField(mem, script, 3);
    HeaderField(mem, script, 4);
    HeaderField(mem, script, 5);
    MagicBytes(mem, script);
    SumIs(h.stack + h.heap, h.mem);
    SumIs(h.callstack + h.opstack + h.heap, h.mem);
    AddU32(h.callstack + h.opstack, h.heap);
  }

  lemma HeaderField(mem: seq<byte>, script: nat, k: nat)
    requires HasHeader(mem, script) && k < 12
    ensures ReadLongs(mem, script, 12)[k] == Long(mem, script + 4 * k) < TWO32
  {
    ReadLongsAt(mem, script, 12, k);
    WordIsLong(mem, script + 4 * k);
  }

  lemma {:induction false} WordIsLong(mem: seq<byte>, p: nat)
    requires p + 4 <= |mem|
    ensures Word(mem, p, 4) == Long(mem, p) < TWO32
  {
    var s := mem[p..p + 4];
    assert FromLE(s[3..]) == s[3];
    assert FromLE(s[2..]) == s[2] + 256 * FromLE(s[3..]) by { assert s[2..][1..] == s[3..]; }
    assert FromLE(s[1..]) == s[1] + 256 * FromLE(s[2..]) by { assert s[1..][1..] == s[2..]; }
  }

  lemma MagicBytes(mem: seq<byte>, p: nat)
    requires p + 4 <= |mem|
    ensures Long(mem, p) == MAGIC <==> mem[p..p + 4] == [0xDE, 0xC0, 0x6A, 0x7A]
  {
    var s := mem[p..p + 4];
    assert s == [mem[p], mem[p + 1], mem[p + 2], mem[p + 3]];
  }

  lemma SumIs(v: nat, w: nat)
    requires w < TWO32
    ensures U32(v) == w <==> (v - w) % TWO32 == 0
  {
    if (v - w) % TWO32 == 0 {
      ModUnique(v, TWO32, (v - w) / TWO32, w);
    } else if U32(v) == w {
      ModUnique(v - w, TWO32, v / TWO32, 0);
    }
  }

  lemma TruncatedTwice(h: Header)
    ensures Truncated(Truncated(h)) == Truncated(h)
  {
  }

  // ----- reading one entry -----

  /** A field of the entry at `p`: 0 the size, 1 the flags, 2 the name's length, 3 the data's. */
  function Field(mem: seq<byte>, p: nat, k: nat): nat
    requires p + ENTRY_SIZE <= |mem| && k < 4
  {
    Word(mem, p + 4 * k, 4)
  }

  /** The C string at `p`. */
  function CString(mem: seq<byte>, p: nat): string
    decreases if p < |mem| then |mem| - p else 0
  {
    if p >= |mem| || mem[p] == 0 then "" else [mem[p] as char] + CString(mem, p + 1)
  }

  /** Where the entry after the one at `p` starts. Functions without code have no data. */
  function NextFunc(mem: seq<byte>, p: nat): nat {
    if p + ENTRY_SIZE > |mem| then p
    else p + ENTRY_SIZE + Field(mem, p, 2) + if Field(mem, p, 1) == 0 then Field(mem, p, 3) else 0
  }

  function NextVar(mem: seq<byte>, p: nat): nat {
    if p + ENTRY_SIZE > |mem| then p
    else p + ENTRY_SIZE + Field(mem, p, 2) + Field(mem, p, 3)
  }

  function Owner(flags: nat, m: nat): Option<nat> {
    if IsExtern(flags) then None else Some(m)
  }

  function FuncItem(mem: seq<byte>, p: nat, m: nat): Item
    requires p + ENTRY_SIZE <= |mem|
  {
    var flags := Field(mem, p, 1);
    Item(if flags == 0 then p + ENTRY_SIZE + Field(mem, p, 2) else 0, Owner(flags, m), flags)
  }

  function VarItem(mem: seq<byte>, p: nat, m: nat): Item
    requires p + ENTRY_SIZE <= |mem|
  {
    Item(p + ENTRY_SIZE + Field(mem, p, 2), Owner(Field(mem, p, 1), m), Field(mem, p, 1))
  }

  // ----- walking a table -----

  /** The cursor before entry `i`. */
  function FuncAt(mem: seq<byte>, p: nat, i: nat): nat {
    if i == 0 then p else NextFunc(mem, FuncAt(mem, p, i - 1))
  }

  function VarAt(mem: seq<byte>, p: nat, i: nat): nat {
    if i == 0 then p else NextVar(mem, VarAt(mem, p, i - 1))
  }

  /** The heads of the first `n` entries lie in memory. */
  ghost predicate FuncsInside(mem: seq<byte>, p: nat, n: nat) {
    forall i :: 0 <= i < n ==> FuncAt(mem, p, i) + ENTRY_SIZE <= |mem|
  }

  ghost predicate VarsInside(mem: seq<byte>, p: nat, n: nat) {
    forall i :: 0 <= i < n ==> VarAt(mem, p, i) + ENTRY_SIZE <= |mem|
  }

  /** What a table holds of one entry. */
  datatype Row = Row(key: string, item: Item, size: nat)

  function FuncRow(mem: seq<byte>, p: nat, m: nat): Row {
    if p + ENTRY_SIZE > |mem| then Row("", Item(0, None, 0), 0)
    else Row(CString(mem, p + ENTRY_SIZE), FuncItem(mem, p, m), Field(mem, p, 3))
  }

  function VarRow(mem: seq<byte>, p: nat, m: nat): Row {
    if p + ENTRY_SIZE > |mem| then Row("", Item(0, None, 0), 0)
    else Row(CString(mem, p + ENTRY_SIZE), VarItem(mem, p, m), Field(mem, p, 3))
  }

  function FuncRows(mem: seq<byte>, p: nat, n: nat, m: nat): (rows: seq<Row>)
    ensures |rows| == n
  {
    if n == 0 then [] else FuncRows(mem, p, n - 1, m) + [FuncRow(mem, FuncAt(mem, p, n - 1), m)]
  }

  function VarRows(mem: seq<byte>, p: nat, n: nat, m: nat): (rows: seq<Row>)
    ensures |rows| == n
  {
    if n == 0 then [] else VarRows(mem, p, n - 1, m) + [VarRow(mem, VarAt(mem, p, n - 1), m)]
  }

  lemma {:induction false} FuncRowAt(mem: seq<byte>, p: nat, n: nat, m: nat, i: nat)
    requires i < n
    ensures FuncRows(mem, p, n, m)[i] == FuncRow(mem, FuncAt(mem, p, i), m)
    decreases n
  {
    if i < n - 1 {
      FuncRowAt(mem, p, n - 1, m, i);
    }
  }

  lemma {:induction false} FuncAtMonotone(mem: seq<byte>, p: nat, i: nat, j: nat)
    requires i <= j
    ensures FuncAt(mem, p, i) <= FuncAt(mem, p, j)
    decreases j
  {
    if i < j {
      FuncAtMonotone(mem, p, i, j - 1);
    }
  }

  lemma NextBelow(mem: seq<byte>, p: nat, i: nat, j: nat)
    requires i < j
    ensures NextFunc(mem, FuncAt(mem, p, i)) <= FuncAt(mem, p, j)
  {
    assert FuncAt(mem, p, i + 1) == NextFunc(mem, FuncAt(mem, p, i));
    FuncAtMonotone(mem, p, i + 1, j);
  }

  /** Code of different functions of a table lies at different addresses. */
  lemma CodeApart(mem: seq<byte>, p: nat, n: nat, m: nat, i: nat, j: nat)
    requires i < j < n && FuncAt(mem, p, i) + ENTRY_SIZE <= |mem| && FuncAt(mem, p, j) + ENTRY_SIZE <= |mem|
    requires var rows := FuncRows(mem, p, n, m); rows[i].item.flags == 0 && rows[j].item.flags == 0
    ensures var rows := FuncRows(mem, p, n, m); rows[i].item.item < rows[j].item.item
  {
    FuncRowAt(mem, p, n, m, i);
    FuncRowAt(mem, p, n, m, j);
    NextBelow(mem, p, i, j);
    CodeBetween(mem, FuncAt(mem, p, i), FuncAt(mem, p, j), m);
  }

  lemma CodeBetween(mem: seq<byte>, p: nat, q: nat, m: nat)
    requires p + ENTRY_SIZE <= |mem| && q + ENTRY_SIZE <= |mem| && NextFunc(mem, p) <= q
    ensures FuncRow(mem, p, m).item.flags == 0 && FuncRow(mem, q, m).item.flags == 0 ==>
              FuncRow(mem, p, m).item.item < FuncRow(mem, q, m).item.item
  {
  }

  lemma {:induction false} VarRowAt(mem: seq<byte>, p: nat, n: nat, m: nat, i: nat)
    requires i < n
    ensures VarRows(mem, p, n, m)[i] == VarRow(mem, VarAt(mem, p, i), m)
    decreases n
  {
    if i < n - 1 {
      VarRowAt(mem, p, n - 1, m, i);
    }
  }

  /** The function table of the image at `script`, and whether its entries lie in memory. */
  function LoadedFunc(mem: seq<byte>, script: nat, m: nat): (rows: seq<Row>)
    requires HasHeader(mem, script)
    ensures |rows| == ReadHeader(mem, script).funcCount
  {
    var h := ReadHeader(mem, script);
    FuncRows(mem, script + h.funcsOffset, h.funcCount, m)
  }

  ghost predicate FuncTableInside(mem: seq<byte>, script: nat)
    requires HasHeader(mem, script)
  {
    var h := ReadHeader(mem, script);
    FuncsInside(mem, script + h.funcsOffset, h.funcCount)
  }

  /** The variable table. */
  function LoadedVar(mem: seq<byte>, script: nat, m: nat): (rows: seq<Row>)
    requires HasHeader(mem, script)
    ensures |rows| == ReadHeader(mem, script).varCount
  {
    var h := ReadHeader(mem, script);
    VarRows(mem, script + h.varsOffset, h.varCount, m)
  }

  ghost predicate VarTableInside(mem: seq<byte>, script: nat)
    requires HasHeader(mem, script)
  {
    var h := ReadHeader(mem, script);
    VarsInside(mem, script + h.varsOffset, h.varCount)
  }

  /** The first entries of a table are these rows. */
  ghost predicate Holds(t: Table, rows: seq<Row>)
    requires t.Shaped() && |rows| <= t.len
    reads t.keys, t.items, t.bytes
  {
    forall i :: 0 <= i < |rows| ==> Row(t.keys[i], t.items[i], t.bytes[i]) == rows[i]
  }

  /** Fills in entry `|rows|`. */
  method InsertRow(t: Table, i: nat, row: Row, ghost rows: seq<Row>)
    requires t.Filled(i) && i == |rows| < t.len && Holds(t, rows)
    modifies t.keys, t.items, t.bytes, t.hashes, t.buckets, t.chain
    ensures t.Filled(i + 1) && Holds(t, rows + [row])
  {
    ghost var keys, items, bytes := t.keys[..], t.items[..], t.bytes[..];
    t.Insert(i, row.key, row.item, row.size);
    forall j | 0 <= j <= i
      ensures Row(t.keys[j], t.items[j], t.bytes[j]) == (rows + [row])[j]
    {
      assert t.keys[j] == t.keys[..][j] && t.items[j] == t.items[..][j] && t.bytes[j] == t.bytes[..][j];
    }
  }

  /** Reads the entry at `iter`, and moves past its data. */
  method ReadFunc(mem: seq<byte>, iter: nat, m: nat) returns (row: Row, next: nat)
    requires iter + ENTRY_SIZE <= |mem|
    ensures row == FuncRow(mem, iter, m) && next == NextFunc(mem, iter)
  {
    var flags := Field(mem, iter, 1);
    var cstr := CString(mem, iter + ENTRY_SIZE);
    var data := iter + ENTRY_SIZE + Field(mem, iter, 2);
    row := Row(cstr, Item(if flags == 0 then data else 0, Owner(flags, m), flags), Field(mem, iter, 3));
    next := if flags == 0 then data + Field(mem, iter, 3) else data;
  }

  method ReadVar(mem: seq<byte>, iter: nat, m: nat) returns (row: Row, next: nat)
    requires iter + ENTRY_SIZE <= |mem|
    ensures row == VarRow(mem, iter, m) && next == NextVar(mem, iter)
  {
    var flags := Field(mem, iter, 1);
    var cstr := CString(mem, iter + ENTRY_SIZE);
    var data := iter + ENTRY_SIZE + Field(mem, iter, 2);
    row := Row(cstr, Item(data, Owner(flags, m), flags), Field(mem, iter, 3));
    next := data + Field(mem, iter, 3);
  }

  /** Builds the function table of module `m` from the image at `script`, where its header says. */
  method SetupFuncTable(mem: seq<byte>, script: nat, m: nat) returns (t: Table, end: nat)
    requires HasHeader(mem, script) && FuncTableInside(mem, script)
    ensures var h := ReadHeader(mem, script);
            && t.len == h.funcCount && t.Filled(t.len) && Holds(t, LoadedFunc(mem, script, m))
            && end == FuncAt(mem, script + h.funcsOffset, h.funcCount)
  {
    var hdr := ReadHeader(mem, script);
    HeaderBound(mem, script);
    t := new Table(hdr.funcCount);
    end := ReadFuncs(t, mem, script + hdr.funcsOffset, hdr.funcCount, m);
  }

  /** Reads entry `i` into its row. */
  method AddFunc(t: Table, mem: seq<byte>, iter: nat, ghost start: nat, i: nat, m: nat) returns (next: nat)
    requires i < t.len && t.Filled(i) && Holds(t, FuncRows(mem, start, i, m))
    requires iter == FuncAt(mem, start, i) && iter + ENTRY_SIZE <= |mem|
    modifies t.keys, t.items, t.bytes, t.hashes, t.buckets, t.chain
    ensures t.Filled(i + 1) && Holds(t, FuncRows(mem, start, i + 1, m)) && next == FuncAt(mem, start, i + 1)
  {
    var row: Row;
    row, next := ReadFunc(mem, iter, m);
    InsertRow(t, i, row, FuncRows(mem, start, i, m));
  }

  method ReadFuncs(t: Table, mem: seq<byte>, start: nat, n: nat, m: nat) returns (end: nat)
    requires FuncsInside(mem, start, n) && t.len == n && t.Filled(0)
    modifies t.keys, t.items, t.bytes, t.hashes, t.buckets, t.chain
    ensures t.Filled(n) && Holds(t, FuncRows(mem, start, n, m)) && end == FuncAt(mem, start, n)
  {
    end := start;
    var i := 0;
    while i < n
      invariant 0 <= i <= n && end == FuncAt(mem, start, i)
      invariant t.Filled(i) && Holds(t, FuncRows(mem, start, i, m))
    {
      end := AddFunc(t, mem, end, start, i, m);
      i := i + 1;
    }
  }

  /** Builds the variable table of module `m` from the image at `script`, where its header says. */
  method SetupVarTable(mem: seq<byte>, script: nat, m: nat) returns (t: Table, end: nat)
    requires HasHeader(mem, script) && VarTableInside(mem, script)
    ensures var h := ReadHeader(mem, script);
            && t.len == h.varCount && t.Filled(t.len) && Holds(t, LoadedVar(mem, script, m))
            && end == VarAt(mem, script + h.varsOffset, h.varCount)
  {
    var hdr := ReadHeader(mem, script);
    HeaderBound(mem, script);
    t := new Table(hdr.varCount);
    end := ReadVars(t, mem, script + hdr.varsOffset, hdr.varCount, m);
  }

  /** Reads entry `i` into its row. */
  method AddVar(t: Table, mem: seq<byte>, iter: nat, ghost start: nat, i: nat, m: nat) returns (next: nat)
    requires i < t.len && t.Filled(i) && Holds(t, VarRows(mem, start, i, m))
    requires iter == VarAt(mem, start, i) && iter + ENTRY_SIZE <= |mem|
    modifies t.keys, t.items, t.bytes, t.hashes, t.buckets, t.chain
    ensures t.Filled(i + 1) && Holds(t, VarRows(mem, start, i + 1, m)) && next == VarAt(mem, start, i + 1)
  {
    var row: Row;
    row, next := ReadVar(mem, iter, m);
    InsertRow(t, i, row, VarRows(mem, start, i, m));
  }

  method ReadVars(t: Table, mem: seq<byte>, start: nat, n: nat, m: nat) returns (end: nat)
    requires VarsInside(mem, start, n) && t.len == n && t.Filled(0)
    modifies t.keys, t.items, t.bytes, t.hashes, t.buckets, t.chain
    ensures t.Filled(n) && Holds(t, VarRows(mem, start, n, m)) && end == VarAt(mem, start, n)
  {
    end := start;
    var i := 0;
    while i < n
      invariant 0 <= i <= n && end == VarAt(mem, start, i)
      invariant t.Filled(i) && Holds(t, VarRows(mem, start, i, m))
    {
      end := AddVar(t, mem, end, start, i, m);
      i := i + 1;
    }
  }

  // ----- what was written is what is read -----

  predicate FuncFits(f: FuncRec) {
    CName(f.name) && f.flags < TWO32 && NameLen(f.name) < TWO32 && (f.flags == 0 ==> AlignSize(|f.code|, 4) < TWO32)
  }

  predicate VarFits(v: VarRec) {
    CName(v.name) && v.flags < TWO32 && NameLen(v.name) < TWO32 && AlignSize(|v.data|, 4) < TWO32
  }

  lemma {:induction false} ReadWord(mem: seq<byte>, p: nat, v: nat)
    requires PlacedAt(mem, p, LE(4, v)) && v < TWO32
    ensures Word(mem, p, 4) == v
  {
    Pow256Values();
    FromLEofLE(4, v);
    ModUnique(v, TWO32, 0, v);
  }

  lemma HeadRead(mem: seq<byte>, p: nat, size: nat, flags: nat, nameLen: nat, dataLen: nat)
    requires PlacedAt(mem, p, EntryHead(size, flags, nameLen, dataLen))
    requires flags < TWO32 && nameLen < TWO32 && dataLen < TWO32
    ensures Field(mem, p, 1) == flags && Field(mem, p, 2) == nameLen && Field(mem, p, 3) == dataLen
  {
    var a, b, c, d := LE(4, size), LE(4, flags), LE(4, nameLen), LE(4, dataLen);
    PlacedSplit(mem, p, a + b + c, d);
    PlacedSplit(mem, p, a + b, c);
    PlacedSplit(mem, p, a, b);
    ReadWord(mem, p + 4, flags);
    ReadWord(mem, p + 8, nameLen);
    ReadWord(mem, p + 12, dataLen);
  }

  lemma {:induction false} NameByte(mem: seq<byte>, p: nat, name: string, k: nat)
    requires CName(name) && k <= |name| && PlacedAt(mem, p, NameField(name))
    ensures p + k < |mem| && mem[p + k] == if k < |name| then name[k] as int else 0
  {
    var s := NameField(name);
    assert mem[p + k] == mem[p..p + |s|][k] == s[k];
    if k < |name| {
      assert s[k] == NameBytes(name)[k];
    } else {
      assert s[k] == Zeros(NameLen(name) - |name|)[0];
    }
  }

  /** A written name reads back as itself. */
  lemma {:induction false} NameRead(mem: seq<byte>, p: nat, name: string, k: nat)
    requires CName(name) && k <= |name| && PlacedAt(mem, p, NameField(name))
    ensures CString(mem, p + k) == name[k..]
    decreases |name| - k
  {
    NameByte(mem, p, name, k);
    if k < |name| {
      NameRead(mem, p, name, k + 1);
      assert name[k..] == [name[k]] + name[k + 1..];
    } else {
      assert name[k..] == "";
    }
  }

  /** What follows an entry's head: its name, and its body right behind. */
  lemma EntryRead(mem: seq<byte>, p: nat, size: nat, flags: nat, name: string, n: nat, body: seq<byte>)
    requires CName(name) && flags < TWO32 && NameLen(name) < TWO32 && n < TWO32
    requires PlacedAt(mem, p, EntryHead(size, flags, NameLen(name), n) + NameField(name) + body)
    ensures p + ENTRY_SIZE + NameLen(name) + |body| <= |mem| && CString(mem, p + ENTRY_SIZE) == name
    ensures Field(mem, p, 1) == flags && Field(mem, p, 2) == NameLen(name) && Field(mem, p, 3) == n
    ensures PlacedAt(mem, p + ENTRY_SIZE + Field(mem, p, 2), body)
  {
    var head := EntryHead(size, flags, NameLen(name), n);
    PlacedSplit(mem, p, head + NameField(name), body);
    PlacedSplit(mem, p, head, NameField(name));
    HeadRead(mem, p, size, flags, NameLen(name), n);
    NameRead(mem, p + ENTRY_SIZE, name, 0);
  }

  /** One function entry: its fields, its name, its code zero-padded to a multiple of 4 where the item
      points, and the next entry right behind. */
  lemma {:induction false} FuncRead(mem: seq<byte>, p: nat, f: FuncRec, m: nat)
    requires FuncFits(f) && PlacedAt(mem, p, FuncEntry(f))
    ensures p + ENTRY_SIZE <= |mem| && CString(mem, p + ENTRY_SIZE) == f.name
    ensures NextFunc(mem, p) == p + |FuncEntry(f)|
    ensures var it := FuncItem(mem, p, m);
            && it.flags == f.flags && it.owner == Owner(f.flags, m)
            && (if f.flags == 0 then it.item == p + ENTRY_SIZE + NameLen(f.name)
                                     && PlacedAt(mem, it.item, Padded(f.code))
                else it.item == 0)
    ensures Field(mem, p, 3) == if f.flags != 0 then 8 else AlignSize(|f.code|, 4)
  {
    var n := if f.flags != 0 then 8 else AlignSize(|f.code|, 4);
    EntryRead(mem, p, SizeField(f), f.flags, f.name, n, if f.flags != 0 then [] else Padded(f.code));
  }

  lemma {:induction false} VarRead(mem: seq<byte>, p: nat, v: VarRec, m: nat)
    requires VarFits(v) && PlacedAt(mem, p, VarEntry(v))
    ensures p + ENTRY_SIZE <= |mem| && CString(mem, p + ENTRY_SIZE) == v.name
    ensures NextVar(mem, p) == p + |VarEntry(v)|
    ensures var it := VarItem(mem, p, m);
            && it.flags == v.flags && it.owner == Owner(v.flags, m)
            && it.item == p + ENTRY_SIZE + NameLen(v.name) && PlacedAt(mem, it.item, Padded(v.data))
    ensures Field(mem, p, 3) == AlignSize(|v.data|, 4)
  {
    EntryRead(mem, p, VarSizeField(v), v.flags, v.name, AlignSize(|v.data|, 4), Padded(v.data));
  }

  /** The section of the first `i` functions is placed wherever a longer one is. */
  lemma {:induction false} FuncSectionPlaced(mem: seq<byte>, p: nat, fs: seq<FuncRec>, i: nat, n: nat)
    requires i <= n <= |fs| && PlacedAt(mem, p, FuncSection(fs, n))
    ensures PlacedAt(mem, p, FuncSection(fs, i))
    ensures i < n ==> PlacedAt(mem, p + |FuncSection(fs, i)|, FuncEntry(fs[i]))
    decreases n
  {
    if i < n {
      PlacedSplit(mem, p, FuncSection(fs, n - 1), FuncEntry(fs[n - 1]));
      FuncSectionPlaced(mem, p, fs, i, n - 1);
    }
  }

  lemma {:induction false} VarSectionPlaced(mem: seq<byte>, p: nat, vs: seq<VarRec>, i: nat, n: nat)
    requires i <= n <= |vs| && PlacedAt(mem, p, VarSection(vs, n))
    ensures PlacedAt(mem, p, VarSection(vs, i))
    ensures i < n ==> PlacedAt(mem, p + |VarSection(vs, i)|, VarEntry(vs[i]))
    decreases n
  {
    if i < n {
      PlacedSplit(mem, p, VarSection(vs, n - 1), VarEntry(vs[n - 1]));
      VarSectionPlaced(mem, p, vs, i, n - 1);
    }
  }

  lemma {:induction false} FuncPassed(mem: seq<byte>, p: nat, f: FuncRec)
    requires FuncFits(f) && PlacedAt(mem, p, FuncEntry(f))
    ensures NextFunc(mem, p) == p + |FuncEntry(f)|
  {
    FuncRead(mem, p, f, 0);
  }

  /** The cursor stands before entry `i` exactly behind the section of the first `i`. */
  lemma {:induction false} FuncCursor(mem: seq<byte>, p: nat, fs: seq<FuncRec>, i: nat)
    requires forall k :: 0 <= k < |fs| ==> FuncFits(fs[k])
    requires i <= |fs| && PlacedAt(mem, p, FuncSection(fs, |fs|))
    ensures FuncAt(mem, p, i) == p + |FuncSection(fs, i)|
    decreases i
  {
    if i > 0 {
      FuncCursor(mem, p, fs, i - 1);
      NextFuncAt(mem, p, fs, i - 1, FuncAt(mem, p, i - 1));
    }
  }

  lemma NextFuncAt(mem: seq<byte>, p: nat, fs: seq<FuncRec>, i: nat, q: nat)
    requires i < |fs| && FuncFits(fs[i]) && PlacedAt(mem, p, FuncSection(fs, |fs|))
    requires q == p + |FuncSection(fs, i)|
    ensures NextFunc(mem, q) == p + |FuncSection(fs, i + 1)|
  {
    FuncSectionPlaced(mem, p, fs, i, |fs|);
    FuncPassed(mem, q, fs[i]);
  }

  lemma {:induction false} VarPassed(mem: seq<byte>, p: nat, v: VarRec)
    requires VarFits(v) && PlacedAt(mem, p, VarEntry(v))
    ensures NextVar(mem, p) == p + |VarEntry(v)|
  {
    VarRead(mem, p, v, 0);
  }

  lemma {:induction false} VarCursor(mem: seq<byte>, p: nat, vs: seq<VarRec>, i: nat)
    requires forall k :: 0 <= k < |vs| ==> VarFits(vs[k])
    requires i <= |vs| && PlacedAt(mem, p, VarSection(vs, |vs|))
    ensures VarAt(mem, p, i) == p + |VarSection(vs, i)|
    decreases i
  {
    if i > 0 {
      VarCursor(mem, p, vs, i - 1);
      NextVarAt(mem, p, vs, i - 1, VarAt(mem, p, i - 1));
    }
  }

  lemma NextVarAt(mem: seq<byte>, p: nat, vs: seq<VarRec>, i: nat, q: nat)
    requires i < |vs| && VarFits(vs[i]) && PlacedAt(mem, p, VarSection(vs, |vs|))
    requires q == p + |VarSection(vs, i)|
    ensures NextVar(mem, q) == p + |VarSection(vs, i + 1)|
  {
    VarSectionPlaced(mem, p, vs, i, |vs|);
    VarPassed(mem, q, vs[i]);
  }

  /** A row that gives back a function record; its code stands zero-padded where the item points. */
  ghost predicate FuncRecovered(mem: seq<byte>, row: Row, f: FuncRec, m: nat) {
    && row.key == f.name && row.item.flags == f.flags && row.item.owner == Owner(f.flags, m)
    && (if f.flags == 0 then row.item.item > 0 && PlacedAt(mem, row.item.item, Padded(f.code))
                             && row.size == |Padded(f.code)|
        else row.item.item == 0)
  }

  ghost predicate VarRecovered(mem: seq<byte>, row: Row, v: VarRec, m: nat) {
    && row.key == v.name && row.item.flags == v.flags && row.item.owner == Owner(v.flags, m)
    && row.item.item > 0 && PlacedAt(mem, row.item.item, Padded(v.data))
    && row.size == |Padded(v.data)|
  }

  lemma {:induction false} FuncRowRecovered(mem: seq<byte>, p: nat, f: FuncRec, m: nat)
    requires FuncFits(f) && PlacedAt(mem, p, FuncEntry(f))
    ensures p + ENTRY_SIZE <= |mem| && FuncRecovered(mem, FuncRow(mem, p, m), f, m)
  {
    FuncRead(mem, p, f, m);
  }

  lemma {:induction false} FuncTrip(mem: seq<byte>, p: nat, fs: seq<FuncRec>, i: nat, m: nat)
    requires forall k :: 0 <= k < |fs| ==> FuncFits(fs[k])
    requires PlacedAt(mem, p, FuncSection(fs, |fs|)) && i < |fs|
    ensures FuncAt(mem, p, i) + ENTRY_SIZE <= |mem|
    ensures FuncRecovered(mem, FuncRows(mem, p, |fs|, m)[i], fs[i], m)
  {
    FuncCursor(mem, p, fs, i);
    FuncSectionPlaced(mem, p, fs, i, |fs|);
    FuncRowRecovered(mem, FuncAt(mem, p, i), fs[i], m);
    FuncRowAt(mem, p, |fs|, m, i);
  }

  lemma {:induction false} VarRowRecovered(mem: seq<byte>, p: nat, v: VarRec, m: nat)
    requires VarFits(v) && PlacedAt(mem, p, VarEntry(v))
    ensures p + ENTRY_SIZE <= |mem| && VarRecovered(mem, VarRow(mem, p, m), v, m)
  {
    VarRead(mem, p, v, m);
  }

  lemma {:induction false} VarTrip(mem: seq<byte>, p: nat, vs: seq<VarRec>, i: nat, m: nat)
    requires forall k :: 0 <= k < |vs| ==> VarFits(vs[k])
    requires PlacedAt(mem, p, VarSection(vs, |vs|)) && i < |vs|
    ensures VarAt(mem, p, i) + ENTRY_SIZE <= |mem|
    ensures VarRecovered(mem, VarRows(mem, p, |vs|, m)[i], vs[i], m)
  {
    VarCursor(mem, p, vs, i);
    VarSectionPlaced(mem, p, vs, i, |vs|);
    VarRowRecovered(mem, VarAt(mem, p, i), vs[i], m);
    VarRowAt(mem, p, |vs|, m, i);
  }

  /** Header, sections and memory region lie in memory one after the other. */
  ghost predicate SectionsAt(mem: seq<byte>, script: nat, z: Sizes, fs: seq<FuncRec>, vs: seq<VarRec>) {
    PartsAt(mem, script, HeaderOf(z, fs, vs), FuncSection(fs, |fs|), VarSection(vs, |vs|))
  }

  ghost predicate PartsAt(mem: seq<byte>, p: nat, h: Header, a: seq<byte>, b: seq<byte>) {
    && HasHeader(mem, p) && ReadHeader(mem, p) == h
    && PlacedAt(mem, p + HEADER_SIZE, a) && PlacedAt(mem, p + HEADER_SIZE + |a|, b)
    && PlacedAt(mem, p + HEADER_SIZE + |a| + |b|, Zeros(h.mem))
  }

  lemma {:induction false} ImageSections(mem: seq<byte>, script: nat, z: Sizes, fs: seq<FuncRec>, vs: seq<VarRec>)
    requires PlacedAt(mem, script, ImageOf(z, fs, vs))
    ensures SectionsAt(mem, script, z, fs, vs)
  {
    TruncatedTwice(PlainHeader(z, fs, vs));
    PartsRead(mem, script, ImageOf(z, fs, vs), HeaderOf(z, fs, vs), FuncSection(fs, |fs|), VarSection(vs, |vs|));
  }

  lemma PartsRead(mem: seq<byte>, p: nat, image: seq<byte>, h: Header, a: seq<byte>, b: seq<byte>)
    requires PlacedAt(mem, p, image) && image == HeaderBytes(h) + a + b + Zeros(h.mem) && Truncated(h) == h
    ensures PartsAt(mem, p, h, a, b)
  {
    FourParts(mem, p, HeaderBytes(h), a, b, Zeros(h.mem));
    HeaderRead(mem, p, h);
  }

  lemma FourParts(mem: seq<byte>, p: nat, a: seq<byte>, b: seq<byte>, c: seq<byte>, d: seq<byte>)
    requires PlacedAt(mem, p, a + b + c + d)
    ensures PlacedAt(mem, p, a) && PlacedAt(mem, p + |a|, b) && PlacedAt(mem, p + |a| + |b|, c)
    ensures PlacedAt(mem, p + |a| + |b| + |c|, d)
  {
    PlacedSplit(mem, p, a + b + c, d);
    PlacedSplit(mem, p, a + b, c);
    PlacedSplit(mem, p, a, b);
  }

  /** The walk over a function table gives back these records and ends behind them. */
  ghost predicate FuncsComeBack(mem: seq<byte>, p: nat, fs: seq<FuncRec>, m: nat) {
    && FuncsInside(mem, p, |fs|) && FuncAt(mem, p, |fs|) == p + |FuncSection(fs, |fs|)|
    && forall i :: 0 <= i < |fs| ==> FuncRecovered(mem, FuncRows(mem, p, |fs|, m)[i], fs[i], m)
  }

  ghost predicate VarsComeBack(mem: seq<byte>, p: nat, vs: seq<VarRec>, m: nat) {
    && VarsInside(mem, p, |vs|) && VarAt(mem, p, |vs|) == p + |VarSection(vs, |vs|)|
    && forall i :: 0 <= i < |vs| ==> VarRecovered(mem, VarRows(mem, p, |vs|, m)[i], vs[i], m)
  }

  lemma {:induction false} FuncsTrip(mem: seq<byte>, p: nat, fs: seq<FuncRec>, m: nat)
    requires forall k :: 0 <= k < |fs| ==> FuncFits(fs[k])
    requires PlacedAt(mem, p, FuncSection(fs, |fs|))
    ensures FuncsComeBack(mem, p, fs, m)
  {
    forall i | 0 <= i < |fs|
      ensures FuncAt(mem, p, i) + ENTRY_SIZE <= |mem|
      ensures FuncRecovered(mem, FuncRows(mem, p, |fs|, m)[i], fs[i], m)
    {
      FuncTrip(mem, p, fs, i, m);
    }
    FuncCursor(mem, p, fs, |fs|);
  }

  lemma {:induction false} VarsTrip(mem: seq<byte>, p: nat, vs: seq<VarRec>, m: nat)
    requires forall k :: 0 <= k < |vs| ==> VarFits(vs[k])
    requires PlacedAt(mem, p, VarSection(vs, |vs|))
    ensures VarsComeBack(mem, p, vs, m)
  {
    forall i | 0 <= i < |vs|
      ensures VarAt(mem, p, i) + ENTRY_SIZE <= |mem|
      ensures VarRecovered(mem, VarRows(mem, p, |vs|, m)[i], vs[i], m)
    {
      VarTrip(mem, p, vs, i, m);
    }
    VarCursor(mem, p, vs, |vs|);
  }

  /** The header read back is the one written, and the loader accepts it. */
  lemma HeaderRoundTrip(mem: seq<byte>, script: nat, z: Sizes, fs: seq<FuncRec>, vs: seq<VarRec>)
    requires PlacedAt(mem, script, ImageOf(z, fs, vs))
    ensures HasHeader(mem, script) && ReadHeader(mem, script) == HeaderOf(z, fs, vs)
    ensures HeaderAccepted(ReadHeader(mem, script))
  {
    ImageSections(mem, script, z, fs, vs);
    WrittenSizesAccepted(z, fs, vs);
  }

  lemma WrittenSizesAccepted(z: Sizes, fs: seq<FuncRec>, vs: seq<VarRec>)
    ensures HeaderAccepted(HeaderOf(z, fs, vs))
  {
    SizesAddUp(z.opstack, z.callstack, z.heap);
  }

  lemma SizesAddUp(a: nat, b: nat, c: nat)
    ensures U32(U32(a + b) + U32(c)) == U32(a + b + c)
    ensures U32(U32(U32(b) + U32(a)) + U32(c)) == U32(a + b + c)
  {
    AddU32(a + b, U32(c));
    AddU32(a + b, c);
    AddU32(b, U32(a));
    AddU32(b, a);
  }

  /** Loading by the header in the image: the function table it points to gives back these records and ends where
      it says the variables begin ... */
  ghost predicate FuncsLoad(mem: seq<byte>, script: nat, fs: seq<FuncRec>, m: nat) {
    HasHeader(mem, script)
    && var h := ReadHeader(mem, script);
       FuncsFound(mem, script, h.funcsOffset, h.funcCount, h.varsOffset, fs, m)
  }

  ghost predicate FuncsFound(mem: seq<byte>, script: nat, from: nat, n: nat, to: nat, fs: seq<FuncRec>, m: nat) {
    n == |fs| && FuncsComeBack(mem, script + from, fs, m) && FuncAt(mem, script + from, n) == script + to
  }

  /** ... and the variable table these, and ends where it says memory begins. */
  ghost predicate VarsLoad(mem: seq<byte>, script: nat, vs: seq<VarRec>, m: nat) {
    HasHeader(mem, script)
    && var h := ReadHeader(mem, script);
       VarsFound(mem, script, h.varsOffset, h.varCount, h.memOffset, vs, m)
  }

  ghost predicate VarsFound(mem: seq<byte>, script: nat, from: nat, n: nat, to: nat, vs: seq<VarRec>, m: nat) {
    n == |vs| && VarsComeBack(mem, script + from, vs, m) && VarAt(mem, script + from, n) == script + to
  }

  /** The zeroed memory region where the header says, of the size it says and that was asked for. */
  ghost predicate RegionLoads(mem: seq<byte>, script: nat, z: Sizes) {
    HasHeader(mem, script)
    && var h := ReadHeader(mem, script);
       && Sizes(h.opstack, h.callstack, h.heap, h.flags) == z && h.mem == z.opstack + z.callstack + z.heap
       && PlacedAt(mem, script + h.memOffset, Zeros(h.mem))
  }

  /** The rows of a table that loads. */
  lemma LoadedFuncRow(mem: seq<byte>, script: nat, fs: seq<FuncRec>, m: nat, f: nat)
    requires FuncsLoad(mem, script, fs, m) && f < |fs|
    ensures |LoadedFunc(mem, script, m)| == |fs| && FuncRecovered(mem, LoadedFunc(mem, script, m)[f], fs[f], m)
  {
    var h := ReadHeader(mem, script);
    assert FuncRecovered(mem, FuncRows(mem, script + h.funcsOffset, |fs|, m)[f], fs[f], m);
  }

  lemma LoadedCodeApart(mem: seq<byte>, script: nat, m: nat, i: nat, j: nat)
    requires HasHeader(mem, script) && FuncTableInside(mem, script) && i < j < ReadHeader(mem, script).funcCount
    ensures var rows := LoadedFunc(mem, script, m);
            rows[i].item.flags == 0 && rows[j].item.flags == 0 ==> rows[i].item.item < rows[j].item.item
  {
    var h := ReadHeader(mem, script);
    RowsApart(mem, script + h.funcsOffset, h.funcCount, m, i, j);
  }

  lemma LoadedInside(mem: seq<byte>, script: nat, fs: seq<FuncRec>, m: nat)
    requires FuncsLoad(mem, script, fs, m)
    ensures HasHeader(mem, script) && FuncTableInside(mem, script)
  {
  }

  lemma RowsApart(mem: seq<byte>, p: nat, n: nat, m: nat, i: nat, j: nat)
    requires FuncsInside(mem, p, n) && i < j < n
    ensures var rows := FuncRows(mem, p, n, m);
            rows[i].item.flags == 0 && rows[j].item.flags == 0 ==> rows[i].item.item < rows[j].item.item
  {
    var rows := FuncRows(mem, p, n, m);
    if rows[i].item.flags == 0 && rows[j].item.flags == 0 {
      CodeApart(mem, p, n, m, i, j);
    }
  }

  lemma LoadedVarRow(mem: seq<byte>, script: nat, vs: seq<VarRec>, m: nat, v: nat)
    requires VarsLoad(mem, script, vs, m) && v < |vs|
    ensures |LoadedVar(mem, script, m)| == |vs| && VarRecovered(mem, LoadedVar(mem, script, m)[v], vs[v], m)
  {
    var h := ReadHeader(mem, script);
    assert VarRecovered(mem, VarRows(mem, script + h.varsOffset, |vs|, m)[v], vs[v], m);
  }

  predicate Records(fs: seq<FuncRec>, vs: seq<VarRec>) {
    && (forall k :: 0 <= k < |fs| ==> CName(fs[k].name) && fs[k].flags < TWO32)
    && forall k :: 0 <= k < |vs| ==> CName(vs[k].name) && vs[k].flags < TWO32
  }

  lemma EntryShorter(fs: seq<FuncRec>, k: nat)
    requires k < |fs|
    ensures |FuncEntry(fs[k])| <= |FuncSection(fs, |fs|)|
  {
    FuncSectionPlaced(FuncSection(fs, |fs|), 0, fs, k, |fs|);
  }

  lemma VarEntryShorter(vs: seq<VarRec>, k: nat)
    requires k < |vs|
    ensures |VarEntry(vs[k])| <= |VarSection(vs, |vs|)|
  {
    VarSectionPlaced(VarSection(vs, |vs|), 0, vs, k, |vs|);
  }

  lemma {:induction false} AllFuncsFit(fs: seq<FuncRec>, vs: seq<VarRec>)
    requires Records(fs, vs) && |FuncSection(fs, |fs|)| < TWO32
    ensures forall k :: 0 <= k < |fs| ==> FuncFits(fs[k])
  {
    forall k | 0 <= k < |fs| ensures FuncFits(fs[k]) {
      EntryShorter(fs, k);
    }
  }

  lemma {:induction false} AllVarsFit(fs: seq<FuncRec>, vs: seq<VarRec>)
    requires Records(fs, vs) && |VarSection(vs, |vs|)| < TWO32
    ensures forall k :: 0 <= k < |vs| ==> VarFits(vs[k])
  {
    forall k | 0 <= k < |vs| ensures VarFits(vs[k]) {
      VarEntryShorter(vs, k);
    }
  }

  lemma FuncsFoundIff(
    mem: seq<byte>, script: nat, from: nat, n: nat, to: nat, fs: seq<FuncRec>, vs: seq<VarRec>, m: nat)
    requires PlacedAt(mem, script + from, FuncSection(fs, |fs|)) && Records(fs, vs)
    requires n == U32(|fs|) && to == U32(from + |FuncSection(fs, |fs|)|)
    ensures FuncsFound(mem, script, from, n, to, fs, m) <==> from + |FuncSection(fs, |fs|)| < TWO32
  {
    if from + |FuncSection(fs, |fs|)| < TWO32 {
      FuncsFoundAt(mem, script, from, n, to, fs, vs, m);
    } else {
      FuncsFoundFits(mem, script, from, n, to, fs, m);
    }
  }

  lemma FuncsFoundFits(mem: seq<byte>, script: nat, from: nat, n: nat, to: nat, fs: seq<FuncRec>, m: nat)
    requires to == U32(from + |FuncSection(fs, |fs|)|)
    ensures FuncsFound(mem, script, from, n, to, fs, m) ==> from + |FuncSection(fs, |fs|)| < TWO32
  {
    if FuncsFound(mem, script, from, n, to, fs, m) {
      FuncsEnd(mem, script + from, fs, m);
    }
  }

  lemma FuncsFoundAt(
    mem: seq<byte>, script: nat, from: nat, n: nat, to: nat, fs: seq<FuncRec>, vs: seq<VarRec>, m: nat)
    requires PlacedAt(mem, script + from, FuncSection(fs, |fs|)) && Records(fs, vs)
    requires n == U32(|fs|) && to == U32(from + |FuncSection(fs, |fs|)|) && from + |FuncSection(fs, |fs|)| < TWO32
    ensures FuncsFound(mem, script, from, n, to, fs, m)
  {
    FuncSectionLength(fs, |fs|);
    AllFuncsFit(fs, vs);
    FuncsTrip(mem, script + from, fs, m);
    FuncsEnd(mem, script + from, fs, m);
  }

  lemma FuncsEnd(mem: seq<byte>, p: nat, fs: seq<FuncRec>, m: nat)
    requires FuncsComeBack(mem, p, fs, m)
    ensures FuncAt(mem, p, |fs|) == p + |FuncSection(fs, |fs|)|
  {
  }

  lemma VarsFoundIff(
    mem: seq<byte>, script: nat, from: nat, n: nat, to: nat, fs: seq<FuncRec>, vs: seq<VarRec>, m: nat)
    requires PlacedAt(mem, script + from, VarSection(vs, |vs|)) && Records(fs, vs)
    requires n == U32(|vs|) && to == U32(from + |VarSection(vs, |vs|)|)
    ensures VarsFound(mem, script, from, n, to, vs, m) <==> from + |VarSection(vs, |vs|)| < TWO32
  {
    if from + |VarSection(vs, |vs|)| < TWO32 {
      VarsFoundAt(mem, script, from, n, to, fs, vs, m);
    } else {
      VarsFoundFits(mem, script, from, n, to, vs, m);
    }
  }

  lemma VarsFoundFits(mem: seq<byte>, script: nat, from: nat, n: nat, to: nat, vs: seq<VarRec>, m: nat)
    requires to == U32(from + |VarSection(vs, |vs|)|)
    ensures VarsFound(mem, script, from, n, to, vs, m) ==> from + |VarSection(vs, |vs|)| < TWO32
  {
    if VarsFound(mem, script, from, n, to, vs, m) {
      VarsEnd(mem, script + from, vs, m);
    }
  }

  lemma VarsFoundAt(
    mem: seq<byte>, script: nat, from: nat, n: nat, to: nat, fs: seq<FuncRec>, vs: seq<VarRec>, m: nat)
    requires PlacedAt(mem, script + from, VarSection(vs, |vs|)) && Records(fs, vs)
    requires n == U32(|vs|) && to == U32(from + |VarSection(vs, |vs|)|) && from + |VarSection(vs, |vs|)| < TWO32
    ensures VarsFound(mem, script, from, n, to, vs, m)
  {
    VarSectionLength(vs, |vs|);
    AllVarsFit(fs, vs);
    VarsTrip(mem, script + from, vs, m);
    VarsEnd(mem, script + from, vs, m);
  }

  lemma VarsEnd(mem: seq<byte>, p: nat, vs: seq<VarRec>, m: nat)
    requires VarsComeBack(mem, p, vs, m)
    ensures VarAt(mem, p, |vs|) == p + |VarSection(vs, |vs|)|
  {
  }

  /** The function table comes back, and ends where the header says, exactly when its end is addressed in 32 bits. */
  lemma FuncRoundTrip(mem: seq<byte>, script: nat, z: Sizes, fs: seq<FuncRec>, vs: seq<VarRec>, m: nat)
    requires PlacedAt(mem, script, ImageOf(z, fs, vs)) && Records(fs, vs)
    ensures FuncsLoad(mem, script, fs, m) <==> HEADER_SIZE + |FuncSection(fs, |fs|)| < TWO32
  {
    ImageSections(mem, script, z, fs, vs);
    FuncsLoadIff(mem, script, z, fs, vs, m);
  }

  lemma FuncsLoadIff(mem: seq<byte>, script: nat, z: Sizes, fs: seq<FuncRec>, vs: seq<VarRec>, m: nat)
    requires SectionsAt(mem, script, z, fs, vs) && Records(fs, vs)
    ensures FuncsLoad(mem, script, fs, m) <==> HEADER_SIZE + |FuncSection(fs, |fs|)| < TWO32
  {
    TablesInHeader(z, |fs|, FuncSection(fs, |fs|), |vs|, VarSection(vs, |vs|));
    var end := HEADER_SIZE + |FuncSection(fs, |fs|)| + |VarSection(vs, |vs|)|;
    FuncsLoadAt(mem, script, HeaderOf(z, fs, vs), end, fs, vs, m);
  }

  /** Where a header says the tables are. */
  predicate TablesAt(h: Header, nf: nat, o: nat, nv: nat, end: nat) {
    && h.funcsOffset == HEADER_SIZE && h.funcCount == U32(nf) && h.varsOffset == U32(o)
    && h.varCount == U32(nv) && h.memOffset == U32(end)
  }

  lemma TablesInHeader(z: Sizes, nf: nat, a: seq<byte>, nv: nat, b: seq<byte>)
    ensures TablesAt(Truncated(HeaderFor(z, nf, a, nv, b)), nf, HEADER_SIZE + |a|, nv, HEADER_SIZE + |a| + |b|)
  {
  }

  lemma FuncsLoadAt(mem: seq<byte>, script: nat, h: Header, end: nat, fs: seq<FuncRec>, vs: seq<VarRec>, m: nat)
    requires HasHeader(mem, script) && ReadHeader(mem, script) == h && Records(fs, vs)
    requires PlacedAt(mem, script + HEADER_SIZE, FuncSection(fs, |fs|))
    requires TablesAt(h, |fs|, HEADER_SIZE + |FuncSection(fs, |fs|)|, |vs|, end)
    ensures FuncsLoad(mem, script, fs, m) <==> HEADER_SIZE + |FuncSection(fs, |fs|)| < TWO32
  {
    FuncsFoundIff(mem, script, h.funcsOffset, h.funcCount, h.varsOffset, fs, vs, m);
  }

  /** And the variable table, given that the functions before it do. */
  lemma VarRoundTrip(mem: seq<byte>, script: nat, z: Sizes, fs: seq<FuncRec>, vs: seq<VarRec>, m: nat)
    requires PlacedAt(mem, script, ImageOf(z, fs, vs)) && Records(fs, vs)
    requires FuncsLoad(mem, script, fs, m)
    ensures VarsLoad(mem, script, vs, m)
            <==> HEADER_SIZE + |FuncSection(fs, |fs|)| + |VarSection(vs, |vs|)| < TWO32
  {
    ImageSections(mem, script, z, fs, vs);
    FuncsLoadIff(mem, script, z, fs, vs, m);
    VarsLoadIff(mem, script, z, fs, vs, m);
  }

  lemma VarsLoadIff(mem: seq<byte>, script: nat, z: Sizes, fs: seq<FuncRec>, vs: seq<VarRec>, m: nat)
    requires SectionsAt(mem, script, z, fs, vs) && Records(fs, vs)
    requires HEADER_SIZE + |FuncSection(fs, |fs|)| < TWO32
    ensures VarsLoad(mem, script, vs, m)
            <==> HEADER_SIZE + |FuncSection(fs, |fs|)| + |VarSection(vs, |vs|)| < TWO32
  {
    TablesInHeader(z, |fs|, FuncSection(fs, |fs|), |vs|, VarSection(vs, |vs|));
    VarsLoadAt(mem, script, HeaderOf(z, fs, vs), HEADER_SIZE + |FuncSection(fs, |fs|)|, fs, vs, m);
  }

  lemma VarsLoadAt(mem: seq<byte>, script: nat, h: Header, o: nat, fs: seq<FuncRec>, vs: seq<VarRec>, m: nat)
    requires HasHeader(mem, script) && ReadHeader(mem, script) == h && Records(fs, vs)
    requires PlacedAt(mem, script + o, VarSection(vs, |vs|)) && o < TWO32
    requires TablesAt(h, |fs|, o, |vs|, o + |VarSection(vs, |vs|)|)
    ensures VarsLoad(mem, script, vs, m) <==> o + |VarSection(vs, |vs|)| < TWO32
  {
    VarsFoundIff(mem, script, h.varsOffset, h.varCount, h.memOffset, fs, vs, m);
  }

  /** The region is where and what it should be exactly when the sizes fit 32 bits, given that the tables before it
      do. */
  lemma RegionLoadsIff(mem: seq<byte>, script: nat, z: Sizes, fs: seq<FuncRec>, vs: seq<VarRec>)
    requires SectionsAt(mem, script, z, fs, vs)
    requires HEADER_SIZE + |FuncSection(fs, |fs|)| + |VarSection(vs, |vs|)| < TWO32
    ensures RegionLoads(mem, script, z) <==> Addressable(z, fs, vs)
  {
  }

  /** The round trip: loading a finalized image by its header gives back all functions, all variables and the memory
      region, each exactly where the one before it ends, exactly when the sizes and offsets fit 32 bits. */
  lemma ImageRoundTrip(mem: seq<byte>, script: nat, z: Sizes, fs: seq<FuncRec>, vs: seq<VarRec>, m: nat)
    requires PlacedAt(mem, script, ImageOf(z, fs, vs)) && Records(fs, vs)
    ensures FuncsLoad(mem, script, fs, m) && VarsLoad(mem, script, vs, m) && RegionLoads(mem, script, z)
            <==> Addressable(z, fs, vs)
  {
    ImageSections(mem, script, z, fs, vs);
    SectionsLoadIff(mem, script, z, fs, vs, m);
  }

  lemma SectionsLoadIff(mem: seq<byte>, script: nat, z: Sizes, fs: seq<FuncRec>, vs: seq<VarRec>, m: nat)
    requires SectionsAt(mem, script, z, fs, vs) && Records(fs, vs)
    ensures FuncsLoad(mem, script, fs, m) && VarsLoad(mem, script, vs, m) && RegionLoads(mem, script, z)
            <==> Addressable(z, fs, vs)
  {
    FuncsLoadIff(mem, script, z, fs, vs, m);
    if HEADER_SIZE + |FuncSection(fs, |fs|)| < TWO32 {
      VarsLoadIff(mem, script, z, fs, vs, m);
      if HEADER_SIZE + |FuncSection(fs, |fs|)| + |VarSection(vs, |vs|)| < TWO32 {
        RegionLoadsIff(mem, script, z, fs, vs);
      }
    }
  }
}
