/** Module files: the writer that prints function and variable tables into an image, and the loader
    that reads them back. */
module ModuleImage {
  import opened Words
  import opened Codec

  const MAGIC: int := 0x7A6A_C0DE
  const HEADER_SIZE: int := 48
  const ENTRY_SIZE: int := 16

  // ----- what is written -----

  datatype FuncRec = FuncRec(flags: nat, name: string, code: seq<byte>)
  datatype VarRec = VarRec(flags: nat, name: string, data: seq<byte>)

  /** A C string: no terminator inside, characters of one byte. */
  predicate CName(name: string) {
    forall k :: 0 <= k < |name| ==> 0 < name[k] as int < 256
  }

  function NameBytes(name: string): (s: seq<byte>)
    ensures |s| == |name| && forall k :: 0 <= k < |name| ==> s[k] == name[k] as int % 256
  {
    seq<byte>(|name|, k requires 0 <= k < |name| => name[k] as int % 256)
  }

  /** Bytes the name takes with terminator and padding. */
  function NameLen(name: string): nat {
    AlignSize(|name| + 1, 4)
  }

  function NameField(name: string): (s: seq<byte>)
    ensures |s| == NameLen(name)
  {
    NameBytes(name) + Zeros(NameLen(name) - |name|)
  }

  function Padded(data: seq<byte>): (s: seq<byte>)
    ensures |s| == AlignSize(|data|, 4)
  {
    data + Zeros(AlignSize(|data|, 4) - |data|)
  }

  function EntryHead(size: nat, flags: nat, nameLen: nat, dataLen: nat): (s: seq<byte>)
    ensures |s| == ENTRY_SIZE
  {
    LE(4, size) + LE(4, flags) + LE(4, nameLen) + LE(4, dataLen)
  }

  /** The size of an entry as it is written down: 8 bytes count for functions without code, which are not written. */
  function SizeField(f: FuncRec): nat {
    ENTRY_SIZE + NameLen(f.name) + if f.flags != 0 then 8 else AlignSize(|f.code|, 4)
  }

  /** It is the entry's size exactly for functions with code. */
  lemma SizeFieldIff(f: FuncRec)
    ensures SizeField(f) == |FuncEntry(f)| <==> f.flags == 0
  {
  }

  function FuncEntry(f: FuncRec): seq<byte> {
    var n := if f.flags != 0 then 8 else AlignSize(|f.code|, 4);
    EntryHead(SizeField(f), f.flags, NameLen(f.name), n)
    + NameField(f.name) + (if f.flags != 0 then [] else Padded(f.code))
  }

  function VarEntry(v: VarRec): seq<byte> {
    EntryHead(VarSizeField(v), v.flags, NameLen(v.name), AlignSize(|v.data|, 4))
    + NameField(v.name) + Padded(v.data)
  }

  /** The size of a variable's entry as it is written down. */
  function VarSizeField(v: VarRec): nat {
    ENTRY_SIZE + NameLen(v.name) + AlignSize(|v.data|, 4)
  }

  function FuncSection(fs: seq<FuncRec>, n: nat): seq<byte>
    requires n <= |fs|
  {
    if n == 0 then [] else FuncSection(fs, n - 1) + FuncEntry(fs[n - 1])
  }

  function VarSection(vs: seq<VarRec>, n: nat): seq<byte>
    requires n <= |vs|
  {
    if n == 0 then [] else VarSection(vs, n - 1) + VarEntry(vs[n - 1])
  }

  datatype Sizes = Sizes(opstack: nat, callstack: nat, heap: nat, flags: nat)

  datatype Header = Header(
    magic: nat, opstack: nat, callstack: nat, stack: nat, heap: nat, mem: nat,
    funcsOffset: nat, funcCount: nat, varsOffset: nat, varCount: nat, memOffset: nat, flags: nat)

  /** Words of 32 bits, one after the other. */
  function Longs(l: seq<nat>): (s: seq<byte>)
    ensures |s| == 4 * |l|
  {
    if l == [] then [] else LE(4, l[0]) + Longs(l[1..])
  }

  function Fields(h: Header): (l: seq<nat>)
    ensures |l| == 12
  {
    [h.magic, h.opstack, h.callstack, h.stack, h.heap, h.mem, h.funcsOffset, h.funcCount, h.varsOffset, h.varCount,
     h.memOffset, h.flags]
  }

  function HeaderBytes(h: Header): (s: seq<byte>)
    ensures |s| == HEADER_SIZE
  {
    Longs(Fields(h))
  }

  /** What the header of a module with `nf` functions and `nv` variables, written as these sections, should say. */
  function HeaderFor(z: Sizes, nf: nat, funcs: seq<byte>, nv: nat, vars: seq<byte>): Header {
    var varsOffset := HEADER_SIZE + |funcs|;
    Header(MAGIC, z.opstack, z.callstack, z.opstack + z.callstack, z.heap,
           z.opstack + z.callstack + z.heap, HEADER_SIZE, nf, varsOffset, nv, varsOffset + |vars|, z.flags)
  }

  function PlainHeader(z: Sizes, fs: seq<FuncRec>, vs: seq<VarRec>): Header {
    HeaderFor(z, |fs|, FuncSection(fs, |fs|), |vs|, VarSection(vs, |vs|))
  }

  function Truncated(h: Header): Header {
    Header(U32(h.magic), U32(h.opstack), U32(h.callstack), U32(h.stack), U32(h.heap), U32(h.mem),
           U32(h.funcsOffset), U32(h.funcCount), U32(h.varsOffset), U32(h.varCount), U32(h.memOffset), U32(h.flags))
  }

  /** What it says: fields of 32 bits. */
  function HeaderOf(z: Sizes, fs: seq<FuncRec>, vs: seq<VarRec>): Header {
    Truncated(PlainHeader(z, fs, vs))
  }

  /** The sizes add up, and all offsets lie, below 2^32. */
  predicate Addressable(z: Sizes, fs: seq<FuncRec>, vs: seq<VarRec>) {
    && z.opstack + z.callstack + z.heap < TWO32 && z.flags < TWO32
    && HEADER_SIZE + |FuncSection(fs, |fs|)| + |VarSection(vs, |vs|)| < TWO32
  }

  /** The header says what it should exactly then. */
  lemma HeaderIsPlainIff(z: Sizes, fs: seq<FuncRec>, vs: seq<VarRec>)
    ensures HeaderOf(z, fs, vs) == PlainHeader(z, fs, vs) <==> Addressable(z, fs, vs)
  {
    FuncSectionLength(fs, |fs|);
    VarSectionLength(vs, |vs|);
  }

  /** Every entry takes room. */
  lemma {:induction false} FuncSectionLength(fs: seq<FuncRec>, n: nat)
    requires n <= |fs|
    ensures |FuncSection(fs, n)| >= n
    decreases n
  {
    if n > 0 {
      FuncSectionLength(fs, n - 1);
    }
  }

  lemma {:induction false} VarSectionLength(vs: seq<VarRec>, n: nat)
    requires n <= |vs|
    ensures |VarSection(vs, n)| >= n
    decreases n
  {
    if n > 0 {
      VarSectionLength(vs, n - 1);
    }
  }

  /** The whole image: header, function table, variable table, zeroed memory region. */
  function ImageOf(z: Sizes, fs: seq<FuncRec>, vs: seq<VarRec>): seq<byte> {
    var h := HeaderOf(z, fs, vs);
    HeaderBytes(h) + FuncSection(fs, |fs|) + VarSection(vs, |vs|) + Zeros(h.mem)
  }

  // ----- where things are written -----

  /** Four bytes, the lowest first. */
  function Long(s: seq<byte>, p: nat): nat
    requires p + 3 < |s|
  {
    Half(s, p) + 0x1_0000 * Half(s, p + 2)
  }

  lemma LongOfLE(v: nat)
    ensures Long(LE(4, v), 0) == v % TWO32
  {
    LowHalf(2, v);
    LowHalf(0, v / TWO16);
    assert Half(LE(4, v), 2) == Half(LE(4, v)[2..], 0);
  }

  lemma {:induction false} LongAt(l: seq<nat>, k: nat)
    requires k < |l|
    ensures 4 * k + 3 < |Longs(l)| && Long(Longs(l), 4 * k) == l[k] % TWO32
    decreases k
  {
    var rest := Longs(l[1..]);
    if k == 0 {
      LongOfLE(l[0]);
    } else {
      LongAt(l[1..], k - 1);
      Behind(Longs(l), LE(4, l[0]), rest, 4 * (k - 1));
      Behind(Longs(l), LE(4, l[0]), rest, 4 * (k - 1) + 2);
    }
  }

  /** What stands in the first 48 bytes of an image whose sizes and offsets fit. */
  lemma ImageLayout(z: Sizes, fs: seq<FuncRec>, vs: seq<VarRec>)
    requires Addressable(z, fs, vs)
    ensures var s := ImageOf(z, fs, vs);
            var funcs, vars := |FuncSection(fs, |fs|)|, |VarSection(vs, |vs|)|;
            && |s| == 48 + funcs + vars + z.opstack + z.callstack + z.heap
            && Long(s, 0) == 0x7A6A_C0DE && Long(s, 4) == z.opstack && Long(s, 8) == z.callstack
            && Long(s, 12) == z.opstack + z.callstack && Long(s, 16) == z.heap
            && Long(s, 20) == z.opstack + z.callstack + z.heap
            && Long(s, 24) == 48 && Long(s, 28) == |fs|
            && Long(s, 32) == 48 + funcs && Long(s, 36) == |vs|
            && Long(s, 40) == 48 + funcs + vars && Long(s, 44) == z.flags
  {
    HeaderIsPlainIff(z, fs, vs);
    FuncSectionLength(fs, |fs|);
    VarSectionLength(vs, |vs|);
    var h := PlainHeader(z, fs, vs);
    HeaderLayout(h);
    LongsInFront(ImageOf(z, fs, vs), HeaderBytes(h));
  }

  lemma LongsInFront(s: seq<byte>, first: seq<byte>)
    requires |first| <= |s| && s[..|first|] == first
    ensures forall p :: 0 <= p < |first| - 3 ==> Long(s, p) == Long(first, p)
  {
    assert forall k :: 0 <= k < |first| ==> s[k] == s[..|first|][k];
  }

  lemma HeaderLayout(h: Header)
    requires Truncated(h) == h
    ensures var s := HeaderBytes(h);
            && Long(s, 0) == h.magic && Long(s, 4) == h.opstack && Long(s, 8) == h.callstack
            && Long(s, 12) == h.stack && Long(s, 16) == h.heap && Long(s, 20) == h.mem
            && Long(s, 24) == h.funcsOffset && Long(s, 28) == h.funcCount && Long(s, 32) == h.varsOffset
            && Long(s, 36) == h.varCount && Long(s, 40) == h.memOffset && Long(s, 44) == h.flags
  {
    var l := Fields(h);
    LongAt(l, 0);
    LongAt(l, 1);
    LongAt(l, 2);
    LongAt(l, 3);
    LongAt(l, 4);
    LongAt(l, 5);
    LongAt(l, 6);
    LongAt(l, 7);
    LongAt(l, 8);
    LongAt(l, 9);
    LongAt(l, 10);
    LongAt(l, 11);
  }

  /** Where the parts of a function's entry lie: its size, flags, and the lengths of name and code, then the name and
      its padding, then the code, if it has any. */
  lemma FuncEntryLayout(f: FuncRec)
    requires SizeField(f) < TWO32 && f.flags < TWO32
    ensures var s := FuncEntry(f);
            var n := NameLen(f.name);
            && |s| == 16 + n + (if f.flags != 0 then 0 else AlignSize(|f.code|, 4))
            && |f.name| < n <= |f.name| + 4 && n % 4 == 0
            && Long(s, 0) == SizeField(f) && Long(s, 4) == f.flags && Long(s, 8) == n
            && Long(s, 12) == (if f.flags != 0 then 8 else AlignSize(|f.code|, 4))
            && NameAt(s, 16, f.name, n)
            && (f.flags == 0 ==> s[16 + n..16 + n + |f.code|] == f.code)
  {
    var n := if f.flags != 0 then 8 else AlignSize(|f.code|, 4);
    if f.flags == 0 {
      EntryLayout(FuncEntry(f), EntryHead(SizeField(f), 0, NameLen(f.name), n), f.name, Padded(f.code));
      BodyFirst(FuncEntry(f), 16 + NameLen(f.name), f.code);
    } else {
      EntryLayout(FuncEntry(f), EntryHead(SizeField(f), f.flags, NameLen(f.name), n), f.name, []);
    }
    HeadLayout(SizeField(f), f.flags, NameLen(f.name), n);
  }

  lemma BodyFirst(s: seq<byte>, p: nat, data: seq<byte>)
    requires p <= |s| && s[p..] == Padded(data)
    ensures p + |data| <= |s| && s[p..p + |data|] == data
  {
    assert s[p..p + |data|] == s[p..][..|data|];
  }

  /** The same of a variable's, whose size is what is written down. */
  lemma VarEntryLayout(v: VarRec)
    requires VarSizeField(v) < TWO32 && v.flags < TWO32
    ensures var s := VarEntry(v);
            var n := NameLen(v.name);
            && |s| == 16 + n + AlignSize(|v.data|, 4) && |v.name| < n <= |v.name| + 4 && n % 4 == 0
            && Long(s, 0) == |s| && Long(s, 4) == v.flags && Long(s, 8) == n
            && Long(s, 12) == AlignSize(|v.data|, 4)
            && NameAt(s, 16, v.name, n)
            && s[16 + n..16 + n + |v.data|] == v.data
  {
    var head := EntryHead(VarSizeField(v), v.flags, NameLen(v.name), AlignSize(|v.data|, 4));
    EntryLayout(VarEntry(v), head, v.name, Padded(v.data));
    HeadLayout(VarSizeField(v), v.flags, NameLen(v.name), AlignSize(|v.data|, 4));
    BodyFirst(VarEntry(v), 16 + NameLen(v.name), v.data);
  }

  /** A name at `p`, filled up with zeros to `n` bytes. */
  predicate NameAt(s: seq<byte>, p: nat, name: string, n: nat) {
    && |name| <= n && p + n <= |s|
    && (forall k :: p <= k < p + |name| ==> s[k] == name[k - p] as int % 256)
    && (forall k :: p + |name| <= k < p + n ==> s[k] == 0)
  }

  lemma EntryLayout(s: seq<byte>, head: seq<byte>, name: string, body: seq<byte>)
    requires |head| == ENTRY_SIZE && s == head + NameField(name) + body
    ensures s[..16] == head && NameAt(s, 16, name, NameLen(name)) && s[16 + NameLen(name)..] == body
    ensures forall p :: 0 <= p < 13 ==> Long(s, p) == Long(head, p)
  {
    var field := NameField(name);
    assert forall k :: 16 <= k < 16 + NameLen(name) ==> s[k] == field[k - 16];
    assert s[..16] == head;
    LongsInFront(s, head);
  }

  /** The four words in front of an entry. */
  lemma HeadLayout(size: nat, flags: nat, nameLen: nat, dataLen: nat)
    requires size < TWO32 && flags < TWO32 && nameLen < TWO32 && dataLen < TWO32
    ensures var s := EntryHead(size, flags, nameLen, dataLen);
            Long(s, 0) == size && Long(s, 4) == flags && Long(s, 8) == nameLen && Long(s, 12) == dataLen
  {
    LongOfLE(size);
    LongOfLE(flags);
    LongOfLE(nameLen);
    LongOfLE(dataLen);
    FourLongs(LE(4, size), LE(4, flags), LE(4, nameLen), LE(4, dataLen));
  }

  lemma FourLongs(a: seq<byte>, b: seq<byte>, c: seq<byte>, d: seq<byte>)
    requires |a| == 4 && |b| == 4 && |c| == 4 && |d| == 4
    ensures var s := a + b + c + d;
            && Long(s, 0) == Long(a, 0) && Long(s, 4) == Long(b, 0)
            && Long(s, 8) == Long(c, 0) && Long(s, 12) == Long(d, 0)
  {
  }

  class ModGen {
    var hdr: Header
    const funcData: ByteBuf
    const varData: ByteBuf

    constructor ()
      ensures hdr == Header(MAGIC, 0, 0, 0, 0, 0, 0, 0, 0, 0, 0, 0)
      ensures funcData.data == [] && varData.data == [] && funcData != varData
      ensures fresh(funcData) && fresh(varData)
    {
      hdr := Header(MAGIC, 0, 0, 0, 0, 0, 0, 0, 0, 0, 0, 0);
      funcData := new ByteBuf();
      varData := new ByteBuf();
    }

    /** Everything written so far: the sizes, functions and variables, in order. */
    ghost predicate Written(z: Sizes, fs: seq<FuncRec>, vs: seq<VarRec>)
      reads this, funcData, varData
    {
      && funcData != varData
      && funcData.data == FuncSection(fs, |fs|) && varData.data == VarSection(vs, |vs|)
      && hdr == HeaderSoFar(z, |fs|, |vs|)
    }

    method WriteHeader(z: Sizes, ghost z0: Sizes, ghost fs: seq<FuncRec>, ghost vs: seq<VarRec>)
      requires Written(z0, fs, vs)
      modifies this
      ensures Written(z, fs, vs)
    {
      hdr := hdr.(opstack := U32(z.opstack), callstack := U32(z.callstack), stack := U32(z.opstack + z.callstack),
                  heap := U32(z.heap), mem := U32(U32(z.opstack + z.callstack) + z.heap), flags := U32(z.flags));
      SizesFilled(z0, z, |fs|, |vs|);
    }

    method WriteFunc(f: FuncRec, ghost z: Sizes, ghost fs: seq<FuncRec>, ghost vs: seq<VarRec>)
      requires Written(z, fs, vs)
      modifies this, funcData
      ensures Written(z, fs + [f], vs)
    {
      ghost var other := varData.data;
      AddFunc(funcData, f, fs);
      assert varData.data == other;
      hdr := hdr.(funcCount := U32(hdr.funcCount + 1));
      CountFunc(z, |fs|, |vs|);
    }

    method WriteVar(v: VarRec, ghost z: Sizes, ghost fs: seq<FuncRec>, ghost vs: seq<VarRec>)
      requires Written(z, fs, vs)
      modifies this, varData
      ensures Written(z, fs, vs + [v])
    {
      ghost var other := funcData.data;
      AddVar(varData, v, vs);
      assert funcData.data == other;
      hdr := hdr.(varCount := U32(hdr.varCount + 1));
      CountVar(z, |fs|, |vs|);
    }

    /** Fills in the offsets and joins the parts. */
    method Finalize(ghost z: Sizes, ghost fs: seq<FuncRec>, ghost vs: seq<VarRec>)
      returns (image: ByteBuf)
      requires Written(z, fs, vs)
      modifies this
      ensures fresh(image) && image.data == ImageOf(z, fs, vs)
    {
      FillOffsets(z, fs, vs);
      image := JoinParts(hdr, funcData.data, varData.data);
    }

    method FillOffsets(ghost z: Sizes, ghost fs: seq<FuncRec>, ghost vs: seq<VarRec>)
      requires Written(z, fs, vs)
      modifies this`hdr
      ensures hdr == HeaderOf(z, fs, vs)
    {
      hdr := hdr.(funcsOffset := HEADER_SIZE);
      hdr := hdr.(varsOffset := U32(hdr.funcsOffset + |funcData.data|));
      hdr := hdr.(memOffset := U32(hdr.varsOffset + |varData.data|));
      OffsetsFilled(z, |fs|, funcData.data, |vs|, varData.data);
    }
  }

  /** The header before the offsets are known. */
  function HeaderSoFar(z: Sizes, nf: nat, nv: nat): Header {
    Truncated(Header(MAGIC, z.opstack, z.callstack, z.opstack + z.callstack, z.heap,
                     z.opstack + z.callstack + z.heap, 0, nf, 0, nv, 0, z.flags))
  }

  lemma CountFunc(z: Sizes, nf: nat, nv: nat)
    ensures var h := HeaderSoFar(z, nf, nv); HeaderSoFar(z, nf + 1, nv) == h.(funcCount := U32(h.funcCount + 1))
  {
    AddU32(nf, 1);
  }

  lemma CountVar(z: Sizes, nf: nat, nv: nat)
    ensures var h := HeaderSoFar(z, nf, nv); HeaderSoFar(z, nf, nv + 1) == h.(varCount := U32(h.varCount + 1))
  {
    AddU32(nv, 1);
  }

  lemma SizesFilled(z0: Sizes, z: Sizes, nf: nat, nv: nat)
    ensures HeaderSoFar(z, nf, nv)
            == HeaderSoFar(z0, nf, nv).(
                 opstack := U32(z.opstack), callstack := U32(z.callstack), stack := U32(z.opstack + z.callstack),
                 heap := U32(z.heap), mem := U32(U32(z.opstack + z.callstack) + z.heap), flags := U32(z.flags))
  {
    AddU32(z.opstack + z.callstack, z.heap);
  }

  lemma OffsetsFilled(z: Sizes, nf: nat, a: seq<byte>, nv: nat, b: seq<byte>)
    ensures Truncated(HeaderFor(z, nf, a, nv, b))
            == HeaderSoFar(z, nf, nv).(funcsOffset := HEADER_SIZE, varsOffset := U32(HEADER_SIZE + |a|),
                                       memOffset := U32(U32(HEADER_SIZE + |a|) + |b|))
  {
    AddU32(HEADER_SIZE + |a|, |b|);
  }

  method AddFunc(buf: ByteBuf, f: FuncRec, ghost fs: seq<FuncRec>)
    requires buf.data == FuncSection(fs, |fs|)
    modifies buf
    ensures buf.data == FuncSection(fs + [f], |fs + [f]|)
  {
    InsertFunc(buf, f);
    AppendFunc(fs, f);
  }

  method AddVar(buf: ByteBuf, v: VarRec, ghost vs: seq<VarRec>)
    requires buf.data == VarSection(vs, |vs|)
    modifies buf
    ensures buf.data == VarSection(vs + [v], |vs + [v]|)
  {
    InsertVar(buf, v);
    AppendVar(vs, v);
  }

  method JoinParts(h: Header, funcs: seq<byte>, vars: seq<byte>) returns (image: ByteBuf)
    ensures fresh(image) && image.data == HeaderBytes(h) + funcs + vars + Zeros(h.mem)
  {
    image := new ByteBuf();
    image.Append(HeaderBytes(h));
    image.Append(funcs);
    image.Append(vars);
    image.InsertZeros(h.mem);
  }

  method InsertFunc(buf: ByteBuf, f: FuncRec)
    modifies buf
    ensures buf.data == old(buf.data) + FuncEntry(f)
  {
    var nameLen, dataLen := NameLen(f.name), AlignSize(|f.code|, 4);
    var n := if f.flags != 0 then 8 else dataLen;
    ghost var before := buf.data;
    InsertHead(buf, ENTRY_SIZE + nameLen + n, f.flags, nameLen, n);
    InsertName(buf, f.name);
    if f.flags == 0 {
      InsertPadded(buf, f.code);
    }
    JoinEntry(before, EntryHead(ENTRY_SIZE + nameLen + n, f.flags, nameLen, n), NameField(f.name),
              if f.flags != 0 then [] else Padded(f.code));
  }

  method InsertVar(buf: ByteBuf, v: VarRec)
    modifies buf
    ensures buf.data == old(buf.data) + VarEntry(v)
  {
    var nameLen, dataLen := NameLen(v.name), AlignSize(|v.data|, 4);
    ghost var before := buf.data;
    InsertHead(buf, ENTRY_SIZE + nameLen + dataLen, v.flags, nameLen, dataLen);
    InsertName(buf, v.name);
    InsertPadded(buf, v.data);
    JoinEntry(before, EntryHead(ENTRY_SIZE + nameLen + dataLen, v.flags, nameLen, dataLen), NameField(v.name),
              Padded(v.data));
  }

  method InsertHead(buf: ByteBuf, size: nat, flags: nat, nameLen: nat, dataLen: nat)
    modifies buf
    ensures buf.data == old(buf.data) + EntryHead(size, flags, nameLen, dataLen)
  {
    ghost var before := buf.data;
    buf.InsertInt(4, size);
    buf.InsertInt(4, flags);
    buf.InsertInt(4, nameLen);
    buf.InsertInt(4, dataLen);
    JoinHead(before, LE(4, size), LE(4, flags), LE(4, nameLen), LE(4, dataLen));
  }

  lemma JoinHead(a: seq<byte>, b: seq<byte>, c: seq<byte>, d: seq<byte>, e: seq<byte>)
    ensures a + b + c + d + e == a + (b + c + d + e)
  {
  }

  lemma JoinEntry(a: seq<byte>, head: seq<byte>, name: seq<byte>, data: seq<byte>)
    ensures a + head + name + data == a + (head + name + data)
    ensures data == [] ==> a + head + name == a + (head + name + data)
  {
  }

  method InsertPadded(buf: ByteBuf, data: seq<byte>)
    modifies buf
    ensures buf.data == old(buf.data) + Padded(data)
  {
    buf.Append(data);
    buf.InsertZeros(AlignSize(|data|, 4) - |data|);
    AppendAssoc(old(buf.data), data, Zeros(AlignSize(|data|, 4) - |data|));
  }

  method InsertName(buf: ByteBuf, name: string)
    modifies buf
    ensures buf.data == old(buf.data) + NameField(name)
  {
    buf.Append(NameBytes(name));
    buf.InsertZeros(NameLen(name) - |name|);
    AppendAssoc(old(buf.data), NameBytes(name), Zeros(NameLen(name) - |name|));
  }

  lemma {:induction false} AppendFunc(fs: seq<FuncRec>, f: FuncRec)
    ensures FuncSection(fs + [f], |fs| + 1) == FuncSection(fs, |fs|) + FuncEntry(f)
  {
    FuncSectionPrefix(fs, fs + [f], |fs|);
  }

  lemma {:induction false} FuncSectionPrefix(fs: seq<FuncRec>, gs: seq<FuncRec>, n: nat)
    requires n <= |fs| && n <= |gs| && forall k :: 0 <= k < n ==> fs[k] == gs[k]
    ensures FuncSection(fs, n) == FuncSection(gs, n)
    decreases n
  {
    if n > 0 {
      FuncSectionPrefix(fs, gs, n - 1);
    }
  }

  lemma {:induction false} AppendVar(vs: seq<VarRec>, v: VarRec)
    ensures VarSection(vs + [v], |vs| + 1) == VarSection(vs, |vs|) + VarEntry(v)
  {
    VarSectionPrefix(vs, vs + [v], |vs|);
  }

  lemma {:induction false} VarSectionPrefix(vs: seq<VarRec>, ws: seq<VarRec>, n: nat)
    requires n <= |vs| && n <= |ws| && forall k :: 0 <= k < n ==> vs[k] == ws[k]
    ensures VarSection(vs, n) == VarSection(ws, n)
    decreases n
  {
    if n > 0 {
      VarSectionPrefix(vs, ws, n - 1);
    }
  }
}
