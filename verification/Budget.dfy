/** The memory budget: the region the assembler reserves for a module, and what the loader allocates from it. */
module Budget {
  import opened Words
  import opened MemPool

  const PTR: nat := 8
  const ITEM: nat := 24
  const SYM_TABLE: nat := 304
  const TABLES: nat := 5
  const DEFAULT: nat := 0x1000

  // ----- the assembler's side -----

  /** What the loader's tables are reckoned to need, in 32 bits. */
  method MemRegionSize(nf: nat, nv: nat) returns (size: nat)
    ensures size == U32(328 + 64 * (nf + nv))
  {
    var node := AlignSize(HEADER, PTR);
    var item := AlignSize(ITEM, PTR);
    size := U32(node + PTR * 2);
    AddU32(40, item * nf + node);
    size := U32(size + (item * nf + node));
    AddU32(64 + 24 * nf, PTR * nf * TABLES + node * TABLES);
    size := U32(size + (PTR * nf * TABLES + node * TABLES));
    AddU32(184 + 64 * nf, item * nv + node);
    size := U32(size + (item * nv + node));
    AddU32(208 + 64 * nf + 24 * nv, PTR * nv * TABLES + node * TABLES);
    size := U32(size + (PTR * nv * TABLES + node * TABLES));
  }

  /** The size of the memory region in the header. */
  function MemSize(opstack: nat, callstack: nat, heap: nat, n: nat): nat {
    U32(opstack + callstack + U32(heap + U32(328 + 64 * n)))
  }

  /** How many times the sum wraps around. */
  function Wraps(opstack: nat, callstack: nat, heap: nat, n: nat): nat {
    (opstack + callstack + heap + 328 + 64 * n) / TWO32
  }

  lemma MemSizeIs(opstack: nat, callstack: nat, heap: nat, n: nat)
    ensures MemSize(opstack, callstack, heap, n)
            == opstack + callstack + heap + 328 + 64 * n - TWO32 * Wraps(opstack, callstack, heap, n)
  {
    AddU32(heap, 328 + 64 * n);
    AddU32(opstack + callstack, heap + 328 + 64 * n);
  }

  // ----- the loader's side -----

  /** The requests for one symbol table: the table itself, items, sizes, names, hashes and chain. Empty arrays
      are not provided, and not used. */
  function TableRequests(n: nat): seq<nat> {
    if n == 0 then [SYM_TABLE] else [SYM_TABLE] + ([ITEM * n] + Repeat(PTR * n, 4))
  }

  function Repeat(size: nat, n: nat): seq<nat> {
    if n == 0 then [] else [size] + Repeat(size, n - 1)
  }

  /** All requests of the loader, in order. */
  function Requests(opstack: nat, callstack: nat, nf: nat, nv: nat): seq<nat> {
    [opstack] + ([callstack] + (TableRequests(nf) + TableRequests(nv)))
  }

  /** The pool meets every request. */
  predicate AllServed(p: Pool, sizes: seq<nat>)
    requires |p.lists| == LISTS
    decreases |sizes|
  {
    sizes == [] || (Serve(p, sizes[0]).1.Some? && AllServed(Serve(p, sizes[0]).0, sizes[1..]))
  }

  function After(p: Pool, sizes: seq<nat>): Pool
    requires |p.lists| == LISTS
    decreases |sizes|
  {
    if sizes == [] then p else After(Serve(p, sizes[0]).0, sizes[1..])
  }

  function Total(sizes: seq<nat>): nat {
    if sizes == [] then 0 else NodeBytes(sizes[0]) + Total(sizes[1..])
  }

  lemma {:induction false} TotalAppend(s: seq<nat>, t: seq<nat>)
    ensures Total(s + t) == Total(s) + Total(t)
    decreases |s|
  {
    if s == [] {
      assert s + t == t;
    } else {
      assert (s + t)[1..] == s[1..] + t;
      TotalAppend(s[1..], t);
    }
  }

  /** A pool with nothing on its lists meets a series of requests exactly when they fit together with their nodes,
      and then just that is gone. */
  lemma {:induction false} ServedIffFits(p: Pool, sizes: seq<nat>)
    requires Sound(p) && Stacked(p) && forall k :: 0 <= k < |sizes| ==> sizes[k] > 0
    ensures AllServed(p, sizes) <==> Total(sizes) <= Remaining(p)
    ensures AllServed(p, sizes) ==> Remaining(After(p, sizes)) == Remaining(p) - Total(sizes)
    decreases |sizes|
  {
    AllEmpty(p.lists);
    if sizes != [] {
      var q := Serve(p, sizes[0]).0;
      AllocSound(p, sizes[0]);
      GetStacks(p, sizes[0]);
      if Serve(p, sizes[0]).1.Some? {
        AllocFromRegion(p, sizes[0]);
        AllEmpty(q.lists);
        ServedIffFits(q, sizes[1..]);
      }
    }
  }

  /** What one table takes, nodes included. */
  function TableNeed(n: nat): nat {
    328 + if n == 0 then 0 else 56 * n + 120
  }

  lemma TableTotal(n: nat)
    ensures Total(TableRequests(n)) == TableNeed(n)
  {
    WholeWords(38);
    if n == 0 {
      TotalOne(SYM_TABLE, []);
      assert [SYM_TABLE] + [] == [SYM_TABLE];
    } else {
      TotalOne(SYM_TABLE, [ITEM * n] + Repeat(PTR * n, 4));
      TotalOne(ITEM * n, Repeat(PTR * n, 4));
      WholeWords(3 * n);
      WholeWords(n);
      RepeatTotal(PTR * n, 4);
    }
  }

  lemma {:induction false} TotalOne(size: nat, sizes: seq<nat>)
    ensures Total([size] + sizes) == NodeBytes(size) + Total(sizes)
  {
    assert ([size] + sizes)[1..] == sizes;
  }

  lemma {:induction false} RepeatTotal(size: nat, n: nat)
    ensures Total(Repeat(size, n)) == n * NodeBytes(size)
  {
    if n > 0 {
      TotalOne(size, Repeat(size, n - 1));
      RepeatTotal(size, n - 1);
      assert n * NodeBytes(size) == (n - 1) * NodeBytes(size) + NodeBytes(size);
    }
  }

  /** Whole words need no rounding. */
  lemma WholeWords(n: nat)
    ensures NodeBytes(PTR * n) == PTR * n + HEADER
  {
    var m := AlignSize(PTR * n + HEADER, PTR);
    assert m == PTR * (m / PTR);
  }

  /** What a table without entries spares. */
  function Spared(nf: nat, nv: nat): nat {
    (if nf == 0 then 120 else 0) + (if nv == 0 then 120 else 0)
  }

  /** The budget: with stacks that are whole words, the loader gets all it asks for exactly when
      the heap and 8 bytes for every entry make up 616, the sum of sizes taken modulo 2^32 into account; and
      then exactly the difference is left. */
  lemma LoaderFits(buf: nat, opstack: nat, callstack: nat, heap: nat, nf: nat, nv: nat)
    requires 0 < opstack && 0 < callstack && opstack % PTR == 0 && callstack % PTR == 0
    requires var bytes := MemSize(opstack, callstack, heap, nf + nv); bytes + PTR <= buf < TWO64 - bytes
    ensures var p := FreshPool(buf, MemSize(opstack, callstack, heap, nf + nv));
            var sizes := Requests(opstack, callstack, nf, nv);
            var have := heap + 8 * (nf + nv) + Spared(nf, nv);
            var need := 616 + TWO32 * Wraps(opstack, callstack, heap, nf + nv);
            && (AllServed(p, sizes) <==> have >= need)
            && (AllServed(p, sizes) ==> Remaining(After(p, sizes)) == have - need)
  {
    var size := MemSize(opstack, callstack, heap, nf + nv);
    FreshSound(buf, size);
    RequestsTotal(opstack, callstack, nf, nv);
    ServedIffFits(FreshPool(buf, size), Requests(opstack, callstack, nf, nv));
    SizeAgainstTotal(opstack, callstack, heap, nf, nv);
  }

  lemma SizeAgainstTotal(opstack: nat, callstack: nat, heap: nat, nf: nat, nv: nat)
    requires 0 < opstack && 0 < callstack && opstack % PTR == 0 && callstack % PTR == 0
    ensures MemSize(opstack, callstack, heap, nf + nv) - Total(Requests(opstack, callstack, nf, nv))
            == heap + 8 * (nf + nv) + Spared(nf, nv) - (616 + TWO32 * Wraps(opstack, callstack, heap, nf + nv))
  {
    MemSizeIs(opstack, callstack, heap, nf + nv);
    RequestsTotal(opstack, callstack, nf, nv);
  }

  lemma RequestsTotal(opstack: nat, callstack: nat, nf: nat, nv: nat)
    requires 0 < opstack && 0 < callstack && opstack % PTR == 0 && callstack % PTR == 0
    ensures Total(Requests(opstack, callstack, nf, nv)) == opstack + callstack + 48 + TableNeed(nf) + TableNeed(nv)
    ensures forall k :: 0 <= k < |Requests(opstack, callstack, nf, nv)| ==> Requests(opstack, callstack, nf, nv)[k] > 0
  {
    TotalOne(opstack, [callstack] + (TableRequests(nf) + TableRequests(nv)));
    TotalOne(callstack, TableRequests(nf) + TableRequests(nv));
    TotalAppend(TableRequests(nf), TableRequests(nv));
    TableTotal(nf);
    TableTotal(nv);
    WholeWords(opstack / PTR);
    WholeWords(callstack / PTR);
    NoEmptyRequests(nf);
    NoEmptyRequests(nv);
  }

  lemma NoEmptyRequests(n: nat)
    ensures forall k :: 0 <= k < |TableRequests(n)| ==> TableRequests(n)[k] > 0
  {
    if n > 0 {
      RepeatOf(PTR * n, 4);
    }
  }

  lemma {:induction false} RepeatOf(size: nat, n: nat)
    ensures forall k :: 0 <= k < |Repeat(size, n)| ==> Repeat(size, n)[k] == size
  {
    if n > 0 {
      RepeatOf(size, n - 1);
    }
  }

  /** The default heap is enough for any number of functions and variables that does not overflow the sizes. */
  lemma DefaultHeapFits(buf: nat, opstack: nat, callstack: nat, nf: nat, nv: nat)
    requires 0 < opstack && 0 < callstack && opstack % PTR == 0 && callstack % PTR == 0
    requires opstack + callstack + DEFAULT + 328 + 64 * (nf + nv) < TWO32
    requires TWO32 + PTR <= buf < TWO64 - TWO32
    ensures AllServed(FreshPool(buf, MemSize(opstack, callstack, DEFAULT, nf + nv)),
                      Requests(opstack, callstack, nf, nv))
  {
    MemSizeIs(opstack, callstack, DEFAULT, nf + nv);
    LoaderFits(buf, opstack, callstack, DEFAULT, nf, nv);
  }
}
