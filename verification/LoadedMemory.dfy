/** What the loader makes of a module's memory region: where the operand stack, the call stack and the tables lie,
    and what that gives the checks of memory instructions. */
module LoadedMemory {
  import opened Words
  import opened FreeList
  import opened MemPool
  import opened Budget
  import opened Machine
  import opened MemorySafety
  import opened ModuleImage
  import Loader
  import Toolchain
  import S = SourceVm

  // ----- the blocks served -----

  /** Where the bytes of the k-th block handed out begin; null if there is none. */
  function BytesAt(p: Pool, k: nat): nat {
    if k < |p.live| then p.live[k].addr + HEADER else 0
  }

  /** A series of requests met without lists: the blocks stack up below those that were there, in order. */
  lemma {:induction false} ServedInOrder(p: Pool, sizes: seq<nat>)
    requires Sound(p) && Stacked(p) && AllServed(p, sizes)
    ensures var q := After(p, sizes);
            && Sound(q) && Stacked(q)
            && q.region.mem == p.region.mem && q.region.size == p.region.size
            && |q.live| == |p.live| + |sizes| && q.live[..|p.live|] == p.live
            && forall k :: 0 <= k < |sizes| ==> q.live[|p.live| + k].size == NodeBytes(sizes[k])
    decreases |sizes|
  {
    if sizes != [] {
      var o := Serve(p, sizes[0]).0;
      OneServed(p, sizes[0]);
      ServedInOrder(o, sizes[1..]);
      LiveGrows(p, o, After(o, sizes[1..]), sizes);
    }
  }

  lemma OneServed(p: Pool, size: nat)
    requires Sound(p) && Stacked(p) && Serve(p, size).1.Some?
    ensures var o := Serve(p, size).0;
            && Sound(o) && Stacked(o)
            && o.region.mem == p.region.mem && o.region.size == p.region.size
            && |o.live| == |p.live| + 1 && o.live[..|p.live|] == p.live
            && o.live[|p.live|].size == NodeBytes(size)
  {
    AllocSound(p, size);
    GetStacks(p, size);
    AllocFromRegion(p, size);
  }

  lemma LiveGrows(p: Pool, o: Pool, q: Pool, sizes: seq<nat>)
    requires sizes != [] && |o.live| == |p.live| + 1 && o.live[..|p.live|] == p.live
    requires o.live[|p.live|].size == NodeBytes(sizes[0])
    requires |q.live| == |o.live| + |sizes| - 1 && q.live[..|o.live|] == o.live
    requires forall k :: 0 <= k < |sizes| - 1 ==> q.live[|o.live| + k].size == NodeBytes(sizes[1..][k])
    ensures q.live[..|p.live|] == p.live
    ensures forall k :: 0 <= k < |sizes| ==> q.live[|p.live| + k].size == NodeBytes(sizes[k])
  {
    assert q.live[..|p.live|] == q.live[..|o.live|][..|p.live|];
    forall k | 0 <= k < |sizes| ensures q.live[|p.live| + k].size == NodeBytes(sizes[k]) {
      if k == 0 {
        assert q.live[|p.live|] == q.live[..|o.live|][|p.live|];
      } else {
        assert q.live[|o.live| + (k - 1)].size == NodeBytes(sizes[1..][k - 1]);
      }
    }
  }

  /** Each block ends where or below where the one before it begins. */
  lemma {:induction false} StackedDown(p: Pool, j: nat, k: nat)
    requires Stacked(p) && j < k < |p.live|
    ensures p.live[k].addr + p.live[k].size <= p.live[j].addr
    decreases k
  {
    SumStep(p.live, k);
    if j + 1 < k {
      StackedDown(p, j, k - 1);
    }
  }

  lemma SumStep(l: seq<Block>, k: nat)
    requires k < |l|
    ensures Sum(l[..k + 1]) == Sum(l[..k]) + l[k].size
  {
    assert l[..k + 1] == l[..k] + [l[k]];
    SumAppend(l[..k], [l[k]]);
    assert Sum([l[k]]) == Sum([]) + l[k].size;
  }

  /** The bytes served lie between `from` and `to`, apart and in order: first served, highest. */
  ghost predicate InOrder(p: Pool, sizes: seq<nat>, from: nat, to: nat) {
    forall k :: 0 <= k < |sizes| ==>
      from < BytesAt(p, k) && BytesAt(p, k) + sizes[k] <= to && AllBelow(p, k, sizes[k])
  }

  /** The k-th block's `size` bytes, and the next node, fit below the bytes of each block before it. */
  ghost predicate AllBelow(p: Pool, k: nat, size: nat) {
    forall j :: 0 <= j < k ==> BytesAt(p, k) + size + HEADER <= BytesAt(p, j)
  }

  lemma BlocksInOrder(p: Pool, sizes: seq<nat>)
    requires Sound(p) && Stacked(p) && |p.live| == |sizes|
    requires forall k :: 0 <= k < |sizes| ==> p.live[k].size == NodeBytes(sizes[k])
    ensures InOrder(p, sizes, p.region.mem, p.region.mem + p.region.size)
  {
    forall k | 0 <= k < |sizes|
      ensures p.region.mem < BytesAt(p, k) && BytesAt(p, k) + sizes[k] <= p.region.mem + p.region.size
      ensures AllBelow(p, k, sizes[k])
    {
      assert p.live[k] == Groups(p)[LISTS][k];
      assert Holds(p.region, Groups(p)[LISTS][k]);
      forall j | 0 <= j < k ensures BytesAt(p, k) + sizes[k] + HEADER <= BytesAt(p, j) {
        StackedDown(p, j, k);
      }
    }
  }

  /** A fresh pool that meets all requests. */
  lemma ServedFresh(buf: nat, size: nat, sizes: seq<nat>)
    requires size + Region.ALIGN <= buf && buf + size < TWO64 && AllServed(FreshPool(buf, size), sizes)
    ensures InOrder(After(FreshPool(buf, size), sizes), sizes, buf, buf + size)
  {
    var p := FreshPool(buf, size);
    FreshSound(buf, size);
    ServedInOrder(p, sizes);
    forall k | 0 <= k < |sizes| ensures After(p, sizes).live[k].size == NodeBytes(sizes[k]) {
      assert After(p, sizes).live[0 + k].size == NodeBytes(sizes[k]);
    }
    BlocksInOrder(After(p, sizes), sizes);
  }

  // ----- what the loader sets up -----

  /** The pool in the region at `buf` after the loader has asked for all it needs. */
  function LoadedPool(buf: nat, h: Header): Pool {
    After(FreshPool(buf, h.mem), LoaderRequests(h))
  }

  function LoaderRequests(h: Header): seq<nat> {
    Requests(h.opstack, h.callstack, h.funcCount, h.varCount)
  }

  /** The started module's stacks and segments, by its header: the operand stack is the first block of the region, the
      call stack the second, the items of the function table the fourth, and the globals end where the region begins. */
  ghost predicate SetUp(lay: Layout, c: Core, buf: nat, h: Header) {
    && AllServed(FreshPool(buf, h.mem), LoaderRequests(h))
    && lay.opBase == BytesAt(LoadedPool(buf, h), 0) && 8 * |c.stack| == h.opstack
    && 8 * lay.callCap == h.callstack
    && lay.lowSeg + |c.globals| == buf
    && (lay.root < |lay.funcs| && h.funcCount > 0 ==>
          lay.funcs[lay.root] == Table(BytesAt(LoadedPool(buf, h), 3), h.funcCount))
  }

  /** The region is not at the very bottom of memory, nor at its very top. */
  predicate Placeable(buf: nat, h: Header) {
    h.mem + Region.ALIGN <= buf && buf + h.mem + 1 < TWO64
  }

  /** Globals, then tables and call stack, then the operand stack; and the upper segment does not wrap around. */
  lemma MemoryIsInOrder(lay: Layout, c: Core, buf: nat, h: Header)
    requires SetUp(lay, c, buf, h) && Placeable(buf, h)
    ensures lay.lowSeg <= lay.opBase && Disjoint(lay, c) && HighSeg(lay, c) < TWO64
    ensures InOrder(LoadedPool(buf, h), LoaderRequests(h), lay.lowSeg + |c.globals|, buf + h.mem)
  {
    ServedFresh(buf, h.mem, LoaderRequests(h));
    FirstRequest(h);
    OrderOfSegments(lay, c, LoadedPool(buf, h), LoaderRequests(h), buf, buf + h.mem);
  }

  lemma FirstRequest(h: Header)
    ensures LoaderRequests(h) != [] && LoaderRequests(h)[0] == h.opstack
  {
  }

  lemma OrderOfSegments(lay: Layout, c: Core, p: Pool, sizes: seq<nat>, buf: nat, end: nat)
    requires InOrder(p, sizes, buf, end) && sizes != [] && end + 1 < TWO64
    requires lay.lowSeg + |c.globals| == buf && lay.opBase == BytesAt(p, 0) && 8 * |c.stack| == sizes[0]
    ensures lay.lowSeg <= lay.opBase && Disjoint(lay, c) && HighSeg(lay, c) < TWO64
  {
    assert BytesAt(p, 0) + sizes[0] <= end;
  }

  /** The call stack and the tables lie between the segments, so the check of a memory instruction passes every
      access to them: it keeps accesses within the module, not within its globals and operand stack. */
  lemma CheckPassesTables(lay: Layout, c: Core, buf: nat, h: Header, k: nat, addr: u64, w: nat)
    requires SetUp(lay, c, buf, h) && Placeable(buf, h)
    requires 1 <= w <= 8 && 1 <= k < |LoaderRequests(h)|
    requires BytesAt(LoadedPool(buf, h), k) <= addr && addr + w <= BytesAt(LoadedPool(buf, h), k) + LoaderRequests(h)[k]
    ensures Checked(lay, c, addr, w) && !InStack(lay, c, addr, w) && !InGlobals(lay, c, addr, w)
  {
    MemoryIsInOrder(lay, c, buf, h);
    BlockPasses(lay, c, LoadedPool(buf, h), LoaderRequests(h), buf, buf + h.mem, k, addr, w);
  }

  lemma BlockPasses(
    lay: Layout, c: Core, p: Pool, sizes: seq<nat>, buf: nat, end: nat, k: nat, addr: u64, w: nat)
    requires InOrder(p, sizes, buf, end) && lay.lowSeg + |c.globals| == buf
    requires 1 <= k < |sizes| && lay.opBase == BytesAt(p, 0)
    requires 1 <= w <= 8 && BytesAt(p, k) <= addr && addr + w <= BytesAt(p, k) + sizes[k]
    requires lay.lowSeg <= lay.opBase && HighSeg(lay, c) < TWO64
    ensures Checked(lay, c, addr, w) && !InStack(lay, c, addr, w) && !InGlobals(lay, c, addr, w)
  {
    assert AllBelow(p, k, sizes[k]);
    BetweenIsPassed(lay, c, addr, w);
  }

  /** And so for a module loaded from what the assembler wrote: its region follows its sections. */
  lemma LoadedMemoryInOrder(
    mod: S.Module, img: B.Image, m: nat, pl: Toolchain.Placement, c: Core, h: Header, buf: nat)
    requires Toolchain.LoadedFrom(mod, img, m, pl) && m == img.lay.root && h == Loader.ReadHeader(img.mem, pl.script)
    requires buf == pl.script + h.memOffset && SetUp(img.lay, c, buf, h) && Placeable(buf, h)
    ensures img.lay.lowSeg <= img.lay.opBase && Disjoint(img.lay, c) && HighSeg(img.lay, c) < TWO64
    ensures |c.globals| == h.memOffset - h.varsOffset && img.lay.lowSeg + |c.globals| <= |img.mem|
  {
    MemoryIsInOrder(img.lay, c, buf, h);
    RegionInImage(mod, img, m, pl, h, buf);
  }

  lemma RegionInImage(mod: S.Module, img: B.Image, m: nat, pl: Toolchain.Placement, h: Header, buf: nat)
    requires Toolchain.LoadedFrom(mod, img, m, pl) && m == img.lay.root && h == Loader.ReadHeader(img.mem, pl.script)
    requires buf == pl.script + h.memOffset
    ensures h.varsOffset <= h.memOffset && img.lay.lowSeg + (h.memOffset - h.varsOffset) == buf && buf <= |img.mem|
  {
    Loader.HeaderRoundTrip(img.mem, pl.script, pl.sizes, Toolchain.RecordsOf(mod), pl.vars);
    HeaderIsPlainIff(pl.sizes, Toolchain.RecordsOf(mod), pl.vars);
  }
}
