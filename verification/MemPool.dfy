/** The memory pool: a region, free lists by size for blocks given back, and a node in front of every block
    handed out. */
module MemPool {
  import opened Words
  import opened FreeList
  import Region

  const HEADER: nat := 24
  const BUCKETS: nat := 8
  const LISTS: nat := 9

  /** `live` holds the blocks handed out, oldest first; the last list is that of large blocks. */
  datatype Pool = Pool(region: Region.State, lists: seq<seq<Block>>, live: seq<Block>)

  function Groups(p: Pool): seq<seq<Block>> {
    p.lists + [p.live]
  }

  predicate Holds(r: Region.State, b: Block) {
    r.offs <= b.addr && b.addr + b.size <= r.mem + r.size && HEADER <= b.size
  }

  ghost predicate AllHeld(r: Region.State, g: seq<seq<Block>>) {
    forall i, k {:trigger Holds(r, g[i][k])} :: 0 <= i < |g| && 0 <= k < |g[i]| ==> Holds(r, g[i][k])
  }

  /** No two blocks, on lists or handed out, share a byte. */
  ghost predicate AllApart(g: seq<seq<Block>>) {
    forall i, k, j, m {:trigger Apart(g[i][k], g[j][m])} ::
      0 <= i < |g| && 0 <= k < |g[i]| && 0 <= j < |g| && 0 <= m < |g[j]| && (i != j || k != m) ==>
      Apart(g[i][k], g[j][m])
  }

  ghost predicate Sound(p: Pool) {
    && Region.Sound(p.region) && p.region.size + Region.ALIGN <= p.region.mem && |p.lists| == LISTS
    && AllHeld(p.region, Groups(p)) && AllApart(Groups(p))
    && forall i :: 0 <= i < LISTS ==> Ordered(p.lists[i])
  }

  // ----- operations -----

  /** A block has room for its node and is a whole number of words. */
  function NodeBytes(size: nat): (n: nat)
    ensures size + HEADER <= n
  {
    AlignSize(size + HEADER, Region.ALIGN)
  }

  /** Sizes up to 64 have a bucket each. */
  function ListFor(bytes: nat): (i: nat)
    ensures i < LISTS
  {
    if 1 <= bytes / 8 <= BUCKETS then bytes / 8 - 1 else BUCKETS
  }

  /** Blocks of 8, 16, ... 64 bytes have a list each; all others, longer or shorter, share the last. */
  lemma ListsBySize(bytes: nat, other: nat)
    requires bytes % 8 == 0 && other % 8 == 0
    ensures ListFor(bytes) == ListFor(other) <==> bytes == other || !(8 <= bytes <= 64 || 8 <= other <= 64)
    ensures ListFor(bytes) == LISTS - 1 <==> !(8 <= bytes <= 64)
    ensures 8 <= bytes <= 64 ==> 8 * (ListFor(bytes) + 1) == bytes
  {
  }

  /** What the list for the size yields. */
  function FromList(p: Pool, n: nat): Option<Block>
    requires |p.lists| == LISTS
  {
    var l := p.lists[ListFor(n)];
    var k := FirstFit(l, n);
    if k < |l| then Some(Taken(l, k, n)) else None
  }

  /** The lists after that. */
  function ListsAfter(p: Pool, n: nat): seq<seq<Block>>
    requires |p.lists| == LISTS
  {
    var l := p.lists[ListFor(n)];
    var k := FirstFit(l, n);
    if k < |l| then p.lists[ListFor(n) := Left(l, k, n)] else p.lists
  }

  /** The list for the size is searched first, then the region. */
  function Serve(p: Pool, size: nat): (Pool, Option<Block>)
    requires |p.lists| == LISTS
  {
    if size == 0 || size > p.region.size then (p, None)
    else
      var n := NodeBytes(size);
      match FromList(p, n)
      case Some(b) => (p.(lists := ListsAfter(p, n), live := p.live + [b]), Some(b))
      case None =>
        match Region.Serve(p.region, n)
        case None => (p, None)
        case Some(a) => (Pool(p.region.(offs := a), p.lists, p.live + [Block(a, n)]), Some(Block(a, n)))
  }

  function TakeListed(p: Pool, i: nat, k: nat, n: nat): Pool
    requires i < |p.lists| && k < |p.lists[i]| && n <= p.lists[i][k].size
  {
    p.(lists := p.lists[i := Left(p.lists[i], k, n)], live := p.live + [Taken(p.lists[i], k, n)])
  }

  /** The k-th live block is given back to the region; this is how blocks at its edge are freed. */
  predicate AtEdge(p: Pool, k: nat) {
    k < |p.live| && p.live[k].addr == p.region.offs
  }

  function GiveBack(p: Pool, k: nat): Pool {
    if AtEdge(p, k) then
      p.(region := p.region.(offs := p.region.offs + p.live[k].size), live := Without(p.live, k))
    else p
  }

  /** All bytes not handed out. */
  function Remaining(p: Pool): int {
    p.region.offs - p.region.mem + SumAll(p.lists)
  }

  function SumAll(g: seq<seq<Block>>): nat {
    if g == [] then 0 else SumAll(g[..|g| - 1]) + Sum(g[|g| - 1])
  }

  lemma {:induction false} SumAllUpdate(g: seq<seq<Block>>, i: nat, l: seq<Block>)
    requires i < |g|
    ensures SumAll(g[i := l]) + Sum(g[i]) == SumAll(g) + Sum(l)
    decreases |g|
  {
    var h := g[i := l];
    if i == |g| - 1 {
      assert h[..|g| - 1] == g[..|g| - 1];
    } else {
      SumAllUpdate(g[..|g| - 1], i, l);
      assert h[..|g| - 1] == g[..|g| - 1][i := l];
    }
  }

  // ----- what every operation keeps -----

  /** Sound, and the bytes left over and handed out add up to the same. */
  ghost predicate Conserves(p: Pool, q: Pool) {
    Sound(q) && Remaining(q) + Sum(q.live) == Remaining(p) + Sum(p.live)
  }

  /** Where in `p` the block at (a, x) of the pool after a block is taken from a list comes from. */
  lemma ComesFrom(p: Pool, i: nat, k: nat, n: nat, a: nat, x: nat) returns (b: nat, y: nat)
    requires i < |p.lists| && k < |p.lists[i]| && n <= p.lists[i][k].size
    requires var g := Groups(TakeListed(p, i, k, n)); a < |g| && x < |g[a]|
    ensures b < |Groups(p)| && y < |Groups(p)[b]|
    ensures Within(Groups(TakeListed(p, i, k, n))[a][x], Groups(p)[b][y])
    ensures (b, y) == (i, k) ==> a == i || (a == |p.lists| && x == |p.live|)
    ensures (b, y) != (i, k) ==> a == b
    ensures a == i ==> b == i && y == Origin(p.lists[i], k, n, x)
    ensures a == |p.lists| && x == |p.live| ==> (b, y) == (i, k)
    ensures a != i && !(a == |p.lists| && x == |p.live|) ==> y == x && a == b
  {
    if a == i {
      b, y := i, Origin(p.lists[i], k, n, x);
    } else if a == |p.lists| && x == |p.live| {
      b, y := i, k;
    } else {
      b, y := a, x;
    }
  }

  lemma TakeListedApart(p: Pool, i: nat, k: nat, n: nat)
    requires i < |p.lists| && k < |p.lists[i]| && 0 < n <= p.lists[i][k].size
    requires AllApart(Groups(p)) && Ordered(p.lists[i])
    ensures AllApart(Groups(TakeListed(p, i, k, n)))
  {
    var g := Groups(TakeListed(p, i, k, n));
    LeftOrdered(p.lists[i], k, n);
    forall a, x, b, y | 0 <= a < |g| && 0 <= x < |g[a]| && 0 <= b < |g| && 0 <= y < |g[b]| && (a != b || x != y)
      ensures Apart(g[a][x], g[b][y])
    {
      var a', x' := ComesFrom(p, i, k, n, a, x);
      var b', y' := ComesFrom(p, i, k, n, b, y);
      if (a', x') != (b', y') {
        assert Apart(Groups(p)[a'][x'], Groups(p)[b'][y']);
      }
    }
  }

  lemma TakeListedHeld(p: Pool, i: nat, k: nat, n: nat)
    requires Sound(p) && i < LISTS && k < |p.lists[i]| && HEADER <= n <= p.lists[i][k].size
    ensures AllHeld(p.region, Groups(TakeListed(p, i, k, n)))
  {
    var g := Groups(TakeListed(p, i, k, n));
    LeftOrdered(p.lists[i], k, n);
    assert Holds(p.region, Groups(p)[i][k]);
    forall a, x | 0 <= a < |g| && 0 <= x < |g[a]| ensures Holds(p.region, g[a][x]) {
      var b, y := ComesFrom(p, i, k, n, a, x);
      assert Holds(p.region, Groups(p)[b][y]);
    }
  }

  lemma TakeListedConserves(p: Pool, i: nat, k: nat, n: nat)
    requires i < |p.lists| && k < |p.lists[i]| && n <= p.lists[i][k].size
    ensures var q := TakeListed(p, i, k, n);
            Remaining(q) + Sum(q.live) == Remaining(p) + Sum(p.live)
  {
    LeftSum(p.lists[i], k, n);
    SumAllUpdate(p.lists, i, Left(p.lists[i], k, n));
    SumAppend(p.live, [Taken(p.lists[i], k, n)]);
  }

  lemma TakeListedOrdered(p: Pool, i: nat, k: nat, n: nat)
    requires Sound(p) && i < LISTS && k < |p.lists[i]| && n <= p.lists[i][k].size
    ensures forall j :: 0 <= j < LISTS ==> Ordered(TakeListed(p, i, k, n).lists[j])
  {
    LeftOrdered(p.lists[i], k, n);
  }

  lemma ConservesBlocks(p: Pool, q: Pool)
    requires Sound(p) && q.region == p.region && |q.lists| == LISTS
    requires AllHeld(q.region, Groups(q)) && AllApart(Groups(q))
    requires forall j :: 0 <= j < LISTS ==> Ordered(q.lists[j])
    requires Remaining(q) + Sum(q.live) == Remaining(p) + Sum(p.live)
    ensures Conserves(p, q)
  {
  }

  /** Allocating from a list keeps the pool sound and conserves bytes. */
  lemma TakeListedSound(p: Pool, i: nat, k: nat, n: nat)
    requires Sound(p) && i < LISTS && k < |p.lists[i]| && HEADER <= n <= p.lists[i][k].size
    ensures Conserves(p, TakeListed(p, i, k, n))
  {
    TakeListedApart(p, i, k, n);
    TakeListedHeld(p, i, k, n);
    TakeListedConserves(p, i, k, n);
    TakeListedOrdered(p, i, k, n);
    ConservesBlocks(p, TakeListed(p, i, k, n));
  }

  function RegionBlock(p: Pool, n: nat): Pool
    requires n <= p.region.offs
  {
    Pool(p.region.(offs := p.region.offs - n), p.lists, p.live + [Block(p.region.offs - n, n)])
  }

  lemma RegionBlockApart(p: Pool, n: nat)
    requires Sound(p) && n <= p.region.offs
    ensures AllApart(Groups(RegionBlock(p, n)))
  {
    var g, h := Groups(RegionBlock(p, n)), Groups(p);
    forall i, k, j, m | 0 <= i < |g| && 0 <= k < |g[i]| && 0 <= j < |g| && 0 <= m < |g[j]| && (i != j || k != m)
      ensures Apart(g[i][k], g[j][m])
    {
      if k < |h[i]| && m < |h[j]| {
        assert Apart(h[i][k], h[j][m]);
      } else if k < |h[i]| {
        assert Holds(p.region, h[i][k]);
      } else {
        assert Holds(p.region, h[j][m]);
      }
    }
  }

  /** Allocating from the region hands out what is just below its edge. */
  lemma RegionBlockSound(p: Pool, n: nat)
    requires Sound(p) && HEADER <= n <= p.region.offs - p.region.mem
    ensures Conserves(p, RegionBlock(p, n))
  {
    var q := RegionBlock(p, n);
    var g, h := Groups(q), Groups(p);
    forall i, k | 0 <= i < |g| && 0 <= k < |g[i]| ensures Holds(q.region, g[i][k]) {
      assert k < |h[i]| ==> Holds(p.region, h[i][k]);
    }
    RegionBlockApart(p, n);
    SumAppend(p.live, [Block(p.region.offs - n, n)]);
  }

  lemma NodeBytesFit(p: Pool, size: nat)
    requires Sound(p) && 0 < size <= p.region.size
    ensures NodeBytes(size) >= HEADER + size && AlignSize(NodeBytes(size), Region.ALIGN) == NodeBytes(size)
  {
    var n := NodeBytes(size);
    var m := AlignSize(n, Region.ALIGN);
    assert m == Region.ALIGN * (m / Region.ALIGN) && n == Region.ALIGN * (n / Region.ALIGN);
  }

  /** Neither the list for the size nor the region can meet the request. */
  ghost predicate NoRoom(p: Pool, n: nat)
    requires |p.lists| == LISTS
  {
    && n > p.region.offs - p.region.mem
    && forall k :: 0 <= k < |p.lists[ListFor(n)]| ==> p.lists[ListFor(n)][k].size < n
  }

  lemma AllocFromRegion(p: Pool, size: nat)
    requires Sound(p) && 0 < size <= p.region.size
    requires var n := NodeBytes(size); FirstFit(p.lists[ListFor(n)], n) == |p.lists[ListFor(n)]|
    ensures var (q, r), n := Serve(p, size), NodeBytes(size);
            && (r.None? <==> n > p.region.offs - p.region.mem) && (r.None? ==> q == p)
            && (r.Some? ==> q == RegionBlock(p, n) && r.value == Block(p.region.offs - n, n))
  {
    NodeBytesFit(p, size);
    Region.HighBuffersServedRight(p.region, NodeBytes(size));
  }

  /** Allocation refuses exactly the sizes 0 and above the pool's, and those for which the list for the size has
      no block long enough and the region no room. It hands out a block with room for the bytes asked for that
      shares no byte with any other, and loses none. */
  lemma AllocSound(p: Pool, size: nat)
    requires Sound(p)
    ensures var (q, r) := Serve(p, size);
            && Conserves(p, q)
            && (r.None? <==> size == 0 || size > p.region.size || NoRoom(p, NodeBytes(size)))
            && (r.None? ==> q == p)
            && (r.Some? ==> q.live == p.live + [r.value] && r.value.size >= size + HEADER)
  {
    if 0 < size <= p.region.size {
      var n := NodeBytes(size);
      var i := ListFor(n);
      var k := FirstFit(p.lists[i], n);
      if k < |p.lists[i]| {
        TakeListedSound(p, i, k, n);
      } else {
        AllocFromRegion(p, size);
        if n <= p.region.offs - p.region.mem {
          RegionBlockSound(p, n);
        }
      }
    }
  }

  /** Where in `p` the block at (i, m) of the pool after a free was. */
  function Before(k: nat, i: nat, m: nat): nat {
    if i == LISTS && m >= k then m + 1 else m
  }

  lemma FreeApart(p: Pool, k: nat)
    requires Sound(p) && AtEdge(p, k)
    ensures AllApart(Groups(GiveBack(p, k)))
  {
    var g, h := Groups(GiveBack(p, k)), Groups(p);
    forall i, m, j, o | 0 <= i < |g| && 0 <= m < |g[i]| && 0 <= j < |g| && 0 <= o < |g[j]| && (i != j || m != o)
      ensures Apart(g[i][m], g[j][o])
    {
      assert g[i][m] == h[i][Before(k, i, m)] && g[j][o] == h[j][Before(k, j, o)];
    }
  }

  lemma FreeHeld(p: Pool, k: nat)
    requires Sound(p) && AtEdge(p, k)
    ensures AllHeld(GiveBack(p, k).region, Groups(GiveBack(p, k))) && Region.Sound(GiveBack(p, k).region)
  {
    var q := GiveBack(p, k);
    var g, h := Groups(q), Groups(p);
    var edge := p.live[k];
    assert edge == h[LISTS][k] && Holds(p.region, edge);
    forall i, m | 0 <= i < |g| && 0 <= m < |g[i]| ensures Holds(q.region, g[i][m]) {
      var y := Before(k, i, m);
      assert g[i][m] == h[i][y] && Holds(p.region, h[i][y]) && Apart(h[i][y], edge);
    }
  }

  lemma FreeSound(p: Pool, k: nat)
    requires Sound(p)
    ensures Conserves(p, GiveBack(p, k))
  {
    if AtEdge(p, k) {
      FreeApart(p, k);
      FreeHeld(p, k);
      SumWithout(p.live, k);
    }
  }

  // ----- runs -----

  datatype PoolOp = Get(size: nat) | Release(k: nat)

  function Apply(p: Pool, op: PoolOp): Pool
    requires |p.lists| == LISTS
    ensures |Apply(p, op).lists| == LISTS
  {
    match op
    case Get(size) => Serve(p, size).0
    case Release(k) => GiveBack(p, k)
  }

  function ApplyAll(p: Pool, ops: seq<PoolOp>): Pool
    requires |p.lists| == LISTS
    ensures |ApplyAll(p, ops).lists| == LISTS
    decreases |ops|
  {
    if ops == [] then p else Apply(ApplyAll(p, ops[..|ops| - 1]), ops[|ops| - 1])
  }

  /** Conservation over every run of allocations and frees at the region's edge, whatever is on the free lists
      to begin with: blocks stay disjoint and inside the buffer, and what remains and what is handed out always
      add up to the same. */
  lemma {:induction false} RunsConserve(p: Pool, ops: seq<PoolOp>)
    requires Sound(p)
    ensures var q := ApplyAll(p, ops);
            Conserves(p, q)
    decreases |ops|
  {
    if ops != [] {
      var q := ApplyAll(p, ops[..|ops| - 1]);
      RunsConserve(p, ops[..|ops| - 1]);
      match ops[|ops| - 1]
      case Get(size) => AllocSound(q, size);
      case Release(k) => FreeSound(q, k);
    }
  }

  function FreshPool(mem: nat, size: nat): Pool {
    Pool(Region.State(mem, mem + size, size), seq(LISTS, _ => []), [])
  }

  /** Nothing on the free lists, and the live blocks fill the buffer from the top down to the edge, each next to
      the one before it. */
  ghost predicate Stacked(p: Pool) {
    && |p.lists| == LISTS && (forall i :: 0 <= i < LISTS ==> p.lists[i] == [])
    && p.region.offs == Top(p, |p.live|)
    && forall k :: 0 <= k < |p.live| ==> p.live[k].addr == Top(p, k + 1) && p.live[k].size > 0
  }

  /** Where the first k live blocks end. */
  function Top(p: Pool, k: nat): int
    requires k <= |p.live|
  {
    p.region.mem + p.region.size - Sum(p.live[..k])
  }

  lemma {:induction false} AllEmpty(g: seq<seq<Block>>)
    requires forall i :: 0 <= i < |g| ==> g[i] == []
    ensures SumAll(g) == 0
    decreases |g|
  {
    if g != [] {
      AllEmpty(g[..|g| - 1]);
    }
  }

  lemma FreshSound(mem: nat, size: nat)
    requires size + Region.ALIGN <= mem && mem + size < TWO64
    ensures Sound(FreshPool(mem, size)) && Stacked(FreshPool(mem, size))
    ensures Remaining(FreshPool(mem, size)) == size
  {
    AllEmpty(FreshPool(mem, size).lists);
  }

  lemma GetStacks(p: Pool, size: nat)
    requires Sound(p) && Stacked(p)
    ensures Stacked(Serve(p, size).0)
  {
    AllocSound(p, size);
    var (q, r) := Serve(p, size);
    if r.Some? {
      var n := NodeBytes(size);
      NodeBytesFit(p, size);
      Region.HighBuffersServedRight(p.region, n);
      SumAppend(p.live, [r.value]);
      assert q.live[..|q.live|] == q.live && p.live[..|p.live|] == p.live;
      assert Sum([r.value]) == r.value.size;
      forall k | 0 <= k < |q.live| ensures q.live[k].addr == Top(q, k + 1) && q.live[k].size > 0 {
        if k < |p.live| {
          assert q.live[..k + 1] == p.live[..k + 1];
        }
      }
    }
  }

  /** Only the last block is at the edge. */
  lemma OnlyLastAtEdge(p: Pool, k: nat)
    requires Stacked(p) && k < |p.live|
    ensures AtEdge(p, k) <==> k == |p.live| - 1
  {
    var l := p.live;
    assert l == l[..k + 1] + l[k + 1..] && l[..|l|] == l;
    SumAppend(l[..k + 1], l[k + 1..]);
    if k + 1 < |l| {
      SumAround(l[k + 1..], 0);
    }
  }

  lemma ReleaseStacks(p: Pool, k: nat)
    requires Sound(p) && Stacked(p)
    ensures Stacked(GiveBack(p, k))
  {
    if AtEdge(p, k) {
      OnlyLastAtEdge(p, k);
      var q := GiveBack(p, k);
      assert q.live == p.live[..k] && p.live[..|p.live|] == p.live;
      forall j | 0 <= j < |q.live| ensures q.live[j].addr == Top(q, j + 1) && q.live[j].size > 0 {
        assert q.live[..j + 1] == p.live[..j + 1];
      }
      assert q.live[..|q.live|] == q.live;
    }
  }

  lemma {:induction false} RunsStack(p: Pool, ops: seq<PoolOp>)
    requires Sound(p) && Stacked(p)
    ensures var q := ApplyAll(p, ops);
            Stacked(q) && q.region.mem == p.region.mem && q.region.size == p.region.size
    decreases |ops|
  {
    if ops != [] {
      var o := ApplyAll(p, ops[..|ops| - 1]);
      RunsConserve(p, ops[..|ops| - 1]);
      RunsStack(p, ops[..|ops| - 1]);
      match ops[|ops| - 1]
      case Get(n) => GetStacks(o, n);
      case Release(k) => ReleaseStacks(o, k);
    }
  }

  lemma StackedEmptyIsFresh(p: Pool)
    requires Stacked(p) && p.live == []
    ensures p == FreshPool(p.region.mem, p.region.size)
  {
    assert p.lists == FreshPool(p.region.mem, p.region.size).lists;
  }

  /** From a fresh pool, every run keeps the blocks stacked: the block allocated last can always be given back at
      once, no other can, and when nothing is handed out the pool is as fresh as it was. */
  lemma {:induction false} RunsFromFresh(mem: nat, size: nat, ops: seq<PoolOp>)
    requires size + Region.ALIGN <= mem && mem + size < TWO64
    ensures var q := ApplyAll(FreshPool(mem, size), ops);
            && Sound(q) && Stacked(q) && Remaining(q) + Sum(q.live) == size
            && (forall k :: 0 <= k < |q.live| ==> (AtEdge(q, k) <==> k == |q.live| - 1))
            && (q.live == [] ==> q == FreshPool(mem, size))
  {
    FreshSound(mem, size);
    RunsConserve(FreshPool(mem, size), ops);
    RunsStack(FreshPool(mem, size), ops);
    var q := ApplyAll(FreshPool(mem, size), ops);
    forall k | 0 <= k < |q.live| ensures AtEdge(q, k) <==> k == |q.live| - 1 {
      OnlyLastAtEdge(q, k);
    }
    if q.live == [] {
      StackedEmptyIsFresh(q);
    }
  }

  // ----- the pool and its nodes -----

  /** Different blocks have different addresses. */
  lemma Elsewhere(p: Pool, a: nat, x: nat, b: nat, y: nat)
    requires Sound(p) && a < |Groups(p)| && x < |Groups(p)[a]| && b < |Groups(p)| && y < |Groups(p)[b]|
    requires a != b || x != y
    ensures Groups(p)[a][x].addr != Groups(p)[b][y].addr
  {
    assert Apart(Groups(p)[a][x], Groups(p)[b][y]);
    assert Holds(p.region, Groups(p)[a][x]) && Holds(p.region, Groups(p)[b][y]);
  }

  /** The block taken from a list starts where no other block does. */
  lemma TakenElsewhere(p: Pool, i: nat, k: nat, n: nat, b: nat, y: nat)
    requires Sound(p) && i < LISTS && k < |p.lists[i]| && HEADER <= n <= p.lists[i][k].size
    requires b <= LISTS && b != i && y < |Groups(p)[b]|
    ensures Taken(p.lists[i], k, n).addr != Groups(p)[b][y].addr
  {
    assert Apart(Groups(p)[i][k], Groups(p)[b][y]);
    assert Holds(p.region, Groups(p)[b][y]);
  }

  predicate StartAt(chain: seq<nat>, l: seq<Block>) {
    |chain| == |l| && forall x :: 0 <= x < |l| ==> chain[x] == l[x].addr
  }

  /** Taking a block from list i leaves the nodes of every other list, and of blocks handed out, as they were. */
  lemma {:induction false} OthersKept(
    p: Pool, nodes: Nodes, nodes': Nodes, i: nat, mine: seq<nat>, n: nat, b: nat, chain: seq<nat>)
    requires Sound(p) && n >= HEADER && i < LISTS && b <= LISTS && b != i
    requires StartAt(mine, p.lists[i]) && StartAt(chain, Groups(p)[b])
    requires FirstFit(p.lists[i], n) < |p.lists[i]|
    requires ChangedOnly(nodes, nodes', mine, Taken(p.lists[i], FirstFit(p.lists[i], n), n).addr)
    requires forall x :: 0 <= x < |chain| ==> chain[x] in nodes
    ensures forall x :: 0 <= x < |chain| ==> chain[x] in nodes' && nodes'[chain[x]] == nodes[chain[x]]
  {
    forall x | 0 <= x < |chain| ensures chain[x] in nodes' && nodes'[chain[x]] == nodes[chain[x]] {
      TakenElsewhere(p, i, FirstFit(p.lists[i], n), n, b, x);
      forall y | 0 <= y < |mine| ensures mine[y] != chain[x] {
        Elsewhere(p, i, y, b, x);
      }
    }
  }

  /** The pool just before block `b` is handed out. */
  ghost predicate Handing(p: Pool, q: Pool, b: Block) {
    && Sound(q) && q.live != [] && q.live[|q.live| - 1] == b
    && p == q.(live := q.live[..|q.live| - 1])
  }

  /** What is found for a request: a block of a list, or of the region, or nothing. */
  ghost predicate Found(p: Pool, q: Pool, n: nat, node: nat, length: nat)
    requires |p.lists| == LISTS
  {
    match FromList(p, n)
    case Some(b) => node == b.addr && length == b.size && (node != 0 ==> q == p.(lists := ListsAfter(p, n)))
    case None =>
      match Region.Serve(p.region, n)
      case None => node == 0 && q == p
      case Some(a) => node == a && length == n && q == p.(region := p.region.(offs := a))
  }

  lemma FoundServes(p: Pool, size: nat, q: Pool, node: nat, length: nat)
    requires Sound(p) && 0 < size <= p.region.size
    requires Found(p, q, NodeBytes(size), node, length)
    ensures var (r, b) := Serve(p, size);
            if node == 0 then q == p == r && b == None
            else b == Some(Block(node, length)) && Handing(q, r, Block(node, length))
  {
    AllocSound(p, size);
    var (r, b) := Serve(p, size);
    if b.Some? {
      assert r.live[..|r.live| - 1] == p.live;
      assert r.live[|r.live| - 1] == Groups(r)[LISTS][|r.live| - 1];
      assert Holds(r.region, r.live[|r.live| - 1]);
    }
  }

  lemma LiveSize(p: Pool, k: nat)
    requires Sound(p) && k < |p.live|
    ensures p.region.offs <= p.live[k].addr < p.region.mem + p.region.size
    ensures 0 < p.live[k].size <= p.region.size
  {
    assert p.live[k] == Groups(p)[LISTS][k];
    assert Holds(p.region, p.live[k]);
  }

  lemma {:induction false} LastList(g: seq<seq<Block>>)
    requires |g| == LISTS
    ensures SumAll(g) == SumAll(g[..BUCKETS]) + Sum(g[BUCKETS])
  {}

  class MemPool {
    const arena: Arena
    /** The buckets, and the list of large blocks after them. */
    const lists: seq<FreeList>
    const stack: Region.Region
    ghost var live: seq<nat>

    ghost predicate Shaped() {
      && |lists| == LISTS
      && (forall i :: 0 <= i < LISTS ==> lists[i].arena == arena)
      && forall i, j :: 0 <= i < j < LISTS ==> lists[i] != lists[j]
    }

    ghost function Footprint(): set<object> {
      {this, arena, stack} + set i | 0 <= i < |lists| :: lists[i]
    }

    ghost predicate Linked()
      requires Shaped()
      reads Footprint()
    {
      && (forall i :: 0 <= i < LISTS ==> lists[i].Valid())
      && forall k :: 0 <= k < |live| ==> live[k] in arena.nodes
    }

    ghost function Listed(): (g: seq<seq<Block>>)
      requires Shaped() && Linked()
      reads Footprint()
      ensures |g| == LISTS && forall i :: 0 <= i < LISTS ==> g[i] == lists[i].Contents()
    {
      seq(LISTS, i requires 0 <= i < LISTS && Shaped() && Linked() reads Footprint() => lists[i].Contents())
    }

    ghost function TheState(): Pool
      requires Shaped() && Linked()
      reads Footprint()
    {
      Pool(stack.TheState(), Listed(), Blocks(arena.nodes, live))
    }

    ghost predicate Valid()
      reads Footprint()
    {
      Shaped() && Linked() && Sound(TheState())
    }

    constructor (buf: nat, size: nat)
      requires HEADER < size && size + Region.ALIGN <= buf && buf + size < TWO64
      ensures Valid() && TheState() == FreshPool(buf, size) && live == []
    {
      var arena := new Arena();
      var ls: seq<FreeList> := [];
      while |ls| < LISTS
        invariant |ls| <= LISTS
        invariant forall i :: 0 <= i < |ls| ==> fresh(ls[i]) && EmptyList(ls[i], arena)
        invariant forall i, j :: 0 <= i < j < |ls| ==> ls[i] != ls[j]
      {
        var l := new FreeList(arena);
        ls := ls + [l];
      }
      this.arena, this.lists := arena, ls;
      this.stack := new Region.Region.FromBuffer(buf, size);
      this.live := [];
      new;
      FreshSound(buf, size);
      assert Listed() == FreshPool(buf, size).lists;
    }

    static ghost predicate EmptyList(l: FreeList, arena: Arena)
      reads l, arena
    {
      l.arena == arena && l.Valid() && l.chain == []
    }

    function ListOf(bytes: nat): (l: FreeList)
      requires Shaped()
      ensures l == lists[ListFor(bytes)]
    {
      var slot := bytes / 8 - 1;
      if 0 <= slot < BUCKETS then lists[slot] else lists[BUCKETS]
    }

    /** A block from the list for the size, or 0. */
    method GetFreeNode(bytes: nat) returns (r: nat)
      requires Valid() && bytes >= HEADER
      modifies Footprint()
      ensures Shaped() && Linked() && live == old(live) && stack.TheState() == old(stack.TheState())
      ensures TheState() == old(TheState()).(lists := ListsAfter(old(TheState()), bytes))
      ensures match FromList(old(TheState()), bytes)
              case Some(b) => r == b.addr && r in arena.nodes && arena.nodes[r].size == b.size
              case None => r == 0
    {
      ghost var p, i := TheState(), ListFor(bytes);
      var list := ListOf(bytes);
      ghost var nodes, mine := arena.nodes, list.chain;
      r := list.Find(bytes);
      if FirstFit(p.lists[i], bytes) < |p.lists[i]| {
        forall j | 0 <= j < LISTS && j != i
          ensures lists[j].Valid() && lists[j].Contents() == p.lists[j]
        {
          OthersKept(p, nodes, arena.nodes, i, mine, bytes, j, lists[j].chain);
          LinkedElsewhere(nodes, arena.nodes, lists[j].head, lists[j].chain);
        }
        OthersKept(p, nodes, arena.nodes, i, mine, bytes, LISTS, live);
      }
      assert Listed() == p.lists[i := list.Contents()];
      assert Blocks(arena.nodes, live) == p.live;
    }

    /** Writes the node of a block that goes out: its size, and no links. `q` is the pool after. */
    method HandOut(node: nat, bytes: nat, ghost q: Pool)
      requires Shaped() && Linked() && Handing(TheState(), q, Block(node, bytes))
      modifies this, arena
      ensures Valid() && TheState() == q && live == old(live) + [node]
    {
      ghost var z := |q.live| - 1;
      ghost var nodes := arena.nodes;
      arena.nodes := arena.nodes[node := MemNode(bytes, 0, 0)];
      forall j | 0 <= j < LISTS
        ensures lists[j].Valid() && lists[j].Contents() == q.lists[j]
      {
        forall x | 0 <= x < |lists[j].chain| ensures lists[j].chain[x] != node {
          Elsewhere(q, j, x, LISTS, z);
        }
        LinkedElsewhere(nodes, arena.nodes, lists[j].head, lists[j].chain);
      }
      forall x | 0 <= x < |live| ensures live[x] != node {
        Elsewhere(q, LISTS, x, LISTS, z);
      }
      live := live + [node];
      assert Listed() == q.lists;
      assert Blocks(arena.nodes, live) == q.live;
    }

    /** A node at the edge of the region, or 0. */
    method Bump(bytes: nat) returns (node: nat)
      requires Shaped() && Linked() && Region.Sound(stack.TheState())
      modifies stack
      ensures Shaped() && Linked() && node == Region.Serve(old(stack.TheState()), bytes).GetOr(0)
      ensures var p := old(TheState());
              TheState() == if node == 0 then p else p.(region := p.region.(offs := node))
    {
      ghost var p := TheState();
      node := stack.Alloc(bytes);
      assert Listed() == p.lists;
    }

    /** A block from the list for the size, or else from the region: its address, or 0, and its length. */
    method FindNode(bytes: nat) returns (node: nat, length: nat)
      requires Valid() && bytes >= HEADER
      modifies Footprint()
      ensures Shaped() && Linked() && live == old(live)
      ensures Found(old(TheState()), TheState(), bytes, node, length)
    {
      node := GetFreeNode(bytes);
      if node == 0 {
        node := Bump(bytes);
        length := bytes;
      } else {
        length := arena.nodes[node].size;
      }
    }

    /** A zeroed block with room for `size` bytes, or 0. */
    method Alloc(size: nat) returns (ptr: nat)
      requires Valid()
      modifies Footprint()
      ensures Valid()
      ensures TheState() == Serve(old(TheState()), size).0
      ensures ptr == PtrTo(Serve(old(TheState()), size).1)
    {
      ghost var p := TheState();
      ghost var q := Serve(p, size).0;
      if size == 0 || size > stack.size {
        return 0;
      }
      var bytes := NodeBytes(size);
      var node, length := FindNode(bytes);
      FoundServes(p, size, TheState(), node, length);
      if node == 0 {
        assert TheState() == p;
        return 0;
      }
      HandOut(node, length, q);
      ptr := node + HEADER;
    }

    static function PtrTo(r: Option<Block>): nat {
      match r
      case Some(b) => b.addr + HEADER
      case None => 0
    }

    /** Gives back the block at the edge of the region. Null, and addresses below the edge, are refused: a block
        given back already among them. */
    method Free(ptr: nat, ghost k: nat) returns (ok: bool)
      requires Valid()
      requires ptr == 0 || HEADER <= ptr < stack.offs + HEADER || (AtEdge(TheState(), k) && ptr == stack.offs + HEADER)
      modifies this, stack
      ensures Valid()
      ensures ok <==> ptr >= old(stack.offs) + HEADER
      ensures TheState() == if ok then GiveBack(old(TheState()), k) else old(TheState())
    {
      if ptr == 0 || ptr - HEADER < stack.mem {
        return false;
      }
      var node := ptr - HEADER;
      if node < stack.offs {
        return false;
      }
      ghost var p := TheState();
      LiveSize(p, k);
      if node - stack.mem > stack.size || arena.nodes[node].size == 0 || arena.nodes[node].size > stack.size {
        return false;
      }
      stack.offs := stack.offs + arena.nodes[node].size;
      live := Without(live, k);
      ok := true;
      assert Listed() == p.lists;
      assert Blocks(arena.nodes, live) == Without(p.live, k);
      assert TheState() == GiveBack(p, k);
      FreeSound(p, k);
    }

    /** The bytes that are not handed out, counted along the links of the lists. */
    method MemRemaining() returns (n: nat)
      requires Shaped() && Linked() && Region.Sound(stack.TheState())
      ensures n == Remaining(TheState())
    {
      ghost var g := Listed();
      n := stack.offs - stack.mem;
      var size := SizeOfList(lists[BUCKETS]);
      n := n + size;
      var i := 0;
      while i < BUCKETS
        invariant 0 <= i <= BUCKETS
        invariant n == stack.offs - stack.mem + Sum(g[BUCKETS]) + SumAll(g[..i])
      {
        size := SizeOfList(lists[i]);
        assert g[..i + 1][..i] == g[..i];
        n := n + size;
        i := i + 1;
      }
      LastList(g);
      assert n == stack.offs - stack.mem + SumAll(g);
      assert g == TheState().lists;
    }

    static method SizeOfList(list: FreeList) returns (n: nat)
      requires list.Valid()
      ensures n == Sum(list.Contents())
    {
      n := 0;
      ghost var l := list.Contents();
      ghost var i := 0;
      var node := list.head;
      while node != 0
        invariant 0 <= i <= |l| && node == At(list.chain, i) && n == Sum(l[..i])
        invariant node != 0 ==> i < |l|
        decreases |l| - i
      {
        assert LinksAt(list.arena.nodes, list.chain, i);
        assert l[..i + 1][..i] == l[..i];
        n := n + list.arena.nodes[node].size;
        node := list.arena.nodes[node].next;
        i := i + 1;
      }
      assert l[..|l|] == l;
    }
  }
}
