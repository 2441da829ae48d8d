/** The object pool: blocks of one size whose free list is threaded through the free blocks
    themselves, each holding the index of the next. */
module ObjPool {
  import opened Words

  // ----- the free list as a list -----

  /** A pool of `size` blocks, with the free ones in the order they will be handed out. */
  datatype Spec = Spec(size: nat, free: seq<nat>)

  ghost predicate Sound(p: Spec) {
    && (forall k :: 0 <= k < |p.free| ==> p.free[k] < p.size)
    && (forall j, k :: 0 <= j < k < |p.free| ==> p.free[j] != p.free[k])
  }

  /** Handing out a block, and taking back block `b`. */
  datatype PoolOp = Take | Give(b: nat)

  /** What the pool does. Taking from an empty list fails and changes nothing; a block given back is not looked
      at. */
  function Apply(p: Spec, op: PoolOp): Spec {
    match op
    case Take => if p.free == [] then p else p.(free := p.free[1..])
    case Give(b) => p.(free := [b] + p.free)
  }

  /** A pool and the blocks its clients hold: those handed out to them and not given back since. */
  datatype Use = Use(pool: Spec, held: set<nat>)

  function Step(u: Use, op: PoolOp): Use {
    match op
    case Take => Use(Apply(u.pool, op), if u.pool.free == [] then u.held else u.held + {u.pool.free[0]})
    case Give(b) => Use(Apply(u.pool, op), u.held - {b})
  }

  function Run(u: Use, ops: seq<PoolOp>): Use
    decreases |ops|
  {
    if ops == [] then u else Step(Run(u, ops[..|ops| - 1]), ops[|ops| - 1])
  }

  /** Clients give back only what they hold at the time. */
  predicate Fair(u: Use, ops: seq<PoolOp>)
    decreases |ops|
  {
    ops == [] ||
    var r, op := ops[..|ops| - 1], ops[|ops| - 1];
    Fair(u, r) && (op.Give? ==> op.b in Run(u, r).held)
  }

  /** Exactly the blocks of the pool that no client holds are on the free list, once each. */
  ghost predicate Agrees(u: Use) {
    Sound(u.pool) && forall b: nat :: b in u.held <==> b < u.pool.size && b !in u.pool.free
  }

  /** The numbers below `n`, in order. */
  function UpTo(n: nat): (l: seq<nat>)
    ensures |l| == n && (forall k :: 0 <= k < n ==> l[k] == k) && forall b: nat :: b in l <==> b < n
  {
    if n == 0 then [] else UpTo(n - 1) + [n - 1]
  }

  /** A pool as it is made. */
  function Full(size: nat): (u: Use)
    ensures Agrees(u) && u.held == {}
  {
    Use(Spec(size, UpTo(size)), {})
  }

  lemma Counts(u: Use)
    requires Agrees(u)
    ensures |u.held| + |u.pool.free| == u.pool.size
    ensures u.pool.free == [] <==> u.held == Below(u.pool.size)
  {
    FreeCount(u.pool.size, u.pool.free, u.held);
    if u.held == Below(u.pool.size) {
      assert |u.held| == u.pool.size;
    }
  }

  lemma {:induction false} FreeCount(size: nat, free: seq<nat>, held: set<nat>)
    requires Agrees(Use(Spec(size, free), held))
    ensures |held| + |free| == size
    ensures free == [] ==> held == Below(size)
    decreases |free|
  {
    if free == [] {
      assert held == Below(size);
    } else {
      var b, r := free[0], free[1..];
      assert forall c :: c in free <==> c == b || c in r;
      assert b !in r;
      FreeCount(size, r, held + {b});
    }
  }

  function Below(n: nat): (s: set<nat>)
    ensures |s| == n && forall b :: b in s <==> 0 <= b < n
  {
    if n == 0 then {} else Below(n - 1) + {n - 1}
  }

  lemma TakeAgrees(u: Use)
    requires Agrees(u)
    ensures Agrees(Step(u, Take))
  {
    if u.pool.free != [] {
      var b, r := u.pool.free[0], u.pool.free[1..];
      assert forall c :: c in u.pool.free <==> c == b || c in r;
      assert b !in r;
    }
  }

  /** A held block may be given back. */
  lemma GiveAgrees(u: Use, b: nat)
    requires Agrees(u) && b in u.held
    ensures Agrees(Step(u, Give(b)))
  {
    var l := [b] + u.pool.free;
    assert forall c :: c in l <==> c == b || c in u.pool.free;
  }

  /** Over every fair run, from any pool that agrees with what its clients hold, it goes on to agree. */
  lemma {:induction false} RunsAgree(u: Use, ops: seq<PoolOp>)
    requires Agrees(u) && Fair(u, ops)
    ensures Agrees(Run(u, ops)) && Run(u, ops).pool.size == u.pool.size
    decreases |ops|
  {
    if ops != [] {
      var r, op := ops[..|ops| - 1], ops[|ops| - 1];
      RunsAgree(u, r);
      match op {
        case Take => TakeAgrees(Run(u, r));
        case Give(b) => GiveAgrees(Run(u, r), b);
      }
    }
  }

  /** Over every fair run from a full pool: the free list holds, once each, exactly the blocks that are not held,
      so that no block is handed out while it is held; held and free blocks make up the pool; and the next
      allocation fails exactly when every block is held. */
  lemma {:induction false} RunsKeepPool(size: nat, ops: seq<PoolOp>)
    requires Fair(Full(size), ops)
    ensures var u := Run(Full(size), ops);
            && Agrees(u) && u.pool.size == size
            && |u.held| + |u.pool.free| == size
            && (u.pool.free == [] <==> u.held == Below(size))
            && (u.pool.free != [] ==> u.pool.free[0] < size && u.pool.free[0] !in u.held)
  {
    RunsAgree(Full(size), ops);
    Counts(Run(Full(size), ops));
  }

  /** Reuse is last-in first-out: after a block is given back, the next allocation hands it out and leaves the
      pool as before. */
  lemma LastInFirstOut(u: Use, b: nat)
    requires b in u.held
    ensures Step(u, Give(b)).pool.free != [] && Step(u, Give(b)).pool.free[0] == b
    ensures Step(Step(u, Give(b)), Take) == u
  {
    assert ([b] + u.pool.free)[1..] == u.pool.free;
    assert u.held - {b} + {b} == u.held;
  }

  /** And the reverse: giving back the block just taken restores the pool. */
  lemma TakeThenGive(u: Use)
    requires Agrees(u) && u.pool.free != []
    ensures Step(Step(u, Take), Give(u.pool.free[0])) == u
  {
    var b := u.pool.free[0];
    assert [b] + u.pool.free[1..] == u.pool.free;
    assert b !in u.held;
    assert u.held + {b} - {b} == u.held;
  }

  // ----- the pool in memory -----

  /** Block addresses are distinct, a block's bytes do not reach the next, and the index of a block is
      recovered from its address. */
  lemma BlockAddresses(mem: nat, s: nat, i: nat, j: nat)
    requires s > 0
    ensures (mem + i * s - mem) / s == i
    ensures i < j ==> mem + i * s + s <= mem + j * s
  {
    ModUnique(i * s, s, i, 0);
    if i < j {
      MulAtLeast(j - i, s);
      assert (j - i) * s == j * s - i * s;
    }
  }

  /** Each listed block holds the index of the one after it, the last the number of blocks. */
  predicate Threaded(links: seq<nat>, l: seq<nat>) {
    && (forall k :: 0 <= k < |l| ==> l[k] < |links|)
    && forall k :: 0 <= k < |l| ==> HoldsNext(links, l, k)
  }

  predicate HoldsNext(links: seq<nat>, l: seq<nat>, k: nat)
    requires k < |l| && l[k] < |links|
  {
    links[l[k]] == if k + 1 < |l| then l[k + 1] else |links|
  }

  /** The threading looks only at listed blocks. */
  lemma SameThread(links: seq<nat>, links': seq<nat>, l: seq<nat>)
    requires Threaded(links, l) && |links'| == |links|
    requires forall k :: 0 <= k < |l| ==> links'[l[k]] == links[l[k]]
    ensures Threaded(links', l)
  {
    forall k | 0 <= k < |l| ensures HoldsNext(links', l, k) {
      assert HoldsNext(links, l, k);
    }
  }

  lemma TakeThread(links: seq<nat>, l: seq<nat>)
    requires Threaded(links, l) && l != []
    ensures Threaded(links, l[1..])
    ensures links[l[0]] == if |l| > 1 then l[1] else |links|
  {
    assert HoldsNext(links, l, 0);
    var r := l[1..];
    forall k | 0 <= k < |r| ensures r[k] < |links| && HoldsNext(links, r, k) {
      assert HoldsNext(links, l, k + 1);
      assert r[k] == l[k + 1];
    }
  }

  /** A block off the list, given the index of its head, is in front of it. */
  lemma GiveThread(links: seq<nat>, l: seq<nat>, b: nat)
    requires Threaded(links, l) && b < |links| && b !in l
    ensures Threaded(links[b := if l != [] then l[0] else |links|], [b] + l)
  {
    var links' := links[b := if l != [] then l[0] else |links|];
    SameThread(links, links', l);
    var r := [b] + l;
    forall k | 0 <= k < |r| ensures r[k] < |links| && HoldsNext(links', r, k) {
      if k > 0 {
        assert HoldsNext(links', l, k - 1);
        assert r[k] == l[k - 1];
      }
    }
  }

  const WORD: int := 8

  // ----- giving back any address -----

  /** The pool as C keeps it: the address of the first free block or null, the number of free blocks, and the word
      at every address. */
  datatype Raw = Raw(mem: nat, objsize: nat, size: nat, next: nat, count: nat, word: nat -> nat)

  function CellAt(r: Raw, b: nat): nat {
    r.mem + b * r.objsize
  }

  /** The addresses that following the indices from `next` visits. */
  function Visited(r: Raw, k: nat): nat {
    if k == 0 then r.next else r.mem + r.word(Visited(r, k - 1)) * r.objsize
  }

  /** A block of the pool that no client holds. */
  ghost predicate IsFreeCell(r: Raw, held: set<nat>, a: nat) {
    exists b: nat :: b < r.size && b !in held && a == CellAt(r, b)
  }

  /** The chain visits different blocks of the pool, none of them held. */
  ghost predicate SoundChain(r: Raw, held: set<nat>) {
    && (forall k :: 0 <= k < r.count ==> IsFreeCell(r, held, Visited(r, k)))
    && forall j, k :: 0 <= j < k < r.count ==> Visited(r, j) != Visited(r, k)
  }

  ghost predicate Visits(r: Raw, a: nat) {
    exists k: nat :: k < r.count && Visited(r, k) == a
  }

  /** It visits all of them. */
  ghost predicate ChainAgrees(r: Raw, held: set<nat>) {
    && r.mem > 0 && r.objsize > 0 && r.objsize % WORD == 0
    && SoundChain(r, held) && (r.count == 0 ==> r.next == 0)
    && (forall b :: b in held ==> b < r.size)
    && forall b: nat :: b < r.size && b !in held ==> Visits(r, CellAt(r, b))
  }

  /** Addresses that are not looked at. */
  predicate Ignored(r: Raw, ptr: nat) {
    ptr == 0 || ptr < r.mem || ptr > r.mem + r.size * r.objsize
  }

  /** What is kept in a block given back: the index of the first free block, or the number of blocks. */
  function IndexKept(r: Raw): nat
    requires r.next == 0 || r.next >= r.mem
    requires r.objsize > 0
  {
    if r.next != 0 then (r.next - r.mem) / r.objsize else r.size
  }

  /** Giving back an address, whatever it is: one word is written there, and what overlaps it is left open. */
  ghost predicate FreedAt(r: Raw, r': Raw, ptr: nat)
    requires r.next == 0 || r.next >= r.mem
    requires r.objsize > 0
  {
    if Ignored(r, ptr) then r' == r
    else
      && r'.mem == r.mem && r'.objsize == r.objsize && r'.size == r.size
      && r'.next == ptr && r'.count == r.count + 1 && r'.word(ptr) == IndexKept(r)
      && forall a: nat :: a + WORD <= ptr || ptr + WORD <= a ==> r'.word(a) == r.word(a)
  }

  function HeldAfter(r: Raw, held: set<nat>, ptr: nat): set<nat> {
    set b | b in held && CellAt(r, b) != ptr
  }

  lemma NextIsCell(r: Raw, held: set<nat>)
    requires ChainAgrees(r, held)
    ensures r.next == 0 || r.next >= r.mem
    ensures r.count > 0 ==> r.next > 0 && r.mem + IndexKept(r) * r.objsize == r.next
  {
    if r.count > 0 {
      var b := FirstFree(r, held);
      NextIsIndexed(r, b);
    }
  }

  lemma FirstFree(r: Raw, held: set<nat>) returns (b: nat)
    requires ChainAgrees(r, held) && r.count > 0
    ensures r.next == CellAt(r, b)
  {
    assert IsFreeCell(r, held, Visited(r, 0));
    b :| b < r.size && b !in held && Visited(r, 0) == CellAt(r, b);
  }

  lemma NextIsIndexed(r: Raw, b: nat)
    requires r.mem > 0 && r.objsize > 0 && r.next == CellAt(r, b)
    ensures r.next >= r.mem && r.mem + IndexKept(r) * r.objsize == r.next
  {
    BlockAddresses(r.mem, r.objsize, b, 0);
  }

  /** Different blocks do not share words. */
  lemma CellsApart(r: Raw, b: nat, c: nat)
    requires r.objsize > 0 && r.objsize % WORD == 0 && b != c
    ensures CellAt(r, b) + WORD <= CellAt(r, c) || CellAt(r, c) + WORD <= CellAt(r, b)
  {
    BlockAddresses(r.mem, r.objsize, b, c);
    BlockAddresses(r.mem, r.objsize, c, b);
  }

  /** The new chain is the address given back and then the old one, up to where that comes to the address. */
  lemma {:induction false} ChainShifts(r: Raw, r': Raw, held: set<nat>, ptr: nat, k: nat, c: nat)
    requires ChainAgrees(r, held) && k < r.count && ptr == CellAt(r, c)
    requires (r.next == 0 || r.next >= r.mem) && FreedAt(r, r', ptr) && !Ignored(r, ptr)
    requires forall j :: 0 <= j < k ==> Visited(r, j) != ptr
    ensures Visited(r', k + 1) == Visited(r, k)
    decreases k
  {
    NextIsCell(r, held);
    assert Visited(r', 0) == ptr;
    if k > 0 {
      ChainShifts(r, r', held, ptr, k - 1, c);
      assert IsFreeCell(r, held, Visited(r, k - 1));
      var b: nat :| b < r.size && b !in held && Visited(r, k - 1) == CellAt(r, b);
      CellsApart(r, b, c);
    }
  }

  /** Giving back the block at a held block's address: the chain stays sound and complete. */
  lemma HeldBlockFreed(r: Raw, r': Raw, held: set<nat>, b: nat)
    requires ChainAgrees(r, held) && b in held && (r.next == 0 || r.next >= r.mem)
    requires FreedAt(r, r', CellAt(r, b)) && !Ignored(r, CellAt(r, b))
    ensures ChainAgrees(r', HeldAfter(r, held, CellAt(r, b)))
  {
    var ptr, held' := CellAt(r, b), HeldAfter(r, held, CellAt(r, b));
    assert b !in held';
    forall k | 0 <= k < r.count ensures Visited(r, k) != ptr {
      NotHeld(r, held, b, k);
    }
    forall k | 0 <= k < r.count ensures Visited(r', k + 1) == Visited(r, k) {
      ChainShifts(r, r', held, ptr, k, b);
    }
    forall k | 0 <= k < r'.count ensures IsFreeCell(r', held', Visited(r', k)) {
      if k == 0 {
        assert Visited(r', 0) == CellAt(r', b);
      } else {
        assert IsFreeCell(r, held, Visited(r, k - 1));
        var c: nat :| c < r.size && c !in held && Visited(r, k - 1) == CellAt(r, c);
        assert Visited(r', k) == CellAt(r', c);
      }
    }
    forall j, k | 0 <= j < k < r'.count ensures Visited(r', j) != Visited(r', k) {
      assert Visited(r', k) == Visited(r, k - 1);
      assert j > 0 ==> Visited(r', j) == Visited(r, j - 1);
    }
    forall c: nat | c < r'.size && c !in held' ensures Visits(r', CellAt(r', c)) {
      if c in held {
        assert Visited(r', 0) == CellAt(r', c);
      } else {
        assert Visits(r, CellAt(r, c));
        var k: nat :| k < r.count && Visited(r, k) == CellAt(r, c);
        assert Visited(r', k + 1) == CellAt(r', c);
      }
    }
  }

  lemma NotHeld(r: Raw, held: set<nat>, b: nat, k: nat)
    requires ChainAgrees(r, held) && b in held && k < r.count
    ensures Visited(r, k) != CellAt(r, b)
  {
    assert IsFreeCell(r, held, Visited(r, k));
    var c: nat :| c < r.size && c !in held && Visited(r, k) == CellAt(r, c);
    CellsApart(r, b, c);
  }

  /** Giving back a block that is free already makes the chain come back to it. */
  lemma FreeBlockFreed(r: Raw, r': Raw, held: set<nat>, b: nat)
    requires ChainAgrees(r, held) && b !in held && b < r.size && (r.next == 0 || r.next >= r.mem)
    requires FreedAt(r, r', CellAt(r, b)) && !Ignored(r, CellAt(r, b))
    ensures !SoundChain(r', HeldAfter(r, held, CellAt(r, b)))
  {
    assert Visits(r, CellAt(r, b));
    var k: nat :| k < r.count && Visited(r, k) == CellAt(r, b);
    ChainShifts(r, r', held, CellAt(r, b), k, b);
    assert Visited(r', 0) == Visited(r', k + 1);
  }

  /** The pool looks at an address given back only to see whether it lies in or just behind it. The chain of free
      blocks stays sound exactly if it does not, or if the address is that of a held block: not for other addresses
      in the pool, for blocks given back before, or for the address just past the last block. */
  lemma FreeIsSoundIff(r: Raw, r': Raw, held: set<nat>, ptr: nat)
    requires ChainAgrees(r, held) && (r.next == 0 || r.next >= r.mem) && FreedAt(r, r', ptr)
    ensures SoundChain(r', HeldAfter(r, held, ptr))
            <==> Ignored(r, ptr) || exists b :: b in held && ptr == CellAt(r, b)
    ensures SoundChain(r', HeldAfter(r, held, ptr)) ==> ChainAgrees(r', HeldAfter(r, held, ptr))
  {
    if Ignored(r, ptr) {
      forall b | b in held ensures CellAt(r, b) != ptr {
        CellInside(r, b);
      }
      assert HeldAfter(r, held, ptr) == held;
    } else if b :| b in held && ptr == CellAt(r, b) {
      HeldBlockFreed(r, r', held, b);
    } else if SoundChain(r', HeldAfter(r, held, ptr)) {
      assert IsFreeCell(r', HeldAfter(r, held, ptr), Visited(r', 0));
      var b: nat :| b < r.size && b !in HeldAfter(r, held, ptr) && ptr == CellAt(r', b);
      FreeBlockFreed(r, r', held, b);
      assert false;
    }
  }

  lemma CellInside(r: Raw, b: nat)
    requires b < r.size
    ensures r.mem <= CellAt(r, b) <= r.mem + r.size * r.objsize
  {
    if r.objsize > 0 {
      MulAtLeast(r.size - b, r.objsize);
      assert (r.size - b) * r.objsize == r.size * r.objsize - b * r.objsize;
    }
  }

  // ----- the pool as an object -----

  /** The memory of the pool is an array of blocks of words; block b lies at mem + b * objsize. */
  class Pool {
    const mem: nat
    const words: array2<nat>
    const objsize: nat
    const size: nat
    var next: nat
    var freeBlocks: nat
    ghost var free: seq<nat>
    ghost var held: set<nat>

    ghost predicate Shaped() {
      && mem > 0 && objsize > 0 && objsize % WORD == 0
      && words.Length0 == size && words.Length1 == objsize / WORD
    }

    function AddrOf(b: nat): nat {
      mem + b * objsize
    }

    ghost function TheUse(): Use
      reads this
    {
      Use(Spec(size, free), held)
    }

    /** The same pool as addresses and words: the word at the start of block b holds its index. */
    ghost function TheRaw(): Raw
      requires Shaped()
      reads this, words
    {
      var links := Links();
      Raw(mem, objsize, size, next, freeBlocks, a => FirstWord(links, a))
    }

    ghost function FirstWord(links: seq<nat>, a: nat): nat
      requires objsize > 0
    {
      var b := (a - mem) / objsize;
      if 0 <= b < |links| && a == AddrOf(b) then links[b] else 0
    }

    /** The chain of indices from `next` visits the free list, block by block. */
    ghost predicate Valid()
      reads this, words
    {
      && Shaped() && Agrees(TheUse()) && freeBlocks == |free|
      && next == (if free == [] then 0 else AddrOf(free[0]))
      && Threaded(Links(), free)
    }

    /** The first word of every block. */
    ghost function Links(): (r: seq<nat>)
      requires Shaped()
      reads words
      ensures |r| == size && forall b :: 0 <= b < size ==> r[b] == words[b, 0]
    {
      seq(size, b requires 0 <= b < size reads words => words[b, 0])
    }

    /** All blocks free, in order of address. */
    constructor (mem: nat, objsize: nat, size: nat)
      requires mem > 0 && objsize > 0 && size > 0
      ensures Valid() && fresh(words)
      ensures this.mem == mem && this.size == size && this.objsize == AlignSize(objsize, WORD)
      ensures TheUse() == Full(size)
    {
      this.mem, this.size := mem, size;
      this.objsize := AlignSize(objsize, WORD);
      this.words := new nat[size, AlignSize(objsize, WORD) / WORD];
      this.next := mem;
      this.freeBlocks := size;
      this.free, this.held := Full(size).pool.free, {};
      new;
      var i := 0;
      while i < size
        invariant 0 <= i <= size
        invariant forall b :: 0 <= b < i ==> words[b, 0] == b + 1
        modifies words
      {
        words[i, 0] := i + 1;
        i := i + 1;
      }
      assert AddrOf(0) == mem;
    }

    /** Null for no blocks, blocks of no bytes, and when the memory is refused (address 0). */
    static method Make(mem: nat, objsize: nat, len: nat) returns (pool: Pool?)
      ensures pool == null <==> len == 0 || objsize == 0 || mem == 0
      ensures pool != null ==>
                && pool.Valid() && fresh(pool) && fresh(pool.words) && pool.TheUse() == Full(len)
                && pool.mem == mem && pool.objsize == AlignSize(objsize, WORD)
    {
      if len == 0 || objsize == 0 || mem == 0 {
        return null;
      }
      pool := new Pool(mem, objsize, len);
    }

    /** The first free block, zeroed; 0 if there is none. */
    method Alloc() returns (ptr: nat)
      requires Valid()
      modifies this, words
      ensures Valid() && TheUse() == Step(old(TheUse()), Take)
      ensures ptr == if old(free) == [] then 0 else AddrOf(old(free)[0])
      ensures ptr == 0 <==> old(free) == []
      ensures forall b, k :: 0 <= b < size && 0 <= k < words.Length1 ==>
                words[b, k] == if old(free) != [] && b == old(free)[0] then 0 else old(words[b, k])
    {
      ptr := 0;
      if freeBlocks > 0 {
        HeadBlock();
        ptr := next;
        var block := (ptr - mem) / objsize;
        var index := words[block, 0];
        freeBlocks := freeBlocks - 1;
        next := if freeBlocks != 0 then mem + index * objsize else 0;
        ghost var links := Links();
        ClearBlock(block);
        SameThread(links, Links(), free[1..]);
        TakeAgrees(TheUse());
        held, free := held + {free[0]}, free[1..];
      }
    }

    /** Where `next` points, and what the block there says of the rest of the list. */
    lemma HeadBlock()
      requires Valid() && free != []
      ensures next == AddrOf(free[0]) && (next - mem) / objsize == free[0]
      ensures words[free[0], 0] == if |free| > 1 then free[1] else size
      ensures Threaded(Links(), free[1..])
    {
      BlockAddresses(mem, objsize, free[0], 0);
      TakeThread(Links(), free);
    }

    method ClearBlock(b: nat)
      requires Shaped() && b < size
      modifies words
      ensures forall c, k :: 0 <= c < size && 0 <= k < words.Length1 ==>
                words[c, k] == if c == b then 0 else old(words[c, k])
    {
      var i := 0;
      while i < words.Length1
        invariant 0 <= i <= words.Length1
        invariant forall c, k :: 0 <= c < size && 0 <= k < words.Length1 ==>
                    words[c, k] == if c == b && k < i then 0 else old(words[c, k])
      {
        words[b, i] := 0;
        i := i + 1;
      }
    }

    /** What the addresses and words say is what the lists say. */
    lemma {:induction false} VisitedIsListed(k: nat)
      requires Valid() && k < |free|
      ensures Visited(TheRaw(), k) == AddrOf(free[k])
      decreases k
    {
      if k > 0 {
        VisitedIsListed(k - 1);
        BlockAddresses(mem, objsize, free[k - 1], 0);
        assert HoldsNext(Links(), free, k - 1);
      }
    }

    lemma RawAgrees()
      requires Valid()
      ensures ChainAgrees(TheRaw(), held)
    {
      var r := TheRaw();
      forall k | 0 <= k < r.count ensures IsFreeCell(r, held, Visited(r, k)) {
        VisitedIsListed(k);
        assert free[k] < size && free[k] !in held && Visited(r, k) == CellAt(r, free[k]);
      }
      forall j, k | 0 <= j < k < r.count ensures Visited(r, j) != Visited(r, k) {
        VisitedIsListed(j);
        VisitedIsListed(k);
        CellsApart(r, free[j], free[k]);
      }
      forall b: nat | b < size && b !in held ensures Visits(r, CellAt(r, b)) {
        var k :| 0 <= k < |free| && free[k] == b;
        VisitedIsListed(k);
      }
    }

    /** Takes a held block back, keeping the index of the previous head in its first word. Null, addresses below
        the pool and addresses beyond its end are ignored; the end itself is not. */
    method Free(ptr: nat, ghost b: nat)
      requires Valid()
      requires mem <= ptr <= mem + size * objsize ==> ptr == AddrOf(b) && b in held
      modifies this, words
      ensures Valid()
      ensures var inside := mem <= ptr <= mem + size * objsize;
              TheUse() == if inside then Step(old(TheUse()), Give(b)) else old(TheUse())
      ensures old(TheRaw()).next == 0 || old(TheRaw()).next >= mem
      ensures FreedAt(old(TheRaw()), TheRaw(), ptr)
      ensures forall c, k :: 0 <= c < size && 0 <= k < words.Length1 && (c != b || k != 0) ==>
                words[c, k] == old(words[c, k])
    {
      ghost var raw := TheRaw();
      RawAgrees();
      NextIsCell(raw, held);
      if ptr == 0 || ptr < mem || ptr > mem + size * objsize {
        return;
      }
      TakeBack(ptr, b);
      FreedRaw(raw, b);
    }

    /** Threads a held block in front of the free ones. */
    method TakeBack(ptr: nat, ghost b: nat)
      requires Valid() && b in held && ptr == AddrOf(b)
      modifies this, words
      ensures Valid() && TheUse() == Step(old(TheUse()), Give(b))
      ensures next == ptr && freeBlocks == old(freeBlocks) + 1
      ensures Links() == old(Links())[b := IndexKept(old(TheRaw()))]
      ensures forall c, k :: 0 <= c < size && 0 <= k < words.Length1 && (c != b || k != 0) ==>
                words[c, k] == old(words[c, k])
    {
      BlockAddresses(mem, objsize, b, 0);
      HeadIndex();
      ghost var links, l := Links(), free;
      GiveThread(links, l, b);
      GiveAgrees(TheUse(), b);
      KeepIndex((ptr - mem) / objsize, if next != 0 then (next - mem) / objsize else size);
      next := ptr;
      freeBlocks := freeBlocks + 1;
      free, held := [b] + free, held - {b};
      assert Threaded(Links(), free);
    }

    /** The index kept in a block given back is that of the first free block, if there is one. */
    lemma HeadIndex()
      requires Valid()
      ensures next == 0 || next >= mem
      ensures IndexKept(TheRaw()) == if free != [] then free[0] else |Links()|
    {
      if free != [] {
        BlockAddresses(mem, objsize, free[0], 0);
      }
    }

    /** Keeping an index in block b is all that has happened to the words. */
    lemma FreedRaw(raw: Raw, b: nat)
      requires Shaped() && b < size && raw.mem == mem && raw.objsize == objsize && raw.size == size
      requires raw.next == 0 || raw.next >= mem
      requires next == AddrOf(b) && freeBlocks == raw.count + 1 && !Ignored(raw, next)
      requires exists links: seq<nat> ::
                 |links| == size && Links() == links[b := IndexKept(raw)] && raw.word == (a => FirstWord(links, a))
      ensures FreedAt(raw, TheRaw(), next)
    {
      var links: seq<nat> :|
        |links| == size && Links() == links[b := IndexKept(raw)] && raw.word == (a => FirstWord(links, a));
      BlockAddresses(mem, objsize, b, 0);
      forall a: nat | a + WORD <= next || next + WORD <= a ensures TheRaw().word(a) == raw.word(a) {
        assert raw.word(a) == FirstWord(links, a);
        assert TheRaw().word(a) == FirstWord(Links(), a);
      }
      assert TheRaw().word(next) == FirstWord(Links(), next);
    }

    method KeepIndex(b: nat, index: nat)
      requires Shaped() && b < size
      modifies words
      ensures Links() == old(Links())[b := index]
      ensures forall c, k :: 0 <= c < size && 0 <= k < words.Length1 && (c != b || k != 0) ==>
                words[c, k] == old(words[c, k])
    {
      words[b, 0] := index;
    }

    /** Clients write what they like into the blocks they hold. */
    method ClientWrite(b: nat, k: nat, v: nat)
      requires Valid() && b in held && k < words.Length1
      modifies words
      ensures Valid()
    {
      ghost var links := Links();
      words[b, k] := v;
      assert forall j :: 0 <= j < |free| ==> free[j] in free;
      SameThread(links, Links(), free);
    }
  }
}
