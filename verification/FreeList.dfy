/** The free lists of the memory pool: doubly linked nodes that live in the free memory they describe. */
module FreeList {
  const SPLIT_THRESHOLD: nat := 32

  /** The bytes a node describes, itself included. */
  datatype Block = Block(addr: nat, size: nat)

  predicate Apart(a: Block, b: Block) {
    a.addr + a.size <= b.addr || b.addr + b.size <= a.addr
  }

  predicate Within(a: Block, b: Block) {
    b.addr <= a.addr && a.addr + a.size <= b.addr + b.size
  }

  /** Sorted by address and disjoint. */
  ghost predicate Ordered(l: seq<Block>) {
    && (forall k :: 0 <= k < |l| ==> l[k].size > 0)
    && forall j, k :: 0 <= j < k < |l| ==> l[j].addr + l[j].size <= l[k].addr
  }

  function Sum(l: seq<Block>): nat {
    if l == [] then 0 else Sum(l[..|l| - 1]) + l[|l| - 1].size
  }

  lemma {:induction false} SumAppend(l: seq<Block>, m: seq<Block>)
    ensures Sum(l + m) == Sum(l) + Sum(m)
    decreases |m|
  {
    if m == [] {
      assert l + m == l;
    } else {
      assert (l + m)[..|l + m| - 1] == l + m[..|m| - 1];
      SumAppend(l, m[..|m| - 1]);
    }
  }

  lemma {:induction false} SumAround(l: seq<Block>, k: nat)
    requires k < |l|
    ensures Sum(l) == Sum(l[..k]) + l[k].size + Sum(l[k + 1..])
  {
    assert l == l[..k] + ([l[k]] + l[k + 1..]);
    SumAppend(l[..k], [l[k]] + l[k + 1..]);
    SumAppend([l[k]], l[k + 1..]);
    assert Sum([l[k]]) == Sum([]) + l[k].size;
  }

  /** All but the k-th element. */
  function Without<T>(s: seq<T>, k: nat): (r: seq<T>)
    requires k < |s|
    ensures |r| == |s| - 1 && forall j :: 0 <= j < |r| ==> r[j] == s[if j < k then j else j + 1]
  {
    seq(|s| - 1, j requires 0 <= j < |s| - 1 => s[if j < k then j else j + 1])
  }

  lemma WithoutJoins<T>(s: seq<T>, k: nat)
    requires k < |s|
    ensures Without(s, k) == s[..k] + s[k + 1..]
  {
  }

  lemma SumWithout(l: seq<Block>, k: nat)
    requires k < |l|
    ensures Sum(Without(l, k)) + l[k].size == Sum(l)
  {
    WithoutJoins(l, k);
    SumAround(l, k);
    SumAppend(l[..k], l[k + 1..]);
  }

  // ----- first fit -----

  /** The first block of at least `bytes`, or |l|. */
  function FirstFit(l: seq<Block>, bytes: nat): (k: nat)
    ensures k <= |l|
    ensures forall j :: 0 <= j < k ==> l[j].size < bytes
    ensures k < |l| ==> l[k].size >= bytes
    decreases |l|
  {
    if l == [] || l[0].size >= bytes then 0
    else
      var k := FirstFit(l[1..], bytes);
      assert forall j :: 0 <= j < |l| - 1 ==> l[1..][j] == l[j + 1];
      assert forall j :: 1 <= j < k + 1 ==> l[j] == l[1..][j - 1];
      k + 1
  }

  /** A block not much longer than wanted is taken whole. */
  predicate TakenWhole(b: Block, bytes: nat) {
    b.size <= bytes + SPLIT_THRESHOLD
  }

  /** What is handed out of block k: all of it, or its top end. */
  function Taken(l: seq<Block>, k: nat, bytes: nat): Block
    requires k < |l| && bytes <= l[k].size
  {
    if TakenWhole(l[k], bytes) then l[k] else Block(l[k].addr + (l[k].size - bytes), bytes)
  }

  /** What stays on the list. */
  function Left(l: seq<Block>, k: nat, bytes: nat): seq<Block>
    requires k < |l| && bytes <= l[k].size
  {
    if TakenWhole(l[k], bytes) then Without(l, k) else l[k := Block(l[k].addr, l[k].size - bytes)]
  }

  /** Some block holds address `a`. */
  ghost predicate Covers(l: seq<Block>, a: nat) {
    exists k :: 0 <= k < |l| && l[k].addr <= a < l[k].addr + l[k].size
  }

  /** First fit on any ordered list: it fails exactly when no block is long enough. Otherwise what is taken is the
      upper end of the first block long enough, or all of it when that is at most 32 bytes more; it is apart from all
      that is left, and what is left is an ordered list shorter by exactly the bytes taken. */
  lemma {:induction false} FirstFitTakes(l: seq<Block>, bytes: nat)
    requires Ordered(l) && bytes > 0
    ensures FirstFit(l, bytes) == |l| <==> forall k :: 0 <= k < |l| ==> l[k].size < bytes
    ensures var k := FirstFit(l, bytes);
            k < |l| ==>
              var b, r := Taken(l, k, bytes), Left(l, k, bytes);
              && b.size == (if l[k].size <= bytes + 32 then l[k].size else bytes)
              && b.addr + b.size == l[k].addr + l[k].size
              && (forall j :: 0 <= j < |r| ==> Apart(b, r[j]))
              && Ordered(r) && Sum(r) + b.size == Sum(l)
  {
    var k := FirstFit(l, bytes);
    if k < |l| {
      LeftSum(l, k, bytes);
      LeftOrdered(l, k, bytes);
    }
  }

  lemma {:induction false} LeftSum(l: seq<Block>, k: nat, bytes: nat)
    requires k < |l| && bytes <= l[k].size
    ensures Sum(Left(l, k, bytes)) + Taken(l, k, bytes).size == Sum(l)
  {
    if TakenWhole(l[k], bytes) {
      SumWithout(l, k);
    } else {
      var r := Left(l, k, bytes);
      SumAround(l, k);
      SumAround(r, k);
      assert r[..k] == l[..k] && r[k + 1..] == l[k + 1..];
    }
  }

  /** Every block left is, or is the low end of, one that was there. */
  function Origin(l: seq<Block>, k: nat, bytes: nat, j: nat): (i: nat)
    requires k < |l| && bytes <= l[k].size && j < |Left(l, k, bytes)|
    ensures i < |l| && Within(Left(l, k, bytes)[j], l[i]) && l[i].addr == Left(l, k, bytes)[j].addr
    ensures i == k ==> !TakenWhole(l[k], bytes) && Left(l, k, bytes)[j].size == l[k].size - bytes
    ensures i != k ==> Left(l, k, bytes)[j] == l[i]
  {
    if TakenWhole(l[k], bytes) && j >= k then j + 1 else j
  }

  lemma LeftOrdered(l: seq<Block>, k: nat, bytes: nat)
    requires Ordered(l) && k < |l| && bytes <= l[k].size
    ensures Ordered(Left(l, k, bytes))
    ensures forall j :: 0 <= j < |Left(l, k, bytes)| ==> Apart(Taken(l, k, bytes), Left(l, k, bytes)[j])
  {
    var r := Left(l, k, bytes);
    forall j | 0 <= j < |r| ensures r[j].size > 0 && Apart(Taken(l, k, bytes), r[j]) {
      var i := Origin(l, k, bytes, j);
    }
    forall i, j | 0 <= i < j < |r| ensures r[i].addr + r[i].size <= r[j].addr {
      var _, _ := Origin(l, k, bytes, i), Origin(l, k, bytes, j);
    }
  }

  /** No byte is lost or held twice: an address on the list is in the block taken or still on the list, never
      both. */
  lemma {:induction false} EveryByteIsKept(l: seq<Block>, bytes: nat, a: nat)
    requires Ordered(l) && 0 < bytes && FirstFit(l, bytes) < |l|
    ensures var k := FirstFit(l, bytes);
            var b, r := Taken(l, k, bytes), Left(l, k, bytes);
            && (Covers(l, a) <==> Covers(r, a) || b.addr <= a < b.addr + b.size)
            && !(Covers(r, a) && b.addr <= a < b.addr + b.size)
  {
    var k := FirstFit(l, bytes);
    LeftOrdered(l, k, bytes);
    if Covers(l, a) {
      CoveredAfter(l, k, bytes, a);
    }
    if Covers(Left(l, k, bytes), a) {
      CoveredBefore(l, k, bytes, a);
    }
    var b := Taken(l, k, bytes);
    if b.addr <= a < b.addr + b.size {
      assert l[k].addr <= a < l[k].addr + l[k].size;
    }
  }

  lemma CoveredAfter(l: seq<Block>, k: nat, bytes: nat, a: nat)
    requires k < |l| && bytes <= l[k].size && Covers(l, a)
    ensures var b := Taken(l, k, bytes);
            Covers(Left(l, k, bytes), a) || b.addr <= a < b.addr + b.size
  {
    var j :| 0 <= j < |l| && l[j].addr <= a < l[j].addr + l[j].size;
    var b, r := Taken(l, k, bytes), Left(l, k, bytes);
    if !(b.addr <= a < b.addr + b.size) {
      var i := if TakenWhole(l[k], bytes) && j > k then j - 1 else j;
      assert r[i].addr <= a < r[i].addr + r[i].size;
    }
  }

  lemma CoveredBefore(l: seq<Block>, k: nat, bytes: nat, a: nat)
    requires k < |l| && bytes <= l[k].size && Covers(Left(l, k, bytes), a)
    ensures Covers(l, a)
  {
    var r := Left(l, k, bytes);
    var j :| 0 <= j < |r| && r[j].addr <= a < r[j].addr + r[j].size;
    var i := Origin(l, k, bytes, j);
    assert l[i].addr <= a < l[i].addr + l[i].size;
  }

  // ----- the linked list -----

  /** A node; 0 is the null pointer. */
  datatype MemNode = MemNode(size: nat, next: nat, prev: nat)

  /** The node at every address that holds one. */
  type Nodes = map<nat, MemNode>

  /** `chain` is what following the links from `head` visits, and following them back too. */
  ghost predicate Linked(nodes: Nodes, head: nat, chain: seq<nat>) {
    && head == At(chain, 0)
    && (forall k :: 0 <= k < |chain| ==> chain[k] != 0 && chain[k] in nodes)
    && (forall j, k :: 0 <= j < k < |chain| ==> chain[j] != chain[k])
    && forall k :: 0 <= k < |chain| ==> LinksAt(nodes, chain, k)
  }

  ghost predicate LinksAt(nodes: Nodes, chain: seq<nat>, k: nat)
    requires k < |chain| && chain[k] in nodes
  {
    nodes[chain[k]].next == At(chain, k + 1) && nodes[chain[k]].prev == At(chain, k - 1)
  }

  function At(chain: seq<nat>, k: int): nat {
    if 0 <= k < |chain| then chain[k] else 0
  }

  function Blocks(nodes: Nodes, chain: seq<nat>): (l: seq<Block>)
    requires forall k :: 0 <= k < |chain| ==> chain[k] in nodes
    ensures |l| == |chain| && forall k :: 0 <= k < |l| ==> l[k] == Block(chain[k], nodes[chain[k]].size)
  {
    seq(|chain|, k requires 0 <= k < |chain| => Block(chain[k], nodes[chain[k]].size))
  }

  /** Nodes off the list may change and appear. */
  lemma LinkedElsewhere(nodes: Nodes, nodes': Nodes, head: nat, chain: seq<nat>)
    requires Linked(nodes, head, chain)
    requires forall k :: 0 <= k < |chain| ==> chain[k] in nodes' && nodes'[chain[k]] == nodes[chain[k]]
    ensures Linked(nodes', head, chain) && Blocks(nodes', chain) == Blocks(nodes, chain)
  {
    forall k | 0 <= k < |chain| ensures LinksAt(nodes', chain, k) {
      assert LinksAt(nodes, chain, k);
    }
  }

  /** The nodes after taking out the one between `p` and `q`. */
  ghost predicate Bypassed(nodes: Nodes, nodes': Nodes, p: nat, q: nat) {
    && nodes'.Keys == nodes.Keys
    && forall a :: a in nodes ==>
         nodes'[a] == MemNode(nodes[a].size, if a == p && p != 0 then q else nodes[a].next,
                              if a == q && q != 0 then p else nodes[a].prev)
  }

  /** The links of a node that stays, after the k-th was taken out. */
  lemma UnlinkedAt(nodes: Nodes, nodes': Nodes, head: nat, chain: seq<nat>, k: nat, j: nat)
    requires Linked(nodes, head, chain) && k < |chain| && j < |chain| && j != k
    requires Bypassed(nodes, nodes', At(chain, k - 1), At(chain, k + 1))
    ensures chain[j] in nodes' && nodes'[chain[j]].size == nodes[chain[j]].size
    ensures nodes'[chain[j]].next == At(chain, if j + 1 == k then k + 1 else j + 1)
    ensures nodes'[chain[j]].prev == At(chain, if j == k + 1 then k - 1 else j - 1)
  {
    assert LinksAt(nodes, chain, j);
  }

  lemma LinksWithout(nodes: Nodes, nodes': Nodes, head: nat, chain: seq<nat>, k: nat, i: nat)
    requires Linked(nodes, head, chain) && k < |chain| && i < |chain| - 1
    requires Bypassed(nodes, nodes', At(chain, k - 1), At(chain, k + 1))
    ensures var r := Without(chain, k);
            r[i] != 0 && r[i] in nodes' && LinksAt(nodes', r, i)
  {
    UnlinkedAt(nodes, nodes', head, chain, k, if i < k then i else i + 1);
  }

  lemma BlocksWithout(nodes: Nodes, nodes': Nodes, chain: seq<nat>, k: nat)
    requires k < |chain| && forall j :: 0 <= j < |chain| ==> chain[j] in nodes
    requires forall a :: a in nodes ==> a in nodes' && nodes'[a].size == nodes[a].size
    ensures Blocks(nodes', Without(chain, k)) == Without(Blocks(nodes, chain), k)
  {
  }

  lemma {:induction false} DistinctWithout(chain: seq<nat>, k: nat)
    requires k < |chain| && forall i, j :: 0 <= i < j < |chain| ==> chain[i] != chain[j]
    ensures var r := Without(chain, k); forall i, j :: 0 <= i < j < |r| ==> r[i] != r[j]
  {
  }

  lemma Unlinked(nodes: Nodes, nodes': Nodes, head: nat, chain: seq<nat>, k: nat)
    requires Linked(nodes, head, chain) && k < |chain|
    requires Bypassed(nodes, nodes', At(chain, k - 1), At(chain, k + 1))
    ensures var r := Without(chain, k);
            Linked(nodes', At(r, 0), r) && Blocks(nodes', r) == Without(Blocks(nodes, chain), k)
  {
    var r := Without(chain, k);
    forall i | 0 <= i < |r| ensures r[i] != 0 && r[i] in nodes' && LinksAt(nodes', r, i) {
      LinksWithout(nodes, nodes', head, chain, k, i);
    }
    DistinctWithout(chain, k);
    BlocksWithout(nodes, nodes', chain, k);
  }

  class Arena {
    var nodes: Nodes

    constructor ()
      ensures nodes == map[]
    {
      nodes := map[];
    }

    /** Cuts a block in two, the upper part `bytes` long: the node found there describes it. */
    method Split(node: nat, bytes: nat) returns (r: nat)
      requires node in nodes && bytes < nodes[node].size
      modifies this
      ensures r in nodes && nodes[r].size == bytes
      ensures CutInTwo(old(nodes), nodes, node, r)
    {
      r := node + (nodes[node].size - bytes);
      nodes := nodes[node := nodes[node].(size := nodes[node].size - bytes)];
      nodes := nodes[r := Resized(nodes, r, bytes)];
    }
  }

  /** Writing the size of a node does not touch whatever its links were. */
  function Resized(nodes: Nodes, r: nat, bytes: nat): MemNode {
    if r in nodes then nodes[r].(size := bytes) else MemNode(bytes, 0, 0)
  }

  /** The block at `node` is now two that meet and together are what it was; the lower one is linked as it
      was, and no other node has changed, come or gone. */
  ghost predicate CutInTwo(nodes: Nodes, nodes': Nodes, node: nat, r: nat)
    requires node in nodes
  {
    && node in nodes' && r in nodes'
    && 0 < nodes'[node].size && node + nodes'[node].size == r
    && r + nodes'[r].size == node + nodes[node].size
    && nodes'[node].next == nodes[node].next && nodes'[node].prev == nodes[node].prev
    && forall a :: a != node && a != r ==> (a in nodes <==> a in nodes') && (a in nodes ==> nodes'[a] == nodes[a])
  }

  class FreeList {
    const arena: Arena
    var head: nat
    var tail: nat
    var len: nat
    ghost var chain: seq<nat>

    /** The tail is not kept by every operation of the list, and is never read. */
    ghost predicate Valid()
      reads this, arena
    {
      Linked(arena.nodes, head, chain) && len == |chain|
    }

    ghost function Contents(): seq<Block>
      requires Valid()
      reads this, arena
    {
      Blocks(arena.nodes, chain)
    }

    constructor (arena: Arena)
      ensures Valid() && chain == [] && this.arena == arena
    {
      this.arena, head, tail, len, chain := arena, 0, 0, 0, [];
    }

    /** Unlinks the node at position k. */
    method Remove(node: nat, ghost k: nat) returns (r: nat)
      requires Valid() && k < |chain| && node == chain[k]
      modifies this, arena
      ensures Valid() && r == node && chain == Without(old(chain), k)
      ensures Contents() == Without(old(Contents()), k)
      ensures Bypassed(old(arena.nodes), arena.nodes, At(old(chain), k - 1), At(old(chain), k + 1))
      ensures ChangedOnly(old(arena.nodes), arena.nodes, old(chain), r)
    {
      var n := arena.nodes[node];
      assert LinksAt(arena.nodes, chain, k);
      if n.prev != 0 {
        arena.nodes := arena.nodes[n.prev := arena.nodes[n.prev].(next := n.next)];
      } else {
        head := n.next;
        if head != 0 {
          arena.nodes := arena.nodes[head := arena.nodes[head].(prev := 0)];
        } else {
          tail := 0;
        }
      }
      if n.next != 0 {
        arena.nodes := arena.nodes[n.next := arena.nodes[n.next].(prev := n.prev)];
      } else {
        tail := n.prev;
        if tail != 0 {
          arena.nodes := arena.nodes[tail := arena.nodes[tail].(next := 0)];
        } else {
          head := 0;
        }
      }
      len := len - 1;
      Unlinked(old(arena.nodes), arena.nodes, old(head), chain, k);
      chain := Without(chain, k);
      r := node;
    }

    /** The first node long enough, at position k; 0 if there is none. */
    method Search(bytes: nat) returns (node: nat, ghost k: nat)
      requires Valid()
      ensures node == At(chain, FirstFit(Contents(), bytes)) && k == FirstFit(Contents(), bytes)
    {
      ghost var l := Contents();
      node, k := head, 0;
      while node != 0
        invariant k <= |chain| && node == At(chain, k)
        invariant forall j :: 0 <= j < k ==> l[j].size < bytes
        invariant node != 0 ==> k < |chain|
        decreases |chain| - k
      {
        assert LinksAt(arena.nodes, chain, k);
        if arena.nodes[node].size >= bytes {
          break;
        }
        node := arena.nodes[node].next;
        k := k + 1;
      }
      FirstFitIs(l, bytes, k);
    }

    /** Unlinks the first block long enough if it is about the right length, or else splits it; 0 if there is
        none. */
    method Find(bytes: nat) returns (r: nat)
      requires Valid() && Ordered(Contents()) && bytes > 0
      modifies this, arena
      ensures Valid()
      ensures var l := old(Contents());
              var k := FirstFit(l, bytes);
              if k == |l| then
                r == 0 && Contents() == l && arena.nodes == old(arena.nodes)
              else
                && Contents() == Left(l, k, bytes)
                && r in arena.nodes && Block(r, arena.nodes[r].size) == Taken(l, k, bytes)
      ensures ChangedOnly(old(arena.nodes), arena.nodes, old(chain), r)
    {
      ghost var i;
      var node;
      node, i := Search(bytes);
      if node == 0 {
        r := 0;
      } else if arena.nodes[node].size <= bytes + SPLIT_THRESHOLD {
        r := Remove(node, i);
      } else {
        r := arena.Split(node, bytes);
        SplitKeepsLinks(old(arena.nodes), arena.nodes, head, chain, i, r);
      }
    }
  }

  lemma {:induction false} FirstFitIs(l: seq<Block>, bytes: nat, k: nat)
    requires k <= |l| && (forall j :: 0 <= j < k ==> l[j].size < bytes) && (k < |l| ==> l[k].size >= bytes)
    ensures FirstFit(l, bytes) == k
  {}

  /** Nodes off the list, other than `r`, are as they were. */
  ghost predicate ChangedOnly(nodes: Nodes, nodes': Nodes, chain: seq<nat>, r: nat) {
    forall a :: a in nodes && a !in chain && a != r ==> a in nodes' && nodes'[a] == nodes[a]
  }

  /** The new node lies inside block k, where no other node is. */
  lemma SplitPoints(nodes: Nodes, chain: seq<nat>, k: nat, r: nat)
    requires forall j :: 0 <= j < |chain| ==> chain[j] in nodes
    requires Ordered(Blocks(nodes, chain)) && k < |chain|
    requires chain[k] < r < chain[k] + nodes[chain[k]].size
    ensures r !in chain
  {
    var l := Blocks(nodes, chain);
    forall i | 0 <= i < |chain| ensures chain[i] != r {
      if i < k {
        assert l[i].addr + l[i].size <= l[k].addr;
      } else if k < i {
        assert l[k].addr + l[k].size <= l[i].addr;
      }
    }
  }

  /** Splitting block k shortens it and leaves the links alone. */
  lemma SplitLinks(nodes: Nodes, nodes': Nodes, head: nat, chain: seq<nat>, k: nat, size: nat)
    requires Linked(nodes, head, chain) && k < |chain|
    requires forall i :: 0 <= i < |chain| ==>
               && chain[i] in nodes'
               && nodes'[chain[i]] == if i == k then nodes[chain[i]].(size := size) else nodes[chain[i]]
    ensures Linked(nodes', head, chain)
    ensures Blocks(nodes', chain) == Blocks(nodes, chain)[k := Block(chain[k], size)]
  {
    forall i | 0 <= i < |chain| ensures LinksAt(nodes', chain, i) {
      assert LinksAt(nodes, chain, i);
    }
  }

  lemma SplitKeepsLinks(nodes: Nodes, nodes': Nodes, head: nat, chain: seq<nat>, k: nat, r: nat)
    requires Linked(nodes, head, chain) && Ordered(Blocks(nodes, chain)) && k < |chain|
    requires CutInTwo(nodes, nodes', chain[k], r) && nodes'[r].size > 0
    requires !TakenWhole(Blocks(nodes, chain)[k], nodes'[r].size)
    ensures var b := Taken(Blocks(nodes, chain), k, nodes'[r].size);
            && Linked(nodes', head, chain)
            && Blocks(nodes', chain) == Left(Blocks(nodes, chain), k, nodes'[r].size)
            && b == Block(r, nodes'[r].size)
            && ChangedOnly(nodes, nodes', chain, r)
  {
    SplitPoints(nodes, chain, k, r);
    SplitLinks(nodes, nodes', head, chain, k, nodes'[chain[k]].size);
  }
}
