/** Symbol tables: parallel arrays of names, items and hashes, indexed by 32 hash buckets whose members
    are chained in an array of successor indices. */
module SymTable {
  import opened Words
  import opened ByteVm
  import Program

  const BUCKETS: int := 32

  /** The mark of an empty bucket and of the end of a chain. */
  const NONE: int := 0xFFFF_FFFF_FFFF_FFFF

  // ----- hashing -----

  /** A signed character widened to 64 bits. */
  function CharValue(c: char): u64 {
    var v := c as int % 256;
    if v < 128 then v else TWO64 - 256 + v
  }

  /** It is the character's byte in two's complement, modulo 2^64. */
  lemma CharsAreSigned(c: char, v: int)
    requires -128 <= v < 128 && (c as int - v) % 256 == 0
    ensures (CharValue(c) - v) % TWO64 == 0
  {
    var b := if v < 0 then v + 256 else v;
    ModUnique(c as int, 256, (c as int - b) / 256, b);
    ModUnique(CharValue(c) - v, TWO64, if v < 0 then 1 else 0, 0);
  }

  /** One character more: a polynomial in 65599, modulo 2^64. */
  function HashStep(h: u64, c: char): u64 {
    (65599 * h + CharValue(c)) % TWO64
  }

  /** The shifts and the subtraction of the loop come to that. */
  lemma ShiftsMultiply(h: u64, c: u64)
    ensures (c + (h * 64) % TWO64 + (h * 65536) % TWO64 - h) % TWO64 == (65599 * h + c) % TWO64
  {
    var a, b := h * 64, h * 65536;
    var v := c + a % TWO64 + b % TWO64 - h;
    ModUnique(65599 * h + c, TWO64, v / TWO64 + a / TWO64 + b / TWO64, v % TWO64);
  }

  function HashUpTo(key: string, n: nat): u64
    requires n <= |key|
  {
    if n == 0 then 0 else HashStep(HashUpTo(key, n - 1), key[n - 1])
  }

  function Hash(key: string): u64 {
    HashUpTo(key, |key|)
  }

  method StringHash(key: string) returns (h: u64)
    ensures h == Hash(key)
  {
    h := 0;
    var i := 0;
    while i < |key|
      invariant 0 <= i <= |key| && h == HashUpTo(key, i)
    {
      var c := CharValue(key[i]);
      ShiftsMultiply(h, c);
      h := (c + (h * 64) % TWO64 + (h * 65536) % TWO64 - h) % TWO64;
      i := i + 1;
    }
  }

  // ----- what lookup means -----

  /** The first index with hash `h`, or the length: a linear scan. */
  function FirstHash(hashes: seq<nat>, h: nat): (i: nat)
    ensures i <= |hashes|
    ensures i < |hashes| ==> hashes[i] == h
    ensures forall j :: 0 <= j < i ==> hashes[j] != h
  {
    if hashes == [] || hashes[0] == h then 0
    else
      var i := FirstHash(hashes[1..], h);
      assert forall j :: 1 <= j < |hashes| ==> hashes[j] == hashes[1..][j - 1];
      i + 1
  }

  /** The hashes are those of the names. */
  ghost predicate Hashed(keys: seq<string>, hashes: seq<nat>) {
    |keys| == |hashes| && forall i :: 0 <= i < |keys| ==> hashes[i] == Hash(keys[i])
  }

  /** `key` shares its hash with no other name of the table. */
  ghost predicate HashTells(keys: seq<string>, key: string) {
    forall i :: 0 <= i < |keys| && Hash(keys[i]) == Hash(key) ==> keys[i] == key
  }

  /** Lookup is by hash; it finds the first entry of that name, or nothing if there is none, exactly when no entry
      before that one has another name with the same hash. */
  lemma FirstHashIsFirstName(keys: seq<string>, hashes: seq<nat>, key: string)
    requires Hashed(keys, hashes)
    ensures FirstHash(hashes, Hash(key)) == Program.IndexOf(keys, key)
            <==> forall j :: 0 <= j < Program.IndexOf(keys, key) ==> Hash(keys[j]) != Hash(key)
  {
    var k := Program.IndexOf(keys, key);
    if k < |keys| {
      assert hashes[k] == Hash(key);
    }
  }

  /** So it does whenever the hash tells the name from those of the table. */
  lemma TellingHashesFindNames(keys: seq<string>, hashes: seq<nat>, key: string)
    requires Hashed(keys, hashes) && HashTells(keys, key)
    ensures FirstHash(hashes, Hash(key)) == Program.IndexOf(keys, key)
  {
    FirstHashIsFirstName(keys, hashes, key);
  }

  /** Two names that an assembly source may use. */
  const FIRST_NAME: string := "dajaehaaraea"
  const SECOND_NAME: string := "acapaagmaeah"

  /** One more character, with the quotient by which the hash wraps around. */
  lemma HashOneMore(key: string, n: nat, h: u64, q: nat, h': u64)
    requires n < |key| && HashUpTo(key, n) == h && key[n] as int < 128
    requires 65599 * h + key[n] as int == q * TWO64 + h'
    ensures HashUpTo(key, n + 1) == h'
  {
    ModUnique(65599 * h + key[n] as int, TWO64, q, h');
  }

  const SHARED_HASH: u64 := 14856841326868523042

  lemma FirstNameHash(key: string)
    requires key == FIRST_NAME
    ensures Hash(key) == SHARED_HASH
  {
    HashOneMore(key, 0, 0, 0, 100);
    HashOneMore(key, 1, 100, 0, 6559997);
    HashOneMore(key, 2, 6559997, 0, 430329243309);
    HashOneMore(key, 3, 430329243309, 0, 28229168031827188);
    HashOneMore(key, 4, 28229168031827188, 100, 7130786348876544113);
    HashOneMore(key, 5, 7130786348876544113, 25357, 18364222899316941879);
    HashOneMore(key, 6, 18364222899316941879, 65305, 10036238689802037738);
    HashOneMore(key, 7, 10036238689802037738, 35690, 2925821629976400119);
    HashOneMore(key, 8, 2925821629976400119, 10404, 11047761947696393531);
    HashOneMore(key, 9, 11047761947696393531, 39287, 4901583108564902374);
    HashOneMore(key, 10, 4901583108564902374, 17430, 12201133991546165247);
    HashOneMore(key, 11, 12201133991546165247, 43388, 14856841326868523042);
  }

  lemma SecondNameHash(key: string)
    requires key == SECOND_NAME
    ensures Hash(key) == SHARED_HASH
  {
    HashOneMore(key, 0, 0, 0, 97);
    HashOneMore(key, 1, 97, 0, 6363202);
    HashOneMore(key, 2, 6363202, 0, 417419688095);
    HashOneMore(key, 3, 417419688095, 0, 27382314119344017);
    HashOneMore(key, 4, 27382314119344017, 97, 6918248765021664528);
    HashOneMore(key, 5, 6918248765021664528, 24602, 3403035253782515537);
    HashOneMore(key, 6, 3403035253782515537, 12101, 11659576919952606550);
    HashOneMore(key, 7, 11659576919952606550, 41462, 17683587825607970967);
    HashOneMore(key, 8, 17683587825607970967, 62885, 2176696832134092170);
    HashOneMore(key, 9, 2176696832134092170, 7740, 11336360652382752091);
    HashOneMore(key, 10, 11336360652382752091, 40313, 10328592203000121798);
    HashOneMore(key, 11, 10328592203000121798, 36729, 14856841326868523042);
  }

  /** Their hashes collide, so that looking up the one in a table that holds the other finds the other. */
  lemma LookupFindsOtherName()
    ensures FIRST_NAME != SECOND_NAME && Hash(FIRST_NAME) == Hash(SECOND_NAME)
    ensures FirstHash([Hash(FIRST_NAME)], Hash(SECOND_NAME)) == 0
    ensures Program.IndexOf([FIRST_NAME], SECOND_NAME) == 1
  {
    FirstNameHash(FIRST_NAME);
    SecondNameHash(SECOND_NAME);
    assert FIRST_NAME[0] != SECOND_NAME[0];
  }

  // ----- buckets -----

  /** The entries of bucket `b` among the first `n`, in order. */
  function Bucket(hashes: seq<nat>, n: nat, b: nat): (l: seq<nat>)
    requires n <= |hashes|
    ensures forall k :: 0 <= k < |l| ==> l[k] < n && hashes[l[k]] % BUCKETS == b
    ensures forall j, k :: 0 <= j < k < |l| ==> l[j] < l[k]
  {
    if n == 0 then []
    else
      var prev := Bucket(hashes, n - 1, b);
      if hashes[n - 1] % BUCKETS == b then prev + [n - 1] else prev
  }

  /** The buckets partition the entries: each entry is in the bucket of its hash. */
  lemma {:induction false} BucketHas(hashes: seq<nat>, n: nat, i: nat) returns (k: nat)
    requires i < n <= |hashes|
    ensures var l := Bucket(hashes, n, hashes[i] % BUCKETS); k < |l| && l[k] == i
    decreases n
  {
    if i == n - 1 {
      k := |Bucket(hashes, n - 1, hashes[i] % BUCKETS)|;
    } else {
      k := BucketHas(hashes, n - 1, i);
    }
  }

  lemma {:induction false} BucketSame(hashes: seq<nat>, hashes': seq<nat>, n: nat, b: nat)
    requires n <= |hashes| && n <= |hashes'| && hashes[..n] == hashes'[..n]
    ensures Bucket(hashes, n, b) == Bucket(hashes', n, b)
    decreases n
  {
    if n > 0 {
      assert hashes[..n - 1] == hashes[..n][..n - 1] == hashes'[..n][..n - 1] == hashes'[..n - 1];
      assert hashes[n - 1] == hashes[..n][n - 1] == hashes'[n - 1];
      BucketSame(hashes, hashes', n - 1, b);
    }
  }

  /** Bucket heads `bs` and successors `ch` spell out list `l` for bucket `b`. */
  predicate Spells(bs: seq<nat>, ch: seq<nat>, b: nat, l: seq<nat>) {
    && b < |bs| && (forall k :: 0 <= k < |l| ==> l[k] < |ch|)
    && bs[b] == (if l == [] then NONE else l[0])
    && (forall k :: 0 <= k < |l| ==> ch[l[k]] == if k + 1 < |l| then l[k + 1] else NONE)
  }

  /** Following the chain is moving along the list. */
  lemma Follow(bs: seq<nat>, ch: seq<nat>, b: nat, l: seq<nat>, k: nat)
    requires Spells(bs, ch, b, l) && k < |l|
    ensures l[k] < |ch| && ch[l[k]] == if k + 1 < |l| then l[k + 1] else NONE
    ensures k + 1 < |l| ==> l[k + 1] < |ch|
  {
  }

  /** The first `n` entries are indexed, the others not chained yet. */
  ghost predicate Indexed(bs: seq<nat>, ch: seq<nat>, hashes: seq<nat>, n: nat)
    requires n <= |hashes|
  {
    && |bs| == BUCKETS && |ch| == |hashes| < NONE
    && (forall b :: 0 <= b < BUCKETS ==> Spells(bs, ch, b, Bucket(hashes, n, b)))
    && (forall i :: n <= i < |ch| ==> ch[i] == NONE)
  }

  /** Chaining entry `n` behind the last of its bucket indexes it. */
  lemma IndexNext(bs: seq<nat>, ch: seq<nat>, hashes: seq<nat>, n: nat)
    requires n < |hashes| && Indexed(bs, ch, hashes, n)
    ensures var b := hashes[n] % BUCKETS;
            var l := Bucket(hashes, n, b);
            if l == [] then Indexed(bs[b := n], ch, hashes, n + 1)
            else Indexed(bs, ch[l[|l| - 1] := n], hashes, n + 1)
  {
    var b := hashes[n] % BUCKETS;
    var l := Bucket(hashes, n, b);
    var bs', ch' := if l == [] then bs[b := n] else bs, if l == [] then ch else ch[l[|l| - 1] := n];
    assert Spells(bs, ch, b, l);
    var m := n + 1;
    forall c | 0 <= c < BUCKETS ensures Spells(bs', ch', c, Bucket(hashes, m, c)) {
      if c == b {
        ThisBucket(bs, ch, n, b, l);
      } else {
        OtherBucket(bs, ch, hashes, n, b, c);
      }
    }
  }

  lemma ThisBucket(bs: seq<nat>, ch: seq<nat>, n: nat, b: nat, l: seq<nat>)
    requires Spells(bs, ch, b, l) && n < |ch| && ch[n] == NONE
    requires forall j, k :: 0 <= j < k < |l| ==> l[j] < l[k]
    requires forall k :: 0 <= k < |l| ==> l[k] < n
    ensures if l == [] then Spells(bs[b := n], ch, b, [n])
            else Spells(bs, ch[l[|l| - 1] := n], b, l + [n])
  {
  }

  lemma SpellsStill(bs: seq<nat>, ch: seq<nat>, bs': seq<nat>, ch': seq<nat>, c: nat, o: seq<nat>)
    requires Spells(bs, ch, c, o) && |bs'| == |bs| && |ch'| == |ch|
    requires bs'[c] == bs[c] && forall k :: 0 <= k < |o| ==> ch'[o[k]] == ch[o[k]]
    ensures Spells(bs', ch', c, o)
  {
    forall k | 0 <= k < |o| ensures ch'[o[k]] == if k + 1 < |o| then o[k + 1] else NONE {
      Follow(bs, ch, c, o, k);
    }
  }

  lemma {:induction false} OtherBucket(bs: seq<nat>, ch: seq<nat>, hashes: seq<nat>, n: nat, b: nat, c: nat)
    requires n <= |hashes| && Indexed(bs, ch, hashes, n) && b < BUCKETS && c < BUCKETS && c != b
    ensures Spells(bs[b := n], ch, c, Bucket(hashes, n, c))
    ensures var l := Bucket(hashes, n, b);
            l != [] ==> Spells(bs, ch[l[|l| - 1] := n], c, Bucket(hashes, n, c))
  {
    var l, o := Bucket(hashes, n, b), Bucket(hashes, n, c);
    assert Spells(bs, ch, c, o);
    SpellsStill(bs, ch, bs[b := n], ch, c, o);
    if l != [] {
      var last := l[|l| - 1];
      assert hashes[last] % BUCKETS == b;
      forall k | 0 <= k < |o| ensures o[k] != last {
        assert hashes[o[k]] % BUCKETS == c;
      }
      SpellsStill(bs, ch, bs, ch[last := n], c, o);
    }
  }

  lemma IndexedSame(bs: seq<nat>, ch: seq<nat>, hashes: seq<nat>, hashes': seq<nat>, n: nat)
    requires n <= |hashes| && Indexed(bs, ch, hashes, n)
    requires |hashes'| == |hashes| && hashes'[..n] == hashes[..n]
    ensures Indexed(bs, ch, hashes', n)
  {
    forall b | 0 <= b < BUCKETS ensures Spells(bs, ch, b, Bucket(hashes', n, b)) {
      BucketSame(hashes, hashes', n, b);
    }
  }

  class Table {
    const len: nat
    const keys: array<string>
    const items: array<Item>
    const bytes: array<nat>
    const hashes: array<nat>
    const buckets: array<nat>
    const chain: array<nat>

    /** The arrays are of the right lengths and distinct. */
    ghost predicate Shaped() {
      && keys.Length == items.Length == bytes.Length == hashes.Length == chain.Length == len
      && buckets.Length == BUCKETS && len < NONE
      && hashes != buckets && hashes != chain && buckets != chain && bytes != hashes
      && bytes != buckets && bytes != chain
    }

    /** The first `n` entries are filled in and indexed. */
    ghost predicate Filled(n: nat)
      reads keys, hashes, buckets, chain
    {
      && Shaped() && n <= len
      && (forall i :: 0 <= i < n ==> hashes[i] == Hash(keys[i]))
      && Indexed(buckets[..], chain[..], hashes[..], n)
    }

    constructor (n: nat)
      requires n < NONE
      ensures len == n && Filled(0)
      ensures fresh(keys) && fresh(items) && fresh(bytes) && fresh(hashes) && fresh(buckets) && fresh(chain)
    {
      len := n;
      keys := new string[n](_ => "");
      items := new Item[n](_ => Item(0, None, 0));
      bytes := new nat[n](_ => 0);
      hashes := new nat[n](_ => 0);
      buckets := new nat[BUCKETS];
      chain := new nat[n];
      new;
      var i := 0;
      while i < BUCKETS
        invariant 0 <= i <= BUCKETS && forall j :: 0 <= j < i ==> buckets[j] == NONE
      {
        buckets[i] := NONE;
        i := i + 1;
      }
      i := 0;
      while i < n
        invariant 0 <= i <= n && forall j :: 0 <= j < i ==> chain[j] == NONE
        invariant forall j :: 0 <= j < BUCKETS ==> buckets[j] == NONE
      {
        chain[i] := NONE;
        i := i + 1;
      }
    }

    /** Fills in entry `i` and appends it to the chain of its bucket. */
    method Insert(i: nat, key: string, item: Item, size: nat)
      requires Filled(i) && i < len
      modifies keys, items, bytes, hashes, buckets, chain
      ensures Filled(i + 1)
      ensures keys[..] == old(keys[..])[i := key] && items[..] == old(items[..])[i := item]
      ensures bytes[..] == old(bytes[..])[i := size] && hashes[..] == old(hashes[..])[i := Hash(key)]
    {
      var h := StringHash(key);
      items[i] := item;
      bytes[i] := size;
      keys[i] := key;
      hashes[i] := h;
      IndexedSame(buckets[..], chain[..], old(hashes[..]), hashes[..], i);
      IndexNext(buckets[..], chain[..], hashes[..], i);
      Chain(i, h % BUCKETS);
    }

    /** The walk to the end of the chain of bucket `b`, and the link from there to entry `i`. */
    method Chain(i: nat, b: nat)
      requires Shaped() && i < len && Indexed(buckets[..], chain[..], hashes[..], i)
      requires b == hashes[i] % BUCKETS
      modifies buckets, chain
      ensures var l := Bucket(hashes[..], i, b);
              if l == [] then buckets[..] == old(buckets[..])[b := i] && chain[..] == old(chain[..])
              else buckets[..] == old(buckets[..]) && chain[..] == old(chain[..])[l[|l| - 1] := i]
    {
      ghost var l := Bucket(hashes[..], i, b);
      ghost var bs, ch := buckets[..], chain[..];
      assert Spells(bs, ch, b, l);
      if buckets[b] == NONE {
        buckets[b] := i;
      } else {
        var n := buckets[b];
        ghost var k := 0;
        while chain[n] != NONE
          invariant 0 <= k < |l| && n == l[k] < len && buckets[..] == bs && chain[..] == ch
          decreases |l| - k
        {
          Follow(bs, ch, b, l, k);
          n := chain[n];
          k := k + 1;
        }
        Follow(bs, ch, b, l, k);
        assert n == l[|l| - 1];
        chain[n] := i;
      }
    }

    /** Lookup along the chain of the key's bucket, accepting on an equal hash or an equal name: the
        first entry of the whole table with the key's hash. */
    method GetItem(key: string) returns (r: Option<nat>)
      requires Filled(len)
      ensures var i := FirstHash(hashes[..], Hash(key));
              r == if i < len then Some(i) else None
    {
      if len == 0 {
        return None;
      }
      var h := StringHash(key);
      ghost var l := Bucket(hashes[..], len, h % BUCKETS);
      assert Spells(buckets[..], chain[..], h % BUCKETS, l);
      var i := buckets[h % BUCKETS];
      ghost var k := 0;
      while i != NONE
        invariant 0 <= k <= |l| && i == (if k < |l| then l[k] else NONE)
        invariant forall j :: 0 <= j < k ==> hashes[..][l[j]] != h
        decreases |l| - k
      {
        assert i == l[k] < len;
        if hashes[i] == h || keys[i] == key {
          FoundIsFirst(hashes[..], h, k);
          return Some(i);
        }
        Follow(buckets[..], chain[..], h % BUCKETS, l, k);
        i := chain[i];
        k := k + 1;
      }
      AbsentIsAbsent(hashes[..], h);
      r := None;
    }
  }

  lemma {:induction false} FoundIsFirst(hashes: seq<nat>, h: nat, k: nat)
    requires var l := Bucket(hashes, |hashes|, h % BUCKETS);
             k < |l| && hashes[l[k]] == h && forall j :: 0 <= j < k ==> hashes[l[j]] != h
    ensures FirstHash(hashes, h) == Bucket(hashes, |hashes|, h % BUCKETS)[k]
  {
    var i := FirstHash(hashes, h);
    if i < |hashes| {
      var j := BucketHas(hashes, |hashes|, i);
    }
  }

  lemma {:induction false} AbsentIsAbsent(hashes: seq<nat>, h: nat)
    requires var l := Bucket(hashes, |hashes|, h % BUCKETS);
             forall j :: 0 <= j < |l| ==> hashes[l[j]] != h
    ensures FirstHash(hashes, h) == |hashes|
  {
    var i := FirstHash(hashes, h);
    if i < |hashes| {
      var j := BucketHas(hashes, |hashes|, i);
    }
  }

  /** A table that holds only the first of the colliding names: looking up the second finds it. */
  method LookupInTableOfFirst(item: Item) returns (t: Table, r: Option<nat>)
    ensures t.Filled(1) && t.keys[..] == [FIRST_NAME] && r == Some(0)
  {
    t := new Table(1);
    t.Insert(0, FIRST_NAME, item, 0);
    LookupFindsOtherName();
    assert t.hashes[..] == [Hash(FIRST_NAME)];
    r := t.GetItem(SECOND_NAME);
  }
}
