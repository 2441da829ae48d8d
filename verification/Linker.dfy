/** Linking: native and extern entries of function tables are resolved in place, by name. Over any
    sequence of link operations linked entries stay put and lead to a bytecode function of a name with
    the right hash. */
module Linker {
  import opened Words
  import opened ByteVm
  import opened SymTable

  // ----- one table -----

  /** Names and items of a function table. */
  datatype Funcs = Funcs(keys: seq<string>, items: seq<Item>)

  ghost predicate Sane(t: Funcs) {
    |t.keys| == |t.items|
  }

  /** The hashes of a list of names. */
  function HashesOf(keys: seq<string>): (hs: seq<nat>)
    ensures |hs| == |keys| && forall i :: 0 <= i < |keys| ==> hs[i] == Hash(keys[i])
  {
    seq(|keys|, i requires 0 <= i < |keys| => Hash(keys[i]))
  }

  /** The entry lookup finds for `key`; the length if none. */
  function Find(t: Funcs, key: string): nat {
    FirstHash(HashesOf(t.keys), Hash(key))
  }

  /** An entry a library can provide: not native, and resolved. */
  predicate Provides(it: Item) {
    !IsNative(it.flags) && it.item != 0
  }

  /** An entry after linking against `lib`: only unlinked externs change, and only if the library
      provides what lookup finds. */
  function LinkItem(key: string, it: Item, lib: Funcs): Item {
    var j := Find(lib, key);
    if it.flags == FLAG_EXTERN && j < |lib.items| && Provides(lib.items[j])
    then Item(lib.items[j].item, lib.items[j].owner, FLAG_EXTERN + FLAG_LINKED)
    else it
  }

  function LinkItems(t: Funcs, lib: Funcs): (r: seq<Item>)
    requires |t.keys| == |t.items|
    ensures |r| == |t.items|
    ensures forall i :: 0 <= i < |r| ==> r[i] == LinkItem(t.keys[i], t.items[i], lib)
  {
    seq(|t.items|, i requires 0 <= i < |t.items| => LinkItem(t.keys[i], t.items[i], lib))
  }

  ghost function FuncsOf(t: Table): Funcs
    reads t.keys, t.items
  {
    Funcs(t.keys[..], t.items[..])
  }

  lemma FilledHashes(t: Table)
    requires t.Filled(t.len)
    ensures t.hashes[..] == HashesOf(t.keys[..])
  {
  }

  /** `cur` is `t0` with some entries linked against `t0`. */
  ghost predicate PartlyLinked(t0: Funcs, cur: Funcs) {
    && |t0.keys| == |t0.items| == |cur.items| && cur.keys == t0.keys
    && forall j :: 0 <= j < |t0.items| ==>
         cur.items[j] == t0.items[j] || cur.items[j] == LinkItem(t0.keys[j], t0.items[j], t0)
  }

  /** What lookup finds in a table is the first entry with its hash, so linking a table against itself does not
      change what it provides. */
  lemma SameProvided(t0: Funcs, cur: Funcs, key: string, it: Item)
    requires PartlyLinked(t0, cur)
    ensures LinkItem(key, it, cur) == LinkItem(key, it, t0)
  {
    var j := Find(t0, key);
    if j < |t0.items| {
      assert Find(t0, t0.keys[j]) == j;
    }
  }

  /** Links the externs of `t` against a library's table, in place; the library may be `t` itself. */
  method LinkModule(t: Table, lib: Table)
    requires t.Filled(t.len) && lib.Filled(lib.len)
    requires t != lib ==> t.items != lib.items && t.bytes != lib.bytes
    requires t.items as object !in {t.keys, lib.keys} && t.bytes as object !in
      {t.hashes, t.buckets, t.chain, lib.hashes, lib.buckets, lib.chain}
    modifies t.items, t.bytes
    ensures t.Filled(t.len) && lib.Filled(lib.len)
    ensures FuncsOf(t) == old(FuncsOf(t)).(items := LinkItems(old(FuncsOf(t)), old(FuncsOf(lib))))
    ensures t != lib ==> FuncsOf(lib) == old(FuncsOf(lib))
  {
    ghost var t0, lib0 := FuncsOf(t), FuncsOf(lib);
    var i := 0;
    while i < t.len
      invariant 0 <= i <= t.len && t.Filled(t.len) && lib.Filled(lib.len)
      invariant t.keys[..] == t0.keys && (t != lib ==> FuncsOf(lib) == lib0)
      invariant forall k :: 0 <= k < i ==> t.items[k] == LinkItem(t0.keys[k], t0.items[k], lib0)
      invariant forall k :: i <= k < t.len ==> t.items[k] == t0.items[k]
    {
      if t == lib {
        SameProvided(t0, FuncsOf(t), t0.keys[i], t0.items[i]);
      }
      LinkEntry(t, lib, i);
      i := i + 1;
    }
  }

  method LinkEntry(t: Table, lib: Table, i: nat)
    requires t.Filled(t.len) && lib.Filled(lib.len) && i < t.len
    requires t != lib ==> t.items != lib.items && t.bytes != lib.bytes
    requires t.items as object !in {t.keys, lib.keys} && t.bytes as object !in
      {t.hashes, t.buckets, t.chain, lib.hashes, lib.buckets, lib.chain}
    modifies t.items, t.bytes
    ensures t.Filled(t.len) && lib.Filled(lib.len)
    ensures t.items[i] == LinkItem(t.keys[i], old(t.items[i]), old(FuncsOf(lib)))
    ensures forall k :: 0 <= k < t.len && k != i ==> t.items[k] == old(t.items[k])
  {
    if t.items[i].flags == FLAG_EXTERN {
      FilledHashes(lib);
      var r := lib.GetItem(t.keys[i]);
      if r.Some? && Provides(lib.items[r.value]) {
        var provided := lib.items[r.value];
        t.items[i] := Item(provided.item, provided.owner, FLAG_EXTERN + FLAG_LINKED);
        t.bytes[i] := lib.bytes[r.value];
      }
    }
  }

  /** A native to offer; the name or the function may be null. */
  datatype Native = Native(name: Option<string>, cfunc: nat)

  predicate Closing(n: Native) {
    n.name.None? || n.cfunc == 0
  }

  /** The number of natives before the first that closes the list. */
  function Offered(natives: seq<Native>): (k: nat)
    ensures k <= |natives| && (forall i :: 0 <= i < k ==> !Closing(natives[i]))
    ensures k < |natives| ==> Closing(natives[k])
    decreases |natives|
  {
    if natives == [] || Closing(natives[0]) then 0
    else
      var k := Offered(natives[1..]);
      assert forall i :: 1 <= i < k + 1 ==> natives[i] == natives[1..][i - 1];
      k + 1
  }

  /** A table after offering it one native: only an unlinked native entry changes. */
  function LinkNative(t: Funcs, n: Native): seq<Item>
    requires !Closing(n)
  {
    var j := Find(t, n.name.value);
    if j < |t.items| && t.items[j].flags == FLAG_NATIVE
    then t.items[j := Item(n.cfunc, t.items[j].owner, FLAG_NATIVE + FLAG_LINKED)]
    else t.items
  }

  function LinkNativesSpec(t: Funcs, natives: seq<Native>, k: nat): seq<Item>
    requires k <= Offered(natives)
  {
    if k == 0 then t.items
    else LinkNative(t.(items := LinkNativesSpec(t, natives, k - 1)), natives[k - 1])
  }

  /** Lookup of the native's name finds entry `i`. */
  predicate Names(t: Funcs, n: Native, i: nat) {
    n.name.Some? && Find(t, n.name.value) == i
  }

  /** Offering one native. */
  lemma OneNative(t: Funcs, items: seq<Item>, n: Native, i: nat)
    requires !Closing(n) && i < |items|
    ensures var r := LinkNative(t.(items := items), n);
            && |r| == |items|
            && r[i] == if Names(t, n, i) && items[i].flags == 1 then Item(n.cfunc, items[i].owner, 1 + 4) else items[i]
  {
  }

  /** The last of `k` natives, offered to the items the others leave. */
  lemma LastNative(t: Funcs, natives: seq<Native>, k: nat, i: nat, items: seq<Item>)
    requires 0 < k <= Offered(natives) && items == LinkNativesSpec(t, natives, k - 1) && i < |items|
    ensures var r, n := LinkNativesSpec(t, natives, k), natives[k - 1];
            && |r| == |items|
            && r[i] == if Names(t, n, i) && items[i].flags == 1 then Item(n.cfunc, items[i].owner, 1 + 4) else items[i]
  {
    OneNative(t, items, natives[k - 1], i);
  }

  /** Natives whose names do not find an entry, or that find it when it is not an unlinked native, leave it alone. */
  lemma {:induction false} OthersStay(t: Funcs, natives: seq<Native>, k: nat, i: nat)
    requires k <= Offered(natives) && i < |t.items|
    requires t.items[i].flags != 1 || forall j :: 0 <= j < k ==> !Names(t, natives[j], i)
    ensures |LinkNativesSpec(t, natives, k)| == |t.items| && LinkNativesSpec(t, natives, k)[i] == t.items[i]
    decreases k
  {
    if k > 0 {
      OthersStay(t, natives, k - 1, i);
      LastNative(t, natives, k, i, LinkNativesSpec(t, natives, k - 1));
    }
  }

  /** Of the natives offered, the first whose name finds an unlinked native entry gives it its function. */
  lemma {:induction false} FirstNativeLinks(t: Funcs, natives: seq<Native>, k: nat, i: nat, j: nat)
    requires j < k <= Offered(natives) && i < |t.items| && t.items[i].flags == 1
    requires Names(t, natives[j], i) && forall l :: 0 <= l < j ==> !Names(t, natives[l], i)
    ensures |LinkNativesSpec(t, natives, k)| == |t.items|
    ensures LinkNativesSpec(t, natives, k)[i] == Item(natives[j].cfunc, t.items[i].owner, 1 + 4)
    decreases k
  {
    if j < k - 1 {
      FirstNativeLinks(t, natives, k - 1, i, j);
    } else {
      OthersStay(t, natives, j, i);
    }
    LastNative(t, natives, k, i, LinkNativesSpec(t, natives, k - 1));
  }

  /** Offers a list of natives to table `t`, in place, up to the entry that closes the list. */
  method LinkNatives(t: Table, natives: seq<Native>)
    requires t.Filled(t.len) && t.items as object != t.keys
    requires exists k :: 0 <= k < |natives| && Closing(natives[k])
    modifies t.items
    ensures t.Filled(t.len)
    ensures t.items[..] == LinkNativesSpec(old(FuncsOf(t)), natives, Offered(natives))
  {
    ghost var t0 := FuncsOf(t);
    var k := 0;
    while natives[k].name.Some? && natives[k].cfunc != 0
      invariant 0 <= k <= Offered(natives) < |natives| && t.Filled(t.len)
      invariant t.keys[..] == t0.keys && t.items[..] == LinkNativesSpec(t0, natives, k)
      decreases |natives| - k
    {
      OfferNative(t, natives[k]);
      k := k + 1;
    }
    assert k == Offered(natives);
  }

  method OfferNative(t: Table, n: Native)
    requires t.Filled(t.len) && t.items as object != t.keys && !Closing(n)
    modifies t.items
    ensures t.Filled(t.len) && t.items[..] == LinkNative(old(FuncsOf(t)), n)
  {
    FilledHashes(t);
    var r := t.GetItem(n.name.value);
    if r.Some? && t.items[r.value].flags == FLAG_NATIVE {
      t.items[r.value] := Item(n.cfunc, t.items[r.value].owner, FLAG_NATIVE + FLAG_LINKED);
    }
  }

  // ----- sets of modules -----

  /** Link module `a` against module `b`, or offer natives to module `a`. */
  datatype LinkOp = Against(a: nat, b: nat) | Offer(a: nat, natives: seq<Native>)

  ghost predicate AllSane(ts: seq<Funcs>) {
    forall m :: 0 <= m < |ts| ==> Sane(ts[m])
  }

  function Apply(ts: seq<Funcs>, op: LinkOp): (r: seq<Funcs>)
    ensures |r| == |ts|
  {
    match op
    case Against(a, b) =>
      if a < |ts| && b < |ts| && |ts[a].keys| == |ts[a].items|
      then ts[a := ts[a].(items := LinkItems(ts[a], ts[b]))] else ts
    case Offer(a, natives) =>
      if a < |ts| then ts[a := ts[a].(items := LinkNativesSpec(ts[a], natives, Offered(natives)))] else ts
  }

  function ApplyAll(ts: seq<Funcs>, ops: seq<LinkOp>): (r: seq<Funcs>)
    ensures |r| == |ts|
    decreases |ops|
  {
    if ops == [] then ts else Apply(ApplyAll(ts, ops[..|ops| - 1]), ops[|ops| - 1])
  }

  /** Entries as the loader leaves them. */
  predicate FreshItem(it: Item, m: nat) {
    || (it.flags == 0 && it.item > 0 && it.owner == Some(m))
    || (it.flags == FLAG_NATIVE && it.item == 0 && it.owner == Some(m))
    || (it.flags == FLAG_EXTERN && it.item == 0 && it.owner == None)
  }

  ghost predicate FreshlyLoaded(ts: seq<Funcs>) {
    && AllSane(ts)
    && forall m, i :: 0 <= m < |ts| && 0 <= i < |ts[m].items| ==> FreshItem(ts[m].items[i], m)
  }

  /** `it` is linked to bytecode function `j` of module `n`. */
  predicate PointsTo(ts0: seq<Funcs>, it: Item, n: nat, j: nat) {
    && n < |ts0| && j < |ts0[n].items| && j < |ts0[n].keys| && ts0[n].items[j].flags == 0
    && it == Item(ts0[n].items[j].item, Some(n), FLAG_EXTERN + FLAG_LINKED)
  }

  /** It is what lookup of `key` finds there: the first entry whose name has the hash of `key`. */
  predicate LeadsTo(ts0: seq<Funcs>, key: string, it: Item, n: nat, j: nat) {
    PointsTo(ts0, it, n, j) && Find(ts0[n], key) == j
  }

  /** What an entry can have become, given what it was when loaded. */
  ghost predicate Sound(ts0: seq<Funcs>, key: string, it0: Item, it: Item) {
    || it == it0
    || (it0.flags == FLAG_NATIVE && it.flags == FLAG_NATIVE + FLAG_LINKED && it.owner == it0.owner)
    || (it0.flags == FLAG_EXTERN && exists n, j :: LeadsTo(ts0, key, it, n, j))
  }

  ghost predicate AllSound(ts0: seq<Funcs>, ts: seq<Funcs>) {
    && |ts| == |ts0|
    && forall m :: 0 <= m < |ts| ==>
         && ts[m].keys == ts0[m].keys && |ts[m].items| == |ts0[m].items|
         && forall i :: 0 <= i < |ts[m].items| && i < |ts0[m].keys| ==>
              Sound(ts0, ts0[m].keys[i], ts0[m].items[i], ts[m].items[i])
  }

  /** An entry provided by a sound library is a bytecode function or an extern already linked to one;
      either way the importer comes to lead to that function. */
  lemma LinkItemSound(ts0: seq<Funcs>, ts: seq<Funcs>, a: nat, b: nat, i: nat)
    requires FreshlyLoaded(ts0) && AllSound(ts0, ts)
    requires a < |ts| && b < |ts| && i < |ts[a].items|
    ensures Sound(ts0, ts0[a].keys[i], ts0[a].items[i], LinkItem(ts[a].keys[i], ts[a].items[i], ts[b]))
  {
    var key := ts0[a].keys[i];
    var it0, it := ts0[a].items[i], ts[a].items[i];
    var j := Find(ts[b], key);
    assert Sound(ts0, key, it0, it) && FreshItem(it0, a);
    if it.flags == FLAG_EXTERN && j < |ts[b].items| && Provides(ts[b].items[j]) {
      assert Hash(ts0[b].keys[j]) == Hash(key);
      var p0, p := ts0[b].items[j], ts[b].items[j];
      assert Sound(ts0, ts0[b].keys[j], p0, p) && FreshItem(p0, b);
      var it' := Item(p.item, p.owner, FLAG_EXTERN + FLAG_LINKED);
      if p == p0 {
        assert LeadsTo(ts0, key, it', b, j);
      } else {
        var n, k :| LeadsTo(ts0, ts0[b].keys[j], p, n, k);
        assert LeadsTo(ts0, key, it', n, k);
      }
    }
  }

  lemma NativeSound(ts0: seq<Funcs>, ts: seq<Funcs>, a: nat, items: seq<Item>, n: Native)
    requires FreshlyLoaded(ts0) && AllSound(ts0, ts) && a < |ts| && |items| == |ts[a].items| && !Closing(n)
    requires forall i :: 0 <= i < |items| ==>
               Sound(ts0, ts0[a].keys[i], ts0[a].items[i], items[i])
    ensures forall i :: 0 <= i < |items| ==>
               Sound(ts0, ts0[a].keys[i], ts0[a].items[i],
                     LinkNative(ts[a].(items := items), n)[i])
  {
    var j := Find(ts[a].(items := items), n.name.value);
    if j < |items| && items[j].flags == FLAG_NATIVE {
      assert Sound(ts0, ts0[a].keys[j], ts0[a].items[j], items[j]) && FreshItem(ts0[a].items[j], a);
    }
  }

  lemma {:induction false} NativesSound(
    ts0: seq<Funcs>, ts: seq<Funcs>, a: nat, natives: seq<Native>, k: nat)
    requires FreshlyLoaded(ts0) && AllSound(ts0, ts) && a < |ts| && k <= Offered(natives)
    ensures var items := LinkNativesSpec(ts[a], natives, k);
            |items| == |ts[a].items|
            && forall i :: 0 <= i < |items| ==> Sound(ts0, ts0[a].keys[i], ts0[a].items[i], items[i])
    decreases k
  {
    if k > 0 {
      NativesSound(ts0, ts, a, natives, k - 1);
      NativeSound(ts0, ts, a, LinkNativesSpec(ts[a], natives, k - 1), natives[k - 1]);
    }
  }

  lemma OpSound(ts0: seq<Funcs>, ts: seq<Funcs>, op: LinkOp)
    requires FreshlyLoaded(ts0) && AllSound(ts0, ts)
    ensures AllSound(ts0, Apply(ts, op))
  {
    match op {
      case Against(a, b) =>
        if a < |ts| && b < |ts| {
          forall i | 0 <= i < |ts[a].items|
            ensures Sound(ts0, ts0[a].keys[i], ts0[a].items[i],
                          LinkItem(ts[a].keys[i], ts[a].items[i], ts[b]))
          {
            LinkItemSound(ts0, ts, a, b, i);
          }
        }
      case Offer(a, natives) =>
        if a < |ts| {
          NativesSound(ts0, ts, a, natives, Offered(natives));
        }
    }
  }

  /** Linking is sound over any sequence of operations on freshly loaded modules: every linked extern leads to a
      bytecode function in the module recorded as owner whose name has the extern's hash, also through chains of
      externs; every unlinked entry is as it was loaded. */
  lemma {:induction false} LinkingIsSound(ts0: seq<Funcs>, ops: seq<LinkOp>)
    requires FreshlyLoaded(ts0)
    ensures AllSound(ts0, ApplyAll(ts0, ops))
    decreases |ops|
  {
    if ops != [] {
      LinkingIsSound(ts0, ops[..|ops| - 1]);
      OpSound(ts0, ApplyAll(ts0, ops[..|ops| - 1]), ops[|ops| - 1]);
    }
  }

  /** Every module whose lookup of an extern's name finds a bytecode function finds one of that name. */
  ghost predicate NameSafe(ts0: seq<Funcs>) {
    forall m, i, n :: 0 <= m < |ts0| && 0 <= i < |ts0[m].items| && 0 <= n < |ts0| ==> FindsByName(ts0, m, i, n)
  }

  predicate FindsByName(ts0: seq<Funcs>, m: nat, i: nat, n: nat)
    requires m < |ts0| && i < |ts0[m].items| && n < |ts0|
  {
    i < |ts0[m].keys| && ts0[m].items[i].flags == FLAG_EXTERN ==>
      var j := Find(ts0[n], ts0[m].keys[i]);
      j < |ts0[n].keys| && j < |ts0[n].items| && ts0[n].items[j].flags == 0 ==> ts0[n].keys[j] == ts0[m].keys[i]
  }

  /** After these operations, whatever function an extern is linked to has its name. */
  ghost predicate LinksByName(ts0: seq<Funcs>, ops: seq<LinkOp>) {
    forall m, i, n: nat, j: nat ::
      0 <= m < |ts0| && 0 <= i < |ts0[m].items| && i < |ts0[m].keys| && ts0[m].items[i].flags == FLAG_EXTERN
      && i < |ApplyAll(ts0, ops)[m].items| && PointsTo(ts0, ApplyAll(ts0, ops)[m].items[i], n, j)
      ==> ts0[n].keys[j] == ts0[m].keys[i]
  }

  /** Functions of a module lie at different addresses. */
  ghost predicate ItemsDistinct(ts0: seq<Funcs>) {
    forall n, j, k ::
      0 <= n < |ts0| && 0 <= j < |ts0[n].items| && 0 <= k < |ts0[n].items|
      && ts0[n].items[j].flags == 0 && ts0[n].items[k].flags == 0 && ts0[n].items[j].item == ts0[n].items[k].item
      ==> j == k
  }

  /** Externs are linked to functions of their own name, whatever modules are linked in whatever order, exactly when
      no module's lookup of an extern's name finds a function of another name. */
  lemma LinkedByNameIff(ts0: seq<Funcs>)
    requires FreshlyLoaded(ts0) && ItemsDistinct(ts0)
    ensures (forall ops :: LinksByName(ts0, ops)) <==> NameSafe(ts0)
  {
    if NameSafe(ts0) {
      forall ops ensures LinksByName(ts0, ops) {
        SafeLinksByName(ts0, ops);
      }
    }
    if forall ops :: LinksByName(ts0, ops) {
      forall m, i, n | 0 <= m < |ts0| && 0 <= i < |ts0[m].items| && 0 <= n < |ts0|
        ensures FindsByName(ts0, m, i, n)
      {
        assert LinksByName(ts0, [Against(m, n)]);
        OneLink(ts0, m, i, n);
      }
    }
  }

  lemma SafeLinksByName(ts0: seq<Funcs>, ops: seq<LinkOp>)
    requires FreshlyLoaded(ts0) && ItemsDistinct(ts0) && NameSafe(ts0)
    ensures LinksByName(ts0, ops)
  {
    var ts := ApplyAll(ts0, ops);
    LinkingIsSound(ts0, ops);
    forall m, i, n: nat, j: nat |
      0 <= m < |ts0| && 0 <= i < |ts0[m].items| && i < |ts0[m].keys| && ts0[m].items[i].flags == FLAG_EXTERN
      && i < |ts[m].items| && PointsTo(ts0, ts[m].items[i], n, j)
      ensures ts0[n].keys[j] == ts0[m].keys[i]
    {
      assert Sound(ts0, ts0[m].keys[i], ts0[m].items[i], ts[m].items[i]);
      assert FreshItem(ts0[m].items[i], m);
      var n', j' :| LeadsTo(ts0, ts0[m].keys[i], ts[m].items[i], n', j');
      assert n' == n && j' == j;
      assert FindsByName(ts0, m, i, n);
    }
  }

  /** Linking one module against one that provides a function finds it out. */
  lemma OneLink(ts0: seq<Funcs>, m: nat, i: nat, n: nat)
    requires FreshlyLoaded(ts0) && m < |ts0| && i < |ts0[m].items| && n < |ts0|
    requires LinksByName(ts0, [Against(m, n)])
    ensures FindsByName(ts0, m, i, n)
  {
    var op := Against(m, n);
    assert [op][..|[op]| - 1] == [] && ApplyAll(ts0, [op]) == Apply(ts0, op);
    var j := Find(ts0[n], ts0[m].keys[i]);
    if ts0[m].items[i].flags == FLAG_EXTERN && j < |ts0[n].items| && ts0[n].items[j].flags == 0 {
      assert FreshItem(ts0[n].items[j], n);
      assert PointsTo(ts0, ApplyAll(ts0, [op])[m].items[i], n, j);
    }
  }

  /** There are tables for which they do not: an extern of the one name is linked to a function of the other. */
  lemma LinkedToOtherName(entry: nat)
    requires entry > 0
    ensures var ts := [Funcs([SECOND_NAME], [Item(0, None, FLAG_EXTERN)]),
                       Funcs([FIRST_NAME], [Item(entry, Some(1), 0)])];
            && FreshlyLoaded(ts) && FIRST_NAME != SECOND_NAME
            && Apply(ts, Against(0, 1))[0].items[0] == Item(entry, Some(1), FLAG_EXTERN + FLAG_LINKED)
  {
    LookupFindsOtherName();
    var lib := Funcs([FIRST_NAME], [Item(entry, Some(1), 0)]);
    assert HashesOf(lib.keys) == [Hash(FIRST_NAME)];
  }

  /** Linked entries and functions with code never change again. */
  predicate Settled(it: Item) {
    it.flags != FLAG_NATIVE && it.flags != FLAG_EXTERN
  }

  lemma {:induction false} NativesKeepSettled(t: Funcs, natives: seq<Native>, k: nat, i: nat)
    requires k <= Offered(natives) && i < |t.items| && Settled(t.items[i])
    ensures |LinkNativesSpec(t, natives, k)| == |t.items|
    ensures LinkNativesSpec(t, natives, k)[i] == t.items[i]
    decreases k
  {
    if k > 0 {
      NativesKeepSettled(t, natives, k - 1, i);
    }
  }

  lemma {:induction false} SettledStays(ts: seq<Funcs>, ops: seq<LinkOp>, m: nat, i: nat)
    requires AllSane(ts) && m < |ts| && i < |ts[m].items| && Settled(ts[m].items[i])
    ensures var ts' := ApplyAll(ts, ops); |ts'[m].items| == |ts[m].items| && ts'[m].items[i] == ts[m].items[i]
    decreases |ops|
  {
    if ops != [] {
      SettledStays(ts, ops[..|ops| - 1], m, i);
      var mid, op := ApplyAll(ts, ops[..|ops| - 1]), ops[|ops| - 1];
      if op.Offer? && op.a == m {
        NativesKeepSettled(mid[m], op.natives, Offered(op.natives), i);
      }
    }
  }

  /** Linking against a library that provides the name settles the extern, whatever came before. */
  lemma LinkingResolves(ts: seq<Funcs>, a: nat, b: nat, i: nat)
    requires AllSane(ts) && a < |ts| && b < |ts| && i < |ts[a].items|
    requires ts[a].items[i].flags == FLAG_EXTERN
    requires var j := Find(ts[b], ts[a].keys[i]);
             j < |ts[b].items| && Provides(ts[b].items[j])
    ensures var it := Apply(ts, Against(a, b))[a].items[i];
            var p := ts[b].items[Find(ts[b], ts[a].keys[i])];
            it == Item(p.item, p.owner, FLAG_EXTERN + FLAG_LINKED) && Settled(it)
  {
  }

  /** Linking against the same library again changes nothing. */
  lemma RelinkingIsIdle(ts: seq<Funcs>, a: nat, b: nat)
    requires AllSane(ts)
    ensures var once := Apply(ts, Against(a, b)); Apply(once, Against(a, b)) == once
  {
    if a < |ts| && b < |ts| {
      var once := Apply(ts, Against(a, b));
      if a == b {
        forall i | 0 <= i < |ts[a].items|
          ensures LinkItem(once[a].keys[i], once[a].items[i], once[a]) == once[a].items[i]
        {
          SameProvided(ts[a], once[a], once[a].keys[i], once[a].items[i]);
        }
      } else {
        assert once[b] == ts[b];
      }
      assert LinkItems(once[a], once[b]) == once[a].items;
    }
  }

  /** No unlinked native is found by the name of `n`. */
  predicate Refuses(t: Funcs, n: Native)
    requires !Closing(n)
  {
    var j := Find(t, n.name.value);
    j < |t.items| ==> t.items[j].flags != FLAG_NATIVE
  }

  /** Once offered, a native is refused, and so it stays. */
  lemma {:induction false} OfferedIsRefused(t: Funcs, natives: seq<Native>, k: nat, i: nat)
    requires i < k <= Offered(natives)
    ensures Refuses(t.(items := LinkNativesSpec(t, natives, k)), natives[i])
    decreases k
  {
    if i < k - 1 {
      OfferedIsRefused(t, natives, k - 1, i);
    }
  }

  lemma {:induction false} RefusedIsIdle(t: Funcs, natives: seq<Native>, k: nat)
    requires k <= Offered(natives) && forall i :: 0 <= i < k ==> Refuses(t, natives[i])
    ensures LinkNativesSpec(t, natives, k) == t.items
    decreases k
  {
    if k > 0 {
      RefusedIsIdle(t, natives, k - 1);
      assert Refuses(t, natives[k - 1]);
    }
  }

  /** Offering the same natives again changes nothing. */
  lemma OfferingAgainIsIdle(ts: seq<Funcs>, a: nat, natives: seq<Native>)
    ensures var once := Apply(ts, Offer(a, natives)); Apply(once, Offer(a, natives)) == once
  {
    if a < |ts| {
      var once := Apply(ts, Offer(a, natives));
      forall i | 0 <= i < Offered(natives) ensures Refuses(once[a], natives[i]) {
        OfferedIsRefused(ts[a], natives, Offered(natives), i);
      }
      RefusedIsIdle(once[a], natives, Offered(natives));
    }
  }

  /** Every link operation is idempotent. */
  lemma LinkingIsIdempotent(ts: seq<Funcs>, op: LinkOp)
    requires AllSane(ts)
    ensures Apply(Apply(ts, op), op) == Apply(ts, op)
  {
    match op {
      case Against(a, b) => RelinkingIsIdle(ts, a, b);
      case Offer(a, natives) => OfferingAgainIsIdle(ts, a, natives);
    }
  }
}
