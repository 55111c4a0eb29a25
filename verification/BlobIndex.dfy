/** The index of src/blobcache_file.c: 256 chains of items. */
module BlobIndex {
  import opened Common

  type Byte = i: int | 0 <= i < 256
  type U32 = i: int | 0 <= i < 0x1_0000_0000
  type U64 = i: int | 0 <= i < 0x1_0000_0000_0000_0000

  /** A blobcache_item_t. */
  datatype Item = Item(key: U64, hash: U64, lastaccess: U32, expiry: U32, modtime: U32,
                       size: U32, typeLen: Byte, flags: Byte, etag: Option<seq<Byte>>)

  /** hashvector, each chain as the sequence of its items. */
  type Table = t: seq<seq<Item>> | |t| == 256 witness seq(256, _ => [])

  function Bucket(k: U64): nat { k % 256 }

  function EmptyTable(): Table { seq(256, _ => []) }

  // ---- Chains ----------------------------------------------------------------------------

  /** Where the search for a key ends. */
  function Find(chain: seq<Item>, k: U64): (i: nat)
    ensures i <= |chain|
    ensures i < |chain| ==> chain[i].key == k
    ensures forall j :: 0 <= j < i ==> chain[j].key != k
  {
    if chain == [] || chain[0].key == k then 0 else 1 + Find(chain[1..], k)
  }

  predicate ChainOk(chain: seq<Item>, b: nat) {
    && (forall i :: 0 <= i < |chain| ==> Bucket(chain[i].key) == b)
    && (forall i, j :: 0 <= i < j < |chain| ==> chain[i].key != chain[j].key)
  }

  function ChainSize(chain: seq<Item>): nat {
    if chain == [] then 0 else chain[0].size + ChainSize(chain[1..])
  }

  lemma {:induction false} ChainSizeSplit(a: seq<Item>, b: seq<Item>)
    ensures ChainSize(a + b) == ChainSize(a) + ChainSize(b)
  {
    if a == [] {
      assert a + b == b;
    } else {
      ChainSizeSplit(a[1..], b);
      assert (a + b)[1..] == a[1..] + b;
    }
  }

  lemma ChainSizeAt(chain: seq<Item>, i: nat)
    requires i < |chain|
    ensures ChainSize(chain) == ChainSize(chain[..i]) + chain[i].size + ChainSize(chain[i + 1..])
  {
    assert chain == chain[..i] + chain[i..];
    ChainSizeSplit(chain[..i], chain[i..]);
  }

  // ---- The table -------------------------------------------------------------------------

  /** Every item is in the bucket of its key, and no key is there twice. */
  predicate TableOk(t: Table) {
    forall b :: 0 <= b < 256 ==> ChainOk(t[b], b)
  }

  function Has(t: Table, k: U64): bool { Find(t[Bucket(k)], k) < |t[Bucket(k)]| }

  function At(t: Table, k: U64): (it: Item)
    requires Has(t, k)
    ensures it.key == k
  {
    t[Bucket(k)][Find(t[Bucket(k)], k)]
  }

  /** The item of this key becomes `it`; a new item is put in front of its chain. */
  function Put(t: Table, it: Item): Table {
    var chain := t[Bucket(it.key)];
    var i := Find(chain, it.key);
    t[Bucket(it.key) := if i < |chain| then chain[i := it] else [it] + chain]
  }

  function Without(chain: seq<Item>, i: nat): (r: seq<Item>)
    requires i < |chain|
    ensures |r| == |chain| - 1
    ensures forall j :: 0 <= j < |r| ==> r[j] == chain[if j < i then j else j + 1]
  {
    chain[..i] + chain[i + 1..]
  }

  /** Unlinks the item of this key. */
  function Drop(t: Table, k: U64): Table
    requires Has(t, k)
  {
    var chain := t[Bucket(k)];
    var i := Find(chain, k);
    t[Bucket(k) := Without(chain, i)]
  }

  function SizeOf(chains: seq<seq<Item>>): nat {
    if chains == [] then 0 else ChainSize(chains[0]) + SizeOf(chains[1..])
  }

  /** The sum of the sizes of all items. */
  function TotalSize(t: Table): nat { SizeOf(t) }

  lemma FindAfter(chain: seq<Item>, b: nat, k: U64, i: nat)
    requires ChainOk(chain, b) && i < |chain| && chain[i].key == k
    ensures Find(chain, k) == i
  {
  }

  lemma NotFound(chain: seq<Item>, k: U64)
    requires forall i :: 0 <= i < |chain| ==> chain[i].key != k
    ensures Find(chain, k) == |chain|
  {
  }

  /** What `After` has at every key other than `k` is what `t` has. */
  ghost predicate SameElsewhere(t: Table, after: Table, k: U64) {
    forall k' :: k' != k ==>
      Has(after, k') == Has(t, k') && (Has(t, k') ==> At(after, k') == At(t, k'))
  }

  lemma SameFind(a: seq<Item>, b: seq<Item>, n: nat, k: U64)
    requires ChainOk(a, n) && ChainOk(b, n)
    requires forall i :: 0 <= i < |a| && a[i].key == k ==> a[i] in b
    requires forall i :: 0 <= i < |b| && b[i].key == k ==> b[i] in a
    ensures Find(a, k) < |a| <==> Find(b, k) < |b|
    ensures Find(a, k) < |a| ==> a[Find(a, k)] == b[Find(b, k)]
  {
    if Find(a, k) < |a| {
      var i := Find(a, k);
      var j :| 0 <= j < |b| && b[j] == a[i];
      FindAfter(b, n, k, j);
    }
  }

  /** Apart from the item of key `k` the chains have the same items. */
  predicate SameBut(a: seq<Item>, b: seq<Item>, k: U64) {
    && (forall i :: 0 <= i < |a| && a[i].key != k ==> a[i] in b)
    && (forall i :: 0 <= i < |b| && b[i].key != k ==> b[i] in a)
  }

  lemma SameAt(t: Table, b: nat, after: seq<Item>, k: U64, k': U64)
    requires TableOk(t) && b < 256 && ChainOk(after, b) && SameBut(t[b], after, k) && k' != k
    ensures var t': Table := t[b := after];
            Has(t', k') == Has(t, k') && (Has(t, k') ==> At(t', k') == At(t, k'))
  {
    if Bucket(k') == b { SameFind(t[b], after, b, k'); }
  }

  /** Replacing one chain by one that differs at one key only. */
  lemma ChainReplaced(t: Table, b: nat, after: seq<Item>, k: U64)
    requires TableOk(t) && b < 256 && ChainOk(after, b) && SameBut(t[b], after, k)
    ensures TableOk(t[b := after]) && SameElsewhere(t, t[b := after], k)
    ensures TotalSize(t[b := after]) == TotalSize(t) + ChainSize(after) - ChainSize(t[b])
  {
    SizeAfter(t, t[b := after], b);
    forall k' | k' != k
      ensures Has(t[b := after], k') == Has(t, k')
      ensures Has(t, k') ==> At(t[b := after], k') == At(t, k')
    {
      SameAt(t, b, after, k, k');
    }
  }

  lemma PutIs(t: Table, it: Item)
    requires TableOk(t)
    ensures TableOk(Put(t, it)) && Has(Put(t, it), it.key) && At(Put(t, it), it.key) == it
    ensures SameElsewhere(t, Put(t, it), it.key)
    ensures TotalSize(Put(t, it))
            == TotalSize(t) + it.size - (if Has(t, it.key) then At(t, it.key).size else 0)
  {
    var b := Bucket(it.key);
    PutChain(t[b], b, it);
    ChainReplaced(t, b, Put(t, it)[b], it.key);
  }

  lemma PutChain(chain: seq<Item>, b: nat, it: Item)
    requires ChainOk(chain, b) && Bucket(it.key) == b
    ensures var i := Find(chain, it.key);
            var after := if i < |chain| then chain[i := it] else [it] + chain;
            && ChainOk(after, b) && Find(after, it.key) == (if i < |chain| then i else 0)
            && SameBut(chain, after, it.key)
            && ChainSize(after) == ChainSize(chain) + it.size
                                   - (if i < |chain| then chain[i].size else 0)
  {
    var i := Find(chain, it.key);
    if i < |chain| {
      var after := chain[i := it];
      FindAfter(after, b, it.key, i);
      ChainSizeAt(chain, i);
      ChainSizeAt(after, i);
      assert after[..i] == chain[..i] && after[i + 1..] == chain[i + 1..];
      forall j | 0 <= j < |chain| && chain[j].key != it.key
        ensures chain[j] in after
      {
        assert after[j] == chain[j];
      }
    } else {
      var after := [it] + chain;
      assert after[1..] == chain;
      forall j | 0 <= j < |chain|
        ensures chain[j] in after
      {
        assert after[j + 1] == chain[j];
      }
    }
  }

  lemma DropIs(t: Table, k: U64)
    requires TableOk(t) && Has(t, k)
    ensures TableOk(Drop(t, k)) && !Has(Drop(t, k), k) && SameElsewhere(t, Drop(t, k), k)
    ensures TotalSize(Drop(t, k)) == TotalSize(t) - At(t, k).size
  {
    var b := Bucket(k);
    DropChain(t[b], b, k);
    ChainReplaced(t, b, Drop(t, k)[b], k);
  }

  lemma WithoutOk(chain: seq<Item>, b: nat, i: nat)
    requires ChainOk(chain, b) && i < |chain|
    ensures ChainOk(Without(chain, i), b)
    ensures Find(Without(chain, i), chain[i].key) == |chain| - 1
    ensures ChainSize(Without(chain, i)) == ChainSize(chain) - chain[i].size
  {
    NotFound(Without(chain, i), chain[i].key);
    ChainSizeAt(chain, i);
    ChainSizeSplit(chain[..i], chain[i + 1..]);
  }

  lemma DropChain(chain: seq<Item>, b: nat, k: U64)
    requires ChainOk(chain, b) && Find(chain, k) < |chain|
    ensures var i := Find(chain, k);
            var after := Without(chain, i);
            && ChainOk(after, b) && Find(after, k) == |after|
            && SameBut(chain, after, k)
            && ChainSize(after) == ChainSize(chain) - chain[i].size
  {
    WithoutOk(chain, b, Find(chain, k));
    DropSame(chain, k, Find(chain, k));
  }

  lemma DropSame(chain: seq<Item>, k: U64, i: nat)
    requires i < |chain| && chain[i].key == k
    ensures SameBut(chain, Without(chain, i), k)
  {
    var after := Without(chain, i);
    forall j | 0 <= j < |chain| && chain[j].key != k
      ensures chain[j] in after
    {
      assert after[if j < i then j else j - 1] == chain[j];
    }
  }

  lemma {:induction false} SizeAfter(t: seq<seq<Item>>, after: seq<seq<Item>>, b: nat)
    requires b < |t| == |after|
    requires forall i :: 0 <= i < |t| && i != b ==> after[i] == t[i]
    ensures SizeOf(after) == SizeOf(t) + ChainSize(after[b]) - ChainSize(t[b])
  {
    if b == 0 {
      assert after[1..] == t[1..];
    } else {
      SizeAfter(t[1..], after[1..], b - 1);
    }
  }

  // ---- All items in one sequence ---------------------------------------------------------

  function Flat(chains: seq<seq<Item>>): seq<Item> {
    if chains == [] then [] else chains[0] + Flat(chains[1..])
  }

  function Items(t: Table): seq<Item> { Flat(t) }

  lemma {:induction false} FlatAppend(chains: seq<seq<Item>>, chain: seq<Item>)
    ensures Flat(chains + [chain]) == Flat(chains) + chain
  {
    if chains == [] {
      assert Flat([chain]) == chain + Flat([]);
    } else {
      FlatAppend(chains[1..], chain);
      assert (chains + [chain])[1..] == chains[1..] + [chain];
    }
  }

  predicate DistinctKeys(items: seq<Item>) {
    forall i, j :: 0 <= i < j < |items| ==> items[i].key != items[j].key
  }

  /** Some chain has the item. */
  predicate InSome(chains: seq<seq<Item>>, it: Item) {
    exists i :: 0 <= i < |chains| && it in chains[i]
  }

  lemma InSomeTail(chains: seq<seq<Item>>, it: Item)
    requires chains != []
    ensures InSome(chains, it) <==> it in chains[0] || InSome(chains[1..], it)
  {
    if InSome(chains[1..], it) {
      var i :| 0 <= i < |chains[1..]| && it in chains[1..][i];
      assert it in chains[i + 1];
    }
    if InSome(chains, it) && it !in chains[0] {
      var i :| 0 <= i < |chains| && it in chains[i];
      assert it in chains[1..][i - 1];
    }
  }

  lemma {:induction false} FlatIs(chains: seq<seq<Item>>, b: nat)
    requires forall i :: 0 <= i < |chains| ==> ChainOk(chains[i], b + i)
    ensures DistinctKeys(Flat(chains)) && ChainSize(Flat(chains)) == SizeOf(chains)
    ensures forall it :: it in Flat(chains) <==> InSome(chains, it)
    ensures forall it :: it in Flat(chains) ==> Bucket(it.key) >= b
    decreases |chains|
  {
    if chains != [] {
      var rest := chains[1..];
      forall i | 0 <= i < |rest|
        ensures ChainOk(rest[i], b + 1 + i)
      {
        assert rest[i] == chains[i + 1];
      }
      FlatIs(rest, b + 1);
      ChainSizeSplit(chains[0], Flat(rest));
      assert ChainOk(chains[0], b + 0);
      DistinctJoin(chains[0], Flat(rest), b);
      forall it
        ensures it in Flat(chains) <==> InSome(chains, it)
      {
        InSomeTail(chains, it);
      }
    }
  }

  lemma DistinctJoin(chain: seq<Item>, rest: seq<Item>, b: nat)
    requires ChainOk(chain, b) && DistinctKeys(rest)
    requires forall it :: it in rest ==> Bucket(it.key) >= b + 1
    ensures DistinctKeys(chain + rest)
    ensures forall it :: it in chain + rest ==> Bucket(it.key) >= b
  {
    forall i, j | 0 <= i < j < |chain + rest|
      ensures (chain + rest)[i].key != (chain + rest)[j].key
    {
      if i < |chain| <= j {
        assert rest[j - |chain|] in rest;
      }
    }
  }

  lemma ItemsAre(t: Table)
    requires TableOk(t)
    ensures DistinctKeys(Items(t)) && ChainSize(Items(t)) == TotalSize(t)
    ensures forall it :: it in Items(t) <==> Has(t, it.key) && At(t, it.key) == it
  {
    FlatIs(t, 0);
    forall it
      ensures InSome(t, it) <==> Has(t, it.key) && At(t, it.key) == it
    {
      if InSome(t, it) {
        var b :| 0 <= b < |t| && it in t[b];
        var i :| 0 <= i < |t[b]| && t[b][i] == it;
        FindAfter(t[b], b, it.key, i);
      }
    }
  }

  /** Puts items in front of their chains, one after the other. */
  function Refill(t: Table, items: seq<Item>): Table
    decreases |items|
  {
    if items == [] then t
    else
      var b := Bucket(items[0].key);
      Refill(t[b := [items[0]] + t[b]], items[1..])
  }

  /** The items of `t` are those of `t0` and those of `items`. */
  ghost predicate Refilled(t0: Table, items: seq<Item>, t: Table) {
    && (forall k :: Has(t, k) ==> Has(t0, k) || exists it :: it in items && it.key == k)
    && (forall k :: Has(t0, k) ==> Has(t, k) && At(t, k) == At(t0, k))
    && (forall it :: it in items ==> Has(t, it.key) && At(t, it.key) == it)
  }

  lemma RefilledOne(t0: Table, it: Item, items: seq<Item>, t: Table)
    requires TableOk(t0) && !Has(t0, it.key) && Refilled(Put(t0, it), items, t)
    ensures Refilled(t0, [it] + items, t)
  {
    PutIs(t0, it);
    forall k | Has(t, k) && !Has(t0, k)
      ensures exists x :: x in [it] + items && x.key == k
    {
      if k == it.key {
        assert it in [it] + items;
      } else {
        var x :| x in items && x.key == k;
        assert x in [it] + items;
      }
    }
  }

  lemma {:induction false} RefillIs(t: Table, items: seq<Item>)
    requires TableOk(t) && DistinctKeys(items)
    requires forall it :: it in items ==> !Has(t, it.key)
    ensures TableOk(Refill(t, items)) && Refilled(t, items, Refill(t, items))
    ensures TotalSize(Refill(t, items)) == TotalSize(t) + ChainSize(items)
    decreases |items|
  {
    if items != [] {
      var it := items[0];
      assert it in items;
      PutIs(t, it);
      assert Put(t, it) == t[Bucket(it.key) := [it] + t[Bucket(it.key)]];
      forall x | x in items[1..]
        ensures !Has(Put(t, it), x.key)
      {
        var i :| 0 <= i < |items[1..]| && items[1..][i] == x;
        assert items[i + 1] == x;
      }
      RefillIs(Put(t, it), items[1..]);
      RefilledOne(t, it, items[1..], Refill(t, items));
      assert items == [it] + items[1..];
    }
  }
}
