/** The eviction order of src/blobcache_file.c and what prune_to_size leaves. */
module BlobPrune {
  import opened Common
  import opened BlobIndex

  // ---- The comparator --------------------------------------------------------------------

  /** BLOBCACHE_IMPORTANT_ITEM is the lowest flag. */
  predicate Important(it: Item) { it.flags % 2 == 1 }

  function Signed32(x: U32): int { if x < 0x8000_0000 then x else x - 0x1_0000_0000 }

  /** accesstimecmp; the difference of the times is unsigned and becomes an int. */
  function Cmp(a: Item, b: Item): int {
    if Important(a) != Important(b) then
      (if Important(a) then 1 else 0) - (if Important(b) then 1 else 0)
    else Signed32((a.lastaccess - b.lastaccess) % 0x1_0000_0000)
  }

  /** The order meant: less important, then longer unused. */
  predicate RankLe(a: Item, b: Item) {
    || (!Important(a) && Important(b))
    || (Important(a) == Important(b) && a.lastaccess <= b.lastaccess)
  }

  predicate Near(a: Item, b: Item) {
    -0x8000_0000 < a.lastaccess - b.lastaccess < 0x8000_0000
  }

  predicate AllNear(items: seq<Item>) {
    forall i, j :: 0 <= i < |items| && 0 <= j < |items| ==> Near(items[i], items[j])
  }

  /** Between items of one importance the comparator is the order meant if and only if their access
      times are less than 2^31 apart. */
  lemma CmpIsRank(a: Item, b: Item)
    requires Important(a) == Important(b)
    ensures (Cmp(a, b) <= 0 <==> RankLe(a, b)) && (Cmp(b, a) <= 0 <==> RankLe(b, a))
            <==> Near(a, b)
  {
  }

  /** Within 2^31 the comparator is a total preorder. */
  lemma CmpIsPreorder(a: Item, b: Item, c: Item)
    requires Near(a, b) && Near(b, c) && Near(a, c)
    ensures (Cmp(a, b) <= 0 || Cmp(b, a) <= 0) && (Cmp(a, b) < 0 <==> Cmp(b, a) > 0)
    ensures Cmp(a, b) <= 0 && Cmp(b, c) <= 0 ==> Cmp(a, c) <= 0
    ensures Cmp(a, b) <= 0 <==> RankLe(a, b)
  {
  }

  function AccessedAt(time: U32): Item { Item(0, 0, time, 0, 0, 0, 0, 0, None) }

  /** Over a wider range it goes round in a circle. */
  lemma CmpCanCycle()
    ensures var a, b, c := AccessedAt(0), AccessedAt(0x6000_0000), AccessedAt(0xc000_0000);
            Cmp(a, b) < 0 && Cmp(b, c) < 0 && Cmp(c, a) < 0
  {
  }

  // ---- Eviction --------------------------------------------------------------------------

  /** What qsort promises: a permutation, in order where the comparator is one. */
  predicate Qsorted(items: seq<Item>, order: seq<Item>) {
    && multiset(order) == multiset(items)
    && (AllNear(items) ==> forall i, j :: 0 <= i < j < |order| ==> Cmp(order[i], order[j]) <= 0)
  }

  /** How many items the loop of prune_to_size removes. */
  function Cut(order: seq<Item>, total: int, maxsize: nat): (n: nat)
    ensures n <= |order|
    decreases |order|
  {
    if order == [] || total < maxsize then 0
    else 1 + Cut(order[1..], total - order[0].size, maxsize)
  }

  lemma {:induction false} CutIs(order: seq<Item>, total: int, maxsize: nat)
    ensures var n := Cut(order, total, maxsize);
            && (n < |order| ==> total - ChainSize(order[..n]) < maxsize)
            && forall m :: 0 <= m < n ==> total - ChainSize(order[..m]) >= maxsize
    decreases |order|
  {
    var n := Cut(order, total, maxsize);
    if order != [] && total >= maxsize {
      var rest := total - order[0].size;
      CutIs(order[1..], rest, maxsize);
      forall m | 0 < m <= |order|
        ensures ChainSize(order[..m]) == order[0].size + ChainSize(order[1..][..m - 1])
      {
        assert order[..m] == [order[0]] + order[1..][..m - 1];
      }
    }
  }

  lemma RemoveOne(b: seq<Item>, i: nat)
    requires i < |b|
    ensures multiset(Without(b, i)) == multiset(b) - multiset{b[i]}
  {
    assert b == b[..i] + [b[i]] + b[i + 1..];
    assert multiset(b) == multiset(b[..i]) + multiset{b[i]} + multiset(b[i + 1..]);
  }

  lemma {:induction false} ChainSizePermuted(a: seq<Item>, b: seq<Item>)
    requires multiset(a) == multiset(b)
    ensures ChainSize(a) == ChainSize(b)
    decreases |a|
  {
    if a == [] {
      assert |multiset(b)| == 0;
    } else {
      assert a[0] in multiset(b);
      var i :| 0 <= i < |b| && b[i] == a[0];
      RemoveOne(a, 0);
      RemoveOne(b, i);
      assert Without(a, 0) == a[1..];
      ChainSizePermuted(a[1..], Without(b, i));
      ChainSizeAt(b, i);
      ChainSizeSplit(b[..i], b[i + 1..]);
    }
  }

  lemma DistinctPermuted(a: seq<Item>, b: seq<Item>)
    requires multiset(a) == multiset(b) && DistinctKeys(a)
    ensures DistinctKeys(b)
    ensures forall it :: it in a <==> it in b
  {
    forall it
      ensures it in a <==> it in b
    {
      assert it in multiset(a) <==> it in multiset(b);
    }
    forall i, j | 0 <= i < j < |b|
      ensures b[i].key != b[j].key
    {
      if b[i].key == b[j].key {
        assert b[i] in a && b[j] in a;
        assert b[i] == b[j];
        TwiceThere(b, i, j);
        OnceThere(a, b[i]);
      }
    }
  }

  lemma TwiceThere(b: seq<Item>, i: nat, j: nat)
    requires i < j < |b| && b[i] == b[j]
    ensures multiset(b)[b[i]] >= 2
  {
    assert b == b[..j] + [b[j]] + b[j + 1..];
    assert b[i] in b[..j];
    assert multiset(b[..j])[b[i]] >= 1;
  }

  lemma OnceThere(a: seq<Item>, it: Item)
    requires DistinctKeys(a)
    ensures multiset(a)[it] <= 1
  {
    if it in a {
      var i :| 0 <= i < |a| && a[i] == it;
      assert a == a[..i] + [a[i]] + a[i + 1..];
      assert it !in a[..i] && it !in a[i + 1..];
    }
  }

  /** The index prune_to_size leaves. */
  function Pruned(t: Table, order: seq<Item>, maxsize: nat): Table {
    Refill(EmptyTable(), order[Cut(order, TotalSize(t), maxsize)..])
  }

  lemma EmptyIs()
    ensures TableOk(EmptyTable()) && TotalSize(EmptyTable()) == 0
    ensures forall k :: !Has(EmptyTable(), k)
  {
    EmptySize(EmptyTable());
  }

  lemma {:induction false} EmptySize(chains: seq<seq<Item>>)
    requires forall i :: 0 <= i < |chains| ==> chains[i] == []
    ensures SizeOf(chains) == 0
  {
    if chains != [] { EmptySize(chains[1..]); }
  }

  ghost predicate HasKey(items: seq<Item>, k: U64) {
    exists it :: it in items && it.key == k
  }

  /** `after` is what is left of `t` when the items of `gone` have been evicted. */
  ghost predicate Survives(t: Table, after: Table, gone: seq<Item>) {
    && (forall k :: Has(after, k) <==> Has(t, k) && !HasKey(gone, k))
    && (forall k :: Has(after, k) ==> At(after, k) == At(t, k))
    && (forall it :: it in gone ==> Has(t, it.key) && At(t, it.key) == it)
  }

  lemma OrderIs(t: Table, order: seq<Item>)
    requires TableOk(t) && multiset(order) == multiset(Items(t))
    ensures DistinctKeys(order) && ChainSize(order) == TotalSize(t)
    ensures forall it :: it in order <==> Has(t, it.key) && At(t, it.key) == it
  {
    ItemsAre(t);
    DistinctPermuted(Items(t), order);
    ChainSizePermuted(Items(t), order);
  }

  lemma PrunedSurvives(t: Table, order: seq<Item>, n: nat)
    requires TableOk(t) && multiset(order) == multiset(Items(t)) && n <= |order|
    ensures var after := Refill(EmptyTable(), order[n..]);
            && TableOk(after) && Survives(t, after, order[..n])
            && TotalSize(after) == TotalSize(t) - ChainSize(order[..n])
  {
    OrderIs(t, order);
    EmptyIs();
    RefillIs(EmptyTable(), order[n..]);
    assert order == order[..n] + order[n..];
    ChainSizeSplit(order[..n], order[n..]);
    var after := Refill(EmptyTable(), order[n..]);
    forall k
      ensures Has(after, k) <==> Has(t, k) && !HasKey(order[..n], k)
      ensures Has(after, k) ==> At(after, k) == At(t, k)
    {
      SurvivesAt(t, order, n, after, k);
    }
  }

  lemma SurvivesAt(t: Table, order: seq<Item>, n: nat, after: Table, k: U64)
    requires DistinctKeys(order) && n <= |order|
    requires forall it :: it in order <==> Has(t, it.key) && At(t, it.key) == it
    requires Refilled(EmptyTable(), order[n..], after) && forall k :: !Has(EmptyTable(), k)
    ensures Has(after, k) <==> Has(t, k) && !HasKey(order[..n], k)
    ensures Has(after, k) ==> At(after, k) == At(t, k)
  {
    PartsApart(order, n);
    forall it
      ensures it in order <==> it in order[..n] || it in order[n..]
    {
      assert order == order[..n] + order[n..];
    }
    assert HasKey(order[n..], k) <==> Has(after, k);
    assert Has(t, k) ==> At(t, k) in order;
  }

  lemma PartsApart(order: seq<Item>, n: nat)
    requires DistinctKeys(order) && n <= |order|
    ensures forall x, y :: x in order[..n] && y in order[n..] ==> x.key != y.key
  {
    forall x, y | x in order[..n] && y in order[n..]
      ensures x.key != y.key
    {
      var i :| 0 <= i < n && order[..n][i] == x;
      var j :| 0 <= j < |order| - n && order[n..][j] == y;
      assert order[i] == x && order[n + j] == y;
    }
  }

  /** What prune_to_size does to the index: the count is exact afterwards and below a positive
      limit, no fewer evictions would do, what is kept is unchanged, and nothing evicted ranks above
      anything kept where the comparator is an order. */
  lemma PruneIs(t: Table, order: seq<Item>, maxsize: nat)
    requires TableOk(t) && Qsorted(Items(t), order)
    ensures var n := Cut(order, TotalSize(t), maxsize);
            var after := Pruned(t, order, maxsize);
            && TableOk(after) && Survives(t, after, order[..n])
            && TotalSize(after) == TotalSize(t) - ChainSize(order[..n])
            && (maxsize > 0 ==> TotalSize(after) < maxsize)
            && (forall m :: 0 <= m < n ==> TotalSize(t) - ChainSize(order[..m]) >= maxsize)
            && (AllNear(Items(t)) ==>
                  forall i, j :: 0 <= i < n <= j < |order| ==> RankLe(order[i], order[j]))
  {
    var n := Cut(order, TotalSize(t), maxsize);
    CutIs(order, TotalSize(t), maxsize);
    PrunedSurvives(t, order, n);
    OrderIs(t, order);
    if n == |order| { assert order[..n] == order; }
    if AllNear(Items(t)) {
      OrderIsNear(t, order);
    }
  }

  lemma OrderIsNear(t: Table, order: seq<Item>)
    requires TableOk(t) && multiset(order) == multiset(Items(t)) && AllNear(Items(t))
    ensures AllNear(order)
    ensures forall i, j :: 0 <= i < |order| && 0 <= j < |order| && Cmp(order[i], order[j]) <= 0 ==>
              RankLe(order[i], order[j])
  {
    ItemsAre(t);
    DistinctPermuted(Items(t), order);
    forall i, j | 0 <= i < |order| && 0 <= j < |order|
      ensures Near(order[i], order[j])
    {
      assert order[i] in Items(t) && order[j] in Items(t);
    }
    forall i, j | 0 <= i < |order| && 0 <= j < |order| && Cmp(order[i], order[j]) <= 0
      ensures RankLe(order[i], order[j])
    {
      CmpIsPreorder(order[i], order[j], order[i]);
    }
  }
}
