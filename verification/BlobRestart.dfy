/** What src/blobcache_file.c finds again after it has stopped and been started anew: the index that
    the thread saves on its way out, and the files that have been written by then. */
module BlobRestart {
  import opened Common
  import opened BlobIndex
  import opened BlobPrune
  import opened BlobCache
  import opened BlobFile

  // ---- Tags ------------------------------------------------------------------------------

  ghost predicate TagsFit(t: Table) {
    forall k :: Has(t, k) ==> TagOk(At(t, k))
  }

  lemma TagsFitIsTagsOk(t: Table)
    requires TableOk(t)
    ensures TagsFit(t) <==> TagsOk(t)
  {
    if TagsFit(t) {
      forall b, i | 0 <= b < 256 && 0 <= i < |t[b]|
        ensures TagOk(t[b][i])
      {
        assert ChainOk(t[b], b);
        FindAfter(t[b], b, t[b][i].key, i);
        assert Has(t, t[b][i].key);
      }
    }
  }

  ghost predicate GoodTags(t: Table) { TableOk(t) && TagsFit(t) }

  lemma TagsAfterPut(t: Table, it: Item)
    requires GoodTags(t) && TagOk(it)
    ensures GoodTags(Put(t, it))
  {
    PutIs(t, it);
  }

  lemma TagsAfterDrop(t: Table, k: U64)
    requires GoodTags(t) && Has(t, k)
    ensures GoodTags(Drop(t, k))
  {
    DropIs(t, k);
  }

  lemma TagsAfterGet(s: Cache, k: U64, ignoreExpiry: bool, now: U32)
    requires GoodTags(s.table)
    ensures GoodTags(AfterGet(s, k, ignoreExpiry, now).0.table)
  {
    if s.mode != Stopping && Has(s.table, k) {
      GetShape(s, k, ignoreExpiry, now);
      TagsAfterDrop(s.table, k);
      TagsAfterPut(s.table, At(s.table, k).(lastaccess := now));
    }
  }

  /** Where the tags given to blobcache_put are C strings, every step keeps the tags of the index
      such that it can be saved and loaded. */
  lemma StepKeepsTags(h: Digest, s: Cache, step: Step)
    requires GoodTags(s.table) && Enabled(s, step)
    requires step.PutStep? && step.meta.etag.Some? ==> 0 !in step.meta.etag.value
    ensures GoodTags(Next(h, s, step).0.table)
  {
    match step
    case PutStep(k, b, meta, now) =>
      TagsAfterPut(s.table, FreshItem(h, k, b, meta, now));
      if Has(s.table, k) { TagsAfterPut(s.table, Renewed(At(s.table, k), meta, now)); }
    case GetStep(k, ignoreExpiry, now) => TagsAfterGet(s, k, ignoreExpiry, now);
    case Clear => EmptyIs();
    case Finish(maxsize, order) => PruneIs(s.table, order, maxsize);
    case _ =>
  }

  /** The tags that the steps of a run are given are C strings. */
  predicate PlainTags(steps: seq<Step>) {
    forall i :: 0 <= i < |steps| && steps[i].PutStep? && steps[i].meta.etag.Some? ==>
      0 !in steps[i].meta.etag.value
  }

  lemma {:induction false} RunKeepsTags(h: Digest, s: Cache, steps: seq<Step>)
    requires GoodTags(s.table) && Feasible(h, s, steps) && PlainTags(steps)
    ensures GoodTags(StateAt(h, s, steps, |steps|).table)
    decreases |steps|
  {
    if steps != [] {
      StepKeepsTags(h, s, steps[0]);
      assert steps[1..] == steps[1..][..|steps| - 1];
      RunKeepsTags(h, Next(h, s, steps[0]).0, steps[1..]);
    }
  }

  /** After every run, what save_index writes is what load_index reads, and it gives the index that
      Reloaded describes. */
  lemma IndexSurvives(h: Digest, sha: Sha, mode: Mode, disk: map<U64, seq<Byte>>,
                      steps: seq<Step>, now: U32)
    requires Feasible(h, Start(mode, disk), steps) && PlainTags(steps)
    requires |Items(StateAt(h, Start(mode, disk), steps, |steps|).table)| < 0x8000_0000
    ensures var t := StateAt(h, Start(mode, disk), steps, |steps|).table;
            && Load(sha, IndexFile(sha, t, now)) == Loaded(Normals(Items(t)))
            && Refill(EmptyTable(), Normals(Items(t))) == Reloaded(t)
  {
    EmptyIs();
    RunKeepsTags(h, Start(mode, disk), steps);
    var t := StateAt(h, Start(mode, disk), steps, |steps|).table;
    TagsFitIsTagsOk(t);
    LoadReverses(sha, t, now);
  }

  // ---- The cache after a restart ---------------------------------------------------------

  /** load_index in a cache that is started where `s` has stopped.  Buffers that were still queued
      are gone. */
  function JustLoaded(s: Cache, mode: Mode): Cache {
    Cache(Reloaded(s.table), TotalSize(Reloaded(s.table)), [], s.disk, mode, Waiting)
  }

  /** prune_stale: the files of keys that are not indexed are unlinked. */
  function WithoutStale(s: Cache): Cache {
    s.(disk := map k | k in s.disk && Has(s.table, k) :: s.disk[k])
  }

  /** blobcache_init: load_index, prune_stale and prune_to_size. */
  function Reopened(s: Cache, mode: Mode, maxsize: nat, order: seq<Item>): Cache {
    AfterPrune(WithoutStale(JustLoaded(s, mode)), maxsize, order)
  }

  function NormalEntry(e: Entry): Entry { if e.etag == Some([]) then e.(etag := None) else e }

  function NormalMap(m: Map): Map { map k | k in m :: NormalEntry(m[k]) }

  lemma ReloadedChainOk(t: Table, b: nat)
    requires TableOk(t) && b < 256
    ensures ChainOk(Reloaded(t)[b], b)
  {
    assert ChainOk(t[b], b);
  }

  lemma {:induction false} InReversed(s: seq<Item>)
    ensures forall it :: it in Reversed(s) <==> it in s
  {
    if s != [] { InReversed(s[1..]); }
  }

  lemma {:induction false} FindNormal(chain: seq<Item>, k: U64)
    ensures Find(Normals(chain), k) == Find(chain, k)
  {
    if chain != [] { FindNormal(chain[1..], k); }
  }

  lemma ReloadedIs(t: Table, b: nat)
    requires b < 256
    ensures Reloaded(t)[b] == Reversed(Normals(t[b]))
  {
  }

  lemma FindReloaded(chain: seq<Item>, b: nat, k: U64)
    requires ChainOk(Normals(chain), b) && ChainOk(Reversed(Normals(chain)), b)
    ensures var after := Reversed(Normals(chain));
            && (Find(after, k) < |after| <==> Find(chain, k) < |chain|)
            && (Find(chain, k) < |chain| ==>
                  after[Find(after, k)] == Normal(chain[Find(chain, k)]))
  {
    FindNormal(chain, k);
    InReversed(Normals(chain));
    SameFind(Normals(chain), Reversed(Normals(chain)), b, k);
  }

  /** A loaded index has the items it had, but for empty tags. */
  lemma ReloadedAt(t: Table, k: U64)
    requires TableOk(t)
    ensures Has(Reloaded(t), k) <==> Has(t, k)
    ensures Has(t, k) ==> At(Reloaded(t), k) == Normal(At(t, k))
  {
    var b := Bucket(k);
    ReloadedIs(t, b);
    ReloadedChainOk(t, b);
    NormalTableOk(t);
    assert ChainOk(NormalTable(t)[b], b);
    FindReloaded(t[b], b, k);
  }

  lemma ReloadedIndexOk(h: Digest, t: Table, m: Map)
    requires IndexOk(h, t, m)
    ensures IndexOk(h, Reloaded(t), NormalMap(m))
  {
    forall b | 0 <= b < 256
      ensures ChainOk(Reloaded(t)[b], b)
    {
      ReloadedChainOk(t, b);
    }
    forall k
      ensures Has(Reloaded(t), k) <==> k in NormalMap(m)
      ensures k in m ==> Describes(h, At(Reloaded(t), k), NormalMap(m)[k])
    {
      ReloadedAt(t, k);
      assert k in m ==> Describes(h, At(t, k), m[k]);
    }
  }

  lemma {:induction false} NormalsSize(items: seq<Item>)
    ensures ChainSize(Normals(items)) == ChainSize(items)
  {
    if items != [] { NormalsSize(items[1..]); }
  }

  lemma {:induction false} ReversedSize(items: seq<Item>)
    ensures ChainSize(Reversed(items)) == ChainSize(items)
  {
    if items != [] {
      ReversedSize(items[1..]);
      ChainSizeSplit(Reversed(items[1..]), [items[0]]);
      assert [items[0]][1..] == [];
    }
  }

  lemma {:induction false} SameSizes(t: seq<seq<Item>>, u: seq<seq<Item>>)
    requires |t| == |u| && forall b :: 0 <= b < |t| ==> ChainSize(t[b]) == ChainSize(u[b])
    ensures SizeOf(t) == SizeOf(u)
  {
    if t != [] { SameSizes(t[1..], u[1..]); }
  }

  lemma ReloadedSize(t: Table)
    ensures TotalSize(Reloaded(t)) == TotalSize(t)
  {
    forall b | 0 <= b < 256
      ensures ChainSize(Reloaded(t)[b]) == ChainSize(t[b])
    {
      NormalsSize(t[b]);
      ReversedSize(Normals(t[b]));
    }
    SameSizes(Reloaded(t), t);
  }

  /** Nothing is queued for the key, or its file has been written from what is queued last. */
  predicate OnDisk(s: Cache, k: U64) {
    match Newest(s.queue, k)
    case Some(b) => k in s.disk && s.disk[k] == FileOf(b)
    case None => true
  }

  /** What the index is after a restart, and which files are left. */
  lemma ReopenedIs(h: Digest, s: Cache, m: Map, mode: Mode, maxsize: nat, order: seq<Item>)
    requires IndexOk(h, s.table, m) && Qsorted(Items(Reloaded(s.table)), order)
    ensures var t := Reopened(s, mode, maxsize, order);
            && IndexOk(h, t.table, Surviving(NormalMap(m), t.table))
            && t.size == TotalSize(t.table) && t.queue == [] && t.writer == Waiting
            && forall k :: k in t.disk <==> k in s.disk && Has(t.table, k)
    ensures var t := Reopened(s, mode, maxsize, order);
            forall k :: k in t.disk ==> t.disk[k] == s.disk[k]
  {
    ReloadedIndexOk(h, s.table, m);
    PruneIs(Reloaded(s.table), order, maxsize);
    var t := Reopened(s, mode, maxsize, order);
    forall k | Has(t.table, k)
      ensures k in NormalMap(m) && Describes(h, At(t.table, k), NormalMap(m)[k])
    {
      assert Has(Reloaded(s.table), k);
    }
  }

  lemma SurvivorStored(h: Digest, s: Cache, m: Map, mode: Mode, maxsize: nat, order: seq<Item>,
                       k: U64)
    requires Refines(h, s, m) && Qsorted(Items(Reloaded(s.table)), order)
    requires Has(Reopened(s, mode, maxsize, order).table, k) && k in m
    ensures Stored([], Reopened(s, mode, maxsize, order).disk, k, NormalMap(m)[k].buf)
            <==> OnDisk(s, k)
  {
    ReopenedIs(h, s, m, mode, maxsize, order);
    assert Stored(s.queue, s.disk, k, m[k].buf);
  }

  /** A restart stands for what survives the eviction of the map of before, but for empty tags, if
      and only if no surviving key has a queued buffer that its file has not got. */
  lemma RestartRefinesIff(h: Digest, s: Cache, m: Map, mode: Mode, maxsize: nat,
                          order: seq<Item>)
    requires Refines(h, s, m) && Qsorted(Items(Reloaded(s.table)), order)
    ensures var t := Reopened(s, mode, maxsize, order);
            Refines(h, t, Surviving(NormalMap(m), t.table))
            <==> forall k :: Has(t.table, k) ==> OnDisk(s, k)
  {
    ReopenedIs(h, s, m, mode, maxsize, order);
    var t := Reopened(s, mode, maxsize, order);
    var kept := Surviving(NormalMap(m), t.table);
    forall k | Has(t.table, k)
      ensures k in kept && (Stored([], t.disk, k, kept[k].buf) <==> OnDisk(s, k))
    {
      assert k in kept;
      SurvivorStored(h, s, m, mode, maxsize, order, k);
    }
  }

  /** It evicts nothing if and only if there is nothing, or the sizes of all items are below the
      limit together. */
  lemma NothingEvictedIff(s: Cache, mode: Mode, maxsize: nat, order: seq<Item>)
    requires TableOk(s.table) && Qsorted(Items(Reloaded(s.table)), order)
    ensures (forall k :: Has(s.table, k) ==> Has(Reopened(s, mode, maxsize, order).table, k))
            <==> (forall k :: !Has(s.table, k)) || TotalSize(s.table) < maxsize
  {
    var u := Reloaded(s.table);
    ReloadedOk(s.table);
    ReloadedSize(s.table);
    PruneIs(u, order, maxsize);
    AllKeptIff(u, order, maxsize);
    forall k
      ensures Has(u, k) <==> Has(s.table, k)
    {
      ReloadedAt(s.table, k);
    }
  }

  lemma AllKeptIff(t: Table, order: seq<Item>, maxsize: nat)
    requires TableOk(t) && Qsorted(Items(t), order)
    ensures (forall k :: Has(t, k) ==> Has(Pruned(t, order, maxsize), k))
            <==> (forall k :: !Has(t, k)) || TotalSize(t) < maxsize
  {
    PruneIs(t, order, maxsize);
    OrderIs(t, order);
    if order != [] && TotalSize(t) >= maxsize {
      assert order[0] in order[..Cut(order, TotalSize(t), maxsize)];
      assert Has(t, order[0].key);
    }
  }

  lemma ReloadedOk(t: Table)
    requires TableOk(t)
    ensures TableOk(Reloaded(t))
  {
    forall b | 0 <= b < 256
      ensures ChainOk(Reloaded(t)[b], b)
    {
      ReloadedChainOk(t, b);
    }
  }

  /** It stands for the whole map if and only if it evicts nothing and no key has a queued buffer
      that its file has not got. */
  lemma WholeMapIff(h: Digest, s: Cache, m: Map, mode: Mode, maxsize: nat, order: seq<Item>)
    requires Refines(h, s, m) && Qsorted(Items(Reloaded(s.table)), order)
    ensures Refines(h, Reopened(s, mode, maxsize, order), NormalMap(m))
            <==> (m == map[] || TotalSize(s.table) < maxsize) && forall k :: k in m ==> OnDisk(s, k)
  {
    var t := Reopened(s, mode, maxsize, order);
    ReopenedIs(h, s, m, mode, maxsize, order);
    RestartRefinesIff(h, s, m, mode, maxsize, order);
    NothingEvictedIff(s, mode, maxsize, order);
    WholeMapKeys(s.table, m, t.table);
    EmptyMapIff(s.table, m);
  }

  lemma EmptyMapIff(t: Table, m: Map)
    requires forall k :: Has(t, k) <==> k in m
    ensures m == map[] <==> forall k :: !Has(t, k)
  {
    if m != map[] {
      var k :| k in m;
      assert Has(t, k);
    }
  }

  lemma WholeMapKeys(before: Table, m: Map, kept: Table)
    requires forall k :: Has(before, k) <==> k in m
    requires forall k :: Has(kept, k) ==> Has(before, k)
    ensures Surviving(NormalMap(m), kept) == NormalMap(m)
            <==> forall k :: Has(before, k) ==> Has(kept, k)
    ensures (forall k :: Has(kept, k) <==> k in NormalMap(m))
            <==> forall k :: Has(before, k) ==> Has(kept, k)
  {
    if forall k :: Has(before, k) ==> Has(kept, k) {
      assert Surviving(NormalMap(m), kept) == NormalMap(m);
    } else {
      var k :| Has(before, k) && !Has(kept, k);
      assert k in NormalMap(m) && k !in Surviving(NormalMap(m), kept);
    }
  }

  /** A content that is still queued is lost: after the content of a key, which is on disk, has
      been replaced by another one of the same length, and the cache stops at once, the next start
      answers with the old bytes under the new tag, if and only if it does not evict the key. */
  lemma StaleAfterRestart(h: Digest, s: Cache, m: Map, k: U64, b: Buf, meta: Meta, now: U32,
                          later: U32, maxsize: nat, order: seq<Item>)
    requires Refines(h, s, m) && s.mode == Running && s.queue == [] && k in m && Fits(m[k].buf)
    requires |b.data| == |m[k].buf.data| && |b.ctype| == |m[k].buf.ctype|
    requires h(b.data) != h(m[k].buf.data)
    requires Qsorted(Items(Reloaded(AfterPut(h, s, k, b, meta, now).table)), order)
    ensures var steps := [PutStep(k, b, meta, now), Stop];
            && Feasible(h, s, steps)
            && var t := StateAt(h, s, steps, 2);
            && Newest(t.queue, k) == Some(b)
            && var u := Reopened(t, Running, maxsize, order);
            && var answer := AfterGet(u, k, true, later).1;
            && (answer.Hit? <==> Has(u.table, k))
            && (TotalSize(t.table) < maxsize ==> answer.Hit?)
            && (answer.Hit? ==> answer.buf == m[k].buf && answer.buf.data != b.data
                                && answer.etag == NormalTag(ShortTag(meta.etag)))
  {
    var t := AfterPut(h, s, k, b, meta, now).(mode := Stopping);
    TwoSteps(h, s, PutStep(k, b, meta, now), Stop, t);
    StaleAnswer(h, s, m, k, b, meta, now, later, maxsize, order);
    NothingEvictedIff(t, Running, maxsize, order);
  }

  lemma StaleAnswer(h: Digest, s: Cache, m: Map, k: U64, b: Buf, meta: Meta, now: U32,
                    later: U32, maxsize: nat, order: seq<Item>)
    requires Refines(h, s, m) && s.mode == Running && s.queue == [] && k in m && Fits(m[k].buf)
    requires |b.data| == |m[k].buf.data| && |b.ctype| == |m[k].buf.ctype|
    requires h(b.data) != h(m[k].buf.data)
    requires Qsorted(Items(Reloaded(AfterPut(h, s, k, b, meta, now).table)), order)
    ensures var t := AfterPut(h, s, k, b, meta, now).(mode := Stopping);
            && TableOk(t.table) && Has(t.table, k) && Newest(t.queue, k) == Some(b)
            && var u := Reopened(t, Running, maxsize, order);
            && var answer := AfterGet(u, k, true, later).1;
            && (answer.Hit? <==> Has(u.table, k))
            && (answer.Hit? ==> answer.buf == m[k].buf
                                && answer.etag == NormalTag(ShortTag(meta.etag)))
  {
    var t := AfterPut(h, s, k, b, meta, now);
    QueuedPut(h, s, m, k, b, meta, now);
    FreshLengths(h, k, b, meta, now);
    OldFileIsRead(t.(mode := Stopping), m[k].buf, FreshItem(h, k, b, meta, now), later, maxsize,
                  order);
  }

  lemma FreshLengths(h: Digest, k: U64, b: Buf, meta: Meta, now: U32)
    requires Fits(b)
    ensures var it := FreshItem(h, k, b, meta, now);
            && it.key == k && it.size == |b.data| && it.typeLen == |b.ctype|
            && it.etag == ShortTag(meta.etag)
  {
  }

  lemma TwoSteps(h: Digest, s: Cache, a: Step, b: Step, t: Cache)
    requires Enabled(s, a) && Enabled(Next(h, s, a).0, b) && Next(h, Next(h, s, a).0, b).0 == t
    ensures Feasible(h, s, [a, b]) && StateAt(h, s, [a, b], 2) == t
  {
    var steps := [a, b];
    var u := Next(h, s, a).0;
    assert steps[1..] == [b];
    OneStep(h, u, b, t);
  }

  lemma OneStep(h: Digest, s: Cache, a: Step, t: Cache)
    requires Enabled(s, a) && Next(h, s, a).0 == t
    ensures Feasible(h, s, [a]) && StateAt(h, s, [a], 1) == t
  {
    assert [a][1..] == [];
  }

  function NormalTag(etag: Option<seq<Byte>>): Option<seq<Byte>> {
    if etag == Some([]) then None else etag
  }

  lemma QueuedPut(h: Digest, s: Cache, m: Map, k: U64, b: Buf, meta: Meta, now: U32)
    requires Refines(h, s, m) && s.mode == Running && s.queue == [] && k in m
    requires h(b.data) != h(m[k].buf.data)
    ensures var t := AfterPut(h, s, k, b, meta, now);
            && TableOk(t.table) && Has(t.table, k)
            && At(t.table, k) == FreshItem(h, k, b, meta, now)
            && t.queue == [Flush(k, b)] && t.disk == s.disk
            && k in s.disk && s.disk[k] == FileOf(m[k].buf)
  {
    assert Describes(h, At(s.table, k), m[k]);
    PutIs(s.table, FreshItem(h, k, b, meta, now));
    DrainedIsOnDisk(h, s, m, k);
  }

  /** What is left of an item and its file after a restart. */
  lemma ReopenedAt(s: Cache, k: U64, maxsize: nat, order: seq<Item>)
    requires TableOk(s.table) && Has(s.table, k) && k in s.disk
    requires Qsorted(Items(Reloaded(s.table)), order)
    ensures var u := Reopened(s, Running, maxsize, order);
            Has(u.table, k) ==>
              && At(u.table, k) == Normal(At(s.table, k)) && u.queue == []
              && k in u.disk && u.disk[k] == s.disk[k]
  {
    ReloadedOk(s.table);
    ReloadedAt(s.table, k);
    PruneIs(Reloaded(s.table), order, maxsize);
  }

  lemma OldFileIsRead(s: Cache, was: Buf, it: Item, now: U32, maxsize: nat, order: seq<Item>)
    requires TableOk(s.table) && Has(s.table, it.key) && At(s.table, it.key) == it
    requires Qsorted(Items(Reloaded(s.table)), order)
    requires it.key in s.disk && s.disk[it.key] == FileOf(was) && Fits(was)
    requires it.size == |was.data| && it.typeLen == |was.ctype|
    ensures var u := Reopened(s, Running, maxsize, order);
            var answer := AfterGet(u, it.key, true, now).1;
            && (answer.Hit? <==> Has(u.table, it.key))
            && (answer.Hit? ==> answer.buf == was && answer.etag == NormalTag(it.etag))
  {
    ReopenedAt(s, it.key, maxsize, order);
    var u := Reopened(s, Running, maxsize, order);
    if Has(u.table, it.key) { FileIsRead(u, it.key, was, it, now); }
  }

  lemma FileIsRead(u: Cache, k: U64, was: Buf, it: Item, now: U32)
    requires u.mode == Running && u.queue == [] && Has(u.table, k) && At(u.table, k) == Normal(it)
    requires k in u.disk && u.disk[k] == FileOf(was) && Fits(was)
    requires it.size == |was.data| && it.typeLen == |was.ctype|
    ensures var answer := AfterGet(u, k, true, now).1;
            answer.Hit? && answer.buf == was && answer.etag == NormalTag(it.etag)
  {
    var file := FileOf(was);
    assert file[..|was.ctype|] == was.ctype;
    assert file[|was.ctype|..|was.ctype| + |was.data|] == was.data;
  }
}
