/** The program of src/blobcache_file.c: the globals it keeps under its lock and the loops over
    them, each proved against the function of BlobCache or BlobFile that says what it does. */
module BlobProgram {
  import opened Common
  import opened BlobIndex
  import opened BlobPrune
  import opened BlobCache
  import opened BlobFile

  /** `t` is `s` but for the index and the count, after the files of these keys were unlinked. */
  predicate FilesGone(s: Cache, t: Cache, gone: set<U64>) {
    && t.queue == s.queue && t.mode == s.mode && t.disk == s.disk - gone
    && t.writer == if s.writer.Writing? && s.writer.bf.key in gone
                   then s.writer.(linked := false) else s.writer
  }

  lemma OneMoreGone(s: Cache, t: Cache, gone: set<U64>, k: U64, u: Cache)
    requires FilesGone(s, t, gone) && u.queue == t.queue && u.mode == t.mode
    requires u.disk == t.disk - {k} && u.writer == Unlinked(t, k).writer
    ensures FilesGone(s, u, gone + {k})
  {
    assert s.disk - (gone + {k}) == s.disk - gone - {k};
  }

  lemma AllGone(s: Cache, t: Cache, gone: set<U64>, kept: Table)
    requires FilesGone(s, t, gone) && t.table == kept
    requires forall k :: k in gone <==> Has(s.table, k) && !Has(kept, k)
    ensures t == UnlinkIndexed(s, kept).(size := t.size)
  {
    assert t.disk == map k | k in s.disk && (Has(s.table, k) ==> Has(kept, k)) :: s.disk[k];
  }

  /** The items of the first i chains and of the first j places of the next one. */
  ghost predicate Before(t: Table, i: nat, j: nat, k: U64) {
    Has(t, k) && (Bucket(k) < i || (Bucket(k) == i && Find(t[Bucket(k)], k) < j))
  }

  ghost predicate Passed(t: Table, i: nat, j: nat, gone: set<U64>) {
    forall k :: k in gone <==> Before(t, i, j, k)
  }

  lemma PassOne(t: Table, i: nat, j: nat, gone: set<U64>)
    requires TableOk(t) && i < 256 && j < |t[i]| && Passed(t, i, j, gone)
    ensures Passed(t, i, j + 1, gone + {t[i][j].key})
  {
    assert ChainOk(t[i], i);
    FindAfter(t[i], i, t[i][j].key, j);
  }

  lemma PassChain(t: Table, i: nat, gone: set<U64>)
    requires i < 256 && Passed(t, i, |t[i]|, gone)
    ensures Passed(t, i + 1, 0, gone)
  {
  }

  function Linked(t: Table, p: Item): Table {
    t[Bucket(p.key) := [p] + t[Bucket(p.key)]]
  }

  /** Linking `rest` into `now` gives what linking `all` into `t` does. */
  predicate ToLink(t: Table, size: int, all: seq<Item>, now: Table, sum: int, rest: seq<Item>) {
    Refill(now, rest) == Refill(t, all) && sum + ChainSize(rest) == size + ChainSize(all)
  }

  /** The same, where reading `n` more records gives `rest`; if it gives none there was not enough
      to give `all` either. */
  predicate Loading(t: Table, size: int, all: Option<seq<Item>>, now: Table, sum: int,
                    rest: Option<seq<Item>>)
  {
    && (rest.Some? <==> all.Some?)
    && (rest.Some? ==> ToLink(t, size, all.value, now, sum, rest.value))
  }

  lemma LoadStep(t: Table, size: int, all: Option<seq<Item>>, now: Table, sum: int,
                 read: nat -> Option<(Item, nat)>, at: nat, n: int)
    requires n > 0 && read(at).Some? && Loading(t, size, all, now, sum, ReadItems(read, at, n))
    ensures var (p, len) := read(at).value;
            Loading(t, size, all, Linked(now, p), sum + p.size, ReadItems(read, at + len, n - 1))
  {
  }

  function Keys(items: seq<Item>): set<U64> { set it | it in items :: it.key }

  class CacheFile {
    const digest: Digest
    const sha: Sha
    const hashvector: array<seq<Item>>
    var size: int
    var queue: seq<Flush>
    var disk: map<U64, seq<Byte>>
    var mode: Mode
    var writer: Writer

    ghost predicate Valid()
      reads this, hashvector
    {
      hashvector.Length == 256 && TableOk(hashvector[..])
    }

    ghost function View(): Cache
      reads this, hashvector
      requires hashvector.Length == 256
    {
      Cache(hashvector[..], size, queue, disk, mode, writer)
    }

    constructor (d: Digest, s: Sha, files: map<U64, seq<Byte>>)
      ensures Valid() && fresh(hashvector) && digest == d && sha == s
      ensures View() == Start(BadClock, files)
    {
      digest, sha := d, s;
      hashvector := new seq<Item>[256](_ => []);
      size, queue, disk, mode, writer := 0, [], files, BadClock, Waiting;
      new;
      assert hashvector[..] == EmptyTable();
      EmptyIs();
    }

    /** The walk along a chain: the position of the item, or the length of the chain. */
    method Search(k: U64) returns (i: nat)
      requires Valid()
      ensures i == Find(hashvector[Bucket(k)], k)
    {
      var chain := hashvector[Bucket(k)];
      i := 0;
      while i < |chain| && chain[i].key != k
        invariant i <= |chain|
        invariant Find(chain, k) == i + Find(chain[i..], k)
      {
        i := i + 1;
      }
      assert i < |chain| ==> chain[i..][0] == chain[i];
    }

    /** The item at the i-th place of its chain becomes `it`, or `it` is put in front. */
    method Store(it: Item, i: nat)
      requires Valid() && i == Find(hashvector[Bucket(it.key)], it.key)
      modifies hashvector
      ensures Valid() && hashvector[..] == Put(old(hashvector[..]), it)
    {
      PutIs(hashvector[..], it);
      var chain := hashvector[Bucket(it.key)];
      hashvector[Bucket(it.key)] := if i < |chain| then chain[i := it] else [it] + chain;
    }

    /** blobcache_put */
    method BlobPut(k: U64, b: Buf, m: Meta, now: U32) returns (already: bool)
      requires Valid()
      modifies this, hashvector
      ensures Valid() && View() == AfterPut(digest, old(View()), k, b, m, now)
      ensures already == (mode == Running && AlreadyIn(digest, old(View()), k, b.data))
    {
      if mode != Running {
        return false;
      }
      var i := Search(k);
      var chain := hashvector[Bucket(k)];
      var dc := digest(b.data);
      if i < |chain| && chain[i].hash == dc && chain[i].size == |b.data| {
        Store(Renewed(chain[i], m, now), i);
        return true;
      }
      queue := queue + [Flush(k, b)];
      var it := FreshItem(digest, k, b, m, now);
      if i < |chain| {
        size := size - chain[i].size;
      }
      Store(it, i);
      size := size + it.size;
      return false;
    }

    /** The search of the queue from its tail. */
    method Queued(k: U64) returns (b: Option<Buf>)
      ensures b == Newest(queue, k)
    {
      var i := |queue|;
      assert queue[..i] == queue;
      while i > 0
        invariant 0 <= i <= |queue|
        invariant Newest(queue, k) == Newest(queue[..i], k)
      {
        i := i - 1;
        assert queue[..i + 1] == queue[..i] + [queue[i]];
        NewestAppend(queue[..i], queue[i], k);
        if queue[i].key == k {
          return Some(queue[i].buf);
        }
      }
      return None;
    }

    /** blobcache_get */
    method BlobGet(k: U64, ignoreExpiry: bool, now: U32) returns (answer: Answer)
      requires Valid()
      modifies this, hashvector
      ensures Valid() && (View(), answer) == AfterGet(old(View()), k, ignoreExpiry, now)
    {
      var i := Search(k);
      var chain := hashvector[Bucket(k)];
      if mode == Stopping || i == |chain| {
        return Miss;
      }
      var it := chain[i];
      DropIs(hashvector[..], k);
      var expired := mode == Running && now > it.expiry;
      if expired && !ignoreExpiry {
        hashvector[Bucket(k)] := Without(chain, i);
        return Miss;
      }
      var queued := Queued(k);
      if queued.None? {
        if k !in disk {
          hashvector[Bucket(k)] := Without(chain, i);
          return Miss;
        }
        if |disk[k]| != Wrap(it.size + it.typeLen) {
          UnlinkFile(k);
          hashvector[Bucket(k)] := Without(chain, i);
          return Miss;
        }
      }
      if mode == Running {
        Store(it.(lastaccess := now), i);
      }
      if queued.Some? {
        return HitOf(it, queued.value, expired);
      }
      var file := disk[k];
      if |file| < it.size + it.typeLen {
        return Miss;
      }
      return HitOf(it, Buf(file[..it.typeLen], file[it.typeLen..it.typeLen + it.size]), expired);
    }

    /** fa_unlink of the file of a key. */
    method UnlinkFile(k: U64)
      modifies this`disk, this`writer
      ensures hashvector.Length == 256 ==> View() == Unlinked(old(View()), k)
      ensures disk == old(disk) - {k}
    {
      disk := disk - {k};
      if writer.Writing? && writer.bf.key == k {
        writer := writer.(linked := false);
      }
    }

    /** cache_clear */
    method CacheClear()
      requires Valid()
      modifies this, hashvector
      ensures Valid() && View() == AfterClear(old(View()))
    {
      ghost var s := View();
      ghost var gone: set<U64> := {};
      var i := 0;
      while i < 256
        invariant i <= 256
        invariant forall b :: 0 <= b < 256 ==> hashvector[b] == if b < i then [] else s.table[b]
        invariant FilesGone(s, View(), gone) && Passed(s.table, i, 0, gone)
      {
        var chain := hashvector[i];
        var j := 0;
        while j < |chain|
          invariant j <= |chain|
          invariant forall b :: 0 <= b < 256 ==>
                      hashvector[b] == if b < i then [] else s.table[b]
          invariant FilesGone(s, View(), gone) && Passed(s.table, i, j, gone)
        {
          ghost var t := View();
          PassOne(s.table, i, j, gone);
          UnlinkFile(chain[j].key);
          OneMoreGone(s, t, gone, chain[j].key, View());
          gone := gone + {chain[j].key};
          j := j + 1;
        }
        PassChain(s.table, i, gone);
        hashvector[i] := [];
        i := i + 1;
      }
      size := 0;
      assert hashvector[..] == EmptyTable();
      EmptyIs();
      AllGone(s, View(), gone, EmptyTable());
    }

    /** The first loop of prune_to_size: all items in one array, the chains empty, and the sum of
        the sizes. */
    method Collect() returns (sv: seq<Item>)
      requires Valid()
      modifies this`size, hashvector
      ensures hashvector[..] == EmptyTable()
      ensures sv == Items(old(hashvector[..])) && size == TotalSize(old(hashvector[..]))
    {
      ghost var t: Table := hashvector[..];
      size := 0;
      sv := [];
      var i := 0;
      while i < 256
        invariant i <= 256 && sv == Flat(t[..i]) && size == ChainSize(sv)
        invariant forall b :: 0 <= b < 256 ==> hashvector[b] == if b < i then [] else t[b]
      {
        var chain := hashvector[i];
        var j := 0;
        while j < |chain|
          invariant j <= |chain| && sv == Flat(t[..i]) + chain[..j] && size == ChainSize(sv)
          invariant forall b :: 0 <= b < 256 ==> hashvector[b] == if b < i then [] else t[b]
        {
          assert chain[..j + 1] == chain[..j] + [chain[j]];
          ChainSizeSplit(sv, [chain[j]]);
          sv := sv + [chain[j]];
          size := size + chain[j].size;
          j := j + 1;
        }
        FlatAppend(t[..i], chain);
        assert t[..i + 1] == t[..i] + [chain] && chain[..j] == chain;
        hashvector[i] := [];
        i := i + 1;
      }
      assert t[..i] == t && hashvector[..] == EmptyTable();
      ItemsAre(t);
    }

    /** prune_to_size; `order` is what qsort makes of the items. */
    method PruneToSize(maxsize: nat, order: seq<Item>)
      requires Valid() && Qsorted(Items(hashvector[..]), order)
      modifies this, hashvector
      ensures Valid() && View() == AfterPrune(old(View()), maxsize, order)
    {
      ghost var s := View();
      var sv := Collect();
      var n := Evict(maxsize, order, s);
      PutBack(order[n..]);
      PruneIs(s.table, order, maxsize);
      GoneKeys(s.table, order, maxsize);
      AllGone(s, View(), Keys(order[..n]), Pruned(s.table, order, maxsize));
    }

    /** The last loop of prune_to_size. */
    method PutBack(items: seq<Item>)
      requires hashvector.Length == 256
      modifies hashvector
      ensures hashvector[..] == Refill(old(hashvector[..]), items)
    {
      var i := 0;
      assert items[i..] == items;
      while i < |items|
        invariant i <= |items|
        invariant Refill(hashvector[..], items[i..]) == Refill(old(hashvector[..]), items)
        decreases |items| - i
      {
        var p := items[i];
        assert items[i..][0] == p && items[i..][1..] == items[i + 1..];
        LinkFirst(p);
        i := i + 1;
      }
    }

    /** The second loop of prune_to_size. */
    method Evict(maxsize: nat, order: seq<Item>, ghost s: Cache) returns (n: nat)
      requires hashvector.Length == 256 && FilesGone(s, View(), {})
      modifies this`size, this`disk, this`writer
      ensures n == Cut(order, old(size), maxsize) && size == old(size) - ChainSize(order[..n])
      ensures FilesGone(s, View(), Keys(order[..n]))
    {
      n := 0;
      assert order[n..] == order;
      while n < |order| && size >= maxsize
        invariant n <= |order| && size == old(size) - ChainSize(order[..n])
        invariant Cut(order, old(size), maxsize) == n + Cut(order[n..], size, maxsize)
        invariant FilesGone(s, View(), Keys(order[..n]))
      {
        var p := order[n];
        ghost var t := View();
        size := size - p.size;
        UnlinkFile(p.key);
        OneMoreGone(s, t, Keys(order[..n]), p.key, View());
        assert order[..n + 1] == order[..n] + [p];
        assert Keys(order[..n + 1]) == Keys(order[..n]) + {p.key};
        ChainSizeSplit(order[..n], [p]);
        assert order[n..][0] == p && order[n..][1..] == order[n + 1..];
        n := n + 1;
      }
    }

    /** What the thread does when it has taken the lock again. */
    method FinishWrite(maxsize: nat, order: seq<Item>)
      requires Valid() && queue != [] && Qsorted(Items(hashvector[..]), order)
      modifies this, hashvector
      ensures Valid() && View() == AfterFinish(old(View()), maxsize, order)
    {
      queue := queue[1..];
      writer := Waiting;
      if maxsize < size {
        PruneToSize(maxsize, order);
      }
    }

    /** memcpy into the output buffer. */
    method Copy(out: array<Byte>, at: nat, bytes: seq<Byte>)
      requires at + |bytes| <= out.Length
      modifies out
      ensures out[..at] == old(out[..at]) && out[at..at + |bytes|] == bytes
      ensures out[..at + |bytes|] == old(out[..at]) + bytes
    {
      var i := 0;
      while i < |bytes|
        invariant i <= |bytes|
        invariant out[..at] == old(out[..at]) && out[at..at + i] == bytes[..i]
      {
        out[at + i] := bytes[i];
        i := i + 1;
      }
      assert out[..at + |bytes|] == out[..at] + out[at..at + |bytes|];
    }

    /** The first pass of save_index: the size of the file and the number of items. */
    method Measure() returns (siz: nat, items: nat)
      requires Valid()
      ensures siz == 32 + |Records(Items(hashvector[..]))| && items == |Items(hashvector[..])|
    {
      ghost var t: Table := hashvector[..];
      siz, items := 12 + 20, 0;
      var i := 0;
      while i < 256
        invariant i <= 256
        invariant siz == 32 + |Records(Flat(t[..i]))| && items == |Flat(t[..i])|
      {
        siz, items := MeasureChain(i, siz, items);
        DoneChain(t, i);
        i := i + 1;
      }
      assert t[..i] == t;
    }

    /** The measures after one more chain. */
    method MeasureChain(i: nat, siz0: nat, items0: nat) returns (siz: nat, items: nat)
      requires Valid() && i < 256
      requires siz0 == 32 + |Records(Flat(hashvector[..][..i]))|
      requires items0 == |Flat(hashvector[..][..i])|
      ensures siz == 32 + |Records(Done(hashvector[..], i, |hashvector[i]|))|
      ensures items == |Done(hashvector[..], i, |hashvector[i]|)|
    {
      ghost var t: Table := hashvector[..];
      var chain := hashvector[i];
      var j := 0;
      siz, items := siz0, items0;
      assert Done(t, i, 0) == Flat(t[..i]);
      while j < |chain|
        invariant j <= |chain|
        invariant siz == 32 + |Records(Done(t, i, j))| && items == |Done(t, i, j)|
      {
        DoneNext(t, i, j);
        RecordsNext(Done(t, i, j), chain[j]);
        siz := siz + 35;
        siz := siz + if chain[j].etag.Some? then |chain[j].etag.value| else 0;
        items := items + 1;
        j := j + 1;
      }
    }

    /** save_index: a buffer of the measured size is filled exactly. */
    method SaveIndex(now: U32) returns (out: array<Byte>)
      requires Valid()
      ensures fresh(out) && out[..] == IndexFile(sha, hashvector[..], now)
    {
      var siz, items := Measure();
      out := new Byte[siz](_ => 0);
      var at := WriteUnsigned(out, items % 0x1_0000_0000, now);
      var digest := sha(out[..siz - 20]);
      Copy(out, at, digest);
      assert out[..] == out[..at + 20];
    }

    /** Everything before the hash. */
    method WriteUnsigned(out: array<Byte>, items: U32, now: U32) returns (at: nat)
      requires Valid() && out.Length == 32 + |Records(Items(hashvector[..]))|
      requires items == |Items(hashvector[..])| % 0x1_0000_0000
      modifies out
      ensures at == out.Length - 20 && out[..at] == Unsigned(hashvector[..], now)
    {
      ghost var t: Table := hashvector[..];
      WriteHeader(out, items, now);
      assert hashvector[..] == t;
      at := WriteRecords(out, 12);
    }

    method WriteHeader(out: array<Byte>, items: U32, now: U32)
      requires out.Length >= 12
      modifies out
      ensures out[..12] == Le4(MAGIC_07) + Le4(items) + Le4(now)
    {
      Copy(out, 0, Le4(MAGIC_07));
      assert out[..0] == [];
      Copy(out, 4, Le4(items));
      Copy(out, 8, Le4(now));
    }

    /** One record. */
    method WriteRecord(out: array<Byte>, from: nat, it: Item) returns (at: nat)
      requires from + 35 + |TagBytes(it)| <= out.Length
      modifies out
      ensures at == from + 35 + |TagBytes(it)|
      ensures out[..at] == old(out[..from]) + Record(it)
    {
      var tag := TagBytes(it);
      Copy(out, from, Fixed(it));
      Copy(out, from + 35, tag);
      at := from + 35 + |tag|;
    }

    /** The second pass of save_index. */
    method WriteRecords(out: array<Byte>, from: nat) returns (at: nat)
      requires Valid() && from + |Records(Items(hashvector[..]))| <= out.Length
      modifies out
      ensures at == from + |Records(Items(hashvector[..]))|
      ensures out[..at] == old(out[..from]) + Records(Items(hashvector[..]))
    {
      ghost var t: Table := hashvector[..];
      ghost var head := out[..from];
      ghost var done: seq<Byte> := [];
      at := from;
      var i := 0;
      while i < 256
        invariant i <= 256 && hashvector[..] == t && done == Records(Flat(t[..i]))
        invariant at == from + |done| && at <= out.Length && out[..at] == head + done
      {
        ghost var more := ChainRecords(t, i, head, done);
        at := WriteChain(out, at, hashvector[i]);
        done := more;
        i := i + 1;
      }
      assert t[..i] == t;
    }

    /** The records of one chain. */
    method WriteChain(out: array<Byte>, from: nat, chain: seq<Item>) returns (at: nat)
      requires from + |Records(chain)| <= out.Length
      modifies out
      ensures at == from + |Records(chain)|
      ensures out[..at] == old(out[..from]) + Records(chain)
    {
      ghost var head := out[..from];
      ghost var done: seq<Byte> := [];
      var j := 0;
      at := from;
      while j < |chain|
        invariant j <= |chain| && done == Records(chain[..j])
        invariant at == from + |done| <= out.Length && out[..at] == head + done
      {
        ghost var more := RecordsPrefix(chain, j, head, done);
        at := WriteRecord(out, at, chain[j]);
        done := more;
        j := j + 1;
      }
      assert chain[..j] == chain;
    }

    /** load_index; the result tells whether the records stay within the file.  Where they do not,
        the program reads on behind it, and the model stops. */
    method LoadIndex(file: seq<Byte>) returns (within: bool)
      requires Valid()
      modifies this`size, hashvector
      ensures within <==> Load(sha, file) != Overrun
      ensures match Load(sha, file)
              case Loaded(items) =>
                && hashvector[..] == Refill(old(hashvector[..]), items)
                && size == old(size) + ChainSize(items)
              case Rejected => View() == old(View())
              case Overrun => true
    {
      if |file| < 20 || sha(file[..|file| - 20]) != file[|file| - 20..] {
        return true;
      }
      var magic := Un4(file[0..4]);
      if magic != MAGIC_05 && magic != MAGIC_06 && magic != MAGIC_07 {
        return true;
      }
      var at := if magic == MAGIC_05 then 8 else 12;
      var items := Signed32(Un4(file[4..8]));
      within := LoadRecords(Reader(magic, file), at, items);
    }

    /** The loop of load_index, with `read` for one record. */
    method LoadRecords(read: nat -> Option<(Item, nat)>, start: nat, items: int)
      returns (within: bool)
      requires Valid()
      modifies this`size, hashvector
      ensures within <==> ReadItems(read, start, items).Some?
      ensures within ==>
                var all := ReadItems(read, start, items).value;
                && hashvector[..] == Refill(old(hashvector[..]), all)
                && size == old(size) + ChainSize(all)
    {
      ghost var t: Table := hashvector[..];
      ghost var all := ReadItems(read, start, items);
      var at: nat := start;
      var i := 0;
      while i < items
        invariant 0 <= i && hashvector.Length == 256
        invariant Loading(t, old(size), all, hashvector[..], size, ReadItems(read, at, items - i))
        decreases items - i
      {
        if read(at).None? {
          return false;
        }
        LoadStep(t, old(size), all, hashvector[..], size, read, at, items - i);
        var (p, len) := read(at).value;
        LinkFirst(p);
        size := size + p.size;
        at := at + len;
        i := i + 1;
      }
      within := true;
    }

    /** An item is put in front of its chain. */
    method LinkFirst(p: Item)
      requires hashvector.Length == 256
      modifies hashvector
      ensures hashvector[..] == Linked(old(hashvector[..]), p)
    {
      hashvector[Bucket(p.key)] := [p] + hashvector[Bucket(p.key)];
    }
  }

  // ---- The index file --------------------------------------------------------------------

  lemma RecordsNext(done: seq<Item>, it: Item)
    ensures Records(done + [it]) == Records(done) + Record(it)
    ensures |Records(done + [it])| == |Records(done)| + 35 + |TagBytes(it)|
  {
    ConcatSplit(Record, done, [it]);
    assert Concat(Record, [it]) == Record(it) + Concat(Record, []);
  }

  /** The items of the first i chains and of the first j places of the next one, in order. */
  function Done(t: Table, i: nat, j: nat): seq<Item>
    requires i < 256 && j <= |t[i]|
  {
    Flat(t[..i]) + t[i][..j]
  }

  lemma DoneNext(t: Table, i: nat, j: nat)
    requires i < 256 && j < |t[i]|
    ensures Done(t, i, j + 1) == Done(t, i, j) + [t[i][j]]
  {
    assert t[i][..j + 1] == t[i][..j] + [t[i][j]];
  }

  lemma DoneChain(t: Table, i: nat)
    requires i < 256
    ensures Flat(t[..i + 1]) == Done(t, i, |t[i]|)
  {
    FlatAppend(t[..i], t[i]);
    assert t[..i + 1] == t[..i] + [t[i]] && t[i][..|t[i]|] == t[i];
  }

  lemma {:induction false} FlatSplit(a: seq<seq<Item>>, b: seq<seq<Item>>)
    ensures Flat(a + b) == Flat(a) + Flat(b)
  {
    if a == [] {
      assert a + b == b;
    } else {
      FlatSplit(a[1..], b);
      assert (a + b)[1..] == a[1..] + b && (a + b)[0] == a[0];
      assert a[0] + (Flat(a[1..]) + Flat(b)) == Flat(a) + Flat(b);
    }
  }

  lemma RecordsPrefix(chain: seq<Item>, j: nat, head: seq<Byte>, done: seq<Byte>)
    returns (more: seq<Byte>)
    requires j < |chain| && done == Records(chain[..j])
    ensures more == Records(chain[..j + 1]) && head + done + Record(chain[j]) == head + more
    ensures |more| == |done| + 35 + |TagBytes(chain[j])| <= |Records(chain)|
  {
    assert chain[..j + 1] == chain[..j] + [chain[j]];
    RecordsNext(chain[..j], chain[j]);
    PrefixBound(chain, j + 1);
    more := done + Record(chain[j]);
  }

  lemma PrefixBound(chain: seq<Item>, j: nat)
    requires j <= |chain|
    ensures |Records(chain[..j])| <= |Records(chain)|
  {
    ConcatSplit(Record, chain[..j], chain[j..]);
    assert chain == chain[..j] + chain[j..];
  }

  lemma ChainRecords(t: Table, i: nat, head: seq<Byte>, done: seq<Byte>)
    returns (more: seq<Byte>)
    requires i < 256 && done == Records(Flat(t[..i]))
    ensures more == Records(Flat(t[..i + 1])) && head + done + Records(t[i]) == head + more
    ensures |more| == |done| + |Records(t[i])| <= |Records(Items(t))|
  {
    ChainJoins(t, i);
    ChainsBound(t, i + 1);
    more := done + Records(t[i]);
  }

  lemma ChainJoins(t: Table, i: nat)
    requires i < 256
    ensures Records(Flat(t[..i + 1])) == Records(Flat(t[..i])) + Records(t[i])
  {
    FlatAppend(t[..i], t[i]);
    assert t[..i + 1] == t[..i] + [t[i]];
    ConcatSplit(Record, Flat(t[..i]), t[i]);
  }

  lemma ChainsBound(t: Table, i: nat)
    requires i <= 256
    ensures |Records(Flat(t[..i]))| <= |Records(Items(t))|
  {
    FlatSplit(t[..i], t[i..]);
    assert t[..i] + t[i..] == t;
    ConcatSplit(Record, Flat(t[..i]), Flat(t[i..]));
  }

  lemma GoneKeys(t: Table, order: seq<Item>, maxsize: nat)
    requires TableOk(t) && Qsorted(Items(t), order)
    ensures var n := Cut(order, TotalSize(t), maxsize);
            forall k :: k in Keys(order[..n]) <==> Has(t, k) && !Has(Pruned(t, order, maxsize), k)
  {
    PruneIs(t, order, maxsize);
    var n := Cut(order, TotalSize(t), maxsize);
    forall k
      ensures k in Keys(order[..n]) <==> HasKey(order[..n], k)
    {
    }
  }
}
