/** The cache of src/blobcache_file.c: an index over a directory of files, with a queue of buffers
    that a thread writes behind.  Each section that holds the lock is one step, and so is each
    write the thread does without it. */
module BlobCache {
  import opened Common
  import opened BlobIndex
  import opened BlobPrune

  /** A buf_t: its content type, empty if there is none, and its bytes. */
  datatype Buf = Buf(ctype: seq<Byte>, data: seq<Byte>)

  datatype Flush = Flush(key: U64, buf: Buf)

  datatype Mode = BadClock | Running | Stopping

  /** How far the thread is with the file of the buffer at the head of the queue, and whether the
      file is still in its directory. */
  datatype Stage = Opened | Typed | Written
  datatype Writer = Waiting | Writing(bf: Flush, stage: Stage, linked: bool)

  datatype Cache = Cache(table: Table, size: int, queue: seq<Flush>,
                         disk: map<U64, seq<Byte>>, mode: Mode, writer: Writer)

  type Digest = seq<Byte> -> U64

  /** What blobcache_put is given besides the key and the buffer. */
  datatype Meta = Meta(maxage: int, etag: Option<seq<Byte>>, mtime: U32, flags: Byte)

  datatype Answer = Miss | Hit(buf: Buf, etag: Option<seq<Byte>>, modtime: U32, expired: bool)

  datatype Step =
    | ClockIsGood
    | Stop
    | PutStep(key: U64, buf: Buf, meta: Meta, now: U32)
    | GetStep(key: U64, ignoreExpiry: bool, now: U32)
    | Clear
    | OpenFile
    | WriteType
    | WriteData
    | Finish(maxsize: nat, order: seq<Item>)

  function Wrap(x: int): U32 { x % 0x1_0000_0000 }

  function Min(x: int, y: int): int { if x < y then x else y }

  /** A tag of more than 255 bytes is not kept. */
  function ShortTag(etag: Option<seq<Byte>>): Option<seq<Byte>> {
    if etag.Some? && |etag.value| > 255 then None else etag
  }

  /** The file of a buffer. */
  function FileOf(b: Buf): seq<Byte> { b.ctype + b.data }

  function Newest(queue: seq<Flush>, k: U64): Option<Buf> {
    if queue == [] then None
    else if Newest(queue[1..], k).Some? then Newest(queue[1..], k)
    else if queue[0].key == k then Some(queue[0].buf) else None
  }

  // ---- Steps -----------------------------------------------------------------------------

  /** The item is there already, with the same content as far as hash and size tell. */
  predicate AlreadyIn(h: Digest, s: Cache, k: U64, data: seq<Byte>) {
    Has(s.table, k) && At(s.table, k).hash == h(data) && At(s.table, k).size == |data|
  }

  function FreshItem(h: Digest, k: U64, b: Buf, m: Meta, now: U32): Item {
    Item(k, h(b.data), now, Wrap(Min(0x7fff_ffff, m.maxage + now)), m.mtime, Wrap(|b.data|),
         |b.ctype| % 256, m.flags, ShortTag(m.etag))
  }

  function Renewed(it: Item, m: Meta, now: U32): Item {
    it.(modtime := m.mtime, expiry := Wrap(now + m.maxage), lastaccess := now, flags := m.flags,
        etag := ShortTag(m.etag))
  }

  /** blobcache_put */
  function AfterPut(h: Digest, s: Cache, k: U64, b: Buf, m: Meta, now: U32): Cache {
    if s.mode != Running then s
    else if AlreadyIn(h, s, k, b.data) then
      s.(table := Put(s.table, Renewed(At(s.table, k), m, now)))
    else
      var it := FreshItem(h, k, b, m, now);
      s.(table := Put(s.table, it),
         size := s.size - (if Has(s.table, k) then At(s.table, k).size else 0) + it.size,
         queue := s.queue + [Flush(k, b)])
  }

  /** fa_unlink of the file of a key. */
  function Unlinked(s: Cache, k: U64): Cache {
    s.(disk := s.disk - {k},
       writer := if s.writer.Writing? && s.writer.bf.key == k then s.writer.(linked := false)
                 else s.writer)
  }

  /** The item is unlinked from its chain; current_cache_size stays as it is. */
  function Forgotten(s: Cache, k: U64): Cache
    requires Has(s.table, k)
  {
    s.(table := Drop(s.table, k))
  }

  function Touched(s: Cache, k: U64, now: U32): Cache
    requires Has(s.table, k)
  {
    if s.mode == Running then s.(table := Put(s.table, At(s.table, k).(lastaccess := now))) else s
  }

  function HitOf(it: Item, b: Buf, expired: bool): Answer { Hit(b, it.etag, it.modtime, expired) }

  /** blobcache_get */
  function AfterGet(s: Cache, k: U64, ignoreExpiry: bool, now: U32): (Cache, Answer) {
    if s.mode == Stopping || !Has(s.table, k) then (s, Miss)
    else
      var it := At(s.table, k);
      var expired := s.mode == Running && now > it.expiry;
      var queued := Newest(s.queue, k);
      if expired && !ignoreExpiry then (Forgotten(s, k), Miss)
      else if queued.Some? then (Touched(s, k, now), HitOf(it, queued.value, expired))
      else if k !in s.disk then (Forgotten(s, k), Miss)
      else
        var file := s.disk[k];
        if |file| != Wrap(it.size + it.typeLen) then (Forgotten(Unlinked(s, k), k), Miss)
        else if |file| < it.size + it.typeLen then (Touched(s, k, now), Miss)
        else
          (Touched(s, k, now),
           HitOf(it, Buf(file[..it.typeLen], file[it.typeLen..it.typeLen + it.size]), expired))
  }

  /** The files of all indexed items are unlinked. */
  function UnlinkIndexed(s: Cache, kept: Table): Cache {
    s.(disk := map k | k in s.disk && (Has(s.table, k) ==> Has(kept, k)) :: s.disk[k],
       writer := if s.writer.Writing? && Has(s.table, s.writer.bf.key)
                    && !Has(kept, s.writer.bf.key)
                 then s.writer.(linked := false) else s.writer,
       table := kept)
  }

  /** cache_clear */
  function AfterClear(s: Cache): Cache {
    UnlinkIndexed(s, EmptyTable()).(size := 0)
  }

  /** prune_to_size */
  function AfterPrune(s: Cache, maxsize: nat, order: seq<Item>): Cache {
    var kept := Pruned(s.table, order, maxsize);
    UnlinkIndexed(s, kept).(
      size := TotalSize(s.table) - ChainSize(order[..Cut(order, TotalSize(s.table), maxsize)]))
  }

  /** The thread has written the head of the queue and takes the lock again. */
  function AfterFinish(s: Cache, maxsize: nat, order: seq<Item>): Cache
    requires s.queue != []
  {
    var t := s.(queue := s.queue[1..], writer := Waiting);
    if maxsize < t.size then AfterPrune(t, maxsize, order) else t
  }

  /** A write reaches the file in the directory only while that is the file that was opened. */
  function Appended(s: Cache, bytes: seq<Byte>, stage: Stage): Cache
    requires s.writer.Writing?
  {
    var k := s.writer.bf.key;
    s.(disk := if s.writer.linked && k in s.disk then s.disk[k := s.disk[k] + bytes] else s.disk,
       writer := s.writer.(stage := stage))
  }

  predicate Enabled(s: Cache, step: Step) {
    match step
    case ClockIsGood => s.mode == BadClock
    case OpenFile => s.mode == Running && s.writer.Waiting? && s.queue != []
    case WriteType => s.writer.Writing? && s.writer.stage.Opened?
    case WriteData => s.writer.Writing? && s.writer.stage.Typed?
    case Finish(maxsize, order) =>
      && s.writer.Writing? && s.writer.stage.Written? && s.queue != []
      && Qsorted(Items(s.table), order)
    case _ => true
  }

  function Next(h: Digest, s: Cache, step: Step): (Cache, Answer)
    requires Enabled(s, step)
  {
    match step
    case ClockIsGood => (s.(mode := Running), Miss)
    case Stop => (s.(mode := Stopping), Miss)
    case PutStep(k, b, m, now) => (AfterPut(h, s, k, b, m, now), Miss)
    case GetStep(k, ignoreExpiry, now) => AfterGet(s, k, ignoreExpiry, now)
    case Clear => (AfterClear(s), Miss)
    case OpenFile =>
      (s.(writer := Writing(s.queue[0], Opened, true), disk := s.disk[s.queue[0].key := []]), Miss)
    case WriteType => (Appended(s, s.writer.bf.buf.ctype, Typed), Miss)
    case WriteData => (Appended(s, s.writer.bf.buf.data, Written), Miss)
    case Finish(maxsize, order) => (AfterFinish(s, maxsize, order), Miss)
  }

  // ---- The map it stands for -------------------------------------------------------------

  datatype Entry = Entry(buf: Buf, etag: Option<seq<Byte>>, modtime: U32, expiry: U32,
                         lastaccess: U32, flags: Byte)

  type Map = map<U64, Entry>

  /** The latest put of a key; where the data is the same again, the content type stays. */
  function MapPut(m: Map, k: U64, b: Buf, meta: Meta, now: U32): Map {
    if k in m && m[k].buf.data == b.data && |b.data| < 0x1_0000_0000 then
      m[k := Entry(m[k].buf, ShortTag(meta.etag), meta.mtime, Wrap(now + meta.maxage), now,
                   meta.flags)]
    else
      m[k := Entry(b, ShortTag(meta.etag), meta.mtime,
                   Wrap(Min(0x7fff_ffff, meta.maxage + now)), now, meta.flags)]
  }

  /** A lookup marks the entry as used, while the clock is good. */
  function MapGet(s: Cache, m: Map, k: U64, now: U32): Map
    requires k in m
  {
    if s.mode == Running then m[k := m[k].(lastaccess := now)] else m
  }

  // ---- What may be evicted ---------------------------------------------------------------

  predicate ImportantEntry(e: Entry) { e.flags % 2 == 1 }

  /** Less important, or as important and not used later. */
  predicate GoesBefore(a: Entry, b: Entry) {
    || (!ImportantEntry(a) && ImportantEntry(b))
    || (ImportantEntry(a) == ImportantEntry(b) && a.lastaccess <= b.lastaccess)
  }

  /** All entries have been used within 2^31 seconds. */
  predicate UsedNear(m: Map) {
    forall x, y :: x in m && y in m ==> m[x].lastaccess - m[y].lastaccess < 0x8000_0000
  }

  /** What an entry counts for. */
  function Weight(e: Entry): nat { Wrap(|e.buf.data|) }

  ghost function MapSize(m: Map): nat
    decreases |m|
  {
    if m == map[] then 0
    else
      var k :| k in m;
      Weight(m[k]) + MapSize(m - {k})
  }

  /** `m'` is what eviction leaves of `m`: entries as they were, which are below a positive limit
      together; evicting the last one less would not have been enough; and no entry goes before one
      that stays but should go first. */
  ghost predicate Evicts(m: Map, m': Map, maxsize: nat) {
    && m'.Keys <= m.Keys && (forall k :: k in m' ==> m'[k] == m[k])
    && (maxsize > 0 ==> MapSize(m') < maxsize)
    && (m' != m ==>
          exists k :: k in m && k !in m' && MapSize(m') + Weight(m[k]) >= maxsize)
    && (UsedNear(m) ==> forall x, y :: x in m && x !in m' && y in m' ==> GoesBefore(m[x], m[y]))
  }

  /** Lengths that the index can hold: a size of 32 bits, also together with the content type, and
      a content type length of 8. */
  predicate Fits(b: Buf) {
    |b.ctype| < 256 && |b.ctype| + |b.data| < 0x1_0000_0000
  }

  /** What the cache may do to the map in one step, and what it then has to answer. */
  ghost predicate MapStep(s: Cache, m: Map, step: Step, m': Map, answer: Answer) {
    match step
    case PutStep(k, b, meta, now) =>
      m' == if s.mode == Running then MapPut(m, k, b, meta, now) else m
    case GetStep(k, ignoreExpiry, now) =>
      var expired := k in m && s.mode == Running && now > m[k].expiry;
      if answer.Hit? then
        && k in m && m' == MapGet(s, m, k, now)
        && s.mode != Stopping && (expired ==> ignoreExpiry)
        && answer == Hit(m[k].buf, m[k].etag, m[k].modtime, expired)
      else if k !in m || s.mode == Stopping then m' == m
      else
        && (m' == m - {k} || (m' == MapGet(s, m, k, now) && !Fits(m[k].buf)))
        && ((expired ==> ignoreExpiry) ==> !Fits(m[k].buf))
    case Clear => m' == map[]
    case Finish(maxsize, order) =>
      if maxsize < s.size then Evicts(m, m', maxsize) else m' == m
    case _ => m' == m
  }

  /** The newest buffer queued for `k`, or else its file, has these contents. */
  predicate Stored(queue: seq<Flush>, disk: map<U64, seq<Byte>>, k: U64, b: Buf) {
    match Newest(queue, k)
    case Some(q) => q == b
    case None => k in disk && disk[k] == FileOf(b)
  }

  ghost predicate AllStored(queue: seq<Flush>, disk: map<U64, seq<Byte>>, m: Map) {
    forall k :: k in m ==> Stored(queue, disk, k, m[k].buf)
  }

  predicate Describes(h: Digest, it: Item, e: Entry) {
    && it.hash == h(e.buf.data) && it.size == Wrap(|e.buf.data|)
    && it.typeLen == |e.buf.ctype| % 256
    && it.etag == e.etag && it.modtime == e.modtime && it.expiry == e.expiry
    && it.lastaccess == e.lastaccess && it.flags == e.flags
  }

  ghost predicate IndexOk(h: Digest, t: Table, m: Map) {
    && TableOk(t) && (forall k :: Has(t, k) <==> k in m)
    && (forall k :: k in m ==> Describes(h, At(t, k), m[k]))
  }

  function WrittenSoFar(b: Buf, stage: Stage): seq<Byte> {
    match stage
    case Opened => []
    case Typed => b.ctype
    case Written => FileOf(b)
  }

  /** The buffer being written stays the head of the queue; its file is as far as the thread, or
      has been unlinked, and then the key is not indexed or has been put again. */
  predicate WriterOk(s: Cache) {
    s.writer.Writing? ==>
      var bf := s.writer.bf;
      && s.queue != [] && s.queue[0] == bf
      && (if s.writer.linked then
            bf.key in s.disk && s.disk[bf.key] == WrittenSoFar(bf.buf, s.writer.stage)
          else Has(s.table, bf.key) ==> Newest(s.queue[1..], bf.key).Some?)
  }

  /** The cache stands for the map. */
  ghost predicate Refines(h: Digest, s: Cache, m: Map) {
    && IndexOk(h, s.table, m) && AllStored(s.queue, s.disk, m)
    && TotalSize(s.table) <= s.size && WriterOk(s)
  }

  /** Two contents put under one key do not share hash and size. */
  ghost predicate NoCollision(h: Digest, m: Map, step: Step) {
    step.PutStep? && step.key in m ==>
      var data := m[step.key].buf.data;
      h(data) == h(step.buf.data) && Wrap(|data|) == |step.buf.data| ==> data == step.buf.data
  }

  lemma {:induction false} NewestAppend(q: seq<Flush>, f: Flush, k: U64)
    ensures Newest(q + [f], k) == if f.key == k then Some(f.buf) else Newest(q, k)
  {
    if q == [] {
      assert q + [f] == [f];
    } else {
      NewestAppend(q[1..], f, k);
      assert (q + [f])[1..] == q[1..] + [f];
    }
  }

  // ---- Every step refines a step of the map ----------------------------------------------

  lemma PutRefines(h: Digest, s: Cache, m: Map, k: U64, b: Buf, meta: Meta, now: U32)
    requires Refines(h, s, m) && NoCollision(h, m, PutStep(k, b, meta, now)) && s.mode == Running
    ensures Refines(h, AfterPut(h, s, k, b, meta, now), MapPut(m, k, b, meta, now))
  {
    if AlreadyIn(h, s, k, b.data) {
      RenewRefines(h, s, m, k, b, meta, now);
    } else {
      QueuePutRefines(h, s, m, k, b, meta, now);
    }
  }

  lemma IndexPut(h: Digest, t: Table, m: Map, it: Item, e: Entry)
    requires IndexOk(h, t, m) && Describes(h, it, e)
    ensures IndexOk(h, Put(t, it), m[it.key := e])
  {
    PutIs(t, it);
    var t', m' := Put(t, it), m[it.key := e];
    forall k
      ensures Has(t', k) <==> k in m'
      ensures k in m' ==> Describes(h, At(t', k), m'[k])
    {
      if k != it.key { assert Has(t', k) == Has(t, k); }
    }
  }

  lemma IndexDrop(h: Digest, t: Table, m: Map, k: U64)
    requires IndexOk(h, t, m) && Has(t, k)
    ensures IndexOk(h, Drop(t, k), m - {k})
  {
    DropIs(t, k);
    var t', m' := Drop(t, k), m - {k};
    forall k'
      ensures Has(t', k') <==> k' in m'
      ensures k' in m' ==> Describes(h, At(t', k'), m'[k'])
    {
      if k' != k { assert Has(t', k') == Has(t, k'); }
    }
  }

  lemma RenewRefines(h: Digest, s: Cache, m: Map, k: U64, b: Buf, meta: Meta, now: U32)
    requires Refines(h, s, m) && NoCollision(h, m, PutStep(k, b, meta, now)) && s.mode == Running
    requires AlreadyIn(h, s, k, b.data)
    ensures Refines(h, AfterPut(h, s, k, b, meta, now), MapPut(m, k, b, meta, now))
  {
    assert Describes(h, At(s.table, k), m[k]);
    var it := Renewed(At(s.table, k), meta, now);
    PutIs(s.table, it);
    var e := Entry(m[k].buf, ShortTag(meta.etag), meta.mtime, Wrap(now + meta.maxage), now,
                   meta.flags);
    IndexPut(h, s.table, m, it, e);
    assert MapPut(m, k, b, meta, now) == m[k := e];
    OnlyIndexChanged(s, AfterPut(h, s, k, b, meta, now));
    SameBuffers(s.queue, s.disk, m, m[k := e]);
  }

  lemma OnlyIndexChanged(s: Cache, t: Cache)
    requires WriterOk(s) && t.queue == s.queue && t.disk == s.disk && t.writer == s.writer
    requires forall k :: Has(t.table, k) ==> Has(s.table, k)
    ensures WriterOk(t)
  {
  }

  lemma SameBuffers(queue: seq<Flush>, disk: map<U64, seq<Byte>>, m: Map, m': Map)
    requires AllStored(queue, disk, m)
    requires forall k :: k in m' ==> k in m && m'[k].buf == m[k].buf
    ensures AllStored(queue, disk, m')
  {
    forall k | k in m'
      ensures Stored(queue, disk, k, m'[k].buf)
    {
      assert Stored(queue, disk, k, m[k].buf);
    }
  }

  lemma AppendedWriterOk(s: Cache, f: Flush, t: Cache)
    requires WriterOk(s) && t.queue == s.queue + [f] && t.disk == s.disk && t.writer == s.writer
    requires forall k :: k != f.key && Has(t.table, k) ==> Has(s.table, k)
    ensures WriterOk(t)
  {
    if s.writer.Writing? {
      assert t.queue[1..] == s.queue[1..] + [f];
      NewestAppend(s.queue[1..], f, s.writer.bf.key);
    }
  }

  lemma QueuePutRefines(h: Digest, s: Cache, m: Map, k: U64, b: Buf, meta: Meta, now: U32)
    requires Refines(h, s, m) && NoCollision(h, m, PutStep(k, b, meta, now)) && s.mode == Running
    requires !AlreadyIn(h, s, k, b.data)
    ensures Refines(h, AfterPut(h, s, k, b, meta, now), MapPut(m, k, b, meta, now))
  {
    var it := FreshItem(h, k, b, meta, now);
    var e := Entry(b, ShortTag(meta.etag), meta.mtime, it.expiry, now, meta.flags);
    QueuePutMap(h, s, m, k, b, meta, now);
    PutIs(s.table, it);
    IndexPut(h, s.table, m, it, e);
    AppendedWriterOk(s, Flush(k, b), AfterPut(h, s, k, b, meta, now));
    AppendedStored(s.queue, s.disk, m, Flush(k, b), e);
  }

  lemma QueuePutMap(h: Digest, s: Cache, m: Map, k: U64, b: Buf, meta: Meta, now: U32)
    requires IndexOk(h, s.table, m) && !AlreadyIn(h, s, k, b.data)
    ensures MapPut(m, k, b, meta, now)
            == m[k := Entry(b, ShortTag(meta.etag), meta.mtime,
                            FreshItem(h, k, b, meta, now).expiry, now, meta.flags)]
  {
    assert k in m ==> Describes(h, At(s.table, k), m[k]);
  }

  lemma AppendedStored(queue: seq<Flush>, disk: map<U64, seq<Byte>>, m: Map, f: Flush, e: Entry)
    requires AllStored(queue, disk, m) && e.buf == f.buf
    ensures AllStored(queue + [f], disk, m[f.key := e])
  {
    var m' := m[f.key := e];
    forall k | k in m'
      ensures Stored(queue + [f], disk, k, m'[k].buf)
    {
      NewestAppend(queue, f, k);
      assert k in m ==> Stored(queue, disk, k, m[k].buf);
    }
  }

  /** Forgetting an item, with or without its file. */
  lemma ForgetRefines(h: Digest, s: Cache, m: Map, k: U64)
    requires Refines(h, s, m) && Has(s.table, k)
    ensures Refines(h, Forgotten(s, k), m - {k})
  {
    DropIs(s.table, k);
    IndexDrop(h, s.table, m, k);
    OnlyIndexChanged(s, Forgotten(s, k));
    SameBuffers(s.queue, s.disk, m, m - {k});
  }

  lemma UnlinkRefines(h: Digest, s: Cache, m: Map, k: U64)
    requires Refines(h, s, m) && Has(s.table, k) && Newest(s.queue, k).None?
    ensures Refines(h, Forgotten(Unlinked(s, k), k), m - {k})
  {
    ForgetRefines(h, s, m, k);
    var t := Forgotten(Unlinked(s, k), k);
    forall k' | k' in m - {k}
      ensures Stored(t.queue, t.disk, k', (m - {k})[k'].buf)
    {
      assert Stored(s.queue, s.disk, k', m[k'].buf);
    }
    assert s.writer.Writing? ==> s.writer.bf.key != k;
  }

  lemma TouchRefines(h: Digest, s: Cache, m: Map, k: U64, now: U32)
    requires Refines(h, s, m) && Has(s.table, k)
    ensures Refines(h, Touched(s, k, now), MapGet(s, m, k, now))
  {
    var it := At(s.table, k).(lastaccess := now);
    PutIs(s.table, it);
    IndexPut(h, s.table, m, it, m[k].(lastaccess := now));
    OnlyIndexChanged(s, Touched(s, k, now));
    SameBuffers(s.queue, s.disk, m, MapGet(s, m, k, now));
  }

  /** The test of the file's length succeeds exactly for the lengths the index can hold, and then
      the two parts of the file are the content type and the data. */
  lemma LengthTest(b: Buf)
    ensures |FileOf(b)| == Wrap(Wrap(|b.data|) + |b.ctype| % 256) <==> Fits(b)
    ensures Fits(b) ==>
              && FileOf(b)[..|b.ctype|] == b.ctype
              && FileOf(b)[|b.ctype|..|b.ctype| + |b.data|] == b.data
              && Wrap(|b.data|) == |b.data| && |b.ctype| % 256 == |b.ctype|
  {
  }

  /** What a lookup that finds the item answers. */
  lemma GetAnswers(h: Digest, s: Cache, m: Map, k: U64, ignoreExpiry: bool, now: U32)
    requires Refines(h, s, m) && s.mode != Stopping && k in m
    ensures var answer := AfterGet(s, k, ignoreExpiry, now).1;
            var expired := s.mode == Running && now > m[k].expiry;
            if answer.Hit? then
              && (expired ==> ignoreExpiry)
              && answer == Hit(m[k].buf, m[k].etag, m[k].modtime, expired)
            else (expired ==> ignoreExpiry) ==> !Fits(m[k].buf)
  {
    assert Describes(h, At(s.table, k), m[k]) && Stored(s.queue, s.disk, k, m[k].buf);
    LengthTest(m[k].buf);
  }

  /** A lookup of a cached item that has not expired succeeds if and only if its buffer is still
      queued or has lengths the index can hold. */
  lemma FoundIff(h: Digest, s: Cache, m: Map, k: U64, now: U32)
    requires Refines(h, s, m) && s.mode != Stopping && k in m
    ensures AfterGet(s, k, true, now).1.Hit? <==> Newest(s.queue, k).Some? || Fits(m[k].buf)
  {
    assert Describes(h, At(s.table, k), m[k]) && Stored(s.queue, s.disk, k, m[k].buf);
    LengthTest(m[k].buf);
  }

  lemma GetShape(s: Cache, k: U64, ignoreExpiry: bool, now: U32)
    requires s.mode != Stopping && Has(s.table, k)
    ensures var (t, answer) := AfterGet(s, k, ignoreExpiry, now);
            || (t == Touched(s, k, now)
                && (s.mode == Running && now > At(s.table, k).expiry ==> ignoreExpiry))
            || (answer == Miss && t == Forgotten(s, k))
            || (answer == Miss && t == Forgotten(Unlinked(s, k), k) && Newest(s.queue, k).None?)
  {
  }

  lemma GetKeeps(h: Digest, s: Cache, m: Map, k: U64, ignoreExpiry: bool, now: U32)
    returns (m': Map)
    requires Refines(h, s, m) && s.mode != Stopping && Has(s.table, k) && k in m
    ensures var (t, answer) := AfterGet(s, k, ignoreExpiry, now);
            && Refines(h, t, m')
            && (|| (m' == MapGet(s, m, k, now)
                    && (s.mode == Running && now > m[k].expiry ==> ignoreExpiry))
                || (m' == m - {k} && answer.Miss?))
  {
    assert Describes(h, At(s.table, k), m[k]);
    GetShape(s, k, ignoreExpiry, now);
    var (t, answer) := AfterGet(s, k, ignoreExpiry, now);
    m' := m - {k};
    if t == Touched(s, k, now) && (s.mode == Running && now > m[k].expiry ==> ignoreExpiry) {
      TouchRefines(h, s, m, k, now);
      m' := MapGet(s, m, k, now);
    } else if t == Forgotten(s, k) {
      ForgetRefines(h, s, m, k);
    } else {
      UnlinkRefines(h, s, m, k);
    }
  }

  lemma GetRefines(h: Digest, s: Cache, m: Map, k: U64, ignoreExpiry: bool, now: U32)
    returns (m': Map)
    requires Refines(h, s, m)
    ensures var (t, answer) := AfterGet(s, k, ignoreExpiry, now);
            && MapStep(s, m, GetStep(k, ignoreExpiry, now), m', answer)
            && Refines(h, t, m')
  {
    m' := m;
    if s.mode != Stopping && k in m {
      GetAnswers(h, s, m, k, ignoreExpiry, now);
      m' := GetKeeps(h, s, m, k, ignoreExpiry, now);
    }
  }

  /** A lookup that finds the item while the clock is good marks it as used now, and changes nothing
      else of it nor of any other item. */
  lemma HitMarksUsed(s: Cache, k: U64, ignoreExpiry: bool, now: U32)
    requires TableOk(s.table) && s.mode == Running
    ensures var (t, answer) := AfterGet(s, k, ignoreExpiry, now);
            answer.Hit? ==>
              && Has(s.table, k) && Has(t.table, k) && At(t.table, k).lastaccess == now
              && At(t.table, k) == At(s.table, k).(lastaccess := At(t.table, k).lastaccess)
              && SameElsewhere(s.table, t.table, k)
              && t.queue == s.queue && t.disk == s.disk
  {
    if Has(s.table, k) { PutIs(s.table, At(s.table, k).(lastaccess := now)); }
  }

  /** A lookup leaves the count as it is, and unlinks the file of its key if and only if the item is
      live, nothing is queued for it, and the file has another length than the index says. */
  lemma GetUnlinksIff(s: Cache, k: U64, ignoreExpiry: bool, now: U32)
    ensures var t := AfterGet(s, k, ignoreExpiry, now).0;
            var stale := && s.mode != Stopping && Has(s.table, k)
                         && (s.mode == Running && now > At(s.table, k).expiry ==> ignoreExpiry)
                         && Newest(s.queue, k).None? && k in s.disk
                         && |s.disk[k]| != Wrap(At(s.table, k).size + At(s.table, k).typeLen);
            && t.size == s.size && t.queue == s.queue && t.mode == s.mode
            && t.disk == if stale then s.disk - {k} else s.disk
  {
  }

  /** A put stores the time and its flags, changes no other item, and counts the difference of the
      sizes; the buffer is queued unless the content is there already. */
  lemma PutMarksUsed(h: Digest, s: Cache, k: U64, b: Buf, meta: Meta, now: U32)
    requires TableOk(s.table) && s.mode == Running
    ensures var t := AfterPut(h, s, k, b, meta, now);
            && Has(t.table, k) && SameElsewhere(s.table, t.table, k)
            && At(t.table, k).lastaccess == now && At(t.table, k).flags == meta.flags
            && At(t.table, k).modtime == meta.mtime
            && t.size - s.size == TotalSize(t.table) - TotalSize(s.table) && t.disk == s.disk
            && (t.queue == if AlreadyIn(h, s, k, b.data) then s.queue else s.queue + [Flush(k, b)])
            && At(t.table, k).etag == (if meta.etag.Some? && |meta.etag.value| > 255 then None
                                       else meta.etag)
  {
    PutIs(s.table, FreshItem(h, k, b, meta, now));
    if Has(s.table, k) { PutIs(s.table, Renewed(At(s.table, k), meta, now)); }
  }

  lemma OpenRefines(h: Digest, s: Cache, m: Map)
    requires Refines(h, s, m) && Enabled(s, OpenFile)
    ensures Refines(h, Next(h, s, OpenFile).0, m)
  {
    var t := Next(h, s, OpenFile).0;
    forall k | k in m
      ensures Stored(t.queue, t.disk, k, m[k].buf)
    {
      assert Stored(s.queue, s.disk, k, m[k].buf);
    }
  }

  lemma AppendRefines(h: Digest, s: Cache, m: Map, bytes: seq<Byte>, stage: Stage)
    requires Refines(h, s, m) && s.writer.Writing?
    requires WrittenSoFar(s.writer.bf.buf, stage)
             == WrittenSoFar(s.writer.bf.buf, s.writer.stage) + bytes
    ensures Refines(h, Appended(s, bytes, stage), m)
  {
    var t := Appended(s, bytes, stage);
    forall k | k in m
      ensures Stored(t.queue, t.disk, k, m[k].buf)
    {
      assert Stored(s.queue, s.disk, k, m[k].buf);
    }
  }

  lemma FinishRefines(h: Digest, s: Cache, m: Map)
    requires Refines(h, s, m) && s.writer.Writing? && s.writer.stage.Written?
    ensures Refines(h, s.(queue := s.queue[1..], writer := Waiting), m)
  {
    var t := s.(queue := s.queue[1..], writer := Waiting);
    forall k | k in m
      ensures Stored(t.queue, t.disk, k, m[k].buf)
    {
      assert Stored(s.queue, s.disk, k, m[k].buf);
    }
  }

  function Surviving(m: Map, kept: Table): Map {
    map k | k in m && Has(kept, k) :: m[k]
  }

  /** Evicting items together with their files. */
  lemma UnlinkIndexedRefines(h: Digest, s: Cache, m: Map, kept: Table, size: int)
    requires Refines(h, s, m) && TableOk(kept) && TotalSize(kept) <= size
    requires forall k :: Has(kept, k) ==> Has(s.table, k) && At(kept, k) == At(s.table, k)
    ensures Refines(h, UnlinkIndexed(s, kept).(size := size), Surviving(m, kept))
  {
    var t := UnlinkIndexed(s, kept).(size := size);
    var m' := Surviving(m, kept);
    forall k | k in m'
      ensures Stored(t.queue, t.disk, k, m'[k].buf)
    {
      assert Stored(s.queue, s.disk, k, m[k].buf);
    }
    assert IndexOk(h, kept, m');
  }

  lemma PruneRefines(h: Digest, s: Cache, m: Map, maxsize: nat, order: seq<Item>)
    requires Refines(h, s, m) && Qsorted(Items(s.table), order)
    ensures var t := AfterPrune(s, maxsize, order);
            && Refines(h, t, Surviving(m, t.table)) && t.size == TotalSize(t.table)
            && Evicts(m, Surviving(m, t.table), maxsize) && t.queue == s.queue
            && forall k :: k in t.disk <==> k in s.disk && !(Has(s.table, k) && !Has(t.table, k))
  {
    PruneIs(s.table, order, maxsize);
    var kept := Pruned(s.table, order, maxsize);
    UnlinkIndexedRefines(h, s, m, kept, TotalSize(kept));
    PruneEvicts(h, s.table, m, maxsize, order);
  }

  // ---- Eviction of the map ---------------------------------------------------------------

  /** The items are those of the map, each once. */
  ghost predicate Lists(items: seq<Item>, m: Map) {
    && DistinctKeys(items) && (forall it :: it in items ==> it.key in m)
    && (forall k :: k in m ==> HasKey(items, k))
    && (forall it :: it in items ==> it.size == Weight(m[it.key]))
  }

  lemma InWithout(items: seq<Item>, i: nat)
    requires DistinctKeys(items) && i < |items|
    ensures DistinctKeys(Without(items, i))
    ensures forall it :: it in Without(items, i) <==> it in items && it != items[i]
  {
    var rest := Without(items, i);
    forall it | it in rest
      ensures it in items && it != items[i]
    {
      var j :| 0 <= j < |rest| && rest[j] == it;
      assert items[if j < i then j else j + 1] == it;
    }
    forall it | it in items && it != items[i]
      ensures it in rest
    {
      var j :| 0 <= j < |items| && items[j] == it;
      assert rest[if j < i then j else j - 1] == it;
    }
  }

  lemma ListsWithout(items: seq<Item>, m: Map, i: nat)
    requires Lists(items, m) && i < |items|
    ensures Lists(Without(items, i), m - {items[i].key})
  {
    InWithout(items, i);
    forall k | k in m - {items[i].key}
      ensures HasKey(Without(items, i), k)
    {
      var it :| it in items && it.key == k;
      assert it in Without(items, i);
    }
    forall it | it in Without(items, i)
      ensures it.key in m - {items[i].key}
    {
      SameKey(items, it, items[i]);
    }
  }

  lemma SameKey(items: seq<Item>, x: Item, y: Item)
    requires DistinctKeys(items) && x in items && y in items
    ensures x.key == y.key ==> x == y
  {
  }

  lemma SomeItem(items: seq<Item>)
    ensures |items| > 0 ==> exists it :: it in items
  {
    if |items| > 0 { assert items[0] in items; }
  }

  lemma PrefixHas(items: seq<Item>, n: nat, j: nat)
    requires n <= |items| && j < |items|
    ensures j < n ==> items[j] in items[..n]
  {
    if j < n { assert items[..n][j] == items[j]; }
  }

  lemma {:induction false} SizeOfList(items: seq<Item>, m: Map)
    requires Lists(items, m)
    ensures MapSize(m) == ChainSize(items)
    decreases |m|
  {
    if m == map[] {
      SomeItem(items);
    } else {
      var k :| k in m && MapSize(m) == Weight(m[k]) + MapSize(m - {k});
      var it :| it in items && it.key == k;
      var i :| 0 <= i < |items| && items[i] == it;
      ListsWithout(items, m, i);
      SizeOfList(Without(items, i), m - {k});
      ChainSizeAt(items, i);
      ChainSizeSplit(items[..i], items[i + 1..]);
    }
  }

  /** The count of an index is the size of the map that it stands for. */
  lemma SizeOfIndex(h: Digest, t: Table, m: Map)
    requires IndexOk(h, t, m)
    ensures MapSize(m) == TotalSize(t)
  {
    ItemsAre(t);
    forall k | k in m
      ensures HasKey(Items(t), k)
    {
      assert Has(t, k) && At(t, k) in Items(t);
    }
    forall it | it in Items(t)
      ensures it.key in m && it.size == Weight(m[it.key])
    {
      assert Describes(h, it, m[it.key]);
    }
    SizeOfList(Items(t), m);
  }

  lemma SurvivingIndex(h: Digest, t: Table, m: Map, kept: Table)
    requires IndexOk(h, t, m) && TableOk(kept)
    requires forall k :: Has(kept, k) ==> Has(t, k) && At(kept, k) == At(t, k)
    ensures IndexOk(h, kept, Surviving(m, kept))
  {
  }

  lemma NearIsNear(h: Digest, t: Table, m: Map)
    requires IndexOk(h, t, m) && UsedNear(m)
    ensures AllNear(Items(t))
  {
    ItemsAre(t);
    forall i, j | 0 <= i < |Items(t)| && 0 <= j < |Items(t)|
      ensures Near(Items(t)[i], Items(t)[j])
    {
      var a, b := Items(t)[i], Items(t)[j];
      assert a in Items(t) && b in Items(t);
      assert Describes(h, a, m[a.key]) && Describes(h, b, m[b.key]);
    }
  }

  lemma RankIsOrder(h: Digest, a: Item, x: Entry, b: Item, y: Entry)
    requires Describes(h, a, x) && Describes(h, b, y) && RankLe(a, b)
    ensures GoesBefore(x, y)
  {
  }

  /** An item that goes does not rank above one that stays. */
  lemma EvictedGoesBefore(h: Digest, t: Table, m: Map, maxsize: nat, order: seq<Item>, x: U64,
                          y: U64)
    requires IndexOk(h, t, m) && Qsorted(Items(t), order) && UsedNear(m)
    requires x in m && !Has(Pruned(t, order, maxsize), x) && Has(Pruned(t, order, maxsize), y)
    ensures y in m && GoesBefore(m[x], m[y])
  {
    PruneIs(t, order, maxsize);
    NearIsNear(h, t, m);
    OrderIs(t, order);
    var n := Cut(order, TotalSize(t), maxsize);
    assert Has(t, x) && Has(t, y);
    var a :| a in order[..n] && a.key == x;
    var i :| 0 <= i < n && order[..n][i] == a;
    var b := At(t, y);
    assert b in order && !HasKey(order[..n], y);
    var j :| 0 <= j < |order| && order[j] == b;
    PrefixHas(order, n, j);
    assert a in order;
    RankIsOrder(h, order[i], m[x], order[j], m[y]);
  }

  lemma LastOfPrefix(order: seq<Item>, n: nat)
    requires 0 < n <= |order|
    ensures order[n - 1] in order && HasKey(order[..n], order[n - 1].key)
    ensures ChainSize(order[..n]) == ChainSize(order[..n - 1]) + order[n - 1].size
  {
    PrefixHas(order, n, n - 1);
    assert order[..n] == order[..n - 1] + [order[n - 1]];
    ChainSizeSplit(order[..n - 1], [order[n - 1]]);
  }

  lemma LastEviction(h: Digest, t: Table, m: Map, maxsize: nat, order: seq<Item>)
    requires IndexOk(h, t, m) && Qsorted(Items(t), order)
    requires Cut(order, TotalSize(t), maxsize) > 0
    ensures exists k :: k in m && !Has(Pruned(t, order, maxsize), k)
                        && TotalSize(Pruned(t, order, maxsize)) + Weight(m[k]) >= maxsize
  {
    PruneIs(t, order, maxsize);
    OrderIs(t, order);
    var n := Cut(order, TotalSize(t), maxsize);
    LastOfPrefix(order, n);
    var it := order[n - 1];
    assert Has(t, it.key) && At(t, it.key) == it;
    assert Describes(h, it, m[it.key]);
    assert !Has(Pruned(t, order, maxsize), it.key);
  }

  lemma PruneEvicts(h: Digest, t: Table, m: Map, maxsize: nat, order: seq<Item>)
    requires IndexOk(h, t, m) && Qsorted(Items(t), order)
    ensures Evicts(m, Surviving(m, Pruned(t, order, maxsize)), maxsize)
  {
    PruneIs(t, order, maxsize);
    var kept := Pruned(t, order, maxsize);
    var m' := Surviving(m, kept);
    SurvivingIndex(h, t, m, kept);
    SizeOfIndex(h, kept, m');
    if Cut(order, TotalSize(t), maxsize) > 0 {
      LastEviction(h, t, m, maxsize, order);
    } else {
      assert m' == m;
    }
    if UsedNear(m) {
      forall x, y | x in m && x !in m' && y in m'
        ensures GoesBefore(m[x], m[y])
      {
        EvictedGoesBefore(h, t, m, maxsize, order, x, y);
      }
    }
  }

  /** Eviction and clearing unlink the files of the items that go, and no other ones. */
  lemma FilesGo(s: Cache, kept: Table)
    ensures var t := UnlinkIndexed(s, kept);
            && (forall k :: k in t.disk <==> k in s.disk && !(Has(s.table, k) && !Has(kept, k)))
            && (forall k :: k in t.disk ==> t.disk[k] == s.disk[k])
            && t.table == kept && t.queue == s.queue && t.mode == s.mode
  {
  }

  lemma ClearRefines(h: Digest, s: Cache, m: Map)
    requires Refines(h, s, m)
    ensures Refines(h, AfterClear(s), map[])
    ensures AfterClear(s).size == 0 && AfterClear(s).queue == s.queue
    ensures forall k :: k in AfterClear(s).disk <==> k in s.disk && !Has(s.table, k)
  {
    EmptyIs();
    UnlinkIndexedRefines(h, s, m, EmptyTable(), 0);
    assert Surviving(m, EmptyTable()).Keys == {};
  }

  lemma FinishStepRefines(h: Digest, s: Cache, m: Map, maxsize: nat, order: seq<Item>)
    returns (m': Map)
    requires Refines(h, s, m) && Enabled(s, Finish(maxsize, order))
    ensures Refines(h, AfterFinish(s, maxsize, order), m')
    ensures MapStep(s, m, Finish(maxsize, order), m', Miss)
  {
    FinishRefines(h, s, m);
    m' := m;
    if maxsize < s.size {
      var t := s.(queue := s.queue[1..], writer := Waiting);
      PruneRefines(h, t, m, maxsize, order);
      m' := Surviving(m, AfterPrune(t, maxsize, order).table);
    }
  }

  lemma StepRefines(h: Digest, s: Cache, m: Map, step: Step) returns (m': Map)
    requires Refines(h, s, m) && Enabled(s, step) && NoCollision(h, m, step)
    ensures var (t, answer) := Next(h, s, step);
            Refines(h, t, m') && MapStep(s, m, step, m', answer)
  {
    m' := m;
    match step
    case ClockIsGood =>
    case Stop =>
    case PutStep(k, b, meta, now) =>
      if s.mode == Running {
        PutRefines(h, s, m, k, b, meta, now);
        m' := MapPut(m, k, b, meta, now);
      }
    case GetStep(k, ignoreExpiry, now) => m' := GetRefines(h, s, m, k, ignoreExpiry, now);
    case Clear => ClearRefines(h, s, m); m' := map[];
    case OpenFile => OpenRefines(h, s, m);
    case WriteType => AppendRefines(h, s, m, s.writer.bf.buf.ctype, Typed);
    case WriteData => AppendRefines(h, s, m, s.writer.bf.buf.data, Written);
    case Finish(maxsize, order) => m' := FinishStepRefines(h, s, m, maxsize, order);
  }

  // ---- Runs ------------------------------------------------------------------------------

  predicate Feasible(h: Digest, s: Cache, steps: seq<Step>)
    decreases |steps|
  {
    steps == [] || (Enabled(s, steps[0]) && Feasible(h, Next(h, s, steps[0]).0, steps[1..]))
  }

  /** The cache after the first n steps. */
  function StateAt(h: Digest, s: Cache, steps: seq<Step>, n: nat): Cache
    requires Feasible(h, s, steps) && n <= |steps|
    decreases n
  {
    if n == 0 then s else StateAt(h, Next(h, s, steps[0]).0, steps[1..], n - 1)
  }

  lemma {:induction false} StateAtNext(h: Digest, s: Cache, steps: seq<Step>, n: nat)
    requires Feasible(h, s, steps) && n < |steps|
    ensures Enabled(StateAt(h, s, steps, n), steps[n])
    ensures StateAt(h, s, steps, n + 1) == Next(h, StateAt(h, s, steps, n), steps[n]).0
    decreases n
  {
    if n > 0 { StateAtNext(h, Next(h, s, steps[0]).0, steps[1..], n - 1); }
  }

  /** No two contents of `all` share hash and size, and the steps put no other contents. */
  ghost predicate GoodDigest(h: Digest, all: set<seq<Byte>>, steps: seq<Step>) {
    && (forall x, y :: x in all && y in all && h(x) == h(y) ==> x == y)
    && (forall i :: 0 <= i < |steps| && steps[i].PutStep? ==> steps[i].buf.data in all)
  }

  ghost predicate DataIn(m: Map, all: set<seq<Byte>>) {
    forall k :: k in m ==> m[k].buf.data in all
  }

  /** The maps that the cache stands for before each of the steps, and after the last one taken. */
  ghost predicate Traced(h: Digest, s: Cache, steps: seq<Step>, maps: seq<Map>)
    requires Feasible(h, s, steps)
  {
    && 1 <= |maps| <= |steps| + 1
    && (forall n :: 0 <= n < |maps| ==> Refines(h, StateAt(h, s, steps, n), maps[n]))
    && forall n :: 0 <= n < |maps| - 1 ==> Follows(h, StateAt(h, s, steps, n), maps[n], steps[n],
                                                   maps[n + 1])
  }

  ghost predicate Follows(h: Digest, s: Cache, m: Map, step: Step, m': Map) {
    Enabled(s, step) && MapStep(s, m, step, m', Next(h, s, step).1)
  }

  lemma DigestIsGood(h: Digest, all: set<seq<Byte>>, m: Map, steps: seq<Step>, n: nat)
    requires GoodDigest(h, all, steps) && DataIn(m, all) && n < |steps|
    ensures NoCollision(h, m, steps[n])
  {
  }

  lemma DataStays(h: Digest, all: set<seq<Byte>>, s: Cache, m: Map, steps: seq<Step>, n: nat,
                  m': Map)
    requires GoodDigest(h, all, steps) && DataIn(m, all) && n < |steps|
    requires Follows(h, s, m, steps[n], m')
    ensures DataIn(m', all)
  {
  }

  lemma TracedAppend(h: Digest, s: Cache, steps: seq<Step>, maps: seq<Map>, m': Map)
    requires Feasible(h, s, steps) && |maps| <= |steps| && Traced(h, s, steps, maps)
    requires Refines(h, StateAt(h, s, steps, |maps|), m')
    requires var n := |maps| - 1;
             Follows(h, StateAt(h, s, steps, n), maps[n], steps[n], m')
    ensures Traced(h, s, steps, maps + [m'])
  {
    var n := |maps| - 1;
    var longer := maps + [m'];
    forall k | 0 <= k < |longer| - 1
      ensures Follows(h, StateAt(h, s, steps, k), longer[k], steps[k], longer[k + 1])
    {
      if k < n {
        assert Follows(h, StateAt(h, s, steps, k), maps[k], steps[k], maps[k + 1]);
      }
    }
  }

  lemma TracedNext(h: Digest, all: set<seq<Byte>>, s: Cache, steps: seq<Step>, maps: seq<Map>)
    returns (m': Map)
    requires Feasible(h, s, steps) && GoodDigest(h, all, steps) && |maps| <= |steps|
    requires Traced(h, s, steps, maps) && DataIn(maps[|maps| - 1], all)
    ensures Traced(h, s, steps, maps + [m']) && DataIn(m', all)
  {
    var n := |maps| - 1;
    var t := StateAt(h, s, steps, n);
    StateAtNext(h, s, steps, n);
    DigestIsGood(h, all, maps[n], steps, n);
    m' := StepRefines(h, t, maps[n], steps[n]);
    DataStays(h, all, t, maps[n], steps, n, m');
    TracedAppend(h, s, steps, maps, m');
  }

  /** In every interleaving of puts, gets, clears and the writing thread, the cache stands for a map
      that changes and answers as MapStep says. */
  lemma RunRefines(h: Digest, all: set<seq<Byte>>, s: Cache, m: Map, steps: seq<Step>)
    returns (maps: seq<Map>)
    requires Refines(h, s, m) && DataIn(m, all)
    requires Feasible(h, s, steps) && GoodDigest(h, all, steps)
    ensures |maps| == |steps| + 1 && maps[0] == m && Traced(h, s, steps, maps)
  {
    maps := [m];
    while |maps| <= |steps|
      invariant 1 <= |maps| <= |steps| + 1 && maps[0] == m
      invariant Traced(h, s, steps, maps) && DataIn(maps[|maps| - 1], all)
      decreases |steps| - |maps|
    {
      var m' := TracedNext(h, all, s, steps, maps);
      maps := maps + [m'];
    }
  }

  /** A cache that has just been started empty. */
  function Start(mode: Mode, disk: map<U64, seq<Byte>>): Cache {
    Cache(EmptyTable(), 0, [], disk, mode, Waiting)
  }

  lemma StartRefines(h: Digest, mode: Mode, disk: map<U64, seq<Byte>>)
    ensures Refines(h, Start(mode, disk), map[])
  {
    EmptyIs();
  }

  /** In every reachable state the count covers the sizes of all indexed items, each key is in its
      bucket once, and the thread finds the buffer it has written at the head of the queue. */
  lemma CacheIsInOrder(h: Digest, all: set<seq<Byte>>, mode: Mode, disk: map<U64, seq<Byte>>,
                       steps: seq<Step>, n: nat)
    requires Feasible(h, Start(mode, disk), steps) && GoodDigest(h, all, steps) && n <= |steps|
    ensures var s := StateAt(h, Start(mode, disk), steps, n);
            && TotalSize(s.table) <= s.size
            && (forall b, i :: 0 <= b < 256 && 0 <= i < |s.table[b]| ==>
                  s.table[b][i].key % 256 == b)
            && (forall b, i, j :: 0 <= b < 256 && 0 <= i < j < |s.table[b]| ==>
                  s.table[b][i].key != s.table[b][j].key)
            && (s.writer.Writing? ==> s.queue != [] && s.queue[0] == s.writer.bf)
  {
    StartRefines(h, mode, disk);
    var maps := RunRefines(h, all, Start(mode, disk), map[], steps);
    assert Refines(h, StateAt(h, Start(mode, disk), steps, n), maps[n]);
  }

  /** Once the queue is empty, every indexed item's file has the content of its latest put. */
  lemma DrainedIsOnDisk(h: Digest, s: Cache, m: Map, k: U64)
    requires Refines(h, s, m) && s.queue == [] && k in m
    ensures k in s.disk && s.disk[k] == FileOf(m[k].buf)
  {
    assert Stored(s.queue, s.disk, k, m[k].buf);
  }

  /** A step that neither replaces nor may drop what is cached under `k`. */
  predicate Spares(s: Cache, step: Step, k: U64) {
    match step
    case PutStep(key, b, meta, now) => key != k
    case GetStep(key, ignoreExpiry, now) => key == k ==> ignoreExpiry
    case Clear => false
    case Finish(maxsize, order) => s.size <= maxsize
    case _ => true
  }

  /** The entries differ at most in the time of the last use. */
  predicate SameContent(a: Entry, b: Entry) { a == b.(lastaccess := a.lastaccess) }

  /** What has been put is found again, whatever the thread has got to in the meantime. */
  lemma PutIsFound(h: Digest, all: set<seq<Byte>>, s: Cache, m: Map, steps: seq<Step>, k: U64,
                   now: U32)
    requires Refines(h, s, m) && DataIn(m, all) && k in m && Fits(m[k].buf)
    requires Feasible(h, s, steps) && GoodDigest(h, all, steps)
    requires forall n :: 0 <= n < |steps| ==> Spares(StateAt(h, s, steps, n), steps[n], k)
    ensures var t := StateAt(h, s, steps, |steps|);
            t.mode != Stopping ==>
              var answer := AfterGet(t, k, true, now).1;
              && answer.Hit? && answer.buf == m[k].buf && answer.etag == m[k].etag
              && answer.modtime == m[k].modtime
  {
    var maps := RunRefines(h, all, s, m, steps);
    SparedStays(h, s, m, steps, maps, k, |steps|);
    var t := StateAt(h, s, steps, |steps|);
    if t.mode != Stopping {
      GetAnswers(h, t, maps[|steps|], k, true, now);
    }
  }

  lemma {:induction false} SparedStays(h: Digest, s: Cache, m: Map, steps: seq<Step>,
                                       maps: seq<Map>, k: U64, n: nat)
    requires Feasible(h, s, steps) && Traced(h, s, steps, maps) && |maps| == |steps| + 1
    requires maps[0] == m && k in m && Fits(m[k].buf) && n <= |steps|
    requires forall i :: 0 <= i < |steps| ==> Spares(StateAt(h, s, steps, i), steps[i], k)
    ensures k in maps[n] && SameContent(maps[n][k], m[k])
    decreases n
  {
    if n > 0 {
      SparedStays(h, s, m, steps, maps, k, n - 1);
      var t := StateAt(h, s, steps, n - 1);
      assert Follows(h, t, maps[n - 1], steps[n - 1], maps[n]);
      assert Spares(t, steps[n - 1], k);
      SparedStep(h, t, maps[n - 1], steps[n - 1], maps[n], k);
    }
  }

  lemma SparedStep(h: Digest, s: Cache, m: Map, step: Step, m': Map, k: U64)
    requires Refines(h, s, m) && Follows(h, s, m, step, m') && Spares(s, step, k)
    requires k in m && Fits(m[k].buf)
    ensures k in m' && SameContent(m'[k], m[k])
  {
  }
}
