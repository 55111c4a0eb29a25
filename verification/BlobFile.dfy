/** The index file of src/blobcache_file.c, byte by byte. */
module BlobFile {
  import opened Common
  import opened BlobIndex
  import opened BlobPrune

  type Sha = seq<Byte> -> Hash20
  type Hash20 = d: seq<Byte> | |d| == 20 witness seq(20, _ => 0)

  // ---- Numbers as stored on a little-endian machine --------------------------------------

  function Le4(x: U32): (r: seq<Byte>)
    ensures |r| == 4
  {
    [x % 256, x / 256 % 256, x / 256 / 256 % 256, x / 256 / 256 / 256]
  }

  function Un4(s: seq<Byte>): U32
    requires |s| == 4
  {
    var a: int, b: int, c: int, d: int := s[0], s[1], s[2], s[3];
    a + 0x100 * (b + 0x100 * (c + 0x100 * d))
  }

  function Le8(x: U64): (r: seq<Byte>)
    ensures |r| == 8
  {
    Le4(x % 0x1_0000_0000) + Le4(x / 0x1_0000_0000)
  }

  function Un8(s: seq<Byte>): U64
    requires |s| == 8
  {
    var lo: int, hi: int := Un4(s[..4]), Un4(s[4..]);
    lo + 0x1_0000_0000 * hi
  }

  lemma Un4Le4(x: U32)
    ensures Un4(Le4(x)) == x
  {
  }

  lemma Un8Le8(x: U64)
    ensures Un8(Le8(x)) == x
  {
    Un4Le4(x % 0x1_0000_0000);
    Un4Le4(x / 0x1_0000_0000);
    assert Le8(x)[..4] == Le4(x % 0x1_0000_0000) && Le8(x)[4..] == Le4(x / 0x1_0000_0000);
  }

  // ---- Writing ---------------------------------------------------------------------------

  const MAGIC_07: U32 := 0x62630207
  const MAGIC_06: U32 := 0x62630206
  const MAGIC_05: U32 := 0x62630205

  function TagBytes(it: Item): seq<Byte> { if it.etag.Some? then it.etag.value else [] }

  /** A blobcache_diskitem_07_t: 35 bytes, of which one is the length of the tag. */
  function Fixed(it: Item): (r: seq<Byte>)
    ensures |r| == 35
  {
    Le8(it.key) + Le8(it.hash) + Le4(it.lastaccess) + Le4(it.expiry) + Le4(it.modtime)
    + Le4(it.size) + [it.flags, |TagBytes(it)| % 256, it.typeLen]
  }

  function Record(it: Item): seq<Byte> { Fixed(it) + TagBytes(it) }

  function Concat<T>(f: T -> seq<Byte>, xs: seq<T>): seq<Byte> {
    if xs == [] then [] else f(xs[0]) + Concat(f, xs[1..])
  }

  lemma {:induction false} ConcatSplit<T>(f: T -> seq<Byte>, a: seq<T>, b: seq<T>)
    ensures Concat(f, a + b) == Concat(f, a) + Concat(f, b)
  {
    if a == [] {
      assert a + b == b;
    } else {
      ConcatSplit(f, a[1..], b);
      assert (a + b)[1..] == a[1..] + b && (a + b)[0] == a[0];
      assert f(a[0]) + (Concat(f, a[1..]) + Concat(f, b)) == Concat(f, a) + Concat(f, b);
    }
  }

  function Records(items: seq<Item>): seq<Byte> { Concat(Record, items) }

  /** What save_index puts before the hash. */
  function Unsigned(t: Table, now: U32): seq<Byte> {
    Le4(MAGIC_07) + Le4(|Items(t)| % 0x1_0000_0000) + Le4(now) + Records(Items(t))
  }

  function IndexFile(sha: Sha, t: Table, now: U32): seq<Byte> {
    Unsigned(t, now) + sha(Unsigned(t, now))
  }

  function RecordSize(it: Item): nat { 35 + |TagBytes(it)| }

  // ---- Reading ---------------------------------------------------------------------------

  /** What load_index makes of a file: nothing, items in the order of the file, or items up to a
      place where it reads past the end. */
  datatype Loaded = Rejected | Loaded(items: seq<Item>) | Overrun

  /** The bytes before the terminating zero. */
  function CString(s: seq<Byte>): (r: seq<Byte>)
    ensures |r| <= |s| && 0 !in r
    ensures 0 !in s ==> r == s
  {
    if s == [] || s[0] == 0 then [] else [s[0]] + CString(s[1..])
  }

  function HeadSize(magic: U32): nat { if magic == MAGIC_07 then 35 else 34 }

  function TagAt(file: seq<Byte>, from: nat, n: nat): Option<seq<Byte>>
    requires from + n <= |file|
  {
    if n == 0 then None else Some(CString(file[from..from + n]))
  }

  /** The item at a place in the file, and the length of its record; older formats have no flags. */
  function ReadItem(magic: U32, file: seq<Byte>, at: nat): Option<(Item, nat)> {
    var n := HeadSize(magic);
    if at + n > |file| then None
    else
      var d := file[at..at + n];
      var flags := if magic == MAGIC_07 then d[32] else 0;
      var etaglen := d[n - 2];
      if at + n + etaglen > |file| then None
      else
        Some((Item(Un8(d[0..8]), Un8(d[8..16]), Un4(d[16..20]), Un4(d[20..24]), Un4(d[24..28]),
                   Un4(d[28..32]), d[n - 1], flags, TagAt(file, at + n, etaglen)),
              n + etaglen))
  }

  /** The loop over `n` records, with `read` for one of them. */
  function ReadItems(read: nat -> Option<(Item, nat)>, at: nat, n: int): Option<seq<Item>>
    decreases n
  {
    if n <= 0 then Some([])
    else
      match read(at)
      case None => None
      case Some((it, len)) =>
        match ReadItems(read, at + len, n - 1)
        case None => None
        case Some(rest) => Some([it] + rest)
  }

  function Reader(magic: U32, file: seq<Byte>): nat -> Option<(Item, nat)> {
    (at: nat) => ReadItem(magic, file, at)
  }

  /** load_index */
  function Load(sha: Sha, file: seq<Byte>): Loaded {
    if |file| < 20 || sha(file[..|file| - 20]) != file[|file| - 20..] then Rejected
    else
      var magic := Un4(file[0..4]);
      if magic != MAGIC_05 && magic != MAGIC_06 && magic != MAGIC_07 then Rejected
      else
        var start := if magic == MAGIC_05 then 8 else 12;
        match ReadItems(Reader(magic, file), start, Signed32(Un4(file[4..8])))
        case None => Overrun
        case Some(items) => Loaded(items)
  }

  // ---- Round trip ------------------------------------------------------------------------

  /** A tag as blobcache_put keeps it: a C string of at most 255 bytes. */
  predicate TagOk(it: Item) {
    it.etag.Some? ==> |it.etag.value| <= 255 && 0 !in it.etag.value
  }

  /** An empty tag is not told from none. */
  function Normal(it: Item): Item { if it.etag == Some([]) then it.(etag := None) else it }

  function Normals(items: seq<Item>): (r: seq<Item>)
    ensures |r| == |items| && forall i :: 0 <= i < |items| ==> r[i] == Normal(items[i])
  {
    if items == [] then [] else [Normal(items[0])] + Normals(items[1..])
  }

  /** The bytes of a number, the lowest one first. */
  lemma LittleEndian(x: U32, y: U64)
    ensures var s := Le4(x);
            x as int == s[0] as int + 0x100 * (s[1] as int) + 0x1_0000 * (s[2] as int)
                        + 0x100_0000 * (s[3] as int)
    ensures Le8(y)[..4] == Le4(y % 0x1_0000_0000) && Le8(y)[4..] == Le4(y / 0x1_0000_0000)
  {
  }

  /** Where a record has what. */
  lemma FixedParts(it: Item)
    ensures var d := Fixed(it);
            && d[0..8] == Le8(it.key) && d[8..16] == Le8(it.hash)
            && d[16..20] == Le4(it.lastaccess) && d[20..24] == Le4(it.expiry)
            && d[24..28] == Le4(it.modtime) && d[28..32] == Le4(it.size)
            && d[32] == it.flags && d[33] == |TagBytes(it)| % 256 && d[34] == it.typeLen
  {
  }

  /** The file has these bytes at this place. */
  predicate HasAt(file: seq<Byte>, at: nat, bytes: seq<Byte>) {
    at + |bytes| <= |file| && file[at..at + |bytes|] == bytes
  }

  lemma HasParts(file: seq<Byte>, at: nat, a: seq<Byte>, b: seq<Byte>)
    requires HasAt(file, at, a + b)
    ensures HasAt(file, at, a) && HasAt(file, at + |a|, b)
  {
    var all := file[at..at + |a + b|];
    SliceOfSlice(file, at, at + |a + b|, 0, |a|);
    SliceOfSlice(file, at, at + |a + b|, |a|, |b|);
    assert all[0..|a|] == a && all[|a|..|a| + |b|] == b;
  }

  lemma ReadRecord(it: Item, file: seq<Byte>, at: nat)
    requires TagOk(it) && HasAt(file, at, Fixed(it)) && HasAt(file, at + 35, TagBytes(it))
    ensures ReadItem(MAGIC_07, file, at) == Some((Normal(it), RecordSize(it)))
  {
    FixedParts(it);
    Un8Le8(it.key);
    Un8Le8(it.hash);
    Un4Le4(it.lastaccess);
    Un4Le4(it.expiry);
    Un4Le4(it.modtime);
    Un4Le4(it.size);
  }

  /** The loader finds the end of a record if and only if its tag has at most 255 bytes. */
  lemma TagLimit(it: Item, file: seq<Byte>, at: nat)
    requires HasAt(file, at, Fixed(it)) && HasAt(file, at + 35, TagBytes(it))
    ensures var r := ReadItem(MAGIC_07, file, at);
            r.Some? && (r.value.1 == RecordSize(it) <==> |TagBytes(it)| <= 255)
  {
    FixedParts(it);
  }

  lemma ReadOne(it: Item, rest: seq<Byte>, file: seq<Byte>, at: nat)
    requires TagOk(it) && HasAt(file, at, Record(it) + rest)
    ensures ReadItem(MAGIC_07, file, at) == Some((Normal(it), RecordSize(it)))
    ensures HasAt(file, at + RecordSize(it), rest)
  {
    HasParts(file, at, Record(it), rest);
    HasParts(file, at, Fixed(it), TagBytes(it));
    ReadRecord(it, file, at);
  }

  lemma PrefixLength(rec: Item -> seq<Byte>, items: seq<Item>, i: nat)
    requires i < |items| - 1
    ensures items[i + 1] == items[1..][i]
    ensures |Concat(rec, items[..i + 1])|
            == |rec(items[0])| + |Concat(rec, items[1..][..i])|
  {
    assert items[..i + 1][1..] == items[1..][..i];
  }

  /** The reader finds the i-th item where the items before it end. */
  predicate FoundAt(read: nat -> Option<(Item, nat)>, rec: Item -> seq<Byte>, items: seq<Item>,
                    at: nat, i: nat)
    requires i < |items|
  {
    read(at + |Concat(rec, items[..i])|) == Some((Normal(items[i]), |rec(items[i])|))
  }

  predicate FoundInOrder(read: nat -> Option<(Item, nat)>, rec: Item -> seq<Byte>,
                         items: seq<Item>, at: nat)
  {
    forall i {:trigger FoundAt(read, rec, items, at, i)} ::
      0 <= i < |items| ==> FoundAt(read, rec, items, at, i)
  }

  lemma FoundInTail(read: nat -> Option<(Item, nat)>, rec: Item -> seq<Byte>, items: seq<Item>,
                    at: nat)
    requires items != [] && FoundInOrder(read, rec, items, at)
    ensures read(at) == Some((Normal(items[0]), |rec(items[0])|))
    ensures FoundInOrder(read, rec, items[1..], at + |rec(items[0])|)
  {
    assert FoundAt(read, rec, items, at, 0) && items[..0] == [];
    var rest, next := items[1..], at + |rec(items[0])|;
    forall i | 0 <= i < |rest|
      ensures FoundAt(read, rec, rest, next, i)
    {
      assert FoundAt(read, rec, items, at, i + 1);
      PrefixLength(rec, items, i);
    }
  }

  lemma {:induction false} ReadAll(read: nat -> Option<(Item, nat)>, rec: Item -> seq<Byte>,
                                   items: seq<Item>, at: nat)
    requires FoundInOrder(read, rec, items, at)
    ensures ReadItems(read, at, |items|) == Some(Normals(items))
    decreases |items|
  {
    if items != [] {
      FoundInTail(read, rec, items, at);
      ReadAll(read, rec, items[1..], at + |rec(items[0])|);
    }
  }

  lemma ConcatAt<T>(f: T -> seq<Byte>, xs: seq<T>, i: nat)
    requires i < |xs|
    ensures Concat(f, xs) == Concat(f, xs[..i]) + (f(xs[i]) + Concat(f, xs[i + 1..]))
  {
    assert xs == xs[..i] + xs[i..];
    ConcatSplit(f, xs[..i], xs[i..]);
    assert xs[i..][1..] == xs[i + 1..];
  }

  lemma ReadNth(items: seq<Item>, file: seq<Byte>, at: nat, i: nat)
    requires i < |items| && TagOk(items[i]) && HasAt(file, at, Records(items))
    ensures ReadItem(MAGIC_07, file, at + |Concat(Record, items[..i])|)
            == Some((Normal(items[i]), |Record(items[i])|))
  {
    var before, after := Concat(Record, items[..i]), Concat(Record, items[i + 1..]);
    ConcatAt(Record, items, i);
    HasParts(file, at, before, Record(items[i]) + after);
    ReadOne(items[i], after, file, at + |before|);
  }

  lemma UnsignedParts(t: Table, now: U32)
    ensures var u := Unsigned(t, now);
            && HasAt(u, 0, Le4(MAGIC_07)) && HasAt(u, 4, Le4(|Items(t)| % 0x1_0000_0000))
            && HasAt(u, 12, Records(Items(t)))
  {
    var count := Le4(|Items(t)| % 0x1_0000_0000);
    var u := Unsigned(t, now);
    assert u[0..4] == Le4(MAGIC_07) && u[4..8] == count && u[12..] == Records(Items(t));
  }

  lemma HasInSum(u: seq<Byte>, v: seq<Byte>, at: nat, bytes: seq<Byte>)
    requires HasAt(u, at, bytes)
    ensures HasAt(u + v, at, bytes)
  {
    assert (u + v)[at..at + |bytes|] == u[at..at + |bytes|];
  }

  lemma AllFound(items: seq<Item>, file: seq<Byte>, at: nat)
    requires (forall it :: it in items ==> TagOk(it)) && HasAt(file, at, Records(items))
    ensures FoundInOrder(Reader(MAGIC_07, file), Record, items, at)
  {
    forall i | 0 <= i < |items|
      ensures FoundAt(Reader(MAGIC_07, file), Record, items, at, i)
    {
      assert items[i] in items;
      ReadNth(items, file, at, i);
    }
  }

  lemma LoadIs(sha: Sha, u: seq<Byte>, n: U32)
    requires HasAt(u, 0, Le4(MAGIC_07)) && HasAt(u, 4, Le4(n)) && n < 0x8000_0000
    ensures var file := u + sha(u);
            Load(sha, file) == match ReadItems(Reader(MAGIC_07, file), 12, n)
                               case None => Overrun
                               case Some(items) => Loaded(items)
  {
    var file := u + sha(u);
    HasInSum(u, sha(u), 0, Le4(MAGIC_07));
    HasInSum(u, sha(u), 4, Le4(n));
    assert file[..|file| - 20] == u && file[|file| - 20..] == sha(u);
    Un4Le4(MAGIC_07);
    Un4Le4(n);
  }

  /** Loading what has been saved gives the same items in the same order. */
  lemma LoadOfSaved(sha: Sha, t: Table, now: U32)
    requires forall it :: it in Items(t) ==> TagOk(it)
    requires |Items(t)| < 0x8000_0000
    ensures Load(sha, IndexFile(sha, t, now)) == Loaded(Normals(Items(t)))
  {
    var items, u := Items(t), Unsigned(t, now);
    UnsignedParts(t, now);
    LoadIs(sha, u, |items|);
    HasInSum(u, sha(u), 12, Records(items));
    AllFound(items, u + sha(u), 12);
    ReadAll(Reader(MAGIC_07, u + sha(u)), Record, items, 12);
  }

  // ---- The chains ------------------------------------------------------------------------

  function Reversed(s: seq<Item>): (r: seq<Item>)
    ensures |r| == |s| && forall i :: 0 <= i < |s| ==> r[i] == s[|s| - 1 - i]
  {
    if s == [] then [] else Reversed(s[1..]) + [s[0]]
  }

  lemma {:induction false} RefillSplit(t: Table, a: seq<Item>, b: seq<Item>)
    ensures Refill(t, a + b) == Refill(Refill(t, a), b)
    decreases |a|
  {
    if a == [] {
      assert a + b == b;
    } else {
      var bucket := Bucket(a[0].key);
      assert (a + b)[0] == a[0] && (a + b)[1..] == a[1..] + b;
      RefillSplit(t[bucket := [a[0]] + t[bucket]], a[1..], b);
    }
  }

  /** Items of one bucket end up in front of its chain, last one first. */
  lemma {:induction false} RefillChain(t: Table, items: seq<Item>, b: nat)
    requires b < 256 && forall i :: 0 <= i < |items| ==> Bucket(items[i].key) == b
    ensures Refill(t, items) == t[b := Reversed(items) + t[b]]
    decreases |items|
  {
    if items == [] {
      assert t[b := t[b]] == t;
      assert Reversed(items) + t[b] == t[b];
    } else {
      var t' := t[b := [items[0]] + t[b]];
      RefillChain(t', items[1..], b);
      assert Reversed(items[1..]) + ([items[0]] + t[b]) == Reversed(items) + t[b];
    }
  }

  function NormalTable(t: Table): Table { seq(256, b requires 0 <= b < 256 => Normals(t[b])) }

  function ReversedTable(t: Table): Table { seq(256, b requires 0 <= b < 256 => Reversed(t[b])) }

  /** The table after the chains from bucket `from` on have been filled into `t0`. */
  predicate ReversedFrom(t0: Table, chains: seq<seq<Item>>, from: nat, r: Table)
    requires from + |chains| == 256
  {
    && (forall b :: 0 <= b < from ==> r[b] == t0[b])
    && (forall b :: from <= b < 256 ==> r[b] == Reversed(chains[b - from]))
  }

  lemma {:induction false} RefillReverses(t0: Table, chains: seq<seq<Item>>, from: nat)
    requires from + |chains| == 256
    requires forall i :: 0 <= i < |chains| ==> ChainOk(chains[i], from + i)
    requires forall b :: from <= b < 256 ==> t0[b] == []
    ensures ReversedFrom(t0, chains, from, Refill(t0, Flat(chains)))
    decreases |chains|
  {
    if chains != [] {
      var rest := chains[1..];
      RefillSplit(t0, chains[0], Flat(rest));
      assert ChainOk(chains[0], from + 0);
      RefillChain(t0, chains[0], from);
      var t1 := t0[from := Reversed(chains[0]) + t0[from]];
      forall i | 0 <= i < |rest|
        ensures ChainOk(rest[i], from + 1 + i)
      {
        assert rest[i] == chains[i + 1];
      }
      RefillReverses(t1, rest, from + 1);
      FilledNext(t0, t1, chains, from, Refill(t1, Flat(rest)));
    }
  }

  lemma FilledNext(t0: Table, t1: Table, chains: seq<seq<Item>>, from: nat, r: Table)
    requires chains != [] && from + |chains| == 256 && t0[from] == []
    requires t1 == t0[from := Reversed(chains[0]) + t0[from]]
    requires ReversedFrom(t1, chains[1..], from + 1, r)
    ensures ReversedFrom(t0, chains, from, r)
  {
    forall b | from <= b < 256
      ensures r[b] == Reversed(chains[b - from])
    {
      if b > from { assert chains[b - from] == chains[1..][b - from - 1]; }
    }
  }

  lemma {:induction false} NormalsSplit(a: seq<Item>, b: seq<Item>)
    ensures Normals(a + b) == Normals(a) + Normals(b)
  {
  }

  lemma {:induction false} FlatOfNormal(chains: seq<seq<Item>>, normal: seq<seq<Item>>)
    requires |normal| == |chains|
    requires forall i :: 0 <= i < |chains| ==> normal[i] == Normals(chains[i])
    ensures Flat(normal) == Normals(Flat(chains))
  {
    if chains != [] {
      FlatOfNormal(chains[1..], normal[1..]);
      NormalsSplit(chains[0], Flat(chains[1..]));
    }
  }

  lemma NormalTableOk(t: Table)
    requires TableOk(t)
    ensures TableOk(NormalTable(t))
  {
    forall b | 0 <= b < 256
      ensures ChainOk(NormalTable(t)[b], b)
    {
      assert ChainOk(t[b], b);
    }
  }

  /** The index as load_index gives it. */
  function Reloaded(t: Table): Table { ReversedTable(NormalTable(t)) }

  predicate TagsOk(t: Table) {
    forall b, i :: 0 <= b < 256 && 0 <= i < |t[b]| ==> TagOk(t[b][i])
  }

  lemma TagsOfItems(t: Table)
    requires TableOk(t) && TagsOk(t)
    ensures forall it :: it in Items(t) ==> TagOk(it)
  {
    FlatIs(t, 0);
    forall it | it in Items(t)
      ensures TagOk(it)
    {
      assert InSome(t, it);
    }
  }

  /** Loading a saved index into an empty one gives what was saved, with the order within each chain
      reversed and an empty tag turned into none. */
  lemma LoadReverses(sha: Sha, t: Table, now: U32)
    requires TableOk(t) && TagsOk(t) && |Items(t)| < 0x8000_0000
    ensures Load(sha, IndexFile(sha, t, now)) == Loaded(Normals(Items(t)))
    ensures Refill(EmptyTable(), Normals(Items(t))) == Reloaded(t)
  {
    TagsOfItems(t);
    LoadOfSaved(sha, t, now);
    RefillReloads(t);
  }

  lemma RefillReloads(t: Table)
    requires TableOk(t)
    ensures Refill(EmptyTable(), Normals(Items(t))) == Reloaded(t)
  {
    FlatOfNormal(t, NormalTable(t));
    NormalTableOk(t);
    RefillReverses(EmptyTable(), NormalTable(t), 0);
  }

  lemma {:induction false} SameCount(t: seq<seq<Item>>, u: seq<seq<Item>>)
    requires |t| == |u| && forall i :: 0 <= i < |t| ==> |t[i]| == |u[i]|
    ensures |Flat(t)| == |Flat(u)|
  {
    if t != [] { SameCount(t[1..], u[1..]); }
  }

  lemma ReversedTwice(s: seq<Item>)
    ensures Reversed(Normals(Reversed(Normals(s)))) == Normals(s)
  {
    var r := Normals(Reversed(Normals(s)));
    forall i | 0 <= i < |s|
      ensures Reversed(r)[i] == Normals(s)[i]
    {
      assert r[|s| - 1 - i] == Normal(Normals(s)[i]);
    }
  }

  lemma ReloadedChain(t: Table, b: nat)
    requires TableOk(t) && TagsOk(t) && b < 256
    ensures ChainOk(Reloaded(t)[b], b) && |Reloaded(t)[b]| == |t[b]|
    ensures forall i :: 0 <= i < |t[b]| ==> TagOk(Reloaded(t)[b][i])
  {
    assert ChainOk(t[b], b);
  }

  /** Loading twice, without anything in between, brings the index back as it was, but for empty
      tags. */
  lemma TwoLoadsRestore(sha: Sha, t: Table, now: U32)
    requires TableOk(t) && TagsOk(t) && |Items(t)| < 0x8000_0000
    ensures Load(sha, IndexFile(sha, Reloaded(t), now)) == Loaded(Normals(Items(Reloaded(t))))
    ensures Refill(EmptyTable(), Normals(Items(Reloaded(t)))) == NormalTable(t)
  {
    var u := Reloaded(t);
    forall b | 0 <= b < 256
      ensures ChainOk(u[b], b) && |u[b]| == |t[b]|
      ensures forall i :: 0 <= i < |t[b]| ==> TagOk(u[b][i])
      ensures Reloaded(u)[b] == NormalTable(t)[b]
    {
      ReloadedChain(t, b);
      ReversedTwice(t[b]);
    }
    SameCount(t, u);
    LoadReverses(sha, u, now);
  }
}
