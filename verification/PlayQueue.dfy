/** The play queue of src/playqueue.c: three lists over the same entries, the events that carry
    entries to the player thread, and the entry that thread holds. */
module PlayQueue {
  import opened Common
  import opened PlayList

  type U32 = i: int | 0 <= i < 0x1_0000_0000

  /** A playqueue_entry_t; `origin` is pqe_originator. */
  datatype Entry = Entry(refs: int, enq: bool, linked: bool, playable: bool, startme: nat,
                         origin: Option<nat>, index: nat, hasUrl: bool)

  /** The entries that are allocated, the lists, `events` with the entries of undelivered jump
      events, and the entry the player thread holds. */
  datatype Queue = Queue(entries: map<Id, Entry>, linear: seq<Id>, shuffled: seq<Id>,
                         source: seq<Id>, length: int, lfg: U32, shuffle: bool, repeat: bool,
                         current: Option<Id>, held: Option<Id>, events: seq<Id>)

  // ---- What every operation keeps --------------------------------------------------------

  function One(b: bool): nat { if b then 1 else 0 }

  /** How many of the lists, the events and the player thread refer to an entry. */
  function Uses(id: Id, linear: seq<Id>, source: seq<Id>, events: seq<Id>, held: Option<Id>): nat {
    One(id in source) + One(id in linear) + Count(events, id) + One(held == Some(id))
  }

  /** The lists have every entry once, the linear and the shuffled one have the same entries, and
      the source list is the linear one without the other entries. */
  ghost predicate ListsOk(linear: seq<Id>, shuffled: seq<Id>, source: seq<Id>, length: int) {
    && Distinct(linear) && Distinct(shuffled) && Distinct(source)
    && length == |linear| == |shuffled|
    && (forall id :: id in linear <==> id in shuffled)
    && Only(linear, source) == source
  }

  predicate EntryIs(e: Entry, id: Id, linear: seq<Id>, source: seq<Id>, events: seq<Id>,
                    held: Option<Id>)
  {
    && e.linked == (id in linear) && e.origin.Some? == (id in source)
    && e.refs == Uses(id, linear, source, events, held) && e.refs > 0
    && (id in linear ==> e.index == Pos(linear, id) + 1)
  }

  predicate EntryOk(q: Queue, id: Id)
    requires id in q.entries
  {
    EntryIs(q.entries[id], id, q.linear, q.source, q.events, q.held)
  }

  predicate Known(q: Queue) {
    && (forall id :: id in q.linear ==> id in q.entries)
    && (forall id :: id in q.source ==> id in q.entries)
    && (forall id :: id in q.events ==> id in q.entries)
    && (q.held.Some? ==> q.held.value in q.entries)
  }

  ghost predicate Inv(q: Queue) {
    && ListsOk(q.linear, q.shuffled, q.source, q.length) && Known(q)
    && forall id :: id in q.entries ==> EntryOk(q, id)
  }

  lemma SourceIsLinked(q: Queue, id: Id)
    requires Inv(q) && id in q.source
    ensures id in q.linear
  {
    OnlyIs(q.linear, q.source);
  }

  // ---- Operations ------------------------------------------------------------------------

  function Ref(q: Queue, id: Id): Queue
    requires id in q.entries
  {
    q.(entries := q.entries[id := q.entries[id].(refs := q.entries[id].refs + 1)])
  }

  /** pqe_unref; the assertions made before an entry is freed are its precondition. */
  function Unref(q: Queue, id: Id): Queue
    requires id in q.entries && q.entries[id].refs > 0
    requires q.entries[id].refs == 1 ==> !q.entries[id].linked && q.entries[id].origin.None?
  {
    var e := q.entries[id];
    q.(entries := if e.refs == 1 then q.entries - {id} else q.entries[id := e.(refs := e.refs - 1)])
  }

  /** pq_renumber from the entry at position `from` on. */
  function Renumber(entries: map<Id, Entry>, linear: seq<Id>, from: nat): map<Id, Entry> {
    map id | id in entries ::
      if id in linear && Pos(linear, id) >= from
      then entries[id].(index := Pos(linear, id) + 1) else entries[id]
  }

  function Lfg(x: U32): U32 { (x * 1664525 + 1013904223) % 0x1_0000_0000 }

  /** What pqe_insert_shuffled inserts before when it has drawn `v`: it goes one entry further. */
  function Before(shuffled: seq<Id>, v: nat): Option<Id> {
    if v + 1 < |shuffled| then Some(shuffled[v + 1]) else None
  }

  /** pqe_insert_shuffled */
  function InsertShuffled(q: Queue, id: Id): Queue
    requires q.length >= 0
  {
    var lfg := Lfg(q.lfg);
    q.(lfg := lfg, length := q.length + 1,
       shuffled := Insert(q.shuffled, Before(q.shuffled, lfg % (q.length + 1)), id))
  }

  /** pqe_remove_from_sourcequeue */
  function RemoveSource(q: Queue, id: Id): Queue
    requires Inv(q) && id in q.source
  {
    Unref(q.(source := Minus(q.source, id),
             entries := q.entries[id := q.entries[id].(origin := None)]), id)
  }

  /** pqe_remove_from_globalqueue, up to pq_renumber. */
  function UnlinkGlobal(q: Queue, id: Id): Queue
    requires Inv(q) && id in q.linear && id !in q.source
  {
    Unref(q.(linear := Minus(q.linear, id), shuffled := Minus(q.shuffled, id),
             length := q.length - 1,
             entries := q.entries[id := q.entries[id].(linked := false)]), id)
  }

  /** pqe_remove_from_globalqueue */
  function RemoveGlobal(q: Queue, id: Id): Queue
    requires Inv(q) && id in q.linear && id !in q.source
  {
    var r := UnlinkGlobal(q, id);
    r.(entries := Renumber(r.entries, r.linear, Pos(q.linear, id)))
  }

  /** A new entry in the linear and the shuffled list. */
  function Link(q: Queue, id: Id, e: Entry, before: Option<Id>): Queue
    requires q.length >= 0
  {
    var linear := Insert(q.linear, before, id);
    var entries := Renumber(q.entries[id := e], linear, Place(q.linear, before));
    InsertShuffled(q.(linear := linear, entries := entries), id)
  }

  /** add_from_source */
  function AddFromSource(q: Queue, id: Id, p: nat, before: Option<Id>, startme: nat): Queue
    requires q.length >= 0
  {
    Link(q.(source := Insert(q.source, before, id)), id,
         Entry(2, false, true, true, startme, Some(p), 0, false), before)
  }

  /** move_track, up to the insertion into the shuffled list. */
  function Moved(q: Queue, id: Id, before: Option<Id>): Queue {
    var linear := Insert(Minus(q.linear, id), before, id);
    q.(source := Insert(Minus(q.source, id), before, id), linear := linear,
       shuffled := Minus(q.shuffled, id), length := q.length - 1,
       entries := Renumber(q.entries, linear, 0))
  }

  /** move_track */
  function Move(q: Queue, id: Id, before: Option<Id>): Queue
    requires q.length >= 1
  {
    InsertShuffled(Moved(q, id, before), id)
  }

  // ---- Invariance of the parts -----------------------------------------------------------

  lemma UnrefKeepsOthers(q: Queue, id: Id)
    requires id in q.entries && q.entries[id].refs > 0
    requires q.entries[id].refs == 1 ==> !q.entries[id].linked && q.entries[id].origin.None?
    ensures var r := Unref(q, id);
            && r == q.(entries := r.entries)
            && (forall x :: x in r.entries <==>
                  x in q.entries && (x == id ==> q.entries[id].refs > 1))
            && (forall x :: x in r.entries ==>
                  r.entries[x] == if x == id then q.entries[x].(refs := q.entries[x].refs - 1)
                                  else q.entries[x])
  {
  }

  lemma RemoveSourceLists(q: Queue, id: Id)
    requires Inv(q) && id in q.source
    ensures ListsOk(q.linear, q.shuffled, Minus(q.source, id), q.length)
  {
    MinusIs(q.source, id);
    OnlyFewer(q.linear, q.source, id);
  }

  lemma RemoveSourceKeepsInv(q: Queue, id: Id)
    requires Inv(q) && id in q.source
    ensures Inv(RemoveSource(q, id))
  {
    SourceIsLinked(q, id);
    assert EntryOk(q, id);
    RemoveSourceLists(q, id);
    MinusIs(q.source, id);
    var r := RemoveSource(q, id);
    forall x | x in r.entries
      ensures EntryOk(r, x)
    {
      assert EntryOk(q, x);
    }
  }

  lemma RemoveGlobalLists(q: Queue, id: Id)
    requires Inv(q) && id in q.linear && id !in q.source
    ensures ListsOk(Minus(q.linear, id), Minus(q.shuffled, id), q.source, q.length - 1)
  {
    MinusIs(q.linear, id);
    MinusIs(q.shuffled, id);
    OnlyMinus(q.linear, q.source, id);
    MinusAbsent(q.source, id);
  }

  /** The entries after one has left the linear list. */
  lemma RemoveGlobalIs(q: Queue, id: Id)
    requires Inv(q) && id in q.linear && id !in q.source
    ensures var r := RemoveGlobal(q, id);
            && r.linear == Minus(q.linear, id) && r.shuffled == Minus(q.shuffled, id)
            && r.length == q.length - 1 && r.source == q.source
            && r.held == q.held && r.events == q.events
            && (forall x :: x in r.entries <==>
                  x in q.entries && (x == id ==> q.entries[id].refs > 1))
            && forall x :: x in r.entries ==>
                 var e := if x == id
                          then q.entries[x].(linked := false, refs := q.entries[x].refs - 1)
                          else q.entries[x];
                 r.entries[x] == if x in r.linear && Pos(r.linear, x) >= Pos(q.linear, id)
                                 then e.(index := Pos(r.linear, x) + 1) else e
  {
    assert EntryOk(q, id);
  }

  lemma EntryAfterRemoval(e: Entry, x: Id, linear: seq<Id>, id: Id, source: seq<Id>,
                          events: seq<Id>, held: Option<Id>)
    requires Distinct(linear) && id in linear && id !in source
    requires EntryIs(e, x, linear, source, events, held) && (x == id ==> e.refs > 1)
    ensures var linear' := Minus(linear, id);
            var e' := if x == id then e.(linked := false, refs := e.refs - 1) else e;
            EntryIs(if x in linear' && Pos(linear', x) >= Pos(linear, id)
                    then e'.(index := Pos(linear', x) + 1) else e',
                    x, linear', source, events, held)
  {
    MinusIs(linear, id);
    if x in Minus(linear, id) { MinusPos(linear, id, x); }
  }

  lemma RemoveGlobalEntry(q: Queue, id: Id, x: Id)
    requires Inv(q) && id in q.linear && id !in q.source && x in RemoveGlobal(q, id).entries
    ensures EntryOk(RemoveGlobal(q, id), x)
  {
    RemoveGlobalIs(q, id);
    assert EntryOk(q, x);
    EntryAfterRemoval(q.entries[x], x, q.linear, id, q.source, q.events, q.held);
  }

  lemma RemoveGlobalKeepsInv(q: Queue, id: Id)
    requires Inv(q) && id in q.linear && id !in q.source
    ensures Inv(RemoveGlobal(q, id))
  {
    RemoveGlobalLists(q, id);
    RemoveGlobalIs(q, id);
    MinusIs(q.linear, id);
    assert EntryOk(q, id);
    CountPositive(q.events, id);
    var r := RemoveGlobal(q, id);
    forall x | x in r.entries
      ensures EntryOk(r, x)
    {
      RemoveGlobalEntry(q, id, x);
    }
  }

  lemma InsertShuffledIs(q: Queue, id: Id)
    requires q.length >= 0 && id !in q.shuffled && Distinct(q.shuffled)
    ensures var r := InsertShuffled(q, id);
            && Distinct(r.shuffled) && |r.shuffled| == |q.shuffled| + 1
            && (forall x :: x in r.shuffled <==> x in q.shuffled || x == id)
            && r == q.(shuffled := r.shuffled, lfg := r.lfg, length := q.length + 1)
  {
    InsertIs(q.shuffled, Before(q.shuffled, Lfg(q.lfg) % (q.length + 1)), id);
  }

  /** Where the entry ends up: one place after the one drawn, and never first but in an empty
      list. */
  lemma ShuffledPlace(shuffled: seq<Id>, v: nat, id: Id)
    requires id !in shuffled && Distinct(shuffled)
    ensures var at := if v + 1 < |shuffled| then v + 1 else |shuffled|;
            && Insert(shuffled, Before(shuffled, v), id) == shuffled[..at] + [id] + shuffled[at..]
            && (shuffled != [] ==> Insert(shuffled, Before(shuffled, v), id)[0] == shuffled[0])
  {
    InsertSplit(shuffled, Before(shuffled, v), id);
    if v + 1 < |shuffled| { PosIs(shuffled, v + 1); }
  }

  /** A new entry, in the source list or not. */
  ghost predicate CanLink(q: Queue, source: seq<Id>, id: Id, e: Entry, before: Option<Id>) {
    && Inv(q) && id !in q.entries && e.linked
    && Distinct(source) && Only(Insert(q.linear, before, id), source) == source
    && (forall x :: x in source <==> x in q.source || (x == id && e.origin.Some?))
    && e.refs == if e.origin.Some? then 2 else 1
  }

  lemma LinkIs(q: Queue, source: seq<Id>, id: Id, e: Entry, before: Option<Id>)
    requires CanLink(q, source, id, e, before)
    ensures var r := Link(q.(source := source), id, e, before);
            && ListsOk(r.linear, r.shuffled, r.source, r.length)
            && (forall x :: x in r.linear <==> x in q.linear || x == id)
            && r.linear == Insert(q.linear, before, id) && r.source == source
            && r.held == q.held && r.events == q.events
            && r.entries == Renumber(q.entries[id := e], r.linear, Place(q.linear, before))
  {
    var p := q.(source := source);
    var r := Link(p, id, e, before);
    InsertIs(q.linear, before, id);
    InsertShuffledIs(p.(linear := r.linear, entries := r.entries), id);
  }

  lemma LinkEntry(q: Queue, source: seq<Id>, id: Id, e: Entry, before: Option<Id>, x: Id)
    requires CanLink(q, source, id, e, before) && (x in q.entries || x == id)
    ensures var r := Link(q.(source := source), id, e, before);
            x in r.entries && EntryOk(r, x)
  {
    LinkIs(q, source, id, e, before);
    CountPositive(q.events, id);
    assert x != id ==> EntryOk(q, x);
    if x == id || x in q.linear { InsertPos(q.linear, before, id, x); }
  }

  lemma LinkKeepsInv(q: Queue, source: seq<Id>, id: Id, e: Entry, before: Option<Id>)
    requires CanLink(q, source, id, e, before)
    ensures Inv(Link(q.(source := source), id, e, before))
  {
    LinkIs(q, source, id, e, before);
    var r := Link(q.(source := source), id, e, before);
    forall x | x in r.entries
      ensures EntryOk(r, x)
    {
      LinkEntry(q, source, id, e, before, x);
    }
  }

  lemma AddFromSourceKeepsInv(q: Queue, id: Id, p: nat, before: Option<Id>, startme: nat)
    requires Inv(q) && id !in q.entries && (before.Some? ==> before.value in q.source)
    ensures Inv(AddFromSource(q, id, p, before, startme))
  {
    var source := Insert(q.source, before, id);
    assert id !in q.linear && id !in q.source;
    InsertIs(q.source, before, id);
    OnlyInsert(q.linear, source, before, id);
    OnlyAgrees(q.linear, source, q.source);
    LinkKeepsInv(q, source, id, Entry(2, false, true, true, startme, Some(p), 0, false), before);
  }

  lemma AddAloneKeepsInv(q: Queue, id: Id, e: Entry, before: Option<Id>)
    requires Inv(q) && id !in q.entries && e.linked && e.origin.None? && e.refs == 1
    ensures Inv(Link(q, id, e, before))
  {
    OnlyInsertOther(q.linear, q.source, before, id);
    assert q.(source := q.source) == q;
    LinkKeepsInv(q, q.source, id, e, before);
  }

  lemma MoveOne(linear: seq<Id>, source: seq<Id>, id: Id, before: Option<Id>)
    requires Distinct(linear) && Distinct(source) && id in source && Only(linear, source) == source
    requires before.Some? ==> before.value in source && before.value != id
    ensures var source' := Insert(Minus(source, id), before, id);
            var linear' := Insert(Minus(linear, id), before, id);
            && Distinct(source') && (forall x :: x in source' <==> x in source)
            && Distinct(linear') && (forall x :: x in linear' <==> x in linear)
            && |linear'| == |linear| && Only(linear', source') == source'
  {
    OnlyIs(linear, source);
    MinusIs(source, id);
    MinusIs(linear, id);
    var source0, linear0 := Minus(source, id), Minus(linear, id);
    InsertIs(source0, before, id);
    InsertIs(linear0, before, id);
    var source' := Insert(source0, before, id);
    OnlyMinus(linear, source, id);
    OnlyAgrees(linear0, source, source');
    OnlyInsert(linear0, source', before, id);
  }

  lemma MoveShuffled(q: Queue, id: Id, before: Option<Id>)
    requires Distinct(q.shuffled) && id in q.shuffled && q.length == |q.shuffled|
    ensures var r := Move(q, id, before);
            && Distinct(r.shuffled) && |r.shuffled| == q.length == r.length
            && (forall x :: x in r.shuffled <==> x in q.shuffled)
            && r == Moved(q, id, before).(shuffled := r.shuffled, lfg := r.lfg, length := q.length)
  {
    MinusIs(q.shuffled, id);
    InsertShuffledIs(Moved(q, id, before), id);
  }

  lemma MoveLists(q: Queue, id: Id, before: Option<Id>)
    requires Inv(q) && id in q.source
    requires before.Some? ==> before.value in q.source && before.value != id
    ensures ListsOk(Move(q, id, before).linear, Move(q, id, before).shuffled,
                    Move(q, id, before).source, q.length)
    ensures var r := Move(q, id, before);
            && (forall x :: x in r.linear <==> x in q.linear)
            && (forall x :: x in r.source <==> x in q.source)
  {
    SourceIsLinked(q, id);
    MoveOne(q.linear, q.source, id, before);
    MoveShuffled(q, id, before);
  }

  lemma MoveKeepsInv(q: Queue, id: Id, before: Option<Id>)
    requires Inv(q) && id in q.source
    requires before.Some? ==> before.value in q.source && before.value != id
    ensures Inv(Move(q, id, before))
  {
    SourceIsLinked(q, id);
    MoveLists(q, id, before);
    var r := Move(q, id, before);
    forall x | x in r.entries
      ensures EntryOk(r, x)
    {
      assert EntryOk(q, x);
    }
  }

  // ---- Composite operations --------------------------------------------------------------

  /** del_from_source */
  function DelFromSource(q: Queue, id: Id): Queue
    requires Inv(q) && id in q.source
  {
    SourceIsLinked(q, id);
    RemoveSourceKeepsInv(q, id);
    MinusIs(q.source, id);
    assert EntryOk(q, id);
    var r := RemoveSource(q, id);
    if r.entries[id].linked then RemoveGlobal(r, id) else r
  }

  lemma DelFromSourceKeepsInv(q: Queue, id: Id)
    requires Inv(q) && id in q.source
    ensures Inv(DelFromSource(q, id))
  {
    SourceIsLinked(q, id);
    RemoveSourceKeepsInv(q, id);
    MinusIs(q.source, id);
    assert EntryOk(q, id);
    RemoveGlobalKeepsInv(RemoveSource(q, id), id);
  }

  /** The first loop of playqueue_clear. */
  function ClearSource(q: Queue): (r: Queue)
    requires Inv(q)
    ensures Inv(r) && r.source == []
    decreases |q.source|
  {
    if q.source == [] then q
    else
      RemoveSourceKeepsInv(q, q.source[0]);
      MinusIs(q.source, q.source[0]);
      ClearSource(RemoveSource(q, q.source[0]))
  }

  /** The second loop of playqueue_clear. */
  function ClearLinear(q: Queue): (r: Queue)
    requires Inv(q) && q.source == []
    ensures Inv(r) && r.linear == [] && r.source == []
    decreases |q.linear|
  {
    if q.linear == [] then q
    else
      RemoveGlobalKeepsInv(q, q.linear[0]);
      MinusIs(q.linear, q.linear[0]);
      ClearLinear(RemoveGlobal(q, q.linear[0]))
  }

  /** playqueue_clear */
  function Clear(q: Queue): (r: Queue)
    requires Inv(q)
    ensures Inv(r) && r.linear == r.shuffled == r.source == [] && r.length == 0
  {
    ClearLinear(ClearSource(q))
  }
}
