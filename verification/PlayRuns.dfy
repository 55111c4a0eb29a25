/** Runs of the play queue of src/playqueue.c: what its users, its source and its player thread do
    to it, in any order. */
module PlayRuns {
  import opened Common
  import opened PlayList
  import opened PlayQueue
  import opened PlayAdvance

  // ---- Enqueueing ------------------------------------------------------------------------

  /** pqe_play */
  function PqePlay(q: Queue, id: Id): Queue
    requires id in q.entries
  {
    Ref(q, id).(events := q.events + [id])
  }

  /** The first position from `i` on that holds no enqueued entry. */
  function SkipEnqueued(q: Queue, i: nat): (k: nat)
    requires i <= |q.linear|
    ensures i <= k <= |q.linear|
    decreases |q.linear| - i
  {
    if i < |q.linear| && q.linear[i] in q.entries && q.entries[q.linear[i]].enq
    then SkipEnqueued(q, i + 1) else i
  }

  /** Where playqueue_enqueue inserts: behind the entries enqueued after the current one. */
  function EnqueuePlace(q: Queue): (k: nat)
    requires q.current.Some? ==> q.current.value in q.linear
    ensures k <= |q.linear|
  {
    if q.current.None? then |q.linear| else SkipEnqueued(q, Pos(q.linear, q.current.value) + 1)
  }

  function EntryAt(s: seq<Id>, k: nat): Option<Id> { if k < |s| then Some(s[k]) else None }

  function Alone(enq: bool): Entry { Entry(1, enq, true, true, 0, None, 0, true) }

  /** playqueue_enqueue */
  function Enqueue(q: Queue, id: Id): Queue
    requires Inv(q) && id !in q.entries
    requires q.current.Some? ==> q.current.value in q.linear
  {
    var r := Link(q, id, Alone(true), EntryAt(q.linear, EnqueuePlace(q)));
    LinkHas(q, id, Alone(true), EntryAt(q.linear, EnqueuePlace(q)));
    if q.current.None? then PqePlay(r, id) else r
  }

  lemma LinkHas(q: Queue, id: Id, e: Entry, before: Option<Id>)
    requires Inv(q)
    ensures var r := Link(q, id, e, before);
            && id in r.entries && r.current == q.current && r.linear == Insert(q.linear, before, id)
            && r.events == q.events && r.source == q.source
            && (forall x :: x in r.entries <==> x in q.entries || x == id)
            && (forall x :: x in r.entries ==>
                  r.entries[x].enq == if x == id then e.enq else q.entries[x].enq)
  {
  }

  lemma PqePlayKeepsInv(q: Queue, id: Id)
    requires Inv(q) && id in q.entries
    ensures Inv(PqePlay(q, id))
  {
    var r := PqePlay(q, id);
    forall x | x in r.entries
      ensures EntryOk(r, x)
    {
      assert EntryOk(q, x);
      CountSplit(q.events, [id], x);
    }
  }

  lemma EnqueueKeepsInv(q: Queue, id: Id)
    requires Inv(q) && id !in q.entries
    requires q.current.Some? ==> q.current.value in q.linear
    ensures Inv(Enqueue(q, id))
  {
    var before := EntryAt(q.linear, EnqueuePlace(q));
    AddAloneKeepsInv(q, id, Alone(true), before);
    LinkHas(q, id, Alone(true), before);
    if q.current.None? { PqePlayKeepsInv(Link(q, id, Alone(true), before), id); }
  }

  lemma InsertAt(s: seq<Id>, k: nat, x: Id)
    requires Distinct(s) && k <= |s|
    ensures Insert(s, EntryAt(s, k), x) == s[..k] + [x] + s[k..]
  {
    InsertSplit(s, EntryAt(s, k), x);
    if k < |s| { PosIs(s, k); }
  }

  lemma EnqueueLinear(q: Queue, id: Id)
    requires Inv(q) && id !in q.entries && q.current.Some? && q.current.value in q.linear
    ensures var r, k := Enqueue(q, id), EnqueuePlace(q);
            && r.current == q.current && r.linear == q.linear[..k] + [id] + q.linear[k..]
            && (forall x :: x in r.entries <==> x in q.entries || x == id)
            && (forall x :: x in r.entries ==>
                  r.entries[x].enq == if x == id then true else q.entries[x].enq)
  {
    LinkHas(q, id, Alone(true), EntryAt(q.linear, EnqueuePlace(q)));
    InsertAt(q.linear, EnqueuePlace(q), id);
  }

  lemma PosKept(s: seq<Id>, k: nat, x: Id, r: seq<Id>, c: nat)
    requires k <= |s| && r == s[..k] + [x] + s[k..] && Distinct(r) && c < k
    ensures s[c] in r && Pos(r, s[c]) == c
  {
    assert r[c] == s[c];
    PosIs(r, c);
  }

  /** The linear entries of `q` are known to both, and marked as enqueued alike. */
  predicate SameMarks(q: Queue, r: Queue) {
    forall j :: 0 <= j < |q.linear| ==>
      && q.linear[j] in q.entries && q.linear[j] in r.entries
      && r.entries[q.linear[j]].enq == q.entries[q.linear[j]].enq
  }

  lemma EnqueuePlaceMoves(q: Queue, r: Queue, id: Id, k: nat)
    requires q.current.Some? && q.current.value in q.linear && k == EnqueuePlace(q)
    requires r.current == q.current && Distinct(r.linear)
    requires r.linear == q.linear[..k] + [id] + q.linear[k..]
    requires id in r.entries && r.entries[id].enq && SameMarks(q, r)
    ensures r.current.value in r.linear && EnqueuePlace(r) == k + 1
  {
    var c := Pos(q.linear, q.current.value);
    PosKept(q.linear, k, id, r.linear, c);
    BlockGrows(q, r, c + 1, k, id);
  }

  /** An entry that is enqueued goes to the end of the block of entries enqueued before. */
  lemma EnqueueExtendsBlock(q: Queue, id: Id)
    requires Inv(q) && id !in q.entries && q.current.Some? && q.current.value in q.linear
    ensures var r, k := Enqueue(q, id), EnqueuePlace(q);
            && Inv(r) && r.current == q.current
            && r.linear == q.linear[..k] + [id] + q.linear[k..]
            && r.current.value in r.linear && EnqueuePlace(r) == k + 1
            && (forall x :: x in r.entries <==> x in q.entries || x == id)
  {
    EnqueueKeepsInv(q, id);
    EnqueueLinear(q, id);
    EntriesOfLinear(q);
    EnqueuePlaceMoves(q, Enqueue(q, id), id, EnqueuePlace(q));
  }

  lemma EntriesOfLinear(q: Queue)
    requires Inv(q)
    ensures forall j :: 0 <= j < |q.linear| ==> q.linear[j] in q.entries
  {
  }

  lemma {:induction false} BlockGrows(q: Queue, r: Queue, i: nat, k: nat, id: Id)
    requires i <= k <= |q.linear| && SkipEnqueued(q, i) == k
    requires r.linear == q.linear[..k] + [id] + q.linear[k..]
    requires id in r.entries && r.entries[id].enq
    requires SameMarks(q, r)
    ensures SkipEnqueued(r, i) == k + 1
    decreases k - i
  {
    if i < k {
      assert r.linear[i] == q.linear[i];
      BlockGrows(q, r, i + 1, k, id);
    } else {
      assert r.linear[k] == id;
      assert SkipEnqueued(r, k) == SkipEnqueued(r, k + 1);
      if k < |q.linear| { assert r.linear[k + 1] == q.linear[k]; }
    }
  }

  /** The current entry is linked, and `ids` are new. */
  ghost predicate CanEnqueue(q: Queue, ids: seq<Id>) {
    && Inv(q) && q.current.Some? && q.current.value in q.linear
    && Distinct(ids) && forall x :: x in ids ==> x !in q.entries
  }

  lemma CanEnqueueNext(q: Queue, ids: seq<Id>)
    requires CanEnqueue(q, ids) && ids != []
    ensures ids[0] !in q.entries && CanEnqueue(Enqueue(q, ids[0]), ids[1..])
  {
    assert ids[0] in ids;
    EnqueueExtendsBlock(q, ids[0]);
  }

  function EnqueueAll(q: Queue, ids: seq<Id>): Queue
    requires CanEnqueue(q, ids)
    decreases |ids|
  {
    if ids == [] then q
    else CanEnqueueNext(q, ids); EnqueueAll(Enqueue(q, ids[0]), ids[1..])
  }

  /** Entries enqueued one after the other while the current one stays form a queue: they stand
      behind those enqueued before, in the order in which they came. */
  lemma {:induction false} EnqueuedInOrder(q: Queue, ids: seq<Id>)
    requires CanEnqueue(q, ids)
    ensures var k := EnqueuePlace(q);
            EnqueueAll(q, ids).linear == q.linear[..k] + ids + q.linear[k..]
    decreases |ids|
  {
    var k := EnqueuePlace(q);
    if ids == [] {
      assert q.linear == q.linear[..k] + ids + q.linear[k..];
    } else {
      CanEnqueueNext(q, ids);
      var r := Enqueue(q, ids[0]);
      EnqueuedInOrder(r, ids[1..]);
      EnqueueExtendsBlock(q, ids[0]);
      EnqueuedJoin(q.linear, k, ids, r.linear, EnqueueAll(r, ids[1..]).linear);
    }
  }

  lemma EnqueuedJoin(s: seq<Id>, k: nat, ids: seq<Id>, r: seq<Id>, all: seq<Id>)
    requires k <= |s| && ids != [] && r == s[..k] + [ids[0]] + s[k..]
    requires all == r[..k + 1] + ids[1..] + r[k + 1..]
    ensures all == s[..k] + ids + s[k..]
  {
    assert r[..k + 1] == s[..k] + [ids[0]] && r[k + 1..] == s[k..];
    assert ids == [ids[0]] + ids[1..];
  }

  // ---- Loading ---------------------------------------------------------------------------

  lemma {:induction false} ClearSourceShrinks(q: Queue)
    requires Inv(q)
    ensures forall x :: x in ClearSource(q).entries ==> x in q.entries
    decreases |q.source|
  {
    if q.source != [] {
      RemoveSourceKeepsInv(q, q.source[0]);
      MinusIs(q.source, q.source[0]);
      ClearSourceShrinks(RemoveSource(q, q.source[0]));
    }
  }

  lemma {:induction false} ClearLinearShrinks(q: Queue)
    requires Inv(q) && q.source == []
    ensures forall x :: x in ClearLinear(q).entries ==> x in q.entries
    decreases |q.linear|
  {
    if q.linear != [] {
      RemoveGlobalKeepsInv(q, q.linear[0]);
      RemoveGlobalIs(q, q.linear[0]);
      MinusIs(q.linear, q.linear[0]);
      ClearLinearShrinks(RemoveGlobal(q, q.linear[0]));
    }
  }

  /** playqueue_play */
  function PlayUrl(q: Queue, id: Id): Queue
    requires Inv(q) && id !in q.entries
  {
    LinkHas(Clear(q), id, Alone(false), None);
    PqePlay(Link(Clear(q), id, Alone(false), None), id)
  }

  lemma PlayUrlKeepsInv(q: Queue, id: Id)
    requires Inv(q) && id !in q.entries
    ensures Inv(PlayUrl(q, id))
  {
    ClearSourceShrinks(q);
    ClearLinearShrinks(ClearSource(q));
    AddAloneKeepsInv(Clear(q), id, Alone(false), None);
    LinkHas(Clear(q), id, Alone(false), None);
    PqePlayKeepsInv(Link(Clear(q), id, Alone(false), None), id);
  }

  // ---- What the source tells about an entry ----------------------------------------------

  /** source_set_url */
  function SetUrl(q: Queue, id: Id): Queue
    requires id in q.entries
  {
    var e := q.entries[id];
    var r := if e.startme > 0 then PqePlay(q, id) else q;
    r.(entries := r.entries[id := r.entries[id].(hasUrl := true, startme := 0)])
  }

  /** source_set_type */
  function SetType(q: Queue, id: Id, playable: bool): Queue
    requires id in q.entries
  {
    q.(entries := q.entries[id := q.entries[id].(playable := playable)])
  }

  lemma ChangeKeepsInv(q: Queue, id: Id, e: Entry)
    requires Inv(q) && id in q.entries
    requires e == q.entries[id].(hasUrl := e.hasUrl, startme := e.startme, playable := e.playable)
    ensures Inv(q.(entries := q.entries[id := e]))
  {
    var r := q.(entries := q.entries[id := e]);
    forall x | x in r.entries
      ensures EntryOk(r, x)
    {
      assert EntryOk(q, x);
    }
  }

  // ---- The player thread -----------------------------------------------------------------

  function Cut(s: seq<Id>, i: nat): seq<Id>
    requires i < |s|
  {
    s[..i] + s[i + 1..]
  }

  lemma CountCut(s: seq<Id>, i: nat, x: Id)
    requires i < |s|
    ensures Count(s, x) == Count(Cut(s, i), x) + One(s[i] == x)
  {
    assert s == s[..i] + ([s[i]] + s[i + 1..]);
    CountSplit(s[..i], [s[i]] + s[i + 1..], x);
    CountSplit(s[..i], s[i + 1..], x);
    assert ([s[i]] + s[i + 1..])[1..] == s[i + 1..];
  }

  /** The thread lets go of its entry. */
  function Release(q: Queue): Queue
    requires Inv(q) && q.held.Some?
  {
    assert EntryOk(q, q.held.value);
    Unref(q, q.held.value).(held := None)
  }

  lemma ReleaseKeepsInv(q: Queue)
    requires Inv(q) && q.held.Some?
    ensures Inv(Release(q)) && Release(q).events == q.events
  {
    var h := q.held.value;
    assert EntryOk(q, h);
    CountPositive(q.events, h);
    UnrefKeepsOthers(q, h);
    var r := Release(q);
    forall x | x in r.entries
      ensures EntryOk(r, x)
    {
      ReleaseEntry(q, x);
    }
  }

  lemma ReleaseEntry(q: Queue, x: Id)
    requires Inv(q) && q.held.Some? && x in Release(q).entries
    ensures EntryOk(Release(q), x)
  {
    assert EntryOk(q, q.held.value);
    UnrefKeepsOthers(q, q.held.value);
    assert EntryOk(q, x);
  }

  /** A jump event is delivered; the reference it held passes to the thread. */
  function TakeEvent(q: Queue, i: nat): Queue
    requires Inv(q) && i < |q.events|
  {
    var r := if q.held.Some? then Release(q) else q;
    r.(events := Cut(q.events, i), held := Some(q.events[i]))
  }

  lemma TakeEventKeepsInv(q: Queue, i: nat)
    requires Inv(q) && i < |q.events|
    ensures Inv(TakeEvent(q, i))
  {
    var p := if q.held.Some? then Release(q) else q;
    if q.held.Some? { ReleaseKeepsInv(q); }
    var r := TakeEvent(q, i);
    assert p.events == q.events && q.events[i] in p.events;
    forall x | x in r.events
      ensures x in p.events
    {
    }
    forall x | x in r.entries
      ensures EntryOk(r, x)
    {
      assert EntryOk(p, x);
      CountCut(q.events, i, x);
    }
  }

  /** pqe_event_dtor of an event that has not been delivered. */
  function DropEvent(q: Queue, i: nat): Queue
    requires Inv(q) && i < |q.events|
  {
    assert q.events[i] in q.events && EntryOk(q, q.events[i]);
    CountPositive(q.events, q.events[i]);
    Unref(q, q.events[i]).(events := Cut(q.events, i))
  }

  lemma DropEventIs(q: Queue, i: nat)
    requires Inv(q) && i < |q.events|
    ensures var id, r := q.events[i], DropEvent(q, i);
            && id in q.entries && r == q.(entries := r.entries, events := Cut(q.events, i))
            && (forall x :: x in r.entries <==>
                  x in q.entries && (x == id ==> q.entries[id].refs > 1))
            && forall x :: x in r.entries ==>
                 r.entries[x] == if x == id then q.entries[x].(refs := q.entries[x].refs - 1)
                                 else q.entries[x]
  {
    var id := q.events[i];
    assert id in q.events && EntryOk(q, id);
    CountPositive(q.events, id);
    UnrefKeepsOthers(q, id);
  }

  lemma DropEventEntry(q: Queue, i: nat, x: Id)
    requires Inv(q) && i < |q.events| && x in DropEvent(q, i).entries
    ensures EntryOk(DropEvent(q, i), x)
  {
    DropEventIs(q, i);
    assert EntryOk(q, x);
    CountCut(q.events, i, x);
  }

  /** An event that is left is one of an entry that is left. */
  lemma DropEventKnown(q: Queue, i: nat)
    requires Inv(q) && i < |q.events|
    ensures Known(DropEvent(q, i))
  {
    var id := q.events[i];
    DropEventIs(q, i);
    assert EntryOk(q, id);
    CountCut(q.events, i, id);
    CountPositive(Cut(q.events, i), id);
  }

  lemma DropEventKeepsInv(q: Queue, i: nat)
    requires Inv(q) && i < |q.events|
    ensures Inv(DropEvent(q, i))
  {
    DropEventIs(q, i);
    DropEventKnown(q, i);
    var r := DropEvent(q, i);
    forall x | x in r.entries
      ensures EntryOk(r, x)
    {
      DropEventEntry(q, i, x);
    }
  }

  /** The thread takes an entry of the queue when it has none. */
  function Hold(q: Queue, id: Id): Queue
    requires id in q.entries
  {
    Ref(q, id).(held := Some(id))
  }

  lemma HoldKeepsInv(q: Queue, id: Id)
    requires Inv(q) && id in q.entries && q.held.None?
    ensures Inv(Hold(q, id))
  {
    var r := Hold(q, id);
    forall x | x in r.entries
      ensures EntryOk(r, x)
    {
      assert EntryOk(q, x);
    }
  }

  /** playqueue_advance: the next entry is referenced before the old one is let go. */
  function AdvanceTo(q: Queue, next: Option<Id>): Queue
    requires Inv(q) && q.held.Some? && (next.Some? ==> next.value in q.linear)
  {
    var h := q.held.value;
    assert EntryOk(q, h);
    var r := if next.Some? then Ref(q, next.value) else q;
    Unref(r, h).(held := next)
  }

  lemma RefCommutes(q: Queue, h: Id, x: Id)
    requires h in q.entries && x in q.entries && x != h && q.entries[h].refs > 0
    requires q.entries[h].refs == 1 ==> !q.entries[h].linked && q.entries[h].origin.None?
    ensures x in Unref(q, h).entries && Unref(Ref(q, x), h) == Ref(Unref(q, h), x)
  {
    assert Unref(Ref(q, x), h).entries == Ref(Unref(q, h), x).entries;
  }

  lemma RefUndone(q: Queue, h: Id)
    requires h in q.entries && q.entries[h].refs > 0
    ensures Unref(Ref(q, h), h) == q
  {
    assert q.entries[h := q.entries[h]] == q.entries;
  }

  /** Unless the thread stays with its entry, this is letting go of the old and then holding the
      new one. */
  lemma AdvanceToIs(q: Queue, next: Option<Id>)
    requires Inv(q) && q.held.Some? && (next.Some? ==> next.value in q.linear)
    ensures next.None? ==> AdvanceTo(q, next) == Release(q)
    ensures next == q.held ==> AdvanceTo(q, next) == q
    ensures next.Some? && next != q.held ==>
              next.value in Release(q).entries
              && AdvanceTo(q, next) == Hold(Release(q), next.value)
  {
    var h := q.held.value;
    assert EntryOk(q, h);
    if next == q.held {
      RefUndone(q, h);
    } else if next.Some? {
      RefCommutes(q, h, next.value);
    }
  }

  lemma AdvanceToKeepsInv(q: Queue, next: Option<Id>)
    requires Inv(q) && q.held.Some? && (next.Some? ==> next.value in q.linear)
    ensures Inv(AdvanceTo(q, next))
  {
    AdvanceToIs(q, next);
    ReleaseKeepsInv(q);
    if next.Some? && next != q.held {
      HoldKeepsInv(Release(q), next.value);
    }
  }

  // ---- Runs ------------------------------------------------------------------------------

  datatype Step =
    | AddStep(id: Id, p: nat, before: Option<Id>, startme: nat)
    | DelStep(id: Id)
    | MoveStep(id: Id, before: Option<Id>)
    | ClearStep
    | JumpStep(id: Id)
    | EnqueueStep(id: Id)
    | PlayStep(id: Id)
    | UrlStep(id: Id)
    | TypeStep(id: Id, playable: bool)
    | ShuffleStep(on: bool)
    | RepeatStep(on: bool)
    | TakeStep(i: nat)
    | DropStep(i: nat)
    | FirstStep
    | AdvanceStep(reverse: bool)
    | StopStep
    | CurrentStep
    | NoCurrentStep

  /** What each step needs: new entries are new, entries of the source are found there, and the
      search for the next entry comes to an end. */
  predicate Enabled(q: Queue, step: Step) {
    match step
    case AddStep(id, p, before, startme) =>
      id !in q.entries && (before.Some? ==> before.value in q.source)
    case DelStep(id) => id in q.source
    case MoveStep(id, before) =>
      id in q.source && (before.Some? ==> before.value in q.source && before.value != id)
    case ClearStep => true
    case JumpStep(id) => id in q.linear
    case EnqueueStep(id) =>
      id !in q.entries && (q.current.Some? ==> q.current.value in q.linear)
    case PlayStep(id) => id !in q.entries
    case UrlStep(id) => id in q.source
    case TypeStep(id, playable) => id in q.source
    case ShuffleStep(on) => true
    case RepeatStep(on) => true
    case TakeStep(i) => i < |q.events|
    case DropStep(i) => i < |q.events|
    case FirstStep => q.held.None?
    case AdvanceStep(reverse) => q.held.Some? && Terminates(q, q.held.value)
    case StopStep => q.held.Some?
    case CurrentStep => q.held.Some?
    case NoCurrentStep => q.held.None?
  }

  /** What the search returns is linked. */
  lemma AdvanceIsLinked(q: Queue, cur: Id, reverse: bool)
    requires Orders(q)
    ensures Advance(q, cur, reverse).Some? ==> Advance(q, cur, reverse).value in q.linear
  {
    var r := Advance(q, cur, reverse);
    if r.Some? && q.linear != [] {
      InPath(q, reverse, cur);
      InPath(q, reverse, q.linear[0]);
      if cur in q.linear {
        FoundInLap(q, cur, Path(q, reverse), cur);
      } else if !Playable(q, q.linear[0]) {
        FoundInLap(q, cur, Path(q, reverse), q.linear[0]);
      }
      InPath(q, reverse, r.value);
    }
  }

  lemma FoundInLap(q: Queue, cur: Id, d: seq<Id>, x: Id)
    requires x in d
    ensures var r := Search(q, cur, Lap(d, q.repeat, x));
            r.Some? ==> r.value in d
  {
    var lap := Lap(d, q.repeat, x);
    var n := SearchIs(q, cur, lap);
    if n < |lap| { LapAt(d, q.repeat, x, n); }
  }

  /** playqueue_advance */
  function Advanced(q: Queue, reverse: bool): Queue
    requires Inv(q) && q.held.Some?
  {
    InvOrders(q);
    AdvanceIsLinked(q, q.held.value, reverse);
    AdvanceTo(q, Advance(q, q.held.value, reverse))
  }

  function Next(q: Queue, step: Step): Queue
    requires Inv(q) && Enabled(q, step)
  {
    match step
    case AddStep(id, p, before, startme) => AddFromSource(q, id, p, before, startme)
    case DelStep(id) => DelFromSource(q, id)
    case MoveStep(id, before) =>
      SourceIsLinked(q, id);
      Move(q, id, before)
    case ClearStep => Clear(q)
    case JumpStep(id) => PqePlay(q, id)
    case EnqueueStep(id) => Enqueue(q, id)
    case PlayStep(id) => PlayUrl(q, id)
    case UrlStep(id) => SetUrl(q, id)
    case TypeStep(id, playable) => SetType(q, id, playable)
    case ShuffleStep(on) => q.(shuffle := on)
    case RepeatStep(on) => q.(repeat := on)
    case TakeStep(i) => TakeEvent(q, i)
    case DropStep(i) => DropEvent(q, i)
    case FirstStep => if q.linear == [] then q else Hold(q, q.linear[0])
    case AdvanceStep(reverse) => Advanced(q, reverse)
    case StopStep => Release(q)
    case CurrentStep => q.(current := q.held)
    case NoCurrentStep => q.(current := None)
  }

  lemma SetUrlKeepsInv(q: Queue, id: Id)
    requires Inv(q) && id in q.entries
    ensures Inv(SetUrl(q, id))
  {
    var r := if q.entries[id].startme > 0 then PqePlay(q, id) else q;
    if q.entries[id].startme > 0 { PqePlayKeepsInv(q, id); }
    ChangeKeepsInv(r, id, r.entries[id].(hasUrl := true, startme := 0));
  }

  lemma SameListsKeepInv(q: Queue, r: Queue)
    requires Inv(q)
    requires r == q.(shuffle := r.shuffle, repeat := r.repeat, current := r.current)
    ensures Inv(r)
  {
    forall x | x in r.entries
      ensures EntryOk(r, x)
    {
      assert EntryOk(q, x);
    }
  }

  lemma ListStepKeepsInv(q: Queue, step: Step)
    requires Inv(q) && Enabled(q, step)
    requires step.AddStep? || step.DelStep? || step.MoveStep? || step.EnqueueStep?
             || step.PlayStep? || step.UrlStep? || step.TypeStep? || step.JumpStep?
    ensures Inv(Next(q, step))
  {
    match step
    case AddStep(id, p, before, startme) => AddFromSourceKeepsInv(q, id, p, before, startme);
    case DelStep(id) => DelFromSourceKeepsInv(q, id);
    case MoveStep(id, before) => MoveKeepsInv(q, id, before);
    case JumpStep(id) => PqePlayKeepsInv(q, id);
    case EnqueueStep(id) => EnqueueKeepsInv(q, id);
    case PlayStep(id) => PlayUrlKeepsInv(q, id);
    case UrlStep(id) => SetUrlKeepsInv(q, id);
    case TypeStep(id, playable) =>
      ChangeKeepsInv(q, id, q.entries[id].(playable := playable));
  }

  lemma NextKeepsInv(q: Queue, step: Step)
    requires Inv(q) && Enabled(q, step)
    ensures Inv(Next(q, step))
  {
    match step
    case ClearStep =>
    case ShuffleStep(on) => SameListsKeepInv(q, Next(q, step));
    case RepeatStep(on) => SameListsKeepInv(q, Next(q, step));
    case TakeStep(i) => TakeEventKeepsInv(q, i);
    case DropStep(i) => DropEventKeepsInv(q, i);
    case FirstStep => if q.linear != [] { HoldKeepsInv(q, q.linear[0]); }
    case AdvanceStep(reverse) =>
      InvOrders(q);
      AdvanceIsLinked(q, q.held.value, reverse);
      AdvanceToKeepsInv(q, Advance(q, q.held.value, reverse));
    case StopStep => ReleaseKeepsInv(q);
    case CurrentStep => SameListsKeepInv(q, Next(q, step));
    case NoCurrentStep => SameListsKeepInv(q, Next(q, step));
    case _ => ListStepKeepsInv(q, step);
  }

  /** Each step is taken when its turn comes. */
  ghost predicate Legal(q: Queue, steps: seq<Step>)
    requires Inv(q)
    decreases |steps|
  {
    steps == [] || (Enabled(q, steps[0]) && (NextKeepsInv(q, steps[0]);
                                             Legal(Next(q, steps[0]), steps[1..])))
  }

  ghost function Run(q: Queue, steps: seq<Step>): (r: Queue)
    requires Inv(q) && Legal(q, steps)
    ensures Inv(r)
    decreases |steps|
  {
    if steps == [] then q
    else NextKeepsInv(q, steps[0]); Run(Next(q, steps[0]), steps[1..])
  }

  function Empty(lfg: U32): Queue {
    Queue(map[], [], [], [], 0, lfg, false, false, None, None, [])
  }

  /** After every run from the empty queue: both lists hold the same entries, each once; the length
      counts them; the i-th linear entry has the number i + 1; an entry is marked as linked while
      the lists have it; the source list is the linear list without the entries from elsewhere; and
      the references to an entry are its places in the source list, in the queue, in undelivered
      events and with the player, of which an allocated entry has at least one. */
  lemma QueueIsInOrder(lfg: U32, steps: seq<Step>)
    requires (EmptyIsInOrder(lfg); Legal(Empty(lfg), steps))
    ensures Inv(Empty(lfg))
    ensures var q := Run(Empty(lfg), steps);
            && q.length == |q.linear| == |q.shuffled|
            && (forall i, j :: 0 <= i < j < |q.linear| ==> q.linear[i] != q.linear[j])
            && (forall i, j :: 0 <= i < j < |q.shuffled| ==> q.shuffled[i] != q.shuffled[j])
            && (forall id :: id in q.linear <==> id in q.shuffled)
            && Only(q.linear, q.source) == q.source
            && (forall i :: 0 <= i < |q.linear| ==>
                  q.linear[i] in q.entries && q.entries[q.linear[i]].index == i + 1)
            && (forall id :: (id in q.source || id in q.linear || id in q.events
                              || q.held == Some(id)) ==> id in q.entries)
            && (forall id :: id in q.entries ==>
                  var e := q.entries[id];
                  && e.linked == (id in q.linear) && e.origin.Some? == (id in q.source)
                  && 1 <= e.refs == One(id in q.source) + One(id in q.linear)
                                    + Count(q.events, id) + One(q.held == Some(id)))
  {
    EmptyIsInOrder(lfg);
    var q := Run(Empty(lfg), steps);
    DistinctPairs(q.linear);
    DistinctPairs(q.shuffled);
    forall i | 0 <= i < |q.linear|
      ensures q.linear[i] in q.entries && q.entries[q.linear[i]].index == i + 1
    {
      assert q.linear[i] in q.linear && EntryOk(q, q.linear[i]);
      PosIs(q.linear, i);
    }
    forall id | id in q.entries
      ensures EntryOk(q, id)
    {
    }
  }

  lemma DistinctPairs(s: seq<Id>)
    requires Distinct(s)
    ensures forall i, j :: 0 <= i < j < |s| ==> s[i] != s[j]
  {
    forall i, j | 0 <= i < j < |s|
      ensures s[i] != s[j]
    {
      DistinctAt(s, i, j);
    }
  }

  lemma EmptyIsInOrder(lfg: U32)
    ensures Inv(Empty(lfg))
  {
  }

  // ---- A run into the endless search -----------------------------------------------------

  lemma RunFirst(q: Queue, step: Step, rest: seq<Step>)
    requires Inv(q) && Enabled(q, step)
    requires (NextKeepsInv(q, step); Legal(Next(q, step), rest))
    ensures Inv(Next(q, step))
    ensures Legal(q, [step] + rest) && Run(q, [step] + rest) == Run(Next(q, step), rest)
  {
    NextKeepsInv(q, step);
    assert ([step] + rest)[1..] == rest;
  }

  lemma AddedIs(q: Queue, id: Id, p: nat)
    requires Inv(q) && id !in q.entries
    ensures Inv(Next(q, AddStep(id, p, None, 0)))
    ensures var r := Next(q, AddStep(id, p, None, 0));
            && r.linear == Insert(q.linear, None, id) && r.source == Insert(q.source, None, id)
            && r.held == q.held && r.repeat == q.repeat
            && forall x :: x in r.entries <==> x in q.entries || x == id
  {
    NextKeepsInv(q, AddStep(id, p, None, 0));
  }

  lemma DeletedIs(q: Queue, id: Id)
    requires Inv(q) && id in q.source
    ensures Inv(Next(q, DelStep(id)))
    ensures var r := Next(q, DelStep(id));
            && r.linear == Minus(q.linear, id) && r.held == q.held && r.repeat == q.repeat
            && SamePlayable(q, r)
  {
    NextKeepsInv(q, DelStep(id));
    SourceIsLinked(q, id);
    RemoveSourceKeepsInv(q, id);
    MinusIs(q.source, id);
    SourceGone(q, id);
    GlobalGone(RemoveSource(q, id), id);
  }

  /** What is playable stays so. */
  predicate SamePlayable(q: Queue, r: Queue) {
    forall x :: x in r.entries ==>
      x in q.entries && r.entries[x].playable == q.entries[x].playable
  }

  lemma SourceGone(q: Queue, id: Id)
    requires Inv(q) && id in q.source
    ensures var r := RemoveSource(q, id);
            && r.linear == q.linear && r.held == q.held && r.repeat == q.repeat
            && SamePlayable(q, r) && id in r.entries && r.entries[id].linked
  {
    SourceIsLinked(q, id);
    assert EntryOk(q, id);
  }

  lemma GlobalGone(q: Queue, id: Id)
    requires Inv(q) && id in q.linear && id !in q.source
    ensures var r := RemoveGlobal(q, id);
            && r.linear == Minus(q.linear, id) && r.held == q.held && r.repeat == q.repeat
            && SamePlayable(q, r)
  {
    assert EntryOk(q, id);
  }

  /** The player holds `a`, which stands before the unplayable `b`; `a` is deleted and repeat is
      switched on. */
  lemma LeavesUnplayable(q: Queue, a: Id, b: Id) returns (r: Queue)
    requires Inv(q) && q.linear == [a, b] && a in q.source && a != b && q.held == Some(a)
    requires b in q.entries && !q.entries[b].playable
    ensures Legal(q, [DelStep(a)] + ([RepeatStep(true)] + []))
    ensures r == Run(q, [DelStep(a)] + ([RepeatStep(true)] + []))
    ensures Inv(r) && r.linear == [b] && r.held == Some(a) && r.repeat && !Playable(r, b)
  {
    MinusTwo(a, b);
    DeletedIs(q, a);
    var q1 := Next(q, DelStep(a));
    NextKeepsInv(q1, RepeatStep(true));
    r := Next(q1, RepeatStep(true));
    RunFirst(q1, RepeatStep(true), []);
    RunFirst(q, DelStep(a), [RepeatStep(true)] + []);
  }

  lemma MinusTwo(a: Id, b: Id)
    requires a != b
    ensures Minus([a, b], a) == [b]
  {
    var none: seq<Id> := [];
    assert [a, b][1..] == [b] && [b][1..] == none;
    assert Minus([b], a) == [b] + Minus(none, a);
  }

  lemma InsertLast(a: Id, b: Id)
    ensures Insert([], None, a) == [a] && Insert([a], None, b) == [a, b]
  {
    assert [a][1..] == [];
  }

  /** The player has taken up the one entry of the queue. */
  ghost predicate HoldsOnly(q: Queue, a: Id) {
    && Inv(q) && q.linear == [a] && q.source == [a] && q.held == Some(a)
    && forall x :: x in q.entries <==> x == a
  }

  lemma TakesUp(lfg: U32, a: Id, p: nat, rest: seq<Step>) returns (r: Queue)
    requires Inv(Empty(lfg))
    ensures HoldsOnly(r, a)
    ensures Legal(r, rest) ==>
              var steps := [AddStep(a, p, None, 0)] + ([FirstStep] + rest);
              Legal(Empty(lfg), steps) && Run(Empty(lfg), steps) == Run(r, rest)
  {
    var q0 := Empty(lfg);
    AddedIs(q0, a, p);
    InsertLast(a, a);
    var q1 := Next(q0, AddStep(a, p, None, 0));
    NextKeepsInv(q1, FirstStep);
    r := Next(q1, FirstStep);
    if Legal(r, rest) {
      RunFirst(q1, FirstStep, rest);
      RunFirst(q0, AddStep(a, p, None, 0), [FirstStep] + rest);
    }
  }

  lemma AddsUnplayable(q: Queue, a: Id, b: Id, p: nat, rest: seq<Step>) returns (r: Queue)
    requires HoldsOnly(q, a) && a != b
    ensures Inv(r) && r.linear == [a, b] && a in r.source && r.held == Some(a)
    ensures b in r.entries && !r.entries[b].playable
    ensures Legal(r, rest) ==>
              var steps := [AddStep(b, p, None, 0)] + ([TypeStep(b, false)] + rest);
              Legal(q, steps) && Run(q, steps) == Run(r, rest)
  {
    AddedIs(q, b, p);
    InsertLast(a, b);
    var q1 := Next(q, AddStep(b, p, None, 0));
    assert b in q1.source && a in q1.source by { assert q1.source == [a, b]; }
    NextKeepsInv(q1, TypeStep(b, false));
    r := Next(q1, TypeStep(b, false));
    if Legal(r, rest) {
      RunFirst(q1, TypeStep(b, false), rest);
      RunFirst(q, AddStep(b, p, None, 0), [TypeStep(b, false)] + rest);
    }
  }

  /** The player takes up an entry; another one follows, which turns out to be unplayable; the first
      one is deleted, and repeat is switched on. */
  function IntoTheCircle(a: Id, b: Id, p: nat): seq<Step> {
    [AddStep(a, p, None, 0)]
    + ([FirstStep]
       + ([AddStep(b, p, None, 0)]
          + ([TypeStep(b, false)] + ([DelStep(a)] + ([RepeatStep(true)] + [])))))
  }

  /** From the empty queue such a run comes to a queue in which the search for the next entry does
      not end. */
  lemma SearchCanGoRound(lfg: U32, a: Id, b: Id, p: nat, reverse: bool)
    requires a != b
    ensures Inv(Empty(lfg)) && Legal(Empty(lfg), IntoTheCircle(a, b, p))
    ensures var q := Run(Empty(lfg), IntoTheCircle(a, b, p));
            && Orders(q) && q.held == Some(a) && !Terminates(q, a)
            && forall n :: !EndsAt(q, a, reverse, n)
  {
    EmptyIsInOrder(lfg);
    var last := [DelStep(a)] + ([RepeatStep(true)] + []);
    var middle := [AddStep(b, p, None, 0)] + ([TypeStep(b, false)] + last);
    var q1 := TakesUp(lfg, a, p, middle);
    var q2 := AddsUnplayable(q1, a, b, p, last);
    var q := LeavesUnplayable(q2, a, b);
    InvOrders(q);
    AdvanceEndsIff(q, a, reverse);
  }
}
