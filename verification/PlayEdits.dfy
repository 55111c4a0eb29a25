/** Where the edits of src/playqueue.c leave the entries, and which events they send. */
module PlayEdits {
  import opened Common
  import opened PlayList
  import opened PlayQueue
  import opened PlayRuns

  // ---- Places ----------------------------------------------------------------------------

  /** The entry at position i stands directly in front of `before`, or last. */
  predicate StandsBefore(s: seq<Id>, i: nat, before: Option<Id>) {
    match before
    case None => i + 1 == |s|
    case Some(b) => i + 1 < |s| && s[i + 1] == b
  }

  /** `s` with one entry more, which stands before `before`. */
  ghost predicate AddedBefore(s: seq<Id>, r: seq<Id>, id: Id, before: Option<Id>) {
    exists i :: 0 <= i < |r| && r[i] == id && Cut(r, i) == s && StandsBefore(r, i, before)
  }

  /** `s` without one of its entries. */
  ghost predicate Without(s: seq<Id>, r: seq<Id>, id: Id) {
    exists j :: 0 <= j < |s| && s[j] == id && Cut(s, j) == r
  }

  /** The same entries in the same order, but for one that stands before `before`. */
  ghost predicate MovedBefore(s: seq<Id>, r: seq<Id>, id: Id, before: Option<Id>) {
    exists others :: Without(s, others, id) && AddedBefore(others, r, id, before)
  }

  lemma InsertAdds(s: seq<Id>, before: Option<Id>, id: Id)
    requires before.Some? ==> before.value in s
    ensures AddedBefore(s, Insert(s, before, id), id, before)
  {
    InsertSplit(s, before, id);
    CutInserted(s, Place(s, before), id);
  }

  lemma CutInserted(s: seq<Id>, i: nat, id: Id)
    requires i <= |s|
    ensures var r := s[..i] + [id] + s[i..];
            && |r| == |s| + 1 && r[i] == id && Cut(r, i) == s
            && (i < |s| ==> r[i + 1] == s[i])
  {
  }

  lemma MinusLeaves(s: seq<Id>, id: Id)
    requires Distinct(s) && id in s
    ensures Without(s, Minus(s, id), id)
  {
    MinusSplit(s, id);
    assert s[Pos(s, id)] == id && Cut(s, Pos(s, id)) == Minus(s, id);
  }

  lemma MoveInserts(s: seq<Id>, id: Id, before: Option<Id>)
    requires Distinct(s) && id in s && (before.Some? ==> before.value in s && before.value != id)
    ensures MovedBefore(s, Insert(Minus(s, id), before, id), id, before)
  {
    MinusLeaves(s, id);
    MinusIs(s, id);
    InsertAdds(Minus(s, id), before, id);
  }

  // ---- The edits -------------------------------------------------------------------------

  /** The entries are the same but for their numbers. */
  predicate SameButNumbers(q: Queue, r: Queue) {
    && r.entries.Keys == q.entries.Keys
    && forall x :: x in q.entries ==>
         r.entries[x] == q.entries[x].(index := r.entries[x].index)
  }

  /** Nothing but lists, numbers and the generator of random numbers. */
  predicate SameApart(q: Queue, r: Queue) {
    && r.current == q.current && r.held == q.held && r.events == q.events
    && r.shuffle == q.shuffle && r.repeat == q.repeat
  }

  lemma MoveKeepsOthers(q: Queue, id: Id, before: Option<Id>)
    requires q.length >= 1
    ensures SameButNumbers(q, Move(q, id, before)) && SameApart(q, Move(q, id, before))
  {
  }

  /** move_track puts the entry directly in front of the one it is given, or last, in the linear and
      in the source list, and leaves the order of all others as it was. */
  lemma MovesBefore(q: Queue, id: Id, before: Option<Id>)
    requires Inv(q) && id in q.source
    requires before.Some? ==> before.value in q.source && before.value != id
    ensures q.length >= 1
    ensures var r := Move(q, id, before);
            && MovedBefore(q.linear, r.linear, id, before)
            && MovedBefore(q.source, r.source, id, before)
            && Minus(r.shuffled, id) == Minus(q.shuffled, id)
            && SameButNumbers(q, r) && SameApart(q, r)
  {
    SourceIsLinked(q, id);
    if before.Some? { SourceIsLinked(q, before.value); }
    MoveKeepsOthers(q, id, before);
    MoveInserts(q.linear, id, before);
    MoveInserts(q.source, id, before);
    MinusIs(q.shuffled, id);
    ShuffledAgain(Moved(q, id, before), id);
  }

  lemma ShuffledAgain(q: Queue, id: Id)
    requires q.length >= 0 && id !in q.shuffled
    ensures Minus(InsertShuffled(q, id).shuffled, id) == q.shuffled
  {
    MinusInsert(q.shuffled, Before(q.shuffled, Lfg(q.lfg) % (q.length + 1)), id);
  }

  lemma {:induction false} MinusInsert(s: seq<Id>, before: Option<Id>, id: Id)
    requires id !in s
    ensures Minus(Insert(s, before, id), id) == s
  {
    if s == [] || (before.Some? && s[0] == before.value) {
      assert ([id] + s)[1..] == s;
      MinusAbsent(s, id);
    } else {
      MinusInsert(s[1..], before, id);
      var r := Insert(s[1..], before, id);
      assert ([s[0]] + r)[1..] == r;
    }
  }

  /** What linking a new entry does to everything else. */
  predicate LinkedAs(q: Queue, r: Queue, id: Id, e: Entry) {
    && r.entries.Keys == q.entries.Keys + {id}
    && r.entries[id] == e.(index := r.entries[id].index)
    && (forall x :: x in q.entries && x != id ==>
          r.entries[x] == q.entries[x].(index := r.entries[x].index))
    && SameApart(q, r)
  }

  lemma LinkIsLinked(q: Queue, id: Id, e: Entry, before: Option<Id>)
    requires q.length >= 0
    ensures LinkedAs(q, Link(q, id, e, before), id, e)
    ensures Link(q, id, e, before).linear == Insert(q.linear, before, id)
    ensures Link(q, id, e, before).source == q.source
  {
  }

  /** add_from_source puts a new entry directly in front of the one it is given, or last, in both
      lists.  The entry has two references, counts as playable, and remembers what is to happen when
      its URL comes; no event is sent yet. */
  lemma AddsBefore(q: Queue, id: Id, p: nat, before: Option<Id>, startme: nat)
    requires Inv(q) && id !in q.entries && (before.Some? ==> before.value in q.source)
    ensures q.length >= 0
    ensures var r := AddFromSource(q, id, p, before, startme);
            && AddedBefore(q.linear, r.linear, id, before)
            && AddedBefore(q.source, r.source, id, before)
            && Minus(r.shuffled, id) == q.shuffled
            && LinkedAs(q, r, id, Entry(2, false, true, true, startme, Some(p), 0, false))
  {
    if before.Some? { SourceIsLinked(q, before.value); }
    InsertAdds(q.linear, before, id);
    InsertAdds(q.source, before, id);
    var e := Entry(2, false, true, true, startme, Some(p), 0, false);
    var q1 := q.(source := Insert(q.source, before, id));
    LinkIsLinked(q1, id, e, before);
    assert id !in q.shuffled;
    AddShuffles(q1, id, e, before);
  }

  lemma AddShuffles(q: Queue, id: Id, e: Entry, before: Option<Id>)
    requires q.length >= 0 && id !in q.shuffled
    ensures Minus(Link(q, id, e, before).shuffled, id) == q.shuffled
  {
    MinusInsert(q.shuffled, Before(q.shuffled, Lfg(q.lfg) % (q.length + 1)), id);
  }

  /** playqueue_play leaves the new entry alone in the queue, and sends a jump to it behind the
      events that are waiting. */
  lemma PlaysAlone(q: Queue, id: Id)
    requires Inv(q) && id !in q.entries
    ensures var r := PlayUrl(q, id);
            && r.linear == [id] && r.shuffled == [id] && r.source == []
            && r.events == q.events + [id] && r.held == q.held
            && id in r.entries && r.entries[id].refs == 2
  {
    ClearSourceShrinks(q);
    ClearLinearShrinks(ClearSource(q));
    ClearKeepsEvents(q);
    PlayUrlKeepsInv(q, id);
    LinkIsLinked(Clear(q), id, Alone(false), None);
  }

  lemma {:induction false} ClearSourceKeeps(q: Queue)
    requires Inv(q)
    ensures SameApart(q, ClearSource(q))
    decreases |q.source|
  {
    if q.source != [] {
      RemoveSourceKeepsInv(q, q.source[0]);
      MinusIs(q.source, q.source[0]);
      ClearSourceKeeps(RemoveSource(q, q.source[0]));
    }
  }

  lemma {:induction false} ClearLinearKeeps(q: Queue)
    requires Inv(q) && q.source == []
    ensures SameApart(q, ClearLinear(q))
    decreases |q.linear|
  {
    if q.linear != [] {
      RemoveGlobalKeepsInv(q, q.linear[0]);
      MinusIs(q.linear, q.linear[0]);
      ClearLinearKeeps(RemoveGlobal(q, q.linear[0]));
    }
  }

  lemma ClearKeepsEvents(q: Queue)
    requires Inv(q)
    ensures SameApart(q, Clear(q))
  {
    ClearSourceKeeps(q);
    ClearLinearKeeps(ClearSource(q));
  }

  /** playqueue_enqueue sends a jump to the new entry if and only if nothing is current. */
  lemma EnqueueJumpsIff(q: Queue, id: Id)
    requires Inv(q) && id !in q.entries
    requires q.current.Some? ==> q.current.value in q.linear
    ensures var r := Enqueue(q, id);
            && r.events == (if q.current.None? then q.events + [id] else q.events)
            && (q.current.None? ==> AddedBefore(q.linear, r.linear, id, None))
            && id in r.entries && r.entries[id].enq && r.source == q.source
  {
    LinkIsLinked(q, id, Alone(true), EntryAt(q.linear, EnqueuePlace(q)));
    if q.current.None? { InsertAdds(q.linear, None, id); }
  }

  /** A URL that comes sends a jump if and only if the entry was to start, and only the first
      time. */
  lemma UrlStartsIff(q: Queue, id: Id)
    requires id in q.entries
    ensures var r := SetUrl(q, id);
            && r.events == (if q.entries[id].startme > 0 then q.events + [id] else q.events)
            && id in r.entries && r.entries[id].hasUrl && r.entries[id].startme == 0
            && SetUrl(r, id).events == r.events
            && r.linear == q.linear && r.source == q.source && r.shuffled == q.shuffled
  {
  }

  /** del_from_source takes the entry out of all three lists and leaves the order of the others. */
  lemma DeletesOnly(q: Queue, id: Id)
    requires Inv(q) && id in q.source
    ensures var r := DelFromSource(q, id);
            && Without(q.linear, r.linear, id) && Without(q.shuffled, r.shuffled, id)
            && Without(q.source, r.source, id) && SameApart(q, r)
            && (id in r.entries <==> q.entries[id].refs > 2)
  {
    SourceIsLinked(q, id);
    RemoveSourceKeepsInv(q, id);
    MinusIs(q.source, id);
    assert EntryOk(q, id);
    MinusLeaves(q.linear, id);
    MinusLeaves(q.shuffled, id);
    MinusLeaves(q.source, id);
  }

  /** The event that is delivered is the one that the player then holds; the others wait in their
      order. */
  lemma TakesEvent(q: Queue, i: nat)
    requires Inv(q) && i < |q.events|
    ensures var r := TakeEvent(q, i);
            && r.held == Some(q.events[i]) && Without(q.events, r.events, q.events[i])
            && r.linear == q.linear && r.source == q.source && r.shuffled == q.shuffled
  {
    if q.held.Some? { ReleaseKeepsInv(q); }
    assert Cut(q.events, i) == TakeEvent(q, i).events;
  }

  /** The player takes up the first entry of the queue, if there is one, with a reference of its
      own. */
  lemma FirstIsHeld(q: Queue)
    requires Inv(q) && Enabled(q, FirstStep)
    ensures var r := Next(q, FirstStep);
            if |q.linear| == 0 then r == q
            else
              && r.held == Some(q.linear[0]) && r.linear == q.linear && r.events == q.events
              && q.linear[0] in q.entries && r.entries.Keys == q.entries.Keys
              && r.entries[q.linear[0]].refs == q.entries[q.linear[0]].refs + 1
  {
    if |q.linear| > 0 { assert q.linear[0] in q.linear; }
  }

  /** The modes are as they are switched, and what the player announces as current is what it holds,
      or nothing. */
  lemma SwitchesSet(q: Queue, step: Step)
    requires Inv(q) && Enabled(q, step)
    ensures step.ShuffleStep? ==> Next(q, step) == q.(shuffle := step.on)
    ensures step.RepeatStep? ==> Next(q, step) == q.(repeat := step.on)
    ensures step.CurrentStep? || step.NoCurrentStep? ==> Next(q, step) == q.(current := q.held)
  {
  }
}
