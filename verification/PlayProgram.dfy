/** The program of src/playqueue.c: its lists, counters and entries, changed in place. */
module PlayProgram {
  import opened Common
  import opened PlayList
  import opened PlayQueue
  import opened PlayAdvance
  import opened PlayRuns

  /** Entries renumbered at the positions from `from` up to `to`. */
  function NumberedTo(entries: map<Id, Entry>, linear: seq<Id>, from: nat, to: nat)
    : map<Id, Entry>
  {
    map id | id in entries ::
      if id in linear && from <= Pos(linear, id) < to
      then entries[id].(index := Pos(linear, id) + 1) else entries[id]
  }

  lemma NumberOne(entries: map<Id, Entry>, linear: seq<Id>, from: nat, i: nat)
    requires Distinct(linear) && from <= i < |linear| && linear[i] in entries
    ensures var e := NumberedTo(entries, linear, from, i);
            && linear[i] in e
            && NumberedTo(entries, linear, from, i + 1)
               == e[linear[i] := e[linear[i]].(index := i + 1)]
  {
    PosIs(linear, i);
    var e := NumberedTo(entries, linear, from, i);
    var e' := NumberedTo(entries, linear, from, i + 1);
    forall id | id in entries
      ensures e'[id] == e[linear[i] := e[linear[i]].(index := i + 1)][id]
    {
    }
  }

  lemma NumberedIs(entries: map<Id, Entry>, linear: seq<Id>, from: nat)
    ensures NumberedTo(entries, linear, from, from) == entries
    ensures NumberedTo(entries, linear, from, |linear|) == Renumber(entries, linear, from)
  {
  }

  class Playqueue {
    var entries: map<Id, Entry>
    var linear: seq<Id>
    var shuffled: seq<Id>
    var source: seq<Id>
    var length: int
    var lfg: U32
    var shuffle: bool
    var repeat: bool
    var current: Option<Id>
    var held: Option<Id>
    var events: seq<Id>

    ghost function View(): Queue
      reads this
    {
      Queue(entries, linear, shuffled, source, length, lfg, shuffle, repeat, current, held, events)
    }

    /** playqueue_init */
    constructor (now: U32)
      ensures View() == Empty(now) && Inv(View())
    {
      entries, linear, shuffled, source := map[], [], [], [];
      length, lfg, shuffle, repeat := 0, now, false, false;
      current, held, events := None, None, [];
    }

    /** pqe_ref */
    method PqeRef(id: Id)
      requires id in entries
      modifies this`entries
      ensures View() == Ref(old(View()), id)
    {
      entries := entries[id := entries[id].(refs := entries[id].refs + 1)];
    }

    /** pqe_unref; what it asserts before it frees the entry holds wherever it is called. */
    method PqeUnref(id: Id)
      requires id in entries && entries[id].refs > 0
      requires entries[id].refs == 1 ==> !entries[id].linked && entries[id].origin.None?
      modifies this`entries
      ensures View() == Unref(old(View()), id)
    {
      var e := entries[id];
      if e.refs == 1 {
        entries := entries - {id};
      } else {
        entries := entries[id := e.(refs := e.refs - 1)];
      }
    }

    /** pq_renumber */
    method PqRenumber(pqe: Option<Id>)
      requires Distinct(linear) && forall id :: id in linear ==> id in entries
      requires pqe.Some? ==> pqe.value in linear
      requires var from := if pqe.Some? then Pos(linear, pqe.value) else 0;
               from > 0 ==> entries[linear[from - 1]].index == from
      modifies this`entries
      ensures entries == Renumber(old(entries), linear,
                                  if pqe.Some? then Pos(linear, pqe.value) else 0)
    {
      var from := if pqe.Some? then Pos(linear, pqe.value) else 0;
      NumberFrom(from, if from == 0 then 1 else entries[linear[from - 1]].index + 1);
    }

    /** The loop of pq_renumber. */
    method NumberFrom(from: nat, first: int)
      requires Distinct(linear) && forall id :: id in linear ==> id in entries
      requires from <= |linear| && first == from + 1
      modifies this`entries
      ensures entries == Renumber(old(entries), linear, from)
    {
      ghost var before := entries;
      NumberedIs(before, linear, from);
      var i, num := from, first;
      while i < |linear|
        invariant from <= i <= |linear| && num == i + 1
        invariant entries == NumberedTo(before, linear, from, i)
      {
        NumberOne(before, linear, from, i);
        entries := entries[linear[i] := entries[linear[i]].(index := num)];
        num := num + 1;
        i := i + 1;
      }
    }

    /** pqe_insert_shuffled */
    method PqeInsertShuffled(id: Id)
      requires length >= 0
      modifies this`lfg, this`length, this`shuffled
      ensures View() == InsertShuffled(old(View()), id)
    {
      lfg := (lfg * 1664525 + 1013904223) % 0x1_0000_0000;
      length := length + 1;
      var v: int := lfg % length;
      ghost var drawn := v;
      var n := 0;
      while n < |shuffled| && v >= 0
        invariant 0 <= n <= |shuffled| && v == drawn - n && v >= -1
      {
        n := n + 1;
        v := v - 1;
      }
      shuffled := Insert(shuffled, if n < |shuffled| then Some(shuffled[n]) else None, id);
    }

    /** pqe_remove_from_sourcequeue */
    method PqeRemoveFromSourcequeue(id: Id)
      requires Inv(View()) && id in source
      modifies this
      ensures View() == RemoveSource(old(View()), id)
    {
      assert EntryOk(View(), id);
      SourceIsLinked(View(), id);
      source := Minus(source, id);
      entries := entries[id := entries[id].(origin := None)];
      PqeUnref(id);
    }

    /** pqe_remove_from_globalqueue, up to pq_renumber. */
    method PqeUnlink(id: Id)
      requires Inv(View()) && id in linear && id !in source
      modifies this
      ensures View() == UnlinkGlobal(old(View()), id)
    {
      assert EntryOk(View(), id);
      length := length - 1;
      linear := Minus(linear, id);
      shuffled := Minus(shuffled, id);
      entries := entries[id := entries[id].(linked := false)];
      PqeUnref(id);
    }

    /** pqe_remove_from_globalqueue */
    method PqeRemoveFromGlobalqueue(id: Id)
      requires Inv(View()) && id in linear && id !in source
      modifies this
      ensures View() == RemoveGlobal(old(View()), id)
    {
      RemoveGlobalFacts(View(), id);
      var k := Pos(linear, id);
      var next := if k + 1 < |linear| then Some(linear[k + 1]) else None;
      PqeUnlink(id);
      if next.Some? {
        PqRenumber(next);
      } else {
        RenumberNothing(entries, linear, k);
      }
    }

    /** A new entry in the linear list. */
    method PqeLinkLinear(id: Id, e: Entry, before: Option<Id>)
      requires Inv(View()) && id !in entries
      modifies this`entries, this`linear
      ensures linear == Insert(old(linear), before, id)
      ensures entries == Renumber(old(entries)[id := e], linear, Place(old(linear), before))
    {
      LinkFacts(View(), id, e, before);
      entries := entries[id := e];
      linear := Insert(linear, before, id);
      PqRenumber(Some(id));
    }

    /** The linking of a new entry `e` in the linear and the shuffled list. */
    method PqeLink(id: Id, e: Entry, before: Option<Id>, src: seq<Id>)
      requires Inv(View()) && id !in entries
      modifies this
      ensures View() == Link(old(View()).(source := src), id, e, before)
    {
      PqeLinkLinear(id, e, before);
      source := src;
      PqeInsertShuffled(id);
    }

    /** add_from_source */
    method AddEntry(id: Id, p: nat, before: Option<Id>, startme: nat)
      requires Inv(View()) && id !in entries && (before.Some? ==> before.value in source)
      modifies this
      ensures View() == AddFromSource(old(View()), id, p, before, startme)
    {
      PqeLink(id, Entry(2, false, true, true, startme, Some(p), 0, false), before,
              Insert(source, before, id));
    }

    /** del_from_source */
    method DelEntry(id: Id)
      requires Inv(View()) && id in source
      modifies this
      ensures View() == DelFromSource(old(View()), id)
    {
      SourceIsLinked(View(), id);
      RemoveSourceKeepsInv(View(), id);
      MinusIs(source, id);
      assert EntryOk(View(), id);
      PqeRemoveFromSourcequeue(id);
      if entries[id].linked {
        PqeRemoveFromGlobalqueue(id);
      }
    }

    /** move_track, up to the insertion into the shuffled list. */
    method MoveLinear(id: Id, before: Option<Id>)
      requires Distinct(Insert(Minus(linear, id), before, id))
      requires forall x :: x in Insert(Minus(linear, id), before, id) ==> x in entries
      modifies this
      ensures View() == Moved(old(View()), id, before)
    {
      length := length - 1;
      shuffled := Minus(shuffled, id);
      source := Insert(Minus(source, id), before, id);
      linear := Insert(Minus(linear, id), before, id);
      PqRenumber(None);
    }

    /** move_track */
    method MoveTrack(id: Id, before: Option<Id>)
      requires Inv(View()) && id in source
      requires before.Some? ==> before.value in source && before.value != id
      modifies this
      ensures old(length) >= 1 && View() == Move(old(View()), id, before)
    {
      SourceIsLinked(View(), id);
      MoveFacts(View(), id, before);
      MoveLinear(id, before);
      PqeInsertShuffled(id);
    }

    /** playqueue_clear */
    method PlayqueueClear()
      requires Inv(View())
      modifies this
      ensures Inv(View()) && View() == Clear(old(View()))
    {
      while source != []
        invariant Inv(View()) && ClearSource(View()) == ClearSource(old(View()))
        decreases |source|
      {
        RemoveSourceKeepsInv(View(), source[0]);
        MinusIs(source, source[0]);
        PqeRemoveFromSourcequeue(source[0]);
      }
      ghost var q := View();
      while linear != []
        invariant Inv(View()) && source == [] && ClearLinear(View()) == ClearLinear(q)
        decreases |linear|
      {
        RemoveGlobalKeepsInv(View(), linear[0]);
        MinusIs(linear, linear[0]);
        PqeRemoveFromGlobalqueue(linear[0]);
      }
    }

    /** pqe_play */
    method PqePlayEvent(id: Id)
      requires id in entries
      modifies this
      ensures View() == PqePlay(old(View()), id)
    {
      PqeRef(id);
      events := events + [id];
    }

    /** The search of playqueue_enqueue for its place. */
    method FindPlace() returns (k: nat)
      requires forall id :: id in linear ==> id in entries
      requires current.Some? ==> current.value in linear
      ensures k == EnqueuePlace(View())
    {
      if current.None? {
        return |linear|;
      }
      k := Pos(linear, current.value) + 1;
      while k < |linear| && entries[linear[k]].enq
        invariant k <= |linear| && EnqueuePlace(View()) == SkipEnqueued(View(), k)
      {
        k := k + 1;
      }
    }

    /** playqueue_enqueue */
    method PlayqueueEnqueue(id: Id)
      requires Inv(View()) && id !in entries
      requires current.Some? ==> current.value in linear
      modifies this
      ensures View() == Enqueue(old(View()), id)
    {
      var doplay := current.None?;
      var k := FindPlace();
      var before := EntryAt(linear, k);
      LinkHas(View(), id, Alone(true), before);
      assert View().(source := source) == View();
      PqeLink(id, Alone(true), before, source);
      if doplay {
        PqePlayEvent(id);
      }
    }

    /** playqueue_play */
    method PlayqueuePlay(id: Id)
      requires Inv(View()) && id !in entries
      modifies this
      ensures View() == PlayUrl(old(View()), id)
    {
      ClearSourceShrinks(View());
      ClearLinearShrinks(ClearSource(View()));
      PlayqueueClear();
      LinkHas(View(), id, Alone(false), None);
      assert View().(source := source) == View();
      PqeLink(id, Alone(false), None, source);
      PqePlayEvent(id);
    }

    /** The body of the loop of playqueue_advance0. */
    method NextEntry(pqe: Id, reverse: bool) returns (r: Option<Id>)
      requires Orders(View())
      ensures r == Round(View(), pqe, reverse)
    {
      if pqe in linear {
        if shuffle {
          r := Neighbour(shuffled, pqe, reverse);
        } else {
          r := Neighbour(linear, pqe, reverse);
        }
      } else {
        r := EntryAt(linear, 0);
      }
    }

    method Neighbour(list: seq<Id>, pqe: Id, reverse: bool) returns (r: Option<Id>)
      requires pqe in list
      ensures var k := Pos(list, pqe);
              r == if reverse then
                     if k > 0 then Some(list[k - 1])
                     else if repeat then Some(list[|list| - 1]) else None
                   else
                     if k + 1 < |list| then Some(list[k + 1])
                     else if repeat then Some(list[0]) else None
    {
      var k := Pos(list, pqe);
      if reverse {
        r := if k > 0 then Some(list[k - 1]) else None;
        if repeat && r.None? {
          r := Some(list[|list| - 1]);
        }
      } else {
        r := EntryAt(list, k + 1);
        if repeat && r.None? {
          r := Some(list[0]);
        }
      }
    }

    /** playqueue_advance0, where it comes to an end. */
    method Advance0(pqe: Id, reverse: bool) returns (r: Option<Id>)
      requires Orders(View()) && Terminates(View(), pqe)
      ensures r == Advance(View(), pqe, reverse)
    {
      ghost var q := View();
      ghost var end := AdvanceEnds(q, pqe, reverse);
      ghost var n := 1;
      assert Candidate(q, pqe, reverse, 0) == Some(pqe);
      r := NextEntry(pqe, reverse);
      while r.Some? && r.value != pqe && !(r.value in entries && entries[r.value].playable)
        invariant q == View() && 1 <= n <= end && r == Candidate(q, pqe, reverse, n)
        decreases end - n
      {
        NotYet(q, pqe, reverse, end, n);
        r := NextEntry(r.value, reverse);
        n := n + 1;
      }
      NotYet(q, pqe, reverse, end, n);
    }

    /** playqueue_advance */
    method PlayqueueAdvance(reverse: bool)
      requires Inv(View()) && held.Some? && Terminates(View(), held.value)
      modifies this
      ensures View() == Advanced(old(View()), reverse)
    {
      InvOrders(View());
      var nxt := Advance0(held.value, reverse);
      AdvanceIsLinked(View(), held.value, reverse);
      Switch(nxt);
    }

    /** The references of playqueue_advance: the new entry's first. */
    method Switch(nxt: Option<Id>)
      requires Inv(View()) && held.Some? && (nxt.Some? ==> nxt.value in linear)
      modifies this
      ensures View() == AdvanceTo(old(View()), nxt)
    {
      var pqe := held.value;
      assert EntryOk(View(), pqe);
      if nxt.Some? {
        PqeRef(nxt.value);
      }
      PqeUnref(pqe);
      held := nxt;
    }
  }

  lemma AdvanceEnds(q: Queue, cur: Id, reverse: bool) returns (n: nat)
    requires Orders(q) && Terminates(q, cur)
    ensures EndsAt(q, cur, reverse, n) && Candidate(q, cur, reverse, n) == Advance(q, cur, reverse)
  {
    if cur in q.linear {
      n := AdvanceLinked(q, cur, reverse);
    } else {
      n := AdvanceUnlinked(q, cur, reverse);
    }
  }

  lemma NotYet(q: Queue, cur: Id, reverse: bool, end: nat, n: nat)
    requires Orders(q) && EndsAt(q, cur, reverse, end) && 1 <= n <= end
    ensures n == end <==> Stops(q, cur, Candidate(q, cur, reverse, n))
  {
  }

  lemma MoveFacts(q: Queue, id: Id, before: Option<Id>)
    requires Inv(q) && id in q.source
    requires before.Some? ==> before.value in q.source && before.value != id
    ensures var linear := Insert(Minus(q.linear, id), before, id);
            Distinct(linear) && forall x :: x in linear ==> x in q.entries
  {
    MoveOne(q.linear, q.source, id, before);
  }

  lemma RenumberNothing(entries: map<Id, Entry>, linear: seq<Id>, from: nat)
    requires from >= |linear|
    ensures Renumber(entries, linear, from) == entries
  {
  }

  lemma MinusNext(s: seq<Id>, id: Id)
    requires Distinct(s) && id in s && Pos(s, id) + 1 < |s|
    ensures var k := Pos(s, id);
            s[k + 1] in Minus(s, id) && Pos(Minus(s, id), s[k + 1]) == k
  {
    var k := Pos(s, id);
    DistinctAt(s, k, k + 1);
    PosIs(s, k + 1);
    MinusPos(s, id, s[k + 1]);
  }

  lemma MinusPrevious(s: seq<Id>, id: Id)
    requires Distinct(s) && id in s && Pos(s, id) > 0
    ensures var k, r := Pos(s, id), Minus(s, id);
            k <= |r| && r[k - 1] == s[k - 1] && s[k - 1] != id && Pos(s, s[k - 1]) == k - 1
  {
    var k := Pos(s, id);
    MinusSplit(s, id);
    DistinctAt(s, k - 1, k);
    PosIs(s, k - 1);
  }

  lemma MinusAround(s: seq<Id>, id: Id)
    requires Distinct(s) && id in s
    ensures var k, r := Pos(s, id), Minus(s, id);
            && Distinct(r) && |r| == |s| - 1
            && (k + 1 < |s| ==> s[k + 1] in r && Pos(r, s[k + 1]) == k)
            && (k > 0 ==> r[k - 1] == s[k - 1] && s[k - 1] != id && Pos(s, s[k - 1]) == k - 1)
  {
    MinusIs(s, id);
    if Pos(s, id) + 1 < |s| { MinusNext(s, id); }
    if Pos(s, id) > 0 { MinusPrevious(s, id); }
  }

  lemma UnlinkedEntries(q: Queue, id: Id)
    requires Inv(q) && id in q.linear && id !in q.source
    ensures var r := UnlinkGlobal(q, id);
            && r.linear == Minus(q.linear, id)
            && (forall x :: x in r.linear ==> x in r.entries)
            && (forall x :: x in q.linear && x != id ==>
                  x in r.entries && r.entries[x].index == Pos(q.linear, x) + 1)
  {
    MinusIs(q.linear, id);
    forall x | x in q.linear && x != id
      ensures var r := UnlinkGlobal(q, id);
              x in r.entries && r.entries[x].index == Pos(q.linear, x) + 1
    {
      assert EntryOk(q, x);
    }
  }

  /** What pq_renumber finds after an entry has been unlinked. */
  lemma RemoveGlobalFacts(q: Queue, id: Id)
    requires Inv(q) && id in q.linear && id !in q.source
    ensures var k, r := Pos(q.linear, id), UnlinkGlobal(q, id);
            && Distinct(r.linear) && |r.linear| == |q.linear| - 1
            && (forall x :: x in r.linear ==> x in r.entries)
            && (k + 1 < |q.linear| ==>
                  q.linear[k + 1] in r.linear && Pos(r.linear, q.linear[k + 1]) == k)
            && (0 < k <= |r.linear| ==>
                  r.linear[k - 1] in r.entries && r.entries[r.linear[k - 1]].index == k)
  {
    MinusAround(q.linear, id);
    UnlinkedEntries(q, id);
  }

  /** What pq_renumber finds after an entry has been linked. */
  lemma LinkFacts(q: Queue, id: Id, e: Entry, before: Option<Id>)
    requires Inv(q) && id !in q.entries
    ensures var linear, entries := Insert(q.linear, before, id), q.entries[id := e];
            && Distinct(linear) && (forall x :: x in linear ==> x in entries) && id in linear
            && Pos(linear, id) == Place(q.linear, before)
            && (Pos(linear, id) > 0 ==>
                  entries[linear[Pos(linear, id) - 1]].index == Pos(linear, id))
  {
    InsertIs(q.linear, before, id);
    InsertPos(q.linear, before, id, id);
    InsertSplit(q.linear, before, id);
    var k := Place(q.linear, before);
    if k > 0 {
      assert Insert(q.linear, before, id)[k - 1] == q.linear[k - 1];
      PosIs(q.linear, k - 1);
      assert EntryOk(q, q.linear[k - 1]);
    }
  }
}
