/** playqueue_advance0 of src/playqueue.c: the search for the next entry to play. */
module PlayAdvance {
  import opened Common
  import opened PlayList
  import opened PlayQueue

  function Order(q: Queue): seq<Id> { if q.shuffle then q.shuffled else q.linear }

  /** What the search relies on: both lists have the same entries once. */
  ghost predicate Orders(q: Queue) {
    && Distinct(q.linear) && Distinct(q.shuffled) && |q.linear| == |q.shuffled|
    && forall id :: id in q.linear <==> id in q.shuffled
  }

  lemma InvOrders(q: Queue)
    requires Inv(q)
    ensures Orders(q) && q.length == |q.linear|
  {
  }

  /** One round of the loop: the entry after `pqe` in the active order and direction, or the first
      one of the queue if `pqe` is no longer linked. */
  function Round(q: Queue, pqe: Id, reverse: bool): Option<Id>
    requires Orders(q)
  {
    if pqe in q.linear then
      var o := Order(q);
      var k := Pos(o, pqe);
      if reverse then
        if k > 0 then Some(o[k - 1]) else if q.repeat then Some(o[|o| - 1]) else None
      else
        if k + 1 < |o| then Some(o[k + 1]) else if q.repeat then Some(o[0]) else None
    else if q.linear == [] then None else Some(q.linear[0])
  }

  /** The entry after n rounds. */
  function Candidate(q: Queue, cur: Id, reverse: bool, n: nat): Option<Id>
    requires Orders(q)
  {
    if n == 0 then Some(cur)
    else
      var c := Candidate(q, cur, reverse, n - 1);
      if c.None? then None else Round(q, c.value, reverse)
  }

  predicate Playable(q: Queue, id: Id) { id in q.entries && q.entries[id].playable }

  /** The condition on which the loop ends. */
  predicate Stops(q: Queue, cur: Id, c: Option<Id>) {
    c.None? || c.value == cur || Playable(q, c.value)
  }

  /** The loop ends after n rounds. */
  predicate EndsAt(q: Queue, cur: Id, reverse: bool, n: nat)
    requires Orders(q)
  {
    && n >= 1 && Stops(q, cur, Candidate(q, cur, reverse, n))
    && forall m :: 1 <= m < n ==> !Stops(q, cur, Candidate(q, cur, reverse, m))
  }

  // ---- Going round a list ----------------------------------------------------------------

  function Next(d: seq<Id>, repeat: bool, x: Id): (r: Option<Id>)
    requires x in d
    ensures r.Some? ==> r.value in d
  {
    var k := Pos(d, x);
    if k + 1 < |d| then Some(d[k + 1]) else if repeat then Some(d[0]) else None
  }

  function Walk(d: seq<Id>, repeat: bool, x: Id, n: nat): (r: Option<Id>)
    requires x in d
    ensures r.Some? ==> r.value in d
  {
    if n == 0 then Some(x)
    else
      var c := Walk(d, repeat, x, n - 1);
      if c.None? then None else Next(d, repeat, c.value)
  }

  /** All entries from the one after `x` on, and with repeat round to `x` itself. */
  function Lap(d: seq<Id>, repeat: bool, x: Id): (r: seq<Id>)
    requires x in d
    ensures if repeat then |r| == |d| && r[|r| - 1] == x else |r| < |d|
  {
    d[Pos(d, x) + 1..] + if repeat then d[..Pos(d, x) + 1] else []
  }

  /** Where the n-th entry of the lap is in the list. */
  lemma LapAt(d: seq<Id>, repeat: bool, x: Id, n: nat)
    requires x in d && n < |Lap(d, repeat, x)|
    ensures var k := Pos(d, x);
            Lap(d, repeat, x)[n] == if k + 1 + n < |d| then d[k + 1 + n] else d[k + 1 + n - |d|]
  {
  }

  lemma {:induction false} WalkAt(d: seq<Id>, repeat: bool, x: Id, n: nat)
    requires Distinct(d) && x in d && n < |Lap(d, repeat, x)|
    ensures Walk(d, repeat, x, n + 1) == Some(Lap(d, repeat, x)[n])
  {
    LapAt(d, repeat, x, n);
    if n == 0 {
      assert Walk(d, repeat, x, 0) == Some(x);
    } else {
      WalkAt(d, repeat, x, n - 1);
      LapAt(d, repeat, x, n - 1);
      var k := Pos(d, x);
      PosIs(d, if k + n < |d| then k + n else k + n - |d|);
    }
  }

  lemma WalkEnds(d: seq<Id>, x: Id)
    requires Distinct(d) && x in d
    ensures Walk(d, false, x, |Lap(d, false, x)| + 1) == None
  {
    var n := |Lap(d, false, x)|;
    if n > 0 {
      WalkAt(d, false, x, n - 1);
      LapAt(d, false, x, n - 1);
    }
    PosIs(d, |d| - 1);
  }

  lemma WalkIs(d: seq<Id>, repeat: bool, x: Id, m: nat)
    requires Distinct(d) && x in d
    ensures var c, lap := Walk(d, repeat, x, m), Lap(d, repeat, x);
            && (m == 0 ==> c == Some(x))
            && (1 <= m <= |lap| ==> c == Some(lap[m - 1]))
            && (m == |lap| + 1 && !repeat ==> c == None)
  {
    var lap := Lap(d, repeat, x);
    if 1 <= m <= |lap| {
      WalkAt(d, repeat, x, m - 1);
    } else if m == |lap| + 1 && !repeat {
      WalkEnds(d, x);
    }
  }

  lemma InLap(d: seq<Id>, x: Id, y: Id) returns (i: nat)
    requires x in d && y in d
    ensures i < |Lap(d, true, x)| && Lap(d, true, x)[i] == y
  {
    var k, j := Pos(d, x), Pos(d, y);
    i := if j > k then j - k - 1 else j + (|d| - k - 1);
    LapAt(d, true, x, i);
  }

  predicate Mirrored(d: seq<Id>, e: seq<Id>) {
    |e| == |d| && forall i :: 0 <= i < |d| ==> e[i] == d[|d| - 1 - i]
  }

  /** Stepping back undoes a step. */
  lemma NextBack(d: seq<Id>, e: seq<Id>, repeat: bool, x: Id)
    requires Distinct(d) && Distinct(e) && Mirrored(d, e) && x in d
    ensures var y := Next(d, repeat, x);
            y.Some? ==> y.value in e && Next(e, repeat, y.value) == Some(x)
  {
    var k := Pos(d, x);
    var j := if k + 1 < |d| then k + 1 else 0;
    assert e[|d| - 1 - j] == d[j] && e[|d| - 1 - k] == d[k];
    PosIs(e, |d| - 1 - j);
  }

  lemma {:induction false} WalkBack(d: seq<Id>, e: seq<Id>, repeat: bool, x: Id, k: nat, m: nat)
    requires Distinct(d) && Distinct(e) && Mirrored(d, e) && x in d
    requires Walk(d, repeat, x, k + m).Some?
    ensures var y := Walk(d, repeat, x, k + m).value;
            && y in e && Walk(d, repeat, x, k).Some?
            && Walk(e, repeat, y, m) == Walk(d, repeat, x, k)
    decreases m
  {
    if m == 0 {
      InMirror(d, e, Walk(d, repeat, x, k).value);
    } else {
      WalkBack(d, e, repeat, x, k + 1, m - 1);
      NextBack(d, e, repeat, Walk(d, repeat, x, k).value);
    }
  }

  lemma InMirror(d: seq<Id>, e: seq<Id>, x: Id)
    requires Mirrored(d, e)
    ensures x in d <==> x in e
  {
    if x in d {
      var i :| 0 <= i < |d| && d[i] == x;
      assert e[|d| - 1 - i] == x;
    }
  }

  // ---- The order as the search sees it ---------------------------------------------------

  function Backwards(s: seq<Id>): (r: seq<Id>)
    ensures Mirrored(s, r)
  {
    if s == [] then [] else Backwards(s[1..]) + [s[0]]
  }

  function Path(q: Queue, reverse: bool): seq<Id> {
    if reverse then Backwards(Order(q)) else Order(q)
  }

  lemma {:induction false} DistinctFrom(s: seq<Id>)
    requires forall i, j :: 0 <= i < j < |s| ==> s[i] != s[j]
    ensures Distinct(s)
  {
    if s != [] { DistinctFrom(s[1..]); }
  }

  lemma BackwardsDistinct(s: seq<Id>)
    requires Distinct(s)
    ensures Distinct(Backwards(s))
  {
    var r := Backwards(s);
    forall i, j | 0 <= i < j < |r|
      ensures r[i] != r[j]
    {
      DistinctAt(s, |s| - 1 - j, |s| - 1 - i);
    }
    DistinctFrom(r);
  }

  lemma BackwardsPos(s: seq<Id>, x: Id)
    requires Distinct(s) && x in s
    ensures x in Backwards(s) && Pos(Backwards(s), x) == |s| - 1 - Pos(s, x)
  {
    var r := Backwards(s);
    BackwardsDistinct(s);
    assert r[|s| - 1 - Pos(s, x)] == x;
    PosIs(r, |s| - 1 - Pos(s, x));
  }

  /** The path has each linked entry once. */
  lemma PathIs(q: Queue, reverse: bool)
    requires Orders(q)
    ensures Distinct(Path(q, reverse)) && |Path(q, reverse)| == |q.linear|
  {
    BackwardsDistinct(Order(q));
  }

  lemma InPath(q: Queue, reverse: bool, id: Id)
    requires Orders(q)
    ensures id in Path(q, reverse) <==> id in q.linear
  {
    InMirror(Order(q), Backwards(Order(q)), id);
  }

  lemma PathFlip(q: Queue, reverse: bool)
    requires Orders(q)
    ensures Mirrored(Path(q, reverse), Path(q, !reverse))
  {
  }

  lemma ForwardIsNext(q: Queue, pqe: Id)
    requires Orders(q) && pqe in q.linear
    ensures Round(q, pqe, false) == Next(Order(q), q.repeat, pqe)
  {
  }

  lemma BackwardIsNext(q: Queue, pqe: Id, e: seq<Id>)
    requires Orders(q) && pqe in q.linear && e == Backwards(Order(q))
    ensures pqe in e && Round(q, pqe, true) == Next(e, q.repeat, pqe)
  {
    BackwardsPos(Order(q), pqe);
  }

  /** A round from a linked entry is a step along the path. */
  lemma RoundIsNext(q: Queue, pqe: Id, reverse: bool)
    requires Orders(q) && pqe in q.linear
    ensures pqe in Path(q, reverse)
    ensures Round(q, pqe, reverse) == Next(Path(q, reverse), q.repeat, pqe)
  {
    if reverse {
      BackwardIsNext(q, pqe, Path(q, reverse));
    } else {
      ForwardIsNext(q, pqe);
    }
  }

  lemma {:induction false} CandidateIsWalk(q: Queue, cur: Id, reverse: bool, n: nat)
    requires Orders(q) && cur in q.linear
    ensures cur in Path(q, reverse)
    ensures Candidate(q, cur, reverse, n) == Walk(Path(q, reverse), q.repeat, cur, n)
  {
    InPath(q, reverse, cur);
    if n > 0 {
      CandidateIsWalk(q, cur, reverse, n - 1);
      var c := Candidate(q, cur, reverse, n - 1);
      if c.Some? {
        InPath(q, reverse, c.value);
        RoundIsNext(q, c.value, reverse);
      }
    }
  }

  // ---- What the search finds -------------------------------------------------------------

  /** The first entry of `s` that is `cur` or playable. */
  function Search(q: Queue, cur: Id, s: seq<Id>): Option<Id> {
    if s == [] then None
    else if s[0] == cur || Playable(q, s[0]) then Some(s[0])
    else Search(q, cur, s[1..])
  }

  lemma {:induction false} SearchIs(q: Queue, cur: Id, s: seq<Id>) returns (n: nat)
    ensures n <= |s| && forall i :: 0 <= i < n ==> !Stops(q, cur, Some(s[i]))
    ensures if n < |s| then Search(q, cur, s) == Some(s[n]) && Stops(q, cur, Some(s[n]))
            else Search(q, cur, s) == None
  {
    if s == [] || s[0] == cur || Playable(q, s[0]) {
      n := 0;
    } else {
      n := SearchIs(q, cur, s[1..]);
      n := n + 1;
    }
  }

  /** From a linked entry the loop ends within as many rounds as the queue has entries, with the
      first entry of the lap that is playable or is where it started, and with NULL if there is
      none. */
  lemma AdvanceLinked(q: Queue, cur: Id, reverse: bool) returns (n: nat)
    requires Orders(q) && cur in q.linear
    ensures cur in Path(q, reverse)
    ensures n <= |q.linear| && EndsAt(q, cur, reverse, n)
    ensures Candidate(q, cur, reverse, n)
            == Search(q, cur, Lap(Path(q, reverse), q.repeat, cur))
  {
    InPath(q, reverse, cur);
    var lap := Lap(Path(q, reverse), q.repeat, cur);
    var i := SearchIs(q, cur, lap);
    n := i + 1;
    forall m | 1 <= m < n
      ensures !Stops(q, cur, Candidate(q, cur, reverse, m))
    {
      LinkedCandidate(q, cur, reverse, m);
      assert !Stops(q, cur, Some(lap[m - 1]));
    }
    LinkedCandidate(q, cur, reverse, n);
    PathIs(q, reverse);
  }

  lemma LinkedCandidate(q: Queue, cur: Id, reverse: bool, m: nat)
    requires Orders(q) && cur in q.linear
    ensures cur in Path(q, reverse)
    ensures var c, lap := Candidate(q, cur, reverse, m), Lap(Path(q, reverse), q.repeat, cur);
            && (1 <= m <= |lap| ==> c == Some(lap[m - 1]))
            && (m == |lap| + 1 && !q.repeat ==> c == None)
  {
    PathIs(q, reverse);
    CandidateIsWalk(q, cur, reverse, m);
    WalkIs(Path(q, reverse), q.repeat, cur, m);
  }

  /** The result of playqueue_advance0 where it ends. */
  function Advance(q: Queue, cur: Id, reverse: bool): Option<Id>
    requires Orders(q)
  {
    InPath(q, reverse, cur);
    InPath(q, reverse, if q.linear == [] then cur else q.linear[0]);
    if cur in q.linear then Search(q, cur, Lap(Path(q, reverse), q.repeat, cur))
    else if q.linear == [] then None
    else if Playable(q, q.linear[0]) then Some(q.linear[0])
    else Search(q, cur, Lap(Path(q, reverse), q.repeat, q.linear[0]))
  }

  /** From where playqueue_advance0 comes to an end. */
  predicate Terminates(q: Queue, cur: Id) {
    cur in q.linear || !q.repeat || q.linear == [] || exists id :: id in q.linear && Playable(q, id)
  }

  /** A search from an entry that is no longer linked goes on from the first entry. */
  lemma {:induction false} CandidateUnlinked(q: Queue, cur: Id, reverse: bool, n: nat)
    requires Orders(q) && cur !in q.linear && q.linear != []
    ensures Candidate(q, cur, reverse, n + 1) == Candidate(q, q.linear[0], reverse, n)
  {
    if n == 0 {
      assert Candidate(q, cur, reverse, 0) == Some(cur);
    } else {
      CandidateUnlinked(q, cur, reverse, n - 1);
    }
  }

  lemma AdvanceUnlinked(q: Queue, cur: Id, reverse: bool) returns (n: nat)
    requires Orders(q) && cur !in q.linear && Terminates(q, cur)
    ensures EndsAt(q, cur, reverse, n) && n <= |q.linear| + 1
    ensures Candidate(q, cur, reverse, n) == Advance(q, cur, reverse)
  {
    if q.linear == [] {
      n := 1;
      assert Candidate(q, cur, reverse, 0) == Some(cur);
    } else {
      CandidateUnlinked(q, cur, reverse, 0);
      if Playable(q, q.linear[0]) {
        n := 1;
      } else {
        InPath(q, reverse, q.linear[0]);
        n := UnlinkedLap(q, cur, reverse, q.linear[0], Path(q, reverse));
      }
    }
  }

  /** The lap from the first entry `f`, which is not playable itself. */
  lemma UnlinkedLap(q: Queue, cur: Id, reverse: bool, f: Id, d: seq<Id>) returns (n: nat)
    requires Orders(q) && cur !in q.linear && Terminates(q, cur) && q.linear != []
    requires f == q.linear[0] && !Playable(q, f) && d == Path(q, reverse)
    requires f in d
    ensures EndsAt(q, cur, reverse, n) && n <= |q.linear| + 1
    ensures Candidate(q, cur, reverse, n) == Search(q, cur, Lap(d, q.repeat, f))
  {
    var lap := Lap(d, q.repeat, f);
    var i := SearchIs(q, cur, lap);
    LapHasPlayable(q, cur, reverse, d, f, i);
    n := i + 2;
    forall m | 1 <= m < n
      ensures !Stops(q, cur, Candidate(q, cur, reverse, m))
    {
      UnlinkedPasses(q, cur, reverse, f, d, i, m);
    }
    UnlinkedCandidate(q, cur, reverse, f, d, n - 1);
    PathIs(q, reverse);
  }

  lemma UnlinkedPasses(q: Queue, cur: Id, reverse: bool, f: Id, d: seq<Id>, i: nat, m: nat)
    requires Orders(q) && cur !in q.linear && q.linear != []
    requires f == q.linear[0] && !Playable(q, f) && d == Path(q, reverse) && f in d
    requires i <= |Lap(d, q.repeat, f)| && 1 <= m < i + 2
    requires forall j :: 0 <= j < i ==> !Stops(q, cur, Some(Lap(d, q.repeat, f)[j]))
    ensures !Stops(q, cur, Candidate(q, cur, reverse, m))
  {
    UnlinkedCandidate(q, cur, reverse, f, d, m - 1);
    if m >= 2 { assert !Stops(q, cur, Some(Lap(d, q.repeat, f)[m - 2])); }
  }

  lemma UnlinkedCandidate(q: Queue, cur: Id, reverse: bool, f: Id, d: seq<Id>, m: nat)
    requires Orders(q) && cur !in q.linear && q.linear != []
    requires f == q.linear[0] && d == Path(q, reverse) && f in d
    ensures var c, lap := Candidate(q, cur, reverse, m + 1), Lap(d, q.repeat, f);
            && (m == 0 ==> c == Some(f))
            && (1 <= m <= |lap| ==> c == Some(lap[m - 1]))
            && (m == |lap| + 1 && !q.repeat ==> c == None)
  {
    PathIs(q, reverse);
    CandidateUnlinked(q, cur, reverse, m);
    CandidateIsWalk(q, f, reverse, m);
    WalkIs(d, q.repeat, f, m);
  }

  /** With repeat, and with something to stop at, the lap does not run out. */
  lemma LapHasPlayable(q: Queue, cur: Id, reverse: bool, d: seq<Id>, f: Id, i: nat)
    requires Orders(q) && d == Path(q, reverse) && cur !in q.linear && f in d
    requires Terminates(q, cur) && q.linear != []
    requires i <= |Lap(d, q.repeat, f)|
    requires forall j :: 0 <= j < i ==> !Stops(q, cur, Some(Lap(d, q.repeat, f)[j]))
    ensures q.repeat ==> i < |Lap(d, q.repeat, f)|
  {
    if q.repeat {
      var id :| id in q.linear && Playable(q, id);
      InPath(q, reverse, id);
      var j := InLap(d, f, id);
      assert i <= j;
    }
  }

  lemma EndsOnce(q: Queue, cur: Id, reverse: bool, m: nat, n: nat)
    requires Orders(q) && EndsAt(q, cur, reverse, m) && EndsAt(q, cur, reverse, n)
    ensures m == n
  {
  }

  /** Without a playable entry and with repeat, a search from an unlinked entry goes round. */
  lemma {:induction false} GoesRound(q: Queue, cur: Id, reverse: bool, n: nat)
    requires Orders(q) && cur !in q.linear && !Terminates(q, cur)
    ensures var c := Candidate(q, cur, reverse, n);
            c.Some? && (n >= 1 ==> c.value in q.linear && !Stops(q, cur, c))
  {
    if n > 0 {
      GoesRound(q, cur, reverse, n - 1);
      var c := Candidate(q, cur, reverse, n - 1).value;
      if n > 1 {
        RoundIsNext(q, c, reverse);
        InPath(q, reverse, Round(q, c, reverse).value);
      }
    }
  }

  /** playqueue_advance0 ends if and only if it starts at a linked entry, or repeat is off, or there
      is nothing to go round, or there is something to stop at. */
  lemma AdvanceEndsIff(q: Queue, cur: Id, reverse: bool)
    requires Orders(q)
    ensures (exists n :: EndsAt(q, cur, reverse, n)) <==> Terminates(q, cur)
  {
    if Terminates(q, cur) {
      var n: nat;
      if cur in q.linear {
        n := AdvanceLinked(q, cur, reverse);
      } else {
        n := AdvanceUnlinked(q, cur, reverse);
      }
      assert EndsAt(q, cur, reverse, n);
    } else {
      forall n | n >= 1
        ensures !EndsAt(q, cur, reverse, n)
      {
        GoesRound(q, cur, reverse, n);
      }
    }
  }

  /** Where it ends, Advance is what it returns. */
  lemma AdvanceIs(q: Queue, cur: Id, reverse: bool, n: nat)
    requires Orders(q) && EndsAt(q, cur, reverse, n)
    ensures Candidate(q, cur, reverse, n) == Advance(q, cur, reverse)
  {
    AdvanceEndsIff(q, cur, reverse);
    var m: nat;
    if cur in q.linear {
      m := AdvanceLinked(q, cur, reverse);
    } else {
      m := AdvanceUnlinked(q, cur, reverse);
    }
    EndsOnce(q, cur, reverse, m, n);
  }

  // ---- There and back --------------------------------------------------------------------

  lemma CandidateBack(q: Queue, cur: Id, reverse: bool, k: nat, m: nat)
    requires Orders(q) && cur in q.linear && Candidate(q, cur, reverse, k + m).Some?
    ensures Candidate(q, Candidate(q, cur, reverse, k + m).value, !reverse, m)
            == Candidate(q, cur, reverse, k)
    ensures Candidate(q, cur, reverse, k).Some?
  {
    PathIs(q, reverse);
    PathIs(q, !reverse);
    PathFlip(q, reverse);
    CandidateIsWalk(q, cur, reverse, k);
    CandidateIsWalk(q, cur, reverse, k + m);
    var d, e := Path(q, reverse), Path(q, !reverse);
    WalkBack(d, e, q.repeat, cur, k, m);
    InPath(q, reverse, Walk(d, q.repeat, cur, k + m).value);
    CandidateIsWalk(q, Walk(d, q.repeat, cur, k + m).value, !reverse, m);
  }

  /** From a playable entry, skipping back undoes skipping forward, and the other way round. */
  lemma SkipBackUndoes(q: Queue, cur: Id, reverse: bool)
    requires Orders(q) && cur in q.linear && Playable(q, cur)
    ensures var next := Advance(q, cur, reverse);
            next.Some? ==> Advance(q, next.value, !reverse) == Some(cur)
  {
    var n := AdvanceLinked(q, cur, reverse);
    var next := Advance(q, cur, reverse);
    if next.Some? {
      BackEndsAt(q, cur, reverse, n, next.value, !reverse);
      CandidateBack(q, cur, reverse, 0, n);
      AdvanceIs(q, next.value, !reverse, n);
    }
  }

  lemma BackEndsAt(q: Queue, cur: Id, reverse: bool, n: nat, next: Id, back: bool)
    requires Orders(q) && cur in q.linear && Playable(q, cur) && EndsAt(q, cur, reverse, n)
    requires Candidate(q, cur, reverse, n) == Some(next) && back == !reverse
    ensures EndsAt(q, next, back, n)
  {
    forall m | 1 <= m < n
      ensures !Stops(q, next, Candidate(q, next, back, m))
    {
      CandidateBack(q, cur, reverse, n - m, m);
      assert !Stops(q, cur, Candidate(q, cur, reverse, n - m));
    }
    CandidateBack(q, cur, reverse, 0, n);
  }

  // ---- Which entry it is -----------------------------------------------------------------

  /** The places of the lap from place k on: forward or backward to the end of the list, and with
      repeat round to k itself. */
  function LapPlace(n: nat, k: nat, reverse: bool, i: nat): nat
    requires k < n && i < n
  {
    if reverse then if i < k then k - 1 - i else n - 1 - (i - k)
    else if k + 1 + i < n then k + 1 + i else k + 1 + i - n
  }

  /** How many places there are before the list ends. */
  function LapLength(n: nat, k: nat, reverse: bool, repeat: bool): nat
    requires k < n
  {
    if repeat then n else if reverse then k else n - 1 - k
  }

  lemma ForwardLap(s: seq<Id>, repeat: bool, x: Id, i: nat)
    requires x in s && i < |Lap(s, repeat, x)|
    ensures i < |s| && Lap(s, repeat, x)[i] == s[LapPlace(|s|, Pos(s, x), false, i)]
  {
    LapAt(s, repeat, x, i);
  }

  lemma BackwardLap(s: seq<Id>, e: seq<Id>, repeat: bool, x: Id, i: nat)
    requires Mirrored(s, e) && x in s && x in e && Pos(e, x) == |s| - 1 - Pos(s, x)
    requires i < |Lap(e, repeat, x)|
    ensures i < |s| && Lap(e, repeat, x)[i] == s[LapPlace(|s|, Pos(s, x), true, i)]
  {
    ForwardLap(e, repeat, x, i);
    MirrorPlace(s, e, Pos(s, x), i);
  }

  lemma MirrorPlace(s: seq<Id>, e: seq<Id>, k: nat, i: nat)
    requires Mirrored(s, e) && k < |s| && i < |s|
    ensures e[LapPlace(|s|, |s| - 1 - k, false, i)] == s[LapPlace(|s|, k, true, i)]
  {
    PlaceBack(|s|, k, i);
  }

  lemma PlaceBack(n: nat, k: nat, i: nat)
    requires k < n && i < n
    ensures LapPlace(n, n - 1 - k, false, i) < n
    ensures LapPlace(n, k, true, i) == n - 1 - LapPlace(n, n - 1 - k, false, i)
  {
  }

  lemma LapIs(q: Queue, cur: Id, reverse: bool, i: nat)
    requires Orders(q) && cur in Path(q, reverse) && cur in Order(q)
    requires i < |Lap(Path(q, reverse), q.repeat, cur)|
    ensures var s := Order(q);
            && i < |s|
            && Lap(Path(q, reverse), q.repeat, cur)[i] == s[LapPlace(|s|, Pos(s, cur), reverse, i)]
  {
    if reverse {
      BackwardsPos(Order(q), cur);
      BackwardLap(Order(q), Path(q, reverse), q.repeat, cur, i);
    } else {
      ForwardLap(Order(q), q.repeat, cur, i);
    }
  }

  lemma LapLengthIs(q: Queue, cur: Id, reverse: bool)
    requires Orders(q) && cur in Order(q) && cur in Path(q, reverse)
    ensures |Lap(Path(q, reverse), q.repeat, cur)|
            == LapLength(|Order(q)|, Pos(Order(q), cur), reverse, q.repeat)
  {
    BackwardsPos(Order(q), cur);
  }

  /** From a linked entry the result is the first one of the lap that is playable or is the entry
      itself, in the shuffled list if shuffle is on and otherwise in the linear one, and NULL if
      there is none such. */
  lemma AdvanceGoesTo(q: Queue, cur: Id, reverse: bool) returns (k: nat, n: nat)
    requires Orders(q) && cur in q.linear
    ensures var s := if q.shuffle then q.shuffled else q.linear;
            && k < |s| && s[k] == cur && n <= LapLength(|s|, k, reverse, q.repeat)
            && (forall i :: 0 <= i < n ==> !Stops(q, cur, Some(s[LapPlace(|s|, k, reverse, i)])))
            && var found := Advance(q, cur, reverse);
            if n == LapLength(|s|, k, reverse, q.repeat) then found == None
            else found == Some(s[LapPlace(|s|, k, reverse, n)]) && Stops(q, cur, found)
  {
    InPath(q, reverse, cur);
    var s := Order(q);
    assert cur in s;
    k := Pos(s, cur);
    LapLengthIs(q, cur, reverse);
    var lap := Lap(Path(q, reverse), q.repeat, cur);
    n := SearchIs(q, cur, lap);
    forall i | 0 <= i < n
      ensures !Stops(q, cur, Some(s[LapPlace(|s|, k, reverse, i)]))
    {
      LapIs(q, cur, reverse, i);
    }
    if n < |lap| { LapIs(q, cur, reverse, n); }
  }
}
