/** The tail queues of src/playqueue.c as sequences of entries. */
module PlayList {
  import opened Common

  type Id = nat

  predicate Distinct(s: seq<Id>) {
    s == [] || (s[0] !in s[1..] && Distinct(s[1..]))
  }

  function Pos(s: seq<Id>, x: Id): (i: nat)
    requires x in s
    ensures i < |s| && s[i] == x
  {
    if s[0] == x then 0 else 1 + Pos(s[1..], x)
  }

  /** TAILQ_REMOVE */
  function Minus(s: seq<Id>, x: Id): seq<Id> {
    if s == [] then [] else if s[0] == x then Minus(s[1..], x) else [s[0]] + Minus(s[1..], x)
  }

  /** TAILQ_INSERT_BEFORE, or TAILQ_INSERT_TAIL if there is nothing to insert before. */
  function Insert(s: seq<Id>, before: Option<Id>, x: Id): seq<Id> {
    if s == [] || (before.Some? && s[0] == before.value) then [x] + s
    else [s[0]] + Insert(s[1..], before, x)
  }

  /** The entries of `s` that are also in `t`. */
  function Only(s: seq<Id>, t: seq<Id>): seq<Id> {
    if s == [] then [] else if s[0] in t then [s[0]] + Only(s[1..], t) else Only(s[1..], t)
  }

  function Count(s: seq<Id>, x: Id): nat {
    if s == [] then 0 else (if s[0] == x then 1 else 0) + Count(s[1..], x)
  }

  // ---- Distinct --------------------------------------------------------------------------

  lemma {:induction false} DistinctAt(s: seq<Id>, i: nat, j: nat)
    requires Distinct(s) && i < j < |s|
    ensures s[i] != s[j]
  {
    if i > 0 { DistinctAt(s[1..], i - 1, j - 1); }
  }

  lemma {:induction false} PosIs(s: seq<Id>, i: nat)
    requires Distinct(s) && i < |s|
    ensures Pos(s, s[i]) == i
  {
    if i > 0 {
      DistinctAt(s, 0, i);
      PosIs(s[1..], i - 1);
    }
  }

  // ---- Removal ---------------------------------------------------------------------------

  lemma {:induction false} MinusIs(s: seq<Id>, x: Id)
    ensures forall y :: y in Minus(s, x) <==> y in s && y != x
    ensures Distinct(s) ==> Distinct(Minus(s, x))
    ensures Distinct(s) ==> |Minus(s, x)| == |s| - (if x in s then 1 else 0)
  {
    if s != [] { MinusIs(s[1..], x); }
  }

  lemma {:induction false} MinusAbsent(s: seq<Id>, x: Id)
    requires x !in s
    ensures Minus(s, x) == s
  {
    if s != [] { MinusAbsent(s[1..], x); }
  }

  lemma {:induction false} MinusPos(s: seq<Id>, x: Id, y: Id)
    requires Distinct(s) && x in s && y in s && y != x
    ensures y in Minus(s, x)
    ensures Pos(Minus(s, x), y) == if Pos(s, y) < Pos(s, x) then Pos(s, y) else Pos(s, y) - 1
  {
    MinusIs(s, x);
    if s[0] == x {
      MinusAbsent(s[1..], x);
    } else if s[0] != y {
      MinusPos(s[1..], x, y);
    }
  }

  lemma {:induction false} MinusSplit(s: seq<Id>, x: Id)
    requires Distinct(s) && x in s
    ensures Minus(s, x) == s[..Pos(s, x)] + s[Pos(s, x) + 1..]
  {
    if s[0] == x {
      MinusAbsent(s[1..], x);
    } else {
      MinusSplit(s[1..], x);
    }
  }

  // ---- Insertion -------------------------------------------------------------------------

  /** Where Insert puts the new entry. */
  function Place(s: seq<Id>, before: Option<Id>): (i: nat)
    ensures i <= |s|
  {
    if before.Some? && before.value in s then Pos(s, before.value) else |s|
  }

  lemma {:induction false} InsertIs(s: seq<Id>, before: Option<Id>, x: Id)
    requires x !in s
    ensures forall y :: y in Insert(s, before, x) <==> y in s || y == x
    ensures Distinct(s) ==> Distinct(Insert(s, before, x))
    ensures |Insert(s, before, x)| == |s| + 1
  {
    if s != [] && !(before.Some? && s[0] == before.value) {
      InsertIs(s[1..], before, x);
    }
  }

  lemma {:induction false} InsertSplit(s: seq<Id>, before: Option<Id>, x: Id)
    ensures Insert(s, before, x) == s[..Place(s, before)] + [x] + s[Place(s, before)..]
  {
    if s != [] && !(before.Some? && s[0] == before.value) {
      InsertSplit(s[1..], before, x);
    }
  }

  lemma {:induction false} InsertPos(s: seq<Id>, before: Option<Id>, x: Id, y: Id)
    requires x !in s && (y in s || y == x)
    ensures y in Insert(s, before, x)
    ensures var i := Place(s, before);
            Pos(Insert(s, before, x), y)
            == if y == x then i else if Pos(s, y) < i then Pos(s, y) else Pos(s, y) + 1
  {
    if s == [] || (before.Some? && s[0] == before.value) {
      assert ([x] + s)[1..] == s;
    } else if s[0] != y {
      InsertPos(s[1..], before, x, y);
    }
  }

  // ---- Restriction -----------------------------------------------------------------------

  lemma {:induction false} OnlyIs(s: seq<Id>, t: seq<Id>)
    ensures forall y :: y in Only(s, t) <==> y in s && y in t
  {
    if s != [] { OnlyIs(s[1..], t); }
  }

  lemma {:induction false} OnlyAgrees(s: seq<Id>, t: seq<Id>, u: seq<Id>)
    requires forall y :: y in s ==> (y in t <==> y in u)
    ensures Only(s, t) == Only(s, u)
  {
    if s != [] { OnlyAgrees(s[1..], t, u); }
  }

  lemma {:induction false} OnlyMinus(s: seq<Id>, t: seq<Id>, x: Id)
    ensures Only(Minus(s, x), t) == Minus(Only(s, t), x)
  {
    if s != [] {
      OnlyMinus(s[1..], t, x);
      assert ([s[0]] + Only(s[1..], t))[1..] == Only(s[1..], t);
      assert ([s[0]] + Minus(s[1..], x))[1..] == Minus(s[1..], x);
    }
  }

  /** Restricting to fewer entries. */
  lemma {:induction false} OnlyFewer(s: seq<Id>, t: seq<Id>, x: Id)
    ensures Only(s, Minus(t, x)) == Minus(Only(s, t), x)
  {
    MinusIs(t, x);
    if s != [] {
      OnlyFewer(s[1..], t, x);
      assert ([s[0]] + Only(s[1..], t))[1..] == Only(s[1..], t);
    }
  }

  /** An entry inserted before the same entry of both lists. */
  lemma {:induction false} OnlyInsert(s: seq<Id>, t: seq<Id>, before: Option<Id>, x: Id)
    requires x !in s && x in t && (before.Some? ==> before.value in t)
    ensures Only(Insert(s, before, x), t) == Insert(Only(s, t), before, x)
  {
    if s == [] {
    } else if before.Some? && s[0] == before.value {
      assert Insert(s, before, x)[1..] == s;
    } else {
      OnlyInsert(s[1..], t, before, x);
      assert ([s[0]] + Only(s[1..], t))[1..] == Only(s[1..], t);
      assert ([s[0]] + Insert(s[1..], before, x))[1..] == Insert(s[1..], before, x);
    }
  }

  lemma {:induction false} OnlyInsertOther(s: seq<Id>, t: seq<Id>, before: Option<Id>, x: Id)
    requires x !in t
    ensures Only(Insert(s, before, x), t) == Only(s, t)
  {
    if s != [] && !(before.Some? && s[0] == before.value) {
      OnlyInsertOther(s[1..], t, before, x);
    }
  }

  // ---- Counting --------------------------------------------------------------------------

  lemma {:induction false} CountSplit(a: seq<Id>, b: seq<Id>, x: Id)
    ensures Count(a + b, x) == Count(a, x) + Count(b, x)
  {
    if a == [] {
      assert a + b == b;
    } else {
      CountSplit(a[1..], b, x);
      assert (a + b)[1..] == a[1..] + b;
    }
  }

  lemma {:induction false} CountPositive(s: seq<Id>, x: Id)
    ensures Count(s, x) > 0 <==> x in s
  {
    if s != [] { CountPositive(s[1..], x); }
  }
}
