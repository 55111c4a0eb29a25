/** When the arena pool of ext/spidermonkey/jsarena.c answers a request, and when it must refuse. */
module ArenaGrant {
  import opened Common
  import opened ArenaMath
  import opened ArenaPool
  import opened ArenaInvariant

  /** The current arena has `nb` bytes left. */
  predicate HasRoom(p: Pool, nb: nat)
    requires p.cur < |p.arenas|
  {
    p.arenas[p.cur].avail + nb <= p.arenas[p.cur].limit
  }

  /** The bytes of an arena for a request of `nb` bytes: the struct, the bytes that aligning may
      cost, a pointer with its own slop if the request is larger than arenasize, and the data. */
  function Needed(c: Config, nb: nat): int {
    c.structSize + (c.align - 1)
    + (if nb > c.arenasize then
         c.ptrSize + (if c.align < c.ptrAlign then c.ptrAlign - c.align else 0) + nb
       else c.arenasize)
  }

  /** What the pool may ask malloc for. */
  predicate Affordable(c: Config, p: Pool, n: int) {
    n < c.word && (p.quota.Some? ==> n <= p.quota.value)
  }

  /** What the quota is after `n` bytes have been paid for. */
  predicate Paid(p: Pool, q: Pool, n: int) {
    match p.quota
    case None => q.quota == None
    case Some(left) => q.quota.Some? && q.quota.value == left - n
  }

  lemma CurrentIsSomewhere(c: Config, p: Pool)
    requires AnyConfig(c) && PoolOk(c, p)
    ensures p.arenas[p.cur].avail > 0
  {
    UpFacts(p.arenas[0].at + c.structSize, c.align);
    if p.cur > 0 { assert ArenaOk(c, p.arenas, p.cur); }
  }

  /** Where the current arena has room, the request is met from there.  Where it has none, it is met
      if and only if an arena of the needed size fits into a word, is within the quota if there is
      one, and malloc returns it; the arena then has exactly the needed size, and the quota pays for
      it.  Otherwise the answer is NULL, and the pool stays as it is. */
  lemma AllocAnswersIff(c: Config, p: Pool, nb: nat, ans: Answer)
    requires AnyConfig(c) && PoolOk(c, p) && AlignUp(nb, c.align) < c.word
    requires AnswerFits(p, ans, Gross(c, AlignUp(nb, c.align)))
    ensures var m := AlignUp(nb, c.align);
            var (q, ptr) := Alloc(c, p, nb, ans);
            if HasRoom(p, m) then
              && ptr == p.arenas[p.cur].avail && ptr != 0 && q.quota == p.quota
              && q.arenas == p.arenas[p.cur := p.arenas[p.cur].(avail := ptr + m)]
            else
              && (ptr != 0 <==> Affordable(c, p, Needed(c, m)) && ans.at != 0)
              && (ptr == 0 ==> q == p)
              && (ptr != 0 ==>
                    && |q.arenas| == |p.arenas| + 1 && q.arenas[..|p.arenas|] == p.arenas
                    && var a := q.arenas[|p.arenas|];
                    && a.at == ans.at && a.limit - a.at == Needed(c, m)
                    && a.base == ptr && a.avail == ptr + m
                    && Paid(p, q, Needed(c, m)))
  {
    var m := AlignUp(nb, c.align);
    UpFacts(nb, c.align);
    CurrentIsSomewhere(c, p);
    AllocateCases(c, p, m, ans);
    GrossOverflow(c, m);
    if !HasRoom(p, m) && Granted(c, p, m, ans) {
      FreshArenaFits(c, ans.at, m, p.arenas[p.cur].at);
    }
  }

  // ---- Growth ----------------------------------------------------------------------------

  /** The block is the last one of the current arena. */
  predicate IsLast(c: Config, p: Pool, ptr: nat, size: nat)
    requires c.align > 0 && p.cur < |p.arenas|
  {
    p.arenas[p.cur].avail == ptr + AlignUp(size, c.align)
  }

  /** A block grows in place if and only if it is the last one of the current arena and that has
      room for it; otherwise it is copied if and only if it is small and does not have the current
      arena to itself. */
  lemma GrowPathIff(c: Config, p: Pool, ptr: nat, size: nat, incr: nat)
    requires c.align > 0 && p.cur < |p.arenas|
    ensures var path, m := GrowPath(c, p, ptr, size, incr), AlignUp(size + incr, c.align);
            && (path == InPlace <==> IsLast(c, p, ptr, size) && ptr + m <= p.arenas[p.cur].limit)
            && (path == ByCopy <==>
                  && path != InPlace && size <= c.arenasize
                  && !(IsLast(c, p, ptr, size) && ptr == p.arenas[p.cur].base))
  {
  }

  /** In place, the block stays where it is and takes what it needs of the current arena. */
  lemma InPlaceAnswers(c: Config, p: Pool, ptr: nat, size: nat, incr: nat, k: nat, ans: Answer)
    requires AnyConfig(c) && PoolOk(c, p) && CanGrow(c, p, ptr, size, incr, k, ans)
    requires GrowPath(c, p, ptr, size, incr) == InPlace
    ensures var a := p.arenas[p.cur].(avail := ptr + AlignUp(size + incr, c.align));
            Grow(c, p, ptr, size, incr, k, ans) == (p.(arenas := p.arenas[p.cur := a]), ptr)
  {
  }

  /** A growth by copy succeeds exactly where an allocation of the whole block does. */
  lemma CopyAnswersIff(c: Config, p: Pool, ptr: nat, size: nat, incr: nat, k: nat, ans: Answer)
    requires AnyConfig(c) && PoolOk(c, p) && CanGrow(c, p, ptr, size, incr, k, ans)
    requires GrowPath(c, p, ptr, size, incr) == ByCopy && AlignUp(size + incr, c.align) < c.word
    ensures var m := AlignUp(size + incr, c.align);
            var (q, r) := Grow(c, p, ptr, size, incr, k, ans);
            && (r == 0 ==> q == p)
            && if HasRoom(p, m) then r == p.arenas[p.cur].avail && r != 0 && q.quota == p.quota
               else
                 && (r != 0 <==> Affordable(c, p, Needed(c, m)) && ans.at != 0)
                 && (r != 0 ==> Paid(p, q, Needed(c, m)))
  {
    AllocAnswersIff(c, p, size + incr, ans);
  }

  /** JS_ArenaRealloc succeeds if and only if what the arena grows by is within the quota, if there
      is one, and realloc returns it; the quota pays for exactly that. */
  lemma ReallocAnswersIff(c: Config, p: Pool, ptr: nat, size: nat, incr: nat, k: nat, ans: Answer)
    requires AnyConfig(c) && ReallocReady(c, p, ptr, size, incr, k, ans)
    ensures ReallocFits(c, p, size, incr, k, ans)
    ensures var m := AlignUp(size + incr, c.align);
            var growth := Needed(c, m) - (p.arenas[k].limit - p.arenas[k].at);
            var (q, r) := Realloc(c, p, ptr, size, incr, k, ans);
            && (r != 0 <==> (p.quota.Some? ==> growth <= p.quota.value) && ans.at != 0)
            && (r == 0 ==> q == p)
            && (r != 0 ==> Paid(p, q, growth))
  {
    ReallocIsDefined(c, p, ptr, size, incr, k, ans);
    BigBase(c, ans.at);
  }
}
