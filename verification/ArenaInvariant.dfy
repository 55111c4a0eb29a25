/** What every operation on an arena pool keeps. */
module ArenaInvariant {
  import opened Common
  import opened ArenaMath
  import opened ArenaPool

  predicate Big(c: Config, a: Arena) { a.avail - a.base > c.arenasize }

  /** A usual arena has exactly arenasize bytes and alignment slop; an oversized one holds one block
      and carries a header with the address of the link that points at it. */
  predicate ArenaOk(c: Config, arenas: seq<Arena>, k: nat)
    requires 1 <= k < |arenas| && c.align > 0 && c.ptrAlign > 0
  {
    var a := arenas[k];
    && 0 < a.at && a.at + c.structSize <= a.base && a.base < a.avail && a.avail <= a.limit
    && a.limit < c.word
    && Aligned(a.base, c.align) && Aligned(a.avail, c.align)
    && (if Big(c, a) then
          && a.at + c.structSize + c.ptrSize <= a.base
          && Aligned(a.base, c.ptrAlign)
          && a.hdr == Some(arenas[k - 1].at)
          && a.limit - a.at <= HdrSize(c, true) + (a.avail - a.base)
          && a.limit - a.avail < BaseAlign(c)
        else
          && a.hdr == None && c.arenasize <= a.limit - a.base < c.arenasize + c.align
          && a.limit - a.at == HdrSize(c, false) + c.arenasize)
  }

  predicate FirstOk(c: Config, a: Arena)
    requires c.align > 0
  {
    && 0 < a.at && a.at + c.poolSize < c.word
    && a.base == AlignUp(a.at + c.structSize, c.align) && a.avail == a.base && a.limit == a.base
  }

  /** The end of the memory that belongs to the k-th arena. */
  function Top(c: Config, arenas: seq<Arena>, k: nat): nat
    requires k < |arenas|
  {
    if k == 0 then arenas[0].at + c.poolSize else arenas[k].limit
  }

  predicate Clear(c: Config, arenas: seq<Arena>, k: nat, lo: nat, hi: nat)
    requires k < |arenas|
  {
    hi <= arenas[k].at || Top(c, arenas, k) <= lo
  }

  predicate Apart(c: Config, arenas: seq<Arena>) {
    forall i, j :: 0 <= i < |arenas| && 0 <= j < |arenas| && i != j ==>
      Clear(c, arenas, i, arenas[j].at, Top(c, arenas, j))
  }

  /** An arenasize that no aligned size exceeds by less than the alignment: a multiple of the
      alignment, or too small for any block. */
  predicate Regular(c: Config)
    requires c.align > 0
  {
    c.arenasize < c.align || Aligned(c.arenasize, c.align)
  }

  /** Any alignment, and a regular arenasize. */
  ghost predicate AnyConfig(c: Config) {
    ConfigOk(c) && Regular(c)
  }

  /** The alignments for which an oversized arena has room for one block only. */
  ghost predicate WideConfig(c: Config) {
    AnyConfig(c) && c.ptrAlign <= c.align
  }

  predicate ArenasOk(c: Config, arenas: seq<Arena>)
    requires c.align > 0 && c.ptrAlign > 0
  {
    && |arenas| > 0 && FirstOk(c, arenas[0])
    && (forall k :: 1 <= k < |arenas| ==> ArenaOk(c, arenas, k))
    && Apart(c, arenas)
  }

  predicate PoolOk(c: Config, p: Pool)
    requires c.align > 0 && c.ptrAlign > 0
  {
    ArenasOk(c, p.arenas) && p.cur == |p.arenas| - 1 && |p.mem| == c.word
  }

  predicate ClearOfAll(c: Config, arenas: seq<Arena>, lo: nat, hi: nat, skip: int) {
    forall k :: 0 <= k < |arenas| && k != skip ==> Clear(c, arenas, k, lo, hi)
  }

  /** What malloc and realloc promise: memory inside the address space that overlaps no other
      chunk, where `skip` is the chunk realloc may reuse. */
  predicate Fresh(c: Config, p: Pool, ans: Answer, n: int, skip: int) {
    ans.at != 0 ==>
      n >= 0 && ans.at + n < c.word && ClearOfAll(c, p.arenas, ans.at, ans.at + n, skip)
  }

  /** *quotap, if there is one, together with the sizes of all chunks. */
  function Budget(p: Pool): Option<int>
    requires |p.arenas| > 0
  {
    if p.quota.Some? then Some(p.quota.value + Sizes(p.arenas, 1)) else None
  }

  lemma PoolIsSized(c: Config, p: Pool)
    requires AnyConfig(c) && PoolOk(c, p)
    ensures Sized(p.arenas)
  {
    UpFacts(p.arenas[0].at + c.structSize, c.align);
    forall k | 0 <= k < |p.arenas|
      ensures p.arenas[k].at <= p.arenas[k].limit
    {
      if k > 0 { assert ArenaOk(c, p.arenas, k); }
    }
  }

  lemma {:induction false} SizesOfPrefix(a: seq<Arena>, b: seq<Arena>, from: nat)
    requires from <= |a| <= |b| && b[..|a|] == a
    ensures Sizes(b, from) == Sizes(a, from) + Sizes(b, |a|)
    decreases |a| - from
  {
    if from < |a| {
      SizesOfPrefix(a, b, from + 1);
      assert b[from] == b[..|a|][from];
    }
  }

  lemma {:induction false} SizesAfterUpdate(a: seq<Arena>, b: seq<Arena>, k: nat, from: nat)
    requires |a| == |b| && k < |a| && from <= |a|
    requires forall i :: 0 <= i < |a| && i != k ==>
               a[i].at == b[i].at && a[i].limit == b[i].limit
    ensures Sizes(b, from) ==
              Sizes(a, from) + (if from <= k then (b[k].limit - b[k].at) - (a[k].limit - a[k].at)
                                else 0)
    decreases |a| - from
  {
    if from < |a| { SizesAfterUpdate(a, b, k, from + 1); }
  }

  // ---- Initialisation --------------------------------------------------------------------

  lemma InitOk(c: Config, at: nat, quota: Option<nat>, mem: seq<Byte>)
    requires AnyConfig(c) && 0 < at && at + c.poolSize < c.word && |mem| == c.word
    ensures PoolOk(c, Init(c, at, quota, mem))
  {
  }

  // ---- Allocation ------------------------------------------------------------------------

  lemma SameShapeApart(c: Config, a: seq<Arena>, b: seq<Arena>)
    requires Apart(c, a) && |a| == |b|
    requires forall i :: 0 <= i < |a| ==> a[i].at == b[i].at && a[i].limit == b[i].limit
    ensures Apart(c, b)
  {
    forall i, j | 0 <= i < |b| && 0 <= j < |b| && i != j
      ensures Clear(c, b, i, b[j].at, Top(c, b, j))
    {
      assert Clear(c, a, i, a[j].at, Top(c, a, j));
    }
  }

  /** The first arena has no room for anything. */
  lemma FirstIsFull(c: Config, p: Pool, nb: nat)
    requires AnyConfig(c) && PoolOk(c, p) && nb > 0
    ensures !Fits(p.arenas[0], nb)
  {
  }

  lemma BumpArenaOk(c: Config, arenas: seq<Arena>, k: nat, nb: nat)
    requires AnyConfig(c) && 1 <= k < |arenas| && ArenaOk(c, arenas, k)
    requires nb > 0 && Aligned(nb, c.align) && Fits(arenas[k], nb)
    ensures ArenaOk(c, arenas[k := arenas[k].(avail := arenas[k].avail + nb)], k)
  {
    var a := arenas[k];
    AlignedAdd(a.avail, nb, c.align);
    AlignedSub(a.avail + nb, a.base, c.align);
    AlignedGap(a.base, a.avail, c.align);
    if a.avail + nb - a.base > c.arenasize && !Big(c, a) {
      AlignedGap(c.arenasize, a.avail + nb - a.base, c.align);
    }
  }

  lemma BumpKeepsOk(c: Config, p: Pool, nb: nat)
    requires AnyConfig(c) && PoolOk(c, p) && nb > 0 && Aligned(nb, c.align)
    requires Fits(p.arenas[p.cur], nb)
    ensures p.cur > 0 && PoolOk(c, Bump(p, p.cur, nb)) && Budget(Bump(p, p.cur, nb)) == Budget(p)
  {
    var q := Bump(p, p.cur, nb);
    FirstIsFull(c, p, nb);
    assert ArenaOk(c, p.arenas, p.cur);
    BumpArenaOk(c, p.arenas, p.cur, nb);
    LastReplacedOk(c, p.arenas, q.arenas);
    SameShapeApart(c, p.arenas, q.arenas);
    SizesAfterUpdate(p.arenas, q.arenas, p.cur, 1);
  }

  lemma LastReplacedOk(c: Config, a: seq<Arena>, b: seq<Arena>)
    requires AnyConfig(c) && |a| == |b| > 1 && a[..|a| - 1] == b[..|a| - 1]
    requires forall k :: 1 <= k < |a| ==> ArenaOk(c, a, k)
    requires ArenaOk(c, b, |a| - 1)
    ensures b[0] == a[0] && forall k :: 1 <= k < |b| ==> ArenaOk(c, b, k)
  {
    assert b[0] == b[..|a| - 1][0];
    forall k | 1 <= k < |b|
      ensures ArenaOk(c, b, k)
    {
      assert ArenaOk(c, a, k);
      if k < |a| - 1 {
        assert b[k - 1] == b[..|a| - 1][k - 1] && b[k] == b[..|a| - 1][k];
      }
    }
  }

  /** With a pointer's alignment or more, nothing fits behind an oversized block. */
  lemma WideBumpIsSmall(c: Config, p: Pool, nb: nat)
    requires WideConfig(c) && PoolOk(c, p) && nb > 0 && Aligned(nb, c.align)
    requires Fits(p.arenas[p.cur], nb)
    ensures p.cur > 0
    ensures !Big(c, p.arenas[p.cur]) && !Big(c, Bump(p, p.cur, nb).arenas[p.cur])
  {
    FirstIsFull(c, p, nb);
    var a := p.arenas[p.cur];
    assert ArenaOk(c, p.arenas, p.cur);
    AlignedGap(0, nb, c.align);
    AlignedAdd(a.avail, nb, c.align);
    AlignedSub(a.avail + nb, a.base, c.align);
    AlignedGap(a.base, a.avail, c.align);
    if a.avail + nb - a.base > c.arenasize && c.arenasize >= c.align {
      AlignedGap(c.arenasize, a.avail + nb - a.base, c.align);
    }
  }

  lemma ApartAppend(c: Config, arenas: seq<Arena>, a: Arena)
    requires Apart(c, arenas) && |arenas| > 0
    requires ClearOfAll(c, arenas, a.at, a.limit, -1)
    ensures Apart(c, arenas + [a])
  {
    var b := arenas + [a];
    forall i, j | 0 <= i < |b| && 0 <= j < |b| && i != j
      ensures Clear(c, b, i, b[j].at, Top(c, b, j))
    {
      if i < |arenas| && j < |arenas| {
        assert Clear(c, arenas, i, arenas[j].at, Top(c, arenas, j));
      } else if i < |arenas| {
        assert Clear(c, arenas, i, a.at, a.limit);
      } else {
        assert Clear(c, arenas, j, a.at, a.limit);
      }
    }
  }

  /** The pool after malloc has been used for `nb` bytes. */
  function Extended(c: Config, p: Pool, nb: nat, ans: Answer): Pool
    requires c.word > 0 && c.align > 0 && |p.arenas| > 0
    requires Granted(c, p, nb, ans) && AnswerFits(p, ans, Gross(c, nb))
  {
    var a := NewArena(c, ans.at, nb, p.arenas[|p.arenas| - 1].at);
    Pool(p.arenas + [a.(avail := a.base + nb)], |p.arenas|,
         if p.quota.Some? then Some(p.quota.value - Gross(c, nb)) else None,
         Store(p.mem, ans.at, ans.fill))
  }

  lemma NewArenaOk(c: Config, arenas: seq<Arena>, at: nat, nb: nat)
    requires AnyConfig(c) && |arenas| > 0 && at > 0
    requires 0 < nb < c.word && Aligned(nb, c.align) && Gross(c, nb) >= nb
    requires at + Gross(c, nb) < c.word
    ensures var a := NewArena(c, at, nb, arenas[|arenas| - 1].at);
            ArenaOk(c, arenas + [a.(avail := a.base + nb)], |arenas|)
  {
    var a := NewArena(c, at, nb, arenas[|arenas| - 1].at);
    FreshArenaFits(c, at, nb, arenas[|arenas| - 1].at);
    GrossOverflow(c, nb);
    AlignedAdd(a.base, nb, c.align);
    if nb > c.arenasize {
      BigBase(c, at);
    }
  }

  lemma ExtendedIsOk(c: Config, p: Pool, nb: nat, ans: Answer)
    requires AnyConfig(c) && PoolOk(c, p)
    requires 0 < nb < c.word && Aligned(nb, c.align)
    requires Granted(c, p, nb, ans) && AnswerFits(p, ans, Gross(c, nb))
    requires Fresh(c, p, ans, Gross(c, nb), -1)
    ensures PoolOk(c, Extended(c, p, nb, ans))
    ensures Budget(Extended(c, p, nb, ans)) == Budget(p)
  {
    var q := Extended(c, p, nb, ans);
    var n := |p.arenas|;
    NewArenaOk(c, p.arenas, ans.at, nb);
    forall k | 1 <= k < |q.arenas|
      ensures ArenaOk(c, q.arenas, k)
    {
      if k < n { assert ArenaOk(c, p.arenas, k); }
    }
    ApartAppend(c, p.arenas, q.arenas[n]);
    ExtendedBudget(c, p, nb, ans);
  }

  lemma ExtendedBudget(c: Config, p: Pool, nb: nat, ans: Answer)
    requires c.word > 0 && c.align > 0 && |p.arenas| > 0
    requires Granted(c, p, nb, ans) && AnswerFits(p, ans, Gross(c, nb))
    ensures Budget(Extended(c, p, nb, ans)) == Budget(p)
  {
    var q := Extended(c, p, nb, ans);
    var n := |p.arenas|;
    assert q.arenas[..n] == p.arenas;
    SizesOfPrefix(p.arenas, q.arenas, 1);
    assert Sizes(q.arenas, n) == Gross(c, nb) + Sizes(q.arenas, n + 1);
  }

  /** What JS_ArenaAllocate does to a pool: bump the last arena, or add one, or refuse. */
  lemma AllocateCases(c: Config, p: Pool, nb: nat, ans: Answer)
    requires AnyConfig(c) && PoolOk(c, p) && nb < c.word && Aligned(nb, c.align)
    requires AnswerFits(p, ans, Gross(c, nb))
    ensures var last := p.arenas[p.cur];
            Allocate(c, p, nb, ans) ==
              if Fits(last, nb) then (Bump(p, p.cur, nb), last.avail)
              else if Granted(c, p, nb, ans) then
                var q := Extended(c, p, nb, ans); (q, q.arenas[p.cur + 1].base)
              else (p, 0)
  {
    var n := p.cur;
    if !Fits(p.arenas[n], nb) {
      assert FirstFit(p.arenas, n, nb) == FirstFit(p.arenas, n + 1, nb) == n + 1;
      if Granted(c, p, nb, ans) {
        var a := NewArena(c, ans.at, nb, p.arenas[n].at);
        assert (p.arenas + [a])[n + 1 := a.(avail := a.base + nb)]
               == p.arenas + [a.(avail := a.base + nb)];
      }
    }
  }

  // ---- Reallocation ----------------------------------------------------------------------

  lemma GrownArenaOk(c: Config, arenas: seq<Arena>, k: nat, at: nat, size: nat, incr: nat)
    requires AnyConfig(c) && 1 <= k < |arenas| && at > 0
    requires AlignUp(size + incr, c.align) > c.arenasize
    requires GrossFits(c, size, incr) && at + ReallocGross(c, size, incr) < c.word
    requires arenas[k] == GrownArena(c, at, size, incr, arenas[k - 1].at)
    ensures ArenaOk(c, arenas, k) && Big(c, arenas[k])
    ensures arenas[k].base + size + incr <= arenas[k].limit
  {
    BigBase(c, at);
    UpFacts(size + incr, c.align);
    GrownShape(c, arenas, k, at, AlignUp(size + incr, c.align));
  }

  lemma GrownShape(c: Config, arenas: seq<Arena>, k: nat, at: nat, nb: nat)
    requires AnyConfig(c) && 1 <= k < |arenas| && at > 0 && nb > c.arenasize
    requires at + HdrSize(c, true) + nb < c.word && Aligned(nb, c.align)
    requires var a := arenas[k];
             && a.at == at && a.limit == at + HdrSize(c, true) + nb && a.avail == a.base + nb
             && a.hdr == Some(arenas[k - 1].at)
             && at + c.structSize + c.ptrSize <= a.base <= at + HdrSize(c, true)
             && a.base > at + HdrSize(c, true) - BaseAlign(c)
             && Aligned(a.base, c.align) && Aligned(a.base, c.ptrAlign)
    ensures ArenaOk(c, arenas, k) && Big(c, arenas[k])
  {
    AlignedAdd(arenas[k].base, nb, c.align);
  }

  lemma ApartReplace(c: Config, a: seq<Arena>, b: seq<Arena>, k: nat)
    requires Apart(c, a) && 1 <= k < |a| && |a| == |b|
    requires forall i :: 0 <= i < |a| && i != k ==> a[i].at == b[i].at && a[i].limit == b[i].limit
    requires ClearOfAll(c, a, b[k].at, b[k].limit, k)
    ensures Apart(c, b)
  {
    forall i, j | 0 <= i < |b| && 0 <= j < |b| && i != j
      ensures Clear(c, b, i, b[j].at, Top(c, b, j))
    {
      if i == k {
        assert Clear(c, a, j, b[k].at, b[k].limit);
      } else if j == k {
        assert Clear(c, a, i, b[k].at, b[k].limit);
      } else {
        assert Clear(c, a, i, a[j].at, Top(c, a, j));
      }
    }
  }

  /** What JS_ArenaRealloc needs: its block, which starts an arena and needs an oversized one, and
      an answer of realloc. */
  predicate ReallocReady(c: Config, p: Pool, ptr: nat, size: nat, incr: nat, k: nat, ans: Answer)
    requires c.align > 0 && c.ptrAlign > 0
  {
    && PoolOk(c, p) && Located(c, p, ptr, size, k)
    && ptr + size <= p.arenas[k].avail
    && AlignUp(size + incr, c.align) > c.arenasize && GrossFits(c, size, incr)
    && p.arenas[k].limit - p.arenas[k].at <= ReallocGross(c, size, incr)
    && (ans.at != 0 ==> |ans.fill| == ReallocGross(c, size, incr)
                                      - (p.arenas[k].limit - p.arenas[k].at))
    && Fresh(c, p, ans, ReallocGross(c, size, incr), k)
  }

  /** JS_ArenaRealloc is only reached with a block that needs an oversized arena, and never asks for
      less memory than the arena has. */
  lemma ReallocGrows(c: Config, p: Pool, ptr: nat, size: nat, incr: nat, k: nat)
    requires WideConfig(c) && PoolOk(c, p) && Located(c, p, ptr, size, k) && size > 0
    requires GrossFits(c, size, incr)
    requires var a := p.arenas[k];
             if Big(c, a) then a.avail - a.base == AlignUp(size, c.align)
             else AlignUp(size + incr, c.align) > a.limit - a.base
    ensures AlignUp(size + incr, c.align) > c.arenasize
    ensures p.arenas[k].limit - p.arenas[k].at <= ReallocGross(c, size, incr)
  {
    assert ArenaOk(c, p.arenas, k);
    UpMonotone(size, size + incr, c.align);
  }

  /** The old chunk and the block at its new place lie within what realloc answers with. */
  predicate Roomy(c: Config, p: Pool, size: nat, incr: nat, k: nat, ans: Answer)
    requires c.align > 0
  {
    && k < |p.arenas|
    && HasRoom(p.arenas[k], size, ReallocGross(c, size, incr), ans, NewBase(c, ans.at))
  }

  predicate HasRoom(a: Arena, size: nat, gross: nat, ans: Answer, base: nat) {
    a.at <= a.limit && a.limit - a.at <= gross && base + size <= ans.at + gross
  }

  lemma ReallocIsDefined(c: Config, p: Pool, ptr: nat, size: nat, incr: nat, k: nat, ans: Answer)
    requires AnyConfig(c) && ReallocReady(c, p, ptr, size, incr, k, ans)
    ensures ReallocFits(c, p, size, incr, k, ans) && Roomy(c, p, size, incr, k, ans)
  {
    assert ArenaOk(c, p.arenas, k);
    BigBase(c, ans.at);
    UpFacts(size + incr, c.align);
  }

  lemma ReplacedArenaOk(c: Config, arenas: seq<Arena>, k: nat, a: Arena, i: nat)
    requires AnyConfig(c) && 1 <= k < |arenas| && 1 <= i < |arenas|
    requires ArenaOk(c, arenas, i) && ArenaOk(c, arenas[k := a], k)
    ensures ArenaOk(c, Relinked(c, arenas, k, a.at)[k := a], i)
  {
  }

  /** An arena may be replaced by another one that is in order and overlaps nothing else. */
  lemma ReplaceKeepsOk(c: Config, p: Pool, q: Pool, k: nat, a: Arena)
    requires AnyConfig(c) && PoolOk(c, p) && 1 <= k < |p.arenas|
    requires q.arenas == Relinked(c, p.arenas, k, a.at)[k := a]
    requires q.cur == p.cur && |q.mem| == |p.mem|
    requires ArenaOk(c, p.arenas[k := a], k) && ClearOfAll(c, p.arenas, a.at, a.limit, k)
    ensures PoolOk(c, q)
    ensures Sizes(q.arenas, 1) == Sizes(p.arenas, 1) + (a.limit - a.at)
                                  - (p.arenas[k].limit - p.arenas[k].at)
  {
    forall i | 1 <= i < |q.arenas|
      ensures ArenaOk(c, q.arenas, i)
    {
      assert ArenaOk(c, p.arenas, i);
      ReplacedArenaOk(c, p.arenas, k, a, i);
    }
    ApartReplace(c, p.arenas, q.arenas, k);
    SizesAfterUpdate(p.arenas, q.arenas, k, 1);
  }

  /** A realloc that is refused changes nothing; otherwise the quota pays for the growth. */
  lemma ReallocQuota(c: Config, p: Pool, ptr: nat, size: nat, incr: nat, k: nat, ans: Answer)
    requires AnyConfig(c) && ReallocReady(c, p, ptr, size, incr, k, ans)
    ensures ReallocFits(c, p, size, incr, k, ans)
    ensures var (q, r) := Realloc(c, p, ptr, size, incr, k, ans);
            && (r == 0 ==> q == p) && q.cur == p.cur && q.quota.Some? == p.quota.Some?
            && var a := GrownArena(c, ans.at, size, incr, p.arenas[k - 1].at);
            r != 0 && q.quota.Some? ==>
              q.quota.value == p.quota.value - (a.limit - a.at)
                               + (p.arenas[k].limit - p.arenas[k].at)
  {
    ReallocIsDefined(c, p, ptr, size, incr, k, ans);
    BigBase(c, ans.at);
  }

  lemma ReallocShape(c: Config, p: Pool, ptr: nat, size: nat, incr: nat, k: nat, ans: Answer)
    requires AnyConfig(c) && ReallocReady(c, p, ptr, size, incr, k, ans)
    ensures ReallocFits(c, p, size, incr, k, ans)
    ensures var (q, r) := Realloc(c, p, ptr, size, incr, k, ans);
            if r == 0 then q == p else
              && var a := GrownArena(c, ans.at, size, incr, p.arenas[k - 1].at);
              && q.arenas == Relinked(c, p.arenas, k, a.at)[k := a]
              && q.cur == p.cur && |q.mem| == |p.mem|
              && ArenaOk(c, p.arenas[k := a], k) && ClearOfAll(c, p.arenas, a.at, a.limit, k)
              && q.quota.Some? == p.quota.Some?
              && (q.quota.Some? ==> q.quota.value == p.quota.value - (a.limit - a.at)
                                                     + (p.arenas[k].limit - p.arenas[k].at))
  {
    ReallocIsDefined(c, p, ptr, size, incr, k, ans);
    ReallocQuota(c, p, ptr, size, incr, k, ans);
    var (q, r) := Realloc(c, p, ptr, size, incr, k, ans);
    if r != 0 {
      var a := GrownArena(c, ans.at, size, incr, p.arenas[k - 1].at);
      GrownArenaOk(c, p.arenas[k := a], k, ans.at, size, incr);
    }
  }

  /** JS_ArenaRealloc keeps the pool in order, also where it moves the arena: the header of the
      arena holds the link of its predecessor, and that of its successor the arena's own link. */
  lemma ReallocKeepsOk(c: Config, p: Pool, ptr: nat, size: nat, incr: nat, k: nat, ans: Answer)
    requires AnyConfig(c) && ReallocReady(c, p, ptr, size, incr, k, ans)
    ensures ReallocFits(c, p, size, incr, k, ans)
    ensures var (q, r) := Realloc(c, p, ptr, size, incr, k, ans);
            PoolOk(c, q) && Budget(q) == Budget(p)
  {
    ReallocShape(c, p, ptr, size, incr, k, ans);
    var (q, r) := Realloc(c, p, ptr, size, incr, k, ans);
    if r != 0 {
      var a := GrownArena(c, ans.at, size, incr, p.arenas[k - 1].at);
      ReplaceKeepsOk(c, p, q, k, a);
    }
  }

  // ---- Release ---------------------------------------------------------------------------

  /** The unsigned comparison of JS_ARENA_MARK_MATCH is a range check. */
  lemma MarkMatchIsRange(c: Config, a: Arena, mark: nat)
    requires a.base <= a.avail < c.word && mark < c.word
    ensures MarkMatch(c, a, mark) <==> a.base <= mark <= a.avail
  {
  }

  lemma DataRange(c: Config, arenas: seq<Arena>, k: nat)
    requires AnyConfig(c) && ArenasOk(c, arenas) && k < |arenas|
    ensures arenas[k].at < arenas[k].base <= arenas[k].avail <= Top(c, arenas, k) < c.word
    ensures k == 0 ==> arenas[0].avail < Top(c, arenas, 0)
  {
    if k == 0 {
      UpFacts(arenas[0].at + c.structSize, c.align);
    } else {
      assert ArenaOk(c, arenas, k);
    }
  }

  /** An address between base and avail of one arena matches no other one. */
  lemma OneMatch(c: Config, arenas: seq<Arena>, i: nat, j: nat, mark: nat)
    requires AnyConfig(c) && ArenasOk(c, arenas) && i < |arenas| && j < |arenas| && i != j
    requires arenas[j].base <= mark <= arenas[j].avail
    ensures !MarkMatch(c, arenas[i], mark)
  {
    DataRange(c, arenas, i);
    DataRange(c, arenas, j);
    MarkMatchIsRange(c, arenas[i], mark);
    assert Clear(c, arenas, i, arenas[j].at, Top(c, arenas, j));
  }

  lemma {:induction false} MatchIsFound(c: Config, arenas: seq<Arena>, i: nat, j: nat, mark: nat)
    requires AnyConfig(c) && ArenasOk(c, arenas) && i <= j < |arenas|
    requires arenas[j].base <= mark <= arenas[j].avail
    ensures FirstMatch(c, arenas, i, mark) == j
    decreases j - i
  {
    if i == j {
      DataRange(c, arenas, j);
      MarkMatchIsRange(c, arenas[j], mark);
    } else {
      OneMatch(c, arenas, i, j, mark);
      MatchIsFound(c, arenas, i + 1, j, mark);
    }
  }

  /** The fast path of JS_ARENA_RELEASE does what JS_ArenaRelease does. */
  lemma FastReleaseIsSlow(c: Config, p: Pool, mark: nat)
    requires AnyConfig(c) && PoolOk(c, p) && mark < c.word && Sized(p.arenas)
    ensures Release(c, p, mark) == SlowRelease(c, p, mark)
  {
    if p.cur != 0 && MarkMatch(c, p.arenas[p.cur], mark) {
      DataRange(c, p.arenas, p.cur);
      MarkMatchIsRange(c, p.arenas[p.cur], mark);
      MatchIsFound(c, p.arenas, 0, p.cur, mark);
    }
  }

  /** `arenas` is what has become of `saved`: only the bump pointer of its last arena may have
      moved up, and arenas may have been added. */
  predicate Grown(saved: seq<Arena>, arenas: seq<Arena>) {
    && 0 < |saved| <= |arenas|
    && var n := |saved| - 1;
    && (forall i :: 0 <= i < n ==> arenas[i] == saved[i])
    && arenas[n].(avail := saved[n].avail) == saved[n]
    && saved[n].base <= saved[n].avail <= arenas[n].avail
  }

  /** Releasing to a mark brings back the arenas of the moment the mark was taken. */
  lemma ReleaseRestores(c: Config, p: Pool, saved: seq<Arena>)
    requires AnyConfig(c) && PoolOk(c, p) && ArenasOk(c, saved) && Grown(saved, p.arenas)
    requires Sized(p.arenas)
    ensures var mark := saved[|saved| - 1].avail;
            var q := Release(c, p, mark);
            && q.arenas == saved && PoolOk(c, q) && Budget(q) == Budget(p) && q.mem == p.mem
  {
    var n := |saved| - 1;
    var mark := saved[n].avail;
    DataRange(c, p.arenas, n);
    FastReleaseIsSlow(c, p, mark);
    MatchIsFound(c, p.arenas, 0, n, mark);
    SavedMarkIsAligned(c, saved);
    UpOfAligned(mark, c.align);
    var r := Retract(c, p, n, mark);
    assert r.arenas[..n + 1] == saved;
    RetractSizes(c, p, n, mark, n + 1);
    RetractSizes(c, p, n, mark, 1);
    SizesOfPrefix(saved, r.arenas, 1);
  }

  lemma SavedMarkIsAligned(c: Config, saved: seq<Arena>)
    requires AnyConfig(c) && ArenasOk(c, saved)
    ensures Aligned(saved[|saved| - 1].avail, c.align)
  {
    var n := |saved| - 1;
    if n == 0 {
      UpFacts(saved[0].at + c.structSize, c.align);
    } else {
      assert ArenaOk(c, saved, n);
    }
  }

  lemma FreePoolKeepsOk(c: Config, p: Pool)
    requires AnyConfig(c) && PoolOk(c, p) && Sized(p.arenas)
    ensures var q := FreePool(p);
            && PoolOk(c, q) && Budget(q) == Budget(p) && q.mem == p.mem
            && q.arenas == p.arenas[..1]
  {
    SizesOfPrefix(p.arenas[..1], p.arenas, 1);
  }
}
