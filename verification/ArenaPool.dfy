/** The arena pool of ext/spidermonkey/jsarena.c and jsarena.h: a list of malloc'd arenas, each
    with a bump pointer, behind a first arena of size zero that is part of the pool object.
    Addresses are numbers below `word`; the answers of malloc and realloc are inputs. */
module ArenaPool {
  import opened Common
  import opened ArenaMath

  type Byte = i: int | 0 <= i < 256

  /** The constants of a pool and of the machine: mask + 1, the alignment and size of a pointer,
      sizeof(JSArena), sizeof(JSArenaPool), arenasize, and 2 to the width of jsuword. */
  datatype Config = Config(align: nat, ptrAlign: nat, ptrSize: nat, structSize: nat,
                           poolSize: nat, arenasize: nat, word: nat)

  /** What every pool satisfies.  The pool object is large enough to hold the (empty) data range of
      its first arena, and an arena of the usual size does not overflow an address. */
  ghost predicate ConfigOk(c: Config) {
    && IsPow2(c.align) && IsPow2(c.ptrAlign)
    && c.ptrSize > 0 && Aligned(c.ptrSize, c.ptrAlign)
    && c.structSize > 0 && c.structSize + c.align <= c.poolSize
    && HdrSize(c, true) + c.arenasize < c.word
  }

  /** A JSArena.  `hdr` is the pointer stored just below `base`, if one was stored. */
  datatype Arena = Arena(at: nat, base: nat, limit: nat, avail: nat, hdr: Option<nat>)

  /** The arenas in list order, the index of pool->current, *quotap, and the bytes of memory. */
  datatype Pool = Pool(arenas: seq<Arena>, cur: nat, quota: Option<nat>, mem: seq<Byte>)

  /** What malloc or realloc answers: an address, or 0, and the bytes found in the new memory. */
  datatype Answer = Answer(at: nat, fill: seq<Byte>)

  // ---- Sizes -----------------------------------------------------------------------------

  /** HEADER_SIZE */
  function Extra(c: Config): nat {
    c.ptrSize + if c.align < c.ptrAlign then c.ptrAlign - c.align else 0
  }

  /** hdrsz, with or without room for a header. */
  function HdrSize(c: Config, big: bool): int {
    c.structSize + (if big then Extra(c) else 0) + c.align - 1
  }

  /** HEADER_BASE_MASK + 1 */
  function BaseAlign(c: Config): nat { Max(c.align, c.ptrAlign) }

  /** The sum of two words, modulo the word size. */
  function AddWord(x: int, y: int, word: nat): (r: int)
    ensures x >= 0 && y >= 0 ==> r >= 0
  {
    if x + y < word then x + y else x + y - word
  }

  /** The difference of two words, modulo the word size. */
  function SubWord(x: int, y: int, word: nat): int { if x >= y then x - y else x - y + word }

  /** gross as JS_ArenaAllocate computes it, modulo the word size. */
  function Gross(c: Config, nb: nat): int
    requires c.word > 0
  {
    AddWord(HdrSize(c, nb > c.arenasize), Max(nb, c.arenasize), c.word)
  }

  /** The base of an oversized arena at `at`. */
  function NewBase(c: Config, at: nat): nat
    requires c.align > 0
  {
    AlignDown(at + HdrSize(c, true), BaseAlign(c))
  }

  /** The arena JS_ArenaAllocate makes out of a fresh chunk at `at`. */
  function NewArena(c: Config, at: nat, nb: nat, pred: nat): Arena
    requires c.align > 0 && c.word > 0 && Gross(c, nb) >= 0
  {
    var big := nb > c.arenasize;
    var base := if big then NewBase(c, at)
                else AlignUp(at + c.structSize, c.align);
    Arena(at, base, at + Gross(c, nb), base, if big then Some(pred) else None)
  }

  function Fits(a: Arena, nb: nat): bool { nb <= a.limit && a.avail <= a.limit - nb }

  lemma GrossOverflow(c: Config, nb: nat)
    requires ConfigOk(c) && nb < c.word && Aligned(nb, c.align)
    requires HdrSize(c, true) < c.word
    ensures Gross(c, nb) < nb <==> HdrSize(c, nb > c.arenasize) + Max(nb, c.arenasize) >= c.word
    ensures Gross(c, nb) >= nb ==>
              Gross(c, nb) == HdrSize(c, nb > c.arenasize) + Max(nb, c.arenasize)
  {
  }

  /** For every power-of-two alignment, below or above that of a pointer: a fresh arena has room
      for the request, so the loop of JS_ArenaAllocate ends after one malloc, and the header of an
      oversized one lies between the JSArena and the base, where a pointer may be stored. */
  lemma FreshArenaFits(c: Config, at: nat, nb: nat, pred: nat)
    requires ConfigOk(c) && nb < c.word && Aligned(nb, c.align)
    requires Gross(c, nb) >= nb
    ensures var a := NewArena(c, at, nb, pred);
            && Fits(a, nb)
            && Aligned(a.base, c.align)
            && a.limit - a.at == HdrSize(c, nb > c.arenasize) + Max(nb, c.arenasize)
            && (nb <= c.arenasize ==> a.at + c.structSize <= a.base
                                      && c.arenasize <= a.limit - a.base < c.arenasize + c.align)
            && (nb > c.arenasize ==> a.at + c.structSize + c.ptrSize <= a.base
                                     && Aligned(a.base - c.ptrSize, c.ptrAlign)
                                     && Aligned(a.base, BaseAlign(c))
                                     && a.limit - a.base < nb + BaseAlign(c))
  {
    GrossOverflow(c, nb);
    if nb <= c.arenasize {
      UpFacts(at + c.structSize, c.align);
    } else {
      BigBase(c, at);
    }
  }

  /** Where the base of an oversized arena ends up. */
  lemma BigBase(c: Config, at: nat)
    requires ConfigOk(c)
    ensures var base := NewBase(c, at);
            && at + c.structSize + c.ptrSize <= base <= at + HdrSize(c, true)
            && base > at + HdrSize(c, true) - BaseAlign(c)
            && Aligned(base, BaseAlign(c)) && Aligned(base, c.align) && Aligned(base, c.ptrAlign)
            && Aligned(base - c.ptrSize, c.ptrAlign)
  {
    var base := NewBase(c, at);
    DownFacts(at + HdrSize(c, true), BaseAlign(c));
    if c.align <= c.ptrAlign {
      Pow2Divides(c.align, c.ptrAlign);
      AlignedTrans(base, c.ptrAlign, c.align);
    } else {
      Pow2Divides(c.ptrAlign, c.align);
      AlignedTrans(base, c.align, c.ptrAlign);
    }
    AlignedSub(base, c.ptrSize, c.ptrAlign);
  }

  // ---- Operations ------------------------------------------------------------------------

  function Store(mem: seq<Byte>, at: nat, data: seq<Byte>): (r: seq<Byte>)
    requires at + |data| <= |mem|
    ensures |r| == |mem|
  {
    mem[..at] + data + mem[at + |data|..]
  }

  /** JS_INIT_NAMED_ARENA_POOL for a pool object at `at`. */
  function Init(c: Config, at: nat, quota: Option<nat>, mem: seq<Byte>): Pool
    requires c.align > 0
  {
    var b := AlignUp(at + c.structSize, c.align);
    Pool([Arena(at, b, b, b, None)], 0, quota, mem)
  }

  /** The first arena from `i` on that has room for `nb` bytes, or the number of arenas. */
  function FirstFit(arenas: seq<Arena>, i: nat, nb: nat): (j: nat)
    requires i <= |arenas|
    ensures i <= j <= |arenas|
    ensures j < |arenas| ==> Fits(arenas[j], nb)
    decreases |arenas| - i
  {
    if i == |arenas| || Fits(arenas[i], nb) then i else FirstFit(arenas, i + 1, nb)
  }

  function Bump(p: Pool, j: nat, nb: nat): Pool
    requires j < |p.arenas|
  {
    p.(arenas := p.arenas[j := p.arenas[j].(avail := p.arenas[j].avail + nb)], cur := j)
  }

  /** Whether JS_ArenaAllocate gets as far as using what malloc returned. */
  predicate Granted(c: Config, p: Pool, nb: nat, ans: Answer)
    requires c.word > 0
  {
    && Gross(c, nb) >= nb
    && (p.quota.Some? ==> Gross(c, nb) <= p.quota.value)
    && ans.at != 0
  }

  /** The memory an answer brings along fits into the address space. */
  predicate AnswerFits(p: Pool, ans: Answer, n: int) {
    ans.at != 0 ==> |ans.fill| == n && ans.at + n <= |p.mem|
  }

  /** JS_ArenaAllocate; the second result is 0 for NULL. */
  function Allocate(c: Config, p: Pool, nb: nat, ans: Answer): (Pool, nat)
    requires c.word > 0 && c.align > 0
    requires p.cur < |p.arenas|
    requires AnswerFits(p, ans, Gross(c, nb))
  {
    var j := FirstFit(p.arenas, p.cur, nb);
    if j < |p.arenas| then (Bump(p, j, nb), p.arenas[j].avail)
    else if !Granted(c, p, nb, ans) then (p.(cur := |p.arenas| - 1), 0)
    else
      var a := NewArena(c, ans.at, nb, p.arenas[|p.arenas| - 1].at);
      var q := Pool(p.arenas + [a], |p.arenas|,
                    if p.quota.Some? then Some(p.quota.value - Gross(c, nb)) else None,
                    Store(p.mem, ans.at, ans.fill));
      (Bump(q, |p.arenas|, nb), a.avail)
  }

  /** JS_ARENA_ALLOCATE */
  function Alloc(c: Config, p: Pool, nb: nat, ans: Answer): (Pool, nat)
    requires c.word > 0 && c.align > 0
    requires p.cur < |p.arenas|
    requires AnswerFits(p, ans, Gross(c, AlignUp(nb, c.align)))
  {
    Allocate(c, p, AlignUp(nb, c.align), ans)
  }

  /** Where the current arena has room, JS_ARENA_ALLOCATE takes it from there. */
  lemma FitsInCurrent(c: Config, p: Pool, nb: nat, ans: Answer)
    requires c.word > 0 && c.align > 0 && p.cur < |p.arenas|
    requires AnswerFits(p, ans, Gross(c, AlignUp(nb, c.align)))
    requires Fits(p.arenas[p.cur], AlignUp(nb, c.align))
    ensures Alloc(c, p, nb, ans)
            == (Bump(p, p.cur, AlignUp(nb, c.align)), p.arenas[p.cur].avail)
  {
  }

  /** gross as JS_ArenaRealloc computes it, modulo the word size. */
  function ReallocGross(c: Config, size: nat, incr: nat): (r: int)
    requires c.align > 0
    ensures r >= 0
  {
    AddWord(HdrSize(c, true), AlignUp(size + incr, c.align), c.word)
  }

  /** Whether a grown arena, with its header, fits into a word. */
  predicate GrossFits(c: Config, size: nat, incr: nat)
    requires c.align > 0
  {
    HdrSize(c, true) + AlignUp(size + incr, c.align) < c.word
  }

  /** What the assertion `gross > aoff` of JS_ArenaRealloc checks. */
  lemma ReallocOverflow(c: Config, size: nat, incr: nat)
    requires ConfigOk(c) && AlignUp(size + incr, c.align) < c.word
    ensures ReallocGross(c, size, incr) > AlignUp(size + incr, c.align)
            <==> GrossFits(c, size, incr)
  {
  }

  /** The arena JS_ArenaRealloc leaves at `at`, whose predecessor is at `pred`. */
  function GrownArena(c: Config, at: nat, size: nat, incr: nat, pred: nat): Arena
    requires c.align > 0
  {
    var base := NewBase(c, at);
    Arena(at, base, at + ReallocGross(c, size, incr),
          AddWord(base, AlignUp(size + incr, c.align), c.word), Some(pred))
  }

  /** JS_ArenaRealloc has found the arena of the block: the k-th one. */
  predicate Located(c: Config, p: Pool, ptr: nat, size: nat, k: nat) {
    && 1 <= k < |p.arenas| && p.arenas[k].base == ptr
    && (if size > c.arenasize then p.arenas[k].hdr == Some(p.arenas[k - 1].at)
        else k == p.cur)
  }

  /** How much of a chunk of `held` bytes realloc keeps. */
  function Kept(held: int, gross: nat): nat
    requires held >= 0
  {
    if gross < held then gross else held
  }

  /** The memory of an arena, that which realloc answers with, and the ranges of memmove are within
      the address space. */
  predicate MoveFits(a: Arena, size: nat, gross: nat, ans: Answer, base: nat, word: nat) {
    && a.at <= a.base && a.base + size <= a.limit <= word
    && (ans.at != 0 ==>
          && |ans.fill| == gross - Kept(a.limit - a.at, gross) && ans.at + gross <= word
          && ans.at + (a.base - a.at) + size <= word
          && ans.at <= base && base + size <= word)
  }

  predicate ReallocFits(c: Config, p: Pool, size: nat, incr: nat, k: nat, ans: Answer)
    requires c.align > 0
  {
    k < |p.arenas| && MoveFits(p.arenas[k], size, ReallocGross(c, size, incr), ans,
                               NewBase(c, ans.at), |p.mem|)
  }

  /** Memory after realloc has taken the first `keep` bytes from `at` to `to`, followed by `fill`,
      and memmove has shifted the `size` bytes at offset `boff` to offset `nboff`. */
  function Moved(mem: seq<Byte>, at: nat, keep: nat, fill: seq<Byte>, to: nat,
                 boff: nat, nboff: nat, size: nat): (r: seq<Byte>)
    requires at + keep <= |mem| && to + keep + |fill| <= |mem|
    requires to + boff + size <= |mem| && to + nboff + size <= |mem|
    ensures |r| == |mem|
  {
    var mem1 := Store(mem, to, mem[at..at + keep] + fill);
    if boff != nboff then Store(mem1, to + nboff, mem1[to + boff..to + boff + size]) else mem1
  }

  function MovedArena(mem: seq<Byte>, a: Arena, size: nat, gross: nat, ans: Answer, base: nat)
    : (r: seq<Byte>)
    requires ans.at != 0 && MoveFits(a, size, gross, ans, base, |mem|)
    ensures |r| == |mem|
  {
    Moved(mem, a.at, Kept(a.limit - a.at, gross), ans.fill, ans.at, a.base - a.at, base - ans.at,
          size)
  }

  function ReallocMem(c: Config, p: Pool, size: nat, incr: nat, k: nat, ans: Answer)
    : (mem: seq<Byte>)
    requires c.align > 0 && ans.at != 0 && ReallocFits(c, p, size, incr, k, ans)
    ensures |mem| == |p.mem|
  {
    MovedArena(p.mem, p.arenas[k], size, ReallocGross(c, size, incr), ans, NewBase(c, ans.at))
  }

  /** The successor's header, if it has one, follows an arena that has moved. */
  function Relinked(c: Config, arenas: seq<Arena>, k: nat, at: nat): (r: seq<Arena>)
    requires k < |arenas|
    ensures |r| == |arenas|
  {
    if at != arenas[k].at && k + 1 < |arenas|
       && arenas[k + 1].avail - arenas[k + 1].base > c.arenasize
    then arenas[k + 1 := arenas[k + 1].(hdr := Some(at))]
    else arenas
  }

  /** JS_ArenaRealloc */
  function Realloc(c: Config, p: Pool, ptr: nat, size: nat, incr: nat, k: nat, ans: Answer)
    : (Pool, nat)
    requires c.align > 0 && Located(c, p, ptr, size, k)
    requires ReallocFits(c, p, size, incr, k, ans)
  {
    var a := p.arenas[k];
    var growth := SubWord(ReallocGross(c, size, incr), a.limit - a.at, c.word);
    if (p.quota.Some? && growth > p.quota.value) || ans.at == 0 then (p, 0)
    else
      var b := GrownArena(c, ans.at, size, incr, p.arenas[k - 1].at);
      (Pool(Relinked(c, p.arenas, k, ans.at)[k := b], p.cur,
            if p.quota.Some? then Some(p.quota.value - growth) else None,
            ReallocMem(c, p, size, incr, k, ans)), b.base)
  }

  /** The ways JS_ARENA_GROW can go. */
  datatype Path = InPlace | ByRealloc | ByCopy

  function GrowPath(c: Config, p: Pool, ptr: nat, size: nat, incr: nat): Path
    requires c.align > 0 && p.cur < |p.arenas|
  {
    var last := p.arenas[p.cur];
    var nb := AlignUp(size + incr, c.align);
    if last.avail == ptr + AlignUp(size, c.align) then
      if last.limit >= nb && ptr <= last.limit - nb then InPlace
      else if ptr == last.base then ByRealloc
      else if size > c.arenasize then ByRealloc else ByCopy
    else if size > c.arenasize then ByRealloc else ByCopy
  }

  /** What JS_ARENA_GROW needs of a block in the k-th arena and of the allocator's answer. */
  predicate CanGrow(c: Config, p: Pool, ptr: nat, size: nat, incr: nat, k: nat, ans: Answer)
    requires c.word > 0 && c.align > 0
  {
    && p.cur < |p.arenas|
    && match GrowPath(c, p, ptr, size, incr)
       case InPlace => true
       case ByRealloc =>
         Located(c, p, ptr, size, k) && ReallocFits(c, p, size, incr, k, ans)
       case ByCopy =>
         && AnswerFits(p, ans, Gross(c, AlignUp(size + incr, c.align)))
         && ptr + size <= |p.mem|
         && var (q, newp) := Alloc(c, p, size + incr, ans); newp + size <= |p.mem|
  }

  /** JS_ARENA_GROW */
  function Grow(c: Config, p: Pool, ptr: nat, size: nat, incr: nat, k: nat, ans: Answer)
    : (Pool, nat)
    requires c.word > 0 && c.align > 0 && CanGrow(c, p, ptr, size, incr, k, ans)
  {
    match GrowPath(c, p, ptr, size, incr)
    case InPlace =>
      var avail := ptr + AlignUp(size + incr, c.align);
      (p.(arenas := p.arenas[p.cur := p.arenas[p.cur].(avail := avail)]), ptr)
    case ByRealloc => Realloc(c, p, ptr, size, incr, k, ans)
    case ByCopy =>
      var (q, newp) := Alloc(c, p, size + incr, ans);
      if newp == 0 then (q, 0)
      else (q.(mem := Store(q.mem, newp, q.mem[ptr..ptr + size])), newp)
  }

  /** JS_ARENA_MARK */
  function MarkOf(p: Pool): nat
    requires p.cur < |p.arenas|
  {
    p.arenas[p.cur].avail
  }

  /** JS_ARENA_MARK_MATCH, with the differences taken modulo the word size. */
  predicate MarkMatch(c: Config, a: Arena, mark: nat)
    requires c.word > 0
  {
    SubWord(mark, a.base, c.word) <= SubWord(a.avail, a.base, c.word)
  }

  function Sizes(arenas: seq<Arena>, from: nat): int
    requires from <= |arenas|
    decreases |arenas| - from
  {
    if from == |arenas| then 0
    else arenas[from].limit - arenas[from].at + Sizes(arenas, from + 1)
  }

  /** FreeArenaList for the h-th arena. */
  function FreeTail(p: Pool, h: nat): Pool
    requires h < |p.arenas|
    requires p.quota.Some? ==> p.quota.value + Sizes(p.arenas, h + 1) >= 0
  {
    if h + 1 == |p.arenas| then p
    else p.(arenas := p.arenas[..h + 1], cur := h,
            quota := if p.quota.Some? then Some(p.quota.value + Sizes(p.arenas, h + 1)) else None)
  }

  function FirstMatch(c: Config, arenas: seq<Arena>, i: nat, mark: nat): (j: nat)
    requires c.word > 0 && i <= |arenas|
    ensures i <= j <= |arenas|
    ensures j < |arenas| ==> MarkMatch(c, arenas[j], mark)
    ensures forall k :: i <= k < j ==> !MarkMatch(c, arenas[k], mark)
    decreases |arenas| - i
  {
    if i == |arenas| || MarkMatch(c, arenas[i], mark) then i
    else FirstMatch(c, arenas, i + 1, mark)
  }

  function Retract(c: Config, p: Pool, j: nat, mark: nat): Pool
    requires c.align > 0 && j < |p.arenas|
  {
    p.(arenas := p.arenas[j := p.arenas[j].(avail := AlignUp(mark, c.align))])
  }

  lemma RetractSizes(c: Config, p: Pool, j: nat, mark: nat, from: nat)
    requires c.align > 0 && j < |p.arenas| && from <= |p.arenas|
    ensures Sizes(Retract(c, p, j, mark).arenas, from) == Sizes(p.arenas, from)
    decreases |p.arenas| - from
  {
    if from < |p.arenas| { RetractSizes(c, p, j, mark, from + 1); }
  }

  predicate Sized(arenas: seq<Arena>) {
    forall k :: 0 <= k < |arenas| ==> arenas[k].at <= arenas[k].limit
  }

  lemma SizesNotNegative(arenas: seq<Arena>, from: nat)
    requires Sized(arenas) && from <= |arenas|
    ensures Sizes(arenas, from) >= 0
    decreases |arenas| - from
  {
    if from < |arenas| { SizesNotNegative(arenas, from + 1); }
  }

  /** JS_ArenaRelease */
  function SlowRelease(c: Config, p: Pool, mark: nat): Pool
    requires c.word > 0 && c.align > 0 && Sized(p.arenas)
  {
    var j := FirstMatch(c, p.arenas, 0, mark);
    if j == |p.arenas| then p
    else
      RetractSizes(c, p, j, mark, j + 1); SizesNotNegative(p.arenas, j + 1);
      FreeTail(Retract(c, p, j, mark), j)
  }

  /** JS_ARENA_RELEASE */
  function Release(c: Config, p: Pool, mark: nat): Pool
    requires c.word > 0 && c.align > 0 && Sized(p.arenas) && p.cur < |p.arenas|
  {
    if p.cur != 0 && MarkMatch(c, p.arenas[p.cur], mark) then Retract(c, p, p.cur, mark)
    else SlowRelease(c, p, mark)
  }

  /** JS_FreeArenaPool */
  function FreePool(p: Pool): Pool
    requires 0 < |p.arenas| && Sized(p.arenas)
  {
    SizesNotNegative(p.arenas, 1);
    FreeTail(p, 0)
  }
}
