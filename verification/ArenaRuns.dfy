/** Runs of a client on an arena pool: allocate, grow, write, mark, release to a mark, free all.
    Blocks older than a mark are not grown before that mark is released, and a growth by realloc
    fits into a word together with its header. */
module ArenaRuns {
  import opened Common
  import opened ArenaMath
  import opened ArenaPool
  import opened ArenaInvariant

  /** A live block: where it is, the arena that holds it, and the bytes it must contain. */
  datatype Block = Block(ptr: nat, size: nat, home: nat, data: seq<Byte>)

  /** A mark, with the arenas and the number of blocks of the moment it was taken. */
  datatype Mark = Mark(saved: seq<Arena>, quota: Option<nat>, nblocks: nat)

  datatype Client = Client(pool: Pool, blocks: seq<Block>, marks: seq<Mark>)

  datatype Op =
    | Allocate(nb: nat, ans: Answer)
    | Grow(i: nat, incr: nat, ans: Answer)
    | Write(i: nat, data: seq<Byte>)
    | TakeMark
    | ReleaseTo(level: nat)
    | FreeAll

  function Extent(c: Config, b: Block): nat
    requires c.align > 0
  {
    AlignUp(b.size, c.align)
  }

  predicate BlockOk(c: Config, p: Pool, b: Block)
    requires c.align > 0 && c.ptrAlign > 0
  {
    && b.size > 0 && |b.data| == b.size && 1 <= b.home < |p.arenas|
    && var a := p.arenas[b.home];
    && a.base <= b.ptr && b.ptr + Extent(c, b) <= a.avail && Aligned(b.ptr, c.align)
    && (Big(c, a) ==> b.ptr == a.base && Extent(c, b) == a.avail - a.base)
    && b.ptr + b.size <= |p.mem| && p.mem[b.ptr..b.ptr + b.size] == b.data
  }

  predicate Separate(c: Config, x: Block, y: Block)
    requires c.align > 0
  {
    x.ptr + Extent(c, x) <= y.ptr || y.ptr + Extent(c, y) <= x.ptr
  }

  /** Older than the mark, and so below it. */
  predicate Below(c: Config, m: Mark, b: Block)
    requires c.align > 0
  {
    m.saved != []
    && var n := |m.saved| - 1;
    b.home < n || (b.home == n && b.ptr + Extent(c, b) <= m.saved[n].avail)
  }

  predicate Above(m: Mark, b: Block) {
    m.saved != []
    && var n := |m.saved| - 1;
    b.home > n || (b.home == n && b.ptr >= m.saved[n].avail)
  }

  predicate MarkOk(c: Config, s: Client, m: Mark)
    requires c.align > 0 && c.ptrAlign > 0 && |s.pool.arenas| > 0
  {
    && ArenasOk(c, m.saved) && Grown(m.saved, s.pool.arenas)
    && m.nblocks <= |s.blocks|
    && Budget(Pool(m.saved, 0, m.quota, [])) == Budget(s.pool)
    && (forall i :: 0 <= i < m.nblocks ==> Below(c, m, s.blocks[i]))
    && (forall i :: m.nblocks <= i < |s.blocks| ==> Above(m, s.blocks[i]))
  }

  predicate Nested(m: Mark, n: Mark) {
    m.nblocks <= n.nblocks && Grown(m.saved, n.saved)
  }

  predicate BlocksOk(c: Config, s: Client)
    requires c.align > 0 && c.ptrAlign > 0
  {
    && (forall i :: 0 <= i < |s.blocks| ==> BlockOk(c, s.pool, s.blocks[i]))
    && (forall i, j :: 0 <= i < j < |s.blocks| ==> Separate(c, s.blocks[i], s.blocks[j]))
  }

  predicate MarksOk(c: Config, s: Client)
    requires c.align > 0 && c.ptrAlign > 0 && |s.pool.arenas| > 0
  {
    && (forall l :: 0 <= l < |s.marks| ==> MarkOk(c, s, s.marks[l]))
    && (forall l, m :: 0 <= l < m < |s.marks| ==> Nested(s.marks[l], s.marks[m]))
  }

  predicate Inv(c: Config, s: Client)
    requires c.align > 0 && c.ptrAlign > 0
  {
    PoolOk(c, s.pool) && BlocksOk(c, s) && MarksOk(c, s)
  }

  /** A step the client may take, and an answer malloc or realloc may give. */
  predicate Legal(c: Config, s: Client, op: Op)
    requires c.word > 0 && c.align > 0 && c.ptrAlign > 0 && |s.pool.arenas| > 0
  {
    match op
    case Allocate(nb, ans) =>
      && AlignUp(nb, c.align) < c.word
      && AnswerFits(s.pool, ans, Gross(c, AlignUp(nb, c.align)))
      && Fresh(c, s.pool, ans, Gross(c, AlignUp(nb, c.align)), -1)
    case Grow(i, incr, ans) =>
      && i < |s.blocks| && s.pool.cur < |s.pool.arenas|
      && s.blocks[i].home < |s.pool.arenas|
      && (forall l :: 0 <= l < |s.marks| ==> s.marks[l].nblocks <= i)
      && var b := s.blocks[i];
      && AlignUp(b.size + incr, c.align) < c.word
      && (match GrowPath(c, s.pool, b.ptr, b.size, incr)
          case InPlace => true
          case ByRealloc =>
            var a := s.pool.arenas[b.home];
            && GrossFits(c, b.size, incr)
            && (ans.at != 0 ==> |ans.fill| == ReallocGross(c, b.size, incr) - (a.limit - a.at))
            && Fresh(c, s.pool, ans, ReallocGross(c, b.size, incr), b.home)
          case ByCopy =>
            && AnswerFits(s.pool, ans, Gross(c, AlignUp(b.size + incr, c.align)))
            && Fresh(c, s.pool, ans, Gross(c, AlignUp(b.size + incr, c.align)), -1))
    case Write(i, data) => i < |s.blocks| && |data| == s.blocks[i].size
    case TakeMark => true
    case ReleaseTo(level) => level < |s.marks|
    case FreeAll => true
  }

  // ---- Memory ----------------------------------------------------------------------------

  lemma StoreElsewhere(mem: seq<Byte>, at: nat, data: seq<Byte>, lo: nat, hi: nat)
    requires at + |data| <= |mem| && lo <= hi <= |mem|
    requires hi <= at || at + |data| <= lo
    ensures Store(mem, at, data)[lo..hi] == mem[lo..hi]
  {
  }

  lemma StoreHere(mem: seq<Byte>, at: nat, data: seq<Byte>)
    requires at + |data| <= |mem|
    ensures Store(mem, at, data)[at..at + |data|] == data
  {
  }

  lemma MovedKeepsBytes(mem: seq<Byte>, at: nat, keep: nat, fill: seq<Byte>, to: nat,
                        boff: nat, nboff: nat, size: nat)
    requires at + keep <= |mem| && boff + size <= keep
    requires nboff + size <= keep + |fill| && to + keep + |fill| <= |mem|
    ensures Moved(mem, at, keep, fill, to, boff, nboff, size)[to + nboff..to + nboff + size]
            == mem[at + boff..at + boff + size]
  {
    var mem1 := Store(mem, to, mem[at..at + keep] + fill);
    ChunkKeeps(mem, at, keep, fill, to, boff, size);
    ShiftKeeps(mem1, to + boff, to + nboff, size);
  }

  lemma ChunkKeeps(mem: seq<Byte>, at: nat, keep: nat, fill: seq<Byte>, to: nat, boff: nat,
                   size: nat)
    requires at + keep <= |mem| && boff + size <= keep && to + keep + |fill| <= |mem|
    ensures Store(mem, to, mem[at..at + keep] + fill)[to + boff..to + boff + size]
            == mem[at + boff..at + boff + size]
  {
    var bytes := mem[at..at + keep] + fill;
    StoreHere(mem, to, bytes);
    SliceOfSlice(Store(mem, to, bytes), to, to + |bytes|, boff, size);
    SliceOfSlice(mem, at, at + keep, boff, size);
    SliceOfSum(mem[at..at + keep], fill, boff, size);
  }

  lemma SliceOfSum<T>(a: seq<T>, b: seq<T>, k: nat, n: nat)
    requires k + n <= |a|
    ensures (a + b)[k..k + n] == a[k..k + n]
  {
  }

  lemma ShiftKeeps(mem: seq<Byte>, src: nat, dst: nat, size: nat)
    requires src + size <= |mem| && dst + size <= |mem|
    ensures Store(mem, dst, mem[src..src + size])[dst..dst + size] == mem[src..src + size]
  {
    StoreHere(mem, dst, mem[src..src + size]);
  }

  lemma MovedElsewhere(mem: seq<Byte>, at: nat, keep: nat, fill: seq<Byte>, to: nat,
                       boff: nat, nboff: nat, size: nat, lo: nat, hi: nat)
    requires at + keep <= |mem| && boff + size <= keep
    requires nboff + size <= keep + |fill| && to + keep + |fill| <= |mem|
    requires lo <= hi <= |mem| && (hi <= to || to + keep + |fill| <= lo)
    ensures Moved(mem, at, keep, fill, to, boff, nboff, size)[lo..hi] == mem[lo..hi]
  {
    var mem1 := Store(mem, to, mem[at..at + keep] + fill);
    StoreElsewhere(mem, to, mem[at..at + keep] + fill, lo, hi);
    if boff != nboff {
      StoreElsewhere(mem1, to + nboff, mem1[to + boff..to + boff + size], lo, hi);
    }
  }

  // ---- Allocation ------------------------------------------------------------------------

  lemma GrownTransitive(a: seq<Arena>, b: seq<Arena>, d: seq<Arena>)
    requires Grown(a, b) && Grown(b, d)
    ensures Grown(a, d)
  {
    var n := |a| - 1;
    forall i | 0 <= i < n
      ensures d[i] == a[i]
    {
      assert b[i] == a[i];
    }
    if n == |b| - 1 {
      assert d[n].(avail := b[n].avail) == b[n];
    } else {
      assert d[n] == b[n];
    }
  }

  /** Bytes inside a chunk of `p` are the same in `q`. */
  predicate SameBytes(p: Pool, q: Pool, lo: nat, hi: nat) {
    lo <= hi <= |p.mem| && |q.mem| == |p.mem| && q.mem[lo..hi] == p.mem[lo..hi]
  }

  /** What a successful allocation of `nb` bytes gives the client. */
  predicate Handed(c: Config, p: Pool, q: Pool, ptr: nat, nb: nat)
    requires c.align > 0 && c.ptrAlign > 0
  {
    && PoolOk(c, p) && PoolOk(c, q) && Budget(q) == Budget(p) && Grown(p.arenas, q.arenas)
    && 1 <= q.cur && p.cur <= q.cur <= p.cur + 1
    && Aligned(ptr, c.align) && ptr + nb <= |q.mem|
    && var a := q.arenas[q.cur];
    && a.base <= ptr && ptr + AlignUp(nb, c.align) == a.avail
    && (q.cur == p.cur ==> ptr == p.arenas[p.cur].avail && !Big(c, p.arenas[p.cur]))
    && (q.cur > p.cur ==> q.arenas[p.cur] == p.arenas[p.cur])
    && (Big(c, a) ==> ptr == a.base)
  }

  lemma BumpHands(c: Config, p: Pool, nb: nat)
    requires WideConfig(c) && PoolOk(c, p) && nb > 0
    requires Fits(p.arenas[p.cur], AlignUp(nb, c.align))
    ensures Handed(c, p, Bump(p, p.cur, AlignUp(nb, c.align)), p.arenas[p.cur].avail, nb)
  {
    UpFacts(nb, c.align);
    BumpKeepsOk(c, p, AlignUp(nb, c.align));
    WideBumpIsSmall(c, p, AlignUp(nb, c.align));
    assert ArenaOk(c, p.arenas, p.cur);
  }

  lemma ExtendHands(c: Config, p: Pool, nb: nat, m: nat, ans: Answer)
    requires WideConfig(c) && PoolOk(c, p) && nb > 0 && m == AlignUp(nb, c.align) && m < c.word
    requires Granted(c, p, m, ans) && AnswerFits(p, ans, Gross(c, m))
    requires Fresh(c, p, ans, Gross(c, m), -1)
    ensures var q := Extended(c, p, m, ans);
            Handed(c, p, q, q.arenas[q.cur].base, nb)
  {
    UpFacts(nb, c.align);
    ExtendedIsOk(c, p, m, ans);
    var q := Extended(c, p, m, ans);
    NewArenaHands(c, p, q, q.arenas[q.cur], nb);
  }

  lemma NewArenaHands(c: Config, p: Pool, q: Pool, a: Arena, nb: nat)
    requires WideConfig(c) && PoolOk(c, p) && PoolOk(c, q) && Budget(q) == Budget(p) && nb > 0
    requires q.arenas == p.arenas + [a] && a.avail == a.base + AlignUp(nb, c.align)
    ensures Handed(c, p, q, a.base, nb)
  {
    GrownAppend(c, p.arenas, a);
    UpFacts(nb, c.align);
    LastInOrder(c, q);
  }

  lemma GrownAppend(c: Config, arenas: seq<Arena>, a: Arena)
    requires WideConfig(c) && ArenasOk(c, arenas)
    ensures Grown(arenas, arenas + [a])
  {
    DataRange(c, arenas, |arenas| - 1);
  }

  lemma LastInOrder(c: Config, p: Pool)
    requires WideConfig(c) && PoolOk(c, p) && p.cur >= 1
    ensures var a := p.arenas[p.cur];
            && Aligned(a.base, c.align) && a.base < a.avail && a.avail <= a.limit <= |p.mem|
  {
    assert ArenaOk(c, p.arenas, p.cur);
  }

  lemma AllocHands(c: Config, p: Pool, nb: nat, ans: Answer)
    requires WideConfig(c) && PoolOk(c, p) && nb > 0 && AlignUp(nb, c.align) < c.word
    requires AnswerFits(p, ans, Gross(c, AlignUp(nb, c.align)))
    requires Fresh(c, p, ans, Gross(c, AlignUp(nb, c.align)), -1)
    ensures var (q, ptr) := Alloc(c, p, nb, ans);
            && (ptr == 0 ==> q == p)
            && (ptr != 0 ==> Handed(c, p, q, ptr, nb))
  {
    var m := AlignUp(nb, c.align);
    UpFacts(nb, c.align);
    AllocateCases(c, p, m, ans);
    if Fits(p.arenas[p.cur], m) {
      BumpHands(c, p, nb);
      DataRange(c, p.arenas, p.cur);
    } else if Granted(c, p, m, ans) {
      ExtendHands(c, p, nb, m, ans);
      DataRange(c, Extended(c, p, m, ans).arenas, p.cur + 1);
    }
  }

  lemma ExtendElsewhere(c: Config, p: Pool, m: nat, ans: Answer, k: nat, lo: nat, hi: nat)
    requires WideConfig(c) && PoolOk(c, p) && Granted(c, p, m, ans)
    requires AnswerFits(p, ans, Gross(c, m)) && Fresh(c, p, ans, Gross(c, m), -1)
    requires k < |p.arenas| && p.arenas[k].at <= lo <= hi <= Top(c, p.arenas, k) <= |p.mem|
    ensures SameBytes(p, Extended(c, p, m, ans), lo, hi)
  {
    assert Clear(c, p.arenas, k, ans.at, ans.at + Gross(c, m));
    StoreElsewhere(p.mem, ans.at, ans.fill, lo, hi);
  }

  lemma AllocElsewhere(c: Config, p: Pool, nb: nat, ans: Answer, k: nat, lo: nat, hi: nat)
    requires WideConfig(c) && PoolOk(c, p) && nb > 0 && AlignUp(nb, c.align) < c.word
    requires AnswerFits(p, ans, Gross(c, AlignUp(nb, c.align)))
    requires Fresh(c, p, ans, Gross(c, AlignUp(nb, c.align)), -1)
    requires k < |p.arenas| && p.arenas[k].at <= lo <= hi <= Top(c, p.arenas, k) <= |p.mem|
    ensures SameBytes(p, Alloc(c, p, nb, ans).0, lo, hi)
  {
    var m := AlignUp(nb, c.align);
    UpFacts(nb, c.align);
    AllocateCases(c, p, m, ans);
    if Granted(c, p, m, ans) {
      ExtendElsewhere(c, p, m, ans, k, lo, hi);
    }
  }

  // ---- Blocks and marks under growth of the pool -----------------------------------------

  lemma BlockBounds(c: Config, p: Pool, b: Block)
    requires WideConfig(c) && PoolOk(c, p) && BlockOk(c, p, b)
    ensures var a := p.arenas[b.home];
            && a.at < b.ptr && b.ptr + b.size <= b.ptr + Extent(c, b) <= a.limit
            && a.limit == Top(c, p.arenas, b.home) && a.limit <= |p.mem|
            && Aligned(Extent(c, b), c.align) && Extent(c, b) > 0
  {
    assert ArenaOk(c, p.arenas, b.home);
    UpFacts(b.size, c.align);
  }

  /** A range of one arena that lies above the blocks of that arena overlaps no block. */
  lemma RangeIsFree(c: Config, arenas: seq<Arena>, k: nat, lo: nat, hi: nat,
                    p: Pool, b: Block)
    requires WideConfig(c) && PoolOk(c, p) && BlockOk(c, p, b)
    requires ArenasOk(c, arenas) && 1 <= k < |arenas| && b.home < |arenas|
    requires arenas[k].at <= lo && hi <= arenas[k].limit
    requires arenas[b.home].at == p.arenas[b.home].at
    requires arenas[b.home].limit == p.arenas[b.home].limit
    requires b.home == k ==> b.ptr + Extent(c, b) <= lo
    ensures b.ptr + Extent(c, b) <= lo || hi <= b.ptr
  {
    BlockBounds(c, p, b);
    if b.home != k {
      assert Clear(c, arenas, b.home, arenas[k].at, Top(c, arenas, k));
    }
  }

  lemma GrownArenas(saved: seq<Arena>, arenas: seq<Arena>, i: nat)
    requires Grown(saved, arenas) && i < |saved|
    ensures arenas[i].at == saved[i].at && arenas[i].base == saved[i].base
    ensures arenas[i].limit == saved[i].limit && arenas[i].avail >= saved[i].avail
    ensures i < |saved| - 1 ==> arenas[i] == saved[i]
  {
    if i == |saved| - 1 {
      assert arenas[i].(avail := saved[i].avail) == saved[i];
    }
  }

  /** A block stays in order when the pool only grows. */
  lemma BlockStays(c: Config, p: Pool, q: Pool, b: Block)
    requires WideConfig(c) && PoolOk(c, p) && PoolOk(c, q) && BlockOk(c, p, b)
    requires Grown(p.arenas, q.arenas)
    requires b.home == p.cur && q.arenas[p.cur].avail != p.arenas[p.cur].avail ==>
               !Big(c, q.arenas[p.cur])
    requires b.ptr + b.size <= |p.mem| ==> SameBytes(p, q, b.ptr, b.ptr + b.size)
    ensures BlockOk(c, q, b)
  {
    GrownArenas(p.arenas, q.arenas, b.home);
  }

  lemma MarkStays(c: Config, s: Client, t: Client, m: Mark)
    requires WideConfig(c) && PoolOk(c, s.pool) && PoolOk(c, t.pool) && MarkOk(c, s, m)
    requires Grown(m.saved, t.pool.arenas) && Budget(t.pool) == Budget(s.pool)
    requires |s.blocks| <= |t.blocks|
    requires forall i :: 0 <= i < m.nblocks ==>
               t.blocks[i].(data := []) == s.blocks[i].(data := [])
    requires forall i :: m.nblocks <= i < |t.blocks| ==> Above(m, t.blocks[i])
    ensures MarkOk(c, t, m)
  {
    forall i | 0 <= i < m.nblocks
      ensures Below(c, m, t.blocks[i])
    {
      assert Below(c, m, s.blocks[i]);
      assert t.blocks[i].(data := []) == s.blocks[i].(data := []);
    }
  }

  /** Something handed out by the last arena is above every mark. */
  lemma HandedIsAbove(c: Config, s: Client, q: Pool, ptr: nat, nb: nat, m: Mark, b: Block)
    requires WideConfig(c) && PoolOk(c, s.pool) && Handed(c, s.pool, q, ptr, nb)
    requires MarkOk(c, s, m) && b.ptr == ptr && b.home == q.cur
    ensures Above(m, b) && Grown(m.saved, q.arenas)
  {
    GrownTransitive(m.saved, s.pool.arenas, q.arenas);
    GrownArenas(m.saved, s.pool.arenas, |m.saved| - 1);
  }

  // ---- Allocate --------------------------------------------------------------------------

  function AfterAllocate(c: Config, s: Client, nb: nat, ans: Answer): Client
    requires WideConfig(c) && Inv(c, s) && Legal(c, s, Allocate(nb, ans))
  {
    var (q, ptr) := Alloc(c, s.pool, nb, ans);
    if nb == 0 then s.(pool := q)
    else
      AllocHands(c, s.pool, nb, ans);
      if ptr == 0 then s.(pool := q)
      else
        Client(q, s.blocks + [Block(ptr, nb, q.cur, q.mem[ptr..ptr + nb])], s.marks)
  }

  lemma ZeroBytes(c: Config, p: Pool, ans: Answer)
    requires WideConfig(c) && PoolOk(c, p) && AnswerFits(p, ans, Gross(c, AlignUp(0, c.align)))
    ensures Alloc(c, p, 0, ans).0 == p
  {
    UpOfAligned(0, c.align);
    DataRange(c, p.arenas, p.cur);
    if p.cur > 0 { assert ArenaOk(c, p.arenas, p.cur); }
    AllocateCases(c, p, 0, ans);
    var a := p.arenas[p.cur];
    assert a.(avail := a.avail + 0) == a;
    assert p.arenas[p.cur := a] == p.arenas;
  }

  /** An old block is still in order, and clear of what was handed out. */
  lemma OldBlockAfterHanding(c: Config, p: Pool, q: Pool, ptr: nat, nb: nat, b: Block)
    requires WideConfig(c) && Handed(c, p, q, ptr, nb) && BlockOk(c, p, b)
    requires SameBytes(p, q, b.ptr, b.ptr + b.size)
    ensures BlockOk(c, q, b)
    ensures b.ptr + Extent(c, b) <= ptr || ptr + AlignUp(nb, c.align) <= b.ptr
  {
    BlockStays(c, p, q, b);
    GrownArenas(p.arenas, q.arenas, b.home);
    LastInOrder(c, q);
    assert ArenaOk(c, q.arenas, q.cur);
    RangeIsFree(c, q.arenas, q.cur, ptr, ptr + AlignUp(nb, c.align), p, b);
  }

  lemma AllocateOldBlock(c: Config, p: Pool, nb: nat, ans: Answer, b: Block)
    requires WideConfig(c) && PoolOk(c, p) && BlockOk(c, p, b)
    requires nb > 0 && AlignUp(nb, c.align) < c.word
    requires AnswerFits(p, ans, Gross(c, AlignUp(nb, c.align)))
    requires Fresh(c, p, ans, Gross(c, AlignUp(nb, c.align)), -1)
    requires Alloc(c, p, nb, ans).1 != 0
    ensures var (q, ptr) := Alloc(c, p, nb, ans);
            && BlockOk(c, q, b) && SameBytes(p, q, b.ptr, b.ptr + b.size)
            && (b.ptr + Extent(c, b) <= ptr || ptr + AlignUp(nb, c.align) <= b.ptr)
  {
    var (q, ptr) := Alloc(c, p, nb, ans);
    AllocHands(c, p, nb, ans);
    BlockBounds(c, p, b);
    AllocElsewhere(c, p, nb, ans, b.home, b.ptr, b.ptr + b.size);
    OldBlockAfterHanding(c, p, q, ptr, nb, b);
  }

  lemma AllocateBlocks(c: Config, s: Client, nb: nat, ans: Answer)
    requires WideConfig(c) && Inv(c, s) && Legal(c, s, Allocate(nb, ans)) && nb > 0
    requires Alloc(c, s.pool, nb, ans).1 != 0
    ensures BlocksOk(c, AfterAllocate(c, s, nb, ans))
  {
    var t := AfterAllocate(c, s, nb, ans);
    var (q, ptr) := Alloc(c, s.pool, nb, ans);
    AllocHands(c, s.pool, nb, ans);
    var n := |s.blocks|;
    forall i | 0 <= i < n
      ensures BlockOk(c, q, s.blocks[i]) && Separate(c, s.blocks[i], t.blocks[n])
    {
      assert BlockOk(c, s.pool, s.blocks[i]);
      AllocateOldBlock(c, s.pool, nb, ans, s.blocks[i]);
    }
    HandedBlock(c, s.pool, q, ptr, nb, t.blocks[n]);
    OneMoreBlock(c, s, q, t.blocks[n], t);
  }

  lemma OneMoreBlock(c: Config, s: Client, q: Pool, b: Block, t: Client)
    requires c.align > 0 && c.ptrAlign > 0 && BlocksOk(c, s) && BlockOk(c, q, b)
    requires t.pool == q && t.blocks == s.blocks + [b]
    requires forall i :: 0 <= i < |s.blocks| ==>
               BlockOk(c, q, s.blocks[i]) && Separate(c, s.blocks[i], b)
    ensures BlocksOk(c, t)
  {
    forall i, j | 0 <= i < j < |t.blocks|
      ensures Separate(c, t.blocks[i], t.blocks[j])
    {
      if j < |s.blocks| { assert Separate(c, s.blocks[i], s.blocks[j]); }
    }
  }

  lemma AllocateMarks(c: Config, s: Client, nb: nat, ans: Answer)
    requires WideConfig(c) && Inv(c, s) && Legal(c, s, Allocate(nb, ans)) && nb > 0
    requires Alloc(c, s.pool, nb, ans).1 != 0
    ensures |AfterAllocate(c, s, nb, ans).pool.arenas| > 0
    ensures MarksOk(c, AfterAllocate(c, s, nb, ans))
  {
    var t := AfterAllocate(c, s, nb, ans);
    var (q, ptr) := Alloc(c, s.pool, nb, ans);
    AllocHands(c, s.pool, nb, ans);
    forall l | 0 <= l < |t.marks|
      ensures MarkOk(c, t, t.marks[l])
    {
      var m := s.marks[l];
      assert MarkOk(c, s, m);
      HandedIsAbove(c, s, q, ptr, nb, m, t.blocks[|s.blocks|]);
      MarkStays(c, s, t, m);
    }
  }

  lemma AllocateKeepsInv(c: Config, s: Client, nb: nat, ans: Answer)
    requires WideConfig(c) && Inv(c, s) && Legal(c, s, Allocate(nb, ans))
    ensures Inv(c, AfterAllocate(c, s, nb, ans))
    ensures Budget(AfterAllocate(c, s, nb, ans).pool) == Budget(s.pool)
  {
    if nb == 0 {
      ZeroBytes(c, s.pool, ans);
    } else {
      AllocHands(c, s.pool, nb, ans);
      if Alloc(c, s.pool, nb, ans).1 != 0 {
        AllocateBlocks(c, s, nb, ans);
        AllocateMarks(c, s, nb, ans);
      }
    }
  }

  // ---- Write, mark, release, free --------------------------------------------------------

  function AfterWrite(c: Config, s: Client, i: nat, data: seq<Byte>): Client
    requires WideConfig(c) && Inv(c, s) && Legal(c, s, Write(i, data))
  {
    var b := s.blocks[i];
    assert BlockOk(c, s.pool, b);
    s.(pool := s.pool.(mem := Store(s.pool.mem, b.ptr, data)),
       blocks := s.blocks[i := b.(data := data)])
  }

  lemma BlockAfterStore(c: Config, p: Pool, at: nat, data: seq<Byte>, b: Block)
    requires WideConfig(c) && BlockOk(c, p, b) && at + |data| <= |p.mem|
    requires b.ptr + b.size <= at || at + |data| <= b.ptr
    ensures BlockOk(c, p.(mem := Store(p.mem, at, data)), b)
  {
    StoreElsewhere(p.mem, at, data, b.ptr, b.ptr + b.size);
  }

  lemma BlockRewritten(c: Config, p: Pool, data: seq<Byte>, b: Block)
    requires WideConfig(c) && BlockOk(c, p, b) && |data| == b.size
    ensures BlockOk(c, p.(mem := Store(p.mem, b.ptr, data)), b.(data := data))
  {
    StoreHere(p.mem, b.ptr, data);
  }

  lemma WriteBlock(c: Config, s: Client, i: nat, data: seq<Byte>, j: nat)
    requires WideConfig(c) && Inv(c, s) && Legal(c, s, Write(i, data)) && j < |s.blocks|
    ensures var t := AfterWrite(c, s, i, data);
            BlockOk(c, t.pool, t.blocks[j])
  {
    var b, d := s.blocks[i], s.blocks[j];
    assert BlockOk(c, s.pool, b) && BlockOk(c, s.pool, d);
    if j == i {
      BlockRewritten(c, s.pool, data, b);
    } else {
      BlockBounds(c, s.pool, b);
      BlockBounds(c, s.pool, d);
      assert Separate(c, s.blocks[if i < j then i else j], s.blocks[if i < j then j else i]);
      BlockAfterStore(c, s.pool, b.ptr, data, d);
    }
  }

  lemma WriteMark(c: Config, s: Client, i: nat, data: seq<Byte>, m: Mark)
    requires WideConfig(c) && Inv(c, s) && Legal(c, s, Write(i, data)) && MarkOk(c, s, m)
    ensures MarkOk(c, AfterWrite(c, s, i, data), m)
  {
    var t := AfterWrite(c, s, i, data);
    forall j | m.nblocks <= j < |t.blocks|
      ensures Above(m, t.blocks[j])
    {
      assert Above(m, s.blocks[j]);
    }
    MarkStays(c, s, t, m);
  }

  lemma WriteKeepsInv(c: Config, s: Client, i: nat, data: seq<Byte>)
    requires WideConfig(c) && Inv(c, s) && Legal(c, s, Write(i, data))
    ensures Inv(c, AfterWrite(c, s, i, data))
    ensures Budget(AfterWrite(c, s, i, data).pool) == Budget(s.pool)
  {
    var t := AfterWrite(c, s, i, data);
    forall j | 0 <= j < |t.blocks|
      ensures BlockOk(c, t.pool, t.blocks[j])
    {
      WriteBlock(c, s, i, data, j);
    }
    forall j, k | 0 <= j < k < |t.blocks|
      ensures Separate(c, t.blocks[j], t.blocks[k])
    {
      assert Separate(c, s.blocks[j], s.blocks[k]);
    }
    forall l | 0 <= l < |t.marks|
      ensures MarkOk(c, t, t.marks[l])
    {
      WriteMark(c, s, i, data, s.marks[l]);
    }
  }

  function AfterMark(s: Client): Client {
    s.(marks := s.marks + [Mark(s.pool.arenas, s.pool.quota, |s.blocks|)])
  }

  lemma MarkKeepsInv(c: Config, s: Client)
    requires WideConfig(c) && Inv(c, s)
    ensures Inv(c, AfterMark(s))
  {
    var t := AfterMark(s);
    var n := |s.marks|;
    DataRange(c, s.pool.arenas, s.pool.cur);
    forall l | 0 <= l < |t.marks|
      ensures MarkOk(c, t, t.marks[l])
    {
      if l < n {
        assert MarkOk(c, s, s.marks[l]);
        assert t.marks[l] == s.marks[l];
      } else {
        forall i | 0 <= i < |s.blocks|
          ensures Below(c, t.marks[n], s.blocks[i])
        {
          assert BlockOk(c, s.pool, s.blocks[i]);
        }
      }
    }
    forall l, m | 0 <= l < m < |t.marks|
      ensures Nested(t.marks[l], t.marks[m])
    {
      if m < n {
        assert Nested(s.marks[l], s.marks[m]);
      } else {
        assert MarkOk(c, s, s.marks[l]);
      }
    }
  }

  function AfterRelease(c: Config, s: Client, level: nat): Client
    requires WideConfig(c) && Inv(c, s) && level < |s.marks|
  {
    var m := s.marks[level];
    assert MarkOk(c, s, m);
    PoolIsSized(c, s.pool);
    Client(Release(c, s.pool, m.saved[|m.saved| - 1].avail), s.blocks[..m.nblocks],
           s.marks[..level])
  }

  lemma BlockAfterRelease(c: Config, p: Pool, q: Pool, m: Mark, b: Block)
    requires WideConfig(c) && PoolOk(c, p) && PoolOk(c, q) && BlockOk(c, p, b)
    requires Grown(m.saved, p.arenas) && q.arenas == m.saved && q.mem == p.mem && Below(c, m, b)
    ensures BlockOk(c, q, b)
  {
    GrownArenas(m.saved, p.arenas, b.home);
  }

  lemma ReleasedPool(c: Config, s: Client, level: nat)
    requires WideConfig(c) && Inv(c, s) && level < |s.marks|
    ensures var t := AfterRelease(c, s, level);
            && PoolOk(c, t.pool) && Budget(t.pool) == Budget(s.pool)
            && t.pool.arenas == s.marks[level].saved && t.pool.mem == s.pool.mem
            && t.pool.quota == s.marks[level].quota
  {
    assert MarkOk(c, s, s.marks[level]);
    PoolIsSized(c, s.pool);
    ReleaseRestores(c, s.pool, s.marks[level].saved);
  }

  lemma ReleasedMark(c: Config, s: Client, level: nat, l: nat)
    requires WideConfig(c) && Inv(c, s) && l < level < |s.marks|
    ensures |AfterRelease(c, s, level).pool.arenas| > 0
    ensures MarkOk(c, AfterRelease(c, s, level), s.marks[l])
  {
    ReleasedPool(c, s, level);
    assert MarkOk(c, s, s.marks[l]) && MarkOk(c, s, s.marks[level]);
    assert Nested(s.marks[l], s.marks[level]);
  }

  lemma ReleaseKeepsInv(c: Config, s: Client, level: nat)
    requires WideConfig(c) && Inv(c, s) && level < |s.marks|
    ensures Inv(c, AfterRelease(c, s, level))
  {
    var t := AfterRelease(c, s, level);
    var m := s.marks[level];
    assert MarkOk(c, s, m);
    ReleasedPool(c, s, level);
    forall i | 0 <= i < m.nblocks
      ensures BlockOk(c, t.pool, t.blocks[i])
    {
      assert BlockOk(c, s.pool, s.blocks[i]) && Below(c, m, s.blocks[i]);
      BlockAfterRelease(c, s.pool, t.pool, m, s.blocks[i]);
    }
    forall i, j | 0 <= i < j < m.nblocks
      ensures Separate(c, t.blocks[i], t.blocks[j])
    {
      assert Separate(c, s.blocks[i], s.blocks[j]);
    }
    forall l | 0 <= l < level
      ensures MarkOk(c, t, t.marks[l])
    {
      ReleasedMark(c, s, level, l);
    }
    forall k, l | 0 <= k < l < level
      ensures Nested(t.marks[k], t.marks[l])
    {
      assert Nested(s.marks[k], s.marks[l]);
    }
  }

  function AfterFree(c: Config, s: Client): Client
    requires WideConfig(c) && Inv(c, s)
  {
    PoolIsSized(c, s.pool);
    Client(FreePool(s.pool), [], [])
  }

  lemma FreeKeepsInv(c: Config, s: Client)
    requires WideConfig(c) && Inv(c, s)
    ensures Inv(c, AfterFree(c, s)) && Budget(AfterFree(c, s).pool) == Budget(s.pool)
  {
    PoolIsSized(c, s.pool);
    FreePoolKeepsOk(c, s.pool);
  }

  // ---- Grow ------------------------------------------------------------------------------

  lemma EndsInOneArena(c: Config, p: Pool, b: Block, k: nat)
    requires WideConfig(c) && PoolOk(c, p) && BlockOk(c, p, b) && k < |p.arenas|
    ensures b.home == k || p.arenas[k].avail != b.ptr + Extent(c, b)
  {
    BlockBounds(c, p, b);
    DataRange(c, p.arenas, k);
    if b.home != k {
      assert Clear(c, p.arenas, b.home, p.arenas[k].at, Top(c, p.arenas, k));
    }
  }

  /** The block that ends at the bump pointer lives in the last arena. */
  lemma TopBlockHome(c: Config, p: Pool, b: Block)
    requires WideConfig(c) && PoolOk(c, p) && BlockOk(c, p, b)
    requires p.arenas[p.cur].avail == b.ptr + Extent(c, b)
    ensures b.home == p.cur
  {
    EndsInOneArena(c, p, b, p.cur);
  }

  /** Where JS_ARENA_GROW hands a block to JS_ArenaRealloc, the block has its arena to itself. */
  lemma ReallocTarget(c: Config, p: Pool, b: Block, incr: nat)
    requires WideConfig(c) && PoolOk(c, p) && BlockOk(c, p, b)
    requires GrowPath(c, p, b.ptr, b.size, incr) == ByRealloc
    ensures Located(c, p, b.ptr, b.size, b.home)
    ensures b.ptr + Extent(c, b) == p.arenas[b.home].avail
    ensures Big(c, p.arenas[b.home]) || b.home == p.cur
    ensures !Big(c, p.arenas[b.home]) ==>
              AlignUp(b.size + incr, c.align) > p.arenas[b.home].limit - b.ptr
  {
    BlockBounds(c, p, b);
    assert ArenaOk(c, p.arenas, b.home);
    if p.arenas[p.cur].avail == b.ptr + Extent(c, b) {
      TopBlockHome(c, p, b);
    }
  }

  lemma ReallocIsReady(c: Config, s: Client, i: nat, incr: nat, ans: Answer)
    requires WideConfig(c) && Inv(c, s) && Legal(c, s, Grow(i, incr, ans))
    requires GrowPath(c, s.pool, s.blocks[i].ptr, s.blocks[i].size, incr) == ByRealloc
    ensures var b := s.blocks[i];
            && Located(c, s.pool, b.ptr, b.size, b.home)
            && ReallocReady(c, s.pool, b.ptr, b.size, incr, b.home, ans)
  {
    var b := s.blocks[i];
    assert BlockOk(c, s.pool, b);
    BlockBounds(c, s.pool, b);
    ReallocTarget(c, s.pool, b, incr);
    ReallocGrows(c, s.pool, b.ptr, b.size, incr, b.home);
  }

  lemma CopyIsReady(c: Config, p: Pool, b: Block, incr: nat, ans: Answer)
    requires WideConfig(c) && PoolOk(c, p) && BlockOk(c, p, b)
    requires AlignUp(b.size + incr, c.align) < c.word
    requires AnswerFits(p, ans, Gross(c, AlignUp(b.size + incr, c.align)))
    requires Fresh(c, p, ans, Gross(c, AlignUp(b.size + incr, c.align)), -1)
    ensures b.ptr + b.size <= |p.mem|
    ensures Alloc(c, p, b.size + incr, ans).1 + b.size <= |Alloc(c, p, b.size + incr, ans).0.mem|
  {
    AllocHands(c, p, b.size + incr, ans);
  }

  lemma ReallocCanGrow(c: Config, s: Client, i: nat, incr: nat, ans: Answer)
    requires WideConfig(c) && Inv(c, s) && Legal(c, s, Grow(i, incr, ans))
    requires var b := s.blocks[i];
             GrowPath(c, s.pool, b.ptr, b.size, incr) == ByRealloc
    ensures var b := s.blocks[i];
            && CanGrow(c, s.pool, b.ptr, b.size, incr, b.home, ans)
            && ReallocReady(c, s.pool, b.ptr, b.size, incr, b.home, ans)
  {
    var b := s.blocks[i];
    assert BlockOk(c, s.pool, b);
    ReallocIsReady(c, s, i, incr, ans);
    ReallocIsDefined(c, s.pool, b.ptr, b.size, incr, b.home, ans);
  }

  lemma InPlaceCanGrow(c: Config, s: Client, i: nat, incr: nat, ans: Answer)
    requires WideConfig(c) && Inv(c, s) && Legal(c, s, Grow(i, incr, ans))
    requires var b := s.blocks[i];
             GrowPath(c, s.pool, b.ptr, b.size, incr) == InPlace
    ensures var b := s.blocks[i];
            CanGrow(c, s.pool, b.ptr, b.size, incr, b.home, ans)
  {
    assert BlockOk(c, s.pool, s.blocks[i]);
  }

  lemma CopyCanGrow(c: Config, s: Client, i: nat, incr: nat, ans: Answer)
    requires WideConfig(c) && Inv(c, s) && Legal(c, s, Grow(i, incr, ans))
    requires var b := s.blocks[i];
             GrowPath(c, s.pool, b.ptr, b.size, incr) == ByCopy
    ensures var b := s.blocks[i];
            CanGrow(c, s.pool, b.ptr, b.size, incr, b.home, ans)
  {
    assert BlockOk(c, s.pool, s.blocks[i]);
    CopyIsReady(c, s.pool, s.blocks[i], incr, ans);
  }

  lemma GrowIsReady(c: Config, s: Client, i: nat, incr: nat, ans: Answer)
    requires WideConfig(c) && Inv(c, s) && Legal(c, s, Grow(i, incr, ans))
    ensures var b := s.blocks[i];
            && CanGrow(c, s.pool, b.ptr, b.size, incr, b.home, ans)
            && (GrowPath(c, s.pool, b.ptr, b.size, incr) == ByRealloc ==>
                  ReallocReady(c, s.pool, b.ptr, b.size, incr, b.home, ans))
  {
    var b := s.blocks[i];
    match GrowPath(c, s.pool, b.ptr, b.size, incr)
    case InPlace => InPlaceCanGrow(c, s, i, incr, ans);
    case ByRealloc => ReallocCanGrow(c, s, i, incr, ans);
    case ByCopy => CopyCanGrow(c, s, i, incr, ans);
  }

  function GrownBlock(c: Config, s: Client, i: nat, q: Pool, ptr: nat, incr: nat, home: nat)
    : Block
    requires i < |s.blocks| && ptr + s.blocks[i].size + incr <= |q.mem|
  {
    var size := s.blocks[i].size + incr;
    Block(ptr, size, home, q.mem[ptr..ptr + size])
  }

  /** The client after its i-th block has become `b` in the pool `q`. */
  predicate Regrown(c: Config, s: Client, i: nat, q: Pool, b: Block)
    requires c.align > 0 && c.ptrAlign > 0 && i < |s.blocks| && |s.pool.arenas| > 0
  {
    && PoolOk(c, q) && Budget(q) == Budget(s.pool) && BlockOk(c, q, b)
    && s.blocks[i].size <= b.size && b.data[..s.blocks[i].size] == s.blocks[i].data
    && (forall j :: 0 <= j < |s.blocks| && j != i ==>
          BlockOk(c, q, s.blocks[j]) && Separate(c, b, s.blocks[j]))
    && (forall l :: 0 <= l < |s.marks| ==>
          Above(s.marks[l], b) && Grown(s.marks[l].saved, q.arenas))
  }

  lemma RegrownKeepsInv(c: Config, s: Client, i: nat, q: Pool, b: Block)
    requires WideConfig(c) && Inv(c, s) && i < |s.blocks|
    requires Regrown(c, s, i, q, b)
    requires forall l :: 0 <= l < |s.marks| ==> s.marks[l].nblocks <= i
    ensures Inv(c, s.(pool := q, blocks := s.blocks[i := b]))
  {
    var t := s.(pool := q, blocks := s.blocks[i := b]);
    forall j, k | 0 <= j < k < |t.blocks|
      ensures Separate(c, t.blocks[j], t.blocks[k])
    {
      assert Separate(c, s.blocks[j], s.blocks[k]);
    }
    forall l | 0 <= l < |t.marks|
      ensures MarkOk(c, t, t.marks[l])
    {
      var m := s.marks[l];
      assert MarkOk(c, s, m);
      forall j | m.nblocks <= j < |t.blocks|
        ensures Above(m, t.blocks[j])
      {
        assert Above(m, s.blocks[j]);
      }
      MarkStays(c, s, t, m);
    }
  }

  // -- in place

  lemma TopBlockEnds(c: Config, p: Pool, b: Block, incr: nat)
    requires c.align > 0 && p.cur < |p.arenas|
    requires GrowPath(c, p, b.ptr, b.size, incr) == InPlace
    ensures p.arenas[p.cur].avail == b.ptr + Extent(c, b)
  {
  }

  lemma SetAvailSame(p: Pool, k: nat)
    requires k < |p.arenas|
    ensures p.(arenas := p.arenas[k := p.arenas[k].(avail := p.arenas[k].avail)]) == p
  {
    assert p.arenas[k].(avail := p.arenas[k].avail) == p.arenas[k];
  }

  /** What JS_ARENA_GROW adds to the bump pointer. */
  lemma InPlaceDelta(c: Config, p: Pool, b: Block, incr: nat) returns (delta: nat)
    requires WideConfig(c) && PoolOk(c, p) && BlockOk(c, p, b)
    requires GrowPath(c, p, b.ptr, b.size, incr) == InPlace
    ensures delta == AlignUp(b.size + incr, c.align) - AlignUp(b.size, c.align)
    ensures Aligned(delta, c.align) && Fits(p.arenas[p.cur], delta)
    ensures p.arenas[p.cur].avail + delta == b.ptr + AlignUp(b.size + incr, c.align)
  {
    delta := UpDelta(b.size, incr, c.align);
    TopBlockEnds(c, p, b, incr);
  }

  lemma UpDelta(x: nat, y: nat, m: nat) returns (delta: nat)
    requires m > 0
    ensures delta == AlignUp(x + y, m) - AlignUp(x, m) && Aligned(delta, m)
  {
    UpMonotone(x, x + y, m);
    UpFacts(x, m);
    UpFacts(x + y, m);
    AlignedSub(AlignUp(x + y, m), AlignUp(x, m), m);
    delta := AlignUp(x + y, m) - AlignUp(x, m);
  }

  lemma GrowInPlace(c: Config, p: Pool, b: Block, incr: nat, ans: Answer, delta: nat)
    requires c.word > 0 && c.align > 0 && c.ptrAlign > 0 && p.cur == |p.arenas| - 1
    requires GrowPath(c, p, b.ptr, b.size, incr) == InPlace
    requires p.arenas[p.cur].avail + delta == b.ptr + AlignUp(b.size + incr, c.align)
    ensures ArenaPool.Grow(c, p, b.ptr, b.size, incr, b.home, ans).0 == Bump(p, p.cur, delta)
  {
  }

  /** The pool after the block `b` has grown to `n` bytes without moving: the old pool, or one whose
      bump pointer has gone up. */
  predicate Stretched(c: Config, p: Pool, q: Pool, b: Block, n: nat)
    requires c.align > 0 && c.ptrAlign > 0
  {
    && PoolOk(c, p) && PoolOk(c, q) && Budget(q) == Budget(p) && Grown(p.arenas, q.arenas)
    && b.home == p.cur == q.cur && q.mem == p.mem
    && p.arenas[p.cur].avail == b.ptr + Extent(c, b)
    && q.arenas[q.cur].avail == b.ptr + AlignUp(n, c.align)
    && (q == p || !Big(c, q.arenas[q.cur]))
  }

  lemma InPlacePool(c: Config, p: Pool, b: Block, incr: nat, ans: Answer)
    requires WideConfig(c) && PoolOk(c, p) && BlockOk(c, p, b)
    requires GrowPath(c, p, b.ptr, b.size, incr) == InPlace
    ensures var (q, r) := ArenaPool.Grow(c, p, b.ptr, b.size, incr, b.home, ans);
            r == b.ptr && Stretched(c, p, q, b, b.size + incr)
  {
    TopBlockEnds(c, p, b, incr);
    TopBlockHome(c, p, b);
    var delta := InPlaceDelta(c, p, b, incr);
    GrowInPlace(c, p, b, incr, ans, delta);
    LastInOrder(c, p);
    if delta == 0 {
      SetAvailSame(p, p.cur);
    } else {
      BumpKeepsOk(c, p, delta);
      WideBumpIsSmall(c, p, delta);
    }
  }

  lemma StretchedOther(c: Config, s: Client, i: nat, j: nat, q: Pool, n: nat, g: Block)
    requires WideConfig(c) && Inv(c, s) && i < |s.blocks| && j < |s.blocks| && i != j
    requires Stretched(c, s.pool, q, s.blocks[i], n)
    requires g.ptr == s.blocks[i].ptr && g.size == n
    ensures BlockOk(c, q, s.blocks[j]) && Separate(c, g, s.blocks[j])
  {
    var d := s.blocks[j];
    var p := s.pool;
    assert BlockOk(c, p, d) && BlockOk(c, p, s.blocks[i]);
    assert Separate(c, s.blocks[if i < j then i else j], s.blocks[if i < j then j else i]);
    BlockBounds(c, p, d);
    BlockStays(c, p, q, d);
    GrownArenas(p.arenas, q.arenas, d.home);
    GrownArenas(p.arenas, q.arenas, p.cur);
    BlockBounds(c, p, s.blocks[i]);
    assert ArenaOk(c, q.arenas, q.cur);
    RangeIsFree(c, q.arenas, q.cur, g.ptr, g.ptr + Extent(c, g), p, d);
  }

  lemma StretchedBlock(c: Config, p: Pool, q: Pool, b: Block, n: nat)
    requires WideConfig(c) && BlockOk(c, p, b) && Stretched(c, p, q, b, n) && b.size <= n
    ensures b.ptr + n <= |q.mem|
    ensures var g := Block(b.ptr, n, b.home, q.mem[b.ptr..b.ptr + n]);
            BlockOk(c, q, g) && g.data[..b.size] == b.data
  {
    LastInOrder(c, q);
    UpFacts(n, c.align);
    GrownArenas(p.arenas, q.arenas, q.cur);
    SliceOfSlice(q.mem, b.ptr, b.ptr + n, 0, b.size);
  }

  lemma StretchedRegrows(c: Config, s: Client, i: nat, q: Pool, incr: nat)
    requires WideConfig(c) && Inv(c, s) && i < |s.blocks|
    requires Stretched(c, s.pool, q, s.blocks[i], s.blocks[i].size + incr)
    requires forall l :: 0 <= l < |s.marks| ==> s.marks[l].nblocks <= i
    ensures var b := s.blocks[i];
            && b.ptr + b.size + incr <= |q.mem|
            && Regrown(c, s, i, q, GrownBlock(c, s, i, q, b.ptr, incr, b.home))
  {
    var b := s.blocks[i];
    assert BlockOk(c, s.pool, b);
    StretchedBlock(c, s.pool, q, b, b.size + incr);
    var g := GrownBlock(c, s, i, q, b.ptr, incr, b.home);
    forall j | 0 <= j < |s.blocks| && j != i
      ensures BlockOk(c, q, s.blocks[j]) && Separate(c, g, s.blocks[j])
    {
      StretchedOther(c, s, i, j, q, b.size + incr, g);
    }
    forall l | 0 <= l < |s.marks|
      ensures Above(s.marks[l], g) && Grown(s.marks[l].saved, q.arenas)
    {
      assert MarkOk(c, s, s.marks[l]);
      assert Above(s.marks[l], b);
      GrownTransitive(s.marks[l].saved, s.pool.arenas, q.arenas);
    }
  }

  lemma InPlaceRegrows(c: Config, s: Client, i: nat, incr: nat, ans: Answer)
    requires WideConfig(c) && Inv(c, s) && Legal(c, s, Grow(i, incr, ans))
    requires GrowPath(c, s.pool, s.blocks[i].ptr, s.blocks[i].size, incr) == InPlace
    ensures var b := s.blocks[i];
            var (q, r) := ArenaPool.Grow(c, s.pool, b.ptr, b.size, incr, b.home, ans);
            && r == b.ptr && r + b.size + incr <= |q.mem|
            && Regrown(c, s, i, q, GrownBlock(c, s, i, q, r, incr, b.home))
  {
    var b := s.blocks[i];
    assert BlockOk(c, s.pool, b);
    InPlacePool(c, s.pool, b, incr, ans);
    var q := ArenaPool.Grow(c, s.pool, b.ptr, b.size, incr, b.home, ans).0;
    StretchedRegrows(c, s, i, q, incr);
  }

  // -- by copying

  lemma CopyOther(c: Config, p: Pool, q0: Pool, q: Pool, newp: nat, n: nat, bytes: seq<Byte>,
                  d: Block)
    requires WideConfig(c) && Handed(c, p, q0, newp, n) && BlockOk(c, p, d)
    requires |bytes| <= n && n > 0 && newp + |bytes| <= |q0.mem|
    requires q == q0.(mem := Store(q0.mem, newp, bytes))
    requires SameBytes(p, q0, d.ptr, d.ptr + d.size)
    requires d.ptr + Extent(c, d) <= newp || newp + AlignUp(n, c.align) <= d.ptr
    ensures BlockOk(c, q, d)
  {
    UpFacts(n, c.align);
    BlockBounds(c, p, d);
    StoreElsewhere(q0.mem, newp, bytes, d.ptr, d.ptr + d.size);
    OldBlockAfterHanding(c, p, q, newp, n, d);
  }

  lemma HandedBlock(c: Config, p: Pool, q: Pool, newp: nat, n: nat, g: Block)
    requires WideConfig(c) && Handed(c, p, q, newp, n) && n > 0
    requires g == Block(newp, n, q.cur, q.mem[newp..newp + n])
    ensures BlockOk(c, q, g)
  {
  }

  lemma CopiedBytes(c: Config, b: Block, q0: Pool, newp: nat, n: nat)
    requires |b.data| == b.size <= n && newp + n <= |q0.mem|
    ensures var mem := Store(q0.mem, newp, b.data);
            mem[newp..newp + n][..b.size] == b.data
  {
    StoreHere(q0.mem, newp, b.data);
    SliceOfSlice(Store(q0.mem, newp, b.data), newp, newp + n, 0, b.size);
  }

  predicate LeftAlone(c: Config, p: Pool, q: Pool, at: nat, n: nat, d: Block)
    requires c.align > 0
  {
    && SameBytes(p, q, d.ptr, d.ptr + d.size)
    && (d.ptr + Extent(c, d) <= at || at + AlignUp(n, c.align) <= d.ptr)
  }

  lemma CopyOthers(c: Config, s: Client, i: nat, q0: Pool, newp: nat, n: nat, g: Block)
    requires WideConfig(c) && Inv(c, s) && i < |s.blocks| && n >= s.blocks[i].size && n > 0
    requires Handed(c, s.pool, q0, newp, n) && g.ptr == newp && g.size == n
    requires forall j :: 0 <= j < |s.blocks| ==> LeftAlone(c, s.pool, q0, newp, n, s.blocks[j])
    requires |s.blocks[i].data| == s.blocks[i].size
    ensures var q := q0.(mem := Store(q0.mem, newp, s.blocks[i].data));
            forall j :: 0 <= j < |s.blocks| && j != i ==>
              BlockOk(c, q, s.blocks[j]) && Separate(c, g, s.blocks[j])
  {
    var q := q0.(mem := Store(q0.mem, newp, s.blocks[i].data));
    forall j | 0 <= j < |s.blocks| && j != i
      ensures BlockOk(c, q, s.blocks[j]) && Separate(c, g, s.blocks[j])
    {
      assert BlockOk(c, s.pool, s.blocks[j]);
      CopyOther(c, s.pool, q0, q, newp, n, s.blocks[i].data, s.blocks[j]);
    }
  }

  /** What copying into newly allocated memory leaves behind. */
  lemma CopiedRegrows(c: Config, s: Client, i: nat, q0: Pool, newp: nat, incr: nat, n: nat)
    requires WideConfig(c) && Inv(c, s) && i < |s.blocks| && n == s.blocks[i].size + incr
    requires Handed(c, s.pool, q0, newp, n)
    requires forall j :: 0 <= j < |s.blocks| ==> LeftAlone(c, s.pool, q0, newp, n, s.blocks[j])
    ensures |s.blocks[i].data| <= n
    ensures var q := q0.(mem := Store(q0.mem, newp, s.blocks[i].data));
            Regrown(c, s, i, q, GrownBlock(c, s, i, q, newp, incr, q.cur))
  {
    var b, p := s.blocks[i], s.pool;
    assert BlockOk(c, p, b);
    var q := q0.(mem := Store(q0.mem, newp, b.data));
    var g := GrownBlock(c, s, i, q, newp, incr, q.cur);
    HandedBlock(c, p, q, newp, n, g);
    CopiedBytes(c, b, q0, newp, n);
    CopyOthers(c, s, i, q0, newp, n, g);
    CopyAboveMarks(c, s, q, newp, n, g);
  }

  lemma CopyAboveMarks(c: Config, s: Client, q: Pool, newp: nat, n: nat, g: Block)
    requires WideConfig(c) && Inv(c, s) && Handed(c, s.pool, q, newp, n)
    requires g.ptr == newp && g.home == q.cur
    ensures forall l :: 0 <= l < |s.marks| ==>
              Above(s.marks[l], g) && Grown(s.marks[l].saved, q.arenas)
  {
    forall l | 0 <= l < |s.marks|
      ensures Above(s.marks[l], g) && Grown(s.marks[l].saved, q.arenas)
    {
      assert MarkOk(c, s, s.marks[l]);
      HandedIsAbove(c, s, q, newp, n, s.marks[l], g);
    }
  }

  lemma CopyRegrows(c: Config, s: Client, i: nat, incr: nat, ans: Answer)
    requires WideConfig(c) && Inv(c, s) && Legal(c, s, Grow(i, incr, ans))
    requires GrowPath(c, s.pool, s.blocks[i].ptr, s.blocks[i].size, incr) == ByCopy
    requires var b := s.blocks[i];
             && CanGrow(c, s.pool, b.ptr, b.size, incr, b.home, ans)
             && ArenaPool.Grow(c, s.pool, b.ptr, b.size, incr, b.home, ans).1 != 0
    ensures var b := s.blocks[i];
            var (q, r) := ArenaPool.Grow(c, s.pool, b.ptr, b.size, incr, b.home, ans);
            && r + b.size + incr <= |q.mem|
            && Regrown(c, s, i, q, GrownBlock(c, s, i, q, r, incr, q.cur))
  {
    GrowByCopy(c, s.pool, s.blocks[i], incr, ans);
    CopyNeedsMemory(c, s, i, incr, ans);
    CopyRegrowsAlloc(c, s, i, incr, s.blocks[i].size + incr, ans);
  }

  lemma CopyRegrowsAlloc(c: Config, s: Client, i: nat, incr: nat, n: nat, ans: Answer)
    requires WideConfig(c) && Inv(c, s) && i < |s.blocks| && n == s.blocks[i].size + incr
    requires n > 0 && AlignUp(n, c.align) < c.word
    requires AnswerFits(s.pool, ans, Gross(c, AlignUp(n, c.align)))
    requires Fresh(c, s.pool, ans, Gross(c, AlignUp(n, c.align)), -1)
    requires Alloc(c, s.pool, n, ans).1 != 0
    ensures var b := s.blocks[i];
            var (q0, newp) := Alloc(c, s.pool, n, ans);
            && b.ptr + b.size <= |q0.mem| && q0.mem[b.ptr..b.ptr + b.size] == b.data
            && newp + n <= |q0.mem| && |b.data| <= n
            && var q := q0.(mem := Store(q0.mem, newp, b.data));
            Regrown(c, s, i, q, GrownBlock(c, s, i, q, newp, incr, q.cur))
  {
    var (q0, newp) := Alloc(c, s.pool, n, ans);
    assert BlockOk(c, s.pool, s.blocks[i]);
    AllocHands(c, s.pool, n, ans);
    CopyLeavesBlocks(c, s, n, ans);
    CopiedRegrows(c, s, i, q0, newp, incr, n);
  }

  lemma GrowByCopy(c: Config, p: Pool, b: Block, incr: nat, ans: Answer)
    requires c.word > 0 && c.align > 0 && c.ptrAlign > 0
    requires CanGrow(c, p, b.ptr, b.size, incr, b.home, ans)
    requires GrowPath(c, p, b.ptr, b.size, incr) == ByCopy
    ensures var (q0, newp) := Alloc(c, p, b.size + incr, ans);
            ArenaPool.Grow(c, p, b.ptr, b.size, incr, b.home, ans)
            == if newp == 0 then (q0, 0)
               else (q0.(mem := Store(q0.mem, newp, q0.mem[b.ptr..b.ptr + b.size])), newp)
  {
  }

  lemma CopyLeavesBlocks(c: Config, s: Client, n: nat, ans: Answer)
    requires WideConfig(c) && Inv(c, s) && n > 0 && AlignUp(n, c.align) < c.word
    requires AnswerFits(s.pool, ans, Gross(c, AlignUp(n, c.align)))
    requires Fresh(c, s.pool, ans, Gross(c, AlignUp(n, c.align)), -1)
    requires Alloc(c, s.pool, n, ans).1 != 0
    ensures var (q0, newp) := Alloc(c, s.pool, n, ans);
            forall j :: 0 <= j < |s.blocks| ==> LeftAlone(c, s.pool, q0, newp, n, s.blocks[j])
  {
    forall j | 0 <= j < |s.blocks|
      ensures var (q0, newp) := Alloc(c, s.pool, n, ans);
              LeftAlone(c, s.pool, q0, newp, n, s.blocks[j])
    {
      assert BlockOk(c, s.pool, s.blocks[j]);
      AllocateOldBlock(c, s.pool, n, ans, s.blocks[j]);
    }
  }

  // -- by realloc

  /** The arena that JS_ArenaRealloc works on was added after every mark was taken. */
  lemma ReallocAboveMarks(c: Config, s: Client, i: nat, m: Mark)
    requires WideConfig(c) && Inv(c, s) && i < |s.blocks| && MarkOk(c, s, m)
    requires m.nblocks <= i
    requires s.blocks[i].ptr == s.pool.arenas[s.blocks[i].home].base
    requires s.blocks[i].home < |s.pool.arenas|
    ensures s.blocks[i].home >= |m.saved|
  {
    var b, n := s.blocks[i], |m.saved| - 1;
    assert BlockOk(c, s.pool, b) && Above(m, b);
    GrownArenas(m.saved, s.pool.arenas, n);
    if n > 0 { assert ArenaOk(c, m.saved, n); }
  }

  lemma RelinkedKeepsGrown(c: Config, saved: seq<Arena>, arenas: seq<Arena>, k: nat, a: Arena)
    requires Grown(saved, arenas) && |saved| <= k < |arenas|
    ensures Grown(saved, Relinked(c, arenas, k, a.at)[k := a])
  {
  }

  lemma MovedArenaKeeps(mem: seq<Byte>, a: Arena, size: nat, gross: nat, ans: Answer, base: nat)
    requires ans.at != 0 && MoveFits(a, size, gross, ans, base, |mem|)
    requires HasRoom(a, size, gross, ans, base)
    ensures MovedArena(mem, a, size, gross, ans, base)[base..base + size]
            == mem[a.base..a.base + size]
  {
    MovedKeepsBytes(mem, a.at, a.limit - a.at, ans.fill, ans.at, a.base - a.at, base - ans.at,
                    size);
  }

  lemma MovedArenaElsewhere(mem: seq<Byte>, a: Arena, size: nat, gross: nat, ans: Answer,
                            base: nat, lo: nat, hi: nat)
    requires ans.at != 0 && MoveFits(a, size, gross, ans, base, |mem|)
    requires HasRoom(a, size, gross, ans, base)
    requires lo <= hi <= |mem| && (hi <= ans.at || ans.at + gross <= lo)
    ensures MovedArena(mem, a, size, gross, ans, base)[lo..hi] == mem[lo..hi]
  {
    MovedElsewhere(mem, a.at, a.limit - a.at, ans.fill, ans.at, a.base - a.at, base - ans.at,
                   size, lo, hi);
  }

  /** The pool after JS_ArenaRealloc has given the block `b` a new place in its arena. */
  ghost predicate Remade(c: Config, p: Pool, q: Pool, b: Block, incr: nat)
    requires c.align > 0 && c.ptrAlign > 0
  {
    && PoolOk(c, p) && PoolOk(c, q) && Budget(q) == Budget(p)
    && 1 <= b.home < |p.arenas| == |q.arenas|
    && var a := q.arenas[b.home];
    && q.arenas == Relinked(c, p.arenas, b.home, a.at)[b.home := a]
    && Big(c, a) && a.avail == a.base + AlignUp(b.size + incr, c.align)
    && ClearOfAll(c, p.arenas, a.at, a.limit, b.home)
    && a.base + b.size <= |q.mem| && q.mem[a.base..a.base + b.size] == b.data
    && forall lo, hi :: 0 <= lo <= hi <= |p.mem| && (hi <= a.at || a.limit <= lo) ==>
         SameBytes(p, q, lo, hi)
  }

  lemma ReallocRemakes(c: Config, p: Pool, b: Block, incr: nat, ans: Answer)
    requires WideConfig(c) && BlockOk(c, p, b)
    requires ReallocReady(c, p, b.ptr, b.size, incr, b.home, ans)
    ensures ReallocFits(c, p, b.size, incr, b.home, ans)
    ensures var (q, r) := Realloc(c, p, b.ptr, b.size, incr, b.home, ans);
            if r == 0 then q == p else Remade(c, p, q, b, incr) && r == q.arenas[b.home].base
  {
    ReallocIsDefined(c, p, b.ptr, b.size, incr, b.home, ans);
    ReallocKeepsOk(c, p, b.ptr, b.size, incr, b.home, ans);
    RemakesArena(c, p, b, incr, ans);
    ReallocBytes(c, p, b, incr, ans);
    ReallocQuiet(c, p, b, incr, ans);
  }

  /** The arena that a realloc leaves. */
  lemma RemakesArena(c: Config, p: Pool, b: Block, incr: nat, ans: Answer)
    requires WideConfig(c) && ReallocReady(c, p, b.ptr, b.size, incr, b.home, ans)
    ensures ReallocFits(c, p, b.size, incr, b.home, ans)
    ensures var (q, r) := Realloc(c, p, b.ptr, b.size, incr, b.home, ans);
            if r == 0 then q == p
            else
              && |q.arenas| == |p.arenas| && |q.mem| == |p.mem|
              && var a := q.arenas[b.home];
              && q.arenas == Relinked(c, p.arenas, b.home, a.at)[b.home := a]
              && Big(c, a) && a.avail == a.base + AlignUp(b.size + incr, c.align)
              && ClearOfAll(c, p.arenas, a.at, a.limit, b.home) && r == a.base
  {
    ReallocIsDefined(c, p, b.ptr, b.size, incr, b.home, ans);
    ReallocShape(c, p, b.ptr, b.size, incr, b.home, ans);
    ReallocPlace(c, p, b, incr, ans);
  }

  lemma ReallocQuiet(c: Config, p: Pool, b: Block, incr: nat, ans: Answer)
    requires WideConfig(c) && 1 <= b.home < |p.arenas|
    requires Located(c, p, b.ptr, b.size, b.home)
    requires ReallocFits(c, p, b.size, incr, b.home, ans)
    requires Roomy(c, p, b.size, incr, b.home, ans)
    ensures var (q, r) := Realloc(c, p, b.ptr, b.size, incr, b.home, ans);
            r != 0 ==>
              && |q.arenas| == |p.arenas|
              && var a := q.arenas[b.home];
              forall lo, hi :: 0 <= lo <= hi <= |p.mem| && (hi <= a.at || a.limit <= lo) ==>
                SameBytes(p, q, lo, hi)
  {
    ReallocPlace(c, p, b, incr, ans);
    var (q, r) := Realloc(c, p, b.ptr, b.size, incr, b.home, ans);
    if r != 0 {
      var a := q.arenas[b.home];
      forall lo, hi | 0 <= lo <= hi <= |p.mem| && (hi <= a.at || a.limit <= lo)
        ensures SameBytes(p, q, lo, hi)
      {
        MovedArenaElsewhere(p.mem, p.arenas[b.home], b.size, ReallocGross(c, b.size, incr), ans,
                            NewBase(c, ans.at), lo, hi);
      }
    }
  }

  lemma ReallocPlace(c: Config, p: Pool, b: Block, incr: nat, ans: Answer)
    requires WideConfig(c) && 1 <= b.home < |p.arenas|
    requires Located(c, p, b.ptr, b.size, b.home)
    requires ReallocFits(c, p, b.size, incr, b.home, ans)
    ensures var (q, r) := Realloc(c, p, b.ptr, b.size, incr, b.home, ans);
            && (r == 0 ==> q == p)
            && (r != 0 ==>
                  && ans.at != 0 && |q.arenas| == |p.arenas| && |q.mem| == |p.mem|
                  && q.arenas[b.home]
                     == GrownArena(c, ans.at, b.size, incr, p.arenas[b.home - 1].at)
                  && q.arenas[b.home].base == r
                  && q.mem == ReallocMem(c, p, b.size, incr, b.home, ans))
  {
    BigBase(c, ans.at);
  }

  lemma ReallocBytes(c: Config, p: Pool, b: Block, incr: nat, ans: Answer)
    requires WideConfig(c) && BlockOk(c, p, b)
    requires Located(c, p, b.ptr, b.size, b.home)
    requires ReallocFits(c, p, b.size, incr, b.home, ans)
    requires Roomy(c, p, b.size, incr, b.home, ans)
    ensures var (q, r) := Realloc(c, p, b.ptr, b.size, incr, b.home, ans);
            r != 0 ==> r + b.size <= |q.mem| && q.mem[r..r + b.size] == b.data
  {
    ReallocPlace(c, p, b, incr, ans);
    if Realloc(c, p, b.ptr, b.size, incr, b.home, ans).1 != 0 {
      MovedArenaKeeps(p.mem, p.arenas[b.home], b.size, ReallocGross(c, b.size, incr), ans,
                      NewBase(c, ans.at));
    }
  }

  lemma RemadeBlock(c: Config, p: Pool, q: Pool, b: Block, incr: nat)
    requires WideConfig(c) && BlockOk(c, p, b) && Remade(c, p, q, b, incr)
    ensures var r := q.arenas[b.home].base;
            && r + b.size + incr <= |q.mem|
            && var g := Block(r, b.size + incr, b.home, q.mem[r..r + b.size + incr]);
            && BlockOk(c, q, g) && g.data[..b.size] == b.data
  {
    var r := q.arenas[b.home].base;
    assert ArenaOk(c, q.arenas, b.home);
    UpFacts(b.size + incr, c.align);
    SliceOfSlice(q.mem, r, r + b.size + incr, 0, b.size);
  }

  /** A block of an arena that has kept its place, and whose bytes are untouched. */
  lemma BlockSame(c: Config, p: Pool, q: Pool, d: Block)
    requires c.align > 0 && c.ptrAlign > 0 && BlockOk(c, p, d) && d.home < |q.arenas|
    requires q.arenas[d.home].(hdr := None) == p.arenas[d.home].(hdr := None)
    requires d.ptr + d.size <= |p.mem| ==> SameBytes(p, q, d.ptr, d.ptr + d.size)
    ensures BlockOk(c, q, d)
  {
  }

  lemma RemadeOther(c: Config, p: Pool, q: Pool, b: Block, incr: nat, g: Block, d: Block)
    requires WideConfig(c) && BlockOk(c, p, b) && BlockOk(c, p, d) && Separate(c, b, d)
    requires b.ptr == p.arenas[b.home].base
    requires b.ptr + Extent(c, b) == p.arenas[b.home].avail
    requires Remade(c, p, q, b, incr) && BlockOk(c, q, g) && g.home == b.home
    ensures BlockOk(c, q, d) && Separate(c, g, d)
  {
    var a := q.arenas[b.home];
    BlockBounds(c, p, b);
    BlockBounds(c, p, d);
    BlockBounds(c, q, g);
    assert d.home != b.home;
    assert Clear(c, p.arenas, d.home, a.at, a.limit);
    BlockSame(c, p, q, d);
  }

  lemma ReallocRegrows(c: Config, s: Client, i: nat, incr: nat, ans: Answer)
    requires WideConfig(c) && Inv(c, s) && Legal(c, s, Grow(i, incr, ans))
    requires GrowPath(c, s.pool, s.blocks[i].ptr, s.blocks[i].size, incr) == ByRealloc
    requires var b := s.blocks[i];
             && CanGrow(c, s.pool, b.ptr, b.size, incr, b.home, ans)
             && ReallocReady(c, s.pool, b.ptr, b.size, incr, b.home, ans)
             && ArenaPool.Grow(c, s.pool, b.ptr, b.size, incr, b.home, ans).1 != 0
    ensures var b := s.blocks[i];
            var (q, r) := ArenaPool.Grow(c, s.pool, b.ptr, b.size, incr, b.home, ans);
            && r + b.size + incr <= |q.mem|
            && Regrown(c, s, i, q, GrownBlock(c, s, i, q, r, incr, b.home))
  {
    var b, p := s.blocks[i], s.pool;
    assert BlockOk(c, p, b);
    ReallocTarget(c, p, b, incr);
    ReallocRemakes(c, p, b, incr, ans);
    var q := ArenaPool.Grow(c, p, b.ptr, b.size, incr, b.home, ans).0;
    RemadeRegrows(c, s, i, q, incr);
  }

  lemma RemadeOthers(c: Config, s: Client, i: nat, q: Pool, incr: nat, g: Block)
    requires WideConfig(c) && Inv(c, s) && i < |s.blocks|
    requires Remade(c, s.pool, q, s.blocks[i], incr) && BlockOk(c, q, g)
    requires g.home == s.blocks[i].home
    requires s.blocks[i].ptr == s.pool.arenas[s.blocks[i].home].base
    requires s.blocks[i].ptr + Extent(c, s.blocks[i]) == s.pool.arenas[s.blocks[i].home].avail
    ensures forall j :: 0 <= j < |s.blocks| && j != i ==>
              BlockOk(c, q, s.blocks[j]) && Separate(c, g, s.blocks[j])
  {
    var b := s.blocks[i];
    forall j | 0 <= j < |s.blocks| && j != i
      ensures BlockOk(c, q, s.blocks[j]) && Separate(c, g, s.blocks[j])
    {
      assert BlockOk(c, s.pool, b) && BlockOk(c, s.pool, s.blocks[j]);
      assert Separate(c, s.blocks[if i < j then i else j], s.blocks[if i < j then j else i]);
      RemadeOther(c, s.pool, q, b, incr, g, s.blocks[j]);
    }
  }

  lemma RemadeRegrows(c: Config, s: Client, i: nat, q: Pool, incr: nat)
    requires WideConfig(c) && Inv(c, s) && i < |s.blocks|
    requires forall l :: 0 <= l < |s.marks| ==> s.marks[l].nblocks <= i
    requires var b := s.blocks[i];
             && Remade(c, s.pool, q, b, incr) && b.ptr == s.pool.arenas[b.home].base
             && b.ptr + Extent(c, b) == s.pool.arenas[b.home].avail
    ensures var b := s.blocks[i];
            var r := q.arenas[b.home].base;
            && r + b.size + incr <= |q.mem|
            && Regrown(c, s, i, q, GrownBlock(c, s, i, q, r, incr, b.home))
  {
    var b := s.blocks[i];
    assert BlockOk(c, s.pool, b);
    RemadeBlock(c, s.pool, q, b, incr);
    RemadeOthers(c, s, i, q, incr, GrownBlock(c, s, i, q, q.arenas[b.home].base, incr, b.home));
    RemadeBelowMarks(c, s, i, q, incr);
  }

  lemma RemadeBelowMarks(c: Config, s: Client, i: nat, q: Pool, incr: nat)
    requires WideConfig(c) && Inv(c, s) && i < |s.blocks|
    requires forall l :: 0 <= l < |s.marks| ==> s.marks[l].nblocks <= i
    requires Remade(c, s.pool, q, s.blocks[i], incr)
    requires s.blocks[i].ptr == s.pool.arenas[s.blocks[i].home].base
    ensures forall l, g: Block :: 0 <= l < |s.marks| && g.home == s.blocks[i].home ==>
              Above(s.marks[l], g) && Grown(s.marks[l].saved, q.arenas)
  {
    forall l, g: Block | 0 <= l < |s.marks| && g.home == s.blocks[i].home
      ensures Above(s.marks[l], g) && Grown(s.marks[l].saved, q.arenas)
    {
      assert MarkOk(c, s, s.marks[l]);
      ReallocAboveMarks(c, s, i, s.marks[l]);
      var home := s.blocks[i].home;
      RelinkedKeepsGrown(c, s.marks[l].saved, s.pool.arenas, home, q.arenas[home]);
    }
  }

  // -- all three

  /** The arena that holds the i-th block after a growth that led to the pool `q`. */
  function HomeAfterGrow(c: Config, s: Client, i: nat, incr: nat, q: Pool): nat
    requires c.align > 0 && i < |s.blocks| && s.pool.cur < |s.pool.arenas|
  {
    var b := s.blocks[i];
    if GrowPath(c, s.pool, b.ptr, b.size, incr) == ByCopy then q.cur else b.home
  }

  lemma GrowRegrows(c: Config, s: Client, i: nat, incr: nat, ans: Answer)
    requires WideConfig(c) && Inv(c, s) && Legal(c, s, Grow(i, incr, ans))
    ensures var b := s.blocks[i];
            && CanGrow(c, s.pool, b.ptr, b.size, incr, b.home, ans)
            && var (q, r) := ArenaPool.Grow(c, s.pool, b.ptr, b.size, incr, b.home, ans);
            if r == 0 then q == s.pool
            else
              && r + b.size + incr <= |q.mem|
              && Regrown(c, s, i, q,
                         GrownBlock(c, s, i, q, r, incr, HomeAfterGrow(c, s, i, incr, q)))
  {
    var b := s.blocks[i];
    GrowIsReady(c, s, i, incr, ans);
    var r := ArenaPool.Grow(c, s.pool, b.ptr, b.size, incr, b.home, ans).1;
    match GrowPath(c, s.pool, b.ptr, b.size, incr)
    case InPlace =>
      assert BlockOk(c, s.pool, b);
      BlockBounds(c, s.pool, b);
      InPlaceRegrows(c, s, i, incr, ans);
    case ByRealloc =>
      if r != 0 { ReallocRegrows(c, s, i, incr, ans); } else { RefusedRealloc(c, s, i, incr, ans); }
    case ByCopy =>
      if r != 0 { CopyRegrows(c, s, i, incr, ans); } else { RefusedCopy(c, s, i, incr, ans); }
  }

  lemma RefusedRealloc(c: Config, s: Client, i: nat, incr: nat, ans: Answer)
    requires WideConfig(c) && Inv(c, s) && Legal(c, s, Grow(i, incr, ans))
    requires GrowPath(c, s.pool, s.blocks[i].ptr, s.blocks[i].size, incr) == ByRealloc
    requires var b := s.blocks[i];
             && CanGrow(c, s.pool, b.ptr, b.size, incr, b.home, ans)
             && ArenaPool.Grow(c, s.pool, b.ptr, b.size, incr, b.home, ans).1 == 0
    ensures var b := s.blocks[i];
            ArenaPool.Grow(c, s.pool, b.ptr, b.size, incr, b.home, ans).0 == s.pool
  {
    var b := s.blocks[i];
    GrowIsReady(c, s, i, incr, ans);
    ReallocShape(c, s.pool, b.ptr, b.size, incr, b.home, ans);
  }

  lemma RefusedCopy(c: Config, s: Client, i: nat, incr: nat, ans: Answer)
    requires WideConfig(c) && Inv(c, s) && Legal(c, s, Grow(i, incr, ans))
    requires GrowPath(c, s.pool, s.blocks[i].ptr, s.blocks[i].size, incr) == ByCopy
    requires var b := s.blocks[i];
             && CanGrow(c, s.pool, b.ptr, b.size, incr, b.home, ans)
             && ArenaPool.Grow(c, s.pool, b.ptr, b.size, incr, b.home, ans).1 == 0
    ensures var b := s.blocks[i];
            ArenaPool.Grow(c, s.pool, b.ptr, b.size, incr, b.home, ans).0 == s.pool
  {
    GrowByCopy(c, s.pool, s.blocks[i], incr, ans);
    CopyNeedsMemory(c, s, i, incr, ans);
    AllocHands(c, s.pool, s.blocks[i].size + incr, ans);
  }

  lemma CopyNeedsMemory(c: Config, s: Client, i: nat, incr: nat, ans: Answer)
    requires WideConfig(c) && Inv(c, s) && Legal(c, s, Grow(i, incr, ans))
    requires GrowPath(c, s.pool, s.blocks[i].ptr, s.blocks[i].size, incr) == ByCopy
    ensures var n := s.blocks[i].size + incr;
            && n > 0 && AlignUp(n, c.align) < c.word
            && AnswerFits(s.pool, ans, Gross(c, AlignUp(n, c.align)))
            && Fresh(c, s.pool, ans, Gross(c, AlignUp(n, c.align)), -1)
  {
    assert BlockOk(c, s.pool, s.blocks[i]);
  }

  function AfterGrow(c: Config, s: Client, i: nat, incr: nat, ans: Answer): Client
    requires WideConfig(c) && Inv(c, s) && Legal(c, s, Grow(i, incr, ans))
  {
    GrowRegrows(c, s, i, incr, ans);
    var b := s.blocks[i];
    var (q, r) := ArenaPool.Grow(c, s.pool, b.ptr, b.size, incr, b.home, ans);
    if r == 0 then s
    else
      var g := GrownBlock(c, s, i, q, r, incr, HomeAfterGrow(c, s, i, incr, q));
      s.(pool := q, blocks := s.blocks[i := g])
  }

  /** Growing keeps the invariant, and the bytes the block had. */
  lemma GrowKeepsInv(c: Config, s: Client, i: nat, incr: nat, ans: Answer)
    requires WideConfig(c) && Inv(c, s) && Legal(c, s, Grow(i, incr, ans))
    ensures var t := AfterGrow(c, s, i, incr, ans);
            && Inv(c, t) && Budget(t.pool) == Budget(s.pool)
            && |t.blocks| == |s.blocks| && t.marks == s.marks
            && (forall j :: 0 <= j < |s.blocks| && j != i ==> t.blocks[j] == s.blocks[j])
            && var n := s.blocks[i].size;
            t == s || (t.blocks[i].size == n + incr && t.blocks[i].data[..n] == s.blocks[i].data)
  {
    GrowRegrows(c, s, i, incr, ans);
    var b := s.blocks[i];
    var (q, r) := ArenaPool.Grow(c, s.pool, b.ptr, b.size, incr, b.home, ans);
    if r != 0 {
      var g := GrownBlock(c, s, i, q, r, incr, HomeAfterGrow(c, s, i, incr, q));
      RegrownKeepsInv(c, s, i, q, g);
    }
  }

  // ---- Runs ------------------------------------------------------------------------------

  function Exec(c: Config, s: Client, op: Op): Client
    requires WideConfig(c) && Inv(c, s) && Legal(c, s, op)
  {
    match op
    case Allocate(nb, ans) => AfterAllocate(c, s, nb, ans)
    case Grow(i, incr, ans) => AfterGrow(c, s, i, incr, ans)
    case Write(i, data) => AfterWrite(c, s, i, data)
    case TakeMark => AfterMark(s)
    case ReleaseTo(level) => AfterRelease(c, s, level)
    case FreeAll => AfterFree(c, s)
  }

  lemma ExecKeepsInv(c: Config, s: Client, op: Op)
    requires WideConfig(c) && Inv(c, s) && Legal(c, s, op)
    ensures Inv(c, Exec(c, s, op)) && Budget(Exec(c, s, op).pool) == Budget(s.pool)
  {
    match op
    case Allocate(nb, ans) => AllocateKeepsInv(c, s, nb, ans);
    case Grow(i, incr, ans) => GrowKeepsInv(c, s, i, incr, ans);
    case Write(i, data) => WriteKeepsInv(c, s, i, data);
    case TakeMark => MarkKeepsInv(c, s);
    case ReleaseTo(level) => ReleaseKeepsInv(c, s, level); ReleasedPool(c, s, level);
    case FreeAll => FreeKeepsInv(c, s);
  }

  /** Every operation of `ops` is one the client may take when its turn comes. */
  ghost predicate LegalRun(c: Config, s: Client, ops: seq<Op>)
    requires WideConfig(c) && Inv(c, s)
    decreases |ops|
  {
    ops == [] || (Legal(c, s, ops[0]) && (ExecKeepsInv(c, s, ops[0]);
                                          LegalRun(c, Exec(c, s, ops[0]), ops[1..])))
  }

  ghost function Run(c: Config, s: Client, ops: seq<Op>): Client
    requires WideConfig(c) && Inv(c, s) && LegalRun(c, s, ops)
    decreases |ops|
  {
    if ops == [] then s
    else ExecKeepsInv(c, s, ops[0]); Run(c, Exec(c, s, ops[0]), ops[1..])
  }

  lemma {:induction false} RunKeepsInv(c: Config, s: Client, ops: seq<Op>)
    requires WideConfig(c) && Inv(c, s) && LegalRun(c, s, ops)
    ensures Inv(c, Run(c, s, ops)) && Budget(Run(c, s, ops).pool) == Budget(s.pool)
    decreases |ops|
  {
    if ops != [] {
      ExecKeepsInv(c, s, ops[0]);
      RunKeepsInv(c, Exec(c, s, ops[0]), ops[1..]);
    }
  }

  /** A client of a pool just initialised at `at`. */
  function Start(c: Config, at: nat, quota: Option<nat>, mem: seq<Byte>): Client
    requires c.align > 0
  {
    Client(Init(c, at, quota, mem), [], [])
  }

  lemma StartIsInOrder(c: Config, at: nat, quota: Option<nat>, mem: seq<Byte>)
    requires WideConfig(c) && 0 < at && at + c.poolSize < c.word && |mem| == c.word
    ensures Inv(c, Start(c, at, quota, mem))
  {
    InitOk(c, at, quota, mem);
  }

  /** After every run: the bump pointer of each arena lies between its base and its limit, arenas
      and live blocks are aligned and do not overlap, each block lies in its arena and has the bytes
      its owner wrote, the header of an oversized arena holds the link to it, the current arena is
      the last one, and the quota and the sizes of the arenas add up to the initial quota. */
  lemma PoolIsSafe(c: Config, at: nat, quota: Option<nat>, mem: seq<Byte>, ops: seq<Op>)
    requires WideConfig(c) && 0 < at && at + c.poolSize < c.word && |mem| == c.word
    requires Inv(c, Start(c, at, quota, mem)) && LegalRun(c, Start(c, at, quota, mem), ops)
    ensures var s := Run(c, Start(c, at, quota, mem), ops);
            var arenas := s.pool.arenas;
            && |arenas| > 0 && s.pool.cur == |arenas| - 1
            && (forall k :: 0 <= k < |arenas| ==>
                  && arenas[k].base <= arenas[k].avail <= arenas[k].limit
                  && Aligned(arenas[k].base, c.align) && Aligned(arenas[k].avail, c.align))
            && (forall k :: 1 <= k < |arenas| && arenas[k].avail - arenas[k].base > c.arenasize ==>
                  arenas[k].hdr == Some(arenas[k - 1].at))
            && (forall i :: 0 <= i < |s.blocks| ==>
                  var b := s.blocks[i];
                  && b.home < |arenas| && Aligned(b.ptr, c.align)
                  && arenas[b.home].base <= b.ptr <= b.ptr + b.size <= arenas[b.home].avail
                  && arenas[b.home].avail <= |s.pool.mem|
                  && s.pool.mem[b.ptr..b.ptr + b.size] == b.data)
            && (forall i, j :: 0 <= i < j < |s.blocks| ==>
                  var x, y := s.blocks[i], s.blocks[j];
                  x.ptr + x.size <= y.ptr || y.ptr + y.size <= x.ptr)
            && (if quota.Some? then
                  s.pool.quota.Some? && s.pool.quota.value + Sizes(arenas, 1) == quota.value
                else s.pool.quota.None?)
  {
    RunKeepsInv(c, Start(c, at, quota, mem), ops);
    var s := Run(c, Start(c, at, quota, mem), ops);
    ArenasInOrder(c, s.pool);
    BlocksInOrder(c, s);
  }

  lemma ArenasInOrder(c: Config, p: Pool)
    requires WideConfig(c) && PoolOk(c, p)
    ensures forall k :: 0 <= k < |p.arenas| ==>
              && p.arenas[k].base <= p.arenas[k].avail <= p.arenas[k].limit
              && Aligned(p.arenas[k].base, c.align) && Aligned(p.arenas[k].avail, c.align)
    ensures forall k :: 1 <= k < |p.arenas| && Big(c, p.arenas[k]) ==>
              p.arenas[k].hdr == Some(p.arenas[k - 1].at)
  {
    UpFacts(p.arenas[0].at + c.structSize, c.align);
    forall k | 1 <= k < |p.arenas|
      ensures p.arenas[k].base <= p.arenas[k].avail <= p.arenas[k].limit
      ensures Aligned(p.arenas[k].base, c.align) && Aligned(p.arenas[k].avail, c.align)
      ensures Big(c, p.arenas[k]) ==> p.arenas[k].hdr == Some(p.arenas[k - 1].at)
    {
      assert ArenaOk(c, p.arenas, k);
    }
  }

  lemma BlocksInOrder(c: Config, s: Client)
    requires WideConfig(c) && Inv(c, s)
    ensures forall i :: 0 <= i < |s.blocks| ==>
              var b := s.blocks[i];
              && b.home < |s.pool.arenas| && Aligned(b.ptr, c.align)
              && s.pool.arenas[b.home].base <= b.ptr
              && b.ptr <= b.ptr + b.size <= s.pool.arenas[b.home].avail
              && s.pool.arenas[b.home].avail <= |s.pool.mem|
              && s.pool.mem[b.ptr..b.ptr + b.size] == b.data
    ensures forall i, j :: 0 <= i < j < |s.blocks| ==>
              var x, y := s.blocks[i], s.blocks[j];
              x.ptr + x.size <= y.ptr || y.ptr + y.size <= x.ptr
  {
    forall i | 0 <= i < |s.blocks|
      ensures BlockOk(c, s.pool, s.blocks[i]) && s.blocks[i].size <= Extent(c, s.blocks[i])
      ensures s.pool.arenas[s.blocks[i].home].avail <= |s.pool.mem|
    {
      assert BlockOk(c, s.pool, s.blocks[i]);
      UpFacts(s.blocks[i].size, c.align);
      BlockBounds(c, s.pool, s.blocks[i]);
      DataRange(c, s.pool.arenas, s.blocks[i].home);
    }
    forall i, j | 0 <= i < j < |s.blocks|
      ensures Separate(c, s.blocks[i], s.blocks[j])
    {
    }
  }

  // ---- Mark and release ------------------------------------------------------------------

  /** An operation that releases neither to the mark of this level nor to an older one. */
  predicate Spares(op: Op, level: nat) {
    match op
    case ReleaseTo(l) => l > level
    case FreeAll => false
    case _ => true
  }

  predicate AllSpare(ops: seq<Op>, level: nat) {
    forall k :: 0 <= k < |ops| ==> Spares(ops[k], level)
  }

  predicate Writes(op: Op, j: nat) { op.Write? && op.i == j }

  predicate Unwritten(ops: seq<Op>, j: nat) {
    forall k :: 0 <= k < |ops| ==> !Writes(ops[k], j)
  }

  function Place(b: Block): (nat, nat, nat) { (b.ptr, b.size, b.home) }

  /** The blocks older than the mark are where they were, and those the client has not written to
      have the same bytes. */
  predicate OlderKept(s: Client, t: Client, level: nat, ops: seq<Op>) {
    && level < |s.marks| && level < |t.marks| && t.marks[..level + 1] == s.marks[..level + 1]
    && var n := s.marks[level].nblocks;
    && n <= |s.blocks| && n <= |t.blocks|
    && (forall j :: 0 <= j < n ==> Place(t.blocks[j]) == Place(s.blocks[j]))
    && (forall j :: 0 <= j < n && Unwritten(ops, j) ==> t.blocks[j] == s.blocks[j])
  }

  lemma GrowKeepsOlder(c: Config, s: Client, op: Op, level: nat)
    requires WideConfig(c) && Inv(c, s) && Legal(c, s, op) && op.Grow? && level < |s.marks|
    ensures OlderKept(s, Exec(c, s, op), level, [op])
  {
    assert MarkOk(c, s, s.marks[level]);
    GrowKeepsInv(c, s, op.i, op.incr, op.ans);
  }

  lemma ReleaseKeepsOlder(c: Config, s: Client, l: nat, level: nat)
    requires WideConfig(c) && Inv(c, s) && level < l < |s.marks|
    ensures OlderKept(s, AfterRelease(c, s, l), level, [ReleaseTo(l)])
  {
    assert MarkOk(c, s, s.marks[level]) && MarkOk(c, s, s.marks[l]);
    assert Nested(s.marks[level], s.marks[l]);
  }

  lemma StepKeepsOlder(c: Config, s: Client, op: Op, level: nat)
    requires WideConfig(c) && Inv(c, s) && Legal(c, s, op) && level < |s.marks|
    requires Spares(op, level)
    ensures OlderKept(s, Exec(c, s, op), level, [op])
  {
    assert MarkOk(c, s, s.marks[level]);
    match op
    case Allocate(nb, ans) =>
    case Grow(i, incr, ans) => GrowKeepsOlder(c, s, op, level);
    case Write(i, data) => assert Writes([op][0], i);
    case TakeMark =>
    case ReleaseTo(l) => ReleaseKeepsOlder(c, s, l, level);
    case FreeAll =>
  }

  lemma OlderKeptChain(r: Client, s: Client, t: Client, level: nat, op: Op, ops: seq<Op>)
    requires OlderKept(r, s, level, [op]) && OlderKept(s, t, level, ops)
    ensures OlderKept(r, t, level, [op] + ops)
  {
    assert s.marks[level] == s.marks[..level + 1][level];
    assert r.marks[level] == r.marks[..level + 1][level];
    var n := r.marks[level].nblocks;
    forall j | 0 <= j < n && Unwritten([op] + ops, j)
      ensures t.blocks[j] == r.blocks[j]
    {
      assert !Writes(([op] + ops)[0], j);
      forall k | 0 <= k < |ops|
        ensures !Writes(ops[k], j)
      {
        assert ops[k] == ([op] + ops)[k + 1];
      }
      assert Unwritten(ops, j) && Unwritten([op], j);
    }
  }

  lemma {:induction false} RunKeepsOlder(c: Config, s: Client, ops: seq<Op>, level: nat)
    requires WideConfig(c) && Inv(c, s) && LegalRun(c, s, ops) && level < |s.marks|
    requires AllSpare(ops, level)
    ensures OlderKept(s, Run(c, s, ops), level, ops)
    decreases |ops|
  {
    assert MarkOk(c, s, s.marks[level]);
    if ops != [] {
      assert Spares(ops[0], level);
      StepKeepsOlder(c, s, ops[0], level);
      ExecKeepsInv(c, s, ops[0]);
      var t := Exec(c, s, ops[0]);
      RunKeepsOlder(c, t, ops[1..], level);
      OlderKeptChain(s, t, Run(c, s, ops), level, ops[0], ops[1..]);
      assert [ops[0]] + ops[1..] == ops;
    }
  }

  /** A mark, then any operations that do not release it, then a release to it: the arenas with
      their bump pointers, the current arena, the quota and the marks are those of the moment
      before, and so are the live blocks, apart from the bytes the client wrote to them itself. */
  lemma MarkReleaseRestores(c: Config, s: Client, ops: seq<Op>)
    requires WideConfig(c) && Inv(c, s) && Inv(c, AfterMark(s))
    requires LegalRun(c, AfterMark(s), ops) && AllSpare(ops, |s.marks|)
    ensures var u := Run(c, AfterMark(s), ops);
            && Inv(c, u) && Legal(c, u, ReleaseTo(|s.marks|))
            && var t := Exec(c, u, ReleaseTo(|s.marks|));
            && t.pool.arenas == s.pool.arenas && t.pool.cur == s.pool.cur
            && t.pool.quota == s.pool.quota && t.marks == s.marks
            && |t.blocks| == |s.blocks|
            && (forall j :: 0 <= j < |s.blocks| ==> Place(t.blocks[j]) == Place(s.blocks[j]))
            && (forall j :: 0 <= j < |s.blocks| && Unwritten(ops, j) ==>
                  && t.blocks[j] == s.blocks[j]
                  && var b := s.blocks[j];
                  && b.ptr + b.size <= |t.pool.mem| && b.ptr + b.size <= |s.pool.mem|
                  && t.pool.mem[b.ptr..b.ptr + b.size] == s.pool.mem[b.ptr..b.ptr + b.size])
  {
    var u := Run(c, AfterMark(s), ops);
    RunKeepsOlder(c, AfterMark(s), ops, |s.marks|);
    RunKeepsInv(c, AfterMark(s), ops);
    OlderMark(AfterMark(s), u, |s.marks|, ops);
    ReleasedPool(c, u, |s.marks|);
    ReleaseKeepsInv(c, u, |s.marks|);
    var t := AfterRelease(c, u, |s.marks|);
    assert t.marks == s.marks && |t.blocks| == |s.blocks|;
    forall j | 0 <= j < |s.blocks|
      ensures Place(t.blocks[j]) == Place(s.blocks[j])
      ensures Unwritten(ops, j) ==> t.blocks[j] == s.blocks[j]
    {
      assert t.blocks[j] == u.blocks[j];
    }
    SameBlocksSameBytes(c, s, t);
  }

  lemma OlderMark(s: Client, u: Client, level: nat, ops: seq<Op>)
    requires OlderKept(s, u, level, ops) && |s.marks| == level + 1
    ensures u.marks[level] == s.marks[level] && u.marks[..level] == s.marks[..level]
  {
    assert u.marks[level] == u.marks[..level + 1][level];
    assert s.marks[level] == s.marks[..level + 1][level];
    assert u.marks[..level] == u.marks[..level + 1][..level];
    assert s.marks[..level] == s.marks[..level + 1][..level];
  }

  lemma SameBlocksSameBytes(c: Config, s: Client, t: Client)
    requires c.align > 0 && c.ptrAlign > 0 && BlocksOk(c, s) && BlocksOk(c, t)
    requires |s.blocks| == |t.blocks|
    ensures forall j :: 0 <= j < |s.blocks| && t.blocks[j] == s.blocks[j] ==>
              var b := s.blocks[j];
              && b.ptr + b.size <= |t.pool.mem| && b.ptr + b.size <= |s.pool.mem|
              && t.pool.mem[b.ptr..b.ptr + b.size] == s.pool.mem[b.ptr..b.ptr + b.size]
  {
    forall j | 0 <= j < |s.blocks|
      ensures BlockOk(c, s.pool, s.blocks[j]) && BlockOk(c, t.pool, t.blocks[j])
    {
    }
  }

  /** JS_FreeArenaPool gives the whole quota back. */
  lemma FreeReturnsQuota(c: Config, at: nat, quota: Option<nat>, mem: seq<Byte>, ops: seq<Op>)
    requires WideConfig(c) && 0 < at && at + c.poolSize < c.word && |mem| == c.word
    requires Inv(c, Start(c, at, quota, mem)) && LegalRun(c, Start(c, at, quota, mem), ops)
    ensures var s := Run(c, Start(c, at, quota, mem), ops);
            && Inv(c, s)
            && var p := AfterFree(c, s).pool;
            p.quota == quota && p.arenas == s.pool.arenas[..1] && p.cur == 0
  {
    RunKeepsInv(c, Start(c, at, quota, mem), ops);
    var s := Run(c, Start(c, at, quota, mem), ops);
    PoolIsSized(c, s.pool);
    FreePoolKeepsOk(c, s.pool);
  }
}
