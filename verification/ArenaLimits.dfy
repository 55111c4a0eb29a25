/** Where the promises of the arena pool end: for each condition on a run or a pool, what the code
    does when the condition does not hold. */
module ArenaLimits {
  import opened Common
  import opened ArenaMath
  import opened ArenaPool
  import opened ArenaInvariant
  import Runs = ArenaRuns

  // ---- The first block -------------------------------------------------------------------

  /** A new pool at `first` and an answer of malloc for `n` bytes, a multiple of the alignment. */
  ghost predicate FirstAsk(c: Config, first: nat, mem: seq<Byte>, n: nat, ans: Answer) {
    && ConfigOk(c) && 0 < first && first + c.poolSize < c.word && |mem| == c.word
    && 0 < n && Aligned(n, c.align) && HdrSize(c, n > c.arenasize) + Max(n, c.arenasize) < c.word
    && ans.at > 0 && |ans.fill| == Gross(c, n) && ans.at + Gross(c, n) < c.word
    && (first + c.poolSize <= ans.at || ans.at + Gross(c, n) <= first)
  }

  /** The pool of one block of `n` bytes, in the arena `a`. */
  function OneBlock(c: Config, first: nat, a: Arena, n: nat, mem: seq<Byte>): Pool
    requires c.align > 0
  {
    Pool(Init(c, first, None, mem).arenas + [a.(avail := a.base + n)], 1, None, mem)
  }

  lemma FirstBlock(c: Config, first: nat, mem: seq<Byte>, n: nat, ans: Answer)
    requires FirstAsk(c, first, mem, n, ans)
    ensures AlignUp(n, c.align) == n && Gross(c, n) >= 0
    ensures var a := NewArena(c, ans.at, n, first);
            Alloc(c, Init(c, first, None, mem), n, ans)
            == (OneBlock(c, first, a, n, Store(mem, ans.at, ans.fill)), a.base)
  {
    UpOfAligned(n, c.align);
    var p := Init(c, first, None, mem);
    var a := NewArena(c, ans.at, n, first);
    assert FirstFit(p.arenas, 0, n) == 1;
    assert (p.arenas + [a])[1 := a.(avail := a.base + n)] == p.arenas + [a.(avail := a.base + n)];
  }

  // ---- Alignment below that of a pointer -------------------------------------------------

  /** A machine whose structs are multiples of the pointer alignment, and a pool of a lesser
      alignment. */
  ghost predicate NarrowConfig(c: Config) {
    ConfigOk(c) && Aligned(c.structSize, c.ptrAlign) && c.align < c.ptrAlign
  }

  /** The base of an oversized arena for a struct at `at`. */
  function SlopBase(c: Config, at: nat): nat { at + c.structSize + c.ptrSize }

  lemma SlopBaseIs(c: Config, at: nat)
    requires NarrowConfig(c) && Aligned(at, c.ptrAlign)
    ensures HdrSize(c, true) == c.structSize + c.ptrSize + c.ptrAlign - 1
    ensures NewBase(c, at) == SlopBase(c, at)
  {
    var base := at + c.structSize + c.ptrSize;
    AlignedAdd(at, c.structSize, c.ptrAlign);
    AlignedAdd(at + c.structSize, c.ptrSize, c.ptrAlign);
    UpOfAligned(base, c.ptrAlign);
  }

  lemma Pow2Less(m: nat, p: nat)
    requires IsPow2(m) && IsPow2(p) && m < p
    ensures 2 * m <= p
  {
    Pow2Divides(m, p);
    AlignedMul(1, m);
    AlignedGap(m, p, m);
  }

  /** An oversized arena at `at` that holds `used` of the `n + ptrAlign - 1` bytes it has. */
  function SlopArena(c: Config, first: nat, at: nat, n: nat, used: nat): Arena {
    var base := SlopBase(c, at);
    Arena(at, base, base + Max(c.ptrAlign, 1) - 1 + n, base + used, Some(first))
  }

  function SlopPool(c: Config, first: nat, at: nat, n: nat, used: nat, mem: seq<Byte>): Pool
    requires c.align > 0
  {
    Pool(Init(c, first, None, mem).arenas + [SlopArena(c, first, at, n, used)], 1, None, mem)
  }

  lemma SlopFirst(c: Config, first: nat, mem: seq<Byte>, n: nat, ans: Answer)
    requires NarrowConfig(c) && FirstAsk(c, first, mem, n, ans)
    requires n > c.arenasize && Aligned(ans.at, c.ptrAlign)
    ensures AlignUp(n, c.align) == n
    ensures Alloc(c, Init(c, first, None, mem), n, ans)
            == (SlopPool(c, first, ans.at, n, n, Store(mem, ans.at, ans.fill)),
                SlopBase(c, ans.at))
  {
    FirstBlock(c, first, mem, n, ans);
    SlopBaseIs(c, ans.at);
  }

  /** The slop behind an oversized block is handed out to a second block. */
  lemma SlopIsHandedOut(c: Config, first: nat, at: nat, n: nat, mem: seq<Byte>)
    requires NarrowConfig(c)
    ensures AlignUp(c.align, c.align) == c.align
    ensures var p := SlopPool(c, first, at, n, n, mem);
            && AnswerFits(p, Answer(0, []), Gross(c, c.align))
            && Alloc(c, p, c.align, Answer(0, []))
               == (SlopPool(c, first, at, n, n + c.align, mem), SlopBase(c, at) + n)
  {
    AlignedMul(1, c.align);
    UpOfAligned(c.align, c.align);
    Pow2Less(c.align, c.ptrAlign);
    SlopHasRoom(c, first, at, n, mem);
  }

  lemma SlopHasRoom(c: Config, first: nat, at: nat, n: nat, mem: seq<Byte>)
    requires c.word > 0 && 0 < c.align && 2 * c.align <= c.ptrAlign
    requires AlignUp(c.align, c.align) == c.align
    ensures AnswerFits(SlopPool(c, first, at, n, n, mem), Answer(0, []), Gross(c, c.align))
    ensures Alloc(c, SlopPool(c, first, at, n, n, mem), c.align, Answer(0, []))
            == (SlopPool(c, first, at, n, n + c.align, mem), SlopBase(c, at) + n)
  {
    var p := SlopPool(c, first, at, n, n, mem);
    assert p.arenas[p.cur] == SlopArena(c, first, at, n, n);
    RoomForOne(c, p);
    SlopBump(c, first, at, n, mem);
  }

  lemma RoomForOne(c: Config, p: Pool)
    requires c.word > 0 && c.align > 0 && p.cur < |p.arenas| && AlignUp(c.align, c.align) == c.align
    requires Fits(p.arenas[p.cur], c.align)
    ensures AnswerFits(p, Answer(0, []), Gross(c, c.align))
    ensures Alloc(c, p, c.align, Answer(0, []))
            == (Bump(p, p.cur, c.align), p.arenas[p.cur].avail)
  {
    FitsInCurrent(c, p, c.align, Answer(0, []));
  }

  lemma SlopBump(c: Config, first: nat, at: nat, n: nat, mem: seq<Byte>)
    requires c.align > 0
    ensures Bump(SlopPool(c, first, at, n, n, mem), 1, c.align)
            == SlopPool(c, first, at, n, n + c.align, mem)
  {
    var p, q := SlopPool(c, first, at, n, n, mem), SlopPool(c, first, at, n, n + c.align, mem);
    assert p.arenas[1 := q.arenas[1]] == q.arenas;
  }

  lemma SlopPath(c: Config, p: Pool, x: nat, n: nat)
    requires NarrowConfig(c) && p.cur == 1 && |p.arenas| == 2
    requires p.arenas[1].base == x && p.arenas[1].avail == x + n + c.align && n > c.arenasize
    requires AlignUp(n, c.align) == n
    ensures GrowPath(c, p, x, n, c.align) == ByRealloc
  {
  }

  /** Growing the first of the two blocks, where realloc leaves it in place, covers the second. */
  lemma SlopIsClobbered(c: Config, first: nat, n: nat, mem: seq<Byte>, more: Answer)
    requires NarrowConfig(c) && Aligned(more.at, c.ptrAlign) && more.at > 0
    requires n > c.arenasize && AlignUp(n, c.align) == n
    requires AlignUp(n + c.align, c.align) == n + c.align
    requires |more.fill| == c.align && |mem| == c.word
    requires more.at + HdrSize(c, true) + n + c.align < c.word
    ensures var p := SlopPool(c, first, more.at, n, n + c.align, mem);
            var x := SlopBase(c, more.at);
            && CanGrow(c, p, x, n, c.align, 1, more)
            && var (q, z) := Grow(c, p, x, n, c.align, 1, more);
            z == x && |q.arenas| == 2 && q.arenas[1].avail == x + n + c.align
  {
    var p := SlopPool(c, first, more.at, n, n + c.align, mem);
    SlopBaseIs(c, more.at);
    SlopPath(c, p, SlopBase(c, more.at), n);
    SlopMoves(c, p, n, more);
  }

  lemma SlopMoves(c: Config, p: Pool, n: nat, more: Answer)
    requires NarrowConfig(c) && more.at > 0 && |more.fill| == c.align && |p.mem| == c.word
    requires n > c.arenasize && more.at + HdrSize(c, true) + n + c.align < c.word
    requires AlignUp(n + c.align, c.align) == n + c.align
    requires HdrSize(c, true) == c.structSize + c.ptrSize + c.ptrAlign - 1
    requires p.cur == 1 && |p.arenas| == 2 && p.quota.None?
    requires p.arenas[1] == SlopArena(c, p.arenas[0].at, more.at, n, n + c.align)
    requires NewBase(c, more.at) == SlopBase(c, more.at)
    ensures var x := SlopBase(c, more.at);
            && Located(c, p, x, n, 1) && ReallocFits(c, p, n, c.align, 1, more)
            && var (q, z) := Realloc(c, p, x, n, c.align, 1, more);
            z == x && |q.arenas| == 2 && q.arenas[1].avail == x + n + c.align
  {
  }

  /** With an alignment below that of a pointer, two live blocks can come to overlap: a block of
      more than arenasize bytes, a second one of one unit, and the growth of the first by as much,
      which realloc grants where the chunk is. */
  lemma LiveBlocksOverlap(c: Config, first: nat, mem: seq<Byte>, n: nat, ans: Answer, more: Answer)
    requires NarrowConfig(c) && FirstAsk(c, first, mem, n, ans)
    requires n > c.arenasize && Aligned(ans.at, c.ptrAlign)
    requires more.at == ans.at && |more.fill| == c.align
    requires more.at + HdrSize(c, true) + n + c.align < c.word
    ensures AlignUp(n, c.align) == n && AlignUp(c.align, c.align) == c.align
    ensures var (p, x) := Alloc(c, Init(c, first, None, mem), n, ans);
            && p.cur < |p.arenas| && AnswerFits(p, Answer(0, []), Gross(c, c.align))
            && var (q, y) := Alloc(c, p, c.align, Answer(0, []));
            && x != 0 && y != 0 && CanGrow(c, q, x, n, c.align, 1, more)
            && var z := Grow(c, q, x, n, c.align, 1, more).1;
            z != 0 && z < y && y + c.align <= z + (n + c.align)
  {
    var mem1 := Store(mem, ans.at, ans.fill);
    SlopFirst(c, first, mem, n, ans);
    SlopIsHandedOut(c, first, ans.at, n, mem1);
    AlignedMul(1, c.align);
    AlignedAdd(n, c.align, c.align);
    UpOfAligned(n + c.align, c.align);
    SlopIsClobbered(c, first, n, mem1, more);
  }

  // ---- Blocks of no bytes ----------------------------------------------------------------

  lemma EmptyPath(c: Config, p: Pool, ptr: nat, incr: nat)
    requires AnyConfig(c) && PoolOk(c, p) && incr > 0
    ensures GrowPath(c, p, ptr, 0, incr) == ByRealloc <==> p.cur == 0 && ptr == p.arenas[0].base
    ensures GrowPath(c, p, ptr, 0, incr) == InPlace ==>
              ptr == p.arenas[p.cur].avail && Fits(p.arenas[p.cur], AlignUp(incr, c.align))
  {
    UpOfAligned(0, c.align);
    UpFacts(incr, c.align);
    if p.cur > 0 { assert ArenaOk(c, p.arenas, p.cur); }
  }

  /** The growth of a block of no bytes is handed to JS_ArenaRealloc, which then finds no link,
      exactly while the current arena is the first one and the block is there; everywhere else it
      is an allocation. */
  lemma EmptyBlockGrows(c: Config, p: Pool, ptr: nat, incr: nat, k: nat, ans: Answer)
    requires AnyConfig(c) && PoolOk(c, p) && incr > 0 && ptr <= c.word
    requires AnswerFits(p, ans, Gross(c, AlignUp(incr, c.align)))
    requires Alloc(c, p, incr, ans).1 <= c.word
    ensures var lost := p.cur == 0 && ptr == p.arenas[0].base;
            && (CanGrow(c, p, ptr, 0, incr, k, ans) <==> !lost)
            && (lost ==> forall j :: !Located(c, p, ptr, 0, j))
            && (!lost ==> Grow(c, p, ptr, 0, incr, k, ans) == Alloc(c, p, incr, ans))
  {
    EmptyPath(c, p, ptr, incr);
    match GrowPath(c, p, ptr, 0, incr)
    case InPlace => EmptyInPlace(c, p, ptr, incr, k, ans);
    case ByRealloc => FirstIsNotFound(c, p, ptr);
    case ByCopy => EmptyCopied(c, p, ptr, incr, k, ans);
  }

  lemma FirstIsNotFound(c: Config, p: Pool, ptr: nat)
    requires p.cur == 0
    ensures forall j :: !Located(c, p, ptr, 0, j)
  {
  }

  lemma EmptyInPlace(c: Config, p: Pool, ptr: nat, incr: nat, k: nat, ans: Answer)
    requires c.word > 0 && c.align > 0 && p.cur < |p.arenas|
    requires AnswerFits(p, ans, Gross(c, AlignUp(incr, c.align)))
    requires GrowPath(c, p, ptr, 0, incr) == InPlace
    requires ptr == p.arenas[p.cur].avail && Fits(p.arenas[p.cur], AlignUp(incr, c.align))
    ensures CanGrow(c, p, ptr, 0, incr, k, ans)
    ensures Grow(c, p, ptr, 0, incr, k, ans) == Alloc(c, p, incr, ans)
  {
    FitsInCurrent(c, p, incr, ans);
  }

  lemma EmptyCopied(c: Config, p: Pool, ptr: nat, incr: nat, k: nat, ans: Answer)
    requires c.word > 0 && c.align > 0 && p.cur < |p.arenas| && ptr <= |p.mem|
    requires AnswerFits(p, ans, Gross(c, AlignUp(incr, c.align)))
    requires GrowPath(c, p, ptr, 0, incr) == ByCopy
    requires Alloc(c, p, incr, ans).1 <= |p.mem|
    ensures CanGrow(c, p, ptr, 0, incr, k, ans)
    ensures Grow(c, p, ptr, 0, incr, k, ans) == Alloc(c, p, incr, ans)
  {
    var (q, r) := Alloc(c, p, incr, ans);
    assert |q.mem| == |p.mem|;
    assert Store(q.mem, r, q.mem[ptr..ptr]) == q.mem;
  }

  // ---- An arenasize that is no multiple of the alignment ----------------------------------

  /** JS_ArenaRealloc finds the arena of every live block it can be called for. */
  lemma BlockIsFound(c: Config, p: Pool, b: Runs.Block)
    requires WideConfig(c) && PoolOk(c, p) && Runs.BlockOk(c, p, b) && b.size > c.arenasize
    ensures Located(c, p, b.ptr, b.size, b.home)
  {
    UpFacts(b.size, c.align);
    assert ArenaOk(c, p.arenas, b.home);
  }

  /** A block of `n` bytes is allocated in a new pool, and grown in place. */
  ghost predicate Scene(c: Config, first: nat, mem: seq<Byte>, n: nat, incr: nat, ans: Answer) {
    && FirstAsk(c, first, mem, n, ans) && AlignUp(n, c.align) == n
    && AlignUp(n + incr, c.align) < c.word
    && var (p, x) := Alloc(c, Init(c, first, None, mem), n, ans);
    p.cur < |p.arenas| && GrowPath(c, p, x, n, incr) == InPlace
  }

  /** Whether JS_ArenaRealloc would find the block of the scene when it is grown again. */
  ghost predicate Found(c: Config, first: nat, mem: seq<Byte>, n: nat, incr: nat, ans: Answer)
    requires Scene(c, first, mem, n, incr, ans)
  {
    var (p, x) := Alloc(c, Init(c, first, None, mem), n, ans);
    Located(c, Grow(c, p, x, n, incr, 1, Answer(0, [])).0, x, n + incr, 1)
  }

  /** The client of the first block. */
  ghost predicate SceneClient(c: Config, first: nat, mem: seq<Byte>, n: nat, ans: Answer,
                              t: Runs.Client)
    requires FirstAsk(c, first, mem, n, ans) && AlignUp(n, c.align) == n
  {
    && Runs.Inv(c, t) && t.marks == [] && |t.blocks| == 1 && t.blocks[0].home == 1
    && (t.pool, t.blocks[0].ptr) == Alloc(c, Init(c, first, None, mem), n, ans)
    && t.blocks[0].size == n && t.blocks[0].ptr == t.pool.arenas[1].base
  }

  lemma SceneHasClient(c: Config, first: nat, mem: seq<Byte>, n: nat, ans: Answer)
    returns (t: Runs.Client)
    requires WideConfig(c) && FirstAsk(c, first, mem, n, ans) && AlignUp(n, c.align) == n
    ensures SceneClient(c, first, mem, n, ans, t)
  {
    var s := Runs.Start(c, first, None, mem);
    Runs.StartIsInOrder(c, first, None, mem);
    FirstBlock(c, first, mem, n, ans);
    FirstAskIsFresh(c, first, mem, n, ans);
    Runs.AllocateKeepsInv(c, s, n, ans);
    FreshArenaFits(c, ans.at, n, first);
    t := Runs.AfterAllocate(c, s, n, ans);
  }

  lemma FirstAskIsFresh(c: Config, first: nat, mem: seq<Byte>, n: nat, ans: Answer)
    requires FirstAsk(c, first, mem, n, ans) && AlignUp(n, c.align) == n
    ensures var p := Init(c, first, None, mem);
            && n < c.word && Fresh(c, p, ans, Gross(c, n), -1) && AnswerFits(p, ans, Gross(c, n))
            && Granted(c, p, n, ans)
  {
  }

  lemma SceneIsFound(c: Config, first: nat, mem: seq<Byte>, n: nat, incr: nat, ans: Answer)
    requires WideConfig(c) && Scene(c, first, mem, n, incr, ans)
    ensures Found(c, first, mem, n, incr, ans)
  {
    var t := SceneHasClient(c, first, mem, n, ans);
    GrownIsFound(c, t, incr);
  }

  lemma GrownIsFound(c: Config, t: Runs.Client, incr: nat)
    requires WideConfig(c) && Runs.Inv(c, t) && t.marks == [] && |t.blocks| == 1
    requires AlignUp(t.blocks[0].size + incr, c.align) < c.word
    requires t.blocks[0].home == 1 < |t.pool.arenas|
    requires t.blocks[0].ptr == t.pool.arenas[1].base
    requires GrowPath(c, t.pool, t.blocks[0].ptr, t.blocks[0].size, incr) == InPlace
    ensures var b := t.blocks[0];
            Located(c, Grow(c, t.pool, b.ptr, b.size, incr, 1, Answer(0, [])).0, b.ptr,
                    b.size + incr, 1)
  {
    var b := t.blocks[0];
    assert Runs.BlockOk(c, t.pool, b);
    Runs.InPlaceRegrows(c, t, 0, incr, Answer(0, []));
    var q := Grow(c, t.pool, b.ptr, b.size, incr, 1, Answer(0, [])).0;
    var g := Runs.GrownBlock(c, t, 0, q, b.ptr, incr, 1);
    Runs.TopBlockEnds(c, t.pool, b, incr);
    Runs.TopBlockHome(c, t.pool, b);
    if g.size > c.arenasize {
      BlockIsFound(c, q, g);
    }
  }

  /** Growing a block of one unit to the next multiple beyond arenasize. */
  lemma SceneIsLost(c: Config, first: nat, mem: seq<Byte>, ans: Answer) returns (incr: nat)
    requires FirstAsk(c, first, mem, c.align, ans) && !Regular(c)
    requires Aligned(ans.at + c.structSize, c.align)
    ensures Scene(c, first, mem, c.align, incr, ans) && !Found(c, first, mem, c.align, incr, ans)
  {
    incr := AlignUp(c.arenasize, c.align) - c.align;
    UpFacts(c.arenasize, c.align);
    UpOfAligned(c.align + incr, c.align);
    UpOfAligned(ans.at + c.structSize, c.align);
    FirstBlock(c, first, mem, c.align, ans);
    var p := Alloc(c, Init(c, first, None, mem), c.align, ans).0;
    OneStaysInPlace(c, p, incr);
  }

  lemma OneStaysInPlace(c: Config, p: Pool, incr: nat)
    requires c.align > 0 && c.word > 0 && |p.arenas| == 2 && p.cur == 1 && p.arenas[1].hdr.None?
    requires var a := p.arenas[1];
             a.limit >= a.base + c.align + incr && a.avail == a.base + c.align
    requires AlignUp(c.align, c.align) == c.align && c.align + incr > c.arenasize
    requires AlignUp(c.align + incr, c.align) == c.align + incr
    ensures var x := p.arenas[1].base;
            && GrowPath(c, p, x, c.align, incr) == InPlace
            && !Located(c, Grow(c, p, x, c.align, incr, 1, Answer(0, [])).0, x, c.align + incr, 1)
  {
  }

  /** With a pointer's alignment or more, a block that has grown can be found for a further growth
      if and only if arenasize is a multiple of the alignment or below it; `at` is an address
      malloc may answer with. */
  lemma HeaderIsFoundIff(c: Config, first: nat, mem: seq<Byte>, at: nat)
    requires ConfigOk(c) && c.ptrAlign <= c.align
    requires 0 < first && first + c.poolSize <= at && |mem| == c.word
    requires Aligned(at + c.structSize, c.align)
    requires at + HdrSize(c, false) + Max(c.align, c.arenasize) < c.word
    ensures Regular(c) <==>
            forall n, incr, ans :: Scene(c, first, mem, n, incr, ans) ==>
              Found(c, first, mem, n, incr, ans)
  {
    if Regular(c) {
      forall n, incr, ans | Scene(c, first, mem, n, incr, ans)
        ensures Found(c, first, mem, n, incr, ans)
      {
        SceneIsFound(c, first, mem, n, incr, ans);
      }
    } else {
      AlignedMul(1, c.align);
      var ans := Answer(at, seq(Gross(c, c.align), i => 0));
      var incr := SceneIsLost(c, first, mem, ans);
    }
  }

  // ---- Sizes beyond the word -------------------------------------------------------------

  /** The block of a successful JS_ArenaRealloc lies within the chunk, and base, avail and limit
      are in order, if and only if the arena fits into a word. */
  lemma GrownFitsIff(c: Config, p: Pool, ptr: nat, size: nat, incr: nat, k: nat, ans: Answer)
    requires AnyConfig(c) && PoolOk(c, p) && Located(c, p, ptr, size, k)
    requires ReallocFits(c, p, size, incr, k, ans) && ans.at + HdrSize(c, true) < c.word
    requires AlignUp(size + incr, c.align) < c.word
    requires Realloc(c, p, ptr, size, incr, k, ans).1 != 0
    requires GrossFits(c, size, incr) ==> ans.at + ReallocGross(c, size, incr) < c.word
    ensures var b := Realloc(c, p, ptr, size, incr, k, ans).0.arenas[k];
            && (b.base + size + incr <= b.limit <==> GrossFits(c, size, incr))
            && (b.base <= b.avail <= b.limit <==> GrossFits(c, size, incr))
  {
    BigBase(c, ans.at);
    UpFacts(size + incr, c.align);
    WordIsWide(c, p, k);
    GrownShapeIff(c, ans.at, NewBase(c, ans.at), AlignUp(size + incr, c.align), size + incr);
  }

  lemma WordIsWide(c: Config, p: Pool, k: nat)
    requires AnyConfig(c) && PoolOk(c, p) && 1 <= k < |p.arenas|
    ensures c.word > BaseAlign(c) + c.align
    ensures HdrSize(c, true) == c.structSize + c.ptrSize + BaseAlign(c) - 1
  {
    var a := p.arenas[k];
    assert ArenaOk(c, p.arenas, k);
    AlignedGap(0, a.base, c.align);
    AlignedGap(a.base, a.avail, c.align);
    AlignedGap(0, c.ptrSize, c.ptrAlign);
  }

  lemma GrownShapeIff(c: Config, at: nat, base: nat, aoff: nat, n: nat)
    requires c.align > 0 && aoff < c.word && n <= aoff < n + c.align
    requires c.word > BaseAlign(c) + c.align && 0 < at
    requires HdrSize(c, true) == c.structSize + c.ptrSize + BaseAlign(c) - 1
    requires at + HdrSize(c, true) - BaseAlign(c) < base <= at + HdrSize(c, true) < c.word
    requires HdrSize(c, true) + aoff < c.word ==> at + HdrSize(c, true) + aoff < c.word
    ensures var limit := at + AddWord(HdrSize(c, true), aoff, c.word);
            var avail := AddWord(base, aoff, c.word);
            && (base + n <= limit <==> HdrSize(c, true) + aoff < c.word)
            && (base <= avail <= limit <==> HdrSize(c, true) + aoff < c.word)
  {
  }

  /** The growth from one unit to the last multiple of the alignment. */
  function LastIncr(c: Config): int { c.word - 2 * c.align }

  lemma LastSizes(c: Config)
    requires ConfigOk(c) && Aligned(c.word, c.align) && 2 * c.align < c.word
    ensures AlignUp(c.align, c.align) == c.align && c.align <= HdrSize(c, true)
    ensures AlignUp(c.align + LastIncr(c), c.align) == c.word - c.align
    ensures ReallocGross(c, c.align, LastIncr(c)) == HdrSize(c, true) - c.align
    ensures !GrossFits(c, c.align, LastIncr(c))
  {
    AlignedMul(1, c.align);
    UpOfAligned(c.align, c.align);
    AlignedSub(c.word, c.align, c.align);
    assert c.ptrSize >= 1;
    LastMultiple(c, c.align + LastIncr(c));
    LastGross(c, c.align + LastIncr(c));
  }

  lemma LastMultiple(c: Config, n: nat)
    requires c.align > 0 && n == c.word - c.align && Aligned(c.word - c.align, c.align)
    ensures AlignUp(n, c.align) == c.word - c.align
  {
    UpOfAligned(n, c.align);
  }

  lemma LastGross(c: Config, n: nat)
    requires c.align > 0 && AlignUp(n, c.align) == c.word - c.align
    requires c.align <= HdrSize(c, true)
    ensures AddWord(HdrSize(c, true), AlignUp(n, c.align), c.word) == HdrSize(c, true) - c.align
  {
  }

  /** In the pool of one unit the growth is handed to realloc with a size that has wrapped. */
  lemma LastGrowthPath(c: Config, p: Pool, more: Answer)
    requires AnyConfig(c) && PoolOk(c, p) && p.cur == 1 && Aligned(c.word, c.align)
    requires 2 * c.align < c.word && p.quota.None?
    requires p.arenas[1].avail == p.arenas[1].base + c.align && more.at > 0
    requires p.arenas[1].limit >= p.arenas[1].at && HdrSize(c, true) >= c.align
    requires |more.fill| == HdrSize(c, true) - c.align
                            - Kept(p.arenas[1].limit - p.arenas[1].at, HdrSize(c, true) - c.align)
    requires more.at + HdrSize(c, true) + c.align < c.word
    ensures CanGrow(c, p, p.arenas[1].base, c.align, LastIncr(c), 1, more)
    ensures GrowPath(c, p, p.arenas[1].base, c.align, LastIncr(c)) == ByRealloc
  {
    LastSizes(c);
    BigBase(c, more.at);
    assert ArenaOk(c, p.arenas, 1);
  }

  /** From a new pool without a quota: one unit is allocated, and grown by so much that gross wraps.
      Realloc has no reason to refuse, and the block ends outside of its chunk. */
  lemma BlockLeavesChunk(c: Config, first: nat, mem: seq<Byte>, ans: Answer, more: Answer)
    requires AnyConfig(c) && FirstAsk(c, first, mem, c.align, ans)
    requires Aligned(c.word, c.align) && 2 * c.align < c.word
    requires more.at > 0 && more.at + HdrSize(c, true) + c.align < c.word
    requires HdrSize(c, true) >= c.align && Gross(c, c.align) >= 0
    requires |more.fill| == HdrSize(c, true) - c.align
                            - Kept(Gross(c, c.align), HdrSize(c, true) - c.align)
    ensures AlignUp(c.align, c.align) == c.align
    ensures var (p, x) := Alloc(c, Init(c, first, None, mem), c.align, ans);
            && x != 0 && CanGrow(c, p, x, c.align, LastIncr(c), 1, more)
            && var (q, z) := Grow(c, p, x, c.align, LastIncr(c), 1, more);
            z != 0 && |q.arenas| == 2 && z + c.align + LastIncr(c) > q.arenas[1].limit
  {
    LastSizes(c);
    var p := OneUnit(c, first, mem, ans);
    LastGrowthPath(c, p, more);
    LastGrowth(c, p, more);
  }

  lemma OneUnit(c: Config, first: nat, mem: seq<Byte>, ans: Answer) returns (p: Pool)
    requires AnyConfig(c) && FirstAsk(c, first, mem, c.align, ans)
    requires AlignUp(c.align, c.align) == c.align
    ensures |p.arenas| == 2 && Gross(c, c.align) >= 0
    ensures Alloc(c, Init(c, first, None, mem), c.align, ans) == (p, p.arenas[1].base)
    ensures PoolOk(c, p) && p.cur == 1 && p.quota.None?
    ensures p.arenas[1].avail == p.arenas[1].base + c.align && p.arenas[1].base > 0
    ensures p.arenas[1].limit - p.arenas[1].at == Gross(c, c.align)
  {
    InitOk(c, first, None, mem);
    FirstBlock(c, first, mem, c.align, ans);
    FirstAskIsFresh(c, first, mem, c.align, ans);
    ExtendedIsOk(c, Init(c, first, None, mem), c.align, ans);
    FreshArenaFits(c, ans.at, c.align, first);
    p := Alloc(c, Init(c, first, None, mem), c.align, ans).0;
    assert p == Extended(c, Init(c, first, None, mem), c.align, ans);
  }

  lemma LastGrowth(c: Config, p: Pool, more: Answer)
    requires AnyConfig(c) && PoolOk(c, p) && p.cur == 1 && Aligned(c.word, c.align)
    requires 2 * c.align < c.word && p.quota.None? && more.at > 0
    requires more.at + HdrSize(c, true) + c.align < c.word
    requires var x := p.arenas[1].base;
             && CanGrow(c, p, x, c.align, LastIncr(c), 1, more)
             && GrowPath(c, p, x, c.align, LastIncr(c)) == ByRealloc
    ensures var (q, z) := Grow(c, p, p.arenas[1].base, c.align, LastIncr(c), 1, more);
            z != 0 && |q.arenas| == 2 && z + c.align + LastIncr(c) > q.arenas[1].limit
  {
    LastSizes(c);
    BigBase(c, more.at);
    GrownFitsIff(c, p, p.arenas[1].base, c.align, LastIncr(c), 1, more);
  }

  /** JS_ARENA_ALIGN in words. */
  function WordAlign(c: Config, n: nat): nat
    requires c.align > 0
  {
    AlignDown(AddWord(n, c.align - 1, c.word), c.align)
  }

  /** Rounding a size up loses it exactly where the multiple is no word: then the request is for no
      bytes. */
  lemma AlignWrapsIff(c: Config, n: nat)
    requires ConfigOk(c) && Aligned(c.word, c.align) && n < c.word
    ensures WordAlign(c, n) == if AlignUp(n, c.align) < c.word then AlignUp(n, c.align) else 0
    ensures WordAlign(c, n) >= n <==> AlignUp(n, c.align) < c.word
  {
    UpFacts(n, c.align);
    if AlignUp(n, c.align) < c.word {
      AlignedGap(AlignUp(n, c.align), c.word, c.align);
    }
    if n + c.align - 1 >= c.word {
      assert n + c.align - 1 - c.word < c.align;
    }
  }
}
