/** The arena pool as the program has it: JSArena structs in memory that are linked by addresses,
    and the pointer cells below the bases of oversized arenas.  Each method does to the list what
    the function in ArenaPool does to a sequence of arenas. */
module ArenaProgram {
  import opened Common
  import opened ArenaMath
  import opened ArenaPool
  import opened ArenaInvariant

  /** The fields of a JSArena; its address is the key under which it is kept.  0 is NULL. */
  datatype Node = Node(next: nat, base: nat, limit: nat, avail: nat)

  type Structs = map<nat, Node>
  type Cells = map<nat, nat>

  // ---- The list and the sequence ---------------------------------------------------------

  function Next(arenas: seq<Arena>, k: nat): nat {
    if k + 1 < |arenas| then arenas[k + 1].at else 0
  }

  function Cell(header: Cells, base: nat): Option<nat> {
    if base in header then Some(header[base]) else None
  }

  predicate NodeIs(node: Structs, header: Cells, a: Arena, next: nat) {
    && a.at != 0 && a.at in node && node[a.at] == Node(next, a.base, a.limit, a.avail)
    && a.hdr == Cell(header, a.base)
  }

  predicate Differ(a: Arena, b: Arena) { a.at != b.at && a.base != b.base }

  predicate Distinct(arenas: seq<Arena>) {
    forall i, j {:trigger Differ(arenas[i], arenas[j])} ::
      0 <= i < |arenas| && 0 <= j < |arenas| && i != j ==> Differ(arenas[i], arenas[j])
  }

  /** The structs and cells in memory form the list of these arenas. */
  predicate Linked(node: Structs, header: Cells, arenas: seq<Arena>) {
    && |arenas| > 0 && Distinct(arenas)
    && forall i {:trigger Next(arenas, i)} ::
         0 <= i < |arenas| ==> NodeIs(node, header, arenas[i], Next(arenas, i))
  }

  /** What the program reads at the k-th arena. */
  lemma ReadNode(node: Structs, header: Cells, arenas: seq<Arena>, k: nat)
    requires Linked(node, header, arenas) && k < |arenas|
    ensures var a := arenas[k];
            && a.at in node && node[a.at] == Node(Next(arenas, k), a.base, a.limit, a.avail)
            && a.hdr == Cell(header, a.base)
    ensures Next(arenas, k) == 0 <==> k == |arenas| - 1
  {
    assert NodeIs(node, header, arenas[k], Next(arenas, k));
    if k + 1 < |arenas| {
      assert NodeIs(node, header, arenas[k + 1], Next(arenas, k + 1));
    }
  }

  function WithAvail(node: Structs, a: nat, avail: nat): Structs
    requires a in node
  {
    node[a := node[a].(avail := avail)]
  }

  lemma SetAvail(node: Structs, header: Cells, arenas: seq<Arena>, k: nat, avail: nat)
    requires Linked(node, header, arenas) && k < |arenas|
    ensures NodeIs(node, header, arenas[k], Next(arenas, k))
    ensures Linked(WithAvail(node, arenas[k].at, avail), header,
                   arenas[k := arenas[k].(avail := avail)])
  {
    assert NodeIs(node, header, arenas[k], Next(arenas, k));
    var after := WithAvail(node, arenas[k].at, avail);
    var arenas' := arenas[k := arenas[k].(avail := avail)];
    forall i, j | 0 <= i < |arenas| && 0 <= j < |arenas| && i != j
      ensures Differ(arenas'[i], arenas'[j])
    {
      assert Differ(arenas[i], arenas[j]);
    }
    forall i | 0 <= i < |arenas|
      ensures NodeIs(after, header, arenas'[i], Next(arenas', i))
    {
      assert i != k ==> Differ(arenas[i], arenas[k]);
      assert NodeIs(node, header, arenas[i], Next(arenas, i));
    }
  }

  function Dropped(arenas: seq<Arena>, k: nat): (r: seq<Arena>)
    requires k < |arenas|
    ensures |r| == |arenas| - 1
    ensures forall i :: 0 <= i < |r| ==> r[i] == arenas[if i < k then i else i + 1]
  {
    arenas[..k] + arenas[k + 1..]
  }

  /** The structs after the one behind `head`, at `a`, has been unlinked and freed. */
  function Unlinked(node: Structs, head: nat, a: nat): Structs
    requires head in node && a in node
  {
    node[head := node[head].(next := node[a].next)] - {a}
  }

  lemma Unlink(node: Structs, header: Cells, arenas: seq<Arena>, h: nat)
    requires Linked(node, header, arenas) && h + 1 < |arenas|
    ensures arenas[h].at in node && arenas[h + 1].at in node
    ensures Linked(Unlinked(node, arenas[h].at, arenas[h + 1].at), header, Dropped(arenas, h + 1))
  {
    assert NodeIs(node, header, arenas[h], Next(arenas, h));
    assert NodeIs(node, header, arenas[h + 1], Next(arenas, h + 1));
    var after := Unlinked(node, arenas[h].at, arenas[h + 1].at);
    var arenas' := Dropped(arenas, h + 1);
    forall i, j | 0 <= i < |arenas'| && 0 <= j < |arenas'| && i != j
      ensures Differ(arenas'[i], arenas'[j])
    {
      assert Differ(arenas[if i < h + 1 then i else i + 1], arenas[if j < h + 1 then j else j + 1]);
    }
    forall i | 0 <= i < |arenas'|
      ensures NodeIs(after, header, arenas'[i], Next(arenas', i))
    {
      assert Differ(arenas[if i < h + 1 then i else i + 1], arenas[h + 1]);
      assert i != h ==> Differ(arenas[if i < h + 1 then i else i + 1], arenas[h]);
      var j := if i < h + 1 then i else i + 1;
      assert NodeIs(node, header, arenas[j], Next(arenas, j));
    }
  }

  function NewCells(header: Cells, a: Arena): Cells {
    if a.hdr.Some? then header[a.base := a.hdr.value] else header - {a.base}
  }

  function Appended(node: Structs, last: nat, a: Arena): Structs
    requires last in node
  {
    node[last := node[last].(next := a.at)][a.at := Node(0, a.base, a.limit, a.avail)]
  }

  /** Linking a new arena behind the last one. */
  lemma Append(node: Structs, header: Cells, arenas: seq<Arena>, a: Arena)
    requires Linked(node, header, arenas) && a.at != 0
    requires forall i :: 0 <= i < |arenas| ==> Differ(arenas[i], a)
    ensures arenas[|arenas| - 1].at in node
    ensures Linked(Appended(node, arenas[|arenas| - 1].at, a), NewCells(header, a), arenas + [a])
  {
    var n := |arenas| - 1;
    assert NodeIs(node, header, arenas[n], Next(arenas, n));
    var after, arenas' := Appended(node, arenas[n].at, a), arenas + [a];
    forall i, j | 0 <= i < |arenas'| && 0 <= j < |arenas'| && i != j
      ensures Differ(arenas'[i], arenas'[j])
    {
      if i <= n && j <= n { assert Differ(arenas[i], arenas[j]); }
    }
    forall i | 0 <= i < |arenas'|
      ensures NodeIs(after, NewCells(header, a), arenas'[i], Next(arenas', i))
    {
      if i < n { assert Differ(arenas[i], arenas[n]); }
      if i <= n { assert NodeIs(node, header, arenas[i], Next(arenas, i)); }
    }
  }

  /** Memory that is clear of all arenas holds neither the address nor the base of one. */
  lemma FreshPlace(c: Config, arenas: seq<Arena>, lo: nat, hi: nat, base: nat, skip: int)
    requires AnyConfig(c) && ArenasOk(c, arenas)
    requires ClearOfAll(c, arenas, lo, hi, skip) && lo < base <= hi
    ensures forall i :: 0 <= i < |arenas| && i != skip ==>
              arenas[i].at != lo && arenas[i].base != base
  {
    forall i | 0 <= i < |arenas| && i != skip
      ensures arenas[i].at != lo && arenas[i].base != base
    {
      DataRange(c, arenas, i);
      assert Clear(c, arenas, i, lo, hi);
    }
  }

  // ---- Allocation ------------------------------------------------------------------------

  /** The pool `p` with the arena JS_ArenaAllocate has just made, before anything is put into it. */
  predicate HasNewArena(c: Config, p: Pool, nb: nat, ans: Answer, q: Pool)
    requires c.align > 0 && c.word > 0 && AnswerFits(p, ans, Gross(c, nb)) && |p.arenas| > 0
  {
    && Granted(c, p, nb, ans)
    && q == Pool(p.arenas + [NewArena(c, ans.at, nb, p.arenas[|p.arenas| - 1].at)], |p.arenas|,
                 if p.quota.Some? then Some(p.quota.value - Gross(c, nb)) else None,
                 Store(p.mem, ans.at, ans.fill))
  }

  /** The loop of JS_ArenaAllocate between two rounds: `q` is the pool `p` with pool->current moved
      past arenas that have no room, or with a new last arena that has. */
  predicate AtAllocLoop(c: Config, p: Pool, nb: nat, ans: Answer, q: Pool, made: bool)
    requires c.align > 0 && c.word > 0 && p.cur < |p.arenas|
    requires AnswerFits(p, ans, Gross(c, nb))
  {
    if made then
      && FirstFit(p.arenas, p.cur, nb) == |p.arenas| && HasNewArena(c, p, nb, ans, q)
      && Fits(q.arenas[q.cur], nb)
    else
      && q == p.(cur := q.cur) && p.cur <= q.cur < |p.arenas|
      && FirstFit(p.arenas, p.cur, nb) == FirstFit(p.arenas, q.cur, nb)
  }

  /** Where the loop of JS_ArenaAllocate ends, bumping the current arena is all that is left. */
  lemma AllocLoopDone(c: Config, p: Pool, nb: nat, ans: Answer, q: Pool, made: bool)
    requires c.align > 0 && c.word > 0 && p.cur < |p.arenas|
    requires AnswerFits(p, ans, Gross(c, nb)) && AtAllocLoop(c, p, nb, ans, q, made)
    requires q.cur < |q.arenas| && Fits(q.arenas[q.cur], nb)
    ensures Allocate(c, p, nb, ans) == (Bump(q, q.cur, nb), q.arenas[q.cur].avail)
  {
  }

  /** Moving on past an arena without room; or to a new arena, or to the end. */
  lemma AllocLoopStep(c: Config, p: Pool, nb: nat, ans: Answer, q: Pool, made: bool)
    requires c.align > 0 && c.word > 0 && p.cur < |p.arenas|
    requires AnswerFits(p, ans, Gross(c, nb)) && AtAllocLoop(c, p, nb, ans, q, made)
    requires q.cur < |q.arenas| && !Fits(q.arenas[q.cur], nb)
    ensures !made
    ensures q.cur + 1 < |q.arenas| ==> AtAllocLoop(c, p, nb, ans, q.(cur := q.cur + 1), false)
    ensures q.cur + 1 == |q.arenas| ==>
              && FirstFit(p.arenas, p.cur, nb) == |p.arenas|
              && p.(cur := |p.arenas| - 1) == q
              && (!Granted(c, p, nb, ans) ==> Allocate(c, p, nb, ans) == (q, 0))
  {
    assert FirstFit(p.arenas, q.cur, nb) == FirstFit(p.arenas, q.cur + 1, nb);
  }

  lemma NewArenaIsFresh(c: Config, p: Pool, nb: nat, ans: Answer)
    requires AnyConfig(c) && ArenasOk(c, p.arenas) && nb < c.word && Aligned(nb, c.align)
    requires Granted(c, p, nb, ans) && Fresh(c, p, ans, Gross(c, nb), -1)
    ensures var a := NewArena(c, ans.at, nb, p.arenas[|p.arenas| - 1].at);
            Fits(a, nb) && forall i :: 0 <= i < |p.arenas| ==> Differ(p.arenas[i], a)
  {
    var a := NewArena(c, ans.at, nb, p.arenas[|p.arenas| - 1].at);
    FreshArenaFits(c, ans.at, nb, p.arenas[|p.arenas| - 1].at);
    FreshPlace(c, p.arenas, ans.at, a.limit, a.base, -1);
  }

  lemma ExtendList(c: Config, p: Pool, node: Structs, header: Cells, nb: nat, ans: Answer)
    requires AnyConfig(c) && ArenasOk(c, p.arenas) && nb < c.word && Aligned(nb, c.align)
    requires Granted(c, p, nb, ans) && Fresh(c, p, ans, Gross(c, nb), -1)
    requires Linked(node, header, p.arenas)
    ensures var ap := p.arenas[|p.arenas| - 1].at;
            var a := NewArena(c, ans.at, nb, ap);
            && ap in node && Fits(a, nb)
            && Linked(node[ap := node[ap].(next := ans.at)]
                          [ans.at := Node(0, a.base, a.limit, a.avail)],
                      if nb > c.arenasize then header[a.base := ap] else header - {a.base},
                      p.arenas + [a])
  {
    NewArenaIsFresh(c, p, nb, ans);
    Append(node, header, p.arenas, NewArena(c, ans.at, nb, p.arenas[|p.arenas| - 1].at));
  }

  // ---- Reallocation ----------------------------------------------------------------------

  /** The cells after the arena behind the link at `ap` has moved from `src` to the place of `a`:
      the header of its successor follows, and its own header holds the link. */
  function MovedCells(c: Config, node: Structs, header: Cells, src: nat, a: Arena, ap: nat): Cells
    requires src in node && (node[src].next != 0 ==> node[src].next in node)
  {
    var next := node[src].next;
    (if a.at != src && next != 0 && node[next].avail - node[next].base > c.arenasize
     then header[node[next].base := a.at] else header)[a.base := ap]
  }

  function MovedNodes(node: Structs, src: nat, a: Arena, ap: nat): Structs
    requires src in node && ap in node && ap != src
  {
    var moved := (node - {src})[a.at := Node(node[src].next, a.base, a.limit, a.avail)];
    if a.at != src then moved[ap := moved[ap].(next := a.at)] else moved
  }

  lemma Remake(c: Config, node: Structs, header: Cells, arenas: seq<Arena>, k: nat, a: Arena)
    requires Linked(node, header, arenas) && 1 <= k < |arenas| && a.at != 0
    requires a.hdr == Some(arenas[k - 1].at)
    requires forall i :: 0 <= i < |arenas| && i != k ==> Differ(arenas[i], a)
    ensures var ap, src := arenas[k - 1].at, arenas[k].at;
            && src in node && ap in node && ap != src
            && (node[src].next != 0 ==> node[src].next in node)
            && Linked(MovedNodes(node, src, a, ap), MovedCells(c, node, header, src, a, ap),
                      Relinked(c, arenas, k, a.at)[k := a])
  {
    var ap, src := arenas[k - 1].at, arenas[k].at;
    var arenas' := Relinked(c, arenas, k, a.at)[k := a];
    ReadNode(node, header, arenas, k - 1);
    ReadNode(node, header, arenas, k);
    assert Differ(arenas[k - 1], arenas[k]);
    if k + 1 < |arenas| { ReadNode(node, header, arenas, k + 1); }
    forall i, j | 0 <= i < |arenas| && 0 <= j < |arenas| && i != j
      ensures Differ(arenas'[i], arenas'[j])
    {
      assert Differ(arenas[i], arenas[j]);
    }
    forall i | 0 <= i < |arenas|
      ensures NodeIs(MovedNodes(node, src, a, ap), MovedCells(c, node, header, src, a, ap),
                     arenas'[i], Next(arenas', i))
    {
      RemadeNode(c, node, header, arenas, k, a, i);
    }
  }

  lemma RemadeNode(c: Config, node: Structs, header: Cells, arenas: seq<Arena>, k: nat, a: Arena,
                   i: nat)
    requires Linked(node, header, arenas) && 1 <= k < |arenas| && a.at != 0 && i < |arenas|
    requires a.hdr == Some(arenas[k - 1].at)
    requires forall i :: 0 <= i < |arenas| && i != k ==> Differ(arenas[i], a)
    requires arenas[k].at in node && arenas[k - 1].at in node && arenas[k - 1].at != arenas[k].at
    requires var next := node[arenas[k].at].next; next != 0 ==> next in node
    ensures var ap, src := arenas[k - 1].at, arenas[k].at;
            var arenas' := Relinked(c, arenas, k, a.at)[k := a];
            NodeIs(MovedNodes(node, src, a, ap), MovedCells(c, node, header, src, a, ap),
                   arenas'[i], Next(arenas', i))
  {
    ReadNode(node, header, arenas, i);
    ReadNode(node, header, arenas, k);
    if k + 1 < |arenas| {
      ReadNode(node, header, arenas, k + 1);
      assert i != k + 1 ==> Differ(arenas[i], arenas[k + 1]);
    }
    assert i != k ==> Differ(arenas[i], arenas[k]);
    assert i != k - 1 ==> Differ(arenas[i], arenas[k - 1]);
  }

  lemma GrownIsFresh(c: Config, p: Pool, size: nat, incr: nat, k: nat, ans: Answer)
    requires AnyConfig(c) && ArenasOk(c, p.arenas) && 1 <= k < |p.arenas| && ans.at != 0
    requires ReallocFits(c, p, size, incr, k, ans)
    requires FreshForRealloc(c, p, size, incr, k, ans)
    ensures var a := GrownArena(c, ans.at, size, incr, p.arenas[k - 1].at);
            forall i :: 0 <= i < |p.arenas| && i != k ==> Differ(p.arenas[i], a)
  {
    var a := GrownArena(c, ans.at, size, incr, p.arenas[k - 1].at);
    BigBase(c, ans.at);
    if GrossFits(c, size, incr) {
      FreshPlace(c, p.arenas, ans.at, a.limit, a.base, k);
    }
  }

  lemma MovedArenaIs(mem: seq<Byte>, a: Arena, size: nat, gross: nat, ans: Answer, base: nat,
                     keep: nat, boff: nat, nboff: nat)
    requires ans.at != 0 && MoveFits(a, size, gross, ans, base, |mem|)
    requires boff == a.base - a.at && nboff == base - ans.at
    requires keep == Kept(a.limit - a.at, gross)
    ensures a.at + keep <= |mem| && ans.at + keep + |ans.fill| <= |mem|
    ensures ans.at + boff + size <= |mem| && ans.at + nboff + size <= |mem|
    ensures MovedArena(mem, a, size, gross, ans, base)
            == Moved(mem, a.at, keep, ans.fill, ans.at, boff, nboff, size)
  {
  }

  /** What the quota check, realloc and memmove of JS_ArenaRealloc do to the pool `p`; `arena` has
      the fields for the k-th arena. */
  predicate Resized(c: Config, p: Pool, ap: nat, size: nat, incr: nat, k: nat, ans: Answer,
                    ok: bool, arena: Arena, q: Pool)
    requires c.align > 0 && ReallocFits(c, p, size, incr, k, ans)
  {
    var growth := SubWord(ReallocGross(c, size, incr), p.arenas[k].limit - p.arenas[k].at, c.word);
    && ok == (ans.at != 0 && (p.quota.Some? ==> growth <= p.quota.value))
    && if ok then
         && arena == GrownArena(c, ans.at, size, incr, ap)
         && q == Pool(p.arenas, p.cur,
                      if p.quota.Some? then Some(p.quota.value - growth) else None,
                      ReallocMem(c, p, size, incr, k, ans))
       else q == p
  }

  lemma ResizedIsRealloc(c: Config, p: Pool, ptr: nat, size: nat, incr: nat, k: nat, ans: Answer,
                         ok: bool, arena: Arena, q: Pool)
    requires c.align > 0 && Located(c, p, ptr, size, k) && ReallocFits(c, p, size, incr, k, ans)
    requires Resized(c, p, p.arenas[k - 1].at, size, incr, k, ans, ok, arena, q)
    ensures Realloc(c, p, ptr, size, incr, k, ans)
            == if ok then (q.(arenas := Relinked(c, p.arenas, k, arena.at)[k := arena]), arena.base)
               else (q, 0)
    ensures ok ==> arena == GrownArena(c, ans.at, size, incr, p.arenas[k - 1].at)
                   && arena.hdr == Some(p.arenas[k - 1].at) && arena.at == ans.at && ans.at != 0
    ensures q.arenas == p.arenas && q.cur == p.cur
  {
  }

  /** What realloc promises.  Where the arena does not fit into a word, the base may be anywhere
      behind the new chunk, but it is not that of another arena. */
  predicate FreshForRealloc(c: Config, p: Pool, size: nat, incr: nat, k: nat, ans: Answer)
    requires c.align > 0
  {
    && Fresh(c, p, ans, ReallocGross(c, size, incr), k)
    && (!GrossFits(c, size, incr) && ans.at != 0 ==>
          forall i :: 0 <= i < |p.arenas| && i != k ==>
            p.arenas[i].at != ans.at && p.arenas[i].base != NewBase(c, ans.at))
  }

  /** The promise of malloc or realloc for the way JS_ARENA_GROW goes. */
  predicate FreshForGrow(c: Config, p: Pool, ptr: nat, size: nat, incr: nat, k: nat, ans: Answer)
    requires c.word > 0 && c.align > 0 && p.cur < |p.arenas|
  {
    match GrowPath(c, p, ptr, size, incr)
    case InPlace => true
    case ByRealloc => FreshForRealloc(c, p, size, incr, k, ans)
    case ByCopy =>
      && AlignUp(size + incr, c.align) < c.word
      && Fresh(c, p, ans, Gross(c, AlignUp(size + incr, c.align)), -1)
  }

  // ---- Freeing ---------------------------------------------------------------------------

  /** `arenas` are those of `p` without the ones behind the h-th and before the k-th. */
  predicate Freeing(p: Pool, h: nat, k: nat, arenas: seq<Arena>, quota: Option<nat>) {
    && h < k <= |p.arenas| && arenas == p.arenas[..h + 1] + p.arenas[k..]
    && quota.Some? == p.quota.Some?
    && (quota.Some? ==>
          quota.value + Sizes(p.arenas, k) == p.quota.value + Sizes(p.arenas, h + 1))
  }

  lemma FreeOne(p: Pool, h: nat, k: nat, arenas: seq<Arena>, quota: Option<nat>)
    requires Freeing(p, h, k, arenas, quota) && Sized(p.arenas) && k < |p.arenas|
    ensures h + 1 < |arenas|
    ensures var a := arenas[h + 1];
            && a.at <= a.limit
            && Freeing(p, h, k + 1, Dropped(arenas, h + 1),
                       if quota.Some? then Some(quota.value + (a.limit - a.at)) else None)
  {
    assert arenas[h + 1] == p.arenas[k];
    assert arenas[..h + 1] == p.arenas[..h + 1] && arenas[h + 2..] == p.arenas[k + 1..];
  }

  /** The loop of FreeArenaList between two rounds; `a` is the next arena to free. */
  predicate AtFreeLoop(p: Pool, h: nat, k: nat, node: Structs, header: Cells,
                       arenas: seq<Arena>, quota: Option<nat>, a: nat)
  {
    && Freeing(p, h, k, arenas, quota) && Linked(node, header, arenas)
    && arenas[0].at == p.arenas[0].at && arenas[h].at == p.arenas[h].at
    && a == Next(arenas, h) && (a == 0 <==> k == |p.arenas|)
  }

  lemma FreeStart(p: Pool, h: nat, node: Structs, header: Cells)
    requires Linked(node, header, p.arenas) && h < |p.arenas|
    ensures AtFreeLoop(p, h, h + 1, node, header, p.arenas, p.quota, Next(p.arenas, h))
  {
    assert p.arenas == p.arenas[..h + 1] + p.arenas[h + 1..];
    ReadNode(node, header, p.arenas, h);
  }

  lemma FreeStep(p: Pool, h: nat, k: nat, node: Structs, header: Cells, arenas: seq<Arena>,
                 quota: Option<nat>, a: nat)
    requires AtFreeLoop(p, h, k, node, header, arenas, quota, a) && a != 0 && Sized(p.arenas)
    ensures k < |p.arenas| && h + 1 < |arenas| && arenas[h].at in node
    ensures a in node && a <= node[a].limit
    ensures var head := arenas[h].at;
            var after := Unlinked(node, head, a);
            && head in after
            && AtFreeLoop(p, h, k + 1, after, header, Dropped(arenas, h + 1),
                          if quota.Some? then Some(quota.value + (node[a].limit - a)) else None,
                          after[head].next)
  {
    FreeOne(p, h, k, arenas, quota);
    ReadNode(node, header, arenas, h + 1);
    Unlink(node, header, arenas, h);
    ReadNode(Unlinked(node, arenas[h].at, a), header, Dropped(arenas, h + 1), h);
  }

  lemma FreeDone(p: Pool, h: nat, k: nat, node: Structs, header: Cells, arenas: seq<Arena>,
                 quota: Option<nat>)
    requires AtFreeLoop(p, h, k, node, header, arenas, quota, 0) && h + 1 < |p.arenas|
    requires p.quota.Some? ==> p.quota.value + Sizes(p.arenas, h + 1) >= 0
    ensures Linked(node, header, arenas) && h < |arenas| && arenas[0].at == p.arenas[0].at
    ensures arenas[h].at == p.arenas[h].at && Pool(arenas, h, quota, p.mem) == FreeTail(p, h)
  {
  }

  lemma ReleaseAt(c: Config, p: Pool, mark: nat, k: nat)
    requires c.word > 0 && c.align > 0 && Sized(p.arenas) && k < |p.arenas|
    requires FirstMatch(c, p.arenas, 0, mark) == k
    ensures var q := Retract(c, p, k, mark);
            && Sized(q.arenas)
            && (SizesNotNegative(q.arenas, k + 1); SlowRelease(c, p, mark) == FreeTail(q, k))
  {
    RetractSizes(c, p, k, mark, k + 1);
  }

  // ---- The program -----------------------------------------------------------------------

  class JSArenaPool {
    const c: Config
    /** The address of the arena inside the pool object. */
    const first: nat
    var node: Structs
    var header: Cells
    var current: nat
    var quota: Option<nat>
    var mem: seq<Byte>
    ghost var arenas: seq<Arena>
    ghost var cur: nat

    ghost predicate Listed()
      reads this
    {
      Linked(node, header, arenas) && arenas[0].at == first
    }

    ghost predicate Valid()
      reads this
    {
      Listed() && cur < |arenas| && current == arenas[cur].at
    }

    ghost function View(): Pool
      reads this
    {
      Pool(arenas, cur, quota, mem)
    }

    /** JS_INIT_NAMED_ARENA_POOL */
    constructor (config: Config, at: nat, limit: Option<nat>, bytes: seq<Byte>)
      requires AnyConfig(config) && at != 0
      ensures Valid() && c == config && first == at && View() == Init(config, at, limit, bytes)
    {
      c, first := config, at;
      var base := AlignUp(at + config.structSize, config.align);
      node := map[at := Node(0, base, base, base)];
      header := map[];
      current, quota, mem := at, limit, bytes;
      arenas, cur := [Arena(at, base, base, base, None)], 0;
    }

    /** a->avail = avail */
    method PutAvail(a: nat, avail: nat, ghost k: nat)
      requires Valid() && k < |arenas| && a == arenas[k].at
      modifies this`node, this`arenas
      ensures Valid() && arenas == old(arenas)[k := old(arenas)[k].(avail := avail)]
    {
      SetAvail(node, header, arenas, k, avail);
      node := WithAvail(node, a, avail);
      arenas := arenas[k := arenas[k].(avail := avail)];
    }

    /** FreeArenaList */
    method FreeArenaList(head: nat, ghost h: nat)
      requires Valid() && h < |arenas| && arenas[h].at == head && Sized(arenas)
      modifies this
      ensures Valid()
      ensures (SizesNotNegative(old(arenas), h + 1); View() == FreeTail(old(View()), h))
    {
      ghost var p := View();
      SizesNotNegative(p.arenas, h + 1);
      FreeStart(p, h, node, header);
      ReadNode(node, header, arenas, h);
      var a := node[head].next;
      if a == 0 {
        return;
      }
      ghost var k := h + 1;
      while a != 0
        invariant AtFreeLoop(p, h, k, node, header, arenas, quota, a)
        invariant mem == p.mem && head == p.arenas[h].at
        decreases |p.arenas| - k
      {
        a := FreeNext(head, a, p, h, k);
        k := k + 1;
      }
      FreeDone(p, h, k, node, header, arenas, quota);
      current, cur := head, h;
    }

    /** The body of the loop of FreeArenaList: the arena at `a`, behind `head`, is freed. */
    method FreeNext(head: nat, a: nat, ghost p: Pool, ghost h: nat, ghost k: nat)
      returns (next: nat)
      requires AtFreeLoop(p, h, k, node, header, arenas, quota, a) && a != 0 && Sized(p.arenas)
      requires head == p.arenas[h].at
      modifies this`node, this`quota, this`arenas
      ensures AtFreeLoop(p, h, k + 1, node, header, arenas, quota, next)
    {
      FreeStep(p, h, k, node, header, arenas, quota, a);
      quota := if quota.Some? then Some(quota.value + (node[a].limit - a)) else None;
      node := Unlinked(node, head, a);
      arenas := Dropped(arenas, h + 1);
      next := node[head].next;
    }

    /** The part of JS_ArenaAllocate that extends the list behind its last arena, `ap`. */
    method AddArena(ap: nat, nb: nat, ans: Answer) returns (b: nat)
      requires Valid() && AnyConfig(c) && ArenasOk(c, arenas) && cur == |arenas| - 1
      requires ap == current && nb < c.word && Aligned(nb, c.align)
      requires AnswerFits(View(), ans, Gross(c, nb)) && Fresh(c, View(), ans, Gross(c, nb), -1)
      modifies this
      ensures Valid() && b == if Granted(c, old(View()), nb, ans) then current else 0
      ensures Granted(c, old(View()), nb, ans) ==>
                HasNewArena(c, old(View()), nb, ans, View()) && Fits(arenas[cur], nb)
      ensures !Granted(c, old(View()), nb, ans) ==> View() == old(View())
    {
      var big := nb > c.arenasize;
      var gross := Gross(c, nb);
      b := ans.at;
      if gross < nb || (quota.Some? && gross > quota.value) || b == 0 {
        return 0;
      }
      ExtendList(c, View(), node, header, nb, ans);
      var base := if big then NewBase(c, b)
                  else AlignUp(b + c.structSize, c.align);
      ghost var arena := NewArena(c, b, nb, ap);
      assert Node(0, base, b + gross, base) == Node(0, arena.base, arena.limit, arena.avail);
      quota := if quota.Some? then Some(quota.value - gross) else None;
      mem := Store(mem, b, ans.fill);
      node := node[ap := node[ap].(next := b)][b := Node(0, base, b + gross, base)];
      header := if big then header[base := ap] else header - {base};
      current := b;
      arenas, cur := arenas + [arena], |arenas|;
    }

    /** The body of the loop of JS_ArenaAllocate, which leaves the arena at `a` behind. */
    method NextArena(a: nat, nb: nat, ans: Answer, ghost was: Pool, ghost made: bool)
      returns (b: nat, ghost made': bool)
      requires Valid() && AnyConfig(c) && ArenasOk(c, was.arenas) && was.cur < |was.arenas|
      requires nb < c.word && Aligned(nb, c.align) && AnswerFits(was, ans, Gross(c, nb))
      requires Fresh(c, was, ans, Gross(c, nb), -1)
      requires AtAllocLoop(c, was, nb, ans, View(), made)
      requires a == current && !Fits(arenas[cur], nb)
      modifies this
      ensures Valid()
      ensures b == 0 ==> (View(), 0) == Allocate(c, was, nb, ans)
      ensures b != 0 ==> b == current && AtAllocLoop(c, was, nb, ans, View(), made')
      ensures b != 0 && !made' ==> !made && cur == old(cur) + 1
      ensures made' && b != 0 ==> !made
    {
      ReadNode(node, header, arenas, cur);
      AllocLoopStep(c, was, nb, ans, View(), made);
      made' := node[a].next == 0;
      if node[a].next == 0 {
        b := AddArena(a, nb, ans);
      } else {
        b := node[a].next;
        current, cur := b, cur + 1;
      }
    }

    /** JS_ArenaAllocate */
    method ArenaAllocate(nb: nat, ans: Answer) returns (p: nat)
      requires Valid() && AnyConfig(c) && ArenasOk(c, arenas)
      requires nb < c.word && Aligned(nb, c.align)
      requires AnswerFits(View(), ans, Gross(c, nb)) && Fresh(c, View(), ans, Gross(c, nb), -1)
      modifies this
      ensures Valid() && (View(), p) == Allocate(c, old(View()), nb, ans)
    {
      ghost var was := View();
      ghost var made := false;
      var a := current;
      ReadNode(node, header, arenas, cur);
      while nb > node[a].limit || node[a].avail > node[a].limit - nb
        invariant Valid() && a == current && a in node
        invariant node[a].limit == arenas[cur].limit && node[a].avail == arenas[cur].avail
        invariant AtAllocLoop(c, was, nb, ans, View(), made)
        decreases !made, |arenas| - cur
      {
        a, made := NextArena(a, nb, ans, was, made);
        if a == 0 {
          return 0;
        }
        ReadNode(node, header, arenas, cur);
      }
      AllocLoopDone(c, was, nb, ans, View(), made);
      p := node[a].avail;
      PutAvail(a, p + nb, cur);
    }

    /** JS_ARENA_ALLOCATE */
    method Alloc(nb: nat, ans: Answer) returns (p: nat)
      requires Valid() && AnyConfig(c) && ArenasOk(c, arenas) && AlignUp(nb, c.align) < c.word
      requires AnswerFits(View(), ans, Gross(c, AlignUp(nb, c.align)))
      requires Fresh(c, View(), ans, Gross(c, AlignUp(nb, c.align)), -1)
      modifies this
      ensures Valid() && (View(), p) == ArenaPool.Alloc(c, old(View()), nb, ans)
    {
      UpFacts(nb, c.align);
      ReadNode(node, header, arenas, cur);
      var a := current;
      var m := AlignUp(nb, c.align);
      p := node[a].avail;
      if m > node[a].limit || p > node[a].limit - m {
        p := ArenaAllocate(m, ans);
      } else {
        FitsInCurrent(c, View(), nb, ans);
        PutAvail(a, p + m, cur);
      }
    }

    /** JS_ArenaRealloc for a block at the start of the k-th arena. */
    method ArenaRealloc(p: nat, size: nat, incr: nat, ghost k: nat, ans: Answer)
      returns (r: nat)
      requires Valid() && AnyConfig(c) && ArenasOk(c, arenas) && Located(c, View(), p, size, k)
      requires ReallocFits(c, View(), size, incr, k, ans)
      requires FreshForRealloc(c, View(), size, incr, k, ans)
      modifies this
      ensures Valid()
      ensures (View(), r) == Realloc(c, old(View()), p, size, incr, k, ans)
    {
      var ap, a := FindLink(p, size, k);
      ReadNode(node, header, arenas, k);
      var ok, arena := Resize(a, node[a], ap, size, incr, k, ans);
      ResizedIsRealloc(c, old(View()), p, size, incr, k, ans, ok, arena, View());
      if !ok {
        return 0;
      }
      GrownIsFresh(c, old(View()), size, incr, k, ans);
      Relink(a, arena, ap, k);
      r := arena.base;
    }

    /** The quota check, realloc and memmove of JS_ArenaRealloc for the arena at `a` with the
        fields `n`. */
    method Resize(a: nat, n: Node, ap: nat, size: nat, incr: nat, ghost k: nat, ans: Answer)
      returns (ok: bool, arena: Arena)
      requires c.align > 0 && k < |arenas|
      requires a == arenas[k].at && n.base == arenas[k].base && n.limit == arenas[k].limit
      requires ReallocFits(c, View(), size, incr, k, ans)
      modifies this`quota, this`mem
      ensures Resized(c, old(View()), ap, size, incr, k, ans, ok, arena, View())
    {
      var aoff := AlignUp(size + incr, c.align);
      var hdrsz := HdrSize(c, true);
      var gross := AddWord(hdrsz, aoff, c.word);
      var growth := SubWord(gross, n.limit - a, c.word);
      if (quota.Some? && growth > quota.value) || ans.at == 0 {
        return false, Arena(0, 0, 0, 0, None);
      }
      var base := AlignDown(ans.at + hdrsz, BaseAlign(c));
      MoveArena(a, n, arenas[k], gross, base, size, ans);
      quota := if quota.Some? then Some(quota.value - growth) else None;
      ok := true;
      arena := Arena(ans.at, base, ans.at + gross, AddWord(base, aoff, c.word), Some(ap));
    }

    method MoveArena(a: nat, n: Node, ghost arena: Arena, gross: nat, base: nat, size: nat,
                     ans: Answer)
      requires a == arena.at && n.base == arena.base && n.limit == arena.limit && ans.at != 0
      requires MoveFits(arena, size, gross, ans, base, |mem|)
      modifies this`mem
      ensures mem == MovedArena(old(mem), arena, size, gross, ans, base)
    {
      var keep, boff, nboff := Kept(n.limit - a, gross), n.base - a, base - ans.at;
      MovedArenaIs(mem, arena, size, gross, ans, base, keep, boff, nboff);
      MoveChunk(a, keep, ans.fill, ans.at, boff, nboff, size);
    }

    /** The realloc and memmove: `keep` bytes at `at` go to `to`, and the block at offset `boff` to
        offset `nboff`. */
    method MoveChunk(at: nat, keep: nat, fill: seq<Byte>, to: nat, boff: nat, nboff: nat,
                     size: nat)
      requires at + keep <= |mem| && to + keep + |fill| <= |mem|
      requires to + boff + size <= |mem| && to + nboff + size <= |mem|
      modifies this`mem
      ensures mem == Moved(old(mem), at, keep, fill, to, boff, nboff, size)
    {
      mem := Store(mem, to, mem[at..at + keep] + fill);
      if boff != nboff {
        mem := Store(mem, to + nboff, mem[to + boff..to + boff + size]);
      }
    }

    /** Puts the k-th arena, at `a`, where `arena` says, and updates all pointers to it. */
    method Relink(a: nat, arena: Arena, ap: nat, ghost k: nat)
      requires Valid() && 1 <= k < |arenas| && ap == arenas[k - 1].at && a == arenas[k].at
      requires arena.at != 0 && arena.hdr == Some(ap)
      requires forall i :: 0 <= i < |arenas| && i != k ==> Differ(arenas[i], arena)
      modifies this`node, this`header, this`current, this`arenas
      ensures Valid() && arenas == Relinked(c, old(arenas), k, arena.at)[k := arena]
    {
      Remake(c, node, header, arenas, k, arena);
      assert cur != k ==> Differ(arenas[cur], arenas[k]);
      current := if current == a then arena.at else current;
      header := MovedCells(c, node, header, a, arena, ap);
      node := MovedNodes(node, a, arena, ap);
      arenas := Relinked(c, arenas, k, arena.at)[k := arena];
    }

    /** How JS_ArenaRealloc finds the arena of a block, and the link that points at it. */
    method FindLink(p: nat, size: nat, ghost k: nat) returns (ap: nat, a: nat)
      requires Valid() && Located(c, View(), p, size, k)
      ensures ap == arenas[k - 1].at && a == arenas[k].at
    {
      ReadNode(node, header, arenas, k);
      ReadNode(node, header, arenas, k - 1);
      if size > c.arenasize {
        ap := header[p];
        a := node[ap].next;
      } else {
        ghost var j := 1;
        ap := first;
        ReadNode(node, header, arenas, 0);
        a := node[ap].next;
        while a != current
          invariant 1 <= j <= k && ap == arenas[j - 1].at && a == arenas[j].at
          decreases k - j
        {
          ReadNode(node, header, arenas, j);
          ap := a;
          a := node[ap].next;
          j := j + 1;
        }
        assert j != k ==> Differ(arenas[j], arenas[k]);
      }
    }

    /** JS_ArenaGrow by copying. */
    method GrowCopy(p: nat, size: nat, incr: nat, ghost k: nat, ans: Answer) returns (r: nat)
      requires Valid() && AnyConfig(c) && ArenasOk(c, arenas)
      requires CanGrow(c, View(), p, size, incr, k, ans)
      requires GrowPath(c, View(), p, size, incr) == ByCopy
      requires FreshForGrow(c, View(), p, size, incr, k, ans)
      modifies this
      ensures Valid()
      ensures (View(), r) == ArenaPool.Grow(c, old(View()), p, size, incr, k, ans)
    {
      r := Alloc(size + incr, ans);
      if r != 0 {
        mem := Store(mem, r, mem[p..p + size]);
      }
    }

    /** JS_ArenaGrow */
    method ArenaGrow(p: nat, size: nat, incr: nat, ghost k: nat, ans: Answer) returns (r: nat)
      requires Valid() && AnyConfig(c) && ArenasOk(c, arenas)
      requires CanGrow(c, View(), p, size, incr, k, ans)
      requires GrowPath(c, View(), p, size, incr)
               == if size > c.arenasize then ByRealloc else ByCopy
      requires FreshForGrow(c, View(), p, size, incr, k, ans)
      modifies this
      ensures Valid()
      ensures (View(), r) == ArenaPool.Grow(c, old(View()), p, size, incr, k, ans)
    {
      if size > c.arenasize {
        r := ArenaRealloc(p, size, incr, k, ans);
      } else {
        r := GrowCopy(p, size, incr, k, ans);
      }
    }

    /** JS_ARENA_GROW for a block in the k-th arena. */
    method Grow(p: nat, size: nat, incr: nat, ghost k: nat, ans: Answer) returns (r: nat)
      requires Valid() && AnyConfig(c) && ArenasOk(c, arenas)
      requires CanGrow(c, View(), p, size, incr, k, ans)
      requires FreshForGrow(c, View(), p, size, incr, k, ans)
      modifies this
      ensures Valid()
      ensures (View(), r) == ArenaPool.Grow(c, old(View()), p, size, incr, k, ans)
    {
      ReadNode(node, header, arenas, cur);
      var a := current;
      if node[a].avail == p + AlignUp(size, c.align) {
        var nb := AlignUp(size + incr, c.align);
        if node[a].limit >= nb && p <= node[a].limit - nb {
          PutAvail(a, p + nb, cur);
          r := p;
        } else if p == node[a].base {
          r := ArenaRealloc(p, size, incr, k, ans);
        } else {
          r := ArenaGrow(p, size, incr, k, ans);
        }
      } else {
        r := ArenaGrow(p, size, incr, k, ans);
      }
    }

    /** JS_ARENA_MARK */
    method TakeMark() returns (mark: nat)
      requires Valid()
      ensures mark == MarkOf(View())
    {
      ReadNode(node, header, arenas, cur);
      mark := node[current].avail;
    }

    /** JS_ArenaRelease */
    method ArenaRelease(mark: nat)
      requires Valid() && c.word > 0 && c.align > 0 && Sized(arenas)
      modifies this
      ensures Valid() && View() == SlowRelease(c, old(View()), mark)
    {
      ghost var k := 0;
      var a := first;
      ReadNode(node, header, arenas, 0);
      while a != 0
        invariant k <= |arenas| && a == (if k < |arenas| then arenas[k].at else 0)
        invariant Valid() && View() == old(View())
        invariant FirstMatch(c, arenas, 0, mark) == FirstMatch(c, arenas, k, mark)
        decreases |arenas| - k
      {
        ReadNode(node, header, arenas, k);
        if SubWord(mark, node[a].base, c.word) <= SubWord(node[a].avail, node[a].base, c.word) {
          var avail := AlignUp(mark, c.align);
          ReleaseAt(c, View(), mark, k);
          PutAvail(a, avail, k);
          FreeArenaList(a, k);
          return;
        }
        a := node[a].next;
        k := k + 1;
      }
    }

    /** JS_ARENA_RELEASE */
    method Release(mark: nat)
      requires Valid() && c.word > 0 && c.align > 0 && Sized(arenas)
      modifies this
      ensures Valid() && View() == ArenaPool.Release(c, old(View()), mark)
    {
      ReadNode(node, header, arenas, cur);
      var a := current;
      if a != first
         && SubWord(mark, node[a].base, c.word) <= SubWord(node[a].avail, node[a].base, c.word) {
        var avail := AlignUp(mark, c.align);
        PutAvail(a, avail, cur);
      } else {
        assert cur != 0 ==> Differ(arenas[cur], arenas[0]);
        ArenaRelease(mark);
      }
    }

    /** JS_FreeArenaPool */
    method FreeArenaPool()
      requires Valid() && Sized(arenas)
      modifies this
      ensures Valid() && View() == FreePool(old(View()))
    {
      FreeArenaList(first, 0);
    }
  }
}
