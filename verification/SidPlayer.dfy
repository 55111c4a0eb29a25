/** The loop of be_sidplayer_play in ext/audio/sid.c, which fills chunks with samples and calls the
    song's play routine in between. */
module SidPlayer {
  import opened Common
  import opened SidMachine

  /** What the loop uses: how the machine is set up from its registers, how it makes one sample, the
      play routine, and the number of samples between calls that it leaves. */
  datatype Engine<!M> = Engine(setUp: M -> M, sample: M -> (M, int), play: M -> M,
                               period: M -> int)

  /** The machine, and how many samples are left before the next call of the play routine.  With a
      negative number the player is lost: the loop would render that many modulo the width of an
      unsigned long, far beyond its buffer. */
  datatype Player<M> = Player(m: M, left: int)

  datatype Event = Called | Out(x: int) | Lost

  /** Setting up twice is setting up once, and samples leave a machine that is set up as it is. */
  ghost predicate Sound<M(!new)>(e: Engine<M>) {
    && (forall m :: e.setUp(e.setUp(m)) == e.setUp(m))
    && (forall m :: e.setUp(m) == m ==> e.setUp(e.sample(m).0) == e.sample(m).0)
  }

  /** synth_render */
  function Rendered<M>(e: Engine<M>, m: M, n: nat): (r: (M, seq<int>))
    ensures |r.1| == n
  {
    Repeat(e.sample, e.setUp(m), n)
  }

  function Outs(xs: seq<int>): (r: seq<Event>)
    ensures |r| == |xs|
  {
    if xs == [] then [] else [Out(xs[0])] + Outs(xs[1..])
  }

  function OutCount(es: seq<Event>): nat {
    if es == [] then 0 else (if es[0].Out? then 1 else 0) + OutCount(es[1..])
  }

  // ---- Sample by sample ------------------------------------------------------------------

  /** The player without chunks: the play routine is called whenever no sample is left, and
      otherwise one sample is rendered. */
  function Tick<M>(e: Engine<M>, p: Player<M>): (Player<M>, Event) {
    if p.left < 0 then (p, Lost)
    else if p.left == 0 then
      var m := e.play(p.m);
      (Player(e.setUp(m), e.period(m)), Called)
    else
      var (m, xs) := Rendered(e, p.m, 1);
      (Player(m, p.left - 1), Out(xs[0]))
  }

  function Ticks<M>(e: Engine<M>, p: Player<M>, k: nat): (r: (Player<M>, seq<Event>))
    ensures |r.1| == k
  {
    Repeat((p: Player<M>) => Tick(e, p), p, k)
  }

  lemma TicksNext<M>(e: Engine<M>, p: Player<M>, n: nat)
    ensures var (q, es) := Ticks(e, p, n);
            Ticks(e, p, n + 1) == (Tick(e, q).0, es + [Tick(e, q).1])
  {
    RepeatLast((p: Player<M>) => Tick(e, p), p, n);
  }

  lemma {:induction false} TicksAre<M>(e: Engine<M>, p: Player<M>, n: nat)
    ensures forall k :: 0 <= k < n ==> Ticks(e, p, n).1[k] == Tick(e, Ticks(e, p, k).0).1
    decreases n
  {
    if n > 0 {
      TicksAre(e, p, n - 1);
      TicksNext(e, p, n - 1);
    }
  }

  // ---- Chunk by chunk --------------------------------------------------------------------

  /** How many of `left` samples are rendered when there is room for `room`. */
  function Share(left: int, room: nat): nat {
    if left < 0 then 0 else if left > room then room else left
  }

  /** The call of the play routine, if it is due. */
  function Due<M>(e: Engine<M>, p: Player<M>): (Player<M>, seq<Event>) {
    if p.left == 0 then
      var m := e.play(p.m);
      (Player(m, e.period(m)), [Called])
    else (p, [])
  }

  /** One round of the loop, with room for `room` samples in the chunk. */
  function Round<M>(e: Engine<M>, p: Player<M>, room: nat): (r: (Player<M>, seq<Event>, nat))
    ensures r.2 <= room
  {
    var (q, es) := Due(e, p);
    var n := Share(q.left, room);
    var (m, xs) := Rendered(e, q.m, n);
    (Player(m, q.left - n), es + Outs(xs), n)
  }

  /** The loop for a chunk of `size` samples, if it ends within so many rounds.  It does not go on
      with a player that is lost. */
  function Chunk<M>(e: Engine<M>, p: Player<M>, size: nat, rounds: nat)
    : Option<(Player<M>, seq<Event>)>
    decreases rounds
  {
    if size == 0 || p.left < 0 then Some((p, []))
    else if rounds == 0 then None
    else
      var (q, es, n) := Round(e, p, size);
      match Chunk(e, q, size - n, rounds - 1)
      case None => None
      case Some((r, more)) => Some((r, es + more))
  }

  function Chunks<M>(e: Engine<M>, p: Player<M>, sizes: seq<nat>, rounds: nat)
    : Option<(Player<M>, seq<Event>)>
    decreases |sizes|
  {
    if sizes == [] then Some((p, []))
    else
      match Chunk(e, p, sizes[0], rounds)
      case None => None
      case Some((q, es)) =>
        match Chunks(e, q, sizes[1..], rounds)
        case None => None
        case Some((r, more)) => Some((r, es + more))
  }

  function Sum(sizes: seq<nat>): nat {
    if sizes == [] then 0 else sizes[0] + Sum(sizes[1..])
  }

  // ---- A round is a number of ticks ------------------------------------------------------

  /** Between calls of the play routine the machine is as rendering has left it. */
  ghost predicate Between<M>(e: Engine<M>, p: Player<M>) { p.left > 0 ==> e.setUp(p.m) == p.m }

  lemma {:induction false} RepeatStaysSetUp<M(!new)>(e: Engine<M>, m: M, n: nat)
    requires Sound(e) && e.setUp(m) == m
    ensures e.setUp(Repeat(e.sample, m, n).0) == Repeat(e.sample, m, n).0
    decreases n
  {
    if n > 0 { RepeatStaysSetUp(e, e.sample(m).0, n - 1); }
  }

  lemma RenderedStaysSetUp<M(!new)>(e: Engine<M>, m: M, n: nat)
    requires Sound(e)
    ensures e.setUp(Rendered(e, m, n).0) == Rendered(e, m, n).0
  {
    RepeatStaysSetUp(e, e.setUp(m), n);
  }

  lemma RenderedSplit<M(!new)>(e: Engine<M>, m: M, a: nat, b: nat)
    requires Sound(e)
    ensures var (m1, xs) := Rendered(e, m, a);
            var (m2, ys) := Rendered(e, m1, b);
            Rendered(e, m, a + b) == (m2, xs + ys)
  {
    RepeatSplit(e.sample, e.setUp(m), a, b);
    RenderedStaysSetUp(e, m, a);
  }

  lemma {:induction false} OutsSplit(xs: seq<int>, ys: seq<int>)
    ensures Outs(xs + ys) == Outs(xs) + Outs(ys)
  {
    if xs == [] {
      assert xs + ys == ys;
    } else {
      OutsSplit(xs[1..], ys);
      assert (xs + ys)[1..] == xs[1..] + ys;
    }
  }

  lemma {:induction false} OutCountSplit(a: seq<Event>, b: seq<Event>)
    ensures OutCount(a + b) == OutCount(a) + OutCount(b)
  {
    if a == [] {
      assert a + b == b;
    } else {
      OutCountSplit(a[1..], b);
      assert (a + b)[1..] == a[1..] + b;
    }
  }

  lemma {:induction false} OutsAreOut(xs: seq<int>)
    ensures OutCount(Outs(xs)) == |xs|
    ensures xs != [] ==> Outs(xs)[|xs| - 1].Out?
  {
    if xs != [] { OutsAreOut(xs[1..]); }
  }

  /** The player is not lost before the n-th tick. */
  ghost predicate Plays<M>(e: Engine<M>, p: Player<M>, n: nat) {
    forall k :: 0 <= k < n ==> Ticks(e, p, k).0.left >= 0
  }

  lemma {:induction false} RenderIsTicks<M(!new)>(e: Engine<M>, p: Player<M>, n: nat)
    requires Sound(e) && e.setUp(p.m) == p.m && (n == 0 || n <= p.left)
    ensures var (m, xs) := Rendered(e, p.m, n);
            Ticks(e, p, n) == (Player(m, p.left - n), Outs(xs))
    decreases n
  {
    if n > 0 {
      var (m1, xs) := Rendered(e, p.m, 1);
      RenderedSplit(e, p.m, 1, n - 1);
      RenderedStaysSetUp(e, p.m, 1);
      RenderIsTicks(e, Player(m1, p.left - 1), n - 1);
      OutsSplit(xs, Rendered(e, m1, n - 1).1);
      assert xs == [xs[0]] && Outs(xs) == [Out(xs[0])];
    }
  }

  lemma CallIsTick<M(!new)>(e: Engine<M>, p: Player<M>, n: nat)
    requires Sound(e) && p.left == 0 && (n == 0 || n <= e.period(e.play(p.m)))
    ensures var m0 := e.play(p.m);
            var (m, xs) := Rendered(e, m0, n);
            Ticks(e, p, 1 + n) == (Player(m, e.period(m0) - n), [Called] + Outs(xs))
  {
    var m0 := e.play(p.m);
    RenderIsTicks(e, Player(e.setUp(m0), e.period(m0)), n);
  }

  /** A round makes the ticks that its events show. */
  lemma RoundIsTicks<M(!new)>(e: Engine<M>, p: Player<M>, room: nat)
    requires Sound(e) && Between(e, p) && room > 0 && p.left >= 0
    ensures var (q, es, n) := Round(e, p, room);
            && Ticks(e, p, |es|) == (q, es) && Between(e, q) && Plays(e, p, |es|)
            && |es| > 0 && (q.left < 0 ==> n == 0) && OutCount(es) == n <= room
            && (n > 0 ==> es[|es| - 1].Out?)
  {
    var (d, due) := Due(e, p);
    var n := Share(d.left, room);
    var (m, xs) := Rendered(e, d.m, n);
    OutsAreOut(xs);
    OutCountSplit(due, Outs(xs));
    RenderedStaysSetUp(e, d.m, n);
    RoundPlays(e, p, room);
    if p.left == 0 {
      CallIsTick(e, p, n);
    } else {
      RenderIsTicks(e, p, n);
      assert due + Outs(xs) == Outs(xs);
    }
  }

  lemma RoundPlays<M(!new)>(e: Engine<M>, p: Player<M>, room: nat)
    requires Sound(e) && Between(e, p) && p.left >= 0
    ensures Plays(e, p, |Round(e, p, room).1|)
  {
    forall k | 0 <= k < |Round(e, p, room).1|
      ensures Ticks(e, p, k).0.left >= 0
    {
      if p.left > 0 {
        RenderIsTicks(e, p, k);
      } else if k > 0 {
        CallIsTick(e, p, k - 1);
      }
    }
  }

  // ---- Chunks are ticks ------------------------------------------------------------------

  lemma TicksSplit<M(!new)>(e: Engine<M>, p: Player<M>, a: nat, b: nat)
    ensures var (q, es) := Ticks(e, p, a);
            var (r, fs) := Ticks(e, q, b);
            Ticks(e, p, a + b) == (r, es + fs)
  {
    RepeatSplit((p: Player<M>) => Tick(e, p), p, a, b);
  }

  /** `es` are the events of the ticks from `p` to `r`: they put out `size` samples, and nothing
      happens after the last one; or fewer, and then the player is lost. */
  ghost predicate Makes<M>(e: Engine<M>, p: Player<M>, size: nat, r: Player<M>, es: seq<Event>) {
    && Ticks(e, p, |es|) == (r, es) && Plays(e, p, |es|) && Between(e, r)
    && if r.left < 0 then OutCount(es) < size
       else OutCount(es) == size && EndsOut(es)
  }

  predicate EndsOut(es: seq<Event>) { es == [] || es[|es| - 1].Out? }

  lemma EndsOutJoin(es: seq<Event>, fs: seq<Event>)
    requires EndsOut(fs) && (fs == [] ==> EndsOut(es))
    ensures EndsOut(es + fs)
  {
    if fs == [] { assert es + fs == es; }
  }

  lemma TicksJoin<M(!new)>(e: Engine<M>, p: Player<M>, q: Player<M>, es: seq<Event>,
                           r: Player<M>, fs: seq<Event>)
    requires Ticks(e, p, |es|) == (q, es) && Ticks(e, q, |fs|) == (r, fs)
    ensures Ticks(e, p, |es + fs|) == (r, es + fs)
  {
    TicksSplit(e, p, |es|, |fs|);
  }

  lemma MakesJoin<M(!new)>(e: Engine<M>, p: Player<M>, a: nat, q: Player<M>, es: seq<Event>,
                           b: nat, r: Player<M>, fs: seq<Event>)
    requires Ticks(e, p, |es|) == (q, es) && OutCount(es) == a && Plays(e, p, |es|)
    requires Makes(e, q, b, r, fs) && (fs == [] ==> EndsOut(es)) && q.left >= 0
    ensures Makes(e, p, a + b, r, es + fs)
  {
    TicksJoin(e, p, q, es, r, fs);
    OutCountSplit(es, fs);
    PlaysJoin(e, p, q, es, |fs|);
    if EndsOut(fs) { EndsOutJoin(es, fs); }
  }

  lemma PlaysJoin<M(!new)>(e: Engine<M>, p: Player<M>, q: Player<M>, es: seq<Event>, n: nat)
    requires Ticks(e, p, |es|) == (q, es) && Plays(e, p, |es|) && Plays(e, q, n)
    ensures Plays(e, p, |es| + n)
  {
    forall k | 0 <= k < |es| + n
      ensures Ticks(e, p, k).0.left >= 0
    {
      if k >= |es| { TicksSplit(e, p, |es|, k - |es|); }
    }
  }

  /** A chunk is its first round, and then a chunk of the rest. */
  lemma ChunkGoesOn<M(!new)>(e: Engine<M>, p: Player<M>, size: nat, rounds: nat, r: Player<M>,
                             es: seq<Event>) returns (more: seq<Event>)
    requires size > 0 && p.left >= 0 && Chunk(e, p, size, rounds) == Some((r, es))
    ensures rounds > 0
    ensures var (q, first, n) := Round(e, p, size);
            && Chunk(e, q, size - n, rounds - 1) == Some((r, more)) && es == first + more
            && (q.left < 0 ==> r == q && es == first)
  {
    var (q, first, n) := Round(e, p, size);
    more := Chunk(e, q, size - n, rounds - 1).value.1;
    if q.left < 0 { assert first + more == first; }
  }

  lemma {:induction false} ChunkMakes<M(!new)>(e: Engine<M>, p: Player<M>, size: nat,
                                               rounds: nat, r: Player<M>, es: seq<Event>)
    requires Sound(e) && Between(e, p) && p.left >= 0
    requires Chunk(e, p, size, rounds) == Some((r, es))
    ensures Makes(e, p, size, r, es) && (size > 0 ==> es != [])
    decreases rounds
  {
    if size > 0 {
      var more := ChunkGoesOn(e, p, size, rounds, r, es);
      var (q, first, n) := Round(e, p, size);
      if q.left >= 0 {
        RoundIsTicks(e, p, size);
        ChunkMakes(e, q, size - n, rounds - 1, r, more);
        MakesJoin(e, p, n, q, first, size - n, r, more);
      } else {
        LostInRound(e, p, size);
      }
    }
  }

  lemma LostInRound<M(!new)>(e: Engine<M>, p: Player<M>, size: nat)
    requires Sound(e) && Between(e, p) && size > 0 && p.left >= 0
    requires Round(e, p, size).0.left < 0
    ensures var (q, es, n) := Round(e, p, size);
            Makes(e, p, size, q, es) && es != []
  {
    RoundIsTicks(e, p, size);
  }

  lemma {:induction false} LostStays<M(!new)>(e: Engine<M>, p: Player<M>, sizes: seq<nat>,
                                              rounds: nat)
    requires p.left < 0
    ensures Chunks(e, p, sizes, rounds) == Some((p, []))
    decreases |sizes|
  {
    if sizes != [] {
      LostStays(e, p, sizes[1..], rounds);
      var none: seq<Event> := [];
      assert none + none == none;
    }
  }

  lemma {:induction false} ChunksMake<M(!new)>(e: Engine<M>, p: Player<M>, sizes: seq<nat>,
                                               rounds: nat)
    requires Sound(e) && Between(e, p) && Chunks(e, p, sizes, rounds).Some? && p.left >= 0
    ensures var (r, es) := Chunks(e, p, sizes, rounds).value;
            Makes(e, p, Sum(sizes), r, es)
    decreases |sizes|
  {
    if sizes != [] {
      var (q, es) := Chunk(e, p, sizes[0], rounds).value;
      ChunkMakes(e, p, sizes[0], rounds, q, es);
      var (r, fs) := Chunks(e, q, sizes[1..], rounds).value;
      if q.left < 0 {
        LostStays(e, q, sizes[1..], rounds);
        assert es + fs == es;
      } else {
        ChunksMake(e, q, sizes[1..], rounds);
        MakesJoin(e, p, sizes[0], q, es, Sum(sizes[1..]), r, fs);
      }
    }
  }

  lemma {:induction false} SomeOut(es: seq<Event>, i: nat)
    requires i < |es| && es[i].Out?
    ensures OutCount(es) > 0
  {
    if i > 0 { SomeOut(es[1..], i - 1); }
  }

  /** From one player, as many samples are made in one way only. */
  lemma MakesOnce<M(!new)>(e: Engine<M>, p: Player<M>, size: nat, q: Player<M>, es: seq<Event>,
                     r: Player<M>, fs: seq<Event>)
    requires Makes(e, p, size, q, es) && Makes(e, p, size, r, fs) && |es| <= |fs|
    ensures q == r && es == fs
  {
    var k := |fs| - |es|;
    TicksSplit(e, p, |es|, k);
    var rest := Ticks(e, q, k).1;
    OutCountSplit(es, rest);
    if k > 0 {
      assert fs == es + rest && rest[k - 1] == fs[|fs| - 1];
      assert Ticks(e, p, |es|).0.left >= 0;
      if r.left >= 0 {
        SomeOut(rest, k - 1);
      }
    } else {
      assert es + rest == es;
    }
  }

  /** The samples, the calls of the play routine between them and the state that is left depend on
      how many samples are made, and not on the sizes of the chunks; nor does whether the player is
      lost. */
  lemma ChunkSizesDoNotMatter<M(!new)>(e: Engine<M>, p: Player<M>, sizes: seq<nat>,
                                       others: seq<nat>, rounds: nat, more: nat)
    requires Sound(e) && Between(e, p) && Sum(sizes) == Sum(others) && p.left >= 0
    requires Chunks(e, p, sizes, rounds).Some? && Chunks(e, p, others, more).Some?
    ensures Chunks(e, p, sizes, rounds) == Chunks(e, p, others, more)
  {
    ChunksMake(e, p, sizes, rounds);
    ChunksMake(e, p, others, more);
    var (q, es) := Chunks(e, p, sizes, rounds).value;
    var (r, fs) := Chunks(e, p, others, more).value;
    if |es| <= |fs| {
      MakesOnce(e, p, Sum(sizes), q, es, r, fs);
    } else {
      MakesOnce(e, p, Sum(sizes), r, fs, q, es);
    }
  }

  // ---- When a chunk is completed ---------------------------------------------------------

  lemma TicksCountMore<M(!new)>(e: Engine<M>, p: Player<M>, a: nat, b: nat)
    requires a <= b
    ensures OutCount(Ticks(e, p, a).1) <= OutCount(Ticks(e, p, b).1)
  {
    TicksSplit(e, p, a, b - a);
    var (q, es) := Ticks(e, p, a);
    OutCountSplit(es, Ticks(e, q, b - a).1);
  }

  lemma ChunkOnce<M(!new)>(e: Engine<M>, p: Player<M>, size: nat, rounds: nat)
    requires size > 0
    requires var (q, es, n) := Round(e, p, size);
             Chunk(e, q, size - n, rounds).Some?
    ensures Chunk(e, p, size, rounds + 1).Some?
  {
  }

  /** The player without chunks makes `size` samples, or is lost, within k ticks. */
  ghost predicate Gets<M>(e: Engine<M>, p: Player<M>, size: nat, k: nat) {
    OutCount(Ticks(e, p, k).1) >= size || Ticks(e, p, k).0.left < 0
  }

  lemma GetsWithin<M(!new)>(e: Engine<M>, p: Player<M>, size: nat, q: Player<M>, es: seq<Event>,
                            k: nat)
    requires Ticks(e, p, |es|) == (q, es) && Plays(e, p, |es|) && q.left >= 0
    requires Gets(e, p, size, k) && k <= |es|
    ensures OutCount(es) >= size
  {
    TicksCountMore(e, p, k, |es|);
  }

  lemma GetsAfter<M(!new)>(e: Engine<M>, p: Player<M>, size: nat, q: Player<M>, es: seq<Event>,
                           n: nat, more: nat)
    requires Ticks(e, p, |es|) == (q, es) && OutCount(es) == n
    requires Gets(e, p, size + n, |es| + more)
    ensures Gets(e, q, size, more)
  {
    TicksAfter(e, p, q, es, more);
  }

  lemma TicksAfter<M(!new)>(e: Engine<M>, p: Player<M>, q: Player<M>, es: seq<Event>, more: nat)
    requires Ticks(e, p, |es|) == (q, es)
    ensures Ticks(e, p, |es| + more).0 == Ticks(e, q, more).0
    ensures OutCount(Ticks(e, p, |es| + more).1) == OutCount(es) + OutCount(Ticks(e, q, more).1)
  {
    TicksSplit(e, p, |es|, more);
    OutCountSplit(es, Ticks(e, q, more).1);
  }

  lemma RoundGets<M(!new)>(e: Engine<M>, p: Player<M>, size: nat, k: nat)
    requires Sound(e) && Between(e, p) && Gets(e, p, size, k) && size > 0 && p.left >= 0
    ensures var (q, es, n) := Round(e, p, size);
            && Between(e, q)
            && (q.left < 0 || n == size
                || (|es| > 0 && k > |es| && Gets(e, q, size - n, k - |es|)))
  {
    RoundIsTicks(e, p, size);
    var (q, es, n) := Round(e, p, size);
    if q.left >= 0 {
      if k <= |es| {
        GetsWithin(e, p, size, q, es, k);
      } else {
        GetsAfter(e, p, size - n, q, es, n, k - |es|);
      }
    }
  }

  lemma {:induction false} ChunkEnds<M(!new)>(e: Engine<M>, p: Player<M>, size: nat, k: nat)
    returns (rounds: nat)
    requires Sound(e) && Between(e, p) && Gets(e, p, size, k)
    ensures Chunk(e, p, size, rounds).Some?
    decreases k
  {
    rounds := 0;
    if size > 0 && p.left >= 0 {
      var (q, es, n) := Round(e, p, size);
      RoundGets(e, p, size, k);
      if q.left >= 0 && n < size {
        rounds := ChunkEnds(e, q, size - n, k - |es|);
      }
      ChunkOnce(e, p, size, rounds);
      rounds := rounds + 1;
    }
  }

  /** The loop completes a chunk, or is lost, if and only if the player without chunks gets that
      far: it does not where the play routine asks for no samples for ever. */
  lemma ChunkEndsIff<M(!new)>(e: Engine<M>, p: Player<M>, size: nat)
    requires Sound(e) && Between(e, p)
    ensures (exists rounds :: Chunk(e, p, size, rounds).Some?)
            <==> (exists k :: Gets(e, p, size, k))
  {
    if rounds :| Chunk(e, p, size, rounds).Some? {
      if p.left >= 0 {
        var (r, es) := Chunk(e, p, size, rounds).value;
        ChunkMakes(e, p, size, rounds, r, es);
        assert Gets(e, p, size, |es|);
      } else {
        assert Gets(e, p, size, 0);
      }
    }
    if k :| Gets(e, p, size, k) {
      var rounds := ChunkEnds(e, p, size, k);
    }
  }

  // ---- Lost players ----------------------------------------------------------------------

  /** Chunks that end have all their samples, unless the player is lost; and it is lost exactly if
      some call of the play routine in between asks for a negative number. */
  lemma ChunksAreFull<M(!new)>(e: Engine<M>, p: Player<M>, sizes: seq<nat>, rounds: nat)
    requires Sound(e) && Between(e, p) && p.left >= 0 && Chunks(e, p, sizes, rounds).Some?
    ensures var (r, es) := Chunks(e, p, sizes, rounds).value;
            && (if r.left < 0 then OutCount(es) < Sum(sizes) else OutCount(es) == Sum(sizes))
            && (r.left < 0 <==> exists k :: 0 <= k < |es| && AsksTooFew(e, Ticks(e, p, k).0))
  {
    ChunksMake(e, p, sizes, rounds);
    var (r, es) := Chunks(e, p, sizes, rounds).value;
    if r.left < 0 {
      FirstLoss(e, p, |es|);
    }
    if k :| 0 <= k < |es| && AsksTooFew(e, Ticks(e, p, k).0) {
      RepeatLast((p: Player<M>) => Tick(e, p), p, k);
      assert Ticks(e, p, k + 1).0.left < 0;
    }
  }

  /** The next call of the play routine asks for a negative number of samples. */
  predicate AsksTooFew<M>(e: Engine<M>, p: Player<M>) {
    p.left == 0 && e.period(e.play(p.m)) < 0
  }

  lemma {:induction false} FirstLoss<M(!new)>(e: Engine<M>, p: Player<M>, n: nat)
    requires p.left >= 0 && Ticks(e, p, n).0.left < 0
    ensures exists k :: 0 <= k < n && AsksTooFew(e, Ticks(e, p, k).0)
    decreases n
  {
    var q := Ticks(e, p, n - 1).0;
    RepeatLast((p: Player<M>) => Tick(e, p), p, n - 1);
    if q.left < 0 {
      FirstLoss(e, p, n - 1);
    } else {
      assert AsksTooFew(e, q);
    }
  }

  // ---- The synthesizer -------------------------------------------------------------------

  function SetUpLive(m: Live): Live {
    SetUpRuns(m);
    SetUp(m)
  }

  /** The engine with the synthesizer and any play routine. */
  function Synth(play: Live -> Live, period: Live -> int): Engine<Live> {
    Engine(SetUpLive, Sample, play, period)
  }

  lemma SynthIsSound(play: Live -> Live, period: Live -> int)
    ensures Sound(Synth(play, period))
    ensures forall m: Live, n :: Rendered(Synth(play, period), m, n) == Render(m, n)
  {
    forall m: Live
      ensures SetUpLive(SetUpLive(m)) == SetUpLive(m)
    {
      SetUpSettles(m);
    }
    forall m: Live | SetUpLive(m) == m
      ensures SetUpLive(Sample(m).0) == Sample(m).0
    {
      SampleKeepsSettled(m);
    }
  }

  /** What an int product ends up as. */
  function Int32(x: int): int {
    var m := x % 0x1_0000_0000;
    if m < 0x8000_0000 then m else m - 0x1_0000_0000
  }

  /** The quotient of ints, truncated towards zero. */
  function Quotient(x: int, y: nat): int
    requires y > 0
  {
    if x >= 0 then x / y else -(-x / y)
  }

  /** nRefreshCIA as the loop computes it from the timer registers. */
  function RefreshCia(m: Live, speed: Byte): (r: nat)
    ensures 0 < r <= 67369
  {
    var timer := m.memory[0xdc04] + 256 * (m.memory[0xdc05] as int);
    var cia := 20000 * timer / 0x4c00;
    if cia == 0 || speed == 0 then 20000 else cia
  }

  /** The period is that of the timer, of which 0x4c00 is a fiftieth of a second; it is a fiftieth
      of a second too where the timer is too small for one microsecond, or the song has the fixed
      speed. */
  lemma RefreshIs(m: Live, speed: Byte)
    ensures var timer := m.memory[0xdc04] + 256 * (m.memory[0xdc05] as int);
            var r := RefreshCia(m, speed);
            if speed == 0 || 20000 * timer < 0x4c00 then r == 20000
            else r * 0x4c00 <= 20000 * timer < (r + 1) * 0x4c00
  {
  }

  /** nSamplesPerCall */
  function SamplesPerCall(m: Live, speed: Byte): int {
    Quotient(Int32(m.tables.mixing * RefreshCia(m, speed)), 1000000)
  }

  /** At the 44100 Hz of be_sidplayer_play the number of samples between two calls is what it is
      meant to be if and only if the product is an int, and otherwise it is negative: from a timer
      value of 0xb90c on, unless the song has the fixed speed. */
  lemma SamplesPerCallIff(m: Live, speed: Byte)
    requires m.tables.mixing == 44100
    ensures SamplesPerCall(m, speed) >= 0 <==> 44100 * RefreshCia(m, speed) < 0x8000_0000
    ensures SamplesPerCall(m, speed) >= 0
            ==> SamplesPerCall(m, speed) == 44100 * RefreshCia(m, speed) / 1000000
    ensures SamplesPerCall(m, speed) >= 0
            <==> speed == 0 || m.memory[0xdc04] + 256 * (m.memory[0xdc05] as int) < 0xb90c
  {
  }

  /** A song that sets its timer to 0xffff. */
  lemma SlowTimerIsLost(m: Live, speed: Byte)
    requires m.tables.mixing == 44100 && speed != 0
    requires m.memory[0xdc04] == 0xff && m.memory[0xdc05] == 0xff
    ensures SamplesPerCall(m, speed) == -1324
  {
  }

  function SongEngine(play: Live -> Live, speed: Byte): Engine<Live> {
    Synth(play, (m: Live) => SamplesPerCall(m, speed))
  }

  /** The sample stream of a song does not depend on CHUNK_SIZE, nor does whether it is lost.  It
      is lost exactly if the play routine, at some call of the stream, leaves a timer for which the
      product is no int. */
  lemma SongIsChunkFree(play: Live -> Live, speed: Byte, m: Live, sizes: seq<nat>,
                        others: seq<nat>, rounds: nat, more: nat)
    requires Sum(sizes) == Sum(others)
    requires Chunks(SongEngine(play, speed), Player(m, 0), sizes, rounds).Some?
    requires Chunks(SongEngine(play, speed), Player(m, 0), others, more).Some?
    ensures var e := SongEngine(play, speed);
            && Chunks(e, Player(m, 0), sizes, rounds) == Chunks(e, Player(m, 0), others, more)
            && var (r, es) := Chunks(e, Player(m, 0), sizes, rounds).value;
            if exists k :: 0 <= k < |es| && AsksTooFew(e, Ticks(e, Player(m, 0), k).0)
            then r.left < 0 && OutCount(es) < Sum(sizes)
            else r.left >= 0 && OutCount(es) == Sum(sizes)
  {
    var e := SongEngine(play, speed);
    SynthIsSound(play, (m: Live) => SamplesPerCall(m, speed));
    ChunkSizesDoNotMatter(e, Player(m, 0), sizes, others, rounds, more);
    ChunksAreFull(e, Player(m, 0), sizes, rounds);
  }
}
