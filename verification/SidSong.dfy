/** A song of ext/audio/sid.c: the loop of be_sidplayer_play with a play routine that the processor
    executes on the same machine that is rendered. */
module SidSong {
  import opened Common
  import opened SidMachine
  import opened SidCpu
  import opened SidRuns
  import opened SidPlayer

  // ---- The play routine ------------------------------------------------------------------

  /** The processor as cpuJSR starts it: two zeros on the stack, so that the last return ends it. */
  function Entered(m: Board, npc: U16, na: Byte): Cpu {
    var c := Cpu(na, 0, 0, 255, Flags(false, false, false, false, false, false, false, false),
                 npc, m);
    Push(Write, Push(Write, c, 0), 0)
  }

  /** All registers are clear but the accumulator, and the return address on the stack is that which
      ends the routine. */
  lemma EnteredIs(m: Board, npc: U16, na: Byte)
    ensures var c := Entered(m, npc, na);
            && c.pc == npc && c.a == na && c.x == 0 && c.y == 0 && ToByte(c.p) == 0
            && c.s == 253 && c.m == m.(memory := m.memory[0x1ff := 0][0x1fe := 0])
            && OnStack(c.m, Frame(1, c.s))
  {
  }

  /** cpuJSR ends after k instructions. */
  predicate Halts(chip: Chip, m: Board, npc: U16, na: Byte, k: nat) {
    && Run(chip, Entered(m, npc, na), k).pc <= 1
    && forall i :: 0 <= i < k ==> Run(chip, Entered(m, npc, na), i).pc > 1
  }

  /** The routine leaves `after`, which can render. */
  ghost predicate Leaves(decode: Decode, npc: U16, m: Live, after: Live) {
    exists k :: Halts(Parse(decode), m, npc, 0, k)
                && after == Run(Parse(decode), Entered(m, npc, 0), k).m
  }

  ghost predicate Comes(decode: Decode, npc: U16, m: Live) {
    exists after: Live :: Leaves(decode, npc, m, after)
  }

  lemma LeavesOne(decode: Decode, npc: U16, m: Live, a: Live)
    requires Leaves(decode, npc, m, a)
    ensures forall b: Live :: Leaves(decode, npc, m, b) ==> a == b
  {
    var chip := Parse(decode);
    var j :| Halts(chip, m, npc, 0, j) && a == Run(chip, Entered(m, npc, 0), j).m;
    forall b: Live | Leaves(decode, npc, m, b)
      ensures a == b
    {
      var k :| Halts(chip, m, npc, 0, k) && b == Run(chip, Entered(m, npc, 0), k).m;
      assert j == k;
    }
  }

  /** What cpuJSR makes of the machine.  Where it does not end, or leaves a machine that cannot
      render, this stands for nothing. */
  ghost function Jsr(decode: Decode, npc: U16, m: Live): (r: Live)
    ensures Comes(decode, npc, m) ==> Leaves(decode, npc, m, r)
    ensures forall after: Live :: Leaves(decode, npc, m, after) ==> r == after
    ensures r == m || Leaves(decode, npc, m, r)
  {
    if Comes(decode, npc, m) then
      var after: Live :| Leaves(decode, npc, m, after);
      LeavesOne(decode, npc, m, after);
      after
    else m
  }

  ghost function Song(decode: Decode, npc: U16, speed: Byte): Engine<Live> {
    SongEngine((m: Live) => Jsr(decode, npc, m), speed)
  }

  /** The player of the song before its n-th event. */
  ghost function PlayerAt(decode: Decode, npc: U16, speed: Byte, m: Live, n: nat): Player<Live> {
    Ticks(Song(decode, npc, speed), Player(m, 0), n).0
  }

  ghost function EventAt(decode: Decode, npc: U16, speed: Byte, m: Live, n: nat): Event {
    Tick(Song(decode, npc, speed), PlayerAt(decode, npc, speed, m, n)).1
  }

  lemma AtNext(decode: Decode, npc: U16, speed: Byte, m: Live, n: nat)
    ensures PlayerAt(decode, npc, speed, m, n + 1)
            == Tick(Song(decode, npc, speed), PlayerAt(decode, npc, speed, m, n)).0
  {
    TicksNext(Song(decode, npc, speed), Player(m, 0), n);
  }

  // ---- The stream of a song --------------------------------------------------------------

  /** Each call of the play routine before the n-th event ends and leaves a machine that can
      render. */
  ghost predicate CallsCome(decode: Decode, npc: U16, speed: Byte, m: Live, n: nat) {
    forall k :: 0 <= k < n && PlayerAt(decode, npc, speed, m, k).left == 0 ==>
      Comes(decode, npc, PlayerAt(decode, npc, speed, m, k).m)
  }

  /** A call of the play routine is a run of the processor on the machine, which is then set up, and
      the timer that the routine leaves gives the number of samples until the next call. */
  ghost predicate IsCall(decode: Decode, npc: U16, speed: Byte, p: Player<Live>, q: Player<Live>) {
    exists after: Live ::
      && Leaves(decode, npc, p.m, after)
      && q == Player(SetUpLive(after), SamplesPerCall(after, speed))
  }

  lemma CallIs(decode: Decode, npc: U16, speed: Byte, m: Live, k: nat)
    requires PlayerAt(decode, npc, speed, m, k).left == 0
    requires Comes(decode, npc, PlayerAt(decode, npc, speed, m, k).m)
    ensures EventAt(decode, npc, speed, m, k) == Called
    ensures IsCall(decode, npc, speed, PlayerAt(decode, npc, speed, m, k),
                   PlayerAt(decode, npc, speed, m, k + 1))
  {
    AtNext(decode, npc, speed, m, k);
    var p := PlayerAt(decode, npc, speed, m, k);
    assert Leaves(decode, npc, p.m, Jsr(decode, npc, p.m));
  }

  /** What the loop does for one event: a call, or the sample that the machine makes. */
  ghost predicate IsEvent(decode: Decode, npc: U16, speed: Byte, p: Player<Live>,
                          q: Player<Live>, x: Event) {
    if p.left == 0 then x == Called && IsCall(decode, npc, speed, p, q)
    else p.left > 0 ==>
      x == Out(Render(p.m, 1).1[0]) && q == Player(Render(p.m, 1).0, p.left - 1)
  }

  lemma EventIs(decode: Decode, npc: U16, speed: Byte, m: Live, n: nat, k: nat)
    requires CallsCome(decode, npc, speed, m, n) && k < n
    ensures IsEvent(decode, npc, speed, PlayerAt(decode, npc, speed, m, k),
                    PlayerAt(decode, npc, speed, m, k + 1), EventAt(decode, npc, speed, m, k))
  {
    var p := PlayerAt(decode, npc, speed, m, k);
    if p.left == 0 {
      CallIs(decode, npc, speed, m, k);
    } else {
      AtNext(decode, npc, speed, m, k);
      RenderedIsRender(decode, npc, speed, p.m);
    }
  }

  lemma RenderedIsRender(decode: Decode, npc: U16, speed: Byte, m: Live)
    ensures Rendered(Song(decode, npc, speed), m, 1) == Render(m, 1)
  {
    SynthIsSound((m: Live) => Jsr(decode, npc, m), (m: Live) => SamplesPerCall(m, speed));
  }

  lemma EventsAre(decode: Decode, npc: U16, speed: Byte, m: Live, es: seq<Event>)
    requires CallsCome(decode, npc, speed, m, |es|)
    requires forall k :: 0 <= k < |es| ==> es[k] == EventAt(decode, npc, speed, m, k)
    ensures forall k :: 0 <= k < |es| ==>
              IsEvent(decode, npc, speed, PlayerAt(decode, npc, speed, m, k),
                      PlayerAt(decode, npc, speed, m, k + 1), es[k])
  {
    forall k | 0 <= k < |es|
      ensures IsEvent(decode, npc, speed, PlayerAt(decode, npc, speed, m, k),
                      PlayerAt(decode, npc, speed, m, k + 1), es[k])
    {
      EventIs(decode, npc, speed, m, |es|, k);
    }
  }

  /** The timer that a call leaves gives a negative number of samples. */
  ghost predicate LosesAt(decode: Decode, npc: U16, speed: Byte, m: Live, k: nat) {
    && PlayerAt(decode, npc, speed, m, k).left == 0
    && PlayerAt(decode, npc, speed, m, k + 1).left < 0
  }

  /** The stream of a song whose play routine the processor executes: where its calls end, its
      events are runs of the processor and samples of the same machine, one after the other; they
      do not depend on CHUNK_SIZE; and all samples are there unless a call leaves a timer for which
      the product is no int. */
  lemma StreamIsChunkFree(decode: Decode, npc: U16, speed: Byte, m: Live, sizes: seq<nat>,
                          others: seq<nat>, rounds: nat, more: nat)
    requires Sum(sizes) == Sum(others)
    requires Chunks(Song(decode, npc, speed), Player(m, 0), sizes, rounds).Some?
    requires Chunks(Song(decode, npc, speed), Player(m, 0), others, more).Some?
    requires var (r, es) := Chunks(Song(decode, npc, speed), Player(m, 0), sizes, rounds).value;
             CallsCome(decode, npc, speed, m, |es|)
    ensures Chunks(Song(decode, npc, speed), Player(m, 0), sizes, rounds)
            == Chunks(Song(decode, npc, speed), Player(m, 0), others, more)
    ensures var (r, es) := Chunks(Song(decode, npc, speed), Player(m, 0), sizes, rounds).value;
            && r == PlayerAt(decode, npc, speed, m, |es|)
            && (forall k :: 0 <= k < |es| ==>
                  IsEvent(decode, npc, speed, PlayerAt(decode, npc, speed, m, k),
                          PlayerAt(decode, npc, speed, m, k + 1), es[k]))
            && if exists k :: 0 <= k < |es| && LosesAt(decode, npc, speed, m, k)
               then r.left < 0 && OutCount(es) < Sum(sizes)
               else r.left >= 0 && OutCount(es) == Sum(sizes)
  {
    SongIsChunkFree((m: Live) => Jsr(decode, npc, m), speed, m, sizes, others, rounds, more);
    StreamIsTicks(decode, npc, speed, m, sizes, rounds);
    EventsAre(decode, npc, speed, m,
              Chunks(Song(decode, npc, speed), Player(m, 0), sizes, rounds).value.1);
    StreamIsFull(decode, npc, speed, m, sizes, rounds);
  }

  lemma StreamIsFull(decode: Decode, npc: U16, speed: Byte, m: Live, sizes: seq<nat>,
                     rounds: nat)
    requires Chunks(Song(decode, npc, speed), Player(m, 0), sizes, rounds).Some?
    ensures var (r, es) := Chunks(Song(decode, npc, speed), Player(m, 0), sizes, rounds).value;
            if exists k :: 0 <= k < |es| && LosesAt(decode, npc, speed, m, k)
            then r.left < 0 && OutCount(es) < Sum(sizes)
            else r.left >= 0 && OutCount(es) == Sum(sizes)
  {
    var e, p := Song(decode, npc, speed), Player(m, 0);
    SynthIsSound((m: Live) => Jsr(decode, npc, m), (m: Live) => SamplesPerCall(m, speed));
    ChunksAreFull(e, p, sizes, rounds);
    var (r, es) := Chunks(e, p, sizes, rounds).value;
    forall k | 0 <= k < |es|
      ensures LosesAt(decode, npc, speed, m, k) <==> AsksTooFew(e, Ticks(e, p, k).0)
    {
      LosesIff(decode, npc, speed, m, k);
    }
  }

  lemma LosesIff(decode: Decode, npc: U16, speed: Byte, m: Live, k: nat)
    ensures LosesAt(decode, npc, speed, m, k)
            <==> AsksTooFew(Song(decode, npc, speed), PlayerAt(decode, npc, speed, m, k))
  {
    AtNext(decode, npc, speed, m, k);
  }

  lemma StreamIsTicks(decode: Decode, npc: U16, speed: Byte, m: Live, sizes: seq<nat>,
                      rounds: nat)
    requires Chunks(Song(decode, npc, speed), Player(m, 0), sizes, rounds).Some?
    ensures var (r, es) := Chunks(Song(decode, npc, speed), Player(m, 0), sizes, rounds).value;
            && r == PlayerAt(decode, npc, speed, m, |es|)
            && forall k :: 0 <= k < |es| ==> es[k] == EventAt(decode, npc, speed, m, k)
  {
    SynthIsSound((m: Live) => Jsr(decode, npc, m), (m: Live) => SamplesPerCall(m, speed));
    ChunksMake(Song(decode, npc, speed), Player(m, 0), sizes, rounds);
    var es := Chunks(Song(decode, npc, speed), Player(m, 0), sizes, rounds).value.1;
    TicksAre(Song(decode, npc, speed), Player(m, 0), |es|);
  }

  // ---- Ranges ----------------------------------------------------------------------------

  lemma EnteredInRange(m: Board, npc: U16, na: Byte)
    requires InRange(m)
    ensures InRange(Entered(m, npc, na).m)
  {
    var c := Cpu(na, 0, 0, 255, Flags(false, false, false, false, false, false, false, false),
                 npc, m);
    WriteKeepsRange();
    StoreInRange(Write, c, Imp, 0);
    StoreInRange(Write, Push(Write, c, 0), Imp, 0);
  }

  lemma JsrInRange(decode: Decode, npc: U16, m: Live)
    requires InRange(m)
    ensures InRange(Jsr(decode, npc, m))
  {
    var after := Jsr(decode, npc, m);
    if after != m {
      var chip := Parse(decode);
      var k :| Halts(chip, m, npc, 0, k) && after == Run(chip, Entered(m, npc, 0), k).m;
      EnteredInRange(m, npc, 0);
      RunInRange(decode, Entered(m, npc, 0), k);
    }
  }

  /** Along the whole stream of a song the synthesizer stays in its ranges, whatever its play
      routine does. */
  lemma {:induction false} SongInRange(decode: Decode, npc: U16, speed: Byte, m: Live, n: nat)
    requires InRange(m)
    ensures InRange(PlayerAt(decode, npc, speed, m, n).m)
    decreases n
  {
    if n > 0 {
      SongInRange(decode, npc, speed, m, n - 1);
      AtNext(decode, npc, speed, m, n - 1);
      var p := PlayerAt(decode, npc, speed, m, n - 1);
      JsrInRange(decode, npc, p.m);
      SetUpInRange(Jsr(decode, npc, p.m));
      RenderInRange(p.m, 1);
      RenderedIsRender(decode, npc, speed, p.m);
    }
  }

  /** Each sample of the stream is put out as it was computed, and fits 16 bits, while the volume
      register leaves the outputs of the filter off. */
  lemma SongFits(decode: Decode, npc: U16, speed: Byte, m: Live, n: nat)
    requires InRange(m) && PlayerAt(decode, npc, speed, m, n).left > 0
    requires PlayerAt(decode, npc, speed, m, n).m.regs.ftpVol / 16 % 8 == 0
    ensures var x := Compute(SetUpLive(PlayerAt(decode, npc, speed, m, n).m)).1;
            -0x8000 <= x <= 0x7fff && EventAt(decode, npc, speed, m, n) == Out(x)
  {
    SongInRange(decode, npc, speed, m, n);
    var p := PlayerAt(decode, npc, speed, m, n);
    RenderFits(p.m, 0);
    RenderedIsRender(decode, npc, speed, p.m);
  }
}
