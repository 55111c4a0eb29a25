/** The envelopes, the output and the sampled sound of ext/audio/sid.c, over any number of
    samples. */
module SidVoice {
  import opened SidMachine
  import opened SidSound

  // ---- Envelopes -------------------------------------------------------------------------

  function EnvAfter(o: Osc, n: nat): Osc
    decreases n
  {
    if n == 0 then o else Envelope(EnvAfter(o, n - 1))
  }

  /** The attack rises evenly; with the sample that reaches the top it ends there. */
  lemma {:induction false} AttackRises(o: Osc, n: nat)
    requires o.envphase == 0 && n > 0 && o.envval + (n - 1) * o.tone.attack < 0xff_ffff
    ensures var e := o.envval + n * o.tone.attack;
            EnvAfter(o, n) == if e < 0xff_ffff then o.(envval := e)
                              else o.(envval := 0xff_ffff, envphase := 1)
    decreases n
  {
    assert n * o.tone.attack == (n - 1) * o.tone.attack + o.tone.attack;
    if n > 1 {
      assert (n - 1) * o.tone.attack == (n - 2) * o.tone.attack + o.tone.attack;
      AttackRises(o, n - 1);
    } else {
      assert EnvAfter(o, 0) == o;
    }
  }

  function Level(o: Osc): int { o.tone.sustain * 0x1_0000 }

  /** The decay falls evenly; with the sample that reaches the sustain level it ends there. */
  lemma {:induction false} DecayFalls(o: Osc, n: nat)
    requires o.envphase == 1 && n > 0
    requires n > 1 ==> o.envval - (n - 1) * o.tone.decay > Level(o)
    ensures var e := o.envval - n * o.tone.decay;
            EnvAfter(o, n) == if e > Level(o) then o.(envval := e)
                              else o.(envval := Level(o), envphase := 2)
    decreases n
  {
    assert n * o.tone.decay == (n - 1) * o.tone.decay + o.tone.decay;
    if n > 1 {
      assert (n - 1) * o.tone.decay == (n - 2) * o.tone.decay + o.tone.decay;
      DecayFalls(o, n - 1);
    } else {
      assert EnvAfter(o, 0) == o;
    }
  }

  /** The sustain level is held until it is changed, and then the decay sets in again. */
  lemma {:induction false} SustainHolds(o: Osc, n: nat)
    requires o.envphase == 2
    ensures o.envval == Level(o) ==> EnvAfter(o, n) == o
    ensures o.envval != Level(o) && n == 1 ==> EnvAfter(o, n) == o.(envphase := 1)
    decreases n
  {
    if n > 0 { SustainHolds(o, n - 1); }
  }

  /** The release falls evenly, down to its floor. */
  lemma {:induction false} ReleaseFalls(o: Osc, n: nat)
    requires o.envphase == 3 && n > 0
    ensures var e := o.envval - n * o.tone.release;
            EnvAfter(o, n) == o.(envval := if e < 0x4_0000 then 0x4_0000 else e)
    decreases n
  {
    assert n * o.tone.release == (n - 1) * o.tone.release + o.tone.release;
    if n > 1 {
      ReleaseFalls(o, n - 1);
    } else {
      assert EnvAfter(o, 0) == o;
    }
  }

  lemma {:induction false} EnvSplit(o: Osc, a: nat, b: nat)
    ensures EnvAfter(o, a + b) == EnvAfter(EnvAfter(o, a), b)
    decreases b
  {
    if b > 0 { EnvSplit(o, a, b - 1); }
  }

  /** An attack of `up` samples, and a decay of `down` samples after it: from then on the envelope
      is at the sustain level. */
  lemma Adsr(o: Osc, up: nat, down: nat, n: nat)
    requires o.envphase == 0 && up > 0 && down > 0
    requires o.envval + (up - 1) * o.tone.attack < 0xff_ffff <= o.envval + up * o.tone.attack
    requires down > 1 ==> 0xff_ffff - (down - 1) * o.tone.decay > Level(o)
    requires Level(o) >= 0xff_ffff - down * o.tone.decay
    ensures EnvAfter(o, up) == o.(envval := 0xff_ffff, envphase := 1)
    ensures EnvAfter(o, up + down + n) == o.(envval := Level(o), envphase := 2)
  {
    AttackRises(o, up);
    var p := EnvAfter(o, up);
    DecayFalls(p, down);
    EnvSplit(o, up, down);
    SustainHolds(EnvAfter(o, up + down), n);
    EnvSplit(o, up + down, n);
  }

  // ---- What a sample does to a voice -----------------------------------------------------

  /** The oscillator that a voice is modulated by, as it is when the voice's turn comes. */
  function Reference(before: seq<Osc>, after: seq<Osc>, v: nat): Osc
    requires |before| == 3 && |after| == 3 && v < 3
  {
    if v == 0 then before[2] else after[v - 1]
  }

  /** The waveform byte of a voice in the next sample. */
  function WaveOf(m: Live, v: nat): nat
    requires v < 3
  {
    var after := OscSteps(m.osc).0;
    Waveform(after[v], Reference(m.osc, after, v))
  }

  /** A sample takes every counter, noise register and envelope one step on, each voice seeing the
      one before it as it is by then; and the voice puts out its wave, which is unsigned, around
      zero and scaled by the envelope, rounded down. */
  lemma VoiceSteps(m: Live, v: nat)
    requires v < 3
    ensures var (after, out) := OscSteps(m.osc);
            var (o, p, r) := (m.osc[v], after[v], Reference(m.osc, after, v));
            && p.tone == o.tone && p.counter == NextCounter(o, r)
            && (p.envval, p.envphase) == (Envelope(o).envval, Envelope(o).envphase)
            && 0x40_0000 * out[v] <= (WaveOf(m, v) - 0x80) * p.envval < 0x40_0000 * (out[v] + 1)
            && NoiseGoes(o, p)
  {
    var (after, out) := OscSteps(m.osc);
    WaveIgnoresEnvelope(m.osc[0], m.osc[2]);
    WaveIgnoresEnvelope(m.osc[1], after[0]);
    WaveIgnoresEnvelope(m.osc[2], after[1]);
    OutIs(WaveOf(m, v), after[v].envval);
    NoiseFollows(m.osc[v], Reference(m.osc, after, v));
  }

  /** The noise of a voice goes on with its counter; the test bit starts it anew. */
  predicate NoiseGoes(o: Osc, p: Osc) {
    var q := if BitAt(o.tone.wave, 3) then o.(noisepos := 0, noiseval := 0xff_ffff) else o;
    var n := Noise(q.(counter := p.counter));
    p.noisepos == n.noisepos && p.noiseval == n.noiseval && p.noiseout == n.noiseout
  }

  lemma NoiseFollows(o: Osc, r: Osc)
    ensures NoiseGoes(o, OscStep(o, r).0)
  {
    ControlBits(o.tone.wave);
    var q := Reset(o).(counter := NextCounter(o, r));
    EnvelopeLeaves(Noise(q));
    NoiseLeaves(q);
    ResetIs(o);
  }

  lemma ResetIs(o: Osc)
    ensures Bit(o.tone.wave, 0x8) ==> Reset(o).noisepos == 0 && Reset(o).noiseval == 0xff_ffff
    ensures !Bit(o.tone.wave, 0x8) ==> Reset(o).noisepos == o.noisepos
    ensures !Bit(o.tone.wave, 0x8) ==> Reset(o).noiseval == o.noiseval
    ensures Reset(o).noiseout == o.noiseout
  {
  }

  lemma EnvelopeLeaves(o: Osc)
    ensures var p := Envelope(o);
            && (p.tone, p.counter, p.noisepos) == (o.tone, o.counter, o.noisepos)
            && (p.noiseval, p.noiseout) == (o.noiseval, o.noiseout)
  {
  }

  lemma NoiseLeaves(o: Osc)
    ensures var p := Noise(o);
            && (p.tone, p.counter) == (o.tone, o.counter)
            && (p.envval, p.envphase) == (o.envval, o.envphase)
  {
  }

  lemma ResetLeaves(o: Osc)
    ensures var p := Reset(o);
            p.tone == o.tone && (p.envval, p.envphase) == (o.envval, o.envphase)
  {
  }

  /** The envelope depends on itself and on the set-up. */
  lemma EnvelopeReads(o: Osc, p: Osc)
    requires o.tone == p.tone && (o.envval, o.envphase) == (p.envval, p.envphase)
    ensures (Envelope(o).envval, Envelope(o).envphase)
         == (Envelope(p).envval, Envelope(p).envphase)
  {
  }

  /** The waveform does not depend on the envelope. */
  lemma WaveReads(o: Osc, p: Osc, r: Osc)
    requires (o.tone, o.counter, o.noiseout) == (p.tone, p.counter, p.noiseout)
    ensures Waveform(o, r) == Waveform(p, r)
  {
  }

  lemma WaveIgnoresEnvelope(o: Osc, r: Osc)
    ensures OscStep(o, r).1 == Waveform(OscStep(o, r).0, r)
    ensures var p := OscStep(o, r).0;
            && p.tone == o.tone && p.counter == NextCounter(o, r)
            && (p.envval, p.envphase) == (Envelope(o).envval, Envelope(o).envphase)
  {
    var q := Reset(o).(counter := NextCounter(o, r));
    ResetLeaves(o);
    NoiseLeaves(q);
    EnvelopeLeaves(Noise(q));
    EnvelopeReads(o, Noise(q));
    WaveReads(Noise(q), Envelope(Noise(q)), r);
  }

  lemma OutIs(w: nat, envval: int)
    ensures 0x40_0000 * VoiceOut(w, envval) <= (w - 0x80) * envval
            < 0x40_0000 * (VoiceOut(w, envval) + 1)
  {
  }

  // ---- Voices over a rendering -----------------------------------------------------------

  /** Envelope and set-up of a voice. */
  predicate SameEnv(o: Osc, p: Osc) {
    o.tone == p.tone && o.envval == p.envval && o.envphase == p.envphase
  }

  lemma SameEnvNext(o: Osc, p: Osc)
    requires SameEnv(o, p)
    ensures SameEnv(Envelope(o), Envelope(p))
  {
  }

  /** What a sample does to a voice, as far as envelope and counter go. */
  lemma SampleVoice(m: Live, v: nat)
    requires v < 3
    ensures var p := Sample(m).0.osc[v];
            && SameEnv(p, Envelope(m.osc[v]))
            && p.counter == NextCounter(m.osc[v], Reference(m.osc, OscSteps(m.osc).0, v))
  {
    VoiceSteps(m, v);
    SampleSteps(m);
    EnvelopeLeaves(m.osc[v]);
  }

  lemma SampleSteps(m: Live)
    ensures Sample(m).0.osc == OscSteps(m.osc).0
  {
  }

  lemma SamplesNext(m: Live, n: nat)
    ensures Samples(m, n + 1).0 == Sample(Samples(m, n).0).0
  {
    RepeatLast(Sample, m, n);
  }

  /** Over a rendering the envelope of a voice goes through its steps, one for each sample. */
  lemma {:induction false} RenderedEnvelope(m: Live, v: nat, n: nat)
    requires v < 3
    ensures SameEnv(Samples(m, n).0.osc[v], EnvAfter(m.osc[v], n))
    decreases n
  {
    if n > 0 {
      RenderedEnvelope(m, v, n - 1);
      SamplesNext(m, n - 1);
      var s := Samples(m, n - 1).0;
      SampleVoice(s, v);
      SameEnvNext(s.osc[v], EnvAfter(m.osc[v], n - 1));
    }
  }

  lemma TonesStay(m: Live, v: nat, n: nat)
    requires v < 3
    ensures Samples(m, n).0.osc[v].tone == m.osc[v].tone
  {
    RenderedEnvelope(m, v, n);
    EnvKeepsTone(m.osc[v], n);
  }

  lemma {:induction false} EnvKeepsTone(o: Osc, n: nat)
    ensures EnvAfter(o, n).tone == o.tone
    decreases n
  {
    if n > 0 { EnvKeepsTone(o, n - 1); }
  }

  /** Neither the sync nor the test bit is set. */
  predicate FreeRunning(t: Tone) { !BitAt(t.wave, 1) && !BitAt(t.wave, 3) }

  /** Where a counter is after n samples. */
  function Phase(o: Osc, n: nat): nat { (o.counter + n * o.tone.freq) % 0x1000_0000 }

  lemma PitchStep(m: Live, v: nat, o: Osc, n: nat)
    requires v < 3 && n > 0 && FreeRunning(o.tone) && m.osc[v].tone == o.tone
    requires m.osc[v].counter == Phase(o, n - 1)
    ensures Sample(m).0.osc[v].counter == Phase(o, n)
  {
    SampleVoice(m, v);
    FreeCounter(m.osc[v], Reference(m.osc, OscSteps(m.osc).0, v));
    RestStep(o.counter, o.tone.freq, n, 0x1000_0000);
  }

  /** The pitch: without sync and test bit the counter of a voice advances by its frequency with
      every sample, round its cycle of 2^28. */
  lemma {:induction false} RenderedPitch(m: Live, v: nat, n: nat)
    requires v < 3 && FreeRunning(m.osc[v].tone) && m.osc[v].counter < 0x1000_0000
    ensures Samples(m, n).0.osc[v].counter == Phase(m.osc[v], n)
    decreases n
  {
    if n > 0 {
      RenderedPitch(m, v, n - 1);
      TonesStay(m, v, n - 1);
      SamplesNext(m, n - 1);
      PitchStep(Samples(m, n - 1).0, v, m.osc[v], n);
    }
  }

  lemma RestStep(c: nat, f: nat, n: nat, p: nat)
    requires n > 0 && p > 0
    ensures ((c + (n - 1) * f) % p + f) % p == (c + n * f) % p
  {
    OneMore(n - 1, f);
    AddRest(c + (n - 1) * f, f, p);
  }

  lemma FreeCounter(o: Osc, r: Osc)
    requires FreeRunning(o.tone)
    ensures NextCounter(o, r) == (o.counter + o.tone.freq) % 0x1000_0000
  {
    ControlBits(o.tone.wave);
  }

  lemma AddRest(x: nat, y: nat, p: nat)
    requires p > 0
    ensures (x % p + y) % p == (x + y) % p
  {
    assert x == p * (x / p) + x % p;
    WholeLaps(x / p, x % p + y, p);
  }

  lemma WholeLaps(a: nat, z: nat, p: nat)
    requires p > 0
    ensures (p * a + z) % p == z % p
  {
    assert p * (a + z / p) == p * a + p * (z / p);
    RemainderIs(p * a + z, p, a + z / p, z % p);
  }

  // ---- Set-up ----------------------------------------------------------------------------

  /** The seven registers of a voice. */
  function VoiceReg(m: Machine, v: nat, i: nat): Byte
    requires |m.regs.v| == 3 && v < 3 && i < 7
  {
    Register(m.regs, 7 * v + i)
  }

  lemma VoiceRegs(m: Live, v: nat)
    requires v < 3
    ensures var r := m.regs.v[v];
            && VoiceReg(m, v, 0) == r.freq % 256 && VoiceReg(m, v, 1) == r.freq / 256
            && VoiceReg(m, v, 2) == r.pulse % 256 && VoiceReg(m, v, 3) == r.pulse / 256
            && VoiceReg(m, v, 4) == r.wave && VoiceReg(m, v, 5) == r.ad && VoiceReg(m, v, 6) == r.sr
  {
    if v == 0 {
    } else if v == 1 {
    } else {
    }
  }

  lemma Halves(x: U16)
    ensures x == x % 256 + 256 * (x / 256)
    ensures x % 0x1000 == x % 256 + 256 * (x / 256 % 16)
  {
  }

  /** What the registers of a voice say: frequency and pulse width from two registers each, the
      filter from the voice's bit of register 23, attack and decay from the halves of one register,
      sustain and release from those of another. */
  lemma ToneIs(m: Live, v: nat)
    requires v < 3
    ensures var t := SetUp(m).osc[v].tone;
            && t.freq == (VoiceReg(m, v, 0) + 256 * VoiceReg(m, v, 1)) * m.tables.freqmul
            && t.pulse == 0x1_0000 * (VoiceReg(m, v, 2) + 256 * (VoiceReg(m, v, 3) % 16))
            && t.wave == VoiceReg(m, v, 4) && t.filter == BitAt(Register(m.regs, 23), v)
            && t.attack == m.tables.attacks[VoiceReg(m, v, 5) / 16]
            && t.decay == m.tables.releases[VoiceReg(m, v, 5) % 16]
            && t.sustain == 16 * (VoiceReg(m, v, 6) / 16)
            && t.release == m.tables.releases[VoiceReg(m, v, 6) % 16]
  {
    VoiceRegs(m, v);
    FilterBit(m.regs.resFtv, v);
    Halves(m.regs.v[v].freq);
    Halves(m.regs.v[v].pulse);
  }

  lemma FilterBit(x: Byte, v: nat)
    requires v < 3
    ensures Bit(x, if v == 0 then 1 else 2 * v) == BitAt(x, v)
  {
    SmallPowers();
    MaskIsBit(x, v);
  }

  /** What registers 21 to 24 say of the filter and of the output. */
  lemma MixerIs(m: Live)
    ensures var x := SetUp(m).filter.mixer;
            var (lo, hi, res, vol) := (Register(m.regs, 21), Register(m.regs, 22),
                                       Register(m.regs, 23), Register(m.regs, 24));
            && x.low == BitAt(vol, 4) && x.band == BitAt(vol, 5) && x.high == BitAt(vol, 6)
            && x.v3 == !BitAt(vol, 7) && x.vol == vol % 16
            && x.freq == (if (16 * hi + lo % 8) * m.tables.filtmul > 0x1_0000 then 0x1_0000
                          else (16 * hi + lo % 8) * m.tables.filtmul)
            && 256 * x.rez <= 78643 - 2621 * (res / 16) < 256 * (x.rez + 1)
  {
    ControlBits(m.regs.ftpVol);
  }

  // ---- The output ------------------------------------------------------------------------

  /** A voice is heard unless it is the third one and switched off. */
  predicate Heard(m: Live, v: nat) { v < 2 || m.filter.mixer.v3 }

  /** Each voice that is heard goes to the filter or past it, and all of it does. */
  lemma VoicesAreRouted(m: Live, out: seq<int>)
    requires |out| == 3
    ensures Mix(m, true, out) + Mix(m, false, out)
            == out[0] + out[1] + if Heard(m, 2) then out[2] else 0
    ensures forall v :: 0 <= v < 3 && Heard(m, v) ==>
              Route(m, v, true, out[v]) == (if m.osc[v].tone.filter then out[v] else 0)
    ensures forall f :: Mix(m, f, out) == Route(m, 0, f, out[0]) + Route(m, 1, f, out[1])
                                          + Route(m, 2, f, out[2])
  {
  }

  /** A sample: the voices past the filter and the outputs of the filter that are switched on, times
      the volume, and the sampled sound. */
  lemma SampleIs(m: Live)
    ensures var (osc, out) := OscSteps(m.osc);
            var (next, x) := Compute(m);
            var f := next.filter;
            && next.osc == osc
            && x == f.mixer.vol * (Mix(next, false, out)
                                   + (if f.mixer.low then f.l / 0x1_0000 else 0)
                                   + (if f.mixer.band then f.b / 0x1_0000 else 0)
                                   + (if f.mixer.high then f.h / 0x1_0000 else 0))
                    + (if InSample(m.digi) then m.digi.sample else 0)
            && FilterEquations(m.filter, f, Mix(next, true, out))
  {
    var (osc, out) := OscSteps(m.osc);
    var m1 := m.(osc := osc);
    assert Mix(m1, true, out) == Mix(Compute(m).0, true, out);
    assert Mix(m1, false, out) == Mix(Compute(m).0, false, out);
  }

  /** The filter: the input is divided between the high-pass output, the damped band-pass output and
      the low-pass output, and the latter two follow the one before them. */
  predicate FilterEquations(f: Filter, g: Filter, input: int) {
    && g.mixer == f.mixer
    && g.h + f.b / 256 * f.mixer.rez + f.l == 0x1_0000 * input
    && g.b - f.b == f.mixer.freq / 256 * (g.h / 256)
    && g.l - f.l == f.mixer.freq / 256 * (g.b / 256)
  }

  /** At rest the filter passes a constant input through its low-pass output, and nothing through
      the others. */
  lemma FilterRests(f: Filter, x: int)
    requires f.b == 0 && f.l == 0x1_0000 * x
    ensures var g := FilterStep(f, x);
            && g.h == 0 && g.b == 0 && g.l == f.l
            && Filtered(g) == if f.mixer.low then x else 0
  {
  }

  /** The filter stands still only there, up to what is too small for it: with a cutoff of at least
      1/256 its low-pass output is what the input and the band-pass output leave. */
  lemma FilterStandsOnly(f: Filter, x: int)
    requires f.mixer.freq >= 256 && FilterStep(f, x).b == f.b && FilterStep(f, x).l == f.l
    ensures 0 <= f.b < 256 && 0 <= FilterStep(f, x).h < 256
    ensures f.l == 0x1_0000 * x - FilterStep(f, x).h
  {
    var g := FilterStep(f, x);
    NoFactor(f.mixer.freq / 256, g.h / 256);
    NoFactor(f.mixer.freq / 256, g.b / 256);
  }

  lemma NoFactor(a: int, b: int)
    requires a > 0 && a * b == 0
    ensures b == 0
  {
  }

  // ---- Sampled sound ---------------------------------------------------------------------

  /** The nibbles of memory are numbered in the order in which they are played: for order 0 the low
      half of each byte first, and otherwise the high half. */
  function NibbleNo(d: Digi): int {
    2 * d.position + if d.order == 0 then d.nibble else 1 - d.nibble
  }

  /** The sound of the n-th nibble. */
  function NibbleSound(memory: seq<Byte>, order: Byte, n: int): int
    requires |memory| == 0x1_0000
  {
    var x: int := memory[n / 2 % 0x1_0000];
    var first := n % 2 == 0;
    1024 * ((if first == (order == 0) then x % 16 else x / 16) - 7)
  }

  predicate NibbleOk(d: Digi) { 0 <= d.nibble <= 1 }

  lemma NextNibbleIs(d: Digi)
    requires NibbleOk(d)
    ensures var e := NextNibble(d);
            NibbleOk(e) && NibbleNo(e) == NibbleNo(d) + 1
            && e == d.(position := e.position, nibble := e.nibble)
  {
  }

  lemma NibbleIs(memory: seq<Byte>, d: Digi)
    requires |memory| == 0x1_0000 && NibbleOk(d)
    ensures NibbleAt(memory, d.position, d.nibble) == NibbleSound(memory, d.order, NibbleNo(d))
  {
    assert NibbleNo(d) / 2 == d.position;
  }

  function DigiAfter(d: Digi, memory: seq<Byte>, mixing: nat, n: nat): (e: Digi)
    requires |memory| == 0x1_0000 && mixing > 0 && DigiOk(d)
    ensures DigiOk(e)
    decreases n
  {
    if n == 0 then d else DigiStep(DigiAfter(d, memory, mixing, n - 1), memory, mixing).0
  }

  /** What is counted with each sample. */
  function Pace(d: Digi): nat
    requires d.period > 0
  {
    985248 / d.period
  }

  /** The sound is playing, without a repeat count, and not so fast that nibbles are left out. */
  predicate Steady(d: Digi, mixing: nat) {
    d.active && d.period > 0 && d.repeats == 0 && NibbleOk(d) && 0 <= d.frac <= mixing
    && Pace(d) < mixing
  }

  lemma SteadyStep(d: Digi, memory: seq<Byte>, mixing: nat)
    requires |memory| == 0x1_0000 && mixing > 0 && Steady(d, mixing) && InSample(d)
    ensures var (e, x) := DigiStep(d, memory, mixing);
            var frac := d.frac + Pace(d);
            && Steady(e, mixing) && x == d.sample && e.period == d.period && e.order == d.order
            && if frac <= mixing then
                 e.frac == frac && e.sample == d.sample && NibbleNo(e) == NibbleNo(d)
               else
                 && e.frac == frac - mixing && NibbleNo(e) == NibbleNo(d) + 1
                 && e.sample == NibbleSound(memory, d.order, NibbleNo(e))
  {
    NextNibbleIs(d);
    var frac := d.frac + 985248 / d.period;
    if frac > mixing {
      var e := NextNibble(d.(frac := frac % mixing));
      NextNibbleIs(d.(frac := frac % mixing));
      NibbleIs(memory, e);
      RemainderIs(frac, mixing, 1, frac - mixing);
    }
  }

  /** The sampled sound plays the nibbles of memory in their order, at a rate of 985248 over the
      period for each mixing frequency: in n samples it has gone on by k nibbles where k times the
      mixing frequency is what has been counted and is no longer there. */
  lemma {:induction false} DigiPlays(d: Digi, memory: seq<Byte>, mixing: nat, n: nat)
    returns (k: nat)
    requires |memory| == 0x1_0000 && mixing > 0 && Steady(d, mixing)
    requires forall i :: 0 <= i < n ==> InSample(DigiAfter(d, memory, mixing, i))
    ensures var e := DigiAfter(d, memory, mixing, n);
            && Steady(e, mixing) && e.period == d.period && e.order == d.order
            && NibbleNo(e) == NibbleNo(d) + k
            && e.frac + k * mixing == d.frac + n * Pace(d)
            && e.sample == if k == 0 then d.sample
                           else NibbleSound(memory, d.order, NibbleNo(d) + k)
    decreases n
  {
    k := 0;
    if n > 0 {
      k := DigiPlays(d, memory, mixing, n - 1);
      var e := DigiAfter(d, memory, mixing, n - 1);
      SteadyStep(e, memory, mixing);
      OneMore(n - 1, Pace(d));
      OneMore(k, mixing);
      if e.frac + Pace(d) > mixing { k := k + 1; }
    }
  }

  lemma OneMore(n: nat, x: nat)
    ensures (n + 1) * x == n * x + x
  {
  }

  /** A repeat count ends the sound with its first nibble: the position is not behind the end then,
      so that nothing is ever repeated. */
  lemma RepeatEnds(d: Digi, memory: seq<Byte>, mixing: nat)
    requires |memory| == 0x1_0000 && mixing > 0 && DigiOk(d) && InSample(d) && d.repeats != 0
    requires NibbleOk(d)
    ensures var e := DigiStep(d, memory, mixing).0;
            && e.repeats == d.repeats
            && (e.active <==> d.frac + Pace(d) <= mixing)
  {
  }

  /** The registers of the sample channel, as they wait to be taken over. */
  function Waiting(p: Pending, addr: nat): Byte {
    match addr
    case 0xd41e => p.start % 256 case 0xd41f => p.start / 256
    case 0xd43d => p.end % 256 case 0xd43e => p.end / 256
    case 0xd43f => p.repeatTimes
    case 0xd45d => p.period % 256 case 0xd45e => p.period / 256
    case 0xd45f => p.add case 0xd47d => p.order
    case 0xd47e => p.repeatStart % 256 case 0xd47f => p.repeatStart / 256
    case _ => 0
  }

  predicate IsWaiting(addr: nat) {
    addr in {0xd41e, 0xd41f, 0xd43d, 0xd43e, 0xd43f, 0xd45d, 0xd45e, 0xd45f, 0xd47d, 0xd47e, 0xd47f}
  }

  lemma LatchIs(x: U16, lo: nat, hi: nat, addr: nat, val: Byte)
    requires lo != hi
    ensures Latch(x, lo, hi, addr, val) % 256 == (if addr == lo then val else x % 256)
    ensures Latch(x, lo, hi, addr, val) / 256 == (if addr == hi then val else x / 256)
  {
    HalvesKept(x, val);
  }

  /** A write changes the register that it names, if there is such a one, and no other; only the
      trigger register changes what is playing, and it takes over what waits. */
  lemma ChannelIs(d: Digi, addr: nat, val: Byte)
    ensures var (p, q) := (d.pending, DigiPoke(d, addr, val).pending);
            forall other :: IsWaiting(other) ==>
              Waiting(q, other) == if other == addr then val else Waiting(p, other)
    ensures var (p, e) := (d.pending, DigiPoke(d, addr, val));
            if addr != 0xd41d then e == d.(pending := e.pending)
            else
              && e.pending == p && e.repeats == p.repeatTimes && e.start == p.start
              && e.position == p.start && e.end == p.end && e.repeatStart == p.repeatStart
              && e.period == p.period && e.order == p.order && e.nibble == d.nibble
              && e.frac == d.frac && e.sample == d.sample
              && e.active == if val == 0xfd then false else val >= 0xfe || d.active
  {
    var p := d.pending;
    LatchIs(p.period, 0xd45d, 0xd45e, addr, val);
    LatchIs(p.start, 0xd41e, 0xd41f, addr, val);
    LatchIs(p.end, 0xd43d, 0xd43e, addr, val);
    LatchIs(p.repeatStart, 0xd47e, 0xd47f, addr, val);
  }
}
