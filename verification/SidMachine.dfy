/** The synthesizer of ext/audio/sid.c: its registers, what is set up from them, and the state that
    each sample changes. */
module SidMachine {

  type Byte = i: int | 0 <= i < 256
  type U16 = i: int | 0 <= i < 0x1_0000

  // ---- State -----------------------------------------------------------------------------

  datatype Voice = Voice(freq: U16, pulse: U16, wave: Byte, ad: Byte, sr: Byte)

  datatype Regs = Regs(v: seq<Voice>, ffreqlo: Byte, ffreqhi: Byte, resFtv: Byte, ftpVol: Byte)

  /** What is set up from the registers of a voice. */
  datatype Tone = Tone(freq: nat, pulse: nat, wave: Byte, filter: bool, attack: nat, decay: nat,
                       sustain: nat, release: nat)

  /** A sidosc: what is set up, and what each sample changes. */
  datatype Osc = Osc(tone: Tone, counter: nat, envval: int, envphase: nat, noisepos: nat,
                     noiseval: nat, noiseout: Byte)

  datatype Mixer = Mixer(freq: int, low: bool, band: bool, high: bool, v3: bool, vol: nat,
                         rez: int)

  datatype Filter = Filter(mixer: Mixer, h: int, b: int, l: int)

  /** The sample channel, and the values that starting it takes over. */
  datatype Pending = Pending(period: U16, order: Byte, start: U16, end: U16, add: Byte,
                             repeatTimes: Byte, repeatStart: U16)

  datatype Digi = Digi(active: bool, position: int, start: int, end: int, repeatStart: int,
                       frac: int, period: nat, repeats: int, order: Byte, nibble: int,
                       sample: int, pending: Pending)

  /** The values that depend on the mixing frequency. */
  datatype Tables = Tables(mixing: nat, freqmul: nat, filtmul: nat, attacks: seq<nat>,
                           releases: seq<nat>)

  datatype Machine = Machine(regs: Regs, osc: seq<Osc>, filter: Filter, digi: Digi,
                             memory: seq<Byte>, tables: Tables)

  /** The sizes of the arrays. */
  predicate Shape(m: Machine) {
    && |m.regs.v| == 3 && |m.osc| == 3 && |m.memory| == 0x1_0000
    && m.tables.mixing > 0 && |m.tables.attacks| == 16 && |m.tables.releases| == 16
  }

  // ---- Bits ------------------------------------------------------------------------------

  /** x & mask, for a mask of one bit */
  predicate Bit(x: nat, mask: nat)
    requires mask > 0
  {
    x / mask % 2 == 1
  }

  /** x & y */
  function And(x: nat, y: nat): (r: nat)
    ensures r <= x && r <= y
  {
    if x == 0 || y == 0 then 0
    else
      (if x % 2 == 1 && y % 2 == 1 then 1 else 0)
      + 2 * And(if x > 1 then x / 2 else 0, if y > 1 then y / 2 else 0)
  }

  function One(b: bool): nat { if b then 1 else 0 }

  // ---- Step 1: setting up ----------------------------------------------------------------

  function ToneOf(m: Machine, v: nat): Tone
    requires Shape(m) && v < 3
  {
    var r := m.regs.v[v];
    Tone(r.freq * m.tables.freqmul, r.pulse % 0x1000 * 0x1_0000, r.wave,
         Bit(m.regs.resFtv, if v == 0 then 1 else 2 * v), m.tables.attacks[r.ad / 16],
         m.tables.releases[r.ad % 16], r.sr - r.sr % 16, m.tables.releases[r.sr % 16])
  }

  function MixerOf(m: Machine): Mixer {
    var r := m.regs;
    var freq := (16 * r.ffreqhi + r.ffreqlo % 8) * m.tables.filtmul;
    Mixer(if freq > 0x1_0000 then 0x1_0000 else freq, Bit(r.ftpVol, 0x10), Bit(r.ftpVol, 0x20),
          Bit(r.ftpVol, 0x40), !Bit(r.ftpVol, 0x80), r.ftpVol % 16,
          (78643 - 2621 * (r.resFtv / 16)) / 256)
  }

  function SetUp(m: Machine): Machine
    requires Shape(m)
  {
    m.(osc := [m.osc[0].(tone := ToneOf(m, 0)), m.osc[1].(tone := ToneOf(m, 1)),
               m.osc[2].(tone := ToneOf(m, 2))],
       filter := m.filter.(mixer := MixerOf(m)))
  }

  // ---- Step 2: the oscillators -----------------------------------------------------------

  /** The counter after a sample, before noise and waveforms are derived from it; `r` is the
      reference oscillator. */
  function NextCounter(o: Osc, r: Osc): nat {
    var c := if Bit(o.tone.wave, 0x8) then 0 else (o.counter + o.tone.freq) % 0x1000_0000;
    if Bit(o.tone.wave, 0x2) && r.counter < r.tone.freq
    then r.counter * o.tone.freq / r.tone.freq else c
  }

  function Reset(o: Osc): Osc {
    if Bit(o.tone.wave, 0x8) then o.(noisepos := 0, noiseval := 0xff_ffff) else o
  }

  function NoiseOut(x: nat): Byte {
    128 * One(Bit(x, 0x400000)) + 64 * One(Bit(x, 0x100000)) + 32 * One(Bit(x, 0x10000))
    + 16 * One(Bit(x, 0x2000)) + 8 * One(Bit(x, 0x800)) + 4 * One(Bit(x, 0x80))
    + 2 * One(Bit(x, 0x10)) + One(Bit(x, 0x4))
  }

  function Noise(o: Osc): Osc {
    var pos := o.counter / 0x80_0000;
    if o.noisepos == pos then o
    else
      var x := (2 * o.noiseval + One(Bit(o.noiseval, 0x400000) != Bit(o.noiseval, 0x20000)))
               % 0x1_0000_0000_0000_0000;
      o.(noisepos := pos, noiseval := x, noiseout := NoiseOut(x))
  }

  function Triangle(o: Osc, r: Osc): Byte {
    var t := o.counter / 0x8_0000 % 256;
    var u := if o.counter / 0x800_0000 != 0 then 255 - t else t;
    if Bit(o.tone.wave, 0x4) && r.counter < 0x800_0000 then 255 - u else u
  }

  /** A wave is taken into the byte if it is chosen. */
  function Masked(w: nat, on: bool, x: nat): (r: nat)
    ensures r <= w
  {
    if on then And(w, x) else w
  }

  function Pulse(o: Osc): nat { if o.counter > o.tone.pulse then 0 else 255 }

  function Waveform(o: Osc, r: Osc): (w: nat)
    ensures w <= 255
  {
    var w1 := Masked(255, Bit(o.tone.wave, 0x10), Triangle(o, r));
    var w2 := Masked(w1, Bit(o.tone.wave, 0x20), o.counter / 0x10_0000 % 256);
    var w3 := Masked(w2, Bit(o.tone.wave, 0x40), Pulse(o));
    Masked(w3, Bit(o.tone.wave, 0x80), o.noiseout)
  }

  function Envelope(o: Osc): Osc {
    match o.envphase
    case 0 =>
      var e := o.envval + o.tone.attack;
      if e >= 0xff_ffff then o.(envval := 0xff_ffff, envphase := 1) else o.(envval := e)
    case 1 =>
      var e := o.envval - o.tone.decay;
      if e <= o.tone.sustain * 0x1_0000
      then o.(envval := o.tone.sustain * 0x1_0000, envphase := 2) else o.(envval := e)
    case 2 => if o.envval != o.tone.sustain * 0x1_0000 then o.(envphase := 1) else o
    case 3 =>
      var e := o.envval - o.tone.release;
      o.(envval := if e < 0x4_0000 then 0x4_0000 else e)
    case _ => o
  }

  /** One oscillator for one sample, and the byte of its waveform. */
  function OscStep(o: Osc, r: Osc): (Osc, nat) {
    var o1 := Noise(Reset(o).(counter := NextCounter(o, r)));
    (Envelope(o1), Waveform(o1, r))
  }

  function VoiceOut(w: nat, envval: int): int { (w - 0x80) * envval / 0x40_0000 }

  // ---- Step 3: filter and sample channel -------------------------------------------------

  function FilterStep(f: Filter, outf: int): Filter {
    var h := outf * 0x1_0000 - f.b / 256 * f.mixer.rez - f.l;
    var b := f.b + f.mixer.freq / 256 * (h / 256);
    f.(h := h, b := b, l := f.l + f.mixer.freq / 256 * (b / 256))
  }

  function Filtered(f: Filter): int {
    (if f.mixer.low then f.l / 0x1_0000 else 0) + (if f.mixer.band then f.b / 0x1_0000 else 0)
    + (if f.mixer.high then f.h / 0x1_0000 else 0)
  }

  predicate InSample(d: Digi) { d.active && d.start <= d.position < d.end }

  /** The nibble at a place of memory, as it is added to the output. */
  function NibbleAt(memory: seq<Byte>, position: int, nibble: int): int
    requires |memory| == 0x1_0000
  {
    var x: int := memory[position % 0x1_0000];
    ((if nibble == 1 then x / 16 else x % 16) - 7) * 1024
  }

  function NextNibble(d: Digi): Digi {
    if d.order == 0 then
      if d.nibble + 1 == 2 then d.(nibble := 0, position := d.position + 1)
      else d.(nibble := d.nibble + 1)
    else
      if d.nibble - 1 < 0 then d.(nibble := 1, position := d.position + 1)
      else d.(nibble := d.nibble - 1)
  }

  function Repeated(d: Digi): Digi {
    if d.repeats == 0 then d
    else if d.position > d.end then d.(repeats := d.repeats - 1, position := d.repeatStart)
    else d.(active := false)
  }

  /** A channel that is playing has a period. */
  predicate DigiOk(d: Digi) { d.active ==> d.period > 0 }

  /** GenerateDigi: the channel afterwards, and what it adds to the sample. */
  function DigiStep(d: Digi, memory: seq<Byte>, mixing: nat): (Digi, int)
    requires |memory| == 0x1_0000 && mixing > 0 && DigiOk(d)
  {
    if !InSample(d) then (d, 0)
    else
      var frac := d.frac + 985248 / d.period;
      if frac <= mixing then (d.(frac := frac), d.sample)
      else
        var e := Repeated(NextNibble(d.(frac := frac % mixing)));
        (e.(sample := NibbleAt(memory, e.position, e.nibble)), d.sample)
  }

  /** The output of the voices that are routed to the filter, or past it. */
  function Route(m: Machine, v: nat, filtered: bool, out: int): int
    requires Shape(m) && v < 3
  {
    if (v < 2 || m.filter.mixer.v3) && m.osc[v].tone.filter == filtered then out else 0
  }

  /** The sum of the voices that are routed to the filter, or past it. */
  function Mix(m: Machine, filtered: bool, out: seq<int>): int
    requires Shape(m) && |out| == 3
  {
    Route(m, 0, filtered, out[0]) + Route(m, 1, filtered, out[1]) + Route(m, 2, filtered, out[2])
  }

  /** The three oscillators in turn; each one sees those before it as they are by then. */
  function OscSteps(osc: seq<Osc>): (seq<Osc>, seq<int>)
    requires |osc| == 3
  {
    var (a, wa) := OscStep(osc[0], osc[2]);
    var (b, wb) := OscStep(osc[1], a);
    var (c, wc) := OscStep(osc[2], b);
    ([a, b, c], [VoiceOut(wa, a.envval), VoiceOut(wb, b.envval), VoiceOut(wc, c.envval)])
  }

  function Int16(x: int): int { (x + 0x8000) % 0x1_0000 - 0x8000 }

  predicate Runs(m: Machine) { Shape(m) && DigiOk(m.digi) }

  /** What a sample is before it is stored, and the machine after it. */
  function Compute(m: Machine): (Machine, int)
    requires Runs(m)
  {
    var (osc, out) := OscSteps(m.osc);
    var m1 := m.(osc := osc);
    var filter := FilterStep(m.filter, Mix(m1, true, out));
    var (digi, added) := DigiStep(m.digi, m.memory, m.tables.mixing);
    (m1.(filter := filter, digi := digi),
     filter.mixer.vol * (Mix(m1, false, out) + Filtered(filter)) + added)
  }

  lemma ComputeRuns(m: Machine)
    requires Runs(m)
    ensures Runs(Compute(m).0)
  {
  }

  function Silent(): Machine {
    var v := Voice(0, 0, 0, 0, 0);
    var o := Osc(Tone(0, 0, 0, false, 0, 0, 0, 0), 0, 0, 0, 0, 0xff_ffff, 0);
    Machine(Regs([v, v, v], 0, 0, 0, 0), [o, o, o],
            Filter(Mixer(0, false, false, false, false, 0, 0), 0, 0, 0),
            Digi(false, 0, 0, 0, 0, 0, 0, 0, 0, 0, 0, Pending(0, 0, 0, 0, 0, 0, 0)),
            seq(0x1_0000, _ => 0),
            Tables(44100, 359, 32, seq(16, _ => 0), seq(16, _ => 0)))
  }

  /** A machine that can render. */
  type Live = m: Machine | Runs(m) witness Silent()

  /** One round of the loop of synth_render. */
  function Sample(m: Live): (Live, int) {
    ComputeRuns(m);
    (Compute(m).0, Int16(Compute(m).1))
  }

  /** n rounds of a loop that changes a state and puts out something each time. */
  function Repeat<S, O>(round: S -> (S, O), s: S, n: nat): (r: (S, seq<O>))
    ensures |r.1| == n
    decreases n
  {
    if n == 0 then (s, [])
    else
      var (s1, x) := round(s);
      var (s2, xs) := Repeat(round, s1, n - 1);
      (s2, [x] + xs)
  }

  lemma SetUpRuns(m: Machine)
    requires Runs(m)
    ensures Runs(SetUp(m))
  {
  }

  /** The loop of synth_render. */
  function Samples(m: Live, n: nat): (r: (Live, seq<int>))
    ensures |r.1| == n
  {
    Repeat(Sample, m, n)
  }

  /** synth_render */
  function Render(m: Live, n: nat): (r: (Live, seq<int>))
    ensures |r.1| == n
  {
    SetUpRuns(m);
    Samples(SetUp(m), n)
  }

  // ---- Rendering in parts ----------------------------------------------------------------

  /** What is set up is what the registers say. */
  predicate Settled(m: Live) { SetUp(m) == m }

  lemma SetUpSettles(m: Live)
    ensures Runs(SetUp(m)) && Settled(SetUp(m))
  {
  }

  lemma OscStepKeepsTone(o: Osc, r: Osc)
    ensures OscStep(o, r).0.tone == o.tone
  {
  }

  lemma SampleKeepsSettled(m: Live)
    requires Settled(m)
    ensures Settled(Sample(m).0)
  {
    var m1 := Sample(m).0;
    var (a, wa) := OscStep(m.osc[0], m.osc[2]);
    var (b, wb) := OscStep(m.osc[1], a);
    OscStepKeepsTone(m.osc[0], m.osc[2]);
    OscStepKeepsTone(m.osc[1], a);
    OscStepKeepsTone(m.osc[2], b);
    assert m.osc[0].tone == ToneOf(m, 0) && m.osc[1].tone == ToneOf(m, 1)
           && m.osc[2].tone == ToneOf(m, 2) by {
      assert SetUp(m).osc == m.osc;
    }
  }

  /** What each round keeps holds after all rounds. */
  lemma {:induction false} RepeatKeeps<S, O>(round: S -> (S, O), keeps: S -> bool, s: S, n: nat)
    requires keeps(s) && forall t :: keeps(t) ==> keeps(round(t).0)
    ensures keeps(Repeat(round, s, n).0)
    decreases n
  {
    if n > 0 { RepeatKeeps(round, keeps, round(s).0, n - 1); }
  }

  lemma {:induction false} RepeatSplit<S, O>(round: S -> (S, O), s: S, a: nat, b: nat)
    ensures var (s1, xs) := Repeat(round, s, a);
            var (s2, ys) := Repeat(round, s1, b);
            Repeat(round, s, a + b) == (s2, xs + ys)
    decreases a
  {
    if a == 0 {
      assert [] + Repeat(round, s, b).1 == Repeat(round, s, b).1;
    } else {
      var (s0, x) := round(s);
      RepeatSplit(round, s0, a - 1, b);
      var (s1, xs) := Repeat(round, s0, a - 1);
      var ys := Repeat(round, s1, b).1;
      assert [x] + (xs + ys) == [x] + xs + ys;
    }
  }

  lemma RepeatLast<S, O>(round: S -> (S, O), s: S, n: nat)
    ensures var (t, xs) := Repeat(round, s, n);
            Repeat(round, s, n + 1) == (round(t).0, xs + [round(t).1])
  {
    RepeatSplit(round, s, n, 1);
    var t := Repeat(round, s, n).0;
    RepeatOnce(round, t);
  }

  lemma RepeatOnce<S, O>(round: S -> (S, O), s: S)
    ensures Repeat(round, s, 1) == (round(s).0, [round(s).1])
  {
    var xs: seq<O> := [];
    assert [round(s).1] + xs == [round(s).1];
  }

  lemma SamplesKeepSettled(m: Live, n: nat)
    requires Settled(m)
    ensures Settled(Samples(m, n).0)
  {
    forall t: Live | Settled(t)
      ensures Settled(Sample(t).0)
    {
      SampleKeepsSettled(t);
    }
    RepeatKeeps(Sample, (t: Live) => Settled(t), m, n);
  }

  lemma RenderSettled(m: Live, n: nat)
    requires Settled(m)
    ensures Render(m, n) == Samples(m, n)
  {
  }

  lemma SamplesSplit(m: Live, a: nat, b: nat)
    ensures var (m1, xs) := Samples(m, a);
            var (m2, ys) := Samples(m1, b);
            Samples(m, a + b) == (m2, xs + ys)
  {
    RepeatSplit(Sample, m, a, b);
  }

  /** Rendering a + b samples is rendering a and then b, whatever a and b are. */
  lemma RenderSplit(m: Live, a: nat, b: nat)
    ensures var (m1, xs) := Render(m, a);
            var (m2, ys) := Render(m1, b);
            Render(m, a + b) == (m2, xs + ys)
  {
    SetUpSettles(m);
    var s: Live := SetUp(m);
    SamplesSplit(s, a, b);
    SamplesKeepSettled(s, a);
    RenderSettled(Samples(s, a).0, b);
  }

  // ---- Ranges ----------------------------------------------------------------------------

  /** Tables such that no voice is faster than its counter is wide, and no envelope step leaves the
      range of an int. */
  predicate TablesOk(t: Tables) {
    && t.freqmul <= 4096
    && (forall i :: 0 <= i < |t.attacks| ==> t.attacks[i] <= 0x4000_0000)
    && (forall i :: 0 <= i < |t.releases| ==> t.releases[i] <= 0x4000_0000)
  }

  predicate ToneOk(t: Tone) {
    t.freq < 0x1000_0000 && t.sustain <= 0xf0 && t.attack <= 0x4000_0000
    && t.decay <= 0x4000_0000 && t.release <= 0x4000_0000
  }

  predicate OscOk(o: Osc) {
    o.counter < 0x1000_0000 && 0 <= o.envval <= 0xff_ffff && o.envphase <= 3 && ToneOk(o.tone)
  }

  /** Every envelope and every counter is in its range, and the sample channel holds a nibble. */
  predicate InRange(m: Machine) {
    && TablesOk(m.tables) && (forall v :: 0 <= v < |m.osc| ==> OscOk(m.osc[v]))
    && -7168 <= m.digi.sample <= 8192
  }

  lemma SyncIsBelow(c: nat, f: nat, r: nat)
    requires c < r && f < 0x1000_0000
    ensures c * f / r < 0x1000_0000
  {
    if f > 0 {
      assert c * f <= (r - 1) * f == r * f - f;
      assert c * f < f * r;
      DivBelow(c * f, f, r);
    }
  }

  lemma DivBelow(x: nat, f: nat, r: nat)
    requires r > 0 && x < f * r
    ensures x / r < f
  {
    MulMono(f, x / r, r);
    assert x / r * r <= x;
  }

  lemma MulMono(a: nat, b: nat, c: nat)
    ensures a <= b ==> a * c <= b * c
  {
  }

  lemma CounterInRange(o: Osc, r: Osc)
    requires OscOk(o)
    ensures NextCounter(o, r) < 0x1000_0000
  {
    if r.counter < r.tone.freq { SyncIsBelow(r.counter, o.tone.freq, r.tone.freq); }
  }

  lemma OscInRange(o: Osc, r: Osc)
    requires OscOk(o)
    ensures OscOk(OscStep(o, r).0) && 0 <= OscStep(o, r).1 <= 255
  {
    CounterInRange(o, r);
  }

  /** A step of the envelope never leaves the range of an int, where the program compares. */
  lemma EnvelopeFitsInt(o: Osc)
    requires OscOk(o)
    ensures -0x8000_0000 <= o.envval - o.tone.decay <= 0x7fff_ffff
    ensures -0x8000_0000 <= o.envval - o.tone.release && o.envval + o.tone.attack <= 0x7fff_ffff
    ensures 0 <= o.tone.sustain * 0x1_0000 <= 0xff_ffff
  {
  }

  lemma SetUpInRange(m: Live)
    requires InRange(m)
    ensures InRange(SetUp(m))
  {
    ToneInRange(m, 0);
    ToneInRange(m, 1);
    ToneInRange(m, 2);
  }

  lemma ToneInRange(m: Live, v: nat)
    requires TablesOk(m.tables) && v < 3
    ensures ToneOk(ToneOf(m, v))
  {
    MulBounds(m.regs.v[v].freq, 0xffff, m.tables.freqmul, 4096);
  }

  lemma DigiInRange(d: Digi, memory: seq<Byte>, mixing: nat)
    requires |memory| == 0x1_0000 && mixing > 0 && DigiOk(d) && -7168 <= d.sample <= 8192
    ensures var (e, added) := DigiStep(d, memory, mixing);
            -7168 <= e.sample <= 8192 && -7168 <= added <= 8192
  {
  }

  lemma SampleInRange(m: Live)
    requires InRange(m)
    ensures InRange(Sample(m).0)
  {
    var (a, wa) := OscStep(m.osc[0], m.osc[2]);
    var (b, wb) := OscStep(m.osc[1], a);
    OscInRange(m.osc[0], m.osc[2]);
    OscInRange(m.osc[1], a);
    OscInRange(m.osc[2], b);
    DigiInRange(m.digi, m.memory, m.tables.mixing);
  }

  /** Rendering keeps every envelope in [0, 0xffffff] and every counter below 2^28. */
  lemma RenderInRange(m: Live, n: nat)
    requires InRange(m)
    ensures InRange(Render(m, n).0)
  {
    SetUpRuns(m);
    SetUpInRange(m);
    var s: Live := SetUp(m);
    forall t: Live | InRange(t)
      ensures InRange(Sample(t).0)
    {
      SampleInRange(t);
    }
    RepeatKeeps(Sample, (t: Live) => InRange(t), s, n);
  }

  lemma VoiceInRange(w: nat, envval: int)
    requires w <= 255 && 0 <= envval <= 0xff_ffff
    ensures -512 <= VoiceOut(w, envval) <= 507
  {
    var x := (w - 0x80) * envval;
    if w >= 0x80 {
      assert 0 <= x <= 127 * 0xff_ffff by { MulBounds(w - 0x80, 127, envval, 0xff_ffff); }
    } else {
      assert 0 <= -x <= 128 * 0xff_ffff by { MulBounds(0x80 - w, 128, envval, 0xff_ffff); }
    }
  }

  lemma MulBounds(a: nat, b: nat, c: nat, d: nat)
    requires a <= b && c <= d
    ensures 0 <= a * c <= b * d
  {
    assert a * c <= b * c <= b * d;
  }

  /** With the outputs of the filter off, a sample with all its channels fits 16 bits, so it is
      stored as it was computed. */
  lemma SampleFits(m: Live)
    requires InRange(m)
    requires !m.filter.mixer.low && !m.filter.mixer.band && !m.filter.mixer.high
    requires m.filter.mixer.vol <= 15
    ensures -0x8000 <= Compute(m).1 <= 0x7fff && Sample(m).1 == Compute(m).1
  {
    var (osc, out) := OscSteps(m.osc);
    var x := Mix(m.(osc := osc), false, out);
    MixInRange(m, m.(osc := osc), out);
    DigiInRange(m.digi, m.memory, m.tables.mixing);
    VolumeBounds(m.filter.mixer.vol, x);
    assert Compute(m).1 == m.filter.mixer.vol * x + DigiStep(m.digi, m.memory, m.tables.mixing).1;
    Int16Exact(Compute(m).1);
  }

  lemma Int16Exact(x: int)
    requires -0x8000 <= x <= 0x7fff
    ensures Int16(x) == x
  {
  }

  lemma MixInRange(m: Live, m1: Machine, out: seq<int>)
    requires InRange(m) && Shape(m1) && out == OscSteps(m.osc).1
    ensures -1536 <= Mix(m1, false, out) <= 1521
  {
    VoicesInRange(m);
  }

  lemma VolumeBounds(vol: nat, x: int)
    requires vol <= 15 && -1536 <= x <= 1521
    ensures -23040 <= vol * x <= 22815
  {
    if x >= 0 { MulBounds(vol, 15, x, 1521); } else { MulBounds(vol, 15, -x, 1536); }
  }

  lemma VoicesInRange(m: Live)
    requires InRange(m)
    ensures forall v :: 0 <= v < 3 ==> -512 <= OscSteps(m.osc).1[v] <= 507
  {
    var (a, wa) := OscStep(m.osc[0], m.osc[2]);
    var (b, wb) := OscStep(m.osc[1], a);
    var (c, wc) := OscStep(m.osc[2], b);
    OscInRange(m.osc[0], m.osc[2]);
    OscInRange(m.osc[1], a);
    OscInRange(m.osc[2], b);
    VoiceInRange(wa, a.envval);
    VoiceInRange(wb, b.envval);
    VoiceInRange(wc, c.envval);
  }

  /** In range, and with the outputs of the filter off. */
  predicate Dry(m: Live) {
    && InRange(m) && m.filter.mixer.vol <= 15
    && !m.filter.mixer.low && !m.filter.mixer.band && !m.filter.mixer.high
  }

  lemma SampleStaysDry(m: Live)
    requires Dry(m)
    ensures Dry(Sample(m).0)
  {
    SampleInRange(m);
  }

  lemma SamplesStayDry(m: Live, n: nat)
    requires Dry(m)
    ensures Dry(Samples(m, n).0)
  {
    forall t: Live | Dry(t)
      ensures Dry(Sample(t).0)
    {
      SampleStaysDry(t);
    }
    RepeatKeeps(Sample, (t: Live) => Dry(t), m, n);
  }

  /** While the volume register leaves the outputs of the filter off, every sample of every
      rendering is stored as it was computed. */
  lemma RenderFits(m: Live, k: nat)
    requires InRange(m) && m.regs.ftpVol / 16 % 8 == 0
    ensures var t := Render(m, k).0;
            -0x8000 <= Compute(t).1 <= 0x7fff && Sample(t).1 == Compute(t).1
  {
    SetUpRuns(m);
    SetUpInRange(m);
    FilterIsOff(m);
    var s: Live := SetUp(m);
    SamplesStayDry(s, k);
    SampleFits(Samples(s, k).0);
  }

  lemma FilterIsOff(m: Machine)
    requires m.regs.ftpVol / 16 % 8 == 0
    ensures var x := MixerOf(m);
            !x.low && !x.band && !x.high && x.vol <= 15
  {
    var v: int := m.regs.ftpVol;
    assert v / 32 == v / 16 / 2 && v / 64 == v / 16 / 4;
  }

  // ---- Registers -------------------------------------------------------------------------

  /** The field of a voice that a register changes. */
  function VoicePoke(v: Voice, reg: nat, val: Byte): Voice {
    match reg
    case 0 => v.(freq := v.freq - v.freq % 256 + val)
    case 1 => v.(freq := v.freq % 256 + val * 256)
    case 2 => v.(pulse := v.pulse - v.pulse % 256 + val)
    case 3 => v.(pulse := v.pulse % 256 + val * 256)
    case 4 => v.(wave := val)
    case 5 => v.(ad := val)
    case 6 => v.(sr := val)
    case _ => v
  }

  /** The gate bit puts the envelope into its release or its attack phase. */
  function Gated(o: Osc, val: Byte): Osc {
    if val % 2 == 0 then o.(envphase := 3)
    else if o.envphase == 3 then o.(envphase := 0) else o
  }

  /** sidPoke */
  function Poke(m: Machine, reg: nat, val: Byte): Machine
    requires Shape(m)
  {
    if reg < 21 then
      var v, r := reg / 7, reg % 7;
      m.(regs := m.regs.(v := m.regs.v[v := VoicePoke(m.regs.v[v], r, val)]),
         osc := if r == 4 then m.osc[v := Gated(m.osc[v], val)] else m.osc)
    else
      var r := m.regs;
      m.(regs := r.(ffreqlo := if reg == 21 then val else r.ffreqlo,
                    ffreqhi := if reg == 22 then val else r.ffreqhi,
                    resFtv := if reg == 23 then val else r.resFtv,
                    ftpVol := if reg == 24 then val else r.ftpVol))
  }

  /** What a register of the chip holds. */
  function Register(r: Regs, reg: nat): Byte
    requires |r.v| == 3 && reg < 25
  {
    if reg < 21 then
      var v := r.v[reg / 7];
      match reg % 7
      case 0 => v.freq % 256
      case 1 => v.freq / 256
      case 2 => v.pulse % 256
      case 3 => v.pulse / 256
      case 4 => v.wave
      case 5 => v.ad
      case _ => v.sr
    else
      match reg
      case 21 => r.ffreqlo
      case 22 => r.ffreqhi
      case 23 => r.resFtv
      case _ => r.ftpVol
  }

  lemma VoicePokeIs(r: Regs, reg: nat, val: Byte, other: nat)
    requires |r.v| == 3 && reg < 21 && other < 25
    ensures Register(r.(v := r.v[reg / 7 := VoicePoke(r.v[reg / 7], reg % 7, val)]), other)
            == if other == reg then val else Register(r, other)
  {
    if other < 21 && other / 7 == reg / 7 {
      HalvesKept(r.v[reg / 7].freq, val);
      HalvesKept(r.v[reg / 7].pulse, val);
      assert other % 7 == reg % 7 <==> other == reg;
    }
  }

  lemma HalvesKept(x: U16, val: Byte)
    ensures (x - x % 256 + val) % 256 == val && (x - x % 256 + val) / 256 == x / 256
    ensures (x % 256 + val * 256) % 256 == x % 256 && (x % 256 + val * 256) / 256 == val
  {
  }

  /** The registers are cells: a poke changes the one it names, if there is such a one, and no
      other.  Writing the control register of a voice puts that voice's envelope into its release or
      its attack, and nothing else is touched. */
  lemma PokeIs(m: Machine, reg: nat, val: Byte)
    requires Shape(m)
    ensures var t := Poke(m, reg, val);
            && Shape(t)
            && (forall other :: 0 <= other < 25 ==>
                  Register(t.regs, other)
                  == if other == reg then val else Register(m.regs, other))
            && t.(regs := m.regs, osc := m.osc) == m
            && (forall v :: 0 <= v < 3 ==>
                  t.osc[v] == if reg != 7 * v + 4 then m.osc[v]
                              else if val % 2 == 0 then m.osc[v].(envphase := 3)
                              else if m.osc[v].envphase == 3 then m.osc[v].(envphase := 0)
                              else m.osc[v])
  {
    var t := Poke(m, reg, val);
    forall other | 0 <= other < 25
      ensures Register(t.regs, other) == if other == reg then val else Register(m.regs, other)
    {
      if reg < 21 { VoicePokeIs(m.regs, reg, val, other); }
    }
  }

  /** The trigger register: the latched values are taken over. */
  function Started(d: Digi, val: Byte): Digi {
    var p := d.pending;
    d.(repeats := p.repeatTimes, position := p.start, start := p.start, end := p.end,
       repeatStart := p.repeatStart, period := p.period, order := p.order,
       active := if val == 0xfd then false else val == 0xfe || val == 0xff || d.active)
  }

  function Lo(x: U16, val: Byte): U16 { x - x % 256 + val }
  function Hi(x: U16, val: Byte): U16 { x % 256 + val * 256 }

  /** One of the latched values of two bytes, after a write to `addr`. */
  function Latch(x: U16, lo: nat, hi: nat, addr: nat, val: Byte): U16 {
    if addr == lo then Lo(x, val) else if addr == hi then Hi(x, val) else x
  }

  /** The additional registers of the sample channel. */
  function DigiPoke(d: Digi, addr: nat, val: Byte): Digi {
    var p := d.pending;
    (if addr == 0xd41d then Started(d, val) else d).(pending :=
      Pending(Latch(p.period, 0xd45d, 0xd45e, addr, val),
              if addr == 0xd47d then val else p.order,
              Latch(p.start, 0xd41e, 0xd41f, addr, val),
              Latch(p.end, 0xd43d, 0xd43e, addr, val),
              if addr == 0xd45f then val else p.add,
              if addr == 0xd43f then val else p.repeatTimes,
              Latch(p.repeatStart, 0xd47e, 0xd47f, addr, val)))
  }

  /** The addresses of the SID. */
  predicate IsSid(addr: nat) { 0xd400 <= addr < 0xd800 }

  /** setmem */
  function SetMem(m: Machine, addr: U16, val: Byte): Machine
    requires Shape(m)
  {
    if IsSid(addr) then
      Poke(m, addr % 32, val).(digi := if addr > 0xd418 then DigiPoke(m.digi, addr, val)
                                       else m.digi)
    else m.(memory := m.memory[addr := val])
  }

  /** A write keeps every range, and the machine can render unless the write starts the sample
      channel without a period. */
  lemma SetMemInRange(m: Machine, addr: U16, val: Byte)
    requires Shape(m)
    ensures Shape(SetMem(m, addr, val))
    ensures InRange(m) ==> InRange(SetMem(m, addr, val))
    ensures Runs(m) ==>
              (Runs(SetMem(m, addr, val)) <==>
                 !(addr == 0xd41d && m.digi.pending.period == 0
                   && (val == 0xfe || val == 0xff || (val != 0xfd && m.digi.active))))
  {
  }
}
