/** The waves of ext/audio/sid.c, told from the counters and the bits of the control registers. */
module SidSound {
  import opened SidMachine

  // ---- Bits ------------------------------------------------------------------------------

  predicate BitAt(x: nat, i: nat) { if i == 0 then x % 2 == 1 else BitAt(x / 2, i - 1) }

  lemma {:induction false} AndBit(x: nat, y: nat, i: nat)
    ensures BitAt(And(x, y), i) <==> BitAt(x, i) && BitAt(y, i)
    decreases i
  {
    if x == 0 || y == 0 {
      ZeroBits(i);
    } else if i > 0 {
      AndHalves(x, y);
      AndBit(x / 2, y / 2, i - 1);
    } else {
      AndHalves(x, y);
    }
  }

  lemma {:induction false} ZeroBits(i: nat)
    ensures !BitAt(0, i)
  {
    if i > 0 { ZeroBits(i - 1); }
  }

  lemma AndHalves(x: nat, y: nat)
    ensures And(x, y) / 2 == And(x / 2, y / 2)
    ensures And(x, y) % 2 == if x % 2 == 1 && y % 2 == 1 then 1 else 0
  {
  }

  function Pow2(n: nat): (p: nat)
    ensures p > 0
  {
    if n == 0 then 1 else 2 * Pow2(n - 1)
  }

  /** And with a number all of whose n bits are set. */
  lemma {:induction false} AndOnes(n: nat, x: nat, y: nat)
    requires x == Pow2(n) - 1 && y < Pow2(n)
    ensures And(x, y) == y
  {
    if n > 0 {
      AndOnes(n - 1, x / 2, y / 2);
      AndHalves(x, y);
    }
  }

  lemma AndOnesByte(x: nat, y: nat)
    requires x == 255 && y < 256
    ensures And(x, y) == y
  {
    assert Pow2(4) == 16;
    AndOnes(8, x, y);
  }

  lemma {:induction false} OnesBits(n: nat, x: nat, i: nat)
    requires x == Pow2(n) - 1 && i < n
    ensures BitAt(x, i)
    decreases i
  {
    HalfOfOnes(x, Pow2(n - 1));
    if i > 0 { OnesBits(n - 1, x / 2, i - 1); }
  }

  lemma HalfOfOnes(x: nat, p: nat)
    requires p > 0 && x == 2 * p - 1
    ensures x % 2 == 1 && x / 2 == p - 1
  {
  }

  lemma ByteOnes(i: nat)
    requires i < 8
    ensures BitAt(255, i)
  {
    assert Pow2(4) == 16;
    OnesBits(8, 255, i);
  }

  lemma QuotientIs(x: nat, p: nat, q: nat, r: nat)
    requires x == p * q + r && r < p
    ensures x / p == q
  {
    if x / p > q {
      Multiples(p, q + 1, x / p);
    } else if x / p < q {
      Multiples(p, x / p + 1, q);
    }
  }

  lemma Multiples(p: nat, a: nat, b: nat)
    requires a <= b
    ensures p * a <= p * b
  {
  }

  lemma HalfFirst(x: nat, p: nat)
    requires p > 0
    ensures x / (2 * p) == x / 2 / p
  {
    var q, r := x / (2 * p), x % (2 * p);
    assert x == 2 * p * q + r;
    assert x == 2 * (p * q) + r;
    assert x / 2 == p * q + r / 2;
    QuotientIs(x / 2, p, q, r / 2);
  }

  /** The two ways to name a bit. */
  lemma {:induction false} MaskIsBit(x: nat, i: nat)
    ensures Bit(x, Pow2(i)) <==> BitAt(x, i)
    decreases i
  {
    if i > 0 {
      HalfFirst(x, Pow2(i - 1));
      MaskIsBit(x / 2, i - 1);
    }
  }

  lemma SmallPowers()
    ensures Pow2(0) == 1 && Pow2(1) == 2 && Pow2(2) == 4 && Pow2(3) == 8 && Pow2(4) == 0x10
    ensures Pow2(5) == 0x20 && Pow2(6) == 0x40 && Pow2(7) == 0x80
  {
    assert Pow2(3) == 8;
    assert Pow2(5) == 0x20;
  }

  /** The bits of a control register. */
  lemma ControlBits(x: Byte)
    ensures (Bit(x, 0x2) <==> BitAt(x, 1)) && (Bit(x, 0x4) <==> BitAt(x, 2))
    ensures (Bit(x, 0x8) <==> BitAt(x, 3)) && (Bit(x, 0x10) <==> BitAt(x, 4))
    ensures (Bit(x, 0x20) <==> BitAt(x, 5)) && (Bit(x, 0x40) <==> BitAt(x, 6))
    ensures Bit(x, 0x80) <==> BitAt(x, 7)
  {
    SmallPowers();
    MaskIsBit(x, 1);
    MaskIsBit(x, 2);
    MaskIsBit(x, 3);
    MaskIsBit(x, 4);
    MaskIsBit(x, 5);
    MaskIsBit(x, 6);
    MaskIsBit(x, 7);
  }

  // ---- Waves -----------------------------------------------------------------------------

  /** A triangle over a cycle of 2^28: up in the first half, and down again in the second. */
  function TriangleAt(c: nat): nat
    requires c < 0x1000_0000
  {
    if c < 0x800_0000 then 2 * c / 0x10_0000 else 2 * (0xfff_ffff - c) / 0x10_0000
  }

  /** Ring modulation turns it over while the other oscillator is in the first half of its cycle. */
  function Modulated(o: Osc, r: Osc): nat
    requires o.counter < 0x1000_0000
  {
    if BitAt(o.tone.wave, 2) && r.counter < 0x800_0000 then 255 - TriangleAt(o.counter)
    else TriangleAt(o.counter)
  }

  lemma TriangleIs(o: Osc, r: Osc)
    requires o.counter < 0x1000_0000
    ensures Triangle(o, r) == Modulated(o, r)
  {
    ControlBits(o.tone.wave);
    if o.counter < 0x800_0000 { RisingIs(o.counter); } else { FallingIs(o.counter); }
  }

  lemma RisingIs(c: nat)
    requires c < 0x800_0000
    ensures c / 0x800_0000 == 0 && c / 0x8_0000 % 256 == 2 * c / 0x10_0000 <= 255
  {
  }

  lemma FallingIs(c: nat)
    requires 0x800_0000 <= c < 0x1000_0000
    ensures c / 0x800_0000 == 1
    ensures 255 - c / 0x8_0000 % 256 == 2 * (0xfff_ffff - c) / 0x10_0000
  {
    assert c / 0x8_0000 % 256 == c / 0x8_0000 - 256;
  }

  /** The triangle is symmetric, rises by one level in 2^19 steps and spans all levels. */
  lemma TriangleShape(c: nat)
    requires c < 0x1000_0000
    ensures TriangleAt(c) == TriangleAt(0xfff_ffff - c) && TriangleAt(c) <= 255
    ensures c + 0x8_0000 < 0x800_0000 ==> TriangleAt(c + 0x8_0000) == TriangleAt(c) + 1
    ensures c == 0 ==> TriangleAt(c) == 0
    ensures c == 0x7ff_ffff ==> TriangleAt(c) == 255
  {
  }

  /** A bit of the waveform byte is set if and only if it is set in every wave that is chosen: the
      triangle, the rising ramp, the pulse that is full up to its width, and the noise. */
  lemma WaveBitIff(o: Osc, r: Osc, i: nat)
    requires o.counter < 0x1000_0000 && i < 8
    ensures BitAt(Waveform(o, r), i)
            <==> && (BitAt(o.tone.wave, 4) ==> BitAt(Modulated(o, r), i))
                 && (BitAt(o.tone.wave, 5) ==> BitAt(o.counter / 0x10_0000, i))
                 && (BitAt(o.tone.wave, 6) ==> o.counter <= o.tone.pulse)
                 && (BitAt(o.tone.wave, 7) ==> BitAt(o.noiseout, i))
  {
    ControlBits(o.tone.wave);
    TriangleIs(o, r);
    ByteOnes(i);
    ZeroBits(i);
    WaveBit(o, r, i);
  }

  lemma MaskedBit(w: nat, on: bool, x: nat, i: nat)
    ensures BitAt(Masked(w, on, x), i) <==> BitAt(w, i) && (on ==> BitAt(x, i))
  {
    AndBit(w, x, i);
  }

  lemma WaveformIs(o: Osc, r: Osc, w0: nat, w1: nat, w2: nat, w3: nat)
    requires w0 == 255 && w1 == Masked(w0, Bit(o.tone.wave, 0x10), Triangle(o, r))
    requires o.counter < 0x1000_0000
    requires w2 == Masked(w1, Bit(o.tone.wave, 0x20), o.counter / 0x10_0000)
    requires w3 == Masked(w2, Bit(o.tone.wave, 0x40), Pulse(o))
    ensures Waveform(o, r) == Masked(w3, Bit(o.tone.wave, 0x80), o.noiseout)
  {
  }

  lemma WaveBit(o: Osc, r: Osc, i: nat)
    requires i < 8 && BitAt(255, i) && !BitAt(0, i) && o.counter < 0x1000_0000
    ensures BitAt(Waveform(o, r), i)
            <==> && (Bit(o.tone.wave, 0x10) ==> BitAt(Triangle(o, r), i))
                 && (Bit(o.tone.wave, 0x20) ==> BitAt(o.counter / 0x10_0000, i))
                 && (Bit(o.tone.wave, 0x40) ==> o.counter <= o.tone.pulse)
                 && (Bit(o.tone.wave, 0x80) ==> BitAt(o.noiseout, i))
  {
    var w0: nat := 255;
    var w1 := Masked(w0, Bit(o.tone.wave, 0x10), Triangle(o, r));
    var w2 := Masked(w1, Bit(o.tone.wave, 0x20), o.counter / 0x10_0000);
    var w3 := Masked(w2, Bit(o.tone.wave, 0x40), Pulse(o));
    WaveformIs(o, r, w0, w1, w2, w3);
    MaskedBit(w0, Bit(o.tone.wave, 0x10), Triangle(o, r), i);
    MaskedBit(w1, Bit(o.tone.wave, 0x20), o.counter / 0x10_0000, i);
    MaskedBit(w2, Bit(o.tone.wave, 0x40), Pulse(o), i);
    MaskedBit(w3, Bit(o.tone.wave, 0x80), o.noiseout, i);
  }

  /** One wave alone is that wave. */
  lemma WaveAlone(o: Osc, r: Osc)
    requires o.counter < 0x1000_0000
    ensures var (tri, saw, pulse, noise) := (BitAt(o.tone.wave, 4), BitAt(o.tone.wave, 5),
                                             BitAt(o.tone.wave, 6), BitAt(o.tone.wave, 7));
            && (tri && !saw && !pulse && !noise ==> Waveform(o, r) == Modulated(o, r))
            && (!tri && saw && !pulse && !noise ==> Waveform(o, r) == o.counter / 0x10_0000)
            && (!tri && !saw && pulse && !noise ==>
                  Waveform(o, r) == if o.counter <= o.tone.pulse then 255 else 0)
            && (!tri && !saw && !pulse && noise ==> Waveform(o, r) == o.noiseout)
            && (!tri && !saw && !pulse && !noise ==> Waveform(o, r) == 255)
  {
    ControlBits(o.tone.wave);
    TriangleIs(o, r);
    MaskedByte(o, r, 255);
  }

  lemma MaskedByte(o: Osc, r: Osc, w0: nat)
    requires w0 == 255 && o.counter < 0x1000_0000
    ensures var (tri, saw, pulse, noise) := (Bit(o.tone.wave, 0x10), Bit(o.tone.wave, 0x20),
                                             Bit(o.tone.wave, 0x40), Bit(o.tone.wave, 0x80));
            && (tri && !saw && !pulse && !noise ==> Waveform(o, r) == Triangle(o, r))
            && (!tri && saw && !pulse && !noise ==> Waveform(o, r) == o.counter / 0x10_0000)
            && (!tri && !saw && pulse && !noise ==> Waveform(o, r) == Pulse(o))
            && (!tri && !saw && !pulse && noise ==> Waveform(o, r) == o.noiseout)
            && (!tri && !saw && !pulse && !noise ==> Waveform(o, r) == w0)
  {
    var w1 := Masked(w0, Bit(o.tone.wave, 0x10), Triangle(o, r));
    var w2 := Masked(w1, Bit(o.tone.wave, 0x20), o.counter / 0x10_0000);
    var w3 := Masked(w2, Bit(o.tone.wave, 0x40), Pulse(o));
    WaveformIs(o, r, w0, w1, w2, w3);
    AndOnesByte(w0, Triangle(o, r));
    AndOnesByte(w0, o.counter / 0x10_0000);
    AndOnesByte(w0, Pulse(o));
    AndOnesByte(w0, o.noiseout);
  }

  // ---- Counters --------------------------------------------------------------------------

  /** The counter runs with the frequency round its cycle.  The test bit holds it at zero; the sync
      bit sets it, while the other oscillator begins a cycle, to what this one covers in the time
      since. */
  lemma CounterIs(o: Osc, r: Osc)
    requires OscOk(o) && OscOk(r)
    ensures var c := NextCounter(o, r);
            if BitAt(o.tone.wave, 1) && r.counter < r.tone.freq then
              c * r.tone.freq <= r.counter * o.tone.freq < (c + 1) * r.tone.freq
            else if BitAt(o.tone.wave, 3) then c == 0
            else c == if o.counter + o.tone.freq < 0x1000_0000 then o.counter + o.tone.freq
                      else o.counter + o.tone.freq - 0x1000_0000
  {
    ControlBits(o.tone.wave);
    if r.counter < r.tone.freq {
      QuotientBounds(r.counter * o.tone.freq, r.tone.freq);
    }
  }

  lemma QuotientBounds(x: nat, p: nat)
    requires p > 0
    ensures x / p * p <= x < (x / p + 1) * p
  {
  }

  // ---- Noise -----------------------------------------------------------------------------

  function Double(x: nat, low: bool): nat { 2 * x + if low then 1 else 0 }

  lemma DoubleBits(x: nat, low: bool, i: nat)
    ensures BitAt(Double(x, low), i) == if i == 0 then low else BitAt(x, i - 1)
  {
    assert Double(x, low) / 2 == x;
  }

  lemma HalfOfRest(x: nat, p: nat)
    requires p > 0
    ensures x % (2 * p) % 2 == x % 2 && x % (2 * p) / 2 == x / 2 % p
  {
    var q, y := x / (2 * p), x % (2 * p);
    assert x == 2 * p * q + y;
    assert 2 * p * q == 2 * (p * q);
    assert x / 2 == p * q + y / 2;
    RemainderIs(x / 2, p, q, y / 2);
  }

  /** The bits below the n-th one do not depend on those above. */
  lemma {:induction false} LowBits(x: nat, n: nat, i: nat)
    requires i < n
    ensures BitAt(x % Pow2(n), i) == BitAt(x, i)
    decreases i
  {
    HalfOfRest(x, Pow2(n - 1));
    if i > 0 { LowBits(x / 2, n - 1, i - 1); }
  }

  lemma RemainderIs(x: nat, p: nat, q: nat, r: nat)
    requires x == p * q + r && r < p
    ensures x % p == r
  {
    QuotientIs(x, p, q, r);
    assert p * (x / p) == p * q;
  }

  /** The bit that is shifted into the noise register. */
  predicate Feedback(x: nat) { BitAt(x, 22) != BitAt(x, 17) }

  function Shifted(x: nat): nat {
    (2 * x + One(Bit(x, 0x400000) != Bit(x, 0x20000))) % 0x1_0000_0000_0000_0000
  }

  lemma WidePowers()
    ensures Pow2(10) == 0x400 && Pow2(11) == 0x800 && Pow2(13) == 0x2000 && Pow2(16) == 0x1_0000
    ensures Pow2(17) == 0x2_0000 && Pow2(20) == 0x10_0000 && Pow2(22) == 0x40_0000
    ensures Pow2(64) == 0x1_0000_0000_0000_0000
  {
    SmallPowers();
    PowersAdd(5, 5);
    PowersAdd(5, 6);
    PowersAdd(6, 7);
    PowersAdd(3, 13);
    PowersAdd(4, 13);
    PowersAdd(10, 10);
    PowersAdd(11, 11);
    PowersAdd(16, 16);
    PowersAdd(32, 32);
  }

  lemma {:induction false} PowersAdd(a: nat, b: nat)
    ensures Pow2(a + b) == Pow2(a) * Pow2(b)
  {
    if a > 0 {
      PowersAdd(a - 1, b);
      var x, y := Pow2(a - 1), Pow2(b);
      assert 2 * (x * y) == 2 * x * y;
    }
  }

  /** The register is shifted up by one, and takes in the difference of its bits 22 and 17. */
  lemma ShiftedBits(x: nat, i: nat)
    requires i < 64
    ensures BitAt(Shifted(x), i) == if i == 0 then Feedback(x) else BitAt(x, i - 1)
  {
    WidePowers();
    MaskIsBit(x, 22);
    MaskIsBit(x, 17);
    var y := Double(x, Feedback(x));
    DoubleBits(x, Feedback(x), i);
    LowBits(y, 64, i);
    assert Shifted(x) == y % Pow2(64);
  }

  function ShiftedTimes(x: nat, n: nat): nat
    decreases n
  {
    if n == 0 then x else Shifted(ShiftedTimes(x, n - 1))
  }

  /** A bit of the register is the one that came in that long ago. */
  lemma {:induction false} BitsWander(x: nat, n: nat, i: nat)
    requires i < 64 && i < n
    ensures BitAt(ShiftedTimes(x, n), i) == BitAt(ShiftedTimes(x, n - i), 0)
    decreases i
  {
    if i > 0 {
      ShiftedBits(ShiftedTimes(x, n - 1), i);
      BitsWander(x, n - 1, i - 1);
    }
  }

  /** The noise is the sequence of a shift register of 23 bits: each bit is the difference of those
      that came in 23 and 18 bits before it. */
  lemma NoiseRecurs(x: nat, n: nat)
    requires n > 22
    ensures BitAt(ShiftedTimes(x, n + 1), 0)
            <==> BitAt(ShiftedTimes(x, n - 22), 0) != BitAt(ShiftedTimes(x, n - 17), 0)
  {
    ShiftedBits(ShiftedTimes(x, n), 0);
    BitsWander(x, n, 22);
    BitsWander(x, n, 17);
  }

  /** The bits of the noise byte, from the top: 22, 20, 16, 13, 11, 7, 4 and 2 of the register. */
  function Tap(i: nat): nat {
    match i
    case 0 => 2 case 1 => 4 case 2 => 7 case 3 => 11 case 4 => 13 case 5 => 16 case 6 => 20
    case _ => 22
  }

  lemma NoiseTaps(x: nat)
    ensures (Bit(x, 0x4) <==> BitAt(x, 2)) && (Bit(x, 0x10) <==> BitAt(x, 4))
    ensures (Bit(x, 0x80) <==> BitAt(x, 7)) && (Bit(x, 0x800) <==> BitAt(x, 11))
    ensures (Bit(x, 0x2000) <==> BitAt(x, 13)) && (Bit(x, 0x10000) <==> BitAt(x, 16))
    ensures (Bit(x, 0x100000) <==> BitAt(x, 20)) && (Bit(x, 0x400000) <==> BitAt(x, 22))
  {
    SmallPowers();
    WidePowers();
    MaskIsBit(x, 2);
    MaskIsBit(x, 4);
    MaskIsBit(x, 7);
    MaskIsBit(x, 11);
    MaskIsBit(x, 13);
    MaskIsBit(x, 16);
    MaskIsBit(x, 20);
    MaskIsBit(x, 22);
  }

  /** The number with these bits, the lowest one first. */
  function Number(b: seq<bool>): nat {
    if |b| == 0 then 0 else Double(Number(b[1..]), b[0])
  }

  lemma {:induction false} NumberBits(b: seq<bool>, i: nat)
    requires i < |b|
    ensures BitAt(Number(b), i) == b[i]
    decreases i
  {
    DoubleBits(Number(b[1..]), b[0], i);
    if i > 0 { NumberBits(b[1..], i - 1); }
  }

  lemma FourBits(b: seq<bool>)
    requires |b| >= 4
    ensures Number(b) == 16 * Number(b[4..]) + 8 * One(b[3]) + 4 * One(b[2]) + 2 * One(b[1])
                         + One(b[0])
  {
    assert b[1..][1..] == b[2..] && b[2..][1..] == b[3..] && b[3..][1..] == b[4..];
    assert Number(b[2..]) == 4 * Number(b[4..]) + 2 * One(b[3]) + One(b[2]);
  }

  lemma EightBits(b: seq<bool>, x: nat, i: nat)
    requires |b| == 8 && i < 8
    requires x == 128 * One(b[7]) + 64 * One(b[6]) + 32 * One(b[5]) + 16 * One(b[4])
                  + 8 * One(b[3]) + 4 * One(b[2]) + 2 * One(b[1]) + One(b[0])
    ensures BitAt(x, i) == b[i]
  {
    FourBits(b);
    FourBits(b[4..]);
    assert Number(b[4..][4..]) == 0;
    NumberBits(b, i);
  }

  lemma NoiseByteIs(x: nat, i: nat)
    requires i < 8
    ensures BitAt(NoiseOut(x), i) == BitAt(x, Tap(i))
  {
    NoiseTaps(x);
    var b := seq(8, k requires 0 <= k < 8 => BitAt(x, Tap(k)));
    EightBits(b, NoiseOut(x), i);
  }

  /** The register is shifted once whenever the counter has come to another multiple of 2^23, and
      the byte is taken from it then; otherwise nothing changes. */
  lemma NoiseIs(o: Osc)
    ensures var n := Noise(o);
            if o.noisepos == o.counter / 0x80_0000 then n == o
            else
              && n.noisepos == o.counter / 0x80_0000 && n.noiseval == Shifted(o.noiseval)
              && (forall i :: 0 <= i < 8 ==> BitAt(n.noiseout, i) == BitAt(n.noiseval, Tap(i)))
              && n == o.(noisepos := n.noisepos, noiseval := n.noiseval, noiseout := n.noiseout)
  {
    forall i | 0 <= i < 8
      ensures BitAt(NoiseOut(Shifted(o.noiseval)), i) == BitAt(Shifted(o.noiseval), Tap(i))
    {
      NoiseByteIs(Shifted(o.noiseval), i);
    }
  }
}
