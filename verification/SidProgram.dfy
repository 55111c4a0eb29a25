/** The loops of ext/audio/sid.c over its global arrays. */
module SidProgram {
  import opened Common
  import opened SidMachine
  import opened SidCpu
  import opened SidRuns
  import opened SidPlayer
  import opened SidSong

  /** The mix of the first n voices. */
  function MixTo(m: Machine, filtered: bool, out: seq<int>, n: nat): int
    requires Shape(m) && |out| == 3 && n <= 3
  {
    if n == 0 then 0 else MixTo(m, filtered, out, n - 1) + Route(m, n - 1, filtered, out[n - 1])
  }

  lemma MixIsAll(m: Machine, filtered: bool, out: seq<int>)
    requires Shape(m) && |out| == 3
    ensures MixTo(m, filtered, out, 3) == Mix(m, filtered, out)
  {
    assert MixTo(m, filtered, out, 1) == Route(m, 0, filtered, out[0]);
    assert MixTo(m, filtered, out, 2)
           == MixTo(m, filtered, out, 1) + Route(m, 1, filtered, out[1]);
  }

  class SynthFile {
    var regs: Regs
    const osc: array<Osc>
    var filter: Filter
    var digi: Digi
    const memory: array<Byte>
    const tables: Tables

    ghost predicate Valid()
      reads this, osc, memory
    {
      osc.Length == 3 && memory.Length == 0x1_0000 && Shape(View())
    }

    ghost function View(): Machine
      reads this, osc, memory
    {
      Machine(regs, osc[..], filter, digi, memory[..], tables)
    }

    /** synth_init */
    constructor (t: Tables)
      requires t.mixing > 0 && |t.attacks| == 16 && |t.releases| == 16
      ensures Valid() && fresh(osc) && fresh(memory)
      ensures View() == Silent().(tables := t)
    {
      var v := Voice(0, 0, 0, 0, 0);
      regs := Regs([v, v, v], 0, 0, 0, 0);
      osc := new Osc[3](_ => Osc(Tone(0, 0, 0, false, 0, 0, 0, 0), 0, 0, 0, 0, 0xff_ffff, 0));
      filter := Filter(Mixer(0, false, false, false, false, 0, 0), 0, 0, 0);
      digi := Digi(false, 0, 0, 0, 0, 0, 0, 0, 0, 0, 0, Pending(0, 0, 0, 0, 0, 0, 0));
      memory := new Byte[0x1_0000](_ => 0);
      tables := t;
      new;
      assert memory[..] == seq(0x1_0000, _ => 0);
    }

    /** setmem */
    method SetMemory(addr: U16, val: Byte)
      requires Valid()
      modifies this, osc, memory
      ensures Valid() && View() == SetMem(old(View()), addr, val)
    {
      SetMemInRange(View(), addr, val);
      if IsSid(addr) {
        SidPoke(addr % 32, val);
        if addr > 0xd418 {
          PokeChannel(addr, val);
        }
      } else {
        memory[addr] := val;
      }
    }

    /** The switch of setmem over the registers of the sample channel. */
    method PokeChannel(addr: U16, val: Byte)
      modifies this`digi
      ensures digi == DigiPoke(old(digi), addr, val)
    {
      var p := digi.pending;
      if addr == 0xd41f {
        p := p.(start := p.start % 256 + 256 * val);
      } else if addr == 0xd41e {
        p := p.(start := p.start / 256 * 256 + val);
      } else if addr == 0xd47f {
        p := p.(repeatStart := p.repeatStart % 256 + 256 * val);
      } else if addr == 0xd47e {
        p := p.(repeatStart := p.repeatStart / 256 * 256 + val);
      } else if addr == 0xd43e {
        p := p.(end := p.end % 256 + 256 * val);
      } else if addr == 0xd43d {
        p := p.(end := p.end / 256 * 256 + val);
      } else if addr == 0xd43f {
        p := p.(repeatTimes := val);
      } else if addr == 0xd45e {
        p := p.(period := p.period % 256 + 256 * val);
      } else if addr == 0xd45d {
        p := p.(period := p.period / 256 * 256 + val);
      } else if addr == 0xd47d {
        p := p.(order := val);
      } else if addr == 0xd45f {
        p := p.(add := val);
      } else if addr == 0xd41d {
        StartChannel(val);
      }
      digi := digi.(pending := p);
    }

    /** The case of the trigger register. */
    method StartChannel(val: Byte)
      modifies this`digi
      ensures digi == Started(old(digi), val)
    {
      var p := digi.pending;
      digi := digi.(repeats := p.repeatTimes, position := p.start, start := p.start, end := p.end,
                    repeatStart := p.repeatStart, period := p.period, order := p.order);
      if val == 0xfd {
        digi := digi.(active := false);
      } else if val == 0xfe || val == 0xff {
        digi := digi.(active := true);
      }
    }

    /** sidPoke: the register that is named gets the value, and every other one keeps its own. */
    method SidPoke(reg: nat, val: Byte)
      requires Valid()
      modifies this`regs, osc
      ensures Valid() && View() == Poke(old(View()), reg, val)
      ensures forall other :: 0 <= other < 25 ==>
                Register(regs, other) == if other == reg then val else Register(old(regs), other)
    {
      PokeIs(View(), reg, val);
      var voice, r := 0, reg;
      if 7 <= reg <= 13 {
        voice, r := 1, reg - 7;
      } else if 14 <= reg <= 20 {
        voice, r := 2, reg - 14;
      }
      if r < 7 {
        PokeVoice(voice, r, val);
      } else if r == 21 {
        regs := regs.(ffreqlo := val);
      } else if r == 22 {
        regs := regs.(ffreqhi := val);
      } else if r == 23 {
        regs := regs.(resFtv := val);
      } else if r == 24 {
        regs := regs.(ftpVol := val);
      }
    }

    /** The cases of sidPoke for the registers of a voice. */
    method PokeVoice(voice: nat, r: nat, val: Byte)
      requires Valid() && voice < 3 && r < 7
      modifies this`regs, osc
      ensures Valid() && View() == Poke(old(View()), 7 * voice + r, val)
    {
      var v := regs.v[voice];
      if r == 0 {
        v := v.(freq := v.freq / 256 * 256 + val);
      } else if r == 1 {
        v := v.(freq := v.freq % 256 + 256 * val);
      } else if r == 2 {
        v := v.(pulse := v.pulse / 256 * 256 + val);
      } else if r == 3 {
        v := v.(pulse := v.pulse % 256 + 256 * val);
      } else if r == 4 {
        v := v.(wave := val);
        if val % 2 == 0 {
          osc[voice] := osc[voice].(envphase := 3);
        } else if osc[voice].envphase == 3 {
          osc[voice] := osc[voice].(envphase := 0);
        }
      } else if r == 5 {
        v := v.(ad := val);
      } else {
        v := v.(sr := val);
      }
      regs := regs.(v := regs.v[voice := v]);
    }

    /** Step 1 of synth_render. */
    method Prepare()
      requires Valid()
      modifies osc, this`filter
      ensures Valid() && View() == SetUp(old(View()))
    {
      ghost var m := View();
      var v := 0;
      while v < 3
        invariant v <= 3 && Valid()
        invariant forall i :: 0 <= i < 3 ==>
                    osc[i] == if i < v then m.osc[i].(tone := ToneOf(m, i)) else m.osc[i]
        invariant View().(osc := m.osc) == m
      {
        var r := regs.v[v];
        var tone := Tone(r.freq * tables.freqmul, r.pulse % 0x1000 * 0x1_0000, r.wave,
                         Bit(regs.resFtv, if v == 0 then 1 else 2 * v),
                         tables.attacks[r.ad / 16], tables.releases[r.ad % 16],
                         r.sr - r.sr % 16, tables.releases[r.sr % 16]);
        osc[v] := osc[v].(tone := tone);
        v := v + 1;
      }
      var freq := (16 * regs.ffreqhi + regs.ffreqlo % 8) * tables.filtmul;
      filter := filter.(mixer := Mixer(if freq > 0x1_0000 then 0x1_0000 else freq,
                                       Bit(regs.ftpVol, 0x10), Bit(regs.ftpVol, 0x20),
                                       Bit(regs.ftpVol, 0x40), !Bit(regs.ftpVol, 0x80),
                                       regs.ftpVol % 16,
                                       (78643 - 2621 * (regs.resFtv / 16)) / 256));
      assert osc[..] == SetUp(m).osc;
    }

    /** Step 2 of synth_render for one sample. */
    method Oscillate() returns (outf: int, outo: int)
      requires Valid()
      modifies osc
      ensures Valid()
      ensures var (after, out) := OscSteps(old(osc[..]));
              && View() == old(View()).(osc := after)
              && outf == Mix(View(), true, out) && outo == Mix(View(), false, out)
    {
      ghost var m := View();
      ghost var (after, out) := OscSteps(m.osc);
      ghost var m1 := m.(osc := after);
      outf, outo := 0, 0;
      var v := 0;
      while v < 3
        invariant v <= 3
        invariant forall i :: 0 <= i < 3 ==> osc[i] == if i < v then after[i] else m.osc[i]
        invariant outf == MixTo(m1, true, out, v) && outo == MixTo(m1, false, out, v)
      {
        var refosc := if v > 0 then v - 1 else 2;
        var (o, w) := OscStep(osc[v], osc[refosc]);
        osc[v] := o;
        if v < 2 || filter.mixer.v3 {
          if o.tone.filter {
            outf := outf + VoiceOut(w, o.envval);
          } else {
            outo := outo + VoiceOut(w, o.envval);
          }
        }
        v := v + 1;
      }
      assert osc[..] == after;
      MixIsAll(m1, true, out);
      MixIsAll(m1, false, out);
    }

    /** One round of the loop of synth_render. */
    method RenderOne() returns (x: int)
      requires Valid() && DigiOk(digi)
      modifies osc, this`filter, this`digi
      ensures Valid() && DigiOk(digi) && (View(), x) == Sample(old(View()))
    {
      ComputeRuns(View());
      var outf, outo := Oscillate();
      filter := FilterStep(filter, outf);
      var (d, added) := DigiStep(digi, memory[..], tables.mixing);
      digi := d;
      x := Int16(filter.mixer.vol * (outo + Filtered(filter)) + added);
    }

    /** synth_render into a part of a buffer. */
    method SynthRender(buffer: array<int>, from: nat, len: nat)
      requires Valid() && DigiOk(digi) && from + len <= buffer.Length
      modifies osc, this`filter, this`digi, buffer
      ensures Valid() && DigiOk(digi)
      ensures View() == Render(old(View()), len).0
      ensures buffer[..] == Overlaid(old(buffer[..]), from, Render(old(View()), len).1)
    {
      SetUpRuns(View());
      Prepare();
      RenderLoop(buffer, from, len);
    }

    /** One sample, put into the buffer. */
    method RenderTo(buffer: array<int>, at: nat)
      requires Valid() && DigiOk(digi) && at < buffer.Length
      modifies osc, this`filter, this`digi, buffer
      ensures Valid() && DigiOk(digi)
      ensures (View(), buffer[at]) == Sample(old(View()))
      ensures buffer[..] == old(buffer[..])[at := buffer[at]]
    {
      var x := RenderOne();
      buffer[at] := x;
    }

    /** The loop of synth_render. */
    method RenderLoop(buffer: array<int>, from: nat, len: nat)
      requires Valid() && DigiOk(digi) && from + len <= buffer.Length
      modifies osc, this`filter, this`digi, buffer
      ensures Valid() && DigiOk(digi)
      ensures (View(), buffer[..])
              == (Samples(old(View()), len).0,
                  Overlaid(old(buffer[..]), from, Samples(old(View()), len).1))
    {
      ghost var s: Live := View();
      ghost var was, xs := buffer[..], [];
      var bp := 0;
      SamplesNone(s);
      assert Overlaid(was, from, xs) == was;
      while bp < len
        invariant |xs| == bp <= len && Valid() && DigiOk(digi)
        invariant Samples(s, bp) == (View(), xs) && buffer[..] == Overlaid(was, from, xs)
      {
        ghost var x := SamplesNext(s, bp, View(), xs);
        OneMoreSample(was, from, xs, x);
        RenderTo(buffer, from + bp);
        bp, xs := bp + 1, xs + [x];
      }
    }
  }

  /** A buffer with the samples put into it from `from` on. */
  function Overlaid(buffer: seq<int>, from: nat, xs: seq<int>): (r: seq<int>)
    requires from + |xs| <= |buffer|
    ensures |r| == |buffer| && r[..from] == buffer[..from]
    ensures r[from..from + |xs|] == xs && r[from + |xs|..] == buffer[from + |xs|..]
  {
    buffer[..from] + xs + buffer[from + |xs|..]
  }

  lemma OneMoreSample(buffer: seq<int>, from: nat, xs: seq<int>, x: int)
    requires from + |xs| < |buffer|
    ensures Overlaid(buffer, from, xs)[from + |xs| := x] == Overlaid(buffer, from, xs + [x])
  {
  }

  lemma SamplesNone(m: Live)
    ensures Samples(m, 0) == (m, [])
  {
  }

  lemma SamplesNext(m: Live, n: nat, t: Live, xs: seq<int>) returns (x: int)
    requires Samples(m, n) == (t, xs)
    ensures x == Sample(t).1 && Samples(m, n + 1) == (Sample(t).0, xs + [x])
  {
    RepeatLast(Sample, m, n);
    x := Sample(t).1;
  }

  // ---- The chunk loop --------------------------------------------------------------------

  /** The body of the loop that fills a chunk.  The model stops where the number of samples is
      negative. */
  method FillRound<M>(e: Engine<M>, p: Player<M>, rendered: nat, size: nat)
    returns (q: Player<M>, n: nat, ghost es: seq<Event>)
    requires rendered < size
    requires p.left >= 0
    ensures (q, es, n) == Round(e, p, size - rendered)
  {
    var m, toRender := p.m, p.left;
    if toRender == 0 {
      m := e.play(m);
      toRender := e.period(m);
    }
    if toRender < 0 {
      q, n, es := Player(Rendered(e, m, 0).0, toRender), 0, Round(e, p, size - rendered).1;
      return;
    }
    n := if rendered + toRender > size then size - rendered else toRender;
    var (m1, xs) := Rendered(e, m, n);
    q := Player(m1, toRender - n);
    es := Round(e, p, size - rendered).1;
  }

  /** The loop that fills one chunk, or is lost, within `rounds` rounds. */
  method FillChunk<M(!new)>(e: Engine<M>, p: Player<M>, size: nat, ghost rounds: nat)
    returns (q: Player<M>, ghost es: seq<Event>)
    requires Chunk(e, p, size, rounds).Some?
    ensures Chunk(e, p, size, rounds) == Some((q, es))
  {
    q := p;
    var rendered: nat := 0;
    ghost var left := rounds;
    ghost var (r, all) := Chunk(e, p, size, rounds).value;
    ghost var more := all;
    es := [];
    assert es + more == all;
    while rendered < size && q.left >= 0
      invariant rendered <= size && es + more == all
      invariant Chunk(e, q, size - rendered, left) == Some((r, more))
      decreases left
    {
      ghost var rest := ChunkGoesOn(e, q, size - rendered, left, r, more);
      var n: nat;
      ghost var fs;
      q, n, fs := FillRound(e, q, rendered, size);
      Joined(es, fs, rest);
      rendered, left := rendered + n, left - 1;
      es, more := es + fs, rest;
    }
    assert es + [] == es;
  }

  lemma Joined(es: seq<Event>, fs: seq<Event>, more: seq<Event>)
    ensures es + (fs + more) == es + fs + more
  {
  }

  // ---- The processor's loop --------------------------------------------------------------

  /** cpuJSR for a routine that ends, after k instructions. */
  method CpuJsr(chip: Chip, m: Board, npc: U16, na: Byte, ghost k: nat) returns (c: Cpu)
    requires Halts(chip, m, npc, na, k)
    ensures c == Run(chip, Entered(m, npc, na), k)
  {
    c := Entered(m, npc, na);
    ghost var n := 0;
    while c.pc > 1
      invariant n <= k && c == Run(chip, Entered(m, npc, na), n)
      decreases k - n
    {
      c := chip.step(c);
      n := n + 1;
    }
  }

  /** The return that finds the two zeros ends the routine. */
  lemma LastReturnEnds(decode: Decode, c: Cpu)
    requires IsReturn(OpAt(decode, c)) && c.s == 253
    requires Mem(c.m, 0x1fe) == 0 && Mem(c.m, 0x1ff) == 0
    ensures Step(decode, c).pc == 1
  {
    StepReturns(decode, c, Frame(1, 253));
  }
}
