/** Runs of the processor of ext/audio/sid.c: additions of many bytes, and nested calls. */
module SidRuns {
  import opened SidMachine
  import opened SidCpu

  /** A processor as its runs see it: what an instruction does, which one is next, and what that one
      adds to the accumulator if it is an addition. */
  datatype Chip = Chip(step: Cpu -> Cpu, op: Cpu -> Op, addend: Cpu -> Byte)

  function Parse(decode: Decode): Chip {
    Chip((c: Cpu) => Step(decode, c), (c: Cpu) => OpAt(decode, c), (c: Cpu) => Addend(decode, c))
  }

  /** The processor after k instructions. */
  function Run(chip: Chip, c: Cpu, k: nat): Cpu
    decreases k
  {
    if k == 0 then c else chip.step(Run(chip, c, k - 1))
  }

  // ---- Additions -------------------------------------------------------------------------

  predicate Adds(op: Op) { op.ADC? || op.SBC? }

  ghost predicate AddsUp(chip: Chip) {
    && (forall c: Cpu :: Adds(chip.op(c)) ==>
          (chip.step(c).a, chip.step(c).p.c) == Add(c.a, chip.addend(c), c.p.c))
    && (forall c: Cpu :: KeepsCarry(chip.op(c)) ==> chip.step(c).p.c == c.p.c)
  }

  /** The bytes in the accumulator before each addition of a run, those added, and the sums. */
  datatype Sums = Sums(xs: seq<Byte>, ys: seq<Byte>, rs: seq<Byte>)

  function SumsOf(chip: Chip, c: Cpu, k: nat): (r: Sums)
    ensures |r.xs| == |r.ys| == |r.rs|
    decreases k
  {
    if k == 0 then Sums([], [], [])
    else
      var t := SumsOf(chip, c, k - 1);
      var d := Run(chip, c, k - 1);
      if Adds(chip.op(d)) then
        Sums(t.xs + [d.a], t.ys + [chip.addend(d)], t.rs + [chip.step(d).a])
      else t
  }

  /** No step of the run changes the carry but its additions and subtractions. */
  predicate CarryChain(chip: Chip, c: Cpu, k: nat) {
    forall i :: 0 <= i < k ==>
      Adds(chip.op(Run(chip, c, i))) || KeepsCarry(chip.op(Run(chip, c, i)))
  }

  lemma SumsAppend(t: Sums, carry: bool, in0: bool, x: Byte, y: Byte)
    requires |t.xs| == |t.ys| == |t.rs|
    requires Value(t.xs) + Value(t.ys) + One(in0) == Value(t.rs) + Carried(|t.xs|, carry)
    ensures var (r, out) := Add(x, y, carry);
            Value(t.xs + [x]) + Value(t.ys + [y]) + One(in0)
            == Value(t.rs + [r]) + Carried(|t.xs| + 1, out)
  {
    ValueAppend(t.xs, x);
    ValueAppend(t.ys, y);
    ValueAppend(t.rs, Add(x, y, carry).0);
    ScaledAdd(Pow256(|t.xs|), x, y, carry);
  }

  lemma {:induction false} ChainAddsUp(chip: Chip, c: Cpu, k: nat)
    requires AddsUp(chip) && CarryChain(chip, c, k)
    ensures var t := SumsOf(chip, c, k);
            Value(t.xs) + Value(t.ys) + One(c.p.c)
            == Value(t.rs) + Carried(|t.xs|, Run(chip, c, k).p.c)
    decreases k
  {
    if k > 0 {
      ChainAddsUp(chip, c, k - 1);
      var d := Run(chip, c, k - 1);
      if Adds(chip.op(d)) {
        SumsAppend(SumsOf(chip, c, k - 1), d.p.c, c.p.c, d.a, chip.addend(d));
      }
    }
  }

  lemma ParseAddsUp(decode: Decode)
    ensures AddsUp(Parse(decode))
  {
    forall c: Cpu | Adds(OpAt(decode, c))
      ensures (Step(decode, c).a, Step(decode, c).p.c) == Add(c.a, Addend(decode, c), c.p.c)
    {
      StepAdds(decode, c);
    }
    forall c: Cpu | KeepsCarry(OpAt(decode, c))
      ensures Step(decode, c).p.c == c.p.c
    {
      StepKeepsCarry(decode, c);
    }
  }

  /** Over any run whose other instructions leave the carry alone, the additions together add the
      numbers made of the bytes in the accumulator and of the operands, which a subtraction
      complements: modulo 256^n, with the carry of the last one as the carry out. */
  lemma ChainAdds(decode: Decode, c: Cpu, k: nat)
    requires CarryChain(Parse(decode), c, k)
    ensures var t := SumsOf(Parse(decode), c, k);
            && Value(t.xs) + Value(t.ys) + One(c.p.c)
               == Value(t.rs) + Carried(|t.xs|, Run(Parse(decode), c, k).p.c)
            && Value(t.rs) < Pow256(|t.xs|)
  {
    ParseAddsUp(decode);
    ChainAddsUp(Parse(decode), c, k);
    ValueBelow(SumsOf(Parse(decode), c, k).rs);
  }

  // ---- Calls -----------------------------------------------------------------------------

  ghost predicate Calls(chip: Chip) {
    && (forall c: Cpu :: chip.op(c).JSR? && c.s >= 2 ==> Called(c, chip.step(c)))
    && (forall c: Cpu, f: Frame :: IsReturn(chip.op(c)) && OnStack(c.m, f) && c.s == f.sp ==>
          Returned(c, f, chip.step(c)))
  }

  ghost predicate Called(c: Cpu, d: Cpu)
    requires c.s >= 2
  {
    && d.s == c.s - 2 && OnStack(d.m, Frame(Wrap(c.pc as int + 3), c.s - 2))
    && forall f :: OnStack(c.m, f) && c.s <= f.sp ==> OnStack(d.m, f)
  }

  predicate Returned(c: Cpu, f: Frame, d: Cpu) {
    d.pc == f.ret && d.s as int == f.sp as int + 2 && d.m == c.m
  }

  lemma ParseCalls(decode: Decode)
    ensures Calls(Parse(decode))
  {
    forall c: Cpu | OpAt(decode, c).JSR? && c.s >= 2
      ensures Called(c, Step(decode, c))
    {
      StepCalls(decode, c);
    }
    forall c: Cpu, f: Frame | IsReturn(OpAt(decode, c)) && OnStack(c.m, f) && c.s == f.sp
      ensures Returned(c, f, Step(decode, c))
    {
      StepReturns(decode, c, f);
    }
  }

  /** The return addresses of the open calls are on the stack, each below the one before, and the
      stack pointer is not above the last. */
  predicate Stacked(c: Cpu, frames: seq<Frame>) {
    && (forall i :: 0 <= i < |frames| ==> OnStack(c.m, frames[i]) && c.s <= frames[i].sp)
    && (forall i, j :: 0 <= i < j < |frames| ==> frames[j].sp as int + 2 <= frames[i].sp)
  }

  /** The step fits the calls that are open: a call has room on the stack, a return comes with the
      stack pointer of the innermost call, and everything else leaves the return addresses alone
      and takes no more off the stack than it has put on it. */
  predicate Nests(chip: Chip, c: Cpu, frames: seq<Frame>) {
    var op := chip.op(c);
    if op.JSR? then c.s >= 2
    else if IsReturn(op) then frames != [] && c.s == frames[|frames| - 1].sp
    else
      forall i :: 0 <= i < |frames| ==>
        chip.step(c).s <= frames[i].sp
        && Word(chip.step(c).m, 0x101 + frames[i].sp) == Word(c.m, 0x101 + frames[i].sp)
  }

  function NextFrames(chip: Chip, c: Cpu, frames: seq<Frame>): seq<Frame>
    requires Nests(chip, c, frames)
  {
    var op := chip.op(c);
    if op.JSR? then frames + [Frame(Wrap(c.pc as int + 3), c.s - 2)]
    else if IsReturn(op) then frames[..|frames| - 1] else frames
  }

  lemma CallKeepsStacked(chip: Chip, c: Cpu, frames: seq<Frame>)
    requires Calls(chip) && Stacked(c, frames) && chip.op(c).JSR? && c.s >= 2
    ensures Stacked(chip.step(c), frames + [Frame(Wrap(c.pc as int + 3), c.s - 2)])
  {
    assert Called(c, chip.step(c));
  }

  lemma ReturnKeepsStacked(chip: Chip, c: Cpu, frames: seq<Frame>)
    requires Calls(chip) && Stacked(c, frames) && IsReturn(chip.op(c)) && frames != []
    requires c.s == frames[|frames| - 1].sp
    ensures Stacked(chip.step(c), frames[..|frames| - 1])
    ensures Returned(c, frames[|frames| - 1], chip.step(c))
  {
    assert OnStack(c.m, frames[|frames| - 1]);
  }

  lemma StepKeepsStacked(chip: Chip, c: Cpu, frames: seq<Frame>)
    requires Calls(chip) && Stacked(c, frames) && Nests(chip, c, frames)
    ensures Stacked(chip.step(c), NextFrames(chip, c, frames))
    ensures IsReturn(chip.op(c)) ==> Returned(c, frames[|frames| - 1], chip.step(c))
  {
    if chip.op(c).JSR? {
      CallKeepsStacked(chip, c, frames);
    } else if IsReturn(chip.op(c)) {
      ReturnKeepsStacked(chip, c, frames);
    } else {
      OtherKeepsStacked(chip, c, frames);
    }
  }

  lemma OtherKeepsStacked(chip: Chip, c: Cpu, frames: seq<Frame>)
    requires Stacked(c, frames) && Nests(chip, c, frames)
    requires !chip.op(c).JSR? && !IsReturn(chip.op(c))
    ensures Stacked(chip.step(c), frames)
  {
  }

  /** A run of the processor, and the calls that are open before each of its instructions. */
  datatype Trace = Trace(cs: seq<Cpu>, fs: seq<seq<Frame>>)

  predicate StepAt(chip: Chip, t: Trace, i: nat)
    requires i + 1 < |t.cs| == |t.fs|
  {
    && Nests(chip, t.cs[i], t.fs[i]) && t.cs[i + 1] == chip.step(t.cs[i])
    && t.fs[i + 1] == NextFrames(chip, t.cs[i], t.fs[i])
  }

  /** Every step of the run nests; there are no open calls at its start. */
  predicate IsTrace(chip: Chip, t: Trace) {
    && |t.cs| == |t.fs| > 0 && t.fs[0] == []
    && forall i {:trigger StepAt(chip, t, i)} :: 0 <= i < |t.cs| - 1 ==> StepAt(chip, t, i)
  }

  lemma {:induction false} TraceKeepsStacked(chip: Chip, t: Trace, i: nat)
    requires Calls(chip) && IsTrace(chip, t) && i < |t.cs|
    ensures Stacked(t.cs[i], t.fs[i])
    decreases i
  {
    if i > 0 {
      TraceKeepsStacked(chip, t, i - 1);
      assert StepAt(chip, t, i - 1);
      StepKeepsStacked(chip, t.cs[i - 1], t.fs[i - 1]);
    }
  }

  /** Some call is open before each of the instructions from the second to the i-th. */
  predicate OpenUntil(t: Trace, i: nat)
    requires i < |t.fs|
  {
    forall j {:trigger t.fs[j]} :: 1 <= j <= i ==> t.fs[j] != []
  }

  lemma {:induction false} OuterCallStays(chip: Chip, t: Trace, i: nat)
    requires IsTrace(chip, t) && 1 <= i < |t.cs| && OpenUntil(t, i)
    requires chip.op(t.cs[0]).JSR? && t.cs[0].s >= 2
    ensures t.fs[i][0] == Frame(Wrap(t.cs[0].pc as int + 3), t.cs[0].s - 2)
    decreases i
  {
    assert StepAt(chip, t, i - 1);
    if i > 1 { OuterCallStays(chip, t, i - 1); }
  }

  lemma ClosingStep(chip: Chip, c: Cpu, frames: seq<Frame>)
    requires Calls(chip) && Stacked(c, frames) && Nests(chip, c, frames) && frames != []
    requires NextFrames(chip, c, frames) == []
    ensures Returned(c, frames[0], chip.step(c))
  {
    ReturnKeepsStacked(chip, c, frames);
  }

  lemma CallIsClosed(chip: Chip, t: Trace, k: nat)
    requires Calls(chip) && IsTrace(chip, t) && 2 <= k < |t.cs| && OpenUntil(t, k - 1)
    requires chip.op(t.cs[0]).JSR? && t.cs[0].s >= 2 && t.fs[k] == []
    ensures t.cs[k].pc == Wrap(t.cs[0].pc as int + 3) && t.cs[k].s == t.cs[0].s
  {
    OuterCallStays(chip, t, k - 1);
    TraceKeepsStacked(chip, t, k - 1);
    assert StepAt(chip, t, k - 1);
    ClosingStep(chip, t.cs[k - 1], t.fs[k - 1]);
  }

  /** A call made with room on the stack comes back: when, in a run whose calls and returns nest,
      the first call is closed, the program goes on behind it with the stack pointer it had. */
  lemma CallComesBack(decode: Decode, t: Trace, k: nat)
    requires IsTrace(Parse(decode), t) && 2 <= k < |t.cs| && OpenUntil(t, k - 1)
    requires OpAt(decode, t.cs[0]).JSR? && t.cs[0].s >= 2 && t.fs[k] == []
    ensures t.cs[k].pc == Wrap(t.cs[0].pc as int + 3) && t.cs[k].s == t.cs[0].s
  {
    ParseCalls(decode);
    CallIsClosed(Parse(decode), t, k);
  }

  /** Every return of such a run goes behind the innermost call that is open. */
  lemma ReturnsToCaller(decode: Decode, t: Trace, i: nat)
    requires IsTrace(Parse(decode), t) && i < |t.cs| - 1 && IsReturn(OpAt(decode, t.cs[i]))
    ensures t.fs[i] != []
    ensures t.cs[i + 1].pc == t.fs[i][|t.fs[i]| - 1].ret
    ensures t.cs[i + 1].s as int == t.cs[i].s as int + 2
  {
    ParseCalls(decode);
    TraceKeepsStacked(Parse(decode), t, i);
    assert StepAt(Parse(decode), t, i);
    ReturnKeepsStacked(Parse(decode), t.cs[i], t.fs[i]);
  }

  // ---- Ranges ----------------------------------------------------------------------------

  lemma {:induction false} RunInRange(decode: Decode, c: Cpu, k: nat)
    requires InRange(c.m)
    ensures InRange(Run(Parse(decode), c, k).m)
    decreases k
  {
    if k > 0 {
      RunInRange(decode, c, k - 1);
      StepInRange(decode, Run(Parse(decode), c, k - 1));
    }
  }

  // ---- Writes, instructions and renderings -----------------------------------------------

  /** What can happen to the synthesizer: a write, samples to render, instructions. */
  datatype Act = Writing(addr: U16, val: Byte) | Rendering(n: nat) | Running(k: nat)

  /** Samples are rendered while a sample channel that is playing has a period. */
  predicate CanAct(c: Cpu, act: Act) { act.Rendering? ==> Runs(c.m) }

  function Acted(decode: Decode, c: Cpu, act: Act): Cpu
    requires CanAct(c, act)
  {
    match act
    case Writing(addr, val) => c.(m := Write(c.m, addr, val))
    case Rendering(n) => c.(m := Render(c.m, n).0)
    case Running(k) => Run(Parse(decode), c, k)
  }

  predicate Playable(decode: Decode, c: Cpu, acts: seq<Act>)
    decreases |acts|
  {
    acts == []
    || (CanAct(c, acts[0]) && Playable(decode, Acted(decode, c, acts[0]), acts[1..]))
  }

  function Played(decode: Decode, c: Cpu, acts: seq<Act>): Cpu
    requires Playable(decode, c, acts)
    decreases |acts|
  {
    if acts == [] then c else Played(decode, Acted(decode, c, acts[0]), acts[1..])
  }

  lemma ActInRange(decode: Decode, c: Cpu, act: Act)
    requires InRange(c.m) && CanAct(c, act)
    ensures InRange(Acted(decode, c, act).m)
  {
    match act
    case Writing(addr, val) => WriteInRange(c.m, addr, val);
    case Rendering(n) => RenderInRange(c.m, n);
    case Running(k) => RunInRange(decode, c, k);
  }

  /** Over any run of register writes, instructions and renderings every envelope stays in
      [0, 0xffffff] and every counter below 2^28. */
  lemma {:induction false} PlayedInRange(decode: Decode, c: Cpu, acts: seq<Act>)
    requires InRange(c.m) && Playable(decode, c, acts)
    ensures InRange(Played(decode, c, acts).m)
    decreases |acts|
  {
    if acts != [] {
      ActInRange(decode, c, acts[0]);
      PlayedInRange(decode, Acted(decode, c, acts[0]), acts[1..]);
    }
  }

  /** Whatever has been written, executed and rendered before: while the volume register leaves the
      outputs of the filter off, each sample that is put out is the one that was computed, the
      sample channel included, and fits 16 bits. */
  lemma PlayedFits(decode: Decode, c: Cpu, acts: seq<Act>, n: nat, k: nat)
    requires InRange(c.m) && Playable(decode, c, acts) && k < n
    requires var m := Played(decode, c, acts).m;
             Runs(m) && m.regs.ftpVol / 16 % 8 == 0
    ensures var m: Live := Played(decode, c, acts).m;
            var x := Compute(Render(m, k).0).1;
            -0x8000 <= x <= 0x7fff && Render(m, n).1[k] == x
  {
    PlayedInRange(decode, c, acts);
    var m: Live := Played(decode, c, acts).m;
    RenderFits(m, k);
    RenderedAt(m, n, k);
  }

  lemma RenderedAt(m: Live, n: nat, k: nat)
    requires k < n
    ensures Render(m, n).1[k] == Sample(Render(m, k).0).1
  {
    SetUpRuns(m);
    var s: Live := SetUp(m);
    SamplesSplit(s, k, n - k);
  }
}
