/** A loop of play routines on the processor of ext/audio/sid.c. */
module SidLoops {
  import opened SidMachine
  import opened SidCpu
  import opened SidOps
  import opened SidRuns

  /** DEX, and a BNE back to it. */
  predicate CountsDown(decode: Decode, c: Cpu) {
    && decode(ByteAt(c, 0)).0 == DEX && decode(ByteAt(c, 1)).0 == BNE && ByteAt(c, 2) == 0xfd
  }

  /** How often the loop is run through: for zero it is 256 times. */
  function Turns(x: Byte): nat { if x == 0 then 256 else x }

  function Less(x: Byte): Byte { if x == 0 then 255 else x - 1 }

  /** After the DEX. */
  function Counted(c: Cpu): Cpu {
    var x := Less(c.x);
    c.(x := x, p := c.p.(z := x == 0, n := x >= 128), pc := Behind(c, 1))
  }

  lemma DexIs(decode: Decode, c: Cpu)
    requires CountsDown(decode, c)
    ensures Step(decode, c) == Counted(c)
  {
    WrapIs(c.pc);
    StepCounts(decode, c);
  }

  lemma BackIs(decode: Decode, c: Cpu, d: Cpu)
    requires CountsDown(decode, c) && d == c.(x := d.x, p := d.p, pc := Behind(c, 1))
    ensures Step(decode, d) == d.(pc := if d.p.z then Behind(c, 3) else c.pc)
  {
    NextBytes(c);
    WrapIs(d.pc);
    StatusBit(d.p, 1);
    StepBranches(decode, d);
    BackTo(c.pc);
  }

  lemma BackTo(pc: U16)
    ensures (Around(pc + 1) + 2 - 3) % 0x1_0000 == pc
    ensures (Around(pc + 1) + 2) % 0x1_0000 == Around(pc + 3)
  {
  }

  function OneTurn(c: Cpu): Cpu {
    var x := Less(c.x);
    c.(x := x, p := c.p.(z := x == 0, n := x >= 128), pc := if x == 0 then Behind(c, 3) else c.pc)
  }

  /** Once through the loop. */
  lemma LoopTurn(decode: Decode, c: Cpu)
    requires CountsDown(decode, c)
    ensures Step(decode, Step(decode, c)) == OneTurn(c)
  {
    DexIs(decode, c);
    BackIs(decode, c, Counted(c));
  }

  ghost predicate TurnsLoop(chip: Chip, decode: Decode) {
    forall c: Cpu :: CountsDown(decode, c) ==> chip.step(chip.step(c)) == OneTurn(c)
  }

  lemma ParseTurns(decode: Decode)
    ensures TurnsLoop(Parse(decode), decode)
  {
    forall c: Cpu | CountsDown(decode, c)
      ensures Step(decode, Step(decode, c)) == OneTurn(c)
    {
      LoopTurn(decode, c);
    }
  }

  /** The processor after k turns. */
  function Turned(c: Cpu, k: nat): Cpu
    requires 1 <= k <= Turns(c.x)
  {
    var x: Byte := Turns(c.x) - k;
    c.(x := x, p := c.p.(z := x == 0, n := x >= 128), pc := if x == 0 then Behind(c, 3) else c.pc)
  }

  lemma NextTurn(c: Cpu, k: nat)
    requires 1 <= k < Turns(c.x)
    ensures OneTurn(Turned(c, k)) == Turned(c, k + 1)
  {
  }

  lemma StillThere(decode: Decode, c: Cpu, k: nat)
    requires CountsDown(decode, c) && 1 <= k < Turns(c.x)
    ensures CountsDown(decode, Turned(c, k))
  {
  }

  lemma FirstTurn(chip: Chip, decode: Decode, c: Cpu)
    requires TurnsLoop(chip, decode) && CountsDown(decode, c)
    ensures chip.step(chip.step(c)) == Turned(c, 1)
  {
  }

  lemma TurnAgain(chip: Chip, decode: Decode, c: Cpu, k: nat)
    requires TurnsLoop(chip, decode) && CountsDown(decode, c) && 1 <= k < Turns(c.x)
    ensures chip.step(chip.step(Turned(c, k))) == Turned(c, k + 1)
  {
    StillThere(decode, c, k);
    NextTurn(c, k);
  }

  /** Every turn leads from one of these states to the next. */
  ghost predicate Turning(chip: Chip, c: Cpu) {
    && chip.step(chip.step(c)) == Turned(c, 1)
    && forall k :: 1 <= k < Turns(c.x) ==> chip.step(chip.step(Turned(c, k))) == Turned(c, k + 1)
  }

  lemma AllTurns(chip: Chip, decode: Decode, c: Cpu)
    requires TurnsLoop(chip, decode) && CountsDown(decode, c)
    ensures Turning(chip, c)
  {
    FirstTurn(chip, decode, c);
    forall k | 1 <= k < Turns(c.x)
      ensures chip.step(chip.step(Turned(c, k))) == Turned(c, k + 1)
    {
      TurnAgain(chip, decode, c, k);
    }
  }

  lemma {:induction false} TurnsAre(chip: Chip, c: Cpu, k: nat)
    requires Turning(chip, c) && 1 <= k <= Turns(c.x)
    ensures Run(chip, c, 2 * k) == Turned(c, k)
    decreases k
  {
    TwoMore(chip, c, k - 1);
    if k == 1 {
      RunNone(chip, c, 2 * (k - 1));
    } else {
      TurnsAre(chip, c, k - 1);
    }
  }

  lemma TwoMore(chip: Chip, c: Cpu, k: nat)
    ensures Run(chip, c, 2 * k + 2) == chip.step(chip.step(Run(chip, c, 2 * k)))
  {
    assert Run(chip, c, 2 * k + 1) == chip.step(Run(chip, c, 2 * k));
  }

  lemma RunNone(chip: Chip, c: Cpu, k: nat)
    requires k == 0
    ensures Run(chip, c, k) == c
  {
  }

  /** The law of the loop: it is run through as often as the register says, and for zero 256 times;
      before the last turn it goes back, and then on behind it with the register at zero; nothing
      else changes but the flags that show the register. */
  lemma LoopCounts(decode: Decode, c: Cpu, k: nat)
    requires CountsDown(decode, c) && 1 <= k <= Turns(c.x)
    ensures var d := Run(Parse(decode), c, 2 * k);
            && d == c.(x := d.x, p := c.p.(z := d.x == 0, n := d.x >= 128), pc := d.pc)
            && d.x as int == Turns(c.x) - k
            && d.pc == if k == Turns(c.x) then Behind(c, 3) else c.pc
  {
    ParseTurns(decode);
    AllTurns(Parse(decode), decode, c);
    TurnsAre(Parse(decode), c, k);
  }
}
