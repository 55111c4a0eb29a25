/** What the instructions of the processor of ext/audio/sid.c do, told from the bytes of the
    program, the cells of memory and the bits of the status byte. */
module SidOps {
  import opened SidMachine
  import opened SidCpu
  import opened SidSound

  // ---- Operands --------------------------------------------------------------------------

  /** An address one round of memory on at most, and one in the zero page. */
  function Around(x: nat): U16
    requires x < 0x2_0000
  {
    if x < 0x1_0000 then x else x - 0x1_0000
  }

  function InPage(x: nat): (r: nat)
    requires x < 0x200
    ensures r < 256
  {
    if x < 256 then x else x - 256
  }

  /** The address `n` bytes on. */
  function Behind(c: Cpu, n: nat): U16
    requires n <= 3
  {
    Around(c.pc + n)
  }

  /** The i-th byte of the instruction. */
  function ByteAt(c: Cpu, i: nat): Byte
    requires i <= 3
  {
    c.m.memory[Behind(c, i)]
  }

  function Join(lo: Byte, hi: Byte): U16 { lo as int + 256 * hi as int }

  /** A pointer in the zero page, which it does not leave. */
  function Pointer(c: Cpu, z: nat): U16
    requires z < 256
  {
    Join(c.m.memory[z], c.m.memory[InPage(z + 1)])
  }

  /** Where an addressing mode finds its operand in memory. */
  function Target(c: Cpu, mode: Mode): U16
    requires InMemory(mode)
  {
    var (lo, hi) := (ByteAt(c, 1), ByteAt(c, 2));
    match mode
    case Abs => Join(lo, hi)
    case Absx => Around(Join(lo, hi) as int + c.x as int)
    case Absy => Around(Join(lo, hi) as int + c.y as int)
    case Zp => lo
    case Zpx => InPage(lo as int + c.x as int)
    case Zpy => InPage(lo as int + c.y as int)
    case Indx => Pointer(c, InPage(lo as int + c.x as int))
    case Indy => Around(Pointer(c, lo) as int + c.y as int)
  }

  /** The operand that an instruction reads. */
  function Read(c: Cpu, mode: Mode): Byte {
    if mode.Imm? then ByteAt(c, 1) else if mode.Acc? then c.a
    else if InMemory(mode) then c.m.memory[Target(c, mode)] else 0
  }

  /** The bytes of an instruction. */
  function Size(mode: Mode): (n: nat)
    ensures 1 <= n <= 3
  {
    if mode.Abs? || mode.Absx? || mode.Absy? then 3
    else if mode.Imm? || InMemory(mode) then 2 else 1
  }

  lemma WrapIs(x: nat)
    requires x < 0x2_0000
    ensures Wrap(x) == Around(x)
  {
  }

  lemma PageIs(x: nat)
    requires x < 0x200
    ensures x % 256 == InPage(x)
  {
  }

  lemma PointerIs(c: Cpu, a: nat)
    requires a < 0x1ff
    ensures ZeroWord(c.m, a) == Pointer(c, InPage(a))
  {
    PageIs(a);
    PageIs(a + 1);
    ZeroWordIs(c.m, InPage(a), InPage(InPage(a) + 1), a);
  }

  lemma ZeroWordIs(m: Board, z: nat, z': nat, a: nat)
    requires z < 256 && z' < 256 && z == a % 256 && z' == (a + 1) % 256
    ensures ZeroWord(m, a) == Join(m.memory[z], m.memory[z'])
  {
  }

  lemma CellsIs(m: Board, at: U16)
    ensures Word(m, at) == Join(m.memory[at], m.memory[Around(at + 1)])
  {
    WrapIs(at);
    WrapIs(at + 1);
  }

  lemma WordIs(c: Cpu)
    ensures Word(Skip(c, 1).m, Skip(c, 1).pc) == Join(ByteAt(c, 1), ByteAt(c, 2))
  {
    NextBytes(c);
    CellsIs(c.m, Behind(c, 1));
  }

  lemma AbsoluteTarget(d: Cpu, mode: Mode, w: U16)
    requires (mode.Abs? || mode.Absx? || mode.Absy?) && w == Word(d.m, d.pc)
    ensures Addr(d, mode) == if mode.Abs? then w
                             else Around(w as int + if mode.Absx? then d.x as int else d.y as int)
  {
    WrapIs(w as int + d.x as int);
    WrapIs(w as int + d.y as int);
  }

  lemma ZeroTarget(d: Cpu, mode: Mode, lo: Byte)
    requires (mode.Zp? || mode.Zpx? || mode.Zpy?) && lo == Mem(d.m, d.pc)
    ensures Addr(d, mode) == if mode.Zp? then lo
                             else InPage(lo as int + if mode.Zpx? then d.x as int else d.y as int)
  {
    PageIs(lo as int + d.x as int);
    PageIs(lo as int + d.y as int);
  }

  lemma PointerTarget(d: Cpu, mode: Mode, lo: Byte)
    requires (mode.Indx? || mode.Indy?) && lo == Mem(d.m, d.pc)
    ensures Addr(d, mode) == if mode.Indx? then Pointer(d, InPage(lo as int + d.x as int))
                             else Around(Pointer(d, lo) as int + d.y as int)
  {
    PointerIs(d, lo as int + d.x as int);
    PointerIs(d, lo);
    WrapIs(Pointer(d, lo) as int + d.y as int);
  }

  lemma TargetIs(c: Cpu, mode: Mode)
    requires InMemory(mode)
    ensures Addr(Skip(c, 1), mode) == Target(c, mode)
  {
    NextBytes(c);
    if mode.Abs? || mode.Absx? || mode.Absy? {
      WordIs(c);
      AbsoluteTarget(Skip(c, 1), mode, Join(ByteAt(c, 1), ByteAt(c, 2)));
    } else if mode.Indx? || mode.Indy? {
      PointerTarget(Skip(c, 1), mode, ByteAt(c, 1));
    } else {
      ZeroTarget(Skip(c, 1), mode, ByteAt(c, 1));
    }
  }

  lemma NextBytes(c: Cpu)
    ensures var d := Skip(c, 1);
            && d == c.(pc := Behind(c, 1)) && Behind(d, 1) == Behind(c, 2)
            && Behind(d, 2) == Behind(c, 3)
            && Mem(d.m, d.pc) == ByteAt(c, 1) && Mem(d.m, d.pc + 1) == ByteAt(c, 2)
  {
    WrapIs(c.pc + 1);
    WrapIs(Behind(c, 1));
    WrapIs(Behind(c, 1) + 1);
  }

  lemma SizeIs(c: Cpu, mode: Mode)
    ensures Wrap(Behind(c, 1) + Length(mode)) == Behind(c, Size(mode))
  {
    WrapIs(Behind(c, 1) + Length(mode));
  }

  lemma ReadIs(c: Cpu, mode: Mode)
    ensures Operand(Skip(c, 1), mode) == Read(c, mode)
    ensures Skip(Skip(c, 1), Length(mode)) == c.(pc := Behind(c, Size(mode)))
  {
    OperandIs(c, mode);
    WrapIs(c.pc + 1);
    SizeIs(c, mode);
  }

  lemma OperandIs(c: Cpu, mode: Mode)
    ensures Operand(Skip(c, 1), mode) == Read(c, mode)
  {
    if InMemory(mode) {
      TargetIs(c, mode);
      WrapIs(Target(c, mode));
    } else {
      NextBytes(c);
    }
  }

  // ---- Branches --------------------------------------------------------------------------

  predicate Branches(op: Op) {
    op.BPL? || op.BMI? || op.BVC? || op.BVS? || op.BCC? || op.BCS? || op.BNE? || op.BEQ?
  }

  /** The bit of the status byte that a branch looks at. */
  function BranchBit(op: Op): nat {
    if op.BPL? || op.BMI? then 7 else if op.BVC? || op.BVS? then 6
    else if op.BCC? || op.BCS? then 0 else 1
  }

  /** The value of that bit with which it branches. */
  predicate BranchValue(op: Op) { op.BMI? || op.BVS? || op.BCS? || op.BEQ? }

  /** A byte as a signed number. */
  function Offset(b: Byte): int { if b < 128 then b else b - 256 }

  /** The flags in the order of their bits. */
  predicate Flag(p: Flags, i: nat)
    requires i < 8
  {
    match i
    case 0 => p.c case 1 => p.z case 2 => p.i case 3 => p.d case 4 => p.b case 5 => p.u
    case 6 => p.v case _ => p.n
  }

  lemma StatusBit(p: Flags, i: nat)
    requires i < 8
    ensures BitAt(ToByte(p), i) == Flag(p, i)
  {
    var b := seq(8, k requires 0 <= k < 8 => Flag(p, k));
    EightBits(b, ToByte(p), i);
  }

  /** A branch goes to the address behind it plus its signed offset if and only if its bit of the
      status byte has its value, and otherwise behind it; nothing else changes. */
  lemma StepBranches(decode: Decode, c: Cpu)
    requires Branches(OpAt(decode, c))
    ensures var op := OpAt(decode, c);
            var taken := BitAt(ToByte(c.p), BranchBit(op)) == BranchValue(op);
            Step(decode, c)
            == c.(pc := (c.pc + 2 + if taken then Offset(ByteAt(c, 1)) else 0) % 0x1_0000)
  {
    var op := OpAt(decode, c);
    StatusBit(c.p, BranchBit(op));
    ExecBranches(Skip(c, 1), op, ModeAt(decode, c));
    BranchIs(c, Flag(c.p, BranchBit(op)) == BranchValue(op));
  }

  lemma ExecBranches(c: Cpu, op: Op, mode: Mode)
    requires Branches(op)
    ensures Exec(Write, c, op, mode) == Branch(c, Flag(c.p, BranchBit(op)) == BranchValue(op))
  {
  }

  lemma BranchIs(c: Cpu, taken: bool)
    ensures Branch(Skip(c, 1), taken)
            == c.(pc := (c.pc + 2 + if taken then Offset(ByteAt(c, 1)) else 0) % 0x1_0000)
  {
    NextBytes(c);
  }

  // ---- Kinds of instructions -------------------------------------------------------------

  predicate IsLoad(op: Op) { op.LDA? || op.LDX? || op.LDY? }
  predicate Combines(op: Op) { op.AND? || op.ORA? || op.EOR? }
  predicate IsCompare(op: Op) { op.CMP? || op.CPX? || op.CPY? }
  predicate IsStore(op: Op) { op.STA? || op.STX? || op.STY? }
  predicate Counts(op: Op) { op.INX? || op.INY? || op.DEX? || op.DEY? }
  predicate IsMove(op: Op) { op.TAX? || op.TAY? || op.TSX? || op.TXA? || op.TXS? || op.TYA? }
  predicate SetsFlag(op: Op) {
    op.CLC? || op.SEC? || op.CLI? || op.SEI? || op.CLD? || op.SED?
    || op.CLV?
  }
  predicate IsPush(op: Op) { op.PHA? || op.PHP? }
  predicate IsPull(op: Op) { op.PLA? || op.PLP? }
  predicate IsJump(op: Op) { op.JMP? || op.BRK? || op.NOP? || op.XXX? }
  predicate Raises(op: Op) { op.SEC? || op.SEI? || op.SED? }

  // ---- Loads, logic and comparisons ------------------------------------------------------

  /** The zero and the sign flag of a byte. */
  predicate ShowsIn(p: Flags, q: Flags, v: Byte) {
    q == p.(z := v == 0, n := v >= 128)
  }

  /** LDA, LDX and LDY put their operand into a register and show it in zero and sign flag; nothing
      else changes, and the program goes on behind the instruction. */
  lemma StepLoads(decode: Decode, c: Cpu)
    requires IsLoad(OpAt(decode, c))
    ensures var (op, mode, d) := (OpAt(decode, c), ModeAt(decode, c), Step(decode, c));
            var v := Read(c, mode);
            && d == c.(a := if op.LDA? then v else c.a, x := if op.LDX? then v else c.x,
                       y := if op.LDY? then v else c.y, p := d.p, pc := Behind(c, Size(mode)))
            && ShowsIn(c.p, d.p, v)
  {
    ReadIs(c, ModeAt(decode, c));
  }

  lemma OrBit(x: Byte, y: Byte, i: nat)
    requires i < 8
    ensures BitAt(Or(x, y), i) <==> BitAt(x, i) || BitAt(y, i)
    ensures BitAt(Xor(x, y), i) <==> BitAt(x, i) != BitAt(y, i)
  {
    SumBits(x, y, i);
    OrIsByte(x, y);
  }

  lemma OrIsByte(x: Byte, y: Byte)
    ensures And(x, y) <= x
    ensures Or(x, y) as int == x + y - And(x, y) && Xor(x, y) as int == x + y - 2 * And(x, y)
  {
    ByteOr(8, x, y);
    SumBits(x, y, 0);
    LowIs(x + y - And(x, y));
    LowIs(x + y - 2 * And(x, y));
  }

  lemma LowIs(x: int)
    requires 0 <= x < 256
    ensures Low(x) as int == x
  {
  }

  lemma ByteOr(n: nat, x: Byte, y: Byte)
    requires n == 8
    ensures x + y - And(x, y) < 256
  {
    assert Pow2(4) == 16;
    assert Pow2(n) == 256;
    OrBelow(n, x, y);
  }

  /** Or and exclusive or as sums. */
  lemma {:induction false} SumBits(x: nat, y: nat, i: nat)
    ensures And(x, y) <= x && And(x, y) <= y
    ensures BitAt(x + y - And(x, y), i) <==> BitAt(x, i) || BitAt(y, i)
    ensures x + y - 2 * And(x, y) >= 0
    ensures BitAt(x + y - 2 * And(x, y), i) <==> BitAt(x, i) != BitAt(y, i)
    decreases i
  {
    AndHalves(x, y);
    var a := And(x / 2, y / 2);
    assert And(x, y) == 2 * a + if x % 2 == 1 && y % 2 == 1 then 1 else 0;
    assert (x + y - And(x, y)) / 2 == x / 2 + y / 2 - a;
    assert (x + y - 2 * And(x, y)) / 2 == x / 2 + y / 2 - 2 * a;
    if i > 0 { SumBits(x / 2, y / 2, i - 1); }
  }

  lemma {:induction false} OrBelow(n: nat, x: nat, y: nat)
    requires x < Pow2(n) && y < Pow2(n)
    ensures x + y - And(x, y) < Pow2(n)
  {
    if n > 0 {
      AndHalves(x, y);
      OrBelow(n - 1, x / 2, y / 2);
    }
  }

  /** AND, ORA and EOR combine the accumulator with their operand bit by bit. */
  lemma StepCombines(decode: Decode, c: Cpu)
    requires Combines(OpAt(decode, c))
    ensures var (op, mode, d) := (OpAt(decode, c), ModeAt(decode, c), Step(decode, c));
            var v := Read(c, mode);
            && d == c.(a := d.a, p := d.p, pc := Behind(c, Size(mode))) && ShowsIn(c.p, d.p, d.a)
            && forall i :: 0 <= i < 8 ==>
                 BitAt(d.a, i) == if op.AND? then BitAt(c.a, i) && BitAt(v, i)
                                  else if op.ORA? then BitAt(c.a, i) || BitAt(v, i)
                                  else BitAt(c.a, i) != BitAt(v, i)
  {
    ReadIs(c, ModeAt(decode, c));
    var v := Read(c, ModeAt(decode, c));
    forall i | 0 <= i < 8
      ensures BitAt(And(c.a, v), i) == (BitAt(c.a, i) && BitAt(v, i))
      ensures BitAt(Or(c.a, v), i) == (BitAt(c.a, i) || BitAt(v, i))
      ensures BitAt(Xor(c.a, v), i) == (BitAt(c.a, i) != BitAt(v, i))
    {
      AndBit(c.a, v, i);
      OrBit(c.a, v, i);
    }
  }

  /** BIT shows bits 7 and 6 of its operand in sign and overflow flag, and in the zero flag whether
      the accumulator has no bit in common with it. */
  lemma StepTests(decode: Decode, c: Cpu)
    requires OpAt(decode, c).BIT?
    ensures var (mode, d) := (ModeAt(decode, c), Step(decode, c));
            var v := Read(c, mode);
            && d == c.(p := d.p, pc := Behind(c, Size(mode)))
            && d.p == c.p.(n := BitAt(v, 7), v := BitAt(v, 6), z := d.p.z)
            && (d.p.z <==> And(c.a, v) == 0)
  {
    ReadIs(c, ModeAt(decode, c));
    TopBits(Read(c, ModeAt(decode, c)));
    ExecTests(Skip(c, 1), ModeAt(decode, c));
  }

  lemma TopBits(v: Byte)
    ensures BitAt(v, 7) == (v >= 128) && BitAt(v, 6) == (v / 64 % 2 == 1)
  {
    ControlBits(v);
    assert Bit(v, 0x80) == (v >= 128);
  }

  lemma ExecTests(c: Cpu, mode: Mode)
    ensures var (b, d) := (Operand(c, mode), Skip(c, Length(mode)));
            Exec(Write, c, BIT, mode)
            == d.(p := c.p.(z := And(c.a, b) == 0, n := b >= 128, v := b / 64 % 2 == 1))
  {
  }

  /** CMP, CPX and CPY set the carry if the register is not below the operand, the zero flag if they
      are equal, and the sign flag to bit 7 of the difference. */
  lemma StepCompares(decode: Decode, c: Cpu)
    requires IsCompare(OpAt(decode, c))
    ensures var (op, mode, d) := (OpAt(decode, c), ModeAt(decode, c), Step(decode, c));
            var r := if op.CMP? then c.a else if op.CPX? then c.x else c.y;
            var v := Read(c, mode);
            && d == c.(p := d.p, pc := Behind(c, Size(mode)))
            && d.p == c.p.(c := r >= v, z := r == v, n := (r as int - v as int) % 256 >= 128)
  {
    var (op, mode) := (OpAt(decode, c), ModeAt(decode, c));
    ReadIs(c, mode);
    var d := c.(pc := Behind(c, Size(mode)));
    CompareIs(d, if op.CMP? then c.a else if op.CPX? then c.x else c.y, Read(c, mode));
  }

  lemma CompareIs(d: Cpu, r: Byte, v: Byte)
    ensures Compare(d, r, v)
            == d.(p := d.p.(c := r >= v, z := r == v, n := (r as int - v as int) % 256 >= 128))
  {
    SignOfDifference(r as int - v as int);
  }

  lemma SignOfDifference(x: int)
    requires -256 < x < 256
    ensures Wrap(x) / 128 % 2 == 1 <==> x % 256 >= 128
  {
  }

  /** ADC and SBC add their operand, or its complement, and the carry; the ninth bit of the sum is
      the carry then, and the overflow flag tells whether it differs from the sign, as in the code
      and not as in the chip. */
  lemma StepSums(decode: Decode, c: Cpu)
    requires OpAt(decode, c).ADC? || OpAt(decode, c).SBC?
    ensures var (op, mode, d) := (OpAt(decode, c), ModeAt(decode, c), Step(decode, c));
            var v: int := Read(c, mode);
            && d == c.(a := d.a, p := d.p, pc := Behind(c, Size(mode)))
            && d.a as int + 256 * One(d.p.c)
               == c.a as int + (if op.ADC? then v else 255 - v) + One(c.p.c)
            && d.p == c.p.(c := d.p.c, z := d.a == 0, n := d.a >= 128, v := d.p.c != (d.a >= 128))
  {
    var (op, mode) := (OpAt(decode, c), ModeAt(decode, c));
    ReadIs(c, mode);
    var v := Read(c, mode);
    ExecSums(Skip(c, 1), op, mode);
    AddedIs(c.(pc := Behind(c, Size(mode))), if op.ADC? then v else 255 - v);
  }

  lemma AddedIs(d: Cpu, b: Byte)
    ensures var e := Added(d, b);
            && e == d.(a := e.a, p := e.p)
            && e.a as int + 256 * One(e.p.c) == d.a as int + b as int + One(d.p.c)
            && e.p == d.p.(c := e.p.c, z := e.a == 0, n := e.a >= 128, v := e.p.c != (e.a >= 128))
  {
    AddIs(d.a, b, d.p.c);
  }

  lemma ExecSums(c: Cpu, op: Op, mode: Mode)
    requires op.ADC? || op.SBC?
    ensures Exec(Write, c, op, mode)
            == Added(Skip(c, Length(mode)),
                     if op.ADC? then Operand(c, mode) else 255 - Operand(c, mode))
  {
  }

  // ---- Stores and changes in memory ------------------------------------------------------

  /** A write changes one register of the chip, if there is such a one, or one cell of memory. */
  lemma WriteIs(m: Board, addr: U16, v: Byte)
    ensures var w := Write(m, addr, v);
            if IsSid(addr) then
              && w.memory == m.memory && w.filter == m.filter && w.tables == m.tables
              && forall reg :: 0 <= reg < 25 ==>
                   Register(w.regs, reg) == if reg == addr % 32 then v else Register(m.regs, reg)
            else w == m.(memory := m.memory[addr := v])
  {
    PokeIs(m, addr % 32, v);
  }

  /** STA, STX and STY write a register where their addressing mode says, and change nothing
      else. */
  lemma StepStores(decode: Decode, c: Cpu)
    requires IsStore(OpAt(decode, c)) && InMemory(ModeAt(decode, c))
    ensures var (op, mode, d) := (OpAt(decode, c), ModeAt(decode, c), Step(decode, c));
            var v := if op.STA? then c.a else if op.STX? then c.x else c.y;
            && d == c.(m := d.m, pc := Behind(c, Size(mode)))
            && d.m == Write(c.m, Target(c, mode), v)
  {
    var (op, mode) := (OpAt(decode, c), ModeAt(decode, c));
    TargetIs(c, mode);
    WrapIs(c.pc + 1);
    SizeIs(c, mode);
    StoreTo(Skip(c, 1), op, mode, Target(c, mode));
  }

  lemma StoreTo(d: Cpu, op: Op, mode: Mode, to: U16)
    requires IsStore(op) && InMemory(mode) && to == Addr(d, mode)
    ensures var v := if op.STA? then d.a else if op.STX? then d.x else d.y;
            Exec(Write, d, op, mode)
            == d.(m := Write(d.m, to, v), pc := Wrap(d.pc + Length(mode)))
  {
  }

  /** What the instructions that change their operand make of it, as an equation between the old
      byte, the new one, and the carries before and after. */
  predicate ChangesTo(op: Op, b: Byte, carry: bool, r: Byte, out: bool) {
    match op
    case INC => r == (b as int + 1) % 256 && out == carry
    case DEC => r == (b as int - 1) % 256 && out == carry
    case ASL => 2 * b as int == r as int + 256 * One(out)
    case LSR => b as int == 2 * r as int + One(out)
    case ROL => 2 * b as int + One(carry) == r as int + 256 * One(out)
    case ROR => b as int + 256 * One(carry) == 2 * r as int + One(out)
    case _ => false
  }

  predicate IsChange(op: Op) { op.INC? || op.DEC? || op.ASL? || op.LSR? || op.ROL? || op.ROR? }

  lemma ChangedIs(c: Cpu, op: Op, b: Byte)
    requires IsChange(op)
    ensures ChangesTo(op, b, c.p.c, Changed(c, op, b), CarryOut(c, op, b))
  {
    match op
    case ASL => LeftIs(b, 0);
    case ROL => LeftIs(b, One(c.p.c));
    case _ => RightIs(b);
  }

  lemma LeftIs(b: Byte, low: nat)
    requires low <= 1
    ensures 2 * b as int + low == Low(2 * b as int + low) as int + 256 * One(b >= 128)
    ensures Low(b as int * 2) == Low(2 * b as int)
  {
  }

  lemma RightIs(b: Byte)
    ensures b as int == 2 * (b / 2) as int + One(b % 2 == 1)
  {
  }

  /** The modes in which the table has such instructions. */
  predicate CanChange(mode: Mode) {
    mode.Acc? || mode.Abs? || mode.Absx? || mode.Zp? || mode.Zpx?
  }

  /** The processor with a byte written where it was read. */
  function WrittenBack(c: Cpu, mode: Mode, r: Byte): Cpu
    requires CanChange(mode)
  {
    if mode.Acc? then c.(a := r) else c.(m := Write(c.m, Target(c, mode), r))
  }

  lemma StoreBackIs(c: Cpu, mode: Mode, r: Byte)
    requires CanChange(mode)
    ensures StoreBack(Write, Skip(c, 1), mode, r) == WrittenBack(c, mode, r).(pc := Behind(c, 1))
  {
    WrapIs(c.pc + 1);
    if !mode.Acc? { TargetIs(c, mode); }
  }

  lemma ModifiedIs(c: Cpu, op: Op, mode: Mode, r: Byte, out: bool)
    requires IsChange(op) && CanChange(mode)
    requires r == Changed(Skip(c, 1), op, Operand(Skip(c, 1), mode))
    requires out == CarryOut(Skip(c, 1), op, Operand(Skip(c, 1), mode))
    ensures Modified(Write, Skip(c, 1), op, mode)
            == WrittenBack(c, mode, r).(pc := Behind(c, Size(mode)),
                                        p := c.p.(c := out, z := r == 0, n := r >= 128))
  {
    StoreBackIs(c, mode, r);
    ModifyIs(WrittenBack(c, mode, r).(pc := Behind(c, 1)), Skip(c, 1), op, mode, r, out);
    SizeIs(c, mode);
  }

  lemma ModifyIs(e: Cpu, d: Cpu, op: Op, mode: Mode, r: Byte, out: bool)
    requires r == Changed(d, op, Operand(d, mode)) && out == CarryOut(d, op, Operand(d, mode))
    requires e == StoreBack(Write, d, mode, r)
    ensures Modified(Write, d, op, mode)
            == e.(pc := Wrap(e.pc + Length(mode)), p := e.p.(c := out, z := r == 0, n := r >= 128))
  {
  }

  /** INC, DEC, the shifts and the rotations write back what they make of their operand, and show it
      in the flags; ASL shows in the zero flag whether the operand was zero. */
  lemma StepChanges(decode: Decode, c: Cpu) returns (r: Byte)
    requires IsChange(OpAt(decode, c)) && CanChange(ModeAt(decode, c))
    ensures var (op, mode, d) := (OpAt(decode, c), ModeAt(decode, c), Step(decode, c));
            var b := Read(c, mode);
            && ChangesTo(op, b, c.p.c, r, d.p.c)
            && d == WrittenBack(c, mode, r).(pc := Behind(c, Size(mode)), p := d.p)
            && d.p == c.p.(c := d.p.c, n := r >= 128, z := if op.ASL? then b == 0 else r == 0)
  {
    var (op, mode) := (OpAt(decode, c), ModeAt(decode, c));
    var b := Read(c, mode);
    ReadIs(c, mode);
    r := Changed(Skip(c, 1), op, b);
    ChangedIs(Skip(c, 1), op, b);
    ModifiedIs(c, op, mode, r, CarryOut(Skip(c, 1), op, b));
    ExecChanges(Skip(c, 1), op, mode);
  }

  lemma ExecChanges(c: Cpu, op: Op, mode: Mode)
    requires IsChange(op)
    ensures var d := Modified(Write, c, op, mode);
            Exec(Write, c, op, mode)
            == if op.ASL? then d.(p := d.p.(z := Operand(c, mode) == 0)) else d
  {
    match op
    case ASL =>
    case LSR =>
    case ROL =>
    case ROR =>
    case INC =>
    case _ =>
  }

  // ---- Registers and flags ---------------------------------------------------------------

  /** The counting instructions add or take away one, modulo 256. */
  lemma StepCounts(decode: Decode, c: Cpu)
    requires Counts(OpAt(decode, c))
    ensures var (op, d) := (OpAt(decode, c), Step(decode, c));
            && d == c.(x := d.x, y := d.y, p := d.p, pc := Behind(c, 1))
            && (op.INX? || op.DEX? ==>
                  d.x == (c.x as int + if op.INX? then 1 else -1) % 256 && d.y == c.y)
            && (op.INY? || op.DEY? ==>
                  d.y == (c.y as int + if op.INY? then 1 else -1) % 256 && d.x == c.x)
            && ShowsIn(c.p, d.p, if op.INX? || op.DEX? then d.x else d.y)
  {
    NextBytes(c);
  }

  /** The moves between registers; the one to the stack pointer sets no flags. */
  lemma StepMoves(decode: Decode, c: Cpu)
    requires IsMove(OpAt(decode, c))
    ensures var (op, d) := (OpAt(decode, c), Step(decode, c));
            var v := if op.TAX? || op.TAY? then c.a else if op.TSX? then c.s
                     else if op.TYA? then c.y else c.x;
            && d == c.(a := if op.TXA? || op.TYA? then v else c.a,
                       x := if op.TAX? || op.TSX? then v else c.x,
                       y := if op.TAY? then v else c.y, s := if op.TXS? then v else c.s,
                       p := d.p, pc := Behind(c, 1))
            && (if op.TXS? then d.p == c.p else ShowsIn(c.p, d.p, v))
  {
    NextBytes(c);
    match OpAt(decode, c)
    case TAX =>
    case TAY =>
    case TSX =>
    case TXA =>
    case TXS =>
    case _ =>
  }

  /** The bit of the status byte that an instruction sets or clears. */
  function FlagBit(op: Op): nat {
    if op.CLC? || op.SEC? then 0 else if op.CLI? || op.SEI? then 2
    else if op.CLD? || op.SED? then 3 else 6
  }

  /** The flag instructions set or clear one bit of the status byte, and nothing else. */
  lemma StepFlags(decode: Decode, c: Cpu)
    requires SetsFlag(OpAt(decode, c))
    ensures var (op, d) := (OpAt(decode, c), Step(decode, c));
            && d == c.(p := d.p, pc := Behind(c, 1))
            && forall i :: 0 <= i < 8 ==>
                 BitAt(ToByte(d.p), i) == if i == FlagBit(op) then Raises(op)
                                          else BitAt(ToByte(c.p), i)
  {
    FlagStep(decode, c);
    FlagBits(OpAt(decode, c), c.p, Step(decode, c).p);
  }

  /** The flags after such an instruction. */
  function FlagsAfter(op: Op, p: Flags): Flags {
    p.(c := if op.CLC? then false else op.SEC? || p.c,
       i := if op.CLI? then false else op.SEI? || p.i,
       d := if op.CLD? then false else op.SED? || p.d, v := !op.CLV? && p.v)
  }

  lemma FlagBits(op: Op, p: Flags, q: Flags)
    requires SetsFlag(op) && q == FlagsAfter(op, p)
    ensures forall i :: 0 <= i < 8 ==>
              BitAt(ToByte(q), i) == if i == FlagBit(op) then Raises(op)
                                     else BitAt(ToByte(p), i)
  {
    forall i | 0 <= i < 8
      ensures BitAt(ToByte(q), i) == if i == FlagBit(op) then Raises(op)
                                     else BitAt(ToByte(p), i)
    {
      FlagAfter(op, p, i);
      StatusBit(p, i);
      StatusBit(q, i);
    }
  }

  lemma FlagAfter(op: Op, p: Flags, i: nat)
    requires SetsFlag(op) && i < 8
    ensures Flag(FlagsAfter(op, p), i) == if i == FlagBit(op) then Raises(op) else Flag(p, i)
  {
  }

  lemma FlagStep(decode: Decode, c: Cpu)
    requires SetsFlag(OpAt(decode, c))
    ensures var (op, d) := (OpAt(decode, c), Step(decode, c));
            d == c.(pc := Behind(c, 1), p := FlagsAfter(op, c.p))
  {
    NextBytes(c);
  }

  // ---- Stack and jumps -------------------------------------------------------------------

  /** A push writes the cell that the stack pointer names, and moves the pointer down, which stops
      at zero. */
  lemma StepPushes(decode: Decode, c: Cpu)
    requires IsPush(OpAt(decode, c))
    ensures var (op, d) := (OpAt(decode, c), Step(decode, c));
            var v := if op.PHA? then c.a else ToByte(c.p);
            d == c.(m := c.m.(memory := c.m.memory[0x100 + c.s := v]), pc := Behind(c, 1),
                    s := if c.s == 0 then 0 else c.s - 1)
  {
    NextBytes(c);
    assert !IsSid(0x100 + c.s);
  }

  /** A pull moves the pointer up, which stops at 255, and reads the cell that it then names. */
  lemma StepPulls(decode: Decode, c: Cpu)
    requires IsPull(OpAt(decode, c))
    ensures var (op, d) := (OpAt(decode, c), Step(decode, c));
            var s := if c.s == 255 then 255 else c.s + 1;
            && d == c.(a := d.a, p := d.p, s := s, pc := Behind(c, 1))
            && (op.PLA? ==> d.a == c.m.memory[0x100 + s] && ShowsIn(c.p, d.p, d.a))
            && (op.PLP? ==> d.a == c.a
                            && forall i :: 0 <= i < 8 ==>
                                 BitAt(ToByte(d.p), i) == BitAt(c.m.memory[0x100 + s], i))
  {
    PullIs(decode, c);
    FromByteBits(c.m.memory[0x100 + if c.s == 255 then 255 else c.s + 1]);
  }

  lemma PullIs(decode: Decode, c: Cpu)
    requires IsPull(OpAt(decode, c))
    ensures var (op, d) := (OpAt(decode, c), Step(decode, c));
            var s := if c.s == 255 then 255 else c.s + 1;
            var v := c.m.memory[0x100 + s];
            d == if op.PLA? then c.(a := v, p := c.p.(z := v == 0, n := v >= 128), s := s,
                                    pc := Behind(c, 1))
                 else c.(p := FromByte(v), s := s, pc := Behind(c, 1))
  {
    NextBytes(c);
  }

  /** Pulling the status byte takes its bits as they are. */
  lemma FromByteBits(v: Byte)
    ensures forall i :: 0 <= i < 8 ==> BitAt(ToByte(FromByte(v)), i) == BitAt(v, i)
  {
    FlagsOfByte(v);
    forall i | 0 <= i < 8
      ensures BitAt(ToByte(FromByte(v)), i) == BitAt(v, i)
    {
      StatusBit(FromByte(v), i);
    }
  }

  lemma FlagsOfByte(v: Byte)
    ensures forall i :: 0 <= i < 8 ==> Flag(FromByte(v), i) == BitAt(v, i)
  {
    ControlBits(v);
    SmallPowers();
    MaskIsBit(v, 0);
    MaskIsBit(v, 2);
    MaskIsBit(v, 3);
    MaskIsBit(v, 4);
    MaskIsBit(v, 5);
  }

  lemma PushTo(c: Cpu, v: Byte)
    ensures Push(Write, c, v)
            == c.(m := c.m.(memory := c.m.memory[0x100 + c.s := v]),
                  s := if c.s == 0 then 0 else c.s - 1)
  {
    assert !IsSid(0x100 + c.s);
  }

  /** The stack with the address of the last byte of a call, the low byte in the lower cell. */
  function Stacked(c: Cpu, last: nat): Cpu
    requires c.s >= 2
  {
    c.(m := c.m.(memory := c.m.memory[0x100 + c.s := Byte0(last / 256)]
                                     [0xff + c.s := Byte0(last)]), s := c.s - 2)
  }

  lemma CallTo(c: Cpu, next: U16)
    requires c.s >= 2 && next == c.pc
    ensures var d := Stacked(c, c.pc + 1);
            Call(Write, c) == d.(pc := Word(d.m, next))
  {
    var r := c.pc as int + 1;
    PushTo(c, Low(r / 256));
    PushTo(Push(Write, c, Low(r / 256)), Low(r));
  }

  /** JSR leaves the address of its own last byte on the stack, and goes to its operand, as that is
      then. */
  lemma StepCallsTo(decode: Decode, c: Cpu)
    requires OpAt(decode, c).JSR? && c.s >= 2
    ensures var d := Stacked(c, Behind(c, 1) + 1);
            Step(decode, c)
            == d.(pc := Join(d.m.memory[Behind(c, 1)], d.m.memory[Behind(c, 2)]))
  {
    NextBytes(c);
    StepIsCall(decode, c);
    CallTo(Skip(c, 1), Behind(c, 1));
    CellsIs(Stacked(c, Behind(c, 1) + 1).m, Behind(c, 1));
  }

  function Byte0(x: nat): Byte { x % 256 }

  /** RTS and RTI go behind the address that the two cells above the stack pointer hold. */
  lemma StepReturnsTo(decode: Decode, c: Cpu)
    requires IsReturn(OpAt(decode, c)) && c.s <= 253
    ensures var ret := Join(c.m.memory[0x101 + c.s], c.m.memory[0x102 + c.s]);
            Step(decode, c) == c.(s := c.s + 2, pc := Around(ret + 1))
  {
    NextBytes(c);
    WrapIs(Join(c.m.memory[0x101 + c.s], c.m.memory[0x102 + c.s]) + 1);
  }

  /** JMP goes to the address behind it, or to the one that is stored there, BRK to zero, which ends
      the routine; NOP and what is no instruction only go on. */
  lemma StepJumps(decode: Decode, c: Cpu)
    requires IsJump(OpAt(decode, c))
    requires OpAt(decode, c).JMP? ==> ModeAt(decode, c) in {Abs, Ind}
    ensures var (op, mode) := (OpAt(decode, c), ModeAt(decode, c));
            var to := Join(ByteAt(c, 1), ByteAt(c, 2));
            Step(decode, c)
            == c.(pc := if op.BRK? then 0
                        else if op.NOP? || op.XXX? then Behind(c, 1)
                        else if mode.Abs? then to
                        else Join(c.m.memory[to], c.m.memory[Around(to + 1)]))
  {
    NextBytes(c);
    if OpAt(decode, c).JMP? { JumpIs(c, ModeAt(decode, c)); }
  }

  lemma JumpIs(c: Cpu, mode: Mode)
    requires mode in {Abs, Ind}
    ensures var to := Join(ByteAt(c, 1), ByteAt(c, 2));
            Jump(Skip(c, 1), mode)
            == c.(pc := if mode.Abs? then to
                        else Join(c.m.memory[to], c.m.memory[Around(to + 1)]))
  {
    WordIs(c);
    var to := Join(ByteAt(c, 1), ByteAt(c, 2));
    CellsIs(c.m, to);
    JumpTo(Skip(c, 1), mode, to);
  }

  lemma JumpTo(d: Cpu, mode: Mode, w: U16)
    requires mode in {Abs, Ind} && w == Word(d.m, d.pc)
    ensures Jump(d, mode) == d.(pc := if mode.Abs? then w else Word(d.m, w))
  {
  }
}
