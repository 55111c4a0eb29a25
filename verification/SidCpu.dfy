/** The processor of ext/audio/sid.c. */
module SidCpu {
  import opened SidMachine

  // ---- State -----------------------------------------------------------------------------

  datatype Flags = Flags(n: bool, v: bool, u: bool, b: bool, d: bool, i: bool, z: bool, c: bool)

  /** The memory with the synthesizer in it. */
  type Board = m: Machine | Shape(m) witness Silent()

  datatype Cpu = Cpu(a: Byte, x: Byte, y: Byte, s: Byte, p: Flags, pc: U16, m: Board)

  datatype Op =
    | ADC | AND | ASL | BCC | BCS | BEQ | BIT | BMI | BNE | BPL | BRK | BVC | BVS | CLC
    | CLD | CLI | CLV | CMP | CPX | CPY | DEC | DEX | DEY | EOR | INC | INX | INY | JMP
    | JSR | LDA | LDX | LDY | LSR | NOP | ORA | PHA | PHP | PLA | PLP | ROL | ROR | RTI
    | RTS | SBC | SEC | SED | SEI | STA | STX | STY | TAX | TAY | TSX | TXA | TXS | TYA
    | XXX

  datatype Mode = Imp | Imm | Abs | Absx | Absy | Zp | Zpx | Zpy | Ind | Indx | Indy | Acc | Rel
                | None0

  /** The tables of operations and addressing modes. */
  type Decode = Byte -> (Op, Mode)

  function ToByte(f: Flags): Byte {
    128 * One(f.n) + 64 * One(f.v) + 32 * One(f.u) + 16 * One(f.b) + 8 * One(f.d) + 4 * One(f.i)
    + 2 * One(f.z) + One(f.c)
  }

  function FromByte(x: Byte): Flags {
    Flags(Bit(x, 128), Bit(x, 64), Bit(x, 32), Bit(x, 16), Bit(x, 8), Bit(x, 4), Bit(x, 2),
          Bit(x, 1))
  }

  // ---- Memory ----------------------------------------------------------------------------

  function Wrap(x: int): U16 { x % 0x1_0000 }

  function Low(x: int): Byte { x % 256 }

  /** getmem */
  function Mem(m: Board, addr: int): Byte { m.memory[Wrap(addr)] }

  function Write(m: Board, addr: U16, val: Byte): Board {
    SetMemInRange(m, addr, val);
    SetMem(m, addr, val)
  }

  /** What a write does to memory and synthesizer. */
  type Bus = (Board, U16, Byte) -> Board

  function Word(m: Board, addr: int): U16 {
    var lo: int, hi: int := Mem(m, addr), Mem(m, addr + 1);
    lo + 256 * hi
  }

  function ZeroWord(m: Board, addr: int): U16 {
    var lo: int, hi: int := Mem(m, addr % 256), Mem(m, (addr + 1) % 256);
    lo + 256 * hi
  }

  /** Where an operand in memory is. */
  function Addr(c: Cpu, mode: Mode): U16 {
    var zp: int := Mem(c.m, c.pc);
    match mode
    case Abs => Word(c.m, c.pc)
    case Absx => Wrap(Word(c.m, c.pc) + c.x)
    case Absy => Wrap(Word(c.m, c.pc) + c.y)
    case Zp => zp
    case Zpx => (zp + c.x) % 256
    case Zpy => (zp + c.y) % 256
    case Indx => ZeroWord(c.m, zp + c.x)
    case Indy => Wrap(ZeroWord(c.m, zp) + c.y)
    case _ => 0
  }

  /** How many bytes getaddr and putaddr take from the program. */
  function Length(mode: Mode): nat {
    match mode
    case Abs => 2 case Absx => 2 case Absy => 2
    case Imm => 1 case Zp => 1 case Zpx => 1 case Zpy => 1 case Indx => 1 case Indy => 1
    case _ => 0
  }

  predicate InMemory(mode: Mode) { mode.Abs? || mode.Absx? || mode.Absy? || mode.Zp? || mode.Zpx?
                                   || mode.Zpy? || mode.Indx? || mode.Indy? }

  /** getaddr */
  function Operand(c: Cpu, mode: Mode): Byte {
    if mode.Imm? then Mem(c.m, c.pc)
    else if mode.Acc? then c.a
    else if InMemory(mode) then Mem(c.m, Addr(c, mode)) else 0
  }

  /** setaddr, with the place the operand was read from. */
  function StoreBack(w: Bus, c: Cpu, mode: Mode, val: Byte): Cpu {
    match mode
    case Abs => c.(m := w(c.m, Addr(c, mode), val))
    case Absx => c.(m := w(c.m, Addr(c, mode), val))
    case Zp => c.(m := w(c.m, Addr(c, mode), val))
    case Zpx => c.(m := w(c.m, Addr(c, mode), val))
    case Acc => c.(a := val)
    case _ => c
  }

  /** putaddr */
  function Put(w: Bus, c: Cpu, mode: Mode, val: Byte): Cpu {
    if mode.Acc? then c.(a := val)
    else if InMemory(mode) then c.(m := w(c.m, Addr(c, mode), val)) else c
  }

  function Skip(c: Cpu, n: nat): Cpu { c.(pc := Wrap(c.pc + n)) }

  function NZ(c: Cpu, val: Byte): Cpu { c.(p := c.p.(z := val == 0, n := val >= 128)) }

  function Push(w: Bus, c: Cpu, val: Byte): Cpu {
    c.(m := w(c.m, 0x100 + c.s, val), s := if c.s > 0 then c.s - 1 else c.s)
  }

  function Top(c: Cpu): Byte { Mem(c.m, 0x100 + if c.s < 0xff then c.s + 1 else c.s) }

  function Popped(c: Cpu): Cpu { if c.s < 0xff then c.(s := c.s + 1) else c }

  function Branch(c: Cpu, taken: bool): Cpu {
    var b: int := Mem(c.m, c.pc);
    var dist := if b < 128 then b else b - 256;
    if taken then c.(pc := Wrap(c.pc + 1 + dist)) else Skip(c, 1)
  }

  /** An addition with carry: the byte and the carry it gives. */
  function Add(a: Byte, b: Byte, c: bool): (Byte, bool) {
    var w: int := a as int + b as int + One(c);
    (w % 256, w >= 256)
  }

  function Added(c: Cpu, b: Byte): Cpu {
    var (r, carry) := Add(c.a, b, c.p.c);
    var d := NZ(c.(a := r), r);
    d.(p := d.p.(c := carry, v := carry != d.p.n))
  }

  function Compare(c: Cpu, r: Byte, b: Byte): Cpu {
    c.(p := c.p.(z := r == b, n := Wrap(r as int - b as int) / 128 % 2 == 1, c := r >= b))
  }

  function Or(x: Byte, y: Byte): Byte { Low(x as int + y as int - And(x, y)) }
  function Xor(x: Byte, y: Byte): Byte { Low(x as int + y as int - 2 * And(x, y)) }

  // ---- Instructions ----------------------------------------------------------------------

  /** Read, change and write back, `c` being the processor before the operand was read. */
  function Modify(w: Bus, c: Cpu, mode: Mode, val: Byte, carry: bool): Cpu {
    var d := Skip(StoreBack(w, c, mode, val), Length(mode));
    NZ(d.(p := d.p.(c := carry)), val)
  }

  /** What an instruction that modifies its operand makes of it. */
  function Changed(c: Cpu, op: Op, b: Byte): Byte {
    match op
    case ASL => Low(b as int * 2)
    case LSR => b / 2
    case ROL => Low(2 * b as int + One(c.p.c))
    case ROR => b / 2 + 128 * One(c.p.c)
    case INC => Low(b as int + 1)
    case _ => Low(b as int - 1)
  }

  /** The carry that it leaves. */
  function CarryOut(c: Cpu, op: Op, b: Byte): bool {
    match op
    case ASL => b >= 128
    case LSR => b % 2 == 1
    case ROL => b >= 128
    case ROR => b % 2 == 1
    case _ => c.p.c
  }

  function Modified(w: Bus, c: Cpu, op: Op, mode: Mode): Cpu {
    var b := Operand(c, mode);
    Modify(w, c, mode, Changed(c, op, b), CarryOut(c, op, b))
  }

  /** The zero flag is that of the shifted value before it is cut to a byte. */
  function ShiftLeft(w: Bus, c: Cpu, mode: Mode): Cpu {
    var d := Modified(w, c, ASL, mode);
    d.(p := d.p.(z := Operand(c, mode) == 0))
  }

  function Call(w: Bus, c: Cpu): Cpu {
    var r := c.pc as int + 1;
    var d := Push(w, Push(w, c, Low(r / 256)), Low(r));
    d.(pc := Word(d.m, c.pc))
  }

  function Return(c: Cpu): Cpu {
    var lo: int := Top(c);
    var d := Popped(c);
    var hi: int := Top(d);
    Popped(d).(pc := Wrap(lo + 256 * hi + 1))
  }

  function Jump(c: Cpu, mode: Mode): Cpu {
    var w := Word(c.m, c.pc);
    match mode
    case Abs => c.(pc := w)
    case Ind => c.(pc := Word(c.m, w))
    case _ => Skip(c, 2)
  }

  /** The effect of an instruction, with the program counter behind its operation code. */
  function Exec(w: Bus, c: Cpu, op: Op, mode: Mode): Cpu {
    var b := Operand(c, mode);
    var d := Skip(c, Length(mode));
    match op
    case ADC => Added(d, b)
    case SBC => Added(d, 255 - b)
    case AND => NZ(d.(a := And(c.a, b)), And(c.a, b))
    case ORA => NZ(d.(a := Or(c.a, b)), Or(c.a, b))
    case EOR => NZ(d.(a := Xor(c.a, b)), Xor(c.a, b))
    case ASL => ShiftLeft(w, c, mode)
    case LSR => Modified(w, c, op, mode)
    case ROL => Modified(w, c, op, mode)
    case ROR => Modified(w, c, op, mode)
    case INC => Modified(w, c, op, mode)
    case DEC => Modified(w, c, op, mode)
    case BIT => d.(p := d.p.(z := And(c.a, b) == 0, n := b >= 128, v := b / 64 % 2 == 1))
    case BCC => Branch(c, !c.p.c)
    case BCS => Branch(c, c.p.c)
    case BNE => Branch(c, !c.p.z)
    case BEQ => Branch(c, c.p.z)
    case BPL => Branch(c, !c.p.n)
    case BMI => Branch(c, c.p.n)
    case BVC => Branch(c, !c.p.v)
    case BVS => Branch(c, c.p.v)
    case BRK => c.(pc := 0)
    case CLC => c.(p := c.p.(c := false))
    case SEC => c.(p := c.p.(c := true))
    case CLD => c.(p := c.p.(d := false))
    case SED => c.(p := c.p.(d := true))
    case CLI => c.(p := c.p.(i := false))
    case SEI => c.(p := c.p.(i := true))
    case CLV => c.(p := c.p.(v := false))
    case CMP => Compare(d, c.a, b)
    case CPX => Compare(d, c.x, b)
    case CPY => Compare(d, c.y, b)
    case INX => NZ(c.(x := Low(c.x as int + 1)), Low(c.x as int + 1))
    case INY => NZ(c.(y := Low(c.y as int + 1)), Low(c.y as int + 1))
    case DEX => NZ(c.(x := Low(c.x as int - 1)), Low(c.x as int - 1))
    case DEY => NZ(c.(y := Low(c.y as int - 1)), Low(c.y as int - 1))
    case JMP => Jump(c, mode)
    case JSR => Call(w, c)
    case RTS => Return(c)
    case RTI => Return(c)
    case LDA => NZ(d.(a := b), b)
    case LDX => NZ(d.(x := b), b)
    case LDY => NZ(d.(y := b), b)
    case STA => Skip(Put(w, c, mode, c.a), Length(mode))
    case STX => Skip(Put(w, c, mode, c.x), Length(mode))
    case STY => Skip(Put(w, c, mode, c.y), Length(mode))
    case PHA => Push(w, c, c.a)
    case PHP => Push(w, c, ToByte(c.p))
    case PLA => NZ(Popped(c).(a := Top(c)), Top(c))
    case PLP => Popped(c).(p := FromByte(Top(c)))
    case TAX => NZ(c.(x := c.a), c.a)
    case TAY => NZ(c.(y := c.a), c.a)
    case TSX => NZ(c.(x := c.s), c.s)
    case TXA => NZ(c.(a := c.x), c.x)
    case TXS => c.(s := c.x)
    case TYA => NZ(c.(a := c.y), c.y)
    case NOP => c
    case XXX => c
  }

  function OpAt(decode: Decode, c: Cpu): Op { decode(Mem(c.m, c.pc)).0 }
  function ModeAt(decode: Decode, c: Cpu): Mode { decode(Mem(c.m, c.pc)).1 }

  /** cpuParse */
  function Step(decode: Decode, c: Cpu): Cpu {
    Exec(Write, Skip(c, 1), OpAt(decode, c), ModeAt(decode, c))
  }

  // ---- Adding and subtracting byte by byte -----------------------------------------------

  function Pow256(n: nat): nat { if n == 0 then 1 else 256 * Pow256(n - 1) }

  /** The number with these bytes, the lowest one first. */
  function Value(s: seq<Byte>): nat {
    if s == [] then 0 else s[0] + 256 * Value(s[1..])
  }

  function Complement(s: seq<Byte>): (r: seq<Byte>)
    ensures |r| == |s|
  {
    if s == [] then [] else [255 - s[0]] + Complement(s[1..])
  }

  lemma {:induction false} ComplementValue(s: seq<Byte>)
    ensures Value(Complement(s)) == Pow256(|s|) - 1 - Value(s)
  {
    if s != [] { ComplementValue(s[1..]); }
  }

  lemma ValueBelow(s: seq<Byte>)
    ensures Value(s) < Pow256(|s|)
  {
    ComplementValue(s);
  }

  /** A byte-wise addition that starts with this carry. */
  function AddBytes(xs: seq<Byte>, ys: seq<Byte>, carry: bool): (r: (seq<Byte>, bool))
    requires |xs| == |ys|
    ensures |r.0| == |xs|
  {
    if xs == [] then ([], carry)
    else
      var (b, c) := Add(xs[0], ys[0], carry);
      var (bs, d) := AddBytes(xs[1..], ys[1..], c);
      ([b] + bs, d)
  }

  /** What a carry out of n bytes is worth. */
  function Carried(n: nat, c: bool): nat { if c then Pow256(n) else 0 }

  /** n additions with carry add numbers of n bytes modulo 256^n, with the right carry out. */
  lemma {:induction false} AddBytesAdds(xs: seq<Byte>, ys: seq<Byte>, carry: bool)
    requires |xs| == |ys|
    ensures var (r, out) := AddBytes(xs, ys, carry);
            && Value(xs) + Value(ys) + One(carry) == Value(r) + Carried(|xs|, out)
            && Value(r) < Pow256(|xs|)
  {
    ValueBelow(AddBytes(xs, ys, carry).0);
    if xs != [] {
      var (b, c) := Add(xs[0], ys[0], carry);
      AddBytesAdds(xs[1..], ys[1..], c);
      var (bs, out) := AddBytes(xs[1..], ys[1..], c);
      CarriedMore(|xs|, out);
      ValueCons(b, bs);
      AddIs(xs[0], ys[0], carry);
    }
  }

  lemma AddIs(x: Byte, y: Byte, c: bool)
    ensures var (b, d) := Add(x, y, c);
            x as int + y as int + One(c) == b as int + 256 * One(d)
  {
  }

  lemma CarriedMore(n: nat, c: bool)
    requires n > 0
    ensures Carried(n, c) == 256 * Carried(n - 1, c)
  {
  }

  lemma ValueCons(b: Byte, s: seq<Byte>)
    ensures Value([b] + s) == b + 256 * Value(s)
  {
    assert ([b] + s)[1..] == s;
  }

  /** With the bytes of the second number complemented they subtract it, and a clear carry out is a
      borrow. */
  lemma SubtractBytes(xs: seq<Byte>, ys: seq<Byte>, carry: bool)
    requires |xs| == |ys|
    ensures var (r, out) := AddBytes(xs, Complement(ys), carry);
            && Value(xs) - Value(ys) - One(!carry) == Value(r) - Carried(|xs|, !out)
            && Value(r) < Pow256(|xs|)
  {
    AddBytesAdds(xs, Complement(ys), carry);
    ComplementValue(ys);
  }

  lemma StepAdds(decode: Decode, c: Cpu)
    requires OpAt(decode, c) == ADC || OpAt(decode, c) == SBC
    ensures var d := Step(decode, c);
            (d.a, d.p.c) == Add(c.a, Addend(decode, c), c.p.c)
  {
  }

  /** What the instruction at the program counter adds. */
  function Addend(decode: Decode, c: Cpu): Byte {
    var b := Operand(Skip(c, 1), ModeAt(decode, c));
    if OpAt(decode, c) == SBC then 255 - b else b
  }

  /** The instructions that leave the carry as it is. */
  predicate KeepsCarry(op: Op) {
    !(op.ADC? || op.SBC? || op.ASL? || op.LSR? || op.ROL? || op.ROR? || op.CLC? || op.SEC?
      || op.CMP? || op.CPX? || op.CPY? || op.PLP?)
  }

  lemma StoreKeepsFlags(w: Bus, c: Cpu, mode: Mode, val: Byte)
    ensures StoreBack(w, c, mode, val).p == c.p && Put(w, c, mode, val).p == c.p
    ensures Push(w, c, val).p == c.p && Popped(c).p == c.p
  {
  }

  lemma CallKeepsFlags(w: Bus, c: Cpu)
    ensures Call(w, c).p == c.p && Return(c).p == c.p
  {
  }

  /** The instructions that write to memory or return. */
  predicate UsesMemory(op: Op) {
    op.INC? || op.DEC? || op.STA? || op.STX? || op.STY? || op.PHA? || op.PHP? || op.JSR?
    || op.RTS? || op.RTI?
  }

  lemma StoringKeepsCarry(w: Bus, c: Cpu, op: Op, mode: Mode)
    requires UsesMemory(op)
    ensures Exec(w, c, op, mode).p.c == c.p.c
  {
    var b := Operand(c, mode);
    match op
    case INC => StoreKeepsFlags(w, c, mode, Changed(c, INC, b));
    case DEC => StoreKeepsFlags(w, c, mode, Changed(c, DEC, b));
    case STA => StoreKeepsFlags(w, c, mode, c.a);
    case STX => StoreKeepsFlags(w, c, mode, c.x);
    case STY => StoreKeepsFlags(w, c, mode, c.y);
    case PHA => StoreKeepsFlags(w, c, mode, c.a);
    case PHP => StoreKeepsFlags(w, c, mode, ToByte(c.p));
    case _ => CallKeepsFlags(w, c);
  }

  lemma ReadingKeepsCarry(w: Bus, c: Cpu, op: Op, mode: Mode)
    requires KeepsCarry(op) && Reads(op)
    ensures Exec(w, c, op, mode).p.c == c.p.c
  {
    match op
    case AND =>
    case ORA =>
    case EOR =>
    case BIT =>
    case LDA =>
    case LDX =>
    case _ =>
  }

  lemma ExecKeepsCarry(w: Bus, c: Cpu, op: Op, mode: Mode)
    requires KeepsCarry(op)
    ensures Exec(w, c, op, mode).p.c == c.p.c
  {
    if UsesMemory(op) {
      StoringKeepsCarry(w, c, op, mode);
    } else if Reads(op) {
      ReadingKeepsCarry(w, c, op, mode);
    } else {
      match op
      case JMP =>
      case BRK =>
      case PLA =>
      case _ =>
    }
  }

  lemma StepKeepsCarry(decode: Decode, c: Cpu)
    requires KeepsCarry(OpAt(decode, c))
    ensures Step(decode, c).p.c == c.p.c
  {
    ExecKeepsCarry(Write, Skip(c, 1), OpAt(decode, c), ModeAt(decode, c));
  }

  lemma {:induction false} ValueAppend(s: seq<Byte>, b: Byte)
    ensures Value(s + [b]) == Value(s) + Pow256(|s|) * b
  {
    if s == [] {
      assert s + [b] == [b] && Value([b][1..]) == 0;
    } else {
      ValueAppend(s[1..], b);
      assert (s + [b])[1..] == s[1..] + [b];
    }
  }

  lemma ScaledAdd(p: nat, x: Byte, y: Byte, c: bool)
    ensures var (r, d) := Add(x, y, c);
            p * x + p * y + (if c then p else 0) == p * r + (if d then 256 * p else 0)
  {
    var (r, d) := Add(x, y, c);
    assert x as int + y as int + One(c) == r as int + 256 * One(d);
    assert p * (x as int + y as int + One(c)) == p * x + p * y + p * One(c);
    assert p * (r as int + 256 * One(d)) == p * r + p * (256 * One(d));
  }

  // ---- Calls and returns -----------------------------------------------------------------

  /** Below the chips a write is one to memory. */
  ghost predicate Plain(w: Bus) {
    forall m: Board, addr: U16, val: Byte ::
      addr < 0xd400 ==> w(m, addr, val).memory == m.memory[addr := val]
  }

  lemma WriteIsPlain()
    ensures Plain(Write)
  {
    forall m: Board, addr: U16, val: Byte | addr < 0xd400
      ensures Write(m, addr, val).memory == m.memory[addr := val]
    {
    }
  }

  /** A call that has not returned: where it returns to, and the stack pointer after it was made. */
  datatype Frame = Frame(ret: U16, sp: Byte)

  /** The stack has the return address of the call. */
  predicate OnStack(m: Board, f: Frame) {
    f.sp <= 0xfd && Wrap(Word(m, 0x100 + f.sp + 1) + 1) == f.ret
  }

  lemma PushIs(w: Bus, c: Cpu, val: Byte)
    requires Plain(w)
    ensures var d := Push(w, c, val);
            && d.m.memory == c.m.memory[0x100 + c.s := val] && d.pc == c.pc
            && d.s == if c.s > 0 then c.s - 1 else c.s
  {
    assert 0x100 + c.s < 0xd400;
  }

  lemma CallIs(w: Bus, c: Cpu)
    requires Plain(w) && c.s >= 2
    ensures var d, r := Call(w, c), c.pc as int + 1;
            && d.s == c.s - 2
            && d.m.memory == c.m.memory[0x100 + c.s := Low(r / 256)][0x100 + c.s - 1 := Low(r)]
  {
    var r := c.pc as int + 1;
    PushIs(w, c, Low(r / 256));
    PushIs(w, Push(w, c, Low(r / 256)), Low(r));
  }

  lemma WordOf(r: nat)
    requires r <= 0x1_0000
    ensures Low(r) as int + 256 * Low(r / 256) == Wrap(r)
  {
  }

  lemma CallStacks(w: Bus, c: Cpu)
    requires Plain(w) && c.s >= 2
    ensures OnStack(Call(w, c).m, Frame(Wrap(c.pc as int + 2), c.s - 2))
  {
    CallIs(w, c);
    WordOf(c.pc as int + 1);
    CellsAreWord(Call(w, c).m, 0x100 + c.s - 1, c.pc as int + 1);
  }

  lemma CellsAreWord(m: Board, at: nat, r: nat)
    requires at < 0xffff && r <= 0x1_0000
    requires m.memory[at] == Low(r) && m.memory[at + 1] == Low(r / 256)
    ensures Word(m, at) == Wrap(r) && Wrap(Word(m, at) as int + 1) == Wrap(r + 1)
  {
    WordOf(r);
  }

  lemma CallKeepsStack(w: Bus, c: Cpu, f: Frame)
    requires Plain(w) && c.s >= 2 && OnStack(c.m, f) && c.s <= f.sp
    ensures OnStack(Call(w, c).m, f)
  {
    CallIs(w, c);
    SameCells(c.m, Call(w, c).m, f);
  }

  lemma SameCells(m: Board, m': Board, f: Frame)
    requires OnStack(m, f)
    requires m'.memory[0x100 + f.sp + 1] == m.memory[0x100 + f.sp + 1]
    requires m'.memory[0x100 + f.sp + 2] == m.memory[0x100 + f.sp + 2]
    ensures OnStack(m', f)
  {
  }

  lemma ReturnIs(c: Cpu, f: Frame)
    requires OnStack(c.m, f) && c.s == f.sp
    ensures Return(c).pc == f.ret && Return(c).s as int == f.sp as int + 2 && Return(c).m == c.m
  {
  }

  predicate IsReturn(op: Op) { op.RTS? || op.RTI? }

  lemma ExecCall(w: Bus, c: Cpu, mode: Mode)
    ensures Exec(w, c, JSR, mode) == Call(w, c)
  {
  }

  lemma StepIsCall(decode: Decode, c: Cpu)
    requires OpAt(decode, c).JSR?
    ensures Step(decode, c) == Call(Write, Skip(c, 1))
    ensures Wrap(Skip(c, 1).pc as int + 2) == Wrap(c.pc as int + 3)
  {
    ExecCall(Write, Skip(c, 1), ModeAt(decode, c));
    SkipAdds(c);
  }

  lemma SkipAdds(c: Cpu)
    ensures Wrap(Skip(c, 1).pc as int + 2) == Wrap(c.pc as int + 3)
  {
  }

  lemma CallDoes(w: Bus, c: Cpu)
    requires Plain(w) && c.s >= 2
    ensures var d := Call(w, c);
            && d.s == c.s - 2 && OnStack(d.m, Frame(Wrap(c.pc as int + 2), c.s - 2))
            && forall f :: OnStack(c.m, f) && c.s <= f.sp ==> OnStack(d.m, f)
  {
    CallStacks(w, c);
    CallIs(w, c);
    forall f | OnStack(c.m, f) && c.s <= f.sp
      ensures OnStack(Call(w, c).m, f)
    {
      CallKeepsStack(w, c, f);
    }
  }

  /** JSR with room on the stack leaves its return address there and no other one changed. */
  lemma StepCalls(decode: Decode, c: Cpu)
    requires OpAt(decode, c).JSR? && c.s >= 2
    ensures var d := Step(decode, c);
            && d.s == c.s - 2 && OnStack(d.m, Frame(Wrap(c.pc as int + 3), c.s - 2))
            && forall f :: OnStack(c.m, f) && c.s <= f.sp ==> OnStack(d.m, f)
  {
    WriteIsPlain();
    StepIsCall(decode, c);
    CallDoes(Write, Skip(c, 1));
  }

  /** RTS and RTI take the return address that the stack pointer is at. */
  lemma StepReturns(decode: Decode, c: Cpu, f: Frame)
    requires IsReturn(OpAt(decode, c)) && OnStack(c.m, f) && c.s == f.sp
    ensures var d := Step(decode, c);
            d.pc == f.ret && d.s as int == f.sp as int + 2 && d.m == c.m
  {
    ReturnIs(Skip(c, 1), f);
  }

  // ---- Ranges ----------------------------------------------------------------------------

  ghost predicate KeepsRange(w: Bus) {
    forall m: Board, addr: U16, val: Byte :: InRange(m) ==> InRange(w(m, addr, val))
  }

  lemma WriteInRange(m: Board, addr: U16, val: Byte)
    requires InRange(m)
    ensures InRange(Write(m, addr, val))
  {
    SetMemInRange(m, addr, val);
  }

  lemma WriteKeepsRange()
    ensures KeepsRange(Write)
  {
    forall m: Board, addr: U16, val: Byte | InRange(m)
      ensures InRange(Write(m, addr, val))
    {
      WriteInRange(m, addr, val);
    }
  }

  lemma StoreInRange(w: Bus, c: Cpu, mode: Mode, val: Byte)
    requires KeepsRange(w) && InRange(c.m)
    ensures InRange(StoreBack(w, c, mode, val).m) && InRange(Put(w, c, mode, val).m)
    ensures InRange(Push(w, c, val).m)
  {
  }

  lemma CallInRange(w: Bus, c: Cpu)
    requires KeepsRange(w) && InRange(c.m)
    ensures InRange(Call(w, c).m)
  {
    var r := c.pc as int + 1;
    StoreInRange(w, c, Imp, Low(r / 256));
    StoreInRange(w, Push(w, c, Low(r / 256)), Imp, Low(r));
  }

  predicate Modifies(op: Op) {
    op.ASL? || op.LSR? || op.ROL? || op.ROR? || op.INC? || op.DEC?
  }

  predicate Stores(op: Op) { op.STA? || op.STX? || op.STY? || op.PHA? || op.PHP? }

  /** The instructions that only read memory through their operand. */
  predicate Reads(op: Op) {
    op.ADC? || op.SBC? || op.AND? || op.ORA? || op.EOR? || op.BIT? || op.CMP? || op.CPX?
    || op.CPY? || op.LDA? || op.LDX? || op.LDY?
  }

  lemma ReadsKeepMemory(w: Bus, c: Cpu, op: Op, mode: Mode)
    requires Reads(op)
    ensures Exec(w, c, op, mode).m == c.m
  {
  }

  lemma OthersKeepMemory(w: Bus, c: Cpu, op: Op, mode: Mode)
    requires !Modifies(op) && !Stores(op) && !op.JSR? && !Reads(op)
    ensures Exec(w, c, op, mode).m == c.m
  {
  }

  lemma ExecKeepsMemory(w: Bus, c: Cpu, op: Op, mode: Mode)
    requires !Modifies(op) && !Stores(op) && !op.JSR?
    ensures Exec(w, c, op, mode).m == c.m
  {
    if Reads(op) { ReadsKeepMemory(w, c, op, mode); } else { OthersKeepMemory(w, c, op, mode); }
  }

  lemma ModifyStores(w: Bus, c: Cpu, mode: Mode, val: Byte, carry: bool)
    ensures Modify(w, c, mode, val, carry).m == StoreBack(w, c, mode, val).m
  {
  }

  lemma ModifiedStores(w: Bus, c: Cpu, op: Op, mode: Mode)
    ensures Modified(w, c, op, mode).m
            == StoreBack(w, c, mode, Changed(c, op, Operand(c, mode))).m
  {
    var b := Operand(c, mode);
    ModifyStores(w, c, mode, Changed(c, op, b), CarryOut(c, op, b));
  }

  lemma ExecModifies(w: Bus, c: Cpu, op: Op, mode: Mode)
    requires Modifies(op)
    ensures Exec(w, c, op, mode).m == StoreBack(w, c, mode, Changed(c, op, Operand(c, mode))).m
  {
    ModifiedStores(w, c, op, mode);
  }

  function Stored(c: Cpu, op: Op): Byte {
    if op.STX? then c.x else if op.STY? then c.y else if op.PHP? then ToByte(c.p) else c.a
  }

  lemma ExecStores(w: Bus, c: Cpu, op: Op, mode: Mode)
    requires Stores(op)
    ensures Exec(w, c, op, mode).m
            == if op.PHA? || op.PHP? then Push(w, c, Stored(c, op)).m
               else Put(w, c, mode, Stored(c, op)).m
  {
  }

  lemma ExecInRange(w: Bus, c: Cpu, op: Op, mode: Mode)
    requires KeepsRange(w) && InRange(c.m)
    ensures InRange(Exec(w, c, op, mode).m)
  {
    if Modifies(op) {
      ExecModifies(w, c, op, mode);
      StoreInRange(w, c, mode, Changed(c, op, Operand(c, mode)));
    } else if Stores(op) {
      ExecStores(w, c, op, mode);
      StoreInRange(w, c, mode, Stored(c, op));
    } else if op.JSR? {
      CallInRange(w, c);
    } else {
      ExecKeepsMemory(w, c, op, mode);
    }
  }

  /** Whatever instruction a program executes, the synthesizer stays in its ranges. */
  lemma StepInRange(decode: Decode, c: Cpu)
    requires InRange(c.m)
    ensures InRange(Step(decode, c).m)
  {
    WriteKeepsRange();
    ExecInRange(Write, Skip(c, 1), OpAt(decode, c), ModeAt(decode, c));
  }
}
