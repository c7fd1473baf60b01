/**
 * The instruction set of the programmable units (src/core/hardware/op_def.cpp).
 *
 * In the source every op is a callable object holding live references into
 * one unit's register file, zero flag and program counter. Here an op is a
 * value of `Instr` that names registers by index, and `Exec` is the single
 * dispatch function that runs it against an explicit `Cpu` state. Source and
 * destination of a register-to-register op may be the same register, exactly
 * as two references to the same cell may be in the source.
 *
 * Assumption: the width of `cpu_word_size` is not part of this model's source;
 * registers are modelled as unsigned words modulo `WordModulus` (16 bits).
 * No property below depends on the particular width.
 */
module Ops {
  import opened Ints

  const WordModulus: int := 0x1_0000

  /** One register value (`cpu_word_size`), assumed unsigned. */
  type Word = v: int | 0 <= v < WordModulus

  /** Unsigned wrap-around of a register result. */
  function Wrap(v: int): (r: Word)
    ensures (r - v) % WordModulus == 0
  {
    v % WordModulus
  }

  /** The two registers of `DualRegisters`. */
  datatype Reg = Acc | Bac

  datatype Registers = Registers(acc: Word, bac: Word) {

    function Read(r: Reg): Word {
      match r
      case Acc => acc
      case Bac => bac
    }

    /** The register file with `r` set to `v`. */
    function Write(r: Reg, v: Word): (rs: Registers)
      ensures rs.Read(r) == v
      ensures forall o :: o != r ==> rs.Read(o) == Read(o)
    {
      match r
      case Acc => this.(acc := v)
      case Bac => this.(bac := v)
    }
  }

  /** The state one unit's ops act on: registers, the shared zero flag and `op_idx`. */
  datatype Cpu = Cpu(regs: Registers, zero: bool, opIdx: UShort)

  /**
   * One bound op. `Jmp` and `Jnz` hold the counter value they store, which the
   * constructors `MakeJmp` and `MakeJnz` derive from the requested target.
   */
  datatype Instr =
    | NoOp
    | LoadConstant(reg: Reg, value: Word)
    | Move(dx: SChar, dy: SChar, speed: ULong)
    | Dig(dx: SChar, dy: SChar, speed: ULong)
    | Copy(src: Reg, dst: Reg)
    | Add(src: Reg, dst: Reg)
    | Sub(src: Reg, dst: Reg)
    | Inc(reg: Reg)
    | Dec(reg: Reg)
    | Jmp(stored: UShort)
    | Jnz(stored: UShort)
  {
    /** The ops that write a register and recompute the zero flag from it. */
    predicate WritesRegister() {
      LoadConstant? || Copy? || Add? || Sub? || Inc? || Dec?
    }

    /** The register such an op writes. */
    function Target(): Reg
      requires WritesRegister()
    {
      if LoadConstant? || Inc? || Dec? then reg else dst
    }

    predicate IsJump() {
      Jmp? || Jnz?
    }
  }

  /** What an op asks of the unit's collaborators: `Map::move_entity` or `handle_dig`. */
  datatype Effect = Silent | MoveBy(dx: SChar, dy: SChar) | DigAt(dx: SChar, dy: SChar)

  datatype Step = Step(cpu: Cpu, effect: Effect)

  /** The value a jump op stores for `target`: one less, in `unsigned short` arithmetic. */
  function PreDecrement(target: UShort): (r: UShort)
    ensures (r + 1) % UShortModulus == target
  {
    ToUShort(target - 1)
  }

  /** `JmpOp(op_idx, new_idx)`: an unconditional jump whose stored value is one step before `target`. */
  function MakeJmp(target: UShort): (i: Instr)
    ensures i.Jmp? && (i.stored + 1) % UShortModulus == target
  {
    Jmp(PreDecrement(target))
  }

  /** `JnzOp(op_idx, new_idx, zero_flag)`: a conditional jump whose stored value is one step before `target`. */
  function MakeJnz(target: UShort): (i: Instr)
    ensures i.Jnz? && (i.stored + 1) % UShortModulus == target
  {
    Jnz(PreDecrement(target))
  }

  /**
   * Runs one op. Every register-writing op sets the zero flag exactly when the
   * register it wrote holds 0 and leaves the other register alone; every other
   * op leaves registers and flag alone; only jumps touch the counter; only
   * Move and Dig ask anything of the collaborators.
   */
  function Exec(i: Instr, s: Cpu): (r: Step)
    ensures i.WritesRegister() ==> r.cpu.zero == (r.cpu.regs.Read(i.Target()) == 0)
    ensures i.WritesRegister() ==> forall o :: o != i.Target() ==> r.cpu.regs.Read(o) == s.regs.Read(o)
    ensures !i.WritesRegister() ==> r.cpu.regs == s.regs && r.cpu.zero == s.zero
    ensures !i.IsJump() ==> r.cpu.opIdx == s.opIdx
    ensures r.effect == Silent <==> !(i.Move? || i.Dig?)
  {
    match i
    case NoOp => Step(s, Silent)
    case LoadConstant(reg, value) =>
      Step(s.(regs := s.regs.Write(reg, value), zero := value == 0), Silent)
    case Move(dx, dy, _) => Step(s, MoveBy(dx, dy))
    case Dig(dx, dy, _) => Step(s, DigAt(dx, dy))
    case Copy(src, dst) =>
      var v := s.regs.Read(src);
      Step(s.(regs := s.regs.Write(dst, v), zero := v == 0), Silent)
    case Add(src, dst) =>
      var v := Wrap(s.regs.Read(dst) + s.regs.Read(src));
      Step(s.(regs := s.regs.Write(dst, v), zero := v == 0), Silent)
    case Sub(src, dst) =>
      var v := Wrap(s.regs.Read(dst) - s.regs.Read(src));
      Step(s.(regs := s.regs.Write(dst, v), zero := v == 0), Silent)
    case Inc(reg) =>
      var v := Wrap(s.regs.Read(reg) + 1);
      Step(s.(regs := s.regs.Write(reg, v), zero := v == 0), Silent)
    case Dec(reg) =>
      var v := Wrap(s.regs.Read(reg) - 1);
      Step(s.(regs := s.regs.Write(reg, v), zero := v == 0), Silent)
    case Jmp(stored) => Step(s.(opIdx := stored), Silent)
    case Jnz(stored) =>
      if s.zero then Step(s, Silent) else Step(s.(opIdx := stored), Silent)
  }

  /** LoadConstant writes `value`, and the flag says whether `value` is 0. */
  lemma LoadConstantSemantics(reg: Reg, value: Word, s: Cpu)
    ensures Exec(LoadConstant(reg, value), s).cpu.regs.Read(reg) == value
    ensures Exec(LoadConstant(reg, value), s).cpu.zero <==> value == 0
    ensures Exec(LoadConstant(reg, value), s).cpu.opIdx == s.opIdx
  {
  }

  /** Copy makes `dst` equal to the old `src`, keeps `src`, and flags a zero source. */
  lemma CopySemantics(src: Reg, dst: Reg, s: Cpu)
    ensures Exec(Copy(src, dst), s).cpu.regs.Read(dst) == s.regs.Read(src)
    ensures Exec(Copy(src, dst), s).cpu.regs.Read(src) == s.regs.Read(src)
    ensures Exec(Copy(src, dst), s).cpu.zero <==> s.regs.Read(src) == 0
  {
  }

  /** Add is addition modulo the word size; adding a register to itself doubles it. */
  lemma AddSemantics(src: Reg, dst: Reg, s: Cpu)
    ensures var d := Exec(Add(src, dst), s).cpu.regs.Read(dst);
      (d - s.regs.Read(dst) - s.regs.Read(src)) % WordModulus == 0
    ensures src == dst ==> Exec(Add(src, dst), s).cpu.regs.Read(dst) == (2 * s.regs.Read(dst)) % WordModulus
  {
  }

  /** Sub is subtraction modulo the word size. */
  lemma SubSemantics(src: Reg, dst: Reg, s: Cpu)
    ensures var d := Exec(Sub(src, dst), s).cpu.regs.Read(dst);
      (d - s.regs.Read(dst) + s.regs.Read(src)) % WordModulus == 0
  {
  }

  /** Subtracting a register from itself always yields 0 and sets the flag. */
  lemma SubSelfClears(r: Reg, s: Cpu)
    ensures Exec(Sub(r, r), s).cpu.regs.Read(r) == 0
    ensures Exec(Sub(r, r), s).cpu.zero
  {
  }

  /** Sub undoes Add for two distinct registers, with wrap-around. */
  lemma AddThenSubRestores(src: Reg, dst: Reg, s: Cpu)
    requires src != dst
    ensures Exec(Sub(src, dst), Exec(Add(src, dst), s).cpu).cpu.regs == s.regs
  {
    var a := Exec(Add(src, dst), s).cpu;
    var d := s.regs.Read(dst);
    var x := s.regs.Read(src);
    assert a.regs.Read(src) == x;
    WrapCancels(d, x);
  }

  /** When the two registers alias, Add then Sub leaves 0 in that register, not its old value. */
  lemma AliasedAddThenSubClears(r: Reg, s: Cpu)
    ensures Exec(Sub(r, r), Exec(Add(r, r), s).cpu).cpu.regs.Read(r) == 0
  {
  }

  /** Dec undoes Inc and Inc undoes Dec, with wrap-around; after each step the flag tracks the register. */
  lemma IncDecRoundTrip(r: Reg, s: Cpu)
    ensures Exec(Dec(r), Exec(Inc(r), s).cpu).cpu.regs == s.regs
    ensures Exec(Inc(r), Exec(Dec(r), s).cpu).cpu.regs == s.regs
    ensures Exec(Inc(r), s).cpu.zero <==> Exec(Inc(r), s).cpu.regs.Read(r) == 0
    ensures Exec(Dec(r), Exec(Inc(r), s).cpu).cpu.zero <==> s.regs.Read(r) == 0
  {
    var v: int := s.regs.Read(r);
    WrapCancels(v, 1);
    WrapCancels(Wrap(v - 1), WordModulus - 1);
    assert Wrap(Wrap(v - 1) + 1) == v;
  }

  /** Adding then subtracting `x` modulo the word size is the identity. */
  lemma WrapCancels(d: Word, x: int)
    ensures Wrap(Wrap(d + x) - x) == d
  {
  }

  /** Jmp stores `target - 1` as an `unsigned short` whatever the flag; target 0 stores 65535. */
  lemma JmpSemantics(target: UShort, s: Cpu)
    ensures Exec(MakeJmp(target), s).cpu == s.(opIdx := (target - 1) % UShortModulus)
    ensures MakeJmp(0).stored == 65535
  {
  }

  /** Jnz falls through when the flag is set and otherwise behaves as Jmp; it never writes a register or the flag. */
  lemma JnzSemantics(target: UShort, s: Cpu)
    ensures s.zero ==> Exec(MakeJnz(target), s).cpu == s
    ensures !s.zero ==> Exec(MakeJnz(target), s) == Exec(MakeJmp(target), s)
  {
  }

  /**
   * NoOp, Move and Dig leave the whole CPU state alone; Move forwards exactly
   * its deltas to the map and its speed is stored but never used.
   */
  lemma InertOps(dx: SChar, dy: SChar, speed: ULong, speed': ULong, s: Cpu)
    ensures Exec(NoOp, s) == Step(s, Silent)
    ensures Exec(Move(dx, dy, speed), s) == Step(s, MoveBy(dx, dy))
    ensures Exec(Dig(dx, dy, speed), s) == Step(s, DigAt(dx, dy))
    ensures Exec(Move(dx, dy, speed), s) == Exec(Move(dx, dy, speed'), s)
    ensures Exec(Dig(dx, dy, speed), s) == Exec(Dig(dx, dy, speed'), s)
  {
  }
}
