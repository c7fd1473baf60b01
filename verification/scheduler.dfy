/**
 * A one-op-per-pulse driver for a compiled program.
 *
 * ASSUMPTION. The body of `Operations::handleClockPulse` is not part of this
 * model; only its declaration is (src/core/hardware/operations.hpp:27). The
 * driver below is the behaviour the jump encoding in op_def.cpp presupposes:
 * when the counter indexes an op, run that op and then add one to the counter;
 * otherwise do nothing. The increment is taken in the `unsigned short`
 * arithmetic of the counter the ops hold (`ushort& op_idx`), so a jump to
 * target 0, which stores 65535, lands on 0 after the increment. With a wider
 * counter the same jump would land on 65536 and the unit would idle.
 */
module Scheduler {
  import opened Ints
  import opened Ops

  /** The state after some pulses, with the effect each pulse asked for, in order. */
  datatype Trace = Trace(cpu: Cpu, effects: seq<Effect>)

  /** One clock pulse of one unit. */
  function Tick(prog: seq<Instr>, s: Cpu): (r: Step)
    ensures |prog| <= s.opIdx ==> r == Step(s, Silent)
    ensures s.opIdx < |prog| && !prog[s.opIdx].IsJump() ==> r.cpu.opIdx == ToUShort(s.opIdx + 1)
    ensures s.opIdx < |prog| ==> r.cpu.regs == Exec(prog[s.opIdx], s).cpu.regs
  {
    if s.opIdx < |prog| then
      var st := Exec(prog[s.opIdx], s);
      Step(st.cpu.(opIdx := ToUShort(st.cpu.opIdx + 1)), st.effect)
    else
      Step(s, Silent)
  }

  /** `n` consecutive pulses; the trace holds one effect per pulse. */
  function Run(prog: seq<Instr>, s: Cpu, n: nat): (r: Trace)
    ensures |r.effects| == n
    decreases n
  {
    if n == 0 then Trace(s, [])
    else
      var st := Tick(prog, s);
      var rest := Run(prog, st.cpu, n - 1);
      Trace(rest.cpu, [st.effect] + rest.effects)
  }

  /**
   * Reference semantics of the ops at indices `i` up to `stop` of a program:
   * run them in order, one after the other, without looking at the counter.
   */
  function ExecRange(prog: seq<Instr>, i: nat, stop: nat, s: Cpu): (r: Trace)
    requires i <= stop <= |prog|
    ensures |r.effects| == stop - i
    decreases stop - i
  {
    if i == stop then Trace(s, [])
    else
      var st := Exec(prog[i], s);
      var rest := ExecRange(prog, i + 1, stop, st.cpu);
      Trace(rest.cpu, [st.effect] + rest.effects)
  }

  predicate NoJumps(prog: seq<Instr>) {
    forall k :: 0 <= k < |prog| ==> !prog[k].IsJump()
  }

  function Min(a: int, b: int): int {
    if a <= b then a else b
  }

  /** A jump op, run by a pulse, leaves the counter on its target, including target 0. */
  lemma JumpLandsOnTarget(prog: seq<Instr>, s: Cpu, target: UShort)
    requires s.opIdx < |prog| && prog[s.opIdx] == MakeJmp(target)
    ensures Tick(prog, s) == Step(s.(opIdx := target), Silent)
  {
  }

  /**
   * What the `unsigned short` increment decides. Read in a counter wide enough
   * not to wrap, such as the `size_t op_idx` of `Operations`, the value a jump
   * to 0 stores, plus one, is 65536: past the end of every program of at most
   * 65536 ops, so the unit would idle instead of restarting at op 0.
   */
  lemma WideCounterJumpToZeroIdles(prog: seq<Instr>, s: Cpu)
    requires |prog| <= UShortModulus
    ensures var stored := Exec(MakeJmp(0), s).cpu.opIdx;
      stored + 1 == UShortModulus && |prog| <= stored + 1
    ensures ToUShort(Exec(MakeJmp(0), s).cpu.opIdx + 1) == 0
  {
  }

  /** A Jnz lands on its target when the flag is clear and falls through, like NoOp, when it is set. */
  lemma JnzPulse(prog: seq<Instr>, s: Cpu, target: UShort)
    requires s.opIdx < |prog| && prog[s.opIdx] == MakeJnz(target)
    ensures !s.zero ==> Tick(prog, s) == Step(s.(opIdx := target), Silent)
    ensures s.zero ==> Tick(prog, s) == Tick(prog[s.opIdx := NoOp], s)
  {
  }

  /** A counter past the end is an idle state that no number of pulses leaves. */
  lemma {:induction false} HaltedStaysHalted(prog: seq<Instr>, s: Cpu, n: nat)
    requires |prog| <= s.opIdx
    ensures Run(prog, s, n).cpu == s
    ensures forall k :: 0 <= k < n ==> Run(prog, s, n).effects[k] == Silent
    decreases n
  {
    if n > 0 {
      HaltedStaysHalted(prog, s, n - 1);
    }
  }

  /** An op that jumps to its own index holds the unit on that index forever. */
  lemma {:induction false} SelfJumpLoops(prog: seq<Instr>, s: Cpu, n: nat)
    requires s.opIdx < |prog| && prog[s.opIdx] == MakeJmp(s.opIdx)
    ensures Run(prog, s, n).cpu == s
    ensures forall k :: 0 <= k < n ==> Run(prog, s, n).effects[k] == Silent
    decreases n
  {
    if n > 0 {
      JumpLandsOnTarget(prog, s, s.opIdx);
      SelfJumpLoops(prog, s, n - 1);
    }
  }

  /** Outside jumps, what an op does to registers, flag and collaborators does not depend on the counter. */
  lemma {:induction false} ExecRangeIgnoresCounter(prog: seq<Instr>, i: nat, stop: nat, s: Cpu, c: UShort)
    requires NoJumps(prog) && i <= stop <= |prog|
    ensures ExecRange(prog, i, stop, s.(opIdx := c)).cpu == ExecRange(prog, i, stop, s).cpu.(opIdx := c)
    ensures ExecRange(prog, i, stop, s.(opIdx := c)).effects == ExecRange(prog, i, stop, s).effects
    decreases stop - i
  {
    if i < stop {
      var st := Exec(prog[i], s);
      assert Exec(prog[i], s.(opIdx := c)) == Step(st.cpu.(opIdx := c), st.effect);
      ExecRangeIgnoresCounter(prog, i + 1, stop, st.cpu, c);
    }
  }

  /** One pulse on a non-jump op runs it and moves the counter to the next index. */
  lemma TickAdvances(prog: seq<Instr>, s: Cpu)
    requires |prog| < UShortModulus
    requires s.opIdx < |prog| && !prog[s.opIdx].IsJump()
    ensures Tick(prog, s) == Step(Exec(prog[s.opIdx], s).cpu.(opIdx := s.opIdx + 1), Exec(prog[s.opIdx], s).effect)
  {
  }

  /**
   * A program without jumps, pulsed `n` times, runs its ops in order: the
   * counter ends at `start + n` or at the end of the program, whichever is
   * smaller, and registers and flag are those of the reference semantics
   * over the ops that ran.
   */
  lemma {:induction false} StraightLineRuns(prog: seq<Instr>, s: Cpu, n: nat)
    requires NoJumps(prog) && |prog| < UShortModulus
    requires s.opIdx <= |prog|
    ensures var stop := Min(s.opIdx + n, |prog|);
      Run(prog, s, n).cpu == ExecRange(prog, s.opIdx, stop, s).cpu.(opIdx := stop)
    decreases n
  {
    var stop := Min(s.opIdx + n, |prog|);
    if n == 0 {
    } else if s.opIdx == |prog| {
      HaltedStaysHalted(prog, s, n);
    } else {
      var i := s.opIdx;
      var st := Exec(prog[i], s);
      TickAdvances(prog, s);
      StraightLineRuns(prog, st.cpu.(opIdx := i + 1), n - 1);
      ExecRangeIgnoresCounter(prog, i + 1, stop, st.cpu, i + 1);
    }
  }

  /**
   * While a jump-free program has ops left, the effects it asks of its
   * collaborators are, pulse by pulse, those of its ops in order.
   */
  lemma {:induction false} StraightLineEffects(prog: seq<Instr>, s: Cpu, n: nat)
    requires NoJumps(prog) && |prog| < UShortModulus
    requires s.opIdx + n <= |prog|
    ensures Run(prog, s, n).effects == ExecRange(prog, s.opIdx, s.opIdx + n, s).effects
    decreases n
  {
    if n > 0 {
      var i := s.opIdx;
      var st := Exec(prog[i], s);
      TickAdvances(prog, s);
      StraightLineEffects(prog, st.cpu.(opIdx := i + 1), n - 1);
      ExecRangeIgnoresCounter(prog, i + 1, i + n, st.cpu, i + 1);
    }
  }
}
