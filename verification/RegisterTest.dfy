/** The AVR register tests: endless assembly programs that fill r0..r30 with
    known values, yield, and compare, reporting any difference in xRegTestError.

    All programs have the shape of the two in the source and differ only in
    their base: register i is expected to hold base + i, and r31 is a scratch
    register left holding base + 15 across the yield.  The programs run under a
    scheduler that may preempt at any instruction boundary; while no test task
    runs, the kernel and other tasks may leave anything in the live registers. */
module RegisterTest {

  type Byte = b: nat | b < 256

  /** A base whose 31 expected values are all bytes. */
  type Base = b: nat | b + 30 < 256

  datatype Instr =
    | Ldi(d: nat, k: Byte)
    | Mov(d: nat, r: nat)
    | Yield
    | Cpi(d: nat, k: Byte)
    | Breq(target: nat)
    | Cpse(d: nat, r: nat)
    | Sts(r: nat)
    | Jump(target: nat)

  // Program positions.  A task that has yielded rests at YIELDED, between the
  // call of taskYIELD and the first comparison.
  const YIELD_AT: nat := 47
  const YIELDED: nat := 48
  const CHECK: nat := 49
  const LOOP_END: nat := 145

  /** The program text. */
  function Fetch(base: Base, pc: nat): Instr
    requires pc <= LOOP_END && pc != YIELDED
  {
    if pc < 32 then
      if pc % 2 == 0 then Ldi(31, base + pc / 2) else Mov(pc / 2, 31)
    else if pc < YIELD_AT then Ldi(pc - 16, base + (pc - 16))
    else if pc == YIELD_AT then Yield
    else if pc == CHECK then Cpi(31, base + 15)
    else if pc == 50 then Breq(52)
    else if pc == 51 then Sts(0)
    else if pc == LOOP_END then Jump(0)
    else
      var i := (pc - 52) / 3;
      if (pc - 52) % 3 == 0 then Ldi(31, base + i)
      else if (pc - 52) % 3 == 1 then Cpse(31, i)
      else Sts(0)
  }

  /** What a context switch saves: the registers, the zero flag and the program position. */
  datatype Context = Context(regs: seq<Byte>, z: bool, pc: nat)
  {
    ghost predicate Valid() { |regs| == 32 && pc <= LOOP_END }
  }

  /** One instruction of a task other than the yield itself: the new context and xRegTestError. */
  function Execute(base: Base, c: Context, error: Byte): (r: (Context, Byte))
    requires c.Valid() && c.pc != YIELDED && c.pc != YIELD_AT
    ensures r.0.Valid() && r.0.pc != YIELDED
  {
    match Fetch(base, c.pc)
    case Ldi(d, k) => (c.(regs := c.regs[d := k], pc := c.pc + 1), error)
    case Mov(d, r) => (c.(regs := c.regs[d := c.regs[r]], pc := c.pc + 1), error)
    case Cpi(d, k) => (c.(z := c.regs[d] == k, pc := c.pc + 1), error)
    case Breq(target) => (c.(pc := if c.z then target else c.pc + 1), error)
    case Cpse(d, r) => (c.(pc := if c.regs[d] == c.regs[r] then c.pc + 2 else c.pc + 1), error)
    case Sts(r) => (c.(pc := c.pc + 1), c.regs[r])
    case Jump(target) => (c.(pc := target), error)
    case Yield => assert false; (c, error)
  }

  // ---------- the system ----------

  datatype Option<T> = None | Some(value: T)

  datatype Machine = Machine(live: Context, running: Option<nat>, saved: seq<Context>, error: Byte)
  {
    ghost predicate Valid(bases: seq<Base>) {
      && |saved| == |bases|
      && live.Valid()
      && (running.Some? ==> running.value < |saved| && live.pc != YIELDED)
      && forall t :: 0 <= t < |saved| ==> saved[t].Valid()
    }

    /** The context task t will continue from. */
    function ContextOf(t: nat): Context
      requires t < |saved|
    {
      if running == Some(t) then live else saved[t]
    }
  }

  datatype Event =
    | Exec                                        // the running task executes one instruction
    | Preempt                                     // the running task is switched out
    | Restore(task: nat)                          // a faithful switch into a task
    | FaultyRestore(task: nat, regs: seq<Byte>)   // a switch out of a yield that hands back other registers
    | Elsewhere(live: Context)                    // other code uses the processor

  /** The effect of an event; an event that cannot happen has no effect. */
  function Step(bases: seq<Base>, m: Machine, e: Event): (r: Machine)
    requires m.Valid(bases)
    ensures r.Valid(bases)
  {
    match e
    case Exec =>
      if m.running.None? then m
      else if m.live.pc == YIELD_AT then
        m.(saved := m.saved[m.running.value := m.live.(pc := YIELDED)], running := None)
      else
        var (live, error) := Execute(bases[m.running.value], m.live, m.error);
        m.(live := live, error := error)
    case Preempt =>
      if m.running.None? then m
      else m.(saved := m.saved[m.running.value := m.live], running := None)
    case Restore(t) =>
      if m.running.Some? || t >= |m.saved| then m
      else m.(live := Resumed(m.saved[t], m.saved[t].regs), running := Some(t))
    case FaultyRestore(t, regs) =>
      if m.running.Some? || t >= |m.saved| || m.saved[t].pc != YIELDED || |regs| != 32 then m
      else m.(live := Resumed(m.saved[t], regs), running := Some(t))
    case Elsewhere(live) =>
      if m.running.Some? || !(|live.regs| == 32 && live.pc <= LOOP_END) then m
      else m.(live := live)
  }

  function Resumed(c: Context, regs: seq<Byte>): Context {
    Context(regs, c.z, if c.pc == YIELDED then CHECK else c.pc)
  }

  function Run(bases: seq<Base>, m: Machine, es: seq<Event>): (r: Machine)
    requires m.Valid(bases)
    ensures r.Valid(bases)
    decreases |es|
  {
    if es == [] then m else Run(bases, Step(bases, m, es[0]), es[1..])
  }

  /** vStartRegTestTasks: every task is at its first instruction with
      unspecified registers, and no error is recorded. */
  ghost predicate Started(bases: seq<Base>, m: Machine) {
    && m.Valid(bases) && m.running.None? && m.error == 0
    && forall t :: 0 <= t < |m.saved| ==> m.saved[t].pc == 0
  }

  predicate AreRegTestTasksStillRunning(m: Machine) { m.error == 0 }

  // ---------- soundness ----------

  /** How many registers hold their expected value when control is at pc. */
  function Loaded(pc: nat): nat {
    if pc < 32 then pc / 2 else if pc < YIELDED then pc - 16 else 31
  }

  /** What holds of an undisturbed task's context at each program position;
      positions 51 and every third one after are the error reports. */
  ghost predicate Undisturbed(base: Base, c: Context) {
    && c.Valid()
    && (forall i :: 0 <= i < Loaded(c.pc) ==> c.regs[i] == base + i)
    && (c.pc < 32 && c.pc % 2 == 1 ==> c.regs[31] == base + c.pc / 2)
    && (32 <= c.pc <= CHECK ==> c.regs[31] == base + 15)
    && (c.pc == 50 ==> c.z)
    && c.pc != 51
    && (52 <= c.pc < LOOP_END ==>
          && ((c.pc - 52) % 3 == 1 ==> c.regs[31] == base + (c.pc - 52) / 3)
          && (c.pc - 52) % 3 != 2)
  }

  lemma ExecuteUndisturbedLoad(base: Base, c: Context, error: Byte)
    requires Undisturbed(base, c) && c.pc != YIELDED && c.pc != YIELD_AT && c.pc < 52
    ensures Undisturbed(base, Execute(base, c, error).0) && Execute(base, c, error).1 == error
  {}

  lemma ExecuteUndisturbedCheck(base: Base, c: Context, error: Byte)
    requires Undisturbed(base, c) && 52 <= c.pc
    ensures Undisturbed(base, Execute(base, c, error).0) && Execute(base, c, error).1 == error
  {}

  ghost predicate AllUndisturbed(bases: seq<Base>, m: Machine) {
    && m.Valid(bases)
    && forall t :: 0 <= t < |bases| ==> Undisturbed(bases[t], m.ContextOf(t))
  }

  lemma StepUndisturbed(bases: seq<Base>, m: Machine, e: Event)
    requires AllUndisturbed(bases, m) && !e.FaultyRestore?
    ensures AllUndisturbed(bases, Step(bases, m, e)) && Step(bases, m, e).error == m.error
  {
    if e == Exec && m.running.Some? && m.live.pc != YIELD_AT {
      assert Undisturbed(bases[m.running.value], m.ContextOf(m.running.value));
      if m.live.pc < 52 {
        ExecuteUndisturbedLoad(bases[m.running.value], m.live, m.error);
      } else {
        ExecuteUndisturbedCheck(bases[m.running.value], m.live, m.error);
      }
    }
    var next := Step(bases, m, e);
    forall t | 0 <= t < |bases|
      ensures Undisturbed(bases[t], next.ContextOf(t))
    {
      assert Undisturbed(bases[t], m.ContextOf(t));
    }
  }

  lemma {:induction false} RunUndisturbed(bases: seq<Base>, m: Machine, es: seq<Event>)
    requires AllUndisturbed(bases, m) && forall e :: e in es ==> !e.FaultyRestore?
    ensures AllUndisturbed(bases, Run(bases, m, es)) && Run(bases, m, es).error == m.error
    decreases |es|
  {
    if es != [] {
      StepUndisturbed(bases, m, es[0]);
      RunUndisturbed(bases, Step(bases, m, es[0]), es[1..]);
    }
  }

  /** Whatever the interleaving, faithful context switches never raise the error. */
  lemma Sound(bases: seq<Base>, m: Machine, es: seq<Event>)
    requires Started(bases, m) && forall e :: e in es ==> !e.FaultyRestore?
    ensures AreRegTestTasksStillRunning(Run(bases, m, es))
  {
    forall t | 0 <= t < |bases|
      ensures Undisturbed(bases[t], m.ContextOf(t))
    {
      assert m.saved[t].pc == 0;
    }
    RunUndisturbed(bases, m, es);
  }

  // ---------- progress ----------

  /** A bound on the instructions a task still executes up to and including its
      next yield; one whole pass has 145. */
  function Left(pc: nat): nat
    requires pc <= LOOP_END
  {
    if pc < YIELDED then YIELDED - pc
    else if pc == YIELDED then 145
    else LOOP_END - pc + 1 + YIELDED
  }

  lemma ExecuteAdvances(base: Base, c: Context, error: Byte)
    requires c.Valid() && c.pc != YIELDED && c.pc != YIELD_AT
    ensures Left(Execute(base, c, error).0.pc) < Left(c.pc)
  {}

  /** Each instruction a task executes brings it closer to its yield, and at the
      yield its context is saved; nothing else moves it, except that a switch
      makes it go on behind the yield. */
  lemma StepLeft(bases: seq<Base>, m: Machine, e: Event, t: nat)
    requires m.Valid(bases) && t < |bases|
    ensures var r := Step(bases, m, e);
            if e == Exec && m.running == Some(t) then
              if Left(m.live.pc) == 1
              then r.running == None && r.saved[t] == Context(m.live.regs, m.live.z, YIELDED)
              else Left(r.ContextOf(t).pc) < Left(m.ContextOf(t).pc) && r.running == Some(t)
            else
              && Left(r.ContextOf(t).pc) == Left(m.ContextOf(t).pc)
              && (!e.FaultyRestore? ==>
                    r.ContextOf(t).regs == m.ContextOf(t).regs && r.ContextOf(t).z == m.ContextOf(t).z)
  {
    if e == Exec && m.running == Some(t) && m.live.pc != YIELD_AT {
      ExecuteAdvances(bases[t], m.live, m.error);
    }
  }

  ghost predicate OnlyElsewhere(es: seq<Event>) {
    forall e :: e in es ==> e.Elsewhere?
  }

  lemma {:induction false} ElsewhereKeeps(bases: seq<Base>, m: Machine, es: seq<Event>)
    requires m.Valid(bases) && m.running.None? && OnlyElsewhere(es)
    ensures Run(bases, m, es) == m.(live := Run(bases, m, es).live)
    decreases |es|
  {
    if es != [] {
      assert es[0].Elsewhere?;
      ElsewhereKeeps(bases, Step(bases, m, es[0]), es[1..]);
    }
  }

  /** A preempted task, restored after anything has used the processor in between,
      goes on with the registers, the flag and the position it had; one that has
      yielded goes on behind its yield. */
  lemma SwitchRoundTrip(bases: seq<Base>, m: Machine, between: seq<Event>, t: nat)
    requires m.Valid(bases) && m.running == Some(t) && OnlyElsewhere(between)
    ensures var r := Step(bases, Run(bases, Step(bases, m, Preempt), between), Restore(t));
            r.live == m.live && r.running == Some(t) && r.error == m.error
    ensures m.live.pc == YIELD_AT ==>
              var r := Step(bases, Run(bases, Step(bases, m, Exec), between), Restore(t));
              r.live == m.live.(pc := CHECK) && r.running == Some(t) && r.error == m.error
  {
    ElsewhereKeeps(bases, Step(bases, m, Preempt), between);
    if m.live.pc == YIELD_AT { ElsewhereKeeps(bases, Step(bases, m, Exec), between); }
  }

  /** What other code leaves in the registers is there until the next switch, and
      a faulty switch hands back exactly what it says, flag and position apart. */
  lemma OthersUse(bases: seq<Base>, m: Machine, c: Context, t: nat, regs: seq<Byte>)
    requires m.Valid(bases) && m.running.None? && c.Valid() && t < |m.saved| && |regs| == 32
    ensures Step(bases, m, Elsewhere(c)) == m.(live := c)
    ensures m.saved[t].pc == YIELDED ==>
              Step(bases, m, FaultyRestore(t, regs)) ==
              m.(live := Context(regs, m.saved[t].z, CHECK), running := Some(t))
  {}

  /** The instructions that task t executes in a run. */
  function OwnSteps(bases: seq<Base>, m: Machine, es: seq<Event>, t: nat): nat
    requires m.Valid(bases)
    decreases |es|
  {
    if es == [] then 0
    else (if es[0] == Exec && m.running == Some(t) then 1 else 0) + OwnSteps(bases, Step(bases, m, es[0]), es[1..], t)
  }

  /** At some moment of the run task t yields, and is saved behind its yield with
      every register as its program loads it. */
  ghost predicate Yields(bases: seq<Base>, m: Machine, es: seq<Event>, t: nat)
    requires m.Valid(bases) && t < |bases|
    decreases |es|
  {
    es != [] &&
    var next := Step(bases, m, es[0]);
    || (es[0] == Exec && m.running == Some(t) && next.running == None
        && next.saved[t].pc == YIELDED && !Corrupted(bases[t], next.saved[t].regs))
    || Yields(bases, next, es[1..], t)
  }

  lemma {:induction false} YieldsWithin(bases: seq<Base>, m: Machine, es: seq<Event>, t: nat)
    requires EarlyUndisturbed(bases, m) && t < |bases|
    requires Left(m.ContextOf(t).pc) <= OwnSteps(bases, m, es, t)
    ensures Yields(bases, m, es, t)
    decreases |es|
  {
    var next := Step(bases, m, es[0]);
    StepLeft(bases, m, es[0], t);
    StepEarly(bases, m, es[0]);
    if es[0] == Exec && m.running == Some(t) && Left(m.live.pc) == 1 {
      assert next.ContextOf(t) == next.saved[t];
    } else {
      YieldsWithin(bases, next, es[1..], t);
    }
  }

  /** After any run, faults included, a task that goes on executing yields within
      one pass, all its registers freshly loaded: so every check is followed by
      another one. */
  lemma YieldsAgain(bases: seq<Base>, m: Machine, before: seq<Event>, t: nat, es: seq<Event>)
    requires Started(bases, m) && t < |bases|
    requires 145 <= OwnSteps(bases, Run(bases, m, before), es, t)
    ensures Yields(bases, Run(bases, m, before), es, t)
  {
    StartedEarly(bases, m);
    RunEarly(bases, m, before);
    YieldsWithin(bases, Run(bases, m, before), es, t);
  }

  // ---------- detection ----------

  ghost predicate DiffersFrom(base: Base, regs: seq<Byte>, i: nat)
    requires |regs| == 32
  {
    exists j :: i <= j < 31 && regs[j] != base + j
  }

  /** The registers are not the ones the program expects after the yield. */
  ghost predicate Corrupted(base: Base, regs: seq<Byte>)
    requires |regs| == 32
  {
    regs[31] != base + 15 || DiffersFrom(base, regs, 0)
  }

  /** The rest of the current check is bound to reach an error report. */
  ghost predicate WillReport(base: Base, c: Context)
    requires c.Valid()
  {
    && CHECK <= c.pc < LOOP_END
    && if c.pc == CHECK then Corrupted(base, c.regs)
       else if c.pc == 50 then !c.z || DiffersFrom(base, c.regs, 0)
       else if c.pc == 51 || (c.pc - 52) % 3 == 2 then true
       else
         var i := (c.pc - 52) / 3;
         DiffersFrom(base, c.regs, i) && ((c.pc - 52) % 3 == 1 ==> c.regs[31] == base + i)
  }

  /** r0 holds a non-zero value whenever control is past its load. */
  ghost predicate ZeroFree(c: Context)
    requires c.Valid()
  {
    c.pc >= 2 ==> c.regs[0] != 0
  }

  lemma ExecuteKeepsR0(base: Base, c: Context, error: Byte)
    requires c.Valid() && c.pc != YIELDED && c.pc != YIELD_AT && base > 0
    requires ZeroFree(c) && (c.pc == 1 ==> c.regs[31] != 0)
    ensures var r := Execute(base, c, error);
            ZeroFree(r.0) && (r.0.pc == 1 ==> r.0.regs[31] != 0) && (error != 0 ==> r.1 != 0)
  {}

  /** A check that is about to load the value for register i finds a difference
      from i on, or passes over register i, or reports. */
  lemma ExecuteReports(base: Base, c: Context, error: Byte, i: nat)
    requires c.Valid() && WillReport(base, c) && i < 31 && 52 + 3 * i <= c.pc < 54 + 3 * i
    ensures WillReport(base, Execute(base, c, error).0)
  {
    CheckText(base, c, error, i);
    var r := Execute(base, c, error).0;
    assert (c.pc - 52) / 3 == i;
    var j :| i <= j < 31 && c.regs[j] != base + j;
    assert r.regs[j] != base + j;
    if c.pc == 53 + 3 * i && c.regs[31] == c.regs[i] {
      assert (r.pc - 52) / 3 == i + 1 && i + 1 <= j;
    }
  }

  lemma ExecuteZeroFree(base: Base, c: Context, error: Byte)
    requires c.Valid() && c.pc != YIELDED && c.pc != YIELD_AT && base > 0
    requires ZeroFree(c) && (c.pc == 1 ==> c.regs[31] != 0)
    ensures var r := Execute(base, c, error);
            && ZeroFree(r.0) && (r.0.pc == 1 ==> r.0.regs[31] != 0)
            && (error != 0 ==> r.1 != 0)
            && (WillReport(base, c) ==> WillReport(base, r.0) || r.1 != 0)
  {
    ExecuteKeepsR0(base, c, error);
    if WillReport(base, c) && 52 <= c.pc && (c.pc - 52) % 3 != 2 {
      ExecuteReports(base, c, error, (c.pc - 52) / 3);
    }
  }

  /** What every run keeps, as long as no switch hands back a zero r0. */
  ghost predicate Watchful(bases: seq<Base>, m: Machine) {
    && m.Valid(bases)
    && forall t :: 0 <= t < |bases| ==>
         bases[t] > 0 && ZeroFree(m.ContextOf(t)) && (m.ContextOf(t).pc == 1 ==> m.ContextOf(t).regs[31] != 0)
  }

  ghost predicate NonZeroFault(e: Event) {
    e.FaultyRestore? && |e.regs| == 32 ==> e.regs[0] != 0
  }

  lemma StepWatchful(bases: seq<Base>, m: Machine, e: Event)
    requires Watchful(bases, m) && NonZeroFault(e)
    ensures Watchful(bases, Step(bases, m, e))
    ensures m.error != 0 ==> Step(bases, m, e).error != 0
    ensures forall t :: 0 <= t < |bases| && WillReport(bases[t], m.ContextOf(t)) ==>
      WillReport(bases[t], Step(bases, m, e).ContextOf(t)) || Step(bases, m, e).error != 0
  {
    var next := Step(bases, m, e);
    if e == Exec && m.running.Some? && m.live.pc != YIELD_AT {
      var t := m.running.value;
      assert m.ContextOf(t) == m.live;
      ExecuteZeroFree(bases[t], m.live, m.error);
    }
    forall t | 0 <= t < |bases|
      ensures ZeroFree(next.ContextOf(t)) && (next.ContextOf(t).pc == 1 ==> next.ContextOf(t).regs[31] != 0)
      ensures WillReport(bases[t], m.ContextOf(t)) ==> WillReport(bases[t], next.ContextOf(t)) || next.error != 0
    {
      assert ZeroFree(m.ContextOf(t));
    }
  }

  lemma {:induction false} RunWatchful(bases: seq<Base>, m: Machine, es: seq<Event>, t: nat)
    requires Watchful(bases, m) && t < |bases| && forall e :: e in es ==> NonZeroFault(e)
    ensures Watchful(bases, Run(bases, m, es))
    ensures m.error != 0 ==> Run(bases, m, es).error != 0
    ensures WillReport(bases[t], m.ContextOf(t)) || m.error != 0 ==>
      WillReport(bases[t], Run(bases, m, es).ContextOf(t)) || Run(bases, m, es).error != 0
    decreases |es|
  {
    if es != [] {
      StepWatchful(bases, m, es[0]);
      RunWatchful(bases, Step(bases, m, es[0]), es[1..], t);
    }
  }

  lemma StartedWatchful(bases: seq<Base>, m: Machine)
    requires Started(bases, m) && forall t :: 0 <= t < |bases| ==> bases[t] > 0
    ensures Watchful(bases, m)
  {
    forall t | 0 <= t < |bases|
      ensures ZeroFree(m.ContextOf(t)) && m.ContextOf(t).pc == 0
    {
      assert m.saved[t].pc == 0;
    }
  }

  /** A task that has not yet been resumed in its current pass holds what its
      program has loaded, whatever earlier switches handed back to it. */
  ghost predicate EarlyUndisturbed(bases: seq<Base>, m: Machine) {
    && m.Valid(bases)
    && forall t :: 0 <= t < |bases| && m.ContextOf(t).pc <= YIELDED ==> Undisturbed(bases[t], m.ContextOf(t))
  }

  lemma ExecuteEarly(base: Base, c: Context, error: Byte)
    requires c.Valid() && c.pc != YIELDED && c.pc != YIELD_AT && (c.pc < YIELDED ==> Undisturbed(base, c))
    ensures Execute(base, c, error).0.pc <= YIELDED ==> Undisturbed(base, Execute(base, c, error).0)
  {
    if c.pc < YIELDED {
      ExecuteUndisturbedLoad(base, c, error);
    } else if c.pc < LOOP_END {
      assert Execute(base, c, error).0.pc > c.pc;
    }
  }

  lemma StepEarlyOne(bases: seq<Base>, m: Machine, e: Event, t: nat)
    requires m.Valid(bases) && t < |bases|
    requires m.ContextOf(t).pc <= YIELDED ==> Undisturbed(bases[t], m.ContextOf(t))
    ensures var c := Step(bases, m, e).ContextOf(t); c.pc <= YIELDED ==> Undisturbed(bases[t], c)
  {
    if e == Exec && m.running == Some(t) {
      if m.live.pc != YIELD_AT { ExecuteEarly(bases[t], m.live, m.error); }
    }
  }

  lemma StepEarly(bases: seq<Base>, m: Machine, e: Event)
    requires EarlyUndisturbed(bases, m)
    ensures EarlyUndisturbed(bases, Step(bases, m, e))
  {
    var next := Step(bases, m, e);
    forall t | 0 <= t < |bases| && next.ContextOf(t).pc <= YIELDED
      ensures Undisturbed(bases[t], next.ContextOf(t))
    {
      StepEarlyOne(bases, m, e, t);
    }
  }

  lemma {:induction false} RunEarly(bases: seq<Base>, m: Machine, es: seq<Event>)
    requires EarlyUndisturbed(bases, m)
    ensures EarlyUndisturbed(bases, Run(bases, m, es))
    decreases |es|
  {
    if es != [] {
      StepEarly(bases, m, es[0]);
      RunEarly(bases, Step(bases, m, es[0]), es[1..]);
    }
  }

  lemma StartedEarly(bases: seq<Base>, m: Machine)
    requires Started(bases, m)
    ensures EarlyUndisturbed(bases, m)
  {
    forall u | 0 <= u < |bases|
      ensures Undisturbed(bases[u], m.ContextOf(u))
    {
      assert m.saved[u].pc == 0;
    }
  }

  /** What a task saves at its yield is the expected value of every register. */
  lemma SavedAtYield(bases: seq<Base>, m: Machine, es: seq<Event>, t: nat)
    requires Started(bases, m) && t < |bases|
    ensures var at := Run(bases, m, es);
            at.saved[t].pc == YIELDED && at.running != Some(t) ==> !Corrupted(bases[t], at.saved[t].regs)
  {
    StartedEarly(bases, m);
    RunEarly(bases, m, es);
    assert Run(bases, m, es).running != Some(t) ==> Run(bases, m, es).ContextOf(t) == Run(bases, m, es).saved[t];
  }

  lemma CorruptedIfOther(base: Base, saved: seq<Byte>, regs: seq<Byte>)
    requires |saved| == |regs| == 32 && !Corrupted(base, saved) && regs != saved
    ensures Corrupted(base, regs)
  {
    var i :| 0 <= i < 32 && regs[i] != saved[i];
    assert i < 31 ==> saved[i] == base + i;
  }

  /** A switch that hands back registers other than the ones saved at the yield,
      r0 not being zero, is detected: after any run of non-zero faults, once the
      task has left that check the error is recorded, and it stays so. */
  lemma Detected(bases: seq<Base>, m: Machine, before: seq<Event>, t: nat, regs: seq<Byte>,
                 after: seq<Event>, later: seq<Event>)
    requires Started(bases, m) && forall u :: 0 <= u < |bases| ==> bases[u] > 0
    requires forall e :: e in before || e in after || e in later ==> NonZeroFault(e)
    requires t < |bases| && |regs| == 32 && regs[0] != 0
    requires var at := Run(bases, m, before);
             at.running.None? && at.saved[t].pc == YIELDED && regs != at.saved[t].regs
    ensures var at := Step(bases, Run(bases, m, before), FaultyRestore(t, regs));
            var end := Run(bases, at, after);
            !(CHECK <= end.ContextOf(t).pc < LOOP_END) ==>
              !AreRegTestTasksStillRunning(end) && !AreRegTestTasksStillRunning(Run(bases, end, later))
  {
    StartedWatchful(bases, m);
    RunWatchful(bases, m, before, t);
    SavedAtYield(bases, m, before, t);
    var at := Run(bases, m, before);
    CorruptedIfOther(bases[t], at.saved[t].regs, regs);
    var fault := FaultyRestore(t, regs);
    StepWatchful(bases, at, fault);
    var next := Step(bases, at, fault);
    assert next.ContextOf(t).pc == CHECK && next.ContextOf(t).regs == regs;
    RunWatchful(bases, next, after, t);
    RunWatchful(bases, Run(bases, next, after), later, t);
  }

  /** A recorded error stays recorded while every faulty r0 is non-zero. */
  lemma ErrorStays(bases: seq<Base>, m: Machine, es: seq<Event>)
    requires Watchful(bases, m) && !AreRegTestTasksStillRunning(m) && bases != []
    requires forall e :: e in es ==> NonZeroFault(e)
    ensures !AreRegTestTasksStillRunning(Run(bases, m, es))
  {
    RunWatchful(bases, m, es, 0);
  }

  // ---------- exactly what one check reports ----------

  /** A task's check from position c.pc to the end of the loop body. */
  function Check(base: Base, c: Context, error: Byte): Byte
    requires c.Valid() && CHECK <= c.pc
    decreases LOOP_END - c.pc
  {
    if c.pc == LOOP_END then error
    else
      var (next, error') := Execute(base, c, error);
      Check(base, next, error')
  }

  lemma CheckText(base: Base, c: Context, error: Byte, i: nat)
    requires c.Valid() && i < 31
    ensures c.pc == 52 + 3 * i ==>
      Execute(base, c, error) == (c.(regs := c.regs[31 := base + i], pc := c.pc + 1), error)
    ensures c.pc == 53 + 3 * i ==>
      Execute(base, c, error) == (c.(pc := if c.regs[31] == c.regs[i] then c.pc + 2 else c.pc + 1), error)
    ensures c.pc == 54 + 3 * i ==> Execute(base, c, error) == (c.(pc := c.pc + 1), c.regs[0])
  {}

  lemma CheckStep(base: Base, c: Context, error: Byte, next: Context, error': Byte)
    requires c.Valid() && CHECK <= c.pc < LOOP_END && Execute(base, c, error) == (next, error')
    ensures next.Valid() && CHECK <= next.pc && Check(base, c, error) == Check(base, next, error')
  {}

  /** The three instructions that check register i. */
  lemma CheckOne(base: Base, c: Context, error: Byte, i: nat)
    requires c.Valid() && i < 31 && c.pc == 52 + 3 * i
    ensures Check(base, c, error) ==
            Check(base, c.(regs := c.regs[31 := base + i], pc := c.pc + 3),
                  if c.regs[i] == base + i then error else c.regs[0])
  {
    var loaded := c.(regs := c.regs[31 := base + i], pc := c.pc + 1);
    var report := loaded.(pc := c.pc + 2);
    var done := loaded.(pc := c.pc + 3);
    CheckText(base, c, error, i);
    CheckText(base, loaded, error, i);
    CheckText(base, report, error, i);
    CheckStep(base, c, error, loaded, error);
    if c.regs[i] == base + i {
      CheckStep(base, loaded, error, done, error);
    } else {
      CheckStep(base, loaded, error, report, error);
      CheckStep(base, report, error, done, c.regs[0]);
    }
  }

  lemma {:induction false} CheckFrom(base: Base, c: Context, error: Byte, i: nat)
    requires c.Valid() && i <= 31 && c.pc == 52 + 3 * i
    ensures Check(base, c, error) == if DiffersFrom(base, c.regs, i) then c.regs[0] else error
    decreases 31 - i
  {
    if i < 31 {
      CheckOne(base, c, error, i);
      var next := c.(regs := c.regs[31 := base + i], pc := c.pc + 3);
      CheckFrom(base, next, if c.regs[i] == base + i then error else c.regs[0], i + 1);
      assert forall j :: 0 <= j < 31 ==> next.regs[j] == c.regs[j];
      assert DiffersFrom(base, c.regs, i) <==> c.regs[i] != base + i || DiffersFrom(base, next.regs, i + 1);
    }
  }

  /** One whole check stores r0 when any register differs and stores nothing
      otherwise.  So it reports a corruption exactly when r0 is not zero. */
  lemma CheckStoresR0(base: Base, c: Context, error: Byte)
    requires c.Valid() && c.pc == CHECK
    ensures Check(base, c, error) == if Corrupted(base, c.regs) then c.regs[0] else error
    ensures Corrupted(base, c.regs) ==> (Check(base, c, error) != 0 <==> c.regs[0] != 0)
  {
    var compared := c.(z := c.regs[31] == base + 15, pc := 50);
    var checks := compared.(pc := 52);
    assert Check(base, c, error) == Check(base, compared, error);
    if compared.z {
      CheckFrom(base, checks, error, 0);
      assert Check(base, compared, error) == Check(base, checks, error);
    } else {
      var report := compared.(pc := 51);
      CheckFrom(base, checks, c.regs[0], 0);
      assert Check(base, compared, error) == Check(base, report, error) == Check(base, checks, c.regs[0]);
    }
  }

  /** A zeroed r0 is the one corruption that goes unnoticed, and it even wipes
      out an error recorded before. */
  lemma ZeroedR0Unnoticed(error: Byte)
    ensures var regs := seq(32, i => if i == 0 then 0 else if i == 31 then 20 else 5 + i);
            Corrupted(5, regs) && Check(5, Context(regs, false, CHECK), error) == 0
  {
    var regs := seq(32, i => if i == 0 then 0 else if i == 31 then 20 else 5 + i);
    assert regs[0] != 5 + 0;
    CheckStoresR0(5, Context(regs, false, CHECK), error);
  }

  // ---------- the processor and the kernel's saved contexts ----------

  class System {
    const bases: seq<Base>
    const regs: array<Byte>
    var z: bool
    var pc: nat
    var running: Option<nat>
    var saved: seq<Context>
    var xRegTestError: Byte

    ghost predicate Valid()
      reads this, regs
    {
      regs.Length == 32 && Snapshot().Valid(bases)
    }

    ghost function Snapshot(): Machine
      reads this, regs
    {
      Machine(Context(regs[..], z, pc), running, saved, xRegTestError)
    }

    /** vStartRegTestTasks, for one task per base. */
    constructor (bases: seq<Base>, initial: seq<Byte>)
      requires |initial| == 32
      ensures Valid() && this.bases == bases && fresh(regs) && Started(bases, Snapshot())
    {
      this.bases := bases;
      regs := new Byte[32](i requires 0 <= i < 32 => initial[i]);
      z, pc, running, xRegTestError := false, 0, None, 0;
      saved := seq(|bases|, _ => Context(initial, false, 0));
    }

    method ExecuteInstruction()
      requires Valid() && running.Some? && pc != YIELD_AT
      modifies this, regs
      ensures Valid() && Snapshot() == Step(bases, old(Snapshot()), Exec)
    {
      var pc0 := pc;
      pc := pc + 1;
      match Fetch(bases[running.value], pc0) {
        case Ldi(d, k) => regs[d] := k;
        case Mov(d, r) => regs[d] := regs[r];
        case Cpi(d, k) => z := regs[d] == k;
        case Breq(target) => if z { pc := target; }
        case Cpse(d, r) => if regs[d] == regs[r] { pc := pc + 1; }
        case Sts(r) => xRegTestError := regs[r];
        case Jump(target) => pc := target;
        case Yield => assert false;
      }
    }

    /** A yield or a preemption: the kernel stores the context and leaves the task. */
    method SwitchOut()
      requires Valid() && running.Some?
      modifies this
      ensures Valid()
      ensures Snapshot() == Step(bases, old(Snapshot()), if old(pc) == YIELD_AT then Exec else Preempt)
    {
      var c := Context(regs[..], z, if pc == YIELD_AT then YIELDED else pc);
      saved := saved[running.value := c];
      running := None;
    }

    method SwitchIn(t: nat)
      requires Valid() && running.None? && t < |saved|
      modifies this, regs
      ensures Valid() && Snapshot() == Step(bases, old(Snapshot()), Restore(t))
    {
      var c := saved[t];
      assert c.Valid();
      forall i | 0 <= i < 32 { regs[i] := c.regs[i]; }
      assert regs[..] == c.regs;
      z, pc := c.z, if c.pc == YIELDED then CHECK else c.pc;
      running := Some(t);
    }
  }
}
