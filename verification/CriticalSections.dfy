/** The trace recorder's critical sections on the ARM Cortex-A9 and R5 ports,
    used from interrupt handlers, from the context switch and from tasks.

    The kernel's own primitives underneath are stated here as they behave on
    that port: one interrupt mask, and one nesting count. */
module CriticalSections {

  datatype State = State(masked: bool, nesting: nat)

  // ---------- kernel primitives ----------

  /** Sets the mask; the caller is told whether it was set already. */
  function SetInterruptMask(s: State): (State, bool) { (s.(masked := true), s.masked) }

  function ClearInterruptMask(s: State): State { s.(masked := false) }

  function PortEnterCritical(s: State): State { State(true, s.nesting + 1) }

  /** The last exit unmasks; an exit too many does nothing. */
  function PortExitCritical(s: State): State {
    if s.nesting == 0 then s
    else State(s.masked && s.nesting > 1, s.nesting - 1)
  }

  // ---------- enter and exit ----------

  const NONE: int := 0
  const TASK: int := 1
  const ISR_MASK_CHANGED: int := 2
  const ISR_MASK_NOT_CHANGED: int := 3
  const INVALID: int := 0xFFFFFFFF

  /** The low five bits of the status register say supervisor mode. */
  predicate InIsr(cpsr: nat) { cpsr % 32 == 0x13 }

  /** The interrupt test comes first; the state of the task switch only counts outside. */
  function Enter(s: State, cpsr: nat, inTaskSwitch: bool): (State, int) {
    if InIsr(cpsr) then
      var (r, already) := SetInterruptMask(s);
      (r, if already then ISR_MASK_NOT_CHANGED else ISR_MASK_CHANGED)
    else if inTaskSwitch then (s, NONE)
    else (PortEnterCritical(s), TASK)
  }

  /** The classification in numbers: the low five bits 0x13 are an interrupt's,
      and any others the switch's or a task's. */
  lemma EnterByNumber(s: State, high: nat, mode: nat, inTaskSwitch: bool)
    requires mode < 32
    ensures Enter(s, 32 * high + mode, inTaskSwitch) ==
            if mode == 0x13 then (State(true, s.nesting), if s.masked then 3 else 2)
            else if inTaskSwitch then (s, 0)
            else (State(true, s.nesting + 1), 1)
  {
    LowFive(high, mode);
  }

  lemma LowFive(high: nat, mode: nat)
    requires mode < 32
    ensures (32 * high + mode) % 32 == mode
  {}

  /** Hung is the error loop. */
  datatype Outcome = Back(state: State) | Hung

  function Exit(s: State, csType: int): Outcome {
    if csType == TASK then Back(PortExitCritical(s))
    else if csType == ISR_MASK_CHANGED then Back(ClearInterruptMask(s))
    else if csType == ISR_MASK_NOT_CHANGED || csType == NONE then Back(s)
    else Hung
  }

  /** What each number of a type makes exit do; any other number is an error. */
  lemma ExitByNumber(s: State, csType: int)
    ensures Exit(s, csType) ==
            if csType == 1 then
              Back(if s.nesting == 0 then s
                   else if s.nesting == 1 then State(false, 0)
                   else s.(nesting := s.nesting - 1))
            else if csType == 2 then Back(State(false, s.nesting))
            else if csType == 0 || csType == 3 then Back(s)
            else Hung
  {}

  // ---------- well-bracketed use ----------

  /** Any sequence of enter and exit pairs, nested in any way: a pair entered in
      one context, the pairs inside it, and the pairs after it. */
  datatype Forest = Nothing | Pair(cpsr: nat, inTaskSwitch: bool, inside: Forest, after: Forest)

  function Exec(s: State, f: Forest): Outcome
    decreases f
  {
    match f
    case Nothing => Back(s)
    case Pair(cpsr, inTaskSwitch, inside, after) =>
      var (entered, csType) := Enter(s, cpsr, inTaskSwitch);
      match Exec(entered, inside)
      case Hung => Hung
      case Back(leaving) =>
        match Exit(leaving, csType)
        case Hung => Hung
        case Back(left) => Exec(left, after)
  }

  /** Every exit gives back the mask and the nesting count its enter found. */
  ghost predicate AllRestore(s: State, f: Forest)
    decreases f
  {
    match f
    case Nothing => true
    case Pair(cpsr, inTaskSwitch, inside, after) =>
      var (entered, csType) := Enter(s, cpsr, inTaskSwitch);
      && AllRestore(entered, inside)
      && Exec(entered, inside).Back?
      && Exit(Exec(entered, inside).state, csType) == Back(s)
      && AllRestore(s, after)
  }

  /** What a caller can check on the nesting alone, with the mask and "inside a
      task's critical section" as two flags that each bracket passes inward: a
      task's bracket may only open where the two agree. */
  predicate Agreeing(masked: bool, nested: bool, f: Forest)
    decreases f
  {
    match f
    case Nothing => true
    case Pair(cpsr, inTaskSwitch, inside, after) =>
      && Agreeing(masked, nested, after)
      && if InIsr(cpsr) then Agreeing(true, nested, inside)
         else if inTaskSwitch then Agreeing(masked, nested, inside)
         else masked == nested && Agreeing(true, true, inside)
  }

  /** Whatever the nesting, the error loop is never reached. */
  lemma {:induction false} NeverHangs(s: State, f: Forest)
    ensures Exec(s, f).Back?
    decreases f
  {
    match f
    case Nothing =>
    case Pair(cpsr, inTaskSwitch, inside, after) =>
      var (entered, csType) := Enter(s, cpsr, inTaskSwitch);
      NeverHangs(entered, inside);
      NeverHangs(Exit(Exec(entered, inside).state, csType).state, after);
  }

  lemma {:induction false} RestoredOverall(s: State, f: Forest)
    requires AllRestore(s, f)
    ensures Exec(s, f) == Back(s)
    decreases f
  {
    match f
    case Nothing =>
    case Pair(cpsr, inTaskSwitch, inside, after) =>
      RestoredOverall(s, after);
  }

  /** Critical sections nest exactly when task brackets open in agreement. */
  lemma {:induction false} NestExactly(s: State, f: Forest)
    ensures AllRestore(s, f) <==> Agreeing(s.masked, s.nesting > 0, f)
    decreases f
  {
    match f
    case Nothing =>
    case Pair(cpsr, inTaskSwitch, inside, after) =>
      var (entered, csType) := Enter(s, cpsr, inTaskSwitch);
      NestExactly(entered, inside);
      NestExactly(s, after);
      if AllRestore(entered, inside) { RestoredOverall(entered, inside); }
  }

  // ---------- what a caller has to know ----------

  /** No task's bracket opens inside an interrupt handler's. */
  predicate HandlersOnTop(f: Forest, inHandler: bool)
    decreases f
  {
    match f
    case Nothing => true
    case Pair(cpsr, inTaskSwitch, inside, after) =>
      && HandlersOnTop(after, inHandler)
      && HandlersOnTop(inside, inHandler || InIsr(cpsr))
      && (inHandler ==> InIsr(cpsr) || inTaskSwitch)
  }

  lemma {:induction false} OnTopAgrees(masked: bool, nested: bool, f: Forest, inHandler: bool)
    requires HandlersOnTop(f, inHandler) && (inHandler || masked == nested)
    ensures Agreeing(masked, nested, f)
    decreases f
  {
    match f
    case Nothing =>
    case Pair(cpsr, inTaskSwitch, inside, after) =>
      OnTopAgrees(masked, nested, after, inHandler);
      var handler := inHandler || InIsr(cpsr);
      if InIsr(cpsr) { OnTopAgrees(true, nested, inside, handler); }
      else if inTaskSwitch { OnTopAgrees(masked, nested, inside, handler); }
      else { OnTopAgrees(true, true, inside, handler); }
  }

  /** From a state where the mask is set just when the count is positive, pairs
      used by tasks, the switch and handlers on top of them all restore. */
  lemma SectionsNest(s: State, f: Forest)
    requires s.masked == (s.nesting > 0) && HandlersOnTop(f, false)
    ensures AllRestore(s, f) && Exec(s, f) == Back(s)
  {
    OnTopAgrees(s.masked, s.nesting > 0, f, false);
    NestExactly(s, f);
    RestoredOverall(s, f);
  }

  /** Inside a task's critical section every nesting restores, even task brackets
      inside a handler's. */
  lemma {:induction false} InsideTaskAllNest(s: State, f: Forest)
    requires s.masked && s.nesting > 0
    ensures Exec(s, f) == Back(s) && AllRestore(s, f)
    decreases f
  {
    match f
    case Nothing =>
    case Pair(cpsr, inTaskSwitch, inside, after) =>
      InsideTaskAllNest(Enter(s, cpsr, inTaskSwitch).0, inside);
      InsideTaskAllNest(s, after);
  }

  /** The limit of the construction: a task's bracket opened where interrupts
      were masked by other means leaves them unmasked. */
  lemma TaskBracketUnmasks(cpsr: nat)
    requires !InIsr(cpsr)
    ensures Exec(State(true, 0), Pair(cpsr, false, Nothing, Nothing)) == Back(State(false, 0))
  {
    assert Exec(State(true, 1), Nothing) == Back(State(true, 1));
    assert Exec(State(false, 0), Nothing) == Back(State(false, 0));
  }

  // ---------- interrupts stay masked inside ----------

  /** The states passed through, one after every enter and every exit. */
  ghost function Trace(s: State, f: Forest): seq<State>
    decreases f
  {
    match f
    case Nothing => []
    case Pair(cpsr, inTaskSwitch, inside, after) =>
      var (entered, csType) := Enter(s, cpsr, inTaskSwitch);
      NeverHangs(entered, inside);
      var left := Exit(Exec(entered, inside).state, csType).state;
      [entered] + Trace(entered, inside) + [left] + Trace(left, after)
  }

  ghost predicate AllMasked(states: seq<State>) { forall x :: x in states ==> x.masked }

  /** Throughout every handler's and every task's bracket interrupts are masked. */
  ghost predicate Protected(s: State, f: Forest)
    decreases f
  {
    match f
    case Nothing => true
    case Pair(cpsr, inTaskSwitch, inside, after) =>
      var entered := Enter(s, cpsr, inTaskSwitch).0;
      && (InIsr(cpsr) || !inTaskSwitch ==> entered.masked && AllMasked(Trace(entered, inside)))
      && Protected(entered, inside)
      && Protected(s, after)
  }

  lemma {:induction false} StaysMasked(s: State, f: Forest)
    requires s.masked && AllRestore(s, f)
    ensures AllMasked(Trace(s, f))
    decreases f
  {
    match f
    case Nothing =>
    case Pair(cpsr, inTaskSwitch, inside, after) =>
      StaysMasked(Enter(s, cpsr, inTaskSwitch).0, inside);
      StaysMasked(s, after);
  }

  lemma {:induction false} RestoringProtects(s: State, f: Forest)
    requires AllRestore(s, f)
    ensures Protected(s, f)
    decreases f
  {
    match f
    case Nothing =>
    case Pair(cpsr, inTaskSwitch, inside, after) =>
      var entered := Enter(s, cpsr, inTaskSwitch).0;
      if InIsr(cpsr) || !inTaskSwitch { StaysMasked(entered, inside); }
      RestoringProtects(entered, inside);
      RestoringProtects(s, after);
  }

  // ---------- the recorder's own code ----------

  class Port {
    var masked: bool
    var ulCriticalNesting: nat
    var inTaskSwitch: bool     // uiTraceSystemState is TRC_STATE_IN_TASKSWITCH

    ghost function Snapshot(): State
      reads this
    {
      State(masked, ulCriticalNesting)
    }

    constructor ()
      ensures Snapshot() == State(false, 0) && !inTaskSwitch
    {
      masked, ulCriticalNesting, inTaskSwitch := false, 0, false;
    }

    method EnterCritical(cpsr: nat) returns (csType: int)
      modifies this`masked, this`ulCriticalNesting
      ensures (Snapshot(), csType) == Enter(old(Snapshot()), cpsr, inTaskSwitch)
      ensures csType != INVALID
      ensures cpsr % 32 == 0x13 ==>
                masked && ulCriticalNesting == old(ulCriticalNesting) && csType == if old(masked) then 3 else 2
      ensures cpsr % 32 != 0x13 && inTaskSwitch ==> Snapshot() == old(Snapshot()) && csType == 0
      ensures cpsr % 32 != 0x13 && !inTaskSwitch ==>
                masked && ulCriticalNesting == old(ulCriticalNesting) + 1 && csType == 1
    {
      csType := INVALID;
      if cpsr % 32 == 0x13 {
        var already := masked;
        masked := true;
        if already {
          csType := ISR_MASK_NOT_CHANGED;
        } else {
          csType := ISR_MASK_CHANGED;
        }
      } else if inTaskSwitch {
        csType := NONE;
      } else if !inTaskSwitch {
        masked := true;
        ulCriticalNesting := ulCriticalNesting + 1;
        csType := TASK;
      }
    }

    /** hung: the source loops for ever instead of returning. */
    method ExitCritical(csType: int) returns (hung: bool)
      modifies this`masked, this`ulCriticalNesting
      ensures hung <==> Exit(old(Snapshot()), csType).Hung?
      ensures hung <==> csType !in {0, 1, 2, 3}
      ensures Snapshot() == if hung then old(Snapshot()) else Exit(old(Snapshot()), csType).state
    {
      hung := false;
      if csType == TASK {
        if ulCriticalNesting > 0 {
          ulCriticalNesting := ulCriticalNesting - 1;
          if ulCriticalNesting == 0 {
            masked := false;
          }
        }
      } else if csType == ISR_MASK_CHANGED {
        masked := false;
      } else if csType == ISR_MASK_NOT_CHANGED || csType == NONE {
      } else {
        hung := true;
      }
    }
  }
}
