/** Bringing up both cores of the RP2350: what main does on core 0 before and
    after it starts the scheduler, and what core 1 does once it is launched.

    Every action leaves a mark in a common history.  Besides the port, which
    calls it once, the wake-up hook may be called at any other time.  What a
    second launch of a running core does is unknown, and the run stops there. */
module BringUp {

  datatype Mark =
    | Vectors0 | TasksCreated | MutexCreated | DoorbellClaimed | SchedulerStarted
    | Priorities0 | PrimaryInitDone | Core1Launched | ReadySeen | FirstTask0
    | Core1Started | Vectors1 | DoorbellIrq1 | Priorities1 | Core1Ready | StartSvc1

  /** The primary core's position, and the secondary's; Exited is a failed main. */
  datatype Primary =
    | AtVectors | AtTasks | AtMutex | AtDoorbell | AtScheduler
    | AtPriorities | AtInitDone | AtWake | AtWaitReady | AtFirstTask | Scheduling0 | Exited
  datatype Secondary = InBootRom | AtEntry | AtVectors1 | AtIrq1 | AtPriorities1 | AtReady | AtSvc | Scheduling1

  datatype State = State(
    primary: Primary, secondary: Secondary,
    initDone: bool, doorbell: int, ready: bool, launches: nat, history: seq<Mark>)

  function Initial(): State {
    State(AtVectors, InBootRom, false, -1, false, 0, [])
  }

  /** ok: whether a creation succeeds; doorbell: the number claimed.  WakeCall
      is a call of the hook outside the port's own sequence. */
  datatype Event = PrimaryStep(ok: bool, doorbell: nat) | SecondaryStep | WakeCall

  predicate Relaunched(s: State) { s.launches > 1 }

  predicate Enabled(s: State, e: Event) {
    !Relaunched(s) &&
    match e
    case PrimaryStep(_, _) =>
      !s.primary.Scheduling0? && !s.primary.Exited? && (s.primary.AtWaitReady? ==> s.ready)
    case SecondaryStep => !s.secondary.InBootRom? && !s.secondary.Scheduling1?
    case WakeCall => !s.primary.Exited?
  }

  function Marked(s: State, m: Mark): State { s.(history := s.history + [m]) }

  /** xWakeSecondaryCore: refuses before initialisation is done, and launches
      core 1 whenever it is called after. */
  function Wake(s: State): (State, bool) {
    if !s.initDone then (s, false)
    else
      var entered := if s.secondary.InBootRom? then AtEntry else s.secondary;
      (Marked(s.(secondary := entered, launches := s.launches + 1), Core1Launched), true)
  }

  function Step(s: State, e: Event): State
    requires Enabled(s, e)
  {
    match e
    case PrimaryStep(ok, doorbell) =>
      (match s.primary
       case AtVectors => Marked(s.(primary := AtTasks), Vectors0)
       case AtTasks => if ok then Marked(s.(primary := AtMutex), TasksCreated) else s.(primary := Exited)
       case AtMutex => if ok then Marked(s.(primary := AtDoorbell), MutexCreated) else s.(primary := Exited)
       case AtDoorbell => Marked(s.(primary := AtScheduler, doorbell := doorbell), DoorbellClaimed)
       case AtScheduler => Marked(s.(primary := AtPriorities), SchedulerStarted)
       case AtPriorities => Marked(s.(primary := AtInitDone), Priorities0)
       case AtInitDone => Marked(s.(primary := AtWake, initDone := true), PrimaryInitDone)
       case AtWake => Wake(s).0.(primary := AtWaitReady)
       case AtWaitReady => Marked(s.(primary := AtFirstTask), ReadySeen)
       case AtFirstTask => Marked(s.(primary := Scheduling0), FirstTask0)
       case Scheduling0 => s
       case Exited => s)
    case SecondaryStep =>
      (match s.secondary
       case InBootRom => s
       case AtEntry => Marked(s.(secondary := AtVectors1), Core1Started)
       case AtVectors1 => Marked(s.(secondary := AtIrq1), Vectors1)
       case AtIrq1 => Marked(s.(secondary := AtPriorities1), DoorbellIrq1)
       case AtPriorities1 => Marked(s.(secondary := AtReady), Priorities1)
       case AtReady => Marked(s.(secondary := AtSvc, ready := true), Core1Ready)
       case AtSvc => Marked(s.(secondary := Scheduling1), StartSvc1)
       case Scheduling1 => s)
    case WakeCall => Wake(s).0
  }

  ghost predicate Feasible(s: State, es: seq<Event>)
    decreases |es|
  {
    es != [] ==> Enabled(s, es[0]) && Feasible(Step(s, es[0]), es[1..])
  }

  ghost function Run(s: State, es: seq<Event>): State
    requires Feasible(s, es)
    decreases |es|
  {
    if es == [] then s else Run(Step(s, es[0]), es[1..])
  }

  // ---------- the documented order ----------

  /** What the boot sequence promises to have happened before each mark. */
  function Before(m: Mark): set<Mark> {
    match m
    case Vectors0 => {}
    case TasksCreated => {Vectors0}
    case MutexCreated => {Vectors0, TasksCreated}
    case DoorbellClaimed => {Vectors0, TasksCreated, MutexCreated}
    case SchedulerStarted => {Vectors0, TasksCreated, MutexCreated, DoorbellClaimed}
    case Priorities0 => {SchedulerStarted, DoorbellClaimed}
    case PrimaryInitDone => {Priorities0, DoorbellClaimed}
    case Core1Launched => {PrimaryInitDone, DoorbellClaimed}
    case ReadySeen => {Core1Launched, Core1Ready}
    case FirstTask0 => {ReadySeen, Core1Ready, Vectors1, DoorbellIrq1, Priorities1}
    case Core1Started => {Core1Launched, PrimaryInitDone, DoorbellClaimed}
    case Vectors1 => {Core1Started}
    case DoorbellIrq1 => {Vectors1, DoorbellClaimed}
    case Priorities1 => {Vectors1, DoorbellIrq1}
    case Core1Ready => {Vectors1, DoorbellIrq1, Priorities1}
    case StartSvc1 => {Vectors1, DoorbellIrq1, Priorities1, Core1Ready}
  }

  /** Every mark in the history comes after all that must precede it. */
  ghost predicate Preceded(history: seq<Mark>) {
    forall i, p :: 0 <= i < |history| && p in Before(history[i]) ==> p in history[..i]
  }

  ghost predicate Once(history: seq<Mark>) {
    forall i, j :: 0 <= i < j < |history| ==> history[i] != history[j]
  }

  lemma Extend(history: seq<Mark>, m: Mark)
    requires Preceded(history) && forall p :: p in Before(m) ==> p in history
    ensures Preceded(history + [m])
    ensures Once(history) ==> (Once(history + [m]) <==> m !in history)
  {
    var longer := history + [m];
    forall i, p | 0 <= i < |longer| && p in Before(longer[i])
      ensures p in longer[..i]
    {
      assert longer[..i] == history[..i];
      if i == |history| { assert history[..i] == history; }
    }
    if m in history {
      var i :| 0 <= i < |history| && history[i] == m;
      assert longer[i] == longer[|history|];
    }
  }

  function Rank0(p: Primary): nat {
    match p
    case AtVectors => 0 case AtTasks => 1 case AtMutex => 2 case AtDoorbell => 3 case AtScheduler => 4
    case AtPriorities => 5 case AtInitDone => 6 case AtWake => 7 case AtWaitReady => 8 case AtFirstTask => 9
    case Scheduling0 => 10 case Exited => 0
  }

  function Rank1(s: Secondary): nat {
    match s
    case InBootRom => 0 case AtEntry => 1 case AtVectors1 => 2 case AtIrq1 => 3
    case AtPriorities1 => 4 case AtReady => 5 case AtSvc => 6 case Scheduling1 => 7
  }

  /** The launch moves core 1, whoever makes it. */
  predicate OnCore1(m: Mark) {
    m in {Core1Launched, Core1Started, Vectors1, DoorbellIrq1, Priorities1, Core1Ready, StartSvc1}
  }

  /** The rank a core has reached once it has made each mark. */
  function Order(m: Mark): nat {
    match m
    case Vectors0 => 1 case TasksCreated => 2 case MutexCreated => 3 case DoorbellClaimed => 4
    case SchedulerStarted => 5 case Priorities0 => 6 case PrimaryInitDone => 7
    case ReadySeen => 9 case FirstTask0 => 10
    case Core1Launched => 1 case Core1Started => 2 case Vectors1 => 3 case DoorbellIrq1 => 4
    case Priorities1 => 5 case Core1Ready => 6 case StartSvc1 => 7
  }

  predicate Done(s: State, m: Mark) {
    Order(m) <= if OnCore1(m) then Rank1(s.secondary) else Rank0(s.primary)
  }

  /** The history holds what the two positions say, and nothing else. */
  ghost predicate Faithful(s: State) {
    forall m :: m in s.history <==> Done(s, m)
  }

  predicate FlagsAgree(s: State) {
    && (s.primary.Exited? ==> s.secondary.InBootRom?)
    && (s.launches == 0 <==> s.secondary.InBootRom?)
    && (s.initDone <==> Rank0(s.primary) >= 7)
    && (s.doorbell >= 0 <==> Rank0(s.primary) >= 4)
    && (s.ready <==> Rank1(s.secondary) >= 6)
    && (!s.secondary.InBootRom? ==> s.initDone)
    && (Rank0(s.primary) >= 8 ==> !s.secondary.InBootRom?)
    && (Rank0(s.primary) >= 9 ==> s.ready)
  }

  ghost predicate Inv(s: State) {
    && Preceded(s.history) && (Once(s.history) <==> !Relaunched(s))
    && (s.primary.Exited? || Faithful(s))
    && FlagsAgree(s)
  }

  lemma OrderIsInjective(m: Mark, k: Mark)
    requires Order(m) == Order(k) && (OnCore1(m) <==> OnCore1(k))
    ensures m == k
  {}

  /** A call of the hook, by the port or outside its sequence. */
  predicate CallsHook(s: State, e: Event) {
    e.WakeCall? || (e.PrimaryStep? && s.primary.AtWake?)
  }

  lemma PrimaryMarks(s: State, e: Event) returns (m: Mark)
    requires FlagsAgree(s) && Enabled(s, e) && e.PrimaryStep? && !Step(s, e).primary.Exited? && !CallsHook(s, e)
    ensures var r := Step(s, e);
            && r.history == s.history + [m] && FlagsAgree(r) && r.launches == s.launches && !OnCore1(m)
            && Order(m) == Rank0(r.primary) == Rank0(s.primary) + 1 && r.secondary == s.secondary
    ensures m.ReadySeen? ==> s.ready
  {
    m := Step(s, e).history[|s.history|];
  }

  lemma SecondaryMarks(s: State) returns (m: Mark)
    requires FlagsAgree(s) && Enabled(s, SecondaryStep)
    ensures var r := Step(s, SecondaryStep);
            && r.history == s.history + [m] && FlagsAgree(r) && r.launches == s.launches && OnCore1(m)
            && Order(m) == Rank1(r.secondary) == Rank1(s.secondary) + 1 && r.primary == s.primary
            && !s.primary.Exited?
  {
    m := Step(s, SecondaryStep).history[|s.history|];
  }

  /** What any step but a call of the hook adds to the history is one mark, and
      it moves one core up to that mark's rank. */
  lemma StepMarks(s: State, e: Event) returns (m: Mark)
    requires FlagsAgree(s) && Enabled(s, e) && !Step(s, e).primary.Exited? && !CallsHook(s, e)
    ensures var r := Step(s, e);
            && r.history == s.history + [m] && FlagsAgree(r) && r.launches == s.launches
            && if OnCore1(m)
               then Order(m) == Rank1(r.secondary) == Rank1(s.secondary) + 1 && r.primary == s.primary
               else Order(m) == Rank0(r.primary) == Rank0(s.primary) + 1 && r.secondary == s.secondary
    ensures m.ReadySeen? ==> s.ready
  {
    if e.PrimaryStep? {
      m := PrimaryMarks(s, e);
    } else {
      m := SecondaryMarks(s);
    }
  }

  /** A call of the hook adds a launch, or nothing before initialisation is done. */
  lemma HookMarks(s: State, e: Event)
    requires FlagsAgree(s) && Enabled(s, e) && CallsHook(s, e)
    ensures var r := Step(s, e);
            && FlagsAgree(r) && !r.primary.Exited?
            && r.launches == s.launches + (if s.initDone then 1 else 0)
            && (forall k: Mark :: Done(r, k) <==> Done(s, k) || (s.initDone && k == Core1Launched))
            && r.history == s.history + if s.initDone then [Core1Launched] else []
  {
    var r := Step(s, e);
    forall k: Mark ensures Done(r, k) <==> Done(s, k) || (s.initDone && k == Core1Launched) {
      assert Order(k) != 8;
    }
  }

  /** Reaching a mark's rank means that all that must precede it is done. */
  lemma BeforeIsDone(s: State, m: Mark, p: Mark)
    requires FlagsAgree(s) && !s.primary.Exited? && p in Before(m)
    requires Order(m) <= 1 + if OnCore1(m) then Rank1(s.secondary) else Rank0(s.primary)
    requires OnCore1(m) ==> s.initDone
    requires m.ReadySeen? ==> s.ready
    ensures Done(s, p)
  {}

  lemma Extended(s: State, r: State, m: Mark)
    requires Preceded(s.history) && Once(s.history) && Faithful(s) && r.history == s.history + [m]
    requires forall k: Mark :: Done(r, k) <==> Done(s, k) || k == m
    requires forall p :: p in Before(m) ==> Done(s, p)
    ensures Preceded(r.history) && Faithful(r) && (Once(r.history) <==> !Done(s, m))
  {
    Extend(s.history, m);
  }

  lemma HookInv(s: State, e: Event)
    requires Inv(s) && Enabled(s, e) && CallsHook(s, e)
    ensures Inv(Step(s, e))
  {
    var r := Step(s, e);
    HookMarks(s, e);
    if s.initDone {
      forall p | p in Before(Core1Launched) ensures Done(s, p) { BeforeIsDone(s, Core1Launched, p); }
      Extended(s, r, Core1Launched);
    } else {
      assert r.history == s.history;
    }
  }

  lemma StepInv(s: State, e: Event)
    requires Inv(s) && Enabled(s, e)
    ensures Inv(Step(s, e))
  {
    var r := Step(s, e);
    if CallsHook(s, e) {
      HookInv(s, e);
    } else if !r.primary.Exited? {
      var m := StepMarks(s, e);
      forall k: Mark ensures Done(r, k) <==> Done(s, k) || k == m {
        if Order(k) == Order(m) && (OnCore1(k) <==> OnCore1(m)) { OrderIsInjective(m, k); }
      }
      forall p | p in Before(m) ensures Done(s, p) { BeforeIsDone(s, m, p); }
      Extended(s, r, m);
    }
  }

  lemma {:induction false} RunInv(s: State, es: seq<Event>)
    requires Inv(s) && Feasible(s, es)
    ensures Inv(Run(s, es))
    decreases |es|
  {
    if es != [] {
      StepInv(s, es[0]);
      RunInv(Step(s, es[0]), es[1..]);
    }
  }

  /** Calls of the hook outside the port's sequence that come once
      initialisation is done. */
  ghost function LateCalls(s: State, es: seq<Event>): nat
    requires Feasible(s, es)
    decreases |es|
  {
    if es == [] then 0
    else (if es[0].WakeCall? && s.initDone then 1 else 0) + LateCalls(Step(s, es[0]), es[1..])
  }

  function PortCalls(s: State): nat { if Rank0(s.primary) >= 8 then 1 else 0 }

  lemma LaunchesKept(s: State, e: Event)
    requires FlagsAgree(s) && Enabled(s, e)
    ensures var r := Step(s, e);
            r.launches - PortCalls(r) == s.launches - PortCalls(s) + (if e.WakeCall? && s.initDone then 1 else 0)
  {}

  lemma {:induction false} LaunchesCounted(s: State, es: seq<Event>)
    requires Inv(s) && Feasible(s, es)
    ensures var r := Run(s, es); r.launches - PortCalls(r) == s.launches - PortCalls(s) + LateCalls(s, es)
    decreases |es|
  {
    if es != [] {
      StepInv(s, es[0]);
      LaunchesKept(s, es[0]);
      LaunchesCounted(Step(s, es[0]), es[1..]);
    }
  }

  /** In every run of the two cores, every action comes after all those that the
      documented sequence puts before it; and each comes only once if and only if
      the calls of the hook after initialisation, the port's own included, are at
      most one. */
  lemma BootOrder(es: seq<Event>)
    requires Feasible(Initial(), es)
    ensures var r := Run(Initial(), es);
            && Preceded(r.history)
            && r.launches == LateCalls(Initial(), es) + PortCalls(r)
            && (Once(r.history) <==> LateCalls(Initial(), es) + PortCalls(r) <= 1)
  {
    RunInv(Initial(), es);
    LaunchesCounted(Initial(), es);
  }

  lemma Prepend(s: State, e: Event, es: seq<Event>)
    requires Enabled(s, e) && Feasible(Step(s, e), es)
    ensures Feasible(s, [e] + es) && Run(s, [e] + es) == Run(Step(s, e), es)
  {
    assert ([e] + es)[1..] == es;
  }

  /** One call of the hook between initialisation and the port's own makes the
      port launch a running core. */
  lemma SecondLaunch()
    ensures exists es :: Feasible(Initial(), es) && Relaunched(Run(Initial(), es))
  {
    var go := PrimaryStep(true, 0);
    var s1 := Step(Initial(), go);
    var s2 := Step(s1, go);
    var s3 := Step(s2, go);
    var s4 := Step(s3, go);
    var s5 := Step(s4, go);
    var s6 := Step(s5, go);
    var s7 := Step(s6, go);
    var s8 := Step(s7, WakeCall);
    var es: seq<Event> := [];
    Prepend(s8, go, es);
    es := [go] + es;
    Prepend(s7, WakeCall, es);
    es := [WakeCall] + es;
    Prepend(s6, go, es);
    es := [go] + es;
    Prepend(s5, go, es);
    es := [go] + es;
    Prepend(s4, go, es);
    es := [go] + es;
    Prepend(s3, go, es);
    es := [go] + es;
    Prepend(s2, go, es);
    es := [go] + es;
    Prepend(s1, go, es);
    es := [go] + es;
    Prepend(Initial(), go, es);
  }

  /** Core 1 runs only with a claimed doorbell after shared initialisation, and
      a failed main never launches it. */
  lemma LaunchGuarded(es: seq<Event>)
    requires Feasible(Initial(), es)
    ensures var s := Run(Initial(), es);
            !s.secondary.InBootRom? ==> s.initDone && s.doorbell >= 0 && !s.primary.Exited?
  {
    RunInv(Initial(), es);
  }

  /** The hook's own guard keeps core 1 in the boot ROM until initialisation is
      done, from any state and whatever calls it and when: nothing of the order
      of the port's sequence is used. */
  lemma {:induction false} GuardSuffices(s: State, es: seq<Event>)
    requires Feasible(s, es) && (s.secondary.InBootRom? || s.initDone)
    ensures var r := Run(s, es); r.secondary.InBootRom? || r.initDone
    decreases |es|
  {
    if es != [] {
      GuardSuffices(Step(s, es[0]), es[1..]);
    }
  }

  /** The hook reports success exactly when it has made a launch, which is exactly
      when initialisation is done. */
  lemma HookReports(s: State)
    ensures var (r, woken) := Wake(s);
            && (woken <==> s.initDone)
            && r.launches == s.launches + (if woken then 1 else 0)
            && r.history == s.history + (if woken then [Core1Launched] else [])
            && (woken ==> !r.secondary.InBootRom?)
  {
    assert s.history + [] == s.history;
  }

  /** Main fails exactly when a creation fails, before anything else has been
      started, and after that nothing happens any more. */
  lemma MainFails(s: State, e: Event)
    requires Inv(s) && Enabled(s, e)
    ensures Step(s, e).primary.Exited? <==>
            e.PrimaryStep? && !e.ok && (s.primary.AtTasks? || s.primary.AtMutex?)
    ensures Step(s, e).primary.Exited? ==>
            Step(s, e).history == s.history && !Step(s, e).initDone && forall f :: !Enabled(Step(s, e), f)
  {}

  /** The doorbell is the one claimed, from its claim to the end of the run. */
  lemma {:induction false} DoorbellKept(s: State, es: seq<Event>)
    requires Inv(s) && Feasible(s, es)
    ensures s.doorbell >= 0 ==> Run(s, es).doorbell == s.doorbell
    decreases |es|
  {
    if es != [] {
      StepInv(s, es[0]);
      DoorbellStep(s, es[0]);
      DoorbellKept(Step(s, es[0]), es[1..]);
    }
  }

  lemma DoorbellStep(s: State, e: Event)
    requires FlagsAgree(s) && Enabled(s, e)
    ensures Step(s, e).doorbell == if e.PrimaryStep? && s.primary.AtDoorbell? then e.doorbell else s.doorbell
    ensures s.doorbell >= 0 ==> Step(s, e).doorbell == s.doorbell
  {}

  /** The bring-up cannot hang: whenever core 0 waits for core 1, core 1 can go
      on; and when neither can, both are scheduling, main has failed, or core 1
      has been launched twice. */
  lemma BothStart(s: State)
    requires Inv(s) && !Enabled(s, PrimaryStep(true, 0)) && !Enabled(s, SecondaryStep)
    ensures s.primary.Exited? || (s.primary.Scheduling0? && s.secondary.Scheduling1?) || Relaunched(s)
  {}

  function Ahead(s: State): int {
    if s.primary.Exited? then 0
    else 10 - Rank0(s.primary) + 7 - (if s.secondary.InBootRom? then 1 else Rank1(s.secondary))
  }

  /** Steps of the two cores, calls of the hook outside the sequence not counted. */
  function Moves(es: seq<Event>): nat {
    if es == [] then 0 else (if es[0].WakeCall? then 0 else 1) + Moves(es[1..])
  }

  lemma StepAhead(s: State, e: Event)
    requires FlagsAgree(s) && Enabled(s, e)
    ensures Ahead(s) >= 0 && Ahead(Step(s, e)) >= 0
    ensures if e.WakeCall? then Ahead(Step(s, e)) == Ahead(s) else Ahead(Step(s, e)) < Ahead(s)
  {}

  /** Nor can it go on for ever: no run has more steps than the two cores have ahead. */
  lemma {:induction false} RunsAreBounded(s: State, es: seq<Event>)
    requires Inv(s) && Feasible(s, es)
    ensures Moves(es) <= Ahead(s)
    decreases |es|
  {
    if es != [] {
      StepInv(s, es[0]);
      StepAhead(s, es[0]);
      RunsAreBounded(Step(s, es[0]), es[1..]);
    }
  }

  // ---------- the demo's own variables ----------

  class Board {
    var primary: Primary
    var secondary: Secondary
    var ucPrimaryCoreInitDoneFlag: bool
    var cDoorbellNum: int
    var ucSecondaryCoreReadyFlag: bool
    var launches: nat
    var history: seq<Mark>

    function Snapshot(): State
      reads this
    {
      State(primary, secondary, ucPrimaryCoreInitDoneFlag, cDoorbellNum, ucSecondaryCoreReadyFlag, launches, history)
    }

    constructor ()
      ensures Snapshot() == Initial() && Inv(Snapshot())
    {
      primary, secondary := AtVectors, InBootRom;
      ucPrimaryCoreInitDoneFlag, cDoorbellNum, ucSecondaryCoreReadyFlag := false, -1, false;
      launches, history := 0, [];
    }

    /** xWakeSecondaryCore */
    method WakeSecondaryCore() returns (woken: bool)
      modifies `secondary, `launches, `history
      ensures (Snapshot(), woken) == Wake(old(Snapshot()))
    {
      if ucPrimaryCoreInitDoneFlag {
        LaunchCore1();
        woken := true;
      } else {
        woken := false;
      }
    }

    /** multicore_launch_core1, with the entry function of this demo. */
    method LaunchCore1()
      modifies `secondary, `launches, `history
      ensures secondary == if old(secondary).InBootRom? then AtEntry else old(secondary)
      ensures launches == old(launches) + 1 && history == old(history) + [Core1Launched]
    {
      if secondary.InBootRom? {
        secondary := AtEntry;
      }
      launches, history := launches + 1, history + [Core1Launched];
    }

    /** One step of main or of the port's scheduler start. */
    method RunPrimary(ok: bool, doorbell: nat)
      requires Inv(Snapshot()) && Enabled(Snapshot(), PrimaryStep(ok, doorbell))
      modifies this
      ensures Snapshot() == Step(old(Snapshot()), PrimaryStep(ok, doorbell)) && Inv(Snapshot())
    {
      StepInv(Snapshot(), PrimaryStep(ok, doorbell));
      match primary {
        case AtVectors =>
          history, primary := history + [Vectors0], AtTasks;
        case AtTasks =>
          if ok { history, primary := history + [TasksCreated], AtMutex; } else { primary := Exited; }
        case AtMutex =>
          if ok { history, primary := history + [MutexCreated], AtDoorbell; } else { primary := Exited; }
        case AtDoorbell =>
          cDoorbellNum := doorbell;
          history, primary := history + [DoorbellClaimed], AtScheduler;
        case AtScheduler =>
          history, primary := history + [SchedulerStarted], AtPriorities;
        case AtPriorities =>
          history, primary := history + [Priorities0], AtInitDone;
        case AtInitDone =>
          ucPrimaryCoreInitDoneFlag := true;
          history, primary := history + [PrimaryInitDone], AtWake;
        case AtWake =>
          var _ := WakeSecondaryCore();
          primary := AtWaitReady;
        case AtWaitReady =>
          history, primary := history + [ReadySeen], AtFirstTask;
        case AtFirstTask =>
          history, primary := history + [FirstTask0], Scheduling0;
        case Scheduling0 =>
        case Exited =>
      }
    }

    /** One step of prvMakeSecondaryCoreReady. */
    method RunSecondary()
      requires Inv(Snapshot()) && Enabled(Snapshot(), SecondaryStep)
      modifies this
      ensures Snapshot() == Step(old(Snapshot()), SecondaryStep) && Inv(Snapshot())
    {
      StepInv(Snapshot(), SecondaryStep);
      match secondary {
        case AtEntry => history, secondary := history + [Core1Started], AtVectors1;
        case AtVectors1 => history, secondary := history + [Vectors1], AtIrq1;
        case AtIrq1 => history, secondary := history + [DoorbellIrq1], AtPriorities1;
        case AtPriorities1 => history, secondary := history + [Priorities1], AtReady;
        case AtReady =>
          ucSecondaryCoreReadyFlag := true;
          history, secondary := history + [Core1Ready], AtSvc;
        case AtSvc => history, secondary := history + [StartSvc1], Scheduling1;
        case InBootRom =>
        case Scheduling1 =>
      }
    }

    /** Both cores run, in any interleaving, for as long as one of them can; ok
        and doorbell are the outcomes of the creations and of the claim. */
    method Boot(ok: nat -> bool, doorbell: nat)
      requires Inv(Snapshot()) && launches == PortCalls(Snapshot())
      modifies this
      ensures Inv(Snapshot()) && launches <= 1
      ensures primary.Exited? || (primary.Scheduling0? && secondary.Scheduling1?)
      ensures primary.Scheduling0? ==>
                Preceded(history) && Once(history) && StartSvc1 in history && FirstTask0 in history
    {
      var k: nat := 0;
      while true
        invariant Inv(Snapshot()) && launches == PortCalls(Snapshot())
        decreases Ahead(Snapshot())
      {
        var s := Snapshot();
        var can0, can1 := Enabled(s, PrimaryStep(ok(k), doorbell)), Enabled(s, SecondaryStep);
        if !can0 && !can1 {
          BothStart(s);
          assert Done(s, StartSvc1) <==> s.secondary.Scheduling1?;
          assert Done(s, FirstTask0) <==> s.primary.Scheduling0?;
          return;
        }
        var zero: bool :| zero ==> can0;
        if zero || !can1 {
          StepAhead(s, PrimaryStep(ok(k), doorbell));
          LaunchesKept(s, PrimaryStep(ok(k), doorbell));
          RunPrimary(ok(k), doorbell);
        } else {
          StepAhead(s, SecondaryStep);
          LaunchesKept(s, SecondaryStep);
          RunSecondary();
        }
        k := k + 1;
      }
    }
  }
}
