/** The R82 extended MPU demo: three unprivileged tasks that each, sooner or
    later, touch memory they have no access to; the exception handler that
    sends them to a recovery routine; and their deletion.

    Whether a task is privileged is itself recorded in memory, in its control
    block in privileged RAM, so the protection rests on its own success. */
module Isolation {

  const TASKS: nat := 3

  datatype Region = Region(base: nat, size: nat)
  {
    predicate Has(a: nat) { base <= a < base + size }
  }

  predicate Apart(r: Region, q: Region) {
    r.base + r.size <= q.base || q.base + q.size <= r.base
  }

  /** The linker's regions, each task's stack and control-block flag word, the
      kernel's current-task pointer, the task handles and the log queue's length. */
  datatype Config = Config(
    privilegedRam: Region, flash: Region, shared: Region, stacks: seq<Region>,
    flags: seq<nat>, currentTcb: nat, handles: seq<nat>, logLength: nat)
  {
    ghost predicate Valid() {
      && |stacks| == |flags| == |handles| == TASKS
      && logLength > 0 && flash.size > 0
      && Apart(privilegedRam, flash) && Apart(privilegedRam, shared) && Apart(flash, shared)
      && privilegedRam.Has(currentTcb)
      && (forall t :: 0 <= t < TASKS ==>
            && stacks[t].size > 0 && privilegedRam.Has(flags[t])
            && Apart(privilegedRam, stacks[t]) && Apart(flash, stacks[t]) && Apart(shared, stacks[t]))
      && (forall t, u :: 0 <= t < u < TASKS ==> Apart(stacks[t], stacks[u]))
    }
  }

  type Memory = map<nat, int>

  function Peek(m: Memory, a: nat): int { if a in m then m[a] else 0 }

  /** The privilege bit of a control block's flag word. */
  predicate Privileged(c: Config, m: Memory, t: nat)
    requires t < |c.flags|
  {
    Peek(m, c.flags[t]) % 2 == 1
  }

  /** It is the lowest bit of the flag word, whatever the others are. */
  lemma PrivilegeBit(c: Config, m: Memory, t: nat, others: int, bit: int)
    requires t < |c.flags| && 0 <= bit < 2
    ensures Privileged(c, m[c.flags[t] := 2 * others + bit], t) <==> bit == 1
  {}

  /** What the MPU lets a task read and write. */
  predicate MayWrite(c: Config, m: Memory, t: nat, a: nat)
    requires t < |c.flags| && t < |c.stacks|
  {
    Privileged(c, m, t) || c.stacks[t].Has(a) || c.shared.Has(a)
  }

  predicate MayRead(c: Config, m: Memory, t: nat, a: nat)
    requires t < |c.flags| && t < |c.stacks|
  {
    MayWrite(c, m, t, a) || c.flash.Has(a)
  }

  /** An unprivileged task reads and writes its own stack and the shared region,
      reads flash, and has no access to privileged RAM or another task's stack. */
  lemma Rights(c: Config, m: Memory, t: nat, u: nat, a: nat)
    requires c.Valid() && t < TASKS && u < TASKS && u != t && !Privileged(c, m, t)
    ensures c.stacks[t].Has(a) || c.shared.Has(a) ==> MayRead(c, m, t, a) && MayWrite(c, m, t, a)
    ensures c.flash.Has(a) ==> MayRead(c, m, t, a) && !MayWrite(c, m, t, a)
    ensures c.privilegedRam.Has(a) || c.stacks[u].Has(a) ==> !MayRead(c, m, t, a) && !MayWrite(c, m, t, a)
  {
    assert Apart(c.privilegedRam, c.stacks[t]) && Apart(c.flash, c.stacks[t]);
    assert Apart(c.privilegedRam, c.stacks[u]) && Apart(c.flash, c.stacks[u]) && Apart(c.shared, c.stacks[u]);
    assert if t < u then Apart(c.stacks[t], c.stacks[u]) else Apart(c.stacks[u], c.stacks[t]);
  }

  // ---------- the exception handler ----------

  const EC_DATA_ABORT_LOWER: nat := 0x24
  const EC_SVC: nat := 0x15
  const EC_UNIT: nat := 0x400_0000      // the exception class starts at bit 26

  datatype Target = Recovery | SwiHandler | FaultLoop

  /** Where App_Fault_Handler sends an exception, by its syndrome. */
  function Route(esr: nat): Target {
    if esr / 0x400_0000 == EC_DATA_ABORT_LOWER then Recovery
    else if esr / 0x400_0000 == EC_SVC then SwiHandler
    else FaultLoop
  }

  /** The syndrome of a data abort from a lower level; the low bits vary. */
  function DataAbort(iss: nat): nat { EC_DATA_ABORT_LOWER * EC_UNIT + iss % 0x400_0000 }

  lemma DataAbortRecovers(iss: nat)
    ensures Route(DataAbort(iss)) == Recovery
    ensures DataAbort(iss) == 0x9000_0000 + iss % 0x400_0000
  {}

  /** The routes in numbers: class 0x24 recovers, class 0x15 is a system call,
      and any other loops. */
  lemma RouteByNumber(ec: nat, iss: nat)
    requires iss < 0x400_0000
    ensures Route(ec * 0x400_0000 + iss) ==
            if ec == 0x24 then Recovery else if ec == 0x15 then SwiHandler else FaultLoop
  {}

  /** The processor state the handler works on. */
  class Processor {
    var x0: nat
    var x1: nat
    var stack: seq<nat>      // the exception stack, top last
    var esr: nat
    var spsr: nat
    var elr: nat

    /** App_Fault_Handler up to the point where it leaves: the return state is
        redirected for a data abort only, and whoever runs next finds x0, x1 and
        the stack as the interrupted code left them. */
    method AppFaultHandler(recoverAddress: nat) returns (next: Target)
      modifies this
      ensures next == Route(esr) && esr == old(esr)
      ensures next == Recovery <==> 0x9000_0000 <= esr < 0x9400_0000
      ensures next == SwiHandler <==> 0x5400_0000 <= esr < 0x5800_0000
      ensures next == Recovery ==> spsr == 0 && elr == recoverAddress
      ensures next != Recovery ==> spsr == old(spsr) && elr == old(elr)
      ensures next != FaultLoop ==> x0 == old(x0) && x1 == old(x1) && stack == old(stack)
    {
      stack := stack + [x1, x0];
      x0 := esr;
      x1 := x0 / 0x400_0000;
      if x1 == EC_DATA_ABORT_LOWER {
        spsr := 0;
        x0 := recoverAddress;
        elr := x0;
        PopPair();
        return Recovery;
      }
      if x1 == EC_SVC {
        PopPair();
        return SwiHandler;
      }
      next := FaultLoop;
    }

    method PopPair()
      requires |stack| >= 2
      modifies `x0, `x1, `stack
      ensures x0 == old(stack[|stack| - 1]) && x1 == old(stack[|stack| - 2])
      ensures stack == old(stack[..|stack| - 2])
    {
      x0, x1 := stack[|stack| - 1], stack[|stack| - 2];
      stack := stack[..|stack| - 2];
    }
  }

  // ---------- the tasks ----------

  datatype Message =
    | AttemptPrivilege
    | AttemptOwnStack | OwnStackDone | AttemptOtherStack
    | AttemptReadOnly
    | Recovered(name: Name)

  datatype Name = First | Second | Third | Unknown

  datatype Action =
    | Say(message: Message)
    | Load(a: nat)
    | Store(a: nat, v: int)

  /** One pass of a task's endless loop. */
  function Script(c: Config, t: nat): (actions: seq<Action>)
    requires |c.stacks| == |c.flags| == TASKS && t < TASKS
    ensures actions != []
  {
    if t == 0 then [Say(AttemptPrivilege), Load(c.currentTcb), Load(c.flags[0]), Store(c.flags[0], 1)]
    else if t == 1 then
      [Say(AttemptOwnStack), Store(c.stacks[1].base, 0xDEADBEEF), Say(OwnStackDone),
       Say(AttemptOtherStack), Store(c.stacks[0].base, 0xDEADBEEF)]
    else [Say(AttemptReadOnly), Store(c.flash.base, 0xDEADBEEF)]
  }

  /** vRecoverFromException names the task by its handle. */
  function NameOf(handle: nat): Name {
    if handle == 1 then First else if handle == 2 then Second else if handle == 3 then Third else Unknown
  }

  /** Recovering keeps the address whose access was refused.  Deleting stands for
      the wait between the recovery message and the SVC that deletes the task. */
  datatype TaskAt = Running(pc: nat) | Recovering(refused: nat) | Deleting | Deleted

  datatype Entry = Entry(task: nat, message: Message)

  /** log lists every message sent; the first printed of them have been printed. */
  datatype State = State(mem: Memory, tasks: seq<TaskAt>, log: seq<Entry>, printed: nat)
  {
    predicate Shaped() {
      |tasks| == TASKS && printed <= |log| && forall t :: 0 <= t < TASKS && tasks[t].Running? ==> tasks[t].pc < 5
    }
  }

  datatype Event =
    | TaskStep(t: nat, iss: nat)            // the next action of a task; iss: detail bits of an abort
    | StackUse(t: nat, a: nat, v: int)      // a compiler-generated store to the task's own stack
    | KernelStore(a: nat, v: int)           // the kernel updates privileged RAM
    | Print                                 // the logger takes a message and prints it

  predicate LogFull(c: Config, s: State) { |s.log| - s.printed >= c.logLength }

  /** Whether a task is at an action that waits for room in the log queue. */
  predicate WantsToLog(c: Config, s: State, t: nat)
    requires |c.stacks| == |c.flags| == TASKS && s.Shaped() && t < TASKS
  {
    match s.tasks[t]
    case Running(pc) => pc < |Script(c, t)| && Script(c, t)[pc].Say?
    case Recovering(_) => true
    case Deleting => false
    case Deleted => false
  }

  predicate Enabled(c: Config, s: State, e: Event)
    requires |c.stacks| == |c.flags| == |c.handles| == TASKS
  {
    s.Shaped() &&
    match e
    case TaskStep(t, _) => t < TASKS && !s.tasks[t].Deleted? && (WantsToLog(c, s, t) ==> !LogFull(c, s))
    case StackUse(t, a, _) => t < TASKS && !s.tasks[t].Deleted? && c.stacks[t].Has(a)
    case KernelStore(a, _) => c.privilegedRam.Has(a) && a !in c.flags
    case Print => s.printed < |s.log|
  }

  function Step(c: Config, s: State, e: Event): State
    requires |c.stacks| == |c.flags| == |c.handles| == TASKS && Enabled(c, s, e)
  {
    match e
    case TaskStep(t, iss) =>
      (match s.tasks[t]
       case Running(pc) => Act(c, s, t, pc, iss)
       case Recovering(_) => s.(log := s.log + [Entry(t, Recovered(NameOf(c.handles[t])))],
                             tasks := s.tasks[t := Deleting])
       case Deleting => s.(tasks := s.tasks[t := Deleted])
       case Deleted => s)
    case StackUse(t, a, v) => if MayWrite(c, s.mem, t, a) then s.(mem := s.mem[a := v]) else s
    case KernelStore(a, v) => s.(mem := s.mem[a := v])
    case Print => s.(printed := s.printed + 1)
  }

  /** An access to address a is refused: the handler decides where the task goes on. */
  function Abort(s: State, t: nat, a: nat, iss: nat): State
    requires s.Shaped() && t < TASKS
  {
    if Route(DataAbort(iss)) == Recovery then s.(tasks := s.tasks[t := Recovering(a)]) else s
  }

  /** A task performs its action, or is sent where the handler routes the abort. */
  function Act(c: Config, s: State, t: nat, pc: nat, iss: nat): State
    requires |c.stacks| == |c.flags| == |c.handles| == TASKS && s.Shaped() && t < TASKS
  {
    if pc >= |Script(c, t)| then s.(tasks := s.tasks[t := Running(0)])
    else
      var next := s.(tasks := s.tasks[t := Running(if pc + 1 < |Script(c, t)| then pc + 1 else 0)]);
      match Script(c, t)[pc]
      case Say(message) => next.(log := s.log + [Entry(t, message)])
      case Load(a) => if MayRead(c, s.mem, t, a) then next else Abort(s, t, a, iss)
      case Store(a, v) => if MayWrite(c, s.mem, t, a) then next.(mem := s.mem[a := v]) else Abort(s, t, a, iss)
  }

  // ---------- what every run keeps ----------

  /** The action at which a task's first pass is stopped by the MPU. */
  function FaultAt(t: nat): nat { if t == 1 then 4 else 1 }

  /** What a task is not allowed to touch, and attempts: the kernel's current-task
      pointer, another task's stack, and the read-only flash. */
  function Forbidden(c: Config, t: nat): nat
    requires |c.stacks| == TASKS && t < TASKS
  {
    if t == 0 then c.currentTcb else if t == 1 then c.stacks[0].base else c.flash.base
  }

  /** Everything a task ever says, in order. */
  function FullScript(c: Config, t: nat): seq<Message>
    requires |c.handles| == TASKS && t < TASKS
  {
    (if t == 0 then [AttemptPrivilege]
     else if t == 1 then [AttemptOwnStack, OwnStackDone, AttemptOtherStack]
     else [AttemptReadOnly])
    + [Recovered(NameOf(c.handles[t]))]
  }

  /** How many of its messages a task has sent. */
  function Said(t: nat, at: TaskAt): nat {
    match at
    case Running(pc) => if t == 1 then (if pc <= 1 then pc else pc - 1) else (if pc == 0 then 0 else 1)
    case Recovering(_) => if t == 1 then 3 else 1
    case Deleting => if t == 1 then 4 else 2
    case Deleted => if t == 1 then 4 else 2
  }

  function MessagesOf(log: seq<Entry>, t: nat): seq<Message> {
    if log == [] then []
    else
      var earlier := MessagesOf(log[..|log| - 1], t);
      if log[|log| - 1].task == t then earlier + [log[|log| - 1].message] else earlier
  }

  lemma Appended(log: seq<Entry>, e: Entry, t: nat)
    ensures MessagesOf(log + [e], t) == if e.task == t then MessagesOf(log, t) + [e.message] else MessagesOf(log, t)
  {
    assert (log + [e])[..|log|] == log;
  }

  /** Memory that only the kernel's own code may change stays as it was: flash
      and the privilege bit of every task. */
  ghost predicate Inv(c: Config, m0: Memory, s: State)
    requires c.Valid()
  {
    && s.Shaped()
    && |s.log| - s.printed <= c.logLength
    && (forall t :: 0 <= t < TASKS ==> !Privileged(c, s.mem, t))
    && (forall a :: c.flash.Has(a) ==> Peek(s.mem, a) == Peek(m0, a))
    && (forall t :: 0 <= t < TASKS && s.tasks[t].Running? ==> s.tasks[t].pc <= FaultAt(t))
    && (forall t :: 0 <= t < TASKS && s.tasks[t].Recovering? ==> s.tasks[t].refused == Forbidden(c, t))
    && (forall t :: 0 <= t < TASKS ==> MessagesOf(s.log, t) == FullScript(c, t)[..Said(t, s.tasks[t])])
  }

  ghost predicate Start(c: Config, s: State)
    requires c.Valid()
  {
    && s.tasks == [Running(0), Running(0), Running(0)] && s.log == [] && s.printed == 0
    && forall t :: 0 <= t < TASKS ==> !Privileged(c, s.mem, t)
  }

  lemma StartInv(c: Config, s: State)
    requires c.Valid() && Start(c, s)
    ensures Inv(c, s.mem, s)
  {}

  /** Who may change what, in one step: a task changes nothing but its own
      stack, and the kernel nothing but privileged RAM. */
  lemma StepWrites(c: Config, m0: Memory, s: State, e: Event)
    requires c.Valid() && Inv(c, m0, s) && Enabled(c, s, e)
    ensures forall a {:trigger Peek(Step(c, s, e).mem, a)} :: 0 <= a && Peek(Step(c, s, e).mem, a) != Peek(s.mem, a) ==>
      match e
      case TaskStep(t, _) => c.stacks[t].Has(a)
      case StackUse(t, _, _) => c.stacks[t].Has(a)
      case KernelStore(_, _) => c.privilegedRam.Has(a) && a !in c.flags
      case Print => false
  {}

  /** An action before the faulting one succeeds, and the faulting one aborts. */
  lemma ActOutcome(c: Config, s: State, t: nat, pc: nat, iss: nat)
    requires c.Valid() && s.Shaped() && t < TASKS && pc <= FaultAt(t) && !Privileged(c, s.mem, t)
    ensures var r := Act(c, s, t, pc, iss);
            && r.printed == s.printed
            && r.tasks == s.tasks[t := if pc < FaultAt(t) then Running(pc + 1) else Recovering(Forbidden(c, t))]
            && r.log == if Script(c, t)[pc].Say? then s.log + [Entry(t, Script(c, t)[pc].message)] else s.log
    ensures Act(c, s, t, pc, iss).mem ==
            if pc < FaultAt(t) && Script(c, t)[pc].Store?
            then s.mem[Script(c, t)[pc].a := Script(c, t)[pc].v] else s.mem
  {
    DataAbortRecovers(iss);
    assert c.privilegedRam.Has(c.flags[0]);
    assert Apart(c.privilegedRam, c.stacks[t]) && Apart(c.flash, c.stacks[t]);
    assert Apart(c.stacks[0], c.stacks[1]);
  }

  /** What a task says next is the next message of its script. */
  lemma NextMessage(c: Config, t: nat, at: TaskAt)
    requires c.Valid() && t < TASKS && (at.Running? ==> at.pc <= FaultAt(t))
    ensures Said(t, at) <= |FullScript(c, t)|
    ensures at.Running? && at.pc < FaultAt(t) ==>
      Said(t, Running(at.pc + 1)) == Said(t, at) + (if Script(c, t)[at.pc].Say? then 1 else 0)
    ensures at.Running? && Script(c, t)[at.pc].Say? ==>
      at.pc < FaultAt(t) && FullScript(c, t)[Said(t, at)] == Script(c, t)[at.pc].message
    ensures at.Running? && at.pc == FaultAt(t) ==> Said(t, Recovering(Forbidden(c, t))) == Said(t, at)
    ensures at.Recovering? ==>
      Said(t, Deleting) == Said(t, at) + 1 && FullScript(c, t)[Said(t, at)] == Recovered(NameOf(c.handles[t]))
    ensures at == Deleting ==> Said(t, Deleted) == Said(t, at) == |FullScript(c, t)|
  {}

  lemma ActMessages(c: Config, s: State, t: nat, pc: nat, iss: nat, u: nat)
    requires c.Valid() && s.Shaped() && t < TASKS && s.tasks[t] == Running(pc) && pc <= FaultAt(t)
    requires !Privileged(c, s.mem, t) && u < TASKS
    requires MessagesOf(s.log, u) == FullScript(c, u)[..Said(u, s.tasks[u])]
    ensures var r := Act(c, s, t, pc, iss);
            |r.tasks| == TASKS && MessagesOf(r.log, u) == FullScript(c, u)[..Said(u, r.tasks[u])]
  {
    NextMessage(c, t, s.tasks[t]);
    ActOutcome(c, s, t, pc, iss);
    if Script(c, t)[pc].Say? {
      Appended(s.log, Entry(t, Script(c, t)[pc].message), u);
    }
  }

  lemma TaskStepMessages(c: Config, s: State, t: nat, iss: nat, u: nat)
    requires c.Valid() && s.Shaped() && Enabled(c, s, TaskStep(t, iss)) && !Privileged(c, s.mem, t) && u < TASKS
    requires s.tasks[t].Running? ==> s.tasks[t].pc <= FaultAt(t)
    requires MessagesOf(s.log, u) == FullScript(c, u)[..Said(u, s.tasks[u])]
    ensures var r := Step(c, s, TaskStep(t, iss));
            |r.tasks| == TASKS && MessagesOf(r.log, u) == FullScript(c, u)[..Said(u, r.tasks[u])]
  {
    if s.tasks[t].Running? {
      ActMessages(c, s, t, s.tasks[t].pc, iss, u);
    } else {
      NextMessage(c, t, s.tasks[t]);
      Appended(s.log, Entry(t, Recovered(NameOf(c.handles[t]))), u);
    }
  }

  lemma TaskStepShape(c: Config, s: State, t: nat, iss: nat)
    requires c.Valid() && s.Shaped() && Enabled(c, s, TaskStep(t, iss)) && !Privileged(c, s.mem, t)
    requires |s.log| - s.printed <= c.logLength
    requires forall u :: 0 <= u < TASKS && s.tasks[u].Running? ==> s.tasks[u].pc <= FaultAt(u)
    requires forall u :: 0 <= u < TASKS && s.tasks[u].Recovering? ==> s.tasks[u].refused == Forbidden(c, u)
    ensures var r := Step(c, s, TaskStep(t, iss));
            && r.Shaped() && r.printed == s.printed && |r.log| - r.printed <= c.logLength
            && (forall u :: 0 <= u < TASKS && r.tasks[u].Running? ==> r.tasks[u].pc <= FaultAt(u))
            && (forall u :: 0 <= u < TASKS && r.tasks[u].Recovering? ==> r.tasks[u].refused == Forbidden(c, u))
  {
    if s.tasks[t].Running? {
      ActOutcome(c, s, t, s.tasks[t].pc, iss);
    }
  }

  lemma TaskStepInv(c: Config, m0: Memory, s: State, t: nat, iss: nat)
    requires c.Valid() && Inv(c, m0, s) && Enabled(c, s, TaskStep(t, iss))
    ensures var r := Step(c, s, TaskStep(t, iss));
            && r.Shaped() && r.printed == s.printed && |r.log| - r.printed <= c.logLength
            && (forall u :: 0 <= u < TASKS && r.tasks[u].Running? ==> r.tasks[u].pc <= FaultAt(u))
            && (forall u :: 0 <= u < TASKS && r.tasks[u].Recovering? ==> r.tasks[u].refused == Forbidden(c, u))
            && (forall u :: 0 <= u < TASKS ==> MessagesOf(r.log, u) == FullScript(c, u)[..Said(u, r.tasks[u])])
  {
    var r := Step(c, s, TaskStep(t, iss));
    TaskStepShape(c, s, t, iss);
    forall u | 0 <= u < TASKS
      ensures MessagesOf(r.log, u) == FullScript(c, u)[..Said(u, r.tasks[u])]
    {
      TaskStepMessages(c, s, t, iss, u);
    }
  }

  lemma StepInv(c: Config, m0: Memory, s: State, e: Event)
    requires c.Valid() && Inv(c, m0, s) && Enabled(c, s, e)
    ensures Inv(c, m0, Step(c, s, e))
  {
    StepWrites(c, m0, s, e);
    var r := Step(c, s, e);
    forall t | 0 <= t < TASKS
      ensures !Privileged(c, r.mem, t)
    {
      assert !Privileged(c, s.mem, t) && c.flags[t] in c.flags && c.privilegedRam.Has(c.flags[t]);
      if e.TaskStep? || e.StackUse? {
        assert Apart(c.privilegedRam, c.stacks[e.t]);
      }
      assert Peek(r.mem, c.flags[t]) == Peek(s.mem, c.flags[t]);
    }
    forall a | c.flash.Has(a)
      ensures Peek(r.mem, a) == Peek(s.mem, a)
    {
      if e.TaskStep? || e.StackUse? {
        assert Apart(c.flash, c.stacks[e.t]);
      }
    }
    if e.TaskStep? {
      TaskStepInv(c, m0, s, e.t, e.iss);
    }
  }

  ghost predicate Feasible(c: Config, s: State, es: seq<Event>)
    requires c.Valid()
    decreases |es|
  {
    es != [] ==> Enabled(c, s, es[0]) && Feasible(c, Step(c, s, es[0]), es[1..])
  }

  ghost function Run(c: Config, s: State, es: seq<Event>): State
    requires c.Valid() && Feasible(c, s, es)
    decreases |es|
  {
    if es == [] then s else Run(c, Step(c, s, es[0]), es[1..])
  }

  lemma {:induction false} RunInv(c: Config, m0: Memory, s: State, es: seq<Event>)
    requires c.Valid() && Inv(c, m0, s) && Feasible(c, s, es)
    ensures Inv(c, m0, Run(c, s, es))
    decreases |es|
  {
    if es != [] {
      StepInv(c, m0, s, es[0]);
      RunInv(c, m0, Step(c, s, es[0]), es[1..]);
    }
  }

  /** Events in which task u does not act. */
  predicate Spares(e: Event, u: nat) {
    (e.TaskStep? ==> e.t != u) && (e.StackUse? ==> e.t != u)
  }

  /** A task's stack does not change in any stretch of a run in which the task
      itself does not act, whatever the others attempt. */
  lemma {:induction false} StackIsOwn(c: Config, m0: Memory, s: State, es: seq<Event>, u: nat, a: nat)
    requires c.Valid() && Inv(c, m0, s) && Feasible(c, s, es)
    requires u < TASKS && c.stacks[u].Has(a) && forall e :: e in es ==> Spares(e, u)
    ensures Peek(Run(c, s, es).mem, a) == Peek(s.mem, a)
    decreases |es|
  {
    if es != [] {
      StepInv(c, m0, s, es[0]);
      StepWrites(c, m0, s, es[0]);
      assert Spares(es[0], u);
      assert Peek(Step(c, s, es[0]).mem, a) == Peek(s.mem, a) by {
        if es[0].TaskStep? || es[0].StackUse? {
          var t := es[0].t;
          assert Apart(c.stacks[t], c.stacks[u]);
        }
      }
      StackIsOwn(c, m0, Step(c, s, es[0]), es[1..], u, a);
    }
  }

  /** Privileged RAM does not change in any stretch of a run without kernel stores. */
  lemma {:induction false} RamIsKernels(c: Config, m0: Memory, s: State, es: seq<Event>, a: nat)
    requires c.Valid() && Inv(c, m0, s) && Feasible(c, s, es)
    requires c.privilegedRam.Has(a) && forall e :: e in es ==> !e.KernelStore?
    ensures Peek(Run(c, s, es).mem, a) == Peek(s.mem, a)
    decreases |es|
  {
    if es != [] {
      StepInv(c, m0, s, es[0]);
      StepWrites(c, m0, s, es[0]);
      assert !es[0].KernelStore?;
      assert Peek(Step(c, s, es[0]).mem, a) == Peek(s.mem, a);
      RamIsKernels(c, m0, Step(c, s, es[0]), es[1..], a);
    }
  }

  /** In every run from the start: flash is as loaded, no task has gained
      privilege, what each task has said is a prefix of its fixed script, and it
      is stopped at the access it is not allowed. */
  lemma Isolated(c: Config, s: State, es: seq<Event>)
    requires c.Valid() && Start(c, s) && Feasible(c, s, es)
    ensures var r := Run(c, s, es);
            && (forall a :: c.flash.Has(a) ==> Peek(r.mem, a) == Peek(s.mem, a))
            && (forall t :: 0 <= t < TASKS ==> !Privileged(c, r.mem, t) && MessagesOf(r.log, t) <= FullScript(c, t))
            && |r.tasks| == TASKS
            && (forall t :: 0 <= t < TASKS && r.tasks[t].Recovering? ==> r.tasks[t].refused == Forbidden(c, t))
  {
    StartInv(c, s);
    RunInv(c, s.mem, s, es);
  }

  /** Until it is deleted, a task can store anything anywhere on its stack, and
      the kernel anywhere in its RAM but for the privilege flags. */
  lemma StoresPossible(c: Config, m0: Memory, s: State, t: nat, a: nat, v: int)
    requires c.Valid() && Inv(c, m0, s) && t < TASKS
    ensures c.stacks[t].Has(a) ==> (Enabled(c, s, StackUse(t, a, v)) <==> s.tasks[t] != Deleted)
    ensures c.privilegedRam.Has(a) && a !in c.flags ==> Enabled(c, s, KernelStore(a, v))
  {}

  /** A permitted store is made, whoever makes it. */
  lemma StoresMade(c: Config, m0: Memory, s: State, e: Event)
    requires c.Valid() && Inv(c, m0, s) && Enabled(c, s, e)
    ensures e.StackUse? ==> Step(c, s, e).mem == s.mem[e.a := e.v]
    ensures e.KernelStore? ==> Step(c, s, e).mem == s.mem[e.a := e.v]
    ensures e.TaskStep? && e.t == 1 && s.tasks[1] == Running(1) ==>
              Step(c, s, e).mem == s.mem[c.stacks[1].base := 0xDEADBEEF]
  {
    if e.TaskStep? && s.tasks[e.t].Running? {
      ActOutcome(c, s, e.t, s.tasks[e.t].pc, e.iss);
    }
  }

  /** Once the second task is past the store to its own stack, the value is there. */
  ghost predicate OwnStored(c: Config, s: State)
    requires c.Valid() && s.Shaped()
  {
    (s.tasks[1].Running? ==> s.tasks[1].pc >= 2) ==> Peek(s.mem, c.stacks[1].base) == 0xDEADBEEF
  }

  lemma StepOwnStored(c: Config, m0: Memory, s: State, e: Event)
    requires c.Valid() && Inv(c, m0, s) && OwnStored(c, s) && Enabled(c, s, e)
    requires e.StackUse? && e.t == 1 ==> e.a != c.stacks[1].base
    ensures Inv(c, m0, Step(c, s, e)) && OwnStored(c, Step(c, s, e))
  {
    StepInv(c, m0, s, e);
    StoresMade(c, m0, s, e);
    StepWrites(c, m0, s, e);
    if e.TaskStep? && s.tasks[e.t].Running? {
      ActOutcome(c, s, e.t, s.tasks[e.t].pc, e.iss);
    }
    if e.TaskStep? || e.StackUse? {
      assert e.t == 0 ==> Apart(c.stacks[0], c.stacks[1]);
      assert e.t == 2 ==> Apart(c.stacks[1], c.stacks[2]);
    }
    assert Apart(c.privilegedRam, c.stacks[1]);
  }

  lemma {:induction false} RunOwnStored(c: Config, m0: Memory, s: State, es: seq<Event>)
    requires c.Valid() && Inv(c, m0, s) && OwnStored(c, s) && Feasible(c, s, es)
    requires forall e :: e in es && e.StackUse? && e.t == 1 ==> e.a != c.stacks[1].base
    ensures Inv(c, m0, Run(c, s, es)) && OwnStored(c, Run(c, s, es))
    decreases |es|
  {
    if es != [] {
      StepOwnStored(c, m0, s, es[0]);
      RunOwnStored(c, m0, Step(c, s, es[0]), es[1..]);
    }
  }

  /** When the second task says that it has accessed its own stack, it has: from
      any moment of a run before its store, and as long as the stack use of its
      own code does not overwrite it, the value is there. */
  lemma SaidIsDone(c: Config, m0: Memory, s: State, es: seq<Event>)
    requires c.Valid() && Inv(c, m0, s) && s.tasks[1].Running? && s.tasks[1].pc <= 1 && Feasible(c, s, es)
    requires forall e :: e in es && e.StackUse? && e.t == 1 ==> e.a != c.stacks[1].base
    ensures var r := Run(c, s, es);
            OwnStackDone in MessagesOf(r.log, 1) ==> Peek(r.mem, c.stacks[1].base) == 0xDEADBEEF
  {
    RunOwnStored(c, m0, s, es);
    var r := Run(c, s, es);
    assert MessagesOf(r.log, 1) == FullScript(c, 1)[..Said(1, r.tasks[1])];
  }

  /** A step says at most one thing, in the name of the task that takes it. */
  lemma StepSays(c: Config, s: State, e: Event)
    requires c.Valid() && Enabled(c, s, e)
    ensures var r := Step(c, s, e);
            || r.log == s.log
            || (e.TaskStep? && |r.log| == |s.log| + 1
                && r.log == s.log + [r.log[|s.log|]] && r.log[|s.log|].task == e.t)
  {}

  lemma DeletedStep(c: Config, s: State, e: Event, t: nat)
    requires c.Valid() && s.Shaped() && t < TASKS && s.tasks[t] == Deleted && Enabled(c, s, e)
    ensures var r := Step(c, s, e);
            |r.tasks| == TASKS && r.tasks[t] == Deleted && MessagesOf(r.log, t) == MessagesOf(s.log, t)
  {
    StepSays(c, s, e);
    var r := Step(c, s, e);
    if r.log != s.log {
      Appended(s.log, r.log[|s.log|], t);
    }
  }

  /** A deleted task says nothing more. */
  lemma {:induction false} DeletedIsFinal(c: Config, s: State, es: seq<Event>, t: nat)
    requires c.Valid() && s.Shaped() && t < TASKS && s.tasks[t] == Deleted && Feasible(c, s, es)
    ensures var r := Run(c, s, es);
            |r.tasks| == TASKS && r.tasks[t] == Deleted && MessagesOf(r.log, t) == MessagesOf(s.log, t)
    decreases |es|
  {
    if es != [] {
      DeletedStep(c, s, es[0], t);
      if es[1..] != [] {
        DeletedIsFinal(c, Step(c, s, es[0]), es[1..], t);
      }
    }
  }

  /** The last word of a script names the task exactly when its handle is its
      place in the order of creation. */
  lemma NamesItself(c: Config, t: nat)
    requires c.Valid() && t < TASKS
    ensures FullScript(c, t)[|FullScript(c, t)| - 1] == Recovered([First, Second, Third][t]) <==> c.handles[t] == t + 1
  {}

  /** What is at stake: had the first task's last store been let through, the
      task would be privileged, and might write anywhere. */
  lemma StoreWouldRaise(c: Config, m: Memory, a: nat)
    requires c.Valid()
    ensures var last := Script(c, 0)[3];
            last.Store? && Privileged(c, m[last.a := last.v], 0) && MayWrite(c, m[last.a := last.v], 0, a)
  {}

  // ---------- completion ----------

  /** Steps still to be taken: by each task until it is deleted, and by the
      logger for every message not yet printed. */
  function TaskWork(t: nat, at: TaskAt): int {
    match at
    case Running(pc) => FaultAt(t) - pc + 3
    case Recovering(_) => 2
    case Deleting => 1
    case Deleted => 0
  }

  function Work(s: State): int
    requires |s.tasks| == TASKS
  {
    2 * (TaskWork(0, s.tasks[0]) + TaskWork(1, s.tasks[1]) + TaskWork(2, s.tasks[2])) + (|s.log| - s.printed)
  }

  lemma WorkIsNat(c: Config, m0: Memory, s: State)
    requires c.Valid() && Inv(c, m0, s)
    ensures Work(s) >= 0
  {}

  lemma WorkShrinks(c: Config, m0: Memory, s: State, e: Event)
    requires c.Valid() && Inv(c, m0, s) && Enabled(c, s, e)
    ensures Work(s) >= 0
    ensures e.TaskStep? || e.Print? ==> Work(Step(c, s, e)) < Work(s)
    ensures e.StackUse? || e.KernelStore? ==> Work(Step(c, s, e)) == Work(s)
  {
    if e.TaskStep? && s.tasks[e.t].Running? {
      ActOutcome(c, s, e.t, s.tasks[e.t].pc, e.iss);
    }
  }

  /** Steps of tasks and of the logger. */
  function Moves(es: seq<Event>): nat {
    if es == [] then 0 else (if es[0].TaskStep? || es[0].Print? then 1 else 0) + Moves(es[1..])
  }

  lemma {:induction false} RunsAreBounded(c: Config, m0: Memory, s: State, es: seq<Event>)
    requires c.Valid() && Inv(c, m0, s) && Feasible(c, s, es)
    ensures Inv(c, m0, Run(c, s, es)) && Moves(es) + Work(Run(c, s, es)) <= Work(s)
    decreases |es|
  {
    if es != [] {
      StepInv(c, m0, s, es[0]);
      WorkShrinks(c, m0, s, es[0]);
      RunsAreBounded(c, m0, Step(c, s, es[0]), es[1..]);
    }
  }

  /** When no task and no printing can move, every task has been deleted after
      its whole script, and everything has been printed. */
  lemma Completed(c: Config, m0: Memory, s: State)
    requires c.Valid() && Inv(c, m0, s)
    requires !Enabled(c, s, Print) && forall t :: 0 <= t < TASKS ==> !Enabled(c, s, TaskStep(t, 0))
    ensures s.printed == |s.log|
    ensures forall t :: 0 <= t < TASKS ==> s.tasks[t] == Deleted && MessagesOf(s.log, t) == FullScript(c, t)
  {
    forall t | 0 <= t < TASKS
      ensures s.tasks[t] == Deleted && MessagesOf(s.log, t) == FullScript(c, t)
    {
      assert !Enabled(c, s, TaskStep(t, 0));
    }
  }

  // ---------- the demo's own state ----------

  class Demo {
    const c: Config
    var mem: Memory
    var tasks: seq<TaskAt>
    var log: seq<Entry>
    var printed: nat
    ghost const loaded: Memory     // memory as the demo starts

    ghost predicate Valid()
      reads this
    {
      c.Valid() && Inv(c, loaded, Snapshot())
    }

    function Snapshot(): State
      reads this
    {
      State(mem, tasks, log, printed)
    }

    constructor (c: Config, mem: Memory)
      requires c.Valid() && forall t :: 0 <= t < TASKS ==> !Privileged(c, mem, t)
      ensures this.c == c && this.mem == loaded == mem && Start(c, Snapshot()) && Valid()
    {
      this.c, this.mem, loaded := c, mem, mem;
      tasks, log, printed := [Running(0), Running(0), Running(0)], [], 0;
      new;
      StartInv(c, Snapshot());
    }

    /** prvFirstTask, prvSecondTask and prvThirdTask, and vRecoverFromException in their stead. */
    method TaskRuns(t: nat, iss: nat)
      requires Valid() && Enabled(c, Snapshot(), TaskStep(t, iss))
      modifies this
      ensures Snapshot() == Step(c, old(Snapshot()), TaskStep(t, iss)) && Valid()
    {
      StepInv(c, loaded, Snapshot(), TaskStep(t, iss));
      TaskActs(t, iss);
    }

    method TaskActs(t: nat, iss: nat)
      requires c.Valid() && Enabled(c, Snapshot(), TaskStep(t, iss))
      requires tasks[t].Running? ==> tasks[t].pc <= FaultAt(t)
      modifies this
      ensures Snapshot() == Step(c, old(Snapshot()), TaskStep(t, iss))
    {
      match tasks[t] {
        case Running(pc) =>
          var refused: int := -1;
          match Script(c, t)[pc] {
            case Say(message) =>
              log := log + [Entry(t, message)];
            case Load(a) =>
              if !MayRead(c, mem, t, a) {
                refused := a;
              }
            case Store(a, v) =>
              if MayWrite(c, mem, t, a) {
                mem := mem[a := v];
              } else {
                refused := a;
              }
          }
          if refused < 0 {
            tasks := tasks[t := Running(if pc + 1 < |Script(c, t)| then pc + 1 else 0)];
          } else if Route(DataAbort(iss)) == Recovery {
            tasks := tasks[t := Recovering(refused)];
          }
        case Recovering(_) =>
          log := log + [Entry(t, Recovered(NameOf(c.handles[t])))];
          tasks := tasks[t := Deleting];
        case Deleting =>
          tasks := tasks[t := Deleted];
        case Deleted =>
      }
    }

    method LoggerPrints()
      requires Valid() && Enabled(c, Snapshot(), Print)
      modifies `printed
      ensures Snapshot() == Step(c, old(Snapshot()), Print) && Valid()
    {
      StepInv(c, loaded, Snapshot(), Print);
      printed := printed + 1;
    }

    /** Tasks and logger run, in any interleaving, until none can move; iss gives
        the detail bits of the aborts. */
    method RunToEnd(iss: nat -> nat)
      requires Valid()
      modifies this
      ensures Valid() && printed == |log|
      ensures forall t :: 0 <= t < TASKS ==> tasks[t] == Deleted && MessagesOf(log, t) == FullScript(c, t)
    {
      var k: nat := 0;
      while true
        invariant Valid()
        decreases Work(Snapshot())
      {
        var s := Snapshot();
        if !Enabled(c, s, Print) && forall t :: 0 <= t < TASKS ==> !Enabled(c, s, TaskStep(t, 0)) {
          Completed(c, loaded, s);
          return;
        }
        if * {
          if Enabled(c, s, Print) {
            WorkShrinks(c, loaded, s, Print);
            LoggerPrints();
          } else {
            var t: nat :| 0 <= t < TASKS && Enabled(c, s, TaskStep(t, 0));
            StepOf(t, iss(k));
          }
        } else {
          if t: nat :| 0 <= t < TASKS && Enabled(c, s, TaskStep(t, 0)) {
            StepOf(t, iss(k));
          } else {
            WorkShrinks(c, loaded, s, Print);
            LoggerPrints();
          }
        }
        k := k + 1;
      }
    }

    method StepOf(t: nat, iss: nat)
      requires Valid() && t < TASKS && Enabled(c, Snapshot(), TaskStep(t, 0))
      modifies this
      ensures Valid() && 0 <= Work(Snapshot()) < Work(old(Snapshot()))
    {
      WorkShrinks(c, loaded, Snapshot(), TaskStep(t, iss));
      TaskRuns(t, iss);
      WorkIsNat(c, loaded, Snapshot());
    }
  }
}
