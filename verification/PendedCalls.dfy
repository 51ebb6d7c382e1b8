/** The pended-function demonstration: a producer increments two counters and
    asks the timer service to call a function with them; the called function
    asserts that each counter is one more than at its previous call.

    The request goes through the timer service's bounded command queue, which
    other producers fill too. It must not block, so it is refused when the queue
    is full, and the counters have advanced all the same. Counters are 32 bits. */
module PendedCalls {

  datatype Command = Pend(parameter1: nat, parameter2: nat) | Other

  /** accepted and calls are histories: the outcome of each request, and of the
      two assertions of each call made. */
  datatype State = State(
    parameter1: nat, parameter2: nat, queue: seq<Command>, last1: nat, last2: nat,
    accepted: seq<bool>, calls: seq<(bool, bool)>)

  function Initial(): State { State(1000, 0, [], 1000, 0, [], []) }

  /** Modulo two to the power of thirty-two. */
  function Plus1(x: nat): nat { (x + 1) % 0x1_0000_0000 }

  datatype Event = Demonstrate | OtherProducer | Serve

  /** A full queue takes no further command. */
  function Send(s: State, capacity: nat, command: Command): State {
    if |s.queue| < capacity then s.(queue := s.queue + [command]) else s
  }

  function Call(s: State, a: nat, b: nat): State {
    s.(last1 := a, last2 := b, calls := s.calls + [(a == Plus1(s.last1), b == Plus1(s.last2))])
  }

  function Step(s: State, capacity: nat, e: Event): State {
    match e
    case Demonstrate =>
      var p1, p2 := Plus1(s.parameter1), Plus1(s.parameter2);
      Send(s, capacity, Pend(p1, p2)).(
        parameter1 := p1, parameter2 := p2, accepted := s.accepted + [|s.queue| < capacity])
    case OtherProducer => Send(s, capacity, Other)
    case Serve =>
      if s.queue == [] then s
      else
        var served := s.(queue := s.queue[1..]);
        match s.queue[0]
        case Pend(a, b) => Call(served, a, b)
        case Other => served
  }

  ghost function Run(s: State, capacity: nat, es: seq<Event>): State
    decreases |es|
  {
    if es == [] then s else Run(Step(s, capacity, es[0]), capacity, es[1..])
  }

  // ---------- which request each call comes from ----------

  /** The numbers of the accepted requests, counting requests from one. */
  function Numbers(accepted: seq<bool>): seq<nat>
    decreases |accepted|
  {
    if accepted == [] then []
    else
      var n := |accepted|;
      Numbers(accepted[..n - 1]) + if accepted[n - 1] then [n] else []
  }

  function Refused(accepted: seq<bool>): nat
    decreases |accepted|
  {
    if accepted == [] then 0
    else Refused(accepted[..|accepted| - 1]) + if accepted[|accepted| - 1] then 0 else 1
  }

  function Low32(n: nat): nat { n % 0x1_0000_0000 }

  lemma LowNext(m: nat, n: nat)
    requires m == Low32(n)
    ensures Plus1(m) == Low32(n + 1)
  {}

  lemma {:induction false} NumbersRise(accepted: seq<bool>)
    ensures forall n :: n in Numbers(accepted) ==> 1 <= n <= |accepted|
    ensures |Numbers(accepted)| + Refused(accepted) == |accepted|
    decreases |accepted|
  {
    if accepted != [] { NumbersRise(accepted[..|accepted| - 1]); }
  }

  /** The i-th accepted request is request i + 1 plus the refusals before it. */
  lemma {:induction false} NumberIsRefusals(accepted: seq<bool>, i: nat)
    requires i < |Numbers(accepted)|
    ensures var n := Numbers(accepted)[i];
            1 <= n <= |accepted| && accepted[n - 1] && n == i + 1 + Refused(accepted[..n - 1])
    decreases |accepted|
  {
    var shorter := accepted[..|accepted| - 1];
    NumbersRise(shorter);
    if i < |Numbers(shorter)| {
      NumberIsRefusals(shorter, i);
      var n := Numbers(accepted)[i];
      assert shorter[..n - 1] == accepted[..n - 1];
    }
  }

  // ---------- what every run keeps ----------

  /** The pended requests still in the queue, oldest first. */
  function Pending(queue: seq<Command>): seq<Command>
    decreases |queue|
  {
    if queue == [] then []
    else if queue[0].Pend? then [queue[0]] + Pending(queue[1..])
    else Pending(queue[1..])
  }

  lemma {:induction false} PendingAppend(queue: seq<Command>, c: Command)
    ensures Pending(queue + [c]) == Pending(queue) + if c.Pend? then [c] else []
    decreases |queue|
  {
    if queue != [] {
      assert (queue + [c])[1..] == queue[1..] + [c];
      PendingAppend(queue[1..], c);
    }
  }

  function Parameters(n: nat): Command { Pend(Low32(1000 + n), Low32(n)) }

  /** Which request the called function saw last; none is like request zero. */
  function Previous(numbers: seq<nat>, i: nat): nat
    requires i <= |numbers|
  {
    if i == 0 then 0 else numbers[i - 1]
  }

  /** Whether call i finds its counters one more than at call i - 1. */
  predicate Consecutive(numbers: seq<nat>, i: nat)
    requires i < |numbers|
  {
    Low32(numbers[i]) == Low32(Previous(numbers, i) + 1)
  }

  ghost predicate Queued(s: State, numbers: seq<nat>) {
    && |numbers| == |s.calls| + |Pending(s.queue)|
    && forall i :: 0 <= i < |Pending(s.queue)| ==> Pending(s.queue)[i] == Parameters(numbers[|s.calls| + i])
  }

  ghost predicate Judged(s: State, numbers: seq<nat>) {
    && |s.calls| <= |numbers|
    && forall i :: 0 <= i < |s.calls| ==> s.calls[i] == (Consecutive(numbers, i), Consecutive(numbers, i))
  }

  ghost predicate Inv(s: State, capacity: nat) {
    var numbers := Numbers(s.accepted);
    && |s.queue| <= capacity
    && Pend(s.parameter1, s.parameter2) == Parameters(|s.accepted|)
    && Queued(s, numbers)
    && Judged(s, numbers)
    && Pend(s.last1, s.last2) == Parameters(Previous(numbers, |s.calls|))
  }

  lemma Low32Shift(m: nat, n: nat)
    ensures Low32(1000 + m) == Low32(1000 + n) <==> Low32(m) == Low32(n)
  {}

  lemma DemonstrateInv(s: State, capacity: nat)
    requires Inv(s, capacity)
    ensures Inv(Step(s, capacity, Demonstrate), capacity)
  {
    var n := |s.accepted|;
    var r := Step(s, capacity, Demonstrate);
    LowNext(s.parameter1, 1000 + n);
    LowNext(s.parameter2, n);
    assert r.accepted[..n] == s.accepted;
    PendingAppend(s.queue, Parameters(n + 1));
  }

  lemma OtherInv(s: State, capacity: nat)
    requires Inv(s, capacity)
    ensures Inv(Step(s, capacity, OtherProducer), capacity)
  {
    PendingAppend(s.queue, Other);
  }

  lemma ServeInv(s: State, capacity: nat)
    requires Inv(s, capacity)
    ensures Inv(Step(s, capacity, Serve), capacity)
  {
    if s.queue != [] && s.queue[0].Pend? {
      var numbers := Numbers(s.accepted);
      var i := |s.calls|;
      var previous := Previous(numbers, i);
      assert Pending(s.queue)[0] == Parameters(numbers[i]);
      var rest := Pending(s.queue[1..]);
      assert Pending(s.queue) == [s.queue[0]] + rest;
      forall k | 0 <= k < |rest| ensures rest[k] == Parameters(numbers[i + 1 + k]) {
        assert rest[k] == Pending(s.queue)[k + 1];
      }
      LowNext(s.last1, 1000 + previous);
      LowNext(s.last2, previous);
      Low32Shift(numbers[i], previous + 1);
    }
  }

  lemma {:induction false} RunInv(s: State, capacity: nat, es: seq<Event>)
    requires Inv(s, capacity)
    ensures Inv(Run(s, capacity, es), capacity)
    decreases |es|
  {
    if es != [] {
      match es[0] {
        case Demonstrate => DemonstrateInv(s, capacity);
        case OtherProducer => OtherInv(s, capacity);
        case Serve => ServeInv(s, capacity);
      }
      RunInv(Step(s, capacity, es[0]), capacity, es[1..]);
    }
  }

  // ---------- when the assertions hold ----------

  ghost predicate AllHold(calls: seq<(bool, bool)>) {
    forall i :: 0 <= i < |calls| ==> calls[i] == (true, true)
  }

  /** The refusals before the request that call i comes from. */
  function RefusedBefore(accepted: seq<bool>, i: nat): nat
    requires i < |Numbers(accepted)|
  {
    NumberIsRefusals(accepted, i);
    Refused(accepted[..Numbers(accepted)[i] - 1])
  }

  /** In every run the two producer counters stay 1000 apart, and the two
      assertions of a call never disagree. */
  lemma CountersApart(capacity: nat, es: seq<Event>)
    ensures var s := Run(Initial(), capacity, es);
            && s.parameter1 == Low32(s.parameter2 + 1000)
            && forall i :: 0 <= i < |s.calls| ==> s.calls[i].0 == s.calls[i].1
  {
    RunInv(Initial(), capacity, es);
  }

  ghost predicate AllConsecutive(numbers: seq<nat>, calls: nat)
    requires calls <= |numbers|
  {
    forall i :: 0 <= i < calls ==> Consecutive(numbers, i)
  }

  ghost predicate AllInPlace(numbers: seq<nat>, calls: nat)
    requires calls <= |numbers|
  {
    forall i :: 0 <= i < calls ==> Low32(numbers[i]) == Low32(i + 1)
  }

  lemma {:induction false} ConsecutiveFromStart(numbers: seq<nat>, calls: nat)
    requires calls <= |numbers|
    ensures AllConsecutive(numbers, calls) <==> AllInPlace(numbers, calls)
  {
    if calls > 0 {
      ConsecutiveFromStart(numbers, calls - 1);
      var i: nat := calls - 1;
      var previous := Previous(numbers, i);
      LowNext(Low32(previous), previous);
      LowNext(Low32(i), i);
      if AllConsecutive(numbers, calls) || AllInPlace(numbers, calls) {
        assert AllConsecutive(numbers, i) && AllInPlace(numbers, i);
        assert Low32(previous) == Low32(i);
        assert Consecutive(numbers, i) <==> Low32(numbers[i]) == Low32(i + 1);
      }
    }
  }

  lemma Low32Multiple(i: nat, refused: nat)
    ensures Low32(i + 1 + refused) == Low32(i + 1) <==> Low32(refused) == 0
  {}

  /** Over any run, every assertion holds if and only if each executed call has a
      multiple of 2^32 refused requests before it. */
  lemma InStepExactly(capacity: nat, es: seq<Event>)
    ensures var s := Run(Initial(), capacity, es);
            && |s.calls| <= |Numbers(s.accepted)|
            && (AllHold(s.calls) <==>
                forall i :: 0 <= i < |s.calls| ==> RefusedBefore(s.accepted, i) % 0x1_0000_0000 == 0)
  {
    RunInv(Initial(), capacity, es);
    var s := Run(Initial(), capacity, es);
    var numbers := Numbers(s.accepted);
    ConsecutiveFromStart(numbers, |s.calls|);
    assert AllHold(s.calls) <==> AllConsecutive(numbers, |s.calls|);
    forall i | 0 <= i < |s.calls|
      ensures Low32(numbers[i]) == Low32(i + 1) <==> Low32(RefusedBefore(s.accepted, i)) == 0
    {
      NumberIsRefusals(s.accepted, i);
      Low32Multiple(i, RefusedBefore(s.accepted, i));
    }
  }

  lemma {:induction false} RefusedAtMost(accepted: seq<bool>)
    ensures Refused(accepted) <= |accepted|
    decreases |accepted|
  {
    if accepted != [] { RefusedAtMost(accepted[..|accepted| - 1]); }
  }

  lemma Low32Small(n: nat)
    requires n < 0x1_0000_0000
    ensures Low32(n) == n
  {}

  /** As long as the producer has not wrapped its counters, the assertions all
      hold if and only if no executed call follows a refused request. */
  lemma InStep(capacity: nat, es: seq<Event>)
    requires |Run(Initial(), capacity, es).accepted| < 0x1_0000_0000
    ensures var s := Run(Initial(), capacity, es);
            && |s.calls| <= |Numbers(s.accepted)|
            && (AllHold(s.calls) <==> forall i :: 0 <= i < |s.calls| ==> RefusedBefore(s.accepted, i) == 0)
  {
    InStepExactly(capacity, es);
    var s := Run(Initial(), capacity, es);
    forall i | 0 <= i < |s.calls|
      ensures Low32(RefusedBefore(s.accepted, i)) == RefusedBefore(s.accepted, i)
    {
      NumberIsRefusals(s.accepted, i);
      var before := s.accepted[..Numbers(s.accepted)[i] - 1];
      RefusedAtMost(before);
      Low32Small(Refused(before));
    }
  }

  /** With room for one command, a refused request makes the next call fail. */
  lemma RefusalFails()
    ensures var es := [Demonstrate, Demonstrate, Serve, Demonstrate, Serve];
            !AllHold(Run(Initial(), 1, es).calls)
  {
    var s0 := Initial();
    var s2 := Step(Step(s0, 1, Demonstrate), 1, Demonstrate);
    var s3 := Step(s2, 1, Serve);
    var s5 := Step(Step(s3, 1, Demonstrate), 1, Serve);
    assert s5.calls == [(true, true), (false, false)];
    var none: seq<Event> := [];
    RunTwo(s3, 1, Demonstrate, Serve, none);
    var last := [Demonstrate, Serve] + none;
    assert ([Serve] + last)[1..] == last;
    RunTwo(s0, 1, Demonstrate, Demonstrate, [Serve] + last);
    var es := [Demonstrate, Demonstrate, Serve, Demonstrate, Serve];
    assert es == [Demonstrate, Demonstrate] + ([Serve] + last);
    assert Run(s0, 1, es) == s5 && s5.calls[1] != (true, true);
  }

  lemma RunTwo(s: State, capacity: nat, e: Event, f: Event, rest: seq<Event>)
    ensures Run(s, capacity, [e, f] + rest) == Run(Step(Step(s, capacity, e), capacity, f), capacity, rest)
  {
    assert ([e, f] + rest)[1..] == [f] + rest && ([f] + rest)[1..] == rest;
  }

  // ---------- the queue ----------

  /** A command is refused exactly when the queue is full; otherwise it waits
      behind all others.  A request is recorded as what became of it. */
  lemma RefusedWhenFull(s: State, capacity: nat)
    ensures var r := Step(s, capacity, Demonstrate);
            && r.accepted == s.accepted + [|s.queue| < capacity] && r.calls == s.calls
            && r.queue == if |s.queue| < capacity
                          then s.queue + [Pend((s.parameter1 + 1) % 0x1_0000_0000, (s.parameter2 + 1) % 0x1_0000_0000)]
                          else s.queue
    ensures var r := Step(s, capacity, OtherProducer);
            && r.accepted == s.accepted && r.calls == s.calls
            && r.queue == if |s.queue| < capacity then s.queue + [Other] else s.queue
  {}

  function Serves(n: nat): (es: seq<Event>)
    ensures |es| == n && forall i :: 0 <= i < n ==> es[i] == Serve
  {
    seq(n, _ => Serve)
  }

  /** Each serving takes the oldest command, of either kind, and makes the call if
      it is a request. */
  lemma ServesOldest(s: State, capacity: nat)
    ensures var r := Step(s, capacity, Serve);
            && r.accepted == s.accepted
            && r.queue == (if s.queue == [] then [] else s.queue[1..])
            && |r.calls| == |s.calls| + if s.queue != [] && s.queue[0].Pend? then 1 else 0
  {}

  lemma {:induction false} ServeAll(s: State, capacity: nat, n: nat)
    ensures var r := Run(s, capacity, Serves(n));
            && r.queue == (if n <= |s.queue| then s.queue[n..] else [])
            && r.accepted == s.accepted
    decreases n
  {
    if n > 0 {
      ServesOldest(s, capacity);
      assert Serves(n)[1..] == Serves(n - 1);
      ServeAll(Step(s, capacity, Serve), capacity, n - 1);
    }
  }

  /** Left to itself the daemon empties the queue, one command at a time, and then
      every accepted request has been called. */
  lemma ServeDrains(s: State, capacity: nat, n: nat)
    requires Inv(s, capacity) && n >= |s.queue|
    ensures var r := Run(s, capacity, Serves(n));
            r.queue == [] && r.accepted == s.accepted && |r.calls| == |Numbers(s.accepted)|
  {
    ServeAll(s, capacity, n);
    RunInv(s, capacity, Serves(n));
  }

  // ---------- the demo's own variables ----------

  class Demo {
    const queueLength: nat
    var ulParameter1: nat
    var ulParameter2: nat
    var commands: seq<Command>
    var ulLastParameter1: nat
    var ulLastParameter2: nat
    ghost var accepted: seq<bool>
    ghost var calls: seq<(bool, bool)>

    ghost function Snapshot(): State
      reads this
    {
      State(ulParameter1, ulParameter2, commands, ulLastParameter1, ulLastParameter2, accepted, calls)
    }

    constructor (queueLength: nat)
      ensures this.queueLength == queueLength && Snapshot() == Initial() && Inv(Snapshot(), queueLength)
    {
      this.queueLength := queueLength;
      ulParameter1, ulParameter2, commands := 1000, 0, [];
      ulLastParameter1, ulLastParameter2 := 1000, 0;
      accepted, calls := [], [];
    }

    /** The request with a zero block time: refused at once when the queue is full. */
    method TimerSend(command: Command) returns (ok: bool)
      modifies this`commands
      ensures ok <==> |old(commands)| < queueLength
      ensures Snapshot() == Send(old(Snapshot()), queueLength, command)
    {
      ok := |commands| < queueLength;
      if ok { commands := commands + [command]; }
    }

    method DemonstratePendingFunctionCall()
      requires Inv(Snapshot(), queueLength)
      modifies this
      ensures Snapshot() == Step(old(Snapshot()), queueLength, Demonstrate) && Inv(Snapshot(), queueLength)
    {
      DemonstrateInv(Snapshot(), queueLength);
      ulParameter1 := Plus1(ulParameter1);
      ulParameter2 := Plus1(ulParameter2);
      var ok := TimerSend(Pend(ulParameter1, ulParameter2));
      accepted := accepted + [ok];
    }

    /** ok1 and ok2: whether the two assertions hold. */
    method PendedFunction(parameter1: nat, parameter2: nat) returns (ok1: bool, ok2: bool)
      modifies this`ulLastParameter1, this`ulLastParameter2, this`calls
      ensures Snapshot() == Call(old(Snapshot()), parameter1, parameter2)
      ensures calls == old(calls) + [(ok1, ok2)]
    {
      ok1 := parameter1 == Plus1(ulLastParameter1);
      ok2 := parameter2 == Plus1(ulLastParameter2);
      calls := calls + [(ok1, ok2)];
      ulLastParameter1, ulLastParameter2 := parameter1, parameter2;
    }

    method OtherProducerSends()
      requires Inv(Snapshot(), queueLength)
      modifies this
      ensures Snapshot() == Step(old(Snapshot()), queueLength, OtherProducer) && Inv(Snapshot(), queueLength)
    {
      OtherInv(Snapshot(), queueLength);
      var _ := TimerSend(Other);
    }

    method Serve()
      requires Inv(Snapshot(), queueLength)
      modifies this
      ensures Snapshot() == Step(old(Snapshot()), queueLength, Event.Serve) && Inv(Snapshot(), queueLength)
    {
      ServeInv(Snapshot(), queueLength);
      if commands != [] {
        var command := commands[0];
        commands := commands[1..];
        match command {
          case Pend(a, b) => var _, _ := PendedFunction(a, b);
          case Other =>
        }
      }
    }
  }
}
