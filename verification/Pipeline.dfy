/** The R82 MPU demo: a sender and a receiver connected by a bounded queue, both
    writing log messages to a second bounded queue that a logger prints.

    A queue operation with an unlimited wait is one atomic step that happens
    only when the queue has room or content.  The tasks also handle a queue
    operation that reports failure, so both outcomes are steps of the model.
    Message ids are 64-bit counters and wrap. */
module Pipeline {
  import opened LogOrder

  // Where each task is: about to use a queue, or holding a line to log or print.
  datatype SenderAt = Sending | SenderLogs(line: Line) | Delaying
  datatype ReceiverAt = Receiving | ReceiverLogs(line: Line)
  datatype LoggerAt = Fetching | Printing(line: Line)

  /** sent and received count the task queue operations that succeeded; issued
      lists the lines handed to prvLogMsg, and taken says which of them the log
      queue took. */
  datatype State = State(
    counter: nat, sender: SenderAt, sent: nat,
    tasks: seq<nat>,
    last: nat, receiver: ReceiverAt, received: nat,
    log: seq<Line>, logger: LoggerAt, printed: seq<Line>,
    issued: seq<Line>, taken: seq<bool>)

  /** Queue lengths, and the number of messages after which the sender stops, if it does. */
  datatype Config = Config(taskLength: nat, logLength: nat, limit: Limit)
  datatype Limit = Endless | StopAfter(n: nat)

  datatype Event =
    | SenderStep | SendFails | SenderLogFails
    | ReceiverStep | ReceiveFails | ReceiverLogFails
    | LoggerStep

  function Initial(last: nat): State {
    State(0, Sending, 0, [], last, Receiving, 0, [], Fetching, [], [], [])
  }

  predicate Stopped(c: Config, s: State) {
    s.sender.Sending? && c.limit.StopAfter? && s.sent >= c.limit.n
  }

  predicate Enabled(c: Config, s: State, e: Event) {
    match e
    case SenderStep =>
      (match s.sender
       case Sending => |s.tasks| < c.taskLength && !Stopped(c, s)
       case SenderLogs(_) => |s.log| < c.logLength
       case Delaying => true)
    case SendFails => s.sender.Sending? && !Stopped(c, s)
    case ReceiverStep =>
      (match s.receiver
       case Receiving => s.tasks != []
       case ReceiverLogs(_) => |s.log| < c.logLength)
    case ReceiveFails => s.receiver.Receiving?
    case SenderLogFails => s.sender.SenderLogs?
    case ReceiverLogFails => s.receiver.ReceiverLogs?
    case LoggerStep => s.logger.Fetching? ==> s.log != []
  }

  /** A line is handed to prvLogMsg, which discards the result of its queue operation. */
  function Issue(s: State, line: Line, taken: bool): State {
    s.(log := if taken then s.log + [line] else s.log, issued := s.issued + [line], taken := s.taken + [taken])
  }

  function Step(c: Config, s: State, e: Event): State
    requires Enabled(c, s, e)
  {
    match e
    case SenderStep =>
      (match s.sender
       case Sending => s.(tasks := s.tasks + [s.counter], sent := s.sent + 1,
                          sender := SenderLogs(Line(Sent, s.counter)), counter := (s.counter + 1) % ID_LIMIT)
       case SenderLogs(line) => Issue(s, line, true).(sender := Delaying)
       case Delaying => s.(sender := Sending))
    case SendFails => s.(sender := SenderLogs(Line(SendFailed, s.counter)))
    case ReceiverStep =>
      (match s.receiver
       case Receiving => s.(last := s.tasks[0], tasks := s.tasks[1..], received := s.received + 1,
                            receiver := ReceiverLogs(Line(Received, s.tasks[0])))
       case ReceiverLogs(line) => Issue(s, line, true).(receiver := Receiving))
    case ReceiveFails => s.(receiver := ReceiverLogs(Line(ReceiveFailed, s.last)))
    case SenderLogFails => Issue(s, s.sender.line, false).(sender := Delaying)
    case ReceiverLogFails => Issue(s, s.receiver.line, false).(receiver := Receiving)
    case LoggerStep =>
      (match s.logger
       case Fetching => s.(logger := Printing(s.log[0]), log := s.log[1..])
       case Printing(line) => s.(printed := s.printed + [line], logger := Fetching))
  }

  ghost predicate Feasible(c: Config, s: State, es: seq<Event>)
    decreases |es|
  {
    es == [] || (Enabled(c, s, es[0]) && Feasible(c, Step(c, s, es[0]), es[1..]))
  }

  ghost function Run(c: Config, s: State, es: seq<Event>): State
    requires Feasible(c, s, es)
    decreases |es|
  {
    if es == [] then s else Run(c, Step(c, s, es[0]), es[1..])
  }

  // ---------- the log as one stream ----------

  function InHand(l: LoggerAt): seq<Line> {
    if l.Printing? then [l.line] else []
  }

  /** Every line that reached the log queue, in order: printed, being printed, still queued. */
  function Stream(s: State): seq<Line> {
    s.printed + InHand(s.logger) + s.log
  }

  // ---------- what every run keeps ----------

  function SentUnlogged(s: State): nat {
    if s.sender.SenderLogs? && s.sender.line.kind == Sent then 1 else 0
  }

  function ReceivedUnlogged(s: State): nat {
    if s.receiver.ReceiverLogs? && s.receiver.line.kind == Received then 1 else 0
  }

  ghost predicate Counted(c: Config, s: State) {
    && s.counter == s.sent % ID_LIMIT
    && |s.tasks| <= c.taskLength && |s.log| <= c.logLength
    && s.sent == s.received + |s.tasks|
    && (forall i :: 0 <= i < |s.tasks| ==> s.tasks[i] == (s.received + i) % ID_LIMIT)
    && (s.sender.SenderLogs? ==> s.sender.line.kind in {Sent, SendFailed})
    && (SentUnlogged(s) == 1 ==> s.sent > 0 && s.sender.line.id == (s.sent - 1) % ID_LIMIT)
    && (s.receiver.ReceiverLogs? ==> s.receiver.line.kind in {Received, ReceiveFailed})
    && (ReceivedUnlogged(s) == 1 ==> s.received > 0 && s.receiver.line.id == (s.received - 1) % ID_LIMIT)
    && (c.limit.StopAfter? ==> s.sent <= c.limit.n)
  }

  ghost predicate Logged(s: State) {
    && s.sent == Count(s.issued, Sent) + SentUnlogged(s)
    && s.received == Count(s.issued, Received) + ReceivedUnlogged(s)
    && Ordered(s.issued)
  }

  /** Exactly the lines taken are in the log queue, in the logger's hand or printed. */
  ghost predicate Delivered(s: State) {
    |s.taken| == |s.issued| && Stream(s) == Taken(s.issued, s.taken)
  }

  ghost predicate Inv(c: Config, s: State) { Counted(c, s) && Logged(s) && Delivered(s) }

  lemma InitialInv(c: Config, last: nat)
    ensures Inv(c, Initial(last))
  {}

  /** The line a step hands to prvLogMsg, if any. */
  function Issues(s: State, e: Event): seq<Line> {
    match e
    case SenderStep => if s.sender.SenderLogs? then [s.sender.line] else []
    case SenderLogFails => if s.sender.SenderLogs? then [s.sender.line] else []
    case ReceiverStep => if s.receiver.ReceiverLogs? then [s.receiver.line] else []
    case ReceiverLogFails => if s.receiver.ReceiverLogs? then [s.receiver.line] else []
    case SendFails => []
    case ReceiveFails => []
    case LoggerStep => []
  }

  predicate LogFails(e: Event) { e.SenderLogFails? || e.ReceiverLogFails? }

  /** How a step changes the streams: both get the line issued, unless it is lost. */
  lemma StepStream(c: Config, s: State, e: Event)
    requires Enabled(c, s, e)
    ensures Step(c, s, e).issued == s.issued + Issues(s, e)
    ensures Step(c, s, e).taken == s.taken + if Issues(s, e) == [] then [] else [!LogFails(e)]
    ensures Stream(Step(c, s, e)) == if LogFails(e) then Stream(s) else Stream(s) + Issues(s, e)
  {}

  lemma StepDelivered(c: Config, s: State, e: Event)
    requires Delivered(s) && Enabled(c, s, e)
    ensures Delivered(Step(c, s, e))
  {
    StepStream(c, s, e);
    if Issues(s, e) != [] {
      var line := Issues(s, e)[0];
      assert Issues(s, e) == [line];
      TakenAppend(s.issued, s.taken, line, !LogFails(e));
    } else {
      assert s.issued + [] == s.issued && s.taken + [] == s.taken && Stream(s) + [] == Stream(s);
    }
  }

  lemma Wrap(n: nat)
    ensures (n % ID_LIMIT + 1) % ID_LIMIT == (n + 1) % ID_LIMIT
  {}

  lemma SenderCounted(c: Config, s: State, e: Event)
    requires Counted(c, s) && Enabled(c, s, e) && (e.SenderStep? || e.SendFails? || e.SenderLogFails?)
    ensures Counted(c, Step(c, s, e))
  {
    Wrap(s.sent);
  }

  lemma StepCounted(c: Config, s: State, e: Event)
    requires Counted(c, s) && Enabled(c, s, e)
    ensures Counted(c, Step(c, s, e))
  {
    if e.SenderStep? || e.SendFails? || e.SenderLogFails? {
      SenderCounted(c, s, e);
    }
  }

  lemma SenderIssues(c: Config, s: State, r: State)
    requires Counted(c, s) && Logged(s) && s.sender.SenderLogs?
    requires r.issued == s.issued + [s.sender.line] && r.sender == Delaying && r.sent == s.sent
    requires r.received == s.received && r.receiver == s.receiver
    ensures Logged(r)
  {
    Append(s.issued, s.sender.line);
    AppendKeeps(s.issued, s.sender.line);
  }

  lemma ReceiverIssues(c: Config, s: State, r: State)
    requires Counted(c, s) && Logged(s) && s.receiver.ReceiverLogs?
    requires r.issued == s.issued + [s.receiver.line] && r.receiver == Receiving && r.sent == s.sent
    requires r.received == s.received && r.sender == s.sender
    ensures Logged(r)
  {
    Append(s.issued, s.receiver.line);
    AppendKeeps(s.issued, s.receiver.line);
  }

  lemma StepLogged(c: Config, s: State, e: Event)
    requires Counted(c, s) && Logged(s) && Enabled(c, s, e)
    ensures Logged(Step(c, s, e))
  {
    var r := Step(c, s, e);
    if s.sender.SenderLogs? && (e.SenderStep? || e.SenderLogFails?) {
      SenderIssues(c, s, r);
    } else if s.receiver.ReceiverLogs? && (e.ReceiverStep? || e.ReceiverLogFails?) {
      ReceiverIssues(c, s, r);
    } else {
      IssuesNothing(s, r);
    }
  }

  lemma IssuesNothing(s: State, r: State)
    requires Logged(s) && r.issued == s.issued
    requires r.sent - SentUnlogged(r) == s.sent - SentUnlogged(s)
    requires r.received - ReceivedUnlogged(r) == s.received - ReceivedUnlogged(s)
    ensures Logged(r)
  {}

  lemma StepInv(c: Config, s: State, e: Event)
    requires Inv(c, s) && Enabled(c, s, e)
    ensures Inv(c, Step(c, s, e))
  {
    StepCounted(c, s, e);
    StepDelivered(c, s, e);
    StepLogged(c, s, e);
  }

  lemma {:induction false} RunInv(c: Config, s: State, es: seq<Event>)
    requires Inv(c, s) && Feasible(c, s, es)
    ensures Inv(c, Run(c, s, es))
    decreases |es|
  {
    if es != [] {
      StepInv(c, s, es[0]);
      RunInv(c, Step(c, s, es[0]), es[1..]);
    }
  }

  /** In every run the task queue holds exactly the messages sent and not yet
      received, in order, and neither queue exceeds its length. */
  lemma Conservation(c: Config, last: nat, es: seq<Event>)
    requires Feasible(c, Initial(last), es)
    ensures var s := Run(c, Initial(last), es);
            && s.sent - s.received == |s.tasks| <= c.taskLength && |s.log| <= c.logLength
            && forall i :: 0 <= i < |s.tasks| ==> s.tasks[i] == (s.received + i) % ID_LIMIT
  {
    InitialInv(c, last);
    RunInv(c, Initial(last), es);
  }

  /** The issued lines up to the last one printed, and which of them were taken. */
  function SpanPrinted(s: State): (m: nat)
    requires |s.taken| == |s.issued|
    ensures m <= |s.issued|
  {
    Span(s.taken, |s.printed|)
  }

  /** In every run, whatever fails, the lines the two tasks hand out for logging
      are in causal order, and the printed ones are the first of those taken. */
  lemma CausalOrder(c: Config, last: nat, es: seq<Event>)
    requires Feasible(c, Initial(last), es)
    ensures var s := Run(c, Initial(last), es);
            && InCausalOrder(s.issued) && |s.taken| == |s.issued|
            && s.printed <= Taken(s.issued, s.taken)
            && (Lossless(s.taken) ==> InCausalOrder(s.printed))
  {
    InitialInv(c, last);
    RunInv(c, Initial(last), es);
    var s := Run(c, Initial(last), es);
    OrderedIsCausal(s.issued);
    assert Stream(s)[..|s.printed|] == s.printed;
    if Lossless(s.taken) {
      AllTaken(s.issued, s.taken);
      PrefixKeeps(s.issued, |s.printed|);
      OrderedIsCausal(s.printed);
    }
  }

  /** Below 2^64 lines, what is printed is itself in causal order if and only if
      no lost line shows in a later one that is printed. */
  lemma PrintedExactly(c: Config, last: nat, es: seq<Event>)
    requires Feasible(c, Initial(last), es)
    requires |Run(c, Initial(last), es).issued| <= 0x1_0000_0000_0000_0000
    ensures var s := Run(c, Initial(last), es);
            && |s.taken| == |s.issued|
            && (InCausalOrder(s.printed) <==> LossHidden(s.issued[..SpanPrinted(s)], s.taken[..SpanPrinted(s)]))
  {
    InitialInv(c, last);
    RunInv(c, Initial(last), es);
    var s := Run(c, Initial(last), es);
    var m := SpanPrinted(s);
    assert Stream(s)[..|s.printed|] == s.printed;
    SpanTakes(s.issued, s.taken, |s.printed|);
    PrefixKeeps(s.issued, m);
    LossExactly(s.issued[..m], s.taken[..m]);
  }

  // ---------- failures of the task queue ----------

  /** What a failure line says: how many messages had been sent; or which one was
      received last, and before the first one what the counter held at the start. */
  function FailureId(lines: seq<Line>, kind: Kind, start: nat): nat {
    if kind == SendFailed then Count(lines, Sent) % ID_LIMIT
    else if Count(lines, Received) == 0 then start
    else (Count(lines, Received) - 1) % ID_LIMIT
  }

  ghost predicate Told(lines: seq<Line>, start: nat) {
    forall p :: 0 <= p < |lines| && lines[p].kind in {SendFailed, ReceiveFailed} ==>
                  lines[p].id == FailureId(lines[..p], lines[p].kind, start)
  }

  lemma ToldAppend(lines: seq<Line>, line: Line, start: nat)
    requires Told(lines, start)
    requires line.kind in {SendFailed, ReceiveFailed} ==> line.id == FailureId(lines, line.kind, start)
    ensures Told(lines + [line], start)
  {
    var longer := lines + [line];
    forall p | 0 <= p < |longer| && longer[p].kind in {SendFailed, ReceiveFailed}
      ensures longer[p].id == FailureId(longer[..p], longer[p].kind, start)
    {
      assert longer[..p] == lines[..p];
      if p == |lines| { assert lines[..p] == lines; }
    }
  }

  function Holds(s: State, kind: Kind): nat {
    if kind == SendFailed then (if s.sender.SenderLogs? && s.sender.line.kind == kind then 1 else 0)
    else if s.receiver.ReceiverLogs? && s.receiver.line.kind == kind then 1 else 0
  }

  ghost predicate Telling(s: State, start: nat) {
    && Told(s.issued, start)
    && s.last == (if s.received == 0 then start else (s.received - 1) % ID_LIMIT)
    && (Holds(s, SendFailed) == 1 ==> s.sender.line.id == s.counter)
    && (Holds(s, ReceiveFailed) == 1 ==> s.receiver.line.id == s.last)
  }

  lemma SenderTelling(c: Config, s: State, e: Event, start: nat)
    requires Inv(c, s) && Telling(s, start) && Enabled(c, s, e)
    requires e.SenderStep? || e.SendFails? || e.SenderLogFails?
    ensures Telling(Step(c, s, e), start)
  {
    if s.sender.SenderLogs? { ToldAppend(s.issued, s.sender.line, start); }
  }

  lemma ReceiverTelling(c: Config, s: State, e: Event, start: nat)
    requires Inv(c, s) && Telling(s, start) && Enabled(c, s, e)
    requires e.ReceiverStep? || e.ReceiveFails? || e.ReceiverLogFails? || e.LoggerStep?
    ensures Telling(Step(c, s, e), start)
  {
    if s.receiver.ReceiverLogs? { ToldAppend(s.issued, s.receiver.line, start); }
  }

  function Times(es: seq<Event>, e: Event): nat {
    if es == [] then 0 else (if es[0] == e then 1 else 0) + Times(es[1..], e)
  }

  lemma StepHolds(c: Config, s: State, e: Event, kind: Kind)
    requires Counted(c, s) && Enabled(c, s, e) && kind in {SendFailed, ReceiveFailed}
    ensures var r := Step(c, s, e);
            Count(r.issued, kind) + Holds(r, kind) == Count(s.issued, kind) + Holds(s, kind)
            + if e == (if kind == SendFailed then SendFails else ReceiveFails) then 1 else 0
  {
    StepStream(c, s, e);
    if Issues(s, e) != [] {
      var line := Issues(s, e)[0];
      assert Issues(s, e) == [line];
      Append(s.issued, line);
    } else {
      assert s.issued + [] == s.issued;
    }
  }

  lemma {:induction false} RunTelling(c: Config, s: State, es: seq<Event>, start: nat)
    requires Inv(c, s) && Telling(s, start) && Feasible(c, s, es)
    ensures var r := Run(c, s, es);
            && Telling(r, start)
            && Count(r.issued, SendFailed) + Holds(r, SendFailed) ==
               Count(s.issued, SendFailed) + Holds(s, SendFailed) + Times(es, SendFails)
            && Count(r.issued, ReceiveFailed) + Holds(r, ReceiveFailed) ==
               Count(s.issued, ReceiveFailed) + Holds(s, ReceiveFailed) + Times(es, ReceiveFails)
    decreases |es|
  {
    if es != [] {
      var e := es[0];
      StepInv(c, s, e);
      if e.SenderStep? || e.SendFails? || e.SenderLogFails? {
        SenderTelling(c, s, e, start);
      } else {
        ReceiverTelling(c, s, e, start);
      }
      StepHolds(c, s, e, SendFailed);
      StepHolds(c, s, e, ReceiveFailed);
      RunTelling(c, Step(c, s, e), es[1..], start);
    }
  }

  /** In every run each failure of the task queue is logged once, and the line
      tells how far the sender had come, or what the receiver had last. */
  lemma FailuresTold(c: Config, last: nat, es: seq<Event>)
    requires Feasible(c, Initial(last), es)
    ensures var s := Run(c, Initial(last), es);
            && Told(s.issued, last)
            && Count(s.issued, SendFailed) + Holds(s, SendFailed) == Times(es, SendFails)
            && Count(s.issued, ReceiveFailed) + Holds(s, ReceiveFailed) == Times(es, ReceiveFails)
  {
    InitialInv(c, last);
    RunTelling(c, Initial(last), es, last);
  }

  // ---------- orders that do occur ----------

  /** A configuration in which one message can be sent and logged. */
  predicate CanSend(c: Config) {
    c.taskLength >= 1 && c.logLength >= 1 && (c.limit.StopAfter? ==> c.limit.n >= 1)
  }

  /** Two steps that lead from one state to another. */
  predicate Two(c: Config, s: State, e: Event, f: Event, t: State) {
    Enabled(c, s, e) && Enabled(c, Step(c, s, e), f) && Step(c, Step(c, s, e), f) == t
  }

  ghost predicate Leads(c: Config, s: State, t: State) {
    exists es :: Feasible(c, s, es) && Run(c, s, es) == t
  }

  lemma LeadsNowhere(c: Config, s: State)
    ensures Leads(c, s, s)
  {
    var es: seq<Event> := [];
    assert Feasible(c, s, es) && Run(c, s, es) == s;
  }

  lemma LeadsOn(c: Config, s: State, e: Event, f: Event, t: State, last: State)
    requires Two(c, s, e, f, t) && Leads(c, t, last)
    ensures Leads(c, s, last)
  {
    var rest :| Feasible(c, t, rest) && Run(c, t, rest) == last;
    var es := [e] + ([f] + rest);
    assert es[1..] == [f] + rest && ([f] + rest)[1..] == rest;
    var mid := Step(c, s, e);
    assert Feasible(c, mid, [f] + rest) && Run(c, mid, [f] + rest) == last;
    assert Feasible(c, s, es) && Run(c, s, es) == last;
  }

  /** Message 0 has been sent and received, and neither task has logged it yet. */
  function BothLogging(): State {
    State(1, SenderLogs(Line(Sent, 0)), 1, [], 0, ReceiverLogs(Line(Received, 0)), 1, [], Fetching, [], [], [])
  }

  lemma BothReached(c: Config)
    requires CanSend(c)
    ensures Two(c, Initial(0), SenderStep, ReceiverStep, BothLogging())
  {}

  lemma PrintOne(c: Config, s: State)
    requires s.logger.Fetching? && |s.log| == 1
    ensures Two(c, s, LoggerStep, LoggerStep, s.(log := [], printed := s.printed + s.log))
  {}

  /** Nothing stronger holds, whatever the queue lengths: message 0 may be
      reported received before it is reported sent ... */
  lemma ReceivedFirst(c: Config)
    requires CanSend(c)
    ensures exists s :: Leads(c, Initial(0), s) && s.printed == [Line(Received, 0), Line(Sent, 0)]
  {
    var both := BothLogging();
    var first := both.(receiver := Receiving, logger := Printing(Line(Received, 0)),
                       issued := [Line(Received, 0)], taken := [true]);
    var second := first.(logger := Fetching, printed := [Line(Received, 0)], log := [Line(Sent, 0)],
                         sender := Delaying, issued := [Line(Received, 0), Line(Sent, 0)], taken := [true, true]);
    assert Two(c, both, ReceiverStep, LoggerStep, first);
    assert Two(c, first, LoggerStep, SenderStep, second);
    OneEach(c, both, first, second, ReceiverStep, SenderStep);
  }

  /** ... and the other way round. */
  lemma SentFirst(c: Config)
    requires CanSend(c)
    ensures exists s :: Leads(c, Initial(0), s) && s.printed == [Line(Sent, 0), Line(Received, 0)]
  {
    var both := BothLogging();
    var first := both.(sender := Delaying, logger := Printing(Line(Sent, 0)),
                       issued := [Line(Sent, 0)], taken := [true]);
    var second := first.(logger := Fetching, printed := [Line(Sent, 0)], log := [Line(Received, 0)],
                         receiver := Receiving, issued := [Line(Sent, 0), Line(Received, 0)], taken := [true, true]);
    assert Two(c, both, SenderStep, LoggerStep, first);
    assert Two(c, first, LoggerStep, ReceiverStep, second);
    OneEach(c, both, first, second, SenderStep, ReceiverStep);
  }

  /** Task e logs its line and the logger prints it; then the same for task f. */
  lemma OneEach(c: Config, both: State, first: State, second: State, e: Event, f: Event)
    requires CanSend(c) && both == BothLogging()
    requires Two(c, both, e, LoggerStep, first) && Two(c, first, LoggerStep, f, second)
    requires second.logger.Fetching? && |second.log| == 1
    ensures exists s :: Leads(c, Initial(0), s) && s.printed == second.printed + second.log
  {
    var last := second.(log := [], printed := second.printed + second.log);
    LeadsNowhere(c, last);
    PrintOne(c, second);
    LeadsOn(c, second, LoggerStep, LoggerStep, last, last);
    LeadsOn(c, first, LoggerStep, f, second, last);
    LeadsOn(c, both, e, LoggerStep, first, last);
    BothReached(c);
    LeadsOn(c, Initial(0), SenderStep, ReceiverStep, both, last);
  }

  /** A lost line may also be a Received one, and then the log does not tell that
      message 0 was received. */
  lemma ReceivedLost(c: Config)
    requires CanSend(c)
    ensures exists s :: Leads(c, Initial(0), s) && s.printed == [Line(Sent, 0)]
                        && s.issued == [Line(Received, 0), Line(Sent, 0)] && s.taken == [false, true]
  {
    var both := BothLogging();
    var logged := both.(receiver := Receiving, sender := Delaying, log := [Line(Sent, 0)],
                        issued := [Line(Received, 0), Line(Sent, 0)], taken := [false, true]);
    var last := logged.(log := [], printed := logged.printed + logged.log);
    LeadsNowhere(c, last);
    PrintOne(c, logged);
    LeadsOn(c, logged, LoggerStep, LoggerStep, last, last);
    assert Two(c, both, ReceiverLogFails, SenderStep, logged);
    LeadsOn(c, both, ReceiverLogFails, SenderStep, logged, last);
    BothReached(c);
    LeadsOn(c, Initial(0), SenderStep, ReceiverStep, both, last);
  }

  /** Either task's failure can come first, and is printed as such. */
  lemma FailedFirst(c: Config, last: nat)
    requires CanSend(c)
    ensures exists s :: Leads(c, Initial(last), s) && s.printed == [Line(SendFailed, 0)]
    ensures exists s :: Leads(c, Initial(last), s) && s.printed == [Line(ReceiveFailed, last)]
  {
    OneFails(c, Initial(last), SendFails, SenderStep, Line(SendFailed, 0));
    OneFails(c, Initial(last), ReceiveFails, ReceiverStep, Line(ReceiveFailed, last));
  }

  lemma OneFails(c: Config, s: State, e: Event, f: Event, line: Line)
    requires Enabled(c, s, e) && Enabled(c, Step(c, s, e), f)
    requires var t := Step(c, Step(c, s, e), f); t.logger.Fetching? && t.log == [line] && t.printed == []
    ensures exists r :: Leads(c, s, r) && r.printed == [line]
  {
    var t := Step(c, Step(c, s, e), f);
    var r := t.(log := [], printed := t.printed + t.log);
    LeadsNowhere(c, r);
    PrintOne(c, t);
    LeadsOn(c, t, LoggerStep, LoggerStep, r, r);
    LeadsOn(c, s, e, f, t, r);
  }

  // After the loss of "Sent 0": message 0 received, then message 1 sent and logged.

  const FIRST_LOST := State(1, Delaying, 1, [0], 0, Receiving, 0, [], Fetching, [], [Line(Sent, 0)], [false])

  const FIRST_TAKEN :=
    FIRST_LOST.(sender := Sending, tasks := [], receiver := ReceiverLogs(Line(Received, 0)), received := 1)

  const SECOND_LOGGED :=
    FIRST_TAKEN.(counter := 2, sender := Delaying, sent := 2, tasks := [1], log := [Line(Sent, 1)],
                 issued := [Line(Sent, 0), Line(Sent, 1)], taken := [false, true])

  lemma LoseFirst(c: Config)
    requires CanSend(c) && (c.limit.StopAfter? ==> c.limit.n >= 2)
    ensures Two(c, Initial(0), SenderStep, SenderLogFails, FIRST_LOST)
    ensures Two(c, FIRST_LOST, ReceiverStep, SenderStep, FIRST_TAKEN)
  {}

  lemma LogSecond(c: Config)
    requires CanSend(c) && (c.limit.StopAfter? ==> c.limit.n >= 2)
    ensures Two(c, FIRST_TAKEN, SenderStep, SenderStep, SECOND_LOGGED)
  {}

  /** A lost line may show: after the loss of "Sent 0" the log starts with "Sent 1". */
  lemma LostLineShows(c: Config)
    requires CanSend(c) && (c.limit.StopAfter? ==> c.limit.n >= 2)
    ensures exists s :: Leads(c, Initial(0), s) && s.printed == [Line(Sent, 1)] && !InCausalOrder(s.printed)
  {
    var last := SECOND_LOGGED.(log := [], printed := SECOND_LOGGED.printed + SECOND_LOGGED.log);
    LeadsNowhere(c, last);
    PrintOne(c, SECOND_LOGGED);
    LeadsOn(c, SECOND_LOGGED, LoggerStep, LoggerStep, last, last);
    LogSecond(c);
    LeadsOn(c, FIRST_TAKEN, SenderStep, SenderStep, SECOND_LOGGED, last);
    LoseFirst(c);
    LeadsOn(c, FIRST_LOST, ReceiverStep, SenderStep, FIRST_TAKEN, last);
    LeadsOn(c, Initial(0), SenderStep, SenderLogFails, FIRST_LOST, last);
    assert last.printed == [Line(Sent, 1)];
    assert last.printed[..0] == [];
  }

  // ---------- progress ----------

  /** No task can take a step: each waits on a queue, or is a stopped sender. */
  predicate AllBlocked(c: Config, s: State) {
    !Enabled(c, s, SenderStep) && !Enabled(c, s, ReceiverStep) && !Enabled(c, s, LoggerStep)
  }

  /** Whatever the queue lengths, the three tasks are never all waiting on
      queues; and if a limited sender is included, all three stand still only
      when everything has been printed. */
  lemma NoDeadlock(c: Config, s: State)
    requires c.taskLength >= 1 && c.logLength >= 1
    ensures AllBlocked(c, s) ==>
      Stopped(c, s) && s.tasks == [] && s.receiver.Receiving? && s.log == [] && s.logger.Fetching?
  {}

  /** The work left: nine steps for each message not yet sent, and what remains
      to be done for those on their way. */
  function Work(n: nat, s: State): nat
    requires s.sent <= n
  {
    9 * (n - s.sent)
    + (match s.sender case Sending => 0 case SenderLogs(_) => 4 case Delaying => 1)
    + 4 * |s.tasks|
    + (if s.receiver.ReceiverLogs? then 3 else 0)
    + 2 * |s.log|
    + (if s.logger.Printing? then 1 else 0)
  }

  /** Steps in which a queue operation reports failure. */
  predicate Fails(e: Event) {
    e.SendFails? || e.ReceiveFails? || e.SenderLogFails? || e.ReceiverLogFails?
  }

  ghost predicate NoFailures(es: seq<Event>) {
    forall e :: e in es ==> !Fails(e)
  }

  lemma StepWorkIsOne(c: Config, s: State, e: Event)
    requires c.limit.StopAfter? && s.sent <= c.limit.n && Enabled(c, s, e) && !Fails(e)
    ensures var r := Step(c, s, e);
            && r.sent <= c.limit.n && (Lossless(s.taken) ==> Lossless(r.taken))
            && Work(c.limit.n, s) == Work(c.limit.n, r) + 1
  {}

  /** Every step does exactly one unit of the work. */
  lemma StepWork(c: Config, s: State, e: Event)
    requires c.limit.StopAfter? && Inv(c, s) && Enabled(c, s, e) && !Fails(e)
    ensures Inv(c, Step(c, s, e)) && (Lossless(s.taken) ==> Lossless(Step(c, s, e).taken))
    ensures Work(c.limit.n, s) == Work(c.limit.n, Step(c, s, e)) + 1
  {
    StepInv(c, s, e);
    StepWorkIsOne(c, s, e);
  }

  lemma {:induction false} RunWork(c: Config, s: State, es: seq<Event>)
    requires c.limit.StopAfter? && Inv(c, s) && Feasible(c, s, es) && NoFailures(es)
    ensures Inv(c, Run(c, s, es)) && (Lossless(s.taken) ==> Lossless(Run(c, s, es).taken))
    ensures Work(c.limit.n, s) == Work(c.limit.n, Run(c, s, es)) + |es|
    decreases |es|
  {
    if es != [] {
      StepWork(c, s, es[0]);
      RunWork(c, Step(c, s, es[0]), es[1..]);
    }
  }

  /** If the sender stops after n messages, no run is longer than 9 n steps, and
      a run that cannot be continued has exactly that length, has printed n Sent
      and n Received lines, and has left nothing in the queues. */
  lemma Drains(c: Config, last: nat, es: seq<Event>)
    requires c.taskLength >= 1 && c.logLength >= 1 && c.limit.StopAfter?
    requires Feasible(c, Initial(last), es) && NoFailures(es)
    ensures |es| <= 9 * c.limit.n
    ensures var s := Run(c, Initial(last), es);
            AllBlocked(c, s) ==>
              && |es| == 9 * c.limit.n
              && Count(s.printed, Sent) == Count(s.printed, Received) == c.limit.n
              && s.tasks == [] && s.log == []
  {
    InitialInv(c, last);
    RunWork(c, Initial(last), es);
    var s := Run(c, Initial(last), es);
    if AllBlocked(c, s) {
      AllIdle(c, s);
    }
  }

  // ---------- the tasks' own variables ----------

  class Demo {
    const c: Config
    var ullSent: nat           // the sender's counter
    var sender: SenderAt
    var tasksQueue: seq<nat>
    var ullReceived: nat       // the receiver's counter
    var receiver: ReceiverAt
    var logQueue: seq<Line>
    var logger: LoggerAt
    var console: seq<Line>
    var sent: nat
    var received: nat
    var issued: seq<Line>      // history
    var taken: seq<bool>

    ghost function Snapshot(): State
      reads this
    {
      State(ullSent, sender, sent, tasksQueue, ullReceived, receiver, received,
            logQueue, logger, console, issued, taken)
    }

    constructor (c: Config, last: nat)
      ensures this.c == c && Snapshot() == Initial(last)
    {
      this.c := c;
      ullSent, sender, tasksQueue, sent := 0, Sending, [], 0;
      ullReceived, receiver, received := last, Receiving, 0;
      logQueue, logger, console, issued, taken := [], Fetching, [], [], [];
    }

    /** The end of prvLogMsg, which discards the result of its queue operation. */
    method LogMsg(line: Line, ok: bool)
      modifies `logQueue, `issued, `taken
      ensures Snapshot() == Issue(old(Snapshot()), line, ok)
    {
      issued, taken := issued + [line], taken + [ok];
      if ok {
        logQueue := logQueue + [line];
      }
    }

    method SenderTask()
      requires Enabled(c, Snapshot(), SenderStep)
      modifies this
      ensures Snapshot() == Step(c, old(Snapshot()), SenderStep)
    {
      match sender {
        case Sending =>
          tasksQueue := tasksQueue + [ullSent];
          sent := sent + 1;
          sender := SenderLogs(Line(Sent, ullSent));
          ullSent := (ullSent + 1) % ID_LIMIT;
        case SenderLogs(line) =>
          LogMsg(line, true);
          sender := Delaying;
        case Delaying =>
          sender := Sending;
      }
    }

    /** The sender's other branch: the queue reported a failure. */
    method SenderTaskFails()
      requires Enabled(c, Snapshot(), SendFails)
      modifies this
      ensures Snapshot() == Step(c, old(Snapshot()), SendFails)
    {
      sender := SenderLogs(Line(SendFailed, ullSent));
    }

    /** The receiver's other branch logs whatever its counter last held. */
    method ReceiverTaskFails()
      requires Enabled(c, Snapshot(), ReceiveFails)
      modifies this
      ensures Snapshot() == Step(c, old(Snapshot()), ReceiveFails)
    {
      receiver := ReceiverLogs(Line(ReceiveFailed, ullReceived));
    }

    method SenderLogIsLost()
      requires Enabled(c, Snapshot(), SenderLogFails)
      modifies this
      ensures Snapshot() == Step(c, old(Snapshot()), SenderLogFails)
    {
      LogMsg(sender.line, false);
      sender := Delaying;
    }

    method ReceiverLogIsLost()
      requires Enabled(c, Snapshot(), ReceiverLogFails)
      modifies this
      ensures Snapshot() == Step(c, old(Snapshot()), ReceiverLogFails)
    {
      LogMsg(receiver.line, false);
      receiver := Receiving;
    }

    method ReceiverTask()
      requires Enabled(c, Snapshot(), ReceiverStep)
      modifies this
      ensures Snapshot() == Step(c, old(Snapshot()), ReceiverStep)
    {
      match receiver {
        case Receiving =>
          ullReceived := tasksQueue[0];
          tasksQueue := tasksQueue[1..];
          received := received + 1;
          receiver := ReceiverLogs(Line(Received, ullReceived));
        case ReceiverLogs(line) =>
          LogMsg(line, true);
          receiver := Receiving;
      }
    }

    method LoggerTask()
      requires Enabled(c, Snapshot(), LoggerStep)
      modifies this
      ensures Snapshot() == Step(c, old(Snapshot()), LoggerStep)
    {
      match logger {
        case Fetching =>
          logger := Printing(logQueue[0]);
          logQueue := logQueue[1..];
        case Printing(line) =>
          console := console + [line];
          logger := Fetching;
      }
    }

    /** The task whose turn it is takes one step. */
    method Dispatch(e: Event)
      requires Enabled(c, Snapshot(), e) && !Fails(e)
      modifies this
      ensures Snapshot() == Step(c, old(Snapshot()), e)
    {
      match e {
        case SenderStep => SenderTask();
        case ReceiverStep => ReceiverTask();
        case LoggerStep => LoggerTask();
      }
    }

    /** The scheduler lets any task that can move take a step, until none can. */
    method RunToEnd(n: nat)
      requires c.taskLength >= 1 && c.logLength >= 1 && c.limit == StopAfter(n)
      requires Inv(c, Snapshot())
      modifies this
      ensures Inv(c, Snapshot()) && AllBlocked(c, Snapshot())
      ensures Lossless(old(taken)) ==> Count(console, Sent) == Count(console, Received) == n
    {
      while true
        invariant Inv(c, Snapshot()) && (Lossless(old(taken)) ==> Lossless(taken))
        decreases Work(n, Snapshot())
      {
        var s := State(ullSent, sender, sent, tasksQueue, ullReceived, receiver, received,
                       logQueue, logger, console, issued, taken);
        if AllBlocked(c, s) {
          if Lossless(taken) { AllIdle(c, s); }
          return;
        }
        var e: Event :| !Fails(e) && Enabled(c, s, e);
        StepWork(c, s, e);
        Dispatch(e);
      }
    }
  }

  lemma AllIdle(c: Config, s: State)
    requires c.taskLength >= 1 && c.logLength >= 1 && c.limit.StopAfter? && Inv(c, s)
    requires AllBlocked(c, s) && Lossless(s.taken)
    ensures Count(s.printed, Sent) == Count(s.printed, Received) == c.limit.n && s.tasks == [] && s.log == []
  {
    NoDeadlock(c, s);
    AllTaken(s.issued, s.taken);
    assert Stream(s) == s.printed;
  }
}
