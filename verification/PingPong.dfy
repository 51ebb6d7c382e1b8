/** The RP2350 SMP demo: a ping task and a pong task take turns through a shared
    flag, and a third task prints now and then; all three use one mutex.

    Taking the mutex, testing the flag, printing, writing the flag and giving
    the mutex back are separate steps, on any core and in any interleaving. */
module PingPong {

  datatype Task = Ping | Pong | Bouncing

  datatype At = Taking | Testing | Printing | Writing | Giving | Delaying

  /** Where each of the three tasks is. */
  datatype Places = Places(ping: At, pong: At, bouncing: At) {
    function Of(t: Task): At {
      match t
      case Ping => ping
      case Pong => pong
      case Bouncing => bouncing
    }

    function With(t: Task, at: At): (p: Places)
      ensures forall u: Task :: p.Of(u) == if u == t then at else Of(u)
    {
      match t
      case Ping => this.(ping := at)
      case Pong => this.(pong := at)
      case Bouncing => this.(bouncing := at)
    }
  }

  datatype Mutex = Free | Held(who: Task)

  datatype State = State(places: Places, mutex: Mutex, flag: nat, printed: seq<Task>)

  function Initial(): State {
    State(Places(Taking, Taking, Taking), Free, 0, [])
  }

  /** The flag value a task waits for, and the value it leaves. */
  function Awaits(t: Task): nat { if t.Pong? then 1 else 0 }

  function Leaves(t: Task): nat { if t.Pong? then 0 else 1 }

  /** Only a take can be held up: the mutex has to be free. */
  predicate Enabled(s: State, t: Task) {
    s.places.Of(t) == Taking ==> s.mutex == Free
  }

  /** Where task t goes next. */
  function Next(s: State, t: Task): At {
    match s.places.Of(t)
    case Taking => if t.Bouncing? then Printing else Testing
    case Testing => if s.flag == Awaits(t) then Printing else Giving
    case Printing => if t.Bouncing? then Giving else Writing
    case Writing => Giving
    case Giving => Delaying
    case Delaying => Taking
  }

  /** The next step of task t; printed records who printed. */
  function Step(s: State, t: Task): State
    requires Enabled(s, t)
  {
    var moved := s.(places := s.places.With(t, Next(s, t)));
    match s.places.Of(t)
    case Taking => moved.(mutex := Held(t))
    case Printing => moved.(printed := s.printed + [t])
    case Writing => moved.(flag := Leaves(t))
    case Giving => moved.(mutex := Free)
    case Testing => moved
    case Delaying => moved
  }

  ghost predicate Feasible(s: State, ts: seq<Task>)
    decreases |ts|
  {
    ts != [] ==> Enabled(s, ts[0]) && Feasible(Step(s, ts[0]), ts[1..])
  }

  ghost function Run(s: State, ts: seq<Task>): State
    requires Feasible(s, ts)
    decreases |ts|
  {
    if ts == [] then s else Run(Step(s, ts[0]), ts[1..])
  }

  // ---------- what every run keeps ----------

  predicate InSection(at: At) { !at.Taking? && !at.Delaying? }

  /** The ping and pong lines alone. */
  function Rally(printed: seq<Task>): seq<Task> {
    if printed == [] then []
    else
      var earlier := Rally(printed[..|printed| - 1]);
      if printed[|printed| - 1].Bouncing? then earlier else earlier + [printed[|printed| - 1]]
  }

  /** Ping and pong strictly alternate, ping first. */
  ghost predicate Alternates(rally: seq<Task>) {
    forall i :: 0 <= i < |rally| ==> rally[i] == if i % 2 == 0 then Ping else Pong
  }

  function Count(rally: seq<Task>, t: Task): nat {
    if rally == [] then 0
    else Count(rally[..|rally| - 1], t) + (if rally[|rally| - 1] == t then 1 else 0)
  }

  lemma {:induction false} AlternatesCounts(rally: seq<Task>)
    requires Alternates(rally)
    ensures Count(rally, Ping) - Count(rally, Pong) == |rally| % 2
  {
    if rally != [] {
      AlternatesCounts(rally[..|rally| - 1]);
    }
  }

  lemma RallyAppend(printed: seq<Task>, t: Task)
    ensures Rally(printed + [t]) == if t.Bouncing? then Rally(printed) else Rally(printed) + [t]
  {
    assert (printed + [t])[..|printed|] == printed;
  }

  /** A line has been printed whose flag write is still to come. */
  predicate WritePending(s: State) {
    s.places.ping == Writing || s.places.pong == Writing
  }

  ghost predicate Inv(s: State) {
    && (forall t: Task :: s.mutex == Held(t) <==> InSection(s.places.Of(t)))
    && s.flag <= 1
    && (forall t: Task :: !t.Bouncing? && s.places.Of(t) in {Printing, Writing} ==> s.flag == Awaits(t))
    && s.places.bouncing !in {Testing, Writing}
    && Alternates(Rally(s.printed))
    && |Rally(s.printed)| % 2 == if WritePending(s) then 1 - s.flag else s.flag
  }

  lemma InitialInv()
    ensures Inv(Initial())
  {}

  lemma PrintInv(s: State, t: Task)
    requires Inv(s) && s.places.Of(t) == Printing
    ensures Inv(Step(s, t))
  {
    RallyAppend(s.printed, t);
    assert s.mutex == Held(t);
    assert !WritePending(s) by {
      assert forall u: Task :: u != t ==> !InSection(s.places.Of(u));
      assert s.places.ping == s.places.Of(Ping) && s.places.pong == s.places.Of(Pong);
    }
  }

  lemma OtherInv(s: State, t: Task)
    requires Inv(s) && Enabled(s, t) && s.places.Of(t) != Printing
    ensures Inv(Step(s, t))
  {
    var r := Step(s, t);
    assert r.places.ping == r.places.Of(Ping) && r.places.pong == r.places.Of(Pong);
    assert s.places.ping == s.places.Of(Ping) && s.places.pong == s.places.Of(Pong);
    assert forall u: Task :: InSection(r.places.Of(u)) <==> r.mutex == Held(u);
  }

  lemma StepInv(s: State, t: Task)
    requires Inv(s) && Enabled(s, t)
    ensures Inv(Step(s, t))
  {
    if s.places.Of(t) == Printing {
      PrintInv(s, t);
    } else {
      OtherInv(s, t);
    }
  }

  lemma {:induction false} RunInv(s: State, ts: seq<Task>)
    requires Inv(s) && Feasible(s, ts)
    ensures Inv(Run(s, ts))
    decreases |ts|
  {
    if ts != [] {
      StepInv(s, ts[0]);
      RunInv(Step(s, ts[0]), ts[1..]);
    }
  }

  /** In every run, at most one task is between its take and its give, the two
      players alternate starting with ping, and unless a flag write is pending
      the flag says how many pings are unanswered. */
  lemma Safe(ts: seq<Task>)
    requires Feasible(Initial(), ts)
    ensures var s := Run(Initial(), ts);
            && (forall t: Task, u: Task :: InSection(s.places.Of(t)) && InSection(s.places.Of(u)) ==> t == u)
            && Alternates(Rally(s.printed))
            && (!WritePending(s) ==> Count(Rally(s.printed), Ping) - Count(Rally(s.printed), Pong) == s.flag)
  {
    InitialInv();
    RunInv(Initial(), ts);
    AlternatesCounts(Rally(Run(Initial(), ts).printed));
  }

  // ---------- what a round does ----------

  /** Whether a task that took the mutex with this flag has a line to print. */
  predicate HasTurn(t: Task, flag: nat) {
    t == Bouncing || (t == Ping && flag == 0) || (t == Pong && flag == 1)
  }

  /** The flag after the round. */
  function FlagAfter(t: Task, flag: nat): nat {
    if t == Ping && flag == 0 then 1 else if t == Pong && flag == 1 then 0 else flag
  }

  /** How far task t's round has come since it took the mutex in state s. */
  predicate Round(s: State, r: State, t: Task) {
    && r.mutex == Held(t)
    && match r.places.Of(t)
       case Testing => r.printed == s.printed && r.flag == s.flag && t != Bouncing
       case Printing => r.printed == s.printed && r.flag == s.flag && HasTurn(t, s.flag)
       case Writing => r.printed == s.printed + [t] && r.flag == s.flag && HasTurn(t, s.flag) && t != Bouncing
       case Giving =>
         && r.printed == (if HasTurn(t, s.flag) then s.printed + [t] else s.printed)
         && r.flag == FlagAfter(t, s.flag)
       case Taking => false
       case Delaying => false
  }

  lemma RoundStep(s: State, r: State, t: Task, u: Task)
    requires Inv(r) && Round(s, r, t) && Enabled(r, u)
    ensures if u == t && r.places.Of(t) == Giving
            then Step(r, u) == r.(mutex := Free, places := r.places.With(t, Delaying))
            else Round(s, Step(r, u), t)
  {
    assert u != t ==> !InSection(r.places.Of(u));
  }

  /** Task t holds the mutex all the way. */
  ghost predicate Holding(s: State, ts: seq<Task>, t: Task)
    requires Feasible(s, ts)
    decreases |ts|
  {
    s.mutex == Held(t) && (ts != [] ==> Holding(Step(s, ts[0]), ts[1..], t))
  }

  lemma {:induction false} RoundRun(s: State, r: State, ts: seq<Task>, t: Task)
    requires Inv(r) && Round(s, r, t) && Feasible(r, ts) && Holding(r, ts, t)
    ensures Inv(Run(r, ts)) && Round(s, Run(r, ts), t)
    decreases |ts|
  {
    if ts != [] {
      RoundStep(s, r, t, ts[0]);
      StepInv(r, ts[0]);
      RoundRun(s, Step(r, ts[0]), ts[1..], t);
    }
  }

  /** From its take until it is about to give, and whatever the others do in
      between, a player prints one line and flips the flag if the flag is its
      own value, and otherwise leaves both alone; the third task prints one line. */
  lemma RoundPrints(s: State, t: Task, ts: seq<Task>)
    requires Inv(s) && s.mutex == Free && s.places.Of(t) == Taking
    requires Feasible(Step(s, t), ts) && Holding(Step(s, t), ts, t)
    requires Run(Step(s, t), ts).places.Of(t) == Giving
    ensures var r := Run(Step(s, t), ts);
            && r.printed == (if HasTurn(t, s.flag) then s.printed + [t] else s.printed)
            && r.flag == FlagAfter(t, s.flag)
  {
    StepInv(s, t);
    RoundRun(s, Step(s, t), ts, t);
  }

  /** How many rounds task t ends in a run. */
  ghost function Gives(s: State, ts: seq<Task>, t: Task): nat
    requires Feasible(s, ts)
    decreases |ts|
  {
    if ts == [] then 0
    else (if ts[0] == t && s.places.Of(t) == Giving then 1 else 0) + Gives(Step(s, ts[0]), ts[1..], t)
  }

  lemma {:induction false} RallyKeeps(s: State, ts: seq<Task>)
    requires Feasible(s, ts)
    ensures |Rally(s.printed)| <= |Rally(Run(s, ts).printed)|
    decreases |ts|
  {
    if ts != [] {
      RallyAppend(s.printed, ts[0]);
      RallyKeeps(Step(s, ts[0]), ts[1..]);
    }
  }

  /** The player whose turn it is cannot end a round without a line. */
  lemma {:induction false} QuietGives(s: State, ts: seq<Task>, t: Task)
    requires Inv(s) && Feasible(s, ts) && t != Bouncing
    requires |Rally(s.printed)| % 2 == if t == Ping then 0 else 1
    requires |Rally(Run(s, ts).printed)| == |Rally(s.printed)|
    ensures Gives(s, ts, t) <= if s.places.Of(t) == Giving then 1 else 0
    decreases |ts|
  {
    if ts != [] {
      var u, next := ts[0], Step(s, ts[0]);
      RallyKeeps(next, ts[1..]);
      RallyAppend(s.printed, u);
      StepInv(s, u);
      if u == t { QuietStep(s, t); }
      QuietGives(next, ts[1..], t);
    }
  }

  /** In its turn, a player that does not print and is not giving is not about to. */
  lemma QuietStep(s: State, t: Task)
    requires Inv(s) && Enabled(s, t) && t != Bouncing && s.places.Of(t) != Printing
    requires |Rally(s.printed)| % 2 == if t == Ping then 0 else 1
    ensures Step(s, t).places.Of(t) != Giving
  {
    assert s.places.ping == s.places.Of(Ping) && s.places.pong == s.places.Of(Pong);
    if s.places.Of(t) == Testing {
      assert s.mutex == Held(t);
      assert forall u: Task :: u != t ==> !InSection(s.places.Of(u));
    }
  }

  /** The game goes on: once both players have ended two rounds, a line has been
      printed by one of them. */
  lemma RallyGrows(s: State, ts: seq<Task>)
    requires Inv(s) && Feasible(s, ts) && Gives(s, ts, Ping) >= 2 && Gives(s, ts, Pong) >= 2
    ensures |Rally(Run(s, ts).printed)| > |Rally(s.printed)|
  {
    RallyKeeps(s, ts);
    if |Rally(Run(s, ts).printed)| == |Rally(s.printed)| {
      QuietGives(s, ts, if |Rally(s.printed)| % 2 == 0 then Ping else Pong);
    }
  }

  function Giving1(s: State, t: Task): nat { if s.places.Of(t) == Giving then 1 else 0 }

  lemma CountAppend(printed: seq<Task>, u: Task, t: Task)
    ensures Count(printed + [u], t) == Count(printed, t) + if u == t then 1 else 0
  {
    assert (printed + [u])[..|printed|] == printed;
  }

  lemma BouncingStep(s: State, t: Task)
    requires Inv(s) && Enabled(s, t)
    ensures var r := Step(s, t);
            Count(r.printed, Bouncing) - Giving1(r, Bouncing) ==
            Count(s.printed, Bouncing) - Giving1(s, Bouncing)
            + if t == Bouncing && s.places.Of(t) == Giving then 1 else 0
  {
    CountAppend(s.printed, t, Bouncing);
    assert s.places.bouncing == s.places.Of(Bouncing);
  }

  /** Every complete round of the third task prints exactly one line. */
  lemma {:induction false} BouncingPrints(s: State, ts: seq<Task>)
    requires Inv(s) && Feasible(s, ts)
    ensures var r := Run(s, ts);
            Count(r.printed, Bouncing) - Giving1(r, Bouncing) ==
            Count(s.printed, Bouncing) - Giving1(s, Bouncing) + Gives(s, ts, Bouncing)
    decreases |ts|
  {
    if ts != [] {
      StepInv(s, ts[0]);
      BouncingStep(s, ts[0]);
      BouncingPrints(Step(s, ts[0]), ts[1..]);
    }
  }

  // ---------- nobody gets stuck ----------

  /** A task is held up only while another one holds the mutex, and that one can go on. */
  lemma HeldUpByHolder(s: State, t: Task)
    requires Inv(s) && !Enabled(s, t)
    ensures s.mutex.Held? && s.mutex.who != t && Enabled(s, s.mutex.who)
  {
    assert InSection(s.places.Of(s.mutex.who));
  }

  /** Steps until the holder gives the mutex back. */
  function ToGive(at: At): nat {
    match at
    case Testing => 4
    case Printing => 3
    case Writing => 2
    case Giving => 1
    case Taking => 0
    case Delaying => 0
  }

  /** The holder can always go on, and only its own steps lead it, after at most
      four of them, to giving the mutex back; so no task waits for ever because
      of a step the holder cannot take. */
  lemma HolderProgresses(s: State, t: Task)
    requires Inv(s) && s.mutex == Held(t)
    ensures Enabled(s, t) && 1 <= ToGive(s.places.Of(t)) <= 4
    ensures var r := Step(s, t);
            if ToGive(s.places.Of(t)) == 1 then r.mutex == Free
            else r.mutex == Held(t) && ToGive(r.places.Of(t)) < ToGive(s.places.Of(t))
    ensures forall u: Task :: u != t && Enabled(s, u) ==>
              Step(s, u).places.Of(t) == s.places.Of(t) && Step(s, u).mutex == Held(t)
  {
    assert InSection(s.places.Of(t));
    forall u: Task | u != t && Enabled(s, u)
      ensures Step(s, u).mutex == Held(t)
    {
      assert !InSection(s.places.Of(u));
    }
  }

  /** Steps of the holder, and then of task t, to the end of a round of t. */
  function ToRoundEnd(s: State, t: Task): nat {
    if s.mutex.Held? && s.mutex.who != t then 10 + ToGive(s.places.Of(s.mutex.who))
    else match s.places.Of(t)
      case Delaying => 6
      case Taking => 5
      case Testing => 4
      case Printing => 3
      case Writing => 2
      case Giving => 1
  }

  /** From every moment of a run every task can go on to end a round. */
  lemma EveryoneCanGo(s: State, t: Task) returns (ts: seq<Task>)
    requires Inv(s)
    ensures Feasible(s, ts) && Gives(s, ts, t) >= 1
    decreases ToRoundEnd(s, t)
  {
    var u := if s.mutex.Held? && s.mutex.who != t then s.mutex.who else t;
    RoundEndNears(s, t, u);
    if u == t && s.places.Of(t) == Giving {
      ts := [t];
    } else {
      StepInv(s, u);
      var rest := EveryoneCanGo(Step(s, u), t);
      ts := [u] + rest;
      assert ts[1..] == rest;
    }
  }

  lemma RoundEndNears(s: State, t: Task, u: Task)
    requires Inv(s) && u == if s.mutex.Held? && s.mutex.who != t then s.mutex.who else t
    ensures Enabled(s, u)
    ensures !(u == t && s.places.Of(t) == Giving) ==> ToRoundEnd(Step(s, u), t) < ToRoundEnd(s, t)
  {
    assert s.mutex == Held(u) <==> InSection(s.places.Of(u));
    assert s.mutex == Held(t) <==> InSection(s.places.Of(t));
  }

  // ---------- the demo's own variables ----------

  class Demo {
    var places: Places
    var xMutex: Mutex
    var ulSharedFlag: nat
    var printed: seq<Task>

    ghost function Snapshot(): State
      reads this
    {
      State(places, xMutex, ulSharedFlag, printed)
    }

    constructor ()
      ensures Snapshot() == Initial() && Inv(Snapshot())
    {
      places, xMutex, ulSharedFlag, printed := Places(Taking, Taking, Taking), Free, 0, [];
    }

    /** One step of prvTaskCore0, prvTaskCore1 or prvBouncingTask. */
    method Go(t: Task)
      requires Inv(Snapshot()) && Enabled(Snapshot(), t)
      modifies this
      ensures Snapshot() == Step(old(Snapshot()), t) && Inv(Snapshot())
    {
      StepInv(Snapshot(), t);
      var next: At;
      match places.Of(t) {
        case Taking =>
          xMutex := Held(t);
          next := if t.Bouncing? then Printing else Testing;
        case Testing =>
          next := if ulSharedFlag == Awaits(t) then Printing else Giving;
        case Printing =>
          printed := printed + [t];
          next := if t.Bouncing? then Giving else Writing;
        case Writing =>
          ulSharedFlag := Leaves(t);
          next := Giving;
        case Giving =>
          xMutex := Free;
          next := Delaying;
        case Delaying =>
          next := Taking;
      }
      places := places.With(t, next);
    }
  }
}
