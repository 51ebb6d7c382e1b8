/** The trace recorder's stack monitor: a fixed table of monitored tasks, filled
    and emptied as tasks come and go, and scanned a few entries at a time by a
    control task that resumes where its previous scan stopped.

    A task handle is a number and 0 is NULL.  Every visit of an occupied slot
    appends to the log the sample it took and the mark it reported. */
module StackMonitor {

  type TaskHandle = nat
  type Mark = m: nat | m <= 0xFFFF_FFFF

  const NO_MARK: Mark := 0xFFFF_FFFF

  datatype Slot = Slot(tcb: TaskHandle, low: Mark)

  datatype Entry =
    | Added(task: TaskHandle)
    | Reported(slot: nat, task: TaskHandle, unused: Mark, low: Mark)

  datatype Table = Table(slots: seq<Slot>, cursor: nat, notIncluded: nat, log: seq<Entry>)
  {
    ghost predicate Valid() { cursor < |slots| }

    predicate Occupied(i: nat) { i < |slots| && slots[i].tcb != 0 }

    predicate Holds(i: nat, task: TaskHandle) { i < |slots| && slots[i].tcb == task }
  }

  // ---------- the operations ----------

  function FirstEmpty(slots: seq<Slot>): (i: nat)
    ensures i <= |slots|
    ensures forall j :: 0 <= j < i ==> slots[j].tcb != 0
    ensures i < |slots| ==> slots[i].tcb == 0
  {
    if slots == [] || slots[0].tcb == 0 then 0 else 1 + FirstEmpty(slots[1..])
  }

  function Add(t: Table, task: TaskHandle): (r: Table)
    ensures |r.slots| == |t.slots| && t.log <= r.log
  {
    var i := FirstEmpty(t.slots);
    if i < |t.slots| then t.(slots := t.slots[i := Slot(task, NO_MARK)], log := t.log + [Added(task)])
    else t.(notIncluded := t.notIncluded + 1)
  }

  function Remove(t: Table, task: TaskHandle): (r: Table)
    ensures |r.slots| == |t.slots| && t.log <= r.log
  {
    var cleared := seq(|t.slots|, i requires 0 <= i < |t.slots| =>
      if t.slots[i].tcb == task then Slot(0, 0) else t.slots[i]);
    t.(slots := cleared)
  }

  function Min(a: Mark, b: Mark): Mark { if a > b then b else a }

  /** The next slot in scan order. */
  function Next(cursor: nat, n: nat): (c: nat)
    requires cursor < n
    ensures c < n
  {
    (cursor + 1) % n
  }

  /** One turn of the scan loop.  hwm gives the free stack each slot's task has
      when that slot is looked at. */
  function Visit(t: Table, hwm: nat -> Mark): (r: Table)
    requires t.Valid()
    ensures r.Valid() && |r.slots| == |t.slots| && t.log <= r.log
  {
    var i := t.cursor;
    var moved := t.(cursor := Next(i, |t.slots|));
    if t.slots[i].tcb == 0 then moved
    else
      var low := Min(t.slots[i].low, hwm(i));
      moved.(slots := t.slots[i := t.slots[i].(low := low)],
             log := t.log + [Reported(i, t.slots[i].tcb, hwm(i), low)])
  }

  /** The scan loop with room for budget reports and left slots not yet seen. */
  function Scan(t: Table, hwm: nat -> Mark, budget: nat, left: nat): (r: Table)
    requires t.Valid() && 1 <= budget && 1 <= left
    ensures r.Valid() && |r.slots| == |t.slots| && t.log <= r.log
    decreases left
  {
    var next := Visit(t, hwm);
    var budget' := if t.Occupied(t.cursor) then budget - 1 else budget;
    if budget' == 0 || left == 1 then next else Scan(next, hwm, budget', left - 1)
  }

  function Report(t: Table, hwm: nat -> Mark, max: nat): (r: Table)
    requires t.Valid() && 1 <= max
    ensures r.Valid() && |r.slots| == |t.slots| && t.log <= r.log
  {
    Scan(t, hwm, max, |t.slots|)
  }

  // ---------- runs ----------

  datatype Op = AddTask(task: TaskHandle) | RemoveTask(task: TaskHandle) | ReportUsage(hwm: nat -> Mark)

  function Apply(t: Table, op: Op, max: nat): (r: Table)
    requires t.Valid() && 1 <= max
    ensures r.Valid() && |r.slots| == |t.slots| && t.log <= r.log
  {
    match op
    case AddTask(task) => Add(t, task)
    case RemoveTask(task) => Remove(t, task)
    case ReportUsage(hwm) => Report(t, hwm, max)
  }

  function Run(t: Table, ops: seq<Op>, max: nat): (r: Table)
    requires t.Valid() && 1 <= max
    ensures r.Valid() && |r.slots| == |t.slots| && t.log <= r.log
    decreases |ops|
  {
    if ops == [] then t else Run(Apply(t, ops[0], max), ops[1..], max)
  }

  // ---------- starvation freedom ----------

  /** How many slots the scan passes before it reaches slot k. */
  function Distance(k: nat, cursor: nat, n: nat): (d: nat)
    requires k < n && cursor < n
    ensures d < n
  {
    if cursor <= k then k - cursor else k - cursor + n
  }

  lemma NextWraps(cursor: nat, n: nat)
    requires cursor < n
    ensures Next(cursor, n) == if cursor + 1 == n then 0 else cursor + 1
  {}

  lemma DistanceStep(k: nat, cursor: nat, n: nat)
    requires k < n && cursor < n
    ensures Distance(k, Next(cursor, n), n) == if k == cursor then n - 1 else Distance(k, cursor, n) - 1
  {
    NextWraps(cursor, n);
  }

  /** Some log entry from position from on reports slot k as task's. */
  ghost predicate ReportedSince(log: seq<Entry>, from: nat, k: nat, task: TaskHandle) {
    exists j :: from <= j < |log| && log[j].Reported? && log[j].slot == k && log[j].task == task
  }

  /** A scan with budget b either reports an occupied slot k or comes at least
      min(b, left) slots closer to it without emptying it. */
  lemma {:induction false} ScanApproaches(t: Table, hwm: nat -> Mark, budget: nat, left: nat, k: nat, task: TaskHandle)
    requires t.Valid() && 1 <= budget && 1 <= left && task != 0 && t.Holds(k, task)
    ensures var r := Scan(t, hwm, budget, left);
            && t.log <= r.log && r.Holds(k, task)
            && (|| ReportedSince(r.log, |t.log|, k, task)
                || Distance(k, r.cursor, |t.slots|) + (if budget < left then budget else left)
                   <= Distance(k, t.cursor, |t.slots|))
    decreases left
  {
    var next := Visit(t, hwm);
    DistanceStep(k, t.cursor, |t.slots|);
    var budget' := if t.Occupied(t.cursor) then budget - 1 else budget;
    if t.cursor == k {
      assert next.log[|t.log|] == Reported(k, task, hwm(k), Min(t.slots[k].low, hwm(k)));
    }
    if budget' != 0 && left != 1 {
      ScanApproaches(next, hwm, budget', left - 1, k, task);
    }
  }

  function Reports(ops: seq<Op>): nat {
    if ops == [] then 0 else (if ops[0].ReportUsage? then 1 else 0) + Reports(ops[1..])
  }

  lemma {:induction false} NotStarved(t: Table, ops: seq<Op>, max: nat, k: nat, task: TaskHandle)
    requires t.Valid() && 1 <= max && task != 0 && t.Holds(k, task)
    requires RemoveTask(task) !in ops
    requires Distance(k, t.cursor, |t.slots|) < Reports(ops) * max
    ensures ReportedSince(Run(t, ops, max).log, |t.log|, k, task)
    decreases |ops|
  {
    assert ops != [];
    var next, rest := Apply(t, ops[0], max), ops[1..];
    if ops[0].ReportUsage? {
      ScanApproaches(t, ops[0].hwm, max, |t.slots|, k, task);
      assert Reports(ops) * max == Reports(rest) * max + max by { Distribute(Reports(rest), max); }
    }
    if !ReportedSince(next.log, |t.log|, k, task) {
      NotStarved(next, rest, max, k, task);
    }
  }

  lemma Distribute(n: nat, max: nat)
    ensures (1 + n) * max == n * max + max
  {}

  lemma Monotone(a: int, b: int, c: nat)
    requires a <= b
    ensures a * c <= b * c
  {}

  lemma CeilingCovers(n: nat, max: nat)
    requires 1 <= max
    ensures n <= (n + max - 1) / max * max
  {}

  /** A task that stays in the table is reported within ceil(N / max) calls of
      the scan, whatever other tasks come and go between them. */
  lemma StarvationFree(t: Table, ops: seq<Op>, max: nat, k: nat, task: TaskHandle)
    requires t.Valid() && 1 <= max && task != 0 && t.Holds(k, task)
    requires RemoveTask(task) !in ops
    requires (|t.slots| + max - 1) / max <= Reports(ops)
    ensures ReportedSince(Run(t, ops, max).log, |t.log|, k, task)
  {
    var n := |t.slots|;
    CeilingCovers(n, max);
    Monotone((n + max - 1) / max, Reports(ops), max);
    NotStarved(t, ops, max, k, task);
  }

  // ---------- fairness ----------

  /** How often slot k is reported in the log from position from on. */
  function Count(log: seq<Entry>, k: nat): nat {
    if log == [] then 0
    else Count(log[..|log| - 1], k) +
         (if log[|log| - 1].Reported? && log[|log| - 1].slot == k then 1 else 0)
  }

  /** Progress of slot k: it grows by one with every turn of the scan loop. */
  function Potential(t: Table, k: nat): int
    requires t.Valid() && k < |t.slots|
  {
    |t.slots| * Count(t.log, k) - Distance(k, t.cursor, |t.slots|)
  }

  lemma VisitPotential(t: Table, hwm: nat -> Mark, k: nat)
    requires t.Valid() && t.Occupied(k)
    ensures Visit(t, hwm).Occupied(k) && Potential(Visit(t, hwm), k) == Potential(t, k) + 1
  {
    var n := |t.slots|;
    var next := Visit(t, hwm);
    DistanceStep(k, t.cursor, n);
    if t.Occupied(t.cursor) {
      assert next.log[..|next.log| - 1] == t.log;
      if t.cursor == k {
        assert n * (Count(t.log, k) + 1) == n * Count(t.log, k) + n;
      }
    }
  }

  lemma {:induction false} ScanPotential(t: Table, hwm: nat -> Mark, budget: nat, left: nat, a: nat, b: nat)
    requires t.Valid() && 1 <= budget && 1 <= left && t.Occupied(a) && t.Occupied(b)
    ensures var r := Scan(t, hwm, budget, left);
            && r.Occupied(a) && r.Occupied(b)
            && Potential(r, a) - Potential(r, b) == Potential(t, a) - Potential(t, b)
    decreases left
  {
    VisitPotential(t, hwm, a);
    VisitPotential(t, hwm, b);
    var budget' := if t.Occupied(t.cursor) then budget - 1 else budget;
    if budget' != 0 && left != 1 {
      ScanPotential(Visit(t, hwm), hwm, budget', left - 1, a, b);
    }
  }

  lemma {:induction false} RunPotential(t: Table, ops: seq<Op>, max: nat, a: nat, b: nat)
    requires t.Valid() && 1 <= max && t.Occupied(a) && t.Occupied(b)
    requires forall op :: op in ops ==> op.ReportUsage?
    ensures var r := Run(t, ops, max);
            Potential(r, a) - Potential(r, b) == Potential(t, a) - Potential(t, b)
    decreases |ops|
  {
    if ops != [] {
      ScanPotential(t, ops[0].hwm, max, |t.slots|, a, b);
      RunPotential(Apply(t, ops[0], max), ops[1..], max, a, b);
    }
  }

  lemma SmallMultiple(n: nat, d: int)
    ensures -2 * n < n * d < 2 * n ==> -1 <= d <= 1
  {
    if d >= 2 { Monotone(2, d, n); }
    if d <= -2 { Monotone(d, -2, n); }
  }

  lemma CloseCounts(n: nat, ra: int, ta: int, rb: int, tb: int, spread: int)
    requires (n * ra - n * rb) - (n * ta - n * tb) == spread && -2 * n < spread < 2 * n
    ensures -1 <= (ra - ta) - (rb - tb) <= 1
  {
    var d := (ra - ta) - (rb - tb);
    assert n * d == spread;
    SmallMultiple(n, d);
  }

  /** While the table does not change, any two monitored slots have been
      reported equally often, give or take one. */
  lemma Fair(t: Table, ops: seq<Op>, max: nat, a: nat, b: nat)
    requires t.Valid() && 1 <= max && t.Occupied(a) && t.Occupied(b)
    requires forall op :: op in ops ==> op.ReportUsage?
    ensures var r := Run(t, ops, max);
            -1 <= (Count(r.log, a) - Count(t.log, a)) - (Count(r.log, b) - Count(t.log, b)) <= 1
  {
    RunPotential(t, ops, max, a, b);
    var n, r := |t.slots|, Run(t, ops, max);
    var spread := (Distance(a, r.cursor, n) - Distance(b, r.cursor, n))
                  - (Distance(a, t.cursor, n) - Distance(b, t.cursor, n));
    CloseCounts(n, Count(r.log, a), Count(t.log, a), Count(r.log, b), Count(t.log, b), spread);
  }

  // ---------- what one call reports ----------

  /** The slot d places ahead of the cursor, in scan order. */
  function Ahead(cursor: nat, d: nat, n: nat): (i: nat)
    requires cursor < n && d <= n
    ensures i < n
  {
    if cursor + d < n then cursor + d else cursor + d - n
  }

  /** How many of the first d slots ahead are occupied. */
  function OccupiedAhead(t: Table, d: nat): (k: nat)
    requires t.Valid() && d <= |t.slots|
    ensures k <= d
  {
    if d == 0 then 0
    else OccupiedAhead(t, d - 1) + if t.Occupied(Ahead(t.cursor, d - 1, |t.slots|)) then 1 else 0
  }

  /** How many of the slots before slot i are occupied. */
  function OccupiedBefore(slots: seq<Slot>, i: nat): nat
    requires i <= |slots|
  {
    if i == 0 then 0 else OccupiedBefore(slots, i - 1) + if slots[i - 1].tcb != 0 then 1 else 0
  }

  lemma {:induction false} AheadIsBefore(t: Table, d: nat)
    requires t.Valid() && d <= |t.slots|
    ensures var n, before := |t.slots|, OccupiedBefore(t.slots, t.cursor);
            OccupiedAhead(t, d) ==
            if t.cursor + d < n then OccupiedBefore(t.slots, t.cursor + d) - before
            else OccupiedBefore(t.slots, n) - before + OccupiedBefore(t.slots, t.cursor + d - n)
  {
    if d > 0 { AheadIsBefore(t, d - 1); }
  }

  /** A visit leaves the rest of the lap as it was. */
  lemma {:induction false} AheadAfterVisit(t: Table, hwm: nat -> Mark, d: nat)
    requires t.Valid() && d < |t.slots|
    ensures OccupiedAhead(t, d + 1) == OccupiedAhead(Visit(t, hwm), d) + if t.Occupied(t.cursor) then 1 else 0
    ensures Ahead(Visit(t, hwm).cursor, d, |t.slots|) == Ahead(t.cursor, d + 1, |t.slots|)
  {
    NextWraps(t.cursor, |t.slots|);
    if d > 0 { AheadAfterVisit(t, hwm, d - 1); }
  }

  /** Entry for slot i of table t. */
  predicate IsReportOf(e: Entry, t: Table, i: nat)
    requires i < |t.slots|
  {
    e.Reported? && e.slot == i && e.task == t.slots[i].tcb
  }

  /** If the slot d places ahead is occupied, the log of r reports it, behind as
      many new entries as there are occupied slots before it. */
  ghost predicate ReportedAhead(t: Table, r: Table, d: nat)
    requires t.Valid() && d < |t.slots|
  {
    var i, at := Ahead(t.cursor, d, |t.slots|), |t.log| + OccupiedAhead(t, d);
    t.Occupied(i) ==> at < |r.log| && IsReportOf(r.log[at], t, i)
  }

  /** From t to r, the first j slots ahead were passed, and of these exactly the
      occupied ones reported, in order. */
  ghost predicate Passed(t: Table, r: Table, j: nat)
    requires t.Valid() && j <= |t.slots|
  {
    && r.cursor == Ahead(t.cursor, j, |t.slots|)
    && |r.log| == |t.log| + OccupiedAhead(t, j)
    && forall d :: 0 <= d < j ==> ReportedAhead(t, r, d)
  }

  lemma PassedOne(t: Table, hwm: nat -> Mark)
    requires t.Valid()
    ensures Passed(t, Visit(t, hwm), 1)
  {
    NextWraps(t.cursor, |t.slots|);
    assert OccupiedAhead(t, 0) == 0;
    assert OccupiedAhead(t, 1) == if t.Occupied(t.cursor) then 1 else 0;
  }

  lemma FirstReported(t: Table, hwm: nat -> Mark, r: Table)
    requires t.Valid() && Visit(t, hwm).log <= r.log
    ensures ReportedAhead(t, r, 0)
  {
    assert OccupiedAhead(t, 0) == 0 && Ahead(t.cursor, 0, |t.slots|) == t.cursor;
    if t.Occupied(t.cursor) {
      assert r.log[|t.log|] == Visit(t, hwm).log[|t.log|];
    }
  }

  lemma LaterReported(t: Table, hwm: nat -> Mark, r: Table, d: nat)
    requires t.Valid() && d + 1 < |t.slots| && ReportedAhead(Visit(t, hwm), r, d)
    ensures ReportedAhead(t, r, d + 1)
  {
    AheadAfterVisit(t, hwm, d);
  }

  lemma PassedOn(t: Table, hwm: nat -> Mark, r: Table, j: nat)
    requires t.Valid() && j < |t.slots| && Passed(Visit(t, hwm), r, j) && Visit(t, hwm).log <= r.log
    ensures Passed(t, r, j + 1)
  {
    AheadAfterVisit(t, hwm, j);
    forall d | 0 <= d < j + 1
      ensures ReportedAhead(t, r, d)
    {
      if d == 0 {
        FirstReported(t, hwm, r);
      } else {
        LaterReported(t, hwm, r, d - 1);
      }
    }
  }

  /** How many slots a scan passes. */
  ghost function Reach(t: Table, hwm: nat -> Mark, budget: nat, left: nat): (j: nat)
    requires t.Valid() && 1 <= budget && 1 <= left
    ensures 1 <= j <= left
    decreases left
  {
    var rest := if t.Occupied(t.cursor) then budget - 1 else budget;
    if rest == 0 || left == 1 then 1 else 1 + Reach(Visit(t, hwm), hwm, rest, left - 1)
  }

  lemma {:induction false} ScanPasses(t: Table, hwm: nat -> Mark, budget: nat, left: nat)
    requires t.Valid() && 1 <= budget && 1 <= left <= |t.slots|
    ensures Passed(t, Scan(t, hwm, budget, left), Reach(t, hwm, budget, left))
    decreases left
  {
    var rest := if t.Occupied(t.cursor) then budget - 1 else budget;
    if rest == 0 || left == 1 {
      PassedOne(t, hwm);
    } else {
      ScanPasses(Visit(t, hwm), hwm, rest, left - 1);
      PassedOn(t, hwm, Scan(Visit(t, hwm), hwm, rest, left - 1), Reach(Visit(t, hwm), hwm, rest, left - 1));
    }
  }

  /** A pass of j slots that fits the budget and ends with it or with the lap. */
  ghost predicate Stops(t: Table, j: nat, budget: nat, left: nat)
    requires t.Valid() && 1 <= j <= left <= |t.slots|
  {
    && OccupiedAhead(t, j) <= budget
    && (j < left ==> OccupiedAhead(t, j) == budget)
    && (OccupiedAhead(t, j) == budget ==> OccupiedAhead(t, j - 1) < budget)
  }

  lemma StopsAtOne(t: Table, budget: nat, left: nat)
    requires t.Valid() && 1 <= budget && 1 <= left <= |t.slots|
    requires left == 1 || (budget == 1 && t.Occupied(t.cursor))
    ensures Stops(t, 1, budget, left)
  {
    assert OccupiedAhead(t, 0) == 0;
    assert OccupiedAhead(t, 1) == if t.Occupied(t.cursor) then 1 else 0;
  }

  lemma StopsLater(t: Table, next: Table, k: nat, rest: nat, left: nat, x: nat)
    requires t.Valid() && next.Valid() && |next.slots| == |t.slots| && 1 <= k <= left < |t.slots|
    requires Stops(next, k, rest, left)
    requires OccupiedAhead(t, k + 1) == OccupiedAhead(next, k) + x
    requires OccupiedAhead(t, k) == OccupiedAhead(next, k - 1) + x
    ensures Stops(t, k + 1, rest + x, left + 1)
  {}

  lemma StopsAfterVisit(t: Table, hwm: nat -> Mark, k: nat, rest: nat, j: nat, budget: nat, left: nat)
    requires t.Valid() && 1 <= k && j == k + 1 <= left <= |t.slots|
    requires budget == rest + if t.Occupied(t.cursor) then 1 else 0
    requires Stops(Visit(t, hwm), k, rest, left - 1)
    ensures Stops(t, j, budget, left)
  {
    AheadAfterVisit(t, hwm, k);
    AheadAfterVisit(t, hwm, k - 1);
    StopsLater(t, Visit(t, hwm), k, rest, left - 1, if t.Occupied(t.cursor) then 1 else 0);
  }

  lemma {:induction false} ReachIsExact(t: Table, hwm: nat -> Mark, budget: nat, left: nat)
    requires t.Valid() && 1 <= budget && 1 <= left <= |t.slots|
    ensures Stops(t, Reach(t, hwm, budget, left), budget, left)
    decreases left
  {
    var rest := if t.Occupied(t.cursor) then budget - 1 else budget;
    if rest == 0 || left == 1 {
      StopsAtOne(t, budget, left);
    } else {
      ReachIsExact(Visit(t, hwm), hwm, rest, left - 1);
      var k := Reach(Visit(t, hwm), hwm, rest, left - 1);
      StopsAfterVisit(t, hwm, k, rest, Reach(t, hwm, budget, left), budget, left);
    }
  }

  /** One call passes some number of slots, at most a lap; it reports exactly the
      occupied ones among them, each once and in order, as many as there are
      altogether but at most MAX; and if it reports MAX it stops just behind the
      last of them, and otherwise goes all the way round. */
  lemma ReportExactly(t: Table, hwm: nat -> Mark, max: nat) returns (j: nat)
    requires t.Valid() && 1 <= max
    ensures 1 <= j <= |t.slots| && Passed(t, Report(t, hwm, max), j)
    ensures var all := OccupiedBefore(t.slots, |t.slots|);
            && |Report(t, hwm, max).log| == |t.log| + (if all < max then all else max)
            && (all < max ==> j == |t.slots|)
            && (all >= max ==> OccupiedAhead(t, j) == max && OccupiedAhead(t, j - 1) == max - 1)
  {
    var n := |t.slots|;
    j := Reach(t, hwm, max, n);
    ScanPasses(t, hwm, max, n);
    ReachIsExact(t, hwm, max, n);
    AheadIsBefore(t, n);
    AheadGrows(t, j, n);
  }

  lemma {:induction false} AheadGrows(t: Table, d: nat, e: nat)
    requires t.Valid() && d <= e <= |t.slots|
    ensures OccupiedAhead(t, d) <= OccupiedAhead(t, e)
  {
    if d < e { AheadGrows(t, d, e - 1); }
  }

  /** With two tasks and a budget of one, a call reports the first and stops. */
  lemma OneAtATime(hwm: nat -> Mark)
    ensures var t := Table([Slot(7, NO_MARK), Slot(8, NO_MARK)], 0, 0, []);
            var r := Report(t, hwm, 1);
            r.cursor == 1 && |r.log| == 1 && r.log[0].Reported? && r.log[0].task == 7
  {
    NextWraps(0, 2);
  }

  // ---------- adds and removals between the turns of a scan ----------

  /** A call under way has reports and slots left; none is under way once either
      is used up. */
  datatype Scanner = Scanner(t: Table, budget: nat, left: nat)
  {
    predicate Busy() { budget > 0 && left > 0 }
  }

  /** What can happen between two turns of the scan loop, and a turn itself with
      the sample it takes. */
  datatype Moment = AddNow(task: TaskHandle) | RemoveNow(task: TaskHandle) | Begin | Turn(unused: Mark)

  function Pass(s: Scanner, m: Moment, max: nat): (r: Scanner)
    requires s.t.Valid()
    ensures r.t.Valid() && |r.t.slots| == |s.t.slots| && s.t.log <= r.t.log
  {
    match m
    case AddNow(task) => s.(t := Add(s.t, task))
    case RemoveNow(task) => s.(t := Remove(s.t, task))
    case Begin => if s.Busy() then s else Scanner(s.t, max, |s.t.slots|)
    case Turn(unused) =>
      if !s.Busy() then s
      else Scanner(Visit(s.t, _ => unused), if s.t.Occupied(s.t.cursor) then s.budget - 1 else s.budget, s.left - 1)
  }

  function PassAll(s: Scanner, ms: seq<Moment>, max: nat): (r: Scanner)
    requires s.t.Valid()
    ensures r.t.Valid() && |r.t.slots| == |s.t.slots| && s.t.log <= r.t.log
    decreases |ms|
  {
    if ms == [] then s else PassAll(Pass(s, ms[0], max), ms[1..], max)
  }

  function Turns(s: Scanner, ms: seq<Moment>, max: nat): nat
    requires s.t.Valid()
    decreases |ms|
  {
    if ms == [] then 0
    else (if ms[0].Turn? && s.Busy() then 1 else 0) + Turns(Pass(s, ms[0], max), ms[1..], max)
  }

  /** The calls that come to their end. */
  function Calls(s: Scanner, ms: seq<Moment>, max: nat): nat
    requires s.t.Valid()
    decreases |ms|
  {
    if ms == [] then 0
    else
      var next := Pass(s, ms[0], max);
      (if s.Busy() && !next.Busy() then 1 else 0) + Calls(next, ms[1..], max)
  }

  function TurnsOf(t: Table, hwm: nat -> Mark, budget: nat, left: nat): seq<Moment>
    requires t.Valid()
    decreases left
  {
    if budget == 0 || left == 0 then []
    else
      [Turn(hwm(t.cursor))] +
      TurnsOf(Visit(t, hwm), hwm, if t.Occupied(t.cursor) then budget - 1 else budget, left - 1)
  }

  /** A scan is its turns with nothing in between. */
  lemma {:induction false} ScanIsTurns(t: Table, hwm: nat -> Mark, budget: nat, left: nat, max: nat)
    requires t.Valid() && 1 <= budget && 1 <= left
    ensures PassAll(Scanner(t, budget, left), TurnsOf(t, hwm, budget, left), max).t == Scan(t, hwm, budget, left)
    decreases left
  {
    var ms := TurnsOf(t, hwm, budget, left);
    var next := Pass(Scanner(t, budget, left), ms[0], max);
    assert next.t == Visit(t, hwm);
    if next.Busy() {
      assert ms[1..] == TurnsOf(next.t, hwm, next.budget, next.left);
      ScanIsTurns(next.t, hwm, next.budget, next.left, max);
    } else {
      assert ms[1..] == [];
    }
  }

  /** Each operation of the coarser runs is one such moment, or a call with all
      its turns and nothing in between. */
  lemma ApplyIsMoments(t: Table, op: Op, max: nat)
    requires t.Valid() && 1 <= max
    ensures op.AddTask? ==> Apply(t, op, max) == Pass(Scanner(t, 0, 0), AddNow(op.task), max).t
    ensures op.RemoveTask? ==> Apply(t, op, max) == Pass(Scanner(t, 0, 0), RemoveNow(op.task), max).t
    ensures op.ReportUsage? ==>
              var ms := [Begin] + TurnsOf(t, op.hwm, max, |t.slots|);
              Apply(t, op, max) == PassAll(Scanner(t, 0, 0), ms, max).t
  {
    if op.ReportUsage? {
      var turns := TurnsOf(t, op.hwm, max, |t.slots|);
      assert ([Begin] + turns)[1..] == turns;
      ScanIsTurns(t, op.hwm, max, |t.slots|, max);
    }
  }

  /** Every turn brings the scan one slot closer, whatever happens between turns. */
  lemma {:induction false} TurnsReach(s: Scanner, ms: seq<Moment>, max: nat, k: nat, task: TaskHandle)
    requires s.t.Valid() && task != 0 && s.t.Holds(k, task) && RemoveNow(task) !in ms
    requires Distance(k, s.t.cursor, |s.t.slots|) < Turns(s, ms, max)
    ensures ReportedSince(PassAll(s, ms, max).t.log, |s.t.log|, k, task)
    decreases |ms|
  {
    assert ms != [];
    var next := Pass(s, ms[0], max);
    DistanceStep(k, s.t.cursor, |s.t.slots|);
    if ms[0].Turn? && s.Busy() && s.t.cursor == k {
      assert next.t.log[|s.t.log|].Reported? && next.t.log[|s.t.log|].slot == k && next.t.log[|s.t.log|].task == task;
      assert PassAll(s, ms, max).t.log[|s.t.log|] == next.t.log[|s.t.log|];
    } else {
      TurnsReach(next, ms[1..], max, k, task);
    }
  }

  /** The turns of the call under way: at least as many as it has reported. */
  predicate Paced(s: Scanner, max: nat) {
    s.budget <= max && s.left <= |s.t.slots| && (s.Busy() ==> max - s.budget <= |s.t.slots| - s.left)
  }

  function Sofar(s: Scanner): int { if s.Busy() then |s.t.slots| - s.left else 0 }

  function Least2(a: nat, b: nat): nat { if a < b then a else b }

  lemma PassPaced(s: Scanner, m: Moment, max: nat)
    requires s.t.Valid() && 1 <= max && Paced(s, max)
    ensures var next, n := Pass(s, m, max), |s.t.slots|;
            && Paced(next, max)
            && Sofar(s) + (if m.Turn? && s.Busy() then 1 else 0) >=
               Sofar(next) + (if s.Busy() && !next.Busy() then Least2(max, n) else 0)
  {}

  /** A call that ends has taken MAX turns, or as many as there are slots. */
  lemma {:induction false} CallsTakeTurns(s: Scanner, ms: seq<Moment>, max: nat)
    requires s.t.Valid() && 1 <= max && Paced(s, max)
    ensures Calls(s, ms, max) * Least2(max, |s.t.slots|) <= Turns(s, ms, max) + Sofar(s)
    decreases |ms|
  {
    if ms != [] {
      var next, m := Pass(s, ms[0], max), Least2(max, |s.t.slots|);
      PassPaced(s, ms[0], max);
      CallsTakeTurns(next, ms[1..], max);
      Distribute(Calls(next, ms[1..], max), m);
    }
  }

  /** Starvation freedom holds also when tasks come and go between the turns of
      a scan: ceil(N / MAX) calls report every task that stays. */
  lemma StarvationFreeByTurns(s: Scanner, ms: seq<Moment>, max: nat, k: nat, task: TaskHandle)
    requires s.t.Valid() && 1 <= max && Paced(s, max) && !s.Busy()
    requires task != 0 && s.t.Holds(k, task) && RemoveNow(task) !in ms
    requires (|s.t.slots| + max - 1) / max <= Calls(s, ms, max)
    ensures ReportedSince(PassAll(s, ms, max).t.log, |s.t.log|, k, task)
  {
    var n, calls := |s.t.slots|, Calls(s, ms, max);
    CallsTakeTurns(s, ms, max);
    CeilingCovers(n, max);
    CeilingPositive(n, max);
    Monotone((n + max - 1) / max, calls, Least2(max, n));
    if n <= max { Monotone(1, calls, n); }
    TurnsReach(s, ms, max, k, task);
  }

  lemma CeilingPositive(n: nat, max: nat)
    requires 1 <= max && 1 <= n
    ensures 1 <= (n + max - 1) / max
  {}

  // ---------- the table as a map ----------

  ghost predicate Distinct(slots: seq<Slot>) {
    forall i, j :: 0 <= i < j < |slots| && slots[i].tcb != 0 ==> slots[i].tcb != slots[j].tcb
  }

  ghost function Present(slots: seq<Slot>): set<TaskHandle> {
    set i | 0 <= i < |slots| && slots[i].tcb != 0 :: slots[i].tcb
  }

  ghost function LowOf(slots: seq<Slot>, task: TaskHandle): Mark
    requires task in Present(slots)
  {
    var i :| 0 <= i < |slots| && slots[i].tcb == task;
    slots[i].low
  }

  /** Each monitored task with its low-water mark. */
  ghost function AsMap(slots: seq<Slot>): map<TaskHandle, Mark> {
    map task | task in Present(slots) :: LowOf(slots, task)
  }

  lemma PresentSplit(slots: seq<Slot>)
    requires slots != []
    ensures Present(slots) == Present(slots[1..]) + (if slots[0].tcb == 0 then {} else {slots[0].tcb})
  {
    var rest := slots[1..];
    forall task | task in Present(slots)
      ensures task == slots[0].tcb || task in Present(rest)
    {
      var i :| 0 <= i < |slots| && slots[i].tcb == task && task != 0;
      if i > 0 { assert rest[i - 1].tcb == task; }
    }
    forall task | task in Present(rest)
      ensures task in Present(slots)
    {
      var i :| 0 <= i < |rest| && rest[i].tcb == task && task != 0;
      assert slots[i + 1].tcb == task;
    }
  }

  /** There is room in the table exactly when fewer tasks than slots are present. */
  lemma {:induction false} RoomWhenFewer(slots: seq<Slot>)
    requires Distinct(slots)
    ensures |Present(slots)| <= |slots|
    ensures |Present(slots)| < |slots| <==> FirstEmpty(slots) < |slots|
  {
    if slots != [] {
      var rest := slots[1..];
      RoomWhenFewer(rest);
      PresentSplit(slots);
    }
  }

  lemma PresentAfterInsert(slots: seq<Slot>, e: nat, slot: Slot)
    requires e < |slots| && slots[e].tcb == 0 && slot.tcb != 0
    ensures Present(slots[e := slot]) == Present(slots) + {slot.tcb}
  {
    var r := slots[e := slot];
    assert r[e].tcb == slot.tcb;
    forall u | u in Present(slots)
      ensures u in Present(r)
    {
      var i :| 0 <= i < |slots| && slots[i].tcb == u;
      assert r[i].tcb == u;
    }
  }

  lemma InsertRefinesMap(slots: seq<Slot>, e: nat, slot: Slot)
    requires Distinct(slots) && e < |slots| && slots[e].tcb == 0 && slot.tcb != 0 && slot.tcb !in Present(slots)
    ensures Distinct(slots[e := slot]) && AsMap(slots[e := slot]) == AsMap(slots)[slot.tcb := slot.low]
  {
    PresentAfterInsert(slots, e, slot);
    assert forall i :: 0 <= i < |slots| && slots[i].tcb != 0 ==> slots[i].tcb in Present(slots);
  }

  /** Adding a new task inserts it while fewer than N tasks are present, and
      otherwise only counts it as left out. */
  lemma AddRefinesMap(t: Table, task: TaskHandle)
    requires Distinct(t.slots) && task != 0 && task !in AsMap(t.slots)
    ensures Distinct(Add(t, task).slots)
    ensures if |AsMap(t.slots)| < |t.slots|
            then AsMap(Add(t, task).slots) == AsMap(t.slots)[task := NO_MARK]
                 && Add(t, task).notIncluded == t.notIncluded
            else Add(t, task).slots == t.slots && Add(t, task).notIncluded == t.notIncluded + 1
  {
    RoomWhenFewer(t.slots);
    assert |AsMap(t.slots)| == |Present(t.slots)| by {
      assert AsMap(t.slots).Keys == Present(t.slots);
    }
    var e := FirstEmpty(t.slots);
    if e < |t.slots| {
      InsertRefinesMap(t.slots, e, Slot(task, NO_MARK));
    }
  }

  lemma PresentAfterRemove(t: Table, task: TaskHandle)
    ensures Present(Remove(t, task).slots) == Present(t.slots) - {task}
  {
    var r := Remove(t, task).slots;
    forall u | u in Present(t.slots) && u != task
      ensures u in Present(r)
    {
      var i :| 0 <= i < |r| && t.slots[i].tcb == u;
      assert r[i].tcb == u;
    }
  }

  lemma SlotOf(slots: seq<Slot>, i: nat)
    requires Distinct(slots) && i < |slots| && slots[i].tcb != 0
    ensures slots[i].tcb in Present(slots) && LowOf(slots, slots[i].tcb) == slots[i].low
  {
    assert slots[i].tcb in Present(slots);
  }

  lemma RemoveRefinesMap(t: Table, task: TaskHandle)
    requires Distinct(t.slots)
    ensures Distinct(Remove(t, task).slots) && AsMap(Remove(t, task).slots) == AsMap(t.slots) - {task}
  {
    PresentAfterRemove(t, task);
    var r := Remove(t, task).slots;
    forall u | u in Present(r)
      ensures LowOf(r, u) == LowOf(t.slots, u)
    {
      var i :| 0 <= i < |r| && r[i].tcb == u && u != 0;
      SlotOf(r, i);
      SlotOf(t.slots, i);
    }
  }

  // ---------- what a report says ----------

  /** The samples taken for a task since it was last added, oldest first. */
  function SamplesSince(log: seq<Entry>, task: TaskHandle): seq<Mark> {
    if log == [] then []
    else
      var earlier := log[..|log| - 1];
      match log[|log| - 1]
      case Added(u) => if u == task then [] else SamplesSince(earlier, task)
      case Reported(_, u, unused, _) =>
        if u == task then SamplesSince(earlier, task) + [unused] else SamplesSince(earlier, task)
  }

  function Least(samples: seq<Mark>): Mark {
    if samples == [] then NO_MARK
    else Min(Least(samples[..|samples| - 1]), samples[|samples| - 1])
  }

  /** Least is the minimum: a lower bound, and attained. */
  lemma {:induction false} LeastIsMinimum(samples: seq<Mark>)
    ensures forall v :: v in samples ==> Least(samples) <= v
    ensures if samples == [] then Least(samples) == NO_MARK else Least(samples) in samples
  {
    if samples != [] {
      var init, last := samples[..|samples| - 1], samples[|samples| - 1];
      LeastIsMinimum(init);
      assert samples == init + [last];
      MinimumOfBoth(init, last, Least(init));
    }
  }

  lemma MinimumOfBoth(init: seq<Mark>, last: Mark, low: Mark)
    requires forall v :: v in init ==> low <= v
    requires if init == [] then low == NO_MARK else low in init
    ensures forall v :: v in init + [last] ==> Min(low, last) <= v
    ensures Min(low, last) in init + [last]
  {}

  /** Every slot remembers, and every report carried, the least sample taken
      for its task since that task was last added. */
  ghost predicate Faithful(t: Table) {
    && Distinct(t.slots)
    && (forall i :: 0 <= i < |t.slots| && t.slots[i].tcb != 0 ==>
          t.slots[i].low == Least(SamplesSince(t.log, t.slots[i].tcb)))
    && (forall j :: 0 <= j < |t.log| && t.log[j].Reported? ==>
          t.log[j].low == Least(SamplesSince(t.log[..j + 1], t.log[j].task)))
  }

  /** Adding an entry that is not a report leaves all earlier reports as they were. */
  lemma EarlierReports(t: Table, e: Entry)
    requires Faithful(t)
    ensures forall j {:trigger (t.log + [e])[j]} :: 0 <= j < |t.log| && (t.log + [e])[j].Reported? ==>
      (t.log + [e])[j].low == Least(SamplesSince((t.log + [e])[..j + 1], (t.log + [e])[j].task))
    ensures (t.log + [e])[..|t.log|] == t.log
  {
    var log := t.log + [e];
    forall j | 0 <= j < |t.log| && log[j].Reported?
      ensures log[j].low == Least(SamplesSince(log[..j + 1], log[j].task))
    {
      assert log[..j + 1] == t.log[..j + 1];
    }
  }

  lemma VisitFaithful(t: Table, hwm: nat -> Mark)
    requires t.Valid() && Faithful(t)
    ensures Faithful(Visit(t, hwm))
  {
    var i, next := t.cursor, Visit(t, hwm);
    if t.slots[i].tcb != 0 {
      var e := Reported(i, t.slots[i].tcb, hwm(i), Min(t.slots[i].low, hwm(i)));
      EarlierReports(t, e);
      var samples := SamplesSince(t.log, e.task);
      assert next.log == t.log + [e] && next.log[..|t.log| + 1] == next.log;
      assert SamplesSince(next.log, e.task) == samples + [hwm(i)];
      assert (samples + [hwm(i)])[..|samples|] == samples;
      assert Least(samples + [hwm(i)]) == e.low;
    }
  }

  lemma {:induction false} ScanFaithful(t: Table, hwm: nat -> Mark, budget: nat, left: nat)
    requires t.Valid() && 1 <= budget && 1 <= left && Faithful(t)
    ensures Faithful(Scan(t, hwm, budget, left))
    decreases left
  {
    VisitFaithful(t, hwm);
    var budget' := if t.Occupied(t.cursor) then budget - 1 else budget;
    if budget' != 0 && left != 1 {
      ScanFaithful(Visit(t, hwm), hwm, budget', left - 1);
    }
  }

  lemma AddFaithful(t: Table, task: TaskHandle)
    requires Faithful(t) && task != 0 && task !in AsMap(t.slots)
    ensures Faithful(Add(t, task))
  {
    AddRefinesMap(t, task);
    var e := FirstEmpty(t.slots);
    if e < |t.slots| {
      EarlierReports(t, Added(task));
      var r := Add(t, task);
      forall i | 0 <= i < |r.slots| && r.slots[i].tcb != 0
        ensures r.slots[i].low == Least(SamplesSince(r.log, r.slots[i].tcb))
      {
        if i != e { SlotOf(t.slots, i); }
      }
    }
  }

  lemma RemoveFaithful(t: Table, task: TaskHandle)
    requires Faithful(t)
    ensures Faithful(Remove(t, task))
  {
    RemoveRefinesMap(t, task);
  }

  /** The kernel adds a task once, when it is created, and under a real handle. */
  ghost predicate AddsOnce(t: Table, ops: seq<Op>, max: nat)
    requires t.Valid() && 1 <= max
    decreases |ops|
  {
    ops != [] ==>
      && (ops[0].AddTask? ==> ops[0].task != 0 && ops[0].task !in AsMap(t.slots))
      && AddsOnce(Apply(t, ops[0], max), ops[1..], max)
  }

  /** Over any run, every report carries the minimum of the samples since the latest add. */
  lemma {:induction false} RunFaithful(t: Table, ops: seq<Op>, max: nat)
    requires t.Valid() && 1 <= max && Faithful(t) && AddsOnce(t, ops, max)
    ensures Faithful(Run(t, ops, max))
    decreases |ops|
  {
    if ops != [] {
      match ops[0] {
        case AddTask(task) => AddFaithful(t, task);
        case RemoveTask(task) => RemoveFaithful(t, task);
        case ReportUsage(hwm) => ScanFaithful(t, hwm, max, |t.slots|);
      }
      RunFaithful(Apply(t, ops[0], max), ops[1..], max);
    }
  }

  ghost predicate AddsOnceByTurns(s: Scanner, ms: seq<Moment>, max: nat)
    requires s.t.Valid()
    decreases |ms|
  {
    ms != [] ==>
      && (ms[0].AddNow? ==> ms[0].task != 0 && ms[0].task !in AsMap(s.t.slots))
      && AddsOnceByTurns(Pass(s, ms[0], max), ms[1..], max)
  }

  /** The same with adds and removals between the turns of a scan. */
  lemma {:induction false} TurnsFaithful(s: Scanner, ms: seq<Moment>, max: nat)
    requires s.t.Valid() && Faithful(s.t) && AddsOnceByTurns(s, ms, max)
    ensures Faithful(PassAll(s, ms, max).t)
    decreases |ms|
  {
    if ms != [] {
      match ms[0] {
        case AddNow(task) => AddFaithful(s.t, task);
        case RemoveNow(task) => RemoveFaithful(s.t, task);
        case Begin =>
        case Turn(unused) => if s.Busy() { VisitFaithful(s.t, _ => unused); }
      }
      TurnsFaithful(Pass(s, ms[0], max), ms[1..], max);
    }
  }

  /** The tasks monitored after some moments: an add counts while fewer than n are. */
  ghost function Members(tasks: set<TaskHandle>, n: nat, ms: seq<Moment>): set<TaskHandle>
    decreases |ms|
  {
    if ms == [] then tasks
    else
      var next :=
        match ms[0]
        case AddNow(task) => if |tasks| < n then tasks + {task} else tasks
        case RemoveNow(task) => tasks - {task}
        case Begin => tasks
        case Turn(_) => tasks;
      Members(next, n, ms[1..])
  }

  lemma AddPresent(t: Table, task: TaskHandle)
    requires Distinct(t.slots) && task != 0 && task !in AsMap(t.slots)
    ensures Distinct(Add(t, task).slots)
    ensures Present(Add(t, task).slots) ==
            if |Present(t.slots)| < |t.slots| then Present(t.slots) + {task} else Present(t.slots)
  {
    AddRefinesMap(t, task);
    RoomWhenFewer(t.slots);
    var e := FirstEmpty(t.slots);
    if e < |t.slots| { PresentAfterInsert(t.slots, e, Slot(task, NO_MARK)); }
  }

  lemma VisitPresent(t: Table, hwm: nat -> Mark)
    requires t.Valid() && Distinct(t.slots)
    ensures Distinct(Visit(t, hwm).slots) && Present(Visit(t, hwm).slots) == Present(t.slots)
  {
    var r := Visit(t, hwm).slots;
    assert forall i :: 0 <= i < |r| ==> r[i].tcb == t.slots[i].tcb;
    forall u ensures u in Present(r) <==> u in Present(t.slots) {
      if u in Present(r) {
        var i :| 0 <= i < |r| && r[i].tcb == u && u != 0;
        assert t.slots[i].tcb == u;
      }
      if u in Present(t.slots) {
        var i :| 0 <= i < |r| && t.slots[i].tcb == u && u != 0;
        assert r[i].tcb == u;
      }
    }
  }

  /** Over whole runs, adds and removals between turns included, the table is the
      bounded set of the tasks added and not removed since. */
  lemma {:induction false} TurnsRefineSet(s: Scanner, ms: seq<Moment>, max: nat)
    requires s.t.Valid() && Distinct(s.t.slots) && AddsOnceByTurns(s, ms, max)
    ensures Distinct(PassAll(s, ms, max).t.slots)
    ensures Present(PassAll(s, ms, max).t.slots) == Members(Present(s.t.slots), |s.t.slots|, ms)
    decreases |ms|
  {
    if ms != [] {
      match ms[0] {
        case AddNow(task) => AddPresent(s.t, task);
        case RemoveNow(task) => PresentAfterRemove(s.t, task); RemoveRefinesMap(s.t, task);
        case Begin =>
        case Turn(unused) => if s.Busy() { VisitPresent(s.t, _ => unused); }
      }
      TurnsRefineSet(Pass(s, ms[0], max), ms[1..], max);
    }
  }

  /** An empty slot holds no mark. */
  ghost predicate EmptyIsClear(t: Table) {
    forall i :: 0 <= i < |t.slots| && t.slots[i].tcb == 0 ==> t.slots[i].low == 0
  }

  /** In every run a slot given up holds no mark, for any later task to find. */
  lemma {:induction false} TurnsClear(s: Scanner, ms: seq<Moment>, max: nat)
    requires s.t.Valid() && EmptyIsClear(s.t)
    requires forall m :: m in ms && m.AddNow? ==> m.task != 0
    ensures EmptyIsClear(PassAll(s, ms, max).t)
    decreases |ms|
  {
    if ms != [] {
      assert ms[0].AddNow? ==> ms[0].task != 0;
      PassClear(s, ms[0], max);
      TurnsClear(Pass(s, ms[0], max), ms[1..], max);
    }
  }

  lemma PassClear(s: Scanner, m: Moment, max: nat)
    requires s.t.Valid() && EmptyIsClear(s.t) && (m.AddNow? ==> m.task != 0)
    ensures EmptyIsClear(Pass(s, m, max).t)
  {}

  // ---------- the recorder's own variables ----------

  class Monitor {
    const maxReports: nat
    const tasksInStackMonitor: array<Slot>
    var tasksNotIncluded: nat
    var i: nat
    ghost var log: seq<Entry>

    ghost predicate Valid()
      reads this
    {
      1 <= maxReports && i < tasksInStackMonitor.Length
    }

    ghost function Contents(): (t: Table)
      reads this, tasksInStackMonitor
    {
      Table(tasksInStackMonitor[..], i, tasksNotIncluded, log)
    }

    constructor (n: nat, max: nat)
      requires 1 <= n && 1 <= max
      ensures Valid() && fresh(tasksInStackMonitor) && maxReports == max
      ensures Contents() == Table(seq(n, _ => Slot(0, 0)), 0, 0, [])
      ensures Faithful(Contents()) && EmptyIsClear(Contents())
    {
      tasksInStackMonitor := new Slot[n](_ => Slot(0, 0));
      maxReports, tasksNotIncluded, i, log := max, 0, 0, [];
      new;
      assert tasksInStackMonitor[..] == seq(n, _ => Slot(0, 0));
    }

    method AddTaskToStackMonitor(task: TaskHandle)
      requires Valid()
      modifies this, tasksInStackMonitor
      ensures Valid() && Contents() == Add(old(Contents()), task)
    {
      var foundEmptySlot := false;
      for k := 0 to tasksInStackMonitor.Length
        invariant !foundEmptySlot && Valid() && Contents() == old(Contents())
        invariant k <= FirstEmpty(tasksInStackMonitor[..])
      {
        if tasksInStackMonitor[k].tcb == 0 {
          tasksInStackMonitor[k] := Slot(task, NO_MARK);
          log := log + [Added(task)];
          foundEmptySlot := true;
          break;
        }
      }
      if !foundEmptySlot {
        tasksNotIncluded := tasksNotIncluded + 1;
      }
    }

    method RemoveTaskFromStackMonitor(task: TaskHandle)
      requires Valid()
      modifies this, tasksInStackMonitor
      ensures Valid() && Contents() == Remove(old(Contents()), task)
    {
      for k := 0 to tasksInStackMonitor.Length
        invariant Valid() && tasksNotIncluded == old(tasksNotIncluded) && i == old(i) && log == old(log)
        invariant forall j {:trigger tasksInStackMonitor[j]} :: 0 <= j < tasksInStackMonitor.Length ==>
          tasksInStackMonitor[j] ==
          if j < k && old(tasksInStackMonitor[j]).tcb == task then Slot(0, 0) else old(tasksInStackMonitor[j])
      {
        if tasksInStackMonitor[k].tcb == task {
          tasksInStackMonitor[k] := Slot(0, 0);
        }
      }
    }

    /** The do-while scan: stops after maxReports reports or when the cursor is
        back where this call found it. */
    method ReportStackUsage(hwm: nat -> Mark)
      requires Valid()
      modifies this, tasksInStackMonitor
      ensures Valid() && Contents() == Report(old(Contents()), hwm, maxReports)
      ensures old(|log|) <= |log| <= old(|log|) + maxReports
    {
      ghost var _ := ReportExactly(Contents(), hwm, maxReports);
      var count: nat, initial, again := 0, i, true;
      ghost var left := tasksInStackMonitor.Length;
      ghost var result := Report(Contents(), hwm, maxReports);
      while again
        invariant Valid() && initial < tasksInStackMonitor.Length
        invariant again ==> 0 < left == Lap(initial, i, tasksInStackMonitor.Length) && count < maxReports
        invariant again ==> result == Scan(Contents(), hwm, maxReports - count, left)
        invariant !again ==> Contents() == result
        decreases left, again
      {
        count, again := LoopTurn(hwm, count, initial, left);
        left := left - 1;
      }
    }

    /** One turn of the loop and its condition. */
    method LoopTurn(hwm: nat -> Mark, count: nat, initial: nat, ghost left: nat) returns (count': nat, again: bool)
      requires Valid() && count < maxReports && initial < tasksInStackMonitor.Length
      requires 0 < left == Lap(initial, i, tasksInStackMonitor.Length)
      modifies this, tasksInStackMonitor
      ensures Valid()
      ensures again ==> 0 < left - 1 == Lap(initial, i, tasksInStackMonitor.Length) && count' < maxReports
      ensures Scan(old(Contents()), hwm, maxReports - count, left) ==
              if again then Scan(Contents(), hwm, maxReports - count', left - 1) else Contents()
    {
      LapStep(initial, i, tasksInStackMonitor.Length, left);
      ScanStep(Contents(), hwm, maxReports - count, left);
      count' := VisitSlot(hwm, count);
      again := count' < maxReports && i != initial;
    }

    /** The body of the scan loop: look at the slot under the cursor and move on. */
    method VisitSlot(hwm: nat -> Mark, count: nat) returns (count': nat)
      requires Valid()
      modifies this, tasksInStackMonitor
      ensures Valid() && Contents() == Visit(old(Contents()), hwm)
      ensures count' == if old(Contents()).Occupied(old(i)) then count + 1 else count
      ensures i == if old(i) + 1 == tasksInStackMonitor.Length then 0 else old(i) + 1
    {
      count' := count;
      if tasksInStackMonitor[i].tcb != 0 {
        var unusedStackSpace := hwm(i);
        if tasksInStackMonitor[i].low > unusedStackSpace {
          tasksInStackMonitor[i] := tasksInStackMonitor[i].(low := unusedStackSpace);
        }
        log := log + [Reported(i, tasksInStackMonitor[i].tcb, unusedStackSpace, tasksInStackMonitor[i].low)];
        count' := count + 1;
      }
      NextWraps(i, tasksInStackMonitor.Length);
      i := (i + 1) % tasksInStackMonitor.Length;
    }
  }

  lemma ScanStep(t: Table, hwm: nat -> Mark, budget: nat, left: nat)
    requires t.Valid() && 1 <= budget && 1 <= left
    ensures var rest := if t.Occupied(t.cursor) then budget - 1 else budget;
            Scan(t, hwm, budget, left) ==
            if rest == 0 || left == 1 then Visit(t, hwm) else Scan(Visit(t, hwm), hwm, rest, left - 1)
  {}

  lemma LapStep(initial: nat, cursor: nat, n: nat, left: int)
    requires initial < n && cursor < n && left == Lap(initial, cursor, n)
    ensures var next := if cursor + 1 == n then 0 else cursor + 1;
            if next == initial then left == 1 else left > 1 && Lap(initial, next, n) == left - 1
  {}

  /** Slots left in a lap that began at initial and has come to cursor. */
  ghost function Lap(initial: nat, cursor: nat, n: nat): int {
    if cursor < initial then initial - cursor else initial - cursor + n
  }
}
