/** The trace recorder's object handles: nine classes share one array, each
    class owning a contiguous range of it used as a stack of free handles.

    A class hands out the handles 1..n, n being the number of objects configured
    for it.  A zero entry stands for a handle never used before, whose value is
    then its position in the range. */
module HandleStacks {

  const CLASSES: nat := 9
  const INDEX_LIMIT: nat := 0x1_0000   // indices are 16-bit

  /** The first number a handle cannot hold: handles are 16-bit if so configured, else 8-bit. */
  function HandleLimit(wide: bool): nat { if wide then 0x1_0000 else 0x100 }

  /** A conversion to the handle type. */
  function Narrow(n: int, wide: bool): nat { if wide then n % 0x1_0000 else n % 0x100 }

  // ---------- the layout ----------

  /** The number of objects in the first k classes. */
  function Below(sizes: seq<nat>, k: nat): nat
    requires k <= |sizes|
  {
    if k == 0 then 0 else Below(sizes, k - 1) + sizes[k - 1]
  }

  function Total(sizes: seq<nat>): nat { Below(sizes, |sizes|) }

  /** The values stored for one class size list, cut to 16 bits. */
  function Lowest(sizes: seq<nat>, c: nat): nat
    requires c < |sizes|
  {
    Below(sizes, c) % 0x1_0000
  }

  function Highest(sizes: seq<nat>, c: nat): nat
    requires c < |sizes|
  {
    (Below(sizes, c + 1) - 1) % 0x1_0000
  }

  lemma {:induction false} BelowGrows(sizes: seq<nat>, j: nat, k: nat)
    requires j <= k <= |sizes|
    ensures Below(sizes, j) <= Below(sizes, k)
  {
    if j < k {
      BelowGrows(sizes, j, k - 1);
    }
  }

  predicate BoundsRight(sizes: seq<nat>, c: nat)
    requires c < |sizes|
  {
    Lowest(sizes, c) == Below(sizes, c) && Highest(sizes, c) + 1 == Below(sizes, c) + sizes[c]
  }

  /** The first class is not empty, and every index fits 16 bits. */
  predicate LaidOut(sizes: seq<nat>) {
    |sizes| == CLASSES && sizes[0] > 0 && Below(sizes, |sizes| - 1) < INDEX_LIMIT && Total(sizes) <= INDEX_LIMIT
  }

  /** If the first classes are empty, their upper bounds wrap to the top. */
  lemma EmptyClassWraps(sizes: seq<nat>, c: nat)
    requires c < |sizes| && Below(sizes, c + 1) == 0
    ensures Highest(sizes, c) == INDEX_LIMIT - 1 && !BoundsRight(sizes, c)
  {
    BelowGrows(sizes, c, c + 1);
  }

  /** The stored bounds of all classes delimit exactly their own objects if and
      only if the sizes can be laid out. */
  lemma LayoutExact(sizes: seq<nat>)
    requires |sizes| == CLASSES
    ensures LaidOut(sizes) <==> forall c :: 0 <= c < CLASSES ==> BoundsRight(sizes, c)
  {
    assert Below(sizes, 1) == Below(sizes, 0) + sizes[0];
    if LaidOut(sizes) {
      forall c | 0 <= c < CLASSES
        ensures BoundsRight(sizes, c)
      {
        BelowGrows(sizes, 1, c + 1);
        BelowGrows(sizes, c, |sizes| - 1);
        BelowGrows(sizes, c + 1, |sizes|);
      }
    } else if sizes[0] == 0 {
      EmptyClassWraps(sizes, 0);
    } else {
      assert !BoundsRight(sizes, |sizes| - 1);
    }
  }

  ghost predicate InRange(sizes: seq<nat>, c: nat, x: nat)
    requires c < |sizes|
  {
    Lowest(sizes, c) <= x <= Highest(sizes, c)
  }

  /** What the property table stores for a class: its size, in the handle type. */
  function Count(sizes: seq<nat>, c: nat, wide: bool): nat
    requires c < |sizes|
  {
    Narrow(sizes[c], wide)
  }

  /** The handle stack's bounds and the property table's count both describe class c. */
  predicate Agrees(sizes: seq<nat>, wide: bool, c: nat)
    requires c < |sizes|
  {
    BoundsRight(sizes, c) && Highest(sizes, c) + 1 - Lowest(sizes, c) == Count(sizes, c, wide)
  }

  /** The layout and the property table agree for every class if and only if the
      sizes can be laid out and every size fits the handle type. */
  lemma TableAgrees(sizes: seq<nat>, wide: bool)
    requires |sizes| == CLASSES
    ensures (forall c :: 0 <= c < CLASSES ==> Agrees(sizes, wide, c)) <==>
            LaidOut(sizes) && forall c :: 0 <= c < CLASSES ==> sizes[c] < HandleLimit(wide)
  {
    LayoutExact(sizes);
    if forall c :: 0 <= c < CLASSES ==> Agrees(sizes, wide, c) {
      forall c | 0 <= c < CLASSES
        ensures BoundsRight(sizes, c) && sizes[c] < HandleLimit(wide)
      {
        assert Agrees(sizes, wide, c);
      }
    }
    if LaidOut(sizes) && forall c :: 0 <= c < CLASSES ==> sizes[c] < HandleLimit(wide) {
      forall c | 0 <= c < CLASSES
        ensures Agrees(sizes, wide, c)
      {
        assert BoundsRight(sizes, c);
      }
    }
  }

  /** With 8-bit handles a class of 300 objects is laid out but counted as 44. */
  lemma CountTooSmall()
    ensures var sizes := [300, 0, 0, 0, 0, 0, 0, 0, 0];
            LaidOut(sizes) && Highest(sizes, 0) + 1 - Lowest(sizes, 0) == 300 && Count(sizes, 0, false) == 44
  {
    var sizes := [300, 0, 0, 0, 0, 0, 0, 0, 0];
    assert Below(sizes, 1) == 300;
    BelowFlat(sizes, 1, 8);
    BelowFlat(sizes, 1, 9);
  }

  /** The lengths of the ranges alone would not tell: when 16-bit indices wrap,
      they may agree with the table although the bounds are wrong. */
  lemma LengthsMislead()
    ensures var sizes := [65541, 0, 0, 0, 0, 0, 0, 0, 0];
            && !LaidOut(sizes)
            && forall c :: 0 <= c < CLASSES ==> Highest(sizes, c) + 1 - Lowest(sizes, c) == Count(sizes, c, true)
  {
    var sizes := [65541, 0, 0, 0, 0, 0, 0, 0, 0];
    assert Below(sizes, 1) == 65541;
    forall c | 0 <= c < CLASSES
      ensures Highest(sizes, c) + 1 - Lowest(sizes, c) == Count(sizes, c, true)
    {
      BelowFlat(sizes, 1, c + 1);
      if c > 0 { BelowFlat(sizes, 1, c); }
    }
    BelowFlat(sizes, 1, 9);
  }

  lemma {:induction false} BelowFlat(sizes: seq<nat>, j: nat, k: nat)
    requires j <= k <= |sizes| && forall c :: j <= c < k ==> sizes[c] == 0
    ensures Below(sizes, k) == Below(sizes, j)
  {
    if j < k {
      BelowFlat(sizes, j, k - 1);
    }
  }

  lemma {:induction false} ClassOf(sizes: seq<nat>, k: nat, x: nat) returns (c: nat)
    requires k <= |sizes| && x < Below(sizes, k)
    ensures c < k && Below(sizes, c) <= x < Below(sizes, c + 1)
  {
    if x < Below(sizes, k - 1) {
      c := ClassOf(sizes, k - 1, x);
    } else {
      c := k - 1;
    }
  }

  lemma ExactBounds(sizes: seq<nat>, c: nat)
    requires LaidOut(sizes) && c < CLASSES
    ensures Lowest(sizes, c) == Below(sizes, c) && Highest(sizes, c) + 1 == Below(sizes, c + 1) <= Total(sizes)
  {
    LayoutExact(sizes);
    assert BoundsRight(sizes, c);
    BelowGrows(sizes, c + 1, CLASSES);
  }

  lemma RangesApart(sizes: seq<nat>, c: nat, d: nat)
    requires LaidOut(sizes) && c < d < CLASSES
    ensures Highest(sizes, c) < Lowest(sizes, d)
  {
    ExactBounds(sizes, c);
    ExactBounds(sizes, d);
    BelowGrows(sizes, c + 1, d);
  }

  /** Each range is as long as its class's number of objects and starts where
      the one before it ends. */
  lemma RangesContiguous(sizes: seq<nat>, c: nat)
    requires LaidOut(sizes) && c < CLASSES
    ensures Highest(sizes, c) + 1 - Lowest(sizes, c) == sizes[c]
    ensures Lowest(sizes, c) == if c == 0 then 0 else Highest(sizes, c - 1) + 1
  {
    ExactBounds(sizes, c);
    if c > 0 { ExactBounds(sizes, c - 1); }
  }

  /** Every index below the total lies in the range of exactly one class, and
      no other index lies in any. */
  lemma RangesPartition(sizes: seq<nat>, x: nat)
    requires LaidOut(sizes)
    ensures x < Total(sizes) <==> exists c :: 0 <= c < CLASSES && InRange(sizes, c, x)
    ensures forall c, d ::
              0 <= c < CLASSES && 0 <= d < CLASSES && InRange(sizes, c, x) && InRange(sizes, d, x) ==> c == d
  {
    if x < Total(sizes) {
      var c := ClassOf(sizes, CLASSES, x);
      ExactBounds(sizes, c);
      assert InRange(sizes, c, x);
    }
    forall c | 0 <= c < CLASSES && InRange(sizes, c, x)
      ensures x < Total(sizes)
    {
      ExactBounds(sizes, c);
    }
    forall c, d | 0 <= c < CLASSES && 0 <= d < CLASSES && InRange(sizes, c, x) && InRange(sizes, d, x)
      ensures c == d
    {
      if c < d { RangesApart(sizes, c, d); }
      if d < c { RangesApart(sizes, d, c); }
    }
  }

  // ---------- handing out and taking back handles ----------

  /** The types that depend on the configuration and the processor: whether
      handles are 16-bit, and whether an int is wider than 16 bits. */
  datatype Target = Target(wide: bool, wideInt: bool)

  /** Every index up to the array's end fits 16 bits, and every index short of it
      is a positive int.  Any class may be empty, also the first. */
  predicate Usable(sizes: seq<nat>, t: Target) {
    |sizes| == CLASSES && Total(sizes) <= IndexLimit(t)
  }

  ghost predicate HandlesFit(sizes: seq<nat>, t: Target) {
    forall c :: 0 <= c < |sizes| ==> sizes[c] < HandleLimit(t.wide)
  }

  function IndexLimit(t: Target): nat { if t.wideInt then 0xFFFF else 0x8000 }

  /** A 16-bit unsigned number stored in an int. */
  function AsInt(n: nat, t: Target): int { if t.wideInt || n < 0x8000 then n else n - 0x1_0000 }

  /** Storing keeps the number modulo 2^16, within the range of the int. */
  lemma IntByNumber(n: nat, t: Target)
    requires n < 0x1_0000
    ensures AsInt(n, t) % 0x1_0000 == n
    ensures if t.wideInt then AsInt(n, t) == n else -0x8000 <= AsInt(n, t) < 0x8000
    ensures AsInt(n, t) == n && n + 1 < 0x1_0000 <==> n < IndexLimit(t)
  {}

  /** Counting down a 16-bit unsigned number. */
  function Down(n: nat): nat { if n == 0 then 0xFFFF else n - 1 }

  /** The configured sizes; for each class its stored count, its bounds and the
      index of its next handle; and the shared array of handles. */
  datatype Stacks = Stacks(
    sizes: seq<nat>, counts: seq<nat>, low: seq<nat>, high: seq<nat>, next: seq<nat>, handles: seq<nat>,
    target: Target)
  {
    predicate Shaped() {
      |sizes| == |counts| == |low| == |high| == |next| == CLASSES
    }

    /** Just past the range of a class. */
    function End(c: nat): nat
      requires Shaped() && c < CLASSES
    {
      low[c] + sizes[c]
    }

    /** The stored upper bound is the range's last index, or wraps to the top. */
    ghost predicate Valid() {
      && Shaped() && |handles| <= IndexLimit(target)
      && (forall c :: 0 <= c < CLASSES ==>
            counts[c] == Narrow(sizes[c], target.wide) && high[c] == Down(End(c)) && End(c) <= |handles|)
      && (forall c, d :: 0 <= c < d < CLASSES ==> End(c) <= low[d])
    }

    predicate SameLayout(s: Stacks) {
      sizes == s.sizes && counts == s.counts && low == s.low && high == s.high && |handles| == |s.handles|
    }

    predicate StartsRight(c: nat)
      requires Shaped() && c < CLASSES
    {
      low[c] == Below(sizes, c)
    }

    /** The classes share the whole array, one after the other. */
    ghost predicate Tiled()
      requires Valid()
    {
      |handles| == Total(sizes) && forall c :: 0 <= c < CLASSES ==> StartsRight(c)
    }
  }

  lemma Cut(n: nat)
    requires n < 0x1_0000
    ensures n % 0x1_0000 == n && (n - 1) % 0x1_0000 == Down(n)
  {}

  lemma BoundsOf(sizes: seq<nat>, c: nat)
    requires c < |sizes| && Total(sizes) < INDEX_LIMIT
    ensures Lowest(sizes, c) == Below(sizes, c) && Below(sizes, c) + sizes[c] <= Total(sizes)
    ensures Highest(sizes, c) == Down(Below(sizes, c) + sizes[c])
  {
    BelowGrows(sizes, c + 1, |sizes|);
    Cut(Below(sizes, c));
    Cut(Below(sizes, c + 1));
  }

  lemma BoundsApart(sizes: seq<nat>, c: nat, d: nat)
    requires c < d < |sizes| && Total(sizes) < INDEX_LIMIT
    ensures Lowest(sizes, c) + sizes[c] <= Lowest(sizes, d)
  {
    BoundsOf(sizes, c);
    BoundsOf(sizes, d);
    BelowGrows(sizes, c + 1, d);
  }

  function Lows(sizes: seq<nat>): (low: seq<nat>)
    requires |sizes| == CLASSES
    ensures |low| == CLASSES && forall c :: 0 <= c < CLASSES ==> low[c] == Lowest(sizes, c)
  {
    seq(CLASSES, c requires 0 <= c < CLASSES => Lowest(sizes, c))
  }

  function Highs(sizes: seq<nat>): (high: seq<nat>)
    requires |sizes| == CLASSES
    ensures |high| == CLASSES && forall c :: 0 <= c < CLASSES ==> high[c] == Highest(sizes, c)
  {
    seq(CLASSES, c requires 0 <= c < CLASSES => Highest(sizes, c))
  }

  function Counts(sizes: seq<nat>, wide: bool): (counts: seq<nat>)
    requires |sizes| == CLASSES
    ensures |counts| == CLASSES && forall c :: 0 <= c < CLASSES ==> counts[c] == Count(sizes, c, wide)
  {
    seq(CLASSES, c requires 0 <= c < CLASSES => Count(sizes, c, wide))
  }

  lemma LayoutValid(s: Stacks)
    requires Usable(s.sizes, s.target) && s.counts == Counts(s.sizes, s.target.wide)
    requires s.low == Lows(s.sizes) && s.high == Highs(s.sizes) && |s.next| == CLASSES
    requires |s.handles| == Total(s.sizes)
    ensures s.Valid()
  {
    forall c | 0 <= c < CLASSES
      ensures s.high[c] == Down(s.End(c)) && s.End(c) <= |s.handles|
    {
      BoundsOf(s.sizes, c);
    }
    forall c, d | 0 <= c < d < CLASSES
      ensures s.End(c) <= s.low[d]
    {
      BoundsApart(s.sizes, c, d);
    }
  }

  function Initial(sizes: seq<nat>, t: Target): (s: Stacks)
    requires Usable(sizes, t)
    ensures s.Valid() && s.sizes == sizes
  {
    var s :=
      Stacks(sizes, Counts(sizes, t.wide), Lows(sizes), Highs(sizes), Lows(sizes), seq(Total(sizes), _ => 0), t);
    LayoutValid(s);
    s
  }

  lemma InitialTiled(sizes: seq<nat>, t: Target)
    requires Usable(sizes, t)
    ensures Initial(sizes, t).Tiled()
  {
    var s := Initial(sizes, t);
    forall c | 0 <= c < CLASSES
      ensures s.StartsRight(c)
    {
      BoundsOf(sizes, c);
    }
  }

  /** The value found at index i once a zero entry has been replaced. */
  function Value(s: Stacks, c: nat, i: nat): nat
    requires c < |s.low| && i < |s.handles|
  {
    if s.handles[i] == 0 then Narrow(1 + i - s.low[c], s.target.wide) else s.handles[i]
  }

  /** A new state and a handle, 0 for none; or an access outside the array. */
  datatype Outcome = Done(s: Stacks, handle: nat) | OutOfBounds

  /** prvTraceGetObjectHandle.  The entry is looked up, and a zero in it
      replaced, before the class is known to have a handle left. */
  function Get(s: Stacks, c: nat): (r: Outcome)
    requires s.Valid()
    ensures r.Done? ==> r.s.Valid() && r.s.SameLayout(s)
  {
    if c >= CLASSES then Done(s, 0)
    else
      var i := AsInt(s.next[c], s.target);
      if !(0 <= i < |s.handles|) then OutOfBounds
      else
        var looked := s.(handles := s.handles[i := Value(s, c, i)]);
        if s.next[c] > s.high[c] then Done(looked, 0)
        else Done(looked.(next := s.next[c := s.next[c] + 1]), Value(s, c, i))
  }

  /** Whether the class counts as having nothing to take back.  Where an int has
      16 bits the subtraction is unsigned, and wraps at zero. */
  predicate NothingOut(s: Stacks, c: nat)
    requires s.Valid() && c < CLASSES
  {
    if s.target.wideInt then s.next[c] as int - 1 < s.low[c] as int else Down(s.next[c]) < s.low[c]
  }

  /** prvTraceFreeObjectHandle; a wrong class or handle is refused. */
  function Free(s: Stacks, c: nat, handle: nat): (r: Outcome)
    requires s.Valid()
    ensures r.Done? ==> r.s.Valid() && r.s.SameLayout(s)
  {
    if c >= CLASSES || !(0 < handle <= s.counts[c]) || NothingOut(s, c) then Done(s, 0)
    else
      var next := Down(s.next[c]);
      var i := AsInt(next, s.target);
      if !(0 <= i < |s.handles|) then OutOfBounds
      else Done(s.(next := s.next[c := next], handles := s.handles[i := handle]), 0)
  }

  /** The class keeps its promise: the handles in use are different numbers from
      1..n, and the rest of its range still offers all the others. */
  ghost predicate Keeps(s: Stacks, c: nat, live: set<nat>)
    requires s.Valid() && c < CLASSES
  {
    && s.counts[c] == s.sizes[c]
    && s.low[c] <= s.next[c] <= s.End(c)
    && |live| == s.next[c] - s.low[c]
    && (forall h :: h in live ==> 1 <= h <= s.counts[c])
    && (forall i :: s.next[c] <= i < s.End(c) ==> 1 <= Value(s, c, i) <= s.counts[c] && Value(s, c, i) !in live)
    && (forall i, j :: s.next[c] <= i < j < s.End(c) ==> Value(s, c, i) != Value(s, c, j))
    && (forall i :: s.low[c] <= i < s.next[c] ==> s.handles[i] != 0)
    && (forall i, j :: s.low[c] <= i < j < s.End(c) && s.handles[i] == 0 ==> s.handles[j] == 0)
  }

  /** All the class's handles are in use. */
  predicate Exhausted(s: Stacks, c: nat)
    requires s.Shaped() && c < CLASSES
  {
    s.next[c] >= s.End(c)
  }

  /** The class and all before it are empty, so that its stored upper bound is
      65535 and the test for exhaustion never succeeds. */
  predicate Wrapped(s: Stacks, c: nat)
    requires s.Shaped() && c < CLASSES
  {
    s.End(c) == 0
  }

  lemma OwnValue(s: Stacks, c: nat, i: nat)
    requires s.Valid() && c < CLASSES && s.counts[c] == s.sizes[c]
    requires s.low[c] <= i < s.End(c) && s.handles[i] == 0
    ensures Value(s, c, i) == 1 + i - s.low[c]
  {}

  lemma UnusedKeeps(s: Stacks, c: nat)
    requires s.Valid() && c < CLASSES && s.counts[c] == s.sizes[c] && s.next[c] == s.low[c]
    requires forall i :: s.low[c] <= i < s.End(c) ==> s.handles[i] == 0
    ensures Keeps(s, c, {})
  {
    forall i | s.next[c] <= i < s.End(c)
      ensures Value(s, c, i) == 1 + i - s.low[c]
    {
      OwnValue(s, c, i);
    }
  }

  /** At the start a class can promise its handles if and only if they fit the
      handle type. */
  lemma InitialKeeps(sizes: seq<nat>, t: Target, c: nat)
    requires Usable(sizes, t) && c < CLASSES
    ensures Keeps(Initial(sizes, t), c, {}) <==> sizes[c] < HandleLimit(t.wide)
  {
    var s := Initial(sizes, t);
    CountFits(sizes, t.wide, c);
    if sizes[c] < HandleLimit(t.wide) {
      UnusedKeeps(s, c);
    } else {
      if Keeps(s, c, {}) { KeptHeight(s, c, {}); }
    }
  }

  lemma CountFits(sizes: seq<nat>, wide: bool, c: nat)
    requires c < |sizes|
    ensures Count(sizes, c, wide) == sizes[c] <==> sizes[c] < HandleLimit(wide)
  {}

  /** A class with a handle left gives one that is in range and not in use. */
  lemma GetIsFresh(s: Stacks, c: nat, live: set<nat>)
    requires s.Valid() && c < CLASSES && Keeps(s, c, live) && !Exhausted(s, c)
    ensures Get(s, c).Done?
    ensures var h := Get(s, c).handle;
            1 <= h <= s.counts[c] && h !in live && Keeps(Get(s, c).s, c, live + {h})
  {
    var i := s.next[c];
    var r, h := Get(s, c).s, Get(s, c).handle;
    assert |live + {h}| == |live| + 1;
    assert r == s.(next := s.next[c := i + 1], handles := s.handles[i := h]);
    assert forall j :: i < j < s.End(c) ==> Value(r, c, j) == Value(s, c, j);
  }

  /** Taking back a handle in use makes it available again. */
  lemma FreeReturns(s: Stacks, c: nat, live: set<nat>, h: nat)
    requires s.Valid() && c < CLASSES && Keeps(s, c, live) && h in live
    ensures Free(s, c, h).Done? && Keeps(Free(s, c, h).s, c, live - {h})
  {
    assert |live - {h}| == |live| - 1;
    var top := s.next[c] - 1;
    var r := Free(s, c, h).s;
    assert r == s.(next := s.next[c := top], handles := s.handles[top := h]);
    assert Value(r, c, top) == h;
    assert forall j :: top < j < s.End(c) ==> Value(r, c, j) == Value(s, c, j);
  }

  /** A change to one entry of class c's range is not seen by any other class. */
  lemma OthersKeep(s: Stacks, r: Stacks, c: nat, d: nat, i: nat, live: set<nat>)
    requires s.Valid() && r.Valid() && c < CLASSES && d < CLASSES && c != d && Keeps(s, d, live)
    requires s.low[c] <= i < s.End(c)
    requires |r.handles| == |s.handles| && r.next[d] == s.next[d]
    requires r == s.(next := r.next, handles := s.handles[i := r.handles[i]])
    ensures Keeps(r, d, live)
  {
    assert i < s.low[d] || i >= s.End(d);
    assert forall j {:trigger r.handles[j]} :: s.low[d] <= j < s.End(d) ==> r.handles[j] == s.handles[j];
    assert forall j :: s.next[d] <= j < s.End(d) ==> Value(r, d, j) == Value(s, d, j);
  }

  /** Asking an exhausted class writes into the entry just past its range.  The
      class d owning that entry keeps its promise exactly when the entry was in
      use before or the value written happens to mean the same as the zero. */
  lemma ExhaustedGetSpills(s: Stacks, c: nat, d: nat, live: set<nat>)
    requires s.Valid() && c < CLASSES && d < CLASSES && s.counts[d] > 0 && s.counts[c] == s.sizes[c]
    requires Keeps(s, d, live) && s.next[c] == s.End(c) == s.low[d] && !Wrapped(s, c)
    ensures Get(s, c).Done? && Get(s, c).handle == 0
    ensures Keeps(Get(s, c).s, d, live) <==>
            s.handles[s.low[d]] != 0 || s.counts[c] == 0 || s.counts[c] + 1 == HandleLimit(s.target.wide)
  {
    var low, n, r := s.low[d], s.counts[c], Get(s, c).s;
    if s.handles[low] == 0 {
      SpilledValue(s, c, low);
      OwnValue(s, d, low);
      assert forall j :: low < j < s.End(d) ==> Value(r, d, j) == Value(s, d, j);
      if n + 1 == HandleLimit(s.target.wide) || n == 0 {
        assert Value(r, d, low) == Value(s, d, low);
      } else {
        assert Value(r, d, low) == n + 1;
        if n + 1 <= s.counts[d] {
          OwnValue(s, d, low + n);
          assert Value(r, d, low + n) == n + 1;
        }
      }
    } else {
      assert r == s;
    }
  }

  lemma SpilledValue(s: Stacks, c: nat, i: nat)
    requires s.Valid() && c < CLASSES && s.counts[c] == s.sizes[c] && i == s.End(c) < |s.handles| && s.handles[i] == 0
    ensures Value(s, c, i) == if s.counts[c] + 1 == HandleLimit(s.target.wide) then 0 else s.counts[c] + 1
  {}

  /** A class with no objects, with none before it either, gives out a handle all
      the same, or accesses memory outside the array. */
  lemma WrappedGives(s: Stacks, c: nat, live: set<nat>)
    requires s.Valid() && c < CLASSES && Wrapped(s, c) && s.next[c] == 0
    ensures Get(s, c).Done? <==> s.handles != []
    ensures Get(s, c).Done? ==> Get(s, c).s.next[c] == 1 && !Keeps(Get(s, c).s, c, live)
    ensures Get(s, c).Done? && s.handles[0] == 0 ==> Get(s, c).handle == 1
  {}

  /** The class owning the entry just past a class's range. */
  lemma NextOwner(s: Stacks, c: nat) returns (d: nat)
    requires s.Valid() && s.Tiled() && c < CLASSES && s.End(c) < |s.handles|
    ensures c < d < CLASSES && s.sizes[d] > 0 && s.low[d] == s.End(c)
  {
    var x := s.End(c);
    d := ClassOf(s.sizes, CLASSES, x);
    assert s.StartsRight(d);
    assert s.low[d] <= x < s.End(d);
  }

  lemma NothingAfterEnd(s: Stacks, c: nat, d: nat)
    requires s.Valid() && c < d < CLASSES && s.End(c) == |s.handles|
    ensures s.sizes[d] == 0
  {
    assert s.End(d) <= |s.handles|;
  }

  /** A request stays inside the array if and only if the class has a handle left
      or some later class is not empty. */
  lemma GetInBounds(s: Stacks, c: nat, live: set<nat>)
    requires s.Valid() && s.Tiled() && c < CLASSES && Keeps(s, c, live)
    ensures Get(s, c).Done? <==> !Exhausted(s, c) || exists d :: c < d < CLASSES && s.sizes[d] > 0
  {
    KeptHeight(s, c, live);
    if s.next[c] == s.End(c) < |s.handles| {
      var d := NextOwner(s, c);
      assert s.sizes[d] > 0;
    } else if s.next[c] == |s.handles| {
      forall d | c < d < CLASSES
        ensures s.sizes[d] == 0
      {
        NothingAfterEnd(s, c, d);
      }
    }
  }

  lemma KeptHeight(s: Stacks, c: nat, live: set<nat>)
    requires s.Valid() && c < CLASSES && Keeps(s, c, live)
    ensures s.low[c] <= s.next[c] <= s.End(c) && |live| == s.next[c] - s.low[c] && s.counts[c] == s.sizes[c]
  {}

  // ---------- whole runs ----------

  datatype Op = GetHandle(c: nat) | FreeHandle(c: nat, handle: nat)

  /** The stacks together with the handles in use in each class. */
  datatype Pool = Pool(s: Stacks, live: seq<set<nat>>)

  ghost predicate AllKeep(p: Pool) {
    && p.s.Valid() && p.s.Tiled() && |p.live| == CLASSES
    && forall c :: 0 <= c < CLASSES ==> Keeps(p.s, c, p.live[c])
  }

  /** A request does no harm: a handle is left, or the exhaustion is noticed and
      there is an entry past the range that was used before or keeps its meaning. */
  predicate Harmless(s: Stacks, c: nat)
    requires s.Shaped() && c < CLASSES
  {
    || !Exhausted(s, c)
    || (!Wrapped(s, c) && s.next[c] < |s.handles| &&
        (s.handles[s.next[c]] != 0 || s.counts[c] == 0 || s.counts[c] + 1 == HandleLimit(s.target.wide)))
  }

  /** Taking back does no harm: the handle is in use, or no handle of the class
      can be, or none is and the subtraction does not wrap. */
  predicate Orderly(p: Pool, op: Op)
    requires p.s.Shaped() && |p.live| == CLASSES
  {
    op.c < CLASSES ==>
      match op
      case GetHandle(c) => Harmless(p.s, c)
      case FreeHandle(c, h) =>
        || h in p.live[c] || !(0 < h <= p.s.counts[c])
        || (p.s.next[c] == p.s.low[c] && (p.s.target.wideInt || p.s.low[c] > 0))
  }

  function Act(s: Stacks, op: Op): (r: Outcome)
    requires s.Valid()
    ensures r.Done? ==> r.s.Valid() && r.s.SameLayout(s)
  {
    match op
    case GetHandle(c) => Get(s, c)
    case FreeHandle(c, h) => Free(s, c, h)
  }

  /** The handles in use after an operation: a handle given is added, and one
      given back is removed. */
  function Live(p: Pool, op: Op, given: nat): (live: seq<set<nat>>)
    requires |p.live| == CLASSES
    ensures |live| == CLASSES
  {
    if op.c >= CLASSES then p.live
    else
      match op
      case GetHandle(c) => if given == 0 then p.live else p.live[c := p.live[c] + {given}]
      case FreeHandle(c, h) => p.live[c := p.live[c] - {h}]
  }

  /** The operation stays inside the array and leaves every class's promise kept. */
  ghost predicate Fine(p: Pool, op: Op)
    requires AllKeep(p)
  {
    var r := Act(p.s, op);
    r.Done? && AllKeep(Pool(r.s, Live(p, op, r.handle)))
  }

  lemma TiledSame(s: Stacks, r: Stacks)
    requires s.Valid() && r.Valid() && r.SameLayout(s)
    ensures r.Tiled() <==> s.Tiled()
  {
    assert forall c :: 0 <= c < CLASSES ==> (r.StartsRight(c) <==> s.StartsRight(c));
  }

  /** An operation on one entry of class c leaves all promises kept if c's is. */
  lemma OthersStay(p: Pool, q: Pool, c: nat, i: nat)
    requires AllKeep(p) && q.s.Valid() && q.s.SameLayout(p.s) && c < CLASSES && |q.live| == CLASSES
    requires p.s.low[c] <= i < p.s.End(c)
    requires q.s == p.s.(next := q.s.next, handles := p.s.handles[i := q.s.handles[i]])
    requires q.s.next == p.s.next[c := q.s.next[c]] && q.live == p.live[c := q.live[c]]
    requires Keeps(q.s, c, q.live[c])
    ensures AllKeep(q)
  {
    TiledSame(p.s, q.s);
    forall d | 0 <= d < CLASSES
      ensures Keeps(q.s, d, q.live[d])
    {
      if d != c { OthersKeep(p.s, q.s, c, d, i, p.live[d]); }
    }
  }

  lemma GetLeftFine(p: Pool, c: nat)
    requires AllKeep(p) && c < CLASSES && !Exhausted(p.s, c)
    ensures Fine(p, GetHandle(c))
    ensures Act(p.s, GetHandle(c)).handle !in p.live[c] && 1 <= Act(p.s, GetHandle(c)).handle <= p.s.counts[c]
  {
    GetIsFresh(p.s, c, p.live[c]);
    var r := Get(p.s, c);
    var q := Pool(r.s, Live(p, GetHandle(c), r.handle));
    OthersStay(p, q, c, p.s.next[c]);
  }

  lemma GetExhausted(s: Stacks, c: nat)
    requires s.Valid() && c < CLASSES && s.next[c] == s.End(c) && !Wrapped(s, c)
    ensures Get(s, c) == if s.next[c] < |s.handles|
                         then Done(s.(handles := s.handles[s.next[c] := Value(s, c, s.next[c])]), 0) else OutOfBounds
  {}

  lemma GetExhaustedFine(p: Pool, c: nat)
    requires AllKeep(p) && c < CLASSES && Exhausted(p.s, c)
    ensures Fine(p, GetHandle(c)) <==> Harmless(p.s, c)
    ensures Fine(p, GetHandle(c)) ==> Get(p.s, c).handle == 0
  {
    KeptHeight(p.s, c, p.live[c]);
    if Wrapped(p.s, c) {
      WrappedNotFine(p, c);
    } else {
      GetExhausted(p.s, c);
      if p.s.next[c] < |p.s.handles| {
        var d := NextOwner(p.s, c);
        SpillFine(p, Pool(Get(p.s, c).s, p.live), c, d);
      }
    }
  }

  lemma WrappedNotFine(p: Pool, c: nat)
    requires AllKeep(p) && c < CLASSES && Wrapped(p.s, c)
    ensures !Fine(p, GetHandle(c))
  {
    KeptHeight(p.s, c, p.live[c]);
    var r := Get(p.s, c);
    if r.Done? {
      var live := Live(p, GetHandle(c), r.handle);
      WrappedGives(p.s, c, live[c]);
      if AllKeep(Pool(r.s, live)) { KeptOne(Pool(r.s, live), c); }
    }
  }

  lemma SpillFine(p: Pool, q: Pool, c: nat, d: nat)
    requires AllKeep(p) && c < CLASSES && d < CLASSES && p.s.next[c] == p.s.End(c) == p.s.low[d] && !Wrapped(p.s, c)
    requires p.s.sizes[d] > 0 && Get(p.s, c) == Done(q.s, 0) && q.live == p.live
    requires q.s == p.s.(handles := p.s.handles[p.s.low[d] := Value(p.s, c, p.s.low[d])])
    ensures AllKeep(q) <==> Harmless(p.s, c)
  {
    KeptOne(p, d);
    KeptHeight(p.s, c, p.live[c]);
    KeptHeight(p.s, d, p.live[d]);
    ExhaustedGetSpills(p.s, c, d, p.live[d]);
    if Keeps(q.s, d, p.live[d]) {
      SpillKept(p, q, d, Value(p.s, c, p.s.low[d]));
    } else if AllKeep(q) {
      KeptOne(q, d);
    }
  }

  lemma KeptOne(p: Pool, c: nat)
    requires AllKeep(p) && c < CLASSES
    ensures Keeps(p.s, c, p.live[c])
  {}

  lemma SpillKept(p: Pool, q: Pool, d: nat, v: nat)
    requires AllKeep(p) && q.s.Valid() && d < CLASSES && p.s.sizes[d] > 0 && q.live == p.live
    requires q.s == p.s.(handles := p.s.handles[p.s.low[d] := v]) && Keeps(q.s, d, p.live[d])
    ensures AllKeep(q)
  {
    assert q.s.next == p.s.next[d := q.s.next[d]] && q.live == p.live[d := q.live[d]];
    OthersStay(p, q, d, p.s.low[d]);
  }

  lemma FreeLiveFine(p: Pool, c: nat, h: nat)
    requires AllKeep(p) && c < CLASSES && h in p.live[c]
    ensures Fine(p, FreeHandle(c, h))
  {
    FreeReturns(p.s, c, p.live[c], h);
    var q := Pool(Free(p.s, c, h).s, Live(p, FreeHandle(c, h), 0));
    OthersStay(p, q, c, p.s.next[c] - 1);
  }

  lemma FreeCases(s: Stacks, c: nat, h: nat)
    requires s.Valid() && c < CLASSES && 0 < h <= s.counts[c] && s.low[c] <= s.next[c] <= s.End(c)
    ensures var r := Free(s, c, h);
            if s.next[c] > s.low[c] then r.Done? && r.s.next[c] == s.next[c] - 1
            else if s.target.wideInt || s.low[c] > 0 then r == Done(s, 0)
            else r == OutOfBounds
  {}

  lemma FreeOtherFine(p: Pool, c: nat, h: nat)
    requires AllKeep(p) && c < CLASSES && h !in p.live[c]
    ensures Fine(p, FreeHandle(c, h)) <==> Orderly(p, FreeHandle(c, h))
  {
    KeptHeight(p.s, c, p.live[c]);
    LiveAsBefore(p, c, h);
    if 0 < h <= p.s.counts[c] {
      FreeCases(p.s, c, h);
      if p.s.next[c] > p.s.low[c] && Fine(p, FreeHandle(c, h)) {
        KeptHeight(Free(p.s, c, h).s, c, p.live[c]);
        assert false;
      }
    }
  }

  lemma LiveAsBefore(p: Pool, c: nat, h: nat)
    requires |p.live| == CLASSES && c < CLASSES && h !in p.live[c]
    ensures Live(p, FreeHandle(c, h), 0) == p.live
  {
    assert p.live[c] - {h} == p.live[c];
  }

  /** An operation stays inside the array and keeps every class's promise if and
      only if it is orderly. */
  lemma PerformExactly(p: Pool, op: Op)
    requires AllKeep(p)
    ensures Fine(p, op) <==> Orderly(p, op)
  {
    if op.c >= CLASSES {
      assert Pool(p.s, p.live) == p;
    } else {
      match op
      case GetHandle(c) => if Exhausted(p.s, c) { GetExhaustedFine(p, c); } else { GetLeftFine(p, c); }
      case FreeHandle(c, h) => if h in p.live[c] { FreeLiveFine(p, c, h); } else { FreeOtherFine(p, c, h); }
    }
  }

  /** A request that is fine is refused exactly when all the class's handles are
      in use, and otherwise answered with one that is not. */
  lemma AnswerIsFresh(p: Pool, c: nat)
    requires AllKeep(p) && c < CLASSES && Fine(p, GetHandle(c))
    ensures var h := Act(p.s, GetHandle(c)).handle;
            if |p.live[c]| == p.s.counts[c] then h == 0 else 1 <= h <= p.s.counts[c] && h !in p.live[c]
  {
    assert Keeps(p.s, c, p.live[c]);
    if Exhausted(p.s, c) { GetExhaustedFine(p, c); } else { GetLeftFine(p, c); }
  }

  ghost predicate OrderlyRun(p: Pool, ops: seq<Op>)
    requires AllKeep(p)
    decreases |ops|
  {
    ops != [] ==>
      && Orderly(p, ops[0])
      && (PerformExactly(p, ops[0]); OrderlyRun(After(p, ops[0]), ops[1..]))
  }

  ghost function After(p: Pool, op: Op): (q: Pool)
    requires AllKeep(p) && Fine(p, op)
    ensures AllKeep(q) && q.s.SameLayout(p.s)
  {
    var r := Act(p.s, op);
    Pool(r.s, Live(p, op, r.handle))
  }

  /** Every operation of the run stays inside the array and leaves every promise kept. */
  ghost predicate SafeRun(p: Pool, ops: seq<Op>)
    requires AllKeep(p)
    decreases |ops|
  {
    ops != [] ==> Fine(p, ops[0]) && SafeRun(After(p, ops[0]), ops[1..])
  }

  /** A run is safe if and only if each of its operations is orderly when it is made. */
  lemma {:induction false} SafeExactly(p: Pool, ops: seq<Op>)
    requires AllKeep(p)
    ensures SafeRun(p, ops) <==> OrderlyRun(p, ops)
    decreases |ops|
  {
    if ops != [] {
      PerformExactly(p, ops[0]);
      if Fine(p, ops[0]) { SafeExactly(After(p, ops[0]), ops[1..]); }
    }
  }

  ghost function RunPool(p: Pool, ops: seq<Op>): (r: Pool)
    requires AllKeep(p) && OrderlyRun(p, ops)
    ensures AllKeep(r)
    decreases |ops|
  {
    if ops == [] then p
    else
      PerformExactly(p, ops[0]);
      RunPool(After(p, ops[0]), ops[1..])
  }

  function FreshPool(sizes: seq<nat>, t: Target): Pool
    requires Usable(sizes, t)
  {
    Pool(Initial(sizes, t), seq(CLASSES, _ => {}))
  }

  /** At the start all classes keep their promises if and only if every class's
      handles fit the handle type. */
  lemma FreshExactly(sizes: seq<nat>, t: Target)
    requires Usable(sizes, t)
    ensures AllKeep(FreshPool(sizes, t)) <==> HandlesFit(sizes, t)
  {
    InitialTiled(sizes, t);
    var p := FreshPool(sizes, t);
    forall c | 0 <= c < CLASSES
      ensures Keeps(p.s, c, p.live[c]) <==> sizes[c] < HandleLimit(t.wide)
    {
      InitialKeeps(sizes, t, c);
    }
  }

  /** After any orderly run, every class has as many different handles from
      1..n in use as its stack is high, and the layout is as it was. */
  lemma RunsKeep(p: Pool, ops: seq<Op>, c: nat)
    requires AllKeep(p) && OrderlyRun(p, ops) && c < CLASSES
    ensures var r := RunPool(p, ops);
            && r.s.SameLayout(p.s)
            && |r.live[c]| == r.s.next[c] - r.s.low[c] <= r.s.sizes[c]
            && forall h :: h in r.live[c] ==> 1 <= h <= r.s.sizes[c]
  {
    RunLayout(p, ops);
    KeptOne(RunPool(p, ops), c);
  }

  lemma {:induction false} RunLayout(p: Pool, ops: seq<Op>)
    requires AllKeep(p) && OrderlyRun(p, ops)
    ensures RunPool(p, ops).s.SameLayout(p.s)
    decreases |ops|
  {
    if ops != [] {
      PerformExactly(p, ops[0]);
      RunLayout(After(p, ops[0]), ops[1..]);
    }
  }

  // ---------- runs that go wrong ----------

  /** Asked twice, class 0 gives 1 and then nothing; class 1 then gives 2 twice. */
  ghost predicate GivesTwice(s0: Stacks)
    requires s0.Valid()
  {
    var g1 := Get(s0, 0);
    && g1.Done? && g1.handle == 1
    && var g2 := Get(g1.s, 0);
       && g2.Done? && g2.handle == 0
       && var g3 := Get(g2.s, 1);
          && g3.Done? && g3.handle == 2
          && var g4 := Get(g3.s, 1);
             g4.Done? && g4.handle == 2
  }

  lemma LayoutGivesTwice(s: Stacks)
    requires s.Valid() && s.handles == [0, 0, 0]
    requires s.low[0] == s.next[0] == 0 == s.high[0] && s.low[1] == s.next[1] == 1 && s.high[1] == 2
    ensures GivesTwice(s)
  {
    var s1, s2 := Get(s, 0).s, Get(Get(s, 0).s, 0).s;
    assert s1.handles == [1, 0, 0];
    assert s2.handles == [1, 2, 0];
  }

  /** With one object in the first class and two in the second, asking the first
      class twice makes the second hand out the same handle to both of its objects. */
  lemma SharedHandle(t: Target)
    ensures Usable(EXAMPLE, t) && GivesTwice(Initial(EXAMPLE, t))
  {
    ExampleUsable(t);
    ExampleLayout(Initial(EXAMPLE, t), t);
    LayoutGivesTwice(Initial(EXAMPLE, t));
  }

  const EXAMPLE: seq<nat> := [1, 2, 0, 0, 0, 0, 0, 0, 0]

  lemma ExampleLayout(s: Stacks, t: Target)
    requires Usable(EXAMPLE, t) && s == Initial(EXAMPLE, t)
    ensures s.handles == [0, 0, 0] && s.low[0] == s.next[0] == 0 == s.high[0]
    ensures s.low[1] == s.next[1] == 1 && s.high[1] == 2
  {
    var sizes := EXAMPLE;
    assert Below(sizes, 1) == 1 && Below(sizes, 2) == 3;
    BelowFlat(sizes, 2, 9);
  }

  lemma ExampleUsable(t: Target)
    ensures Usable(EXAMPLE, t)
  {
    var sizes := EXAMPLE;
    assert Below(sizes, 1) == 1 && Below(sizes, 2) == 3;
    BelowFlat(sizes, 2, 8);
    BelowFlat(sizes, 2, 9);
  }

  const SINGLE: seq<nat> := [1, 0, 0, 0, 0, 0, 0, 0, 0]

  lemma SingleLayout(t: Target)
    ensures Usable(SINGLE, t)
    ensures var s := Initial(SINGLE, t); s.handles == [0] && s.low[0] == s.next[0] == 0 == s.high[0]
  {
    assert Below(SINGLE, 1) == 1;
    BelowFlat(SINGLE, 1, 8);
    BelowFlat(SINGLE, 1, 9);
  }

  /** With a single object in the first class and none elsewhere, the second
      request accesses the entry past the end of the array. */
  lemma SecondRequestOverruns(t: Target)
    ensures Usable(SINGLE, t)
    ensures var g := Get(Initial(SINGLE, t), 0);
            g.Done? && g.handle == 1 && g.s.next[0] == |g.s.handles| && Get(g.s, 0) == OutOfBounds
  {
    SingleLayout(t);
  }

  const EMPTY_FIRST: seq<nat> := [0, 1, 0, 0, 0, 0, 0, 0, 0]

  lemma EmptyLayout(t: Target)
    ensures Usable(EMPTY_FIRST, t)
    ensures var s := Initial(EMPTY_FIRST, t);
            s.handles == [0] && s.counts[0] == 0 && s.low[0] == s.next[0] == 0 && s.high[0] == 0xFFFF
  {
    assert Below(EMPTY_FIRST, 1) == 0 && Below(EMPTY_FIRST, 2) == 1;
    BelowFlat(EMPTY_FIRST, 2, 9);
  }

  lemma EmptyGets(s: Stacks)
    requires s.Valid() && s.handles == [0] && s.low[0] == s.next[0] == 0 && s.high[0] == 0xFFFF
    ensures var g := Get(s, 0); g.Done? && g.handle == 1 && Get(g.s, 0) == OutOfBounds
  {}

  /** With an empty first class, that class gives out handle 1, taking the entry
      of the next class, and then accesses the entry past the end of the array. */
  lemma EmptyClassGives(t: Target)
    ensures Usable(EMPTY_FIRST, t) && AllKeep(FreshPool(EMPTY_FIRST, t))
    ensures var s := Initial(EMPTY_FIRST, t);
            s.counts[0] == 0 && var g := Get(s, 0); g.Done? && g.handle == 1 && Get(g.s, 0) == OutOfBounds
  {
    EmptyLayout(t);
    EmptyGets(Initial(EMPTY_FIRST, t));
    FreshExactly(EMPTY_FIRST, t);
  }

  /** Where an int has 16 bits, taking back a handle of the first class before
      any was given is not refused, and writes before the start of the array. */
  lemma EarlyFreeUnderruns(t: Target)
    requires !t.wideInt
    ensures Usable(SINGLE, t) && Free(Initial(SINGLE, t), 0, 1) == OutOfBounds
  {
    SingleLayout(t);
  }

  // ---------- the recorder's arrays ----------

  method ArrayOf(values: seq<nat>) returns (a: array<nat>)
    ensures fresh(a) && a[..] == values
  {
    a := new nat[|values|](i requires 0 <= i < |values| => values[i]);
  }

  class Recorder {
    const sizes: seq<nat>          // the configured numbers of objects
    const target: Target
    const numberOfObjectsPerClass: array<nat>
    const indexOfNextAvailableHandle: array<nat>
    const lowestIndexOfClass: array<nat>
    const highestIndexOfClass: array<nat>
    const objectHandles: array<nat>
    ghost const Repr: set<object>

    ghost predicate Separate()
      reads this
    {
      && Repr == {numberOfObjectsPerClass, indexOfNextAvailableHandle,
                  lowestIndexOfClass, highestIndexOfClass, objectHandles}
      && indexOfNextAvailableHandle != lowestIndexOfClass && indexOfNextAvailableHandle != highestIndexOfClass
      && indexOfNextAvailableHandle != objectHandles && indexOfNextAvailableHandle != numberOfObjectsPerClass
      && lowestIndexOfClass != highestIndexOfClass && lowestIndexOfClass != objectHandles
      && lowestIndexOfClass != numberOfObjectsPerClass && highestIndexOfClass != objectHandles
      && highestIndexOfClass != numberOfObjectsPerClass && objectHandles != numberOfObjectsPerClass
    }

    ghost predicate Valid()
      reads this, Repr
    {
      Separate() && Contents().Valid()
    }

    ghost function Contents(): Stacks
      requires Separate()
      reads this, Repr
    {
      Stacks(sizes, numberOfObjectsPerClass[..], lowestIndexOfClass[..], highestIndexOfClass[..],
             indexOfNextAvailableHandle[..], objectHandles[..], target)
    }

    /** vTraceInitObjectPropertyTable, the class sizes, and
        vTraceInitObjectHandleStack, whose bounds are sums of them. */
    constructor (sizes: seq<nat>, t: Target)
      requires Usable(sizes, t)
      ensures Valid() && fresh(Repr)
      ensures Contents() == Initial(sizes, t)
    {
      this.sizes, target := sizes, t;
      var n := ArrayOf(Counts(sizes, t.wide));
      var l := ArrayOf(Lows(sizes));
      var x := ArrayOf(Lows(sizes));
      var h := ArrayOf(Highs(sizes));
      var o := ArrayOf(seq(Total(sizes), _ => 0));
      numberOfObjectsPerClass, indexOfNextAvailableHandle, lowestIndexOfClass, highestIndexOfClass := n, x, l, h;
      objectHandles := o;
      Repr := {n, x, l, h, o};
      new;
      assert Contents() == Initial(sizes, t);
    }

    /** outside: the source accesses memory outside the array. */
    method GetObjectHandle(c: nat) returns (handle: nat, outside: bool)
      requires Valid()
      modifies Repr
      ensures Valid()
      ensures outside <==> Get(old(Contents()), c) == OutOfBounds
      ensures outside ==> Contents() == old(Contents())
      ensures !outside ==> Done(Contents(), handle) == Get(old(Contents()), c)
    {
      handle, outside := 0, false;
      if c >= CLASSES {
        return;
      }
      ghost var before := Contents();
      var i := AsInt(indexOfNextAvailableHandle[c], target);
      if !(0 <= i < objectHandles.Length) {
        outside := true;
        return;
      }
      if objectHandles[i] == 0 {
        objectHandles[i] := Narrow(1 + i - lowestIndexOfClass[c] as int, target.wide);
      }
      handle := objectHandles[i];
      assert handle == Value(before, c, i);
      assert objectHandles[..] == before.handles[i := handle];
      if indexOfNextAvailableHandle[c] > highestIndexOfClass[c] {
        handle := 0;
      } else {
        indexOfNextAvailableHandle[c] := indexOfNextAvailableHandle[c] + 1;
      }
    }

    method FreeObjectHandle(c: nat, handle: nat) returns (outside: bool)
      requires Valid()
      modifies Repr
      ensures Valid()
      ensures outside <==> Free(old(Contents()), c, handle) == OutOfBounds
      ensures !outside ==> Done(Contents(), 0) == Free(old(Contents()), c, handle)
    {
      outside := false;
      if c >= CLASSES || !(0 < handle <= numberOfObjectsPerClass[c]) || NothingToFree(c) {
        return;
      }
      var next := Down(indexOfNextAvailableHandle[c]);
      var i := AsInt(next, target);
      indexOfNextAvailableHandle[c] := next;
      if !(0 <= i < objectHandles.Length) {
        outside := true;
        return;
      }
      objectHandles[i] := handle;
    }

    function NothingToFree(c: nat): (r: bool)
      requires Valid() && c < CLASSES
      reads this, Repr
      ensures r == NothingOut(Contents(), c)
    {
      var top, low := indexOfNextAvailableHandle[c], lowestIndexOfClass[c];
      if target.wideInt then top as int - 1 < low as int else Down(top) < low
    }
  }
}
