/** The order of log lines: sequences of numbered "Sent" and "Received" lines,
    and what remains of their order when some of them are lost. */
module LogOrder {

  const ID_LIMIT: nat := 0x1_0000_0000_0000_0000

  datatype Kind = Sent | SendFailed | Received | ReceiveFailed

  datatype Line = Line(kind: Kind, id: nat)

  // ---------- numbering and causality ----------

  function Count(lines: seq<Line>, kind: Kind): nat {
    if lines == [] then 0
    else Count(lines[..|lines| - 1], kind) + (if lines[|lines| - 1].kind == kind then 1 else 0)
  }

  /** The k-th line of this kind carries id k. */
  ghost predicate Numbered(lines: seq<Line>, kind: Kind) {
    forall p :: 0 <= p < |lines| && lines[p].kind == kind ==>
                  lines[p].id == Count(lines[..p], kind) % 0x1_0000_0000_0000_0000
  }

  /** At most one more Received than Sent at every moment: line k of the
      receiver never comes before line k - 1 of the sender. */
  ghost predicate Causal(lines: seq<Line>) {
    forall p :: 0 <= p <= |lines| ==> Count(lines[..p], Received) <= Count(lines[..p], Sent) + 1
  }

  ghost predicate Ordered(lines: seq<Line>) {
    Numbered(lines, Sent) && Numbered(lines, Received) && Causal(lines)
  }

  lemma Append(lines: seq<Line>, line: Line)
    ensures forall kind :: Count(lines + [line], kind) == Count(lines, kind) + (if line.kind == kind then 1 else 0)
  {
    assert (lines + [line])[..|lines|] == lines;
  }

  lemma AppendNumbered(lines: seq<Line>, line: Line, kind: Kind)
    requires Numbered(lines, kind)
    requires line.kind == kind ==> line.id == Count(lines, kind) % 0x1_0000_0000_0000_0000
    ensures Numbered(lines + [line], kind)
  {
    var longer := lines + [line];
    forall p | 0 <= p < |longer| && longer[p].kind == kind
      ensures longer[p].id == Count(longer[..p], kind) % 0x1_0000_0000_0000_0000
    {
      assert longer[..p] == lines[..p];
      if p == |lines| { assert lines[..p] == lines; }
    }
  }

  lemma AppendCausal(lines: seq<Line>, line: Line)
    requires Causal(lines)
    requires line.kind == Received ==> Count(lines, Received) <= Count(lines, Sent)
    ensures Causal(lines + [line])
  {
    var longer := lines + [line];
    Append(lines, line);
    assert lines[..|lines|] == lines;
    forall p | 0 <= p <= |longer|
      ensures Count(longer[..p], Received) <= Count(longer[..p], Sent) + 1
    {
      if p <= |lines| {
        assert longer[..p] == lines[..p];
      } else {
        assert longer[..p] == longer;
      }
    }
  }

  lemma AppendKeeps(lines: seq<Line>, line: Line)
    requires Ordered(lines)
    requires line.kind == Sent || line.kind == Received ==> line.id == Count(lines, line.kind) % 0x1_0000_0000_0000_0000
    requires line.kind == Received ==> Count(lines, Received) <= Count(lines, Sent)
    ensures Ordered(lines + [line])
  {
    AppendNumbered(lines, line, Sent);
    AppendNumbered(lines, line, Received);
    AppendCausal(lines, line);
  }

  lemma PrefixKeeps(lines: seq<Line>, n: nat)
    requires n <= |lines| && Ordered(lines)
    ensures Ordered(lines[..n])
  {
    forall p | 0 <= p <= n
      ensures lines[..n][..p] == lines[..p]
    {}
  }

  /** Lines numbered 0, 1, 2, ... for each task, with the k-th Received line
      only after k Sent lines. */
  ghost predicate InCausalOrder(lines: seq<Line>) {
    && Numbered(lines, Sent) && Numbered(lines, Received)
    && forall p :: 0 <= p < |lines| && lines[p].kind == Received ==>
         Count(lines[..p], Received) <= Count(lines[..p], Sent)
  }

  lemma OrderedIsCausal(lines: seq<Line>)
    requires Ordered(lines)
    ensures InCausalOrder(lines)
  {
    forall p | 0 <= p < |lines| && lines[p].kind == Received
      ensures Count(lines[..p], Received) <= Count(lines[..p], Sent)
    {
      assert lines[..p + 1] == lines[..p] + [lines[p]];
      Append(lines[..p], lines[p]);
      assert Count(lines[..p + 1], Received) <= Count(lines[..p + 1], Sent) + 1;
    }
  }

  // ---------- lost lines ----------

  /** The lines that were taken, in order. */
  function Taken(lines: seq<Line>, taken: seq<bool>): seq<Line>
    requires |taken| == |lines|
  {
    if lines == [] then []
    else
      var n := |lines| - 1;
      var earlier := Taken(lines[..n], taken[..n]);
      if taken[n] then earlier + [lines[n]] else earlier
  }

  lemma TakenAppend(lines: seq<Line>, taken: seq<bool>, line: Line, kept: bool)
    requires |taken| == |lines|
    ensures Taken(lines + [line], taken + [kept]) ==
            if kept then Taken(lines, taken) + [line] else Taken(lines, taken)
  {
    assert (lines + [line])[..|lines|] == lines && (taken + [kept])[..|taken|] == taken;
  }

  predicate Lossless(taken: seq<bool>) { forall i :: 0 <= i < |taken| ==> taken[i] }

  lemma {:induction false} AllTaken(lines: seq<Line>, taken: seq<bool>)
    requires |taken| == |lines| && Lossless(taken)
    ensures Taken(lines, taken) == lines
  {
    if lines != [] {
      var n := |lines| - 1;
      AllTaken(lines[..n], taken[..n]);
      assert lines == lines[..n] + [lines[n]];
    }
  }

  /** How many of the lines one has to look at to find the first n taken ones. */
  function Span(taken: seq<bool>, n: nat): (m: nat)
    ensures m <= |taken|
  {
    if taken == [] || n == 0 then 0
    else
      var k := |taken| - 1;
      if n <= Trues(taken[..k]) then Span(taken[..k], n) else |taken|
  }

  function Trues(taken: seq<bool>): nat {
    if taken == [] then 0 else Trues(taken[..|taken| - 1]) + if taken[|taken| - 1] then 1 else 0
  }

  lemma {:induction false} TakenLength(lines: seq<Line>, taken: seq<bool>)
    requires |taken| == |lines|
    ensures |Taken(lines, taken)| == Trues(taken)
  {
    if lines != [] {
      var n := |lines| - 1;
      TakenLength(lines[..n], taken[..n]);
    }
  }

  lemma {:induction false} SpanTakes(lines: seq<Line>, taken: seq<bool>, n: nat)
    requires |taken| == |lines| && n <= |Taken(lines, taken)|
    ensures Taken(lines[..Span(taken, n)], taken[..Span(taken, n)]) == Taken(lines, taken)[..n]
  {
    var all := Taken(lines, taken);
    if n > 0 && lines != [] {
      var k := |lines| - 1;
      var shorter := Taken(lines[..k], taken[..k]);
      TakenLength(lines[..k], taken[..k]);
      if n <= Trues(taken[..k]) {
        SpanTakes(lines[..k], taken[..k], n);
        var m := Span(taken[..k], n);
        assert lines[..k][..m] == lines[..m] && taken[..k][..m] == taken[..m];
        assert all[..n] == shorter[..n];
      } else {
        assert lines[..|lines|] == lines && taken[..|lines|] == taken && all[..n] == all;
      }
    }
  }

  /** A lost line shows in a later one that is taken: the later one is of the
      same kind, or reports a message received that needed the lost one sent. */
  predicate Shows(lost: Line, line: Line) {
    || (lost.kind == line.kind && (line.kind == Sent || line.kind == Received))
    || (lost.kind == Sent && line.kind == Received && line.id > lost.id)
  }

  ghost predicate Unseen(lines: seq<Line>, taken: seq<bool>, line: Line)
    requires |taken| == |lines|
  {
    forall i {:trigger lines[i]} :: 0 <= i < |lines| && !taken[i] ==> !Shows(lines[i], line)
  }

  /** No lost line shows in a later one. */
  ghost predicate LossHidden(lines: seq<Line>, taken: seq<bool>)
    requires |taken| == |lines|
  {
    forall j :: 0 <= j < |lines| && taken[j] ==> Unseen(lines[..j], taken[..j], lines[j])
  }

  lemma HiddenAppend(lines: seq<Line>, taken: seq<bool>, line: Line, kept: bool)
    requires |taken| == |lines|
    ensures LossHidden(lines + [line], taken + [kept]) <==>
            LossHidden(lines, taken) && (kept ==> Unseen(lines, taken, line))
  {
    var ls, ts, n := lines + [line], taken + [kept], |lines|;
    assert ls[..n] == lines && ts[..n] == taken;
    forall j | 0 <= j < n
      ensures ls[..j] == lines[..j] && ts[..j] == taken[..j]
    {}
    if LossHidden(ls, ts) {
      forall j | 0 <= j < n && taken[j]
        ensures Unseen(lines[..j], taken[..j], lines[j])
      {
        assert ts[j] && Unseen(ls[..j], ts[..j], ls[j]);
      }
      if kept { assert ts[n] && Unseen(ls[..n], ts[..n], ls[n]); }
    }
  }

  predicate Lost(lines: seq<Line>, taken: seq<bool>, i: int, kind: Kind)
    requires |taken| == |lines|
  {
    0 <= i < |lines| && !taken[i] && lines[i].kind == kind
  }

  ghost predicate AnyLost(lines: seq<Line>, taken: seq<bool>, kind: Kind)
    requires |taken| == |lines|
  {
    exists i :: Lost(lines, taken, i, kind)
  }

  lemma LostAppend(lines: seq<Line>, taken: seq<bool>, line: Line, kept: bool, kind: Kind)
    requires |taken| == |lines|
    ensures AnyLost(lines + [line], taken + [kept], kind) <==>
            AnyLost(lines, taken, kind) || (!kept && line.kind == kind)
  {
    var ls, ts := lines + [line], taken + [kept];
    forall i
      ensures Lost(ls, ts, i, kind) <==> Lost(lines, taken, i, kind) || (i == |lines| && !kept && line.kind == kind)
    {}
    if !kept && line.kind == kind { assert Lost(ls, ts, |lines|, kind); }
    if AnyLost(lines, taken, kind) {
      var i :| Lost(lines, taken, i, kind);
      assert Lost(ls, ts, i, kind);
    }
  }

  /** Taking falls short of issuing exactly when a line of the kind was lost. */
  lemma {:induction false} CountTaken(lines: seq<Line>, taken: seq<bool>, kind: Kind)
    requires |taken| == |lines|
    ensures Count(Taken(lines, taken), kind) <= Count(lines, kind)
    ensures Count(Taken(lines, taken), kind) < Count(lines, kind) <==> AnyLost(lines, taken, kind)
  {
    if lines != [] {
      var n := |lines| - 1;
      var ls, ts, x := lines[..n], taken[..n], lines[n];
      assert lines == ls + [x] && taken == ts + [taken[n]];
      CountTaken(ls, ts, kind);
      LostAppend(ls, ts, x, taken[n], kind);
      Append(ls, x);
      if taken[n] { Append(Taken(ls, ts), x); }
    }
  }

  /** While no loss shows, the lost Sent lines are those from the first missing
      number on. */
  ghost predicate MissingFrom(lines: seq<Line>, taken: seq<bool>, first: nat)
    requires |taken| == |lines|
  {
    && (forall i :: Lost(lines, taken, i, Sent) ==> lines[i].id >= first)
    && (AnyLost(lines, taken, Sent) ==> exists i :: Lost(lines, taken, i, Sent) && lines[i].id == first)
  }

  ghost predicate Exact(lines: seq<Line>) {
    Ordered(lines) && |lines| <= 0x1_0000_0000_0000_0000
  }

  lemma {:induction false} CountAtMost(lines: seq<Line>, kind: Kind)
    ensures Count(lines, kind) <= |lines|
  {
    if lines != [] { CountAtMost(lines[..|lines| - 1], kind); }
  }

  /** What the last line of an ordered sequence says. */
  lemma LastOf(lines: seq<Line>, line: Line)
    requires Exact(lines + [line])
    ensures Exact(lines) && Fits(lines, line)
  {
    var longer := lines + [line];
    assert longer[..|lines|] == lines && longer[..|longer|] == longer;
    PrefixKeeps(longer, |lines|);
    CountAtMost(lines, line.kind);
    Append(lines, line);
    assert longer[|lines|] == line;
    Small(Count(lines, line.kind));
    assert Count(longer[..|longer|], Received) <= Count(longer[..|longer|], Sent) + 1;
  }

  lemma Small(n: nat)
    requires n < 0x1_0000_0000_0000_0000
    ensures n % 0x1_0000_0000_0000_0000 == n
  {}

  lemma UnseenNotLost(lines: seq<Line>, taken: seq<bool>, line: Line, kept: bool)
    requires |taken| == |lines| && (kept ==> Unseen(lines, taken, line))
    ensures kept && (line.kind == Sent || line.kind == Received) ==> !AnyLost(lines, taken, line.kind)
  {
    forall i | kept && (line.kind == Sent || line.kind == Received)
      ensures !Lost(lines, taken, i, line.kind)
    {
      assert 0 <= i < |lines| && !taken[i] ==> !Shows(lines[i], line);
    }
  }

  lemma MissingAppend(lines: seq<Line>, taken: seq<bool>, line: Line, kept: bool)
    requires |taken| == |lines| && (kept ==> Unseen(lines, taken, line))
    requires line.kind == Sent ==> line.id == Count(lines, Sent)
    requires MissingFrom(lines, taken, Count(Taken(lines, taken), Sent))
    ensures var first := Count(Taken(lines, taken), Sent) + if kept && line.kind == Sent then 1 else 0;
            MissingFrom(lines + [line], taken + [kept], first)
  {
    var ls, ts, n, was := lines + [line], taken + [kept], |lines|, Count(Taken(lines, taken), Sent);
    CountTaken(lines, taken, Sent);
    LostAppend(lines, taken, line, kept, Sent);
    UnseenNotLost(lines, taken, line, kept);
    forall i | Lost(ls, ts, i, Sent)
      ensures ls[i].id >= was
    {
      if i < n { assert Lost(lines, taken, i, Sent); }
    }
    if AnyLost(lines, taken, Sent) {
      var i :| Lost(lines, taken, i, Sent) && lines[i].id == was;
      assert Lost(ls, ts, i, Sent) && ls[i].id == was;
    } else if !kept && line.kind == Sent {
      assert Lost(ls, ts, n, Sent);
    }
  }

  lemma {:induction false} Missing(lines: seq<Line>, taken: seq<bool>)
    requires |taken| == |lines| && Exact(lines) && LossHidden(lines, taken)
    ensures MissingFrom(lines, taken, Count(Taken(lines, taken), Sent))
  {
    if lines != [] {
      var n := |lines| - 1;
      var ls, ts, x := lines[..n], taken[..n], lines[n];
      assert lines == ls + [x] && taken == ts + [taken[n]];
      LastOf(ls, x);
      HiddenAppend(ls, ts, x, taken[n]);
      Missing(ls, ts);
      MissingAppend(ls, ts, x, taken[n]);
      if taken[n] { Append(Taken(ls, ts), x); }
    }
  }

  ghost predicate Fits(lines: seq<Line>, line: Line) {
    && (line.kind == Sent || line.kind == Received ==> line.id == Count(lines, line.kind))
    && (line.kind == Received ==> Count(lines, Received) <= Count(lines, Sent))
  }

  lemma CausalAppend(lines: seq<Line>, line: Line)
    requires |lines| < 0x1_0000_0000_0000_0000
    ensures InCausalOrder(lines + [line]) <==> InCausalOrder(lines) && Fits(lines, line)
  {
    var longer := lines + [line];
    assert longer[..|lines|] == lines && longer[|lines|] == line;
    forall p | 0 <= p < |lines| ensures longer[..p] == lines[..p] && longer[p] == lines[p] {}
    CountAtMost(lines, line.kind);
    Small(Count(lines, line.kind));
  }

  lemma FitsUnseen(lines: seq<Line>, taken: seq<bool>, line: Line)
    requires |taken| == |lines| && Fits(lines, line) && Fits(Taken(lines, taken), line)
    requires MissingFrom(lines, taken, Count(Taken(lines, taken), Sent))
    ensures Unseen(lines, taken, line)
  {
    CountTaken(lines, taken, line.kind);
    forall i {:trigger lines[i]} | 0 <= i < |lines| && !taken[i]
      ensures !Shows(lines[i], line)
    {
      assert Lost(lines, taken, i, lines[i].kind);
    }
  }

  lemma UnseenFits(lines: seq<Line>, taken: seq<bool>, line: Line)
    requires |taken| == |lines| && Fits(lines, line) && Unseen(lines, taken, line)
    requires MissingFrom(lines, taken, Count(Taken(lines, taken), Sent))
    ensures Fits(Taken(lines, taken), line)
  {
    CountTaken(lines, taken, line.kind);
    CountTaken(lines, taken, Sent);
    UnseenNotLost(lines, taken, line, true);
    if line.kind == Received && AnyLost(lines, taken, Sent) {
      var i :| Lost(lines, taken, i, Sent) && lines[i].id == Count(Taken(lines, taken), Sent);
      assert !Shows(lines[i], line);
    }
  }

  /** The next line taken fits the ones taken before exactly when no lost line
      shows in it. */
  lemma NextFits(lines: seq<Line>, taken: seq<bool>, line: Line)
    requires |taken| == |lines| && Exact(lines) && Fits(lines, line) && LossHidden(lines, taken)
    ensures Fits(Taken(lines, taken), line) <==> Unseen(lines, taken, line)
  {
    Missing(lines, taken);
    if Fits(Taken(lines, taken), line) { FitsUnseen(lines, taken, line); }
    if Unseen(lines, taken, line) { UnseenFits(lines, taken, line); }
  }

  lemma {:induction false} TakenShorter(lines: seq<Line>, taken: seq<bool>)
    requires |taken| == |lines|
    ensures |Taken(lines, taken)| <= |lines|
  {
    if lines != [] { TakenShorter(lines[..|lines| - 1], taken[..|lines| - 1]); }
  }

  lemma LossStep(lines: seq<Line>, taken: seq<bool>, line: Line, kept: bool)
    requires |taken| == |lines| && Exact(lines + [line])
    requires InCausalOrder(Taken(lines, taken)) <==> LossHidden(lines, taken)
    ensures InCausalOrder(Taken(lines + [line], taken + [kept])) <==> LossHidden(lines + [line], taken + [kept])
  {
    LastOf(lines, line);
    HiddenAppend(lines, taken, line, kept);
    TakenAppend(lines, taken, line, kept);
    if kept {
      TakenShorter(lines, taken);
      CausalAppend(Taken(lines, taken), line);
      if LossHidden(lines, taken) { NextFits(lines, taken, line); }
    }
  }

  /** What was taken is itself in causal order if and only if no lost line shows
      in a later one. */
  lemma {:induction false} LossExactly(lines: seq<Line>, taken: seq<bool>)
    requires |taken| == |lines| && Exact(lines)
    ensures InCausalOrder(Taken(lines, taken)) <==> LossHidden(lines, taken)
  {
    if lines != [] {
      var n := |lines| - 1;
      var ls, ts := lines[..n], taken[..n];
      assert lines == ls + [lines[n]] && taken == ts + [taken[n]];
      LastOf(ls, lines[n]);
      LossExactly(ls, ts);
      LossStep(ls, ts, lines[n], taken[n]);
    }
  }
}
