/** What SyncLineTracker makes of perfectly regular sync positions: how many of them it accepts, exactly. */
module EvenSyncs {
  import opened SyncLineTracker
  import opened TrackerRuns
  import opened TrackerLockUp

  // ----- the line fitted to the positions first, first + gap, ...

  /** The slope after the fit: too large by the bias, and then clamped. */
  function FitSlope(c: Config, n: nat, first: int, gap: int): real
    requires n >= 1
  {
    Clamp(gap as real + Bias(n, first), c.MinSlope(), c.MaxSlope())
  }

  function FitIntercept(n: nat, first: int): real
    requires n >= 1
  {
    (n as real - 1.0) * (first as real / n as real - Bias(n, first) / 2.0)
  }

  function Margin(c: Config): real {
    c.expected as real * c.pct
  }

  /** The sums of x and of y over `n` regular positions, in reals. */
  ghost predicate RegularSums(n: real, f: real, g: real, sx: real, total: real) {
    n >= 1.0 && 2.0 * sx == n * (n - 1.0) && 2.0 * total == 2.0 * n * f + n * (n - 1.0) * g
  }

  lemma InterceptOfEven(n: real, f: real, g: real, b: real, raw: real, sx: real, rest: real)
    requires RegularSums(n, f, g, sx, f + rest) && raw == g + b
    ensures (rest - raw * sx) / n == (n - 1.0) * (f / n - b / 2.0)
  {
    var q, m := f / n, n * (n - 1.0);
    var x := (n - 1.0) * (q - b / 2.0);
    assert q * n == f;
    assert 2.0 * (raw * sx) == g * m + b * m;
    assert 2.0 * (x * n) == 2.0 * (n - 1.0) * (q * n) - b * m;
    assert x * n == rest - raw * sx;
  }

  lemma FitOfEven(t: Track, ps: seq<int>, first: int, gap: int)
    requires |ps| >= 2 && Sums(t, ps) && Even(ps, first, gap)
    ensures Denominator(t) != 0.0 && RawSlope(t) == gap as real + Bias(|ps|, first)
    ensures Intercept(t, RawSlope(t)) == FitIntercept(|ps|, first)
  {
    assert ps[0] == first;
    EvenLeastSquares(t, ps, first, gap);
    SlopeBias(t, ps);
    InterceptOfFit(t, ps, first, gap, RawSlope(t), Bias(|ps|, first));
  }

  lemma InterceptOfFit(t: Track, ps: seq<int>, first: int, gap: int, raw: real, b: real)
    requires |ps| >= 2 && Sums(t, ps) && Even(ps, first, gap) && ps[0] == first && raw == gap as real + b
    ensures Intercept(t, raw) == (|ps| as real - 1.0) * (first as real / |ps| as real - b / 2.0)
  {
    EvenSums(ps, first, gap);
    SumsClosed(t, ps);
    RealSums(|ps|, t.sumX, Denominator(t), SumXY(ps), SumYButFirst(ps), first, gap);
    InterceptOfEven(|ps| as real, first as real, gap as real, b, raw, t.sumX, SumYButFirst(ps) as real);
  }

  lemma RealSums(n: nat, sx: real, d: real, sxy: int, rest: int, first: int, gap: int)
    requires n >= 2 && ClosedForms(n, sx, d) && EvenTotals(n, first, gap, first + rest, sxy)
    ensures RegularSums(n as real, first as real, gap as real, sx, first as real + rest as real)
  {
    RealTotal(n, first, gap, first + rest);
  }

  lemma RealTotal(n: nat, first: int, gap: int, total: int)
    requires 2 * total == 2 * n * first + n * (n - 1) * gap
    ensures var x := n as real;
            2.0 * total as real == 2.0 * x * first as real + x * (x - 1.0) * gap as real
  {
    var m, p := n * (n - 1), n * first;
    assert 2 * total == 2 * p + m * gap;
    assert p as real == n as real * first as real;
    assert m as real == n as real * (n as real - 1.0);
    assert (m * gap) as real == m as real * gap as real;
  }

  // ----- the run

  /** Regular positions whose gap lies in the window. */
  ghost predicate Regular(c: Config, ps: seq<int>, first: int, gap: int) {
    && NarrowWindow(c) && c.pct > 0.0 && first >= 0 && Even(ps, first, gap)
    && c.MinSlope() <= gap as real <= c.MaxSlope()
  }

  /** The line after a fit over `n` positions, the error of its first prediction, and what is tolerated. */
  datatype FitLine = FitLine(n: nat, slope: real, intercept: real, error: real, margin: real)

  function Through(n: nat, slope: real, intercept: real, next: int, margin: real): FitLine {
    FitLine(n, slope, intercept, next as real - (slope * n as real + intercept), margin)
  }

  function LineFor(c: Config, first: int, gap: int): FitLine {
    var n := c.FitAt();
    Through(n, FitSlope(c, n, first, gap), FitIntercept(n, first), first + n * gap, Margin(c))
  }

  /** How many of `m` regular positions are accepted: all up to the fit; then none if the first prediction is
      too far off; then one if the slope, two percent better now, still is; and else all. */
  function EvenAccepted(l: FitLine, gap: int, m: nat): nat {
    if m <= l.n then m
    else if l.error < -l.margin || l.error > l.margin then l.n
    else if m > l.n + 1 && 0.98 * (l.slope - gap as real) > l.margin then l.n + 1
    else m
  }

  lemma RegularGaps(c: Config, ps: seq<int>, first: int, gap: int)
    requires Regular(c, ps, first, gap)
    ensures 0 < c.MinWindow() <= gap <= c.MaxWindow() && Spaced(c, ps) && Placed(ps) && Margin(c) > 0.0
  {
    WindowOrder(c);
    NarrowIsPositive(c);
    EvenGaps(ps, first, gap);
  }

  lemma EvenGaps(ps: seq<int>, first: int, gap: int)
    requires Even(ps, first, gap) && first >= 0 && gap >= 0
    ensures Placed(ps)
    ensures forall i, j :: 0 <= i < j < |ps| && j == i + 1 ==> ps[j] - ps[i] == gap
  {
    forall i | 0 <= i < |ps|
      ensures ps[i] >= 0
    {
      Product(i, gap);
    }
    forall i, j | 0 <= i < j < |ps| && j == i + 1
      ensures ps[j] - ps[i] == gap
    {
      assert j * gap == i * gap + gap;
    }
  }

  lemma Product(i: nat, gap: nat)
    ensures i * gap >= 0
  {
  }

  lemma BiasSign(n: nat, first: int)
    requires n >= 1 && first >= 0
    ensures Bias(n, first) >= 0.0
  {
  }

  /** The line starts out at least as steep as the positions. */
  lemma FitSlopeAbove(c: Config, n: nat, first: int, gap: int)
    requires n >= 1 && first >= 0 && c.MinSlope() <= gap as real <= c.MaxSlope()
    ensures FitSlope(c, n, first, gap) >= gap as real
  {
    BiasSign(n, first);
  }

  /** The tracker after `m` regular positions. */
  ghost predicate EvenState(l: FitLine, gap: int, m: nat, r: TrackRun) {
    var k, steep := |r.accepted|, r.s.slope - gap as real;
    && k == EvenAccepted(l, gap, m)
    && (m == l.n ==> AtFit(r.s, l))
    && (m > l.n && k == m ==>
          && Anchored(r.s) && steep >= 0.0
          && (m == l.n + 1 ==> steep == 0.98 * (l.slope - gap as real))
          && (m > l.n + 1 ==> steep <= l.margin))
  }

  ghost predicate AtFit(s: Track, l: FitLine) {
    s.slope == l.slope && s.intercept == l.intercept && s.count == l.n
  }

  /** The line is at least as steep as the positions, and its error is that of the next of them. */
  ghost predicate Describes(l: FitLine, c: Config, first: int, gap: int) {
    && l.n == c.FitAt() && l.margin == Margin(c) > 0.0 && l.slope >= gap as real
    && l.error == (first + l.n * gap) as real - (l.slope * l.n as real + l.intercept)
  }

  lemma LineDescribes(c: Config, first: int, gap: int)
    requires first >= 0 && c.MinSlope() <= gap as real <= c.MaxSlope() && Margin(c) > 0.0
    ensures Describes(LineFor(c, first, gap), c, first, gap)
  {
    var n := c.FitAt();
    FitSlopeAbove(c, n, first, gap);
    ThroughDescribes(c, FitSlope(c, n, first, gap), FitIntercept(n, first), first, gap);
  }

  lemma ThroughDescribes(c: Config, slope: real, intercept: real, first: int, gap: int)
    requires slope >= gap as real && Margin(c) > 0.0
    ensures Describes(Through(c.FitAt(), slope, intercept, first + c.FitAt() * gap, Margin(c)), c, first, gap)
  {
  }

  /** Up to the fit all are accepted. */
  lemma AllUpToFit(c: Config, ps: seq<int>, first: int, gap: int)
    requires Regular(c, ps, first, gap) && |ps| <= c.FitAt()
    ensures RunOver(c, ps).accepted == ps
  {
    RegularGaps(c, ps, first, gap);
    AcceptedIsAPrefix(c, ps);
    RunKeepsInvariant(c, ps);
    assert ps[..|ps|] == ps;
  }

  lemma EvenPrefix(ps: seq<int>, first: int, gap: int, k: nat)
    requires Even(ps, first, gap) && k <= |ps|
    ensures Even(ps[..k], first, gap)
  {
  }

  lemma FitReached(c: Config, ps: seq<int>, first: int, gap: int)
    requires Regular(c, ps, first, gap) && |ps| == c.FitAt()
    ensures AtFit(RunOver(c, ps).s, LineFor(c, first, gap))
  {
    var n := |ps| - 1;
    var before, last := ps[..n], ps[n];
    EvenPrefix(ps, first, gap, n);
    AllUpToFit(c, before, first, gap);
    AllUpToFit(c, ps, first, gap);
    RegularGaps(c, ps, first, gap);
    RunKeepsInvariant(c, before);
    RunKeepsInvariant(c, ps);
    assert ps == before + [last];
    RunOneMore(c, before, last);
    FitStep(c, RunOver(c, before), last, ps, first, gap);
  }

  lemma FitStep(c: Config, r: TrackRun, last: int, ps: seq<int>, first: int, gap: int)
    requires Sane(c) && Inv(c, r) && ps == r.accepted + [last] && |ps| == c.FitAt() && Even(ps, first, gap)
    requires Inv(c, Observe(c, r, last)) && Observe(c, r, last).accepted == ps
    ensures AtFit(Observe(c, r, last).s, LineFor(c, first, gap))
  {
    var t := Summed(r.s, last as real);
    SumsGrow(r.s, r.accepted, last);
    FitOfEven(t, ps, first, gap);
    assert Observe(c, r, last).s == Next(Fitted(c, t), last);
  }

  /** Behind the fit, with the gap in the window, only the line decides. */
  lemma OnlyTheLineDecides(c: Config, r: TrackRun, last: int)
    requires c.expected > 0 && Inv(c, r) && r.s.fitReady
    requires c.MinWindow() <= last - r.s.last <= c.MaxWindow()
    ensures r.s.miss <= 2 && OffLine(c, r.s, last) ==> Observe(c, r, last) == TrackRun(Missed(r.s), r.accepted)
    ensures !OffLine(c, r.s, last) ==>
              Observe(c, r, last) == TrackRun(Next(Follow(r.s, last), last), r.accepted + [last])
  {
  }

  /** Following regular positions takes two percent off the slope's error. */
  lemma FollowTowards(s: Track, index: int, gap: int)
    requires index - s.last == gap
    ensures Next(Follow(s, index), index).slope - gap as real == 0.98 * (s.slope - gap as real)
  {
  }

  /** The position behind the fit. */
  lemma FirstBehindFit(c: Config, l: FitLine, first: int, gap: int, r: TrackRun, last: int)
    requires Describes(l, c, first, gap) && |r.accepted| == l.n && AtFit(r.s, l)
    requires last == first + l.n * gap && last - r.s.last == gap
    ensures OffLine(c, r.s, last) ==> EvenState(l, gap, l.n + 1, TrackRun(Missed(r.s), r.accepted))
    ensures !OffLine(c, r.s, last) ==>
              EvenState(l, gap, l.n + 1, TrackRun(Next(Follow(r.s, last), last), r.accepted + [last]))
  {
    assert PredictionError(r.s, last) == l.error;
    FollowAnchors(r.s, last);
    FollowTowards(r.s, last, gap);
  }

  /** A later position. */
  lemma LaterBehindFit(c: Config, l: FitLine, first: int, gap: int, m: nat, r: TrackRun, last: int)
    requires Describes(l, c, first, gap) && m > l.n && |r.accepted| == m == r.s.count
    requires EvenState(l, gap, m, r) && last - r.s.last == gap
    ensures OffLine(c, r.s, last) ==> EvenState(l, gap, m + 1, TrackRun(Missed(r.s), r.accepted))
    ensures !OffLine(c, r.s, last) ==>
              EvenState(l, gap, m + 1, TrackRun(Next(Follow(r.s, last), last), r.accepted + [last]))
  {
    AnchoredPrediction(r.s, last);
    FollowAnchors(r.s, last);
    FollowTowards(r.s, last, gap);
  }

  /** All accepted so far. */
  lemma EvenContinues(c: Config, l: FitLine, first: int, gap: int, m: nat, r: TrackRun, last: int)
    requires c.expected > 0 && Describes(l, c, first, gap) && c.MinWindow() <= gap <= c.MaxWindow()
    requires Inv(c, r) && |r.accepted| == m >= l.n && r.s.miss == 0 && EvenState(l, gap, m, r)
    requires last == first + m * gap && last - r.s.last == gap
    ensures EvenState(l, gap, m + 1, Observe(c, r, last))
  {
    OnlyTheLineDecides(c, r, last);
    if m == l.n {
      FirstBehindFit(c, l, first, gap, r, last);
    } else {
      LaterBehindFit(c, l, first, gap, m, r, last);
    }
  }

  /** Some turned away. */
  lemma EvenStays(l: FitLine, gap: int, m: nat, r: TrackRun)
    requires m >= l.n && |r.accepted| < m && EvenState(l, gap, m, r)
    ensures EvenState(l, gap, m + 1, TrackRun(Missed(r.s), r.accepted))
  {
  }

  /** Either all were accepted, or one more is not. */
  ghost predicate GoesOnOrStays(c: Config, before: seq<int>, last: int, r: TrackRun) {
    || (r.accepted == before && r.s.miss == 0)
    || (|r.accepted| < |before| && Observe(c, r, last) == TrackRun(Missed(r.s), r.accepted))
  }

  lemma PrefixGoesOnOrStays(c: Config, before: seq<int>, last: int, r: TrackRun)
    requires NarrowWindow(c) && Spaced(c, before + [last]) && Inv(c, r) && last >= 0 && PrefixAccepted(c, before, r)
    ensures GoesOnOrStays(c, before, last, r)
  {
    if |r.accepted| < |before| {
      SomeTurnedAway(c, before, last, r);
    }
  }

  lemma EvenGrows(c: Config, l: FitLine, before: seq<int>, last: int, first: int, gap: int, r: TrackRun)
    requires Regular(c, before + [last], first, gap) && |before| >= l.n && Describes(l, c, first, gap)
    requires EvenState(l, gap, |before|, r) && Inv(c, r) && GoesOnOrStays(c, before, last, r)
    ensures EvenState(l, gap, |before| + 1, Observe(c, r, last))
  {
    if |r.accepted| < |before| {
      EvenStays(l, gap, |before|, r);
    } else {
      RegularGaps(c, before + [last], first, gap);
      LastTwo(before, last, first, gap);
      EvenContinues(c, l, first, gap, |before|, r, last);
    }
  }

  lemma LastTwo(before: seq<int>, last: int, first: int, gap: int)
    requires before != [] && Even(before + [last], first, gap)
    ensures last == first + |before| * gap && last - before[|before| - 1] == gap
  {
    var all, m := before + [last], |before|;
    assert all[m] == last && all[m - 1] == before[m - 1];
    assert first + m * gap - (first + (m - 1) * gap) == gap;
  }

  lemma {:induction false} EvenRun(c: Config, l: FitLine, ps: seq<int>, first: int, gap: int)
    requires Regular(c, ps, first, gap) && Describes(l, c, first, gap) && |ps| >= l.n
    requires AtFit(RunOver(c, ps[..l.n]).s, l)
    ensures EvenState(l, gap, |ps|, RunOver(c, ps))
    decreases |ps|
  {
    if |ps| == l.n {
      assert ps[..l.n] == ps;
      AllUpToFit(c, ps, first, gap);
    } else {
      var before, last := ps[..|ps| - 1], ps[|ps| - 1];
      assert ps == before + [last] && before[..l.n] == ps[..l.n];
      EvenPrefix(ps, first, gap, |ps| - 1);
      EvenRun(c, l, before, first, gap);
      EvenRunGrows(c, l, before, last, first, gap);
    }
  }

  lemma EvenRunGrows(c: Config, l: FitLine, before: seq<int>, last: int, first: int, gap: int)
    requires Regular(c, before, first, gap) && Regular(c, before + [last], first, gap)
    requires Describes(l, c, first, gap) && |before| >= l.n && EvenState(l, gap, |before|, RunOver(c, before))
    ensures EvenState(l, gap, |before| + 1, RunOver(c, before + [last]))
  {
    ReadyToGrow(c, before, last, first, gap);
    RunOneMore(c, before, last);
    EvenGrows(c, l, before, last, first, gap, RunOver(c, before));
  }

  lemma ReadyToGrow(c: Config, before: seq<int>, last: int, first: int, gap: int)
    requires Regular(c, before, first, gap) && Regular(c, before + [last], first, gap)
    ensures Inv(c, RunOver(c, before)) && GoesOnOrStays(c, before, last, RunOver(c, before))
  {
    RegularGaps(c, before, first, gap);
    RegularGaps(c, before + [last], first, gap);
    RunKeepsInvariant(c, before);
    AcceptedIsAPrefix(c, before);
    assert (before + [last])[|before|] == last;
    PrefixGoesOnOrStays(c, before, last, RunOver(c, before));
  }

  /** Of regular positions the tracker accepts exactly the first EvenAccepted. */
  lemma EvenSyncsAccepted(c: Config, ps: seq<int>, first: int, gap: int)
    requires Regular(c, ps, first, gap)
    ensures var k := EvenAccepted(LineFor(c, first, gap), gap, |ps|);
            k <= |ps| && RunOver(c, ps).accepted == ps[..k]
  {
    var l := LineFor(c, first, gap);
    if |ps| <= l.n {
      AllUpToFit(c, ps, first, gap);
      assert ps[..|ps|] == ps;
    } else {
      EvenPrefix(ps, first, gap, l.n);
      FitReached(c, ps[..l.n], first, gap);
      RegularGaps(c, ps, first, gap);
      LineDescribes(c, first, gap);
      EvenRun(c, l, ps, first, gap);
      AcceptedIsAPrefix(c, ps);
    }
  }

  // ----- in numbers

  /** Unless the slope is clamped, the first prediction is off by twice the first position over n. */
  lemma FirstErrorUnclamped(c: Config, first: int, gap: int)
    requires first >= 0 && c.MinSlope() <= gap as real && gap as real + Bias(c.FitAt(), first) <= c.MaxSlope()
    ensures var l := LineFor(c, first, gap);
            l.slope == gap as real + Bias(l.n, first) && l.error == -2.0 * (first as real / l.n as real)
  {
    var n := c.FitAt();
    BiasSign(n, first);
    assert FitSlope(c, n, first, gap) == gap as real + Bias(n, first);
    UnclampedError(n, first, gap, Bias(n, first));
  }

  lemma UnclampedError(n: nat, first: int, gap: int, b: real)
    requires n >= 1 && b == Bias(n, first)
    ensures var x, q := n as real, first as real / n as real;
            (first + n * gap) as real - ((gap as real + b) * x + (x - 1.0) * (q - b / 2.0)) == -2.0 * q
  {
    BiasTimes(n, first);
    assert (n * gap) as real == n as real * gap as real;
    ErrorAlgebra(n as real, first as real, gap as real, b, first as real / n as real);
  }

  lemma ErrorAlgebra(x: real, f: real, g: real, b: real, q: real)
    requires b * (x + 1.0) == 6.0 * q && q * x == f
    ensures f + x * g - ((g + b) * x + (x - 1.0) * (q - b / 2.0)) == -2.0 * q
  {
    assert (g + b) * x == x * g + b * x;
    assert (x - 1.0) * (q - b / 2.0) == q * x - q - b * x / 2.0 + b / 2.0;
  }

  lemma BiasTimes(n: nat, first: int)
    requires n >= 1
    ensures Bias(n, first) * (n as real + 1.0) == 6.0 * (first as real / n as real)
  {
    var x, b, f := n as real, Bias(n, first), first as real;
    var q := f / x;
    assert (n * (n + 1)) as real == x * (x + 1.0);
    assert b * (x * (x + 1.0)) == 6.0 * f;
    assert q * x == f;
    assert (b * (x + 1.0) - 6.0 * q) * x == 0.0;
  }

  /** The tool's line length at 44100 samples a second, its window and its fit length. */
  const TOOL := Config(18884, 0.12, 24)

  lemma ToolLine()
    ensures TOOL.expected == (44100.0 * ((1.5 * 3.0 + 138.24 * 3.0 + 9.0) / 1000.0)).Floor
    ensures TOOL.MinWindow() == 16617 && TOOL.MaxWindow() == 21150 && NarrowWindow(TOOL)
  {
  }

  /** The slope is not clamped by the tool. */
  predicate Unclamped(first: int, gap: int) {
    gap as real + first as real / 100.0 <= 21150.08
  }

  lemma NominalUnclamped(first: int, gap: int)
    requires 0 <= first && 16618 <= gap && Unclamped(first, gap)
    ensures LineFor(TOOL, first, gap).slope == gap as real + first as real / 100.0
    ensures LineFor(TOOL, first, gap).error == -(first as real) / 12.0
  {
    assert Bias(24, first) == first as real / 100.0;
    FirstErrorUnclamped(TOOL, first, gap);
  }

  lemma NominalClamped(first: int, gap: int)
    requires 0 <= first && 18880 <= gap <= 18884 && !Unclamped(first, gap)
    ensures LineFor(TOOL, first, gap).slope == 21150.08
    ensures LineFor(TOOL, first, gap).error == 47.0 * first as real / 300.0 - 24.0 * (21150.08 - gap as real)
  {
    var f := first as real;
    assert Bias(24, first) == f / 100.0;
    assert FitIntercept(24, first) == 23.0 * (f / 24.0 - f / 200.0);
  }

  /** The second range of first positions from which the tool follows everything: the clamp makes up for the
      missing first position. */
  predicate FollowedAgain(first: int, gap: int) {
    && !Unclamped(first, gap)
    && -2266.08 <= 47.0 * first as real / 300.0 - 24.0 * (21150.08 - gap as real) <= 2266.08
  }

  lemma NominalCount(first: int, gap: int, m: nat)
    requires 0 <= first && 18880 <= gap <= 18884 && m > 24
    ensures EvenAccepted(LineFor(TOOL, first, gap), gap, m)
         == if first <= 27192 || FollowedAgain(first, gap) then m else 24
  {
    assert LineFor(TOOL, first, gap).n == 24 && LineFor(TOOL, first, gap).margin == 2266.08;
    if Unclamped(first, gap) {
      NominalUnclamped(first, gap);
    } else {
      NominalClamped(first, gap);
    }
  }

  /** The tool on perfectly regular syncs at its own line length, or at the multiple of the sync detector's step
      next to it: for every first position, either all are accepted or only the 24 of the fit. */
  lemma NominalSyncs(ps: seq<int>, first: int, gap: int)
    requires Even(ps, first, gap) && |ps| > 24 && 0 <= first && 18880 <= gap <= 18884
    ensures RunOver(TOOL, ps).accepted == if first <= 27192 || FollowedAgain(first, gap) then ps else ps[..24]
  {
    ToolLine();
    NominalCount(first, gap, |ps|);
    EvenSyncsAccepted(TOOL, ps, first, gap);
    assert ps[..|ps|] == ps;
  }

  /** In numbers, 236 steps of the sync detector apart, as its hits can be. */
  lemma StepSyncs(ps: seq<int>, first: int)
    requires Even(ps, first, 18880) && |ps| > 24 && 0 <= first
    ensures RunOver(TOOL, ps).accepted == if first <= 27192 || 333293 <= first <= 362221 then ps else ps[..24]
  {
    NominalSyncs(ps, first, 18880);
    assert FollowedAgain(first, 18880) <==> 333293 <= first <= 362221;
  }

  /** In numbers, at the exact line length. */
  lemma LineSyncs(ps: seq<int>, first: int)
    requires Even(ps, first, 18884) && |ps| > 24 && 0 <= first
    ensures RunOver(TOOL, ps).accepted == if first <= 27192 || 332680 <= first <= 361608 then ps else ps[..24]
  {
    NominalSyncs(ps, first, 18884);
    assert FollowedAgain(first, 18884) <==> 332680 <= first <= 361608;
  }

  // ----- gaps above the window

  /** Regular positions further apart than the window allows are accepted up to the fit, and no further. */
  lemma WideSyncs(c: Config, ps: seq<int>, first: int, gap: int)
    requires NarrowWindow(c) && first >= 0 && Even(ps, first, gap) && gap > c.MaxWindow()
    ensures RunOver(c, ps).accepted == if |ps| <= c.FitAt() then ps else ps[..c.FitAt()]
  {
    if |ps| <= c.FitAt() {
      WideUpToFit(c, ps, first, gap);
    } else {
      var n := c.FitAt();
      EvenPrefix(ps, first, gap, n);
      WideUpToFit(c, ps[..n], first, gap);
      WideSpaced(c, ps, first, gap);
      EvenGaps(ps, first, gap);
      MissedLineEndsPrefix(c, ps, n);
    }
  }

  lemma WideUpToFit(c: Config, ps: seq<int>, first: int, gap: int)
    requires NarrowWindow(c) && first >= 0 && Even(ps, first, gap) && gap > c.MaxWindow() && |ps| <= c.FitAt()
    ensures RunOver(c, ps).accepted == ps
  {
    WideSpaced(c, ps, first, gap);
    AcceptedIsAPrefix(c, ps);
    RunKeepsInvariant(c, ps);
    assert ps[..|ps|] == ps;
  }

  lemma WideSpaced(c: Config, ps: seq<int>, first: int, gap: int)
    requires NarrowWindow(c) && first >= 0 && Even(ps, first, gap) && gap > c.MaxWindow()
    ensures Spaced(c, ps) && Placed(ps)
  {
    NarrowIsPositive(c);
    WindowsOrdered(c);
    EvenGaps(ps, first, gap);
  }

  lemma WindowsOrdered(c: Config)
    requires Sane(c)
    ensures c.MinWindow() <= c.MaxWindow()
  {
    var e := c.expected as real;
    assert e * (1.0 - c.pct) == e - e * c.pct && e * (1.0 + c.pct) == e + e * c.pct && e * c.pct >= 0.0;
  }

  // ----- two small runs

  const SMALL := Config(100, 0.12, 2)

  /** Two positions 100 apart give the slope 112. */
  lemma WrongSlope()
    ensures var s := RunOver(SMALL, [1000, 1100]).s;
            s.fitReady && s.slope == 112.0
  {
    assert [1000, 1100][..1] == [1000] && [1000][..0] == [];
    var r := RunOver(SMALL, [1000]);
    assert r == TrackRun(Track(1, 1, 0.0, 0.0, 0.0, 0.0, 0.0, 0.0, false, 1000, 0), [1000]);
    assert Summed(r.s, 1100.0) == Track(1, 2, 1.0, 1100.0, 1.0, 1100.0, 0.0, 0.0, false, 1000, 0);
  }

  lemma SmallFit()
    ensures var r := RunOver(SMALL, [0, 100]);
            r.accepted == [0, 100] && r.s.fitReady
  {
    assert [0, 100][..1] == [0] && [0][..0] == [];
    assert RunOver(SMALL, [0]) == TrackRun(Track(1, 1, 0.0, 0.0, 0.0, 0.0, 0.0, 0.0, false, 0, 0), [0]);
  }

  lemma SmallSpaced()
    ensures NarrowWindow(SMALL) && SMALL.MaxWindow() == 112
    ensures var ps := [0, 100, 300, 400, 500, 600, 700];
            Spaced(SMALL, ps) && Placed(ps)
  {
    assert SMALL.MinWindow() == 88;
  }

  /** Behind the fit one missing position loses all that follow. */
  lemma LostForGood()
    ensures RunOver(SMALL, [0, 100, 300, 400, 500, 600, 700]).accepted == [0, 100]
  {
    var ps := [0, 100, 300, 400, 500, 600, 700];
    SmallFit();
    SmallSpaced();
    assert ps[..2] == [0, 100];
    MissedLineEndsPrefix(SMALL, ps, 2);
  }
}
