/** What holds of SyncLineTracker over whole runs: when the fit becomes ready, where the slope and the
    accepted gaps lie, and how far the fitted slope is from the least-squares one. */
module TrackerRuns {
  import opened SyncDetector
  import opened SyncLineTracker

  /** A tracker together with the positions it has accepted since its last reset. */
  datatype TrackRun = TrackRun(s: Track, accepted: seq<int>)

  function Observe(c: Config, r: TrackRun, index: int): TrackRun {
    var (s', ok) := Accept(c, r.s, index);
    TrackRun(s', if ok then r.accepted + [index] else if s'.count == 0 then [] else r.accepted)
  }

  function RunOver(c: Config, indexes: seq<int>): TrackRun {
    if indexes == [] then TrackRun(START, [])
    else Observe(c, RunOver(c, indexes[..|indexes| - 1]), indexes[|indexes| - 1])
  }

  // ----- the sums

  /** The sum of all positions but the first: the first one never enters `sum_y`. */
  function SumYButFirst(ps: seq<int>): int {
    if |ps| <= 1 then 0 else SumYButFirst(ps[..|ps| - 1]) + ps[|ps| - 1]
  }

  function SumXY(ps: seq<int>): int {
    if ps == [] then 0 else SumXY(ps[..|ps| - 1]) + (|ps| - 1) * ps[|ps| - 1]
  }

  /** The accumulated sums are those of the line numbers 0 .. n-1 in closed form. */
  ghost predicate Sums(s: Track, ps: seq<int>) {
    var n := |ps| as real;
    && s.fitCount == |ps|
    && 2.0 * s.sumX == n * (n - 1.0)
    && 6.0 * s.sumXX == (n - 1.0) * n * (2.0 * n - 1.0)
    && s.sumY == SumYButFirst(ps) as real
    && s.sumXY == SumXY(ps) as real
  }

  lemma SumsGrow(s: Track, ps: seq<int>, index: int)
    requires ps != [] && s.count == |ps| && Sums(s, ps)
    ensures Sums(Summed(s, index as real), ps + [index])
  {
    var n := |ps| as real;
    assert (ps + [index])[..|ps|] == ps;
    ClosedFormStep(n, s.sumX, s.sumXX);
    assert s.count as real * index as real == (|ps| * index) as real;
  }

  lemma ClosedFormStep(n: real, sx: real, sxx: real)
    requires 2.0 * sx == n * (n - 1.0) && 6.0 * sxx == (n - 1.0) * n * (2.0 * n - 1.0)
    ensures 2.0 * (sx + n) == (n + 1.0) * (n + 1.0 - 1.0)
    ensures 6.0 * (sxx + n * n) == (n + 1.0 - 1.0) * (n + 1.0) * (2.0 * (n + 1.0) - 1.0)
  {
  }

  lemma DenominatorClosed(n: real, sx: real, sxx: real)
    requires 2.0 * sx == n * (n - 1.0) && 6.0 * sxx == (n - 1.0) * n * (2.0 * n - 1.0)
    ensures 12.0 * (n * sxx - sx * sx) == n * n * (n * n - 1.0)
  {
    var m := n * (n - 1.0);
    assert 4.0 * (sx * sx) == m * m by { assert (2.0 * sx) * (2.0 * sx) == m * m; }
    assert 6.0 * (n * sxx) == n * (m * (2.0 * n - 1.0));
  }

  /** With two positions or more the fit can always be solved. */
  lemma DenominatorPositive(s: Track, ps: seq<int>)
    requires |ps| >= 2 && Sums(s, ps)
    ensures 12.0 * Denominator(s) == (|ps| * |ps| * (|ps| * |ps| - 1)) as real
    ensures Denominator(s) > 0.0
  {
    var n := |ps|;
    DenominatorClosed(n as real, s.sumX, s.sumXX);
    var q := n * n;
    assert q >= 4 by { SquareAtLeast(n); }
    assert (q as real) == n as real * n as real;
    assert (q * (q - 1)) as real == q as real * (q as real - 1.0);
    assert q * (q - 1) > 0;
  }

  lemma SquareAtLeast(n: nat)
    requires n >= 2
    ensures n * n >= 4
  {
  }

  /** What the sum of x and the denominator are for `n` positions. */
  ghost predicate ClosedForms(n: nat, sx: real, d: real) {
    && 2.0 * sx == n as real * (n as real - 1.0)
    && 12.0 * d == (n * n * (n * n - 1)) as real && d > 0.0
  }

  lemma SumsClosed(s: Track, ps: seq<int>)
    requires |ps| >= 2 && Sums(s, ps)
    ensures ClosedForms(|ps|, s.sumX, Denominator(s))
  {
    DenominatorPositive(s, ps);
  }

  // ----- the invariant

  /** The window is a fraction of a positive line length. */
  ghost predicate Sane(c: Config) {
    c.expected > 0 && 0.0 <= c.pct <= 1.0
  }

  /** Positions are sample numbers. */
  ghost predicate Placed(ps: seq<int>) {
    forall i :: 0 <= i < |ps| ==> ps[i] >= 0
  }

  ghost predicate Gaps(c: Config, ps: seq<int>) {
    && Placed(ps)
    && (forall i, j :: 0 <= i < j < |ps| && j == i + 1 ==> c.MinWindow() <= ps[j] - ps[i])
    && (forall i, j :: 0 <= i < j < |ps| && j == i + 1 && c.FitAt() <= j ==> ps[j] - ps[i] <= c.MaxWindow())
  }

  ghost predicate SlopeInRange(c: Config, s: Track) {
    c.MinWindow() as real <= s.slope <= c.MaxSlope()
  }

  ghost predicate Inv(c: Config, r: TrackRun) {
    var n := |r.accepted|;
    && r.s.count == n
    && (if n == 0 then r.s == START else r.s.last == r.accepted[n - 1])
    && Gaps(c, r.accepted)
    && (r.s.fitReady <==> n >= c.FitAt())
    && (!r.s.fitReady ==> Sums(r.s, r.accepted))
    && (r.s.fitReady ==> SlopeInRange(c, r.s))
    && (n > c.FitAt() ==> Anchored(r.s))
  }

  /** The line goes through the last accepted position. */
  ghost predicate Anchored(s: Track) {
    s.intercept == s.last as real - s.slope * (s.count - 1) as real
  }

  /** Every run keeps the invariant: the fit is ready exactly from the `max(2, max_fit)`-th accepted
      position on, the slope and the accepted gaps stay in their windows, and after the first position
      accepted behind the fit the line goes through the last accepted position. */
  lemma {:induction false} RunKeepsInvariant(c: Config, indexes: seq<int>)
    requires Sane(c) && Placed(indexes)
    ensures Inv(c, RunOver(c, indexes))
  {
    if indexes == [] {
      assert SumXY([]) == 0 && SumYButFirst([]) == 0;
    } else {
      RunKeepsInvariant(c, indexes[..|indexes| - 1]);
      StepKeepsInvariant(c, RunOver(c, indexes[..|indexes| - 1]), indexes[|indexes| - 1]);
    }
  }

  lemma StepKeepsInvariant(c: Config, r: TrackRun, index: int)
    requires Sane(c) && Inv(c, r) && index >= 0
    ensures Inv(c, Observe(c, r, index))
  {
    if r.accepted == [] {
      FirstStep(c, r, index);
    } else if !Accept(c, r.s, index).1 {
      RejectedStep(c, r, index);
    } else if !r.s.fitReady {
      FittingStep(c, r, index);
    } else {
      FollowingStep(c, r, index);
    }
  }

  lemma FirstStep(c: Config, r: TrackRun, index: int)
    requires Sane(c) && Inv(c, r) && index >= 0 && r.accepted == []
    ensures Inv(c, Observe(c, r, index))
  {
    assert SumXY([index]) == 0 by { assert [index][..0] == []; }
  }

  lemma RejectedStep(c: Config, r: TrackRun, index: int)
    requires Sane(c) && Inv(c, r) && r.accepted != [] && !Accept(c, r.s, index).1
    ensures Inv(c, Observe(c, r, index))
  {
    var s' := Accept(c, r.s, index).0;
    assert s' == START || s' == Missed(r.s);
    if s' == Missed(r.s) {
      MissKeeps(c, r);
    }
  }

  lemma MissKeeps(c: Config, r: TrackRun)
    requires Inv(c, r) && r.accepted != []
    ensures Inv(c, r.(s := Missed(r.s)))
  {
    assert Sums(r.s, r.accepted) <==> Sums(Missed(r.s), r.accepted);
  }

  lemma FittingStep(c: Config, r: TrackRun, index: int)
    requires Sane(c) && Inv(c, r) && index >= 0
    requires r.accepted != [] && !r.s.fitReady && Accept(c, r.s, index).1
    ensures Inv(c, Observe(c, r, index))
  {
    var t := Summed(r.s, index as real);
    SumsGrow(r.s, r.accepted, index);
    DenominatorPositive(t, r.accepted + [index]);
    GapsGrow(c, r.accepted, index);
    WindowOrder(c);
  }

  /** `int` of the least slope is below it, and the window is not empty. */
  lemma WindowOrder(c: Config)
    requires Sane(c)
    ensures 0.0 <= c.MinWindow() as real <= c.MinSlope() <= c.MaxSlope()
    ensures c.MaxWindow() as real <= c.MaxSlope()
  {
    var e := c.expected as real;
    assert e * (1.0 - c.pct) == e - e * c.pct && e * (1.0 + c.pct) == e + e * c.pct;
    assert e * c.pct >= 0.0 && e * (1.0 - c.pct) >= 0.0;
  }

  lemma FollowingStep(c: Config, r: TrackRun, index: int)
    requires Sane(c) && Inv(c, r) && index >= 0
    requires r.accepted != [] && r.s.fitReady && Accept(c, r.s, index).1
    ensures Inv(c, Observe(c, r, index))
  {
    FollowSlope(c, r.s, index);
    FollowAnchors(r.s, index);
    GapsGrow(c, r.accepted, index);
    assert Accept(c, r.s, index).0 == Next(Follow(r.s, index), index);
  }

  lemma GapsGrow(c: Config, ps: seq<int>, index: int)
    requires Gaps(c, ps) && ps != [] && index >= 0 && c.MinWindow() <= index - ps[|ps| - 1]
    requires |ps| >= c.FitAt() ==> index - ps[|ps| - 1] <= c.MaxWindow()
    ensures Gaps(c, ps + [index])
  {
    var lo, hi, from := c.MinWindow(), c.MaxWindow(), c.FitAt();
    var qs := ps + [index];
    forall i, j | 0 <= i < j < |qs| && j == i + 1
      ensures lo <= qs[j] - qs[i] && (from <= j ==> qs[j] - qs[i] <= hi)
    {
      if j < |ps| {
        assert lo <= ps[j] - ps[i];
      }
    }
  }

  lemma FollowSlope(c: Config, s: Track, index: int)
    requires Sane(c) && SlopeInRange(c, s) && c.MinWindow() <= index - s.last <= c.MaxWindow()
    ensures SlopeInRange(c, Next(Follow(s, index), index))
  {
    WindowOrder(c);
    var lo, hi, gap := c.MinWindow() as real, c.MaxSlope(), (index - s.last) as real;
    assert Follow(s, index).slope == s.slope * 0.98 + gap * 0.02;
  }

  lemma FollowAnchors(s: Track, index: int)
    ensures Anchored(Next(Follow(s, index), index))
  {
  }

  /** From the second position behind the fit on, the prediction error is the gap minus the slope. */
  lemma PredictionErrorIsGapMinusSlope(c: Config, indexes: seq<int>, index: int)
    requires Sane(c) && Placed(indexes)
    requires |RunOver(c, indexes).accepted| > c.FitAt()
    ensures var s := RunOver(c, indexes).s;
            PredictionError(s, index) == (index - s.last) as real - s.slope
  {
    RunKeepsInvariant(c, indexes);
    AnchoredPrediction(RunOver(c, indexes).s, index);
  }

  lemma AnchoredPrediction(s: Track, index: int)
    requires Anchored(s) && s.count >= 1
    ensures PredictionError(s, index) == (index - s.last) as real - s.slope
  {
    var n := s.count as real;
    assert s.slope * n == s.slope * (n - 1.0) + s.slope;
  }

  // ----- the fitted slope

  function LeastSquaresSlope(ps: seq<int>, s: Track): real
    requires Denominator(s) != 0.0 && |ps| > 0
  {
    SlopeFormula(|ps|, s.sumX, SumXY(ps), ps[0] + SumYButFirst(ps), Denominator(s))
  }

  /** The usual formula over the sums of x, x*y and y, with the denominator `d`. */
  function SlopeFormula(n: nat, sx: real, sxy: int, sy: int, d: real): real
    requires d != 0.0
  {
    (n as real * sxy as real - sx * sy as real) / d
  }

  /** `6 * first / (n * (n + 1))` */
  function Bias(n: nat, first: int): real
    requires n >= 1
  {
    var p := n * (n + 1);
    assert p >= 2 by { assert p == n * n + n; SquareIsLarger(n); }
    6.0 * first as real / p as real
  }

  lemma SquareIsLarger(n: nat)
    ensures n * n >= n
  {
  }

  /** Leaving the first position out of `sum_y` shifts the slope by `6 * first / (n * (n + 1))`: the fit is
      the least-squares one iff the first position is sample 0. */
  lemma SlopeBias(s: Track, ps: seq<int>)
    requires |ps| >= 2 && Sums(s, ps)
    ensures Denominator(s) != 0.0
    ensures RawSlope(s) == LeastSquaresSlope(ps, s) + Bias(|ps|, ps[0])
    ensures RawSlope(s) == LeastSquaresSlope(ps, s) <==> ps[0] == 0
  {
    assert Denominator(s) > 0.0 by {
      DenominatorPositive(s, ps);
    }
    var n, sx, sxy, first, rest, d := |ps|, s.sumX, SumXY(ps), ps[0], SumYButFirst(ps), Denominator(s);
    assert RawSlope(s) == SlopeFormula(n, sx, sxy, rest, d) by {
      RawFormula(s, n, sxy, rest);
    }
    assert SlopeFormula(n, sx, sxy, rest, d)
        == SlopeFormula(n, sx, sxy, first + rest, d) + Bias(n, first) by {
      SumsClosed(s, ps);
      BiasedQuotient(n, sx, sxy, first, rest, d);
    }
    BiasZero(n, first);
  }

  lemma RawFormula(s: Track, n: nat, sxy: int, rest: int)
    requires s.fitCount == n && s.sumXY == sxy as real && s.sumY == rest as real && Denominator(s) != 0.0
    ensures RawSlope(s) == SlopeFormula(n, s.sumX, sxy, rest, Denominator(s))
  {
  }

  lemma BiasedQuotient(n: nat, sx: real, sxy: int, first: int, rest: int, d: real)
    requires n >= 2 && ClosedForms(n, sx, d)
    ensures SlopeFormula(n, sx, sxy, rest, d) == SlopeFormula(n, sx, sxy, first + rest, d) + Bias(n, first)
  {
    BiasTerm(n, sx, d, first);
    QuotientsDiffer(n, sx, sxy, first, rest, d, Bias(n, first));
  }

  lemma QuotientsDiffer(n: nat, sx: real, sxy: int, first: int, rest: int, d: real, share: real)
    requires d > 0.0 && sx * first as real == share * d
    ensures SlopeFormula(n, sx, sxy, rest, d) == SlopeFormula(n, sx, sxy, first + rest, d) + share
  {
    FormulaTimes(n, sx, sxy, rest, d);
    FormulaTimes(n, sx, sxy, first + rest, d);
    SumTimes(sx, first, rest);
    Share(SlopeFormula(n, sx, sxy, rest, d), SlopeFormula(n, sx, sxy, first + rest, d), n as real * sxy as real,
          sx * first as real, sx * rest as real, sx * (first + rest) as real, share, d);
  }

  lemma FormulaTimes(n: nat, sx: real, sxy: int, sy: int, d: real)
    requires d > 0.0
    ensures SlopeFormula(n, sx, sxy, sy, d) * d == n as real * sxy as real - sx * sy as real
  {
  }

  lemma SumTimes(sx: real, a: int, b: int)
    ensures sx * (a + b) as real == sx * a as real + sx * b as real
  {
    assert (a + b) as real == a as real + b as real;
  }

  /** Two quotients by `d` whose numerators differ by `a` differ by the share of `a`. */
  lemma Share(x: real, z: real, y: real, a: real, b: real, sum: real, share: real, d: real)
    requires d > 0.0 && x * d == y - b && z * d == y - sum && sum == a + b && a == share * d
    ensures x == z + share
  {
    assert (x - z - share) * d == 0.0;
  }

  lemma BiasZero(n: nat, first: int)
    requires n >= 1
    ensures Bias(n, first) == 0.0 <==> first == 0
  {
    var p := n * (n + 1);
    assert p >= 2 by { assert p == n * n + n; SquareIsLarger(n); }
    QuotientZero(6.0 * first as real, p as real);
  }

  /** The slope the tracker starts to follow with: the least-squares slope plus that shift, clamped. */
  lemma FirstSlope(c: Config, r: TrackRun, index: int)
    requires Sane(c) && Inv(c, r) && index >= 0
    requires r.accepted != [] && !r.s.fitReady && Observe(c, r, index).s.fitReady
    ensures var ps, t := r.accepted + [index], Summed(r.s, index as real);
            && Denominator(t) != 0.0
            && Observe(c, r, index).s.slope
            == Clamp(LeastSquaresSlope(ps, t) + Bias(|ps|, ps[0]),
                     c.MinSlope(), c.MaxSlope())
  {
    SumsGrow(r.s, r.accepted, index);
    SlopeBias(Summed(r.s, index as real), r.accepted + [index]);
  }

  /** The positions `first + i * gap`. */
  ghost predicate Even(ps: seq<int>, first: int, gap: int) {
    forall i :: 0 <= i < |ps| ==> ps[i] == first + i * gap
  }

  /** The sums of y and x*y over `n` such positions. */
  ghost predicate EvenTotals(n: nat, first: int, gap: int, total: int, sxy: int) {
    && 2 * total == 2 * n * first + n * (n - 1) * gap
    && 6 * sxy == 3 * (n * (n - 1)) * first + (n - 1) * n * (2 * n - 1) * gap
  }

  lemma {:induction false} EvenSums(ps: seq<int>, first: int, gap: int)
    requires Even(ps, first, gap) && ps != []
    ensures EvenTotals(|ps|, first, gap, ps[0] + SumYButFirst(ps), SumXY(ps))
  {
    var n := |ps| - 1;
    if n == 0 {
      assert ps[..0] == [] && SumXY(ps[..0]) == 0 && SumXY(ps) == 0;
    } else {
      EvenSums(ps[..n], first, gap);
      EvenStep(n, first, gap, ps[0] + SumYButFirst(ps[..n]), SumXY(ps[..n]), ps[n]);
      assert ps[..n][0] == ps[0];
    }
  }

  lemma EvenStep(n: nat, first: int, gap: int, total: int, sxy: int, p: int)
    requires EvenTotals(n, first, gap, total, sxy) && p == first + n * gap
    ensures EvenTotals(n + 1, first, gap, total + p, sxy + n * p)
  {
    EvenStepTotal(n, first, gap, p);
    EvenStepXY(n, first, gap, p);
  }

  /** For evenly spaced positions the least-squares slope is their gap, so the raw slope is the gap iff the
      first position is sample 0. */
  lemma SlopeOfEvenPositions(s: Track, ps: seq<int>, first: int, gap: int)
    requires |ps| >= 2 && Sums(s, ps) && Even(ps, first, gap)
    ensures Denominator(s) != 0.0 && LeastSquaresSlope(ps, s) == gap as real
    ensures RawSlope(s) == gap as real <==> first == 0
  {
    assert ps[0] == first;
    EvenLeastSquares(s, ps, first, gap);
    SlopeBias(s, ps);
  }

  lemma EvenLeastSquares(s: Track, ps: seq<int>, first: int, gap: int)
    requires |ps| >= 2 && Sums(s, ps) && Even(ps, first, gap)
    ensures Denominator(s) != 0.0 && LeastSquaresSlope(ps, s) == gap as real
  {
    EvenSums(ps, first, gap);
    SumsClosed(s, ps);
    EvenQuotient(|ps|, s.sumX, SumXY(ps), ps[0] + SumYButFirst(ps), Denominator(s), first, gap);
  }

  lemma EvenQuotient(n: nat, sx: real, sxy: int, total: int, d: real, first: int, gap: int)
    requires ClosedForms(n, sx, d) && EvenTotals(n, first, gap, total, sxy)
    ensures SlopeFormula(n, sx, sxy, total, d) == gap as real
  {
    var top, k := n as real * sxy as real - sx * total as real, n * n * (n * n - 1);
    assert 12.0 * top == (gap * k) as real by {
      EvenNumerator(n, first, gap, total, sxy);
      TwelveTimes(n, sx, sxy, total);
    }
    OneQuotient(top, d, gap, k);
  }

  lemma OneQuotient(top: real, d: real, gap: int, k: int)
    requires d > 0.0 && 12.0 * d == k as real && 12.0 * top == (gap * k) as real
    ensures top / d == gap as real
  {
    assert (gap * k) as real == gap as real * k as real;
    assert top == gap as real * d;
  }

  lemma TwelveTimes(n: nat, sx: real, sxy: int, total: int)
    requires 2.0 * sx == n as real * (n as real - 1.0)
    ensures 12.0 * (n as real * sxy as real - sx * total as real) == (12 * n * sxy - 6 * (n * (n - 1)) * total) as real
  {
    var m := n * (n - 1);
    assert 2.0 * sx == m as real;
    assert 12.0 * (sx * total as real) == 6.0 * (m as real * total as real);
    assert (m * total) as real == m as real * total as real;
    assert (n * sxy) as real == n as real * sxy as real;
    assert 12 * n * sxy == 12 * (n * sxy) && 6 * m * total == 6 * (m * total);
  }

  lemma EvenNumerator(n: nat, first: int, gap: int, total: int, sxy: int)
    requires 2 * total == 2 * n * first + n * (n - 1) * gap
    requires 6 * sxy == 3 * (n * (n - 1)) * first + (n - 1) * n * (2 * n - 1) * gap
    ensures 12 * n * sxy - 6 * (n * (n - 1)) * total == gap * (n * n * (n * n - 1))
  {
    var m, a := n * (n - 1), 2 * n - 1;
    assert 12 * n * sxy == 2 * n * (3 * m * first + m * a * gap);
    assert 6 * m * total == 3 * m * (2 * n * first + m * gap);
    FirstCancels(n, m, a, first, gap);
    GapFactor(n);
    assert gap * (m * (2 * n * a - 3 * m)) == gap * (n * n * (n * n - 1));
  }

  lemma FirstCancels(n: int, m: int, a: int, first: int, gap: int)
    ensures 2 * n * (3 * m * first + m * a * gap) - 3 * m * (2 * n * first + m * gap) == gap * (m * (2 * n * a - 3 * m))
  {
  }

  lemma GapFactor(n: int)
    ensures n * (n - 1) * (2 * n * (2 * n - 1) - 3 * (n * (n - 1))) == n * n * (n * n - 1)
  {
  }

  lemma EvenStepTotal(n: nat, first: int, gap: int, p: int)
    requires p == first + n * gap
    ensures 2 * n * first + n * (n - 1) * gap + 2 * p == 2 * (n + 1) * first + (n + 1) * n * gap
  {
  }

  lemma EvenStepXY(n: nat, first: int, gap: int, p: int)
    requires p == first + n * gap
    ensures 3 * (n * (n - 1)) * first + (n - 1) * n * (2 * n - 1) * gap + 6 * (n * p)
         == 3 * ((n + 1) * n) * first + n * (n + 1) * (2 * (n + 1) - 1) * gap
  {
  }

  lemma QuotientZero(a: real, b: real)
    requires b > 0.0
    ensures a / b == 0.0 <==> a == 0.0
  {
  }

  lemma BiasTerm(n: nat, sx: real, d: real, first: int)
    requires n >= 2 && ClosedForms(n, sx, d)
    ensures sx * first as real == Bias(n, first) * d
  {
    var p, k, f := n * (n + 1), n * (n - 1), first as real;
    assert p >= 6 by { assert p == n * n + n; SquareAtLeast(n); }
    assert n * n * (n * n - 1) == k * p by { FourFactors(n); }
    assert 2.0 * sx == k as real;
    assert 12.0 * d == k as real * p as real;
    CrossMultiply(sx * f, d, 6.0 * f, p as real, k as real, f, sx);
  }

  lemma FourFactors(n: int)
    ensures n * n * (n * n - 1) == n * (n - 1) * (n * (n + 1))
  {
    assert (n - 1) * (n + 1) == n * n - 1;
  }

  lemma CrossMultiply(a: real, d: real, b: real, p: real, k: real, first: real, sx: real)
    requires d > 0.0 && p > 0.0 && a == sx * first && b == 6.0 * first
    requires 2.0 * sx == k && 12.0 * d == k * p
    ensures a / d == b / p
  {
    assert 2.0 * a == k * first;
    assert a * p == b * d by {
      assert 2.0 * a * p == (k * first) * p;
      assert 2.0 * b * d == first * (12.0 * d);
      assert first * (k * p) == (k * first) * p;
    }
    EqualQuotients(a, d, b, p);
  }

  lemma EqualQuotients(a: real, d: real, b: real, p: real)
    requires d > 0.0 && p > 0.0 && a * p == b * d
    ensures a / d == b / p
  {
    var x, y := a / d, b / p;
    assert x * d == a && y * p == b;
    assert (x * d) * p == (y * p) * d;
    assert (x - y) * (d * p) == 0.0;
    assert d * p > 0.0;
  }
}
