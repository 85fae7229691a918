/** What SyncLineTracker makes of sync positions that are regular only up to a tolerance, as those of the sync
    detector are, which looks at every 80th sample. */
module NearSyncs {
  import opened SyncLineTracker
  import opened TrackerRuns
  import opened TrackerLockUp
  import opened EvenSyncs

  /** The positions are within `q` of first, first + gap, ... */
  ghost predicate Near(ps: seq<int>, first: int, gap: int, q: nat) {
    forall i :: 0 <= i < |ps| ==> first + i * gap - q <= ps[i] <= first + i * gap + q
  }

  function Regular(first: int, gap: int, n: nat): (ps: seq<int>)
    ensures |ps| == n && Even(ps, first, gap)
  {
    seq(n, i requires 0 <= i < n => first + i * gap)
  }

  /** How far each position is off. */
  function Errors(ps: seq<int>, first: int, gap: int): (es: seq<int>)
    ensures |es| == |ps|
  {
    seq(|ps|, i requires 0 <= i < |ps| => ps[i] - first - i * gap)
  }

  function Abs(x: int): nat {
    if x < 0 then -x else x
  }

  ghost predicate Within(es: seq<int>, q: nat) {
    forall i :: 0 <= i < |es| ==> Abs(es[i]) <= q
  }

  lemma NearErrors(ps: seq<int>, first: int, gap: int, q: nat)
    requires Near(ps, first, gap, q)
    ensures Within(Errors(ps, first, gap), q)
  {
  }

  // ----- the sums are linear in the positions

  ghost predicate SumOf(ps: seq<int>, as': seq<int>, bs: seq<int>) {
    |ps| == |as'| == |bs| && forall i :: 0 <= i < |ps| ==> ps[i] == as'[i] + bs[i]
  }

  lemma {:induction false} SumsAdd(ps: seq<int>, as': seq<int>, bs: seq<int>)
    requires SumOf(ps, as', bs)
    ensures SumYButFirst(ps) == SumYButFirst(as') + SumYButFirst(bs)
    ensures SumXY(ps) == SumXY(as') + SumXY(bs)
  {
    if ps != [] {
      var n := |ps| - 1;
      SumsAdd(ps[..n], as'[..n], bs[..n]);
      assert n * ps[n] == n * as'[n] + n * bs[n];
    }
  }

  lemma NearIsSum(ps: seq<int>, first: int, gap: int)
    ensures SumOf(ps, Regular(first, gap, |ps|), Errors(ps, first, gap))
  {
  }

  // ----- how much the errors can add to the sums of a fit over 24 positions

  lemma {:induction false} SumYBound(es: seq<int>, q: nat)
    requires es != [] && Within(es, q)
    ensures Abs(SumYButFirst(es)) <= (|es| - 1) * q
  {
    var n := |es| - 1;
    if n > 0 {
      SumYBound(es[..n], q);
      Peel(n, q);
    }
  }

  lemma Peel(n: int, m: int)
    ensures n * m == (n - 1) * m + m
  {
  }

  /** The sum of |2i - 23| over the places 1 .. n-1. */
  function Weights(n: nat): nat {
    if n <= 1 then 0 else Weights(n - 1) + Abs(2 * (n - 1) - 23)
  }

  /** The error at place i counts 2i - 23 fold in twice the numerator of the slope, but at place 0 not at all. */
  lemma {:induction false} WeightedBound(es: seq<int>, q: nat)
    requires es != [] && Within(es, q)
    ensures Abs(2 * SumXY(es) - 23 * SumYButFirst(es)) <= Weights(|es|) * q
  {
    var n := |es| - 1;
    if n == 0 {
      assert SumXY(es[..0]) == 0;
    } else {
      WeightedBound(es[..n], q);
      WeightedStep(n, SumXY(es[..n]), SumYButFirst(es[..n]), es[n], q);
    }
  }

  lemma WeightedStep(n: nat, sxy: int, sy: int, e: int, q: nat)
    requires n >= 1 && Abs(e) <= q && Abs(2 * sxy - 23 * sy) <= Weights(n) * q
    ensures Abs(2 * (sxy + n * e) - 23 * (sy + e)) <= Weights(n + 1) * q
  {
    OneWeight(2 * n - 23, e, q);
    Distribute(Weights(n), Abs(2 * n - 23), q);
    Rearrange(n, sxy, sy, e);
    AbsAdds(2 * sxy - 23 * sy, (2 * n - 23) * e, 2 * (sxy + n * e) - 23 * (sy + e),
            Weights(n) * q, Abs(2 * n - 23) * q);
  }

  lemma Distribute(a: int, b: int, q: int)
    ensures (a + b) * q == a * q + b * q
  {
  }

  lemma Rearrange(n: int, a: int, b: int, e: int)
    ensures 2 * (a + n * e) - 23 * (b + e) == 2 * a - 23 * b + (2 * n - 23) * e
  {
  }

  lemma AbsAdds(x: int, y: int, z: int, a: int, b: int)
    requires z == x + y && Abs(x) <= a && Abs(y) <= b
    ensures Abs(z) <= a + b
  {
  }

  lemma OneWeight(w: int, e: int, q: nat)
    requires Abs(e) <= q
    ensures Abs(w * e) <= Abs(w) * q
  {
    AbsTimes(w, e);
    Scaled(Abs(w), Abs(e), q);
  }

  lemma AbsTimes(w: int, e: int)
    ensures Abs(w * e) == Abs(w) * Abs(e)
  {
    if w >= 0 && e >= 0 {
    } else if w >= 0 {
      assert w * e == -(w * -e);
      assert w * -e >= 0;
    } else if e >= 0 {
      assert w * e == -(-w * e);
      assert -w * e >= 0;
    } else {
      assert w * e == -w * -e;
    }
  }

  lemma Scaled(w: nat, x: nat, y: nat)
    requires x <= y
    ensures w * x <= w * y
  {
  }

  lemma AllWeights()
    ensures Weights(24) == 265
  {
    assert Weights(8) == 105;
    assert Weights(16) == 137;
  }

  lemma SumsOfRegular(even: seq<int>, first: int, gap: int)
    requires |even| == 24 && Even(even, first, gap)
    ensures SumYButFirst(even) == 23 * first + 276 * gap && SumXY(even) == 276 * first + 4324 * gap
  {
    EvenSums(even, first, gap);
    assert even[0] == first + 0 * gap;
  }

  lemma SumsOfErrors(es: seq<int>, q: nat)
    requires |es| == 24 && Within(es, q)
    ensures Abs(SumYButFirst(es)) <= 23 * q && Abs(2 * SumXY(es) - 23 * SumYButFirst(es)) <= 265 * q
  {
    SumYBound(es, q);
    WeightedBound(es, q);
    AllWeights();
  }

  /** The sums over near positions: those of the regular ones, and bounded errors. */
  lemma SplitSums(ps: seq<int>, first: int, gap: int, q: nat) returns (sxy: int, sy: int, ex: int, ey: int)
    requires |ps| == 24 && Near(ps, first, gap, q)
    ensures sy == 23 * first + 276 * gap && sxy == 276 * first + 4324 * gap
    ensures Abs(ey) <= 23 * q && Abs(2 * ex - 23 * ey) <= 265 * q
    ensures SumXY(ps) == sxy + ex && SumYButFirst(ps) == sy + ey
  {
    var even, es := Regular(first, gap, 24), Errors(ps, first, gap);
    NearIsSum(ps, first, gap);
    SumsAdd(ps, even, es);
    SumsOfRegular(even, first, gap);
    NearErrors(ps, first, gap, q);
    SumsOfErrors(es, q);
    sxy, sy, ex, ey := SumXY(even), SumYButFirst(even), SumXY(es), SumYButFirst(es);
  }

  // ----- the fitted line

  predicate Small(x: real, most: real) {
    -most <= x <= most
  }

  /** How much errors of at most `q` can tilt the line, and how much they can shift its intercept. */
  function Tilt(q: nat): real {
    53.0 * q as real / 460.0
  }

  function Shift(q: nat): real {
    137.0 * q as real / 60.0
  }

  lemma SumsOf24(t: Track, ps: seq<int>)
    requires |ps| == 24 && Sums(t, ps)
    ensures t.fitCount == 24 && t.sumX == 276.0 && Denominator(t) == 27600.0
  {
    assert t.sumXX == 4324.0;
  }

  lemma NearLine(t: Track, ps: seq<int>, first: int, gap: int, q: nat)
    requires |ps| == 24 && Sums(t, ps) && Near(ps, first, gap, q)
    ensures Denominator(t) != 0.0
    ensures Small(RawSlope(t) - (gap as real + Bias(24, first)), Tilt(q))
    ensures Small(Intercept(t, RawSlope(t)) - FitIntercept(24, first), Shift(q))
  {
    SumsOf24(t, ps);
    var sxy, sy, ex, ey := SplitSums(ps, first, gap, q);
    assert Bias(24, first) == first as real / 100.0;
    assert RawSlope(t) == (24.0 * (sxy + ex) as real - 276.0 * (sy + ey) as real) / 27600.0;
  }

  lemma ClampMoves(x: real, y: real, lo: real, hi: real, most: real)
    requires lo <= hi && Small(x - y, most)
    ensures Small(Clamp(x, lo, hi) - Clamp(y, lo, hi), most)
  {
  }

  // ----- the run

  /** Positions within `q` of regular ones, whose gaps stay in the window, before a tracker that fits 24. */
  ghost predicate NearRegular(c: Config, ps: seq<int>, first: int, gap: int, q: nat) {
    && NarrowWindow(c) && c.pct > 0.0 && c.FitAt() == 24 && first >= 0 && Near(ps, first, gap, q) && Placed(ps)
    && c.MinSlope() <= gap as real <= c.MaxSlope()
    && c.MinWindow() + 2 * q <= gap <= c.MaxWindow() - 2 * q
  }

  lemma NearGaps(c: Config, ps: seq<int>, first: int, gap: int, q: nat)
    requires NearRegular(c, ps, first, gap, q)
    ensures Spaced(c, ps) && Margin(c) > 0.0
    ensures forall i, j :: 0 <= i < j < |ps| && j == i + 1 ==> gap - 2 * q <= ps[j] - ps[i] <= gap + 2 * q
  {
    forall i, j | 0 <= i < j < |ps| && j == i + 1
      ensures gap - 2 * q <= ps[j] - ps[i] <= gap + 2 * q
    {
      assert j * gap == i * gap + gap;
    }
  }

  lemma NearPrefix(c: Config, ps: seq<int>, first: int, gap: int, q: nat, k: nat)
    requires NearRegular(c, ps, first, gap, q) && k <= |ps|
    ensures NearRegular(c, ps[..k], first, gap, q)
  {
  }

  lemma NearUpToFit(c: Config, ps: seq<int>, first: int, gap: int, q: nat)
    requires NearRegular(c, ps, first, gap, q) && |ps| <= 24
    ensures RunOver(c, ps).accepted == ps && Inv(c, RunOver(c, ps)) && RunOver(c, ps).s.miss == 0
  {
    NearGaps(c, ps, first, gap, q);
    AcceptedIsAPrefix(c, ps);
    RunKeepsInvariant(c, ps);
    assert ps[..|ps|] == ps;
  }

  /** The tracker's line after the fit, against that of the regular positions. */
  ghost predicate NearFit(s: Track, l: FitLine, q: nat) {
    s.count == 24 && Small(s.slope - l.slope, Tilt(q)) && Small(s.intercept - l.intercept, Shift(q))
  }

  lemma NearFitReached(c: Config, ps: seq<int>, first: int, gap: int, q: nat)
    requires NearRegular(c, ps, first, gap, q) && |ps| == 24
    ensures NearFit(RunOver(c, ps).s, LineFor(c, first, gap), q)
  {
    var before, last := ps[..23], ps[23];
    NearPrefix(c, ps, first, gap, q, 23);
    NearUpToFit(c, before, first, gap, q);
    NearUpToFit(c, ps, first, gap, q);
    assert ps == before + [last];
    RunOneMore(c, before, last);
    NearFitStep(c, RunOver(c, before), last, ps, first, gap, q);
  }

  lemma NearFitStep(c: Config, r: TrackRun, last: int, ps: seq<int>, first: int, gap: int, q: nat)
    requires Sane(c) && c.FitAt() == 24 && Inv(c, r)
    requires ps == r.accepted + [last] && |ps| == 24 && Near(ps, first, gap, q)
    requires Inv(c, Observe(c, r, last)) && Observe(c, r, last).accepted == ps
    ensures NearFit(Observe(c, r, last).s, LineFor(c, first, gap), q)
  {
    var t := Summed(r.s, last as real);
    SumsGrow(r.s, r.accepted, last);
    NearLine(t, ps, first, gap, q);
    WindowOrder(c);
    ClampMoves(RawSlope(t), gap as real + Bias(24, first), c.MinSlope(), c.MaxSlope(), Tilt(q));
    assert Observe(c, r, last).s == Next(Fitted(c, t), last);
  }

  /** How far the first prediction error can be from that of the regular positions. */
  function Slack(q: nat): real {
    8347.0 * q as real / 1380.0
  }

  lemma NearFirstError(l: FitLine, s: Track, next: int, q: nat, last: int)
    requires l.n == 24 && l.error == next as real - (l.slope * 24.0 + l.intercept)
    requires NearFit(s, l, q) && next - q <= last <= next + q
    ensures Small(PredictionError(s, last) - l.error, Slack(q))
  {
    assert PredictionError(s, last) == last as real - (s.slope * 24.0 + s.intercept);
  }

  // ----- lost behind the fit

  lemma NearLast(c: Config, ps: seq<int>, first: int, gap: int, q: nat)
    requires NearRegular(c, ps, first, gap, q) && |ps| > 24
    ensures var l := LineFor(c, first, gap);
            var s := RunOver(c, ps[..24]).s;
            && NearFit(s, l, q) && Small(PredictionError(s, ps[24]) - l.error, Slack(q))
            && RunOver(c, ps[..24]).accepted == ps[..24] && Inv(c, RunOver(c, ps[..24])) && s.miss == 0
            && gap - 2 * q <= ps[24] - s.last <= gap + 2 * q
  {
    NearPrefix(c, ps, first, gap, q, 24);
    NearFitReached(c, ps[..24], first, gap, q);
    NearUpToFit(c, ps[..24], first, gap, q);
    NearGaps(c, ps, first, gap, q);
    NearFirstError(LineFor(c, first, gap), RunOver(c, ps[..24]).s, first + 24 * gap, q, ps[24]);
  }

  /** If the regular positions miss the line by more than the margin and the slack, near ones are accepted up to
      the fit, and no further. */
  lemma NearLost(c: Config, ps: seq<int>, first: int, gap: int, q: nat)
    requires NearRegular(c, ps, first, gap, q) && |ps| > 24
    requires !Small(LineFor(c, first, gap).error, Margin(c) + Slack(q))
    ensures RunOver(c, ps).accepted == ps[..24]
  {
    NearLast(c, ps, first, gap, q);
    NearGaps(c, ps, first, gap, q);
    var r := RunOver(c, ps[..24]);
    assert OffLine(c, r.s, ps[24]);
    OnlyTheLineDecides(c, r, ps[24]);
    assert ps[..25] == ps[..24] + [ps[24]];
    RunOneMore(c, ps[..24], ps[24]);
    assert RunOver(c, ps[..25]).accepted == ps[..24];
    KeptStays(c, ps, 25, ps[..24]);
  }

  // ----- kept

  /** The line is anchored, and its slope is within `d` of the gap. */
  ghost predicate OnCourse(c: Config, gap: int, d: real, r: TrackRun, ps: seq<int>) {
    && r.accepted == ps && r.s.miss == 0 && Inv(c, r) && Anchored(r.s) && Small(r.s.slope - gap as real, d)
  }

  /** Following a gap within `e` of the regular one. */
  lemma FollowNear(s: Track, index: int, gap: int, d: real, e: real)
    requires Small(s.slope - gap as real, d) && Small((index - s.last - gap) as real, e) && 0.0 <= e <= d
    ensures Small(Next(Follow(s, index), index).slope - gap as real, d)
  {
  }

  lemma OnTheLine(c: Config, s: Track, last: int)
    requires Small(PredictionError(s, last), Margin(c))
    ensures !OffLine(c, s, last)
  {
  }

  /** A position in the window and on the line is taken up. */
  lemma TakenUp(c: Config, r: TrackRun, last: int)
    requires c.expected > 0 && Inv(c, r) && r.s.fitReady
    requires c.MinWindow() <= last - r.s.last <= c.MaxWindow() && !OffLine(c, r.s, last)
    ensures Observe(c, r, last) == TrackRun(Next(Follow(r.s, last), last), r.accepted + [last])
  {
    OnlyTheLineDecides(c, r, last);
  }

  lemma TakenOnCourse(c: Config, gap: int, d: real, e: int, r: TrackRun, last: int, r': TrackRun)
    requires r.s.miss == 0 && Small(r.s.slope - gap as real, d) && 0 <= e && e as real <= d
    requires gap - e <= last - r.s.last <= gap + e
    requires r' == TrackRun(Next(Follow(r.s, last), last), r.accepted + [last]) && Inv(c, r')
    ensures OnCourse(c, gap, d, r', r.accepted + [last])
  {
    FollowAnchors(r.s, last);
    FollowNear(r.s, last, gap, d, e as real);
  }

  lemma CloseToLine(s: Track, gap: int, d: real, e: int, last: int, margin: real)
    requires Anchored(s) && s.count >= 1 && Small(s.slope - gap as real, d) && d + e as real <= margin
    requires gap - e <= last - s.last <= gap + e
    ensures Small(PredictionError(s, last), margin)
  {
    AnchoredPrediction(s, last);
  }

  /** One more position behind the first that followed the fit. */
  lemma StaysOnCourse(c: Config, gap: int, d: real, e: int, r: TrackRun, ps: seq<int>, last: int)
    requires Sane(c) && OnCourse(c, gap, d, r, ps) && |ps| > c.FitAt() && last >= 0
    requires 0 <= e && e as real <= d && d + e as real <= Margin(c)
    requires c.MinWindow() <= gap - e <= last - r.s.last <= gap + e <= c.MaxWindow()
    ensures OnCourse(c, gap, d, Observe(c, r, last), ps + [last])
  {
    CloseToLine(r.s, gap, d, e, last, Margin(c));
    ComesOnCourse(c, gap, d, e, r, ps, last);
  }

  /** The position right behind the fit, or one further back. */
  lemma ComesOnCourse(c: Config, gap: int, d: real, e: int, r: TrackRun, ps: seq<int>, last: int)
    requires Sane(c) && Inv(c, r) && r.accepted == ps && |ps| >= c.FitAt() && r.s.miss == 0 && last >= 0
    requires Small(r.s.slope - gap as real, d) && Small(PredictionError(r.s, last), Margin(c))
    requires 0 <= e && e as real <= d
    requires c.MinWindow() <= gap - e <= last - r.s.last <= gap + e <= c.MaxWindow()
    ensures OnCourse(c, gap, d, Observe(c, r, last), ps + [last])
  {
    OnTheLine(c, r.s, last);
    TakenUp(c, r, last);
    StepKeepsInvariant(c, r, last);
    TakenOnCourse(c, gap, d, e, r, last, Observe(c, r, last));
  }

  /** What the slope may be off by, and still be followed. */
  ghost predicate Course(c: Config, l: FitLine, gap: int, q: nat, d: real) {
    && (2 * q) as real <= d && d + (2 * q) as real <= Margin(c)
    && Small(l.slope - gap as real, d - Tilt(q))
  }

  /** If the regular positions meet the line by more than the slack and its slope is near enough, near ones are
      all accepted. */
  lemma {:induction false} NearKept(c: Config, ps: seq<int>, first: int, gap: int, q: nat, d: real)
    requires NearRegular(c, ps, first, gap, q) && |ps| > 24 && Course(c, LineFor(c, first, gap), gap, q, d)
    requires Small(LineFor(c, first, gap).error, Margin(c) - Slack(q))
    ensures OnCourse(c, gap, d, RunOver(c, ps), ps)
    decreases |ps|
  {
    var before, last := ps[..|ps| - 1], ps[|ps| - 1];
    assert ps == before + [last];
    RunOneMore(c, before, last);
    if |before| == 24 {
      NearKeptFirst(c, ps, first, gap, q, d);
    } else {
      NearPrefix(c, ps, first, gap, q, |before|);
      NearKept(c, before, first, gap, q, d);
      NearKeptNext(c, ps, first, gap, q, d, before, last);
    }
  }

  lemma NearKeptFirst(c: Config, ps: seq<int>, first: int, gap: int, q: nat, d: real)
    requires NearRegular(c, ps, first, gap, q) && |ps| == 25 && Course(c, LineFor(c, first, gap), gap, q, d)
    requires Small(LineFor(c, first, gap).error, Margin(c) - Slack(q))
    ensures OnCourse(c, gap, d, Observe(c, RunOver(c, ps[..24]), ps[24]), ps)
  {
    NearLast(c, ps, first, gap, q);
    FirstOnCourse(c, LineFor(c, first, gap), gap, q, d, RunOver(c, ps[..24]), ps[..24], ps[24]);
    assert ps[..24] + [ps[24]] == ps;
  }

  lemma NearKeptNext(c: Config, ps: seq<int>, first: int, gap: int, q: nat, d: real, before: seq<int>, last: int)
    requires NearRegular(c, ps, first, gap, q) && ps == before + [last] && |before| > 24
    requires Course(c, LineFor(c, first, gap), gap, q, d) && OnCourse(c, gap, d, RunOver(c, before), before)
    ensures OnCourse(c, gap, d, Observe(c, RunOver(c, before), last), ps)
  {
    NearGaps(c, ps, first, gap, q);
    var k := |before|;
    assert before[k - 1] == ps[k - 1] && last == ps[k];
    StaysOnCourse(c, gap, d, 2 * q, RunOver(c, before), before, last);
  }

  lemma FirstOnCourse(c: Config, l: FitLine, gap: int, q: nat, d: real, r: TrackRun, ps: seq<int>, last: int)
    requires Sane(c) && Inv(c, r) && r.accepted == ps && |ps| == c.FitAt() && r.s.miss == 0 && last >= 0
    requires Course(c, l, gap, q, d) && NearFit(r.s, l, q)
    requires Small(l.error, Margin(c) - Slack(q)) && Small(PredictionError(r.s, last) - l.error, Slack(q))
    requires c.MinWindow() <= gap - 2 * q <= last - r.s.last <= gap + 2 * q <= c.MaxWindow()
    ensures OnCourse(c, gap, d, Observe(c, r, last), ps + [last])
  {
    ComesOnCourse(c, gap, d, 2 * q, r, ps, last);
  }

  // ----- the tool

  /** The tool on a transmission at its own line length whose syncs are heard within 80 samples, the step of the
      sync detector: with the first of them up to sample 21386 it is followed to the end, and from 33000 to 329590
      or from 364698 on only to the fit. */
  lemma ToolNearSyncs(ps: seq<int>, first: int)
    requires Near(ps, first, 18884, 80) && Placed(ps) && |ps| > 24 && first >= 0
    ensures first <= 21386 ==> RunOver(TOOL, ps).accepted == ps
    ensures 33000 <= first <= 329590 || first >= 364698 ==> RunOver(TOOL, ps).accepted == ps[..24]
  {
    ToolLine();
    if first <= 21386 {
      NominalUnclamped(first, 18884);
      NearKept(TOOL, ps, first, 18884, 80, 1000.0);
    } else if 33000 <= first <= 329590 || first >= 364698 {
      if Unclamped(first, 18884) {
        NominalUnclamped(first, 18884);
      } else {
        NominalClamped(first, 18884);
      }
      NearLost(TOOL, ps, first, 18884, 80);
    }
  }
}
