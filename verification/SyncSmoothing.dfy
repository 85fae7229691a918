/** The least-squares line with which `decode_scottie1` smooths the collected sync positions
    (tools/sstv_offline_decode.py). */
module SyncSmoothing {
  import opened SyncDetector
  import opened SyncLineTracker
  import opened TrackerRuns
  import opened TrackerLockUp
  import opened EvenSyncs
  import opened SyncRuns

  // ----- the sums over the first `n` positions

  function Xs(n: nat): nat {
    if n == 0 then 0 else Xs(n - 1) + (n - 1)
  }

  function XXs(n: nat): nat {
    if n == 0 then 0 else XXs(n - 1) + (n - 1) * (n - 1)
  }

  function Ys(ys: seq<int>, n: nat): int
    requires n <= |ys|
  {
    if n == 0 then 0 else Ys(ys, n - 1) + ys[n - 1]
  }

  function XYs(ys: seq<int>, n: nat): int
    requires n <= |ys|
  {
    if n == 0 then 0 else XYs(ys, n - 1) + (n - 1) * ys[n - 1]
  }

  function Spread(n: nat): int {
    n * XXs(n) - Xs(n) * Xs(n)
  }

  function Covariance(ys: seq<int>, n: nat): int
    requires n <= |ys|
  {
    n * XYs(ys, n) - Xs(n) * Ys(ys, n)
  }

  // ----- the line

  function Slope(ys: seq<int>): real
    requires Spread(|ys|) != 0
  {
    Ratio(Covariance(ys, |ys|), Spread(|ys|))
  }

  function Ratio(c: int, d: int): real
    requires d != 0
  {
    c as real / d as real
  }

  /** Where a line of slope `a` starts whose sums are those of the positions. */
  function Behind(y: int, a: real, x: int, n: nat): real
    requires n > 0
  {
    (y as real - a * x as real) / n as real
  }

  function Start(ys: seq<int>, a: real): real
    requires ys != []
  {
    Behind(Ys(ys, |ys|), a, Xs(|ys|), |ys|)
  }

  function OnLine(a: real, b: real, i: nat): int {
    Trunc(a * i as real + b + 0.5)
  }

  function Smoothed(ys: seq<int>): (r: seq<int>)
    ensures |r| == |ys|
  {
    if |ys| < 2 || Spread(|ys|) == 0 then ys
    else
      var a := Slope(ys);
      var b := Start(ys, a);
      seq(|ys|, i requires 0 <= i < |ys| => OnLine(a, b, i))
  }

  // ----- the spread is positive

  lemma {:induction false} TwiceXs(n: nat)
    ensures 2 * Xs(n) == n * n - n
  {
    if n > 0 {
      TwiceXs(n - 1);
      assert (n - 1) * (n - 1) == n * n - 2 * n + 1;
    }
  }

  lemma SpreadStep(n: nat)
    ensures Spread(n + 1) == Spread(n) + XXs(n) + n * n
  {
    TwiceXs(n);
    SpreadAlgebra(n, n * n, Xs(n), XXs(n));
  }

  lemma SpreadAlgebra(n: int, nn: int, x: int, xx: int)
    requires 2 * x == nn - n && nn == n * n
    ensures (n + 1) * (xx + nn) - (x + n) * (x + n) == n * xx - x * x + xx + nn
  {
    assert (x + n) * (x + n) == x * x + 2 * x * n + nn;
    assert 2 * x * n == nn * n - nn;
    assert (n + 1) * (xx + nn) == n * xx + n * nn + xx + nn;
  }

  lemma {:induction false} SpreadPositive(n: nat)
    requires n >= 2
    ensures Spread(n) > 0
  {
    SpreadStep(n - 1);
    if n > 2 {
      SpreadPositive(n - 1);
    } else {
      assert Xs(1) == 0 && XXs(1) == 0;
    }
  }

  // ----- positions that never fall have no falling line

  ghost predicate NonFalling(zs: seq<int>) {
    forall i, j :: 0 <= i <= j < |zs| ==> zs[i] <= zs[j]
  }

  /** The sum of (n - i) * z_i over the first `n` positions. */
  function Weighted(zs: seq<int>, n: nat): int
    requires n <= |zs|
  {
    n * Ys(zs, n) - XYs(zs, n)
  }

  lemma {:induction false} YsBound(zs: seq<int>, n: nat, c: int)
    requires n <= |zs| && forall i :: 0 <= i < n ==> zs[i] <= c
    ensures Ys(zs, n) <= n * c
  {
    if n > 0 {
      YsBound(zs, n - 1, c);
      assert n * c == (n - 1) * c + c;
    }
  }

  lemma {:induction false} WeightedBound(zs: seq<int>, n: nat, c: int)
    requires n <= |zs| && forall i :: 0 <= i < n ==> zs[i] <= c
    ensures Weighted(zs, n) <= Xs(n + 1) * c
  {
    if n == 0 {
      assert Xs(1) == 0;
    } else {
      WeightedBound(zs, n - 1, c);
      YsBound(zs, n, c);
      WeightedStep(zs, n);
      assert (Xs(n) + n) * c == Xs(n) * c + n * c;
    }
  }

  lemma WeightedStep(zs: seq<int>, n: nat)
    requires 0 < n <= |zs|
    ensures Weighted(zs, n) == Weighted(zs, n - 1) + Ys(zs, n)
  {
    var y, z := Ys(zs, n - 1), zs[n - 1];
    assert n * (y + z) == (n - 1) * y + y + (n - 1) * z + z;
  }

  lemma CovarianceStep(zs: seq<int>, n: nat)
    requires n < |zs|
    ensures Covariance(zs, n + 1) == Covariance(zs, n) + Xs(n + 1) * zs[n] - Weighted(zs, n)
  {
    TwiceXs(n);
    CovarianceAlgebra(n, n * n, Xs(n), Ys(zs, n), XYs(zs, n), zs[n], n * zs[n]);
  }

  lemma CovarianceAlgebra(n: int, nn: int, x: int, y: int, xy: int, z: int, nz: int)
    requires 2 * x == nn - n && nn == n * n && nz == n * z
    ensures (n + 1) * (xy + nz) - (x + n) * (y + z) == n * xy - x * y + (x + n) * z - (n * y - xy)
  {
    assert (n + 1) * (xy + nz) == n * xy + n * nz + xy + nz;
    assert (x + n) * (y + z) == x * y + x * z + n * y + nz;
    assert (x + n) * z == x * z + nz;
    assert n * nz == nn * z;
    assert nn * z == (2 * x + n) * z == 2 * (x * z) + nz;
  }

  /** Chebyshev's sum inequality for the places and the positions. */
  lemma {:induction false} CovarianceOfNonFalling(zs: seq<int>, n: nat)
    requires NonFalling(zs) && n <= |zs|
    ensures Covariance(zs, n) >= 0
  {
    if n > 0 {
      CovarianceOfNonFalling(zs, n - 1);
      WeightedBound(zs, n - 1, zs[n - 1]);
      CovarianceStep(zs, n - 1);
    }
  }

  // ----- the slope is at least the smallest gap

  function Less(ys: seq<int>, m: int): (zs: seq<int>)
    ensures |zs| == |ys|
  {
    seq(|ys|, i requires 0 <= i < |ys| => ys[i] - m * i)
  }

  lemma {:induction false} SumsOfLess(ys: seq<int>, m: int, n: nat)
    requires n <= |ys|
    ensures Ys(Less(ys, m), n) == Ys(ys, n) - m * Xs(n)
    ensures XYs(Less(ys, m), n) == XYs(ys, n) - m * XXs(n)
  {
    if n > 0 {
      SumsOfLess(ys, m, n - 1);
      LessStep(n - 1, ys[n - 1], m, Xs(n - 1), XXs(n - 1));
    }
  }

  lemma LessStep(k: int, y: int, m: int, x: int, xx: int)
    ensures m * (x + k) == m * x + m * k
    ensures m * (xx + k * k) + k * (y - m * k) == m * xx + k * y
  {
    Distribute(m, x, k);
    Distribute(m, xx, k * k);
    Distribute(k, y, -(m * k));
    assert k * -(m * k) == -(m * (k * k));
  }

  lemma Distribute(a: int, b: int, c: int)
    ensures a * (b + c) == a * b + a * c
  {
  }

  lemma CovarianceOfLess(ys: seq<int>, m: int, n: nat)
    requires n <= |ys|
    ensures Covariance(ys, n) == Covariance(Less(ys, m), n) + m * Spread(n)
  {
    SumsOfLess(ys, m, n);
    Combine(n, m, Xs(n), XXs(n), Ys(ys, n), XYs(ys, n));
  }

  lemma Combine(n: int, m: int, x: int, xx: int, y: int, xy: int)
    ensures n * xy - x * y == n * (xy - m * xx) - x * (y - m * x) + m * (n * xx - x * x)
  {
    assert n * (xy - m * xx) == n * xy - m * (n * xx);
    assert x * (y - m * x) == x * y - m * (x * x);
    assert m * (n * xx - x * x) == m * (n * xx) - m * (x * x);
  }

  /** Positions `m` or more apart. */
  ghost predicate Apart(ys: seq<int>, m: int) {
    forall i, j :: 0 <= i < j < |ys| && j == i + 1 ==> ys[j] - ys[i] >= m
  }

  lemma {:induction false} LessNonFalling(ys: seq<int>, m: int, i: nat, j: nat)
    requires Apart(ys, m) && i <= j < |ys|
    ensures Less(ys, m)[i] <= Less(ys, m)[j]
    decreases j
  {
    if i < j {
      LessNonFalling(ys, m, i, j - 1);
      assert m * j == m * (j - 1) + m;
    }
  }

  lemma SlopeAtLeast(ys: seq<int>, m: int)
    requires Apart(ys, m) && |ys| >= 2
    ensures Spread(|ys|) > 0 && Slope(ys) >= m as real
  {
    var n := |ys|;
    SpreadPositive(n);
    forall i, j | 0 <= i <= j < n
      ensures Less(ys, m)[i] <= Less(ys, m)[j]
    {
      LessNonFalling(ys, m, i, j);
    }
    CovarianceOfNonFalling(Less(ys, m), n);
    CovarianceOfLess(ys, m, n);
    QuotientAtLeast(Covariance(ys, n), Spread(n), m);
  }

  lemma QuotientAtLeast(c: int, d: int, m: int)
    requires d > 0 && c >= m * d
    ensures c as real / d as real >= m as real
  {
    var q := c as real / d as real;
    assert q * d as real == c as real >= m as real * d as real;
    assert (q - m as real) * d as real >= 0.0;
  }

  // ----- the order is kept

  /** Smoothing positions two or more apart keeps them in order, and at most one sample closer. */
  lemma SmoothedApart(ys: seq<int>, m: int)
    requires m >= 2 && Apart(ys, m)
    ensures Apart(Smoothed(ys), m - 1)
  {
    if |ys| >= 2 {
      SlopeAtLeast(ys, m);
      var r, a := Smoothed(ys), Slope(ys);
      forall i, j | 0 <= i < j < |r| && j == i + 1
        ensures r[j] - r[i] >= m - 1
      {
        NextOnLine(a, Start(ys, a), i, m);
      }
    }
  }

  lemma NextOnLine(a: real, b: real, i: nat, m: int)
    requires m >= 2 && a >= m as real
    ensures OnLine(a, b, i + 1) - OnLine(a, b, i) >= m - 1
  {
    var x := a * i as real + b + 0.5;
    assert a * (i + 1) as real + b + 0.5 == x + a by {
      RealStep(a, i as real, (i + 1) as real);
    }
    TruncStep(x, a, m);
  }

  lemma RealStep(a: real, x: real, y: real)
    requires y == x + 1.0
    ensures a * y == a * x + a
  {
  }

  lemma TruncStep(x: real, a: real, m: int)
    requires a >= m as real && m >= 2
    ensures Trunc(x + a) - Trunc(x) >= m - 1
  {
  }

  // ----- it is the least-squares line, rounded

  /** `a` and `b` from the sums, as the tool computes them. */
  ghost predicate IsLine(n: nat, x: int, xx: int, y: int, xy: int, a: real, b: real) {
    && n > 0 && n * xx - x * x != 0
    && a == Ratio(n * xy - x * y, n * xx - x * x) && b == Behind(y, a, x, n)
  }

  /** What the line leaves of the positions adds up to nothing, and so does what it leaves weighted with the
      places. */
  ghost predicate Normal(n: nat, x: int, xx: int, y: int, xy: int, a: real, b: real) {
    y as real == a * x as real + b * n as real && xy as real == a * xx as real + b * x as real
  }

  /** The normal equations of the least-squares line. */
  lemma NormalEquations(ys: seq<int>)
    requires |ys| >= 2
    ensures Spread(|ys|) > 0
    ensures Normal(|ys|, Xs(|ys|), XXs(|ys|), Ys(ys, |ys|), XYs(ys, |ys|), Slope(ys), Start(ys, Slope(ys)))
  {
    SpreadPositive(|ys|);
    LineIs(ys, Slope(ys), Start(ys, Slope(ys)));
    LineSolves(|ys|, Xs(|ys|), XXs(|ys|), Ys(ys, |ys|), XYs(ys, |ys|), Slope(ys), Start(ys, Slope(ys)));
  }

  lemma LineIs(ys: seq<int>, a: real, b: real)
    requires |ys| >= 2 && Spread(|ys|) > 0 && a == Slope(ys) && b == Start(ys, a)
    ensures IsLine(|ys|, Xs(|ys|), XXs(|ys|), Ys(ys, |ys|), XYs(ys, |ys|), a, b)
  {
  }

  lemma LineSolves(n: nat, x: int, xx: int, y: int, xy: int, a: real, b: real)
    requires IsLine(n, x, xx, y, xy, a, b)
    ensures Normal(n, x, xx, y, xy, a, b)
  {
    Difference(n, xx, x, x);
    Difference(n, xy, x, y);
    Solved(n as real, x as real, xx as real, y as real, xy as real,
           (n * xx - x * x) as real, (n * xy - x * y) as real, a, b);
  }

  lemma Difference(a: int, b: int, c: int, d: int)
    ensures (a * b - c * d) as real == a as real * b as real - c as real * d as real
  {
    Product(a, b);
    Product(c, d);
  }

  lemma Product(a: int, b: int)
    ensures (a * b) as real == a as real * b as real
  {
  }

  lemma Solved(n: real, x: real, xx: real, y: real, xy: real, d: real, c: real, a: real, b: real)
    requires n > 0.0 && d != 0.0 && d == n * xx - x * x && c == n * xy - x * y
    requires a == c / d && b == (y - a * x) / n
    ensures y == a * x + b * n && xy == a * xx + b * x
  {
    assert b * n == y - a * x;
    assert a * d == c;
    TimesN(n, x, xx, y, xy, a, b);
  }

  lemma TimesN(n: real, x: real, xx: real, y: real, xy: real, a: real, b: real)
    requires n > 0.0 && b * n == y - a * x && a * (n * xx - x * x) == n * xy - x * y
    ensures xy == a * xx + b * x
  {
    assert (b * n) * x == y * x - a * x * x;
    assert a * (n * xx - x * x) == n * (a * xx) - a * x * x;
    assert n * (b * x) == (b * n) * x;
    Cancel(n, xy, a * xx + b * x);
  }

  lemma Cancel(n: real, p: real, q: real)
    requires n > 0.0 && n * p == n * q
    ensures p == q
  {
    assert n * (p - q) == 0.0;
  }

  /** Each position becomes the whole number nearest to the line, where the line is not before the first sample. */
  lemma SmoothedIsNearest(ys: seq<int>, i: nat)
    requires |ys| >= 2 && i < |ys|
    ensures Spread(|ys|) > 0
    ensures var a := Slope(ys);
            var x := a * i as real + Start(ys, a);
            x >= -0.5 ==> x - 0.5 < Smoothed(ys)[i] as real <= x + 0.5
  {
    SpreadPositive(|ys|);
    var a := Slope(ys);
    SmoothedAt(ys, a, Start(ys, a));
  }

  // ----- regular positions stay

  lemma EvenLess(ys: seq<int>, first: int, gap: int, n: nat)
    requires Even(ys, first, gap) && n <= |ys|
    ensures Ys(Less(ys, gap), n) == n * first && XYs(Less(ys, gap), n) == first * Xs(n)
  {
    if n > 0 {
      EvenLess(ys, first, gap, n - 1);
      Distribute(first, Xs(n - 1), n - 1);
      Distribute(first, n - 1, 1);
    }
  }

  lemma EvenCovariance(ys: seq<int>, first: int, gap: int)
    requires Even(ys, first, gap)
    ensures Covariance(ys, |ys|) == gap * Spread(|ys|)
  {
    var n := |ys|;
    EvenLess(ys, first, gap, n);
    NoCovariance(Less(ys, gap), n, first);
    CovarianceOfLess(ys, gap, n);
  }

  lemma NoCovariance(zs: seq<int>, n: nat, first: int)
    requires n <= |zs| && Ys(zs, n) == n * first && XYs(zs, n) == first * Xs(n)
    ensures Covariance(zs, n) == 0
  {
    ThreeFactors(n, first, Xs(n));
  }

  lemma ThreeFactors(n: int, first: int, x: int)
    ensures n * (first * x) == x * (n * first)
  {
  }

  lemma EvenTotal(ys: seq<int>, first: int, gap: int)
    requires Even(ys, first, gap)
    ensures Ys(ys, |ys|) == first * |ys| + gap * Xs(|ys|)
  {
    EvenLess(ys, first, gap, |ys|);
    SumsOfLess(ys, gap, |ys|);
  }

  lemma ExactQuotient(q: int, d: int, c: int)
    requires d > 0 && c == q * d
    ensures c as real / d as real == q as real
  {
    var r := c as real / d as real;
    assert (r - q as real) * d as real == 0.0;
  }

  lemma EvenSlope(ys: seq<int>, first: int, gap: int)
    requires Even(ys, first, gap) && |ys| >= 2
    ensures Spread(|ys|) > 0 && Slope(ys) == gap as real
  {
    SpreadPositive(|ys|);
    EvenCovariance(ys, first, gap);
    ExactQuotient(gap, Spread(|ys|), Covariance(ys, |ys|));
  }

  lemma EvenStart(ys: seq<int>, first: int, gap: int, a: real)
    requires Even(ys, first, gap) && ys != [] && a == gap as real
    ensures Start(ys, a) == first as real
  {
    EvenTotal(ys, first, gap);
    ExactStart(Ys(ys, |ys|), |ys|, first, gap, Xs(|ys|), a);
  }

  lemma ExactStart(y: int, n: int, first: int, gap: int, x: int, a: real)
    requires n > 0 && y == first * n + gap * x && a == gap as real
    ensures (y as real - a * x as real) / n as real == first as real
  {
    assert a * x as real == (gap * x) as real;
    ExactQuotient(first, n, first * n);
  }

  lemma EvenOnLine(a: real, b: real, ys: seq<int>, first: int, gap: int, i: nat)
    requires a == gap as real && b == first as real && Even(ys, first, gap) && Placed(ys) && i < |ys|
    ensures OnLine(a, b, i) == ys[i]
  {
    assert a * i as real == (i * gap) as real;
  }

  lemma SmoothedAt(ys: seq<int>, a: real, b: real)
    requires |ys| >= 2 && Spread(|ys|) > 0 && a == Slope(ys) && b == Start(ys, a)
    ensures Smoothed(ys) == seq(|ys|, i requires 0 <= i < |ys| => OnLine(a, b, i))
  {
  }

  /** Regular positions are on their line, and smoothing leaves them as they are. */
  lemma SmoothedEven(ys: seq<int>, first: int, gap: int)
    requires Even(ys, first, gap) && Placed(ys)
    ensures Smoothed(ys) == ys
  {
    if |ys| >= 2 {
      EvenSlope(ys, first, gap);
      var a := Slope(ys);
      EvenStart(ys, first, gap, a);
      var b := Start(ys, a);
      SmoothedAt(ys, a, b);
      forall i: nat | i < |ys|
        ensures OnLine(a, b, i) == ys[i]
      {
        EvenOnLine(a, b, ys, first, gap, i);
      }
    }
  }

  // ----- what the tool hands to the decoder

  /** The sync positions of a run: collected, then smoothed. */
  function SyncPositions(c: Config, g: Gate, sync: seq<int> -> bool, samples: seq<int>, start: nat): seq<int>
    requires start <= |samples|
  {
    Smoothed(Collected(c, Hits(sync, g, Inputs(samples, start, |samples|), -g.minGap)))
  }

  /** Whatever the samples, the sync positions the tool hands to its decoder ascend. */
  lemma SyncPositionsAscend(sync: seq<int> -> bool, samples: seq<int>, start: nat)
    requires start <= |samples|
    ensures var ps := SyncPositions(TOOL, TOOL_GATE, sync, samples, start);
            forall i, j :: 0 <= i < j < |ps| ==> ps[i] < ps[j]
  {
    var xs := Inputs(samples, start, |samples|);
    var hits := Hits(sync, TOOL_GATE, xs, -18522);
    ToolSameWindow();
    CollectedIsAPrefix(sync, samples, start, TOOL_GATE, TOOL);
    HitsInWindow(sync, TOOL_GATE, TOOL, xs, -18522);
    ToolApart(hits, |Collected(TOOL, hits)|);
    SmoothedApart(Collected(TOOL, hits), 16617);
    var ps := Smoothed(Collected(TOOL, hits));
    forall i, j | 0 <= i < j < |ps|
      ensures ps[i] < ps[j]
    {
      ApartAscends(ps, 16616, i, j);
    }
  }

  lemma ToolApart(hits: seq<int>, k: nat)
    requires InWindow(TOOL, hits) && k <= |hits|
    ensures Apart(hits[..k], 16617)
  {
    ToolLine();
  }

  lemma {:induction false} ApartAscends(ps: seq<int>, m: int, i: nat, j: nat)
    requires Apart(ps, m) && m > 0 && i < j < |ps|
    ensures ps[i] < ps[j]
    decreases j
  {
    if i < j - 1 {
      ApartAscends(ps, m, i, j - 1);
    }
  }
}
