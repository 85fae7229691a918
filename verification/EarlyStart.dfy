/** An input of `decode_scottie1` in which a header and 200 syncs are heard, and no picture is drawn: the smoothing
    moves the first sync position before the first sample (tools/sstv_offline_decode.py). */
module EarlyStart {
  import opened Wrappers
  import opened ToneAutomaton
  import opened HeaderSearch
  import opened SyncLineTracker
  import opened TrackerRuns
  import opened TrackerLockUp
  import opened EvenSyncs
  import opened NearSyncs
  import opened SyncDetector
  import opened SyncRuns
  import opened SyncGrid
  import opened SyncSmoothing
  import H = HeaderDetector
  import ScottieModel
  import ScottieReceiver

  // ----- the positions: 24 lines of 18560 samples, then lines of 21120

  function Bent(n: nat): (cs: seq<int>)
    ensures |cs| == n
  {
    seq(n, i requires 0 <= i < n => BentAt(i))
  }

  function BentAt(i: nat): int {
    if i < 24 then 42122 + 18560 * i else 469002 + 21120 * (i - 23)
  }

  lemma BentOnGrid(i: nat)
    ensures OnGrid(41644, BentAt(i))
  {
    GridPlace(41644, BentAt(i), if i < 24 then 1 + 232 * i else 5337 + 264 * (i - 23));
  }

  lemma BentGrid(n: nat)
    ensures Rising(Bent(n)) && InStep(Bent(n)) && forall i :: 0 <= i < n ==> OnGrid(41644, Bent(n)[i])
  {
    forall i: nat | i < n
      ensures OnGrid(41644, BentAt(i))
    {
      BentOnGrid(i);
    }
  }

  // ----- the tracker follows them

  lemma BentFit()
    ensures Followed24(RunOver(TOOL, Bent(24)))
  {
    ToolLine();
    var ps := Bent(24);
    NominalUnclamped(42122, 18560);
    BentNear();
    NearUpToFit(TOOL, ps, 42122, 18560, 0);
    NearFitReached(TOOL, ps, 42122, 18560, 0);
    var s := RunOver(TOOL, ps).s;
    NearFirstError(LineFor(TOOL, 42122, 18560), s, 487562, 0, 487562);
    assert ps[23] == 469002;
  }

  lemma BentNear()
    ensures NearRegular(TOOL, Bent(24), 42122, 18560, 0)
  {
    ToolLine();
  }

  /** Behind the fit, the next position at the same distance would be 3510 samples off the line. */
  ghost predicate Followed24(r: TrackRun) {
    && r.accepted == Bent(24) && Inv(TOOL, r) && r.s.miss == 0
    && r.s.slope == 18981.22 && PredictionError(r.s, 487562) == -42122.0 / 12.0 && r.s.last == 469002
  }

  lemma BentNext(r: TrackRun)
    requires Followed24(r)
    ensures OnCourse(TOOL, 21120, 2260.0, Observe(TOOL, r, 490122), Bent(25))
  {
    ToolLine();
    assert PredictionError(r.s, 490122) == PredictionError(r.s, 487562) + 2560.0;
    ComesOnCourse(TOOL, 21120, 2260.0, 0, r, Bent(24), 490122);
    assert Bent(24) + [490122] == Bent(25);
  }

  /** All of them are accepted. */
  lemma {:induction false} BentFollowed(n: nat)
    requires n >= 25
    ensures OnCourse(TOOL, 21120, 2260.0, RunOver(TOOL, Bent(n)), Bent(n))
  {
    var before, last := Bent(n - 1), BentAt(n - 1);
    assert Bent(n) == before + [last];
    RunOneMore(TOOL, before, last);
    if n == 25 {
      BentFit();
      BentNext(RunOver(TOOL, before));
    } else {
      BentFollowed(n - 1);
      BentOneMore(n, RunOver(TOOL, before));
    }
  }

  lemma BentOneMore(n: nat, r: TrackRun)
    requires n > 25 && OnCourse(TOOL, 21120, 2260.0, r, Bent(n - 1))
    ensures OnCourse(TOOL, 21120, 2260.0, Observe(TOOL, r, BentAt(n - 1)), Bent(n - 1) + [BentAt(n - 1)])
  {
    ToolLine();
    assert r.s.last == BentAt(n - 2);
    StaysOnCourse(TOOL, 21120, 2260.0, 0, r, Bent(n - 1), BentAt(n - 1));
  }

  // ----- smoothing 200 of them

  lemma BentTimes(k: int)
    requires k >= 0
    ensures k * BentAt(k) == if k < 24 then 42122 * k + 18560 * (k * k) else 21120 * (k * k) - 16758 * k
  {
  }

  lemma {:induction false} BentSums(n: nat, k: nat)
    requires k <= n
    ensures k <= 24 ==> Ys(Bent(n), k) == 42122 * k + 18560 * Xs(k)
    ensures k <= 24 ==> XYs(Bent(n), k) == 42122 * Xs(k) + 18560 * XXs(k)
    ensures k >= 24 ==> Ys(Bent(n), k) == 21120 * Xs(k) - 16758 * k + 706560
    ensures k >= 24 ==> XYs(Bent(n), k) == 21120 * XXs(k) - 16758 * Xs(k) + 5181440
  {
    if k > 0 {
      BentSums(n, k - 1);
      BentTimes(k - 1);
      assert Bent(n)[k - 1] == BentAt(k - 1);
    }
    if k == 24 {
      SumsOfPlaces(24);
    }
  }

  lemma {:induction false} SumsOfPlaces(n: nat)
    ensures 2 * Xs(n) == n * n - n
    ensures 6 * XXs(n) == 2 * (n * n * n) - 3 * (n * n) + n
  {
    TwiceXs(n);
    if n > 0 {
      SumsOfPlaces(n - 1);
      CubeStep(n, n - 1);
    }
  }

  lemma CubeStep(n: int, k: int)
    requires n == k + 1
    ensures 2 * (n * n * n) - 3 * (n * n) + n == 2 * (k * k * k) - 3 * (k * k) + k + 6 * (k * k)
  {
    assert n * n == k * k + 2 * k + 1;
    assert n * n * n == k * (n * n) + n * n;
    assert k * (n * n) == k * (k * k) + 2 * (k * k) + k;
    assert k * k * k == k * (k * k);
  }

  lemma BentTotals()
    ensures Xs(200) == 19900 && XXs(200) == 2646700
    ensures Ys(Bent(200), 200) == 417642960 && XYs(Bent(200), 200) == 55570001240
  {
    SumsOfPlaces(200);
    BentSums(200, 200);
  }

  /** The line through them puts the first some 3500 samples before the input begins. */
  lemma BentSmoothed()
    ensures |Smoothed(Bent(200))| == 200 && Smoothed(Bent(200))[0] == -3505
  {
    var ys := Bent(200);
    BentTotals();
    assert Spread(200) == 133330000;
    var a := Slope(ys);
    var b := Start(ys, a);
    SmoothedAt(ys, a, b);
    assert OnLine(a, b, 0) == -3505;
  }

  // ----- samples with a header before them

  /** A filter that answers to the last sample of the window alone. */
  function LastSample(window: seq<int>, frequency: int): real {
    if window != [] && window[|window| - 1] == frequency then 1.0 else 0.0
  }

  /** The tone of the header's window `k`. */
  function HeaderTone(k: int): int {
    if k < 52 || 54 <= k < 106 then 1900 else 1200
  }

  function HeardSamples(n: nat): (samples: seq<int>)
    ensures |samples| == n
  {
    seq(n, i requires 0 <= i < n =>
      if i < 28927 then HeaderTone((i - 766) / 256) else if i in Bent(200) then 1 else 0)
  }

  lemma HeaderWindow(samples: seq<int>, k: nat)
    requires samples == HeardSamples(28927) && k < 111
    ensures k < |H.Tones(LastSample, samples)|
    ensures H.Tones(LastSample, samples)[k] == if HeaderTone(k) == 1900 then Tone1900 else Tone1200
  {
    var w := H.WindowAt(samples, k);
    assert w[|w| - 1] == samples[766 + 256 * k];
    assert (766 + 256 * k - 766) / 256 == k;
  }

  lemma HeaderHeard()
    ensures H.HeaderIn(LastSample, HeardSamples(28927))
  {
    var samples := HeardSamples(28927);
    var ts := H.Tones(LastSample, samples);
    forall k: nat | k < 111
      ensures ts[k] == if HeaderTone(k) == 1900 then Tone1900 else Tone1200
    {
      HeaderWindow(samples, k);
    }
    H.WindowCounts();
    var stages := H.Header();
    assert Occurs(stages, 0, ts[..106][..54][..52][..0]);
    assert OccursAt(stages, 1, ts[..106][..54][..52], 0);
    assert OccursAt(stages, 2, ts[..106][..54], 52);
    assert OccursAt(stages, 3, ts[..106], 54);
    assert OccursAt(stages, 4, ts, 106);
  }

  lemma HeaderEnds(n: nat)
    requires n >= 28927
    ensures H.HeaderEndsAt(LastSample, HeardSamples(n), 28927, 41644)
  {
    var samples := HeardSamples(n);
    HeaderHeard();
    assert samples[..28927] == HeardSamples(28927);
    forall m: nat | m < 28927
      ensures !H.HeaderIn(LastSample, samples[..m])
    {
      HeaderNeeds(LastSample, samples[..m]);
    }
    H.WindowCounts();
  }

  /** All the samples: up to the last sync. */
  const SAMPLES: seq<int> := HeardSamples(4186123)

  lemma SearchBegins()
    ensures BeginsAt(LastSample, SAMPLES, 41644)
  {
    HeaderEnds(4186123);
    assert HeaderBy(LastSample, SAMPLES, 41644, 41644);
    BeginsBehindHeader(LastSample, SAMPLES, 41644, 41644);
  }

  /** A header is heard, then 200 syncs in the gaps the detector allows, all of them followed by the tracker; but
      the first smoothed position is -3505, and the decoder is never started. */
  lemma NoPicture(freq: ScottieModel.Oracle, before: ScottieModel.Frame, offset: nat)
    requires ScottieModel.InScale(before.timing.scale)
    ensures BeginsAt(LastSample, SAMPLES, 41644)
    ensures Hits(EndsInOne, TOOL_GATE, Inputs(SAMPLES, 41644, |SAMPLES|), -18522) == Bent(200)
    ensures Collected(TOOL, Bent(200)) == Bent(200)
    ensures var syncs := SyncPositions(TOOL, TOOL_GATE, EndsInOne, SAMPLES, 41644);
            && |syncs| == 200 && syncs[0] == -3505
            && ScottieReceiver.Received(freq, before, offset, SAMPLES, syncs, |SAMPLES|) == before
  {
    SearchBegins();
    BentGrid(200);
    MarksAreHeard(SAMPLES, 41644, Bent(200));
    InStepFollowed(Bent(200));
    BentFollowed(200);
    BentSmoothed();
    ScottieReceiver.NeverStarted(freq, before, offset, SAMPLES, Smoothed(Bent(200)));
  }
}
