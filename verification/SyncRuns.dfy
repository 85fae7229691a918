/** Whole runs of SyncDetector.push with the last sync threaded through, and the loop of `decode_scottie1` that
    hands the hits to SyncLineTracker (tools/sstv_offline_decode.py). */
module SyncRuns {
  import opened T = SyncLineTracker
  import opened TrackerRuns
  import opened TrackerLockUp
  import opened EvenSyncs
  import opened D = SyncDetector
  import opened HeaderSearch
  import opened Wrappers
  import H = HeaderDetector

  /** The arguments of one push that change from push to push, but for the last sync. */
  datatype Input = Input(sample: int, canSync: bool, index: int)

  /** What a run has heard: the samples, the eligible pushes, and where the gate was asked. */
  datatype Listening = Listening(heard: seq<int>, eligible: nat, candidates: seq<int>)

  /** With this push the window is looked at and holds the sync tone. */
  predicate IsCandidate(sync: seq<int> -> bool, l: Listening, x: Input) {
    var heard := l.heard + [x.sample];
    && x.canSync && |heard| >= WINDOW && (l.eligible + 1) % HOP == 0
    && sync(heard[|heard| - WINDOW..])
  }

  function Hear(sync: seq<int> -> bool, l: Listening, x: Input): Listening {
    var heard := l.heard + [x.sample];
    Listening(heard, if x.canSync && |heard| >= WINDOW then l.eligible + 1 else l.eligible,
              if IsCandidate(sync, l, x) then l.candidates + [x.index] else l.candidates)
  }

  function HearAll(sync: seq<int> -> bool, xs: seq<Input>): Listening {
    if xs == [] then Listening([], 0, []) else Hear(sync, HearAll(sync, xs[..|xs| - 1]), xs[|xs| - 1])
  }

  function LastOf(start: int, hits: seq<int>): int {
    if hits == [] then start else hits[|hits| - 1]
  }

  /** The candidates the gate lets pass, each measured from the one before, the first from `start`. */
  function Gated(g: Gate, candidates: seq<int>, start: int): seq<int> {
    if candidates == [] then
      []
    else
      var before, c := Gated(g, candidates[..|candidates| - 1], start), candidates[|candidates| - 1];
      if Passes(g, c, LastOf(start, before)) then before + [c] else before
  }

  function Hits(sync: seq<int> -> bool, g: Gate, xs: seq<Input>, start: int): seq<int> {
    Gated(g, HearAll(sync, xs).candidates, start)
  }

  /** One push more. */
  lemma OneMorePush(sync: seq<int> -> bool, g: Gate, xs: seq<Input>, x: Input, start: int)
    ensures HearAll(sync, xs + [x]) == Hear(sync, HearAll(sync, xs), x)
    ensures var hits := Hits(sync, g, xs, start);
            Hits(sync, g, xs + [x], start)
            == if IsCandidate(sync, HearAll(sync, xs), x) && Passes(g, x.index, LastOf(start, hits))
               then hits + [x.index] else hits
  {
    assert (xs + [x])[..|xs|] == xs;
    var cs := HearAll(sync, xs).candidates;
    assert (cs + [x.index])[..|cs|] == cs;
  }

  // ----- what the gate does over a run

  /** Consecutive hits lie in the gate's gaps. */
  lemma {:induction false} HitsLieInGaps(g: Gate, candidates: seq<int>, start: int)
    ensures var hits := Gated(g, candidates, start);
            && (forall h :: h in hits ==> h in candidates)
            && (hits != [] ==> Passes(g, hits[0], start))
            && forall i, j :: 0 <= i < j < |hits| && j == i + 1 ==> Passes(g, hits[j], hits[i])
  {
    if candidates != [] {
      var before, c := candidates[..|candidates| - 1], candidates[|candidates| - 1];
      assert candidates == before + [c];
      HitsLieInGaps(g, before, start);
    }
  }

  /** The exact condition under which synchronisation is lost for good: after the candidates `before`, none of
      those `after` passes iff the gate, still measuring from the last hit before them, refuses each. */
  lemma {:induction false} LostExactlyWhen(g: Gate, before: seq<int>, after: seq<int>, start: int)
    ensures var hits := Gated(g, before, start);
            && hits <= Gated(g, before + after, start)
            && (Gated(g, before + after, start) == hits
                <==> forall i :: 0 <= i < |after| ==> !Passes(g, after[i], LastOf(start, hits)))
    decreases |after|
  {
    var all := before + after;
    if after == [] {
      assert all == before;
    } else {
      var n := |after| - 1;
      assert all[..|all| - 1] == before + after[..n] && all[|all| - 1] == after[n];
      LostExactlyWhen(g, before, after[..n], start);
    }
  }

  /** One gap beyond the window is final, because the distance is always taken to the last hit. */
  lemma OneMissedSyncIsFinal(g: Gate, before: seq<int>, after: seq<int>, start: int)
    requires var last := LastOf(start, Gated(g, before, start));
             && Windowed(g, last) && MaxGap(g) > 0 && Ascending(after)
             && after != [] && after[0] - last > MaxGap(g)
    ensures Gated(g, before + after, start) == Gated(g, before, start)
  {
    LostExactlyWhen(g, before, after, start);
    assert forall i :: 0 <= i < |after| ==> after[0] <= after[i];
  }

  // ----- the tool's gate and tracker

  /** 420 ms at 44100 samples a second, the line length and the window. */
  const TOOL_GATE := Gate(18522, 18884, 0.12)

  lemma ToolGate()
    ensures TOOL_GATE.minGap == (44100.0 * (420.0 / 1000.0)).Floor
    ensures TOOL_GATE.expected == TOOL.expected && TOOL_GATE.pct == TOOL.pct
    ensures MinGap(TOOL_GATE) == TOOL.MinWindow() && MaxGap(TOOL_GATE) == TOOL.MaxWindow()
  {
    ToolLine();
  }

  // ----- from the detector to the tracker

  /** The hits the tracker accepts, in the order they come. */
  function Collected(c: Config, hits: seq<int>): seq<int> {
    if hits == [] then
      []
    else
      var before, h := hits[..|hits| - 1], hits[|hits| - 1];
      if Accept(c, RunOver(c, before).s, h).1 then Collected(c, before) + [h] else Collected(c, before)
  }

  /** The pushes of the loop from sample `start` on. */
  function Inputs(samples: seq<int>, start: nat, end: nat): (xs: seq<Input>)
    requires start <= end <= |samples|
    ensures |xs| == end - start
  {
    seq(end - start, k requires 0 <= k < end - start => Input(samples[start + k], true, start + k))
  }

  /** The detector stands behind the pushes `xs`. */
  ghost predicate Heard(d: D.SyncDetector, xs: seq<Input>)
    reads d, d.buf, d.window
  {
    var l := HearAll(d.sync, xs);
    d.Valid() && d.heard == l.heard && d.eligible == l.eligible
  }

  /** The tracker stands behind the hits, and the positions are those it accepted. */
  ghost predicate Followed(t: T.SyncLineTracker, positions: seq<int>, hits: seq<int>)
    reads t
  {
    t.State() == RunOver(t.config, hits).s && positions == Collected(t.config, hits)
  }

  /** Hand a hit to the tracker. */
  method TakeHit(t: T.SyncLineTracker, positions: seq<int>, index: int, ghost hits: seq<int>)
    returns (newPositions: seq<int>)
    requires Followed(t, positions, hits)
    modifies t
    ensures Followed(t, newPositions, hits + [index])
  {
    RunOneMore(t.config, hits, index);
    assert (hits + [index])[..|hits|] == hits;
    var ok := t.AcceptPosition(index);
    newPositions := if ok then positions + [index] else positions;
  }

  /** Detector, tracker and the positions collected behind the pushes `xs`. */
  ghost predicate Caught(d: D.SyncDetector, t: T.SyncLineTracker, positions: seq<int>, last: int,
                         g: Gate, xs: seq<Input>, start: int)
    reads d, d.buf, d.window, t
  {
    var hits := Hits(d.sync, g, xs, start);
    Heard(d, xs) && last == LastOf(start, hits) && Followed(t, positions, hits)
  }

  /** What Push promises of one sample is one step of the run. */
  lemma PushHears(sync: seq<int> -> bool, g: Gate, l: Listening, x: Input, last: int,
                  heard: seq<int>, eligible: nat, hit: bool)
    requires heard == l.heard + [x.sample]
    requires eligible == l.eligible + (if x.canSync && |heard| >= WINDOW then 1 else 0)
    requires hit <==> && eligible == l.eligible + 1 && eligible % HOP == 0
                      && sync(heard[|heard| - WINDOW..]) && Passes(g, x.index, last)
    ensures heard == Hear(sync, l, x).heard && eligible == Hear(sync, l, x).eligible
    ensures hit <==> IsCandidate(sync, l, x) && Passes(g, x.index, last)
  {
  }

  method TakeSample(d: D.SyncDetector, x: Input, g: Gate, last: int, ghost xs: seq<Input>, ghost start: int)
    returns (hit: bool, newLast: int)
    requires Heard(d, xs) && last == LastOf(start, Hits(d.sync, g, xs, start))
    modifies d, d.buf, d.window
    ensures Heard(d, xs + [x]) && newLast == LastOf(start, Hits(d.sync, g, xs + [x], start))
    ensures var hits := Hits(d.sync, g, xs, start);
            Hits(d.sync, g, xs + [x], start) == if hit then hits + [x.index] else hits
  {
    ghost var l := HearAll(d.sync, xs);
    hit, newLast := d.Push(x.sample, x.canSync, x.index, g, last);
    PushHears(d.sync, g, l, x, last, d.heard, d.eligible, hit);
    OneMorePush(d.sync, g, xs, x, start);
  }

  /** A new detector, with no sample pushed. */
  lemma CaughtAgain(d: D.SyncDetector, t: T.SyncLineTracker, positions: seq<int>, g: Gate, samples: seq<int>, idx: nat)
    requires d.Valid() && d.heard == [] && d.eligible == 0 && Followed(t, positions, []) && idx <= |samples|
    ensures Caught(d, t, positions, -g.minGap, g, Inputs(samples, idx, idx), -g.minGap)
  {
  }

  lemma ListensFromStart(header: H.HeaderDetector, samples: seq<int>)
    requires header.Valid() && header.heard == [] && header.headerEnd == None
    ensures Awaiting(header, None, samples, 0)
  {
    header.FiresOnHeader();
  }

  lemma FollowsNothing(t: T.SyncLineTracker)
    requires t.State() == START
    ensures Followed(t, [], [])
  {
  }

  lemma NoneCaught(t: T.SyncLineTracker, positions: seq<int>, sync: seq<int> -> bool, g: Gate, samples: seq<int>)
    requires Followed(t, positions, [])
    ensures Followed(t, positions, Hits(sync, g, Inputs(samples, |samples|, |samples|), -g.minGap))
  {
  }

  lemma PositionsFollow(d: D.SyncDetector, t: T.SyncLineTracker, positions: seq<int>, last: int,
                        g: Gate, xs: seq<Input>, start: int)
    requires Caught(d, t, positions, last, g, xs, start)
    ensures Followed(t, positions, Hits(d.sync, g, xs, start))
  {
  }

  lemma OneMoreInput(samples: seq<int>, start: nat, end: nat)
    requires start <= end < |samples|
    ensures Inputs(samples, start, end + 1) == Inputs(samples, start, end) + [Input(samples[end], true, end)]
  {
  }

  /** One round of the loop. */
  method TakeInput(d: D.SyncDetector, t: T.SyncLineTracker, positions: seq<int>, last: int,
                   g: Gate, x: Input, ghost xs: seq<Input>, ghost start: int)
    returns (newPositions: seq<int>, newLast: int)
    requires Caught(d, t, positions, last, g, xs, start)
    modifies d, d.buf, d.window, t
    ensures Caught(d, t, newPositions, newLast, g, xs + [x], start)
  {
    ghost var hits := Hits(d.sync, g, xs, start);
    newPositions := positions;
    var hit;
    hit, newLast := TakeSample(d, x, g, last, xs, start);
    if hit {
      newPositions := TakeHit(t, positions, x.index, hits);
    }
  }

  /** One round behind the header. */
  method TakeNext(d: D.SyncDetector, t: T.SyncLineTracker, positions: seq<int>, last: int,
                  g: Gate, samples: seq<int>, ghost start: nat, idx: nat)
    returns (newPositions: seq<int>, newLast: int)
    requires start <= idx < |samples| && Caught(d, t, positions, last, g, Inputs(samples, start, idx), -g.minGap)
    modifies d, d.buf, d.window, t
    ensures Caught(d, t, newPositions, newLast, g, Inputs(samples, start, idx + 1), -g.minGap)
  {
    var x := Input(samples[idx], true, idx);
    newPositions, newLast := TakeInput(d, t, positions, last, g, x, Inputs(samples, start, idx), -g.minGap);
    OneMoreInput(samples, start, idx);
  }

  /** Begin with a new detector. */
  method Open(sync: seq<int> -> bool, t: T.SyncLineTracker, positions: seq<int>, g: Gate, samples: seq<int>, idx: nat)
    returns (d: D.SyncDetector, last: int)
    requires Followed(t, positions, []) && idx <= |samples|
    ensures fresh(d) && fresh(d.buf) && fresh(d.window) && d.sync == sync
    ensures Caught(d, t, positions, last, g, Inputs(samples, idx, idx), -g.minGap)
  {
    d := new D.SyncDetector(sync);
    last := -g.minGap;
    CaughtAgain(d, t, positions, g, samples, idx);
  }

  /** The whole loop: wait for the header or the timeout, begin with a new detector, then push every sample, hand
      each hit to the tracker, and keep what it accepts. */
  method CollectSyncs(power: H.Power, sync: seq<int> -> bool, samples: seq<int>, g: Gate, c: Config)
    returns (positions: seq<int>, tracker: T.SyncLineTracker, ghost start: nat)
    ensures fresh(tracker) && tracker.config == c && BeginsAt(power, samples, start)
    ensures Followed(tracker, positions, Hits(sync, g, Inputs(samples, start, |samples|), -g.minGap))
  {
    var header := new H.HeaderDetector(power);
    var detector := new D.SyncDetector(sync);
    tracker := new T.SyncLineTracker(c);
    positions, start := [], 0;
    var lastSync := -g.minGap;
    var headerOk, headerEnd := false, None;
    ListensFromStart(header, samples);
    FollowsNothing(tracker);
    for idx := 0 to |samples|
      invariant fresh(header) && fresh(header.buf) && fresh(header.window) && fresh(detector)
      invariant fresh(detector.buf) && fresh(detector.window) && fresh(tracker)
      invariant header.power == power && detector.sync == sync && tracker.config == c
      invariant !headerOk ==> Awaiting(header, headerEnd, samples, idx) && Followed(tracker, positions, [])
      invariant headerOk ==>
                  && start <= idx && BeginsAt(power, samples, start)
                  && Caught(detector, tracker, positions, lastSync, g, Inputs(samples, start, idx), -g.minGap)
    {
      if !headerOk {
        headerEnd, headerOk := AwaitHeader(header, headerEnd, samples, idx);
        if headerOk {
          detector, lastSync := Open(sync, tracker, positions, g, samples, idx);
          start := idx;
        }
      }
      if headerOk {
        positions, lastSync := TakeNext(detector, tracker, positions, lastSync, g, samples, start, idx);
      }
    }
    if headerOk {
      PositionsFollow(detector, tracker, positions, lastSync, g, Inputs(samples, start, |samples|), -g.minGap);
    } else {
      NeverBegins(header, headerEnd, samples);
      start := |samples|;
      NoneCaught(tracker, positions, sync, g, samples);
    }
  }

  /** The gate and the tracker with the same line length and window. */
  ghost predicate SameWindow(g: Gate, c: Config) {
    g.expected == c.expected && g.pct == c.pct && 0.0 < c.pct && NarrowWindow(c)
  }

  lemma SameLimits(g: Gate, c: Config)
    requires SameWindow(g, c)
    ensures MinGap(g) == c.MinWindow() && 0 < MaxGap(g) == c.MaxWindow()
  {
    WindowOrder(c);
    NarrowIsPositive(c);
    var low := if 1.0 - g.pct > 0.0 then 1.0 - g.pct else 0.0;
    assert low == 1.0 - c.pct;
    assert g.expected as real * low == c.expected as real * (1.0 - c.pct);
  }

  /** Consecutive positions lie in the window. */
  ghost predicate InWindow(c: Config, ps: seq<int>) {
    && Placed(ps)
    && (forall i, j :: 0 <= i < j < |ps| && j == i + 1 ==> c.MinWindow() <= ps[j] - ps[i] <= c.MaxWindow())
  }

  lemma GatedInWindow(g: Gate, c: Config, candidates: seq<int>, start: int)
    requires SameWindow(g, c) && Placed(candidates)
    ensures InWindow(c, Gated(g, candidates, start))
  {
    var hits := Gated(g, candidates, start);
    HitsLieInGaps(g, candidates, start);
    assert forall i :: 0 <= i < |hits| ==> hits[i] in hits;
    SameLimits(g, c);
    forall i, j | 0 <= i < j < |hits| && j == i + 1
      ensures MinGap(g) <= hits[j] - hits[i] <= MaxGap(g)
    {
      assert Passes(g, hits[j], hits[i]) && Windowed(g, hits[i]);
    }
  }

  /** Whatever the samples, the hits of a run lie in the window of each other. */
  lemma HitsInWindow(sync: seq<int> -> bool, g: Gate, c: Config, xs: seq<Input>, start: int)
    requires SameWindow(g, c) && forall i :: 0 <= i < |xs| ==> xs[i].index >= 0
    ensures InWindow(c, Hits(sync, g, xs, start))
  {
    CandidatesAreIndices(sync, xs);
    GatedInWindow(g, c, HearAll(sync, xs).candidates, start);
  }

  /** Without a reset the collected positions are the accepted ones. */
  lemma {:induction false} CollectedAreAccepted(c: Config, hits: seq<int>)
    requires NarrowWindow(c) && Spaced(c, hits) && Placed(hits)
    ensures Collected(c, hits) == RunOver(c, hits).accepted
  {
    if hits != [] {
      var before, h := hits[..|hits| - 1], hits[|hits| - 1];
      CollectedAreAccepted(c, before);
      assert hits == before + [h];
      RunOneMore(c, before, h);
      AcceptedIsAPrefix(c, hits);
    }
  }

  /** Detector and tracker together: whatever the samples, the positions collected are a prefix of the
      detector's hits, and if not all of them, then because the next hit, though its gap is in the window, is
      off the fitted line; all hits behind it are lost and the tracker is never reset. */
  lemma CollectedIsAPrefix(sync: seq<int> -> bool, samples: seq<int>, start: nat, g: Gate, c: Config)
    requires start <= |samples| && SameWindow(g, c)
    ensures var hits := Hits(sync, g, Inputs(samples, start, |samples|), -g.minGap);
            var k := |Collected(c, hits)|;
            && k <= |hits| && Collected(c, hits) == hits[..k]
            && (k < |hits| ==> k >= c.FitAt() && OffLine(c, RunOver(c, hits[..k]).s, hits[k]))
  {
    var xs := Inputs(samples, start, |samples|);
    HitsInWindow(sync, g, c, xs, -g.minGap);
    PrefixOfHits(c, Hits(sync, g, xs, -g.minGap));
  }

  lemma PrefixOfHits(c: Config, hits: seq<int>)
    requires NarrowWindow(c) && InWindow(c, hits)
    ensures var k := |Collected(c, hits)|;
            && k <= |hits| && Collected(c, hits) == hits[..k]
            && (k < |hits| ==> k >= c.FitAt() && OffLine(c, RunOver(c, hits[..k]).s, hits[k]))
  {
    CollectedAreAccepted(c, hits);
    AcceptedIsAPrefix(c, hits);
    RunKeepsInvariant(c, hits);
    var k := |Collected(c, hits)|;
    if k < |hits| {
      RunKeepsInvariant(c, hits[..k]);
      RefusedOffLine(c, RunOver(c, hits[..k]), hits[..k], hits[k]);
    }
  }

  lemma ToolSameWindow()
    ensures SameWindow(TOOL_GATE, TOOL)
  {
    ToolGate();
    ToolLine();
  }

  lemma RefusedOffLine(c: Config, r: TrackRun, before: seq<int>, h: int)
    requires c.expected > 0 && before != [] && r.accepted == before && Inv(c, r) && !Accept(c, r.s, h).1
    requires c.MinWindow() <= h - before[|before| - 1] <= c.MaxWindow()
    ensures OffLine(c, r.s, h)
  {
  }

  lemma {:induction false} CandidatesAreIndices(sync: seq<int> -> bool, xs: seq<Input>)
    requires forall i :: 0 <= i < |xs| ==> xs[i].index >= 0
    ensures Placed(HearAll(sync, xs).candidates)
  {
    if xs != [] {
      CandidatesAreIndices(sync, xs[..|xs| - 1]);
    }
  }
}
