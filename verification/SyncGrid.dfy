/** Where the loop of `decode_scottie1` can hear a sync at all: at the samples at which SyncDetector.push looks
    at its window, every 80th (tools/sstv_offline_decode.py). */
module SyncGrid {
  import opened SyncLineTracker
  import opened TrackerRuns
  import opened TrackerLockUp
  import opened EvenSyncs
  import opened NearSyncs
  import opened SyncDetector
  import opened SyncRuns
  import opened HeaderSearch
  import H = HeaderDetector

  /** With the search begun at sample `start`, the detector looks behind sample `c`. */
  predicate OnGrid(start: int, c: int) {
    c - start >= 478 && (c - start - 398) % HOP == 0
  }

  lemma GridPlace(start: int, c: int, m: int)
    requires m >= 1 && c == start + 398 + m * HOP
    ensures OnGrid(start, c)
  {
    MultipleOfHop(m);
  }

  lemma MultipleOfHop(m: int)
    ensures (m * HOP) % HOP == 0
  {
  }

  /** A candidate of the run over the samples from `start` up to `n`. */
  predicate Sounds(sync: seq<int> -> bool, samples: seq<int>, start: nat, n: nat, c: int)
    requires n <= |samples|
  {
    start <= c < n && OnGrid(start, c) && sync(samples[c - 399..c + 1])
  }

  ghost predicate Rising(cs: seq<int>) {
    forall i, j :: 0 <= i < j < |cs| ==> cs[i] < cs[j]
  }

  /** What the run has heard behind `n` samples. */
  ghost predicate HeardUpTo(samples: seq<int>, start: nat, n: nat, l: Listening)
    requires start <= n <= |samples|
  {
    l.heard == samples[start..n] && l.eligible == if n - start < 399 then 0 else n - start - 399
  }

  lemma HearNext(sync: seq<int> -> bool, samples: seq<int>, start: nat, n: nat, l: Listening)
    requires start <= n < |samples| && HeardUpTo(samples, start, n, l)
    ensures HeardUpTo(samples, start, n + 1, Hear(sync, l, Input(samples[n], true, n)))
    ensures IsCandidate(sync, l, Input(samples[n], true, n)) <==> Sounds(sync, samples, start, n + 1, n)
  {
    var heard := l.heard + [samples[n]];
    assert heard == samples[start..n + 1];
    if |heard| >= WINDOW {
      assert heard[|heard| - WINDOW..] == samples[n - 399..n + 1];
      assert l.eligible + 1 == n - start - 398;
    }
  }

  /** The candidates of a run: at each place of the grid whose window holds the tone, and only there. */
  lemma {:induction false} CandidatesExactly(sync: seq<int> -> bool, samples: seq<int>, start: nat, n: nat)
    requires start <= n <= |samples|
    ensures var l := HearAll(sync, Inputs(samples, start, n));
            && HeardUpTo(samples, start, n, l) && Rising(l.candidates)
            && forall c :: c in l.candidates <==> Sounds(sync, samples, start, n, c)
  {
    if n > start {
      var m := n - 1;
      CandidatesExactly(sync, samples, start, m);
      OneMoreInput(samples, start, m);
      var xs := Inputs(samples, start, m);
      OneMorePush(sync, TOOL_GATE, xs, Input(samples[m], true, m), 0);
      HearNext(sync, samples, start, m, HearAll(sync, xs));
      GridGrows(sync, samples, start, m, HearAll(sync, xs).candidates);
    }
  }

  lemma GridGrows(sync: seq<int> -> bool, samples: seq<int>, start: nat, m: nat, cs: seq<int>)
    requires m < |samples| && Rising(cs) && forall c :: c in cs <==> Sounds(sync, samples, start, m, c)
    ensures var next := if Sounds(sync, samples, start, m + 1, m) then cs + [m as int] else cs;
            Rising(next) && forall c :: c in next <==> Sounds(sync, samples, start, m + 1, c)
  {
    assert forall i :: 0 <= i < |cs| ==> cs[i] in cs;
  }

  /** So two candidates of a run are a multiple of 80 samples apart. */
  lemma CandidatesOnGrid(sync: seq<int> -> bool, samples: seq<int>, start: nat, n: nat, a: int, b: int)
    requires start <= n <= |samples|
    requires a in HearAll(sync, Inputs(samples, start, n)).candidates
    requires b in HearAll(sync, Inputs(samples, start, n)).candidates
    ensures (b - a) % HOP == 0
  {
    CandidatesExactly(sync, samples, start, n);
    assert (b - start - 398) % HOP == 0 && (a - start - 398) % HOP == 0;
    SameStep(a - start - 398, b - start - 398);
  }

  lemma SameStep(a: int, b: int)
    requires a % HOP == 0 && b % HOP == 0
    ensures (b - a) % HOP == 0
  {
  }

  // ----- every list of the grid is the candidate list of a run

  ghost predicate GridList(start: nat, n: nat, cs: seq<int>) {
    Rising(cs) && forall i :: 0 <= i < |cs| ==> OnGrid(start, cs[i]) && cs[i] < n
  }

  lemma {:induction false} RisingIsUnique(a: seq<int>, b: seq<int>)
    requires Rising(a) && Rising(b) && forall c :: c in a <==> c in b
    ensures a == b
  {
    if a == [] {
      HasMember(b);
    } else {
      assert a[0] in a && a[0] in b;
      var m, k := |a| - 1, |b| - 1;
      assert a[m] in a && b[k] in b;
      assert a[m] in b && b[k] in a;
      assert a[m] == b[k];
      forall c
        ensures c in a[..m] <==> c in b[..k]
      {
        WithoutLast(a, c);
        WithoutLast(b, c);
      }
      RisingIsUnique(a[..m], b[..k]);
      assert a == a[..m] + [a[m]] && b == b[..k] + [b[k]];
    }
  }

  lemma HasMember(a: seq<int>)
    ensures a != [] ==> a[0] in a
  {
  }

  lemma WithoutLast(a: seq<int>, c: int)
    requires Rising(a) && a != []
    ensures c in a[..|a| - 1] <==> c in a && c != a[|a| - 1]
  {
    if c in a && c != a[|a| - 1] {
      var i :| 0 <= i < |a| && a[i] == c;
      assert a[..|a| - 1][i] == c;
    }
  }

  /** A tone test that holds when the window ends in the sample 1, and samples that are 1 at the marks. */
  predicate EndsInOne(window: seq<int>) {
    window != [] && window[|window| - 1] == 1
  }

  function Marked(marks: seq<int>, n: nat): (samples: seq<int>)
    ensures |samples| == n
  {
    seq(n, i requires 0 <= i < n => if i in marks then 1 else 0)
  }

  /** The lists of candidates that a run over `n` samples can have are exactly the rising lists of its grid. */
  lemma CandidateLists(start: nat, n: nat, cs: seq<int>)
    requires start <= n
    ensures GridList(start, n, cs) <==>
            exists sync: seq<int> -> bool, samples: seq<int> ::
              |samples| == n && HearAll(sync, Inputs(samples, start, n)).candidates == cs
  {
    if GridList(start, n, cs) {
      MarksAreHeard(Marked(cs, n), start, cs);
      var samples := Marked(cs, n);
      assert |samples| == n && HearAll(EndsInOne, Inputs(samples, start, n)).candidates == cs;
    }
    if sync: seq<int> -> bool, samples: seq<int> :|
      |samples| == n && HearAll(sync, Inputs(samples, start, n)).candidates == cs
    {
      CandidatesExactly(sync, samples, start, n);
      forall i | 0 <= i < |cs|
        ensures OnGrid(start, cs[i]) && cs[i] < n
      {
        assert cs[i] in cs;
      }
    }
  }

  /** The samples of the grid that are 1 are the marks. */
  ghost predicate MarkedBy(samples: seq<int>, start: nat, cs: seq<int>) {
    forall c :: 0 <= c < |samples| && OnGrid(start, c) ==> (samples[c] == 1 <==> c in cs)
  }

  lemma MarksAreHeard(samples: seq<int>, start: nat, cs: seq<int>)
    requires start <= |samples| && GridList(start, |samples|, cs) && MarkedBy(samples, start, cs)
    ensures HearAll(EndsInOne, Inputs(samples, start, |samples|)).candidates == cs
  {
    var n := |samples|;
    CandidatesExactly(EndsInOne, samples, start, n);
    var heard := HearAll(EndsInOne, Inputs(samples, start, n)).candidates;
    forall c
      ensures c in heard <==> c in cs
    {
      if start <= c < n && OnGrid(start, c) {
        LastOfWindow(samples, c);
      }
    }
    RisingIsUnique(heard, cs);
  }

  lemma LastOfWindow(samples: seq<int>, c: nat)
    requires 399 <= c < |samples|
    ensures EndsInOne(samples[c - 399..c + 1]) <==> samples[c] == 1
  {
    var w := samples[c - 399..c + 1];
    assert w[|w| - 1] == samples[c];
  }

  // ----- what the tool makes of such runs

  /** The positions the tool collects from samples that mark `cs`, with the search begun at `start`. */
  function ToolPositions(cs: seq<int>, start: nat, n: nat): seq<int>
    requires start <= n
  {
    Collected(TOOL, Hits(EndsInOne, TOOL_GATE, Inputs(Marked(cs, n), start, n), -18522))
  }

  /** A transmission with one sync missing: the lines are 18880 samples, but the second sync is not heard. No later
      one is ever taken. */
  lemma OneLostLine(start: nat, n: nat, first: int, later: seq<int>)
    requires start <= n && OnGrid(start, first) && first < n
    requires forall i :: 0 <= i < |later| ==> later[i] == first + 18880 * (i + 2) < n
    ensures var xs := Inputs(Marked([first] + later, n), start, n);
            && HearAll(EndsInOne, xs).candidates == [first] + later
            && Hits(EndsInOne, TOOL_GATE, xs, -18522) == [first]
            && ToolPositions([first] + later, start, n) == [first]
  {
    OnGridBehind(start, first, later);
    MarksAreHeard(Marked([first] + later, n), start, [first] + later);
    OneLostCandidate(first, later);
    assert [first][..0] == [];
    assert Collected(TOOL, [first]) == [first];
  }

  lemma OnGridBehind(start: nat, first: int, later: seq<int>)
    requires OnGrid(start, first) && forall i :: 0 <= i < |later| ==> later[i] == first + 18880 * (i + 2)
    ensures Rising([first] + later)
    ensures forall i :: 0 <= i < |[first] + later| ==> OnGrid(start, ([first] + later)[i])
  {
    forall i | 0 <= i < |later|
      ensures OnGrid(start, later[i])
    {
      assert later[i] == first + 80 * (236 * (i + 2));
    }
  }

  lemma OneLostCandidate(first: nat, later: seq<int>)
    requires first > 0 && forall i :: 0 <= i < |later| ==> later[i] == first + 18880 * (i + 2)
    ensures Gated(TOOL_GATE, [first] + later, -18522) == [first]
  {
    ToolGate();
    ToolLine();
    assert [first][..0] == [];
    assert Gated(TOOL_GATE, [first], -18522) == [first];
    if later == [] {
      assert [first] + later == [first];
    } else {
      assert Ascending(later);
      OneMissedSyncIsFinal(TOOL_GATE, [first], later, -18522);
    }
  }

  // ----- transmissions without a gap

  /** The gate lets every candidate pass when it lets each pass measured from the one before. */
  lemma {:induction false} AllPass(g: Gate, cs: seq<int>, start: int)
    requires cs != [] ==> Passes(g, cs[0], start)
    requires forall i, j :: 0 <= i < j < |cs| && j == i + 1 ==> Passes(g, cs[j], cs[i])
    ensures Gated(g, cs, start) == cs
  {
    if cs != [] {
      var n := |cs| - 1;
      AllPass(g, cs[..n], start);
      assert cs == cs[..n] + [cs[n]];
    }
  }

  /** The tool's gate in numbers: more than 18522 samples behind the last sync, and at most 21150 if there was one. */
  lemma ToolPasses(c: int, last: int)
    ensures Passes(TOOL_GATE, c, last) <==> c - last > 18522 && (last >= 0 ==> c - last <= 21150)
  {
    ToolGate();
    ToolLine();
  }

  /** Placed so that the tool's gate lets each pass. */
  ghost predicate InStep(cs: seq<int>) {
    && (forall i :: 0 <= i < |cs| ==> cs[i] > 0)
    && forall i, j :: 0 <= i < j < |cs| && j == i + 1 ==> 18522 < cs[j] - cs[i] <= 21150
  }

  lemma InStepPass(cs: seq<int>)
    requires InStep(cs)
    ensures Gated(TOOL_GATE, cs, -18522) == cs
  {
    if cs != [] {
      ToolPasses(cs[0], -18522);
    }
    forall i, j | 0 <= i < j < |cs| && j == i + 1
      ensures Passes(TOOL_GATE, cs[j], cs[i])
    {
      ToolPasses(cs[j], cs[i]);
    }
    AllPass(TOOL_GATE, cs, -18522);
  }

  /** The positions collected are then those the tracker accepts. */
  lemma InStepFollowed(cs: seq<int>)
    requires InStep(cs)
    ensures Gated(TOOL_GATE, cs, -18522) == cs && Collected(TOOL, cs) == RunOver(TOOL, cs).accepted
  {
    InStepPass(cs);
    ToolLine();
    CollectedAreAccepted(TOOL, cs);
  }

  lemma ToolFollows(start: nat, n: nat, cs: seq<int>)
    requires start <= n && GridList(start, n, cs) && InStep(cs)
    ensures ToolPositions(cs, start, n) == RunOver(TOOL, cs).accepted
  {
    MarksAreHeard(Marked(cs, n), start, cs);
    InStepFollowed(cs);
  }

  /** Lines of 18880 samples, every sync heard. */
  lemma RegularRun(start: nat, n: nat, first: int, cs: seq<int>)
    requires start <= n && OnGrid(start, first) && Even(cs, first, 18880) && |cs| > 24
    requires forall i :: 0 <= i < |cs| ==> cs[i] < n
    ensures ToolPositions(cs, start, n) == if first <= 27192 || 333293 <= first <= 362221 then cs else cs[..24]
  {
    EvenOnGrid(start, first, cs);
    ToolFollows(start, n, cs);
    StepSyncs(cs, first);
  }

  lemma EvenOnGrid(start: nat, first: int, cs: seq<int>)
    requires OnGrid(start, first) && Even(cs, first, 18880)
    ensures Rising(cs) && InStep(cs) && forall i :: 0 <= i < |cs| ==> OnGrid(start, cs[i])
  {
    forall i | 0 <= i < |cs|
      ensures OnGrid(start, cs[i])
    {
      assert cs[i] == first + 80 * (236 * i);
    }
  }

  /** The first place of the grid from sample `x` on. */
  function NextLook(start: int, x: int): (c: int)
    requires x - start >= 399
    ensures OnGrid(start, c) && x <= c < x + HOP
  {
    var c := x + (start + 398 - x) % HOP;
    c
  }

  lemma NextLookIsFirst(start: int, x: int, b: int)
    requires x - start >= 399 && OnGrid(start, b) && b >= x
    ensures NextLook(start, x) <= b
  {
    var c := NextLook(start, x);
    SameStep(c - start - 398, b - start - 398);
  }

  /** Lines of 18884 samples, as the mode has them, each sync heard with the next look. */
  function Looks(start: int, first: int, count: nat): (cs: seq<int>)
    requires first - start >= 399
    ensures |cs| == count
  {
    seq(count, i requires 0 <= i < count => NextLook(start, first + i * 18884))
  }

  lemma LooksAreNear(start: nat, first: int, count: nat)
    requires first - start >= 399
    ensures var cs := Looks(start, first, count);
            && Near(cs, first, 18884, 80) && Rising(cs) && InStep(cs)
            && forall i :: 0 <= i < |cs| ==> OnGrid(start, cs[i])
  {
    var cs := Looks(start, first, count);
    forall i, j | 0 <= i < j < |cs|
      ensures cs[i] < cs[j]
    {
      assert i * 18884 + 18884 <= j * 18884;
    }
  }

  /** The mode's own transmission, heard as well as the tool can: up to sample 21386 it is followed to the end, and
      from 33000 to 329590 or from 364698 on only for 24 lines. */
  lemma TransmissionRun(start: nat, n: nat, first: int, count: nat)
    requires start <= n && first - start >= 399 && count > 24
    requires forall c :: c in Looks(start, first, count) ==> c < n
    ensures var cs := Looks(start, first, count);
            && (first <= 21386 ==> ToolPositions(cs, start, n) == cs)
            && (33000 <= first <= 329590 || first >= 364698 ==> ToolPositions(cs, start, n) == cs[..24])
  {
    var cs := Looks(start, first, count);
    LooksAreNear(start, first, count);
    assert forall i :: 0 <= i < |cs| ==> cs[i] in cs;
    ToolFollows(start, n, cs);
    ToolNearSyncs(cs, first);
  }

  // ----- any samples behind a header

  lemma NearInStep(cs: seq<int>, first: int)
    requires Near(cs, first, 18884, 80) && forall i :: 0 <= i < |cs| ==> cs[i] > 0
    ensures InStep(cs)
  {
    forall i, j | 0 <= i < j < |cs| && j == i + 1
      ensures 18522 < cs[j] - cs[i] <= 21150
    {
      assert j * 18884 == i * 18884 + 18884;
    }
  }

  ghost predicate Behind(cs: seq<int>, x: int) {
    forall i :: 0 <= i < |cs| ==> cs[i] > x
  }

  /** No candidate comes before sample 42122. */
  lemma CandidatesAreLate(power: H.Power, sync: seq<int> -> bool, samples: seq<int>, start: nat)
    requires BeginsAt(power, samples, start)
    ensures Behind(HearAll(sync, Inputs(samples, start, |samples|)).candidates, 42121)
  {
    var cs := HearAll(sync, Inputs(samples, start, |samples|)).candidates;
    CandidatesExactly(sync, samples, start, |samples|);
    forall i | 0 <= i < |cs|
      ensures cs[i] > 42121
    {
      assert cs[i] in cs;
      BeginsLate(power, samples, start);
    }
  }

  lemma FirstIsLate(cs: seq<int>, first: int)
    requires Behind(cs, 42121) && cs != [] && Near(cs, first, 18884, 80)
    ensures first > 42041
  {
    assert cs[0] <= first + 0 * 18884 + 80;
  }

  lemma LateStopsAtFit(cs: seq<int>, first: int)
    requires Behind(cs, 42121) && |cs| > 24 && Near(cs, first, 18884, 80) && !(329590 < first < 364698)
    ensures Gated(TOOL_GATE, cs, -18522) == cs && Collected(TOOL, cs) == cs[..24]
  {
    NearInStep(cs, first);
    InStepFollowed(cs);
    FirstIsLate(cs, first);
    ToolNearSyncs(cs, first);
  }

  /** Whatever the samples and the filters: if the candidates of the tool's search are those of more than 24 lines
      of the mode's length, each within 80 samples, then it takes up just the first 24 of them, unless the first
      comes between samples 329590 and 364698, 7.5 to 8.3 seconds in. */
  lemma ToolStopsAtFit(power: H.Power, sync: seq<int> -> bool, samples: seq<int>, start: nat, first: int)
    requires BeginsAt(power, samples, start)
    ensures var xs := Inputs(samples, start, |samples|);
            var cs := HearAll(sync, xs).candidates;
            |cs| > 24 && Near(cs, first, 18884, 80) && !(329590 < first < 364698) ==>
              Hits(sync, TOOL_GATE, xs, -18522) == cs && Collected(TOOL, cs) == cs[..24]
  {
    var cs := HearAll(sync, Inputs(samples, start, |samples|)).candidates;
    if |cs| > 24 && Near(cs, first, 18884, 80) && !(329590 < first < 364698) {
      CandidatesAreLate(power, sync, samples, start);
      LateStopsAtFit(cs, first);
    }
  }
}
