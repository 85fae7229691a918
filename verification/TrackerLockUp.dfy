/** When SyncLineTracker turns positions away for good: the exact condition, and what it makes of a run. */
module TrackerLockUp {
  import opened SyncLineTracker
  import opened TrackerRuns

  // ----- exactly when no position is accepted and no reset happens

  /** The state after a list of positions, and the verdicts. */
  function AcceptAll(c: Config, s: Track, indexes: seq<int>): (Track, seq<bool>)
    decreases |indexes|
  {
    if indexes == [] then
      (s, [])
    else
      var (s', ok) := Accept(c, s, indexes[0]);
      var (t, oks) := AcceptAll(c, s', indexes[1..]);
      (t, [ok] + oks)
  }

  /** There is a last accepted position to measure from. */
  ghost predicate Tracking(c: Config, s: Track) {
    c.expected > 0 && s.count > 0 && s.last >= 0
  }

  /** The position is outside the window or, behind the fit, off the line with fewer than three misses
      counted so far, `misses` of them. */
  ghost predicate TurnedAway(c: Config, s: Track, index: int, misses: nat) {
    var gap := index - s.last;
    || gap < c.MinWindow()
    || (s.fitReady && (gap > c.MaxWindow() || (OffLine(c, s, index) && misses + 1 <= 3)))
  }

  /** Every position is turned away, each only counted as a miss. */
  ghost predicate Locked(c: Config, s: Track, indexes: seq<int>) {
    AcceptAll(c, s, indexes) == (s.(miss := s.miss + |indexes|), seq(|indexes|, _ => false))
  }

  ghost predicate AllTurnedAway(c: Config, s: Track, indexes: seq<int>) {
    forall i :: 0 <= i < |indexes| ==> TurnedAway(c, s, indexes[i], s.miss + i)
  }

  lemma TurnedAwayIsMissed(c: Config, s: Track, index: int)
    requires Tracking(c, s)
    ensures TurnedAway(c, s, index, s.miss) <==> Accept(c, s, index) == (Missed(s), false)
    ensures TurnedAway(c, s, index, s.miss) || Accept(c, s, index) == (START, false) || Accept(c, s, index).1
  {
  }

  /** Misses do not move the window or the line. */
  lemma MissesOnly(c: Config, s: Track, index: int, misses: nat)
    ensures TurnedAway(c, Missed(s), index, misses) <==> TurnedAway(c, s, index, misses)
  {
  }

  lemma AllTurnedAwayTail(c: Config, s: Track, indexes: seq<int>)
    requires indexes != [] && TurnedAway(c, s, indexes[0], s.miss)
    ensures AllTurnedAway(c, s, indexes) <==> AllTurnedAway(c, Missed(s), indexes[1..])
  {
    var t, tail := Missed(s), indexes[1..];
    forall i | 0 <= i < |tail|
      ensures TurnedAway(c, t, tail[i], t.miss + i) <==> TurnedAway(c, s, indexes[i + 1], s.miss + (i + 1))
    {
      MissesOnly(c, s, tail[i], t.miss + i);
    }
    if AllTurnedAway(c, t, tail) {
      forall i | 0 <= i < |indexes|
        ensures TurnedAway(c, s, indexes[i], s.miss + i)
      {
        assert i > 0 ==> TurnedAway(c, t, tail[i - 1], t.miss + (i - 1));
      }
    }
  }

  lemma LockedTail(c: Config, s: Track, indexes: seq<int>)
    requires indexes != [] && Accept(c, s, indexes[0]) == (Missed(s), false)
    ensures Locked(c, s, indexes) <==> Locked(c, Missed(s), indexes[1..])
  {
    var n := |indexes|;
    var (t, oks) := AcceptAll(c, Missed(s), indexes[1..]);
    assert [false] + seq(n - 1, _ => false) == seq(n, _ => false);
    assert ([false] + oks)[1..] == oks && seq(n, _ => false)[1..] == seq(n - 1, _ => false);
  }

  /** The first verdict is in the list, and a list that starts with a reset accepts its next position. */
  lemma NotLocked(c: Config, s: Track, indexes: seq<int>)
    requires Tracking(c, s) && indexes != [] && !TurnedAway(c, s, indexes[0], s.miss)
    ensures !Locked(c, s, indexes)
  {
    TurnedAwayIsMissed(c, s, indexes[0]);
    var oks := AcceptAll(c, s, indexes).1;
    if Accept(c, s, indexes[0]).1 {
      assert oks[0];
    } else if |indexes| == 1 {
      assert AcceptAll(c, START, indexes[1..]) == (START, []);
      assert AcceptAll(c, s, indexes).0.count == 0;
    } else {
      assert Accept(c, START, indexes[1..][0]).1;
      assert oks[1] == AcceptAll(c, START, indexes[1..]).1[0];
    }
  }

  /** The exact condition, for any positions in any order: nothing is accepted and no reset happens iff each
      position is outside the window around the last accepted one, or off the line before the fourth miss. */
  lemma {:induction false} LockedExactlyWhen(c: Config, s: Track, indexes: seq<int>)
    requires Tracking(c, s)
    ensures Locked(c, s, indexes) <==> AllTurnedAway(c, s, indexes)
    decreases |indexes|
  {
    if indexes == [] {
      assert s.(miss := s.miss + 0) == s && seq(0, _ => false) == [];
    } else if TurnedAway(c, s, indexes[0], s.miss) {
      TurnedAwayIsMissed(c, s, indexes[0]);
      LockedTail(c, s, indexes);
      LockedExactlyWhen(c, Missed(s), indexes[1..]);
      AllTurnedAwayTail(c, s, indexes);
    } else {
      NotLocked(c, s, indexes);
      assert !AllTurnedAway(c, s, indexes) by {
        assert !TurnedAway(c, s, indexes[0], s.miss + 0);
      }
    }
  }

  ghost predicate Ascending(xs: seq<int>) {
    forall i, j :: 0 <= i < j < |xs| ==> xs[i] < xs[j]
  }

  /** Behind the fit, one gap above the window is final: no later position is accepted and, however often
      it misses, the tracker does not reset. */
  lemma OneMissedLineIsFinal(c: Config, s: Track, indexes: seq<int>)
    requires Tracking(c, s) && s.fitReady
    requires Ascending(indexes) && indexes != [] && indexes[0] - s.last > c.MaxWindow()
    ensures Locked(c, s, indexes)
  {
    LockedExactlyWhen(c, s, indexes);
    assert forall i :: 0 <= i < |indexes| ==> indexes[0] <= indexes[i];
  }

  // ----- positions that come at least a window's low end apart

  ghost predicate Spaced(c: Config, ps: seq<int>) {
    forall i, j :: 0 <= i < j < |ps| && j == i + 1 ==> ps[j] - ps[i] >= c.MinWindow()
  }

  /** Two gaps are more than the window allows. */
  ghost predicate NarrowWindow(c: Config) {
    Sane(c) && 2 * c.MinWindow() > c.MaxWindow()
  }

  lemma NarrowIsPositive(c: Config)
    requires NarrowWindow(c)
    ensures c.MinWindow() > 0
  {
    WindowOrder(c);
    var e := c.expected as real;
    assert e * (1.0 + c.pct) == e + e * c.pct && e * c.pct >= 0.0;
    assert c.MaxWindow() >= c.expected;
  }

  lemma {:induction false} SpacedFrom(c: Config, ps: seq<int>, i: nat)
    requires NarrowWindow(c) && Spaced(c, ps) && 1 <= i < |ps|
    ensures ps[i] - ps[0] >= c.MinWindow() && (i >= 2 ==> ps[i] - ps[0] > c.MaxWindow())
    decreases i
  {
    NarrowIsPositive(c);
    if i > 1 {
      SpacedFrom(c, ps, i - 1);
    }
  }

  /** Then the first position that is turned away behind the fit is already final, so that a reset, which
      takes four misses at positions inside the window, cannot happen. */
  lemma FirstRejectionIsFinal(c: Config, s: Track, indexes: seq<int>)
    requires NarrowWindow(c) && Tracking(c, s) && s.fitReady && s.miss <= 2
    requires indexes != [] && Spaced(c, [s.last] + indexes) && !Accept(c, s, indexes[0]).1
    ensures Locked(c, s, indexes)
  {
    var ps := [s.last] + indexes;
    forall i | 0 <= i < |indexes|
      ensures TurnedAway(c, s, indexes[i], s.miss + i)
    {
      assert ps[i + 1] == indexes[i];
      SpacedFrom(c, ps, i + 1);
    }
    LockedExactlyWhen(c, s, indexes);
  }

  // ----- whole runs of such positions

  /** Of the positions `indexes` the first `|r.accepted|` were accepted and the others only counted. */
  ghost predicate PrefixAccepted(c: Config, indexes: seq<int>, r: TrackRun) {
    var k := |r.accepted|;
    && k <= |indexes| && r.accepted == indexes[..k] && r.s.miss == |indexes| - k
    && (k < |indexes| ==>
          && r.s.fitReady && k >= 1
          && RunOver(c, indexes[..k]) == TrackRun(r.s.(miss := 0), indexes[..k])
          && !Accept(c, r.s.(miss := 0), indexes[k]).1)
  }

  /** Over a whole run of positions at least the window's low end apart, the tracker accepts everything up to
      the first position it turns away, and then nothing; it never resets. */
  lemma {:induction false} AcceptedIsAPrefix(c: Config, indexes: seq<int>)
    requires NarrowWindow(c) && Spaced(c, indexes) && Placed(indexes)
    ensures PrefixAccepted(c, indexes, RunOver(c, indexes))
  {
    if indexes == [] {
      NothingAccepted(c);
    } else {
      var before, last := indexes[..|indexes| - 1], indexes[|indexes| - 1];
      assert indexes == before + [last];
      AcceptedIsAPrefix(c, before);
      RunKeepsInvariant(c, before);
      PrefixGrows(c, before, last, RunOver(c, before));
      RunOneMore(c, before, last);
    }
  }

  lemma NothingAccepted(c: Config)
    ensures PrefixAccepted(c, [], RunOver(c, []))
  {
  }

  lemma RunOneMore(c: Config, before: seq<int>, last: int)
    ensures RunOver(c, before + [last]) == Observe(c, RunOver(c, before), last)
  {
    assert (before + [last])[..|before|] == before;
  }

  lemma PrefixGrows(c: Config, before: seq<int>, last: int, r: TrackRun)
    requires NarrowWindow(c) && Spaced(c, before + [last]) && Inv(c, r) && last >= 0
    requires PrefixAccepted(c, before, r) && r == RunOver(c, before)
    ensures PrefixAccepted(c, before + [last], Observe(c, r, last))
  {
    if |r.accepted| < |before| {
      SomeTurnedAway(c, before, last, r);
    } else {
      assert r.accepted == before;
      AllSoFar(c, before, last, r);
    }
  }

  lemma AllSoFar(c: Config, before: seq<int>, last: int, r: TrackRun)
    requires NarrowWindow(c) && Spaced(c, before + [last]) && last >= 0
    requires Inv(c, r) && r.accepted == before && r.s.miss == 0 && r == RunOver(c, before)
    ensures PrefixAccepted(c, before + [last], Observe(c, r, last))
  {
    var all := before + [last];
    assert all[..|before|] == before && all[..|all|] == all;
    NextOfRun(c, before, last, r);
    if !Accept(c, r.s, last).1 {
      assert Observe(c, r, last) == TrackRun(Missed(r.s), before);
      assert Missed(r.s).(miss := 0) == r.s;
    }
  }

  /** What one more position does to a run without a miss. */
  lemma NextOfRun(c: Config, before: seq<int>, last: int, r: TrackRun)
    requires NarrowWindow(c) && Spaced(c, before + [last]) && last >= 0
    requires Inv(c, r) && r.accepted == before && r.s.miss == 0
    ensures var (s', ok) := Accept(c, r.s, last);
            if ok then s'.miss == 0 else s' == Missed(r.s) && before != [] && r.s.fitReady
  {
    if before != [] {
      var all := before + [last];
      assert all[|before|] - all[|before| - 1] >= c.MinWindow();
    }
  }

  lemma SomeTurnedAway(c: Config, before: seq<int>, last: int, r: TrackRun)
    requires NarrowWindow(c) && Spaced(c, before + [last]) && Inv(c, r) && last >= 0
    requires PrefixAccepted(c, before, r) && |r.accepted| < |before|
    ensures Observe(c, r, last) == TrackRun(Missed(r.s), r.accepted)
    ensures PrefixAccepted(c, before + [last], Observe(c, r, last))
  {
    var all, k := before + [last], |r.accepted|;
    var tail := all[k - 1..];
    assert tail[0] == r.s.last;
    SpacedFrom(c, tail, |tail| - 1);
    assert last == tail[|tail| - 1];
    assert Accept(c, r.s, last) == (Missed(r.s), false);
    assert all[..k] == before[..k] && all[k] == before[k];
    assert Missed(r.s).(miss := 0) == r.s.(miss := 0);
  }

  /** Once a position has been turned away, so is the next. */
  lemma StaysTurnedAway(c: Config, before: seq<int>, last: int)
    requires NarrowWindow(c) && Spaced(c, before + [last]) && Placed(before + [last])
    requires |RunOver(c, before).accepted| < |before|
    ensures RunOver(c, before + [last]).accepted == RunOver(c, before).accepted
  {
    PlacedPrefix(c, before, last);
    RunKeepsInvariant(c, before);
    AcceptedIsAPrefix(c, before);
    RunOneMore(c, before, last);
    SomeTurnedAway(c, before, last, RunOver(c, before));
  }

  lemma PlacedPrefix(c: Config, before: seq<int>, last: int)
    requires Spaced(c, before + [last]) && Placed(before + [last])
    ensures Spaced(c, before) && Placed(before) && last >= 0
  {
    var all := before + [last];
    assert forall i :: 0 <= i < |before| ==> all[i] == before[i];
    assert all[|before|] == last;
  }

  lemma TurnedAwayFirst(c: Config, before: seq<int>, last: int)
    requires Sane(c) && Placed(before) && |before| >= c.FitAt()
    requires RunOver(c, before).accepted == before && last - before[|before| - 1] > c.MaxWindow()
    ensures RunOver(c, before + [last]).accepted == before
  {
    RunKeepsInvariant(c, before);
    RunOneMore(c, before, last);
    TooLate(c, RunOver(c, before), last);
  }

  lemma TooLate(c: Config, r: TrackRun, last: int)
    requires c.expected > 0 && Inv(c, r) && r.accepted != [] && r.s.fitReady
    requires last - r.accepted[|r.accepted| - 1] > c.MaxWindow()
    ensures Observe(c, r, last) == TrackRun(Missed(r.s), r.accepted)
  {
  }

  /** Once something has been turned away, nothing more is accepted. */
  lemma {:induction false} KeptStays(c: Config, indexes: seq<int>, m: nat, kept: seq<int>)
    requires NarrowWindow(c) && Spaced(c, indexes) && Placed(indexes) && |kept| < m <= |indexes|
    requires RunOver(c, indexes[..m]).accepted == kept
    ensures RunOver(c, indexes).accepted == kept
    decreases |indexes|
  {
    if m == |indexes| {
      assert indexes[..m] == indexes;
    } else {
      var before, last := indexes[..|indexes| - 1], indexes[|indexes| - 1];
      assert indexes == before + [last];
      assert before[..m] == indexes[..m];
      PlacedPrefix(c, before, last);
      KeptStays(c, before, m, kept);
      StaysTurnedAway(c, before, last);
    }
  }

  /** A line missing behind the fit: what was accepted up to it is all that ever is. */
  lemma MissedLineEndsPrefix(c: Config, indexes: seq<int>, k: nat)
    requires NarrowWindow(c) && Spaced(c, indexes) && Placed(indexes)
    requires c.FitAt() <= k < |indexes| && indexes[k] - indexes[k - 1] > c.MaxWindow()
    requires RunOver(c, indexes[..k]).accepted == indexes[..k]
    ensures RunOver(c, indexes).accepted == indexes[..k]
  {
    MissedLine(c, indexes, k);
    KeptStays(c, indexes, k + 1, indexes[..k]);
  }

  lemma MissedLine(c: Config, indexes: seq<int>, k: nat)
    requires Sane(c) && Placed(indexes)
    requires c.FitAt() <= k < |indexes| && indexes[k] - indexes[k - 1] > c.MaxWindow()
    requires RunOver(c, indexes[..k]).accepted == indexes[..k]
    ensures RunOver(c, indexes[..k + 1]).accepted == indexes[..k]
  {
    assert indexes[..k + 1] == indexes[..k] + [indexes[k]];
    TurnedAwayFirst(c, indexes[..k], indexes[k]);
  }
}
