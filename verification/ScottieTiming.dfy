/** The timing correction of Scottie1Decoder over a transmission of constant line length: which syncs resynchronise
    the decoder, and where its timing scale goes (tools/sstv_offline_decode.py). */
module ScottieTiming {
  import opened ScottieModel
  import opened ScottieClock
  import opened ScottieRuns

  // ----- which syncs resynchronise

  /** The samples of a line from its sync on. */
  function SyncToEnd(t: Timing): nat {
    t.sync + t.porch + t.color
  }

  /** How far behind the start of a sync pulse the clock is set. */
  function Shift(t: Timing, offset: nat): nat
    requires SyncToEnd(t) > 0
  {
    if offset < SyncToEnd(t) then offset else SyncToEnd(t) - 1
  }

  /** The samples left of the line in progress. */
  function LineRest(t: Timing, c: Clock): int {
    Remaining(t, c) - (LINES - 1 - c.line) * LineLength(t)
  }

  /** A sync resynchronises if the sync of the line in progress is at most a quarter of a colour phase away. */
  lemma ResyncsByRest(t: Timing, c: Clock)
    requires Bounded(t) && InFrame(t, c) && c.line < LINES
    ensures 1 <= LineRest(t, c) <= LineLength(t)
    ensures Resyncs(t, c) <==> SyncToEnd(t) < LineRest(t, c) <= SyncToEnd(t) + t.color / 4
  {
    WholeLinesProduct(t, LINES - 1 - c.line);
  }

  /** The clock behind a sync that set it. */
  ghost predicate Aligned(t: Timing, c: Clock, offset: nat) {
    && Bounded(t) && InFrame(t, c) && c.line < LINES && c.lineSamples == 0
    && Remaining(t, c) + c.line * LineLength(t) == FrameLength(t, offset)
  }

  lemma AlignedRest(t: Timing, c: Clock, offset: nat)
    requires Aligned(t, c, offset)
    ensures LineRest(t, c) == SyncToEnd(t) - Shift(t, offset)
  {
    var n := LINES - 1 - c.line;
    assert n * LineLength(t) + c.line * LineLength(t) == 255 * LineLength(t) by {
      Split255(c.line, n, LineLength(t));
    }
  }

  lemma RestLater(t: Timing, c: Clock, c': Clock, n: nat)
    requires Remaining(t, c') == Remaining(t, c) - n
    ensures LineRest(t, c') == LineRest(t, c) - n + (c'.line - c.line) * LineLength(t)
  {
    Regroup(c.line, c'.line, LineLength(t));
  }

  lemma Regroup(l: int, l': int, length: int)
    ensures (255 - l) * length - (255 - l') * length == (l' - l) * length
  {
  }

  /** The line a clock is in `n` samples later. */
  lemma LaterLine(t: Timing, c: Clock, c': Clock, n: nat)
    requires Bounded(t) && InFrame(t, c) && InFrame(t, c') && c.line < 255 && c'.line < LINES
    requires Remaining(t, c') == Remaining(t, c) - n && n < LineRest(t, c) + LineLength(t)
    ensures if n < LineRest(t, c) then c'.line == c.line && LineRest(t, c') == LineRest(t, c) - n
            else c'.line == c.line + 1 && LineRest(t, c') == LineRest(t, c) + LineLength(t) - n
  {
    ResyncsByRest(t, c);
    ResyncsByRest(t, c');
    RestLater(t, c, c', n);
    FewLines(c'.line - c.line, LineLength(t), LineRest(t, c) - n, LineRest(t, c'));
  }

  lemma FewLines(d: int, length: int, rest: int, rest': int)
    requires length >= 1 && 1 <= rest' <= length && rest' == rest + d * length && -length < rest <= length
    ensures if rest >= 1 then d == 0 && rest' == rest else d == 1 && rest' == rest + length
  {
    Multiples(d, length);
  }

  lemma Multiples(d: int, length: int)
    requires length >= 1
    ensures d >= 2 ==> d * length >= 2 * length
    ensures d <= -1 ==> d * length <= -length
  {
  }

  lemma {:induction false} TicksCountSamples(t: Timing, c: Clock, n: nat)
    requires Bounded(t) && InFrame(t, c) && n < Remaining(t, c)
    ensures Ticks(t, c, n).lineSamples == c.lineSamples + n
  {
    if n > 0 {
      DoneAfterRemaining(t, c, n - 1);
      TicksCountSamples(t, c, n - 1);
      TickCountsSample(t, Ticks(t, c, n - 1));
    }
  }

  lemma TickCountsSample(t: Timing, c: Clock)
    requires c.phase != Idle
    ensures Tick(t, c).lineSamples == c.lineSamples + 1
  {
  }

  /** With a sync `n` samples behind the one before, the clock is set again iff the decoder's own line would have
      come to its sync later than that, but at most a quarter of a colour phase later. */
  predicate Meets(t: Timing, offset: nat, n: nat)
    requires SyncToEnd(t) > 0
  {
    LineLength(t) - t.color / 4 <= n + Shift(t, offset) < LineLength(t)
  }

  /** So it is always a line shorter than its own that the decoder is corrected by; a sync that comes later than the
      decoder expects it changes nothing. */
  lemma NextSync(t: Timing, c: Clock, offset: nat, n: nat)
    requires Aligned(t, c, offset) && c.line < 255 && n + Shift(t, offset) < LineLength(t) + SyncToEnd(t)
    ensures var c' := Ticks(t, c, n);
            && InFrame(t, c') && c'.line < LINES && c'.lineSamples == n
            && (Resyncs(t, c') <==> Meets(t, offset, n))
            && (Resyncs(t, c') ==> c'.line == c.line + 1)
  {
    var c' := Ticks(t, c, n);
    AlignedRest(t, c, offset);
    WholeLinesLeft(t, c);
    DoneAfterRemaining(t, c, n);
    TicksCountSamples(t, c, n);
    LaterLine(t, c, c', n);
    ResyncsByRest(t, c');
  }

  lemma WholeLinesLeft(t: Timing, c: Clock)
    requires c.line < 255
    ensures Remaining(t, c) >= LineRest(t, c) + LineLength(t)
  {
    AtLeastOnce(LINES - 1 - c.line, LineLength(t));
  }

  lemma AtLeastOnce(m: nat, x: nat)
    requires m >= 1
    ensures m * x >= x
  {
  }

  // ----- a transmission of constant line length

  /** Every line is `n` samples long, with a sync behind it. */
  function AfterLines(freq: Oracle, f: Frame, offset: nat, lines: seq<seq<int>>): (f': Frame)
    requires Shaped(f)
    ensures Shaped(f')
  {
    if lines == [] then f
    else
      var before := AfterLines(freq, f, offset, lines[..|lines| - 1]);
      Resync(Run(freq, before, offset, Samples(lines[|lines| - 1])), offset)
  }

  /** What the correction drives the scale to. */
  function Target(n: nat, offset: nat): (r: real)
    ensures InScale(r)
  {
    ClampScale(EXPECTED as real / Adjusted(n, offset) as real)
  }

  /** The scale after `k` corrections by the same length. */
  function ScaleAfter(scale: real, n: nat, offset: nat, k: nat): (s: real)
    requires InScale(scale)
    ensures InScale(s)
  {
    if k == 0 then scale else CorrectedScale(ScaleAfter(scale, n, offset, k - 1), n, offset)
  }

  /** The n-th power of 0.98. */
  function Share(k: nat): (p: real)
    ensures 0.0 < p <= 1.0
  {
    if k == 0 then 1.0 else 0.98 * Share(k - 1)
  }

  /** Each correction leaves 98 percent of the distance. */
  lemma {:induction false} ScaleApproaches(scale: real, n: nat, offset: nat, k: nat)
    requires InScale(scale)
    ensures ScaleAfter(scale, n, offset, k) - Target(n, offset) == Share(k) * (scale - Target(n, offset))
  {
    if k > 0 {
      ScaleApproaches(scale, n, offset, k - 1);
      Shrinks(Share(k - 1), scale - Target(n, offset), 0.98);
    }
  }

  lemma Shrinks(p: real, d: real, q: real)
    ensures q * (p * d) == (q * p) * d
  {
  }

  /** Fifty parts in fifty and one for every correction are an upper bound on what is left. */
  lemma {:induction false} ShareFalls(k: nat)
    ensures Share(k) * (50 + k) as real <= 50.0
  {
    if k > 0 {
      ShareFalls(k - 1);
      var p, m := Share(k - 1), (50 + k - 1) as real;
      assert 0.98 * p * (m + 1.0) == 0.98 * (p * m) + 0.98 * p;
      assert p * m >= p * 50.0;
    }
  }

  /** Whatever the scale at first, repeated corrections by one length bring it as near to the target as wanted. */
  lemma DrivenToTarget(scale: real, n: nat, offset: nat, near: real) returns (after: nat)
    requires InScale(scale) && near > 0.0
    ensures forall k: nat :: k >= after ==> -near <= ScaleAfter(scale, n, offset, k) - Target(n, offset) <= near
  {
    after := Enough(near);
    forall k: nat | k >= after
      ensures -near <= ScaleAfter(scale, n, offset, k) - Target(n, offset) <= near
    {
      NearAt(scale, n, offset, k, after as real, near);
    }
  }

  lemma Enough(near: real) returns (after: nat)
    requires near > 0.0
    ensures after as real * near >= 5.0
  {
    var q := 5.0 / near;
    after := q.Floor + 1;
    FarEnough(after as real, q, near);
  }

  lemma NearAt(scale: real, n: nat, offset: nat, k: nat, after: real, near: real)
    requires InScale(scale) && near > 0.0 && after * near >= 5.0 && k as real >= after
    ensures -near <= ScaleAfter(scale, n, offset, k) - Target(n, offset) <= near
  {
    var p, d, m := LeftOver(scale, n, offset, k);
    FarEnough(m, after, near);
    NearBy(p, m, near, d);
  }

  lemma LeftOver(scale: real, n: nat, offset: nat, k: nat) returns (p: real, d: real, m: real)
    requires InScale(scale)
    ensures ScaleAfter(scale, n, offset, k) - Target(n, offset) == p * d
    ensures p > 0.0 && -0.1 <= d <= 0.1 && m == 50.0 + k as real && p * m <= 50.0
  {
    ScaleApproaches(scale, n, offset, k);
    ShareFalls(k);
    p, d, m := Share(k), scale - Target(n, offset), (50 + k) as real;
  }

  lemma FarEnough(m: real, after: real, near: real)
    requires near > 0.0 && after * near >= 5.0 && m >= after
    ensures m * near >= 5.0
  {
    assert m * near - after * near == (m - after) * near;
  }

  lemma NearBy(p: real, m: real, near: real, d: real)
    requires 0.0 < p && m >= 50.0 && near > 0.0 && p * m <= 50.0 && m * near >= 5.0 && -0.1 <= d <= 0.1
    ensures -near <= p * d <= near
  {
    SmallShare(p, m, near);
    AtMostATenth(p, d);
  }

  lemma AtMostATenth(p: real, d: real)
    requires p > 0.0 && -0.1 <= d <= 0.1
    ensures -(p * 0.1) <= p * d <= p * 0.1
  {
    assert p * (0.1 - d) >= 0.0 && p * (0.1 + d) >= 0.0;
  }

  lemma SmallShare(p: real, m: real, near: real)
    requires 0.0 < p && m >= 50.0 && near > 0.0 && p * m <= 50.0 && m * near >= 5.0
    ensures p * 0.1 <= near
  {
    assert m * (near - p * 0.1) == m * near - p * m * 0.1;
    NonNegative(m, near - p * 0.1);
  }

  lemma NonNegative(m: real, x: real)
    requires m > 0.0 && m * x >= 0.0
    ensures x >= 0.0
  {
  }

  /** Which lines correct the scale, and to what: of the samples counted, the phase offset is taken away. */
  lemma TargetIs(n: nat, offset: nat)
    requires n > offset
    ensures var m := n - offset;
            && (Corrects(n, offset) <==> 16616 <= m <= 21147)
            && (0.95 * m as real <= 18882.0 <= 1.05 * m as real ==> Target(n, offset) * m as real == 18882.0)
            && (18882.0 < 0.95 * m as real ==> Target(n, offset) == 0.95)
            && (18882.0 > 1.05 * m as real ==> Target(n, offset) == 1.05)
  {
    var m := n - offset;
    RatioBounds(EXPECTED as real / m as real, m as real);
  }

  lemma RatioBounds(q: real, m: real)
    requires m > 0.0 && q == 18882.0 / m
    ensures q * m == 18882.0
    ensures (q < 0.95 <==> 18882.0 < 0.95 * m) && (q > 1.05 <==> 18882.0 > 1.05 * m)
  {
    assert q * m == 18882.0;
    assert (q - 0.95) * m == 18882.0 - 0.95 * m;
    assert (q - 1.05) * m == 18882.0 - 1.05 * m;
    SignOf(q - 0.95, m);
    SignOf(q - 1.05, m);
  }

  lemma SignOf(x: real, m: real)
    requires m > 0.0
    ensures (x > 0.0 <==> x * m > 0.0) && (x < 0.0 <==> x * m < 0.0)
  {
    if x > 0.0 {
      assert x * m > 0.0;
    } else if x < 0.0 {
      assert -x * m > 0.0;
    }
  }

  // ----- the correction goes the wrong way

  /** The scale at which the decoder's lines are as long as those received. */
  function Fitting(n: nat, offset: nat): real {
    Adjusted(n, offset) as real / EXPECTED as real
  }

  lemma QuotientAboveOne(a: nat, b: nat)
    requires a > 0 && b > 0
    ensures a as real / b as real > 1.0 <==> a > b
    ensures a as real / b as real < 1.0 <==> a < b
  {
    Sides(a as real / b as real, a as real, b as real);
  }

  lemma Sides(q: real, a: real, b: real)
    requires b > 0.0 && q * b == a
    ensures (q > 1.0 <==> a > b) && (q < 1.0 <==> a < b)
  {
    assert (q - 1.0) * b == a - b;
    if q > 1.0 {
      assert (q - 1.0) * b > 0.0;
    } else if q < 1.0 {
      assert (1.0 - q) * b > 0.0;
    }
  }

  /** The correction leads to the scale that fits iff the line has its nominal length; a shorter line leads it
      above 1, a longer one below. */
  lemma WrongWay(n: nat, offset: nat)
    ensures Target(n, offset) == Fitting(n, offset) <==> Adjusted(n, offset) == EXPECTED
    ensures Fitting(n, offset) < 1.0 <==> Target(n, offset) > 1.0
    ensures Fitting(n, offset) > 1.0 <==> Target(n, offset) < 1.0
  {
    QuotientAboveOne(EXPECTED, Adjusted(n, offset));
    QuotientAboveOne(Adjusted(n, offset), EXPECTED);
  }

  /** Away from the scale that fits, whenever the scale lies between it and the nominal one. */
  lemma CorrectsAway(scale: real, n: nat, offset: nat)
    requires InScale(scale)
    ensures Fitting(n, offset) <= scale <= 1.0 && Adjusted(n, offset) != EXPECTED ==>
              CorrectedScale(scale, n, offset) > scale
    ensures 1.0 <= scale <= Fitting(n, offset) && Adjusted(n, offset) != EXPECTED ==>
              CorrectedScale(scale, n, offset) < scale
  {
    WrongWay(n, offset);
  }

  // ----- the decoder on such a transmission

  lemma LengthsGrow(lo: real, hi: real)
    requires InScale(lo) && InScale(hi) && lo <= hi
    ensures var a, b := TimingOf(lo), TimingOf(hi);
            a.porch <= b.porch && a.sync <= b.sync && a.color <= b.color
  {
  }

  lemma MeetsBetween(lo: real, scale: real, hi: real, offset: nat, n: nat)
    requires InScale(lo) && InScale(hi) && lo <= scale <= hi
    requires Bounded(TimingOf(lo)) && Bounded(TimingOf(scale)) && Bounded(TimingOf(hi))
    requires Meets(TimingOf(lo), offset, n) && Meets(TimingOf(hi), offset, n)
    ensures Meets(TimingOf(scale), offset, n)
  {
    LengthsGrow(lo, scale);
    LengthsGrow(scale, hi);
  }

  /** Both the present scale and the target meet the syncs. */
  ghost predicate KeepsMeeting(scale: real, n: nat, offset: nat) {
    && InScale(scale) && Corrects(n, offset)
    && Bounded(TimingOf(scale)) && Bounded(TimingOf(Target(n, offset)))
    && Meets(TimingOf(scale), offset, n) && Meets(TimingOf(Target(n, offset)), offset, n)
  }

  /** The scale stays between the first and the target. */
  lemma ScaleBetween(scale: real, n: nat, offset: nat, k: nat)
    requires InScale(scale)
    ensures var s, r := ScaleAfter(scale, n, offset, k), Target(n, offset);
            if scale <= r then scale <= s <= r else r <= s <= scale
    ensures k > 0 ==> (ScaleAfter(scale, n, offset, k) == scale <==> scale == Target(n, offset))
  {
    ScaleApproaches(scale, n, offset, k);
    Within(Share(k), scale - Target(n, offset));
    if k > 0 {
      assert Share(k) == 0.98 * Share(k - 1);
      Strictly(Share(k), scale - Target(n, offset));
    }
  }

  lemma Within(p: real, d: real)
    requires 0.0 < p <= 1.0
    ensures if d <= 0.0 then d <= p * d <= 0.0 else 0.0 <= p * d <= d
  {
  }

  lemma Strictly(p: real, d: real)
    requires 0.0 < p < 1.0
    ensures p * d == d <==> d == 0.0
  {
    assert (1.0 - p) * d == d - p * d;
  }

  lemma MeetsAlways(scale: real, n: nat, offset: nat, k: nat)
    requires KeepsMeeting(scale, n, offset)
    ensures Bounded(TimingOf(ScaleAfter(scale, n, offset, k)))
    ensures Meets(TimingOf(ScaleAfter(scale, n, offset, k)), offset, n)
  {
    ScaledLengths(ScaleAfter(scale, n, offset, k));
    ScaleBetween(scale, n, offset, k);
    MeetsInOrder(scale, ScaleAfter(scale, n, offset, k), Target(n, offset), offset, n);
  }

  lemma MeetsInOrder(a: real, scale: real, b: real, offset: nat, n: nat)
    requires InScale(a) && InScale(b) && if a <= b then a <= scale <= b else b <= scale <= a
    requires Bounded(TimingOf(a)) && Bounded(TimingOf(scale)) && Bounded(TimingOf(b))
    requires Meets(TimingOf(a), offset, n) && Meets(TimingOf(b), offset, n)
    ensures Meets(TimingOf(scale), offset, n)
  {
    if a <= b {
      MeetsBetween(a, scale, b, offset, n);
    } else {
      MeetsBetween(b, scale, a, offset, n);
    }
  }

  /** A sync behind `n` samples sets the clock and corrects the scale. */
  lemma SetAgain(g: Frame, offset: nat, n: nat)
    requires FrameInv(g) && g.clock.line < LINES && Resyncs(g.timing, g.clock)
    requires g.clock.lineSamples == n && Corrects(n, offset)
    ensures var f := Resync(g, offset);
            && FrameInv(f) && Aligned(f.timing, f.clock, offset) && f.clock.line == g.clock.line
            && f.timing.scale == CorrectedScale(g.timing.scale, n, offset)
  {
    ResyncKeeps(g, offset);
    ResyncRealigns(g, offset);
  }

  /** One line more. */
  lemma OneMoreLine(freq: Oracle, f: Frame, offset: nat, line: seq<int>, n: nat)
    requires FrameInv(f) && Aligned(f.timing, f.clock, offset) && f.clock.line < 255 && |line| == n
    requires Corrects(n, offset) && Meets(f.timing, offset, n)
    ensures var f' := Resync(Run(freq, f, offset, Samples(line)), offset);
            && FrameInv(f') && Aligned(f'.timing, f'.clock, offset) && f'.clock.line == f.clock.line + 1
            && f'.timing.scale == CorrectedScale(f.timing.scale, n, offset)
  {
    RunTicks(freq, f, offset, line);
    NextSync(f.timing, f.clock, offset, n);
    SetAgain(Run(freq, f, offset, Samples(line)), offset, n);
  }

  /** A transmission of constant line length behind a sync: if the decoder's line at the present scale and at the
      target meets the syncs, every sync sets the clock again, and the scale goes the way of ScaleAfter, whatever
      the samples. */
  lemma {:induction false} ConstantLines(freq: Oracle, f: Frame, offset: nat, lines: seq<seq<int>>, n: nat)
    requires FrameInv(f) && Aligned(f.timing, f.clock, offset) && f.clock.line + |lines| <= 255
    requires KeepsMeeting(f.timing.scale, n, offset) && forall i :: 0 <= i < |lines| ==> |lines[i]| == n
    ensures var f' := AfterLines(freq, f, offset, lines);
            && FrameInv(f') && Aligned(f'.timing, f'.clock, offset) && f'.clock.line == f.clock.line + |lines|
            && f'.timing.scale == ScaleAfter(f.timing.scale, n, offset, |lines|)
  {
    if lines != [] {
      var k := |lines| - 1;
      ConstantLines(freq, f, offset, lines[..k], n);
      MeetsAlways(f.timing.scale, n, offset, k);
      OneMoreLine(freq, AfterLines(freq, f, offset, lines[..k]), offset, lines[k], n);
    }
  }

  lemma BeginsAligned(t: Timing, r: PixelRing, offset: nat)
    requires InScale(t.scale)
    ensures var f := Begin(t, r, offset);
            FrameInv(f) && Aligned(f.timing, f.clock, offset) && f.clock.line == 0 && f.timing.scale == t.scale
  {
    StartsRight(t, r, offset);
    ScaledLengths(t.scale);
    WholeLinesProduct(TimingOf(t.scale), 255);
  }

  /** A whole frame of lines shorter than nominal, from the nominal scale: the decoder, whose lines are too long
      already, is set again at every sync, and each correction makes its lines longer. */
  lemma ShortLinesLengthen(freq: Oracle, t: Timing, r: PixelRing, offset: nat, lines: seq<seq<int>>, n: nat)
    requires t.scale == 1.0 && 0 < |lines| <= 255 && forall i :: 0 <= i < |lines| ==> |lines[i]| == n
    requires KeepsMeeting(1.0, n, offset)
    ensures Shaped(Begin(t, r, offset))
    ensures var f := AfterLines(freq, Begin(t, r, offset), offset, lines);
            && f.clock.line == |lines| && n < LineLength(TimingOf(1.0)) == EXPECTED
            && f.timing.scale == ScaleAfter(1.0, n, offset, |lines|) && 1.0 < f.timing.scale <= Target(n, offset)
  {
    BeginsAligned(t, r, offset);
    ConstantLines(freq, Begin(t, r, offset), offset, lines, n);
    NominalLength();
    ShortLine(TimingOf(1.0), n, offset);
    WrongWay(n, offset);
    ScaleBetween(1.0, n, offset, |lines|);
  }

  lemma LengthsAt(r: real)
    requires r == 18882.0 / 18700.0
    ensures TimingOf(r) == Timing(r, 67, 400, 6155, 57)
  {
    assert 66.5 <= 66.0 * r < 66.7;
    assert 399.5 <= 396.0 * r < 400.0;
    assert 6155.0 <= 6096.0 * r < 6155.5;
  }

  lemma LengthsAtOne()
    ensures TimingOf(1.0) == Timing(1.0, 66, 396, 6096, 57)
  {
  }

  /** Such lines exist: at 18700 samples a line every sync is met on the whole way. */
  lemma SomeShortLines()
    ensures KeepsMeeting(1.0, 18700, 0) && Target(18700, 0) == 18882.0 / 18700.0
  {
    LengthsAtOne();
    LengthsAt(Target(18700, 0));
  }

  lemma NominalLength()
    ensures LineLength(TimingOf(1.0)) == EXPECTED
  {
  }

  lemma ShortLine(t: Timing, n: nat, offset: nat)
    requires SyncToEnd(t) > 0 && LineLength(t) == EXPECTED && Meets(t, offset, n)
    ensures n < EXPECTED && Fitting(n, offset) < 1.0
  {
    QuotientAboveOne(Adjusted(n, offset), EXPECTED);
  }

  // ----- the scale before the first frame

  /** The length `decode_scottie1` expects of a line. */
  const EXPECTED_LINE: nat := 18884

  /** The scale set from the measured line length before the picture is drawn. */
  function InitialScale(lineSamples: nat): (s: real)
    ensures InScale(s)
  {
    if lineSamples > 0 then ClampScale(EXPECTED_LINE as real / lineSamples as real) else 1.0
  }

  lemma QuotientFalls(e: nat, a: nat, b: nat)
    requires 0 < a <= b
    ensures e as real / b as real <= e as real / a as real
  {
    var x, y := e as real / a as real, e as real / b as real;
    Falls(x, y, a as real, b as real);
  }

  lemma Falls(x: real, y: real, a: real, b: real)
    requires 0.0 < a <= b && x * a == y * b && y >= 0.0
    ensures y <= x
  {
    assert a * (x - y) == y * (b - a);
    assert y * (b - a) >= 0.0;
    NonNegative(a, x - y);
  }

  /** The longer the lines are measured, the shorter the decoder takes them to be. */
  lemma LongerMeasuredShorterDrawn(a: nat, b: nat)
    requires 0 < a <= b
    ensures LineLength(TimingOf(InitialScale(b))) <= LineLength(TimingOf(InitialScale(a)))
    ensures InitialScale(a) == a as real / EXPECTED_LINE as real <==> a == EXPECTED_LINE
  {
    QuotientFalls(EXPECTED_LINE, a, b);
    LengthsGrow(InitialScale(b), InitialScale(a));
    QuotientAboveOne(EXPECTED_LINE, a);
    QuotientAboveOne(a, EXPECTED_LINE);
  }
}
