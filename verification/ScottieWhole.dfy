/** Whole lines and whole frames of Scottie1Decoder without resynchronisation: the picture as a function of
    the samples. */
module ScottieWhole {
  import opened ScottieModel
  import opened ScottieClock
  import opened ScottieRuns
  import opened ScottiePicture

  function Steps(freq: Oracle, f: Frame, ms: seq<int>): (f': Frame)
    requires Shaped(f)
    ensures Shaped(f') && f'.timing == f.timing
  {
    if ms == [] then f else Step(freq, Steps(freq, f, ms[..|ms| - 1]), ms[|ms| - 1])
  }

  lemma {:induction false} StepsConcat(freq: Oracle, f: Frame, a: seq<int>, b: seq<int>)
    requires Shaped(f)
    ensures Steps(freq, f, a + b) == Steps(freq, Steps(freq, f, a), b)
  {
    if b == [] {
      assert a + b == a;
    } else {
      StepsConcat(freq, f, a, b[..|b| - 1]);
      assert (a + b)[..|a + b| - 1] == a + b[..|b| - 1];
    }
  }

  lemma StepsSplit(freq: Oracle, f: Frame, ms: seq<int>, k: nat)
    requires Shaped(f) && k <= |ms|
    ensures Steps(freq, f, ms) == Steps(freq, Steps(freq, f, ms[..k]), ms[k..])
  {
    assert ms == ms[..k] + ms[k..];
    StepsConcat(freq, f, ms[..k], ms[k..]);
  }

  lemma StepsJoin(freq: Oracle, f: Frame, ms: seq<int>, a: nat, b: nat)
    requires Shaped(f) && a <= b <= |ms|
    ensures Steps(freq, f, ms[..b]) == Steps(freq, Steps(freq, f, ms[..a]), ms[a..b])
  {
    assert ms[..b] == ms[..a] + ms[a..b];
    StepsConcat(freq, f, ms[..a], ms[a..b]);
  }

  /** Running samples is a run of the event system without syncs. */
  lemma {:induction false} StepsAreARun(freq: Oracle, f: Frame, offset: nat, ms: seq<int>)
    requires Shaped(f)
    ensures Run(freq, f, offset, Samples(ms)) == Steps(freq, f, ms)
  {
    if ms != [] {
      assert Samples(ms)[..|ms| - 1] == Samples(ms[..|ms| - 1]);
      StepsAreARun(freq, f, offset, ms[..|ms| - 1]);
    }
  }

  // ----- one phase

  function Moved(c: Clock, n: nat): Clock {
    c.(phaseSamples := c.phaseSamples + n, lineSamples := c.lineSamples + n)
  }

  lemma {:induction false} PlainRun(freq: Oracle, f: Frame, ms: seq<int>)
    requires Shaped(f) && f.clock.phase != Idle && !IsColor(f.clock.phase)
    requires f.clock.phaseSamples + |ms| < Length(f.timing, f.clock.phase)
    ensures Steps(freq, f, ms) == f.(clock := Moved(f.clock, |ms|))
  {
    if ms != [] {
      PlainRun(freq, f, ms[..|ms| - 1]);
    }
  }

  /** A phase without picture, run to its end, only moves the clock and restarts the ring. */
  lemma PlainPhase(freq: Oracle, f: Frame, ms: seq<int>)
    requires Shaped(f) && f.clock.phase != Idle && !IsColor(f.clock.phase)
    requires |ms| > 0 && f.clock.phaseSamples + |ms| == Length(f.timing, f.clock.phase)
    ensures var f' := Steps(freq, f, ms);
            && f'.clock == Turn(Moved(f.clock, |ms|)) && f'.lines == f.lines && f'.out == f.out
            && (IsColor(f'.clock.phase) ==> Waiting(f'.ring))
  {
    PlainRun(freq, f, ms[..|ms| - 1]);
  }

  /** The decoder stands at the start of phase `p` of line `l`, with the lines and the output given. */
  ghost predicate At(f: Frame, t: Timing, p: Phase, l: nat, ls: Lines, o: Output) {
    && Shaped(f) && f.timing == t && f.clock.phase == p && f.clock.phaseSamples == 0
    && f.clock.line == l < LINES && !f.clock.done && f.lines == ls && f.out == o
    && (IsColor(p) ==> Waiting(f.ring))
  }

  /** Line `l` has ended with the lines `ls` collected. */
  ghost predicate Ended(f: Frame, t: Timing, l: nat, ls: Lines, o: Output) {
    && AllWellShaped(ls) && |o.image| == OUT_HEIGHT
    && Shaped(f) && f.timing == t && f.lines == BlankLines() && f.out == Rendered(o, ls, l)
    && f.clock.line == l + 1 && f.clock.phaseSamples == 0
    && (f.clock.done <==> l + 1 >= LINES)
    && f.clock.phase == (if l + 1 >= LINES then Idle else Porch1)
  }

  /** A colour phase is under way at position `from`, with nothing collected for it yet. */
  ghost predicate Beginning(f: Frame, p: Phase, from: nat) {
    && Shaped(f) && f.clock.phase == p && f.clock.phaseSamples == from <= f.timing.color && IsColor(p)
    && Waiting(f.ring) && ChannelOf(f.lines, p) == Blank()
  }

  /** The frame inside a colour phase. */
  function Inside(f: Frame, p: Phase, n: nat, x: (PixelRing, Channel)): Frame {
    f.(clock := Moved(f.clock, n), ring := x.0, lines := WithChannel(f.lines, p, x.1))
  }

  lemma ColorStep(freq: Oracle, f: Frame, p: Phase, n: nat, x: (PixelRing, Channel), mono: int)
    requires Shaped(f) && IsColor(p) && f.clock.phase == p && f.clock.phaseSamples + n + 1 < f.timing.color
    requires x.0.pos < |x.0.buf| == f.timing.window && WellShaped(x.1)
    ensures Shaped(Inside(f, p, n, x))
    ensures Step(freq, Inside(f, p, n, x), mono)
         == Inside(f, p, n + 1, Expose(freq, x.0, x.1, Pixel(f.clock.phaseSamples + n, f.timing.color), mono))
  {
  }

  lemma {:induction false} ColorRun(freq: Oracle, f: Frame, p: Phase, from: nat, ms: seq<int>)
    requires Beginning(f, p, from) && |ms| < PhaseLength(f.timing.color, from)
    ensures Steps(freq, f, ms)
         == Inside(f, p, |ms|, Exposures(freq, f.ring, Blank(), f.timing.color, from, ms))
  {
    if ms != [] {
      var n := |ms| - 1;
      ColorRun(freq, f, p, from, ms[..n]);
      ColorStep(freq, f, p, n, Exposures(freq, f.ring, Blank(), f.timing.color, from, ms[..n]), ms[n]);
    } else {
      assert WithChannel(f.lines, p, Blank()) == f.lines;
    }
  }

  /** The last sample of a colour phase. */
  lemma LastColorStep(freq: Oracle, g: Frame, p: Phase, mono: int, r: PixelRing, ch: Channel)
    requires Shaped(g) && g.clock.phase == p && IsColor(p) && g.clock.phaseSamples + 1 >= g.timing.color
    requires (r, ch) == Expose(freq, g.ring, ChannelOf(g.lines, p), Pixel(g.clock.phaseSamples, g.timing.color), mono)
    ensures var g' := Step(freq, g, mono);
            var ls := WithChannel(g.lines, p, ch);
            && AllWellShaped(ls) && g'.timing == g.timing
            && g'.clock == Turn(Moved(g.clock, 1))
            && g'.lines == (if p == Red then BlankLines() else ls)
            && g'.out == (if p == Red then Rendered(g.out, ls, g.clock.line) else g.out)
  {
    var h := Counted(g);
    assert Exposed(freq, h, mono) == (r, WithChannel(g.lines, p, ch));
    assert Advance(h.timing, h.clock) == Turn(Moved(g.clock, 1));
  }

  /** A colour phase has ended after `n` samples with the channel `ch`. */
  ghost predicate PhaseOver(f': Frame, f: Frame, p: Phase, n: nat, ch: Channel) {
    var ls := WithChannel(f.lines, p, ch);
    && AllWellShaped(ls) && |f.out.image| == OUT_HEIGHT
    && f'.clock == Turn(Moved(f.clock, n))
    && f'.lines == (if p == Red then BlankLines() else ls)
    && f'.out == (if p == Red then Rendered(f.out, ls, f.clock.line) else f.out)
  }

  lemma PhaseEnds(freq: Oracle, f: Frame, p: Phase, n: nat, x: (PixelRing, Channel), mono: int,
                  r: PixelRing, ch: Channel)
    requires Shaped(f) && f.clock.phase == p && IsColor(p) && f.clock.phaseSamples + n + 1 >= f.timing.color
    requires var g := f.(clock := Moved(f.clock, n), ring := x.0, lines := WithChannel(f.lines, p, x.1));
             Shaped(g) && (r, ch) == Expose(freq, x.0, x.1, Pixel(f.clock.phaseSamples + n, f.timing.color), mono)
    ensures var g := f.(clock := Moved(f.clock, n), ring := x.0, lines := WithChannel(f.lines, p, x.1));
            PhaseOver(Step(freq, g, mono), f, p, n + 1, ch)
  {
    var g := f.(clock := Moved(f.clock, n), ring := x.0, lines := WithChannel(f.lines, p, x.1));
    LastColorStep(freq, g, p, mono, r, ch);
  }

  /** A colour phase run from position `from` to its end. */
  lemma ColorPhase(freq: Oracle, f: Frame, p: Phase, from: nat, ms: seq<int>, ch: Channel)
    requires Beginning(f, p, from) && |ms| == PhaseLength(f.timing.color, from)
    requires ch == PhaseChannel(freq, ms, f.timing.color, f.timing.window, from)
    ensures PhaseOver(Steps(freq, f, ms), f, p, |ms|, ch)
  {
    var before := ms[..|ms| - 1];
    var x := Exposures(freq, f.ring, Blank(), f.timing.color, from, before);
    ColorRun(freq, f, p, from, before);
    var r := LastExposure(freq, f.ring, f.timing.color, from, ms, ch);
    PhaseEnds(freq, f, p, |before|, x, ms[|before|], r, ch);
  }

  lemma LastExposure(freq: Oracle, r0: PixelRing, color: nat, from: nat, ms: seq<int>, ch: Channel)
    returns (r: PixelRing)
    requires color >= WIDTH && Waiting(r0) && from <= color && |ms| == PhaseLength(color, from)
    requires ch == PhaseChannel(freq, ms, color, |r0.buf|, from)
    ensures var x := Exposures(freq, r0, Blank(), color, from, ms[..|ms| - 1]);
            (r, ch) == Expose(freq, x.0, x.1, Pixel(from + |ms| - 1, color), ms[|ms| - 1])
  {
    PhaseFillsChannel(freq, r0, color, from, ms);
    r := Exposures(freq, r0, Blank(), color, from, ms).0;
  }

  lemma PlainAt(freq: Oracle, f: Frame, t: Timing, p: Phase, l: nat, ls: Lines, o: Output, ms: seq<int>)
    requires At(f, t, p, l, ls, o) && p != Idle && !IsColor(p) && |ms| == Length(t, p)
    ensures At(Steps(freq, f, ms), t, Following(p), l, ls, o)
  {
    PlainPhase(freq, f, ms);
  }

  lemma ColorAt(freq: Oracle, f: Frame, t: Timing, p: Phase, l: nat, ls: Lines, o: Output, ms: seq<int>, ch: Channel)
    requires At(f, t, p, l, ls, o) && p in {Green, Blue} && |ms| == t.color && ChannelOf(ls, p) == Blank()
    requires ch == PhaseChannel(freq, ms, t.color, t.window, 0)
    ensures At(Steps(freq, f, ms), t, Following(p), l, WithChannel(ls, p, ch), o)
  {
    ColorPhase(freq, f, p, 0, ms, ch);
  }

  lemma RedAt(freq: Oracle, f: Frame, t: Timing, l: nat, ls: Lines, o: Output, ms: seq<int>, ch: Channel)
    requires At(f, t, Red, l, ls, o) && |ms| == t.color && ls.red == Blank()
    requires ch == PhaseChannel(freq, ms, t.color, t.window, 0)
    ensures Ended(Steps(freq, f, ms), t, l, ls.(red := ch), o)
  {
    ColorPhase(freq, f, Red, 0, ms, ch);
  }

  // ----- one line

  /** From the porch before Red to the end of the line. */
  lemma FromPorch3(freq: Oracle, f: Frame, t: Timing, l: nat, ls: Lines, o: Output, ms: seq<int>, red: Channel)
    requires At(f, t, Porch3, l, ls, o) && ls.red == Blank() && |ms| == t.porch + t.color
    requires red == PhaseChannel(freq, ms[t.porch..], t.color, t.window, 0)
    ensures Ended(Steps(freq, f, ms), t, l, ls.(red := red), o)
  {
    PlainAt(freq, f, t, Porch3, l, ls, o, ms[..t.porch]);
    StepsSplit(freq, f, ms, t.porch);
    RedAt(freq, Steps(freq, f, ms[..t.porch]), t, l, ls, o, ms[t.porch..], red);
  }

  /** From the sync pulse to the end of the line. */
  lemma FromSync(freq: Oracle, f: Frame, t: Timing, l: nat, ls: Lines, o: Output, ms: seq<int>, red: Channel)
    requires At(f, t, Sync, l, ls, o) && ls.red == Blank() && |ms| == t.sync + t.porch + t.color
    requires red == PhaseChannel(freq, ms[t.sync + t.porch..], t.color, t.window, 0)
    ensures Ended(Steps(freq, f, ms), t, l, ls.(red := red), o)
  {
    PlainAt(freq, f, t, Sync, l, ls, o, ms[..t.sync]);
    StepsSplit(freq, f, ms, t.sync);
    assert ms[t.sync..][t.porch..] == ms[t.sync + t.porch..];
    FromPorch3(freq, Steps(freq, f, ms[..t.sync]), t, l, ls, o, ms[t.sync..], red);
  }

  /** From the porch between Green and Blue to the sync pulse. */
  lemma FromPorch2(freq: Oracle, f: Frame, t: Timing, l: nat, ls: Lines, o: Output, ms: seq<int>, blue: Channel)
    requires At(f, t, Porch2, l, ls, o) && ls.blue == Blank() && |ms| == t.porch + t.color
    requires blue == PhaseChannel(freq, ms[t.porch..], t.color, t.window, 0)
    ensures At(Steps(freq, f, ms), t, Sync, l, ls.(blue := blue), o)
  {
    PlainAt(freq, f, t, Porch2, l, ls, o, ms[..t.porch]);
    StepsSplit(freq, f, ms, t.porch);
    ColorAt(freq, Steps(freq, f, ms[..t.porch]), t, Blue, l, ls, o, ms[t.porch..], blue);
  }

  /** From the start of the line to the porch between Green and Blue. */
  lemma FromPorch1(freq: Oracle, f: Frame, t: Timing, l: nat, ls: Lines, o: Output, ms: seq<int>, green: Channel)
    requires At(f, t, Porch1, l, ls, o) && ls.green == Blank() && |ms| == t.porch + t.color
    requires green == PhaseChannel(freq, ms[t.porch..], t.color, t.window, 0)
    ensures At(Steps(freq, f, ms), t, Porch2, l, ls.(green := green), o)
  {
    PlainAt(freq, f, t, Porch1, l, ls, o, ms[..t.porch]);
    StepsSplit(freq, f, ms, t.porch);
    ColorAt(freq, Steps(freq, f, ms[..t.porch]), t, Green, l, ls, o, ms[t.porch..], green);
  }

  /** A line, said directly: each channel from its own stretch of the line's samples. */
  function LineOf(freq: Oracle, t: Timing, ms: seq<int>): (ls: Lines)
    requires Bounded(t) && |ms| == LineLength(t)
    ensures AllWellShaped(ls)
  {
    var part := t.porch + t.color;
    Lines(PhaseChannel(freq, ms[t.porch..part], t.color, t.window, 0),
          PhaseChannel(freq, ms[part + t.porch..2 * part], t.color, t.window, 0),
          PhaseChannel(freq, ms[2 * part + t.sync + t.porch..], t.color, t.window, 0))
  }

  /** A whole line is decoded to exactly that. */
  lemma WholeLine(freq: Oracle, f: Frame, t: Timing, l: nat, o: Output, ms: seq<int>)
    requires At(f, t, Porch1, l, BlankLines(), o) && |ms| == LineLength(t)
    ensures Ended(Steps(freq, f, ms), t, l, LineOf(freq, t, ms), o)
  {
    var part, ls := t.porch + t.color, LineOf(freq, t, ms);
    LineSlices(t, ms);
    FullLine(freq, f, t, l, BlankLines(), o, ms, ls.green, ls.blue, ls.red);
  }

  lemma LineSlices(t: Timing, ms: seq<int>)
    requires |ms| == LineLength(t)
    ensures var part := t.porch + t.color;
            && ms[..part][t.porch..] == ms[t.porch..part]
            && ms[part..][..part][t.porch..] == ms[part + t.porch..2 * part]
            && ms[part..][part..][t.sync + t.porch..] == ms[2 * part + t.sync + t.porch..]
  {
    var part, behind := t.porch + t.color, t.sync + t.porch;
    TakeDrop(ms, 0, part, t.porch);
    assert ms[0..] == ms;
    TakeDrop(ms, part, part, t.porch);
    DropDropDrop(ms, part, part, behind);
  }

  lemma TakeDrop(ms: seq<int>, a: nat, b: nat, c: nat)
    requires a + b <= |ms| && c <= b
    ensures ms[a..][..b][c..] == ms[a + c..a + b]
  {
  }

  lemma DropDropDrop(ms: seq<int>, a: nat, b: nat, c: nat)
    requires a + b + c <= |ms|
    ensures ms[a..][b..][c..] == ms[a + b + c..]
  {
  }

  lemma FullLine(freq: Oracle, f: Frame, t: Timing, l: nat, ls: Lines, o: Output, ms: seq<int>,
                 green: Channel, blue: Channel, red: Channel)
    requires At(f, t, Porch1, l, ls, o) && ls == BlankLines() && |ms| == LineLength(t)
    requires var part := t.porch + t.color;
             && green == PhaseChannel(freq, ms[..part][t.porch..], t.color, t.window, 0)
             && blue == PhaseChannel(freq, ms[part..][..part][t.porch..], t.color, t.window, 0)
             && red == PhaseChannel(freq, ms[part..][part..][t.sync + t.porch..], t.color, t.window, 0)
    ensures Ended(Steps(freq, f, ms), t, l, Lines(green, blue, red), o)
  {
    var part := t.porch + t.color;
    FromPorch1(freq, f, t, l, ls, o, ms[..part], green);
    StepsSplit(freq, f, ms, part);
    StepsSplit(freq, Steps(freq, f, ms[..part]), ms[part..], part);
    HalfLine(freq, Steps(freq, f, ms[..part]), t, l, ls.(green := green), o,
             ms[part..][..part], ms[part..][part..], blue, red);
  }

  lemma HalfLine(freq: Oracle, f: Frame, t: Timing, l: nat, ls: Lines, o: Output, first: seq<int>, second: seq<int>,
                 blue: Channel, red: Channel)
    requires At(f, t, Porch2, l, ls, o) && ls.blue == Blank() && ls.red == Blank()
    requires |first| == t.porch + t.color && |second| == t.sync + t.porch + t.color
    requires blue == PhaseChannel(freq, first[t.porch..], t.color, t.window, 0)
    requires red == PhaseChannel(freq, second[t.sync + t.porch..], t.color, t.window, 0)
    ensures Ended(Steps(freq, Steps(freq, f, first), second), t, l, ls.(blue := blue, red := red), o)
  {
    FromPorch2(freq, f, t, l, ls, o, first, blue);
    FromSync(freq, Steps(freq, f, first), t, l, ls.(blue := blue), o, second, red);
  }

  // ----- the first line of a frame, from any offset

  /** The samples before the first line's Red, and the position at which it begins. */
  function Lead(t: Timing, offset: nat): nat {
    if offset < t.sync + t.porch then t.sync + t.porch - offset else 0
  }

  function RedFrom(t: Timing, offset: nat): (from: nat)
    ensures from <= t.color
  {
    if offset < t.sync + t.porch then 0
    else if offset - t.sync - t.porch < t.color then offset - t.sync - t.porch else t.color
  }

  function FirstLength(t: Timing, offset: nat): nat {
    Lead(t, offset) + PhaseLength(t.color, RedFrom(t, offset))
  }

  /** The decoder right after a frame start. */
  ghost predicate JustBegun(f: Frame, t: Timing, offset: nat) {
    && Shaped(f) && f.timing == t && f.clock == Jump(t, Clock(Porch1, 0, 0, 0, false), offset)
    && Waiting(f.ring) && f.lines == BlankLines() && f.out == BlankOutput()
  }

  lemma FirstLineRed(freq: Oracle, f: Frame, t: Timing, offset: nat, ms: seq<int>, red: Channel)
    requires JustBegun(f, t, offset) && offset >= t.sync + t.porch && |ms| == FirstLength(t, offset)
    requires red == PhaseChannel(freq, ms, t.color, t.window, RedFrom(t, offset))
    ensures Ended(Steps(freq, f, ms), t, 0, BlankLines().(red := red), BlankOutput())
  {
    ColorPhase(freq, f, Red, RedFrom(t, offset), ms, red);
  }

  lemma FirstLinePorch(freq: Oracle, f: Frame, t: Timing, offset: nat, ms: seq<int>, red: Channel)
    requires JustBegun(f, t, offset) && t.sync <= offset < t.sync + t.porch && |ms| == FirstLength(t, offset)
    requires red == PhaseChannel(freq, ms[Lead(t, offset)..], t.color, t.window, 0)
    ensures Ended(Steps(freq, f, ms), t, 0, BlankLines().(red := red), BlankOutput())
  {
    var k := Lead(t, offset);
    PartOfPlain(freq, f, t, ms[..k]);
    StepsSplit(freq, f, ms, k);
    RedAt(freq, Steps(freq, f, ms[..k]), t, 0, BlankLines(), BlankOutput(), ms[k..], red);
  }

  /** The rest of a phase without picture in the first line. */
  lemma PartOfPlain(freq: Oracle, f: Frame, t: Timing, ms: seq<int>)
    requires Shaped(f) && f.timing == t && f.clock.phase in {Sync, Porch3} && f.clock.line == 0 && !f.clock.done
    requires |ms| > 0 && f.clock.phaseSamples + |ms| == Length(t, f.clock.phase)
    ensures At(Steps(freq, f, ms), t, Following(f.clock.phase), 0, f.lines, f.out)
  {
    PlainPhase(freq, f, ms);
  }

  lemma FirstLineSync(freq: Oracle, f: Frame, t: Timing, offset: nat, ms: seq<int>, red: Channel)
    requires JustBegun(f, t, offset) && offset < t.sync && |ms| == FirstLength(t, offset)
    requires red == PhaseChannel(freq, ms[t.sync - offset..][t.porch..], t.color, t.window, 0)
    ensures Ended(Steps(freq, f, ms), t, 0, BlankLines().(red := red), BlankOutput())
  {
    var k := t.sync - offset;
    PartOfPlain(freq, f, t, ms[..k]);
    StepsSplit(freq, f, ms, k);
    FromPorch3(freq, Steps(freq, f, ms[..k]), t, 0, BlankLines(), BlankOutput(), ms[k..], red);
  }

  lemma FirstLine(freq: Oracle, f: Frame, t: Timing, offset: nat, ms: seq<int>, red: Channel)
    requires JustBegun(f, t, offset) && |ms| == FirstLength(t, offset)
    requires red == PhaseChannel(freq, ms[Lead(t, offset)..], t.color, t.window, RedFrom(t, offset))
    ensures Ended(Steps(freq, f, ms), t, 0, BlankLines().(red := red), BlankOutput())
  {
    if offset < t.sync {
      assert ms[t.sync - offset..][t.porch..] == ms[Lead(t, offset)..];
      FirstLineSync(freq, f, t, offset, ms, red);
    } else if offset < t.sync + t.porch {
      FirstLinePorch(freq, f, t, offset, ms, red);
    } else {
      assert ms[0..] == ms;
      FirstLineRed(freq, f, t, offset, ms, red);
    }
  }

  // ----- a whole frame

  /** Samples from the frame start to the end of line `l - 1`. */
  function LineEnd(t: Timing, offset: nat, l: nat): nat {
    if l == 0 then 0 else FirstLength(t, offset) + WholeLines(t, l - 1)
  }

  lemma {:induction false} LineEndsAscend(t: Timing, offset: nat, l: nat, m: nat)
    requires l <= m
    ensures LineEnd(t, offset, l) <= LineEnd(t, offset, m)
    ensures l == m || LineEnd(t, offset, l + 1) <= LineEnd(t, offset, m)
    decreases m
  {
    if l < m {
      LineEndsAscend(t, offset, l, m - 1);
    }
  }

  /** Line `l` of a frame, from the samples of the whole frame. Of the first line only what lies behind the
      offset is seen, and of its colours only Red. */
  function FrameLine(freq: Oracle, t: Timing, offset: nat, ms: seq<int>, l: nat): (ls: Lines)
    requires Bounded(t) && |ms| >= LineEnd(t, offset, l + 1)
    ensures AllWellShaped(ls)
  {
    if l == 0 then
      var red := ms[Lead(t, offset)..FirstLength(t, offset)];
      BlankLines().(red := PhaseChannel(freq, red, t.color, t.window, RedFrom(t, offset)))
    else
      LineOf(freq, t, ms[LineEnd(t, offset, l)..LineEnd(t, offset, l + 1)])
  }

  /** Every row drawn so far shows its line as the samples give it. */
  ghost predicate RowsShow(freq: Oracle, t: Timing, offset: nat, ms: seq<int>, o: Output, lines: nat)
    requires Bounded(t) && |ms| >= LineEnd(t, offset, lines)
  {
    forall y: nat :: y < |o.renders| ==>
      var r := o.renders[y];
      r.line < lines && LineEnd(t, offset, r.line + 1) <= |ms| && r.lines == FrameLine(freq, t, offset, ms, r.line)
  }

  lemma RowsShowRendered(freq: Oracle, t: Timing, offset: nat, ms: seq<int>, o: Output, lines: nat)
    requires Bounded(t) && |ms| >= LineEnd(t, offset, lines + 1) && |o.image| == OUT_HEIGHT
    requires |ms| >= LineEnd(t, offset, lines) && RowsShow(freq, t, offset, ms, o, lines)
    ensures RowsShow(freq, t, offset, ms, Rendered(o, FrameLine(freq, t, offset, ms, lines), lines), lines + 1)
  {
  }

  /** After `l >= 1` lines. */
  ghost predicate AfterLines(freq: Oracle, t: Timing, offset: nat, ms: seq<int>, f: Frame, l: nat)
    requires Bounded(t) && |ms| >= LineEnd(t, offset, l)
  {
    && (if l < LINES then At(f, t, Porch1, l, BlankLines(), f.out) else f.clock.done)
    && RowsShow(freq, t, offset, ms, f.out, l)
  }

  lemma FirstLineDecodes(freq: Oracle, t: Timing, f: Frame, offset: nat, ms: seq<int>)
    requires Bounded(t) && |ms| >= LineEnd(t, offset, 1) && JustBegun(f, t, offset)
    ensures AfterLines(freq, t, offset, ms, Steps(freq, f, ms[..LineEnd(t, offset, 1)]), 1)
  {
    var end := LineEnd(t, offset, 1);
    var ls := FrameLine(freq, t, offset, ms, 0);
    assert ms[..end][Lead(t, offset)..] == ms[Lead(t, offset)..end];
    FirstLine(freq, f, t, offset, ms[..end], ls.red);
    RowsShowRendered(freq, t, offset, ms, f.out, 0);
  }

  lemma NextLineDecodes(freq: Oracle, t: Timing, g: Frame, offset: nat, ms: seq<int>, l: nat)
    requires Bounded(t) && 1 <= l < LINES
    requires |ms| >= LineEnd(t, offset, l + 1) >= LineEnd(t, offset, l)
    requires AfterLines(freq, t, offset, ms, g, l)
    ensures var f := Steps(freq, g, ms[LineEnd(t, offset, l)..LineEnd(t, offset, l + 1)]);
            AfterLines(freq, t, offset, ms, f, l + 1)
  {
    WholeLine(freq, g, t, l, g.out, ms[LineEnd(t, offset, l)..LineEnd(t, offset, l + 1)]);
    RowsShowRendered(freq, t, offset, ms, g.out, l);
  }

  lemma OneMoreLine(freq: Oracle, t: Timing, f: Frame, offset: nat, ms: seq<int>, l: nat)
    requires Shaped(f) && Bounded(t) && 1 <= l < LINES
    requires |ms| >= LineEnd(t, offset, l + 1) >= LineEnd(t, offset, l)
    requires AfterLines(freq, t, offset, ms, Steps(freq, f, ms[..LineEnd(t, offset, l)]), l)
    ensures AfterLines(freq, t, offset, ms, Steps(freq, f, ms[..LineEnd(t, offset, l + 1)]), l + 1)
  {
    var start, end := LineEnd(t, offset, l), LineEnd(t, offset, l + 1);
    StepsJoin(freq, f, ms, start, end);
    NextLineDecodes(freq, t, Steps(freq, f, ms[..start]), offset, ms, l);
  }

  lemma {:induction false} LinesDecode(freq: Oracle, t: Timing, f: Frame, offset: nat, ms: seq<int>, l: nat)
    requires 1 <= l <= LINES && Bounded(t) && |ms| >= LineEnd(t, offset, l)
    requires JustBegun(f, t, offset)
    ensures AfterLines(freq, t, offset, ms, Steps(freq, f, ms[..LineEnd(t, offset, l)]), l)
    decreases l
  {
    if l == 1 {
      FirstLineDecodes(freq, t, f, offset, ms);
    } else {
      var k := l - 1;
      LineEndsAscend(t, offset, k, k + 1);
      LinesDecode(freq, t, f, offset, ms, k);
      OneMoreLine(freq, t, f, offset, ms, k);
    }
  }

  /** The whole frame, from any offset in the line: fed its samples, the decoder is done with the last of
      them, and row `y` of the image is the row of line ceil(4y/3), each of whose pixels is the intensity of
      its own window of samples. */
  lemma WholeFrame(freq: Oracle, t0: Timing, r: PixelRing, offset: nat, ms: seq<int>)
    requires InScale(t0.scale) && |ms| == FrameLength(TimingOf(t0.scale), offset)
    ensures Bounded(TimingOf(t0.scale)) && Shaped(Begin(t0, r, offset))
    ensures var t := TimingOf(t0.scale);
            var f := Steps(freq, Begin(t0, r, offset), ms);
            && f.clock.done
            && forall y: nat :: y < OUT_HEIGHT ==>
                 && LineEnd(t, offset, SourceLine(y) + 1) <= |ms|
                 && f.out.image[y] == RowOf(FrameLine(freq, t, offset, ms, SourceLine(y)))
  {
    var t := TimingOf(t0.scale);
    ScaledLengths(t0.scale);
    WholeLinesProduct(t, 255);
    assert LineEnd(t, offset, LINES) == |ms|;
    LinesDecode(freq, t, Begin(t0, r, offset), offset, ms, LINES);
    assert ms[..|ms|] == ms;
    var f := Steps(freq, Begin(t0, r, offset), ms);
    StepsAreARun(freq, Begin(t0, r, offset), offset, ms);
    FinishedFrameIsDrawn(freq, t0, r, offset, Samples(ms));
    forall y: nat | y < OUT_HEIGHT
      ensures LineEnd(t, offset, SourceLine(y) + 1) <= |ms|
      ensures f.out.image[y] == RowOf(FrameLine(freq, t, offset, ms, SourceLine(y)))
    {
      assert DrawnRow(f.out, y);
    }
  }

  /** A pixel of a channel that has run through the whole of its phase with the samples `ms`. */
  function Shown(freq: Oracle, t: Timing, ms: seq<int>, p: nat): nat
    requires Bounded(t)
  {
    if p >= FirstPixel(t.color, t.window, 0) then PixelValue(freq, ms, p, t.color, t.window, 0) else 0
  }

  /** Column `i` of a line's row, straight from the line's samples: pixel `i * 320 / 240`, with Green, Blue
      and Red each taken from their own stretch. */
  function PixelOf(freq: Oracle, t: Timing, line: seq<int>, i: nat): Rgb
    requires Bounded(t) && |line| == LineLength(t) && i < OUT_IMAGE_WIDTH
  {
    var part, p := t.porch + t.color, i * 320 / 240;
    Rgb(Shown(freq, t, line[2 * part + t.sync + t.porch..], p),
        Shown(freq, t, line[t.porch..part], p),
        Shown(freq, t, line[part + t.porch..2 * part], p))
  }

  lemma RowPixel(ls: Lines, i: nat)
    requires AllWellShaped(ls) && i < OUT_IMAGE_WIDTH
    ensures RowOf(ls)[PAD_X + i] == Color(ls, i * 320 / 240)
  {
  }

  lemma LinePixel(freq: Oracle, t: Timing, line: seq<int>, i: nat)
    requires Bounded(t) && |line| == LineLength(t) && i < OUT_IMAGE_WIDTH
    ensures RowOf(LineOf(freq, t, line))[PAD_X + i] == PixelOf(freq, t, line, i)
  {
    var part, p, ls := t.porch + t.color, i * 320 / 240, LineOf(freq, t, line);
    RowPixel(ls, i);
    MeanOfPhase(freq, ls.red, line[2 * part + t.sync + t.porch..], p, t.color, t.window, 0);
    MeanOfPhase(freq, ls.green, line[t.porch..part], p, t.color, t.window, 0);
    MeanOfPhase(freq, ls.blue, line[part + t.porch..2 * part], p, t.color, t.window, 0);
  }

  /** The picture shows column `i` of row `y` as the samples of the row's line give it. */
  ghost predicate ShowsPixel(freq: Oracle, t: Timing, offset: nat, ms: seq<int>, image: seq<seq<Rgb>>, y: nat, i: nat)
    requires Bounded(t) && i < OUT_IMAGE_WIDTH
  {
    var l := SourceLine(y);
    var start, end := LineEnd(t, offset, l), LineEnd(t, offset, l + 1);
    && start + LineLength(t) == end <= |ms|
    && y < |image| && |image[y]| == OUT_WIDTH
    && image[y][PAD_X + i] == PixelOf(freq, t, ms[start..end], i)
  }

  /** Down to the pixel: every column of every row below the first. */
  lemma WholeFramePixel(freq: Oracle, t0: Timing, r: PixelRing, offset: nat, ms: seq<int>, y: nat, i: nat)
    requires InScale(t0.scale) && |ms| == FrameLength(TimingOf(t0.scale), offset)
    requires 1 <= y < OUT_HEIGHT && i < OUT_IMAGE_WIDTH
    ensures Bounded(TimingOf(t0.scale)) && Shaped(Begin(t0, r, offset))
    ensures ShowsPixel(freq, TimingOf(t0.scale), offset, ms, Steps(freq, Begin(t0, r, offset), ms).out.image, y, i)
  {
    WholeFrame(freq, t0, r, offset, ms);
    RowShowsPixel(freq, TimingOf(t0.scale), offset, ms, Steps(freq, Begin(t0, r, offset), ms).out.image, y, i);
  }

  lemma RowShowsPixel(freq: Oracle, t: Timing, offset: nat, ms: seq<int>, image: seq<seq<Rgb>>, y: nat, i: nat)
    requires Bounded(t) && 1 <= y < |image| && i < OUT_IMAGE_WIDTH
    requires LineEnd(t, offset, SourceLine(y) + 1) <= |ms|
    requires image[y] == RowOf(FrameLine(freq, t, offset, ms, SourceLine(y)))
    ensures ShowsPixel(freq, t, offset, ms, image, y, i)
  {
    var l := SourceLine(y);
    assert l >= 1;
    LinePixel(freq, t, ms[LineEnd(t, offset, l)..LineEnd(t, offset, l + 1)], i);
  }
}
