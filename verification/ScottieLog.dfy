/** Which samples every part of the picture comes from, whatever syncs come between: a log of the colour phases
    of a run, kept from the clock alone, and the proof that the decoder draws what the log says. */
module ScottieLog {
  import opened ScottieModel
  import opened ScottieClock
  import opened ScottieRuns
  import opened ScottiePicture

  // ----- the log

  /** A colour phase as far as it has run: the index in the run of its first sample, its samples, the lengths in
      force, and the position in the phase at which it began. */
  datatype Stretch = Unseen | Stretch(at: nat, ms: seq<int>, color: nat, window: nat, from: nat)

  datatype Stretches = Stretches(green: Stretch, blue: Stretch, red: Stretch)

  const NOTHING := Stretches(Unseen, Unseen, Unseen)

  /** A row drawn: its line and the line's phases. */
  datatype Row = Row(line: nat, parts: Stretches)

  datatype Log = Log(timing: Timing, clock: Clock, heard: seq<int>, parts: Stretches, rows: seq<Row>)

  function PartOf(ss: Stretches, p: Phase): Stretch {
    if p == Green then ss.green else if p == Blue then ss.blue else ss.red
  }

  function WithPart(ss: Stretches, p: Phase, s: Stretch): Stretches {
    if p == Green then ss.(green := s) else if p == Blue then ss.(blue := s) else ss.(red := s)
  }

  function Starting(t: Timing, at: nat, from: nat): Stretch {
    Stretch(at, [], t.color, t.window, from)
  }

  function Grown(s: Stretch, mono: int): Stretch {
    if s.Stretch? then s.(ms := s.ms + [mono]) else s
  }

  /** The phases known once the clock has moved to `c`. */
  function Entered(t: Timing, ss: Stretches, before: Phase, c: Clock, at: nat): Stretches {
    if IsColor(c.phase) && c.phase != before then WithPart(ss, c.phase, Starting(t, at, c.phaseSamples)) else ss
  }

  /** The end of a line draws a row iff it is the first line of its row. */
  function Closing(l: Log, ss: Stretches): seq<Row> {
    if OutY(l.clock.line) == |l.rows| then l.rows + [Row(l.clock.line, ss)] else l.rows
  }

  /** The parts with the current one grown. */
  function Taking(l: Log, mono: int): Stretches {
    var p := l.clock.phase;
    if IsColor(p) then WithPart(l.parts, p, Grown(PartOf(l.parts, p), mono)) else l.parts
  }

  function LogSample(l: Log, mono: int): Log {
    var heard, c := l.heard + [mono], Tick(l.timing, l.clock);
    var p, ss := l.clock.phase, Taking(l, mono);
    if p == Red && c.phase != Red then
      Log(l.timing, c, heard, NOTHING, Closing(l, ss))
    else
      Log(l.timing, c, heard, Entered(l.timing, ss, p, c, |heard|), l.rows)
  }

  function LogSync(l: Log, offset: nat): Log
    requires Bounded(l.timing)
  {
    if !Resyncs(l.timing, l.clock) then
      l
    else
      var t := Retimed(l.timing, l.clock.lineSamples, offset);
      var c := Jump(t, l.clock.(lineSamples := 0), offset);
      Log(t, c, l.heard, Entered(t, l.parts, Blue, c, |l.heard|), l.rows)
  }

  function LogStart(t0: Timing, offset: nat): Log
    requires InScale(t0.scale)
  {
    var t := TimingOf(t0.scale);
    var c := Jump(t, Clock(Porch1, 0, 0, 0, false), offset);
    Log(t, c, [], Entered(t, NOTHING, Porch1, c, 0), [])
  }

  /** The log of a run. It looks at the clock and copies samples, and at nothing else. */
  function LogRun(t0: Timing, offset: nat, events: seq<Event>): (l: Log)
    requires InScale(t0.scale)
    ensures Bounded(l.timing)
  {
    if events == [] then
      ScaledLengths(t0.scale);
      LogStart(t0, offset)
    else
      var l := LogRun(t0, offset, events[..|events| - 1]);
      match events[|events| - 1]
      case Sample(mono) => LogSample(l, mono)
      case SyncMark => LogSync(l, offset)
  }

  // ----- what a stretch gives

  ghost predicate Proper(s: Stretch) {
    s.Stretch? ==> s.color >= WIDTH && s.window >= 2 && s.from <= s.color && |s.ms| <= PhaseLength(s.color, s.from)
  }

  /** The last pixel estimated. */
  function LastPixelOf(s: Stretch): int
    requires s.Stretch? && Proper(s)
  {
    if |s.ms| < s.window then -1 else Pixel(s.from + |s.ms| - 1, s.color)
  }

  /** One estimate for every pixel from the first whose window is full to the last that began, each from its
      own window of samples. */
  function StretchChannel(freq: Oracle, s: Stretch): (ch: Channel)
    requires Proper(s)
    ensures WellShaped(ch)
  {
    if s.Unseen? then
      Blank()
    else
      var first, last := FirstPixel(s.color, s.window, s.from), LastPixelOf(s);
      Channel(seq(WIDTH, p requires 0 <= p < WIDTH =>
                if first <= p <= last then PixelValue(freq, s.ms, p, s.color, s.window, s.from) else 0),
              seq(WIDTH, p requires 0 <= p < WIDTH => if first <= p <= last then 1 else 0))
  }

  ghost predicate AllProper(ss: Stretches) {
    Proper(ss.green) && Proper(ss.blue) && Proper(ss.red)
  }

  function LinesFrom(freq: Oracle, ss: Stretches): (ls: Lines)
    requires AllProper(ss)
    ensures AllWellShaped(ls)
  {
    Lines(StretchChannel(freq, ss.green), StretchChannel(freq, ss.blue), StretchChannel(freq, ss.red))
  }

  /** A phase in progress: ring and channel are what its samples make of an empty window and a blank channel. */
  ghost predicate RunsFrom(freq: Oracle, r0: PixelRing, r: PixelRing, ch: Channel, s: Stretch) {
    && s.Stretch? && Proper(s) && Waiting(r0) && |r0.buf| == s.window
    && (r, ch) == Exposures(freq, r0, Blank(), s.color, s.from, s.ms)
  }

  lemma RunsToChannel(freq: Oracle, r0: PixelRing, r: PixelRing, ch: Channel, s: Stretch)
    requires RunsFrom(freq, r0, r, ch, s)
    ensures ch == StretchChannel(freq, s)
  {
    if s.from < s.color {
      PartsDone(freq, r0, s.color, s.from, |s.ms|, s.ms);
      assert s.ms[..|s.ms|] == s.ms;
      EstimatedIsChannel(freq, ch, s);
    } else {
      BehindTheEnd(freq, r0, s);
      EstimatedIsChannel(freq, ch, s);
    }
  }

  lemma EstimatedIsChannel(freq: Oracle, ch: Channel, s: Stretch)
    requires s.Stretch? && Proper(s) && Estimated(freq, ch, LastPixelOf(s), s.color, s.window, s.from, s.ms)
    ensures ch == StretchChannel(freq, s)
  {
    var ch' := StretchChannel(freq, s);
    assert ch.count == ch'.count;
    assert ch.accum == ch'.accum;
  }

  /** A phase that begins at its very end sees one sample and estimates nothing. */
  lemma BehindTheEnd(freq: Oracle, r0: PixelRing, s: Stretch)
    requires s.Stretch? && Proper(s) && s.from == s.color && Waiting(r0) && |r0.buf| == s.window
    ensures Exposures(freq, r0, Blank(), s.color, s.from, s.ms).1 == Blank() && LastPixelOf(s) == -1
    ensures Estimated(freq, Blank(), -1, s.color, s.window, s.from, s.ms)
  {
    if s.ms != [] {
      assert s.ms[..0] == [] && |s.ms| == 1;
      PixelsBehind(s.color, s.color);
    }
  }

  /** One sample more. */
  lemma RunsOn(freq: Oracle, r0: PixelRing, r: PixelRing, ch: Channel, s: Stretch, mono: int)
    requires RunsFrom(freq, r0, r, ch, s) && |s.ms| < PhaseLength(s.color, s.from)
    ensures var (r', ch') := Expose(freq, r, ch, Pixel(s.from + |s.ms|, s.color), mono);
            RunsFrom(freq, r0, r', ch', Grown(s, mono))
  {
    assert (s.ms + [mono])[..|s.ms|] == s.ms;
  }

  // ----- the decoder follows the log

  ghost predicate InProgress(freq: Oracle, t: Timing, c: Clock, r: PixelRing, ch: Channel, s: Stretch) {
    && s.Stretch? && s.color == t.color && s.window == t.window && |s.ms| < PhaseLength(s.color, s.from)
    && c.phaseSamples == s.from + |s.ms|
    && exists r0 :: RunsFrom(freq, r0, r, ch, s)
  }

  /** A phase still to come has left nothing, one in progress is under way, one that is over has given its
      channel. */
  ghost predicate PartMatches(freq: Oracle, t: Timing, c: Clock, r: PixelRing, p: Phase, ch: Channel, s: Stretch) {
    && Proper(s)
    && (PhasesLeft(c.phase) > PhasesLeft(p) ==> s == Unseen && ch == Blank())
    && (c.phase == p ==> InProgress(freq, t, c, r, ch, s))
    && (PhasesLeft(c.phase) < PhasesLeft(p) ==> ch == StretchChannel(freq, s))
  }

  ghost predicate PartsMatch(freq: Oracle, t: Timing, c: Clock, r: PixelRing, ls: Lines, ss: Stretches) {
    && PartMatches(freq, t, c, r, Green, ls.green, ss.green)
    && PartMatches(freq, t, c, r, Blue, ls.blue, ss.blue)
    && PartMatches(freq, t, c, r, Red, ls.red, ss.red)
  }

  ghost predicate RowsMatch(freq: Oracle, o: Output, rows: seq<Row>) {
    && |o.renders| == |rows|
    && forall y: nat :: y < |rows| ==> RowMatches(freq, o.renders[y], rows[y])
  }

  ghost predicate RowMatches(freq: Oracle, r: Render, row: Row) {
    r.line == row.line && AllProper(row.parts) && r.lines == LinesFrom(freq, row.parts)
  }

  ghost predicate Follows(freq: Oracle, f: Frame, l: Log) {
    && f.timing == l.timing && f.clock == l.clock
    && PartsMatch(freq, f.timing, f.clock, f.ring, f.lines, l.parts)
    && RowsMatch(freq, f.out, l.rows)
  }

  lemma PhaseStarts(freq: Oracle, t: Timing, c: Clock, r: PixelRing, p: Phase, at: nat)
    requires Bounded(t) && IsColor(p) && c.phase == p && c.phaseSamples <= t.color
    requires Waiting(r) && |r.buf| == t.window
    ensures PartMatches(freq, t, c, r, p, Blank(), Starting(t, at, c.phaseSamples))
  {
    assert RunsFrom(freq, r, r, Blank(), Starting(t, at, c.phaseSamples));
  }

  /** A part that is not touched by a step that does not go back. */
  lemma OtherPart(freq: Oracle, t: Timing, c: Clock, r: PixelRing, t': Timing, c': Clock, r': PixelRing,
                  p: Phase, ch: Channel, s: Stretch)
    requires PartMatches(freq, t, c, r, p, ch, s) && c.phase != p && c'.phase != p
    requires PhasesLeft(c.phase) < PhasesLeft(p) ==> PhasesLeft(c'.phase) < PhasesLeft(p)
    requires PhasesLeft(c.phase) > PhasesLeft(p) ==>
               PhasesLeft(c'.phase) > PhasesLeft(p) || (s == Unseen && ch == Blank())
    ensures PartMatches(freq, t', c', r', p, ch, s)
  {
    PhasesDiffer(c.phase, p);
    PhasesDiffer(c'.phase, p);
  }

  lemma PhasesDiffer(p: Phase, q: Phase)
    ensures PhasesLeft(p) == PhasesLeft(q) <==> p == q
  {
  }

  // ----- phases without picture

  lemma PlainSample(freq: Oracle, f: Frame, l: Log, mono: int)
    requires FrameInv(f) && Follows(freq, f, l) && f.clock.phase != Idle && !IsColor(f.clock.phase)
    ensures Follows(freq, Step(freq, f, mono), LogSample(l, mono))
  {
    PlainPart(freq, f, mono, Green, l);
    PlainPart(freq, f, mono, Blue, l);
    PlainPart(freq, f, mono, Red, l);
  }

  lemma PlainPart(freq: Oracle, f: Frame, mono: int, p: Phase, l: Log)
    requires FrameInv(f) && Follows(freq, f, l) && f.clock.phase != Idle && !IsColor(f.clock.phase) && IsColor(p)
    ensures var f' := Step(freq, f, mono);
            var ss := Entered(l.timing, l.parts, f.clock.phase, f'.clock, |l.heard| + 1);
            PartMatches(freq, f'.timing, f'.clock, f'.ring, p, ChannelOf(f'.lines, p), PartOf(ss, p))
  {
    var f' := Step(freq, f, mono);
    assert f'.clock.phase == f.clock.phase || f'.clock.phase == Following(f.clock.phase);
    if f'.clock.phase == p {
      PhaseStarts(freq, f'.timing, f'.clock, f'.ring, p, |l.heard| + 1);
    } else {
      OtherPart(freq, f.timing, f.clock, f.ring, f'.timing, f'.clock, f'.ring, p,
                ChannelOf(f.lines, p), PartOf(l.parts, p));
    }
  }

  // ----- colour phases

  /** The phase in progress takes the sample. */
  lemma PartTakes(freq: Oracle, f: Frame, l: Log, mono: int)
    requires FrameInv(f) && Follows(freq, f, l) && IsColor(f.clock.phase)
    ensures var p := f.clock.phase;
            var (r, ls) := Exposed(freq, f, mono);
            var s := Grown(PartOf(l.parts, p), mono);
            && s.Stretch? && Proper(s) && s.color == f.timing.color && s.window == f.timing.window
            && f.clock.phaseSamples + 1 == s.from + |s.ms|
            && ChannelOf(ls, p) == StretchChannel(freq, s)
            && exists r0 :: RunsFrom(freq, r0, r, ChannelOf(ls, p), s)
  {
    var p := f.clock.phase;
    var s, ch := PartOf(l.parts, p), ChannelOf(f.lines, p);
    assert InProgress(freq, f.timing, f.clock, f.ring, ch, s);
    var r0 :| RunsFrom(freq, r0, f.ring, ch, s);
    RunsOn(freq, r0, f.ring, ch, s, mono);
    var (r, ls) := Exposed(freq, f, mono);
    RunsToChannel(freq, r0, r, ChannelOf(ls, p), Grown(s, mono));
  }

  lemma ColorPart(freq: Oracle, f: Frame, l: Log, mono: int, c: Clock, p: Phase)
    requires FrameInv(f) && Follows(freq, f, l) && IsColor(f.clock.phase) && IsColor(p)
    requires if c.phase == f.clock.phase
             then c.phaseSamples == f.clock.phaseSamples + 1 < f.timing.color
             else c.phase == Following(f.clock.phase) && f.clock.phase != Red
    ensures var (r, ls) := Exposed(freq, f, mono);
            PartMatches(freq, f.timing, c, r, p, ChannelOf(ls, p), PartOf(Taking(l, mono), p))
  {
    if p == f.clock.phase {
      PartTakes(freq, f, l, mono);
    } else {
      var (r, ls) := Exposed(freq, f, mono);
      OtherPart(freq, f.timing, f.clock, f.ring, f.timing, c, r, p, ChannelOf(f.lines, p), PartOf(l.parts, p));
    }
  }

  lemma ColorParts(freq: Oracle, f: Frame, l: Log, mono: int)
    requires FrameInv(f) && Follows(freq, f, l) && IsColor(f.clock.phase)
    requires f.clock.phase == Red ==> f.clock.phaseSamples + 1 < f.timing.color
    ensures var (r, ls) := Exposed(freq, f, mono);
            PartsMatch(freq, f.timing, Advance(f.timing, f.clock), r, ls, Taking(l, mono))
  {
    var c := Advance(f.timing, f.clock);
    ColorPart(freq, f, l, mono, c, Green);
    ColorPart(freq, f, l, mono, c, Blue);
    ColorPart(freq, f, l, mono, c, Red);
  }

  /** A sample of a colour phase inside a line. */
  lemma ColorSample(freq: Oracle, f: Frame, l: Log, mono: int)
    requires FrameInv(f) && Follows(freq, f, l) && IsColor(f.clock.phase)
    requires f.clock.phase == Red ==> f.clock.phaseSamples + 1 < f.timing.color
    ensures Follows(freq, Step(freq, f, mono), LogSample(l, mono))
  {
    var g := Counted(f);
    CountedFollows(freq, f, l);
    ColorParts(freq, g, l.(clock := g.clock), mono);
    InsideColor(freq, g, mono);
  }

  lemma InsideColor(freq: Oracle, f: Frame, mono: int)
    requires Shaped(f) && IsColor(f.clock.phase)
    requires f.clock.phase == Red ==> f.clock.phaseSamples + 1 < f.timing.color
    ensures var (r, ls) := Exposed(freq, f, mono);
            StepOn(freq, f, mono) == Frame(f.timing, Advance(f.timing, f.clock), r, ls, f.out)
  {
  }

  lemma CountedFollows(freq: Oracle, f: Frame, l: Log)
    requires FrameInv(f) && Follows(freq, f, l)
    ensures var g := Counted(f);
            FrameInv(g) && Follows(freq, g, l.(clock := g.clock))
  {
    assert Collected(Counted(f));
  }

  /** The last sample of a line: the row drawn is the one the log gives. */
  lemma LastSample(freq: Oracle, f: Frame, l: Log, mono: int)
    requires FrameInv(f) && Follows(freq, f, l)
    requires f.clock.phase == Red && f.clock.phaseSamples + 1 >= f.timing.color
    ensures Follows(freq, Step(freq, f, mono), LogSample(l, mono))
  {
    CountedFollows(freq, f, l);
    LastRow(freq, Counted(f), l.(clock := Counted(f).clock), mono);
    var f' := Step(freq, f, mono);
    assert f'.lines == BlankLines();
    NothingMatches(freq, f'.timing, f'.clock, f'.ring);
  }

  lemma NothingMatches(freq: Oracle, t: Timing, c: Clock, r: PixelRing)
    requires c.phase == Porch1 || c.phase == Idle
    ensures PartsMatch(freq, t, c, r, BlankLines(), NOTHING)
  {
  }

  lemma LastRow(freq: Oracle, f: Frame, l: Log, mono: int)
    requires FrameInv(f) && Follows(freq, f, l) && f.clock.phase == Red
    ensures RowsMatch(freq, Rendered(f.out, Exposed(freq, f, mono).1, f.clock.line), Closing(l, Taking(l, mono)))
  {
    PartTakes(freq, f, l, mono);
    var ls, ss := Exposed(freq, f, mono).1, Taking(l, mono);
    LineGiven(freq, ls, ss, f.lines, l.parts);
    RowDrawn(freq, f.out, l.rows, ls, ss, f.clock.line);
  }

  lemma LineGiven(freq: Oracle, ls: Lines, ss: Stretches, before: Lines, parts: Stretches)
    requires ls == before.(red := ls.red) && ss == parts.(red := ss.red) && AllProper(ss)
    requires ls.red == StretchChannel(freq, ss.red)
    requires before.green == StretchChannel(freq, parts.green) && before.blue == StretchChannel(freq, parts.blue)
    ensures ls == LinesFrom(freq, ss)
  {
  }

  lemma RowDrawn(freq: Oracle, o: Output, rows: seq<Row>, ls: Lines, ss: Stretches, line: nat)
    requires Drawn(o, line) && line < LINES && RowsMatch(freq, o, rows)
    requires AllProper(ss) && ls == LinesFrom(freq, ss)
    ensures var rows' := if OutY(line) == |rows| then rows + [Row(line, ss)] else rows;
            RowsMatch(freq, Rendered(o, ls, line), rows')
  {
    RowsAdvance(line);
  }

  // ----- syncs

  lemma SyncFollows(freq: Oracle, f: Frame, l: Log, offset: nat)
    requires FrameInv(f) && Follows(freq, f, l)
    ensures Follows(freq, Resync(f, offset), LogSync(l, offset))
  {
    if Resyncs(f.timing, f.clock) {
      SyncPart(freq, f, l, offset, Green);
      SyncPart(freq, f, l, offset, Blue);
      SyncPart(freq, f, l, offset, Red);
    }
  }

  lemma SyncPart(freq: Oracle, f: Frame, l: Log, offset: nat, p: Phase)
    requires FrameInv(f) && Follows(freq, f, l) && IsColor(p) && Resyncs(f.timing, f.clock)
    ensures var f' := Resync(f, offset);
            var ss := Entered(f'.timing, l.parts, Blue, f'.clock, |l.heard|);
            PartMatches(freq, f'.timing, f'.clock, f'.ring, p, ChannelOf(f'.lines, p), PartOf(ss, p))
  {
    var f' := Resync(f, offset);
    if p == Blue {
      InterruptedPart(freq, f, l, f');
    } else if f'.clock.phase == p {
      PhaseStarts(freq, f'.timing, f'.clock, f'.ring, p, |l.heard|);
    } else {
      OtherPart(freq, f.timing, f.clock, f.ring, f'.timing, f'.clock, f'.ring, p,
                ChannelOf(f.lines, p), PartOf(l.parts, p));
    }
  }

  /** Blue is cut off and keeps what it has. */
  lemma InterruptedPart(freq: Oracle, f: Frame, l: Log, f': Frame)
    requires Follows(freq, f, l) && f.clock.phase == Blue && f'.lines == f.lines
    requires f'.clock.phase in {Sync, Porch3, Red}
    ensures PartMatches(freq, f'.timing, f'.clock, f'.ring, Blue, f'.lines.blue, l.parts.blue)
  {
    var s, ch := l.parts.blue, f.lines.blue;
    assert InProgress(freq, f.timing, f.clock, f.ring, ch, s);
    var r0 :| RunsFrom(freq, r0, f.ring, ch, s);
    RunsToChannel(freq, r0, f.ring, ch, s);
  }

  // ----- whole runs

  lemma StartFollows(freq: Oracle, t0: Timing, r: PixelRing, offset: nat)
    requires InScale(t0.scale)
    ensures Follows(freq, Begin(t0, r, offset), LogStart(t0, offset))
  {
    ScaledLengths(t0.scale);
    var f := Begin(t0, r, offset);
    if f.clock.phase == Red {
      PhaseStarts(freq, f.timing, f.clock, f.ring, Red, 0);
    }
  }

  lemma SampleFollows(freq: Oracle, f: Frame, l: Log, mono: int)
    requires FrameInv(f) && Follows(freq, f, l)
    ensures Follows(freq, Step(freq, f, mono), LogSample(l, mono))
  {
    if f.clock.phase == Idle {
    } else if !IsColor(f.clock.phase) {
      PlainSample(freq, f, l, mono);
    } else if f.clock.phase == Red && f.clock.phaseSamples + 1 >= f.timing.color {
      LastSample(freq, f, l, mono);
    } else {
      ColorSample(freq, f, l, mono);
    }
  }

  /** The decoder, for every interleaving of samples and syncs, has collected and drawn what the log says. */
  lemma {:induction false} DecoderFollowsLog(freq: Oracle, t0: Timing, r: PixelRing, offset: nat, events: seq<Event>)
    requires InScale(t0.scale)
    ensures Shaped(Begin(t0, r, offset))
    ensures var f := Run(freq, Begin(t0, r, offset), offset, events);
            FrameInv(f) && Follows(freq, f, LogRun(t0, offset, events))
  {
    StartsRight(t0, r, offset);
    var start := Begin(t0, r, offset);
    RunKeeps(freq, start, offset, events);
    if events == [] {
      StartFollows(freq, t0, r, offset);
    } else {
      var before := events[..|events| - 1];
      DecoderFollowsLog(freq, t0, r, offset, before);
      var f, l := Run(freq, start, offset, before), LogRun(t0, offset, before);
      match events[|events| - 1]
      case Sample(mono) => SampleFollows(freq, f, l, mono);
      case SyncMark => SyncFollows(freq, f, l, offset);
    }
  }
}
