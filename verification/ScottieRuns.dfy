/** What every run of Scottie1Decoder keeps, for any interleaving of samples and syncs behind the start of a
    frame, and what a finished frame has drawn. */
module ScottieRuns {
  import opened ScottieModel
  import opened ScottieClock

  datatype Event = Sample(mono: int) | SyncMark

  function React(freq: Oracle, f: Frame, offset: nat, e: Event): (f': Frame)
    requires Shaped(f)
    ensures Shaped(f')
  {
    match e
    case Sample(mono) => Step(freq, f, mono)
    case SyncMark => Resync(f, offset)
  }

  /** The decoder after a frame start and the given events. */
  function Run(freq: Oracle, f: Frame, offset: nat, events: seq<Event>): (f': Frame)
    requires Shaped(f)
    ensures Shaped(f')
  {
    if events == [] then f
    else React(freq, Run(freq, f, offset, events[..|events| - 1]), offset, events[|events| - 1])
  }

  // ----- the parts of the invariant

  /** Counts are 0 or 1, and a sum is at most 255 times its count. */
  ghost predicate Sound(ch: Channel) {
    && WellShaped(ch)
    && forall p :: 0 <= p < WIDTH ==> ch.count[p] <= 1 && ch.accum[p] <= 255 * ch.count[p]
  }

  /** Nothing is collected above pixel `last`. */
  ghost predicate EmptyAbove(ch: Channel, last: int) {
    && WellShaped(ch)
    && forall p :: 0 <= p < WIDTH && p > last ==> ch.count[p] == 0
  }

  /** A channel whose phase is still to come is empty; the one in progress is empty above the last pixel,
      which the phase has not passed. */
  ghost predicate Fresh(t: Timing, c: Clock, r: PixelRing, p: Phase, ch: Channel)
    requires t.color > 0
  {
    && (PhasesLeft(c.phase) > PhasesLeft(p) ==> EmptyAbove(ch, -1))
    && (c.phase == p ==> EmptyAbove(ch, r.last) && -1 <= r.last <= Pixel(c.phaseSamples, t.color))
  }

  ghost predicate Collected(f: Frame)
    requires f.timing.color > 0
  {
    forall p :: p in {Green, Blue, Red} ==>
      Sound(ChannelOf(f.lines, p)) && Fresh(f.timing, f.clock, f.ring, p, ChannelOf(f.lines, p))
  }

  /** The rows drawn once `lines` lines are complete. */
  function RowsAfter(lines: nat): nat {
    if lines == 0 then 0 else OutY(lines - 1) + 1
  }

  /** The first line that maps to output row `y`: 4y/3 rounded up. */
  function SourceLine(y: nat): nat {
    (4 * y + 2) / 3
  }

  /** Rows are drawn top down, each once, each from the first line that maps to it; the image shows them
      above the background. */
  ghost predicate Drawn(o: Output, lines: nat) {
    && |o.renders| == RowsAfter(lines) <= OUT_HEIGHT == |o.image|
    && o.lastY == |o.renders| - 1
    && (forall y: nat :: y < |o.renders| ==> DrawnRow(o, y))
    && (forall y: nat :: |o.renders| <= y < OUT_HEIGHT ==> o.image[y] == BlankRow())
  }

  ghost predicate DrawnRow(o: Output, y: nat)
    requires y < |o.renders| && y < |o.image|
  {
    var r := o.renders[y];
    r.y == y && r.line == SourceLine(y) && AllWellShaped(r.lines) && o.image[y] == RowOf(r.lines)
  }

  ghost predicate RingOk(r: PixelRing) {
    r.pos < |r.buf| && r.fill <= |r.buf| && -1 <= r.last < WIDTH
  }

  /** The invariant of every frame. */
  ghost predicate FrameInv(f: Frame) {
    && Shaped(f) && f.timing == TimingOf(f.timing.scale)
    && InFrame(f.timing, f.clock)
    && RingOk(f.ring)
    && Collected(f)
    && Drawn(f.out, f.clock.line)
  }

  // ----- it holds at the start

  lemma StartsRight(t: Timing, r: PixelRing, offset: nat)
    requires InScale(t.scale)
    ensures var f := Begin(t, r, offset); Shaped(f) && FrameInv(f)
  {
    ScaledLengths(t.scale);
    PixelBounds(Begin(t, r, offset).clock.phaseSamples, TimingOf(t.scale).color);
  }

  lemma PixelBounds(k: nat, color: nat)
    requires color > 0
    ensures Pixel(k, color) >= 0 && (k < color ==> Pixel(k, color) < WIDTH)
  {
    if k < color {
      QuotientBelow(k * WIDTH, WIDTH, color);
    }
  }

  lemma QuotientBelow(a: nat, q: nat, d: nat)
    requires d > 0 && a < q * d
    ensures a / d < q
  {
    var x := a / d;
    assert x * d <= a by {
      Quotient(a, d);
    }
    Below(a, q, d, x);
  }

  lemma Below(a: nat, q: nat, d: nat, x: nat)
    requires x * d <= a < q * d
    ensures x < q
  {
    Times(q, x, d);
  }

  lemma Quotient(a: nat, d: nat)
    requires d > 0
    ensures (a / d) * d <= a < (a / d + 1) * d
  {
    assert a == (a / d) * d + a % d;
    assert (a / d + 1) * d == (a / d) * d + d;
  }

  lemma {:induction false} Times(a: nat, b: nat, d: nat)
    ensures a <= b ==> a * d <= b * d
    decreases b
  {
    if a < b {
      Times(a, b - 1, d);
    }
  }

  /** Pixels come in order: one sample on, the pixel is the same or the next. */
  lemma PixelSteps(k: nat, color: nat)
    requires color >= WIDTH
    ensures Pixel(k, color) <= Pixel(k + 1, color) <= Pixel(k, color) + 1
  {
    var a, q := k * WIDTH, Pixel(k, color);
    var r := a % color;
    assert a == q * color + r;
    assert (k + 1) * WIDTH == q * color + (r + WIDTH);
    QuotientNear(q, r + WIDTH, color);
  }

  lemma QuotientNear(q: nat, r: nat, d: nat)
    requires d > 0 && r < 2 * d
    ensures q <= (q * d + r) / d <= q + 1
    ensures r < d ==> (q * d + r) / d == q
  {
    var x := (q * d + r) / d;
    Quotient(q * d + r, d);
    Times(x + 1, q, d);
    Times(q + 1, x, d);
    Times(q + 2, x, d);
    assert (q + 1) * d == q * d + d && (q + 2) * d == q * d + 2 * d;
  }

  // ----- samples and syncs keep it

  lemma ExposeKeeps(freq: Oracle, r: PixelRing, ch: Channel, pixel: nat, mono: int)
    requires RingOk(r) && Sound(ch) && EmptyAbove(ch, r.last) && r.last <= pixel
    ensures var (r', ch') := Expose(freq, r, ch, pixel, mono);
            RingOk(r') && Sound(ch') && EmptyAbove(ch', r'.last) && r'.last <= pixel
  {
  }

  /** Channels of a colour phase that goes on or ends, but not of the end of a line. */
  lemma ColorKeeps(freq: Oracle, f: Frame, mono: int, c: Clock)
    requires FrameInv(f) && IsColor(f.clock.phase)
    requires if c.phase == f.clock.phase then c.phaseSamples == f.clock.phaseSamples + 1
             else c.phase == Following(f.clock.phase) && f.clock.phase != Red
    ensures var (r, ls) := Exposed(freq, f, mono);
            RingOk(r) && Collected(f.(clock := c, ring := r, lines := ls))
  {
    var phase := f.clock.phase;
    var pixel := Pixel(f.clock.phaseSamples, f.timing.color);
    var ch := ChannelOf(f.lines, phase);
    assert Fresh(f.timing, f.clock, f.ring, phase, ch);
    ExposeKeeps(freq, f.ring, ch, pixel, mono);
    PixelSteps(f.clock.phaseSamples, f.timing.color);
    var (r, ls) := Exposed(freq, f, mono);
    forall p | p in {Green, Blue, Red}
      ensures Sound(ChannelOf(ls, p)) && Fresh(f.timing, c, r, p, ChannelOf(ls, p))
    {
      assert Sound(ChannelOf(f.lines, p)) && Fresh(f.timing, f.clock, f.ring, p, ChannelOf(f.lines, p));
      if p != phase {
        assert ChannelOf(ls, p) == ChannelOf(f.lines, p);
      }
    }
  }

  /** Phases without picture: the ring restarts when a colour phase begins. */
  lemma PlainKeeps(f: Frame, c: Clock)
    requires FrameInv(f) && !IsColor(f.clock.phase) && f.clock.phase != Idle
    requires c.phase == f.clock.phase || (c.phase == Following(f.clock.phase) && c.phaseSamples == 0)
    ensures var r := if IsColor(c.phase) then Restarted(f.ring) else f.ring;
            RingOk(r) && Collected(f.(clock := c, ring := r))
  {
    var r := if IsColor(c.phase) then Restarted(f.ring) else f.ring;
    PixelBounds(0, f.timing.color);
    forall p | p in {Green, Blue, Red}
      ensures Fresh(f.timing, c, r, p, ChannelOf(f.lines, p))
    {
      assert Fresh(f.timing, f.clock, f.ring, p, ChannelOf(f.lines, p));
    }
  }

  /** The end of a line draws the next row or none. */
  lemma RenderKeeps(o: Output, ls: Lines, line: nat)
    requires Drawn(o, line) && line < LINES && AllWellShaped(ls)
    ensures Drawn(Rendered(o, ls, line), line + 1)
  {
    var y := OutY(line);
    RowsAdvance(line);
    var o' := Rendered(o, ls, line);
    if y != o.lastY {
      forall k: nat | k < |o'.renders|
        ensures DrawnRow(o', k)
      {
        if k < y {
          assert DrawnRow(o, k);
        }
      }
    }
  }

  lemma RowsAdvance(line: nat)
    requires line < LINES
    ensures OutY(line) < OUT_HEIGHT && RowsAfter(line + 1) == OutY(line) + 1
    ensures OutY(line) == RowsAfter(line) - 1 || (OutY(line) == RowsAfter(line) && SourceLine(OutY(line)) == line)
  {
  }

  lemma StepKeeps(freq: Oracle, f: Frame, mono: int)
    requires FrameInv(f)
    ensures FrameInv(Step(freq, f, mono))
    ensures Step(freq, f, mono).clock == Tick(f.timing, f.clock) && Step(freq, f, mono).timing == f.timing
  {
    TickCounts(f.timing, f.clock);
    var f' := Step(freq, f, mono);
    if f.clock.phase != Idle {
      if IsColor(f.clock.phase) {
        ColorStepKeeps(freq, Counted(f), mono);
      } else {
        PlainKeeps(Counted(f), f'.clock);
      }
    }
  }

  lemma ColorStepKeeps(freq: Oracle, f: Frame, mono: int)
    requires FrameInv(f) && IsColor(f.clock.phase)
    ensures var f' := StepOn(freq, f, mono); RingOk(f'.ring) && Collected(f') && Drawn(f'.out, f'.clock.line)
  {
    var f' := StepOn(freq, f, mono);
    if f.clock.phase == Red && f'.clock.phase != Red {
      RenderKeeps(f.out, Exposed(freq, f, mono).1, f.clock.line);
      LineEndKeeps(freq, f, mono);
    } else {
      ColorKeeps(freq, f, mono, f'.clock);
    }
  }

  lemma LineEndKeeps(freq: Oracle, f: Frame, mono: int)
    requires FrameInv(f) && f.clock.phase == Red
    requires var f' := StepOn(freq, f, mono); f'.clock.phase != Red
    ensures var f' := StepOn(freq, f, mono); RingOk(f'.ring) && Collected(f')
  {
    var f' := StepOn(freq, f, mono);
    assert Fresh(f.timing, f.clock, f.ring, Red, ChannelOf(f.lines, Red));
    ExposeKeeps(freq, f.ring, f.lines.red, Pixel(f.clock.phaseSamples, f.timing.color), mono);
    assert f'.lines == BlankLines();
    PixelBounds(0, f.timing.color);
  }

  lemma ResyncKeeps(f: Frame, offset: nat)
    requires FrameInv(f)
    ensures FrameInv(Resync(f, offset))
  {
    if Resyncs(f.timing, f.clock) {
      var t := Retimed(f.timing, f.clock.lineSamples, offset);
      var f' := Resync(f, offset);
      JumpDescends(f.timing, t, f.clock, offset);
      PixelBounds(f'.clock.phaseSamples, t.color);
      forall p | p in {Green, Blue, Red}
        ensures Fresh(t, f'.clock, f'.ring, p, ChannelOf(f'.lines, p))
      {
        assert Fresh(f.timing, f.clock, f.ring, p, ChannelOf(f.lines, p));
      }
    }
  }

  /** Every run of a frame keeps the invariant. */
  lemma {:induction false} RunKeeps(freq: Oracle, f: Frame, offset: nat, events: seq<Event>)
    requires FrameInv(f)
    ensures FrameInv(Run(freq, f, offset, events))
  {
    if events != [] {
      var before := events[..|events| - 1];
      RunKeeps(freq, f, offset, before);
      match events[|events| - 1]
      case Sample(mono) => StepKeeps(freq, Run(freq, f, offset, before), mono);
      case SyncMark => ResyncKeeps(Run(freq, f, offset, before), offset);
    }
  }

  // ----- the theorems

  /** From a frame start on, whatever samples and syncs come: the scale stays in [0.95, 1.05] and the
      lengths are those it gives, with more than 320 samples in a colour phase; positions stay in their
      phase; ring indices stay in range; every count is 0 or 1 and every sum at most 255 times its count;
      and the frame is done iff 256 lines are. */
  lemma EveryRunIsSafe(freq: Oracle, t: Timing, r: PixelRing, offset: nat, events: seq<Event>)
    requires InScale(t.scale)
    ensures Shaped(Begin(t, r, offset))
    ensures var f := Run(freq, Begin(t, r, offset), offset, events);
            && InScale(f.timing.scale) && f.timing == TimingOf(f.timing.scale) && f.timing.color > WIDTH
            && (f.clock.phase != Idle ==> f.clock.phaseSamples <= Length(f.timing, f.clock.phase))
            && (f.clock.phase !in {Idle, Red} ==> f.clock.phaseSamples < Length(f.timing, f.clock.phase))
            && |f.ring.buf| == f.timing.window && f.ring.pos < |f.ring.buf| && f.ring.fill <= |f.ring.buf|
            && Sound(f.lines.green) && Sound(f.lines.blue) && Sound(f.lines.red)
            && (f.clock.done <==> f.clock.line == LINES)
  {
    StartsRight(t, r, offset);
    RunKeeps(freq, Begin(t, r, offset), offset, events);
    var f := Run(freq, Begin(t, r, offset), offset, events);
    assert Sound(ChannelOf(f.lines, Green)) && Sound(ChannelOf(f.lines, Blue)) && Sound(ChannelOf(f.lines, Red));
  }

  /** A finished frame has drawn all 192 rows, once each and top down, row `y` from line ceil(4y/3), and the
      image shows each as it was drawn. */
  lemma FinishedFrameIsDrawn(freq: Oracle, t: Timing, r: PixelRing, offset: nat, events: seq<Event>)
    requires InScale(t.scale)
    ensures Shaped(Begin(t, r, offset))
    ensures var f := Run(freq, Begin(t, r, offset), offset, events);
            f.clock.done ==>
              && |f.out.renders| == OUT_HEIGHT
              && forall y: nat :: y < OUT_HEIGHT ==> DrawnRow(f.out, y)
  {
    StartsRight(t, r, offset);
    RunKeeps(freq, Begin(t, r, offset), offset, events);
    assert RowsAfter(LINES) == OUT_HEIGHT;
  }

  /** Every event goes down the order (lines left, phases left, samples left) or, for a sync, leaves the
      decoder as it is; so no colour phase of a line can run twice. */
  lemma EveryEventDescends(freq: Oracle, f: Frame, offset: nat, e: Event)
    requires FrameInv(f)
    ensures var f' := React(freq, f, offset, e);
            && (e.Sample? && f.clock.phase != Idle ==> Lower(f'.timing, f'.clock, f.timing, f.clock))
            && (e.SyncMark? ==> f' == f || Lower(f'.timing, f'.clock, f.timing, f.clock))
            && f.clock.line <= f'.clock.line <= f.clock.line + 1
            && (f'.clock.line > f.clock.line ==> f.clock.phase == Red)
  {
    match e
    case Sample(mono) =>
      StepKeeps(freq, f, mono);
      if f.clock.phase != Idle {
        TickDescends(f.timing, f.clock);
      }
    case SyncMark =>
      if Resyncs(f.timing, f.clock) {
        JumpDescends(f.timing, Retimed(f.timing, f.clock.lineSamples, offset), f.clock, offset);
      }
  }

  /** Line and phase as one number that falls as the frame goes on. */
  function Rank(c: Clock): int {
    8 * (LINES - c.line) + PhasesLeft(c.phase)
  }

  lemma {:induction false} RankFalls(freq: Oracle, f: Frame, offset: nat, events: seq<Event>, i: nat)
    requires FrameInv(f) && i <= |events|
    ensures Rank(Run(freq, f, offset, events).clock) <= Rank(Run(freq, f, offset, events[..i]).clock)
    decreases |events|
  {
    if i < |events| {
      var before := events[..|events| - 1];
      assert before[..i] == events[..i];
      RankFalls(freq, f, offset, before, i);
      RunKeeps(freq, f, offset, before);
      EveryEventDescends(freq, Run(freq, f, offset, before), offset, events[|events| - 1]);
    } else {
      assert events[..i] == events;
    }
  }

  /** Each phase of each line runs at most once, resynchronisation included: a decoder found twice in the
      same phase of the same line has not left it in between. */
  lemma PhasesRunOnce(freq: Oracle, f: Frame, offset: nat, events: seq<Event>, i: nat, j: nat)
    requires FrameInv(f) && i <= j <= |events|
    requires var a, c := Run(freq, f, offset, events[..i]).clock, Run(freq, f, offset, events).clock;
             a.line == c.line && a.phase == c.phase
    ensures var a, b := Run(freq, f, offset, events[..i]).clock, Run(freq, f, offset, events[..j]).clock;
            a.line == b.line && a.phase == b.phase
  {
    RankFalls(freq, f, offset, events, j);
    assert events[..j][..i] == events[..i];
    RankFalls(freq, f, offset, events[..j], i);
    var a, b := Run(freq, f, offset, events[..i]).clock, Run(freq, f, offset, events[..j]).clock;
    assert Rank(a) == Rank(b);
    RankTells(a, b);
  }

  lemma RankTells(a: Clock, b: Clock)
    requires Rank(a) == Rank(b)
    ensures a.line == b.line && a.phase == b.phase
  {
    assert PhasesLeft(a.phase) < 8 && PhasesLeft(b.phase) < 8;
  }

  /** A resynchronisation realigns the frame: wherever in Blue the decoder stood, it now has as many samples
      before it as a frame that starts at this sync, less the lines already done. */
  lemma ResyncRealigns(f: Frame, offset: nat)
    requires FrameInv(f) && Resyncs(f.timing, f.clock)
    ensures var f' := Resync(f, offset);
            Remaining(f'.timing, f'.clock) + f.clock.line * LineLength(f'.timing) == FrameLength(f'.timing, offset)
  {
    var t := Resync(f, offset).timing;
    var l, n := f.clock.line, LINES - 1 - f.clock.line;
    WholeLinesProduct(t, n);
    Split255(l, n, LineLength(t));
  }

  lemma Split255(l: nat, n: nat, length: nat)
    requires l + n == 255
    ensures n * length + l * length == 255 * length
  {
    assert (n + l) * length == n * length + l * length;
  }

  function SampleCount(events: seq<Event>): nat {
    if events == [] then 0
    else SampleCount(events[..|events| - 1]) + if events[|events| - 1].Sample? then 1 else 0
  }

  lemma {:induction false} BudgetAfter(freq: Oracle, f: Frame, offset: nat, events: seq<Event>)
    requires FrameInv(f)
    ensures var f' := Run(freq, f, offset, events);
            FrameInv(f') && (f'.clock.done || Budget(f'.clock) + SampleCount(events) <= Budget(f.clock))
  {
    if events != [] {
      var before := events[..|events| - 1];
      BudgetAfter(freq, f, offset, before);
      var g := Run(freq, f, offset, before);
      match events[|events| - 1]
      case Sample(mono) =>
        StepKeeps(freq, g, mono);
        if !g.clock.done {
          TickSpends(g.timing, g.clock);
        }
      case SyncMark =>
        ResyncKeeps(g, offset);
        if Resyncs(g.timing, g.clock) {
          JumpSpends(g.timing, Retimed(g.timing, g.clock.lineSamples, offset), g.clock, offset);
        }
    }
  }

  /** Whatever the syncs do to the timing, a frame is over after at most LONGEST_FRAME samples. */
  lemma EveryFrameEnds(freq: Oracle, t: Timing, r: PixelRing, offset: nat, events: seq<Event>)
    requires InScale(t.scale) && SampleCount(events) >= LONGEST_FRAME
    ensures Shaped(Begin(t, r, offset)) && Run(freq, Begin(t, r, offset), offset, events).clock.done
  {
    StartsRight(t, r, offset);
    var f := Begin(t, r, offset);
    BudgetAfter(freq, f, offset, events);
    BudgetBound(f.clock);
    var last := Run(freq, f, offset, events);
    if !last.clock.done {
      TickSpends(last.timing, last.clock);
    }
  }

  /** Without a later sync the frame is done after exactly FrameLength samples and not before. */
  lemma FrameTiming(freq: Oracle, t: Timing, r: PixelRing, offset: nat, monos: seq<int>)
    requires InScale(t.scale)
    ensures Shaped(Begin(t, r, offset))
    ensures var f := Run(freq, Begin(t, r, offset), offset, Samples(monos));
            f.clock.done <==> |monos| >= FrameLength(TimingOf(t.scale), offset)
  {
    StartsRight(t, r, offset);
    var f := Begin(t, r, offset);
    ScaledLengths(t.scale);
    RunTicks(freq, f, offset, monos);
    FrameTakes(f.timing, offset, |monos|);
  }

  function Samples(monos: seq<int>): (es: seq<Event>)
    ensures |es| == |monos|
  {
    seq(|monos|, i requires 0 <= i < |monos| => Sample(monos[i]))
  }

  lemma {:induction false} RunTicks(freq: Oracle, f: Frame, offset: nat, monos: seq<int>)
    requires FrameInv(f)
    ensures var f' := Run(freq, f, offset, Samples(monos));
            FrameInv(f') && f'.timing == f.timing && f'.clock == Ticks(f.timing, f.clock, |monos|)
  {
    if monos != [] {
      var before := monos[..|monos| - 1];
      RunTicks(freq, f, offset, before);
      assert Samples(monos)[..|monos| - 1] == Samples(before);
      StepKeeps(freq, Run(freq, f, offset, Samples(before)), monos[|monos| - 1]);
    }
  }
}
