/** The state of Scottie1Decoder (tools/sstv_offline_decode.py) and what one sample or one sync does to it.
    Floating-point numbers are taken as reals; the frequency estimate of a window is the oracle `freq`. */
module ScottieModel {
  import Ring

  const WIDTH: nat := 320
  const LINES: nat := 256
  const OUT_WIDTH: nat := 288
  const OUT_HEIGHT: nat := 192
  const OUT_IMAGE_WIDTH: nat := 240
  const PAD_X: nat := (OUT_WIDTH - OUT_IMAGE_WIDTH) / 2

  const BASE_PORCH: nat := 66
  const BASE_SYNC: nat := 396
  const BASE_COLOR: nat := 6096

  /** 1.5, 9 and 138.24 ms at 44100 samples a second, truncated. */
  lemma BaseLengths()
    ensures BASE_PORCH == (44100.0 * (1.5 / 1000.0)).Floor
    ensures BASE_SYNC == (44100.0 * (9.0 / 1000.0)).Floor
    ensures BASE_COLOR == (44100.0 * (138.24 / 1000.0)).Floor
  {
  }

  // ----- timing

  /** The lengths in samples that a timing scale gives. */
  datatype Timing = Timing(scale: real, porch: nat, sync: nat, color: nat, window: nat)

  /** Python's `int(base * scale + 0.5)`. */
  function Scaled(base: nat, scale: real): (n: nat)
    requires scale >= 0.0
  {
    (base as real * scale + 0.5).Floor
  }

  /** The nearest whole number of samples, the larger of two. */
  lemma ScaledIsNearest(base: nat, scale: real)
    requires scale >= 0.0
    ensures base as real * scale - 0.5 < Scaled(base, scale) as real <= base as real * scale + 0.5
  {
  }

  /** `calc_pixel_window_samples`. */
  function WindowSamples(color: nat): (n: nat)
    ensures 8 <= n <= 64
  {
    var n := ((color as real / 320.0) * 3.0).Floor;
    if n < 8 then 8 else if n > 64 then 64 else n
  }

  function TimingOf(scale: real): Timing
    requires scale >= 0.0
  {
    var color := Scaled(BASE_COLOR, scale);
    Timing(scale, Scaled(BASE_PORCH, scale), Scaled(BASE_SYNC, scale), color, WindowSamples(color))
  }

  predicate InScale(scale: real) {
    0.95 <= scale <= 1.05
  }

  /** What the lengths can be: a colour phase has more samples than a line has pixels, and the window is
      no longer than the phase. */
  ghost predicate Bounded(t: Timing) {
    && InScale(t.scale)
    && 63 <= t.porch <= 69 && 376 <= t.sync <= 416 && 5791 <= t.color <= 6401 && 54 <= t.window <= 60
  }

  lemma ScaledLengths(scale: real)
    requires InScale(scale)
    ensures Bounded(TimingOf(scale))
  {
    assert 62.7 <= 66.0 * scale <= 69.3;
    assert 376.2 <= 396.0 * scale <= 415.8;
    assert 5791.2 <= 6096.0 * scale <= 6400.8;
    var c := TimingOf(scale).color as real;
    assert 54.0 <= (c / 320.0) * 3.0 < 61.0;
  }

  // ----- the clock: everything that decides which phase a sample falls in

  datatype Phase = Idle | Porch1 | Green | Porch2 | Blue | Sync | Porch3 | Red

  predicate IsColor(p: Phase) {
    p == Green || p == Blue || p == Red
  }

  datatype Clock = Clock(phase: Phase, phaseSamples: nat, line: nat, lineSamples: nat, done: bool)

  function Length(t: Timing, p: Phase): nat {
    match p
    case Idle => 0
    case Porch1 => t.porch
    case Porch2 => t.porch
    case Porch3 => t.porch
    case Sync => t.sync
    case Green => t.color
    case Blue => t.color
    case Red => t.color
  }

  /** The phase after one that is not the last of its line. */
  function Following(p: Phase): Phase {
    match p
    case Porch1 => Green
    case Green => Porch2
    case Porch2 => Blue
    case Blue => Sync
    case Sync => Porch3
    case Porch3 => Red
    case _ => Idle
  }

  /** The clock after the last sample of its phase. */
  function Turn(c: Clock): Clock {
    if c.phase != Red then c.(phase := Following(c.phase), phaseSamples := 0)
    else if c.line + 1 >= LINES then c.(phase := Idle, phaseSamples := 0, line := c.line + 1, done := true)
    else c.(phase := Porch1, phaseSamples := 0, line := c.line + 1)
  }

  /** One sample further in the phase. */
  function Advance(t: Timing, c: Clock): Clock {
    var c' := c.(phaseSamples := c.phaseSamples + 1);
    if c'.phaseSamples >= Length(t, c.phase) then Turn(c') else c'
  }

  function Tick(t: Timing, c: Clock): Clock {
    if c.phase == Idle then c else Advance(t, c.(lineSamples := c.lineSamples + 1))
  }

  // ----- pixels

  datatype PixelRing = PixelRing(buf: seq<int>, pos: nat, fill: nat, last: int)

  function EmptyRing(window: nat): PixelRing {
    PixelRing(Zeroes(window), 0, 0, -1)
  }

  /** `reset_pixel_state`: the old samples stay in the buffer but no longer count. */
  function Restarted(r: PixelRing): PixelRing {
    PixelRing(r.buf, 0, 0, -1)
  }

  /** The buffer after the lengths changed. */
  function Resized(r: PixelRing, window: nat): PixelRing {
    if |r.buf| != window then EmptyRing(window) else r
  }

  function Fed(r: PixelRing, mono: int): PixelRing
    requires r.pos < |r.buf|
  {
    PixelRing(r.buf[r.pos := mono], Ring.Advance(r.pos, |r.buf|),
              if r.fill < |r.buf| then r.fill + 1 else r.fill, r.last)
  }

  /** One channel's sums and counts per pixel. */
  datatype Channel = Channel(accum: seq<nat>, count: seq<nat>)

  function Zeroes(n: nat): (zs: seq<nat>)
    ensures |zs| == n && forall i :: 0 <= i < n ==> zs[i] == 0
  {
    seq(n, _ => 0)
  }

  function Blank(): Channel {
    Channel(Zeroes(WIDTH), Zeroes(WIDTH))
  }

  datatype Lines = Lines(green: Channel, blue: Channel, red: Channel)

  function BlankLines(): Lines {
    Lines(Blank(), Blank(), Blank())
  }

  ghost predicate WellShaped(ch: Channel) {
    |ch.accum| == WIDTH && |ch.count| == WIDTH
  }

  function Deposit(ch: Channel, pixel: nat, intensity: nat): Channel
    requires pixel < |ch.accum| && pixel < |ch.count|
  {
    Channel(ch.accum[pixel := ch.accum[pixel] + intensity], ch.count[pixel := ch.count[pixel] + 1])
  }

  type Oracle = seq<int> -> real

  /** The clamps of `estimate_freq` and then `freq_to_intensity`. */
  function Intensity(freq: Oracle, window: seq<int>): (v: nat)
    ensures v <= 255
  {
    var f := freq(window);
    var f := if f < 1500.0 then 1500.0 else if f > 2300.0 then 2300.0 else f;
    var ratio := (f - 1500.0) / 800.0;
    (ratio * 255.0 + 0.5).Floor
  }

  /** 1500 Hz and less are black, 2300 Hz and more white, and between them the intensity is the nearest whole number
      on a straight scale. */
  lemma IntensityIs(freq: Oracle, window: seq<int>)
    ensures var f, v := freq(window), Intensity(freq, window) as real;
            && (f <= 1500.0 ==> v == 0.0) && (f >= 2300.0 ==> v == 255.0)
            && (1500.0 <= f <= 2300.0 ==> 255.0 * (f - 1500.0) - 400.0 < 800.0 * v <= 255.0 * (f - 1500.0) + 400.0)
  {
    var f := freq(window);
    var ratio := (f - 1500.0) / 800.0;
    assert 800.0 * (ratio * 255.0 + 0.5) == 255.0 * (f - 1500.0) + 400.0;
  }

  /** The pixel a sample of a colour phase falls on. */
  function Pixel(k: nat, color: nat): nat
    requires color > 0
  {
    k * WIDTH / color
  }

  /** One sample of a colour phase: into the ring, and, when a new pixel starts and the window is full, an
      estimate into the channel. */
  function Expose(freq: Oracle, r: PixelRing, ch: Channel, pixel: nat, mono: int): (x: (PixelRing, Channel))
    requires r.pos < |r.buf| && WellShaped(ch)
  {
    if pixel >= WIDTH then
      (r, ch)
    else
      var r' := Fed(r, mono);
      if pixel != r.last && r'.fill == |r.buf| then
        (r'.(last := pixel), Deposit(ch, pixel, Intensity(freq, Ring.Unrolled(r'.buf, r'.pos))))
      else
        (r', ch)
  }

  // ----- output

  datatype Rgb = Rgb(r: nat, g: nat, b: nat)

  const PANEL := Rgb(0xFA, 0xF0, 0xD8)

  /** A rendered row: which output row, from which line, from what the line had collected. */
  datatype Render = Render(y: nat, line: nat, lines: Lines)

  datatype Output = Output(lastY: int, image: seq<seq<Rgb>>, renders: seq<Render>)

  function BlankRow(): (row: seq<Rgb>)
    ensures |row| == OUT_WIDTH
  {
    seq(OUT_WIDTH, _ => PANEL)
  }

  function BlankOutput(): Output {
    Output(-1, seq(OUT_HEIGHT, _ => BlankRow()), [])
  }

  function Mean(ch: Channel, x: nat): nat
    requires WellShaped(ch) && x < WIDTH
  {
    if ch.count[x] != 0 then ch.accum[x] / ch.count[x] else 0
  }

  function Color(ls: Lines, x: nat): Rgb
    requires AllWellShaped(ls) && x < WIDTH
  {
    Rgb(Mean(ls.red, x), Mean(ls.green, x), Mean(ls.blue, x))
  }

  ghost predicate AllWellShaped(ls: Lines) {
    WellShaped(ls.green) && WellShaped(ls.blue) && WellShaped(ls.red)
  }

  /** A full output row: panel colour left and right of the scaled line. */
  function RowOf(ls: Lines): (row: seq<Rgb>)
    requires AllWellShaped(ls)
    ensures |row| == OUT_WIDTH
  {
    seq(OUT_WIDTH, x requires 0 <= x < OUT_WIDTH =>
      if PAD_X <= x < PAD_X + OUT_IMAGE_WIDTH then Color(ls, (x - PAD_X) * WIDTH / OUT_IMAGE_WIDTH) else PANEL)
  }

  /** Twenty-four columns at each side, and every row not drawn yet, keep the panel's colour. */
  lemma Margins(ls: Lines, x: nat)
    requires AllWellShaped(ls) && x < 288 && (x < 24 || x >= 264)
    ensures RowOf(ls)[x] == Rgb(250, 240, 216) == BlankRow()[x]
  {
  }

  function OutY(line: nat): nat {
    line * OUT_HEIGHT / LINES
  }

  function Rendered(o: Output, ls: Lines, line: nat): Output
    requires AllWellShaped(ls) && |o.image| == OUT_HEIGHT
  {
    var y := OutY(line);
    if y == o.lastY || y >= OUT_HEIGHT then o
    else Output(y, o.image[y := RowOf(ls)], o.renders + [Render(y, line, ls)])
  }

  // ----- the decoder

  datatype Frame = Frame(timing: Timing, clock: Clock, ring: PixelRing, lines: Lines, out: Output)

  /** The shapes every reachable state has. */
  ghost predicate Shaped(f: Frame) {
    && Bounded(f.timing)
    && |f.ring.buf| == f.timing.window && f.ring.pos < |f.ring.buf|
    && AllWellShaped(f.lines) && |f.out.image| == OUT_HEIGHT
  }

  function ChannelOf(ls: Lines, p: Phase): Channel {
    if p == Green then ls.green else if p == Blue then ls.blue else ls.red
  }

  function WithChannel(ls: Lines, p: Phase, ch: Channel): Lines {
    if p == Green then ls.(green := ch) else if p == Blue then ls.(blue := ch) else ls.(red := ch)
  }

  /** The pixel part of `step_color`. */
  function Exposed(freq: Oracle, f: Frame, mono: int): (r: (PixelRing, Lines))
    requires Shaped(f) && IsColor(f.clock.phase)
    ensures r.0.pos < |r.0.buf| == |f.ring.buf| && AllWellShaped(r.1)
  {
    var pixel := Pixel(f.clock.phaseSamples, f.timing.color);
    var (r, ch) := Expose(freq, f.ring, ChannelOf(f.lines, f.clock.phase), pixel, mono);
    (r, WithChannel(f.lines, f.clock.phase, ch))
  }

  /** What the clock's step closes: at the end of a line the row is drawn and the line cleared. */
  function Closed(before: Clock, after: Clock, ring: PixelRing, lines: Lines, out: Output)
    : (x: (PixelRing, Lines, Output))
    requires AllWellShaped(lines) && |out.image| == OUT_HEIGHT
  {
    if before.phase == Red && after.phase != Red then
      (if after.phase == Porch1 then Restarted(ring) else ring, BlankLines(), Rendered(out, lines, before.line))
    else
      (ring, lines, out)
  }

  /** The effect of one sample outside Idle, already counted in `line_samples`. */
  function StepOn(freq: Oracle, f: Frame, mono: int): (f': Frame)
    requires Shaped(f) && f.clock.phase != Idle
    ensures Shaped(f')
  {
    var clock := Advance(f.timing, f.clock);
    if IsColor(f.clock.phase) then
      var (ring, lines) := Exposed(freq, f, mono);
      var (ring, lines, out) := Closed(f.clock, clock, ring, lines, f.out);
      Frame(f.timing, clock, ring, lines, out)
    else
      var ring := if IsColor(clock.phase) then Restarted(f.ring) else f.ring;
      Frame(f.timing, clock, ring, f.lines, f.out)
  }

  function Counted(f: Frame): Frame {
    f.(clock := f.clock.(lineSamples := f.clock.lineSamples + 1))
  }

  /** The effect of one sample. */
  function Step(freq: Oracle, f: Frame, mono: int): (f': Frame)
    requires Shaped(f)
    ensures Shaped(f')
  {
    if f.clock.phase == Idle then f else StepOn(freq, Counted(f), mono)
  }

  // ----- sync

  /** Where a sync leaves the clock: `offset` samples behind the start of the sync pulse. */
  function Jump(t: Timing, c: Clock, offset: nat): Clock {
    if offset < t.sync then c.(phase := Sync, phaseSamples := offset)
    else if offset < t.sync + t.porch then c.(phase := Porch3, phaseSamples := offset - t.sync)
    else
      var k := offset - t.sync - t.porch;
      c.(phase := Red, phaseSamples := if k > t.color then t.color else k)
  }

  function StartFrame(t: Timing, r: PixelRing): Frame
    requires InScale(t.scale)
  {
    var t' := TimingOf(t.scale);
    Frame(t', Clock(Porch1, 0, 0, 0, false), Restarted(Resized(r, t'.window)), BlankLines(), BlankOutput())
  }

  /** `on_sync(False)`. */
  function Begin(t: Timing, r: PixelRing, offset: nat): Frame
    requires InScale(t.scale)
  {
    var f := StartFrame(t, r);
    f.(clock := Jump(f.timing, f.clock, offset))
  }

  /** The line in progress is Blue and in the last quarter of it. */
  predicate Resyncs(t: Timing, c: Clock) {
    var guard := if t.color / 4 < 1 then 1 else t.color / 4;
    c.phase == Blue && c.phaseSamples >= t.color - guard
  }

  /** A line's nominal length. */
  const EXPECTED: nat := BASE_PORCH * 3 + BASE_COLOR * 3 + BASE_SYNC

  function ClampScale(x: real): (y: real)
    ensures InScale(y)
  {
    if x < 0.95 then 0.95 else if x > 1.05 then 1.05 else x
  }

  /** The line's length seen from the sync that ended it. */
  function Adjusted(lineSamples: nat, offset: nat): (n: nat)
    ensures n >= 1
  {
    if lineSamples - offset < 1 then 1 else lineSamples - offset
  }

  /** The line is within 12 percent of its nominal length. */
  predicate Corrects(lineSamples: nat, offset: nat) {
    && lineSamples > 0
    && (EXPECTED as real * (1.0 - 0.12)).Floor <= Adjusted(lineSamples, offset)
    && Adjusted(lineSamples, offset) <= (EXPECTED as real * (1.0 + 0.12)).Floor
  }

  function CorrectedScale(scale: real, lineSamples: nat, offset: nat): (s: real)
    requires InScale(scale)
    ensures InScale(s)
  {
    scale * 0.98 + ClampScale(EXPECTED as real / Adjusted(lineSamples, offset) as real) * 0.02
  }

  /** The lengths after the line's timing correction. */
  function Retimed(t: Timing, lineSamples: nat, offset: nat): (t': Timing)
    requires Bounded(t)
    ensures Bounded(t')
  {
    if Corrects(lineSamples, offset) then
      var scale := CorrectedScale(t.scale, lineSamples, offset);
      ScaledLengths(scale);
      TimingOf(scale)
    else
      t
  }

  /** `on_sync(True)`. */
  function Resync(f: Frame, offset: nat): (f': Frame)
    requires Shaped(f)
    ensures Shaped(f')
  {
    if !Resyncs(f.timing, f.clock) then
      f
    else
      var t := Retimed(f.timing, f.clock.lineSamples, offset);
      var clock := Jump(t, f.clock.(lineSamples := 0), offset);
      var ring := Resized(f.ring, t.window);
      f.(timing := t, clock := clock, ring := if clock.phase == Red then Restarted(ring) else ring)
  }
}
