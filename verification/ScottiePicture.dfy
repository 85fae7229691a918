/** What Scottie1Decoder computes in one colour phase, as a function of the samples alone. */
module ScottiePicture {
  import opened ScottieModel
  import opened ScottieClock
  import opened ScottieRuns
  import Ring

  // ----- one colour phase, said directly; it may begin at a position `from` inside the phase

  /** The first pixel whose window is full in time: lower ones get no estimate. */
  function FirstPixel(color: nat, window: nat, from: nat): nat
    requires color > 0 && window >= 1
  {
    Pixel(from + window - 1, color)
  }

  /** The position in the phase at which pixel `p` is estimated. */
  function PositionOf(p: nat, color: nat, window: nat, from: nat): nat
    requires color > 0 && window >= 1
  {
    if p == FirstPixel(color, window, from) then from + window - 1 else (p * color + 319) / 320
  }

  /** Pixel `p` as the intensity of the window that ends where the pixel begins. */
  function PixelValue(freq: Oracle, ms: seq<int>, p: nat, color: nat, window: nat, from: nat): nat
    requires color > 0 && window >= 1
  {
    var k := PositionOf(p, color, window, from) - from;
    if window - 1 <= k < |ms| then Intensity(freq, ms[k + 1 - window..k + 1]) else 0
  }

  /** The channel after a colour phase with the samples `ms`: one estimate for every pixel from the first
      on, none below. */
  function PhaseChannel(freq: Oracle, ms: seq<int>, color: nat, window: nat, from: nat): (ch: Channel)
    requires color > 0 && window >= 1
    ensures WellShaped(ch)
  {
    var first := FirstPixel(color, window, from);
    Channel(seq(WIDTH, p requires 0 <= p < WIDTH =>
              if p >= first then PixelValue(freq, ms, p, color, window, from) else 0),
            seq(WIDTH, p requires 0 <= p < WIDTH => if p >= first then 1 else 0))
  }

  // ----- and as the decoder computes it

  function Exposures(freq: Oracle, r: PixelRing, ch: Channel, color: nat, from: nat, ms: seq<int>)
    : (x: (PixelRing, Channel))
    requires r.pos < |r.buf| && WellShaped(ch) && color > 0
    ensures x.0.pos < |x.0.buf| == |r.buf| && WellShaped(x.1)
  {
    if ms == [] then
      (r, ch)
    else
      var (r', ch') := Exposures(freq, r, ch, color, from, ms[..|ms| - 1]);
      Expose(freq, r', ch', Pixel(from + |ms| - 1, color), ms[|ms| - 1])
  }

  ghost predicate Waiting(r: PixelRing) {
    r.pos == 0 < |r.buf| && r.fill == 0 && r.last == -1
  }

  /** The pixels from the first to `last` hold their estimate, the others nothing. */
  ghost predicate Estimated(freq: Oracle, ch: Channel, last: int, color: nat, window: nat, from: nat, all: seq<int>)
    requires color > 0 && window >= 1
  {
    && WellShaped(ch)
    && forall p: nat :: p < WIDTH ==>
         if FirstPixel(color, window, from) <= p <= last
         then ch.count[p] == 1 && ch.accum[p] == PixelValue(freq, all, p, color, window, from)
         else ch.count[p] == 0 && ch.accum[p] == 0
  }

  /** The ring and the channel after the samples `ms`, some of a whole phase `all`. */
  ghost predicate PartDone(freq: Oracle, r: PixelRing, ch: Channel, color: nat, from: nat, ms: seq<int>, all: seq<int>)
    requires color > 0 && |r.buf| >= 1
  {
    var window := |r.buf|;
    && Ring.Holds(r.buf, r.pos, r.fill, ms)
    && r.last == (if |ms| < window then -1 else Pixel(from + |ms| - 1, color))
    && (|ms| >= window ==> FirstPixel(color, window, from) <= r.last)
    && Estimated(freq, ch, r.last, color, window, from, all)
  }

  /** The next pixel is added. */
  lemma EstimateAdds(freq: Oracle, ch: Channel, last: int, color: nat, window: nat, from: nat, all: seq<int>,
                     pixel: nat)
    requires color > 0 && window >= 1 && Estimated(freq, ch, last, color, window, from, all) && pixel < WIDTH
    requires var first := FirstPixel(color, window, from);
             (last == -1 && pixel == first) || (first <= last && pixel == last + 1)
    ensures var ch' := Deposit(ch, pixel, PixelValue(freq, all, pixel, color, window, from));
            Estimated(freq, ch', pixel, color, window, from, all)
  {
    var first := FirstPixel(color, window, from);
    var ch' := Deposit(ch, pixel, PixelValue(freq, all, pixel, color, window, from));
    assert ch.count[pixel] == 0 && ch.accum[pixel] == 0;
    forall p: nat | p < WIDTH
      ensures if first <= p <= pixel
              then ch'.count[p] == 1 && ch'.accum[p] == PixelValue(freq, all, p, color, window, from)
              else ch'.count[p] == 0 && ch'.accum[p] == 0
    {
      assert p != pixel ==> ch'.count[p] == ch.count[p] && ch'.accum[p] == ch.accum[p];
    }
  }

  /** A pixel that is new at position `k` begins there. */
  lemma PixelBegins(k: nat, color: nat, window: nat, from: nat)
    requires color >= WIDTH && 1 <= window && from + window <= k < color
    requires Pixel(k, color) != Pixel(k - 1, color) && FirstPixel(color, window, from) <= Pixel(k - 1, color)
    ensures Pixel(k, color) == Pixel(k - 1, color) + 1 && PositionOf(Pixel(k, color), color, window, from) == k
  {
    PixelSteps(k - 1, color);
    var m := Pixel(k, color) * color;
    assert m <= k * 320 by { Quotient(k * WIDTH, color); }
    assert (k - 1) * 320 < m by { Quotient((k - 1) * WIDTH, color); }
  }

  /** The value estimated from a full ring at the sample where a pixel begins. */
  lemma RingValue(freq: Oracle, fed: PixelRing, ms: seq<int>, n: nat, color: nat, window: nat, from: nat,
                  all: seq<int>, pixel: nat)
    requires color > 0 && |fed.buf| == window >= 1 && n < |all| && ms == all[..n + 1]
    requires Ring.Holds(fed.buf, fed.pos, fed.fill, ms) && fed.fill == window
    requires PositionOf(pixel, color, window, from) == from + n
    ensures Intensity(freq, Ring.Unrolled(fed.buf, fed.pos)) == PixelValue(freq, all, pixel, color, window, from)
  {
    Ring.UnrollsToLatest(fed.buf, fed.pos, fed.fill, ms);
    assert ms[n + 1 - window..] == all[n + 1 - window..n + 1];
  }

  /** One more sample of a phase. */
  lemma PartGrows(freq: Oracle, r: PixelRing, ch: Channel, color: nat, from: nat, ms: seq<int>, all: seq<int>)
    requires color >= WIDTH && |r.buf| >= 1 && from + |ms| < color
    requires PartDone(freq, r, ch, color, from, ms, all)
    requires |ms| < |all| && ms == all[..|ms|]
    ensures var (r', ch') := Expose(freq, r, ch, Pixel(from + |ms|, color), all[|ms|]);
            |r'.buf| == |r.buf| && PartDone(freq, r', ch', color, from, all[..|ms| + 1], all)
  {
    var n, window, mono := |ms|, |r.buf|, all[|ms|];
    var pixel := Pixel(from + n, color);
    PixelBounds(from + n, color);
    assert all[..n + 1] == ms + [mono];
    Ring.Push(r.buf, r.pos, r.fill, ms, mono);
    if n >= window {
      PixelSteps(from + n - 1, color);
    }
    if n + 1 >= window && pixel != r.last {
      PartEstimates(freq, r, ch, color, from, ms, all);
    }
  }

  lemma PartEstimates(freq: Oracle, r: PixelRing, ch: Channel, color: nat, from: nat, ms: seq<int>, all: seq<int>)
    requires color >= WIDTH && |r.buf| >= 1 && from + |ms| < color
    requires PartDone(freq, r, ch, color, from, ms, all)
    requires |ms| < |all| && ms == all[..|ms|]
    requires |ms| + 1 >= |r.buf| && Pixel(from + |ms|, color) != r.last
    ensures var (r', ch') := Expose(freq, r, ch, Pixel(from + |ms|, color), all[|ms|]);
            && r'.last == Pixel(from + |ms|, color) >= FirstPixel(color, |r.buf|, from)
            && Estimated(freq, ch', r'.last, color, |r.buf|, from, all)
  {
    var n, window, mono := |ms|, |r.buf|, all[|ms|];
    var pixel := Pixel(from + n, color);
    PixelBounds(from + n, color);
    assert all[..n + 1] == ms + [mono];
    Ring.Push(r.buf, r.pos, r.fill, ms, mono);
    if n >= window {
      PixelBegins(from + n, color, window, from);
    }
    RingValue(freq, Fed(r, mono), all[..n + 1], n, color, window, from, all, pixel);
    EstimateAdds(freq, ch, r.last, color, window, from, all, pixel);
  }

  lemma {:induction false} PartsDone(freq: Oracle, r: PixelRing, color: nat, from: nat, n: nat, all: seq<int>)
    requires color >= WIDTH && Waiting(r) && n <= |all| <= color - from
    ensures var (r', ch') := Exposures(freq, r, Blank(), color, from, all[..n]);
            |r'.buf| == |r.buf| && PartDone(freq, r', ch', color, from, all[..n], all)
  {
    if n > 0 {
      PartsDone(freq, r, color, from, n - 1, all);
      assert all[..n][..n - 1] == all[..n - 1];
      var (r', ch') := Exposures(freq, r, Blank(), color, from, all[..n - 1]);
      PartGrows(freq, r', ch', color, from, all[..n - 1], all);
    }
  }

  /** The samples of a colour phase from position `from` to its end; even at the very end there is one. */
  function PhaseLength(color: nat, from: nat): (n: nat)
    ensures n >= 1
  {
    if from < color then color - from else 1
  }

  /** A colour phase that starts with an empty window and a blank channel and runs to its end fills the
      channel exactly: pixel `p` gets one estimate iff `p >= ((from + window - 1) * 320) / color`, taken
      from the `window` samples that end where the pixel begins. */
  lemma PhaseFillsChannel(freq: Oracle, r: PixelRing, color: nat, from: nat, ms: seq<int>)
    requires color >= WIDTH && Waiting(r) && from <= color && |ms| == PhaseLength(color, from)
    ensures Exposures(freq, r, Blank(), color, from, ms).1 == PhaseChannel(freq, ms, color, |r.buf|, from)
  {
    var ch := Exposures(freq, r, Blank(), color, from, ms).1;
    if from < color {
      PartsDone(freq, r, color, from, |ms|, ms);
      assert ms[..|ms|] == ms;
      AllPixelsDone(freq, ch, color, |r.buf|, from, ms);
    } else {
      assert Exposures(freq, r, Blank(), color, from, ms[..0]) == (r, Blank());
      PixelsBehind(color, color);
      PixelsBehind(from + |r.buf| - 1, color);
    }
    AllEstimated(freq, ch, color, |r.buf|, from, ms);
  }

  /** Behind the last sample of the phase the last pixel is done, or the window never was full. */
  lemma AllPixelsDone(freq: Oracle, ch: Channel, color: nat, window: nat, from: nat, ms: seq<int>)
    requires color >= WIDTH && window >= 1 && from + |ms| == color && |ms| >= 1
    requires var last := if |ms| < window then -1 else Pixel(color - 1, color);
             Estimated(freq, ch, last, color, window, from, ms)
    ensures Estimated(freq, ch, WIDTH - 1, color, window, from, ms)
  {
    LastPixel(color);
    if |ms| < window {
      PixelsBehind(from + window - 1, color);
    }
  }

  lemma AllEstimated(freq: Oracle, ch: Channel, color: nat, window: nat, from: nat, ms: seq<int>)
    requires color > 0 && window >= 1
    requires Estimated(freq, ch, WIDTH - 1, color, window, from, ms)
    ensures ch == PhaseChannel(freq, ms, color, window, from)
  {
    var ch' := PhaseChannel(freq, ms, color, window, from);
    assert ch.count == ch'.count;
    assert ch.accum == ch'.accum;
  }

  /** With one estimate per pixel the mean is the estimate. */
  lemma MeanOfPhase(freq: Oracle, ch: Channel, ms: seq<int>, p: nat, color: nat, window: nat, from: nat)
    requires color > 0 && window >= 1 && p < WIDTH && ch == PhaseChannel(freq, ms, color, window, from)
    ensures Mean(ch, p)
         == if p >= FirstPixel(color, window, from) then PixelValue(freq, ms, p, color, window, from) else 0
  {
  }

  lemma LastPixel(color: nat)
    requires color >= WIDTH
    ensures Pixel(color - 1, color) == 319
  {
    assert (color - 1) * 320 == 319 * color + (color - 320);
    QuotientNear(319, color - 320, color);
  }

  /** Positions behind the phase fall on no pixel. */
  lemma PixelsBehind(k: nat, color: nat)
    requires color > 0 && k >= color
    ensures Pixel(k, color) >= WIDTH
  {
    var x := Pixel(k, color);
    assert k * WIDTH < (x + 1) * color by { Quotient(k * WIDTH, color); }
    assert WIDTH * color <= k * WIDTH;
    Below(WIDTH * color, x + 1, color, WIDTH);
  }
}
