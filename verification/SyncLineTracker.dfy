/** SyncLineTracker (tools/sstv_offline_decode.py): the gate and the online line fit over sync positions.
    Floating-point numbers are taken as reals. */
module SyncLineTracker {
  import opened SyncDetector

  datatype Config = Config(expected: int, pct: real, maxFit: int) {
    function MinWindow(): int {
      Trunc(expected as real * (1.0 - pct))
    }

    function MaxWindow(): int {
      Trunc(expected as real * (1.0 + pct))
    }

    function MinSlope(): real {
      expected as real * (1.0 - pct)
    }

    function MaxSlope(): real {
      expected as real * (1.0 + pct)
    }

    /** The accepted position that completes the fit. */
    function FitAt(): int {
      if maxFit < 2 then 2 else maxFit
    }
  }

  datatype Track = Track(
    count: nat, fitCount: nat,
    sumX: real, sumY: real, sumXX: real, sumXY: real,
    slope: real, intercept: real,
    fitReady: bool, last: int, miss: nat)

  const START := Track(0, 0, 0.0, 0.0, 0.0, 0.0, 0.0, 0.0, false, -1, 0)

  const ALPHA := 0.02

  function Denominator(s: Track): real {
    s.fitCount as real * s.sumXX - s.sumX * s.sumX
  }

  /** The slope the accumulated sums give, before it is clamped. */
  function RawSlope(s: Track): real
    requires Denominator(s) != 0.0
  {
    (s.fitCount as real * s.sumXY - s.sumX * s.sumY) / Denominator(s)
  }

  function Clamp(x: real, lo: real, hi: real): real {
    var y := if x < lo then lo else x;
    if y > hi then hi else y
  }

  function Intercept(s: Track, slope: real): real
    requires s.fitCount > 0
  {
    (s.sumY - slope * s.sumX) / s.fitCount as real
  }

  /** The sums after one more position. */
  function Summed(s: Track, y: real): Track {
    var x := s.count as real;
    s.(sumX := s.sumX + x, sumY := s.sumY + y, sumXX := s.sumXX + x * x,
       sumXY := s.sumXY + x * y, fitCount := s.fitCount + 1)
  }

  /** The fitted line: the intercept belongs to the slope before it is clamped. */
  function Fitted(c: Config, s: Track): Track
    requires Denominator(s) != 0.0 && s.fitCount > 0
  {
    var raw := RawSlope(s);
    s.(slope := Clamp(raw, c.MinSlope(), c.MaxSlope()), intercept := Intercept(s, raw), fitReady := true)
  }

  function Accumulate(c: Config, s: Track, y: real): Track {
    var t := Summed(s, y);
    if t.fitCount >= c.maxFit && Denominator(t) != 0.0 then Fitted(c, t) else t
  }

  function PredictionError(s: Track, index: int): real {
    index as real - (s.slope * s.count as real + s.intercept)
  }

  /** The prediction is off by more than the window. */
  predicate OffLine(c: Config, s: Track, index: int) {
    var window := c.expected as real * c.pct;
    var err := PredictionError(s, index);
    window > 0.0 && (err < -window || err > window)
  }

  /** Move the line through the accepted position. */
  function Follow(s: Track, index: int): Track {
    var slope := s.slope * (1.0 - ALPHA) + (index - s.last) as real * ALPHA;
    s.(slope := slope, intercept := index as real - slope * s.count as real, miss := 0)
  }

  function Missed(s: Track): Track {
    s.(miss := s.miss + 1)
  }

  function Next(s: Track, index: int): Track {
    s.(last := index, count := s.count + 1)
  }

  /** The new state and whether the position is accepted. */
  function Accept(c: Config, s: Track, index: int): (Track, bool) {
    if c.expected <= 0 then
      (Next(s, index), true)
    else if s.count == 0 || s.last < 0 then
      (s.(last := index, fitCount := s.fitCount + 1, count := 1), true)
    else
      var delta := index - s.last;
      if delta < c.MinWindow() || (s.fitReady && delta > c.MaxWindow()) then
        (Missed(s), false)
      else if !s.fitReady then
        (Next(Accumulate(c, s, index as real), index), true)
      else if OffLine(c, s, index) then
        (if s.miss + 1 > 3 then START else Missed(s), false)
      else
        (Next(Follow(s, index), index), true)
  }

  class SyncLineTracker {
    const config: Config
    var count: nat
    var fitCount: nat
    var sumX: real
    var sumY: real
    var sumXX: real
    var sumXY: real
    var slope: real
    var intercept: real
    var fitReady: bool
    var last: int
    var miss: nat

    function State(): Track
      reads this
    {
      Track(count, fitCount, sumX, sumY, sumXX, sumXY, slope, intercept, fitReady, last, miss)
    }

    constructor (config: Config)
      ensures this.config == config && State() == START
    {
      this.config := config;
      count, fitCount := 0, 0;
      sumX, sumY, sumXX, sumXY := 0.0, 0.0, 0.0, 0.0;
      slope, intercept := 0.0, 0.0;
      fitReady, last, miss := false, -1, 0;
    }

    method Reset()
      modifies this
      ensures State() == START
    {
      count, fitCount := 0, 0;
      sumX, sumY, sumXX, sumXY := 0.0, 0.0, 0.0, 0.0;
      slope, intercept := 0.0, 0.0;
      fitReady, last, miss := false, -1, 0;
    }

    method AcceptPosition(index: int) returns (ok: bool)
      modifies this
      ensures (State(), ok) == Accept(config, old(State()), index)
    {
      if config.expected <= 0 {
        last := index;
        count := count + 1;
        return true;
      }
      var minWindow := config.MinWindow();
      var maxWindow := config.MaxWindow();
      if count == 0 || last < 0 {
        last := index;
        fitCount := fitCount + 1;
        count := 1;
        return true;
      }
      var delta := index - last;
      if !fitReady {
        if delta < minWindow {
          miss := miss + 1;
          return false;
        }
      } else {
        if delta < minWindow || delta > maxWindow {
          miss := miss + 1;
          return false;
        }
      }
      if !fitReady {
        Fit(index as real);
      } else {
        ok := Check(index);
        if !ok {
          return;
        }
      }
      last := index;
      count := count + 1;
      return true;
    }

    /** The branch before the fit is ready. */
    method Fit(y: real)
      modifies this
      ensures State() == Accumulate(config, old(State()), y)
    {
      Add(y);
      if fitCount >= config.maxFit {
        var sums := State();
        if Denominator(sums) != 0.0 {
          slope := RawSlope(sums);
          intercept := Intercept(sums, slope);
          var minSlope := config.MinSlope();
          var maxSlope := config.MaxSlope();
          if slope < minSlope {
            slope := minSlope;
          }
          if slope > maxSlope {
            slope := maxSlope;
          }
          fitReady := true;
        }
      }
    }

    method Add(y: real)
      modifies this
      ensures State() == Summed(old(State()), y)
    {
      var x := count as real;
      sumX := sumX + x;
      sumY := sumY + y;
      sumXX := sumXX + x * x;
      sumXY := sumXY + x * y;
      fitCount := fitCount + 1;
    }

    /** The branch after the fit: drop a position that is off the line, or move the line through it. */
    method Check(index: int) returns (ok: bool)
      modifies this
      ensures ok == !OffLine(config, old(State()), index)
      ensures State() == if ok then Follow(old(State()), index)
                         else if old(miss) + 1 > 3 then START else Missed(old(State()))
    {
      var x, y := count as real, index as real;
      var pred := slope * x + intercept;
      var err := y - pred;
      var window := config.expected as real * config.pct;
      if window > 0.0 && (err < -window || err > window) {
        miss := miss + 1;
        if miss > 3 {
          Reset();
        }
        return false;
      }
      slope := slope * (1.0 - ALPHA) + (index - last) as real * ALPHA;
      intercept := y - slope * x;
      miss := 0;
      return true;
    }
  }
}
