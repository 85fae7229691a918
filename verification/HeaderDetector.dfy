/** HeaderDetector and the loop that feeds it (tools/sstv_offline_decode.py). The Goertzel filter is the
    oracle `power`: the strength of one frequency in one window. */
module HeaderDetector {
  import opened Wrappers
  import opened ToneAutomaton
  import Ring

  const WINDOW: nat := 512
  const HOP: nat := 256
  const SAMPLE_RATE: real := 44100.0

  type Power = (seq<int>, int) -> real

  /** `max(1, int(ms / window_ms + 0.5))`, the number of hops that `ms` milliseconds take. */
  function Windows(ms: real): (n: nat)
    requires ms >= 0.0
    ensures n >= 1
  {
    var hopMs := 1000.0 * HOP as real / SAMPLE_RATE;
    var n := (ms / hopMs + 0.5).Floor;
    if n < 1 then 1 else n
  }

  const LEADER_WINDOWS: nat := Windows(300.0)
  const BREAK_WINDOWS: nat := Windows(10.0)
  const VIS_START_WINDOWS: nat := Windows(30.0)

  /** Ten VIS bits of 30 ms. */
  const VIS_SAMPLES: nat := (SAMPLE_RATE * (30.0 / 1000.0) * 10.0).Floor

  lemma WindowCounts()
    ensures LEADER_WINDOWS == 52 && BREAK_WINDOWS == 2 && VIS_START_WINDOWS == 5 && VIS_SAMPLES == 13230
  {
    assert 1000.0 * HOP as real / SAMPLE_RATE == 256000.0 / 44100.0;
    assert 300.0 / (256000.0 / 44100.0) + 0.5 == 13230000.0 / 256000.0 + 0.5;
    assert 10.0 / (256000.0 / 44100.0) + 0.5 == 441000.0 / 256000.0 + 0.5;
    assert 30.0 / (256000.0 / 44100.0) + 0.5 == 1323000.0 / 256000.0 + 0.5;
  }

  /** The header: leader, break, leader, VIS start bit. */
  function Header(): (stages: seq<Stage>)
    ensures Proper(stages) && |stages| == 4
  {
    [Stage(Tone1900, LEADER_WINDOWS), Stage(Tone1200, BREAK_WINDOWS),
     Stage(Tone1900, LEADER_WINDOWS), Stage(Tone1200, VIS_START_WINDOWS)]
  }

  function Larger(a: real, b: real): real {
    if b > a then b else a
  }

  function DetectTone(p1100: real, p1200: real, p1300: real, p1900: real): Tone {
    var total := p1100 + p1200 + p1300 + p1900;
    var (max, tone) := (p1100, Tone1100);
    var (max, tone) := if p1200 > max then (p1200, Tone1200) else (max, tone);
    var (max, tone) := if p1300 > max then (p1300, Tone1300) else (max, tone);
    var (max, tone) := if p1900 > max then (p1900, Tone1900) else (max, tone);
    var other := if tone != Tone1100 then Larger(0.0, p1100) else 0.0;
    var other := if tone != Tone1200 then Larger(other, p1200) else other;
    var other := if tone != Tone1300 then Larger(other, p1300) else other;
    var other := if tone != Tone1900 then Larger(other, p1900) else other;
    if max > other * 1.3 && max > total * 0.45 then tone else NoTone
  }

  function PowerOf(t: Tone, p1100: real, p1200: real, p1300: real, p1900: real): real {
    match t
    case Tone1100 => p1100
    case Tone1200 => p1200
    case Tone1300 => p1300
    case Tone1900 => p1900
    case NoTone => 0.0
  }

  /** A tone is reported exactly when it stands 30 percent above each other one and holds 45 percent of
      the total; so at most one tone can qualify. */
  lemma DetectsTheDominantTone(t: Tone, p1100: real, p1200: real, p1300: real, p1900: real)
    requires p1100 >= 0.0 && p1200 >= 0.0 && p1300 >= 0.0 && p1900 >= 0.0 && t != NoTone
    ensures var p := PowerOf(t, p1100, p1200, p1300, p1900);
            DetectTone(p1100, p1200, p1300, p1900) == t <==>
            && p > 0.45 * (p1100 + p1200 + p1300 + p1900)
            && (t != Tone1100 ==> p > 1.3 * p1100) && (t != Tone1200 ==> p > 1.3 * p1200)
            && (t != Tone1300 ==> p > 1.3 * p1300) && (t != Tone1900 ==> p > 1.3 * p1900)
  {
  }

  function ToneOf(power: Power, window: seq<int>): Tone {
    DetectTone(power(window, 1100), power(window, 1200), power(window, 1300), power(window, 1900))
  }

  /** Of the strengths at the four frequencies: the tone of a window is the one that dominates the others. */
  lemma ToneOfMeans(power: Power, w: seq<int>, t: Tone)
    requires power(w, 1100) >= 0.0 && power(w, 1200) >= 0.0 && power(w, 1300) >= 0.0 && power(w, 1900) >= 0.0
    ensures var a, b, c, d := power(w, 1100), power(w, 1200), power(w, 1300), power(w, 1900);
            ToneOf(power, w) == t <==>
            match t
            case Tone1100 => Dominates(a, b, c, d)
            case Tone1200 => Dominates(b, a, c, d)
            case Tone1300 => Dominates(c, a, b, d)
            case Tone1900 => Dominates(d, a, b, c)
            case NoTone => !Dominates(a, b, c, d) && !Dominates(b, a, c, d)
                           && !Dominates(c, a, b, d) && !Dominates(d, a, b, c)
  {
    var a, b, c, d := power(w, 1100), power(w, 1200), power(w, 1300), power(w, 1900);
    DetectsTheDominantTone(Tone1100, a, b, c, d);
    DetectsTheDominantTone(Tone1200, a, b, c, d);
    DetectsTheDominantTone(Tone1300, a, b, c, d);
    DetectsTheDominantTone(Tone1900, a, b, c, d);
  }

  /** Thirty percent above each other strength, and 45 percent of all. */
  predicate Dominates(p: real, x: real, y: real, z: real) {
    p > 1.3 * x && p > 1.3 * y && p > 1.3 * z && p > 0.45 * (p + x + y + z)
  }

  // ----- what the detector has heard, as a function of the samples alone

  /** How many windows `n` samples make: the first is complete with sample 767, then one every 256. */
  function Heard(n: nat): nat {
    if n < 767 then 0 else (n - 767) / HOP + 1
  }

  /** Window `k`: the 512 samples that end with sample number 767 + 256k. */
  function WindowAt(h: seq<int>, k: nat): (w: seq<int>)
    requires k < Heard(|h|)
    ensures |w| == WINDOW
  {
    h[255 + HOP * k..767 + HOP * k]
  }

  function Tones(power: Power, h: seq<int>): (ts: seq<Tone>)
    ensures |ts| == Heard(|h|)
  {
    seq(Heard(|h|), k requires 0 <= k < Heard(|h|) => ToneOf(power, WindowAt(h, k)))
  }

  /** A header has been heard within the samples `h`. */
  ghost predicate HeaderIn(power: Power, h: seq<int>) {
    Occurs(Header(), 4, Tones(power, h))
  }

  /** Another sample either completes one more window, the last 512 samples, or none. */
  lemma TonesGrow(power: Power, h: seq<int>, x: int)
    ensures var h' := h + [x];
            Tones(power, h') ==
            if Completes(|h|)
            then Tones(power, h) + [ToneOf(power, h'[|h'| - WINDOW..])]
            else Tones(power, h)
  {
    var h' := h + [x];
    forall k: nat | k < Heard(|h|)
      ensures WindowAt(h', k) == WindowAt(h, k)
    {
    }
    if Completes(|h|) {
      assert Heard(|h'|) == Heard(|h|) + 1;
      assert WindowAt(h', Heard(|h|)) == h'[|h'| - WINDOW..];
    } else {
      assert Heard(|h'|) == Heard(|h|);
    }
  }

  /** The hop counter after `n` samples. */
  function HopAt(n: nat): (hop: nat)
    ensures hop < HOP
  {
    if n < 511 then 0 else (n - 511) % HOP
  }

  /** With sample `n + 1` a window is complete. */
  predicate Completes(n: nat) {
    n + 1 >= 767 && (n + 1 - 511) % HOP == 0
  }

  /** The counter runs to 256 exactly when a window is complete. */
  lemma HopCounts(n: nat)
    ensures n + 1 < WINDOW ==> HopAt(n + 1) == 0 && !Completes(n)
    ensures n + 1 >= WINDOW ==> HopAt(n + 1) == (if HopAt(n) + 1 < HOP then HopAt(n) + 1 else 0)
    ensures n + 1 >= WINDOW ==> (HopAt(n) + 1 >= HOP <==> Completes(n))
  {
  }

  /** The automaton's state after the samples `h`. */
  function AutoAfter(power: Power, h: seq<int>): Auto {
    Run(Header(), Tones(power, h))
  }

  lemma AutoGrows(power: Power, h: seq<int>, x: int)
    ensures var h' := h + [x];
            AutoAfter(power, h') ==
            if Completes(|h|)
            then Step(Header(), AutoAfter(power, h), ToneOf(power, h'[|h'| - WINDOW..]))
            else AutoAfter(power, h)
  {
    TonesGrow(power, h, x);
    var h' := h + [x];
    if Completes(|h|) {
      RunAppend(Header(), Tones(power, h), ToneOf(power, h'[|h'| - WINDOW..]));
    }
  }

  lemma RunAppend(stages: seq<Stage>, ts: seq<Tone>, t: Tone)
    ensures Run(stages, ts + [t]) == Step(stages, Run(stages, ts), t)
  {
    assert (ts + [t])[..|ts|] == ts;
  }

  lemma {:induction false} HeaderStays(power: Power, h: seq<int>, n: nat)
    requires n <= |h| && HeaderIn(power, h[..n])
    ensures HeaderIn(power, h)
    decreases |h|
  {
    if n == |h| {
      assert h[..n] == h;
    } else {
      var m := |h| - 1;
      assert h[..m][..n] == h[..n];
      HeaderStays(power, h[..m], n);
      assert h == h[..m] + [h[m]];
      TonesGrow(power, h[..m], h[m]);
      var ts := Tones(power, h);
      assert Tones(power, h[..m]) == ts[..|Tones(power, h[..m])|];
      OccursGrows(Header(), 4, ts, |Tones(power, h[..m])|);
    }
  }

  datatype State = Leader1 | Break | Leader2 | VisStart

  function StageIndex(s: State): nat {
    match s
    case Leader1 => 0
    case Break => 1
    case Leader2 => 2
    case VisStart => 3
  }

  class HeaderDetector {
    const power: Power
    const buf: array<int>
    const window: array<int>
    var pos: nat
    var fill: nat
    var hop: nat
    var state: State
    var count: nat
    var headerEnd: Option<nat>
    ghost var heard: seq<int>  // the samples pushed until the header was found

    ghost predicate Valid()
      reads this, buf, window
    {
      && buf != window && buf.Length == window.Length == WINDOW
      && Ring.Holds(buf[..], pos, fill, heard)
      && hop == HopAt(|heard|)
      && var a := AutoAfter(power, heard);
      && (headerEnd == None ==> a == Auto(StageIndex(state), count))
      && (headerEnd.Some? ==> a.stage == 4)
    }

    constructor (power: Power)
      ensures Valid() && fresh(buf) && fresh(window) && this.power == power
      ensures heard == [] && headerEnd == None
    {
      this.power := power;
      buf := new int[WINDOW](_ => 0);
      window := new int[WINDOW](_ => 0);
      pos, fill, hop := 0, 0, 0;
      state, count := Leader1, 0;
      headerEnd := None;
      heard := [];
    }

    /** The detector knows exactly whether a header has been heard. */
    lemma FiresOnHeader()
      requires Valid()
      ensures headerEnd.Some? <==> HeaderIn(power, heard)
    {
      RecognisesOccurrence(Header(), Tones(power, heard), 4);
    }

    method Push(sample: int, sampleIndex: nat) returns (r: Option<nat>)
      requires Valid()
      modifies this, buf, window
      ensures Valid()
      ensures r == headerEnd
      ensures old(headerEnd).Some? ==> headerEnd == old(headerEnd) && heard == old(heard)
      ensures old(headerEnd) == None ==> heard == old(heard) + [sample]
      ensures old(headerEnd) == None && headerEnd.Some? ==>
                headerEnd.value == (if sampleIndex < WINDOW then 0 else sampleIndex - WINDOW) + VIS_SAMPLES
    {
      if headerEnd != None {
        return headerEnd;
      }
      AutoGrows(power, heard, sample);
      HopCounts(|heard|);
      Record(sample);
      if fill < WINDOW {
        return None;
      }
      r := Hop(sampleIndex);
    }

    /** The part of `push` behind a full buffer. */
    method Hop(sampleIndex: nat) returns (r: Option<nat>)
      requires headerEnd == None && hop < HOP
      requires buf != window && buf.Length == window.Length == WINDOW
      requires Ring.Holds(buf[..], pos, fill, heard) && fill == WINDOW
      modifies `hop, `state, `count, `headerEnd, window
      ensures Ring.Holds(buf[..], pos, fill, heard)
      ensures hop == (if old(hop) + 1 < HOP then old(hop) + 1 else 0)
      ensures |heard| >= WINDOW
      ensures var a := Auto(StageIndex(old(state)), old(count));
              var a' := if old(hop) + 1 < HOP then a else Step(Header(), a, ToneOf(power, heard[|heard| - WINDOW..]));
              if headerEnd == None then a' == Auto(StageIndex(state), count) else a'.stage == 4
      ensures r == headerEnd
      ensures headerEnd.Some? ==>
                headerEnd.value == (if sampleIndex < WINDOW then 0 else sampleIndex - WINDOW) + VIS_SAMPLES
    {
      hop := hop + 1;
      if hop < HOP {
        return None;
      }
      hop := 0;
      var tone := Classify();
      r := Listen(tone, sampleIndex);
    }

    /** Unroll the ring and classify the window. */
    method Classify() returns (tone: Tone)
      requires buf != window && buf.Length == window.Length == WINDOW
      requires Ring.Holds(buf[..], pos, fill, heard) && fill == WINDOW
      modifies window
      ensures |heard| >= WINDOW && tone == ToneOf(power, heard[|heard| - WINDOW..])
      ensures Ring.Holds(buf[..], pos, fill, heard)
    {
      Ring.CopyOut(buf, pos, window);
      Ring.UnrollsToLatest(buf[..], pos, fill, heard);
      return ToneOf(power, window[..]);
    }

    /** Store the sample in the ring. */
    method Record(sample: int)
      requires buf.Length == WINDOW && Ring.Holds(buf[..], pos, fill, heard)
      modifies `pos, `fill, `heard, buf
      ensures heard == old(heard) + [sample]
      ensures Ring.Holds(buf[..], pos, fill, heard)
    {
      Ring.Push(buf[..], pos, fill, heard, sample);
      heard := heard + [sample];
      buf[pos] := sample;
      assert buf[..] == old(buf[..])[old(pos) := sample];
      pos := pos + 1;
      if pos >= WINDOW {
        pos := 0;
      }
      if fill < WINDOW {
        fill := fill + 1;
      }
    }

    /** The automaton's reaction to one window. */
    method Listen(tone: Tone, sampleIndex: nat) returns (r: Option<nat>)
      requires headerEnd == None
      modifies `state, `count, `headerEnd
      ensures var a := Step(Header(), Auto(StageIndex(old(state)), old(count)), tone);
              if headerEnd == None then a == Auto(StageIndex(state), count) else a.stage == 4
      ensures r == headerEnd
      ensures headerEnd.Some? ==>
                headerEnd.value == (if sampleIndex < WINDOW then 0 else sampleIndex - WINDOW) + VIS_SAMPLES
    {
      match state {
        case Leader1 =>
          if tone == Tone1900 {
            count := count + 1;
            if count >= LEADER_WINDOWS {
              state, count := Break, 0;
            }
          } else {
            count := 0;
          }
        case Break =>
          if tone == Tone1200 {
            count := count + 1;
            if count >= BREAK_WINDOWS {
              state, count := Leader2, 0;
            }
          } else {
            count := 0;
          }
        case Leader2 =>
          if tone == Tone1900 {
            count := count + 1;
            if count >= LEADER_WINDOWS {
              state, count := VisStart, 0;
            }
          } else {
            count := 0;
          }
        case VisStart =>
          if tone == Tone1200 {
            count := count + 1;
            if count >= VIS_START_WINDOWS {
              var visStart := if sampleIndex < WINDOW then 0 else sampleIndex - WINDOW;
              headerEnd := Some(visStart + VIS_SAMPLES);
              return headerEnd;
            }
          } else {
            count := 0;
          }
      }
      return None;
    }
  }

  ghost predicate NoHeaderUpTo(power: Power, samples: seq<int>, i: nat)
    requires i <= |samples|
  {
    forall n: nat :: n <= i ==> !HeaderIn(power, samples[..n])
  }

  /** The search of `decode_scottie1`: push the samples in order and stop at the first header. A header is
      reported iff the samples contain one, at the sample that completes the earliest. */
  method FindHeader(power: Power, samples: seq<int>) returns (r: Option<nat>)
    ensures r == None <==> !HeaderIn(power, samples)
    ensures r.Some? ==> exists n: nat :: HeaderEndsAt(power, samples, n, r.value)
  {
    var header := new HeaderDetector(power);
    header.FiresOnHeader();
    for i := 0 to |samples|
      invariant header.Valid() && header.power == power && fresh(header) && fresh(header.buf) && fresh(header.window)
      invariant header.headerEnd == None && header.heard == samples[..i]
      invariant NoHeaderUpTo(power, samples, i)
    {
      r := header.Push(samples[i], i);
      header.FiresOnHeader();
      NextSample(power, samples, i);
      if r != None {
        FirstHeader(power, samples, i, r.value);
        return;
      }
    }
    assert samples[..|samples|] == samples;
    return None;
  }

  lemma NextSample(power: Power, samples: seq<int>, i: nat)
    requires i < |samples| && NoHeaderUpTo(power, samples, i)
    ensures samples[..i + 1] == samples[..i] + [samples[i]]
    ensures !HeaderIn(power, samples[..i + 1]) ==> NoHeaderUpTo(power, samples, i + 1)
  {
  }

  lemma FirstHeader(power: Power, samples: seq<int>, i: nat, end: nat)
    requires i < |samples| && NoHeaderUpTo(power, samples, i) && HeaderIn(power, samples[..i + 1])
    requires end == (if i < WINDOW then 0 else i - WINDOW) + VIS_SAMPLES
    ensures HeaderIn(power, samples) && HeaderEndsAt(power, samples, i + 1, end)
  {
    HeaderStays(power, samples, i + 1);
  }

  ghost predicate HeaderEndsAt(power: Power, samples: seq<int>, n: nat, end: nat) {
    && 1 <= n <= |samples| && HeaderIn(power, samples[..n])
    && (forall m: nat :: m < n ==> !HeaderIn(power, samples[..m]))
    && end == (if n - 1 < WINDOW then 0 else n - 1 - WINDOW) + VIS_SAMPLES
  }
}
