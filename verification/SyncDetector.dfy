/** SyncDetector.push (tools/sstv_offline_decode.py): the sync ring buffer and the gate on the distance to
    the last sync. Whether a window holds the sync tone is the oracle `sync`. */
module SyncDetector {
  import Ring

  const WINDOW: nat := 400
  const HOP: nat := 80

  /** Python's `int` on a float: truncation towards zero. */
  function Trunc(x: real): int {
    if x >= 0.0 then x.Floor else -((-x).Floor)
  }

  /** What the caller fixes for a whole run. */
  datatype Gate = Gate(minGap: int, expected: int, pct: real)

  function MaxGap(g: Gate): int {
    Trunc(g.expected as real * (1.0 + g.pct))
  }

  function MinGap(g: Gate): int {
    Trunc(g.expected as real * (if 1.0 - g.pct > 0.0 then 1.0 - g.pct else 0.0))
  }

  predicate Windowed(g: Gate, last: int) {
    g.expected > 0 && last >= 0 && g.pct > 0.0
  }

  /** A sync tone at sample `index` counts as the next sync. */
  predicate Passes(g: Gate, index: int, last: int) {
    && index - last > g.minGap
    && (Windowed(g, last) ==> index - last >= MinGap(g) && !(MaxGap(g) > 0 && index - last > MaxGap(g)))
  }

  /** The gate behind the tone test. */
  method PassGate(g: Gate, index: int, last: int) returns (passes: bool)
    ensures passes == Passes(g, index, last)
  {
    if index - last <= g.minGap {
      return false;
    }
    if g.expected > 0 && last >= 0 && g.pct > 0.0 {
      var delta := index - last;
      var minWindow := MinGap(g);
      var maxWindow := MaxGap(g);
      if delta < minWindow {
        return false;
      }
      if maxWindow > 0 && delta > maxWindow {
        return false;
      }
    }
    return true;
  }

  class SyncDetector {
    const sync: seq<int> -> bool
    const buf: array<int>
    const window: array<int>
    var pos: nat
    var fill: nat
    var hop: nat
    ghost var heard: seq<int>   // all samples pushed
    ghost var eligible: nat     // pushes that found the buffer full and `canSync` set

    ghost predicate Valid()
      reads this, buf, window
    {
      && buf != window && buf.Length == window.Length == WINDOW
      && Ring.Holds(buf[..], pos, fill, heard)
      && hop == eligible % HOP
    }

    constructor (sync: seq<int> -> bool)
      ensures Valid() && fresh(buf) && fresh(window) && this.sync == sync
      ensures heard == [] && eligible == 0
    {
      this.sync := sync;
      buf := new int[WINDOW](_ => 0);
      window := new int[WINDOW](_ => 0);
      pos, fill, hop := 0, 0, 0;
      heard, eligible := [], 0;
    }

    /** Every 80th eligible push looks at the last 400 samples, in the order they came; a hit is reported
        iff they hold the sync tone and the gate lets it pass, and only a hit moves the last sync. */
    method Push(sample: int, canSync: bool, index: int, g: Gate, last: int) returns (hit: bool, newLast: int)
      requires Valid()
      modifies this, buf, window
      ensures Valid()
      ensures heard == old(heard) + [sample]
      ensures eligible == old(eligible) + (if canSync && |heard| >= WINDOW then 1 else 0)
      ensures hit <==> && eligible == old(eligible) + 1 && eligible % HOP == 0
                       && sync(heard[|heard| - WINDOW..]) && Passes(g, index, last)
      ensures newLast == if hit then index else last
    {
      Record(sample);
      if !canSync || fill < WINDOW {
        return false, last;
      }
      hop := hop + 1;
      eligible := eligible + 1;
      if hop < HOP {
        return false, last;
      }
      hop := 0;
      var tone := Look();
      var passes := PassGate(g, index, last);
      hit := tone && passes;
      newLast := if hit then index else last;
    }

    /** Unroll the ring and classify the window. */
    method Look() returns (tone: bool)
      requires buf != window && buf.Length == window.Length == WINDOW
      requires Ring.Holds(buf[..], pos, fill, heard) && fill == WINDOW
      modifies window
      ensures |heard| >= WINDOW && tone == sync(heard[|heard| - WINDOW..])
      ensures Ring.Holds(buf[..], pos, fill, heard)
    {
      Ring.CopyOut(buf, pos, window);
      Ring.UnrollsToLatest(buf[..], pos, fill, heard);
      return sync(window[..]);
    }

    method Record(sample: int)
      requires buf.Length == WINDOW && Ring.Holds(buf[..], pos, fill, heard)
      modifies `pos, `fill, `heard, buf
      ensures heard == old(heard) + [sample]
      ensures Ring.Holds(buf[..], pos, fill, heard)
    {
      Ring.Push(buf[..], pos, fill, heard, sample);
      heard := heard + [sample];
      buf[pos] := sample;
      assert buf[..] == old(buf[..])[old(pos) := sample];
      pos := pos + 1;
      if pos >= WINDOW {
        pos := 0;
      }
      if fill < WINDOW {
        fill := fill + 1;
      }
    }
  }
}
