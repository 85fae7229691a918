/** The circular buffer that HeaderDetector, SyncDetector and Scottie1Decoder each keep: a slot position, a
    fill count, and an unrolling loop that copies the slots out oldest first. */
module Ring {

  /** The slot `j` places after the oldest one. */
  function Slot(pos: nat, j: nat, size: nat): nat {
    if pos + j >= size then pos + j - size else pos + j
  }

  function Advance(pos: nat, size: nat): nat {
    if pos + 1 >= size then 0 else pos + 1
  }

  /** The buffer holds the last `fill` samples of the history `h`, where `fill` is all of them up to the
      buffer's size. */
  ghost predicate Holds(buf: seq<int>, pos: nat, fill: nat, h: seq<int>) {
    && pos < |buf|
    && fill == (if |h| < |buf| then |h| else |buf|)
    && forall j :: |buf| - fill <= j < |buf| ==> buf[Slot(pos, j, |buf|)] == h[|h| - |buf| + j]
  }

  function Unrolled(buf: seq<int>, pos: nat): (w: seq<int>)
    requires pos < |buf|
    ensures |w| == |buf|
  {
    seq(|buf|, j requires 0 <= j < |buf| => buf[Slot(pos, j, |buf|)])
  }

  /** Writing one slot and advancing is appending to the history. */
  lemma Push(buf: seq<int>, pos: nat, fill: nat, h: seq<int>, x: int)
    requires Holds(buf, pos, fill, h)
    ensures Holds(buf[pos := x], Advance(pos, |buf|), if fill < |buf| then fill + 1 else fill, h + [x])
  {
    var size := |buf|;
    var buf', pos', h' := buf[pos := x], Advance(pos, size), h + [x];
    var fill' := if fill < size then fill + 1 else fill;
    forall j | size - fill' <= j < size
      ensures buf'[Slot(pos', j, size)] == h'[|h'| - size + j]
    {
      if j < size - 1 {
        assert Slot(pos', j, size) == Slot(pos, j + 1, size);
      }
    }
  }

  /** A full buffer unrolls to exactly the last samples, in the order they came. */
  lemma UnrollsToLatest(buf: seq<int>, pos: nat, fill: nat, h: seq<int>)
    requires Holds(buf, pos, fill, h) && fill == |buf|
    ensures |h| >= |buf| && Unrolled(buf, pos) == h[|h| - |buf|..]
  {
  }

  /** The unrolling loop. */
  method CopyOut(buf: array<int>, pos: nat, window: array<int>)
    requires buf != window && buf.Length == window.Length && pos < buf.Length
    modifies window
    ensures window[..] == Unrolled(buf[..], pos)
  {
    for j := 0 to window.Length
      invariant forall k :: 0 <= k < j ==> window[k] == buf[Slot(pos, k, buf.Length)]
    {
      var idx := pos + j;
      if idx >= buf.Length {
        idx := idx - buf.Length;
      }
      window[j] := buf[idx];
    }
  }
}
