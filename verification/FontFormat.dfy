/** The bits of the run-length coding: what the encoder writes for plain pixels and for runs, and what the decoder makes
    of a counter (tools/compress_lvgl_bitmap_font.py). */
module FontFormat {
  import opened Wrappers
  import opened Bits
  import opened FontCodec
  import opened FontRoundTrip

  // ----- plain pixels

  function AllDigits(vals: seq<nat>, bpp: nat): seq<bit> {
    if vals == [] then [] else Digits(vals[0], bpp) + AllDigits(vals[1..], bpp)
  }

  ghost predicate NeighboursDiffer(vals: seq<nat>) {
    forall i, j :: 0 <= i < j < |vals| && j == i + 1 ==> vals[i] != vals[j]
  }

  /** Where no two neighbours are equal, the pixels are written as they are. */
  lemma PlainWhereNeighboursDiffer(vals: seq<nat>, bpp: nat)
    requires NeighboursDiffer(vals)
    ensures EncodeBits(vals, bpp) == AllDigits(vals, bpp)
  {
    PlainTail(vals, ENC_START, bpp);
  }

  lemma {:induction false} PlainTail(vals: seq<nat>, e: EncState, bpp: nat)
    requires NeighboursDiffer(vals) && e.single && (vals != [] && e.nonzero ==> vals[0] != e.prev)
    ensures EncodeTail(vals, e, bpp) == AllDigits(vals, bpp)
    decreases |vals|
  {
    if vals != [] {
      PlainTail(vals[1..], EncStep(e, vals[0], bpp).0, bpp);
    }
  }

  // ----- runs

  function Same(v: nat, n: nat): (vals: seq<nat>)
    ensures |vals| == n
  {
    seq(n, _ => v)
  }

  lemma SameMore(v: nat, n: nat, w: nat)
    ensures Same(v, n + 1) + [w] == [v] + (Same(v, n) + [w])
  {
  }

  /** The flag bits of a run. */
  function Ones(n: nat): (bs: seq<bit>)
    ensures |bs| == n
  {
    seq(n, _ => 1)
  }

  lemma OnesMore(n: nat)
    ensures Ones(n + 1) == [1] + Ones(n)
  {
  }

  lemma EncodeHead(v: nat, rest: seq<nat>, e: EncState, bpp: nat)
    ensures EncodeTail([v] + rest, e, bpp) == EncStep(e, v, bpp).1 + EncodeTail(rest, EncStep(e, v, bpp).0, bpp)
  {
    assert ([v] + rest)[1..] == rest;
  }

  /** A run of two to twelve equal pixels is written as two pixels and a one for each further; what ends it, or
      the thirteenth of them, as a zero and the pixel. */
  lemma RunIsFlagged(v: nat, w: nat, n: nat, bpp: nat)
    requires 2 <= n <= 12 && (w != v || n == 12)
    ensures EncodeBits(Same(v, n) + [w], bpp)
         == Digits(v, bpp) + (Digits(v, bpp) + (Ones(n - 2) + ([0] + Digits(w, bpp))))
  {
    SameMore(v, n - 1, w);
    SameMore(v, n - 2, w);
    EncodeHead(v, Same(v, n - 1) + [w], ENC_START, bpp);
    EncodeHead(v, Same(v, n - 2) + [w], EncState(true, v, true, 0), bpp);
    FlaggedTail(v, w, n - 2, EncState(false, v, true, 0), bpp);
  }

  lemma {:induction false} FlaggedTail(v: nat, w: nat, m: nat, e: EncState, bpp: nat)
    requires !e.single && e.prev == v && e.repeatCount + m <= 10 && (w != v || e.repeatCount + m == 10)
    ensures EncodeTail(Same(v, m) + [w], e, bpp) == Ones(m) + ([0] + Digits(w, bpp))
    decreases m
  {
    if m == 0 {
      EncodeHead(w, [], e, bpp);
      assert Same(v, 0) + [w] == [w] + [] && Ones(0) + ([0] + Digits(w, bpp)) == [0] + Digits(w, bpp) + [];
    } else {
      SameMore(v, m - 1, w);
      EncodeHead(v, Same(v, m - 1) + [w], e, bpp);
      FlaggedTail(v, w, m - 1, e.(repeatCount := e.repeatCount + 1), bpp);
      OnesMore(m - 1);
      Regroup(Ones(m - 1), [0] + Digits(w, bpp));
    }
  }

  lemma Regroup(a: seq<bit>, b: seq<bit>)
    ensures [1] + (a + b) == [1] + a + b
  {
  }

  // ----- the counter of the format, which the encoder never uses

  /** A counter `c` and the pixel that ends it, from bit `pos` on. */
  ghost predicate CountedAt(all: seq<bit>, pos: nat, c: nat, w: nat, bpp: nat) {
    1 <= c <= 63 && w < Pow2(bpp) && At(Digits(c, 6), all, pos) && At(Digits(w, bpp), all, pos + 6)
  }

  /** `n` pixels decoded from a state: `n - 1` times `v` and then `w`. */
  ghost predicate Decodes(all: seq<bit>, s: DecState, n: nat, bpp: nat, v: nat, w: nat, last: DecState) {
    n >= 1 && DecodeFrom(all, s, n, bpp) == Some(Run(Same(v, n - 1) + [w], last))
  }

  lemma DecodesMore(all: seq<bit>, s: DecState, s': DecState, n: nat, bpp: nat, v: nat, w: nat, last: DecState)
    requires DecStep(all, s, bpp) == Some((s', v)) && Decodes(all, s', n, bpp, v, w, last)
    ensures Decodes(all, s, n + 1, bpp, v, w, last)
  {
    SameMore(v, n - 1, w);
  }

  lemma CounterEnds(all: seq<bit>, s: DecState, w: nat, bpp: nat)
    requires s.mode == Counter && s.count >= 1 && w < Pow2(bpp) && At(Digits(w, bpp), all, s.rdp)
    ensures Decodes(all, s, s.count, bpp, s.prev, w, DecState(s.rdp + bpp, w, Single, 0))
  {
    ReadDigits(w, bpp, all, s.rdp);
    CounterRun(all, s, bpp);
  }

  lemma LastFlag(all: seq<bit>, s: DecState, c: nat, w: nat, bpp: nat)
    requires s.mode == Repeated && s.count == 10 && At([1], all, s.rdp) && CountedAt(all, s.rdp + 1, c, w, bpp)
    ensures DecStep(all, s, bpp) == Some((DecState(s.rdp + 7, s.prev, Counter, c), s.prev))
  {
    ReadFlag(1, all, s.rdp);
    assert Pow2(6) == 64;
    ReadDigits(c, 6, all, s.rdp + 1);
  }

  lemma OneFlag(all: seq<bit>, s: DecState, bpp: nat)
    requires s.mode == Repeated && 0 <= s.count < 10 && At([1], all, s.rdp)
    ensures DecStep(all, s, bpp) == Some((DecState(s.rdp + 1, s.prev, Repeated, s.count + 1), s.prev))
  {
    ReadFlag(1, all, s.rdp);
  }

  lemma LastFlagThenCounter(all: seq<bit>, s: DecState, n: nat, c: nat, w: nat, bpp: nat, last: DecState)
    requires s.mode == Repeated && s.count == 10 && At([1], all, s.rdp) && CountedAt(all, s.rdp + 1, c, w, bpp)
    requires n == 1 + c && last == DecState(s.rdp + 7 + bpp, w, Single, 0)
    ensures Decodes(all, s, n, bpp, s.prev, w, last)
  {
    var s' := DecState(s.rdp + 7, s.prev, Counter, c);
    LastFlag(all, s, c, w, bpp);
    CounterEnds(all, s', w, bpp);
    DecodesMore(all, s, s', c, bpp, s.prev, w, last);
  }

  lemma OneFlagMore(all: seq<bit>, s: DecState, n: nat, w: nat, bpp: nat, last: DecState)
    requires s.mode == Repeated && 0 <= s.count < 10 && At([1], all, s.rdp)
    requires Decodes(all, DecState(s.rdp + 1, s.prev, Repeated, s.count + 1), n, bpp, s.prev, w, last)
    ensures Decodes(all, s, n + 1, bpp, s.prev, w, last)
  {
    OneFlag(all, s, bpp);
    DecodesMore(all, s, DecState(s.rdp + 1, s.prev, Repeated, s.count + 1), n, bpp, s.prev, w, last);
  }

  /** The state behind `m` more flags. */
  function Flagged(s: DecState, m: nat): DecState {
    DecState(s.rdp + m, s.prev, Repeated, s.count + m)
  }

  /** Before the eleventh, each one repeats the pixel. */
  lemma {:induction false} FlagsRepeat(all: seq<bit>, s: DecState, m: nat, n: nat, bpp: nat, w: nat, last: DecState)
    requires s.mode == Repeated && 0 <= s.count && s.count + m <= 10 && At(Ones(m), all, s.rdp)
    requires m <= n && Decodes(all, Flagged(s, m), n - m, bpp, s.prev, w, last)
    ensures Decodes(all, s, n, bpp, s.prev, w, last)
    decreases m
  {
    if m == 0 {
      assert Flagged(s, 0) == s;
    } else {
      FirstOfOnes(all, s.rdp, m - 1);
      assert Flagged(Flagged(s, 1), m - 1) == Flagged(s, m);
      FlagsRepeat(all, Flagged(s, 1), m - 1, n - 1, bpp, w, last);
      OneFlagMore(all, s, n - 1, w, bpp, last);
    }
  }

  lemma FirstOfOnes(all: seq<bit>, pos: nat, n: nat)
    requires At(Ones(n + 1), all, pos)
    ensures At([1], all, pos) && At(Ones(n), all, pos + 1)
  {
    OnesMore(n);
    AtConcat([1], Ones(n), all, pos);
  }

  lemma LastOfOnes(all: seq<bit>, pos: nat, n: nat)
    requires At(Ones(n + 1), all, pos)
    ensures At(Ones(n), all, pos) && At([1], all, pos + n)
  {
    assert Ones(n + 1) == Ones(n) + [1];
    AtConcat(Ones(n), [1], all, pos);
  }

  lemma TwoEqual(all: seq<bit>, v: nat, bpp: nat)
    requires bpp >= 1 && v < Pow2(bpp) && At(Digits(v, bpp), all, 0) && At(Digits(v, bpp), all, bpp)
    ensures DecStep(all, DEC_START, bpp) == Some((DecState(bpp, v, Single, 0), v))
    ensures DecStep(all, DecState(bpp, v, Single, 0), bpp) == Some((DecState(2 * bpp, v, Repeated, 0), v))
  {
    ReadDigits(v, bpp, all, 0);
    ReadDigits(v, bpp, all, bpp);
  }

  lemma TwoMore(all: seq<bit>, a: DecState, b: DecState, c: DecState, n: nat, bpp: nat, v: nat, w: nat,
                last: DecState)
    requires DecStep(all, a, bpp) == Some((b, v)) && DecStep(all, b, bpp) == Some((c, v))
    requires Decodes(all, c, n, bpp, v, w, last)
    ensures Decodes(all, a, n + 2, bpp, v, w, last)
  {
    DecodesMore(all, b, c, n, bpp, v, w, last);
    DecodesMore(all, a, b, n + 1, bpp, v, w, last);
  }

  /** Two equal pixels, eleven ones, a counter `c` in six bits and another pixel: the decoder gives the first pixel
      12 + c times and then the other. */
  lemma CounterStream(all: seq<bit>, v: nat, c: nat, w: nat, bpp: nat, n: nat, last: DecState)
    requires bpp >= 1 && v < Pow2(bpp)
    requires At(Digits(v, bpp), all, 0) && At(Digits(v, bpp), all, bpp)
    requires At(Ones(11), all, 2 * bpp) && CountedAt(all, 2 * bpp + 11, c, w, bpp)
    requires n == 13 + c && last == DecState(3 * bpp + 17, w, Single, 0)
    ensures Decodes(all, DEC_START, n, bpp, v, w, last)
  {
    var s := DecState(2 * bpp, v, Repeated, 0);
    AllFlags(all, s, n - 2, c, w, bpp, last);
    EqualThenRun(all, s, n, w, bpp, last);
  }

  lemma AllFlags(all: seq<bit>, s: DecState, n: nat, c: nat, w: nat, bpp: nat, last: DecState)
    requires s.mode == Repeated && s.count == 0
    requires At(Ones(11), all, s.rdp) && CountedAt(all, s.rdp + 11, c, w, bpp)
    requires n == 11 + c && last == DecState(s.rdp + 17 + bpp, w, Single, 0)
    ensures Decodes(all, s, n, bpp, s.prev, w, last)
  {
    LastOfOnes(all, s.rdp, 10);
    LastFlagThenCounter(all, Flagged(s, 10), n - 10, c, w, bpp, last);
    FlagsRepeat(all, s, 10, n, bpp, w, last);
  }

  lemma EqualThenRun(all: seq<bit>, s: DecState, n: nat, w: nat, bpp: nat, last: DecState)
    requires bpp >= 1 && s == DecState(2 * bpp, s.prev, Repeated, 0) && s.prev < Pow2(bpp) && n >= 2
    requires At(Digits(s.prev, bpp), all, 0) && At(Digits(s.prev, bpp), all, bpp)
    requires Decodes(all, s, n - 2, bpp, s.prev, w, last)
    ensures Decodes(all, DEC_START, n, bpp, s.prev, w, last)
  {
    TwoEqual(all, s.prev, bpp);
    TwoMore(all, DEC_START, DecState(bpp, s.prev, Single, 0), s, n - 2, bpp, s.prev, w, last);
  }
}
