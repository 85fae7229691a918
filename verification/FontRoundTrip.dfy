/** Why `decode_lvgl_stream` inverts `encode_no_counter`, what the decoder does on any stream, and how
    long a coded glyph is. */
module FontRoundTrip {
  import opened Wrappers
  import opened Bits
  import opened FontCodec

  // ----- the simulation

  /** The encoder's and the decoder's views of the same point of a glyph. */
  ghost predicate Rel(e: EncState, s: DecState, bpp: nat) {
    && e.prev == s.prev
    && (if e.single then s.mode == Single
        else s.mode == Repeated && s.count == e.repeatCount <= 10 && e.nonzero)
    && (if e.nonzero then s.rdp >= bpp else s.rdp == 0)
  }

  function EncAfter(vals: seq<nat>, e: EncState, bpp: nat): EncState
    decreases |vals|
  {
    if vals == [] then e else EncAfter(vals[1..], EncStep(e, vals[0], bpp).0, bpp)
  }

  /** The bits `bs` sit at position `pos` of `all`. */
  ghost predicate At(bs: seq<bit>, all: seq<bit>, pos: nat) {
    pos + |bs| <= |all| && all[pos..pos + |bs|] == bs
  }

  lemma AtConcat(a: seq<bit>, b: seq<bit>, all: seq<bit>, pos: nat)
    requires At(a + b, all, pos)
    ensures At(a, all, pos) && At(b, all, pos + |a|)
  {
    var ab := a + b;
    assert a == ab[..|a|] && b == ab[|a|..];
    assert all[pos..pos + |a|] == all[pos..pos + |ab|][..|a|];
    assert all[pos + |a|..pos + |ab|] == all[pos..pos + |ab|][|a|..];
  }

  lemma ReadDigits(v: nat, width: nat, all: seq<bit>, pos: nat)
    requires v < Pow2(width) && At(Digits(v, width), all, pos)
    ensures ReadBits(all, pos, width) == Some(v)
  {
    ValueOfDigits(v, width);
  }

  lemma ReadFlag(b: bit, all: seq<bit>, pos: nat)
    requires At([b], all, pos)
    ensures ReadBits(all, pos, 1) == Some(b)
  {
    assert all[pos..pos + 1] == [b];
    assert Value([b]) == 2 * Value([]) + b by { assert [b][..0] == []; }
  }

  ghost predicate InStep(all: seq<bit>, s: DecState, e: EncState, v: nat, bpp: nat) {
    var (e', bs) := EncStep(e, v, bpp);
    var r := DecStep(all, s, bpp);
    r.Some? && r.value.1 == v && Rel(e', r.value.0, bpp) && r.value.0.rdp == s.rdp + |bs|
  }

  lemma SingleInStep(all: seq<bit>, s: DecState, e: EncState, v: nat, bpp: nat)
    requires bpp >= 1 && v < Pow2(bpp) && Rel(e, s, bpp) && e.single && At(EncStep(e, v, bpp).1, all, s.rdp)
    ensures InStep(all, s, e, v, bpp)
  {
    ReadDigits(v, bpp, all, s.rdp);
  }

  lemma FlagInStep(all: seq<bit>, s: DecState, e: EncState, v: nat, bpp: nat)
    requires bpp >= 1 && Rel(e, s, bpp) && !e.single && v == e.prev && e.repeatCount < 10
    requires At(EncStep(e, v, bpp).1, all, s.rdp)
    ensures InStep(all, s, e, v, bpp)
  {
    ReadFlag(1, all, s.rdp);
  }

  lemma LiteralInStep(all: seq<bit>, s: DecState, e: EncState, v: nat, bpp: nat)
    requires bpp >= 1 && v < Pow2(bpp) && Rel(e, s, bpp) && !e.single && !(v == e.prev && e.repeatCount < 10)
    requires At(EncStep(e, v, bpp).1, all, s.rdp)
    ensures InStep(all, s, e, v, bpp)
  {
    AtConcat([0], Digits(v, bpp), all, s.rdp);
    ReadFlag(0, all, s.rdp);
    ReadDigits(v, bpp, all, s.rdp + 1);
  }

  /** One pixel: the decoder reads back what the encoder wrote and stays in step with it. */
  lemma StepMatches(all: seq<bit>, s: DecState, e: EncState, v: nat, bpp: nat)
    requires bpp >= 1 && v < Pow2(bpp) && Rel(e, s, bpp) && At(EncStep(e, v, bpp).1, all, s.rdp)
    ensures InStep(all, s, e, v, bpp)
  {
    if e.single {
      SingleInStep(all, s, e, v, bpp);
    } else if v == e.prev && e.repeatCount < 10 {
      FlagInStep(all, s, e, v, bpp);
    } else {
      LiteralInStep(all, s, e, v, bpp);
    }
  }

  /** Any number `k` of pixels: same values, same place in the stream, and never in COUNTER mode. */
  lemma {:induction false} Simulate(all: seq<bit>, s: DecState, vals: seq<nat>, k: nat, e: EncState, bpp: nat)
    requires k <= |vals| && bpp >= 1 && InRange(vals, bpp) && Rel(e, s, bpp)
    requires At(EncodeTail(vals, e, bpp), all, s.rdp)
    ensures var r := DecodeFrom(all, s, k, bpp);
            && r.Some? && r.value.out == vals[..k]
            && Rel(EncAfter(vals[..k], e, bpp), r.value.last, bpp)
            && r.value.last.rdp == s.rdp + |EncodeTail(vals[..k], e, bpp)|
    decreases k
  {
    if k > 0 {
      var (e', bs) := EncStep(e, vals[0], bpp);
      AtConcat(bs, EncodeTail(vals[1..], e', bpp), all, s.rdp);
      StepMatches(all, s, e, vals[0], bpp);
      var s' := DecStep(all, s, bpp).value.0;
      Simulate(all, s', vals[1..], k - 1, e', bpp);
      FrontPixel(vals, k, e, bpp);
    }
  }

  lemma FrontPixel(vals: seq<nat>, k: nat, e: EncState, bpp: nat)
    requires 0 < k <= |vals|
    ensures var (e', bs) := EncStep(e, vals[0], bpp);
            && vals[..k] == [vals[0]] + vals[1..][..k - 1]
            && EncodeTail(vals[..k], e, bpp) == bs + EncodeTail(vals[1..][..k - 1], e', bpp)
            && EncAfter(vals[..k], e, bpp) == EncAfter(vals[1..][..k - 1], e', bpp)
  {
    assert vals[..k][1..] == vals[1..][..k - 1];
  }

  /** The decoder reads every bit written and no more, whatever follows them: after `k` pixels it stands
      exactly behind the bits of the first `k` pixels, and it has not entered COUNTER. */
  lemma DecodeTracksEncode(vals: seq<nat>, bpp: nat, k: nat, trailing: seq<byte>)
    requires bpp >= 1 && InRange(vals, bpp) && k <= |vals|
    ensures var r := DecodeFrom(Unpack(Encode(vals, bpp) + trailing), DEC_START, k, bpp);
            && r.Some? && r.value.out == vals[..k]
            && r.value.last.rdp == |EncodeBits(vals[..k], bpp)|
            && r.value.last.mode != Counter
  {
    var written := EncodeBits(vals, bpp);
    UnpackConcat(Encode(vals, bpp), trailing);
    UnpackPack(written);
    var all := Unpack(Encode(vals, bpp) + trailing);
    assert all[0..|written|] == written;
    Simulate(all, DEC_START, vals, k, ENC_START, bpp);
  }

  /** With no bits per pixel every value is 0 and the decoder never leaves SINGLE. */
  lemma {:induction false} DecodeZeroWidth(all: seq<bit>, n: nat)
    ensures DecodeFrom(all, DEC_START, n, 0) == Some(Run(seq(n, _ => 0), DEC_START))
  {
    if n > 0 {
      DecodeZeroWidth(all, n - 1);
      assert seq(n, _ => 0) == [0] + seq(n - 1, _ => 0);
    } else {
      assert seq(0, _ => 0) == [];
    }
  }

  lemma DecodeWidthZeroGlyph(vals: seq<nat>, trailing: seq<byte>)
    requires InRange(vals, 0)
    ensures Decode(Encode(vals, 0) + trailing, |vals|, 0) == Some(vals)
  {
    DecodeZeroWidth(Unpack(Encode(vals, 0) + trailing), |vals|);
    assert Pow2(0) == 1;
    assert vals == seq(|vals|, _ => 0);
  }

  lemma {:induction false} DecodedInRange(all: seq<bit>, s: DecState, n: nat, bpp: nat)
    requires s.prev < Pow2(bpp)
    ensures var r := DecodeFrom(all, s, n, bpp); r.Some? ==> InRange(r.value.out, bpp)
    decreases n
  {
    if n > 0 {
      var step := DecStep(all, s, bpp);
      if step.Some? {
        DecodedInRange(all, step.value.0, n - 1, bpp);
      }
    }
  }

  /** The round trip, for every pixel list and every width: decoding gives the pixels back exactly when
      each of them fits in `bpp` bits, whatever bytes follow the glyph's own. */
  lemma RoundTrip(vals: seq<nat>, bpp: nat, trailing: seq<byte>)
    ensures Decode(Encode(vals, bpp) + trailing, |vals|, bpp) == Some(vals) <==> InRange(vals, bpp)
  {
    if InRange(vals, bpp) {
      if bpp == 0 {
        DecodeWidthZeroGlyph(vals, trailing);
      } else {
        DecodeTracksEncode(vals, bpp, |vals|, trailing);
        assert vals[..|vals|] == vals;
      }
    } else {
      DecodedInRange(Unpack(Encode(vals, bpp) + trailing), DEC_START, |vals|, bpp);
    }
  }

  // ----- the decoder on any stream

  /** What holds of the decoder's counter at the start of every pixel. */
  ghost predicate CounterBounds(s: DecState) {
    && (s.mode == Repeated ==> 0 <= s.count <= 10)
    && (s.mode == Counter ==> 1 <= s.count <= 63)
  }

  /** On any long enough stream: every read is in range, at most 7 + bpp bits go per pixel, and the
      counter stays in its bounds at every step. */
  lemma {:induction false} DecodeAnyStream(all: seq<bit>, s: DecState, n: nat, bpp: nat)
    requires CounterBounds(s) && s.rdp + n * (7 + bpp) <= |all|
    ensures var r := DecodeFrom(all, s, n, bpp);
            && r.Some? && CounterBounds(r.value.last)
            && s.rdp <= r.value.last.rdp <= s.rdp + n * (7 + bpp)
    decreases n
  {
    if n > 0 {
      var step := DecStep(all, s, bpp);
      assert n * (7 + bpp) == (n - 1) * (7 + bpp) + (7 + bpp);
      AnyStep(all, s, bpp);
      DecodeAnyStream(all, step.value.0, n - 1, bpp);
    }
  }

  lemma AnyStep(all: seq<bit>, s: DecState, bpp: nat)
    requires CounterBounds(s) && s.rdp + 7 + bpp <= |all|
    ensures var r := DecStep(all, s, bpp);
            r.Some? && CounterBounds(r.value.0) && s.rdp <= r.value.0.rdp <= s.rdp + 7 + bpp
  {
    assert Pow2(6) == 64;
  }

  /** A counter of `k` repeats the previous pixel `k - 1` times without reading a bit and then reads a
      literal. */
  lemma {:induction false} CounterRun(all: seq<bit>, s: DecState, bpp: nat)
    requires s.mode == Counter && s.count >= 1 && s.rdp + bpp <= |all|
    ensures var k := s.count;
            var r := DecodeFrom(all, s, k, bpp);
            && ReadBits(all, s.rdp, bpp).Some?
            && var lit := ReadBits(all, s.rdp, bpp).value;
            r == Some(Run(seq(k - 1, _ => s.prev) + [lit], DecState(s.rdp + bpp, lit, Single, 0)))
    decreases s.count
  {
    var lit := ReadBits(all, s.rdp, bpp).value;
    if s.count == 1 {
      assert DecodeFrom(all, DecStep(all, s, bpp).value.0, 0, bpp).value.out == [];
      assert seq(0, _ => s.prev) + [lit] == [lit] == [lit] + [];
    } else {
      var s' := s.(count := s.count - 1);
      CounterRun(all, s', bpp);
      assert [s.prev] + (seq(s.count - 2, _ => s.prev) + [lit]) == seq(s.count - 1, _ => s.prev) + [lit];
    }
  }

  /** A decode that succeeds is not changed by more bits behind it. */
  lemma {:induction false} DecodeExtends(bs: seq<bit>, more: seq<bit>, s: DecState, n: nat, bpp: nat)
    requires DecodeFrom(bs, s, n, bpp).Some?
    ensures DecodeFrom(bs + more, s, n, bpp) == DecodeFrom(bs, s, n, bpp)
    decreases n
  {
    if n > 0 {
      forall pos: nat, len: nat
        ensures ReadBits(bs, pos, len).Some? ==> ReadBits(bs + more, pos, len) == ReadBits(bs, pos, len)
      {
        if len > 0 && pos + len <= |bs| {
          assert (bs + more)[pos..pos + len] == bs[pos..pos + len];
        }
      }
      assert DecStep(bs + more, s, bpp) == DecStep(bs, s, bpp);
      DecodeExtends(bs, more, DecStep(bs, s, bpp).value.0, n - 1, bpp);
    }
  }

  // ----- how long a coded glyph is

  /** `n * bpp` as a sum, one pixel at a time. */
  function Literals(n: nat, bpp: nat): nat {
    if n == 0 then 0 else Literals(n - 1, bpp) + bpp
  }

  lemma {:induction false} LiteralsIsProduct(n: nat, bpp: nat)
    ensures Literals(n, bpp) == n * bpp
  {
    if n > 0 {
      LiteralsIsProduct(n - 1, bpp);
    }
  }

  /** Upper bound on the bits of `n` more pixels. */
  function TailBound(n: nat, e: EncState, bpp: nat): int {
    Literals(n, bpp) + (if !e.single then n + 1 else if e.nonzero then n else n - 1) / 2
  }

  lemma {:induction false} TailLength(vals: seq<nat>, e: EncState, bpp: nat)
    requires bpp >= 1 && (e.single || e.nonzero) && (vals == [] ==> e.nonzero)
    ensures |EncodeTail(vals, e, bpp)| <= TailBound(|vals|, e, bpp)
    decreases |vals|
  {
    if vals != [] {
      TailLength(vals[1..], EncStep(e, vals[0], bpp).0, bpp);
    }
  }

  /** A glyph of `n` pixels never takes more than `n*bpp + (n-1)/2` bits. */
  lemma EncodedLength(vals: seq<nat>, bpp: nat)
    requires bpp >= 1 && |vals| >= 1
    ensures |EncodeBits(vals, bpp)| <= |vals| * bpp + (|vals| - 1) / 2
  {
    TailLength(vals, ENC_START, bpp);
    LiteralsIsProduct(|vals|, bpp);
  }

  /** Pixels in equal pairs, neighbouring pairs different. */
  function Pairs(n: nat): (vals: seq<nat>)
    ensures |vals| == n && InRange(vals, 1)
  {
    assert Pow2(1) == 2;
    seq(n, i => (i / 2) % 2)
  }

  /** The bound is reached: a glyph of equal pairs takes exactly that many bits. */
  lemma EncodedLengthIsTight(n: nat, bpp: nat)
    requires n >= 1 && bpp >= 1
    ensures |EncodeBits(Pairs(n), bpp)| == n * bpp + (n - 1) / 2
  {
    var vals, e := Pairs(n), EncStep(ENC_START, 0, bpp).0;
    assert vals[0] == 0 && vals == [0] + vals[1..];
    PairsFrom(n, 1, e, bpp);
    LiteralsIsProduct(n, bpp);
  }

  /** Bits from pixel `i` on, where pixel `i - 1` was `((i - 1) / 2) % 2`. */
  lemma {:induction false} PairsFrom(n: nat, i: nat, e: EncState, bpp: nat)
    requires 1 <= i <= n && e.nonzero && e.prev == ((i - 1) / 2) % 2 && (e.single <==> i % 2 == 1)
    ensures |EncodeTail(Pairs(n)[i..], e, bpp)| == Literals(n - i, bpp) + (n - 1) / 2 - (i - 1) / 2
    decreases n - i
  {
    if i < n {
      var v := (i / 2) % 2;
      assert Pairs(n)[i..] == [v] + Pairs(n)[i + 1..];
      PairStep(e, i, bpp);
      PairsFrom(n, i + 1, EncStep(e, v, bpp).0, bpp);
    }
  }

  lemma PairStep(e: EncState, i: nat, bpp: nat)
    requires i >= 1 && e.nonzero && e.prev == ((i - 1) / 2) % 2 && (e.single <==> i % 2 == 1)
    ensures var (e', bs) := EncStep(e, (i / 2) % 2, bpp);
            && e'.nonzero && e'.prev == (i / 2) % 2 && (e'.single <==> i % 2 == 0)
            && |bs| == bpp + i / 2 - (i - 1) / 2
  {
    if i % 2 == 1 {
      assert i / 2 == (i - 1) / 2;
    } else {
      assert i / 2 == (i - 1) / 2 + 1;
    }
  }

  /** Bits for the first `m` pixels that follow the first of a run of equal pixels: each 12 of them cost
      one literal, ten flags and one flag with a literal. */
  function RunBits(m: nat, bpp: nat): nat {
    if m == 0 then 0
    else if m < 12 then bpp + m - 1
    else RunBits(m - 12, bpp) + 2 * bpp + 11
  }

  lemma {:induction false} RunBitsClosed(m: nat, bpp: nat)
    ensures RunBits(m, bpp) == (m / 12) * (2 * bpp + 11) + (if m % 12 == 0 then 0 else bpp + m % 12 - 1)
  {
    if m >= 12 {
      RunBitsClosed(m - 12, bpp);
      var q, c := (m - 12) / 12, 2 * bpp + 11;
      assert m / 12 == q + 1 && m % 12 == (m - 12) % 12;
      assert (q + 1) * c == q * c + c;
    }
  }

  /** Exact length of `n` equal pixels. */
  lemma EqualPixelsLength(v: nat, n: nat, bpp: nat)
    requires n >= 1 && bpp >= 1
    ensures |EncodeBits(seq(n, _ => v), bpp)|
         == bpp + ((n - 1) / 12) * (2 * bpp + 11) + (if (n - 1) % 12 == 0 then 0 else bpp + (n - 1) % 12 - 1)
  {
    RunBitsClosed(n - 1, bpp);
    var vals := seq(n, _ => v);
    assert vals[1..] == seq(n - 1, _ => v);
    EqualTail(v, n - 1, 0, EncState(true, v, true, 0), bpp);
  }

  /** `m` equal pixels, `j` of the cycle of 12 already behind. */
  lemma {:induction false} EqualTail(v: nat, m: nat, j: nat, e: EncState, bpp: nat)
    requires j < 12 && e.nonzero && e.prev == v
    requires if j == 0 then e.single else !e.single && e.repeatCount == j - 1
    ensures |EncodeTail(seq(m, _ => v), e, bpp)| == RunBits(j + m, bpp) - RunBits(j, bpp)
    decreases m
  {
    var vals := seq(m, _ => v);
    if m > 0 {
      assert vals[1..] == seq(m - 1, _ => v);
      var (e', bs) := EncStep(e, v, bpp);
      if j == 11 {
        EqualTail(v, m - 1, 0, e', bpp);
      } else {
        EqualTail(v, m - 1, j + 1, e', bpp);
      }
    }
  }
}
