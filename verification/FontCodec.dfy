/** The run-length coding of one glyph: `read_plain_pixels`, `encode_no_counter` and
    `decode_lvgl_stream` (tools/compress_lvgl_bitmap_font.py). */
module FontCodec {
  import opened Wrappers
  import opened Bits

  // ----- plain pixels

  /** `n` consecutive pixels of `bpp` bits from bit `pos` on; None where the reader runs off the buffer. */
  function PlainPixels(bs: seq<bit>, pos: nat, n: nat, bpp: nat): (r: Option<seq<nat>>)
    ensures r.Some? ==> |r.value| == n && InRange(r.value, bpp)
    decreases n
  {
    if n == 0 then
      Some([])
    else
      match ReadBits(bs, pos, bpp)
      case None => None
      case Some(v) =>
        match PlainPixels(bs, pos + bpp, n - 1, bpp)
        case None => None
        case Some(rest) => Some([v] + rest)
  }

  ghost predicate InRange(vals: seq<nat>, bpp: nat) {
    forall i :: 0 <= i < |vals| ==> vals[i] < Pow2(bpp)
  }

  /** Pixel `i` is the number in the `bpp` bits behind those of the pixels before it. */
  ghost predicate PixelFrom(bs: seq<bit>, pos: nat, bpp: nat, i: nat, v: nat) {
    var at := pos + i * bpp;
    if bpp == 0 then v == 0 else at + bpp <= |bs| && v == Value(bs[at..at + bpp])
  }

  ghost predicate PixelsFrom(bs: seq<bit>, pos: nat, bpp: nat, vals: seq<nat>) {
    forall i: nat :: i < |vals| ==> PixelFrom(bs, pos, bpp, i, vals[i])
  }

  /** The buffer ends before the last of `n` pixels. */
  predicate RunsOut(bs: seq<bit>, pos: nat, n: nat, bpp: nat) {
    n > 0 && bpp > 0 && pos + n * bpp > |bs|
  }

  lemma {:induction false} PlainPixelsEnd(bs: seq<bit>, pos: nat, n: nat, bpp: nat)
    ensures PlainPixels(bs, pos, n, bpp) == None <==> RunsOut(bs, pos, n, bpp)
    decreases n
  {
    if n > 0 {
      PlainPixelsEnd(bs, pos + bpp, n - 1, bpp);
      assert n * bpp == (n - 1) * bpp + bpp;
    }
  }

  /** Which bits each pixel comes from. */
  lemma {:induction false} PlainPixelsAre(bs: seq<bit>, pos: nat, n: nat, bpp: nat)
    requires PlainPixels(bs, pos, n, bpp).Some?
    ensures PixelsFrom(bs, pos, bpp, PlainPixels(bs, pos, n, bpp).value)
    decreases n
  {
    if n > 0 {
      PlainPixelsAre(bs, pos + bpp, n - 1, bpp);
      MorePixels(bs, pos, bpp, ReadBits(bs, pos, bpp).value, PlainPixels(bs, pos + bpp, n - 1, bpp).value);
    }
  }

  lemma MorePixels(bs: seq<bit>, pos: nat, bpp: nat, v: nat, rest: seq<nat>)
    requires ReadBits(bs, pos, bpp) == Some(v) && PixelsFrom(bs, pos + bpp, bpp, rest)
    ensures PixelsFrom(bs, pos, bpp, [v] + rest)
  {
    forall i: nat | i < |[v] + rest|
      ensures PixelFrom(bs, pos, bpp, i, ([v] + rest)[i])
    {
      if i > 0 {
        assert PixelFrom(bs, pos + bpp, bpp, i - 1, rest[i - 1]);
        assert (i - 1) * bpp + bpp == i * bpp;
      }
    }
  }

  lemma PixelsOfBytes(raw: seq<byte>, start: nat, n: nat, bpp: nat)
    ensures var r := PlainPixels(Unpack(raw), 8 * start, n, bpp);
            && (r == None <==> n > 0 && bpp > 0 && 8 * start + n * bpp > 8 * |raw|)
            && (r.Some? ==> |r.value| == n && PixelsFrom(Unpack(raw), 8 * start, bpp, r.value))
  {
    PlainPixelsEnd(Unpack(raw), 8 * start, n, bpp);
    if PlainPixels(Unpack(raw), 8 * start, n, bpp).Some? {
      PlainPixelsAre(Unpack(raw), 8 * start, n, bpp);
    }
  }

  /** `read_plain_pixels`: None exactly when the data run out, and else every pixel from its own bits. */
  method ReadPlainPixels(raw: seq<byte>, startByte: nat, pxCount: nat, bpp: nat)
    returns (r: Option<seq<nat>>)
    ensures r == PlainPixels(Unpack(raw), 8 * startByte, pxCount, bpp)
    ensures r == None <==> pxCount > 0 && bpp > 0 && 8 * startByte + pxCount * bpp > 8 * |raw|
    ensures r.Some? ==> |r.value| == pxCount && PixelsFrom(Unpack(raw), 8 * startByte, bpp, r.value)
  {
    PixelsOfBytes(raw, startByte, pxCount, bpp);
    var vals := [];
    var bitPos: nat := startByte * 8;
    assert bitPos == 8 * startByte;
    ghost var bs := Unpack(raw);
    PrependNothing(PlainPixels(bs, bitPos, pxCount, bpp));
    for i := 0 to pxCount
      invariant Prepend(vals, PlainPixels(bs, bitPos, pxCount - i, bpp))
             == PlainPixels(bs, 8 * startByte, pxCount, bpp)
    {
      var v := GetBits(raw, bitPos, bpp);
      if v == None {
        return None;
      }
      PrependAssoc(vals, v.value, PlainPixels(bs, bitPos + bpp, pxCount - i - 1, bpp));
      vals := vals + [v.value];
      bitPos := bitPos + bpp;
    }
    assert vals + [] == vals;
    return Some(vals);
  }

  function Prepend(a: seq<nat>, r: Option<seq<nat>>): Option<seq<nat>> {
    match r
    case None => None
    case Some(rest) => Some(a + rest)
  }

  lemma PrependNothing(r: Option<seq<nat>>)
    ensures Prepend([], r) == r
  {
    if r.Some? {
      assert [] + r.value == r.value;
    }
  }

  lemma PrependAssoc(a: seq<nat>, v: nat, r: Option<seq<nat>>)
    ensures Prepend(a, Prepend([v], r)) == Prepend(a + [v], r)
  {
    if r.Some? {
      assert a + ([v] + r.value) == (a + [v]) + r.value;
    }
  }

  // ----- the encoder

  datatype EncState = EncState(single: bool, prev: nat, nonzero: bool, repeatCount: nat)

  const ENC_START := EncState(true, 0, false, 0)

  /** What one pixel appends to the bit list and the state it leaves. */
  function EncStep(e: EncState, v: nat, bpp: nat): (EncState, seq<bit>) {
    if e.single then
      var entered := e.nonzero && v == e.prev;
      (EncState(!entered, v, true, if entered then 0 else e.repeatCount), Digits(v, bpp))
    else if v == e.prev && e.repeatCount < 10 then
      (e.(repeatCount := e.repeatCount + 1), [1])
    else
      (e.(single := true, prev := v), [0] + Digits(v, bpp))
  }

  function EncodeTail(vals: seq<nat>, e: EncState, bpp: nat): seq<bit> {
    if vals == [] then
      []
    else
      var (e', bs) := EncStep(e, vals[0], bpp);
      bs + EncodeTail(vals[1..], e', bpp)
  }

  /** The bits written for a glyph. */
  function EncodeBits(vals: seq<nat>, bpp: nat): seq<bit> {
    EncodeTail(vals, ENC_START, bpp)
  }

  function Encode(vals: seq<nat>, bpp: nat): seq<byte> {
    Pack(EncodeBits(vals, bpp))
  }

  method EncodeNoCounter(vals: seq<nat>, bpp: nat) returns (comp: seq<byte>)
    ensures comp == Encode(vals, bpp)
  {
    if |vals| == 0 {
      return [];
    }
    var w := new BitWriter();
    var stateSingle, prev, rdpNonzero, repeatCount := true, 0, false, 0;
    var i := 0;
    assert vals[0..] == vals;
    while i < |vals|
      invariant i <= |vals|
      invariant w.bits + EncodeTail(vals[i..], EncState(stateSingle, prev, rdpNonzero, repeatCount), bpp)
             == EncodeBits(vals, bpp)
    {
      var v := vals[i];
      ghost var e := EncState(stateSingle, prev, rdpNonzero, repeatCount);
      EncodeNext(w.bits, vals, i, e, bpp);
      i := i + 1;
      if stateSingle {
        w.Put(v, bpp);
        if rdpNonzero && v == prev {
          stateSingle := false;
          repeatCount := 0;
        }
        prev := v;
        rdpNonzero := true;
        continue;
      }
      if v == prev && repeatCount < 10 {
        w.Put(1, 1);
        repeatCount := repeatCount + 1;
      } else {
        w.Put(0, 1);
        w.Put(v, bpp);
        prev := v;
        stateSingle := true;
      }
    }
    assert w.bits + [] == w.bits;
    comp := w.ToBytes();
  }

  lemma EncodeNext(written: seq<bit>, vals: seq<nat>, i: nat, e: EncState, bpp: nat)
    requires i < |vals|
    ensures var (e', bs) := EncStep(e, vals[i], bpp);
            written + EncodeTail(vals[i..], e, bpp) == written + bs + EncodeTail(vals[i + 1..], e', bpp)
    ensures Digits(1, 1) == [1] && Digits(0, 1) == [0]
    ensures written + [0] + Digits(vals[i], bpp) == written + ([0] + Digits(vals[i], bpp))
  {
    assert vals[i..][1..] == vals[i + 1..];
  }

  // ----- the decoder

  datatype Mode = Single | Repeated | Counter

  datatype DecState = DecState(rdp: nat, prev: nat, mode: Mode, count: int)

  const DEC_START := DecState(0, 0, Single, 0)

  /** One pixel: the new state and the value; None where a read goes past the stream. */
  function DecStep(bs: seq<bit>, s: DecState, bpp: nat): Option<(DecState, nat)> {
    match s.mode
    case Single =>
      (match ReadBits(bs, s.rdp, bpp)
       case None => None
       case Some(v) =>
         var rdp := s.rdp + bpp;
         if rdp != bpp && s.prev == v then Some((DecState(rdp, v, Repeated, 0), v))
         else Some((DecState(rdp, v, Single, s.count), v)))
    case Repeated =>
      (match ReadBits(bs, s.rdp, 1)
       case None => None
       case Some(flag) =>
         if flag != 1 then
           Literal(bs, DecState(s.rdp + 1, s.prev, Repeated, s.count + 1), bpp)
         else if s.count + 1 != 11 then
           Some((DecState(s.rdp + 1, s.prev, Repeated, s.count + 1), s.prev))
         else
           match ReadBits(bs, s.rdp + 1, 6)
           case None => None
           case Some(c) =>
             if c != 0 then Some((DecState(s.rdp + 7, s.prev, Counter, c), s.prev))
             else Literal(bs, DecState(s.rdp + 7, s.prev, Repeated, 0), bpp))
    case Counter =>
      if s.count - 1 == 0 then Literal(bs, s.(count := 0), bpp)
      else Some((s.(count := s.count - 1), s.prev))
  }

  /** Read a full pixel value and return to SINGLE. */
  function Literal(bs: seq<bit>, s: DecState, bpp: nat): Option<(DecState, nat)> {
    match ReadBits(bs, s.rdp, bpp)
    case None => None
    case Some(v) => Some((DecState(s.rdp + bpp, v, Single, s.count), v))
  }

  datatype Run = Run(out: seq<nat>, last: DecState)

  function DecodeFrom(bs: seq<bit>, s: DecState, n: nat, bpp: nat): (r: Option<Run>)
    ensures r.Some? ==> |r.value.out| == n
    decreases n
  {
    if n == 0 then
      Some(Run([], s))
    else
      match DecStep(bs, s, bpp)
      case None => None
      case Some((s', v)) =>
        match DecodeFrom(bs, s', n - 1, bpp)
        case None => None
        case Some(rest) => Some(Run([v] + rest.out, rest.last))
  }

  function Decode(comp: seq<byte>, n: nat, bpp: nat): Option<seq<nat>> {
    match DecodeFrom(Unpack(comp), DEC_START, n, bpp)
    case None => None
    case Some(run) => Some(run.out)
  }

  method DecodeLvglStream(comp: seq<byte>, pxCount: nat, bpp: nat) returns (r: Option<seq<nat>>)
    ensures r == Decode(comp, pxCount, bpp)
  {
    var s := DEC_START;
    var out: seq<nat> := [];
    ghost var bs := Unpack(comp);
    After0(DecodeFrom(bs, DEC_START, pxCount, bpp));
    for i := 0 to pxCount
      invariant After(out, DecodeFrom(bs, s, pxCount - i, bpp)) == DecodeFrom(bs, DEC_START, pxCount, bpp)
    {
      AfterStep(out, bs, s, pxCount - i, bpp);
      var next := DecodePixel(comp, s, bpp);
      if next == None {
        return None;
      }
      s := next.value.0;
      out := out + [next.value.1];
    }
    assert out + [] == out;
    return Some(out);
  }

  /** The body of the decoder's loop. */
  method DecodePixel(comp: seq<byte>, s: DecState, bpp: nat) returns (r: Option<(DecState, nat)>)
    ensures r == DecStep(Unpack(comp), s, bpp)
  {
    var rdp, prev, state, count := s.rdp, s.prev, s.mode, s.count;
    var ret := Some(prev);
    var literal := false;
    if state == Single {
      ret := GetBits(comp, rdp, bpp);
      if ret == None {
        return None;
      }
      rdp := rdp + bpp;
      if rdp != bpp && prev == ret.value {
        state := Repeated;
        count := 0;
      }
      prev := ret.value;
    } else if state == Repeated {
      var v := GetBits(comp, rdp, 1);
      if v == None {
        return None;
      }
      rdp := rdp + 1;
      count := count + 1;
      if v.value == 1 {
        if count == 11 {
          var c := GetBits(comp, rdp, 6);
          if c == None {
            return None;
          }
          rdp := rdp + 6;
          count := c.value;
          if count != 0 {
            state := Counter;
          } else {
            literal := true;
          }
        }
      } else {
        literal := true;
      }
    } else {
      count := count - 1;
      literal := count == 0;
    }
    if literal {
      ret := GetBits(comp, rdp, bpp);
      if ret == None {
        return None;
      }
      rdp := rdp + bpp;
      prev := ret.value;
      state := Single;
    }
    return Some((DecState(rdp, prev, state, count), ret.value));
  }

  /** A run, seen from `out` pixels earlier. */
  function After(out: seq<nat>, r: Option<Run>): Option<Run> {
    match r
    case None => None
    case Some(run) => Some(run.(out := out + run.out))
  }

  lemma After0(r: Option<Run>)
    ensures After([], r) == r
  {
    if r.Some? {
      assert [] + r.value.out == r.value.out;
    }
  }

  lemma AfterStep(out: seq<nat>, bs: seq<bit>, s: DecState, n: nat, bpp: nat)
    requires n > 0
    ensures match DecStep(bs, s, bpp)
            case None => After(out, DecodeFrom(bs, s, n, bpp)) == None
            case Some((s', v)) =>
              After(out, DecodeFrom(bs, s, n, bpp)) == After(out + [v], DecodeFrom(bs, s', n - 1, bpp))
  {
    match DecStep(bs, s, bpp) {
      case None =>
      case Some((s', v)) =>
        var rest := DecodeFrom(bs, s', n - 1, bpp);
        if rest.Some? {
          assert out + ([v] + rest.value.out) == (out + [v]) + rest.value.out;
        }
    }
  }
}
