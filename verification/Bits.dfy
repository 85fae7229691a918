/** Bits and bytes, most significant bit first: `get_bits`, `BitWriter` and the two directions
    between a byte string and the bits it holds (tools/compress_lvgl_bitmap_font.py). */
module Bits {
  import opened Wrappers

  type bit = b: int | 0 <= b < 2
  type byte = b: int | 0 <= b < 256

  function Pow2(n: nat): (r: nat)
    ensures r >= 1
  {
    if n == 0 then 1 else 2 * Pow2(n - 1)
  }

  /** The number a bit string denotes. */
  function Value(bs: seq<bit>): (v: nat)
    ensures v < Pow2(|bs|)
  {
    if bs == [] then 0 else 2 * Value(bs[..|bs| - 1]) + bs[|bs| - 1]
  }

  /** The `width` low-order bits of `v`, most significant first. */
  function Digits(v: nat, width: nat): (bs: seq<bit>)
    ensures |bs| == width
  {
    if width == 0 then [] else Digits(v / 2, width - 1) + [v % 2]
  }

  function Zeros(n: nat): (bs: seq<bit>)
    ensures |bs| == n
  {
    seq(n, _ => 0)
  }

  lemma {:induction false} ValueOfDigits(v: nat, width: nat)
    requires v < Pow2(width)
    ensures Value(Digits(v, width)) == v
  {
    if width > 0 {
      ValueOfDigits(v / 2, width - 1);
      assert Digits(v, width)[..width - 1] == Digits(v / 2, width - 1);
    }
  }

  lemma {:induction false} DigitsOfValue(bs: seq<bit>)
    ensures Digits(Value(bs), |bs|) == bs
  {
    if bs != [] {
      DigitsOfValue(bs[..|bs| - 1]);
    }
  }

  /** `v << k`. */
  function ShiftLeft(v: nat, k: nat): nat {
    if k == 0 then v else 2 * ShiftLeft(v, k - 1)
  }

  /** `v >> k`. */
  function ShiftRight(v: nat, k: nat): nat {
    if k == 0 then v else ShiftRight(v, k - 1) / 2
  }

  lemma {:induction false} ShiftLeftBound(v: nat, width: nat, k: nat)
    requires v < Pow2(width)
    ensures ShiftLeft(v, k) < Pow2(width + k)
  {
    if k > 0 {
      ShiftLeftBound(v, width, k - 1);
    }
  }

  /** Shifting left by `k` appends `k` zero bits. */
  lemma {:induction false} DigitsShift(v: nat, width: nat, k: nat)
    ensures Digits(ShiftLeft(v, k), width + k) == Digits(v, width) + Zeros(k)
  {
    if k > 0 {
      DigitsShift(v, width, k - 1);
      DigitsDouble(ShiftLeft(v, k - 1), width + k - 1);
      assert Zeros(k) == Zeros(k - 1) + [0];
    }
  }

  lemma DigitsDouble(v: nat, width: nat)
    ensures Digits(2 * v, width + 1) == Digits(v, width) + [0]
  {
  }

  lemma {:induction false} HalfThenShift(v: nat, k: nat)
    ensures ShiftRight(v / 2, k) == ShiftRight(v, k + 1)
  {
    if k > 0 {
      HalfThenShift(v, k - 1);
    }
  }

  /** Digit `i` is what `(v >> (width - 1 - i)) & 1` computes. */
  lemma {:induction false} DigitAt(v: nat, width: nat, i: nat)
    requires i < width
    ensures Digits(v, width)[i] == ShiftRight(v, width - 1 - i) % 2
  {
    if i < width - 1 {
      DigitAt(v / 2, width - 1, i);
      HalfThenShift(v, width - 2 - i);
    }
  }

  /** All bits of a byte string. */
  function Unpack(buf: seq<byte>): (bs: seq<bit>)
    ensures |bs| == 8 * |buf|
  {
    if buf == [] then [] else Digits(buf[0], 8) + Unpack(buf[1..])
  }

  lemma {:induction false} UnpackConcat(a: seq<byte>, b: seq<byte>)
    ensures Unpack(a + b) == Unpack(a) + Unpack(b)
  {
    if a == [] {
      assert a + b == b;
    } else {
      UnpackConcat(a[1..], b);
      ConcatStep(a, b, Unpack(a[1..]), Unpack(b));
    }
  }

  lemma ConcatStep(a: seq<byte>, b: seq<byte>, more: seq<bit>, tail: seq<bit>)
    requires a != [] && more == Unpack(a[1..]) && Unpack(a[1..] + b) == more + tail
    ensures Unpack(a + b) == Unpack(a) + tail
  {
    assert (a + b)[1..] == a[1..] + b;
    assert Digits(a[0], 8) + (more + tail) == (Digits(a[0], 8) + more) + tail;
  }

  /** `(buf[pos >> 3] >> (7 - (pos & 7))) & 1` is bit `pos` of the unpacked string. */
  lemma {:induction false} UnpackAt(buf: seq<byte>, pos: nat)
    requires pos < 8 * |buf|
    ensures Unpack(buf)[pos] == ShiftRight(buf[pos / 8], 7 - pos % 8) % 2
  {
    if pos < 8 {
      DigitAt(buf[0], 8, pos);
    } else {
      UnpackAt(buf[1..], pos - 8);
    }
  }

  /** Bits grouped into bytes, the last byte padded with zero bits. */
  function Pack(bs: seq<bit>): (buf: seq<byte>)
    ensures |buf| == (|bs| + 7) / 8
    decreases |bs|
  {
    if bs == [] then
      []
    else
      var n := if |bs| < 8 then |bs| else 8;
      [PackByte(bs[..n])] + Pack(bs[n..])
  }

  function PackByte(chunk: seq<bit>): (b: byte)
    requires |chunk| <= 8
  {
    PackByteBound(chunk);
    ShiftLeft(Value(chunk), 8 - |chunk|)
  }

  lemma PackByteBound(chunk: seq<bit>)
    requires |chunk| <= 8
    ensures ShiftLeft(Value(chunk), 8 - |chunk|) < 256
  {
    ShiftLeftBound(Value(chunk), |chunk|, 8 - |chunk|);
    ByteRange();
  }

  lemma ByteRange()
    ensures Pow2(8) == 256
  {
    assert Pow2(4) == 16;
  }

  lemma PackByteDigits(chunk: seq<bit>)
    requires |chunk| <= 8
    ensures Digits(PackByte(chunk), 8) == chunk + Zeros(8 - |chunk|)
  {
    DigitsShift(Value(chunk), |chunk|, 8 - |chunk|);
    DigitsOfValue(chunk);
  }

  lemma UnpackCons(b: byte, buf: seq<byte>)
    ensures Unpack([b] + buf) == Digits(b, 8) + Unpack(buf)
  {
    assert ([b] + buf)[1..] == buf;
  }

  function Padding(n: nat): (k: nat)
    ensures k < 8 && (n + k) % 8 == 0
  {
    (8 - n % 8) % 8
  }

  /** Reading back the bytes that were packed gives the bits and then zero padding. */
  lemma {:induction false} UnpackPack(bs: seq<bit>)
    ensures Unpack(Pack(bs)) == bs + Zeros(Padding(|bs|))
    decreases |bs|
  {
    if |bs| >= 8 {
      UnpackPack(bs[8..]);
      PaddingPeriod(|bs[8..]|);
      UnpackLong(bs, Unpack(Pack(bs[8..])), Zeros(Padding(|bs|)));
    } else if bs != [] {
      UnpackShort(bs);
    } else {
      assert Pack(bs) == [] && Padding(0) == 0;
    }
  }

  lemma UnpackLong(bs: seq<bit>, part: seq<bit>, tail: seq<bit>)
    requires |bs| >= 8 && part == Unpack(Pack(bs[8..])) && part == bs[8..] + tail
    ensures Unpack(Pack(bs)) == bs + tail
  {
    UnpackFirst(bs, part);
    SplitAssoc(bs, 8, tail);
  }

  lemma PaddingPeriod(n: nat)
    ensures Padding(n + 8) == Padding(n)
  {
  }

  lemma UnpackShort(bs: seq<bit>)
    requires 0 < |bs| < 8
    ensures Unpack(Pack(bs)) == bs + Zeros(8 - |bs|)
  {
    assert bs[..|bs|] == bs && bs[|bs|..] == [];
    assert Pack(bs) == [PackByte(bs)] + [];
    PackByteDigits(bs);
    UnpackCons(PackByte(bs), []);
  }

  lemma UnpackFirst(bs: seq<bit>, part: seq<bit>)
    requires |bs| >= 8 && part == Unpack(Pack(bs[8..]))
    ensures Unpack(Pack(bs)) == bs[..8] + Zeros(0) + part
  {
    PackByteDigits(bs[..8]);
    UnpackCons(PackByte(bs[..8]), Pack(bs[8..]));
  }

  lemma SplitAssoc(bs: seq<bit>, k: nat, tail: seq<bit>)
    requires k <= |bs|
    ensures bs[..k] + Zeros(0) + (bs[k..] + tail) == bs + tail
  {
  }

  /** The bits `pos .. pos + len` as a number; None where `get_bits` indexes past the buffer. */
  function ReadBits(bs: seq<bit>, pos: nat, len: nat): (r: Option<nat>)
    ensures r.Some? ==> r.value < Pow2(len)
  {
    if len == 0 then Some(0)
    else if pos + len <= |bs| then Some(Value(bs[pos..pos + len]))
    else None
  }

  method GetBits(buf: seq<byte>, bitPos: nat, bitLen: nat) returns (r: Option<nat>)
    ensures r == ReadBits(Unpack(buf), bitPos, bitLen)
  {
    var out, pos := 0, bitPos;
    ghost var bs := Unpack(buf);
    for i := 0 to bitLen
      invariant pos == bitPos + i
      invariant i > 0 ==> pos <= |bs|
      invariant out == if i == 0 then 0 else Value(bs[bitPos..pos])
    {
      if pos / 8 >= |buf| {
        return None;
      }
      var b := ShiftRight(buf[pos / 8], 7 - pos % 8) % 2;
      UnpackAt(buf, pos);
      assert bs[bitPos..pos + 1][..i] == bs[bitPos..pos];
      out := out * 2 + b;
      pos := pos + 1;
    }
    return Some(out);
  }

  /** The inner loop of `to_bytes`: shift the bits of one chunk in, then pad a short chunk with zeros. */
  method ByteOf(chunk: seq<bit>) returns (b: byte)
    requires |chunk| <= 8
    ensures b == PackByte(chunk)
  {
    var acc: nat := 0;
    for k := 0 to |chunk|
      invariant acc == Value(chunk[..k])
    {
      assert chunk[..k + 1][..k] == chunk[..k];
      acc := acc * 2 + chunk[k];
    }
    assert chunk[..|chunk|] == chunk;
    if |chunk| < 8 {
      acc := ShiftLeft(acc, 8 - |chunk|);
    }
    assert acc < 256 by { PackByteBound(chunk); }
    b := acc;
  }

  /** The bit list that `encode_no_counter` appends to. */
  class BitWriter {
    var bits: seq<bit>

    constructor ()
      ensures bits == []
    {
      bits := [];
    }

    method Put(value: nat, width: nat)
      modifies this
      ensures bits == old(bits) + Digits(value, width)
    {
      var i := width;
      while i > 0
        invariant 0 <= i <= width
        invariant bits == old(bits) + Digits(ShiftRight(value, i), width - i)
      {
        i := i - 1;
        bits := bits + [ShiftRight(value, i) % 2];
      }
    }

    method ToBytes() returns (out: seq<byte>)
      ensures out == Pack(bits)
    {
      out := [];
      var i := 0;
      assert From(bits, 0) == bits;
      while i < |bits|
        invariant out + Pack(From(bits, i)) == Pack(bits)
      {
        var chunk := bits[i..if i + 8 <= |bits| then i + 8 else |bits|];
        var b := ByteOf(chunk);
        PackFrom(bits, i);
        AppendAssoc(out, b, Pack(From(bits, i + 8)));
        out := out + [b];
        i := i + 8;
      }
    }
  }

  lemma AppendAssoc(a: seq<byte>, b: byte, c: seq<byte>)
    ensures a + ([b] + c) == (a + [b]) + c
  {
  }

  function From(bs: seq<bit>, i: nat): seq<bit> {
    if i < |bs| then bs[i..] else []
  }

  lemma PackFrom(bs: seq<bit>, i: nat)
    requires i < |bs|
    ensures var chunk := bs[i..if i + 8 <= |bs| then i + 8 else |bs|];
            Pack(From(bs, i)) == [PackByte(chunk)] + Pack(From(bs, i + 8))
  {
    var rest := bs[i..];
    var n := if |rest| < 8 then |rest| else 8;
    assert rest[..n] == bs[i..i + n];
    assert rest[n..] == From(bs, i + 8);
  }
}
