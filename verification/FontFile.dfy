/** The glyph loop of `compress_font` and the C text of the bitmap section
    (tools/compress_lvgl_bitmap_font.py). */
module FontFile {
  import opened Wrappers
  import opened Bits
  import opened FontCodec
  import opened FontRoundTrip

  datatype Glyph = Glyph(bitmapIndex: nat, boxW: nat, boxH: nat)

  datatype Compressed = Compressed(bitmap: seq<byte>, indexes: seq<nat>)

  datatype FontError =
    | NoGlyphs
    | NotPlain(bitmapFormat: nat)
    | BadIndexOrder(glyph: nat)
    | OutOfData(glyph: nat)
    | ValidationFailed

  function PixelCount(g: Glyph): nat {
    g.boxW * g.boxH
  }

  function OldEnd(raw: seq<byte>, glyphs: seq<Glyph>, i: nat): nat
    requires i < |glyphs|
  {
    if i + 1 < |glyphs| then glyphs[i + 1].bitmapIndex else |raw|
  }

  /** The pixels a glyph has in the font before compression. */
  function GlyphPixels(raw: seq<byte>, g: Glyph, bpp: nat): Option<seq<nat>> {
    PlainPixels(Unpack(raw), 8 * g.bitmapIndex, PixelCount(g), bpp)
  }

  /** What stops the loop at glyph `i`, if anything does. */
  function GlyphError(raw: seq<byte>, glyphs: seq<Glyph>, i: nat, bpp: nat): Option<FontError>
    requires i < |glyphs|
  {
    if OldEnd(raw, glyphs, i) < glyphs[i].bitmapIndex then Some(BadIndexOrder(i))
    else if GlyphPixels(raw, glyphs[i], bpp) == None then Some(OutOfData(i))
    else None
  }

  /** Glyph `i` decodes, from its new offset in the concatenated bitmap, to the pixels it had. */
  ghost predicate GlyphPreserved(raw: seq<byte>, glyphs: seq<Glyph>, i: nat, bpp: nat, c: Compressed)
    requires i < |glyphs| && |c.indexes| == |glyphs|
  {
    && c.indexes[i] <= |c.bitmap|
    && GlyphPixels(raw, glyphs[i], bpp).Some?
    && Decode(c.bitmap[c.indexes[i]..], PixelCount(glyphs[i]), bpp) == GlyphPixels(raw, glyphs[i], bpp)
  }

  /** The offset and the bytes of glyph `i`: the new bitmap is the glyphs' codes end to end. */
  ghost predicate Laid(raw: seq<byte>, glyphs: seq<Glyph>, i: nat, bpp: nat, c: Compressed)
    requires i < |glyphs| && |c.indexes| == |glyphs|
  {
    var end := if i + 1 < |glyphs| then c.indexes[i + 1] else |c.bitmap|;
    && c.indexes[i] <= end <= |c.bitmap|
    && GlyphPixels(raw, glyphs[i], bpp).Some?
    && c.bitmap[c.indexes[i]..end] == Encode(GlyphPixels(raw, glyphs[i], bpp).value, bpp)
  }

  /** What `compress_font` promises of its result. */
  ghost predicate Outcome(raw: seq<byte>, glyphs: seq<Glyph>, bpp: nat, fmt: nat, r: Result<Compressed, FontError>) {
    if glyphs == [] then
      r == Err(NoGlyphs)
    else if fmt != 0 then
      r == Err(NotPlain(fmt))
    else if exists i :: FirstError(raw, glyphs, i, bpp) then
      exists i :: FirstError(raw, glyphs, i, bpp) && r == Err(GlyphError(raw, glyphs, i, bpp).value)
    else
      && r.Ok? && |r.value.indexes| == |glyphs| && r.value.indexes[0] == 0
      && forall i: nat :: i < |glyphs| ==>
           GlyphPreserved(raw, glyphs, i, bpp, r.value) && Laid(raw, glyphs, i, bpp, r.value)
  }

  ghost predicate FirstError(raw: seq<byte>, glyphs: seq<Glyph>, i: nat, bpp: nat) {
    && i < |glyphs| && GlyphError(raw, glyphs, i, bpp).Some?
    && forall j: nat :: j < i ==> GlyphError(raw, glyphs, j, bpp) == None
  }

  /** The bits of glyph `i` are all there, and the next glyph does not start before it. */
  predicate Readable(raw: seq<byte>, glyphs: seq<Glyph>, i: nat, bpp: nat)
    requires i < |glyphs|
  {
    var g := glyphs[i];
    && g.bitmapIndex <= (if i + 1 < |glyphs| then glyphs[i + 1].bitmapIndex else |raw|)
    && (g.boxW * g.boxH > 0 && bpp > 0 ==> 8 * g.bitmapIndex + g.boxW * g.boxH * bpp <= 8 * |raw|)
  }

  /** From byte `index` of the bitmap on, the decoder reads the pixels that the glyph's own bits give. */
  ghost predicate Kept(raw: seq<byte>, g: Glyph, bpp: nat, bitmap: seq<byte>, index: nat) {
    && index <= |bitmap|
    && var decoded := Decode(bitmap[index..], g.boxW * g.boxH, bpp);
       && decoded.Some? && |decoded.value| == g.boxW * g.boxH
       && PixelsFrom(Unpack(raw), 8 * g.bitmapIndex, bpp, decoded.value)
  }

  /** The same in terms of the old bitmap's bits. */
  ghost predicate FontKept(raw: seq<byte>, glyphs: seq<Glyph>, bpp: nat, fmt: nat, r: Result<Compressed, FontError>) {
    && (r.Ok? <==> glyphs != [] && fmt == 0 && forall i: nat :: i < |glyphs| ==> Readable(raw, glyphs, i, bpp))
    && (r.Ok? ==> |r.value.indexes| == |glyphs|
                  && forall i: nat :: i < |glyphs| ==> Kept(raw, glyphs[i], bpp, r.value.bitmap, r.value.indexes[i]))
    && (glyphs != [] && fmt == 0 && r.Err? ==> exists i: nat :: FirstUnreadable(raw, glyphs, i, bpp, r.error))
  }

  ghost predicate FirstUnreadable(raw: seq<byte>, glyphs: seq<Glyph>, i: nat, bpp: nat, e: FontError) {
    && i < |glyphs| && !Readable(raw, glyphs, i, bpp)
    && (forall j: nat :: j < i ==> Readable(raw, glyphs, j, bpp))
    && e == if (if i + 1 < |glyphs| then glyphs[i + 1].bitmapIndex else |raw|) < glyphs[i].bitmapIndex
            then BadIndexOrder(i) else OutOfData(i)
  }

  lemma ErrorMeans(raw: seq<byte>, glyphs: seq<Glyph>, i: nat, bpp: nat)
    requires i < |glyphs|
    ensures GlyphError(raw, glyphs, i, bpp) == None <==> Readable(raw, glyphs, i, bpp)
  {
    PixelsOfBytes(raw, glyphs[i].bitmapIndex, PixelCount(glyphs[i]), bpp);
  }

  lemma PreservedMeans(raw: seq<byte>, glyphs: seq<Glyph>, i: nat, bpp: nat, c: Compressed)
    requires i < |glyphs| && |c.indexes| == |glyphs| && GlyphPreserved(raw, glyphs, i, bpp, c)
    ensures Kept(raw, glyphs[i], bpp, c.bitmap, c.indexes[i])
  {
    PixelsOfBytes(raw, glyphs[i].bitmapIndex, PixelCount(glyphs[i]), bpp);
  }

  lemma FirstErrorMeans(raw: seq<byte>, glyphs: seq<Glyph>, i: nat, bpp: nat)
    requires FirstError(raw, glyphs, i, bpp)
    ensures FirstUnreadable(raw, glyphs, i, bpp, GlyphError(raw, glyphs, i, bpp).value)
  {
    forall j: nat | j <= i
      ensures GlyphError(raw, glyphs, j, bpp) == None <==> Readable(raw, glyphs, j, bpp)
    {
      ErrorMeans(raw, glyphs, j, bpp);
    }
  }

  /** What the outcome says of the bits themselves. */
  lemma OutcomeMeans(raw: seq<byte>, glyphs: seq<Glyph>, bpp: nat, fmt: nat, r: Result<Compressed, FontError>)
    requires Outcome(raw, glyphs, bpp, fmt, r)
    ensures FontKept(raw, glyphs, bpp, fmt, r)
  {
    if glyphs != [] && fmt == 0 {
      if r.Err? {
        var i :| FirstError(raw, glyphs, i, bpp) && r == Err(GlyphError(raw, glyphs, i, bpp).value);
        FirstErrorMeans(raw, glyphs, i, bpp);
      } else {
        AllReadable(raw, glyphs, bpp);
        forall i: nat | i < |glyphs|
          ensures Kept(raw, glyphs[i], bpp, r.value.bitmap, r.value.indexes[i])
        {
          PreservedMeans(raw, glyphs, i, bpp, r.value);
        }
      }
    }
  }

  lemma AllReadable(raw: seq<byte>, glyphs: seq<Glyph>, bpp: nat)
    requires !exists i :: FirstError(raw, glyphs, i, bpp)
    ensures forall i: nat :: i < |glyphs| ==> Readable(raw, glyphs, i, bpp)
  {
    forall i: nat | i < |glyphs|
      ensures Readable(raw, glyphs, i, bpp)
    {
      NoErrorUpTo(raw, glyphs, bpp, i + 1);
      ErrorMeans(raw, glyphs, i, bpp);
    }
  }

  lemma {:induction false} NoErrorUpTo(raw: seq<byte>, glyphs: seq<Glyph>, bpp: nat, n: nat)
    requires n <= |glyphs| && !exists i :: FirstError(raw, glyphs, i, bpp)
    ensures forall j: nat :: j < n ==> GlyphError(raw, glyphs, j, bpp) == None
  {
    if n > 0 {
      NoErrorUpTo(raw, glyphs, bpp, n - 1);
      assert !FirstError(raw, glyphs, n - 1, bpp);
    }
  }

  /** The whole font: either the source's own errors on the first glyph that has one, or a bitmap in
      which every glyph keeps its pixels. The run-time check never fails. */
  method CompressGlyphs(raw: seq<byte>, glyphs: seq<Glyph>, bpp: nat, bitmapFormat: nat)
    returns (r: Result<Compressed, FontError>)
    ensures Outcome(raw, glyphs, bpp, bitmapFormat, r) && FontKept(raw, glyphs, bpp, bitmapFormat, r)
    ensures r != Err(ValidationFailed)
  {
    r := CompressLoop(raw, glyphs, bpp, bitmapFormat);
    OutcomeMeans(raw, glyphs, bpp, bitmapFormat, r);
  }

  /** The loop of `compress_font`. */
  method CompressLoop(raw: seq<byte>, glyphs: seq<Glyph>, bpp: nat, bitmapFormat: nat)
    returns (r: Result<Compressed, FontError>)
    ensures Outcome(raw, glyphs, bpp, bitmapFormat, r)
    ensures r != Err(ValidationFailed)
  {
    if |glyphs| == 0 {
      return Err(NoGlyphs);
    }
    if bitmapFormat != 0 {
      return Err(NotPlain(bitmapFormat));
    }
    var bitmap: seq<byte> := [];
    var indexes: seq<nat> := [];
    var i := 0;
    while i < |glyphs|
      invariant i <= |glyphs|
      invariant forall j: nat :: j < i ==> GlyphError(raw, glyphs, j, bpp) == None
      invariant Progress(raw, glyphs, bpp, bitmap, indexes, i)
    {
      var g := glyphs[i];
      var oldStart := g.bitmapIndex;
      var oldEnd := if i + 1 < |glyphs| then glyphs[i + 1].bitmapIndex else |raw|;
      if oldEnd < oldStart {
        assert FirstError(raw, glyphs, i, bpp);
        return Err(BadIndexOrder(i));
      }
      var pxCount := g.boxW * g.boxH;
      indexes := indexes + [|bitmap|];
      if pxCount == 0 {
        EmptyGlyph(raw, g, bpp);
        Extend(raw, glyphs, bpp, bitmap, indexes[..i], i, []);
        assert indexes[..i] + [|bitmap|] == indexes && bitmap + [] == bitmap;
        i := i + 1;
        continue;
      }
      var plain := ReadPlainPixels(raw, oldStart, pxCount, bpp);
      if plain == None {
        assert FirstError(raw, glyphs, i, bpp);
        return Err(OutOfData(i));
      }
      var comp := EncodeNoCounter(plain.value, bpp);
      var back := DecodeLvglStream(comp, pxCount, bpp);
      RoundTrip(plain.value, bpp, []);
      assert comp + [] == comp;
      if back != plain {
        assert false;
        return Err(ValidationFailed);
      }
      Extend(raw, glyphs, bpp, bitmap, indexes[..i], i, comp);
      assert indexes[..i] + [|bitmap|] == indexes;
      bitmap := bitmap + comp;
      i := i + 1;
    }
    NoFirstError(raw, glyphs, bpp);
    Finish(raw, glyphs, bpp, bitmap, indexes);
    return Ok(Compressed(bitmap, indexes));
  }

  lemma NoFirstError(raw: seq<byte>, glyphs: seq<Glyph>, bpp: nat)
    requires forall j: nat :: j < |glyphs| ==> GlyphError(raw, glyphs, j, bpp) == None
    ensures !exists i :: FirstError(raw, glyphs, i, bpp)
  {
  }

  /** The loop's state after `k` glyphs: offsets `0 = indexes[0] <= ... <= |bitmap|` cut the bitmap into
      the codes of the first `k` glyphs. */
  ghost predicate Progress(raw: seq<byte>, glyphs: seq<Glyph>, bpp: nat,
                           bitmap: seq<byte>, indexes: seq<nat>, k: nat) {
    && k <= |glyphs| && |indexes| == k
    && (if k == 0 then bitmap == [] else indexes[0] == 0)
    && forall j: nat :: j < k ==> Piece(raw, glyphs, bpp, bitmap, indexes, j)
  }

  ghost predicate Piece(raw: seq<byte>, glyphs: seq<Glyph>, bpp: nat,
                        bitmap: seq<byte>, indexes: seq<nat>, j: nat)
    requires j < |indexes| <= |glyphs|
  {
    var end := if j + 1 < |indexes| then indexes[j + 1] else |bitmap|;
    && indexes[j] <= end <= |bitmap|
    && GlyphPixels(raw, glyphs[j], bpp).Some?
    && bitmap[indexes[j]..end] == Encode(GlyphPixels(raw, glyphs[j], bpp).value, bpp)
  }

  lemma Extend(raw: seq<byte>, glyphs: seq<Glyph>, bpp: nat,
               bitmap: seq<byte>, indexes: seq<nat>, k: nat, comp: seq<byte>)
    requires k < |glyphs| && Progress(raw, glyphs, bpp, bitmap, indexes, k)
    requires GlyphPixels(raw, glyphs[k], bpp).Some?
    requires comp == Encode(GlyphPixels(raw, glyphs[k], bpp).value, bpp)
    ensures Progress(raw, glyphs, bpp, bitmap + comp, indexes + [|bitmap|], k + 1)
  {
    var bitmap', indexes' := bitmap + comp, indexes + [|bitmap|];
    forall j: nat | j < k + 1
      ensures Piece(raw, glyphs, bpp, bitmap', indexes', j)
    {
      if j < k {
        assert Piece(raw, glyphs, bpp, bitmap, indexes, j);
        var end := if j + 1 < k then indexes[j + 1] else |bitmap|;
        assert bitmap'[indexes[j]..end] == bitmap[indexes[j]..end];
      } else {
        assert bitmap'[|bitmap|..] == comp;
      }
    }
  }

  lemma EmptyGlyph(raw: seq<byte>, g: Glyph, bpp: nat)
    requires PixelCount(g) == 0
    ensures GlyphPixels(raw, g, bpp) == Some([]) && Encode([], bpp) == []
  {
  }

  lemma Finish(raw: seq<byte>, glyphs: seq<Glyph>, bpp: nat, bitmap: seq<byte>, indexes: seq<nat>)
    requires Progress(raw, glyphs, bpp, bitmap, indexes, |glyphs|)
    ensures var c := Compressed(bitmap, indexes);
            forall i: nat :: i < |glyphs| ==>
              GlyphPreserved(raw, glyphs, i, bpp, c) && Laid(raw, glyphs, i, bpp, c)
  {
    var c := Compressed(bitmap, indexes);
    forall i: nat | i < |glyphs|
      ensures GlyphPreserved(raw, glyphs, i, bpp, c) && Laid(raw, glyphs, i, bpp, c)
    {
      assert Piece(raw, glyphs, bpp, bitmap, indexes, i);
      var end := if i + 1 < |indexes| then indexes[i + 1] else |bitmap|;
      var plain := GlyphPixels(raw, glyphs[i], bpp).value;
      RoundTrip(plain, bpp, bitmap[end..]);
      assert bitmap[indexes[i]..] == bitmap[indexes[i]..end] + bitmap[end..];
    }
  }

  /** The size of the compressed font: no glyph costs more than its pixels, half a bit per pixel pair and
      the padding of its last byte. */
  lemma PieceSize(raw: seq<byte>, glyphs: seq<Glyph>, i: nat, bpp: nat, c: Compressed)
    requires i < |glyphs| && |c.indexes| == |glyphs| && Laid(raw, glyphs, i, bpp, c)
    requires bpp >= 1 && PixelCount(glyphs[i]) >= 1
    ensures var n := PixelCount(glyphs[i]);
            var end := if i + 1 < |glyphs| then c.indexes[i + 1] else |c.bitmap|;
            8 * (end - c.indexes[i]) <= n * bpp + (n - 1) / 2 + 7
  {
    EncodedLength(GlyphPixels(raw, glyphs[i], bpp).value, bpp);
  }

  // ----- the bytes as C text

  /** The default indent. */
  const INDENT := "    "

  function HexDigit(d: nat): (c: char)
    requires d < 16
    ensures IsHex(c) && HexValue(c) == d
  {
    if d < 10 then '0' + d as char else 'a' + (d - 10) as char
  }

  lemma HexDigitIs(d: nat)
    requires d < 16
    ensures HexDigit(d) == "0123456789abcdef"[d]
  {
  }

  predicate IsHex(c: char) {
    '0' <= c <= '9' || 'a' <= c <= 'f' || 'A' <= c <= 'F'
  }

  function HexValue(c: char): (d: nat)
    requires IsHex(c)
    ensures d < 16
  {
    if '0' <= c <= '9' then (c - '0') as int
    else if 'a' <= c <= 'f' then (c - 'a') as int + 10
    else (c - 'A') as int + 10
  }

  function Token(b: byte): string {
    ['0', 'x', HexDigit(b / 16), HexDigit(b % 16)]
  }

  /** The tokens of one line, joined by a comma and a blank. */
  function Joined(data: seq<byte>): string {
    if data == [] then ""
    else if |data| == 1 then Token(data[0])
    else Token(data[0]) + ", " + Joined(data[1..])
  }

  function LineText(data: seq<byte>, indent: string): string {
    indent + Joined(data) + ","
  }

  /** The lines from byte `i` on, joined by newlines. */
  function Lines(data: seq<byte>, indent: string, perLine: nat): string
    requires perLine > 0
  {
    if |data| <= perLine then LineText(data, indent)
    else LineText(data[..perLine], indent) + "\n" + Lines(data[perLine..], indent, perLine)
  }

  function Formatted(data: seq<byte>, indent: string, perLine: nat): string
    requires perLine > 0
  {
    if data == [] then indent + "0x00,\n" else Lines(data, indent, perLine) + "\n"
  }

  method FormatByteArray(data: seq<byte>, indent: string, perLine: nat) returns (text: string)
    requires perLine > 0
    ensures text == Formatted(data, indent, perLine)
  {
    if |data| == 0 {
      return indent + "0x00,\n";
    }
    text := "";
    var i := 0;
    assert data[0..] == data;
    ghost var rest := Lines(data, indent, perLine);
    while i + perLine < |data|
      invariant i < |data| && rest == Lines(data[i..], indent, perLine)
      invariant text + rest == Lines(data, indent, perLine)
      decreases |data| - i
    {
      NextLine(data, i, indent, perLine);
      var line := LineText(data[i..i + perLine], indent) + "\n";
      ghost var next := Lines(data[i + perLine..], indent, perLine);
      Append(text, line, next);
      text, rest := text + line, next;
      i := i + perLine;
    }
    LastLine(data, i, indent, perLine);
    text := text + LineText(data[i..], indent);
    text := text + "\n";
  }

  lemma Append(text: string, line: string, rest: string)
    ensures text + (line + rest) == text + line + rest
  {
  }

  lemma LastLine(data: seq<byte>, i: nat, indent: string, perLine: nat)
    requires perLine > 0 && i < |data| <= i + perLine
    ensures Lines(data[i..], indent, perLine) == LineText(data[i..], indent)
  {
  }

  lemma NextLine(data: seq<byte>, i: nat, indent: string, perLine: nat)
    requires perLine > 0 && i + perLine < |data|
    ensures Lines(data[i..], indent, perLine)
         == LineText(data[i..i + perLine], indent) + "\n" + Lines(data[i + perLine..], indent, perLine)
  {
    assert data[i..][..perLine] == data[i..i + perLine] && data[i..][perLine..] == data[i + perLine..];
  }

  /** What scanning for `0x([0-9a-fA-F]{1,2})` finds: leftmost matches, two digits where there are two. */
  function ScanHex(s: string): (found: seq<byte>)
    decreases |s|
  {
    if |s| < 3 then
      []
    else if s[0] == '0' && s[1] == 'x' && IsHex(s[2]) then
      if |s| > 3 && IsHex(s[3]) then
        [16 * HexValue(s[2]) + HexValue(s[3])] + ScanHex(s[4..])
      else
        [HexValue(s[2])] + ScanHex(s[3..])
    else
      ScanHex(s[1..])
  }

  lemma ScanToken(b: byte, rest: string)
    ensures ScanHex(Token(b) + rest) == [b] + ScanHex(rest)
  {
    var s := Token(b) + rest;
    assert s[4..] == rest;
    assert s[0] == '0' && s[1] == 'x' && s[2] == HexDigit(b / 16) && s[3] == HexDigit(b % 16);
  }

  /** Characters that cannot start a match are skipped. */
  lemma {:induction false} ScanSkips(gap: string, rest: string)
    requires forall i :: 0 <= i < |gap| ==> gap[i] != '0'
    ensures ScanHex(gap + rest) == ScanHex(rest)
    decreases |gap|
  {
    if gap == "" {
      assert gap + rest == rest;
    } else {
      ScanSkips(gap[1..], rest);
      assert (gap + rest)[1..] == gap[1..] + rest;
      if |gap + rest| < 3 {
        assert ScanHex(gap + rest) == [];
      }
    }
  }

  lemma {:induction false} ScanJoined(data: seq<byte>, rest: string)
    ensures ScanHex(Joined(data) + rest) == data + ScanHex(rest)
    decreases |data|
  {
    if data == [] {
      assert "" + rest == rest && data + ScanHex(rest) == ScanHex(rest);
    } else if |data| == 1 {
      ScanToken(data[0], rest);
      assert data == [data[0]];
    } else {
      ScanJoined(data[1..], rest);
      ScanHead(data[0], Joined(data[1..]), rest);
      FirstAndRest(data, ScanHex(rest));
    }
  }

  lemma ScanHead(b: byte, more: string, rest: string)
    ensures ScanHex(Token(b) + ", " + more + rest) == [b] + ScanHex(more + rest)
  {
    var tail := more + rest;
    assert Token(b) + ", " + more + rest == Token(b) + (", " + tail);
    ScanToken(b, ", " + tail);
    ScanSkips(", ", tail);
  }

  lemma FirstAndRest(data: seq<byte>, more: seq<byte>)
    requires data != []
    ensures [data[0]] + (data[1..] + more) == data + more
  {
  }

  /** An indent the scan passes over. */
  ghost predicate NoZero(indent: string) {
    forall i :: 0 <= i < |indent| ==> indent[i] != '0'
  }

  lemma ScanLine(data: seq<byte>, indent: string, rest: string)
    requires NoZero(indent)
    ensures ScanHex(LineText(data, indent) + rest) == data + ScanHex(rest)
  {
    var tail := "," + rest;
    assert LineText(data, indent) + rest == indent + (Joined(data) + tail);
    ScanSkips(indent, Joined(data) + tail);
    ScanJoined(data, tail);
    ScanSkips(",", rest);
  }

  lemma {:induction false} ScanLines(data: seq<byte>, indent: string, perLine: nat, rest: string)
    requires perLine > 0 && NoZero(indent)
    ensures ScanHex(Lines(data, indent, perLine) + rest) == data + ScanHex(rest)
    decreases |data|
  {
    if |data| <= perLine {
      ScanLine(data, indent, rest);
    } else {
      ScanLines(data[perLine..], indent, perLine, rest);
      ScanLineBreak(data[..perLine], indent, Lines(data[perLine..], indent, perLine), rest);
      Rejoin(data, perLine, ScanHex(rest));
    }
  }

  lemma ScanLineBreak(line: seq<byte>, indent: string, more: string, rest: string)
    requires NoZero(indent)
    ensures ScanHex(LineText(line, indent) + "\n" + more + rest) == line + ScanHex(more + rest)
  {
    var tail := more + rest;
    assert LineText(line, indent) + "\n" + more + rest == LineText(line, indent) + ("\n" + tail);
    ScanLine(line, indent, "\n" + tail);
    ScanSkips("\n", tail);
  }

  lemma Rejoin(data: seq<byte>, k: nat, more: seq<byte>)
    requires k <= |data|
    ensures data[..k] + (data[k..] + more) == data + more
  {
  }

  /** Printing and reading back is the identity on every byte string but the empty one, which is printed
      as a single zero byte. */
  lemma PrintThenScan(data: seq<byte>, indent: string, perLine: nat)
    requires perLine > 0 && NoZero(indent)
    ensures ScanHex(Formatted(data, indent, perLine)) == data <==> data != []
    ensures data == [] ==> ScanHex(Formatted(data, indent, perLine)) == [0]
  {
    if data == [] {
      ScanSkips(indent, "0x00,\n");
      assert HexDigit(0) == '0';
      assert "0x00,\n" == Token(0) + ",\n";
      ScanToken(0, ",\n");
    } else {
      ScanLines(data, indent, perLine, "\n");
      assert data + [] == data;
    }
  }

  /** At the tool's default indent. */
  lemma DefaultPrintThenScan(data: seq<byte>)
    ensures ScanHex(Formatted(data, INDENT, 16)) == (if data == [] then [0] else data)
  {
    PrintThenScan(data, INDENT, 16);
  }
}
