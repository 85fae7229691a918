/** The charset and range files of a font pack (tools/build_locale_pack_charset.py). */
module Charset {
  import opened Text
  import opened Wrappers

  // ----- which characters count

  /** Neither white space nor ASCII. */
  predicate IsGlyph(c: char) {
    !IsSpace(c) && c as int >= 0x80
  }

  function Glyphs(text: string): (gs: string)
    ensures forall c :: c in gs <==> c in text && IsGlyph(c)
  {
    if text == "" then ""
    else if IsGlyph(text[0]) then [text[0]] + Glyphs(text[1..])
    else Glyphs(text[1..])
  }

  lemma {:induction false} GlyphsConcat(a: string, b: string)
    ensures Glyphs(a + b) == Glyphs(a) + Glyphs(b)
  {
    if a == "" {
      assert a + b == b;
    } else {
      GlyphsConcat(a[1..], b);
      assert (a + b)[1..] == a[1..] + b;
    }
  }

  lemma {:induction false} GlyphsOfGlyphs(gs: string)
    requires forall i :: 0 <= i < |gs| ==> IsGlyph(gs[i])
    ensures Glyphs(gs) == gs
  {
    if gs != "" {
      GlyphsOfGlyphs(gs[1..]);
    }
  }

  /** The first `limit` elements, or all for a limit of 0. */
  function Limited(gs: string, limit: nat): string {
    if limit > 0 && |gs| > limit then gs[..limit] else gs
  }

  /** `iter_ranked_chars`. */
  method IterRankedChars(text: string, limit: nat) returns (out: string)
    ensures out == Limited(Glyphs(text), limit)
  {
    out := "";
    var emitted := 0;
    for i := 0 to |text|
      invariant out + Glyphs(text[i..]) == Glyphs(text)
      invariant emitted == |out| && (limit > 0 ==> emitted < limit)
    {
      assert text[i..][1..] == text[i + 1..];
      if !IsGlyph(text[i]) {
        continue;
      }
      assert out + ([text[i]] + Glyphs(text[i + 1..])) == (out + [text[i]]) + Glyphs(text[i + 1..]);
      out := out + [text[i]];
      emitted := emitted + 1;
      if limit > 0 && emitted >= limit {
        return;
      }
    }
    assert out + "" == out;
  }

  // ----- the set of characters

  /** Neither ASCII nor white space, and in one of the texts. */
  ghost predicate InTexts(c: char, texts: seq<string>) {
    c as int >= 0x80 && !IsSpace(c) && exists i :: 0 <= i < |texts| && c in texts[i]
  }

  /** Add or, for the exclusions, discard the glyphs of the texts. */
  method Apply(chars: set<char>, texts: seq<string>, add: bool) returns (r: set<char>)
    ensures forall c :: c in r <==> if add then c in chars || InTexts(c, texts) else c in chars && !InTexts(c, texts)
  {
    r := chars;
    for i := 0 to |texts|
      invariant forall c :: c in r <==>
        if add then c in chars || InTexts(c, texts[..i]) else c in chars && !InTexts(c, texts[..i])
    {
      var gs := Glyphs(texts[i]);
      OneMoreText(texts, i);
      var before := r;
      for j := 0 to |gs|
        invariant forall c :: c in r <==> if add then c in before || c in gs[..j] else c in before && c !in gs[..j]
      {
        assert gs[..j + 1] == gs[..j] + [gs[j]];
        r := if add then r + {gs[j]} else r - {gs[j]};
      }
      assert gs[..|gs|] == gs;
    }
    assert texts[..|texts|] == texts;
  }

  lemma OneMoreText(texts: seq<string>, i: nat)
    requires i < |texts|
    ensures forall c :: InTexts(c, texts[..i + 1]) <==> InTexts(c, texts[..i]) || c in Glyphs(texts[i])
  {
    forall c
      ensures InTexts(c, texts[..i + 1]) <==> InTexts(c, texts[..i]) || c in Glyphs(texts[i])
    {
      if InTexts(c, texts[..i]) {
        var k :| 0 <= k < i && c in texts[..i][k];
        assert c in texts[..i + 1][k];
      }
      if c in Glyphs(texts[i]) {
        assert c in texts[..i + 1][i];
      }
      if InTexts(c, texts[..i + 1]) {
        var k :| 0 <= k < i + 1 && c in texts[..i + 1][k];
        assert k < i ==> c in texts[..i][k];
      }
    }
  }

  ghost predicate Ascending(cs: string) {
    forall i, j :: 0 <= i < j < |cs| ==> cs[i] < cs[j]
  }

  function Insert(cs: string, c: char): (r: string)
    ensures forall x :: x in r <==> x in cs || x == c
  {
    if cs == "" then [c]
    else if c < cs[0] then [c] + cs
    else [cs[0]] + Insert(cs[1..], c)
  }

  lemma {:induction false} InsertAscends(cs: string, c: char)
    requires Ascending(cs) && c !in cs
    ensures Ascending(Insert(cs, c))
  {
    if cs == "" || c < cs[0] {
      FirstAscends(c, cs);
    } else {
      InsertAscends(cs[1..], c);
      FirstAscends(cs[0], Insert(cs[1..], c));
    }
  }

  lemma FirstAscends(c: char, cs: string)
    requires Ascending(cs) && forall x :: x in cs ==> c < x
    ensures Ascending([c] + cs)
  {
    assert forall i :: 0 <= i < |cs| ==> cs[i] in cs;
  }

  /** `sorted(chars, key=ord)`. */
  method SortedByOrd(chars: set<char>) returns (r: string)
    ensures Ascending(r) && forall c :: c in r <==> c in chars
  {
    r := "";
    var rest := chars;
    while rest != {}
      invariant Ascending(r) && rest <= chars
      invariant forall c :: c in r <==> c in chars && c !in rest
      decreases rest
    {
      var c :| c in rest;
      InsertAscends(r, c);
      r := Insert(r, c);
      rest := rest - {c};
    }
  }

  /** `collect_charset`: the glyphs of all texts, of the seed files and of the head of the ranked file, less
      the excluded ones, in code point order and without repetition. */
  method CollectCharset(texts: seq<string>, seeds: seq<string>, excludes: seq<string>,
                        ranked: Option<string>, limit: nat) returns (chars: string)
    ensures Ascending(chars)
    ensures forall c :: c in chars <==>
              && (InTexts(c, texts) || InTexts(c, seeds)
                  || (ranked.Some? && c in Limited(Glyphs(ranked.value), limit)))
              && !InTexts(c, excludes)
  {
    var cs: set<char> := {};
    cs := Apply(cs, texts, true);
    cs := Apply(cs, seeds, true);
    if ranked.Some? {
      var head := IterRankedChars(ranked.value, limit);
      cs := cs + (set c | c in head);
    }
    cs := Apply(cs, excludes, false);
    chars := SortedByOrd(cs);
  }

  // ----- the charset file

  /** `write_charset` and `wrap_chars`: lines of 64 glyphs, each ended by a newline. */
  function Wrapped(chars: string): string {
    if chars == "" then ""
    else if |chars| <= 64 then chars + "\n"
    else chars[..64] + "\n" + Wrapped(chars[64..])
  }

  lemma {:induction false} WrappedLength(chars: string)
    ensures |Wrapped(chars)| == |chars| + (|chars| + 63) / 64
    ensures chars != "" ==> Wrapped(chars)[|Wrapped(chars)| - 1] == '\n'
    decreases |chars|
  {
    if |chars| > 64 {
      WrappedLength(chars[64..]);
    }
  }

  lemma {:induction false} GlyphPlace(chars: string, k: nat)
    requires k < |chars|
    ensures k + k / 64 < |Wrapped(chars)| && Wrapped(chars)[k + k / 64] == chars[k]
    decreases |chars|
  {
    if |chars| > 64 && k >= 64 {
      GlyphPlace(chars[64..], k - 64);
    }
  }

  lemma {:induction false} NewlinePlace(chars: string, k: nat)
    requires 65 * k + 64 < |Wrapped(chars)|
    ensures Wrapped(chars)[65 * k + 64] == '\n'
    decreases |chars|
  {
    if |chars| > 64 && k > 0 {
      NewlinePlace(chars[64..], k - 1);
    }
  }

  /** Sixty-four glyphs to a line, the last one shorter, and a newline behind each line. */
  lemma WrappedLayout(chars: string, k: nat)
    ensures |Wrapped(chars)| == |chars| + (|chars| + 63) / 64
    ensures chars != "" ==> Wrapped(chars)[|Wrapped(chars)| - 1] == '\n'
    ensures k < |chars| ==> k + k / 64 < |Wrapped(chars)| && Wrapped(chars)[k + k / 64] == chars[k]
    ensures 65 * k + 64 < |Wrapped(chars)| ==> Wrapped(chars)[65 * k + 64] == '\n'
  {
    WrappedLength(chars);
    if k < |chars| {
      GlyphPlace(chars, k);
    }
    if 65 * k + 64 < |Wrapped(chars)| {
      NewlinePlace(chars, k);
    }
  }

  /** Reading a wrapped file back gives the glyphs that were written. */
  lemma {:induction false} WrapThenRead(chars: string)
    requires forall i :: 0 <= i < |chars| ==> IsGlyph(chars[i])
    ensures Glyphs(Wrapped(chars)) == chars
    decreases |chars|
  {
    if chars != "" {
      var n := if |chars| <= 64 then |chars| else 64;
      var line, rest := chars[..n], Wrapped(chars[n..]);
      assert chars == line + chars[n..];
      assert Wrapped(chars) == line + ("\n" + rest);
      GlyphsConcat(line, "\n" + rest);
      GlyphsOfGlyphs(line);
      GlyphsConcat("\n", rest);
      assert Glyphs("\n") == "";
      WrapThenRead(chars[n..]);
    }
  }

  // ----- the range file

  datatype Range = Range(lo: int, hi: int)

  ghost predicate InRanges(c: int, rs: seq<Range>) {
    exists i :: 0 <= i < |rs| && rs[i].lo <= c <= rs[i].hi
  }

  /** Proper ranges, ascending, with a gap of at least one code between neighbours. */
  ghost predicate Canonical(rs: seq<Range>) {
    && (forall i :: 0 <= i < |rs| ==> rs[i].lo <= rs[i].hi)
    && (forall i, j :: 0 <= i < j < |rs| ==> rs[i].hi + 2 <= rs[j].lo)
  }

  /** The ranges hold exactly the codes. */
  ghost predicate Cover(rs: seq<Range>, codes: seq<int>) {
    forall c :: InRanges(c, rs) <==> c in codes
  }

  /** The loop of `write_ranges`. */
  method Ranges(codes: seq<int>) returns (rs: seq<Range>)
    requires forall i, j :: 0 <= i < j < |codes| ==> codes[i] < codes[j]
    ensures Canonical(rs) && Cover(rs, codes)
  {
    rs := [];
    if |codes| == 0 {
      return;
    }
    var start, prev := codes[0], codes[0];
    assert codes[..1] == [codes[0]];
    for i := 1 to |codes|
      invariant prev == codes[i - 1] && start <= prev
      invariant Canonical(rs + [Range(start, prev)]) && Cover(rs + [Range(start, prev)], codes[..i])
    {
      var code := codes[i];
      assert codes[..i + 1] == codes[..i] + [code];
      if code == prev + 1 {
        RangeGrows(rs, start, prev, codes[..i]);
        prev := code;
        continue;
      }
      RangeAdded(rs + [Range(start, prev)], code, codes[..i]);
      rs := rs + [Range(start, prev)];
      start, prev := code, code;
    }
    assert codes[..|codes|] == codes;
    rs := rs + [Range(start, prev)];
  }

  lemma RangeGrows(rs: seq<Range>, start: int, prev: int, codes: seq<int>)
    requires Canonical(rs + [Range(start, prev)]) && Cover(rs + [Range(start, prev)], codes)
    ensures Canonical(rs + [Range(start, prev + 1)]) && Cover(rs + [Range(start, prev + 1)], codes + [prev + 1])
  {
    var a, b := rs + [Range(start, prev)], rs + [Range(start, prev + 1)];
    forall i, j | 0 <= i < j < |b|
      ensures b[i].hi + 2 <= b[j].lo
    {
      assert a[i].hi + 2 <= a[j].lo;
    }
    assert a[|rs|].lo <= a[|rs|].hi;
    forall i | 0 <= i < |b|
      ensures b[i].lo <= b[i].hi
    {
      assert a[i].lo <= a[i].hi;
    }
    forall c
      ensures InRanges(c, b) <==> c in codes + [prev + 1]
    {
      if InRanges(c, b) {
        var i :| 0 <= i < |b| && b[i].lo <= c <= b[i].hi;
        assert c == prev + 1 || a[i].lo <= c <= a[i].hi;
      }
      if InRanges(c, a) {
        var i :| 0 <= i < |a| && a[i].lo <= c <= a[i].hi;
        assert b[i].lo <= c <= b[i].hi;
      }
      assert b[|rs|].lo <= prev + 1 <= b[|rs|].hi;
      assert InRanges(c, a) <==> c in codes;
    }
  }

  lemma RangeAdded(a: seq<Range>, code: int, codes: seq<int>)
    requires Canonical(a) && Cover(a, codes) && a != [] && a[|a| - 1].hi + 2 <= code
    ensures Canonical(a + [Range(code, code)]) && Cover(a + [Range(code, code)], codes + [code])
  {
    var b := a + [Range(code, code)];
    forall c
      ensures InRanges(c, b) <==> c in codes + [code]
    {
      if InRanges(c, b) {
        var i :| 0 <= i < |b| && b[i].lo <= c <= b[i].hi;
        assert i < |a| ==> a[i].lo <= c <= a[i].hi;
      }
      if InRanges(c, a) {
        var i :| 0 <= i < |a| && a[i].lo <= c <= a[i].hi;
        assert b[i].lo <= c <= b[i].hi;
      }
      assert b[|a|].lo <= code <= b[|a|].hi;
      assert InRanges(c, a) <==> c in codes;
    }
  }

  // ----- it is the only canonical cover, and no cover has fewer ranges

  lemma InTail(a: seq<Range>, c: int)
    requires a != [] && Canonical(a)
    ensures InRanges(c, a[1..]) <==> InRanges(c, a) && c > a[0].hi
  {
    if InRanges(c, a) && c > a[0].hi {
      var i :| 0 <= i < |a| && a[i].lo <= c <= a[i].hi;
      assert a[1..][i - 1] == a[i];
    }
    if InRanges(c, a[1..]) {
      var i :| 0 <= i < |a[1..]| && a[1..][i].lo <= c <= a[1..][i].hi;
      assert a[i + 1] == a[1..][i];
    }
  }

  lemma FirstRange(a: seq<Range>)
    requires a != [] && Canonical(a)
    ensures InRanges(a[0].lo, a) && InRanges(a[0].hi, a) && !InRanges(a[0].hi + 1, a)
    ensures forall c :: InRanges(c, a) ==> c >= a[0].lo
    ensures forall c :: a[0].lo <= c <= a[0].hi ==> InRanges(c, a)
  {
    assert a[0].lo <= a[0].hi;
  }

  lemma {:induction false} CanonicalCoverIsUnique(a: seq<Range>, b: seq<Range>)
    requires Canonical(a) && Canonical(b) && forall c :: InRanges(c, a) <==> InRanges(c, b)
    ensures a == b
    decreases |a|
  {
    if a == [] {
      if b != [] {
        FirstRange(b);
      }
    } else {
      FirstRange(a);
      assert InRanges(a[0].lo, b);
      FirstRange(b);
      assert InRanges(b[0].lo, a);
      assert a[0] == b[0] by {
        assert a[0].lo == b[0].lo;
        assert !InRanges(a[0].hi + 1, b) && !InRanges(b[0].hi + 1, a);
      }
      forall c
        ensures InRanges(c, a[1..]) <==> InRanges(c, b[1..])
      {
        InTail(a, c);
        InTail(b, c);
      }
      CanonicalCoverIsUnique(a[1..], b[1..]);
      assert a == [a[0]] + a[1..] && b == [b[0]] + b[1..];
    }
  }

  /** Below a range that is not the first there is a code no range holds. */
  lemma GapBelow(a: seq<Range>, k: nat)
    requires Canonical(a) && 0 < k < |a|
    ensures !InRanges(a[k].lo - 1, a)
  {
    forall i | 0 <= i < |a|
      ensures !(a[i].lo <= a[k].lo - 1 <= a[i].hi)
    {
      assert i < k ==> a[i].hi + 2 <= a[k].lo;
      assert i > k ==> a[k].hi + 2 <= a[i].lo;
    }
  }

  /** The range of `b` that holds the low end of range `i` of `a`. */
  ghost function Holder(a: seq<Range>, b: seq<Range>, i: nat): (j: nat)
    requires i < |a| && InRanges(a[i].lo, b)
    ensures j < |b| && b[j].lo <= a[i].lo <= b[j].hi
  {
    var j :| 0 <= j < |b| && b[j].lo <= a[i].lo <= b[j].hi;
    j
  }

  lemma CanonicalCoverIsSmallest(a: seq<Range>, b: seq<Range>)
    requires Canonical(a) && forall c :: InRanges(c, a) <==> InRanges(c, b)
    ensures |a| <= |b|
  {
    forall i | 0 <= i < |a|
      ensures InRanges(a[i].lo, b)
    {
      assert InRanges(a[i].lo, a);
    }
    var holders := seq(|a|, i requires 0 <= i < |a| => Holder(a, b, i));
    forall i, k | 0 <= i < k < |a|
      ensures holders[i] != holders[k]
    {
      var j := holders[i];
      GapBelow(a, k);
      assert a[i].hi + 2 <= a[k].lo;
      assert !InRanges(a[k].lo - 1, b);
      assert b[j].lo <= a[k].lo - 1 && !(b[j].lo <= a[k].lo - 1 <= b[j].hi);
    }
    Pigeonhole(holders, |b|);
  }

  lemma {:induction false} Pigeonhole(f: seq<nat>, m: nat)
    requires forall i :: 0 <= i < |f| ==> f[i] < m
    requires forall i, j :: 0 <= i < j < |f| ==> f[i] != f[j]
    ensures |f| <= m
    decreases m
  {
    if f != [] {
      assert f[0] < m;
      // Take away the largest value m - 1, which at most one place holds.
      if k :| 0 <= k < |f| && f[k] == m - 1 {
        var g := f[..k] + f[k + 1..];
        Pigeonhole(g, m - 1);
      } else {
        Pigeonhole(f, m - 1);
      }
    }
  }
}
