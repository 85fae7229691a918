/** What the lines of the Pinyin dictionary say of its glyphs, and what ranking follows
    (tools/extract_pinyin_chars.py). */
module Dictionary {
  import opened Text
  import opened Charset
  import opened Ranking

  // ----- the weight of a place

  lemma WeightIs(k: nat)
    ensures Weight(0) == 256
    ensures k < 255 ==> Weight(k + 1) == Weight(k) - 1
    ensures k >= 255 ==> Weight(k) == 1
  {
  }

  // ----- the tokens of a line

  /** What stands behind the first tab; nothing for comments and lines without one. */
  function Candidates(line: string): string {
    if line == "" || line[0] == '#' || '\t' !in line then "" else line[FirstIndex(line, '\t') + 1..]
  }

  lemma CandidatesBehindTab(key: string, rest: string)
    requires '\t' !in key && (key != "" ==> key[0] != '#')
    ensures Candidates(key + "\t" + rest) == rest
  {
    var line := key + ("\t" + rest);
    assert key + "\t" + rest == line;
    FirstBehind(key, "\t" + rest, '\t');
    assert line[|key|] == '\t' && line[|key| + 1..] == rest;
  }

  /** Not empty, without a blank, and without white space at its ends. */
  predicate IsToken(t: string) {
    t != "" && !IsSpace(t[0]) && !IsSpace(t[|t| - 1]) && ' ' !in t
  }

  predicate AllTokens(ts: seq<string>) {
    forall i :: 0 <= i < |ts| ==> IsToken(ts[i])
  }

  /** Joined by blanks. */
  function Spaced(ts: seq<string>): string {
    if ts == [] then "" else if |ts| == 1 then ts[0] else ts[0] + " " + Spaced(ts[1..])
  }

  lemma TokensAreThoseOf(line: string)
    ensures Tokens(line) == NonEmptyStripped(Split(Candidates(line)))
  {
    assert Split("") == [""] && NonEmptyStripped([""]) == [] by { assert [""][1..] == []; }
  }

  lemma SplitNone(s: string)
    requires ' ' !in s
    ensures Split(s) == [s]
  {
  }

  lemma SplitFirst(a: string, b: string)
    requires ' ' !in a
    ensures Split(a + " " + b) == [a] + Split(b)
  {
    var s := a + (" " + b);
    assert a + " " + b == s;
    FirstBehind(a, " " + b, ' ');
    assert s[..|a|] == a && s[|a| + 1..] == b;
  }

  lemma StripToken(t: string)
    requires IsToken(t)
    ensures Strip(t) == t
  {
  }

  /** The tokens of a line are just those that were joined by blanks behind its tab. */
  lemma TokensOfLine(key: string, ts: seq<string>)
    requires '\t' !in key && (key != "" ==> key[0] != '#') && AllTokens(ts)
    ensures Tokens(key + "\t" + Spaced(ts)) == ts
  {
    CandidatesBehindTab(key, Spaced(ts));
    TokensAreThoseOf(key + "\t" + Spaced(ts));
    StrippedAgain(ts);
  }

  lemma {:induction false} StrippedAgain(ts: seq<string>)
    requires AllTokens(ts)
    ensures NonEmptyStripped(Split(Spaced(ts))) == ts
  {
    if ts == [] {
      assert Split("") == [""] && [""][1..] == [];
    } else if |ts| == 1 {
      SplitNone(ts[0]);
      TokenFirst(ts[0], [], []);
      assert ts == [ts[0]] + [] && [ts[0]] == [ts[0]] + [];
    } else {
      StrippedAgain(ts[1..]);
      SplitFirst(ts[0], Spaced(ts[1..]));
      TokenFirst(ts[0], Split(Spaced(ts[1..])), ts[1..]);
      assert ts == [ts[0]] + ts[1..];
    }
  }

  lemma TokenFirst(t: string, rest: seq<string>, ts: seq<string>)
    requires IsToken(t) && NonEmptyStripped(rest) == ts
    ensures NonEmptyStripped([t] + rest) == [t] + ts
  {
    StripToken(t);
    OneStripped(t, rest);
  }

  lemma OneStripped(t: string, rest: seq<string>)
    ensures NonEmptyStripped([t] + rest) == (if Strip(t) != "" then [Strip(t)] else []) + NonEmptyStripped(rest)
  {
    assert ([t] + rest)[1..] == rest;
  }

  /** In general they are the parts between the blanks, without the white space at their ends and without empty
      ones. */
  lemma TokensOfParts(key: string, parts: seq<string>)
    requires '\t' !in key && (key != "" ==> key[0] != '#')
    requires parts != [] && forall i :: 0 <= i < |parts| ==> ' ' !in parts[i]
    ensures Tokens(key + "\t" + Spaced(parts)) == NonEmptyStripped(parts)
  {
    CandidatesBehindTab(key, Spaced(parts));
    TokensAreThoseOf(key + "\t" + Spaced(parts));
    SplitAgain(parts);
  }

  lemma {:induction false} SplitAgain(parts: seq<string>)
    requires parts != [] && forall i :: 0 <= i < |parts| ==> ' ' !in parts[i]
    ensures Split(Spaced(parts)) == parts
  {
    if |parts| == 1 {
      SplitNone(parts[0]);
    } else {
      SplitAgain(parts[1..]);
      SplitFirst(parts[0], Spaced(parts[1..]));
    }
  }

  /** Stripping takes away exactly the white space at both ends. */
  lemma StripIs(a: string, t: string, b: string)
    requires IsBlank(a) && IsBlank(b) && (t != "" ==> !IsSpace(t[0]) && !IsSpace(t[|t| - 1]))
    ensures Strip(a + t + b) == t
  {
    if t == "" {
      assert a + t + b == a + b;
      LStripIs(a + b, "");
      assert a + b + "" == a + b;
    } else {
      LStripIs(a, t + b);
      assert a + t + b == a + (t + b);
      RStripIs(t, b);
    }
  }

  lemma {:induction false} LStripIs(a: string, t: string)
    requires IsBlank(a) && (t != "" ==> !IsSpace(t[0]))
    ensures LStrip(a + t) == t
  {
    if a == "" {
      assert a + t == t;
    } else {
      LStripIs(a[1..], t);
      assert (a + t)[1..] == a[1..] + t;
    }
  }

  lemma {:induction false} RStripIs(t: string, b: string)
    requires IsBlank(b) && t != "" && !IsSpace(t[|t| - 1])
    ensures RStrip(t + b) == t
    decreases |b|
  {
    if b == "" {
      assert t + b == t;
    } else {
      RStripIs(t, b[..|b| - 1]);
      assert (t + b)[..|t + b| - 1] == t + b[..|b| - 1];
    }
  }

  // ----- nothing is lost but white space

  function Flat(ts: seq<string>): string {
    if ts == [] then "" else ts[0] + Flat(ts[1..])
  }

  lemma {:induction false} StripKeeps(s: string)
    ensures Visible(Strip(s)) == Visible(s)
  {
    LStripKeeps(s);
    RStripKeeps(LStrip(s));
  }

  lemma {:induction false} LStripKeeps(s: string)
    ensures Visible(LStrip(s)) == Visible(s)
  {
    if s != "" && IsSpace(s[0]) {
      LStripKeeps(s[1..]);
    }
  }

  lemma {:induction false} RStripKeeps(s: string)
    ensures Visible(RStrip(s)) == Visible(s)
    decreases |s|
  {
    if s != "" && IsSpace(s[|s| - 1]) {
      var n := |s| - 1;
      RStripKeeps(s[..n]);
      VisibleConcat(s[..n], [s[n]]);
      BlankIsInvisible([s[n]]);
      assert s == s[..n] + [s[n]];
    }
  }

  lemma {:induction false} StrippedKeep(parts: seq<string>)
    ensures Visible(Flat(NonEmptyStripped(parts))) == Visible(Flat(parts))
  {
    if parts != [] {
      StrippedKeep(parts[1..]);
      StripKeeps(parts[0]);
      VisibleConcat(parts[0], Flat(parts[1..]));
      var rest := NonEmptyStripped(parts[1..]);
      if Strip(parts[0]) != "" {
        assert ([Strip(parts[0])] + rest)[1..] == rest;
        VisibleConcat(Strip(parts[0]), Flat(rest));
      } else {
        assert "" + Visible(Flat(rest)) == Visible(Flat(rest));
      }
    }
  }

  lemma {:induction false} SplitKeeps(s: string)
    ensures Visible(Flat(Split(s))) == Visible(s)
    decreases |s|
  {
    var i := FirstIndex(s, ' ');
    if i < |s| {
      SplitKeeps(s[i + 1..]);
      SplitStep(s, i, Split(s[i + 1..]));
      SplitMore(s, i, Split(s[i + 1..]));
    } else {
      FlatOne(s);
    }
  }

  lemma FlatOne(s: string)
    ensures Flat([s]) == s
  {
    assert [s][1..] == [] && s + "" == s;
  }

  lemma SplitStep(s: string, i: nat, rest: seq<string>)
    requires i < |s| && s[i] == ' ' && Visible(Flat(rest)) == Visible(s[i + 1..])
    ensures Visible(Flat([s[..i]] + rest)) == Visible(s)
  {
    assert ([s[..i]] + rest)[1..] == rest;
    VisibleConcat(s[..i], Flat(rest));
    VisibleBlank(s[..i], s[i + 1..]);
    CutAt(s, i);
  }

  lemma SplitMore(s: string, i: nat, rest: seq<string>)
    requires i == FirstIndex(s, ' ') < |s| && rest == Split(s[i + 1..])
    ensures Split(s) == [s[..i]] + rest
  {
  }

  lemma CutAt(s: string, i: nat)
    requires i < |s|
    ensures s == s[..i] + [s[i]] + s[i + 1..]
  {
  }

  lemma VisibleBlank(a: string, b: string)
    ensures Visible(a + [' '] + b) == Visible(a) + Visible(b)
  {
    VisibleConcat(a + [' '], b);
    VisibleConcat(a, [' ']);
    BlankIsInvisible([' ']);
  }

  /** Without white space the tokens are the candidates, in their order. */
  lemma TokensKeepText(line: string)
    ensures Visible(Flat(Tokens(line))) == Visible(Candidates(line))
  {
    TokensAreThoseOf(line);
    StrippedKeep(Split(Candidates(line)));
    SplitKeeps(Candidates(line));
  }

  // ----- the glyphs in order of appearance

  function GlyphsOf(os: seq<Occurrence>): (gs: string)
    ensures |gs| == |os|
  {
    seq(|os|, i requires 0 <= i < |os| => os[i].glyph)
  }

  /** The glyphs of all candidates, line after line. */
  function AllGlyphs(lines: seq<string>): string {
    if lines == [] then "" else AllGlyphs(lines[..|lines| - 1]) + Glyphs(Candidates(lines[|lines| - 1]))
  }

  lemma {:induction false} GlyphsAreVisible(s: string)
    ensures Glyphs(Visible(s)) == Glyphs(s)
  {
    if s != "" {
      GlyphsAreVisible(s[1..]);
      if !IsSpace(s[0]) {
        assert ([s[0]] + Visible(s[1..]))[1..] == Visible(s[1..]);
      }
    }
  }

  lemma {:induction false} FlatConcat(a: seq<string>, b: seq<string>)
    ensures Flat(a + b) == Flat(a) + Flat(b)
  {
    if a == [] {
      assert a + b == b;
    } else {
      FlatConcat(a[1..], b);
      FlatHead(a, b, Flat(a[1..]), Flat(b));
    }
  }

  lemma FlatHead(a: seq<string>, b: seq<string>, more: string, tail: string)
    requires a != [] && more == Flat(a[1..]) && Flat(a[1..] + b) == more + tail
    ensures Flat(a + b) == Flat(a) + tail
  {
    assert (a + b)[1..] == a[1..] + b;
    assert a[0] + (more + tail) == a[0] + more + tail;
  }

  lemma GlyphsOfConcat(a: seq<Occurrence>, b: seq<Occurrence>)
    ensures GlyphsOf(a + b) == GlyphsOf(a) + GlyphsOf(b)
  {
  }

  lemma {:induction false} LineGlyphsAre(tokens: seq<string>, n: nat)
    requires n <= |tokens|
    ensures GlyphsOf(LineOccurrences(tokens, n)) == Glyphs(Flat(tokens[..n]))
  {
    if n > 0 {
      var last := tokens[n - 1];
      LineGlyphsAre(tokens, n - 1);
      GlyphsOfConcat(LineOccurrences(tokens, n - 1), TokenOccurrences(last, Weight(n - 1)));
      assert GlyphsOf(TokenOccurrences(last, Weight(n - 1))) == Glyphs(last);
      assert tokens[..n] == tokens[..n - 1] + [last];
      FlatConcat(tokens[..n - 1], [last]);
      FlatOne(last);
      GlyphsConcat(Flat(tokens[..n - 1]), last);
    }
  }

  /** The glyphs occur in the order in which they stand in the dictionary, each as often as there. */
  lemma {:induction false} OccurrencesAre(lines: seq<string>)
    ensures GlyphsOf(Occurrences(lines)) == AllGlyphs(lines)
  {
    if lines != [] {
      var line := lines[|lines| - 1];
      var tokens := Tokens(line);
      OccurrencesAre(lines[..|lines| - 1]);
      LineGlyphsAre(tokens, |tokens|);
      assert tokens[..|tokens|] == tokens;
      TokensKeepText(line);
      GlyphsAreVisible(Flat(tokens));
      GlyphsAreVisible(Candidates(line));
      GlyphsOfConcat(Occurrences(lines[..|lines| - 1]), LineOccurrences(tokens, |tokens|));
    }
  }

  // ----- the scores

  /** How often a character stands in a text. */
  function Copies(s: string, c: char): nat {
    if s == "" then 0 else Copies(s[..|s| - 1], c) + if s[|s| - 1] == c then 1 else 0
  }

  /** From the first `n` tokens of a line: 256 for each copy in the first, 255 in the second and so on, at least 1. */
  function LineScore(tokens: seq<string>, c: char, n: nat): nat
    requires n <= |tokens|
  {
    if n == 0 then 0
    else LineScore(tokens, c, n - 1) + Copies(tokens[n - 1], c) * if n <= 256 then 257 - n else 1
  }

  function DictionaryScore(lines: seq<string>, c: char): nat {
    if lines == [] then 0
    else
      var tokens := Tokens(lines[|lines| - 1]);
      DictionaryScore(lines[..|lines| - 1], c) + LineScore(tokens, c, |tokens|)
  }

  lemma {:induction false} ScoreConcat(a: seq<Occurrence>, b: seq<Occurrence>, c: char)
    ensures Score(a + b, c) == Score(a, c) + Score(b, c)
    decreases |b|
  {
    if b == [] {
      assert a + b == a;
    } else {
      ScoreConcat(a, b[..|b| - 1], c);
      assert (a + b)[..|a + b| - 1] == a + b[..|b| - 1];
    }
  }

  lemma {:induction false} TokenScore(token: string, w: nat, c: char)
    requires IsGlyph(c)
    ensures Score(TokenOccurrences(token, w), c) == Copies(token, c) * w
  {
    if token != "" {
      var before, last := token[..|token| - 1], token[|token| - 1];
      TokenScore(before, w, c);
      MoreOfToken(before, last, w, c);
      assert token == before + [last];
      assert (Copies(before, c) + 1) * w == Copies(before, c) * w + w;
    }
  }

  lemma MoreOfToken(token: string, last: char, w: nat, c: char)
    requires IsGlyph(c)
    ensures Score(TokenOccurrences(token + [last], w), c)
         == Score(TokenOccurrences(token, w), c) + if last == c then w else 0
  {
    var more := if IsGlyph(last) then [Occurrence(last, w)] else [];
    OneMoreGlyph([], token, last, w);
    assert [] + TokenOccurrences(token + [last], w) == TokenOccurrences(token + [last], w);
    assert [] + TokenOccurrences(token, w) == TokenOccurrences(token, w);
    ScoreConcat(TokenOccurrences(token, w), more, c);
    assert more != [] ==> more[..0] == [];
  }

  lemma {:induction false} LineScoreIs(tokens: seq<string>, c: char, n: nat)
    requires n <= |tokens| && IsGlyph(c)
    ensures Score(LineOccurrences(tokens, n), c) == LineScore(tokens, c, n)
  {
    if n > 0 {
      LineScoreIs(tokens, c, n - 1);
      TokenScore(tokens[n - 1], Weight(n - 1), c);
      ScoreConcat(LineOccurrences(tokens, n - 1), TokenOccurrences(tokens[n - 1], Weight(n - 1)), c);
    }
  }

  /** The score of a glyph is the sum over its places in the dictionary. */
  lemma {:induction false} ScoreIs(lines: seq<string>, c: char)
    requires IsGlyph(c)
    ensures Score(Occurrences(lines), c) == DictionaryScore(lines, c)
  {
    if lines != [] {
      var tokens := Tokens(lines[|lines| - 1]);
      ScoreIs(lines[..|lines| - 1], c);
      LineScoreIs(tokens, c, |tokens|);
      ScoreConcat(Occurrences(lines[..|lines| - 1]), LineOccurrences(tokens, |tokens|), c);
    }
  }

  // ----- the ranking

  lemma FirstAtIs(os: seq<Occurrence>, c: char)
    requires Seen(os, c)
    ensures c in GlyphsOf(os) && FirstAt(os, c, FirstIndex(GlyphsOf(os), c))
  {
    var i :| 0 <= i < |os| && os[i].glyph == c;
    assert GlyphsOf(os)[i] == c;
    var k := FirstIndex(GlyphsOf(os), c);
    assert forall j :: 0 <= j < k ==> GlyphsOf(os)[j] == os[j].glyph;
  }

  lemma SeenIs(os: seq<Occurrence>, c: char)
    ensures Seen(os, c) <==> c in GlyphsOf(os)
  {
    if Seen(os, c) {
      FirstAtIs(os, c);
    }
    if c in GlyphsOf(os) {
      var i :| 0 <= i < |GlyphsOf(os)| && GlyphsOf(os)[i] == c;
      assert os[i].glyph == c;
    }
  }

  /** What the ranking of a dictionary is: exactly its glyphs, and of two the one with the larger sum is ahead or,
      with equal sums, the one that stands first in the dictionary. */
  lemma RankedBySums(lines: seq<string>, t: Table, ranked: string)
    requires Right(t, Occurrences(lines)) && IsRanking(t, ranked)
    ensures forall c :: c in ranked <==> c in AllGlyphs(lines)
    ensures forall i, j :: 0 <= i < j < |ranked| ==> AheadInText(lines, ranked[i], ranked[j])
  {
    var os := Occurrences(lines);
    OccurrencesAre(lines);
    forall c
      ensures c in ranked <==> c in AllGlyphs(lines)
    {
      SeenIs(os, c);
    }
    forall i, j | 0 <= i < j < |ranked|
      ensures AheadInText(lines, ranked[i], ranked[j])
    {
      assert ranked[i] in ranked && ranked[j] in ranked;
      AheadMeans(lines, t, ranked[i], ranked[j]);
    }
  }

  predicate AheadInText(lines: seq<string>, a: char, b: char) {
    || DictionaryScore(lines, a) > DictionaryScore(lines, b)
    || (DictionaryScore(lines, a) == DictionaryScore(lines, b)
        && FirstIndex(AllGlyphs(lines), a) < FirstIndex(AllGlyphs(lines), b))
  }

  lemma AheadMeans(lines: seq<string>, t: Table, a: char, b: char)
    requires Right(t, Occurrences(lines)) && a in t.scores && b in t.scores && Ahead(t, a, b)
    ensures AheadInText(lines, a, b)
  {
    var os := Occurrences(lines);
    OccurrencesAre(lines);
    FirstAtIs(os, a);
    FirstAtIs(os, b);
    OccurringIsGlyph(lines, a);
    OccurringIsGlyph(lines, b);
    ScoreIs(lines, a);
    ScoreIs(lines, b);
    RankingMeans(os, t, a, b, FirstIndex(GlyphsOf(os), a), FirstIndex(GlyphsOf(os), b));
  }

  lemma OccurringIsGlyph(lines: seq<string>, c: char)
    requires Seen(Occurrences(lines), c)
    ensures IsGlyph(c)
  {
    OnlyGlyphs(lines);
    var i :| 0 <= i < |Occurrences(lines)| && Occurrences(lines)[i].glyph == c;
  }

  /** The whole of `main`: the file in code point order and the ranked one, of the same glyphs, those of the
      dictionary; of two the one with the larger sum or else the earlier one is ahead. */
  method ExtractRanked(lines: seq<string>)
    returns (sortedFile: string, rankedFile: string, t: Table, sorted: string, ranked: string)
    ensures Right(t, Occurrences(lines)) && IsRanking(t, ranked) && rankedFile == Wrapped(ranked)
    ensures Ascending(sorted) && sortedFile == Wrapped(sorted)
    ensures forall c :: c in sorted <==> c in ranked
    ensures forall c :: c in ranked <==> c in AllGlyphs(lines)
    ensures forall i, j :: 0 <= i < j < |ranked| ==> AheadInText(lines, ranked[i], ranked[j])
  {
    t := ScoreGlyphs(lines);
    sorted := SortedByOrd(t.scores.Keys);
    ranked := Rank(t);
    RankedBySums(lines, t, ranked);
    sortedFile, rankedFile := Wrapped(sorted), Wrapped(ranked);
  }

  // ----- one line of single glyphs

  predicate AllDifferent(cs: string) {
    forall i, j :: 0 <= i < j < |cs| ==> cs[i] != cs[j]
  }

  function Singles(cs: string): (ts: seq<string>)
    ensures |ts| == |cs|
  {
    seq(|cs|, i requires 0 <= i < |cs| => [cs[i]])
  }

  lemma {:induction false} FlatSingles(cs: string)
    ensures Flat(Singles(cs)) == cs
  {
    if cs != "" {
      FlatSingles(cs[1..]);
      assert Singles(cs)[1..] == Singles(cs[1..]);
    }
  }

  lemma {:induction false} SinglesScore(cs: string, i: nat, n: nat)
    requires AllDifferent(cs) && |cs| <= 256 && i < |cs| && n <= |cs|
    ensures LineScore(Singles(cs), cs[i], n) == if i < n then 256 - i else 0
  {
    if n > 0 {
      SinglesScore(cs, i, n - 1);
      var c := cs[n - 1];
      assert Singles(cs)[n - 1] == [c] && [c][..0] == "";
      assert Copies([c], cs[i]) == if i == n - 1 then 1 else 0;
    }
  }

  /** A rising sequence of places that leaves none out is the sequence of all places. */
  lemma {:induction false} PlaceIs(cs: string, r: string, m: nat)
    requires AllDifferent(cs) && m < |cs| && forall c :: c in r <==> c in cs
    requires forall i, j :: 0 <= i < j < |r| ==> FirstIndex(cs, r[i]) < FirstIndex(cs, r[j])
    ensures m < |r| && r[m] == cs[m]
  {
    assert cs[m] in cs && cs[m] in r;
    var j :| 0 <= j < |r| && r[j] == cs[m];
    assert FirstIndex(cs, cs[m]) == m;
    if m > 0 {
      PlaceIs(cs, r, m - 1);
      assert FirstIndex(cs, cs[m - 1]) == m - 1;
    }
    assert m <= j;
    assert r[m] in r && r[m] in cs;
  }

  lemma SameOrder(cs: string, r: string)
    requires AllDifferent(cs) && forall c :: c in r <==> c in cs
    requires forall i, j :: 0 <= i < j < |r| ==> FirstIndex(cs, r[i]) < FirstIndex(cs, r[j])
    ensures r == cs
  {
    forall m: nat | m < |cs|
      ensures m < |r| && r[m] == cs[m]
    {
      PlaceIs(cs, r, m);
    }
    NoFurther(cs, r);
    if cs != "" {
      PlaceIs(cs, r, |cs| - 1);
    }
    assert |r| == |cs|;
  }

  lemma NoFurther(cs: string, r: string)
    requires AllDifferent(cs) && forall c :: c in r ==> c in cs
    requires forall i, j :: 0 <= i < j < |r| ==> FirstIndex(cs, r[i]) < FirstIndex(cs, r[j])
    ensures |r| <= |cs|
  {
    if r != "" {
      PlacesRise(cs, r, |r| - 1);
    }
  }

  lemma {:induction false} PlacesRise(cs: string, r: string, k: nat)
    requires k < |r| && forall c :: c in r ==> c in cs
    requires forall i, j :: 0 <= i < j < |r| ==> FirstIndex(cs, r[i]) < FirstIndex(cs, r[j])
    ensures k <= FirstIndex(cs, r[k]) < |cs|
  {
    assert r[k] in r;
    if k > 0 {
      PlacesRise(cs, r, k - 1);
    }
  }

  /** The glyphs of a line that lists at most 256 different ones, best first, are ranked as they are listed. */
  lemma OneLineRanked(key: string, cs: string, t: Table, ranked: string)
    requires '\t' !in key && (key != "" ==> key[0] != '#')
    requires AllDifferent(cs) && |cs| <= 256 && forall i :: 0 <= i < |cs| ==> IsGlyph(cs[i])
    requires Right(t, Occurrences([key + "\t" + Spaced(Singles(cs))])) && IsRanking(t, ranked)
    ensures ranked == cs
  {
    var line := key + "\t" + Spaced(Singles(cs));
    SinglesAreTokens(cs);
    TokensOfLine(key, Singles(cs));
    GlyphsOfSingles(line, cs);
    RankedBySums([line], t, ranked);
    LineRanked(line, cs, ranked);
  }

  lemma LineRanked(line: string, cs: string, ranked: string)
    requires AllDifferent(cs) && |cs| <= 256 && Tokens(line) == Singles(cs) && AllGlyphs([line]) == cs
    requires forall c :: c in ranked <==> c in cs
    requires forall i, j :: 0 <= i < j < |ranked| ==> AheadInText([line], ranked[i], ranked[j])
    ensures ranked == cs
  {
    forall i, j | 0 <= i < j < |ranked|
      ensures FirstIndex(cs, ranked[i]) < FirstIndex(cs, ranked[j])
    {
      assert ranked[i] in ranked && ranked[j] in ranked;
      PlaceScore(line, cs, ranked[i]);
      PlaceScore(line, cs, ranked[j]);
    }
    SameOrder(cs, ranked);
  }

  lemma PlaceScore(line: string, cs: string, c: char)
    requires AllDifferent(cs) && |cs| <= 256 && Tokens(line) == Singles(cs) && c in cs
    ensures DictionaryScore([line], c) == 256 - FirstIndex(cs, c)
  {
    assert [line][..0] == [];
    SinglesScore(cs, FirstIndex(cs, c), |cs|);
  }

  lemma SinglesAreTokens(cs: string)
    requires forall i :: 0 <= i < |cs| ==> IsGlyph(cs[i])
    ensures AllTokens(Singles(cs))
  {
  }

  lemma GlyphsOfSingles(line: string, cs: string)
    requires Tokens(line) == Singles(cs) && forall i :: 0 <= i < |cs| ==> IsGlyph(cs[i])
    ensures AllGlyphs([line]) == cs
  {
    assert [line][..0] == [] && "" + Glyphs(Candidates(line)) == Glyphs(Candidates(line));
    TokensKeepText(line);
    FlatSingles(cs);
    GlyphsAreVisible(cs);
    GlyphsAreVisible(Candidates(line));
    GlyphsOfGlyphs(cs);
  }
}
