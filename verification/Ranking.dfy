/** Scoring and ranking the glyphs of the Pinyin dictionary (tools/extract_pinyin_chars.py) and handing the
    ranking over to the charset builder (tools/build_locale_pack_charset.py). */
module Ranking {
  import opened Text
  import opened Charset

  // ----- the dictionary as a list of glyph occurrences with their weights

  datatype Occurrence = Occurrence(glyph: char, weight: nat)

  /** `s.split(" ")`. */
  function Split(s: string): seq<string>
    decreases |s|
  {
    var i := FirstIndex(s, ' ');
    if i < |s| then [s[..i]] + Split(s[i + 1..]) else [s]
  }

  function LStrip(s: string): string {
    if s != "" && IsSpace(s[0]) then LStrip(s[1..]) else s
  }

  function RStrip(s: string): string {
    if s != "" && IsSpace(s[|s| - 1]) then RStrip(s[..|s| - 1]) else s
  }

  function Strip(s: string): string {
    RStrip(LStrip(s))
  }

  function NonEmptyStripped(parts: seq<string>): seq<string> {
    if parts == [] then []
    else if Strip(parts[0]) != "" then [Strip(parts[0])] + NonEmptyStripped(parts[1..])
    else NonEmptyStripped(parts[1..])
  }

  /** The candidate tokens of a dictionary line; none for a comment or a line without a tab. */
  function Tokens(line: string): seq<string> {
    if line == "" || line[0] == '#' || '\t' !in line then []
    else NonEmptyStripped(Split(line[FirstIndex(line, '\t') + 1..]))
  }

  function Weight(tokenIndex: nat): (w: nat)
    ensures w >= 1
  {
    if 256 - tokenIndex > 1 then 256 - tokenIndex else 1
  }

  function TokenOccurrences(token: string, weight: nat): seq<Occurrence> {
    seq(|Glyphs(token)|, i requires 0 <= i < |Glyphs(token)| => Occurrence(Glyphs(token)[i], weight))
  }

  function LineOccurrences(tokens: seq<string>, n: nat): seq<Occurrence>
    requires n <= |tokens|
  {
    if n == 0 then [] else LineOccurrences(tokens, n - 1) + TokenOccurrences(tokens[n - 1], Weight(n - 1))
  }

  function Occurrences(lines: seq<string>): seq<Occurrence> {
    if lines == [] then []
    else
      var tokens := Tokens(lines[|lines| - 1]);
      Occurrences(lines[..|lines| - 1]) + LineOccurrences(tokens, |tokens|)
  }

  // ----- what is kept about them

  /** The dictionaries of `main`: score and order of first appearance. */
  datatype Table = Table(scores: map<char, nat>, order: map<char, nat>, next: nat)

  const EMPTY := Table(map[], map[], 0)

  function Score(os: seq<Occurrence>, c: char): nat {
    if os == [] then 0
    else Score(os[..|os| - 1], c) + if os[|os| - 1].glyph == c then os[|os| - 1].weight else 0
  }

  ghost predicate Seen(os: seq<Occurrence>, c: char) {
    exists i :: 0 <= i < |os| && os[i].glyph == c
  }

  ghost predicate FirstAt(os: seq<Occurrence>, c: char, i: nat) {
    i < |os| && os[i].glyph == c && forall j :: 0 <= j < i ==> os[j].glyph != c
  }

  /** The table is right for the occurrences: it lists the glyphs seen, the scores are the sums of their
      weights, and the order numbers rise with first appearance. */
  ghost predicate Right(t: Table, os: seq<Occurrence>) {
    && t.scores.Keys == t.order.Keys
    && (forall c :: c in t.scores <==> Seen(os, c))
    && (forall c :: c in t.scores ==> t.scores[c] == Score(os, c))
    && (forall c :: c in t.order ==> t.order[c] < t.next)
    && (forall c, d, i: nat, j: nat :: c in t.order && d in t.order && FirstAt(os, c, i) && FirstAt(os, d, j) ==>
          (i < j <==> t.order[c] < t.order[d]))
  }

  /** The body of the innermost loop for a candidate character. */
  function Noted(t: Table, c: char, weight: nat): Table {
    Table(t.scores[c := (if c in t.scores then t.scores[c] else 0) + weight],
          if c in t.order then t.order else t.order[c := t.next],
          if c in t.order then t.next else t.next + 1)
  }

  lemma NotedIsRight(t: Table, os: seq<Occurrence>, o: Occurrence)
    requires Right(t, os)
    ensures Right(Noted(t, o.glyph, o.weight), os + [o])
  {
    var t', os' := Noted(t, o.glyph, o.weight), os + [o];
    assert os'[..|os'| - 1] == os;
    SeenGrows(os, o);
    NotSeenScore(os, o.glyph);
    forall c, d, i: nat, j: nat | c in t'.order && d in t'.order && FirstAt(os', c, i) && FirstAt(os', d, j)
      ensures i < j <==> t'.order[c] < t'.order[d]
    {
      FirstAtShrinks(os, o, c, i);
      FirstAtShrinks(os, o, d, j);
    }
  }

  lemma SeenGrows(os: seq<Occurrence>, o: Occurrence)
    ensures forall c :: Seen(os + [o], c) <==> Seen(os, c) || c == o.glyph
  {
    var os' := os + [o];
    forall c
      ensures Seen(os', c) <==> Seen(os, c) || c == o.glyph
    {
      assert os'[|os|].glyph == o.glyph;
      if Seen(os, c) {
        var i :| 0 <= i < |os| && os[i].glyph == c;
        assert os'[i].glyph == c;
      }
    }
  }

  lemma {:induction false} NotSeenScore(os: seq<Occurrence>, c: char)
    ensures !Seen(os, c) ==> Score(os, c) == 0
  {
    if os != [] && !Seen(os, c) {
      var before := os[..|os| - 1];
      assert forall i :: 0 <= i < |before| ==> before[i] == os[i];
      NotSeenScore(before, c);
      assert os[|os| - 1].glyph != c;
    }
  }

  lemma FirstAtShrinks(os: seq<Occurrence>, o: Occurrence, c: char, i: nat)
    requires FirstAt(os + [o], c, i)
    ensures if i < |os| then FirstAt(os, c, i) && Seen(os, c) else c == o.glyph && !Seen(os, c)
  {
    assert forall k :: 0 <= k < |os| ==> (os + [o])[k] == os[k];
  }

  // ----- the loops

  method NoteToken(t: Table, token: string, weight: nat, ghost os: seq<Occurrence>) returns (t': Table)
    requires Right(t, os)
    ensures Right(t', os + TokenOccurrences(token, weight))
  {
    t' := t;
    assert os + TokenOccurrences("", weight) == os;
    for i := 0 to |token|
      invariant Right(t', os + TokenOccurrences(token[..i], weight))
    {
      var ch := token[i];
      assert token[..i + 1] == token[..i] + [ch];
      ghost var so := os + TokenOccurrences(token[..i], weight);
      OneMoreGlyph(os, token[..i], ch, weight);
      if IsGlyph(ch) {
        NotedIsRight(t', so, Occurrence(ch, weight));
        t' := Noted(t', ch, weight);
      } else {
        assert so + [] == so;
      }
    }
    assert token[..|token|] == token;
  }

  lemma OneMoreGlyph(os: seq<Occurrence>, token: string, ch: char, weight: nat)
    ensures os + TokenOccurrences(token + [ch], weight)
         == os + TokenOccurrences(token, weight) + if IsGlyph(ch) then [Occurrence(ch, weight)] else []
  {
    GlyphsConcat(token, [ch]);
    assert [ch][1..] == "";
  }

  /** The scoring loops of `main`. */
  method ScoreGlyphs(lines: seq<string>) returns (t: Table)
    ensures Right(t, Occurrences(lines))
  {
    t := EMPTY;
    for i := 0 to |lines|
      invariant Right(t, Occurrences(lines[..i]))
    {
      assert lines[..i + 1][..i] == lines[..i];
      var tokens := Tokens(lines[i]);
      ghost var os := Occurrences(lines[..i]);
      assert os + [] == os;
      for k := 0 to |tokens|
        invariant Right(t, os + LineOccurrences(tokens, k))
      {
        t := NoteToken(t, tokens[k], Weight(k), os + LineOccurrences(tokens, k));
        assert os + LineOccurrences(tokens, k) + TokenOccurrences(tokens[k], Weight(k))
            == os + LineOccurrences(tokens, k + 1);
      }
    }
    assert lines[..|lines|] == lines;
  }

  // ----- the ranking

  /** The sort key: falling score, then first appearance, then code point. */
  ghost predicate Ahead(t: Table, a: char, b: char)
    requires a in t.scores && b in t.scores && a in t.order && b in t.order
  {
    || t.scores[a] > t.scores[b]
    || (t.scores[a] == t.scores[b] && t.order[a] < t.order[b])
    || (t.scores[a] == t.scores[b] && t.order[a] == t.order[b] && a < b)
  }

  /** Every glyph of the table once, in key order. */
  ghost predicate IsRanking(t: Table, r: string)
    requires t.scores.Keys == t.order.Keys
  {
    && (forall c :: c in r <==> c in t.scores)
    && forall i, j :: 0 <= i < j < |r| ==> Ahead(t, r[i], r[j])
  }

  /** `sorted(unique_chars, key=...)`. */
  method Rank(t: Table) returns (r: string)
    requires t.scores.Keys == t.order.Keys
    ensures IsRanking(t, r)
  {
    r := "";
    var rest := t.scores.Keys;
    while rest != {}
      invariant rest <= t.scores.Keys
      invariant forall c :: c in r <==> c in t.scores && c !in rest
      invariant forall i, j :: 0 <= i < j < |r| ==> Ahead(t, r[i], r[j])
      decreases rest
    {
      var c :| c in rest;
      r := InsertRanked(t, r, c);
      rest := rest - {c};
    }
  }

  method InsertRanked(t: Table, r: string, c: char) returns (r': string)
    requires t.scores.Keys == t.order.Keys && c in t.scores && c !in r
    requires forall x :: x in r ==> x in t.scores
    requires forall i, j :: 0 <= i < j < |r| ==> Ahead(t, r[i], r[j])
    ensures forall x :: x in r' <==> x in r || x == c
    ensures forall i, j :: 0 <= i < j < |r'| ==> Ahead(t, r'[i], r'[j])
  {
    var k := 0;
    while k < |r| && (t.scores[r[k]] > t.scores[c]
                      || (t.scores[r[k]] == t.scores[c] && t.order[r[k]] < t.order[c])
                      || (t.scores[r[k]] == t.scores[c] && t.order[r[k]] == t.order[c] && r[k] < c))
      invariant 0 <= k <= |r|
      invariant forall i :: 0 <= i < k ==> Ahead(t, r[i], c)
    {
      k := k + 1;
    }
    BehindFirst(t, r, c, k);
    InsertedAt(t, r, c, k);
    r' := r[..k] + [c] + r[k..];
  }

  /** The one at place `k` is not ahead of `c`, so `c` is ahead of it and of all behind it. */
  lemma BehindFirst(t: Table, r: string, c: char, k: nat)
    requires t.scores.Keys == t.order.Keys && c in t.scores && c !in r && k <= |r|
    requires forall x :: x in r ==> x in t.scores
    requires forall i, j :: 0 <= i < j < |r| ==> Ahead(t, r[i], r[j])
    requires k < |r| ==> !Ahead(t, r[k], c)
    ensures forall i :: k <= i < |r| ==> Ahead(t, c, r[i])
  {
    forall i | k <= i < |r|
      ensures Ahead(t, c, r[i])
    {
      assert r[k] in r && r[k] != c;
      assert Ahead(t, c, r[k]);
    }
  }

  lemma InsertedAt(t: Table, r: string, c: char, k: nat)
    requires t.scores.Keys == t.order.Keys && c in t.scores && k <= |r|
    requires forall x :: x in r ==> x in t.scores
    requires forall i, j :: 0 <= i < j < |r| ==> Ahead(t, r[i], r[j])
    requires (forall i :: 0 <= i < k ==> Ahead(t, r[i], c)) && forall i :: k <= i < |r| ==> Ahead(t, c, r[i])
    ensures var r' := r[..k] + [c] + r[k..];
            (forall x :: x in r' <==> x in r || x == c) && forall i, j :: 0 <= i < j < |r'| ==> Ahead(t, r'[i], r'[j])
  {
    assert r == r[..k] + r[k..];
  }

  /** The key leaves no freedom: there is one ranking. */
  lemma RankingIsUnique(t: Table, a: string, b: string)
    requires t.scores.Keys == t.order.Keys && IsRanking(t, a) && IsRanking(t, b)
    ensures a == b
  {
    RankingsAgree(t, a, b, t.scores.Keys);
  }

  lemma {:induction false} RankingsAgree(t: Table, a: string, b: string, pool: set<char>)
    requires t.scores.Keys == t.order.Keys && pool <= t.scores.Keys
    requires forall c :: c in a <==> c in pool
    requires forall c :: c in b <==> c in pool
    requires forall i, j :: 0 <= i < j < |a| ==> Ahead(t, a[i], a[j])
    requires forall i, j :: 0 <= i < j < |b| ==> Ahead(t, b[i], b[j])
    ensures a == b
    decreases |a|
  {
    if a == "" {
      assert forall i :: 0 <= i < |b| ==> b[i] in b;
    } else {
      assert a[0] in pool && b != "";
      SameHead(t, a, b);
      TailSet(t, a, pool);
      TailSet(t, b, pool);
      RankingsAgree(t, a[1..], b[1..], pool - {a[0]});
      assert a == [a[0]] + a[1..] && b == [b[0]] + b[1..];
    }
  }

  lemma SameHead(t: Table, a: string, b: string)
    requires t.scores.Keys == t.order.Keys && a != "" && b != ""
    requires forall c :: c in a <==> c in b
    requires forall c :: c in a ==> c in t.scores
    requires forall i, j :: 0 <= i < j < |a| ==> Ahead(t, a[i], a[j])
    requires forall i, j :: 0 <= i < j < |b| ==> Ahead(t, b[i], b[j])
    ensures a[0] == b[0]
  {
    assert a[0] in b && b[0] in a;
    var i :| 0 <= i < |b| && b[i] == a[0];
    var j :| 0 <= j < |a| && a[j] == b[0];
  }

  lemma TailSet(t: Table, a: string, pool: set<char>)
    requires t.scores.Keys == t.order.Keys && pool <= t.scores.Keys && a != ""
    requires forall c :: c in a <==> c in pool
    requires forall i, j :: 0 <= i < j < |a| ==> Ahead(t, a[i], a[j])
    ensures forall c :: c in a[1..] <==> c in pool - {a[0]}
  {
    assert a == [a[0]] + a[1..];
    forall i | 1 <= i < |a|
      ensures a[i] != a[0]
    {
      assert Ahead(t, a[0], a[i]);
    }
  }

  /** In terms of the dictionary: a glyph stands before another iff its weights add up to more or, with equal
      sums, it appears first earlier. The code point never decides. */
  lemma RankingMeans(os: seq<Occurrence>, t: Table, a: char, b: char, i: nat, j: nat)
    requires Right(t, os) && a in t.scores && b in t.scores && a != b && FirstAt(os, a, i) && FirstAt(os, b, j)
    ensures Ahead(t, a, b) <==> Score(os, a) > Score(os, b) || (Score(os, a) == Score(os, b) && i < j)
  {
    assert i != j;
    assert i < j <==> t.order[a] < t.order[b];
    assert j < i <==> t.order[b] < t.order[a];
  }

  // ----- conservation of weight

  function TotalWeight(os: seq<Occurrence>): nat {
    if os == [] then 0 else TotalWeight(os[..|os| - 1]) + os[|os| - 1].weight
  }

  function SumScores(os: seq<Occurrence>, r: string): nat {
    if r == "" then 0 else Score(os, r[0]) + SumScores(os, r[1..])
  }

  /** No weight is lost or counted twice: the scores of the ranking add up to the weights of all
      candidate characters. */
  lemma {:induction false} ScoresAddUp(os: seq<Occurrence>, r: string)
    requires forall c :: Seen(os, c) ==> c in r
    requires forall i, j :: 0 <= i < j < |r| ==> r[i] != r[j]
    ensures SumScores(os, r) == TotalWeight(os)
  {
    if os == [] {
      NoScores(os, r);
    } else {
      var before, o := os[..|os| - 1], os[|os| - 1];
      assert os == before + [o];
      SeenGrows(before, o);
      ScoresAddUp(before, r);
      OneMoreScore(os, r);
      assert Seen(os, o.glyph);
    }
  }

  lemma {:induction false} NoScores(os: seq<Occurrence>, r: string)
    requires os == []
    ensures SumScores(os, r) == 0
  {
    if r != "" {
      NoScores(os, r[1..]);
    }
  }

  lemma {:induction false} OneMoreScore(os: seq<Occurrence>, r: string)
    requires os != [] && forall i, j :: 0 <= i < j < |r| ==> r[i] != r[j]
    ensures var before, o := os[..|os| - 1], os[|os| - 1];
            SumScores(os, r) == SumScores(before, r) + (if o.glyph in r then o.weight else 0)
  {
    if r != "" {
      OneMoreScore(os, r[1..]);
      assert r == [r[0]] + r[1..];
    }
  }

  // ----- the hand-over

  lemma {:induction false} LineGlyphs(tokens: seq<string>, n: nat)
    requires n <= |tokens|
    ensures forall i :: 0 <= i < |LineOccurrences(tokens, n)| ==> IsGlyph(LineOccurrences(tokens, n)[i].glyph)
  {
    if n > 0 {
      LineGlyphs(tokens, n - 1);
      var gs := Glyphs(tokens[n - 1]);
      assert forall i :: 0 <= i < |gs| ==> gs[i] in gs;
    }
  }

  lemma {:induction false} OnlyGlyphs(lines: seq<string>)
    ensures forall i :: 0 <= i < |Occurrences(lines)| ==> IsGlyph(Occurrences(lines)[i].glyph)
  {
    if lines != [] {
      OnlyGlyphs(lines[..|lines| - 1]);
      var tokens := Tokens(lines[|lines| - 1]);
      LineGlyphs(tokens, |tokens|);
    }
  }

  lemma BehindPrefix(taken: string, r: string, j: nat)
    requires taken <= r && j < |r| && r[j] !in taken
    ensures j >= |taken|
  {
    assert forall k :: 0 <= k < |taken| ==> taken[k] in taken && taken[k] == r[k];
  }

  /** From the dictionary to the font pack: the charset builder reads back exactly the first `limit` glyphs
      of the ranking, or all for a limit of 0, and no glyph it leaves out outscores one it takes. */
  lemma HandOver(lines: seq<string>, t: Table, r: string, limit: nat)
    requires Right(t, Occurrences(lines)) && IsRanking(t, r)
    ensures var taken := Limited(Glyphs(Wrapped(r)), limit);
            && taken == (if limit == 0 || limit >= |r| then r else r[..limit])
            && forall a, b :: a in taken && b in r && b !in taken ==>
                 Score(Occurrences(lines), a) >= Score(Occurrences(lines), b)
  {
    var os := Occurrences(lines);
    OnlyGlyphs(lines);
    forall i | 0 <= i < |r|
      ensures IsGlyph(r[i])
    {
      assert r[i] in t.scores;
      var k :| 0 <= k < |os| && os[k].glyph == r[i];
    }
    WrapThenRead(r);
    var taken := Limited(Glyphs(Wrapped(r)), limit);
    assert taken <= r;
    forall a, b | a in taken && b in r && b !in taken
      ensures Score(os, a) >= Score(os, b)
    {
      var i :| 0 <= i < |taken| && taken[i] == a;
      var j :| 0 <= j < |r| && r[j] == b;
      BehindPrefix(taken, r, j);
      assert Ahead(t, r[i], r[j]);
    }
  }
}
