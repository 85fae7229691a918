/** What `count_c_like_lines` makes of lines, said of their characters (scripts/code_stats.py). */
module LineKinds {
  import opened Text
  import opened LineScanner
  import opened CodeStats

  // ----- the kind of a line by what was found in it

  /** Line `n` begins inside a block comment. */
  function InBlockAt(lines: seq<string>, inBlock: bool, n: nat): bool
    requires n <= |lines|
  {
    if n == 0 then inBlock
    else Scanned(Start(InBlockAt(lines, inBlock, n - 1)), WithoutLineEnd(lines[n - 1])).inBlock
  }

  lemma {:induction false} InBlockShifts(lines: seq<string>, inBlock: bool, n: nat)
    requires 0 < n <= |lines|
    ensures InBlockAt(lines, inBlock, n)
         == InBlockAt(lines[1..], Scanned(Start(inBlock), WithoutLineEnd(lines[0])).inBlock, n - 1)
  {
    if n > 1 {
      InBlockShifts(lines, inBlock, n - 1);
    }
  }

  /** Code decides, then a comment or a block comment left open; a line without either is blank. */
  lemma {:induction false} KindsAre(lines: seq<string>, inBlock: bool, n: nat)
    requires n < |lines|
    ensures var o := Scanned(Start(InBlockAt(lines, inBlock, n)), WithoutLineEnd(lines[n]));
            var k := Kinds(lines, inBlock)[n];
            && (k == CodeLine <==> o.hasCode)
            && (k == CommentLine <==> !o.hasCode && (o.hasComment || o.inBlock))
            && (k == BlankLine <==> !o.hasCode && !o.hasComment && !o.inBlock)
    decreases n
  {
    if n > 0 {
      InBlockShifts(lines, inBlock, n);
      KindsAre(lines[1..], Scanned(Start(inBlock), WithoutLineEnd(lines[0])).inBlock, n - 1);
    }
  }

  // ----- lines by their characters

  /** No quote and no slash. */
  predicate Plain(p: string) {
    forall i :: 0 <= i < |p| ==> p[i] !in {'"', '\'', '/'}
  }

  predicate EndsCleanly(line: string) {
    line == "" || (line[|line| - 1] != '\n' && line[|line| - 1] != '\r')
  }

  lemma {:induction false} CleanEnd(line: string)
    requires EndsCleanly(line)
    ensures WithoutLineEnd(line) == line
  {
  }

  lemma {:induction false} ReadPlain(s: Scan, p: string, rest: string)
    requires s.mode == Code && Plain(p)
    ensures ReadAll(s, p + rest) == ReadAll(s.(hasCode := s.hasCode || !IsBlank(p)), rest)
    decreases |p|
  {
    if p == "" {
      assert p + rest == rest;
    } else {
      assert (p + rest)[1..] == p[1..] + rest;
      ReadPlain(Read(s, p[0]), p[1..], rest);
      BlankHead(p);
    }
  }

  lemma BlankHead(p: string)
    requires p != ""
    ensures IsBlank(p) <==> IsSpace(p[0]) && IsBlank(p[1..])
  {
  }

  lemma ReadTwo(s: Scan, a: char, b: char, rest: string)
    ensures ReadAll(s, [a, b] + rest) == ReadAll(Read(Read(s, a), b), rest)
  {
    var line := [a, b] + rest;
    assert line[1..] == [b] + rest && line[1..][1..] == rest;
  }

  /** Plain text and then a line comment. */
  lemma ScanLineComment(p: string, c: string)
    requires Plain(p)
    ensures Scanned(Start(false), p + "//" + c) == Outcome(!IsBlank(p), true, false)
  {
    assert p + "//" + c == p + (['/', '/'] + c);
    ReadPlain(Start(false), p, ['/', '/'] + c);
    var s := Scan(Code, !IsBlank(p), false);
    ReadTwo(s, '/', '/', c);
    CommentSwallows(Scan(Comment, !IsBlank(p), true), c);
  }

  lemma ScanPlain(p: string)
    requires Plain(p)
    ensures Scanned(Start(false), p) == Outcome(!IsBlank(p), false, false)
  {
    assert p + "" == p;
    ReadPlain(Start(false), p, "");
  }

  ghost predicate NoBlockEnd(c: string) {
    forall j: nat :: !StartsAt(c, j, '*', '/')
  }

  /** Plain text and then a block comment that is not closed. */
  lemma ScanBlockBegins(p: string, c: string)
    requires Plain(p) && NoBlockEnd(c)
    ensures Scanned(Start(false), p + "/*" + c) == Outcome(!IsBlank(p), true, true)
  {
    assert p + "/*" + c == p + (['/', '*'] + c);
    ReadPlain(Start(false), p, ['/', '*'] + c);
    ReadTwo(Scan(Code, !IsBlank(p), false), '/', '*', c);
    var s := Scan(Block, !IsBlank(p), true);
    if c != "" {
      BlockGoesOn(s, c, 0);
      assert Rest(c, 0) == c;
    }
  }

  lemma ScanInsideBlock(c: string)
    requires NoBlockEnd(c)
    ensures var o := Scanned(Start(true), c); !o.hasCode && o.inBlock
  {
    if c != "" {
      BlockGoesOn(Start(true), c, 0);
      assert Rest(c, 0) == c;
    }
  }

  /** The end of a block comment and then plain text. */
  lemma ScanBlockEnds(c: string, p: string)
    requires Plain(p) && NoBlockEnd(c)
    ensures Scanned(Start(true), c + "*/" + p) == Outcome(!IsBlank(p), true, false)
  {
    var line := c + "*/" + p;
    assert StartsAt(line, |c|, '*', '/');
    forall j: nat | j < |c|
      ensures !StartsAt(line, j, '*', '/')
    {
      assert line[j] == c[j];
      assert j + 1 < |c| ==> line[j + 1] == c[j + 1] && !StartsAt(c, j, '*', '/');
    }
    BlockEnds(Start(true), line, 0, |c|);
    assert Rest(line, 0) == line && Rest(line, |c| + 2) == p;
    assert p + "" == p;
    ReadPlain(Scan(Code, false, true), p, "");
  }

  /** The inside of a string literal: a backslash takes any character with it. */
  predicate Literal(q: string, quote: char) {
    || q == ""
    || (q[0] == '\\' && |q| >= 2 && Literal(q[2..], quote))
    || (q[0] != '\\' && q[0] != quote && Literal(q[1..], quote))
  }

  lemma {:induction false} ReadQuoted(s: Scan, q: string, quote: char, rest: string)
    requires s.mode == Quoted(quote) && quote != '\\' && Literal(q, quote)
    ensures ReadAll(s, q + ([quote] + rest)) == ReadAll(s.(mode := Code), rest)
    decreases |q|
  {
    var line := q + ([quote] + rest);
    if q == "" {
      assert line == [quote] + rest && line[1..] == rest;
    } else if q[0] == '\\' {
      assert line == [q[0], q[1]] + (q[2..] + ([quote] + rest));
      ReadTwo(s, q[0], q[1], q[2..] + ([quote] + rest));
      ReadQuoted(s, q[2..], quote, rest);
    } else {
      assert line[1..] == q[1..] + ([quote] + rest);
      ReadQuoted(s, q[1..], quote, rest);
    }
  }

  /** Whatever stands in a string literal is code, comment signs included. */
  lemma ScanLiteral(p: string, quote: char, q: string, r: string)
    requires quote in {'"', '\''} && Plain(p) && Plain(r) && Literal(q, quote)
    ensures Scanned(Start(false), p + [quote] + q + [quote] + r) == Outcome(true, false, false)
  {
    var tail := q + ([quote] + r);
    assert p + [quote] + q + [quote] + r == p + ([quote] + tail);
    ReadPlain(Start(false), p, [quote] + tail);
    var s := Scan(Code, !IsBlank(p), false);
    assert ([quote] + tail)[1..] == tail;
    assert ReadAll(s, [quote] + tail) == ReadAll(Scan(Quoted(quote), true, false), tail);
    ReadQuoted(Scan(Quoted(quote), true, false), q, quote, r);
    assert r + "" == r;
    ReadPlain(Scan(Code, true, false), r, "");
  }

  // ----- files

  /** What is found in line `n` of a file. */
  function LineScan(lines: seq<string>, n: nat): Outcome
    requires n < |lines|
  {
    Scanned(Start(InBlockAt(lines, false, n)), WithoutLineEnd(lines[n]))
  }

  lemma {:induction false} CountLast(ks: seq<Kind>, last: Kind, k: Kind)
    ensures Count(ks + [last], k) == Count(ks, k) + if last == k then 1 else 0
  {
    if ks == [] {
      assert ks + [last] == [last] && [last][1..] == [];
    } else {
      CountLast(ks[1..], last, k);
      assert (ks + [last])[1..] == ks[1..] + [last];
    }
  }

  function Places(ks: seq<Kind>, k: Kind): set<nat> {
    set i: nat | i < |ks| && ks[i] == k
  }

  lemma PlacesGrow(ks: seq<Kind>, last: Kind, k: Kind)
    ensures Places(ks + [last], k) == if last == k then Places(ks, k) + {|ks|} else Places(ks, k)
  {
  }

  lemma {:induction false} CountIs(ks: seq<Kind>, k: Kind)
    ensures Count(ks, k) == |Places(ks, k)|
  {
    if ks == [] {
      assert Places(ks, k) == {};
    } else {
      var n := |ks| - 1;
      CountIs(ks[..n], k);
      CountLast(ks[..n], ks[n], k);
      PlacesGrow(ks[..n], ks[n], k);
      assert ks == ks[..n] + [ks[n]];
    }
  }

  /** The three counts of a file are the numbers of its lines with code, of those without code but with a comment or
      in a block comment, and of all others. */
  lemma CountsAre(lines: seq<string>)
    ensures var c := FileCounts(lines);
            && c.files == 1 && c.total == |lines|
            && c.code == |set n: nat | n < |lines| && LineScan(lines, n).hasCode|
            && c.comment == |set n: nat | n < |lines| && !LineScan(lines, n).hasCode
                                          && (LineScan(lines, n).hasComment || LineScan(lines, n).inBlock)|
            && c.blank == |set n: nat | n < |lines| && !LineScan(lines, n).hasCode
                                        && !LineScan(lines, n).hasComment && !LineScan(lines, n).inBlock|
  {
    var ks := Kinds(lines, false);
    CountIs(ks, CodeLine);
    CountIs(ks, CommentLine);
    CountIs(ks, BlankLine);
    forall n: nat | n < |lines|
      ensures ks[n] == CodeLine <==> LineScan(lines, n).hasCode
      ensures ks[n] == CommentLine <==>
                !LineScan(lines, n).hasCode && (LineScan(lines, n).hasComment || LineScan(lines, n).inBlock)
      ensures ks[n] == BlankLine <==>
                !LineScan(lines, n).hasCode && !LineScan(lines, n).hasComment && !LineScan(lines, n).inBlock
    {
      KindsAre(lines, false, n);
    }
    assert Places(ks, CodeLine) == set n: nat | n < |lines| && LineScan(lines, n).hasCode;
    assert Places(ks, CommentLine)
        == set n: nat | n < |lines| && !LineScan(lines, n).hasCode
                        && (LineScan(lines, n).hasComment || LineScan(lines, n).inBlock);
    assert Places(ks, BlankLine)
        == set n: nat | n < |lines| && !LineScan(lines, n).hasCode
                        && !LineScan(lines, n).hasComment && !LineScan(lines, n).inBlock;
  }

  lemma OneLine(line: string)
    ensures var o := Scanned(Start(false), WithoutLineEnd(line));
            FileCounts([line]) == if o.hasCode then Counts(1, 1, 1, 0, 0)
                                  else if o.hasComment || o.inBlock then Counts(1, 1, 0, 1, 0)
                                  else Counts(1, 1, 0, 0, 1)
  {
    KindsAre([line], false, 0);
    var ks := Kinds([line], false);
    assert ks == [] + [ks[0]];
    forall k
      ensures Count(ks, k) == if ks[0] == k then 1 else 0
    {
      CountLast([], ks[0], k);
    }
  }

  /** A line with code and a line comment behind it is a code line, one with the comment alone a comment line. */
  lemma LineComments(p: string, c: string)
    requires Plain(p) && EndsCleanly(c)
    ensures FileCounts([p + "//" + c]) == if IsBlank(p) then Counts(1, 1, 0, 1, 0) else Counts(1, 1, 1, 0, 0)
  {
    CleanEnd(p + "//" + c);
    ScanLineComment(p, c);
    OneLine(p + "//" + c);
  }

  /** A line without a comment is code or blank. */
  lemma PlainLines(p: string)
    requires Plain(p)
    ensures FileCounts([p]) == if IsBlank(p) then Counts(1, 1, 0, 0, 1) else Counts(1, 1, 1, 0, 0)
  {
    PlainEnd(p);
    ScanPlain(WithoutLineEnd(p));
    OneLine(p);
  }

  lemma {:induction false} PlainEnd(p: string)
    requires Plain(p)
    ensures Plain(WithoutLineEnd(p)) && (IsBlank(WithoutLineEnd(p)) <==> IsBlank(p))
    decreases |p|
  {
    if p != "" && (p[|p| - 1] == '\n' || p[|p| - 1] == '\r') {
      PlainEnd(p[..|p| - 1]);
    }
  }

  /** A block comment over several lines: its first line counts as code iff code stands before it, its last iff code
      stands behind it, and those between are comment lines, blank ones too. */
  lemma BlockComments(p: string, first: string, middle: seq<string>, last: string, r: string)
    requires Plain(p) && Plain(r) && NoBlockEnd(first) && NoBlockEnd(last) && EndsCleanly(first) && EndsCleanly(r)
    requires forall i :: 0 <= i < |middle| ==> NoBlockEnd(middle[i]) && EndsCleanly(middle[i])
    ensures Kinds([p + "/*" + first] + middle + [last + "*/" + r], false)
         == [if !IsBlank(p) then CodeLine else CommentLine] + seq(|middle|, _ => CommentLine)
            + [if !IsBlank(r) then CodeLine else CommentLine]
  {
    var a, z := p + "/*" + first, last + "*/" + r;
    CleanEnd(a);
    ScanBlockBegins(p, first);
    CleanEnd(z);
    ScanBlockEnds(last, r);
    FirstToLast(a, middle, z, !IsBlank(p), !IsBlank(r));
  }

  lemma FirstToLast(a: string, middle: seq<string>, z: string, codeFirst: bool, codeLast: bool)
    requires forall i :: 0 <= i < |middle| ==> NoBlockEnd(middle[i]) && EndsCleanly(middle[i])
    requires Scanned(Start(false), WithoutLineEnd(a)) == Outcome(codeFirst, true, true)
    requires Scanned(Start(true), WithoutLineEnd(z)) == Outcome(codeLast, true, false)
    ensures Kinds([a] + middle + [z], false) == [if codeFirst then CodeLine else CommentLine]
                                                + seq(|middle|, _ => CommentLine)
                                                + [if codeLast then CodeLine else CommentLine]
  {
    var lines := [a] + middle + [z];
    assert lines[1..|middle| + 1] == middle;
    OverLines(lines, middle, codeFirst, codeLast);
  }

  lemma OverLines(lines: seq<string>, middle: seq<string>, codeFirst: bool, codeLast: bool)
    requires |lines| == |middle| + 2 && lines[1..|middle| + 1] == middle
    requires forall i :: 0 <= i < |middle| ==> NoBlockEnd(middle[i]) && EndsCleanly(middle[i])
    requires Scanned(Start(false), WithoutLineEnd(lines[0])) == Outcome(codeFirst, true, true)
    requires Scanned(Start(true), WithoutLineEnd(lines[|middle| + 1])) == Outcome(codeLast, true, false)
    ensures Kinds(lines, false) == [if codeFirst then CodeLine else CommentLine] + seq(|middle|, _ => CommentLine)
                                   + [if codeLast then CodeLine else CommentLine]
  {
    KindAt(lines, 0, Outcome(codeFirst, true, true));
    InBlockOver(lines, middle, |middle| + 1);
    KindAt(lines, |middle| + 1, Outcome(codeLast, true, false));
    var ks := Kinds(lines, false);
    forall n: nat | 0 < n <= |middle|
      ensures ks[n] == CommentLine
    {
      MiddleKind(lines, middle, n);
    }
    Between(ks, |middle|, ks[0], ks[|middle| + 1]);
  }

  lemma KindAt(lines: seq<string>, n: nat, o: Outcome)
    requires n < |lines| && LineScan(lines, n) == o && o.hasComment
    ensures Kinds(lines, false)[n] == if o.hasCode then CodeLine else CommentLine
  {
    KindsAre(lines, false, n);
  }

  lemma Between(ks: seq<Kind>, m: nat, a: Kind, z: Kind)
    requires |ks| == m + 2 && ks[0] == a && ks[m + 1] == z && forall n: nat :: 0 < n <= m ==> ks[n] == CommentLine
    ensures ks == [a] + seq(m, _ => CommentLine) + [z]
  {
  }

  lemma MiddleKind(lines: seq<string>, middle: seq<string>, n: nat)
    requires 1 <= n <= |middle| && |middle| + 1 < |lines| && lines[1..|middle| + 1] == middle
    requires Scanned(Start(false), WithoutLineEnd(lines[0])).inBlock
    requires forall i :: 0 <= i < |middle| ==> NoBlockEnd(middle[i]) && EndsCleanly(middle[i])
    ensures Kinds(lines, false)[n] == CommentLine
  {
    InBlockOver(lines, middle, n);
    assert lines[n] == middle[n - 1];
    CleanEnd(middle[n - 1]);
    ScanInsideBlock(middle[n - 1]);
    KindsAre(lines, false, n);
  }

  lemma {:induction false} InBlockOver(lines: seq<string>, middle: seq<string>, n: nat)
    requires 1 <= n <= |middle| + 1 < |lines| && lines[1..|middle| + 1] == middle
    requires Scanned(Start(false), WithoutLineEnd(lines[0])).inBlock
    requires forall i :: 0 <= i < |middle| ==> NoBlockEnd(middle[i]) && EndsCleanly(middle[i])
    ensures InBlockAt(lines, false, n)
  {
    if n > 1 {
      InBlockOver(lines, middle, n - 1);
      assert lines[n - 1] == middle[n - 2];
      CleanEnd(middle[n - 2]);
      ScanInsideBlock(middle[n - 2]);
    }
  }

  /** Comment signs in a string literal begin nothing: the next line is code if there is code on it. */
  lemma Literals(p: string, quote: char, q: string, r: string, next: string)
    requires quote in {'"', '\''} && Plain(p) && Plain(r) && Literal(q, quote) && EndsCleanly(r)
    requires Plain(next) && !IsBlank(next)
    ensures FileCounts([p + [quote] + q + [quote] + r, next]) == Counts(1, 2, 2, 0, 0)
  {
    var lines := [p + [quote] + q + [quote] + r, next];
    CleanEnd(lines[0]);
    ScanLiteral(p, quote, q, r);
    PlainEnd(next);
    ScanPlain(WithoutLineEnd(next));
    KindsAre(lines, false, 0);
    KindsAre(lines, false, 1);
    assert InBlockAt(lines, false, 1) == false;
    assert Kinds(lines, false) == [] + [CodeLine] + [CodeLine];
    forall k
      ensures Count([] + [CodeLine] + [CodeLine], k) == if k == CodeLine then 2 else 0
    {
      CountLast([], CodeLine, k);
      CountLast([] + [CodeLine], CodeLine, k);
    }
  }

  /** Line ends do not matter. */
  lemma {:induction false} LineEndsDoNotCount(lines: seq<string>, inBlock: bool)
    ensures Kinds(seq(|lines|, i requires 0 <= i < |lines| => lines[i] + "\n"), inBlock) == Kinds(lines, inBlock)
    decreases |lines|
  {
    if lines != [] {
      var ended := seq(|lines|, i requires 0 <= i < |lines| => lines[i] + "\n");
      var rest := lines[1..];
      assert ended[1..] == seq(|rest|, i requires 0 <= i < |rest| => rest[i] + "\n");
      assert (lines[0] + "\n")[..|lines[0]|] == lines[0];
      LineEndsDoNotCount(rest, Scanned(Start(inBlock), WithoutLineEnd(lines[0])).inBlock);
    }
  }
}
