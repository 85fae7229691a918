/** What the C text of the bitmap section looks like (tools/compress_lvgl_bitmap_font.py). */
module FontText {
  import opened Text
  import opened Bits
  import opened FontFile

  // ----- without its white space

  /** Every byte's token with a comma behind it. */
  function Listed(data: seq<byte>): string {
    if data == [] then "" else Token(data[0]) + "," + Listed(data[1..])
  }

  lemma VisibleToken(b: byte)
    ensures Visible(Token(b)) == Token(b) && |Token(b)| == 4
  {
    AllVisible(Token(b));
  }

  lemma {:induction false} ListedConcat(a: seq<byte>, b: seq<byte>)
    ensures Listed(a + b) == Listed(a) + Listed(b)
  {
    if a == [] {
      assert a + b == b;
    } else {
      ListedConcat(a[1..], b);
      ListedHead(a, b, Listed(a[1..]), Listed(b));
    }
  }

  lemma ListedHead(a: seq<byte>, b: seq<byte>, more: string, tail: string)
    requires a != [] && more == Listed(a[1..]) && Listed(a[1..] + b) == more + tail
    ensures Listed(a + b) == Listed(a) + tail
  {
    assert (a + b)[1..] == a[1..] + b;
    JoinThree(Token(a[0]) + ",", more, tail);
  }

  lemma JoinThree(a: string, b: string, c: string)
    ensures a + (b + c) == a + b + c
  {
  }

  lemma {:induction false} VisibleJoined(data: seq<byte>)
    requires data != []
    ensures Visible(Joined(data)) + "," == Listed(data)
  {
    VisibleToken(data[0]);
    if |data| > 1 {
      VisibleJoined(data[1..]);
      VisibleConcat(Token(data[0]) + ", ", Joined(data[1..]));
      VisibleConcat(Token(data[0]), ", ");
      assert Visible(", ") == "," by { assert ", "[1..] == " " && " "[1..] == ""; }
    } else {
      assert data[1..] == [] && Token(data[0]) + "," + "" == Token(data[0]) + ",";
    }
  }

  lemma VisibleLine(data: seq<byte>, indent: string)
    requires IsBlank(indent) && data != []
    ensures Visible(LineText(data, indent)) == Listed(data)
  {
    VisibleConcat(indent + Joined(data), ",");
    VisibleConcat(indent, Joined(data));
    BlankIsInvisible(indent);
    assert Visible(",") == "," by { assert ","[1..] == ""; }
    VisibleJoined(data);
  }

  lemma VisibleLineEnd()
    ensures Visible("\n") == ""
  {
    assert "\n"[1..] == "";
  }

  lemma {:induction false} VisibleLines(data: seq<byte>, indent: string, perLine: nat)
    requires IsBlank(indent) && data != [] && perLine > 0
    ensures Visible(Lines(data, indent, perLine)) == Listed(data)
    decreases |data|
  {
    if |data| <= perLine {
      VisibleLine(data, indent);
    } else {
      var line, rest := data[..perLine], data[perLine..];
      VisibleLine(line, indent);
      VisibleLines(rest, indent, perLine);
      VisibleBreak(LineText(line, indent), Lines(rest, indent, perLine));
      ListedConcat(line, rest);
      assert line + rest == data;
    }
  }

  lemma VisibleBreak(line: string, rest: string)
    ensures Visible(line + "\n" + rest) == Visible(line) + Visible(rest)
  {
    VisibleLineEnd();
    VisibleConcat(line + "\n", rest);
    VisibleConcat(line, "\n");
  }

  lemma ListedOne(b: byte)
    ensures Listed([b]) == Token(b) + ","
  {
    assert [b][1..] == [];
    assert Token(b) + "," + "" == Token(b) + ",";
  }

  /** Behind a blank indent nothing is to be seen but the bytes, each with its comma; for no bytes, one zero. */
  lemma VisibleText(data: seq<byte>, indent: string, perLine: nat)
    requires IsBlank(indent) && perLine > 0
    ensures Visible(Formatted(data, indent, perLine)) == Listed(if data == [] then [0] else data)
  {
    if data == [] {
      BlankIsInvisible(indent);
      VisibleConcat(indent, "0x00,\n");
      VisibleConcat("0x00,", "\n");
      VisibleLineEnd();
      VisibleToken(0);
      VisibleConcat(Token(0), ",");
      assert "0x00," == Token(0) + ",";
      assert Visible(",") == "," by { assert ","[1..] == ""; }
      ListedOne(0);
    } else {
      VisibleLines(data, indent, perLine);
      VisibleLineEnd();
      VisibleConcat(Lines(data, indent, perLine), "\n");
    }
  }

  // ----- where each byte stands

  /** At `at`, the token of `b` with a comma and then `gap`. */
  ghost predicate TokenAt(text: string, at: nat, b: byte, gap: char) {
    at + 6 <= |text| && text[at..at + 4] == Token(b) && text[at + 4] == ',' && text[at + 5] == gap
  }

  ghost predicate IndentAt(text: string, at: nat, indent: string) {
    at + |indent| <= |text| && text[at..at + |indent|] == indent
  }

  lemma {:induction false} JoinedPlaces(data: seq<byte>, j: nat)
    requires j < |data|
    ensures |Joined(data)| == 6 * |data| - 2
    ensures TokenAt(Joined(data) + ",\n", 6 * j, data[j], if j + 1 < |data| then ' ' else '\n')
  {
    VisibleToken(data[0]);
    if |data| > 1 {
      JoinedPlaces(data[1..], if j > 0 then j - 1 else 0);
      JoinFour(Token(data[0]), ", ", Joined(data[1..]), ",\n");
      NextPlace(data[0], Joined(data[1..]) + ",\n", j, data[j], if j + 1 < |data| then ' ' else '\n');
    }
  }

  lemma JoinFour(a: string, b: string, c: string, d: string)
    ensures a + b + c + d == a + b + (c + d)
  {
  }

  lemma NextPlace(first: byte, more: string, j: nat, b: byte, gap: char)
    requires if j > 0 then TokenAt(more, 6 * (j - 1), b, gap) else b == first && gap == ' ' && |more| >= 1
    ensures TokenAt(Token(first) + ", " + more, 6 * j, b, gap)
  {
    VisibleToken(first);
    var head := Token(first) + ", ";
    if j > 0 {
      Further(head, more, 6 * (j - 1), b, gap);
    } else {
      assert (head + more)[..4] == Token(first);
    }
  }

  lemma Further(before: string, text: string, at: nat, b: byte, gap: char)
    requires TokenAt(text, at, b, gap)
    ensures TokenAt(before + text, |before| + at, b, gap)
  {
    var s := before + text;
    assert s[|before| + at..|before| + at + 4] == text[at..at + 4];
  }

  lemma IndentFurther(before: string, text: string, at: nat, indent: string)
    requires IndentAt(text, at, indent)
    ensures IndentAt(before + text, |before| + at, indent)
  {
    var s := before + text;
    assert s[|before| + at..|before| + at + |indent|] == text[at..at + |indent|];
  }

  /** The first lines are full. */
  function LineStart(indent: string, perLine: nat, k: nat): nat {
    k * (|indent| + 6 * perLine)
  }

  /** Byte number `j` of line `k` in its place. */
  ghost predicate InPlace(data: seq<byte>, indent: string, perLine: nat, text: string, k: nat, j: nat) {
    var i, at := k * perLine + j, LineStart(indent, perLine, k);
    i < |data| && j < perLine ==>
      && IndentAt(text, at, indent)
      && TokenAt(text, at + |indent| + 6 * j, data[i], if j + 1 < perLine && i + 1 < |data| then ' ' else '\n')
  }

  lemma LineJoined(indent: string, joined: string)
    ensures indent + joined + "," + "\n" == indent + (joined + ",\n")
  {
    assert "," + "\n" == ",\n";
  }

  lemma OneLine(data: seq<byte>, indent: string, perLine: nat, j: nat)
    requires 0 < |data| <= perLine && j < |data|
    ensures |LineText(data, indent) + "\n"| == |indent| + 6 * |data|
    ensures InPlace(data, indent, perLine, LineText(data, indent) + "\n", 0, j)
  {
    JoinedPlaces(data, j);
    LineJoined(indent, Joined(data));
    BehindIndent(data, indent, perLine, j, Joined(data) + ",\n");
  }

  lemma BehindIndent(data: seq<byte>, indent: string, perLine: nat, j: nat, more: string)
    requires 0 < |data| <= perLine && j < |data|
    requires TokenAt(more, 6 * j, data[j], if j + 1 < |data| then ' ' else '\n')
    ensures InPlace(data, indent, perLine, indent + more, 0, j)
  {
    Further(indent, more, 6 * j, data[j], if j + 1 < |data| then ' ' else '\n');
  }

  /** The first line and the others, each with its newline. */
  lemma CutLine(data: seq<byte>, indent: string, perLine: nat) returns (line: string, more: string)
    requires 0 < perLine < |data|
    ensures Lines(data, indent, perLine) + "\n" == line + more
    ensures line == LineText(data[..perLine], indent) + "\n" && more == Lines(data[perLine..], indent, perLine) + "\n"
  {
    line, more := LineText(data[..perLine], indent) + "\n", Lines(data[perLine..], indent, perLine) + "\n";
    JoinThree(line, Lines(data[perLine..], indent, perLine), "\n");
  }

  lemma {:induction false} LinesPlaces(data: seq<byte>, indent: string, perLine: nat, k: nat, j: nat)
    requires perLine > 0 && k * perLine + j < |data| && j < perLine
    ensures InPlace(data, indent, perLine, Lines(data, indent, perLine) + "\n", k, j)
    decreases |data|
  {
    if |data| <= perLine {
      FirstLine(k, perLine, k * perLine + j);
      OneLine(data, indent, perLine, j);
    } else {
      var line, more := CutLine(data, indent, perLine);
      if k == 0 {
        OneLine(data[..perLine], indent, perLine, j);
        FirstOfMore(data, indent, perLine, j, line, more);
      } else {
        OneStep(k, perLine);
        LinesPlaces(data[perLine..], indent, perLine, k - 1, j);
        OneLine(data[..perLine], indent, perLine, 0);
        PlaceFurther(data, indent, perLine, k, j, line, more);
      }
    }
  }

  lemma FirstLine(k: nat, perLine: nat, i: nat)
    requires perLine > 0 && k * perLine <= i < perLine
    ensures k == 0
  {
    assert k >= 1 ==> k * perLine >= perLine;
  }

  lemma FirstOfMore(data: seq<byte>, indent: string, perLine: nat, j: nat, line: string, more: string)
    requires 0 < perLine < |data| && j < perLine && InPlace(data[..perLine], indent, perLine, line, 0, j)
    ensures InPlace(data, indent, perLine, line + more, 0, j)
  {
    Nearer(line, more, |indent| + 6 * j, data[j], if j + 1 < perLine then ' ' else '\n');
    assert (line + more)[..|indent|] == line[..|indent|];
  }

  lemma Nearer(text: string, more: string, at: nat, b: byte, gap: char)
    requires TokenAt(text, at, b, gap)
    ensures TokenAt(text + more, at, b, gap)
  {
    assert (text + more)[at..at + 4] == text[at..at + 4];
  }

  lemma PlaceFurther(data: seq<byte>, indent: string, perLine: nat, k: nat, j: nat, line: string, more: string)
    requires 0 < perLine < |data| && k > 0 && |line| == |indent| + 6 * perLine
    requires InPlace(data[perLine..], indent, perLine, more, k - 1, j)
    ensures InPlace(data, indent, perLine, line + more, k, j)
  {
    var i, at := k * perLine + j, LineStart(indent, perLine, k - 1);
    OneStep(k, perLine);
    OneStep(k, |indent| + 6 * perLine);
    if i < |data| && j < perLine {
      assert data[perLine..][i - perLine] == data[i];
      IndentFurther(line, more, at, indent);
      Further(line, more, at + |indent| + 6 * j, data[i], if j + 1 < perLine && i + 1 < |data| then ' ' else '\n');
    }
  }

  lemma OneStep(k: nat, m: nat)
    requires k > 0
    ensures k * m == (k - 1) * m + m
  {
  }

  /** The whole text: byte number `j` of line `k` stands behind that line's indent and `j` tokens; a blank follows
      its comma inside the line and a newline at its end. */
  lemma BytesInPlace(data: seq<byte>, indent: string, perLine: nat, k: nat, j: nat, i: nat)
    requires perLine > 0 && j < perLine && i == k * perLine + j && i < |data|
    ensures var text, at := Formatted(data, indent, perLine), k * (|indent| + 6 * perLine);
            && at >= 0 && IndentAt(text, at, indent)
            && TokenAt(text, at + |indent| + 6 * j, data[i], if j + 1 < perLine && i + 1 < |data| then ' ' else '\n')
  {
    LinesPlaces(data, indent, perLine, k, j);
  }

  /** The number of lines of `n` bytes. */
  function LineCount(n: nat, perLine: nat): nat
    requires perLine > 0
  {
    if n == 0 then 0 else if n <= perLine then 1 else LineCount(n - perLine, perLine) + 1
  }

  lemma {:induction false} LineCountIs(n: nat, perLine: nat)
    requires perLine > 0
    ensures LineCount(n, perLine) * perLine >= n && (n > 0 ==> (LineCount(n, perLine) - 1) * perLine < n)
  {
    if n > perLine {
      LineCountIs(n - perLine, perLine);
      OneStep(LineCount(n, perLine), perLine);
      assert (LineCount(n, perLine) - 1) * perLine == (LineCount(n - perLine, perLine) - 1) * perLine + perLine;
    }
  }

  /** And there is nothing else in it. */
  lemma {:induction false} TextLength(data: seq<byte>, indent: string, perLine: nat)
    requires data != [] && perLine > 0
    ensures |Formatted(data, indent, perLine)| == LineCount(|data|, perLine) * |indent| + 6 * |data|
    decreases |data|
  {
    if |data| <= perLine {
      OneLine(data, indent, perLine, 0);
    } else {
      TextLength(data[perLine..], indent, perLine);
      CutLengths(data, indent, perLine);
      AddLengths(LineCount(|data| - perLine, perLine), |indent|, perLine, |data|, |indent| + 6 * perLine,
                 |Formatted(data[perLine..], indent, perLine)|);
    }
  }

  lemma CutLengths(data: seq<byte>, indent: string, perLine: nat)
    requires 0 < perLine < |data|
    ensures |Formatted(data, indent, perLine)|
         == |indent| + 6 * perLine + |Formatted(data[perLine..], indent, perLine)|
  {
    var line, more := CutLine(data, indent, perLine);
    OneLine(data[..perLine], indent, perLine, 0);
  }

  lemma AddLengths(lines: nat, indent: nat, perLine: nat, n: nat, line: nat, more: nat)
    requires n >= perLine && line == indent + 6 * perLine && more == lines * indent + 6 * (n - perLine)
    ensures line + more == (lines + 1) * indent + 6 * n
  {
  }
}
