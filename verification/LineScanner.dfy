/** `count_c_like_lines` (scripts/code_stats.py): the index-moving scanner and the character automaton it
    agrees with. */
module LineScanner {
  import opened Text

  // ----- the automaton

  datatype Mode = Code | Slash | Comment | Block | Star | Quoted(quote: char) | Escaped(quote: char)

  datatype Scan = Scan(mode: Mode, hasCode: bool, hasComment: bool)

  function Start(inBlock: bool): Scan {
    Scan(if inBlock then Block else Code, false, false)
  }

  /** One character of plain code that does not begin a comment. */
  function CodeChar(s: Scan, ch: char): Scan {
    if ch == '"' || ch == '\'' then s.(mode := Quoted(ch), hasCode := true)
    else s.(mode := Code, hasCode := s.hasCode || !IsSpace(ch))
  }

  function Read(s: Scan, ch: char): Scan {
    match s.mode
    case Code => if ch == '/' then s.(mode := Slash) else CodeChar(s, ch)
    case Slash =>
      if ch == '/' then s.(mode := Comment, hasComment := true)
      else if ch == '*' then s.(mode := Block, hasComment := true)
      else CodeChar(s.(hasCode := true), ch)
    case Comment => s
    case Block => s.(mode := if ch == '*' then Star else Block, hasComment := true)
    case Star => s.(mode := if ch == '/' then Code else if ch == '*' then Star else Block, hasComment := true)
    case Quoted(q) => if ch == '\\' then s.(mode := Escaped(q)) else if ch == q then s.(mode := Code) else s
    case Escaped(q) => s.(mode := Quoted(q))
  }

  function ReadAll(s: Scan, line: string): Scan
    decreases |line|
  {
    if line == "" then s else ReadAll(Read(s, line[0]), line[1..])
  }

  /** What the end of the line makes of a state. */
  datatype Outcome = Outcome(hasCode: bool, hasComment: bool, inBlock: bool)

  function Close(s: Scan): Outcome {
    Outcome(s.hasCode || s.mode == Slash, s.hasComment, s.mode == Block || s.mode == Star)
  }

  function Scanned(s: Scan, line: string): Outcome {
    Close(ReadAll(s, line))
  }

  datatype Kind = CodeLine | CommentLine | BlankLine

  function KindOf(o: Outcome): Kind {
    if o.hasCode then CodeLine else if o.hasComment || o.inBlock then CommentLine else BlankLine
  }

  /** The kinds of the lines of a file; only the block comment reaches across lines. */
  function Kinds(lines: seq<string>, inBlock: bool): (ks: seq<Kind>)
    ensures |ks| == |lines|
  {
    if lines == [] then
      []
    else
      var o := Scanned(Start(inBlock), WithoutLineEnd(lines[0]));
      [KindOf(o)] + Kinds(lines[1..], o.inBlock)
  }

  // ----- the scanner

  /** What is left of a line at an index that may have run past its end. */
  function Rest(line: string, i: nat): string {
    if i <= |line| then line[i..] else ""
  }

  predicate StartsAt(line: string, i: nat, a: char, b: char) {
    i + 1 < |line| && line[i] == a && line[i + 1] == b
  }

  /** `line.find`: the first star and slash from `i` on, or -1. */
  method FindBlockEnd(line: string, i: nat) returns (end: int)
    requires i <= |line|
    ensures -1 <= end && (end >= 0 ==> i <= end && StartsAt(line, end, '*', '/'))
    ensures forall j: nat :: i <= j && (end == -1 || j < end) ==> !StartsAt(line, j, '*', '/')
  {
    var k := i;
    while k + 1 < |line|
      invariant i <= k
      invariant forall j: nat :: i <= j < k ==> !StartsAt(line, j, '*', '/')
    {
      if line[k] == '*' && line[k + 1] == '/' {
        return k;
      }
      k := k + 1;
    }
    return -1;
  }

  lemma ReadOne(s: Scan, line: string, i: nat)
    requires i < |line|
    ensures ReadAll(s, Rest(line, i)) == ReadAll(Read(s, line[i]), Rest(line, i + 1))
  {
  }

  /** Inside a comment nothing happens until its end. */
  lemma {:induction false} ReadBlock(s: Scan, line: string, i: nat, k: nat, end: nat)
    requires i <= k <= end <= |line| && i < end
    requires forall j: nat :: i <= j < end ==> !StartsAt(line, j, '*', '/') || j + 1 >= end
    requires s.mode == (if k > i && line[k - 1] == '*' then Star else Block)
    requires s.hasComment || k == i
    ensures ReadAll(s, Rest(line, k))
         == ReadAll(Scan(if line[end - 1] == '*' then Star else Block, s.hasCode, true), Rest(line, end))
    decreases end - k
  {
    if k < end {
      assert k > i ==> !StartsAt(line, k - 1, '*', '/');
      ReadOne(s, line, k);
      InsideComment(s, line, k);
      ReadBlock(Read(s, line[k]), line, i, k + 1, end);
    }
  }

  lemma InsideComment(s: Scan, line: string, k: nat)
    requires k < |line| && s.mode in {Star, Block} && (s.mode == Star ==> line[k] != '/')
    ensures Read(s, line[k]) == Scan(if line[k] == '*' then Star else Block, s.hasCode, true)
  {
  }

  lemma BlockEnds(s: Scan, line: string, i: nat, end: nat)
    requires s.mode == Block && i <= end && StartsAt(line, end, '*', '/')
    requires forall j: nat :: i <= j < end ==> !StartsAt(line, j, '*', '/')
    ensures ReadAll(s, Rest(line, i)) == ReadAll(Scan(Code, s.hasCode, true), Rest(line, end + 2))
  {
    ReadBlock(s, line, i, i, end + 1);
    ReadOne(Scan(Star, s.hasCode, true), line, end + 1);
  }

  lemma BlockGoesOn(s: Scan, line: string, i: nat)
    requires s.mode == Block && i < |line|
    requires forall j: nat :: i <= j ==> !StartsAt(line, j, '*', '/')
    ensures Scanned(s, Rest(line, i)) == Outcome(s.hasCode, true, true)
  {
    ReadBlock(s, line, i, i, |line|);
  }

  lemma {:induction false} CommentSwallows(s: Scan, line: string)
    requires s.mode == Comment
    ensures ReadAll(s, line) == s
    decreases |line|
  {
    if line != "" {
      CommentSwallows(s, line[1..]);
    }
  }

  lemma {:induction false} BlankScans(s: Scan, line: string)
    requires IsBlank(line) && s.mode == Code
    ensures ReadAll(s, line) == s
    decreases |line|
  {
    if line != "" {
      BlankScans(s, line[1..]);
    }
  }

  /** The loop over one line agrees with the automaton. */
  method ScanLine(line: string, inBlock: bool) returns (o: Outcome)
    ensures o == Scanned(Start(inBlock), line)
  {
    var i, block, hasCode, hasComment := 0, inBlock, false, false;
    var length := |line|;
    while i < length
      invariant Scanned(Scan(if block then Block else Code, hasCode, hasComment), Rest(line, i))
             == Scanned(Start(inBlock), line)
      decreases length - i
    {
      ghost var s := Scan(if block then Block else Code, hasCode, hasComment);
      if block {
        hasComment := true;
        var end := FindBlockEnd(line, i);
        if end == -1 {
          BlockGoesOn(s, line, i);
          i := length;
          break;
        }
        BlockEnds(s, line, i, end);
        block := false;
        i := end + 2;
        continue;
      }
      if StartsAt(line, i, '/', '/') {
        LineComment(s, line, i);
        hasComment := true;
        return Outcome(hasCode, hasComment, block);
      }
      if StartsAt(line, i, '/', '*') {
        BlockBegins(s, line, i);
        hasComment := true;
        block := true;
        i := i + 2;
        continue;
      }
      var ch := line[i];
      ReadOne(s, line, i);
      if ch == '"' || ch == '\'' {
        hasCode := true;
        var quote := ch;
        i := SkipString(line, i + 1, quote, Scan(Quoted(quote), true, hasComment));
        continue;
      }
      if ch == '/' && i + 1 < length {
        SlashIsCode(s, line, i);
      }
      if !IsSpace(ch) {
        hasCode := true;
      }
      i := i + 1;
    }
    return Outcome(hasCode, hasComment, block);
  }

  lemma LineComment(s: Scan, line: string, i: nat)
    requires s.mode == Code && StartsAt(line, i, '/', '/')
    ensures Scanned(s, Rest(line, i)) == Outcome(s.hasCode, true, false)
  {
    ReadOne(s, line, i);
    ReadOne(s.(mode := Slash), line, i + 1);
    CommentSwallows(s.(mode := Comment, hasComment := true), Rest(line, i + 2));
  }

  lemma BlockBegins(s: Scan, line: string, i: nat)
    requires s.mode == Code && StartsAt(line, i, '/', '*')
    ensures ReadAll(s, Rest(line, i)) == ReadAll(Scan(Block, s.hasCode, true), Rest(line, i + 2))
  {
    ReadOne(s, line, i);
    ReadOne(s.(mode := Slash), line, i + 1);
  }

  /** A slash that begins no comment is code, found one character late. */
  lemma SlashIsCode(s: Scan, line: string, i: nat)
    requires s.mode == Code && i + 1 < |line| && line[i] == '/' && line[i + 1] != '/' && line[i + 1] != '*'
    ensures ReadAll(s, Rest(line, i)) == ReadAll(s.(hasCode := true), Rest(line, i + 1))
  {
    ReadOne(s, line, i);
    ReadOne(s.(mode := Slash), line, i + 1);
    ReadOne(s.(hasCode := true), line, i + 1);
  }

  lemma EscapeSkips(s: Scan, line: string, i: nat)
    requires s.mode.Quoted? && i < |line| && line[i] == '\\'
    ensures Scanned(s, Rest(line, i)) == Scanned(s, Rest(line, i + 2))
  {
    ReadOne(s, line, i);
    if i + 1 < |line| {
      ReadOne(s.(mode := Escaped(s.mode.quote)), line, i + 1);
    }
  }

  /** The loop over a string literal: an escaped character is skipped, the quote ends it. */
  method SkipString(line: string, from: nat, quote: char, ghost s: Scan) returns (i: nat)
    requires s == Scan(Quoted(quote), true, s.hasComment) && from <= |line| && quote != '\\'
    ensures i >= from
    ensures Scanned(s.(mode := Code), Rest(line, i)) == Scanned(s, Rest(line, from))
  {
    i := from;
    while i < |line|
      invariant i >= from
      invariant Scanned(s, Rest(line, i)) == Scanned(s, Rest(line, from))
      decreases |line| - i
    {
      if line[i] == '\\' {
        EscapeSkips(s, line, i);
        i := i + 2;
      } else if line[i] == quote {
        ReadOne(s, line, i);
        i := i + 1;
        break;
      } else {
        ReadOne(s, line, i);
        i := i + 1;
      }
    }
  }
}
