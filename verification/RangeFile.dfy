/** The text of the range file that `write_ranges` writes (tools/build_locale_pack_charset.py): what it says can
    be read back. */
module RangeFile {
  import opened Text
  import opened Charset

  function HexDigit(d: nat): (c: char)
    requires d < 16
    ensures c != ',' && c != '-' && DigitValue(c) == d
  {
    if d < 10 then '0' + d as char else 'A' + (d - 10) as char
  }

  /** The value of an upper-case hexadecimal digit, 0 for other characters. */
  function DigitValue(c: char): nat {
    if '0' <= c <= '9' then (c - '0') as nat
    else if 'A' <= c <= 'F' then (c - 'A') as nat + 10
    else 0
  }

  /** Python's `f"{n:X}"`. */
  function Hex(n: nat): string {
    if n < 16 then [HexDigit(n)] else Hex(n / 16) + [HexDigit(n % 16)]
  }

  function HexNumber(s: string): nat {
    if s == "" then 0 else 16 * HexNumber(s[..|s| - 1]) + DigitValue(s[|s| - 1])
  }

  lemma {:induction false} HexReads(n: nat)
    ensures HexNumber(Hex(n)) == n
    ensures ',' !in Hex(n) && '-' !in Hex(n)
  {
    if n < 16 {
      assert Hex(n)[..0] == "";
    } else {
      HexReads(n / 16);
      assert Hex(n)[..|Hex(n)| - 1] == Hex(n / 16);
    }
  }

  predicate IsDigit(c: char) {
    '0' <= c <= '9' || 'A' <= c <= 'F'
  }

  /** Digits only, and no zero in front. */
  lemma {:induction false} HexShape(n: nat)
    ensures Hex(n) != "" && forall i :: 0 <= i < |Hex(n)| ==> IsDigit(Hex(n)[i])
    ensures Hex(n)[0] == '0' <==> n == 0
  {
    if n >= 16 {
      HexShape(n / 16);
    }
  }

  /** Ranges of code points. */
  ghost predicate Codes(rs: seq<Range>) {
    forall i :: 0 <= i < |rs| ==> 0 <= rs[i].lo <= rs[i].hi
  }

  function Item(r: Range): string
    requires 0 <= r.lo <= r.hi
  {
    if r.lo == r.hi then "0x" + Hex(r.lo) else "0x" + Hex(r.lo) + "-0x" + Hex(r.hi)
  }

  /** `",".join(...)`. */
  function Items(rs: seq<Range>): string
    requires Codes(rs)
  {
    if rs == [] then "" else if |rs| == 1 then Item(rs[0]) else Items(rs[..|rs| - 1]) + "," + Item(rs[|rs| - 1])
  }

  function RangeText(rs: seq<Range>): string
    requires Codes(rs)
  {
    if rs == [] then "" else Items(rs) + "\n"
  }

  /** `write_ranges`: the file's text. */
  method WriteRanges(chars: string) returns (text: string, rs: seq<Range>)
    requires Ascending(chars)
    ensures Codes(rs) && text == RangeText(rs)
    ensures Canonical(rs) && forall c: int :: InRanges(c, rs) <==> exists i :: 0 <= i < |chars| && chars[i] as int == c
  {
    var codes := seq(|chars|, i requires 0 <= i < |chars| => chars[i] as int);
    rs := Ranges(codes);
    CodesAreRanges(rs, codes);
    forall c: int
      ensures InRanges(c, rs) <==> exists i :: 0 <= i < |chars| && chars[i] as int == c
    {
      CodesOf(chars, codes, c);
    }
    text := "";
    for i := 0 to |rs|
      invariant text == Items(rs[..i])
    {
      assert rs[..i + 1][..i] == rs[..i];
      var item := Item(rs[i]);
      text := if i == 0 then item else text + "," + item;
    }
    assert rs[..|rs|] == rs;
    if |rs| > 0 {
      text := text + "\n";
    }
  }

  lemma CodesOf(chars: string, codes: seq<int>, c: int)
    requires |codes| == |chars| && forall i :: 0 <= i < |chars| ==> codes[i] == chars[i] as int
    ensures c in codes <==> exists i :: 0 <= i < |chars| && chars[i] as int == c
  {
    if i :| 0 <= i < |chars| && chars[i] as int == c {
      assert codes[i] == c;
    }
  }

  lemma CodesAreRanges(rs: seq<Range>, codes: seq<int>)
    requires Canonical(rs) && Cover(rs, codes) && forall i :: 0 <= i < |codes| ==> codes[i] >= 0
    ensures Codes(rs)
  {
    forall i | 0 <= i < |rs|
      ensures 0 <= rs[i].lo <= rs[i].hi
    {
      assert rs[i].lo <= rs[i].lo <= rs[i].hi;
      assert InRanges(rs[i].lo, rs);
      assert rs[i].lo in codes;
    }
  }

  // ----- reading

  /** What an item says. */
  function ReadItem(s: string): Range {
    var i := FirstIndex(s, '-');
    if i < |s| && 2 <= i && i + 3 <= |s| then Range(HexNumber(s[2..i]), HexNumber(s[i + 3..]))
    else if 2 <= |s| then Range(HexNumber(s[2..]), HexNumber(s[2..]))
    else Range(0, 0)
  }

  /** The items of a line, cut at its commas. */
  function ReadItems(s: string): seq<Range>
    decreases |s|
  {
    var i := FirstIndex(s, ',');
    if i < |s| then [ReadItem(s[..i])] + ReadItems(s[i + 1..]) else [ReadItem(s)]
  }

  function ReadRanges(text: string): seq<Range> {
    if text == "" then [] else ReadItems(text[..|text| - 1])
  }

  lemma ItemReads(r: Range)
    requires 0 <= r.lo <= r.hi
    ensures ReadItem(Item(r)) == r && ',' !in Item(r)
  {
    HexReads(r.lo);
    HexReads(r.hi);
    var a, b := "0x" + Hex(r.lo), Hex(r.hi);
    assert '-' !in a && ',' !in a;
    if r.lo == r.hi {
      assert Item(r)[2..] == Hex(r.lo);
    } else {
      var s := a + ("-0x" + b);
      assert Item(r) == s;
      FirstBehind(a, "-0x" + b, '-');
      assert s[2..|a|] == Hex(r.lo) && s[|a| + 3..] == b;
    }
  }

  /** A single code has no dash; two codes have one, each with its sign in front. */
  lemma ItemShape(r: Range)
    requires 0 <= r.lo <= r.hi
    ensures var s, i := Item(r), FirstIndex(Item(r), '-');
            && |s| >= 3 && s[..2] == "0x" && '\n' !in s
            && (i == |s| <==> r.lo == r.hi)
            && (i < |s| ==> i >= 3 && i + 4 <= |s| && s[i + 1..i + 3] == "0x")
  {
    NoSigns(r.lo);
    NoSigns(r.hi);
    if r.lo == r.hi {
      OneCode(Hex(r.lo));
    } else {
      TwoCodes(Hex(r.lo), Hex(r.hi));
    }
  }

  lemma NoSigns(n: nat)
    ensures '-' !in Hex(n) && '\n' !in Hex(n) && Hex(n) != ""
  {
    HexShape(n);
  }

  lemma OneCode(a: string)
    requires '-' !in a && '\n' !in a && a != ""
    ensures var s := "0x" + a; FirstIndex(s, '-') == |s| >= 3 && s[..2] == "0x" && '\n' !in s
  {
  }

  lemma TwoCodes(a: string, b: string)
    requires '-' !in a && '\n' !in a && a != "" && '\n' !in b && b != ""
    ensures var s := "0x" + a + "-0x" + b;
            var i := FirstIndex(s, '-');
            && '\n' !in s && s[..2] == "0x" && 3 <= i && i + 4 <= |s| && s[i + 1..i + 3] == "0x"
  {
    var s := ("0x" + a) + ("-0x" + b);
    assert "0x" + a + "-0x" + b == s;
    FirstBehind("0x" + a, "-0x" + b, '-');
    assert s[|a| + 3..|a| + 5] == ("-0x" + b)[1..3];
  }

  lemma {:induction false} ItemsShape(rs: seq<Range>)
    requires Codes(rs)
    ensures '\n' !in Items(rs) && (rs != [] ==> Items(rs) != "")
  {
    if rs != [] {
      ItemShape(rs[|rs| - 1]);
      ItemsShape(rs[..|rs| - 1]);
    }
  }

  /** One line with a newline, or nothing. */
  lemma TextShape(rs: seq<Range>)
    requires Codes(rs)
    ensures var text := RangeText(rs);
            if rs == [] then text == "" else |text| >= 2 && FirstIndex(text, '\n') == |text| - 1
  {
    ItemsShape(rs);
    if rs != [] {
      FirstBehind(Items(rs), "\n", '\n');
    }
  }

  /** The first item is cut at the first comma. */
  lemma CutFirst(a: string, b: string)
    requires ',' !in a
    ensures ReadItems(a + "," + b) == [ReadItem(a)] + ReadItems(b)
  {
    var s := a + ("," + b);
    assert a + "," + b == s;
    FirstBehind(a, "," + b, ',');
    assert s[..|a|] == a && s[|a| + 1..] == b;
  }

  lemma AtFirstComma(s: string) returns (a: string, b: string)
    requires ',' in s
    ensures s == a + "," + b && ',' !in a && |b| < |s|
  {
    var i := FirstIndex(s, ',');
    a, b := s[..i], s[i + 1..];
  }

  lemma {:induction false} ReadItemsAppend(s: string, item: string)
    requires ',' !in item
    ensures ReadItems(s + "," + item) == ReadItems(s) + [ReadItem(item)]
    decreases |s|
  {
    if ',' in s {
      var a, b := AtFirstComma(s);
      ReadItemsAppend(b, item);
      AppendBehindComma(a, b, item);
    } else {
      CutFirst(s, item);
      NoComma(s);
      NoComma(item);
    }
  }

  lemma AppendBehindComma(a: string, b: string, item: string)
    requires ',' !in a && ReadItems(b + "," + item) == ReadItems(b) + [ReadItem(item)]
    ensures ReadItems(a + "," + b + "," + item) == ReadItems(a + "," + b) + [ReadItem(item)]
  {
    CutFirst(a, b);
    CutFirst(a, b + "," + item);
    JoinAgain(a, b, item);
    Regroup(ReadItem(a), ReadItems(b), ReadItem(item));
  }

  lemma JoinAgain(a: string, b: string, item: string)
    ensures a + "," + b + "," + item == a + "," + (b + "," + item)
  {
  }

  lemma Regroup(a: Range, b: seq<Range>, c: Range)
    ensures [a] + (b + [c]) == [a] + b + [c]
  {
  }

  lemma NoComma(item: string)
    requires ',' !in item
    ensures ReadItems(item) == [ReadItem(item)]
  {
  }

  lemma {:induction false} ItemsRead(rs: seq<Range>)
    requires Codes(rs) && rs != []
    ensures ReadItems(Items(rs)) == rs
  {
    var n := |rs| - 1;
    ItemReads(rs[n]);
    assert rs == rs[..n] + [rs[n]];
    if n == 0 {
      NoComma(Item(rs[0]));
    } else {
      ItemsRead(rs[..n]);
      ReadItemsAppend(Items(rs[..n]), Item(rs[n]));
    }
  }

  /** The file says which ranges it holds: reading it gives them back. */
  lemma TextReads(rs: seq<Range>)
    requires Codes(rs)
    ensures ReadRanges(RangeText(rs)) == rs
  {
    if rs != [] {
      ItemsRead(rs);
      assert RangeText(rs)[..|RangeText(rs)| - 1] == Items(rs);
    }
  }
}
