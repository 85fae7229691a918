/** Python string predicates the tools rely on. */
module Text {

  /** `str.isspace` of one character. */
  predicate IsSpace(c: char) {
    var n := c as int;
    || 0x09 <= n <= 0x0D || 0x1C <= n <= 0x20 || n == 0x85 || n == 0xA0 || n == 0x1680
    || 0x2000 <= n <= 0x200A || n == 0x2028 || n == 0x2029 || n == 0x202F || n == 0x205F || n == 0x3000
  }

  /** `not s.strip()`: nothing but white space. */
  predicate IsBlank(s: string) {
    forall i :: 0 <= i < |s| ==> IsSpace(s[i])
  }

  /** `s.rstrip("\n\r")`. */
  function WithoutLineEnd(s: string): (t: string)
    ensures t <= s && (t != "" ==> t[|t| - 1] != '\n' && t[|t| - 1] != '\r')
    ensures forall i :: |t| <= i < |s| ==> s[i] == '\n' || s[i] == '\r'
  {
    if s != "" && (s[|s| - 1] == '\n' || s[|s| - 1] == '\r') then WithoutLineEnd(s[..|s| - 1]) else s
  }

  /** The first place of an element; the length if there is none. */
  function FirstIndex<T(==)>(s: seq<T>, c: T): (i: nat)
    ensures i <= |s| && (i < |s| ==> s[i] == c) && (forall j :: 0 <= j < i ==> s[j] != c)
    ensures i < |s| <==> c in s
  {
    if s == [] || s[0] == c then 0 else 1 + FirstIndex(s[1..], c)
  }

  /** An element that is not in the first part is found at the start of the second. */
  lemma FirstBehind(a: string, b: string, c: char)
    requires c !in a && b != "" && b[0] == c
    ensures FirstIndex(a + b, c) == |a|
  {
    var s := a + b;
    assert s[|a|] == c;
    assert forall j :: 0 <= j < |a| ==> s[j] == a[j] && a[j] in a;
  }

  // ----- without the white space

  function Visible(s: string): string {
    if s == "" then "" else if IsSpace(s[0]) then Visible(s[1..]) else [s[0]] + Visible(s[1..])
  }

  lemma {:induction false} VisibleConcat(a: string, b: string)
    ensures Visible(a + b) == Visible(a) + Visible(b)
  {
    if a == "" {
      assert a + b == b;
    } else {
      VisibleConcat(a[1..], b);
      VisibleHead(a, b, Visible(a[1..]), Visible(b));
    }
  }

  lemma VisibleHead(a: string, b: string, more: string, tail: string)
    requires a != "" && more == Visible(a[1..]) && Visible(a[1..] + b) == more + tail
    ensures Visible(a + b) == Visible(a) + tail
  {
    assert (a + b)[1..] == a[1..] + b;
  }

  lemma {:induction false} AllVisible(s: string)
    requires forall i :: 0 <= i < |s| ==> !IsSpace(s[i])
    ensures Visible(s) == s
  {
    if s != "" {
      AllVisible(s[1..]);
    }
  }

  lemma {:induction false} BlankIsInvisible(s: string)
    requires IsBlank(s)
    ensures Visible(s) == ""
  {
    if s != "" {
      BlankIsInvisible(s[1..]);
    }
  }
}
