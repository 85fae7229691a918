/** The key checks over the locale string files (tools/validate_locale_packs.py). The placeholder and the
    English-fallback rules are parameters. */
module LocaleKeys {
  import opened Text
  import opened Wrappers

  // ----- parse_tsv

  /** Lines that are blank or start with a hash sign are skipped. */
  predicate Skipped(line: string) {
    IsBlank(line) || line[0] == '#'
  }

  predicate IsRow(line: string) {
    !Skipped(line) && '\t' in line
  }

  function KeyOf(line: string): string {
    line[..FirstIndex(line, '\t')]
  }

  function ValueOf(line: string): string
    requires '\t' in line
  {
    line[FirstIndex(line, '\t') + 1..]
  }

  /** The line is cut at its first tab. */
  lemma RowParts(line: string)
    requires '\t' in line
    ensures KeyOf(line) + "\t" + ValueOf(line) == line && '\t' !in KeyOf(line)
  {
  }

  /** ... and that is the only way to read it so. */
  lemma RowReads(key: string, value: string)
    requires '\t' !in key
    ensures KeyOf(key + "\t" + value) == key && ValueOf(key + "\t" + value) == value
  {
    var line := key + ("\t" + value);
    assert key + "\t" + value == line;
    FirstBehind(key, "\t" + value, '\t');
    assert line[..|key|] == key && line[|key| + 1..] == value;
  }

  /** A row with this key and value, said of the characters: neither blank nor a comment, and the key, which has
      no tab, stands before the first tab and the value behind it. */
  predicate RowOf(line: string, key: string, value: string) {
    !IsBlank(line) && line[0] != '#' && line == key + "\t" + value && '\t' !in key
  }

  lemma RowOfMeans(line: string, key: string, value: string)
    ensures RowOf(line, key, value) <==> IsRow(line) && KeyOf(line) == key && ValueOf(line) == value
  {
    if IsRow(line) {
      RowParts(line);
    }
    if RowOf(line, key, value) {
      RowReads(key, value);
    }
  }

  ghost predicate HasKey(line: string, key: string) {
    exists value :: RowOf(line, key, value)
  }

  lemma HasKeyMeans(line: string, key: string)
    ensures HasKey(line, key) <==> IsRow(line) && KeyOf(line) == key
  {
    if IsRow(line) && KeyOf(line) == key {
      RowOfMeans(line, key, ValueOf(line));
    }
    if HasKey(line, key) {
      var value :| RowOf(line, key, value);
      RowOfMeans(line, key, value);
    }
  }

  /** The keys in file order, with repetitions. */
  function Keys(lines: seq<string>): seq<string> {
    if lines == [] then []
    else
      var before, line := Keys(lines[..|lines| - 1]), lines[|lines| - 1];
      if IsRow(line) then before + [KeyOf(line)] else before
  }

  /** The numbers, from 1, of the lines without a tab. */
  function Malformed(lines: seq<string>): seq<nat> {
    if lines == [] then []
    else
      var before, line := Malformed(lines[..|lines| - 1]), lines[|lines| - 1];
      if !Skipped(line) && '\t' !in line then before + [|lines|] else before
  }

  /** The last value given to a key. */
  ghost predicate LastValue(lines: seq<string>, key: string, value: string) {
    exists i: nat :: LastAt(lines, key, value, i)
  }

  ghost predicate LastAt(lines: seq<string>, key: string, value: string, i: nat) {
    i < |lines| && RowOf(lines[i], key, value) && forall j :: i < j < |lines| ==> !HasKey(lines[j], key)
  }

  datatype Table = Table(rows: map<string, string>, order: seq<string>, malformed: seq<nat>)

  ghost predicate Parsed(lines: seq<string>, t: Table) {
    && t.order == Keys(lines) && t.malformed == Malformed(lines)
    && (forall k :: k in t.rows <==> k in t.order)
    && forall k :: k in t.rows ==> LastValue(lines, k, t.rows[k])
  }

  method ParseTsv(lines: seq<string>) returns (t: Table)
    ensures Parsed(lines, t)
  {
    t := Table(map[], [], []);
    for i := 0 to |lines|
      invariant Parsed(lines[..i], t)
    {
      var line := lines[i];
      assert lines[..i + 1] == lines[..i] + [line];
      MoreLines(lines[..i], line);
      MoreValues(lines[..i], line);
      if IsBlank(line) || line[0] == '#' {
        continue;
      }
      if '\t' !in line {
        t := t.(malformed := t.malformed + [i + 1]);
        continue;
      }
      var key, value := KeyOf(line), ValueOf(line);
      t := t.(order := t.order + [key], rows := t.rows[key := value]);
    }
    assert lines[..|lines|] == lines;
  }

  lemma MoreLines(lines: seq<string>, line: string)
    ensures Keys(lines + [line]) == Keys(lines) + (if IsRow(line) then [KeyOf(line)] else [])
    ensures Malformed(lines + [line])
         == Malformed(lines) + (if !Skipped(line) && '\t' !in line then [|lines| + 1] else [])
  {
    assert (lines + [line])[..|lines|] == lines;
    assert Keys(lines) + [] == Keys(lines) && Malformed(lines) + [] == Malformed(lines);
  }

  lemma MoreValues(lines: seq<string>, line: string)
    ensures forall k, v :: LastValue(lines, k, v) && !(IsRow(line) && KeyOf(line) == k) ==>
              LastValue(lines + [line], k, v)
    ensures IsRow(line) ==> LastValue(lines + [line], KeyOf(line), ValueOf(line))
  {
    var all := lines + [line];
    forall k, v | LastValue(lines, k, v) && !(IsRow(line) && KeyOf(line) == k)
      ensures LastValue(all, k, v)
    {
      var i: nat :| LastAt(lines, k, v, i);
      HasKeyMeans(line, k);
      assert LastAt(all, k, v, i) by {
        assert all[i] == lines[i];
        assert forall j :: i < j < |lines| ==> all[j] == lines[j];
      }
    }
    if IsRow(line) {
      RowOfMeans(line, KeyOf(line), ValueOf(line));
      assert LastAt(all, KeyOf(line), ValueOf(line), |lines|);
    }
  }

  /** Key number `i` is that of line `at[i]`, and the lines rise. */
  ghost predicate Placed(lines: seq<string>, keys: seq<string>, at: seq<nat>) {
    && |at| == |keys|
    && (forall i :: 0 <= i < |at| ==> at[i] < |lines| && HasKey(lines[at[i]], keys[i]))
    && (forall i, j :: 0 <= i < j < |at| ==> at[i] < at[j])
  }

  /** No row is left out. */
  ghost predicate Complete(lines: seq<string>, at: seq<nat>) {
    forall n: nat, k :: n < |lines| && HasKey(lines[n], k) ==> n in at
  }

  /** The rows of a file in the order of its lines, all of them. */
  lemma {:induction false} KeysAre(lines: seq<string>) returns (at: seq<nat>)
    ensures Placed(lines, Keys(lines), at) && Complete(lines, at)
  {
    at := [];
    if lines != [] {
      var n := |lines| - 1;
      var before, line := lines[..n], lines[n];
      at := KeysAre(before);
      assert lines == before + [line];
      HasKeyMeans(line, KeyOf(line));
      if IsRow(line) {
        PlaceRow(before, Keys(before), at, line, KeyOf(line));
        at := at + [n];
      } else {
        SkipLine(before, Keys(before), at, line);
      }
    }
  }

  lemma PlaceRow(lines: seq<string>, keys: seq<string>, at: seq<nat>, line: string, key: string)
    requires Placed(lines, keys, at) && Complete(lines, at) && HasKey(line, key)
    ensures Placed(lines + [line], keys + [key], at + [|lines|]) && Complete(lines + [line], at + [|lines|])
  {
    var all, at' := lines + [line], at + [|lines|];
    forall n: nat, k | n < |all| && HasKey(all[n], k)
      ensures n in at'
    {
      if n < |lines| {
        assert HasKey(lines[n], k);
      } else {
        assert at'[|at|] == n;
      }
    }
  }

  lemma SkipLine(lines: seq<string>, keys: seq<string>, at: seq<nat>, line: string)
    requires Placed(lines, keys, at) && Complete(lines, at) && !IsRow(line)
    ensures Placed(lines + [line], keys, at) && Complete(lines + [line], at)
  {
    var all := lines + [line];
    forall n: nat, k | n < |all| && HasKey(all[n], k)
      ensures n in at
    {
      HasKeyMeans(line, k);
      assert n < |lines| && HasKey(lines[n], k);
    }
  }

  /** The lines reported are those that are neither blank nor a comment and have no tab, counted from 1. */
  lemma {:induction false} MalformedAre(lines: seq<string>, l: nat)
    ensures l in Malformed(lines) <==>
              1 <= l <= |lines| && !IsBlank(lines[l - 1]) && lines[l - 1][0] != '#' && '\t' !in lines[l - 1]
    ensures forall i, j :: 0 <= i < j < |Malformed(lines)| ==> Malformed(lines)[i] < Malformed(lines)[j]
    ensures forall i :: 0 <= i < |Malformed(lines)| ==> Malformed(lines)[i] <= |lines|
  {
    if lines != [] {
      MalformedAre(lines[..|lines| - 1], l);
    }
  }

  // ----- the canonical keys

  ghost predicate NoDuplicates(ks: seq<string>) {
    forall i, j :: 0 <= i < j < |ks| ==> ks[i] != ks[j]
  }

  /** Keys in order of first appearance, as a dictionary lists them. */
  function Distinct(ks: seq<string>): seq<string> {
    if ks == [] then []
    else
      var before, k := ks[..|ks| - 1], ks[|ks| - 1];
      if k in before then Distinct(before) else Distinct(before) + [k]
  }

  lemma DistinctGrows(ks: seq<string>, k: string)
    ensures Distinct(ks + [k]) == if k in ks then Distinct(ks) else Distinct(ks) + [k]
  {
    assert (ks + [k])[..|ks|] == ks;
  }

  lemma {:induction false} DistinctHolds(ks: seq<string>)
    ensures NoDuplicates(Distinct(ks)) && forall k :: k in Distinct(ks) <==> k in ks
  {
    if ks != [] {
      DistinctHolds(ks[..|ks| - 1]);
      assert ks == ks[..|ks| - 1] + [ks[|ks| - 1]];
    }
  }

  ghost predicate InOrder(ks: seq<string>, r: seq<string>) {
    forall i, j :: 0 <= i < j < |r| ==> FirstIndex(ks, r[i]) < FirstIndex(ks, r[j])
  }

  /** That order is the order of first appearance. */
  lemma {:induction false} DistinctInOrder(ks: seq<string>)
    ensures InOrder(ks, Distinct(ks))
  {
    if ks != [] {
      var before, k := ks[..|ks| - 1], ks[|ks| - 1];
      assert ks == before + [k];
      DistinctInOrder(before);
      DistinctHolds(before);
      OrderGrows(before, k, Distinct(before));
      DistinctGrows(before, k);
    }
  }

  lemma OrderGrows(before: seq<string>, k: string, r: seq<string>)
    requires InOrder(before, r) && forall x :: x in r ==> x in before
    ensures InOrder(before + [k], r)
    ensures k !in before ==> InOrder(before + [k], r + [k])
  {
    forall i | 0 <= i < |r|
      ensures FirstIndex(before + [k], r[i]) == FirstIndex(before, r[i]) < |before|
    {
      assert r[i] in r;
      SameFirstIndex(before, k, r[i]);
    }
    if k !in before {
      NewFirstIndex(before, k);
    }
  }

  lemma NewFirstIndex(before: seq<string>, k: string)
    requires k !in before
    ensures FirstIndex(before + [k], k) == |before|
  {
    var ks := before + [k];
    assert ks[|before|] == k;
    assert forall j :: 0 <= j < |before| ==> ks[j] == before[j] && before[j] in before;
  }

  lemma SameFirstIndex(before: seq<string>, k: string, x: string)
    requires x in before
    ensures FirstIndex(before + [k], x) == FirstIndex(before, x)
  {
    var ks, i := before + [k], FirstIndex(before, x);
    assert ks[i] == x && forall j :: 0 <= j < i ==> ks[j] != x;
  }

  /** The keys of all files, one after the other, with repetitions. */
  function AllKeys(files: seq<Table>): seq<string> {
    if files == [] then [] else AllKeys(files[..|files| - 1]) + files[|files| - 1].order
  }

  /** The order and the set behind the keys `ks`. */
  ghost predicate UnionOf(order: seq<string>, seen: set<string>, ks: seq<string>) {
    order == Distinct(ks) && forall k :: k in seen <==> k in ks
  }

  lemma OneMoreKey(order: seq<string>, seen: set<string>, ks: seq<string>, k: string)
    requires UnionOf(order, seen, ks)
    ensures UnionOf(if k in seen then order else order + [k], seen + {k}, ks + [k])
  {
    DistinctGrows(ks, k);
  }

  lemma KeyInUnion(order: seq<string>, seen: set<string>, ks: seq<string>, k: string)
    requires UnionOf(order, seen, ks) && k in seen
    ensures seen + {k} == seen
  {
  }

  lemma KeysBehind(before: seq<string>, local: seq<string>, i: nat)
    requires i < |local|
    ensures before + local[..i + 1] == before + local[..i] + [local[i]]
  {
  }

  lemma KeysOfFile(files: seq<Table>, f: nat)
    requires f < |files|
    ensures AllKeys(files[..f + 1]) == AllKeys(files[..f]) + files[f].order
    ensures files[f].order[..|files[f].order|] == files[f].order
  {
    assert files[..f + 1][..f] == files[..f];
  }

  /** The keys of all files in order of first appearance. */
  method UnionOrder(files: seq<Table>) returns (order: seq<string>)
    ensures order == Distinct(AllKeys(files))
  {
    order := [];
    var seen: set<string> := {};
    for f := 0 to |files|
      invariant UnionOf(order, seen, AllKeys(files[..f]))
    {
      ghost var before := AllKeys(files[..f]);
      var local := files[f].order;
      assert before + local[..0] == before;
      for i := 0 to |local|
        invariant UnionOf(order, seen, before + local[..i])
      {
        OneMoreKey(order, seen, before + local[..i], local[i]);
        KeysBehind(before, local, i);
        if local[i] !in seen {
          seen := seen + {local[i]};
          order := order + [local[i]];
        } else {
          KeyInUnion(order, seen, before + local[..i], local[i]);
        }
      }
      KeysOfFile(files, f);
    }
    assert files[..|files|] == files;
  }

  ghost predicate InSomeFile(k: string, files: seq<Table>) {
    exists i :: 0 <= i < |files| && k in files[i].order
  }

  /** The union holds exactly the keys of the files. */
  lemma {:induction false} UnionHoldsAllKeys(files: seq<Table>, k: string)
    ensures k in Distinct(AllKeys(files)) <==> InSomeFile(k, files)
  {
    DistinctHolds(AllKeys(files));
    if files != [] {
      var n := |files| - 1;
      UnionHoldsAllKeys(files[..n], k);
      DistinctHolds(AllKeys(files[..n]));
      if InSomeFile(k, files[..n]) {
        var i :| 0 <= i < n && k in files[..n][i].order;
        assert k in files[i].order;
      }
      if InSomeFile(k, files) {
        var i :| 0 <= i < |files| && k in files[i].order;
        assert i < n ==> k in files[..n][i].order;
      }
    }
  }

  /** The canonical list: that of the preferred file, if there is one among the files, else the union. */
  ghost predicate IsCanonical(files: seq<Table>, preferred: Option<nat>, canonical: seq<string>) {
    match preferred
    case Some(p) => p < |files| && canonical == files[p].order
    case None => canonical == Distinct(AllKeys(files))
  }

  method CanonicalKeyOrder(files: seq<Table>, preferred: Option<nat>) returns (canonical: seq<string>)
    requires preferred.Some? ==> preferred.value < |files|
    ensures IsCanonical(files, preferred, canonical)
  {
    match preferred {
      case Some(p) => canonical := files[p].order;
      case None => canonical := UnionOrder(files);
    }
  }

  // ----- the checks

  datatype KeyFault = Duplicate | Missing | Extra | EmptyTranslation | BadPlaceholders | EnglishFallback

  datatype Error =
    | NoStrings
    | MalformedLine(file: nat, line: nat)
    | KeyError(fault: KeyFault, file: nat, key: string)

  /** The rules the model leaves abstract, as predicates on key and value; `fallback` includes the release
      status of the file. */
  datatype Rules = Rules(badPlaceholders: (string, string) -> bool, fallback: (nat, string, string) -> bool)

  /** The rows are those of the keys. */
  ghost predicate Rowed(t: Table) {
    forall k :: k in t.rows <==> k in t.order
  }

  /** File `f` earns a fault for a key. */
  predicate Faulty(fault: KeyFault, f: nat, t: Table, canonical: seq<string>, rules: Rules, k: string) {
    match fault
    case Duplicate => multiset(t.order)[k] > 1
    case Missing => k in canonical && k !in t.rows
    case Extra => k in t.order && k !in canonical
    case EmptyTranslation => k in t.rows && IsBlank(t.rows[k])
    case BadPlaceholders => k in t.rows && rules.badPlaceholders(k, t.rows[k])
    case EnglishFallback => k in t.rows && rules.fallback(f, k, t.rows[k])
  }

  /** The errors a list of files earns. */
  ghost predicate Earned(files: seq<Table>, canonical: seq<string>, rules: Rules, e: Error) {
    match e
    case NoStrings => false
    case MalformedLine(f, l) => f < |files| && l in files[f].malformed
    case KeyError(fault, f, k) => f < |files| && Faulty(fault, f, files[f], canonical, rules, k)
  }

  /** Those of the first `n` keys that earn a fault, in their order. */
  function FaultyKeys(fault: KeyFault, f: nat, t: Table, canonical: seq<string>, rules: Rules,
                      ks: seq<string>, n: nat): seq<string>
    requires n <= |ks|
  {
    if n == 0 then []
    else
      var before := FaultyKeys(fault, f, t, canonical, rules, ks, n - 1);
      if Faulty(fault, f, t, canonical, rules, ks[n - 1]) then before + [ks[n - 1]] else before
  }

  /** The messages for one kind of fault. */
  function Messages(fault: KeyFault, f: nat, ks: seq<string>, n: nat): seq<Error>
    requires n <= |ks|
  {
    if n == 0 then [] else Messages(fault, f, ks, n - 1) + [KeyError(fault, f, ks[n - 1])]
  }

  function MalformedLines(f: nat, lines: seq<nat>, n: nat): seq<Error>
    requires n <= |lines|
  {
    if n == 0 then [] else MalformedLines(f, lines, n - 1) + [MalformedLine(f, lines[n - 1])]
  }

  /** The keys a check goes through: missing keys are sought in the canonical list, extra ones in the key list,
      the other faults in the dictionary. */
  function Examined(fault: KeyFault, t: Table, canonical: seq<string>): seq<string> {
    match fault
    case Missing => canonical
    case Extra => t.order
    case _ => Distinct(t.order)
  }

  /** The keys a check finds. */
  function Found(fault: KeyFault, f: nat, t: Table, canonical: seq<string>, rules: Rules): seq<string> {
    var ks := Examined(fault, t, canonical);
    FaultyKeys(fault, f, t, canonical, rules, ks, |ks|)
  }

  function FaultErrors(fault: KeyFault, f: nat, t: Table, canonical: seq<string>, rules: Rules): seq<Error> {
    var ks := Found(fault, f, t, canonical, rules);
    Messages(fault, f, ks, |ks|)
  }

  /** The kinds of fault in the order they are reported. */
  const FAULTS := [Duplicate, Missing, Extra, EmptyTranslation, BadPlaceholders, EnglishFallback]

  /** The errors of one file in the order they are listed: lines without a tab, then the first `m` kinds of
      fault in turn. */
  function FileErrors(f: nat, t: Table, canonical: seq<string>, rules: Rules, m: nat): seq<Error>
    requires m <= |FAULTS|
  {
    if m == 0 then MalformedLines(f, t.malformed, |t.malformed|)
    else FileErrors(f, t, canonical, rules, m - 1) + FaultErrors(FAULTS[m - 1], f, t, canonical, rules)
  }

  /** The errors of the first `n` files. */
  function ErrorsUpTo(files: seq<Table>, canonical: seq<string>, rules: Rules, n: nat): seq<Error>
    requires n <= |files|
  {
    if n == 0 then []
    else ErrorsUpTo(files, canonical, rules, n - 1) + FileErrors(n - 1, files[n - 1], canonical, rules, |FAULTS|)
  }

  lemma {:induction false} FaultyKeysHold(fault: KeyFault, f: nat, t: Table, canonical: seq<string>, rules: Rules,
                                          ks: seq<string>, n: nat, k: string)
    requires n <= |ks|
    ensures k in FaultyKeys(fault, f, t, canonical, rules, ks, n)
       <==> k in ks[..n] && Faulty(fault, f, t, canonical, rules, k)
  {
    if n > 0 {
      FaultyKeysHold(fault, f, t, canonical, rules, ks, n - 1, k);
      assert ks[..n] == ks[..n - 1] + [ks[n - 1]];
    }
  }

  lemma {:induction false} MessagesHold(fault: KeyFault, f: nat, ks: seq<string>, n: nat, e: Error)
    requires n <= |ks|
    ensures e in Messages(fault, f, ks, n) <==> e.KeyError? && e.fault == fault && e.file == f && e.key in ks[..n]
  {
    if n > 0 {
      MessagesHold(fault, f, ks, n - 1, e);
      assert ks[..n] == ks[..n - 1] + [ks[n - 1]];
    }
  }

  lemma {:induction false} MalformedLinesHold(f: nat, lines: seq<nat>, n: nat, e: Error)
    requires n <= |lines|
    ensures e in MalformedLines(f, lines, n) <==> e.MalformedLine? && e.file == f && e.line in lines[..n]
  {
    if n > 0 {
      MalformedLinesHold(f, lines, n - 1, e);
      assert lines[..n] == lines[..n - 1] + [lines[n - 1]];
    }
  }

  /** What is examined for a fault holds all keys that can have it. */
  lemma FaultErrorsAreEarned(fault: KeyFault, f: nat, t: Table, canonical: seq<string>, rules: Rules, e: Error)
    requires Rowed(t)
    ensures e in FaultErrors(fault, f, t, canonical, rules)
       <==> e.KeyError? && e.fault == fault && e.file == f && Faulty(fault, f, t, canonical, rules, e.key)
  {
    var ks, found := Examined(fault, t, canonical), Found(fault, f, t, canonical, rules);
    MessagesHold(fault, f, found, |found|, e);
    assert found[..|found|] == found && ks[..|ks|] == ks;
    if e.KeyError? {
      FaultyKeysHold(fault, f, t, canonical, rules, ks, |ks|, e.key);
      ExaminedEnough(fault, f, t, canonical, rules, e.key);
    }
  }

  lemma ExaminedEnough(fault: KeyFault, f: nat, t: Table, canonical: seq<string>, rules: Rules, k: string)
    requires Rowed(t)
    ensures Faulty(fault, f, t, canonical, rules, k) ==> k in Examined(fault, t, canonical)
  {
    DistinctHolds(t.order);
    assert fault == Duplicate && Faulty(fault, f, t, canonical, rules, k) ==> k in multiset(t.order);
  }

  ghost predicate EarnedByFile(f: nat, t: Table, canonical: seq<string>, rules: Rules,
                               faults: seq<KeyFault>, e: Error) {
    match e
    case NoStrings => false
    case MalformedLine(g, l) => f == g && l in t.malformed
    case KeyError(fault, g, k) => f == g && fault in faults && Faulty(fault, f, t, canonical, rules, k)
  }

  lemma {:induction false} FileErrorsAreEarned(f: nat, t: Table, canonical: seq<string>, rules: Rules, m: nat, e: Error)
    requires Rowed(t) && m <= |FAULTS|
    ensures e in FileErrors(f, t, canonical, rules, m) <==> EarnedByFile(f, t, canonical, rules, FAULTS[..m], e)
  {
    if m == 0 {
      MalformedLinesHold(f, t.malformed, |t.malformed|, e);
      assert t.malformed[..|t.malformed|] == t.malformed;
    } else {
      FileErrorsAreEarned(f, t, canonical, rules, m - 1, e);
      FaultErrorsAreEarned(FAULTS[m - 1], f, t, canonical, rules, e);
      OneMoreFault(m);
      InConcat(FileErrors(f, t, canonical, rules, m - 1), FaultErrors(FAULTS[m - 1], f, t, canonical, rules), e);
    }
  }

  lemma OneMoreFault(m: nat)
    requires 0 < m <= |FAULTS|
    ensures FAULTS[..m] == FAULTS[..m - 1] + [FAULTS[m - 1]]
    ensures FAULTS[m - 1] !in FAULTS[..m - 1]
  {
  }

  lemma AllFaults(fault: KeyFault)
    ensures fault in FAULTS && FAULTS[..|FAULTS|] == FAULTS
  {
    match fault
    case Duplicate => assert FAULTS[0] == fault;
    case Missing => assert FAULTS[1] == fault;
    case Extra => assert FAULTS[2] == fault;
    case EmptyTranslation => assert FAULTS[3] == fault;
    case BadPlaceholders => assert FAULTS[4] == fault;
    case EnglishFallback => assert FAULTS[5] == fault;
  }

  lemma OneFile(files: seq<Table>, canonical: seq<string>, rules: Rules, f: nat, e: Error)
    requires f < |files| && Rowed(files[f])
    ensures e in FileErrors(f, files[f], canonical, rules, |FAULTS|)
       <==> !e.NoStrings? && e.file == f && Earned(files, canonical, rules, e)
  {
    FileErrorsAreEarned(f, files[f], canonical, rules, |FAULTS|, e);
    AllFaults(if e.KeyError? then e.fault else Duplicate);
  }

  /** An error is listed iff it is earned. */
  lemma {:induction false} ErrorsAreEarned(files: seq<Table>, canonical: seq<string>, rules: Rules, n: nat, e: Error)
    requires n <= |files| && forall f :: 0 <= f < |files| ==> Rowed(files[f])
    ensures e in ErrorsUpTo(files, canonical, rules, n)
       <==> !e.NoStrings? && e.file < n && Earned(files, canonical, rules, e)
  {
    if n > 0 {
      ErrorsAreEarned(files, canonical, rules, n - 1, e);
      OneFile(files, canonical, rules, n - 1, e);
      EarnedStep(files, canonical, rules, n, e, ErrorsUpTo(files, canonical, rules, n - 1),
                 FileErrors(n - 1, files[n - 1], canonical, rules, |FAULTS|));
    }
  }

  lemma EarnedStep(files: seq<Table>, canonical: seq<string>, rules: Rules, n: nat, e: Error,
                   before: seq<Error>, more: seq<Error>)
    requires 0 < n <= |files|
    requires e in before <==> !e.NoStrings? && e.file < n - 1 && Earned(files, canonical, rules, e)
    requires e in more <==> !e.NoStrings? && e.file == n - 1 && Earned(files, canonical, rules, e)
    ensures e in before + more <==> !e.NoStrings? && e.file < n && Earned(files, canonical, rules, e)
  {
  }

  lemma InConcat(a: seq<Error>, b: seq<Error>, e: Error)
    ensures e in a + b <==> e in a || e in b
  {
  }

  // ----- the lists a file's check computes

  /** A dictionary of counts, and its keys in insertion order. */
  ghost predicate Counted(counts: map<string, nat>, items: seq<string>, order: seq<string>) {
    && items == Distinct(order)
    && (forall k :: k in counts <==> k in order)
    && forall k :: k in counts ==> counts[k] == multiset(order)[k]
  }

  /** `Counter(order)`. */
  method CountKeys(order: seq<string>) returns (counts: map<string, nat>, items: seq<string>)
    ensures Counted(counts, items, order)
  {
    counts, items := map[], [];
    for i := 0 to |order|
      invariant Counted(counts, items, order[..i])
    {
      var key := order[i];
      assert order[..i + 1] == order[..i] + [key];
      CountOne(counts, items, order[..i], key);
      items := if key in counts then items else items + [key];
      counts := counts[key := if key in counts then counts[key] + 1 else 1];
    }
    assert order[..|order|] == order;
  }

  lemma CountOne(counts: map<string, nat>, items: seq<string>, before: seq<string>, key: string)
    requires Counted(counts, items, before)
    ensures Counted(counts[key := if key in counts then counts[key] + 1 else 1],
                    if key in counts then items else items + [key], before + [key])
  {
    DistinctGrows(before, key);
    assert key !in before ==> key !in multiset(before);
    assert forall k :: multiset(before + [key])[k] == multiset(before)[k] + if k == key then 1 else 0;
  }

  method Duplicates(f: nat, t: Table, ghost canonical: seq<string>, ghost rules: Rules)
    returns (duplicates: seq<string>, items: seq<string>)
    ensures duplicates == Found(Duplicate, f, t, canonical, rules)
    ensures items == Distinct(t.order)
  {
    var counts;
    counts, items := CountKeys(t.order);
    DistinctHolds(t.order);
    duplicates := [];
    for i := 0 to |items|
      invariant duplicates == FaultyKeys(Duplicate, f, t, canonical, rules, items, i)
    {
      assert items[i] in items;
      if counts[items[i]] > 1 {
        duplicates := duplicates + [items[i]];
      }
    }
  }

  method MissingKeys(f: nat, t: Table, canonical: seq<string>, ghost rules: Rules) returns (missing: seq<string>)
    ensures missing == Found(Missing, f, t, canonical, rules)
  {
    missing := [];
    for i := 0 to |canonical|
      invariant missing == FaultyKeys(Missing, f, t, canonical, rules, canonical, i)
    {
      assert canonical[i] in canonical;
      if canonical[i] !in t.rows {
        missing := missing + [canonical[i]];
      }
    }
  }

  method ExtraKeys(f: nat, t: Table, canonical: seq<string>, canonicalSet: set<string>, ghost rules: Rules)
    returns (extra: seq<string>)
    requires canonicalSet == set k | k in canonical
    ensures extra == Found(Extra, f, t, canonical, rules)
  {
    extra := [];
    for i := 0 to |t.order|
      invariant extra == FaultyKeys(Extra, f, t, canonical, rules, t.order, i)
    {
      assert t.order[i] in t.order;
      if t.order[i] !in canonicalSet {
        extra := extra + [t.order[i]];
      }
    }
  }

  /** The three lists over the rows: empty translations, placeholder mismatches and English fallbacks. */
  method BadValues(f: nat, t: Table, items: seq<string>, rules: Rules, ghost canonical: seq<string>)
    returns (empty: seq<string>, bad: seq<string>, english: seq<string>)
    requires Rowed(t) && items == Distinct(t.order)
    ensures empty == Found(EmptyTranslation, f, t, canonical, rules)
    ensures bad == Found(BadPlaceholders, f, t, canonical, rules)
    ensures english == Found(EnglishFallback, f, t, canonical, rules)
  {
    DistinctHolds(t.order);
    empty, bad, english := [], [], [];
    for i := 0 to |items|
      invariant empty == FaultyKeys(EmptyTranslation, f, t, canonical, rules, items, i)
      invariant bad == FaultyKeys(BadPlaceholders, f, t, canonical, rules, items, i)
      invariant english == FaultyKeys(EnglishFallback, f, t, canonical, rules, items, i)
    {
      assert items[i] in items;
      var key, value := items[i], t.rows[items[i]];
      if IsBlank(value) {
        empty := empty + [key];
      }
      if rules.badPlaceholders(key, value) {
        bad := bad + [key];
      }
      if rules.fallback(f, key, value) {
        english := english + [key];
      }
    }
  }

  /** Append the messages for one kind of fault. */
  method Report(errors: seq<Error>, fault: KeyFault, f: nat, keys: seq<string>) returns (more: seq<Error>)
    ensures more == errors + Messages(fault, f, keys, |keys|)
  {
    more := errors;
    for i := 0 to |keys|
      invariant more == errors + Messages(fault, f, keys, i)
    {
      more := more + [KeyError(fault, f, keys[i])];
    }
  }

  method ReportMalformed(f: nat, lines: seq<nat>) returns (errors: seq<Error>)
    ensures errors == MalformedLines(f, lines, |lines|)
  {
    errors := [];
    for i := 0 to |lines|
      invariant errors == MalformedLines(f, lines, i)
    {
      errors := errors + [MalformedLine(f, lines[i])];
    }
  }

  lemma NextFault(f: nat, t: Table, canonical: seq<string>, rules: Rules, m: nat, fault: KeyFault)
    requires m < |FAULTS| && FAULTS[m] == fault
    ensures FileErrors(f, t, canonical, rules, m + 1)
         == FileErrors(f, t, canonical, rules, m) + FaultErrors(fault, f, t, canonical, rules)
  {
  }

  lemma SixFaults(f: nat, t: Table, canonical: seq<string>, rules: Rules)
    ensures FileErrors(f, t, canonical, rules, |FAULTS|)
         == MalformedLines(f, t.malformed, |t.malformed|)
            + FaultErrors(Duplicate, f, t, canonical, rules) + FaultErrors(Missing, f, t, canonical, rules)
            + FaultErrors(Extra, f, t, canonical, rules) + FaultErrors(EmptyTranslation, f, t, canonical, rules)
            + FaultErrors(BadPlaceholders, f, t, canonical, rules)
            + FaultErrors(EnglishFallback, f, t, canonical, rules)
  {
    NextFault(f, t, canonical, rules, 0, Duplicate);
    NextFault(f, t, canonical, rules, 1, Missing);
    NextFault(f, t, canonical, rules, 2, Extra);
    NextFault(f, t, canonical, rules, 3, EmptyTranslation);
    NextFault(f, t, canonical, rules, 4, BadPlaceholders);
    NextFault(f, t, canonical, rules, 5, EnglishFallback);
  }

  /** The body of the loop over the files. */
  method CheckFile(f: nat, t: Table, canonical: seq<string>, canonicalSet: set<string>, rules: Rules)
    returns (errors: seq<Error>)
    requires Rowed(t) && canonicalSet == set k | k in canonical
    ensures errors == FileErrors(f, t, canonical, rules, |FAULTS|)
  {
    SixFaults(f, t, canonical, rules);
    errors := ReportMalformed(f, t.malformed);
    var duplicates, items := Duplicates(f, t, canonical, rules);
    var missing := MissingKeys(f, t, canonical, rules);
    var extra := ExtraKeys(f, t, canonical, canonicalSet, rules);
    var empty, bad, english := BadValues(f, t, items, rules, canonical);
    errors := Report(errors, Duplicate, f, duplicates);
    errors := Report(errors, Missing, f, missing);
    errors := Report(errors, Extra, f, extra);
    errors := Report(errors, EmptyTranslation, f, empty);
    errors := Report(errors, BadPlaceholders, f, bad);
    errors := Report(errors, EnglishFallback, f, english);
  }

  /** `validate_strings`, on the parsed files. */
  method ValidateStrings(files: seq<Table>, preferred: Option<nat>, rules: Rules)
    returns (errors: seq<Error>, canonical: seq<string>)
    requires preferred.Some? ==> preferred.value < |files|
    requires forall f :: 0 <= f < |files| ==> Rowed(files[f])
    ensures IsCanonical(files, preferred, canonical)
    ensures errors == if canonical == [] then [NoStrings] else ErrorsUpTo(files, canonical, rules, |files|)
  {
    errors := [];
    canonical := CanonicalKeyOrder(files, preferred);
    var canonicalSet := set k | k in canonical;
    if |canonical| == 0 {
      errors := [NoStrings];
      return;
    }
    for f := 0 to |files|
      invariant errors == ErrorsUpTo(files, canonical, rules, f)
    {
      assert Rowed(files[f]);
      var more := CheckFile(f, files[f], canonical, canonicalSet, rules);
      errors := errors + more;
    }
  }

  // ----- what the checks mean

  /** A file whose keys are the canonical ones, each once. */
  ghost predicate SameKeys(t: Table, canonical: seq<string>) {
    multiset(t.order) == multiset(canonical)
  }

  ghost predicate KeyFaultFree(f: nat, files: seq<Table>, canonical: seq<string>, rules: Rules)
    requires f < |files|
  {
    forall k, fault :: fault in {Duplicate, Missing, Extra} ==> !Faulty(fault, f, files[f], canonical, rules, k)
  }

  lemma {:induction false} NoDuplicatesMultiset(ks: seq<string>)
    ensures NoDuplicates(ks) <==> forall k :: multiset(ks)[k] <= 1
  {
    if ks != [] {
      var before, last := ks[..|ks| - 1], ks[|ks| - 1];
      assert ks == before + [last];
      NoDuplicatesMultiset(before);
      if NoDuplicates(ks) {
        assert last !in before;
      } else if NoDuplicates(before) {
        var i, j :| 0 <= i < j < |ks| && ks[i] == ks[j];
        assert j == |ks| - 1 && before[i] == last;
        assert multiset(ks)[last] > 1;
      } else {
        var k :| multiset(before)[k] > 1;
        assert multiset(ks)[k] > 1;
      }
    }
  }

  /** For a duplicate-free canonical list the three key checks pass exactly when the key list of the file is
      a permutation of it. */
  lemma KeyChecksMeanPermutation(f: nat, files: seq<Table>, canonical: seq<string>, rules: Rules)
    requires f < |files| && NoDuplicates(canonical)
    requires Rowed(files[f])
    ensures KeyFaultFree(f, files, canonical, rules) <==> SameKeys(files[f], canonical)
  {
    var t := files[f];
    NoDuplicatesMultiset(canonical);
    if KeyFaultFree(f, files, canonical, rules) {
      forall k
        ensures multiset(t.order)[k] == multiset(canonical)[k]
      {
        assert !Faulty(Duplicate, f, t, canonical, rules, k);
        assert !Faulty(Missing, f, t, canonical, rules, k);
        assert !Faulty(Extra, f, t, canonical, rules, k);
        assert k in t.order <==> k in multiset(t.order);
        assert k in canonical <==> k in multiset(canonical);
      }
    }
    if SameKeys(t, canonical) {
      forall k
        ensures k in t.order <==> k in canonical
      {
        assert k in t.order <==> k in multiset(t.order);
        assert k in canonical <==> k in multiset(canonical);
      }
    }
  }

  /** A clean bill: in either canonical mode all files have the same keys, each exactly once, and every
      translation holds more than white space. */
  lemma CleanPacksAgree(files: seq<Table>, preferred: Option<nat>, canonical: seq<string>, rules: Rules)
    requires IsCanonical(files, preferred, canonical)
    requires forall f :: 0 <= f < |files| ==> Rowed(files[f])
    requires ErrorsUpTo(files, canonical, rules, |files|) == []
    ensures forall f :: 0 <= f < |files| ==> NoDuplicates(files[f].order) && SameKeys(files[f], canonical)
    ensures forall f, g :: 0 <= f < |files| && 0 <= g < |files| ==> multiset(files[f].order) == multiset(files[g].order)
    ensures forall f, k :: 0 <= f < |files| && k in files[f].rows ==> !IsBlank(files[f].rows[k])
  {
    forall f: nat | f < |files|
      ensures NoDuplicates(files[f].order) && SameKeys(files[f], canonical)
      ensures forall k :: k in files[f].rows ==> !IsBlank(files[f].rows[k])
    {
      CleanOrder(files, preferred, canonical, rules, f);
      forall k | k in files[f].rows
        ensures !IsBlank(files[f].rows[k])
      {
        CleanValue(files, canonical, rules, f, k);
      }
    }
  }

  lemma NoFault(files: seq<Table>, canonical: seq<string>, rules: Rules, f: nat, fault: KeyFault, k: string)
    requires ErrorsUpTo(files, canonical, rules, |files|) == []
    requires f < |files| && forall g :: 0 <= g < |files| ==> Rowed(files[g])
    ensures !Faulty(fault, f, files[f], canonical, rules, k)
  {
    ErrorsAreEarned(files, canonical, rules, |files|, KeyError(fault, f, k));
  }

  lemma CleanKeys(files: seq<Table>, canonical: seq<string>, rules: Rules, f: nat)
    requires ErrorsUpTo(files, canonical, rules, |files|) == []
    requires f < |files| && forall g :: 0 <= g < |files| ==> Rowed(files[g])
    ensures NoDuplicates(files[f].order) && KeyFaultFree(f, files, canonical, rules)
  {
    forall k, fault
      ensures !Faulty(fault, f, files[f], canonical, rules, k)
    {
      NoFault(files, canonical, rules, f, fault, k);
    }
    NoDuplicateFault(f, files[f], canonical, rules);
  }

  lemma NoDuplicateFault(f: nat, t: Table, canonical: seq<string>, rules: Rules)
    requires forall k :: !Faulty(Duplicate, f, t, canonical, rules, k)
    ensures NoDuplicates(t.order)
  {
    NoDuplicatesMultiset(t.order);
    forall k
      ensures multiset(t.order)[k] <= 1
    {
      assert !Faulty(Duplicate, f, t, canonical, rules, k);
    }
  }

  lemma CleanOrder(files: seq<Table>, preferred: Option<nat>, canonical: seq<string>, rules: Rules, f: nat)
    requires IsCanonical(files, preferred, canonical) && ErrorsUpTo(files, canonical, rules, |files|) == []
    requires f < |files| && forall g :: 0 <= g < |files| ==> Rowed(files[g])
    ensures NoDuplicates(files[f].order) && SameKeys(files[f], canonical)
  {
    CleanKeys(files, canonical, rules, f);
    if preferred.Some? {
      CleanKeys(files, canonical, rules, preferred.value);
    } else {
      DistinctHolds(AllKeys(files));
    }
    KeyChecksMeanPermutation(f, files, canonical, rules);
  }

  lemma CleanValue(files: seq<Table>, canonical: seq<string>, rules: Rules, f: nat, k: string)
    requires ErrorsUpTo(files, canonical, rules, |files|) == []
    requires f < |files| && (forall g :: 0 <= g < |files| ==> Rowed(files[g])) && k in files[f].rows
    ensures !IsBlank(files[f].rows[k])
  {
    NoFault(files, canonical, rules, f, EmptyTranslation, k);
  }

  /** Conversely, a file that is not a permutation of a duplicate-free canonical list is reported; and a
      canonical list with a repeated key is, because the file it was taken from is checked too. */
  lemma OddKeysAreReported(files: seq<Table>, preferred: Option<nat>, canonical: seq<string>, rules: Rules, f: nat)
    requires IsCanonical(files, preferred, canonical) && f < |files|
    requires forall f :: 0 <= f < |files| ==> Rowed(files[f])
    ensures NoDuplicates(canonical) && !SameKeys(files[f], canonical) ==>
              exists k, fault :: fault in {Duplicate, Missing, Extra}
                                 && KeyError(fault, f, k) in ErrorsUpTo(files, canonical, rules, |files|)
    ensures !NoDuplicates(canonical) ==>
              exists p, k :: KeyError(Duplicate, p, k) in ErrorsUpTo(files, canonical, rules, |files|)
  {
    DistinctHolds(AllKeys(files));
    if NoDuplicates(canonical) {
      KeyChecksMeanPermutation(f, files, canonical, rules);
      if !SameKeys(files[f], canonical) {
        var k, fault :| fault in {Duplicate, Missing, Extra} && Faulty(fault, f, files[f], canonical, rules, k);
        ErrorsAreEarned(files, canonical, rules, |files|, KeyError(fault, f, k));
      }
    } else {
      var p := preferred.value;
      NoDuplicatesMultiset(canonical);
      var k :| multiset(canonical)[k] > 1;
      ErrorsAreEarned(files, canonical, rules, |files|, KeyError(Duplicate, p, k));
    }
  }
}
