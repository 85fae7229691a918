/** What the string files of the locale packs must look like for `validate_strings` to list no error, and in which
    order it lists errors (tools/validate_locale_packs.py). */
module LocaleFiles {
  import opened Text
  import opened Wrappers
  import opened LocaleKeys

  // ----- files as lines

  predicate NeedsNoTab(line: string) {
    IsBlank(line) || line[0] == '#'
  }

  ghost predicate HasRow(lines: seq<string>, key: string) {
    exists i: nat :: i < |lines| && HasKey(lines[i], key)
  }

  /** Every line that is neither blank nor a comment has a tab, and no key is given twice. */
  ghost predicate WellFormed(lines: seq<string>) {
    && (forall i: nat :: i < |lines| ==> NeedsNoTab(lines[i]) || '\t' in lines[i])
    && forall i: nat, j: nat, k :: !GivenTwice(lines, i, j, k)
  }

  ghost predicate GivenTwice(lines: seq<string>, i: nat, j: nat, key: string) {
    i < j < |lines| && HasKey(lines[i], key) && HasKey(lines[j], key)
  }

  /** Every row has a text behind its first tab that the rules accept. */
  ghost predicate Translated(lines: seq<string>, rules: Rules, f: nat) {
    forall i: nat, k, v :: i < |lines| && RowOf(lines[i], k, v) ==> Acceptable(k, v, rules, f)
  }

  predicate Acceptable(key: string, value: string, rules: Rules, f: nat) {
    !IsBlank(value) && !rules.badPlaceholders(key, value) && !rules.fallback(f, key, value)
  }

  ghost predicate FileClean(lines: seq<string>, canonical: seq<string>, rules: Rules, f: nat) {
    && WellFormed(lines) && Translated(lines, rules, f)
    && forall k :: k in canonical <==> HasRow(lines, k)
  }

  // ----- what the parsed table says of them

  lemma OrderIs(lines: seq<string>, k: string)
    ensures k in Keys(lines) <==> HasRow(lines, k)
  {
    var at := KeysAre(lines);
    if k in Keys(lines) {
      var i :| 0 <= i < |Keys(lines)| && Keys(lines)[i] == k;
      assert HasKey(lines[at[i]], k);
    }
    if HasRow(lines, k) {
      var n: nat :| n < |lines| && HasKey(lines[n], k);
      assert n in at;
      var i :| 0 <= i < |at| && at[i] == n;
      OneKey(lines[n], k, Keys(lines)[i]);
    }
  }

  lemma OneKey(line: string, k: string, l: string)
    requires HasKey(line, k) && HasKey(line, l)
    ensures k == l
  {
    HasKeyMeans(line, k);
    HasKeyMeans(line, l);
  }

  lemma NoRepeats(lines: seq<string>)
    ensures NoDuplicates(Keys(lines)) <==> forall i: nat, j: nat, k :: !GivenTwice(lines, i, j, k)
  {
    var keys := Keys(lines);
    var at := KeysAre(lines);
    if i: nat, j: nat, k :| GivenTwice(lines, i, j, k) {
      TwiceInKeys(lines, keys, at, i, j, k);
    }
    if a, b :| 0 <= a < b < |keys| && keys[a] == keys[b] {
      assert GivenTwice(lines, at[a], at[b], keys[a]);
    }
  }

  lemma TwiceInKeys(lines: seq<string>, keys: seq<string>, at: seq<nat>, i: nat, j: nat, k: string)
    requires Placed(lines, keys, at) && Complete(lines, at) && GivenTwice(lines, i, j, k)
    ensures !NoDuplicates(keys)
  {
    var a := PlaceOf(lines, keys, at, i, k);
    var b := PlaceOf(lines, keys, at, j, k);
    assert a != b && keys[a] == keys[b];
  }

  lemma PlaceOf(lines: seq<string>, keys: seq<string>, at: seq<nat>, n: nat, k: string) returns (a: nat)
    requires Placed(lines, keys, at) && Complete(lines, at) && n < |lines| && HasKey(lines[n], k)
    ensures a < |at| && at[a] == n && keys[a] == k
  {
    assert n in at;
    a :| 0 <= a < |at| && at[a] == n;
    OneKey(lines[n], k, keys[a]);
  }

  lemma NoMalformed(lines: seq<string>)
    ensures Malformed(lines) == [] <==> forall i: nat :: i < |lines| ==> NeedsNoTab(lines[i]) || '\t' in lines[i]
  {
    if Malformed(lines) == [] {
      forall i: nat | i < |lines|
        ensures NeedsNoTab(lines[i]) || '\t' in lines[i]
      {
        MalformedAre(lines, i + 1);
      }
    } else {
      var l := Malformed(lines)[0];
      MalformedAre(lines, l);
      assert l in Malformed(lines);
    }
  }

  lemma RowIsKnown(lines: seq<string>, t: Table, i: nat, k: string, v: string)
    requires Parsed(lines, t) && i < |lines| && RowOf(lines[i], k, v)
    ensures k in t.rows
  {
    assert HasKey(lines[i], k);
    OrderIs(lines, k);
  }

  lemma OneRow(lines: seq<string>, i: nat, j: nat, k: string)
    requires NoDuplicates(Keys(lines)) && i < |lines| && j < |lines| && HasKey(lines[i], k) && HasKey(lines[j], k)
    ensures i == j
  {
    NoRepeats(lines);
    assert !GivenTwice(lines, i, j, k) && !GivenTwice(lines, j, i, k);
  }

  /** Where no key is given twice, the table holds the value of the one row of each. */
  lemma RowsAre(lines: seq<string>, t: Table, i: nat, k: string, v: string)
    requires Parsed(lines, t) && NoDuplicates(Keys(lines)) && i < |lines| && RowOf(lines[i], k, v)
    ensures k in t.rows && t.rows[k] == v
  {
    RowIsKnown(lines, t, i, k, v);
    var j := RowIsThere(lines, t, k);
    OneRow(lines, i, j, k);
    OneValue(lines[i], k, v, t.rows[k]);
  }

  lemma OneValue(line: string, k: string, v: string, w: string)
    requires RowOf(line, k, v) && RowOf(line, k, w)
    ensures v == w
  {
    RowOfMeans(line, k, v);
    RowOfMeans(line, k, w);
  }

  lemma RowIsThere(lines: seq<string>, t: Table, k: string) returns (i: nat)
    requires Parsed(lines, t) && k in t.rows
    ensures i < |lines| && RowOf(lines[i], k, t.rows[k])
  {
    i :| LastAt(lines, k, t.rows[k], i);
  }

  // ----- no errors

  ghost predicate FaultFree(f: nat, t: Table, canonical: seq<string>, rules: Rules) {
    t.malformed == [] && forall fault, k :: !Faulty(fault, f, t, canonical, rules, k)
  }

  lemma NoErrorsOfFile(f: nat, t: Table, canonical: seq<string>, rules: Rules)
    requires Rowed(t)
    ensures FileErrors(f, t, canonical, rules, |FAULTS|) == [] <==> FaultFree(f, t, canonical, rules)
  {
    var es := FileErrors(f, t, canonical, rules, |FAULTS|);
    if es == [] {
      NoErrorNoFault(f, t, canonical, rules);
    } else {
      FirstErrorEarned(f, t, canonical, rules, es[0]);
    }
  }

  lemma FirstErrorEarned(f: nat, t: Table, canonical: seq<string>, rules: Rules, e: Error)
    requires Rowed(t) && e in FileErrors(f, t, canonical, rules, |FAULTS|)
    ensures !FaultFree(f, t, canonical, rules)
  {
    FileErrorsAreEarned(f, t, canonical, rules, |FAULTS|, e);
  }

  lemma NoErrorNoFault(f: nat, t: Table, canonical: seq<string>, rules: Rules)
    requires Rowed(t) && FileErrors(f, t, canonical, rules, |FAULTS|) == []
    ensures FaultFree(f, t, canonical, rules)
  {
    if t.malformed != [] {
      FileErrorsAreEarned(f, t, canonical, rules, |FAULTS|, MalformedLine(f, t.malformed[0]));
    }
    forall fault, k
      ensures !Faulty(fault, f, t, canonical, rules, k)
    {
      FileErrorsAreEarned(f, t, canonical, rules, |FAULTS|, KeyError(fault, f, k));
      AllFaults(fault);
    }
  }

  lemma CleanIsFaultFree(lines: seq<string>, t: Table, canonical: seq<string>, rules: Rules, f: nat)
    requires Parsed(lines, t) && FileClean(lines, canonical, rules, f)
    ensures FaultFree(f, t, canonical, rules)
  {
    NoMalformed(lines);
    NoRepeats(lines);
    NoDuplicatesMultiset(t.order);
    forall fault, k
      ensures !Faulty(fault, f, t, canonical, rules, k)
    {
      OrderIs(lines, k);
      if k in t.rows {
        var i := RowIsThere(lines, t, k);
        assert Acceptable(k, t.rows[k], rules, f);
      }
    }
  }

  lemma FaultFreeIsClean(lines: seq<string>, t: Table, canonical: seq<string>, rules: Rules, f: nat)
    requires Parsed(lines, t) && FaultFree(f, t, canonical, rules)
    ensures FileClean(lines, canonical, rules, f)
  {
    NoMalformed(lines);
    NoDuplicateFault(f, t, canonical, rules);
    NoRepeats(lines);
    forall k
      ensures k in canonical <==> HasRow(lines, k)
    {
      OrderIs(lines, k);
      assert !Faulty(Missing, f, t, canonical, rules, k) && !Faulty(Extra, f, t, canonical, rules, k);
    }
    forall i: nat, k, v | i < |lines| && RowOf(lines[i], k, v)
      ensures Acceptable(k, v, rules, f)
    {
      RowsAre(lines, t, i, k, v);
      assert !Faulty(EmptyTranslation, f, t, canonical, rules, k);
      assert !Faulty(BadPlaceholders, f, t, canonical, rules, k);
      assert !Faulty(EnglishFallback, f, t, canonical, rules, k);
    }
  }

  /** A file has no errors exactly if its lines are well formed, its rows have exactly the canonical keys and every
      row a translation that the rules accept. */
  lemma CleanFile(lines: seq<string>, t: Table, canonical: seq<string>, rules: Rules, f: nat)
    requires Parsed(lines, t)
    ensures FileErrors(f, t, canonical, rules, |FAULTS|) == [] <==> FileClean(lines, canonical, rules, f)
  {
    NoErrorsOfFile(f, t, canonical, rules);
    if FileClean(lines, canonical, rules, f) {
      CleanIsFaultFree(lines, t, canonical, rules, f);
    }
    if FaultFree(f, t, canonical, rules) {
      FaultFreeIsClean(lines, t, canonical, rules, f);
    }
  }

  // ----- all files

  /** The tables of the files. */
  ghost predicate AllParsed(texts: seq<seq<string>>, files: seq<Table>) {
    |texts| == |files| && forall f: nat :: f < |files| ==> Parsed(texts[f], files[f])
  }

  /** The keys that count: those of the preferred file, or of any. */
  ghost predicate Counts(texts: seq<seq<string>>, preferred: Option<nat>, key: string) {
    match preferred
    case Some(p) => p < |texts| && HasRow(texts[p], key)
    case None => exists f: nat :: f < |texts| && HasRow(texts[f], key)
  }

  /** All files are well formed, all have the same keys, and every row is translated. */
  ghost predicate PacksClean(texts: seq<seq<string>>, rules: Rules) {
    && (forall f: nat :: f < |texts| ==> WellFormed(texts[f]) && Translated(texts[f], rules, f))
    && forall f: nat, g: nat, k :: f < |texts| && g < |texts| ==> (HasRow(texts[f], k) <==> HasRow(texts[g], k))
  }

  lemma CanonicalCounts(texts: seq<seq<string>>, files: seq<Table>, preferred: Option<nat>,
                        canonical: seq<string>, k: string)
    requires AllParsed(texts, files) && IsCanonical(files, preferred, canonical)
    ensures k in canonical <==> Counts(texts, preferred, k)
  {
    match preferred
    case Some(p) => OrderIs(texts[p], k);
    case None =>
      DistinctHolds(AllKeys(files));
      UnionHoldsAllKeys(files, k);
      forall f: nat | f < |files|
        ensures k in files[f].order <==> HasRow(texts[f], k)
      {
        OrderIs(texts[f], k);
      }
  }

  ghost predicate ErrorFree(files: seq<Table>, canonical: seq<string>, rules: Rules, f: nat) {
    f < |files| && FileErrors(f, files[f], canonical, rules, |FAULTS|) == []
  }

  ghost predicate AllRowed(files: seq<Table>) {
    forall f :: 0 <= f < |files| ==> Rowed(files[f])
  }

  lemma ErrorOfFile(files: seq<Table>, canonical: seq<string>, rules: Rules, f: nat, e: Error)
    requires AllRowed(files) && f < |files| && e in FileErrors(f, files[f], canonical, rules, |FAULTS|)
    ensures e in ErrorsUpTo(files, canonical, rules, |files|)
  {
    OneFile(files, canonical, rules, f, e);
    ErrorsAreEarned(files, canonical, rules, |files|, e);
  }

  lemma FileOfError(files: seq<Table>, canonical: seq<string>, rules: Rules, e: Error) returns (f: nat)
    requires AllRowed(files) && e in ErrorsUpTo(files, canonical, rules, |files|)
    ensures f < |files| && e in FileErrors(f, files[f], canonical, rules, |FAULTS|)
  {
    ErrorsAreEarned(files, canonical, rules, |files|, e);
    f := e.file;
    OneFile(files, canonical, rules, f, e);
  }

  lemma NoErrors(files: seq<Table>, canonical: seq<string>, rules: Rules, all: seq<Error>)
    requires AllRowed(files) && all == ErrorsUpTo(files, canonical, rules, |files|)
    ensures all == [] <==> forall f: nat :: f < |files| ==> ErrorFree(files, canonical, rules, f)
  {
    if all != [] {
      var f := FileOfError(files, canonical, rules, all[0]);
      assert !ErrorFree(files, canonical, rules, f);
    }
    if f: nat :| f < |files| && !ErrorFree(files, canonical, rules, f) {
      ErrorOfFile(files, canonical, rules, f, FileErrors(f, files[f], canonical, rules, |FAULTS|)[0]);
    }
  }

  lemma AllFilesClean(texts: seq<seq<string>>, files: seq<Table>, canonical: seq<string>, rules: Rules)
    requires AllParsed(texts, files)
    ensures ErrorsUpTo(files, canonical, rules, |files|) == [] <==>
            forall f: nat :: f < |texts| ==> FileClean(texts[f], canonical, rules, f)
  {
    NoErrors(files, canonical, rules, ErrorsUpTo(files, canonical, rules, |files|));
    forall f: nat | f < |files|
      ensures ErrorFree(files, canonical, rules, f) <==> FileClean(texts[f], canonical, rules, f)
    {
      CleanFile(texts[f], files[f], canonical, rules, f);
    }
  }

  lemma SameKeysAsCanonical(texts: seq<seq<string>>, files: seq<Table>, preferred: Option<nat>,
                            canonical: seq<string>, rules: Rules)
    requires AllParsed(texts, files) && IsCanonical(files, preferred, canonical)
    ensures (forall f: nat :: f < |texts| ==> FileClean(texts[f], canonical, rules, f)) <==> PacksClean(texts, rules)
  {
    forall k
      ensures k in canonical <==> Counts(texts, preferred, k)
    {
      CanonicalCounts(texts, files, preferred, canonical, k);
    }
    if PacksClean(texts, rules) {
      forall f: nat, k | f < |texts|
        ensures k in canonical <==> HasRow(texts[f], k)
      {
        assert k in canonical <==> Counts(texts, preferred, k);
      }
    }
  }

  /** From the text of the files to the verdict. */
  lemma CleanExactlyWhen(texts: seq<seq<string>>, files: seq<Table>, preferred: Option<nat>,
                         canonical: seq<string>, rules: Rules)
    requires AllParsed(texts, files) && IsCanonical(files, preferred, canonical)
    ensures ErrorsUpTo(files, canonical, rules, |files|) == [] <==> PacksClean(texts, rules)
    ensures canonical == [] <==> forall k :: !Counts(texts, preferred, k)
  {
    AllFilesClean(texts, files, canonical, rules);
    SameKeysAsCanonical(texts, files, preferred, canonical, rules);
    if canonical != [] {
      CanonicalCounts(texts, files, preferred, canonical, canonical[0]);
    }
    forall k
      ensures k in canonical <==> Counts(texts, preferred, k)
    {
      CanonicalCounts(texts, files, preferred, canonical, k);
    }
  }

  /** `validate_strings` over the lines of the files: no error exactly if there are keys at all, every line is well
      formed, no key is given twice in a file, all files have the same keys, and each row has an acceptable text
      behind its first tab. */
  method ValidateFiles(texts: seq<seq<string>>, preferred: Option<nat>, rules: Rules) returns (errors: seq<Error>)
    requires preferred.Some? ==> preferred.value < |texts|
    ensures errors == [] <==> (exists k :: Counts(texts, preferred, k)) && PacksClean(texts, rules)
  {
    var files: seq<Table> := [];
    for f := 0 to |texts|
      invariant AllParsed(texts[..f], files)
    {
      var t := ParseTsv(texts[f]);
      files := files + [t];
    }
    assert texts[..|texts|] == texts;
    var canonical;
    errors, canonical := ValidateStrings(files, preferred, rules);
    CleanExactlyWhen(texts, files, preferred, canonical, rules);
  }

  // ----- the order of the errors and of the canonical keys

  /** The checks in the order in which their errors are listed. */
  function Stage(e: Error): nat {
    match e
    case NoStrings => 0
    case MalformedLine(_, _) => 0
    case KeyError(fault, _, _) =>
      match fault
      case Duplicate => 1
      case Missing => 2
      case Extra => 3
      case EmptyTranslation => 4
      case BadPlaceholders => 5
      case EnglishFallback => 6
  }

  ghost predicate InStages(es: seq<Error>) {
    forall i, j :: 0 <= i < j < |es| ==> Stage(es[i]) <= Stage(es[j])
  }

  ghost predicate UpToStage(es: seq<Error>, m: nat) {
    forall i :: 0 <= i < |es| ==> Stage(es[i]) <= m
  }

  ghost predicate AtStage(es: seq<Error>, m: nat) {
    forall i :: 0 <= i < |es| ==> Stage(es[i]) == m
  }

  lemma MessagesAreOf(fault: KeyFault, f: nat, ks: seq<string>, n: nat)
    requires n <= |ks|
    ensures |Messages(fault, f, ks, n)| == n
    ensures forall i :: 0 <= i < n ==> Messages(fault, f, ks, n)[i] == KeyError(fault, f, ks[i])
  {
  }

  lemma MalformedLinesAreOf(f: nat, lines: seq<nat>, n: nat)
    requires n <= |lines|
    ensures |MalformedLines(f, lines, n)| == n
    ensures forall i :: 0 <= i < n ==> MalformedLines(f, lines, n)[i] == MalformedLine(f, lines[i])
  {
  }

  lemma StageOf(m: nat, f: nat, k: string)
    requires 0 < m <= |FAULTS|
    ensures Stage(KeyError(FAULTS[m - 1], f, k)) == m
  {
    assert m == 1 || m == 2 || m == 3 || m == 4 || m == 5 || m == 6;
  }

  lemma StagesJoin(a: seq<Error>, b: seq<Error>, m: nat)
    requires m > 0 && InStages(a) && UpToStage(a, m - 1) && AtStage(b, m)
    ensures InStages(a + b) && UpToStage(a + b, m)
  {
  }

  /** The errors of a file come check by check: lines without a tab, duplicate keys, missing ones, unknown ones, empty
      translations, placeholders, English left over. */
  lemma {:induction false} FileErrorsInOrder(f: nat, t: Table, canonical: seq<string>, rules: Rules, m: nat)
    requires m <= |FAULTS|
    ensures InStages(FileErrors(f, t, canonical, rules, m)) && UpToStage(FileErrors(f, t, canonical, rules, m), m)
  {
    if m == 0 {
      MalformedLinesAreOf(f, t.malformed, |t.malformed|);
    } else {
      FileErrorsInOrder(f, t, canonical, rules, m - 1);
      var ks := Found(FAULTS[m - 1], f, t, canonical, rules);
      StageOfErrors(m, f, ks);
      StagesJoin(FileErrors(f, t, canonical, rules, m - 1), Messages(FAULTS[m - 1], f, ks, |ks|), m);
    }
  }

  lemma StageOfErrors(m: nat, f: nat, ks: seq<string>)
    requires 0 < m <= |FAULTS|
    ensures AtStage(Messages(FAULTS[m - 1], f, ks, |ks|), m)
  {
    MessagesAreOf(FAULTS[m - 1], f, ks, |ks|);
    forall i | 0 <= i < |ks|
      ensures Stage(KeyError(FAULTS[m - 1], f, ks[i])) == m
    {
      StageOf(m, f, ks[i]);
    }
  }

  /** Number `i` of `found` is that at place `at[i]`, below `n`, and the places rise. */
  ghost predicate Picked(ks: seq<string>, n: nat, found: seq<string>, at: seq<nat>)
    requires n <= |ks|
  {
    && |at| == |found|
    && (forall i :: 0 <= i < |at| ==> at[i] < n && found[i] == ks[at[i]])
    && forall i, j :: 0 <= i < j < |at| ==> at[i] < at[j]
  }

  lemma PickNext(ks: seq<string>, n: nat, found: seq<string>, at: seq<nat>)
    requires 0 < n <= |ks| && Picked(ks, n - 1, found, at)
    ensures Picked(ks, n, found, at) && Picked(ks, n, found + [ks[n - 1]], at + [n - 1])
  {
  }

  /** Within a check, the keys come as they are examined, each as often, and none that has the fault is left out. */
  lemma {:induction false} FoundInOrder(fault: KeyFault, f: nat, t: Table, canonical: seq<string>, rules: Rules,
                                        ks: seq<string>, n: nat) returns (at: seq<nat>)
    requires n <= |ks|
    ensures Picked(ks, n, FaultyKeys(fault, f, t, canonical, rules, ks, n), at)
    ensures forall k: nat :: k < n && Faulty(fault, f, t, canonical, rules, ks[k]) ==> k in at
  {
    at := [];
    if n > 0 {
      at := FoundInOrder(fault, f, t, canonical, rules, ks, n - 1);
      PickNext(ks, n, FaultyKeys(fault, f, t, canonical, rules, ks, n - 1), at);
      if Faulty(fault, f, t, canonical, rules, ks[n - 1]) {
        at := at + [n - 1];
      }
    }
  }

  /** Missing keys are listed as in the canonical list, unknown ones as in the file, the others by first appearance. */
  lemma FoundOf(fault: KeyFault, f: nat, t: Table, canonical: seq<string>, rules: Rules) returns (at: seq<nat>)
    ensures var ks := if fault == Missing then canonical else if fault == Extra then t.order else Distinct(t.order);
            && Picked(ks, |ks|, Found(fault, f, t, canonical, rules), at)
            && forall k: nat :: k < |ks| && Faulty(fault, f, t, canonical, rules, ks[k]) ==> k in at
  {
    var ks := if fault == Missing then canonical else if fault == Extra then t.order else Distinct(t.order);
    at := FoundInOrder(fault, f, t, canonical, rules, ks, |ks|);
  }

  /** The keys of the files in the order of the files. */
  lemma {:induction false} AllKeysConcat(a: seq<Table>, b: seq<Table>)
    ensures AllKeys(a + b) == AllKeys(a) + AllKeys(b)
    decreases |b|
  {
    if b == [] {
      assert a + b == a;
    } else {
      var n := |b| - 1;
      AllKeysConcat(a, b[..n]);
      assert (a + b)[..|a + b| - 1] == a + b[..n];
      assert AllKeys(a) + (AllKeys(b[..n]) + b[n].order) == AllKeys(a) + AllKeys(b[..n]) + b[n].order;
    }
  }

  lemma AllKeysOfOne(t: Table)
    ensures AllKeys([t]) == t.order
  {
    assert [t][..0] == [] && [] + t.order == t.order;
  }
}
