/** `Stats`, `count_c_like_lines` over a file and the aggregation of `main` (scripts/code_stats.py). */
module CodeStats {
  import opened Text
  import opened LineScanner

  /** The value of a Stats object. */
  datatype Counts = Counts(files: nat, total: nat, code: nat, comment: nat, blank: nat) {
    function Plus(other: Counts): Counts {
      Counts(files + other.files, total + other.total, code + other.code, comment + other.comment, blank + other.blank)
    }
  }

  const ZERO := Counts(0, 0, 0, 0, 0)

  /** Field by field. */
  lemma PlusAdds(a: Counts, b: Counts)
    ensures var c := a.Plus(b);
            && c.files - a.files == b.files && c.total - a.total == b.total && c.code - a.code == b.code
            && c.comment - a.comment == b.comment && c.blank - a.blank == b.blank
  {
  }

  class Stats {
    var files: nat
    var total: nat
    var code: nat
    var comment: nat
    var blank: nat

    function Value(): Counts
      reads this
    {
      Counts(files, total, code, comment, blank)
    }

    constructor (files: nat)
      ensures Value() == Counts(files, 0, 0, 0, 0)
    {
      this.files, total, code, comment, blank := files, 0, 0, 0, 0;
    }

    constructor Of(c: Counts)
      ensures Value() == c
    {
      files, total, code, comment, blank := c.files, c.total, c.code, c.comment, c.blank;
    }

    /** The increments for one line of a file. */
    method CountLine(k: Kind)
      modifies this
      ensures Value() == Bump(old(Value()), k)
    {
      total := total + 1;
      match k {
        case CodeLine => code := code + 1;
        case CommentLine => comment := comment + 1;
        case BlankLine => blank := blank + 1;
      }
    }

    /** Also when an object is added to itself. */
    method Add(other: Stats)
      modifies this
      ensures Value() == old(Value()).Plus(old(other.Value()))
    {
      files := files + other.files;
      total := total + other.total;
      code := code + other.code;
      comment := comment + other.comment;
      blank := blank + other.blank;
    }
  }

  // ----- one file

  function Count(ks: seq<Kind>, k: Kind): nat {
    if ks == [] then 0 else (if ks[0] == k then 1 else 0) + Count(ks[1..], k)
  }

  function FileCounts(lines: seq<string>): Counts {
    var ks := Kinds(lines, false);
    Counts(1, |lines|, Count(ks, CodeLine), Count(ks, CommentLine), Count(ks, BlankLine))
  }

  /** Every line is one of the three kinds: the counts add up to the total. */
  lemma {:induction false} CountsAddUp(ks: seq<Kind>)
    ensures Count(ks, CodeLine) + Count(ks, CommentLine) + Count(ks, BlankLine) == |ks|
  {
    if ks != [] {
      CountsAddUp(ks[1..]);
    }
  }

  /** One more line of kind `k`. */
  function Bump(c: Counts, k: Kind): Counts {
    var d := c.(total := c.total + 1);
    match k
    case CodeLine => d.(code := d.code + 1)
    case CommentLine => d.(comment := d.comment + 1)
    case BlankLine => d.(blank := d.blank + 1)
  }

  function BumpAll(c: Counts, ks: seq<Kind>): Counts
    decreases |ks|
  {
    if ks == [] then c else BumpAll(Bump(c, ks[0]), ks[1..])
  }

  lemma {:induction false} BumpAllCounts(c: Counts, ks: seq<Kind>)
    ensures BumpAll(c, ks) == Counts(c.files, c.total + |ks|, c.code + Count(ks, CodeLine),
                                     c.comment + Count(ks, CommentLine), c.blank + Count(ks, BlankLine))
    decreases |ks|
  {
    if ks != [] {
      BumpAllCounts(Bump(c, ks[0]), ks[1..]);
    }
  }

  /** `count_c_like_lines`, line by line. */
  method CountCLikeLines(lines: seq<string>) returns (stats: Stats)
    ensures fresh(stats) && stats.Value() == FileCounts(lines)
    ensures stats.total == stats.code + stats.comment + stats.blank
  {
    stats := new Stats(1);
    var inBlock := false;
    ghost var ks := Kinds(lines, false);
    for n := 0 to |lines|
      invariant ks[n..] == Kinds(lines[n..], inBlock)
      invariant BumpAll(stats.Value(), ks[n..]) == BumpAll(Counts(1, 0, 0, 0, 0), ks)
    {
      var line := WithoutLineEnd(lines[n]);
      NextKind(lines, inBlock, ks, n);
      if IsBlank(line) && !inBlock {
        BlankScans(Start(false), line);
        stats.CountLine(BlankLine);
        continue;
      }
      var scanned := ScanLine(line, inBlock);
      inBlock := scanned.inBlock;
      if scanned.hasCode {
        stats.CountLine(CodeLine);
      } else if scanned.hasComment || inBlock {
        stats.CountLine(CommentLine);
      } else {
        stats.CountLine(BlankLine);
      }
    }
    BumpAllCounts(stats.Value(), []);
    BumpAllCounts(Counts(1, 0, 0, 0, 0), ks);
    CountsAddUp(ks);
  }

  lemma NextKind(lines: seq<string>, inBlock: bool, ks: seq<Kind>, n: nat)
    requires n < |lines| == |ks| && ks[n..] == Kinds(lines[n..], inBlock)
    ensures var o := Scanned(Start(inBlock), WithoutLineEnd(lines[n]));
            && ks[n] == KindOf(o) && ks[n + 1..] == Kinds(lines[n + 1..], o.inBlock)
            && ks[n..] == [ks[n]] + ks[n + 1..]
  {
    assert lines[n..][1..] == lines[n + 1..] && ks[n..][1..] == ks[n + 1..];
  }

  // ----- all files

  /** A counted file: its language, its top-level directory and its counts. */
  datatype Entry = Entry(language: string, dir: string, counts: Counts)

  function Total(es: seq<Entry>): Counts {
    if es == [] then ZERO else Total(es[..|es| - 1]).Plus(es[|es| - 1].counts)
  }

  function Key(e: Entry, byDir: bool): string {
    if byDir then e.dir else e.language
  }

  /** The sum over the files of one group. */
  function GroupTotal(es: seq<Entry>, byDir: bool, key: string): Counts {
    if es == [] then
      ZERO
    else
      var before := GroupTotal(es[..|es| - 1], byDir, key);
      if Key(es[|es| - 1], byDir) == key then before.Plus(es[|es| - 1].counts) else before
  }

  function GroupKeys(es: seq<Entry>, byDir: bool): set<string> {
    set i | 0 <= i < |es| :: Key(es[i], byDir)
  }

  /** The sum of the groups' sums, the groups taken in any order. */
  function SumOfGroups(es: seq<Entry>, byDir: bool, keys: seq<string>): Counts {
    if keys == [] then ZERO else GroupTotal(es, byDir, keys[0]).Plus(SumOfGroups(es, byDir, keys[1..]))
  }

  /** Grouping loses nothing: over the groups of the files, by language or by directory, in any order, the
      sums add up to the sum over all files. */
  lemma {:induction false} GroupsAddUp(es: seq<Entry>, byDir: bool, keys: seq<string>)
    requires GroupKeys(es, byDir) <= set k | k in keys
    requires forall i, j :: 0 <= i < j < |keys| ==> keys[i] != keys[j]
    ensures SumOfGroups(es, byDir, keys) == Total(es)
  {
    if es == [] {
      NoFiles(es, byDir, keys);
    } else {
      var before, last := es[..|es| - 1], es[|es| - 1];
      var key := Key(last, byDir);
      assert GroupKeys(before, byDir) <= GroupKeys(es, byDir) by {
        forall i | 0 <= i < |before| ensures Key(before[i], byDir) == Key(es[i], byDir) {}
      }
      assert key in GroupKeys(es, byDir);
      GroupsAddUp(before, byDir, keys);
      OneMore(es, byDir, keys);
    }
  }

  lemma {:induction false} NoFiles(es: seq<Entry>, byDir: bool, keys: seq<string>)
    requires es == []
    ensures SumOfGroups(es, byDir, keys) == ZERO
  {
    if keys != [] {
      NoFiles(es, byDir, keys[1..]);
      assert GroupTotal(es, byDir, keys[0]) == ZERO;
    }
  }

  /** One more file adds its counts to the sum iff its key is among the keys. */
  lemma {:induction false} OneMore(es: seq<Entry>, byDir: bool, keys: seq<string>)
    requires es != [] && forall i, j :: 0 <= i < j < |keys| ==> keys[i] != keys[j]
    ensures var before, last := es[..|es| - 1], es[|es| - 1];
            var sum := SumOfGroups(before, byDir, keys);
            SumOfGroups(es, byDir, keys) == if Key(last, byDir) in keys then sum.Plus(last.counts) else sum
  {
    if keys != [] {
      OneMore(es, byDir, keys[1..]);
      assert keys == [keys[0]] + keys[1..];
    }
  }

  /** The sums held by a dictionary of Stats objects, one object per key. */
  ghost predicate Sums(m: map<string, Stats>, es: seq<Entry>, byDir: bool)
    reads m.Values
  {
    forall k :: k in m ==> m[k].Value() == GroupTotal(es, byDir, k)
  }

  ghost predicate Distinct(m: map<string, Stats>) {
    forall k, l :: k in m && l in m && k != l ==> m[k] != m[l]
  }

  /** ... for exactly the groups of the files. */
  ghost predicate Holds(m: map<string, Stats>, es: seq<Entry>, byDir: bool)
    reads m.Values
  {
    m.Keys == GroupKeys(es, byDir) && Sums(m, es, byDir) && Distinct(m)
  }

  /** `groups.setdefault(key, Stats())`. */
  method SetDefault(m: map<string, Stats>, key: string, ghost es: seq<Entry>, ghost byDir: bool)
    returns (m': map<string, Stats>)
    requires Holds(m, es, byDir)
    ensures m'.Keys == m.Keys + {key} && Sums(m', es, byDir) && Distinct(m')
    ensures m'[key] in m.Values || fresh(m'[key])
    ensures forall k :: k in m ==> m'[k] == m[k]
  {
    if key in m {
      return m;
    }
    NoSuchGroup(es, byDir, key);
    var group := new Stats(0);
    m' := m[key := group];
  }

  /** `groups.setdefault(key, Stats()).add(stat)`. */
  method AddTo(m: map<string, Stats>, key: string, stat: Stats, ghost es: seq<Entry>, ghost byDir: bool, ghost e: Entry)
    returns (m': map<string, Stats>)
    requires Holds(m, es, byDir) && key == Key(e, byDir) && stat.Value() == e.counts && stat !in m.Values
    modifies m.Values
    ensures Holds(m', es + [e], byDir) && fresh(m'.Values - m.Values)
    ensures stat.Value() == e.counts
  {
    m' := SetDefault(m, key, es, byDir);
    GroupsGrow(es, byDir, e);
    AddOne(m', key, stat, es, byDir, e);
  }

  method AddOne(m: map<string, Stats>, key: string, stat: Stats,
                ghost es: seq<Entry>, ghost byDir: bool, ghost e: Entry)
    requires key in m && Sums(m, es, byDir) && Distinct(m)
    requires key == Key(e, byDir) && stat.Value() == e.counts && stat != m[key]
    modifies m[key]
    ensures Sums(m, es + [e], byDir)
  {
    GroupsGrow(es, byDir, e);
    m[key].Add(stat);
  }

  lemma GroupsGrow(es: seq<Entry>, byDir: bool, e: Entry)
    ensures GroupKeys(es + [e], byDir) == GroupKeys(es, byDir) + {Key(e, byDir)}
    ensures forall k :: GroupTotal(es + [e], byDir, k)
                     == if Key(e, byDir) == k then GroupTotal(es, byDir, k).Plus(e.counts) else GroupTotal(es, byDir, k)
    ensures Total(es + [e]) == Total(es).Plus(e.counts)
  {
    var es' := es + [e];
    assert es'[..|es'| - 1] == es;
    forall k
      ensures k in GroupKeys(es', byDir) <==> k in GroupKeys(es, byDir) + {Key(e, byDir)}
    {
      if k in GroupKeys(es, byDir) {
        var i :| 0 <= i < |es| && Key(es[i], byDir) == k;
        assert es'[i] == es[i];
      }
      assert es'[|es|] == e;
    }
  }

  lemma {:induction false} NoSuchGroup(es: seq<Entry>, byDir: bool, key: string)
    requires key !in GroupKeys(es, byDir)
    ensures GroupTotal(es, byDir, key) == ZERO
  {
    if es != [] {
      var before := es[..|es| - 1];
      assert forall i :: 0 <= i < |before| ==> Key(before[i], byDir) == Key(es[i], byDir);
      NoSuchGroup(before, byDir, key);
      assert Key(es[|es| - 1], byDir) != key;
    }
  }

  /** The sums `main` keeps, in separate objects. */
  ghost predicate Kept(all: Stats, languages: map<string, Stats>, dirs: map<string, Stats>, es: seq<Entry>, byDir: bool)
    reads all, languages.Values, dirs.Values
  {
    && all !in languages.Values && all !in dirs.Values && languages.Values !! dirs.Values
    && all.Value() == Total(es)
    && Holds(languages, es, false)
    && (if byDir then Holds(dirs, es, true) else dirs == map[])
  }

  /** `all_stats.add(stat)` and the addition to the language's sum. */
  method AddLanguage(all: Stats, languages: map<string, Stats>, language: string, stat: Stats,
                     ghost es: seq<Entry>, ghost e: Entry)
    returns (languages': map<string, Stats>)
    requires all !in languages.Values && stat !in languages.Values && all != stat
    requires all.Value() == Total(es) && Holds(languages, es, false) && stat.Value() == e.counts
    requires language == e.language
    modifies all, languages.Values
    ensures all !in languages'.Values && all.Value() == Total(es + [e]) && Holds(languages', es + [e], false)
    ensures fresh(languages'.Values - languages.Values) && stat.Value() == e.counts
  {
    GroupsGrow(es, false, e);
    all.Add(stat);
    languages' := AddTo(languages, language, stat, es, false, e);
  }

  /** The body of that loop. */
  method AddEntry(all: Stats, languages: map<string, Stats>, dirs: map<string, Stats>,
                  ghost es: seq<Entry>, byDir: bool, e: Entry)
    returns (languages': map<string, Stats>, dirs': map<string, Stats>)
    requires Kept(all, languages, dirs, es, byDir)
    modifies all, languages.Values, dirs.Values
    ensures Kept(all, languages', dirs', es + [e], byDir)
    ensures fresh(languages'.Values - languages.Values) && fresh(dirs'.Values - dirs.Values)
  {
    var stat := new Stats.Of(e.counts);
    languages' := AddLanguage(all, languages, e.language, stat, es, e);
    if byDir {
      assert Holds(dirs, es, true);
      dirs' := AddTo(dirs, e.dir, stat, es, true, e);
    } else {
      dirs' := dirs;
    }
  }

  /** The sum over the files of one language. */
  function LanguageTotal(es: seq<Entry>, language: string): Counts {
    if es == [] then
      ZERO
    else
      var before, e := LanguageTotal(es[..|es| - 1], language), es[|es| - 1];
      if e.language == language then before.Plus(e.counts) else before
  }

  /** The sum over the files in one directory. */
  function DirTotal(es: seq<Entry>, dir: string): Counts {
    if es == [] then
      ZERO
    else
      var before, e := DirTotal(es[..|es| - 1], dir), es[|es| - 1];
      if e.dir == dir then before.Plus(e.counts) else before
  }

  lemma {:induction false} GroupsAre(es: seq<Entry>, key: string)
    ensures GroupTotal(es, false, key) == LanguageTotal(es, key)
    ensures GroupTotal(es, true, key) == DirTotal(es, key)
  {
    if es != [] {
      GroupsAre(es[..|es| - 1], key);
    }
  }

  /** The sums by language and by directory, each with its own files. */
  ghost predicate Grouped(entries: seq<Entry>, byDir: bool, languages: map<string, Stats>, dirs: map<string, Stats>)
    reads languages.Values, dirs.Values
  {
    && (forall k :: k in languages <==> exists i :: 0 <= i < |entries| && entries[i].language == k)
    && (forall k :: k in languages ==> languages[k].Value() == LanguageTotal(entries, k))
    && (forall k :: k in dirs <==> byDir && exists i :: 0 <= i < |entries| && entries[i].dir == k)
    && (forall k :: k in dirs ==> dirs[k].Value() == DirTotal(entries, k))
  }

  lemma HoldsGrouped(entries: seq<Entry>, byDir: bool, languages: map<string, Stats>, dirs: map<string, Stats>)
    requires Holds(languages, entries, false) && if byDir then Holds(dirs, entries, true) else dirs == map[]
    ensures Grouped(entries, byDir, languages, dirs)
  {
    forall k
      ensures GroupTotal(entries, false, k) == LanguageTotal(entries, k)
      ensures GroupTotal(entries, true, k) == DirTotal(entries, k)
    {
      GroupsAre(entries, k);
    }
    forall k
      ensures k in GroupKeys(entries, false) <==> exists i :: 0 <= i < |entries| && entries[i].language == k
      ensures k in GroupKeys(entries, true) <==> exists i :: 0 <= i < |entries| && entries[i].dir == k
    {
      KeysAre(entries, k);
    }
  }

  lemma KeysAre(entries: seq<Entry>, k: string)
    ensures k in GroupKeys(entries, false) <==> exists i :: 0 <= i < |entries| && entries[i].language == k
    ensures k in GroupKeys(entries, true) <==> exists i :: 0 <= i < |entries| && entries[i].dir == k
  {
    if i :| 0 <= i < |entries| && entries[i].language == k {
      assert Key(entries[i], false) == k;
    }
    if i :| 0 <= i < |entries| && entries[i].dir == k {
      assert Key(entries[i], true) == k;
    }
  }

  /** The loop of `main`: the overall sum, the sums by language and, if asked for, by directory. */
  method Aggregate(entries: seq<Entry>, byDir: bool)
    returns (all: Stats, languages: map<string, Stats>, dirs: map<string, Stats>)
    ensures all.Value() == Total(entries)
    ensures Holds(languages, entries, false)
    ensures if byDir then Holds(dirs, entries, true) else dirs == map[]
    ensures Grouped(entries, byDir, languages, dirs)
  {
    all := new Stats(0);
    languages, dirs := map[], map[];
    for n := 0 to |entries|
      invariant fresh(all) && fresh(languages.Values) && fresh(dirs.Values)
      invariant Kept(all, languages, dirs, entries[..n], byDir)
    {
      assert entries[..n + 1] == entries[..n] + [entries[n]];
      languages, dirs := AddEntry(all, languages, dirs, entries[..n], byDir, entries[n]);
    }
    assert entries[..|entries|] == entries;
    HoldsGrouped(entries, byDir, languages, dirs);
  }
}
