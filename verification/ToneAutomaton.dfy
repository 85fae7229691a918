/** The tone automaton inside HeaderDetector, for any list of stages, and what it recognises. */
module ToneAutomaton {

  datatype Tone = Tone1100 | Tone1200 | Tone1300 | Tone1900 | NoTone

  /** `need` windows in a row must carry `tone`. */
  datatype Stage = Stage(tone: Tone, need: nat)

  datatype Auto = Auto(stage: nat, count: nat)

  ghost predicate Proper(stages: seq<Stage>) {
    forall i :: 0 <= i < |stages| ==> stages[i].need >= 1
  }

  function Step(stages: seq<Stage>, a: Auto, t: Tone): Auto {
    if a.stage >= |stages| then a
    else if t != stages[a.stage].tone then a.(count := 0)
    else if a.count + 1 >= stages[a.stage].need then Auto(a.stage + 1, 0)
    else a.(count := a.count + 1)
  }

  function Run(stages: seq<Stage>, ts: seq<Tone>): Auto {
    if ts == [] then Auto(0, 0) else Step(stages, Run(stages, ts[..|ts| - 1]), ts[|ts| - 1])
  }

  ghost predicate AllTone(ts: seq<Tone>, from: nat, n: nat, tone: Tone) {
    from + n <= |ts| && forall j :: from <= j < from + n ==> ts[j] == tone
  }

  /** The first `k` stages occur in `ts`: in order, disjoint, each in consecutive windows. */
  ghost predicate Occurs(stages: seq<Stage>, k: nat, ts: seq<Tone>)
    requires k <= |stages|
    decreases k, 1
  {
    k == 0 || exists i: nat :: OccursAt(stages, k, ts, i)
  }

  /** ... the last of them at window `i`. */
  ghost predicate OccursAt(stages: seq<Stage>, k: nat, ts: seq<Tone>, i: nat)
    requires 1 <= k <= |stages|
    decreases k, 0
  {
    && AllTone(ts, i, stages[k - 1].need, stages[k - 1].tone)
    && Occurs(stages, k - 1, ts[..i])
  }

  lemma {:induction false} OccursGrows(stages: seq<Stage>, k: nat, ts: seq<Tone>, n: nat)
    requires k <= |stages| && n <= |ts| && Occurs(stages, k, ts[..n])
    ensures Occurs(stages, k, ts)
  {
    if k > 0 {
      var i: nat :| OccursAt(stages, k, ts[..n], i);
      assert ts[..n][..i] == ts[..i];
      assert OccursAt(stages, k, ts, i);
    }
  }

  /** `start` is the first position by which the first `stage` stages have occurred. */
  ghost predicate EnteredAt(stages: seq<Stage>, stage: nat, ts: seq<Tone>, start: nat)
    requires stage <= |stages|
  {
    && start <= |ts| && Occurs(stages, stage, ts[..start])
    && forall n: nat :: n < start ==> !Occurs(stages, stage, ts[..n])
  }

  /** The automaton's state says which stages have occurred and how long the current run is. */
  ghost predicate Explains(stages: seq<Stage>, a: Auto, ts: seq<Tone>, start: nat) {
    && a.stage <= |stages|
    && EnteredAt(stages, a.stage, ts, start)
    && (a.stage < |stages| ==>
          && !Occurs(stages, a.stage + 1, ts)
          && start + a.count <= |ts| && a.count < stages[a.stage].need
          && AllTone(ts, |ts| - a.count, a.count, stages[a.stage].tone)
          && (start + a.count == |ts| || ts[|ts| - a.count - 1] != stages[a.stage].tone))
  }

  lemma {:induction false} Explained(stages: seq<Stage>, ts: seq<Tone>) returns (start: nat)
    requires Proper(stages)
    ensures Explains(stages, Run(stages, ts), ts, start)
  {
    if ts == [] {
      start := 0;
      assert |stages| > 0 ==> !Occurs(stages, 1, ts);
    } else {
      var before := ts[..|ts| - 1];
      start := Explained(stages, before);
      start := ExplainStep(stages, Run(stages, before), before, start, ts);
    }
  }

  lemma ExplainStep(stages: seq<Stage>, a: Auto, before: seq<Tone>, start: nat, ts: seq<Tone>) returns (start': nat)
    requires Proper(stages) && ts != [] && before == ts[..|ts| - 1] && Explains(stages, a, before, start)
    ensures Explains(stages, Step(stages, a, ts[|ts| - 1]), ts, start')
  {
    forall n: nat | n <= |before| ensures before[..n] == ts[..n] {}
    if a.stage == |stages| {
      start' := start;
    } else {
      var stage := stages[a.stage];
      var t := ts[|ts| - 1];
      if t == stage.tone && a.count + 1 >= stage.need {
        start' := |ts|;
        StageCompletes(stages, a, before, start, ts);
      } else {
        start' := start;
        StageContinues(stages, a, before, start, ts);
      }
    }
  }

  lemma StageCompletes(stages: seq<Stage>, a: Auto, before: seq<Tone>, start: nat, ts: seq<Tone>)
    requires Proper(stages) && ts != [] && before == ts[..|ts| - 1] && Explains(stages, a, before, start)
    requires a.stage < |stages| && ts[|ts| - 1] == stages[a.stage].tone && a.count + 1 >= stages[a.stage].need
    ensures Explains(stages, Auto(a.stage + 1, 0), ts, |ts|)
  {
    var k := a.stage + 1;
    var i := |ts| - stages[a.stage].need;
    assert ts[..i][..start] == before[..start];
    OccursGrows(stages, a.stage, ts[..i], start);
    assert OccursAt(stages, k, ts, i);
    assert ts[..|ts|] == ts;
    forall n: nat | n < |ts|
      ensures !Occurs(stages, k, ts[..n])
    {
      assert ts[..n] == before[..n];
      if Occurs(stages, k, before[..n]) {
        OccursGrows(stages, k, before, n);
      }
    }
    if k < |stages| {
      assert !Occurs(stages, k + 1, ts);
    }
  }

  lemma StageContinues(stages: seq<Stage>, a: Auto, before: seq<Tone>, start: nat, ts: seq<Tone>)
    requires Proper(stages) && ts != [] && before == ts[..|ts| - 1] && Explains(stages, a, before, start)
    requires a.stage < |stages|
    requires ts[|ts| - 1] != stages[a.stage].tone || a.count + 1 < stages[a.stage].need
    ensures Explains(stages, Step(stages, a, ts[|ts| - 1]), ts, start)
  {
    var k := a.stage + 1;
    var stage := stages[a.stage];
    forall n: nat | n <= start
      ensures ts[..n] == before[..n]
    {
    }
    assert start + a.count == |before| || ts[|before| - a.count - 1] != stage.tone;
    forall i: nat
      ensures !OccursAt(stages, k, ts, i)
    {
      if i + stage.need <= |before| {
        assert before[..i] == ts[..i];
        assert !OccursAt(stages, k, before, i);
      } else if i < start {
        assert !Occurs(stages, a.stage, ts[..i]);
      }
    }
  }

  /** The automaton has passed `k` stages exactly when those stages occur in the tones so far: it accepts
      nothing else, and being greedy costs it nothing. */
  lemma RecognisesOccurrence(stages: seq<Stage>, ts: seq<Tone>, k: nat)
    requires Proper(stages) && k <= |stages|
    ensures Run(stages, ts).stage >= k <==> Occurs(stages, k, ts)
  {
    var start := Explained(stages, ts);
    var s := Run(stages, ts).stage;
    if k <= s {
      OccursGrows(stages, s, ts, start);
      OccursDown(stages, s, k, ts);
    } else if Occurs(stages, k, ts) {
      OccursDown(stages, k, s + 1, ts);
    }
  }

  lemma {:induction false} OccursDown(stages: seq<Stage>, k: nat, m: nat, ts: seq<Tone>)
    requires m <= k <= |stages| && Occurs(stages, k, ts)
    ensures Occurs(stages, m, ts)
  {
    if m < k {
      var i: nat :| OccursAt(stages, k, ts, i);
      assert Occurs(stages, k - 1, ts[..i]);
      OccursGrows(stages, k - 1, ts, i);
      OccursDown(stages, k - 1, m, ts);
    }
  }
}
