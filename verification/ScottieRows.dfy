/** The log of a run in itself: its stretches are consecutive pieces of the samples heard, whole or cut off only
    by a sync in the last quarter of Blue, and in order. With that, every row of every run is a function of
    the samples. */
module ScottieRows {
  import opened ScottieModel
  import opened ScottieClock
  import opened ScottieRuns
  import opened ScottiePicture
  import opened ScottieLog

  // ----- stretches

  function End(s: Stretch): nat
    requires s.Stretch?
  {
    s.at + |s.ms|
  }

  /** The stretch is a piece of the samples heard, with lengths a timing scale can give. */
  ghost predicate Piece(heard: seq<int>, s: Stretch) {
    s.Stretch? ==>
      && End(s) <= |heard| && s.ms == heard[s.at..End(s)]
      && 5791 <= s.color <= 6401 && 54 <= s.window <= 60 && s.from <= s.color
  }

  ghost predicate Whole(s: Stretch) {
    s.Stretch? && s.from == 0 && |s.ms| == s.color
  }

  /** Whole, or cut off in the last quarter. */
  ghost predicate WholeOrCut(s: Stretch) {
    s.Stretch? && s.from == 0 && s.color - s.color / 4 <= |s.ms| <= s.color
  }

  ghost predicate ToTheEnd(s: Stretch) {
    s.Stretch? && |s.ms| == PhaseLength(s.color, s.from)
  }

  ghost predicate InOrder(a: Stretch, b: Stretch) {
    a.Stretch? && b.Stretch? ==> End(a) <= b.at
  }

  ghost predicate Pieces(heard: seq<int>, ss: Stretches) {
    && Piece(heard, ss.green) && Piece(heard, ss.blue) && Piece(heard, ss.red)
    && InOrder(ss.green, ss.blue) && InOrder(ss.blue, ss.red) && InOrder(ss.green, ss.red)
  }

  /** A complete line. Of the first line of a frame only Red is seen. */
  ghost predicate Complete(line: nat, ss: Stretches) {
    && ToTheEnd(ss.red)
    && if line == 0 then ss.green == Unseen && ss.blue == Unseen else Whole(ss.green) && WholeOrCut(ss.blue)
  }

  /** The samples of a stretch are not before index `n`. */
  ghost predicate NotBefore(n: nat, s: Stretch) {
    s.Stretch? ==> n <= s.at
  }

  ghost predicate NoneBefore(n: nat, ss: Stretches) {
    NotBefore(n, ss.green) && NotBefore(n, ss.blue) && NotBefore(n, ss.red)
  }

  ghost predicate RowsInOrder(heard: seq<int>, rows: seq<Row>) {
    && (forall y: nat :: y < |rows| ==> Pieces(heard, rows[y].parts) && Complete(rows[y].line, rows[y].parts))
    && (forall x: nat, y: nat :: x < y < |rows| ==> NoneBefore(End(rows[x].parts.red), rows[y].parts))
  }

  // ----- the log's invariant

  /** The phase in progress reaches to the last sample heard. */
  ghost predicate Current(l: Log, s: Stretch) {
    && s.Stretch? && End(s) == |l.heard| && s.color == l.timing.color
    && l.clock.phaseSamples == s.from + |s.ms| && |s.ms| < PhaseLength(s.color, s.from)
  }

  /** The part of phase `p`: none before the phase, under way in it. */
  ghost predicate PartInPhase(l: Log, p: Phase, s: Stretch) {
    && (PhasesLeft(l.clock.phase) > PhasesLeft(p) ==> s == Unseen)
    && (l.clock.phase == p ==> Current(l, s))
    && (l.clock.phase == Idle ==> s == Unseen)
  }

  ghost predicate PartsInPhase(l: Log) {
    && PartInPhase(l, Green, l.parts.green) && PartInPhase(l, Blue, l.parts.blue) && PartInPhase(l, Red, l.parts.red)
    && (if l.clock.line == 0 then
          l.parts.green == Unseen && l.parts.blue == Unseen && l.clock.phase in {Sync, Porch3, Red}
        else
          && (l.clock.phase == Green ==> l.parts.green.from == 0)
          && (l.clock.phase == Blue ==> l.parts.blue.from == 0)
          && (l.clock.phase in {Porch2, Blue, Sync, Porch3, Red} ==> Whole(l.parts.green))
          && (l.clock.phase in {Sync, Porch3, Red} ==> WholeOrCut(l.parts.blue)))
  }

  /** The parts come behind all rows. */
  ghost predicate BehindRows(rows: seq<Row>, ss: Stretches, n: nat) {
    forall y: nat :: y < |rows| && rows[y].parts.red.Stretch? ==>
      End(rows[y].parts.red) <= n && NoneBefore(End(rows[y].parts.red), ss)
  }

  ghost predicate LogSound(l: Log) {
    && Bounded(l.timing) && InFrame(l.timing, l.clock)
    && Pieces(l.heard, l.parts) && PartsInPhase(l)
    && RowsInOrder(l.heard, l.rows) && BehindRows(l.rows, l.parts, |l.heard|)
  }

  lemma StartSound(t0: Timing, offset: nat)
    requires InScale(t0.scale)
    ensures LogSound(LogStart(t0, offset))
  {
    ScaledLengths(t0.scale);
  }

  lemma PieceGrows(heard: seq<int>, mono: int, s: Stretch)
    requires Piece(heard, s)
    ensures Piece(heard + [mono], s)
    ensures s.Stretch? && End(s) == |heard| ==> Piece(heard + [mono], Grown(s, mono))
  {
    if s.Stretch? {
      assert (heard + [mono])[s.at..End(s)] == s.ms;
      if End(s) == |heard| {
        assert (heard + [mono])[s.at..End(s) + 1] == s.ms + [mono];
      }
    }
  }

  lemma PiecesGrow(heard: seq<int>, mono: int, ss: Stretches)
    requires Pieces(heard, ss)
    ensures Pieces(heard + [mono], ss)
  {
    PieceGrows(heard, mono, ss.green);
    PieceGrows(heard, mono, ss.blue);
    PieceGrows(heard, mono, ss.red);
  }

  lemma RowsGrow(heard: seq<int>, mono: int, rows: seq<Row>)
    requires RowsInOrder(heard, rows)
    ensures RowsInOrder(heard + [mono], rows)
  {
    forall y: nat | y < |rows|
      ensures Pieces(heard + [mono], rows[y].parts)
    {
      PiecesGrow(heard, mono, rows[y].parts);
    }
  }

  lemma TakingSound(l: Log, mono: int)
    requires LogSound(l)
    ensures Pieces(l.heard + [mono], Taking(l, mono))
    ensures BehindRows(l.rows, Taking(l, mono), |l.heard| + 1)
  {
    PieceGrows(l.heard, mono, l.parts.green);
    PieceGrows(l.heard, mono, l.parts.blue);
    PieceGrows(l.heard, mono, l.parts.red);
  }

  /** A new stretch starts behind everything heard. */
  lemma EnteredSound(t: Timing, heard: seq<int>, ss: Stretches, before: Phase, c: Clock)
    requires Pieces(heard, ss) && Bounded(t) && c.phaseSamples <= t.color
    requires IsColor(c.phase) && c.phase != before ==> PartOf(ss, c.phase) == Unseen
    requires c.phase == Green && before != Green ==> ss.blue == Unseen && ss.red == Unseen
    requires c.phase == Blue && before != Blue ==> ss.red == Unseen
    ensures Pieces(heard, Entered(t, ss, before, c, |heard|))
  {
  }

  lemma EnteredBehind(t: Timing, rows: seq<Row>, ss: Stretches, before: Phase, c: Clock, at: nat)
    requires BehindRows(rows, ss, at)
    ensures BehindRows(rows, Entered(t, ss, before, c, at), at)
  {
  }

  /** A sample that does not end the line. */
  lemma SampleInLine(l: Log, mono: int)
    requires LogSound(l) && l.clock.phase != Idle
    requires l.clock.phase == Red ==> l.clock.phaseSamples + 1 < l.timing.color
    ensures LogSound(LogSample(l, mono))
  {
    TickCounts(l.timing, l.clock);
    PiecesMoveOn(l, mono);
    RowsGrow(l.heard, mono, l.rows);
    PhasesMoveOn(l, mono);
  }

  lemma PiecesMoveOn(l: Log, mono: int)
    requires LogSound(l) && l.clock.phase != Idle
    requires l.clock.phase == Red ==> l.clock.phaseSamples + 1 < l.timing.color
    ensures var l' := LogSample(l, mono);
            Pieces(l'.heard, l'.parts) && BehindRows(l'.rows, l'.parts, |l'.heard|) && l'.rows == l.rows
  {
    var heard, c := l.heard + [mono], Tick(l.timing, l.clock);
    TakingSound(l, mono);
    TakenBefore(l, mono, c);
    EnteredSound(l.timing, heard, Taking(l, mono), l.clock.phase, c);
    EnteredBehind(l.timing, l.rows, Taking(l, mono), l.clock.phase, c, |heard|);
  }

  /** A phase that is entered, and those after it, have left nothing yet. */
  lemma TakenBefore(l: Log, mono: int, c: Clock)
    requires LogSound(l) && l.clock.phase != Idle && c == Tick(l.timing, l.clock)
    requires l.clock.phase == Red ==> l.clock.phaseSamples + 1 < l.timing.color
    ensures c.phaseSamples <= l.timing.color
    ensures var ss := Taking(l, mono);
            && (IsColor(c.phase) && c.phase != l.clock.phase ==> PartOf(ss, c.phase) == Unseen)
            && (c.phase == Green && l.clock.phase != Green ==> ss.blue == Unseen && ss.red == Unseen)
            && (c.phase == Blue && l.clock.phase != Blue ==> ss.red == Unseen)
  {
  }

  lemma PhasesMoveOn(l: Log, mono: int)
    requires LogSound(l) && l.clock.phase != Idle
    requires l.clock.phase == Red ==> l.clock.phaseSamples + 1 < l.timing.color
    ensures PartsInPhase(LogSample(l, mono))
  {
    if IsColor(l.clock.phase) {
      ColorMovesOn(l, mono);
    } else {
      PlainMovesOn(l, mono);
    }
  }

  lemma ColorMovesOn(l: Log, mono: int)
    requires LogSound(l) && IsColor(l.clock.phase)
    requires l.clock.phase == Red ==> l.clock.phaseSamples + 1 < l.timing.color
    ensures PartsInPhase(LogSample(l, mono))
  {
  }

  lemma PlainMovesOn(l: Log, mono: int)
    requires LogSound(l) && l.clock.phase != Idle && !IsColor(l.clock.phase)
    ensures PartsInPhase(LogSample(l, mono))
  {
  }

  /** The last sample of a line. */
  lemma SampleEndsLine(l: Log, mono: int)
    requires LogSound(l) && l.clock.phase == Red && l.clock.phaseSamples + 1 >= l.timing.color
    ensures LogSound(LogSample(l, mono))
  {
    var heard, ss := l.heard + [mono], Taking(l, mono);
    var l' := LogSample(l, mono);
    TickCounts(l.timing, l.clock);
    TakingSound(l, mono);
    RowsGrow(l.heard, mono, l.rows);
    LineIsComplete(l, mono);
    RowsGoOn(heard, l.rows, Row(l.clock.line, ss));
    AllBehind(heard, l'.rows);
  }

  lemma LineIsComplete(l: Log, mono: int)
    requires LogSound(l) && l.clock.phase == Red && l.clock.phaseSamples + 1 >= l.timing.color
    ensures var ss := Taking(l, mono);
            Complete(l.clock.line, ss) && End(ss.red) == |l.heard| + 1
  {
  }

  lemma RowsGoOn(heard: seq<int>, rows: seq<Row>, row: Row)
    requires RowsInOrder(heard, rows) && Pieces(heard, row.parts) && Complete(row.line, row.parts)
    requires BehindRows(rows, row.parts, |heard|)
    ensures RowsInOrder(heard, rows + [row])
  {
  }

  lemma AllBehind(heard: seq<int>, rows: seq<Row>)
    requires RowsInOrder(heard, rows)
    ensures BehindRows(rows, NOTHING, |heard|)
  {
  }

  lemma SyncSound(l: Log, offset: nat)
    requires LogSound(l)
    ensures LogSound(LogSync(l, offset))
  {
    if Resyncs(l.timing, l.clock) {
      var l' := LogSync(l, offset);
      JumpDescends(l.timing, l'.timing, l.clock, offset);
      EnteredSound(l'.timing, l.heard, l.parts, Blue, l'.clock);
      EnteredBehind(l'.timing, l.rows, l.parts, Blue, l'.clock, |l.heard|);
      CutOff(l, offset);
    }
  }

  lemma CutOff(l: Log, offset: nat)
    requires LogSound(l) && Resyncs(l.timing, l.clock)
    ensures PartsInPhase(LogSync(l, offset))
  {
    assert WholeOrCut(l.parts.blue);
  }

  function Heard(events: seq<Event>): seq<int> {
    if events == [] then []
    else
      var before := Heard(events[..|events| - 1]);
      match events[|events| - 1]
      case Sample(mono) => before + [mono]
      case SyncMark => before
  }

  lemma {:induction false} LogIsSound(t0: Timing, offset: nat, events: seq<Event>)
    requires InScale(t0.scale)
    ensures LogSound(LogRun(t0, offset, events)) && LogRun(t0, offset, events).heard == Heard(events)
  {
    if events == [] {
      StartSound(t0, offset);
    } else {
      var before := events[..|events| - 1];
      LogIsSound(t0, offset, before);
      var l := LogRun(t0, offset, before);
      match events[|events| - 1]
      case Sample(mono) => SampleSound(l, mono);
      case SyncMark => SyncSound(l, offset);
    }
  }

  lemma SampleSound(l: Log, mono: int)
    requires LogSound(l)
    ensures LogSound(LogSample(l, mono))
  {
    if l.clock.phase == Idle {
      RowsGrow(l.heard, mono, l.rows);
    } else if l.clock.phase == Red && l.clock.phaseSamples + 1 >= l.timing.color {
      SampleEndsLine(l, mono);
    } else {
      SampleInLine(l, mono);
    }
  }

  /** Every row of every run, whatever syncs come and whether the frame is finished or not: row `y` is drawn from
      three stretches of the samples heard, in order and behind those of the row above; Green is whole, Blue is
      whole or cut off in its last quarter, Red runs to the end of the line from where it was entered; and each
      pixel is the intensity of its own window of its stretch. */
  lemma EveryRowFromItsSamples(freq: Oracle, t0: Timing, r: PixelRing, offset: nat, events: seq<Event>)
    requires InScale(t0.scale)
    ensures Shaped(Begin(t0, r, offset))
    ensures var f := Run(freq, Begin(t0, r, offset), offset, events);
            var rows := LogRun(t0, offset, events).rows;
            && |f.out.renders| == |rows| <= OUT_HEIGHT == |f.out.image|
            && RowsInOrder(Heard(events), rows)
            && forall y: nat :: y < |rows| ==>
                 && rows[y].line == SourceLine(y) && AllProper(rows[y].parts)
                 && f.out.image[y] == RowOf(LinesFrom(freq, rows[y].parts))
  {
    DecoderFollowsLog(freq, t0, r, offset, events);
    LogIsSound(t0, offset, events);
    var f := Run(freq, Begin(t0, r, offset), offset, events);
    var rows := LogRun(t0, offset, events).rows;
    forall y: nat | y < |rows|
      ensures rows[y].line == SourceLine(y) && AllProper(rows[y].parts)
      ensures f.out.image[y] == RowOf(LinesFrom(freq, rows[y].parts))
    {
      assert DrawnRow(f.out, y) && RowMatches(freq, f.out.renders[y], rows[y]);
    }
  }
}
