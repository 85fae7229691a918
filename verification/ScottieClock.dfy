/** The timing of a frame: how many samples it takes without resynchronisation, and why it ends with any. */
module ScottieClock {
  import opened ScottieModel

  /** A clock inside a frame: positions below the phase's length (at most equal to it in Red), Idle exactly
      when all 256 lines are done. */
  ghost predicate InFrame(t: Timing, c: Clock) {
    && c.line <= LINES && (c.done <==> c.line == LINES) && (c.phase == Idle <==> c.done)
    && (if c.phase == Idle then c.phaseSamples == 0
        else if c.phase == Red then c.phaseSamples <= t.color
        else c.phaseSamples < Length(t, c.phase))
  }

  /** Samples in the phases of a line after `p`. */
  function Later(t: Timing, p: Phase): nat {
    match p
    case Porch1 => 2 * t.porch + t.sync + 3 * t.color
    case Green => 2 * t.porch + t.sync + 2 * t.color
    case Porch2 => t.porch + t.sync + 2 * t.color
    case Blue => t.porch + t.sync + t.color
    case Sync => t.porch + t.color
    case Porch3 => t.color
    case _ => 0
  }

  function LineLength(t: Timing): nat {
    3 * t.porch + 3 * t.color + t.sync
  }

  /** The samples of `n` whole lines. */
  function WholeLines(t: Timing, n: nat): nat {
    if n == 0 then 0 else WholeLines(t, n - 1) + LineLength(t)
  }

  lemma {:induction false} WholeLinesProduct(t: Timing, n: nat)
    ensures WholeLines(t, n) == n * LineLength(t)
  {
    if n > 0 {
      WholeLinesProduct(t, n - 1);
    }
  }

  /** The samples until the frame is done, if no sync comes between. */
  function Remaining(t: Timing, c: Clock): nat {
    if c.phase == Idle || c.line >= LINES then
      0
    else
      var here := if c.phaseSamples < Length(t, c.phase) then Length(t, c.phase) - c.phaseSamples else 1;
      here + Later(t, c.phase) + WholeLines(t, LINES - 1 - c.line)
  }

  lemma TickCounts(t: Timing, c: Clock)
    requires Bounded(t) && InFrame(t, c)
    ensures InFrame(t, Tick(t, c))
    ensures Remaining(t, c) > 0 <==> !c.done
    ensures !c.done ==> Remaining(t, Tick(t, c)) == Remaining(t, c) - 1
  {
  }

  function Ticks(t: Timing, c: Clock, n: nat): Clock {
    if n == 0 then c else Tick(t, Ticks(t, c, n - 1))
  }

  /** Exactly `Remaining` samples end the frame, not one fewer. */
  lemma {:induction false} DoneAfterRemaining(t: Timing, c: Clock, n: nat)
    requires Bounded(t) && InFrame(t, c)
    ensures InFrame(t, Ticks(t, c, n))
    ensures Ticks(t, c, n).done <==> n >= Remaining(t, c)
    ensures Remaining(t, Ticks(t, c, n)) == if n >= Remaining(t, c) then 0 else Remaining(t, c) - n
  {
    TickCounts(t, c);
    if n > 0 {
      DoneAfterRemaining(t, c, n - 1);
      TickCounts(t, Ticks(t, c, n - 1));
    }
  }

  /** The length of a whole frame that starts `offset` samples behind the start of a sync pulse. */
  function FrameLength(t: Timing, offset: nat): nat {
    (if offset < t.sync then t.sync - offset + t.porch + t.color
     else if offset < t.sync + t.porch then t.sync + t.porch - offset + t.color
     else if offset < t.sync + t.porch + t.color then t.sync + t.porch + t.color - offset
     else 1)
    + 255 * (3 * t.porch + 3 * t.color + t.sync)
  }

  lemma FrameTakes(t: Timing, offset: nat, n: nat)
    requires Bounded(t)
    ensures var c := Jump(t, Clock(Porch1, 0, 0, 0, false), offset);
            InFrame(t, c) && (Ticks(t, c, n).done <==> n >= FrameLength(t, offset))
  {
    WholeLinesProduct(t, 255);
    DoneAfterRemaining(t, Jump(t, Clock(Porch1, 0, 0, 0, false), offset), n);
  }

  // ----- with resynchronisation

  function PhasesLeft(p: Phase): nat {
    match p
    case Idle => 0
    case Porch1 => 7
    case Green => 6
    case Porch2 => 5
    case Blue => 4
    case Sync => 3
    case Porch3 => 2
    case Red => 1
  }

  function SamplesLeft(t: Timing, c: Clock): nat {
    if c.phaseSamples < Length(t, c.phase) then Length(t, c.phase) - c.phaseSamples else 0
  }

  /** Lines left, then phases left in the line, then samples left in the phase: `(t', c')` is below `(t, c)`. */
  predicate Lower(t': Timing, c': Clock, t: Timing, c: Clock) {
    || LINES - c'.line < LINES - c.line
    || (c'.line == c.line && PhasesLeft(c'.phase) < PhasesLeft(c.phase))
    || (c'.line == c.line && c'.phase == c.phase && SamplesLeft(t', c') < SamplesLeft(t, c))
  }

  /** Every sample outside Idle moves the clock strictly down that order, without changing the lengths. */
  lemma TickDescends(t: Timing, c: Clock)
    requires Bounded(t) && InFrame(t, c) && c.phase != Idle
    ensures Lower(t, Tick(t, c), t, c)
    ensures var c' := Tick(t, c); c'.line <= c.line + 1 && (c'.line > c.line ==> c.phase == Red)
  {
  }

  /** A sync never moves it up: it either does nothing or leaves Blue for a later phase of the same line. */
  lemma JumpDescends(t: Timing, t': Timing, c: Clock, offset: nat)
    requires Bounded(t) && Bounded(t') && InFrame(t, c) && c.phase == Blue
    ensures var c' := Jump(t', c.(lineSamples := 0), offset);
            InFrame(t', c') && Lower(t', c', t, c) && c'.line == c.line && c'.phase in {Sync, Porch3, Red}
  {
  }

  // An upper bound on the samples left that no change of the lengths can raise.

  const MAX_TIMING := Timing(1.05, 69, 416, 6402, 60)

  function Budget(c: Clock): nat {
    if c.phase == Idle || c.line >= LINES then
      0
    else
      var here := if c.phaseSamples < Length(MAX_TIMING, c.phase)
                  then Length(MAX_TIMING, c.phase) - c.phaseSamples else 0;
      here + Later(MAX_TIMING, c.phase) + WholeLines(MAX_TIMING, LINES - 1 - c.line)
  }

  lemma TickSpends(t: Timing, c: Clock)
    requires Bounded(t) && InFrame(t, c) && !c.done
    ensures Budget(c) >= 1 && Budget(Tick(t, c)) <= Budget(c) - 1
  {
  }

  lemma JumpSpends(t: Timing, t': Timing, c: Clock, offset: nat)
    requires Bounded(t) && Bounded(t') && InFrame(t, c) && c.phase == Blue
    ensures Budget(Jump(t', c.(lineSamples := 0), offset)) <= Budget(c)
  {
  }

  /** No frame can take more samples than this. */
  const LONGEST_FRAME: nat := 256 * (3 * 69 + 3 * 6402 + 416)

  lemma BudgetBound(c: Clock)
    ensures Budget(c) <= LONGEST_FRAME
  {
    if c.line < LINES {
      var n := LINES - 1 - c.line;
      WholeLinesProduct(MAX_TIMING, n);
      assert LineLength(MAX_TIMING) == 3 * 69 + 3 * 6402 + 416;
    }
  }
}
