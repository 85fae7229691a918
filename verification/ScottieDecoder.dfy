/** Scottie1Decoder (tools/sstv_offline_decode.py) with its fields and methods, proved against ScottieModel. */
module ScottieDecoder {
  import opened ScottieModel
  import Ring

  /** A sample of a colour phase, put together from its pixel part and its phase part. */
  lemma ColorStepOn(freq: Oracle, f: Frame, mono: int, ring: PixelRing, lines: Lines, f': Frame)
    requires Shaped(f) && IsColor(f.clock.phase) && (ring, lines) == Exposed(freq, f, mono)
    requires f'.timing == f.timing && f'.clock == Advance(f.timing, f.clock)
    requires (f'.ring, f'.lines, f'.out) == Closed(f.clock, f'.clock, ring, lines, f.out)
    ensures f' == StepOn(freq, f, mono)
  {
  }

  class Scottie1Decoder {
    const freq: Oracle
    var phase: Phase
    var phaseSamples: nat
    var lineIndex: nat
    var lineSamples: nat
    var frameDone: bool
    var porchSamples: nat
    var syncSamples: nat
    var colorSamples: nat
    var pixelWindowSamples: nat
    var timingScale: real
    var syncPhaseOffset: nat
    var pixelBuf: seq<int>
    var pixelPos: nat
    var pixelFill: nat
    var lastPixel: int
    var green: Channel
    var blue: Channel
    var red: Channel
    var outImg: seq<seq<Rgb>>
    var lastOutputY: int
    ghost var renders: seq<Render>  // the rows drawn so far

    ghost function TimingNow(): Timing
      reads this
    {
      Timing(timingScale, porchSamples, syncSamples, colorSamples, pixelWindowSamples)
    }

    ghost function ClockNow(): Clock
      reads this
    {
      Clock(phase, phaseSamples, lineIndex, lineSamples, frameDone)
    }

    ghost function RingNow(): PixelRing
      reads this
    {
      PixelRing(pixelBuf, pixelPos, pixelFill, lastPixel)
    }

    ghost function LinesNow(): Lines
      reads this
    {
      Lines(green, blue, red)
    }

    ghost function OutNow(): Output
      reads this
    {
      Output(lastOutputY, outImg, renders)
    }

    ghost function State(): Frame
      reads this
    {
      Frame(TimingNow(), ClockNow(), RingNow(), LinesNow(), OutNow())
    }

    ghost predicate Valid()
      reads this
    {
      Shaped(State())
    }

    constructor (freq: Oracle)
      ensures Valid() && this.freq == freq
      ensures State() == Frame(TimingOf(1.0), Clock(Idle, 0, 0, 0, false), EmptyRing(TimingOf(1.0).window),
                               BlankLines(), BlankOutput())
      ensures syncPhaseOffset == 0
    {
      this.freq := freq;
      phase, phaseSamples, lineIndex, lineSamples, frameDone := Idle, 0, 0, 0, false;
      porchSamples, syncSamples, colorSamples := BASE_PORCH, BASE_SYNC, BASE_COLOR;
      pixelWindowSamples := WindowSamples(BASE_COLOR);
      timingScale, syncPhaseOffset := 1.0, 0;
      pixelBuf, pixelPos, pixelFill, lastPixel := Zeroes(WindowSamples(BASE_COLOR)), 0, 0, -1;
      green, blue, red := Blank(), Blank(), Blank();
      outImg, lastOutputY := BlankOutput().image, -1;
      renders := [];
      ScaledLengths(1.0);
    }

    method ApplyTimingScale()
      requires InScale(timingScale)
      modifies `porchSamples, `syncSamples, `colorSamples, `pixelWindowSamples
      modifies `pixelBuf, `pixelPos, `pixelFill, `lastPixel
      ensures TimingNow() == TimingOf(timingScale)
      ensures RingNow() == Resized(old(RingNow()), pixelWindowSamples)
    {
      porchSamples := Scaled(BASE_PORCH, timingScale);
      syncSamples := Scaled(BASE_SYNC, timingScale);
      colorSamples := Scaled(BASE_COLOR, timingScale);
      pixelWindowSamples := WindowSamples(colorSamples);
      if |pixelBuf| != pixelWindowSamples {
        pixelBuf := Zeroes(pixelWindowSamples);
        pixelPos, pixelFill, lastPixel := 0, 0, -1;
      }
    }

    method ClearAccum()
      modifies `green, `blue, `red
      ensures LinesNow() == BlankLines()
    {
      green, blue, red := Blank(), Blank(), Blank();
    }

    method ResetPixelState()
      modifies `lastPixel, `pixelPos, `pixelFill
      ensures RingNow() == Restarted(old(RingNow()))
    {
      lastPixel, pixelPos, pixelFill := -1, 0, 0;
    }

    method StartFrame()
      requires InScale(timingScale)
      modifies `lineIndex, `phase, `phaseSamples, `lineSamples, `frameDone
      modifies `porchSamples, `syncSamples, `colorSamples, `pixelWindowSamples
      modifies `pixelBuf, `pixelPos, `pixelFill, `lastPixel, `green, `blue, `red
      modifies `lastOutputY, `outImg, `renders
      ensures TimingNow() == TimingOf(timingScale) && ClockNow() == Clock(Porch1, 0, 0, 0, false)
      ensures RingNow() == Restarted(Resized(old(RingNow()), pixelWindowSamples))
      ensures LinesNow() == BlankLines() && OutNow() == BlankOutput()
    {
      ResetClock();
      ResetTiming();
      ResetPicture();
    }

    /** `apply_timing_scale` and then `reset_pixel_state`. */
    method ResetTiming()
      requires InScale(timingScale)
      modifies `porchSamples, `syncSamples, `colorSamples, `pixelWindowSamples
      modifies `pixelBuf, `pixelPos, `pixelFill, `lastPixel
      ensures TimingNow() == TimingOf(timingScale)
      ensures RingNow() == Restarted(Resized(old(RingNow()), pixelWindowSamples))
    {
      ApplyTimingScale();
      ResetPixelState();
    }

    method ResetPicture()
      modifies `green, `blue, `red, `lastOutputY, `outImg, `renders
      ensures LinesNow() == BlankLines() && OutNow() == BlankOutput()
    {
      ClearAccum();
      lastOutputY, outImg, renders := -1, BlankOutput().image, [];
    }

    method ResetClock()
      modifies `lineIndex, `phase, `phaseSamples, `lineSamples, `frameDone
      ensures ClockNow() == Clock(Porch1, 0, 0, 0, false)
    {
      lineIndex := 0;
      phase := Porch1;
      phaseSamples := 0;
      lineSamples := 0;
      frameDone := false;
    }

    /** The phase and position a sync leads to; used by both branches of `on_sync`. */
    method JumpToOffset()
      modifies `phase, `phaseSamples, `lastPixel, `pixelPos, `pixelFill
      ensures ClockNow() == Jump(TimingNow(), old(ClockNow()), syncPhaseOffset)
      ensures RingNow() == if phase == Red then Restarted(old(RingNow())) else old(RingNow())
    {
      var offset := syncPhaseOffset;
      if offset < syncSamples {
        phase := Sync;
        phaseSamples := offset;
      } else if offset < syncSamples + porchSamples {
        phase := Porch3;
        phaseSamples := offset - syncSamples;
      } else {
        phase := Red;
        phaseSamples := offset - syncSamples - porchSamples;
        if phaseSamples > colorSamples {
          phaseSamples := colorSamples;
        }
        ResetPixelState();
      }
    }

    method OnSync(wasReceiving: bool) returns (started: bool)
      requires Valid()
      modifies this
      ensures Valid() && started == !wasReceiving && syncPhaseOffset == old(syncPhaseOffset)
      ensures State() == if wasReceiving then Resync(old(State()), syncPhaseOffset)
                         else Begin(old(TimingNow()), old(RingNow()), syncPhaseOffset)
    {
      if !wasReceiving {
        ScaledLengths(timingScale);
        StartFrame();
        JumpToOffset();
        return true;
      }
      ResyncLine();
      return false;
    }

    /** `on_sync` while a frame is being received. */
    method ResyncLine()
      requires Valid()
      modifies `phase, `phaseSamples, `lineSamples, `timingScale
      modifies `porchSamples, `syncSamples, `colorSamples, `pixelWindowSamples
      modifies `pixelBuf, `pixelPos, `pixelFill, `lastPixel
      ensures State() == Resync(old(State()), syncPhaseOffset)
    {
      if phase != Blue {
        return;
      }
      var guard := colorSamples / 4;
      if guard < 1 {
        guard := 1;
      }
      if phaseSamples < colorSamples - guard {
        return;
      }
      ghost var before := State();
      EndLineEarly();
      assert State() == Resync(before, syncPhaseOffset);
    }

    /** Leave Blue for the point of the line that the sync marks. */
    method EndLineEarly()
      requires Bounded(TimingNow()) && |pixelBuf| == pixelWindowSamples
      modifies `phase, `phaseSamples, `lineSamples, `timingScale
      modifies `porchSamples, `syncSamples, `colorSamples, `pixelWindowSamples
      modifies `pixelBuf, `pixelPos, `pixelFill, `lastPixel
      ensures TimingNow() == Retimed(old(TimingNow()), old(lineSamples), syncPhaseOffset)
      ensures ClockNow() == Jump(TimingNow(), old(ClockNow()).(lineSamples := 0), syncPhaseOffset)
      ensures var ring := Resized(old(RingNow()), pixelWindowSamples);
              RingNow() == if phase == Red then Restarted(ring) else ring
    {
      AdaptScale();
      lineSamples := 0;
      JumpToOffset();
    }

    /** The timing correction of a resynchronised line. */
    method AdaptScale()
      requires Bounded(TimingNow())
      modifies `timingScale, `porchSamples, `syncSamples, `colorSamples, `pixelWindowSamples
      modifies `pixelBuf, `pixelPos, `pixelFill, `lastPixel
      ensures TimingNow() == Retimed(old(TimingNow()), lineSamples, syncPhaseOffset)
      ensures RingNow() == if Corrects(lineSamples, syncPhaseOffset) then Resized(old(RingNow()), pixelWindowSamples)
                           else old(RingNow())
      ensures old(|pixelBuf| == pixelWindowSamples) ==> RingNow() == Resized(old(RingNow()), pixelWindowSamples)
    {
      if Corrects(lineSamples, syncPhaseOffset) {
        timingScale := CorrectedScale(timingScale, lineSamples, syncPhaseOffset);
        ApplyTimingScale();
      }
    }

    method RenderLine()
      requires AllWellShaped(LinesNow()) && |outImg| == OUT_HEIGHT
      modifies `lastOutputY, `outImg, `renders
      ensures OutNow() == Rendered(old(OutNow()), LinesNow(), lineIndex)
    {
      var outY := (lineIndex * OUT_HEIGHT) / LINES;
      if outY == lastOutputY || outY >= OUT_HEIGHT {
        return;
      }
      lastOutputY := outY;
      var row := BlankRow();
      for outX := 0 to OUT_IMAGE_WIDTH
        invariant |row| == OUT_WIDTH
        invariant forall x :: 0 <= x < OUT_WIDTH ==>
          row[x] == if PAD_X <= x < PAD_X + outX then Color(LinesNow(), (x - PAD_X) * WIDTH / OUT_IMAGE_WIDTH)
                    else PANEL
      {
        var inX := (outX * WIDTH) / OUT_IMAGE_WIDTH;
        var g := if green.count[inX] != 0 then green.accum[inX] / green.count[inX] else 0;
        var b := if blue.count[inX] != 0 then blue.accum[inX] / blue.count[inX] else 0;
        var r := if red.count[inX] != 0 then red.accum[inX] / red.count[inX] else 0;
        row := row[PAD_X + outX := Rgb(r, g, b)];
      }
      outImg := outImg[outY := row];
      assert row == RowOf(LinesNow());
      renders := renders + [Render(outY, lineIndex, LinesNow())];
    }

    /** The pixel part of `step_color`. */
    method TakePixel(mono: int)
      requires Valid() && IsColor(phase)
      modifies `pixelBuf, `pixelPos, `pixelFill, `lastPixel, `green, `blue, `red
      ensures (RingNow(), LinesNow()) == Exposed(freq, old(State()), mono)
    {
      var pixel := Pixel(phaseSamples, colorSamples);
      if pixel < WIDTH {
        pixelBuf := pixelBuf[pixelPos := mono];
        pixelPos := pixelPos + 1;
        if pixelPos >= pixelWindowSamples {
          pixelPos := 0;
        }
        if pixelFill < pixelWindowSamples {
          pixelFill := pixelFill + 1;
        }
        if pixel != lastPixel && pixelFill == pixelWindowSamples {
          lastPixel := pixel;
          var intensity := Intensity(freq, Ring.Unrolled(pixelBuf, pixelPos));
          if phase == Green {
            green := Deposit(green, pixel, intensity);
          } else if phase == Blue {
            blue := Deposit(blue, pixel, intensity);
          } else {
            red := Deposit(red, pixel, intensity);
          }
        }
      }
    }

    method StepColor(mono: int)
      requires Valid() && IsColor(phase)
      modifies `phase, `phaseSamples, `lineIndex, `frameDone, `pixelBuf, `pixelPos, `pixelFill, `lastPixel
      modifies `green, `blue, `red, `outImg, `lastOutputY, `renders
      ensures State() == StepOn(freq, old(State()), mono)
    {
      ghost var f := State();
      TakePixel(mono);
      ghost var taken := (RingNow(), LinesNow());
      assert AllWellShaped(taken.1);
      assert TimingNow() == f.timing && ClockNow() == f.clock && OutNow() == f.out;
      NextColorSample();
      ColorStepOn(freq, f, mono, taken.0, taken.1, State());
    }

    /** The phase part of `step_color`. */
    method NextColorSample()
      requires IsColor(phase) && AllWellShaped(LinesNow()) && |outImg| == OUT_HEIGHT
      modifies `phase, `phaseSamples, `lineIndex, `frameDone, `pixelPos, `pixelFill, `lastPixel
      modifies `green, `blue, `red, `outImg, `lastOutputY, `renders
      ensures ClockNow() == Advance(TimingNow(), old(ClockNow()))
      ensures (RingNow(), LinesNow(), OutNow())
           == Closed(old(ClockNow()), ClockNow(), old(RingNow()), old(LinesNow()), old(OutNow()))
    {
      phaseSamples := phaseSamples + 1;
      if phaseSamples >= colorSamples {
        phaseSamples := 0;
        if phase == Green {
          phase := Porch2;
        } else if phase == Blue {
          phase := Sync;
        } else {
          EndLine();
        }
      }
    }

    /** The end of a line's last phase. */
    method EndLine()
      requires AllWellShaped(LinesNow()) && |outImg| == OUT_HEIGHT
      modifies `phase, `phaseSamples, `lineIndex, `frameDone, `pixelPos, `pixelFill, `lastPixel
      modifies `green, `blue, `red, `outImg, `lastOutputY, `renders
      ensures lineIndex == old(lineIndex) + 1 && phaseSamples == 0
      ensures if lineIndex >= LINES then phase == Idle && frameDone else phase == Porch1 && frameDone == old(frameDone)
      ensures LinesNow() == BlankLines()
      ensures OutNow() == Rendered(old(OutNow()), old(LinesNow()), old(lineIndex))
      ensures RingNow() == if phase == Porch1 then Restarted(old(RingNow())) else old(RingNow())
    {
      RenderLine();
      lineIndex := lineIndex + 1;
      ClearAccum();
      if lineIndex >= LINES {
        frameDone := true;
        phase := Idle;
        phaseSamples := 0;
      } else {
        phase := Porch1;
        phaseSamples := 0;
        ResetPixelState();
      }
    }

    /** The phases that carry no picture. */
    method StepPlain()
      requires phase != Idle && !IsColor(phase)
      modifies `phase, `phaseSamples, `pixelPos, `pixelFill, `lastPixel
      ensures ClockNow() == Advance(TimingNow(), old(ClockNow()))
      ensures RingNow() == if IsColor(phase) then Restarted(old(RingNow())) else old(RingNow())
    {
      phaseSamples := phaseSamples + 1;
      if phase == Porch1 {
        if phaseSamples >= porchSamples {
          phase := Green;
          phaseSamples := 0;
          ResetPixelState();
        }
      } else if phase == Porch2 {
        if phaseSamples >= porchSamples {
          phase := Blue;
          phaseSamples := 0;
          ResetPixelState();
        }
      } else if phase == Sync {
        if phaseSamples >= syncSamples {
          phase := Porch3;
          phaseSamples := 0;
        }
      } else {
        if phaseSamples >= porchSamples {
          phase := Red;
          phaseSamples := 0;
          ResetPixelState();
        }
      }
    }

    /** `step` outside Idle, once the sample is counted. */
    method StepPhase(mono: int)
      requires Valid() && phase != Idle
      modifies `phase, `phaseSamples, `lineIndex, `frameDone, `pixelBuf, `pixelPos, `pixelFill, `lastPixel
      modifies `green, `blue, `red, `outImg, `lastOutputY, `renders
      ensures State() == StepOn(freq, old(State()), mono)
    {
      if IsColor(phase) {
        StepColor(mono);
      } else {
        StepPlain();
      }
    }

    method Step(mono: int)
      requires Valid()
      modifies this
      ensures State() == ScottieModel.Step(freq, old(State()), mono) && Valid()
      ensures syncPhaseOffset == old(syncPhaseOffset)
    {
      if phase == Idle {
        return;
      }
      lineSamples := lineSamples + 1;
      assert State() == Counted(old(State()));
      StepPhase(mono);
    }
  }
}
