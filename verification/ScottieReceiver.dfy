/** The loop of `decode_scottie1` that feeds samples and sync positions to a Scottie1Decoder
    (tools/sstv_offline_decode.py). */
module ScottieReceiver {
  import opened ScottieModel
  import opened ScottieClock
  import opened ScottieRuns
  import opened ScottieWhole
  import opened ScottieLog
  import opened ScottieRows
  import opened ScottieDecoder

  // ----- the events the loop feeds

  /** The sync positions taken before sample `n`: each is taken at its sample, one after the other. */
  function Taken(syncs: seq<int>, n: nat): (k: nat)
    ensures k <= |syncs|
    decreases n, 0
  {
    if n == 0 then 0 else if SyncAt(syncs, n - 1) then Taken(syncs, n - 1) + 1 else Taken(syncs, n - 1)
  }

  predicate SyncAt(syncs: seq<int>, n: nat)
    decreases n, 1
  {
    var k := Taken(syncs, n);
    k < |syncs| && syncs[k] == n
  }

  /** The events of one more sample, with or without a sync at it. */
  function Extended(before: seq<Event>, marked: bool, mono: int): (events: seq<Event>)
    ensures before <= events
  {
    before + (if marked then [SyncMark] else []) + [Sample(mono)]
  }

  /** The events fed with the first `n` samples: nothing before the first sync, which starts the frame; then
      every sample, and a mark before the sample of each later sync. */
  function Fed(samples: seq<int>, syncs: seq<int>, n: nat): seq<Event>
    requires n <= |samples|
  {
    if n == 0 then
      []
    else
      var before := Fed(samples, syncs, n - 1);
      if Taken(syncs, n) == 0 then before
      else Extended(before, SyncAt(syncs, n - 1) && Taken(syncs, n - 1) > 0, samples[n - 1])
  }

  function Positions(syncs: seq<int>): set<int> {
    set k | k in syncs
  }

  /** The same said directly: the samples from `from` on, with a mark before each later one among the marks. */
  function EventsFrom(samples: seq<int>, marks: set<int>, from: nat, n: nat): seq<Event>
    requires n <= |samples|
  {
    if n <= from then []
    else Extended(EventsFrom(samples, marks, from, n - 1), n - 1 > from && n - 1 in marks, samples[n - 1])
  }

  ghost predicate StrictlyAscending(syncs: seq<int>) {
    forall i, j :: 0 <= i < j < |syncs| ==> syncs[i] < syncs[j]
  }

  /** The frame starts with the first position, if it is a sample at all: behind one before the first sample, the
      loop waits in vain. */
  lemma {:induction false} StartsExactlyWhen(syncs: seq<int>, n: nat)
    ensures Taken(syncs, n) > 0 <==> syncs != [] && 0 <= syncs[0] < n
  {
    if n > 0 {
      StartsExactlyWhen(syncs, n - 1);
    }
  }

  /** In an ascending list every position is taken in its turn. */
  lemma {:induction false} AllTaken(syncs: seq<int>, n: nat)
    requires StrictlyAscending(syncs) && (syncs != [] ==> syncs[0] >= 0)
    ensures forall i :: 0 <= i < |syncs| ==> (syncs[i] < n <==> i < Taken(syncs, n))
  {
    if n > 0 {
      AllTaken(syncs, n - 1);
    }
  }

  lemma SyncAtIsMembership(syncs: seq<int>, n: nat)
    requires StrictlyAscending(syncs) && syncs != [] && syncs[0] >= 0
    ensures SyncAt(syncs, n) <==> n in Positions(syncs)
  {
    AllTaken(syncs, n);
  }

  lemma FedStep(samples: seq<int>, syncs: seq<int>, marks: set<int>, p: nat, n: nat)
    requires 0 < n <= |samples| && Fed(samples, syncs, n - 1) == EventsFrom(samples, marks, p, n - 1)
    requires syncs != [] && p == syncs[0] && (SyncAt(syncs, n - 1) <==> n - 1 in marks)
    ensures Fed(samples, syncs, n) == EventsFrom(samples, marks, p, n)
  {
    StartsExactlyWhen(syncs, n - 1);
    StartsExactlyWhen(syncs, n);
    var marked := n - 1 > p && n - 1 in marks;
    assert marked == (SyncAt(syncs, n - 1) && Taken(syncs, n - 1) > 0);
  }

  /** What the loop feeds, for ascending sync positions. */
  lemma {:induction false} FedIsEventsFrom(samples: seq<int>, syncs: seq<int>, n: nat)
    requires StrictlyAscending(syncs) && syncs != [] && syncs[0] >= 0 && n <= |samples|
    ensures Fed(samples, syncs, n) == EventsFrom(samples, Positions(syncs), syncs[0], n)
  {
    if n > 0 {
      FedIsEventsFrom(samples, syncs, n - 1);
      SyncAtIsMembership(syncs, n - 1);
      FedStep(samples, syncs, Positions(syncs), syncs[0], n);
    }
  }

  /** With one sync position the events are just the samples from it on. */
  lemma {:induction false} EventsOfOneSync(samples: seq<int>, p: nat, n: nat)
    requires p <= n <= |samples|
    ensures EventsFrom(samples, Positions([p]), p, n) == Samples(samples[p..n])
  {
    if n > p {
      EventsOfOneSync(samples, p, n - 1);
    }
  }

  // ----- runs

  lemma RunOneMore(freq: Oracle, f: Frame, offset: nat, events: seq<Event>, e: Event)
    requires Shaped(f)
    ensures Run(freq, f, offset, events + [e]) == React(freq, Run(freq, f, offset, events), offset, e)
  {
    assert (events + [e])[..|events|] == events;
  }

  /** A finished frame stays as it is. */
  lemma {:induction false} DoneStays(freq: Oracle, f: Frame, offset: nat, events: seq<Event>, k: nat)
    requires FrameInv(f) && k <= |events| && Run(freq, f, offset, events[..k]).clock.done
    ensures Run(freq, f, offset, events) == Run(freq, f, offset, events[..k])
    decreases |events|
  {
    if k == |events| {
      assert events[..k] == events;
    } else {
      var before := events[..|events| - 1];
      assert before[..k] == events[..k];
      DoneStays(freq, f, offset, before, k);
      RunKeeps(freq, f, offset, before);
    }
  }

  /** The events fed up to sample `m` begin with those fed up to `n`. */
  lemma {:induction false} FedGrows(samples: seq<int>, syncs: seq<int>, n: nat, m: nat)
    requires n <= m <= |samples|
    ensures Fed(samples, syncs, n) <= Fed(samples, syncs, m) && Taken(syncs, n) <= Taken(syncs, m)
    decreases m
  {
    if n < m {
      FedGrows(samples, syncs, n, m - 1);
      PrefixOfPrefix(Fed(samples, syncs, n), Fed(samples, syncs, m - 1), Fed(samples, syncs, m));
    }
  }

  lemma PrefixOfPrefix(a: seq<Event>, b: seq<Event>, c: seq<Event>)
    requires a <= b <= c
    ensures a <= c
  {
  }

  /** The state the decoder is in once `n` samples are fed. */
  ghost function Received(freq: Oracle, before: Frame, offset: nat, samples: seq<int>, syncs: seq<int>, n: nat): Frame
    requires InScale(before.timing.scale) && n <= |samples|
  {
    StartsRight(before.timing, before.ring, offset);
    if Taken(syncs, n) == 0 then before
    else Run(freq, Begin(before.timing, before.ring, offset), offset, Fed(samples, syncs, n))
  }

  lemma ReceivedDone(freq: Oracle, before: Frame, offset: nat, samples: seq<int>, syncs: seq<int>, n: nat)
    requires InScale(before.timing.scale) && n <= |samples| && Taken(syncs, n) > 0
    requires Received(freq, before, offset, samples, syncs, n).clock.done
    ensures Taken(syncs, |samples|) > 0
    ensures Received(freq, before, offset, samples, syncs, |samples|)
         == Received(freq, before, offset, samples, syncs, n)
  {
    StartsRight(before.timing, before.ring, offset);
    FedGrows(samples, syncs, n, |samples|);
    var all, some := Fed(samples, syncs, |samples|), Fed(samples, syncs, n);
    assert all[..|some|] == some;
    DoneStays(freq, Begin(before.timing, before.ring, offset), offset, all, |some|);
  }

  /** Where the first position is no sample, the decoder is never started. */
  lemma NeverStarted(freq: Oracle, before: Frame, offset: nat, samples: seq<int>, syncs: seq<int>)
    requires InScale(before.timing.scale) && (syncs == [] || !(0 <= syncs[0] < |samples|))
    ensures Received(freq, before, offset, samples, syncs, |samples|) == before
  {
    StartsExactlyWhen(syncs, |samples|);
  }

  // ----- the loop

  /** One round of the loop. */
  method TakeOne(d: Scottie1Decoder, receiving: bool, sync: bool, mono: int,
                 ghost before: Frame, ghost samples: seq<int>, ghost syncs: seq<int>, ghost n: nat)
    returns (nowReceiving: bool)
    requires d.Valid() && InScale(before.timing.scale) && n < |samples| && mono == samples[n]
    requires receiving == (Taken(syncs, n) > 0) && sync == SyncAt(syncs, n)
    requires d.State() == Received(d.freq, before, d.syncPhaseOffset, samples, syncs, n)
    modifies d
    ensures d.Valid() && d.syncPhaseOffset == old(d.syncPhaseOffset)
    ensures nowReceiving == (Taken(syncs, n + 1) > 0)
    ensures d.State() == Received(d.freq, before, d.syncPhaseOffset, samples, syncs, n + 1)
  {
    StartsRight(before.timing, before.ring, d.syncPhaseOffset);
    ghost var start, fed := Begin(before.timing, before.ring, d.syncPhaseOffset), Fed(samples, syncs, n);
    nowReceiving := receiving;
    if sync {
      var started := d.OnSync(receiving);
      if started {
        nowReceiving := true;
        NothingFed(samples, syncs, n);
      } else {
        RunOneMore(d.freq, start, d.syncPhaseOffset, fed, SyncMark);
        fed := fed + [SyncMark];
      }
    }
    if nowReceiving {
      assert d.State() == Run(d.freq, start, d.syncPhaseOffset, fed);
      d.Step(mono);
      RunOneMore(d.freq, start, d.syncPhaseOffset, fed, Sample(mono));
      assert fed + [Sample(mono)] == Fed(samples, syncs, n + 1);
    }
  }

  lemma {:induction false} NothingFed(samples: seq<int>, syncs: seq<int>, n: nat)
    requires n <= |samples| && Taken(syncs, n) == 0
    ensures Fed(samples, syncs, n) == []
  {
    if n > 0 {
      NothingFed(samples, syncs, n - 1);
    }
  }

  /** The whole loop. Before the first sync nothing happens; from there the decoder has run through exactly the
      events fed, so that every property of runs holds of it; and if the frame is done, all 192 rows are drawn. */
  method Receive(d: Scottie1Decoder, samples: seq<int>, syncs: seq<int>) returns (receiving: bool)
    requires d.Valid()
    modifies d
    ensures d.Valid() && d.syncPhaseOffset == old(d.syncPhaseOffset)
    ensures receiving == (syncs != [] && 0 <= syncs[0] < |samples|)
    ensures d.State() == Received(d.freq, old(d.State()), d.syncPhaseOffset, samples, syncs, |samples|)
    ensures receiving ==> FrameInv(d.State())
    ensures receiving && d.frameDone ==>
              |d.renders| == OUT_HEIGHT && forall y: nat :: y < OUT_HEIGHT ==> DrawnRow(d.OutNow(), y)
  {
    receiving := false;
    var next := 0;
    ghost var before := d.State();
    var idx := 0;
    while idx < |samples|
      invariant d.Valid() && d.syncPhaseOffset == old(d.syncPhaseOffset) && InScale(before.timing.scale)
      invariant idx <= |samples| && next == Taken(syncs, idx) && receiving == (next > 0)
      invariant d.State() == Received(d.freq, before, d.syncPhaseOffset, samples, syncs, idx)
    {
      var sync := next < |syncs| && idx == syncs[next];
      receiving := TakeOne(d, receiving, sync, samples[idx], before, samples, syncs, idx);
      if sync {
        next := next + 1;
      }
      idx := idx + 1;
      if receiving && d.frameDone {
        ReceivedDone(d.freq, before, d.syncPhaseOffset, samples, syncs, idx);
        break;
      }
    }
    StartsExactlyWhen(syncs, |samples|);
    if receiving {
      ReceivedKeeps(d.freq, before, d.syncPhaseOffset, samples, syncs);
    }
  }

  lemma ReceivedKeeps(freq: Oracle, before: Frame, offset: nat, samples: seq<int>, syncs: seq<int>)
    requires InScale(before.timing.scale) && Taken(syncs, |samples|) > 0
    ensures var f := Received(freq, before, offset, samples, syncs, |samples|);
            && FrameInv(f)
            && (f.clock.done ==>
                  |f.out.renders| == OUT_HEIGHT && forall y: nat :: y < OUT_HEIGHT ==> DrawnRow(f.out, y))
  {
    StartsRight(before.timing, before.ring, offset);
    RunKeeps(freq, Begin(before.timing, before.ring, offset), offset, Fed(samples, syncs, |samples|));
    assert RowsAfter(LINES) == OUT_HEIGHT;
  }

  // ----- the picture of a transmission with one sync

  /** With a single sync position and enough samples behind it, the loop ends with the whole picture: row `y` is
      the direct function of the samples of its line. */
  lemma OneSyncPicture(freq: Oracle, before: Frame, offset: nat, samples: seq<int>, p: nat)
    requires InScale(before.timing.scale)
    requires p + FrameLength(TimingOf(before.timing.scale), offset) <= |samples|
    ensures Bounded(TimingOf(before.timing.scale))
    ensures var t := TimingOf(before.timing.scale);
            var ms := samples[p..p + FrameLength(t, offset)];
            var f := Received(freq, before, offset, samples, [p], |samples|);
            && f.clock.done
            && forall y: nat :: y < OUT_HEIGHT ==>
                 && LineEnd(t, offset, SourceLine(y) + 1) <= |ms|
                 && y < |f.out.image| && f.out.image[y] == RowOf(FrameLine(freq, t, offset, ms, SourceLine(y)))
  {
    var t := TimingOf(before.timing.scale);
    var n := p + FrameLength(t, offset);
    var start := Begin(before.timing, before.ring, offset);
    StartsRight(before.timing, before.ring, offset);
    FedIsEventsFrom(samples, [p], n);
    StartsExactlyWhen([p], n);
    EventsOfOneSync(samples, p, n);
    WholeFrame(freq, before.timing, before.ring, offset, samples[p..n]);
    StepsAreARun(freq, start, offset, samples[p..n]);
    ReceivedDone(freq, before, offset, samples, [p], n);
  }

  // ----- the picture of any transmission

  lemma EventsFromNext(samples: seq<int>, marks: set<int>, p: nat, n: nat) returns (before: seq<Event>, marked: bool)
    requires p < n <= |samples|
    ensures before == EventsFrom(samples, marks, p, n - 1)
    ensures EventsFrom(samples, marks, p, n) == Extended(before, marked, samples[n - 1])
  {
    before, marked := EventsFrom(samples, marks, p, n - 1), n - 1 > p && n - 1 in marks;
  }

  lemma HeardOfStart(samples: seq<int>, marks: set<int>, p: nat)
    requires p <= |samples|
    ensures Heard(EventsFrom(samples, marks, p, p)) == samples[p..p]
  {
  }

  lemma {:induction false} HeardFrom(samples: seq<int>, marks: set<int>, p: nat, n: nat)
    requires p <= n <= |samples|
    ensures Heard(EventsFrom(samples, marks, p, n)) == samples[p..n]
  {
    if n == p {
      HeardOfStart(samples, marks, p);
    } else {
      HeardFrom(samples, marks, p, n - 1);
      var before, marked := EventsFromNext(samples, marks, p, n);
      HeardOneMore(before, marked, samples[n - 1]);
      OneMoreSample(samples, p, n);
    }
  }

  lemma OneMoreSample(samples: seq<int>, p: nat, n: nat)
    requires p < n <= |samples|
    ensures samples[p..n] == samples[p..n - 1] + [samples[n - 1]]
  {
  }

  lemma HeardOneMore(before: seq<Event>, marked: bool, mono: int)
    ensures Heard(Extended(before, marked, mono)) == Heard(before) + [mono]
  {
    var some := before + if marked then [SyncMark] else [];
    assert (some + [Sample(mono)])[..|some|] == some;
    if marked {
      assert some[..|before|] == before;
    } else {
      assert some == before;
    }
  }

  /** With any ascending sync positions, whatever resynchronisation they bring: every row the loop has drawn is
      the function of its own stretches of the samples from the first sync on. */
  lemma ReceivedRows(freq: Oracle, before: Frame, offset: nat, samples: seq<int>, syncs: seq<int>)
    requires InScale(before.timing.scale)
    requires StrictlyAscending(syncs) && syncs != [] && 0 <= syncs[0] < |samples|
    ensures var f := Received(freq, before, offset, samples, syncs, |samples|);
            var rows := LogRun(before.timing, offset, EventsFrom(samples, Positions(syncs), syncs[0], |samples|)).rows;
            && |f.out.renders| == |rows| <= OUT_HEIGHT == |f.out.image|
            && RowsInOrder(samples[syncs[0]..], rows)
            && forall y: nat :: y < |rows| ==>
                 && rows[y].line == SourceLine(y) && AllProper(rows[y].parts)
                 && f.out.image[y] == RowOf(LinesFrom(freq, rows[y].parts))
  {
    FedIsEventsFrom(samples, syncs, |samples|);
    StartsExactlyWhen(syncs, |samples|);
    HeardFrom(samples, Positions(syncs), syncs[0], |samples|);
    assert samples[syncs[0]..|samples|] == samples[syncs[0]..];
    EveryRowFromItsSamples(freq, before.timing, before.ring, offset,
                           EventsFrom(samples, Positions(syncs), syncs[0], |samples|));
  }
}
