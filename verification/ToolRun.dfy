/** `decode_scottie1` from samples to picture: what the sync search hands over is what the feeding loop needs
    (tools/sstv_offline_decode.py). */
module ToolRun {
  import opened HeaderSearch
  import opened EvenSyncs
  import opened SyncRuns
  import opened SyncSmoothing
  import H = HeaderDetector
  import opened ScottieModel
  import ScottieRuns
  import opened ScottieLog
  import opened ScottieRows
  import opened ScottieReceiver

  /** Whatever the samples and the filters: the sync positions are strictly ascending. If the first is a sample, every
      row drawn is the function of its own stretches of the samples from there on; if not, none is drawn. */
  lemma EveryPicture(power: H.Power, sync: seq<int> -> bool, freq: Oracle,
                     samples: seq<int>, start: nat, before: Frame, offset: nat)
    requires BeginsAt(power, samples, start) && InScale(before.timing.scale)
    ensures var syncs := SyncPositions(TOOL, TOOL_GATE, sync, samples, start);
            var f := Received(freq, before, offset, samples, syncs, |samples|);
            && StrictlyAscending(syncs)
            && if syncs == [] || !(0 <= syncs[0] < |samples|) then
                 f == before
               else
                 var marks := Positions(syncs);
                 var rows := LogRun(before.timing, offset, EventsFrom(samples, marks, syncs[0], |samples|)).rows;
                 && |f.out.renders| == |rows| <= OUT_HEIGHT == |f.out.image|
                 && RowsInOrder(samples[syncs[0]..], rows)
                 && forall y: nat :: y < |rows| ==>
                      && rows[y].line == ScottieRuns.SourceLine(y) && AllProper(rows[y].parts)
                      && f.out.image[y] == RowOf(LinesFrom(freq, rows[y].parts))
  {
    var syncs := SyncPositions(TOOL, TOOL_GATE, sync, samples, start);
    SyncPositionsAscend(sync, samples, start);
    if syncs == [] || !(0 <= syncs[0] < |samples|) {
      NeverStarted(freq, before, offset, samples, syncs);
    } else {
      ReceivedRows(freq, before, offset, samples, syncs);
    }
  }
}
