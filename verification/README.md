# Verified model of the repository's offline tools

A Dafny 4.11 model, with proofs, of the Python tools that carry the repository's hardest logic: the LVGL
bitmap-font compressor, the Scottie 1 SSTV receiver, and the smaller tools that count code, build charset files,
rank glyphs and validate locale packs. `dafny verify dfyconfig.toml` checks everything.

## What is modelled

**Font compressor** (`Bits`, `FontCodec`, `FontRoundTrip`, `FontFormat`, `FontFile`, `FontText`). Bytes are unpacked to bits, most significant
bit first. The bit writer, the pixel reader, the encoder, the decoder, the glyph loop and the C text of the bitmap
are methods proved against functions on bit strings. The results:

- decoding inverts encoding for a pixel list and a width *iff* every pixel fits the width (width 0 included),
  whatever bytes follow; the decoder stands exactly behind the bits of each pixel and never enters its counter mode;
- in the concatenated bitmap every glyph decodes, from its new offset, to its old pixels, pixel i being the number in
  bits i·bpp to (i+1)·bpp behind the glyph's first byte, so the tool's own run-time check can never fail; it succeeds
  iff all glyphs are in order and their bits are there, and otherwise stops at the first that is not;
- the length of a coded glyph: a bound that is reached, and the exact length of a run of equal pixels; and the bits
  themselves, for pixels without equal neighbours and for a run and what ends it;
- on *any* long enough stream the decoder's counter stays in its bounds and at most 7 + bpp bits go per pixel;
- printing bytes and scanning them back is the identity for every byte string except the empty one, which is
  printed as one zero byte; and where each token, comma, blank, indent and newline of the text stands.

**SSTV receiver** (`Ring`, `ToneAutomaton`, `HeaderDetector`, `HeaderSearch`, `SyncDetector`, `SyncLineTracker`,
`TrackerRuns`, `TrackerLockUp`, `EvenSyncs`, `NearSyncs`, `SyncRuns`, `SyncGrid`, `SyncSmoothing`, `EarlyStart`,
`ScottieModel`, `ScottieDecoder`, `ScottieClock`, `ScottieRuns`, `ScottieTiming`, `ScottiePicture`, `ScottieWhole`,
`ScottieLog`, `ScottieRows`, `ScottieReceiver`, `ToolRun`).
The filters are oracles: the power of a frequency in a window, whether a window holds the sync tone, the frequency of
a window. Floats are reals, `int(...)` is truncation. With `USE_SLOWRX` set, as it is, only the header detector runs;
the sync detector, the tracker and the decoder are modelled as written for the other path. The results:

- the header detector fires at the first sample at which the four tone runs have occurred in order, and at no other;
  its windows are the last 512 samples at pushes 767, 1023, ...;
- the line tracker: when the fit becomes ready, where slope and gaps stay, and the prediction error;
- a defect of its fit, stated exactly: the first accepted position is missing from `sum_y`, so the fitted slope is the
  least-squares slope plus 6·first/(n(n+1)) and equals it iff the first position is sample 0;
- its lock-up, stated exactly: for any positions in any order, nothing is accepted and nothing reset iff each is
  outside the window around the last accepted one, or off the line before the fourth miss. For positions a window's
  low end apart, which all hits of the sync detector are, the first one turned away behind the fit is final: the
  positions accepted are a prefix of those offered and the reset is never reached. The sync detector's gate
  likewise: it stays shut iff no candidate passes measured from the last hit, and one gap above the window shuts it;
- how many of perfectly regular syncs the tracker accepts, for every first position, window of positive width, fit
  length and gap inside the window or above it. At the tool's own line length of 18884 samples it follows the whole
  transmission iff the first sync comes at most at sample 27192 or from 332680 to 361608, where the slope is clamped;
  else only the 24 positions of the fit are ever accepted;
- real hits are not regular: the search looks at every 80th sample, and the lists of candidates a run can have are
  exactly the ascending lists of that grid. For positions within 80 samples of regular ones the same holds with wider
  margins: followed up to sample 21386, lost behind the fit from 33000 to 329590 and from 364698 on;
- the two together with the search for the header, which cannot end before sample 41644: whatever the samples and the
  filters, if the tool hears more than 24 lines of its own line length, each within 80 samples, it takes up just the
  first 24, unless the first comes between samples 329590 and 364698;
- the smoothing of the positions keeps their order for any samples, and leaves regular ones as they are; but it can move
  the first one before the first sample. An input is given with a header and 200 syncs, all of them taken up by the
  tracker, from which no picture is ever begun;
- the frame decoder: the safety of every run of samples and syncs, the exact number of samples a frame takes, a bound
  that holds with any resynchronisation, a measure every event decreases, the rows drawn and from which lines;
- the picture itself: a colour phase, a line and a whole frame without resynchronisation equal a direct function of
  the samples, each pixel being the intensity of its own window; and with any resynchronisation every row is the
  direct function of three consecutive stretches of the samples, Blue cut off only in its last quarter;
- the timing correction, which goes the wrong way: over lines of constant length n, resynchronised by each sync, the
  scale tends to 18882/n, clamped, where n/18882 would fit (the phase offset taken off n); the two agree iff n is
  nominal. A sync resynchronises only when it comes before the decoder expects it, and from the nominal scale that makes
  the decoder's lines, too long already, longer still; likewise the scale set before the picture falls as the measured
  line grows;
- the feeding loop: which events the decoder gets, and from there the picture of a transmission; and for any samples at
  all, the rows drawn as functions of the samples, or no row if the first smoothed position is no sample.

**Other tools** (`Text`, `LineScanner`, `CodeStats`, `LineKinds`, `Charset`, `RangeFile`, `Ranking`, `Dictionary`,
`LocaleKeys`, `LocaleFiles`).

- The comment scanner equals a character automaton, and the counts of a file are the numbers of its lines with code,
  without code but with a comment, and without either; said of the characters for line comments, block comments over
  several lines and string literals. The sums by group equal the overall sum.
- The range loop yields the only canonical cover, no cover is smaller, and its text reads back and has the stated shape.
- The glyph ranking holds exactly the dictionary's glyphs; of two the one with the larger sum of 256, 255, ... over its
  places is ahead, or the one that stands first. It is unique, loses no weight, is wrapped to lines of 64 and handed
  over intact.
- The locale checks list exactly the errors earned, in the code's order. From the lines of the files: no error is listed
  iff there are keys at all, every line that needs a tab has one, no key is given twice in a file, all files have the
  same keys, and each row has an acceptable text that is not blank behind its first tab.

Inputs that come from files, the network or the filters are parameters. Where a function of the source raises an
exception the model returns an error value.

## Model

| member | source | states |
|---|---|---|
| Bits.GetBits | tools/compress_lvgl_bitmap_font.py:17-24 | the number in the addressed bits of the unpacked buffer; nothing exactly where the source indexes past its end |
| Bits.UnpackAt | tools/compress_lvgl_bitmap_font.py:20-21 | bit `pos` of a buffer is `(buf[pos >> 3] >> (7 - (pos & 7))) & 1` |
| Bits.BitWriter.Put | tools/compress_lvgl_bitmap_font.py:40-42 | appends exactly the low `width` bits, most significant first |
| Bits.BitWriter.ToBytes | tools/compress_lvgl_bitmap_font.py:44-54 | the bits in bytes, the last one padded with zeros |
| Bits.UnpackPack | tools/compress_lvgl_bitmap_font.py:44-54 | unpacking the written bytes gives the bits and then only zero padding |
| Bits.ValueOfDigits | tools/compress_lvgl_bitmap_font.py:40-42 | a value that fits the width is read back from its bits |
| FontCodec.ReadPlainPixels | tools/compress_lvgl_bitmap_font.py:27-33 | pixel i is the number in bits i*bpp to (i+1)*bpp behind the start byte; nothing iff the last of them lies beyond the data |
| FontCodec.EncodeNoCounter | tools/compress_lvgl_bitmap_font.py:57-92 | the packed bits of the two-state run-length coding |
| FontCodec.DecodePixel | tools/compress_lvgl_bitmap_font.py:109-140 | one pixel of the three-state decoder, including every read past the end |
| FontCodec.DecodeLvglStream | tools/compress_lvgl_bitmap_font.py:95-142 | all pixels of the stream, or nothing if a read goes past its end |
| FontRoundTrip.StepMatches | tools/compress_lvgl_bitmap_font.py:71-90 | for one pixel the decoder reads what the encoder wrote and both stay in step |
| FontRoundTrip.Simulate | tools/compress_lvgl_bitmap_font.py:57-142 | the simulation over any number of pixels, from any pair of matching states |
| FontRoundTrip.DecodeTracksEncode | tools/compress_lvgl_bitmap_font.py:57-142 | after every prefix the decoder stands exactly behind the bits written for it and is not in COUNTER, whatever follows the stream |
| FontRoundTrip.RoundTrip | tools/compress_lvgl_bitmap_font.py:252-255 | decoding inverts encoding iff every pixel fits in bpp bits, for every pixel list, width and trailing bytes |
| FontRoundTrip.DecodeAnyStream | tools/compress_lvgl_bitmap_font.py:95-142 | on any long enough stream: no read out of range, at most 7 + bpp bits per pixel, counter 0..10 in REPEATED and 1..63 in COUNTER |
| FontRoundTrip.CounterRun | tools/compress_lvgl_bitmap_font.py:132-139 | a counter of k repeats the previous pixel k - 1 times without reading and then reads a literal |
| FontFormat.CounterStream | tools/compress_lvgl_bitmap_font.py:109-140 | two equal pixels, eleven ones, a counter c in six bits and a pixel decode to 12 + c copies of the first and that pixel |
| FontRoundTrip.DecodeExtends | tools/compress_lvgl_bitmap_font.py:95-142 | a successful decode of any stream is not changed by bits behind it |
| FontRoundTrip.EncodedLength | tools/compress_lvgl_bitmap_font.py:65-92 | n pixels take at most n*bpp + (n-1)/2 bits |
| FontRoundTrip.EncodedLengthIsTight | tools/compress_lvgl_bitmap_font.py:65-92 | that bound is reached for every n and bpp |
| FontRoundTrip.EqualPixelsLength | tools/compress_lvgl_bitmap_font.py:65-92 | the exact length of n equal pixels |
| FontFormat.PlainWhereNeighboursDiffer | tools/compress_lvgl_bitmap_font.py:71-80 | pixels without equal neighbours are written as they are |
| FontFormat.RunIsFlagged | tools/compress_lvgl_bitmap_font.py:71-90 | a run of two to twelve is written as two pixels and a one for each further, and what ends it as a zero and the pixel |
| FontFile.CompressGlyphs | tools/compress_lvgl_bitmap_font.py:234-257 | success iff every glyph is in order and its bits are there; then each decodes, from its new offset in the concatenated bitmap, to the pixels in its own bits of the old one; otherwise the error of the first faulty glyph; the run-time check never fails |
| FontFile.PieceSize | tools/compress_lvgl_bitmap_font.py:240-257 | the bytes of one glyph in the new bitmap are bounded by its pixels |
| FontFile.FormatByteArray | tools/compress_lvgl_bitmap_font.py:145-152 | the text: hex tokens, a given number per line, each line behind the given indent |
| FontFile.HexDigitIs | tools/compress_lvgl_bitmap_font.py:148 | the digits of a token are lower-case |
| FontText.VisibleText | tools/compress_lvgl_bitmap_font.py:145-152 | without its white space the text is the token of each byte with a comma behind it, for any line length and blank indent |
| FontText.BytesInPlace | tools/compress_lvgl_bitmap_font.py:145-152 | byte j of line k stands behind that line's indent and j tokens, with a comma and a blank, or a newline at the line's end |
| FontText.TextLength | tools/compress_lvgl_bitmap_font.py:145-152 | and the text has no other characters: an indent for each line and six characters for each byte |
| FontFile.PrintThenScan | tools/compress_lvgl_bitmap_font.py:145-152 | behind any indent without a zero digit, scanning the text with the input pattern returns the bytes iff there are any; the empty string comes back as one zero byte |
| FontFile.DefaultPrintThenScan | tools/compress_lvgl_bitmap_font.py:145-152 | the same at the tool's indent and line length |
| Ring.Push | tools/sstv_offline_decode.py:403-408 | storing in the ring is appending to the history it stands for |
| Ring.UnrollsToLatest | tools/sstv_offline_decode.py:415-419 | a full ring unrolls to the latest samples in the order they came |
| Ring.CopyOut | tools/sstv_offline_decode.py:415-419 | the unrolling loop |
| ToneAutomaton.Explained | tools/sstv_offline_decode.py:425-461 | the automaton's stage is the largest number of tone runs that have occurred, its count the current run |
| ToneAutomaton.RecognisesOccurrence | tools/sstv_offline_decode.py:425-461 | k stages are passed iff the first k tone runs occur in order and disjoint: sound, and greedy matching misses nothing |
| HeaderDetector.WindowCounts | tools/sstv_offline_decode.py:394-397 | the run lengths 52, 2 and 5 and the 13230 VIS samples |
| HeaderDetector.DetectsTheDominantTone | tools/sstv_offline_decode.py:354-378 | a tone is reported iff it is 30 percent above each other one and holds 45 percent of the total |
| HeaderDetector.ToneOfMeans | tools/sstv_offline_decode.py:420-424 | the tone of a window is one of the four iff the power at that frequency dominates the other three |
| HeaderDetector.TonesGrow | tools/sstv_offline_decode.py:403-424 | a classification happens exactly on pushes 767 + 256k, of the last 512 samples |
| HeaderDetector.HeaderDetector.Push | tools/sstv_offline_decode.py:400-462 | keeps the state equal to the automaton's over all windows heard; the result is sticky and its value is exact |
| HeaderDetector.HeaderDetector.FiresOnHeader | tools/sstv_offline_decode.py:400-462 | a header end is set iff the samples heard contain a header |
| HeaderDetector.FindHeader | tools/sstv_offline_decode.py:1172-1180 | a header is reported iff the samples contain one, at the sample that completes the earliest |
| SyncDetector.SyncDetector.Push | tools/sstv_offline_decode.py:489-543 | a hit iff this is an 80th eligible push, the last 400 samples hold the sync tone and the gate passes; only hits move the last sync |
| SyncRuns.HitsLieInGaps | tools/sstv_offline_decode.py:533-543 | over any run of candidates every hit passes the gate measured from the hit before it |
| SyncRuns.LostExactlyWhen | tools/sstv_offline_decode.py:533-543 | behind any run, no later candidate is taken iff each is refused measured from the last hit |
| SyncRuns.OneMissedSyncIsFinal | tools/sstv_offline_decode.py:533-542 | after one gap above the window no later candidate passes |
| SyncGrid.CandidatesExactly | tools/sstv_offline_decode.py:489-532 | the candidates of a run from `start` are exactly the samples start + 478 + 80k whose last 400 samples hold the tone, in ascending order |
| SyncGrid.CandidatesOnGrid | tools/sstv_offline_decode.py:501-504 | two candidates of a run are a multiple of 80 samples apart |
| SyncGrid.CandidateLists | tools/sstv_offline_decode.py:489-532 | a list is the candidate list of some run over n samples iff it ascends on that grid below n |
| SyncGrid.OneLostLine | tools/sstv_offline_decode.py:1353-1361 | samples for the tool: lines of 18880 samples with the second sync not heard; these are the candidates, and only the first is ever taken |
| SyncGrid.ToolPasses | tools/sstv_offline_decode.py:533-542 | the tool's gate in numbers: more than 18522 samples behind the last sync and, if there was one, at most 21150 |
| SyncGrid.RegularRun | tools/sstv_offline_decode.py:1337-1364 | samples with every sync of 18880-sample lines: all are collected iff the first is at most 27192 or from 333293 to 362221, else 24 |
| SyncGrid.NextLookIsFirst | tools/sstv_offline_decode.py:501-504 | the look at which such a sync is heard is the first of the grid from the end of the pulse on |
| SyncGrid.TransmissionRun | tools/sstv_offline_decode.py:1337-1364 | samples with lines of 18884, each sync heard at the next look: all are collected if the first is at most 21386, just 24 from 33000 to 329590 and from 364698 on |
| SyncGrid.ToolStopsAtFit | tools/sstv_offline_decode.py:1337-1364 | for any samples and filters: if the candidates behind the search for the header are those of more than 24 lines of 18884 samples, each within 80, exactly the first 24 are collected, unless the first comes between 329590 and 364698 |
| SyncRuns.ToolGate | tools/sstv_offline_decode.py:1201-1205 | the gate's constants: 18522 samples, and the same window as the tracker's |
| SyncLineTracker.SyncLineTracker.AcceptPosition | tools/sstv_offline_decode.py:85-141 | the new state and verdict for every position |
| SyncLineTracker.SyncLineTracker.Fit | tools/sstv_offline_decode.py:106-124 | the sums and, when due, the clamped line through them |
| SyncLineTracker.SyncLineTracker.Reset | tools/sstv_offline_decode.py:72-83 | the initial state |
| TrackerRuns.RunKeepsInvariant | tools/sstv_offline_decode.py:85-141 | in every run: x-sums in closed form before the fit, fit ready from the max(2, max_fit)-th accepted position on, slope and accepted gaps in their windows, line through the last accepted position |
| TrackerRuns.DenominatorPositive | tools/sstv_offline_decode.py:112-113 | the denominator is n²(n²-1)/12, so from two positions on the fit can be solved |
| TrackerRuns.PredictionErrorIsGapMinusSlope | tools/sstv_offline_decode.py:126-127 | behind the second position accepted after the fit the prediction error is the gap minus the slope |
| TrackerRuns.SlopeBias | tools/sstv_offline_decode.py:106-116 | the fitted slope is the least-squares slope plus 6*first/(n(n+1)), equal iff the first position is 0 |
| TrackerRuns.SlopeOfEvenPositions | tools/sstv_offline_decode.py:106-116 | for evenly spaced positions the raw slope is their gap iff the first position is 0 |
| TrackerRuns.FirstSlope | tools/sstv_offline_decode.py:114-123 | the slope the tracker starts with is that biased slope, clamped |
| TrackerLockUp.LockedExactlyWhen | tools/sstv_offline_decode.py:85-141 | for any positions: none is accepted and no reset happens iff each is outside the window around the last accepted one, or off the line before the fourth miss |
| TrackerLockUp.OneMissedLineIsFinal | tools/sstv_offline_decode.py:97-105 | behind the fit, one gap above the window means no later position is accepted and no reset happens |
| TrackerLockUp.FirstRejectionIsFinal | tools/sstv_offline_decode.py:97-135 | for positions at least the window's low end apart the first one turned away behind the fit is final, whatever the reason; the reset is unreachable |
| TrackerLockUp.AcceptedIsAPrefix | tools/sstv_offline_decode.py:85-141 | over whole runs of such positions exactly a prefix is accepted, up to the first position turned away, and nothing is reset |
| TrackerLockUp.MissedLineEndsPrefix | tools/sstv_offline_decode.py:97-105 | a line missing behind the fit: the positions before it are all that are ever accepted |
| EvenSyncs.EvenSyncsAccepted | tools/sstv_offline_decode.py:85-141 | of regular positions whose gap lies in a window of positive width, exactly the first so many are accepted: all, those of the fit, or one more, decided by the closed form of the first prediction error and of the slope |
| EvenSyncs.WideSyncs | tools/sstv_offline_decode.py:97-105 | of regular positions whose gap is above the window, exactly those of the fit are accepted |
| EvenSyncs.NominalSyncs | tools/sstv_offline_decode.py:1337 | the tool's window and fit length, gaps 18880 to 18884, every first position: all are accepted iff it is at most 27192 or in the range in which the clamped slope meets the positions again, else 24 |
| EvenSyncs.StepSyncs | tools/sstv_offline_decode.py:1337 | at 18880, a multiple of the detector's step: that range is 333293 to 362221 |
| EvenSyncs.LineSyncs | tools/sstv_offline_decode.py:1337 | at the tool's line length of 18884: that range is 332680 to 361608 |
| NearSyncs.NearLost | tools/sstv_offline_decode.py:85-141 | positions within q of regular ones, fit length 24: only the 24 are accepted if the regular ones miss the line by more than the margin and 8347q/1380 |
| NearSyncs.NearKept | tools/sstv_offline_decode.py:85-141 | all are accepted if the regular ones meet it by that much and the fitted slope is near enough to the gap |
| NearSyncs.ToolNearSyncs | tools/sstv_offline_decode.py:1337 | within 80 samples of 18884-sample lines: all up to a first position of 21386, just 24 from 33000 to 329590 and from 364698 on |
| EvenSyncs.ToolLine | tools/sstv_offline_decode.py:1202-1205 | the tool's line length of 18884 samples and the window 16617..21150 |
| EvenSyncs.WrongSlope | tools/sstv_offline_decode.py:106-123 | an input: two positions 100 apart are fitted with slope 112 |
| EvenSyncs.LostForGood | tools/sstv_offline_decode.py:97-105 | an input: one position missing behind the fit, none of the five that follow is accepted |
| HeaderSearch.AwaitHeader | tools/sstv_offline_decode.py:1339-1349 | one sample of the search for the header: it is over exactly where BeginsAt says, at the header's end or the timeout |
| HeaderSearch.BeginsOnce | tools/sstv_offline_decode.py:1339-1349 | for any samples there is one place where it is over: the end of the earliest header, sample 220500 or the end of the samples, whichever comes first |
| HeaderSearch.HeaderTakes | tools/sstv_offline_decode.py:425-462 | no header within 28927 samples, so none ends before sample 41644 |
| SyncRuns.CollectSyncs | tools/sstv_offline_decode.py:1337-1364 | the whole loop over header detector, sync detector and tracker: the positions are the hits, from where the search for the header is over, that the tracker accepts |
| SyncRuns.CollectedIsAPrefix | tools/sstv_offline_decode.py:1337-1364 | for any samples: the positions are a prefix of the hits, and the first hit left out, if any, is behind the fit, in the window and off the line |
| SyncRuns.ToolSameWindow | tools/sstv_offline_decode.py:1337-1361 | the tool's gate and tracker meet what that takes |
| SyncSmoothing.SlopeAtLeast | tools/sstv_offline_decode.py:1366-1377 | the least-squares slope of positions at least m apart is at least m |
| SyncSmoothing.SmoothedApart | tools/sstv_offline_decode.py:1366-1378 | smoothing positions at least m >= 2 apart keeps them in order, at least m - 1 apart |
| SyncSmoothing.NormalEquations | tools/sstv_offline_decode.py:1366-1377 | slope and start solve the normal equations: it is the least-squares line |
| SyncSmoothing.SmoothedIsNearest | tools/sstv_offline_decode.py:1378 | each position becomes the whole number nearest to the line |
| SyncSmoothing.SmoothedEven | tools/sstv_offline_decode.py:1366-1378 | regular positions are left as they are |
| SyncSmoothing.SyncPositionsAscend | tools/sstv_offline_decode.py:1337-1378 | for any samples the tool's sync positions are strictly ascending |
| EarlyStart.BentFollowed | tools/sstv_offline_decode.py:85-141 | 24 positions 18560 apart and then any number 21120 apart are all accepted |
| EarlyStart.NoPicture | tools/sstv_offline_decode.py:1337-1427 | samples and filters with a header and 200 such syncs, all collected: the first smoothed position is -3505, and the decoder stays as it was |
| ScottieModel.BaseLengths | tools/sstv_offline_decode.py:849-851 | the nominal lengths of porch, sync and colour in samples |
| ScottieModel.ScaledLengths | tools/sstv_offline_decode.py:877-882 | for scales in [0.95, 1.05]: the ranges of all lengths, colour above 320, window within the phase |
| ScottieModel.ScaledIsNearest | tools/sstv_offline_decode.py:877-881 | the scaled lengths are rounded to the nearest sample |
| ScottieModel.IntensityIs | tools/sstv_offline_decode.py:305-316 | 0 up to 1500 Hz, 255 from 2300 Hz on, and between them the nearest whole number on a straight scale |
| ScottieModel.Margins | tools/sstv_offline_decode.py:980-982 | the columns beside the picture and the rows not drawn have the panel's colour |
| ScottieDecoder.Scottie1Decoder.constructor | tools/sstv_offline_decode.py:841-875 | the idle decoder with the nominal lengths |
| ScottieDecoder.Scottie1Decoder.ApplyTimingScale | tools/sstv_offline_decode.py:877-888 | the lengths of the scale; the ring is cleared iff its size changes |
| ScottieDecoder.Scottie1Decoder.StartFrame | tools/sstv_offline_decode.py:900-910 | the state at the first sample of a frame |
| ScottieDecoder.Scottie1Decoder.OnSync | tools/sstv_offline_decode.py:912-972 | a frame start, or the resynchronisation of a line in the last quarter of Blue, or nothing |
| ScottieDecoder.Scottie1Decoder.RenderLine | tools/sstv_offline_decode.py:974-992 | draws the row of the line once, scaled and padded |
| ScottieDecoder.Scottie1Decoder.StepColor | tools/sstv_offline_decode.py:994-1045 | one sample of a colour phase: ring, estimate, phase change and end of line |
| ScottieDecoder.Scottie1Decoder.Step | tools/sstv_offline_decode.py:1047-1075 | one sample in any phase |
| ScottieClock.DoneAfterRemaining | tools/sstv_offline_decode.py:1047-1075 | from any state of a frame it is done after exactly the samples that remain |
| ScottieClock.FrameTakes | tools/sstv_offline_decode.py:900-930 | the length of a frame from its offset in the line |
| ScottieClock.BudgetBound | tools/sstv_offline_decode.py:912-1075 | no state of a frame has more than the longest frame's samples left |
| ScottieRuns.EveryRunIsSafe | tools/sstv_offline_decode.py:877-1075 | for every interleaving of samples and syncs: scale, lengths, phase positions and ring indices in range, counts 0 or 1, sums at most 255 per count, done iff 256 lines |
| ScottieRuns.RunKeeps | tools/sstv_offline_decode.py:877-1075 | the invariant behind it: a channel is empty until its phase and above the current pixel; the rows drawn fit the lines done |
| ScottieRuns.FinishedFrameIsDrawn | tools/sstv_offline_decode.py:974-992 | a finished frame has drawn 192 rows once each, top down, row y from line ceil(4y/3), and shows them |
| ScottieRuns.EveryEventDescends | tools/sstv_offline_decode.py:932-1075 | a sample strictly decreases (lines, phases, samples left); a sync does nothing or decreases it |
| ScottieRuns.PhasesRunOnce | tools/sstv_offline_decode.py:932-1075 | each phase of each line runs at most once, whatever syncs come |
| ScottieRuns.EveryFrameEnds | tools/sstv_offline_decode.py:912-1075 | a frame is done after at most LONGEST_FRAME samples, whatever syncs come |
| ScottieRuns.FrameTiming | tools/sstv_offline_decode.py:912-1075 | without a later sync a frame is done after exactly (s-o)+p+c + 255*(3p+3c+s) samples for o < s, and after the corresponding number for other offsets |
| ScottieRuns.ResyncRealigns | tools/sstv_offline_decode.py:932-971 | after a resynchronisation as many samples remain as from a frame start at that sync, less the lines done |
| ScottieTiming.NextSync | tools/sstv_offline_decode.py:932-971 | a sync n samples behind one that set the clock sets it again iff the decoder's own line would have reached its sync later, by at most a quarter of a colour phase |
| ScottieTiming.TargetIs | tools/sstv_offline_decode.py:939-952 | with m the samples counted less the phase offset: a correction takes place iff 16616 <= m <= 21147, towards 18882/m kept within 0.95 and 1.05 |
| ScottieTiming.WrongWay | tools/sstv_offline_decode.py:948-953 | what the correction tends to is the scale that fits the line iff the line is nominal; otherwise it lies on the other side of 1 |
| ScottieTiming.CorrectsAway | tools/sstv_offline_decode.py:948-953 | with the scale between 1 and the one that fits, a correction leads away from the one that fits |
| ScottieTiming.ScaleApproaches | tools/sstv_offline_decode.py:953 | k corrections by one length leave 0.98^k of the distance to the clamped 18882/n |
| ScottieTiming.DrivenToTarget | tools/sstv_offline_decode.py:948-953 | so the scale comes as near to it as wanted and stays there |
| ScottieTiming.ConstantLines | tools/sstv_offline_decode.py:912-1075 | in the decoder itself, for any samples: lines of constant length met at the first scale and at the last are resynchronised by every sync, with the scale after k lines exactly that of k corrections |
| ScottieTiming.ShortLinesLengthen | tools/sstv_offline_decode.py:912-1075 | from the nominal scale, such lines are all shorter than nominal and make the decoder's lines longer |
| ScottieTiming.SomeShortLines | tools/sstv_offline_decode.py:912-972 | an instance: 18700 samples a line are met all the way to the scale 18882/18700 |
| ScottieTiming.LongerMeasuredShorterDrawn | tools/sstv_offline_decode.py:1405-1412 | the scale set before the picture: the longer the measured line, the shorter the decoder's; it fits iff the line has the expected length |
| ScottiePicture.PixelBegins | tools/sstv_offline_decode.py:995 | a pixel that is new at a position is the next one and begins there |
| ScottiePicture.PhaseFillsChannel | tools/sstv_offline_decode.py:994-1028 | a colour phase from position k0 to its end gives pixel p one estimate iff p >= ((k0+W-1)*320)/c, from the W samples that end where the pixel begins; k0 = 0 is a whole phase |
| ScottieWhole.WholeLine | tools/sstv_offline_decode.py:994-1075 | a full line is decoded to three channels, each from its own stretch of the line's samples |
| ScottieWhole.WholeFrame | tools/sstv_offline_decode.py:900-1075 | a full frame from any offset: done with its last sample, and every image row is the direct function of its line's samples |
| ScottieWhole.WholeFramePixel | tools/sstv_offline_decode.py:983-992 | each picture pixel below the first row: its three colours as intensities of their own sample windows of the row's line |
| ScottieLog.DecoderFollowsLog | tools/sstv_offline_decode.py:932-1075 | for every interleaving of samples and syncs the decoder has collected and drawn what a log of the colour phases, kept from the clock alone, gives |
| ScottieRows.LogIsSound | tools/sstv_offline_decode.py:932-1075 | the stretches of that log are consecutive pieces of the samples, in order; a complete line has Green whole, Blue whole or cut off in its last quarter, Red to the end |
| ScottieRows.EveryRowFromItsSamples | tools/sstv_offline_decode.py:912-1075 | so every row of every run, with any syncs, is the direct function of its own stretches |
| ScottieReceiver.StartsExactlyWhen | tools/sstv_offline_decode.py:1414-1427 | for any sync positions the frame starts iff the first is one of the samples; one before the first sample is waited for in vain |
| ScottieReceiver.FedIsEventsFrom | tools/sstv_offline_decode.py:1414-1427 | for ascending sync positions from a sample on the decoder is fed the samples from the first on, with a mark at each later one |
| ScottieReceiver.Receive | tools/sstv_offline_decode.py:1414-1429 | the loop leaves the decoder in the run of exactly those events, or untouched if the first position, of any list of integers, is not a sample; a finished frame shows all rows |
| ScottieReceiver.OneSyncPicture | tools/sstv_offline_decode.py:1414-1429 | with one sync position the picture is the direct function of the samples behind it |
| ScottieReceiver.ReceivedRows | tools/sstv_offline_decode.py:1414-1429 | with any ascending sync positions that begin at a sample, as the tool's ascend, every row is the function of its own stretches of the samples from the first sync on |
| ToolRun.EveryPicture | tools/sstv_offline_decode.py:1337-1429 | for any samples and filters: the collected and smoothed positions ascend, and every row drawn is the function of its own stretches of the samples from the first on; none is drawn if that is not a sample |
| LineScanner.FindBlockEnd | scripts/code_stats.py:133 | the first end of a block comment from an index, or -1 |
| LineScanner.SkipString | scripts/code_stats.py:152-163 | skipping a string literal leaves the automaton's outcome for the line unchanged |
| LineScanner.ScanLine | scripts/code_stats.py:130-167 | the index scanner has the same outcome as the character automaton on every line |
| CodeStats.CountCLikeLines | scripts/code_stats.py:110-173 | the counts are those of the automaton over all lines, block comments carried across; total = code + comment + blank |
| LineKinds.KindsAre | scripts/code_stats.py:166-171 | the kind of every line of a file: code iff it has code, else comment iff it has a comment or is left in a block comment, else blank |
| LineKinds.CountsAre | scripts/code_stats.py:110-173 | the three counts of a file are the numbers of such lines |
| LineKinds.LineComments | scripts/code_stats.py:142-144 | a line with code and a line comment counts as code, one with the comment alone as comment |
| LineKinds.PlainLines | scripts/code_stats.py:117-120 | a line without quotes and slashes counts as code, or as blank if it is |
| LineKinds.BlockComments | scripts/code_stats.py:131-150 | a block comment over any number of lines: comment lines, blank ones too, but for the first with code before it and the last with code behind it |
| LineKinds.Literals | scripts/code_stats.py:152-163 | comment signs in a string literal begin nothing |
| LineKinds.LineEndsDoNotCount | scripts/code_stats.py:116 | line ends change no kind |
| CodeStats.CountsAddUp | scripts/code_stats.py:166-171 | every line is of exactly one kind |
| CodeStats.PlusAdds | scripts/code_stats.py:19-24 | sums of counts are taken field by field |
| CodeStats.Stats.Add | scripts/code_stats.py:19-24 | adds field by field, an object to itself included |
| CodeStats.Aggregate | scripts/code_stats.py:225-234 | the overall sum and one sum per language and, if asked for, per directory, each that of the group's files; no directory sums otherwise |
| CodeStats.GroupsAddUp | scripts/code_stats.py:229-234 | the groups' sums, in any order, add up to the overall sum |
| Charset.IterRankedChars | tools/build_locale_pack_charset.py:65-76 | the first `limit` glyphs of the file, or all for 0 |
| Charset.CollectCharset | tools/build_locale_pack_charset.py:79-112 | exactly the characters of the texts, neither ASCII nor white space, and of the head of the ranked file, less the excluded ones, strictly ascending |
| Charset.WrappedLayout | tools/build_locale_pack_charset.py:115-118 | where each glyph and each newline of the wrapped file stands: 64 glyphs to a line, a newline behind each |
| Charset.WrapThenRead | tools/build_locale_pack_charset.py:115-118 | reading a wrapped charset file returns the glyphs written |
| Charset.Ranges | tools/build_locale_pack_charset.py:121-132 | for ascending codes: ascending ranges with gaps that hold exactly the codes |
| RangeFile.WriteRanges | tools/build_locale_pack_charset.py:121-132 | the file's text: those ranges of the characters' codes, in upper-case hexadecimal, a single code without a dash |
| RangeFile.HexShape | tools/build_locale_pack_charset.py:130-131 | a code is written in upper-case digits without leading zeros |
| RangeFile.ItemShape | tools/build_locale_pack_charset.py:130-131 | a range begins with 0x and has a dash, with 0x behind it, iff it holds more than one code |
| RangeFile.TextShape | tools/build_locale_pack_charset.py:131-132 | the text is one line with a newline, or nothing |
| RangeFile.TextReads | tools/build_locale_pack_charset.py:121-132 | reading that text gives the ranges back |
| Charset.CanonicalCoverIsUnique | tools/build_locale_pack_charset.py:121-132 | no other such list of ranges holds the same codes |
| Charset.CanonicalCoverIsSmallest | tools/build_locale_pack_charset.py:121-132 | no list of ranges at all that holds the same codes is shorter |
| Ranking.ScoreGlyphs | tools/extract_pinyin_chars.py:78-100 | scores are the sums of token weights, order numbers rise with first appearance, for exactly the glyphs seen |
| Ranking.Rank | tools/extract_pinyin_chars.py:103-106 | every glyph once, in key order |
| Ranking.RankingIsUnique | tools/extract_pinyin_chars.py:103-106 | there is only one such list |
| Ranking.RankingMeans | tools/extract_pinyin_chars.py:103-106 | ahead means a larger weight sum or an equal one and an earlier first appearance; the code point never decides |
| Ranking.ScoresAddUp | tools/extract_pinyin_chars.py:91-100 | the scores of the ranking add up to the weights of all candidate characters |
| Ranking.HandOver | tools/build_locale_pack_charset.py:65-76 | the builder takes exactly the first `limit` glyphs of the ranking, and no glyph left out outscores one taken |
| Dictionary.WeightIs | tools/extract_pinyin_chars.py:90 | the weights are 256, 255, ... down to 1 and stay there |
| Dictionary.TokensOfLine | tools/extract_pinyin_chars.py:82-88 | the tokens of a line are just those that were joined by blanks behind its tab |
| Dictionary.TokensOfParts | tools/extract_pinyin_chars.py:88 | in general the parts between the blanks, stripped, without empty ones |
| Dictionary.StripIs | tools/extract_pinyin_chars.py:88 | stripping takes away exactly the white space at both ends |
| Dictionary.OccurrencesAre | tools/extract_pinyin_chars.py:87-100 | the glyphs scored are those of the candidate texts, in their order and number |
| Dictionary.ScoreIs | tools/extract_pinyin_chars.py:87-97 | the score of a glyph is the sum of max(1, 256 - place) over its copies in all lines |
| Dictionary.RankedBySums | tools/extract_pinyin_chars.py:103-106 | the ranking holds exactly the dictionary's glyphs, larger sums ahead and among equal ones the first in the text |
| Dictionary.OneLineRanked | tools/extract_pinyin_chars.py:69-106 | a single line of at most 256 different glyphs is ranked as it is listed |
| Dictionary.ExtractRanked | tools/extract_pinyin_chars.py:69-113 | the ranked file of a dictionary, by those sums and places, and the file of the same glyphs in code point order |
| LocaleKeys.ParseTsv | tools/validate_locale_packs.py:60-73 | keys in order, for each the text behind the first tab of its last row, numbers of lines without a tab |
| LocaleKeys.RowOfMeans | tools/validate_locale_packs.py:65-73 | a line is a row of a key and a value iff it is neither blank nor a comment and is key, tab and value, with no tab in the key |
| LocaleKeys.KeysAre | tools/validate_locale_packs.py:71-72 | the keys are those of the rows in the order of the lines, none left out |
| LocaleKeys.MalformedAre | tools/validate_locale_packs.py:65-70 | the lines reported are those neither blank nor a comment that have no tab, counted from 1, rising |
| LocaleKeys.UnionOrder | tools/validate_locale_packs.py:90-98 | the keys of all files, each once, in order of first appearance |
| LocaleKeys.DistinctInOrder | tools/validate_locale_packs.py:90-98 | that order is the order of the first places of the keys |
| LocaleKeys.UnionHoldsAllKeys | tools/validate_locale_packs.py:90-98 | the union holds a key iff some file has it |
| LocaleKeys.CanonicalKeyOrder | tools/validate_locale_packs.py:84-98 | the preferred file's keys or that union |
| LocaleKeys.CheckFile | tools/validate_locale_packs.py:108-142 | the errors of a file in the code's order and number, from lists computed as the code computes them |
| LocaleKeys.ValidateStrings | tools/validate_locale_packs.py:101-144 | the errors of all files in order, or the one for an empty canonical list |
| LocaleKeys.ErrorsAreEarned | tools/validate_locale_packs.py:101-144 | an error is listed iff the file has that fault for that key or line |
| LocaleFiles.FileErrorsInOrder | tools/validate_locale_packs.py:108-142 | the errors of a file come check by check in the stated order |
| LocaleFiles.FoundOf | tools/validate_locale_packs.py:112-131 | within a check: missing keys in the canonical order, unknown ones in the file's, each as often, the others by first appearance, none left out |
| LocaleFiles.AllKeysConcat | tools/validate_locale_packs.py:90-98 | the keys of the union are taken file after file |
| LocaleFiles.AllKeysOfOne | tools/validate_locale_packs.py:92-94 | those of one file in its own order |
| LocaleFiles.CleanFile | tools/validate_locale_packs.py:60-142 | a file has no errors iff its lines are well formed, its rows have exactly the canonical keys, once each, and every value is acceptable |
| LocaleFiles.CleanExactlyWhen | tools/validate_locale_packs.py:60-144 | the same for all files, said of their lines alone: all have the same keys |
| LocaleFiles.ValidateFiles | tools/validate_locale_packs.py:101-144 | parsing and checking all files: no error iff there are keys and that holds |
| LocaleKeys.KeyChecksMeanPermutation | tools/validate_locale_packs.py:112-114 | for a duplicate-free canonical list the key checks pass iff the file's keys are a permutation of it |
| LocaleKeys.CleanPacksAgree | tools/validate_locale_packs.py:101-144 | without errors all files have the same keys, each once, and translations that are not blank, in both canonical modes |
| LocaleKeys.OddKeysAreReported | tools/validate_locale_packs.py:101-144 | a file that is no permutation of a duplicate-free canonical list is reported; so is a canonical list with a repetition |

## Left out

- Filters and image scaling: the Goertzel sums, frequency and noise estimates, resizing and comparison of images are oracles or absent.
- The slowrx path of `decode_scottie1` behind the header search, and the windowed search for sync positions. The measurement of the phase offset and of the line length between smoothing and decoding; for the decoder both are inputs (the code clamps the offset to be non-negative).
- The diagnostic fields `freq_min`, `freq_max` and `freq_samples` of the decoder, and the scratch list `pixel_window`, which the model unrolls in one expression.
- FontFile.PrintThenScan: an indent holding the digit 0 is excluded, because it can itself match the input pattern; the tool's indent is blank.
- Float rounding: `timing_scale`, the tracker's sums and the window computations are exact reals.
- WAV and C source parsing, the regular expressions for glyph descriptors, file reading and writing, argument parsing and printing.
- `count_hash_comment_lines`, language detection and the directory walk of the code counter: simple loops and tables.
- The dictionary markers of `iter_candidate_lines`: the candidate lines are the input.
- The text of the validation errors.
- The placeholder and English-fallback rules of the locale validator are predicates the model takes as parameters; the manifest checks are absent.
- ScottieDecoder.Scottie1Decoder.OnSync: the per-channel lists and the image are values the methods reassign, so aliasing of the Python lists is not modelled.
