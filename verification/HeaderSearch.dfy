/** Where `decode_scottie1` begins to look for syncs: behind the header, or after five seconds without one
    (tools/sstv_offline_decode.py). */
module HeaderSearch {
  import opened Wrappers
  import opened ToneAutomaton
  import opened HeaderDetector

  const TIMEOUT: nat := (SAMPLE_RATE * 5.0).Floor

  /** The sample with which the search for syncs begins; with too few samples, none is left for it. */
  ghost predicate BeginsAt(power: Power, samples: seq<int>, start: nat) {
    && start <= |samples|
    && (forall m: nat, end: nat :: HeaderEndsAt(power, samples, m, end) ==>
          start == Earlier(Earlier(|samples|, TIMEOUT), end))
    && (!HeaderIn(power, samples) ==> start == Earlier(|samples|, TIMEOUT))
  }

  function Earlier(a: nat, b: nat): nat {
    if a < b then a else b
  }

  /** Still listening for the header before sample `idx`, or waiting for its end. */
  ghost predicate Awaiting(header: HeaderDetector, headerEnd: Option<nat>, samples: seq<int>, idx: nat)
    reads header, header.buf, header.window
  {
    && header.Valid() && headerEnd == header.headerEnd
    && idx <= |samples| && idx <= TIMEOUT
    && match headerEnd
       case None => header.heard == samples[..idx] && NoHeaderUpTo(header.power, samples, idx)
       case Some(end) => idx <= end && HeaderBy(header.power, samples, idx, end)
  }

  ghost predicate HeaderBy(power: Power, samples: seq<int>, idx: nat, end: nat) {
    exists m: nat :: m <= idx && HeaderEndsAt(power, samples, m, end)
  }

  /** There is one earliest header. */
  lemma HeaderEndIsUnique(power: Power, samples: seq<int>, m: nat, e: nat, m': nat, e': nat)
    requires HeaderEndsAt(power, samples, m, e) && HeaderEndsAt(power, samples, m', e')
    ensures m == m' && e == e'
  {
    assert !(m < m') && !(m' < m);
  }

  lemma HeaderByIsUnique(power: Power, samples: seq<int>, idx: nat, end: nat, m: nat, e: nat)
    requires HeaderBy(power, samples, idx, end) && HeaderEndsAt(power, samples, m, e)
    ensures e == end
  {
    var k: nat :| k <= idx && HeaderEndsAt(power, samples, k, end);
    HeaderEndIsUnique(power, samples, k, end, m, e);
  }

  lemma HeaderByIsIn(power: Power, samples: seq<int>, idx: nat, end: nat)
    requires HeaderBy(power, samples, idx, end)
    ensures HeaderIn(power, samples)
  {
    var k: nat :| k <= idx && HeaderEndsAt(power, samples, k, end);
    HeaderStays(power, samples, k);
  }

  /** A header not heard up to sample `idx` ends later than that. */
  lemma HeaderEndsLater(power: Power, samples: seq<int>, idx: nat, m: nat, end: nat)
    requires idx <= |samples| && NoHeaderUpTo(power, samples, idx) && HeaderEndsAt(power, samples, m, end)
    ensures end > idx
  {
    WindowCounts();
    assert m > idx;
  }

  /** The search begins at the header's end, at the timeout, or not at all. */
  lemma BeginsBehindHeader(power: Power, samples: seq<int>, idx: nat, end: nat)
    requires HeaderBy(power, samples, idx, end) && idx <= |samples|
    requires idx == Earlier(Earlier(|samples|, TIMEOUT), end)
    ensures BeginsAt(power, samples, idx)
  {
    HeaderByIsIn(power, samples, idx, end);
    forall m: nat, e: nat | HeaderEndsAt(power, samples, m, e)
      ensures e == end
    {
      HeaderByIsUnique(power, samples, idx, end, m, e);
    }
  }

  lemma BeginsWithoutHeader(power: Power, samples: seq<int>, idx: nat)
    requires idx <= |samples| && NoHeaderUpTo(power, samples, idx)
    requires idx == Earlier(|samples|, TIMEOUT)
    ensures BeginsAt(power, samples, idx)
  {
    forall m: nat, e: nat | HeaderEndsAt(power, samples, m, e)
      ensures e > idx
    {
      HeaderEndsLater(power, samples, idx, m, e);
    }
  }

  /** At the end of the samples. */
  lemma NeverBegins(header: HeaderDetector, headerEnd: Option<nat>, samples: seq<int>)
    requires Awaiting(header, headerEnd, samples, |samples|)
    ensures BeginsAt(header.power, samples, |samples|)
  {
    match headerEnd
    case None => BeginsWithoutHeader(header.power, samples, |samples|);
    case Some(end) => BeginsBehindHeader(header.power, samples, |samples|, end);
  }

  /** One more sample for the header detector, while no header is found. */
  method PushHeader(header: HeaderDetector, samples: seq<int>, idx: nat) returns (headerEnd: Option<nat>)
    requires Awaiting(header, None, samples, idx) && idx < |samples|
    modifies header, header.buf, header.window
    ensures header.Valid() && headerEnd == header.headerEnd
    ensures headerEnd == None ==>
              header.heard == samples[..idx + 1] && NoHeaderUpTo(header.power, samples, idx + 1)
    ensures headerEnd.Some? ==> idx < headerEnd.value && HeaderBy(header.power, samples, idx + 1, headerEnd.value)
  {
    headerEnd := header.Push(samples[idx], idx);
    header.FiresOnHeader();
    NextSample(header.power, samples, idx);
    if headerEnd != None {
      WindowCounts();
      FirstHeader(header.power, samples, idx, headerEnd.value);
    }
  }

  /** One round of the search: whether it is over with sample `idx`. */
  method AwaitHeader(header: HeaderDetector, headerEnd: Option<nat>, samples: seq<int>, idx: nat)
    returns (newEnd: Option<nat>, over: bool)
    requires Awaiting(header, headerEnd, samples, idx) && idx < |samples|
    modifies header, header.buf, header.window
    ensures over ==> BeginsAt(header.power, samples, idx)
    ensures !over ==> Awaiting(header, newEnd, samples, idx + 1)
  {
    newEnd := headerEnd;
    if newEnd == None {
      newEnd := PushHeader(header, samples, idx);
    }
    if newEnd != None && idx >= newEnd.value {
      BeginsBehindHeader(header.power, samples, idx, newEnd.value);
      over := true;
    } else if idx >= TIMEOUT {
      over := true;
      if headerEnd == None {
        BeginsWithoutHeader(header.power, samples, idx);
      } else {
        BeginsBehindHeader(header.power, samples, idx, newEnd.value);
      }
    } else {
      over := false;
    }
  }

  // ----- how early the search can begin

  /** The windows that the first `k` stages need. */
  function Needs(stages: seq<Stage>, k: nat): nat
    requires k <= |stages|
  {
    if k == 0 then 0 else Needs(stages, k - 1) + stages[k - 1].need
  }

  lemma {:induction false} OccurrenceTakes(stages: seq<Stage>, k: nat, ts: seq<Tone>)
    requires k <= |stages| && Occurs(stages, k, ts)
    ensures |ts| >= Needs(stages, k)
  {
    if k > 0 {
      var i: nat :| OccursAt(stages, k, ts, i);
      OccurrenceTakes(stages, k - 1, ts[..i]);
    }
  }

  /** A header takes 111 windows. */
  lemma HeaderNeeds(power: Power, h: seq<int>)
    ensures HeaderIn(power, h) ==> |h| >= 28927
  {
    if HeaderIn(power, h) {
      WindowCounts();
      OccurrenceTakes(Header(), 4, Tones(power, h));
      assert Needs(Header(), 4) == 111;
    }
  }

  /** Its end lies ten VIS bits behind the start of the last window. */
  lemma HeaderTakes(power: Power, samples: seq<int>, m: nat, end: nat)
    requires HeaderEndsAt(power, samples, m, end)
    ensures m >= 28927 && end >= 41644
  {
    WindowCounts();
    HeaderNeeds(power, samples[..m]);
  }

  lemma {:induction false} EarliestHeader(power: Power, samples: seq<int>, n: nat) returns (m: nat, end: nat)
    requires n <= |samples| && HeaderIn(power, samples[..n])
    ensures HeaderEndsAt(power, samples, m, end)
  {
    OccurrenceTakes(Header(), 4, Tones(power, samples[..n]));
    if k: nat :| k < n && HeaderIn(power, samples[..k]) {
      m, end := EarliestHeader(power, samples, k);
    } else {
      m, end := n, (if n - 1 < WINDOW then 0 else n - 1 - WINDOW) + VIS_SAMPLES;
      assert Needs(Header(), 4) >= 1;
    }
  }

  /** There is one sample with which the search begins. */
  lemma BeginsOnce(power: Power, samples: seq<int>, a: nat, b: nat)
    requires BeginsAt(power, samples, a) && BeginsAt(power, samples, b)
    ensures a == b
  {
    if HeaderIn(power, samples) {
      assert samples[..|samples|] == samples;
      var m, end := EarliestHeader(power, samples, |samples|);
    }
  }

  /** If samples are left for it, the search begins behind sample 41643. */
  lemma BeginsLate(power: Power, samples: seq<int>, start: nat)
    requires BeginsAt(power, samples, start) && start < |samples|
    ensures 41644 <= start <= TIMEOUT == 220500
  {
    if HeaderIn(power, samples) {
      assert samples[..|samples|] == samples;
      var m, end := EarliestHeader(power, samples, |samples|);
      HeaderTakes(power, samples, m, end);
    }
  }
}
