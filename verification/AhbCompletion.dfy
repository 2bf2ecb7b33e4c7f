/** Completion detection on the AHB subordinate: which sample of hreadyout ends an access. */
module AhbCompletion {

  datatype Ready = Low | High | Unknown

  datatype Sample = Sample(ready: Ready, rdata: int, resp: int)

  const MIN_LOW_RUN := 3

  datatype Result = Data(rdata: int) | ResponseError | TimedOut

  /** Positions of MIN_LOW_RUN lows before k with no high from the first of them up to k. */
  predicate SustainedLow(trace: seq<Sample>, lows: seq<nat>, k: nat) {
    && |lows| == MIN_LOW_RUN && k < |trace|
    && (forall i :: 0 <= i < |lows| ==> lows[i] < k && trace[lows[i]].ready == Low)
    && (forall i, j :: 0 <= i < j < |lows| ==> lows[i] < lows[j])
    && (forall i :: lows[0] <= i < k ==> trace[i].ready != High)
  }

  /** Sample k is a high that follows enough lows since the previous high. */
  ghost predicate CompletesAt(trace: seq<Sample>, k: nat) {
    && k < |trace| && trace[k].ready == High
    && exists lows :: SustainedLow(trace, lows, k)
  }

  /**
   Waits over the window of samples.  It finishes at the first completing sample, with that sample's
   data and response, and times out iff no sample completes.
   */
  method Run(trace: seq<Sample>) returns (r: Result, at: nat)
    ensures r.TimedOut? <==> forall k :: 0 <= k < |trace| ==> !CompletesAt(trace, k)
    ensures !r.TimedOut? ==>
              && CompletesAt(trace, at) && (forall k :: 0 <= k < at ==> !CompletesAt(trace, k))
              && r == if trace[at].resp != 0 then ResponseError else Data(trace[at].rdata)
  {
    var lowRun, armed := 0, false;
    ghost var since := 0;          // first sample after the last high
    ghost var lows: seq<nat> := [];  // the lows seen since then
    for i := 0 to |trace|
      invariant since <= i && (forall k :: since <= k < i ==> trace[k].ready != High)
      invariant since == 0 || trace[since - 1].ready == High
      invariant forall k :: 0 <= k < |lows| ==> since <= lows[k] < i && trace[lows[k]].ready == Low
      invariant forall j, k :: 0 <= j < k < |lows| ==> lows[j] < lows[k]
      invariant forall k :: since <= k < i && trace[k].ready == Low ==> k in lows
      invariant armed <==> |lows| >= MIN_LOW_RUN
      invariant !armed ==> lowRun == |lows|
      invariant armed ==> lowRun >= MIN_LOW_RUN
      invariant forall k :: 0 <= k < i ==> !CompletesAt(trace, k)
    {
      match trace[i].ready {
        case Low =>
          lowRun := lowRun + 1;
          lows := lows + [i];
          if lowRun >= MIN_LOW_RUN {
            armed := true;
          }
        case High =>
          if armed {
            assert SustainedLow(trace, lows[..MIN_LOW_RUN], i);
            assert CompletesAt(trace, i);
            return if trace[i].resp != 0 then ResponseError else Data(trace[i].rdata), i;
          }
          TooFewLows(trace, since, i, lows);
          lowRun, since, lows := 0, i + 1, [];
        case Unknown =>
          if armed {
            lowRun := lowRun + 1;
          }
      }
    }
    return TimedOut, 0;
  }

  /** Lows that complete an access are among the lows since the last high. */
  lemma CompletingLowsWereSeen(trace: seq<Sample>, since: nat, k: nat, lows: seq<nat>, all: seq<nat>)
    requires since <= k < |trace| && SustainedLow(trace, all, k)
    requires since == 0 || trace[since - 1].ready == High
    requires forall i :: since <= i < k && trace[i].ready == Low ==> i in lows
    ensures |lows| >= MIN_LOW_RUN
  {
    assert since <= all[0] < all[1] < all[2];
    var i0 :| 0 <= i0 < |lows| && lows[i0] == all[0];
    var i1 :| 0 <= i1 < |lows| && lows[i1] == all[1];
    var i2 :| 0 <= i2 < |lows| && lows[i2] == all[2];
  }

  lemma TooFewLows(trace: seq<Sample>, since: nat, k: nat, lows: seq<nat>)
    requires since <= k < |trace| && |lows| < MIN_LOW_RUN
    requires since == 0 || trace[since - 1].ready == High
    requires forall i :: since <= i < k && trace[i].ready == Low ==> i in lows
    ensures !CompletesAt(trace, k)
  {
    if CompletesAt(trace, k) {
      var all :| SustainedLow(trace, all, k);
      CompletingLowsWereSeen(trace, since, k, lows, all);
    }
  }

  /** No three lows come without a high between the first and the last. */
  predicate Oscillates(trace: seq<Sample>) {
    forall a, b, c :: (0 <= a < b < c < |trace| && trace[a].ready == trace[b].ready == trace[c].ready == Low) ==>
                        HighBetween(trace, a, c)
  }

  predicate HighBetween(trace: seq<Sample>, a: int, c: int)
    requires 0 <= a < c < |trace|
  {
    exists h :: a < h < c && trace[h].ready == High
  }

  /** Accept pulses alone never complete an access, so a wait that only sees them times out. */
  lemma OscillationNeverCompletes(trace: seq<Sample>, k: nat)
    requires Oscillates(trace)
    ensures !CompletesAt(trace, k)
  {
    if CompletesAt(trace, k) {
      var lows :| SustainedLow(trace, lows, k);
      PulseBetween(trace, lows[0], lows[1], lows[2]);
    }
  }

  lemma PulseBetween(trace: seq<Sample>, a: nat, b: nat, c: nat)
    requires Oscillates(trace) && a < b < c < |trace| && trace[a].ready == trace[b].ready == trace[c].ready == Low
    ensures HighBetween(trace, a, c)
  {
  }

  // ---------- unknown samples ----------

  function Insert(trace: seq<Sample>, p: nat, s: Sample): seq<Sample>
    requires p <= |trace|
  {
    trace[..p] + [s] + trace[p..]
  }

  /** Where sample i is after something was inserted at p. */
  function Shift(p: nat, i: nat): nat {
    if i < p then i else i + 1
  }

  function Unshift(p: nat, i: nat): nat
    requires i != p
  {
    if i < p then i else i - 1
  }

  lemma InsertAt(trace: seq<Sample>, p: nat, s: Sample, i: nat)
    requires p <= |trace| && i <= |trace|
    ensures Insert(trace, p, s)[i] == if i == p then s else trace[Unshift(p, i)]
  {
  }

  /** An unknown sample, wherever it comes, changes nothing about which samples complete the access. */
  lemma UnknownsDoNotMatter(trace: seq<Sample>, p: nat, u: Sample, k: nat)
    requires p <= |trace| && k < |trace| && u.ready == Unknown
    ensures CompletesAt(Insert(trace, p, u), Shift(p, k)) <==> CompletesAt(trace, k)
  {
    InsertAt(trace, p, u, Shift(p, k));
    if CompletesAt(trace, k) {
      var lows :| SustainedLow(trace, lows, k);
      SustainedAfterInsert(trace, p, u, k, lows);
    }
    if CompletesAt(Insert(trace, p, u), Shift(p, k)) {
      var lows :| SustainedLow(Insert(trace, p, u), lows, Shift(p, k));
      SustainedBeforeInsert(trace, p, u, k, lows);
    }
  }

  lemma SustainedAfterInsert(trace: seq<Sample>, p: nat, u: Sample, k: nat, lows: seq<nat>)
    requires p <= |trace| && u.ready == Unknown && SustainedLow(trace, lows, k)
    ensures SustainedLow(Insert(trace, p, u), [Shift(p, lows[0]), Shift(p, lows[1]), Shift(p, lows[2])], Shift(p, k))
  {
    var more := Insert(trace, p, u);
    forall i | Shift(p, lows[0]) <= i < Shift(p, k)
      ensures more[i].ready != High
    {
      InsertAt(trace, p, u, i);
    }
  }

  lemma SustainedBeforeInsert(trace: seq<Sample>, p: nat, u: Sample, k: nat, lows: seq<nat>)
    requires p <= |trace| && k < |trace| && u.ready == Unknown
    requires SustainedLow(Insert(trace, p, u), lows, Shift(p, k))
    ensures p !in lows
    ensures SustainedLow(trace, [Unshift(p, lows[0]), Unshift(p, lows[1]), Unshift(p, lows[2])], k)
  {
    var more := Insert(trace, p, u);
    InsertAt(trace, p, u, p);
    forall i | Unshift(p, lows[0]) <= i < k
      ensures trace[i].ready != High
    {
      InsertAt(trace, p, u, Shift(p, i));
      assert more[Shift(p, i)].ready != High;
    }
  }

  /** The lows need not be consecutive. */
  lemma LowsNeedNotBeConsecutive(low: Sample, unknown: Sample, high: Sample)
    requires low.ready == Low && unknown.ready == Unknown && high.ready == High
    ensures CompletesAt([low, unknown, low, low, high], 4)
  {
    var plain := [low, low, low, high];
    assert SustainedLow(plain, [0, 1, 2], 3);
    UnknownsDoNotMatter(plain, 1, unknown, 3);
    assert Insert(plain, 1, unknown) == [low, unknown, low, low, high];
  }
}
