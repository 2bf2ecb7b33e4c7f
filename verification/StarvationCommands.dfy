/** Which agent command the probe sends at every point of a run, as the replies so far decide it. */
module StarvationCommands {
  import opened StarvationReplies
  import opened StarvationProbe
  import opened StarvationLaws

  /** Exchanges from..to all ask the same. */
  predicate AllAsk(t: Transcript, c: Command, from: nat, to: nat) {
    to <= |t| && forall k: nat :: from <= k < to ==> t[k].cmd == c
  }

  /** Obs, then selftest, then the arming iff it was asked for; each only when the one before went well. */
  lemma OpeningCommands(arm: bool, staged: bool, window: nat, watch: nat, r: Replies)
    ensures var t := PlanBody(arm, staged, window, watch, r).t;
            && (|t| > 0 ==> t[0].cmd == Obs) && (|t| > 1 ==> t[1].cmd == Selftest)
            && (forall k: nat :: k < |t| ==> (t[k].cmd == ArmCrc <==> arm && k == 2))
            && (|t| == 0 <==> !staged)
            && (|t| == 1 <==> staged && !StagedOk(r(0)))
            && (!Opened(arm, staged, r) && staged && StagedOk(r(0)) ==> |t| == if ProvenAndClear(r(1)) then 3 else 2)
            && (Opened(arm, staged, r) ==> |t| >= OpeningLength(arm))
  {
    OpenIff(arm, staged, r);
  }

  /** Bursts up to the first that is not quiet, or through the whole window. */
  lemma BurstCommands(arm: bool, staged: bool, window: nat, watch: nat, r: Replies, b: nat)
    requires Opened(arm, staged, r)
    ensures var t := PlanBody(arm, staged, window, watch, r).t;
            var at := OpeningLength(arm);
            && (FirstLoud(r, at, window, b) ==>
                  AllAsk(t, Traffic, at, at + b + 1) && (!WedgeBurst(r(at + b)) ==> |t| == at + b + 1))
            && (QuietBetween(r, at, at + window) ==> |t| == at + window && AllAsk(t, Traffic, at, at + window))
  {
    OpenIff(arm, staged, r);
    FirstLoudIff(r, OpeningLength(arm), window, b);
    QuietRunIff(r, OpeningLength(arm), window, window);
  }

  /**
   After a signature at burst b only readings, up to the first that does not show the wedge.  The
   closing exchange is traffic iff that one is clear, and a selftest iff the whole watch was held.
   */
  lemma WatchCommands(arm: bool, staged: bool, window: nat, watch: nat, r: Replies, b: nat, p: nat)
    requires Opened(arm, staged, r) && SignatureAt(r, OpeningLength(arm), window, b)
    ensures var t := PlanBody(arm, staged, window, watch, r).t;
            var from := OpeningLength(arm) + b + 1;
            && (HeldBetween(r, from, from + watch) ==>
                  |t| == from + watch + 1 && AllAsk(t, Obs, from, from + watch) && t[from + watch].cmd == Selftest)
            && (FirstUnheld(r, from, watch, p) ==>
                  && AllAsk(t, Obs, from, from + p + 1)
                  && if ClearReading(r(from + p)) then |t| == from + p + 2 && t[from + p + 1].cmd == Traffic
                     else |t| == from + p + 1)
  {
    var at := OpeningLength(arm);
    OpenIff(arm, staged, r);
    FirstLoudIff(r, at, window, b);
    FirstUnheldIff(r, at + b + 1, watch, p);
    HeldRunIff(r, at + b + 1, watch, watch);
    var opening, induced := PlanOpen(arm, staged, r).t, PlanInduce(r, at, window).t;
    var w := PlanWatch(r, at + b + 1, watch);
    assert |opening + induced| == at + b + 1;
    assert PlanBody(arm, staged, window, watch, r).t == opening + induced + w.t;
  }

  /** Exit 0 is decided by good traffic asked for last, exit 1 by a live selftest asked for last. */
  lemma ClosingCommand(arm: bool, staged: bool, window: nat, watch: nat, r: Replies)
    ensures var body := PlanBody(arm, staged, window, watch, r);
            var last := |body.t| - 1;
            && (body.exit == Returned(0) ==>
                  last >= 0 && body.t[last].cmd == Traffic && GoodTraffic(body.t[last].reply))
            && (body.exit == Returned(1) ==>
                  last >= 0 && body.t[last].cmd == Selftest && LiveSelftest(body.t[last].reply))
  {
    VerdictIff(arm, staged, window, watch, r);
    var at, body := OpeningLength(arm), PlanBody(arm, staged, window, watch, r);
    if body.exit == Returned(0) {
      var b: nat, p: nat :| RecoveryAt(r, at, window, watch, b, p);
      RecoveryCloses(arm, staged, window, watch, r, b, p);
    }
    if body.exit == Returned(1) {
      var b: nat :| WedgedAt(r, at, window, watch, b);
      WedgeCloses(arm, staged, window, watch, r, b);
    }
  }

  lemma RecoveryCloses(arm: bool, staged: bool, window: nat, watch: nat, r: Replies, b: nat, p: nat)
    requires Opened(arm, staged, r) && RecoveryAt(r, OpeningLength(arm), window, watch, b, p)
    ensures var t := PlanBody(arm, staged, window, watch, r).t;
            |t| > 0 && t[|t| - 1].cmd == Traffic && GoodTraffic(t[|t| - 1].reply)
  {
    var t := PlanBody(arm, staged, window, watch, r).t;
    WatchCommands(arm, staged, window, watch, r, b, p);
    ReplyAt(arm, staged, window, watch, r, |t| - 1);
  }

  lemma WedgeCloses(arm: bool, staged: bool, window: nat, watch: nat, r: Replies, b: nat)
    requires Opened(arm, staged, r) && WedgedAt(r, OpeningLength(arm), window, watch, b)
    ensures var t := PlanBody(arm, staged, window, watch, r).t;
            |t| > 0 && t[|t| - 1].cmd == Selftest && LiveSelftest(t[|t| - 1].reply)
  {
    var t := PlanBody(arm, staged, window, watch, r).t;
    WatchCommands(arm, staged, window, watch, r, b, 0);
    ReplyAt(arm, staged, window, watch, r, |t| - 1);
  }

  lemma ReplyAt(arm: bool, staged: bool, window: nat, watch: nat, r: Replies, k: nat)
    requires k < |PlanBody(arm, staged, window, watch, r).t|
    ensures PlanBody(arm, staged, window, watch, r).t[k].reply == r(k)
  {
    BodyInOrder(arm, staged, window, watch, r);
    assert r(0 + k) == r(k);
  }

  /** The whole run is the body, and after it the disarm iff CRC was to be armed. */
  lemma RunCommands(arm: bool, accept: bool, staged: bool, window: nat, watch: nat, r: Replies)
    requires arm ==> accept
    ensures var run := PlanRun(arm, accept, staged, window, watch, r);
            var body := PlanBody(arm, staged, window, watch, r);
            && run.exit == body.exit && |run.t| == |body.t| + (if arm then 1 else 0)
            && (forall k: nat :: k < |body.t| ==> run.t[k] == body.t[k])
            && (arm ==> run.t[|body.t|].cmd == DisarmCrc)
  {
  }
}
