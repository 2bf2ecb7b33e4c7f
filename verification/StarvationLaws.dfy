/**
 Which replies give which verdict: exit 0 and exit 1 each need their whole chain of evidence in the
 replies, in order and within the windows, and get it exactly then.
 */
module StarvationLaws {
  import opened Common
  import opened StarvationReplies
  import opened StarvationProbe

  // ---------- evidence in the replies ----------

  /** A working agent, a proven instrument with a clear baseline, and CRC armed if asked for. */
  predicate Opened(arm: bool, staged: bool, r: Replies) {
    staged && StagedOk(r(0)) && ProvenAndClear(r(1)) && (arm ==> ArmedOk(r(2)))
  }

  /** Within the window, b quiet bursts come before burst b. */
  predicate FirstLoud(r: Replies, at: nat, window: nat, b: nat) {
    b < window && QuietBetween(r, at, at + b) && !QuietBurst(r(at + b))
  }

  /** Within the watch, p readings show the wedge before reading p does not. */
  predicate FirstUnheld(r: Replies, at: nat, watch: nat, p: nat) {
    p < watch && HeldBetween(r, at, at + p) && !HeldReading(r(at + p))
  }

  predicate SignatureAt(r: Replies, at: nat, window: nat, b: nat) {
    FirstLoud(r, at, window, b) && WedgeBurst(r(at + b))
  }

  /** A signature in the window, a clear reading in the watch after nothing but held ones, good traffic. */
  predicate RecoveryAt(r: Replies, at: nat, window: nat, watch: nat, b: nat, p: nat) {
    && SignatureAt(r, at, window, b) && FirstUnheld(r, at + b + 1, watch, p)
    && ClearReading(r(at + b + 1 + p)) && GoodTraffic(r(at + b + 2 + p))
  }

  ghost predicate Recovers(r: Replies, at: nat, window: nat, watch: nat) {
    exists b: nat, p: nat :: RecoveryAt(r, at, window, watch, b, p)
  }

  /** A signature in the window, every reading of the whole watch held, a live closing selftest. */
  predicate WedgedAt(r: Replies, at: nat, window: nat, watch: nat, b: nat) {
    && SignatureAt(r, at, window, b) && HeldBetween(r, at + b + 1, at + b + 1 + watch)
    && LiveSelftest(r(at + b + 1 + watch))
  }

  ghost predicate StaysWedged(r: Replies, at: nat, window: nat, watch: nat) {
    exists b: nat :: WedgedAt(r, at, window, watch, b)
  }

  predicate BrokenReadingAt(r: Replies, at: nat, window: nat, watch: nat, b: nat, p: nat) {
    SignatureAt(r, at, window, b) && FirstUnheld(r, at + b + 1, watch, p) && BrokenReading(r(at + b + 1 + p))
  }

  predicate BrokenBurstAt(r: Replies, at: nat, window: nat, b: nat) {
    FirstLoud(r, at, window, b) && BrokenBurst(r(at + b))
  }

  /** An exception escapes after the opening. */
  ghost predicate Breaks(r: Replies, at: nat, window: nat, watch: nat) {
    || (exists b: nat :: BrokenBurstAt(r, at, window, b))
    || (exists b: nat, p: nat :: BrokenReadingAt(r, at, window, watch, b, p))
  }

  predicate RefusedAt(r: Replies, at: nat, window: nat, b: nat) {
    FirstLoud(r, at, window, b) && RefusedBurst(r(at + b))
  }

  ghost predicate Refuses(r: Replies, at: nat, window: nat) {
    exists b: nat :: RefusedAt(r, at, window, b)
  }

  // ---------- the verdicts ----------

  lemma FirstLoudIff(r: Replies, at: nat, window: nat, b: nat)
    ensures FirstLoud(r, at, window, b) <==> b == QuietRun(r, at, window) && b < window
  {
    if b < window {
      QuietRunIff(r, at, window, b);
    }
  }

  lemma FirstUnheldIff(r: Replies, at: nat, watch: nat, p: nat)
    ensures FirstUnheld(r, at, watch, p) <==> p == HeldRun(r, at, watch) && p < watch
  {
    if p < watch {
      HeldRunIff(r, at, watch, p);
    }
  }

  lemma OpenIff(arm: bool, staged: bool, r: Replies)
    ensures var o := PlanOpen(arm, staged, r);
            && (o.stop.None? <==> Opened(arm, staged, r))
            && (o.stop.None? ==> |o.t| == OpeningLength(arm))
            && (o.stop == Some(Raised) <==> staged && StagedOk(r(0)) && BrokenSelftest(r(1)))
            && (o.stop == Some(Returned(2)) <==> !staged || !StagedOk(r(0)) || !Marked(r(1)))
            && o.stop in {None, Some(Raised), Some(Returned(2)), Some(Returned(3))}
  {
  }

  lemma InduceIff(r: Replies, at: nat, window: nat)
    ensures var i := PlanInduce(r, at, window);
            var b := QuietRun(r, at, window);
            && (i.stop.None? <==> SignatureAt(r, at, window, b))
            && (i.stop.None? ==> |i.t| == b + 1)
            && (i.stop == Some(Raised) <==> exists n: nat :: BrokenBurstAt(r, at, window, n))
            && (i.stop == Some(Returned(2)) <==> Refuses(r, at, window))
            && i.stop in {None, Some(Raised), Some(Returned(2)), Some(Returned(3))}
  {
    var b := QuietRun(r, at, window);
    FirstLoudIff(r, at, window, b);
    forall n: nat | FirstLoud(r, at, window, n)
      ensures n == b
    {
      FirstLoudIff(r, at, window, n);
    }
    if b < window && BrokenBurst(r(at + b)) {
      assert BrokenBurstAt(r, at, window, b);
    }
    if b < window && RefusedBurst(r(at + b)) {
      assert RefusedAt(r, at, window, b);
    }
  }

  lemma WatchIff(r: Replies, at: nat, watch: nat)
    ensures var e := PlanWatch(r, at, watch).exit;
            var p := HeldRun(r, at, watch);
            && (e == Returned(0) <==>
                  FirstUnheld(r, at, watch, p) && ClearReading(r(at + p)) && GoodTraffic(r(at + p + 1)))
            && (e == Returned(1) <==> HeldBetween(r, at, at + watch) && LiveSelftest(r(at + watch)))
            && (e == Raised <==> FirstUnheld(r, at, watch, p) && BrokenReading(r(at + p)))
            && e in {Returned(0), Returned(1), Returned(3), Raised}
  {
    FirstUnheldIff(r, at, watch, HeldRun(r, at, watch));
    HeldRunIff(r, at, watch, watch);
  }

  lemma OnlyLoud(r: Replies, at: nat, window: nat, b: nat, n: nat)
    requires FirstLoud(r, at, window, b) && FirstLoud(r, at, window, n)
    ensures n == b
  {
    FirstLoudIff(r, at, window, b);
    FirstLoudIff(r, at, window, n);
  }

  lemma RecoversIff(r: Replies, at: nat, window: nat, watch: nat, b: nat)
    requires SignatureAt(r, at, window, b)
    ensures Recovers(r, at, window, watch) <==>
            RecoveryAt(r, at, window, watch, b, HeldRun(r, at + b + 1, watch))
  {
    if Recovers(r, at, window, watch) {
      var n: nat, p: nat :| RecoveryAt(r, at, window, watch, n, p);
      OnlyLoud(r, at, window, b, n);
      FirstUnheldIff(r, at + b + 1, watch, p);
    }
  }

  lemma StaysWedgedIff(r: Replies, at: nat, window: nat, watch: nat, b: nat)
    requires SignatureAt(r, at, window, b)
    ensures StaysWedged(r, at, window, watch) <==> WedgedAt(r, at, window, watch, b)
  {
    if StaysWedged(r, at, window, watch) {
      var n: nat :| WedgedAt(r, at, window, watch, n);
      OnlyLoud(r, at, window, b, n);
    }
  }

  lemma BreaksIff(r: Replies, at: nat, window: nat, watch: nat, b: nat)
    requires SignatureAt(r, at, window, b)
    ensures Breaks(r, at, window, watch) <==>
            BrokenReadingAt(r, at, window, watch, b, HeldRun(r, at + b + 1, watch))
    ensures !Refuses(r, at, window)
  {
    forall n: nat | FirstLoud(r, at, window, n)
      ensures n == b
    {
      OnlyLoud(r, at, window, b, n);
    }
    if exists n: nat, p: nat :: BrokenReadingAt(r, at, window, watch, n, p) {
      var n: nat, p: nat :| BrokenReadingAt(r, at, window, watch, n, p);
      FirstUnheldIff(r, at + b + 1, watch, p);
    }
  }

  /** With a signature at burst b, what the watch decides is what the whole run has evidence for. */
  lemma WatchDecides(r: Replies, at: nat, window: nat, watch: nat, b: nat)
    requires SignatureAt(r, at, window, b)
    ensures var e := PlanWatch(r, at + b + 1, watch).exit;
            && (e == Returned(0) <==> Recovers(r, at, window, watch))
            && (e == Returned(1) <==> StaysWedged(r, at, window, watch))
            && (e == Raised <==> Breaks(r, at, window, watch))
            && !Refuses(r, at, window)
            && e in {Returned(0), Returned(1), Returned(3), Raised}
  {
    WatchIff(r, at + b + 1, watch);
    RecoversIff(r, at, window, watch, b);
    StaysWedgedIff(r, at, window, watch, b);
    BreaksIff(r, at, window, watch, b);
  }

  /** Without a signature nothing recovers, stays wedged, or breaks in the watch. */
  lemma NoSignatureNoVerdict(r: Replies, at: nat, window: nat, watch: nat)
    requires forall b: nat :: !SignatureAt(r, at, window, b)
    ensures !Recovers(r, at, window, watch) && !StaysWedged(r, at, window, watch)
    ensures Breaks(r, at, window, watch) <==> exists b: nat :: BrokenBurstAt(r, at, window, b)
  {
  }

  /** How the run ends once it was opened. */
  function Continued(r: Replies, at: nat, window: nat, watch: nat): Exit {
    var i := PlanInduce(r, at, window);
    if i.stop.Some? then i.stop.value else PlanWatch(r, at + |i.t|, watch).exit
  }

  lemma ContinuedIff(r: Replies, at: nat, window: nat, watch: nat)
    ensures var e := Continued(r, at, window, watch);
            && (e == Returned(0) <==> Recovers(r, at, window, watch))
            && (e == Returned(1) <==> StaysWedged(r, at, window, watch))
            && (e == Raised <==> Breaks(r, at, window, watch))
            && (e == Returned(2) <==> Refuses(r, at, window))
            && e in {Returned(0), Returned(1), Returned(2), Returned(3), Raised}
  {
    var b := QuietRun(r, at, window);
    InduceIff(r, at, window);
    if SignatureAt(r, at, window, b) {
      WatchDecides(r, at, window, watch, b);
    } else {
      forall n: nat
        ensures !SignatureAt(r, at, window, n)
      {
        FirstLoudIff(r, at, window, n);
      }
      NoSignatureNoVerdict(r, at, window, watch);
    }
  }

  /** For every stream of replies, the verdict of the run and the evidence for it. */
  lemma VerdictIff(arm: bool, staged: bool, window: nat, watch: nat, r: Replies)
    ensures var e := PlanBody(arm, staged, window, watch, r).exit;
            var at := OpeningLength(arm);
            && (e == Returned(0) <==> Opened(arm, staged, r) && Recovers(r, at, window, watch))
            && (e == Returned(1) <==> Opened(arm, staged, r) && StaysWedged(r, at, window, watch))
            && (e == Raised <==> || (staged && StagedOk(r(0)) && BrokenSelftest(r(1)))
                                 || (Opened(arm, staged, r) && Breaks(r, at, window, watch)))
            && (e == Returned(2) <==> || !staged || !StagedOk(r(0)) || !Marked(r(1))
                                      || (Opened(arm, staged, r) && Refuses(r, at, window)))
            && e in {Returned(0), Returned(1), Returned(2), Returned(3), Raised}
  {
    OpenIff(arm, staged, r);
    ContinuedIff(r, OpeningLength(arm), window, watch);
    BodyContinues(arm, staged, window, watch, r);
  }

  lemma BodyContinues(arm: bool, staged: bool, window: nat, watch: nat, r: Replies)
    ensures PlanBody(arm, staged, window, watch, r).exit ==
            match PlanOpen(arm, staged, r).stop
            case Some(e) => e
            case None => Continued(r, OpeningLength(arm), window, watch)
  {
  }

  /** Status 1 means a wedge that stayed, or an exception; with refused arming it is neither. */
  lemma StatusOneIff(arm: bool, accept: bool, staged: bool, window: nat, watch: nat, r: Replies)
    ensures var at := OpeningLength(arm);
            Status(PlanRun(arm, accept, staged, window, watch, r).exit) == 1 <==>
            && (arm ==> accept)
            && (|| (staged && StagedOk(r(0)) && BrokenSelftest(r(1)))
                || (Opened(arm, staged, r) && (StaysWedged(r, at, window, watch) || Breaks(r, at, window, watch))))
  {
    VerdictIff(arm, staged, window, watch, r);
  }

  /** Nothing but quiet bursts: the whole window is spent and the answer is 3. */
  lemma NoSignatureIsInconclusive(arm: bool, staged: bool, window: nat, watch: nat, r: Replies)
    requires Opened(arm, staged, r) && QuietBetween(r, OpeningLength(arm), OpeningLength(arm) + window)
    ensures PlanBody(arm, staged, window, watch, r) ==
            Ending(Returned(3), OpeningTranscript(arm, r) + Asked(Traffic, r, OpeningLength(arm), window))
  {
    OpenIff(arm, staged, r);
    QuietRunIff(r, OpeningLength(arm), window, window);
  }

  // ---------- the transcript ----------

  predicate MarkedBetween(r: Replies, from: nat, to: int) {
    forall k: nat :: from <= k < to ==> Marked(r(k))
  }

  /** n replies from `at` on, all marked but perhaps the last, which then means that the run stops with 2 or 3. */
  predicate Told(r: Replies, at: nat, n: nat, stop: Option<Exit>) {
    && MarkedBetween(r, at, at + n - 1)
    && (n > 0 && !Marked(r(at + n - 1)) ==> stop in {Some(Returned(2)), Some(Returned(3))})
  }

  lemma OpenIsTold(arm: bool, staged: bool, r: Replies)
    ensures var o := PlanOpen(arm, staged, r); Told(r, 0, |o.t|, o.stop)
  {
  }

  lemma InduceIsTold(r: Replies, at: nat, window: nat)
    ensures var i := PlanInduce(r, at, window); Told(r, at, |i.t|, i.stop)
  {
    QuietRunIff(r, at, window, QuietRun(r, at, window));
  }

  lemma WatchIsTold(r: Replies, at: nat, watch: nat)
    ensures var w := PlanWatch(r, at, watch); Told(r, at, |w.t|, Some(w.exit))
  {
    HeldRunIff(r, at, watch, HeldRun(r, at, watch));
  }

  lemma ToldThenTold(r: Replies, at: nat, m: nat, n: nat, stop: Option<Exit>)
    requires Told(r, at, m, None) && Told(r, at + m, n, stop)
    ensures Told(r, at, m + n, stop)
  {
  }

  lemma BodyIsTold(arm: bool, staged: bool, window: nat, watch: nat, r: Replies)
    ensures var b := PlanBody(arm, staged, window, watch, r); Told(r, 0, |b.t|, Some(b.exit))
  {
    var o := PlanOpen(arm, staged, r);
    OpenIsTold(arm, staged, r);
    if o.stop.None? {
      var i := PlanInduce(r, |o.t|, window);
      InduceIsTold(r, |o.t|, window);
      ToldThenTold(r, 0, |o.t|, |i.t|, i.stop);
      if i.stop.None? {
        WatchAfter(r, |o.t + i.t|, watch);
      }
    }
  }

  lemma WatchAfter(r: Replies, at: nat, watch: nat)
    requires Told(r, 0, at, None)
    ensures var w := PlanWatch(r, at, watch); Told(r, 0, at + |w.t|, Some(w.exit))
  {
    var w := PlanWatch(r, at, watch);
    WatchIsTold(r, at, watch);
    ToldThenTold(r, 0, at, |w.t|, Some(w.exit));
  }

  /** A reply without the marker is never evidence: it is the last one read, and the answer is 2 or 3. */
  lemma NoMarkerNoVerdict(arm: bool, staged: bool, window: nat, watch: nat, r: Replies, k: nat)
    requires k < |PlanBody(arm, staged, window, watch, r).t| && !Marked(r(k))
    ensures PlanBody(arm, staged, window, watch, r).exit in {Returned(2), Returned(3)}
    ensures k == |PlanBody(arm, staged, window, watch, r).t| - 1
  {
    BodyIsTold(arm, staged, window, watch, r);
  }

  /** Exchange k carries reply at + k, and none is a disarm. */
  predicate InOrder(t: Transcript, r: Replies, at: nat) {
    forall k: nat :: k < |t| ==> t[k].reply == r(at + k) && t[k].cmd != DisarmCrc
  }

  lemma OrderConcat(s: Transcript, t: Transcript, r: Replies, at: nat)
    requires InOrder(s, r, at) && InOrder(t, r, at + |s|)
    ensures InOrder(s + t, r, at)
  {
    forall k: nat | |s| <= k < |s + t|
      ensures (s + t)[k].reply == r(at + k) && (s + t)[k].cmd != DisarmCrc
    {
      assert (s + t)[k] == t[k - |s|];
    }
  }

  lemma AskedInOrder(c: Command, r: Replies, at: nat, n: nat)
    requires c != DisarmCrc
    ensures InOrder(Asked(c, r, at, n), r, at)
  {
  }

  lemma WatchInOrder(r: Replies, at: nat, watch: nat)
    ensures InOrder(PlanWatch(r, at, watch).t, r, at)
  {
    var n := HeldRun(r, at, watch);
    AskedInOrder(Obs, r, at, n);
    AskedInOrder(Selftest, r, at + n, 1);
    OrderConcat(Asked(Obs, r, at, n), Asked(Selftest, r, at + n, 1), r, at);
    AskedInOrder(Obs, r, at, n + 1);
    AskedInOrder(Traffic, r, at + n + 1, 1);
    OrderConcat(Asked(Obs, r, at, n + 1), Asked(Traffic, r, at + n + 1, 1), r, at);
  }

  lemma OpenInOrder(arm: bool, staged: bool, r: Replies)
    ensures InOrder(PlanOpen(arm, staged, r).t, r, 0)
  {
  }

  /** The run reads the replies one after the other and disarms nowhere inside. */
  lemma BodyInOrder(arm: bool, staged: bool, window: nat, watch: nat, r: Replies)
    ensures InOrder(PlanBody(arm, staged, window, watch, r).t, r, 0)
  {
    var o := PlanOpen(arm, staged, r);
    OpenInOrder(arm, staged, r);
    if o.stop.None? {
      var i := PlanInduce(r, |o.t|, window);
      AskedInOrder(Traffic, r, |o.t|, |i.t|);
      OrderConcat(o.t, i.t, r, 0);
      if i.stop.None? {
        WatchInOrder(r, |o.t + i.t|, watch);
        OrderConcat(o.t + i.t, PlanWatch(r, |o.t + i.t|, watch).t, r, 0);
      }
    }
  }

  /** With arming, the disarm is the last agent command of every path, even one that raises, and the only one. */
  lemma DisarmIsLast(arm: bool, accept: bool, staged: bool, window: nat, watch: nat, r: Replies)
    ensures var t := PlanRun(arm, accept, staged, window, watch, r).t;
            if !arm then forall k: nat :: k < |t| ==> t[k].cmd != DisarmCrc
            else if !accept then t == []
            else |t| > 0 && forall k: nat :: k < |t| ==> (t[k].cmd == DisarmCrc <==> k == |t| - 1)
  {
    BodyInOrder(arm, staged, window, watch, r);
  }

  // ---------- three boards ----------

  const CALM := Die(true, true, true, false, true, false)
  const WEDGED := CALM.(wedgeAny := true)
  const STARVED := CALM.(starvedAny := true)

  function Showing(a: Die, b: Die, good: nat): Reply {
    Reply(Fine, Some(Json(true, false, false, false, false, Some(Dies(a, b)), good)))
  }

  /** What the agent emits when it catches an exception: the marker, and no dies. */
  const DIELESS := Reply(Ran, Some(Json(false, false, false, false, false, None, 0)))

  /** The starvation bit comes up with the first burst and stays up; every burst verifies one word. */
  function StarvedBoard(): Replies {
    k => if k < 2 then Showing(CALM, CALM, 0) else Showing(STARVED, CALM, 1)
  }

  lemma StarvedBoardRecovers(accept: bool, window: nat, watch: nat)
    requires window > 0 && watch > 0
    ensures PlanRun(false, accept, true, window, watch, StarvedBoard()).exit == Returned(0)
    ensures forall k: nat :: k >= 2 ==> Legible(StarvedBoard()(k)) && AnySignature(StarvedBoard()(k))
  {
    var r := StarvedBoard();
    assert r(0) == r(1) == Showing(CALM, CALM, 0) && r(2) == r(3) == r(4) == Showing(STARVED, CALM, 1);
    assert SignatureAt(r, 2, window, 0) && FirstUnheld(r, 3, watch, 0);
    assert RecoveryAt(r, 2, window, watch, 0, 0);
    VerdictIff(false, true, window, watch, r);
  }

  /** Die B cannot be read at the first reading of the watch. */
  function HalfReadBoard(): Replies {
    k => if k < 2 then Showing(CALM, CALM, 0)
         else if k == 2 then Showing(WEDGED, CALM, 0)
         else if k == 3 then Showing(WEDGED, CALM.(emitPresent := false), 0)
         else Showing(CALM, CALM, 1)
  }

  lemma HalfReadBoardRecovers(accept: bool, window: nat, watch: nat)
    requires window > 0 && watch > 1
    ensures PlanRun(false, accept, true, window, watch, HalfReadBoard()).exit == Returned(0)
    ensures !Legible(HalfReadBoard()(3))
  {
    var r := HalfReadBoard();
    assert r(0) == r(1) == Showing(CALM, CALM, 0) && r(2) == Showing(WEDGED, CALM, 0);
    assert r(3) == Showing(WEDGED, CALM.(emitPresent := false), 0) && r(4) == r(5) == Showing(CALM, CALM, 1);
    assert HeldReading(r(3)) && SignatureAt(r, 2, window, 0) && FirstUnheld(r, 3, watch, 1);
    assert RecoveryAt(r, 2, window, watch, 0, 1);
    VerdictIff(false, true, window, watch, r);
  }

  /** From exchange n on the agent only reports exceptions; the first burst shows a wedge. */
  function FailingBoard(n: nat): Replies {
    k => if k >= n then DIELESS else if k < 2 then Showing(CALM, CALM, 0) else Showing(WEDGED, CALM, 0)
  }

  /** An agent that starts failing in the selftest, in a burst, or in the watch ends the run with status 1. */
  lemma FailingBoardRaises(accept: bool, window: nat, watch: nat, n: nat)
    requires 0 < n < 3 + watch && window > 0 && watch > 0
    ensures PlanRun(false, accept, true, window, watch, FailingBoard(n)).exit == Raised
    ensures Status(PlanRun(false, accept, true, window, watch, FailingBoard(n)).exit) == 1
  {
    var r := FailingBoard(n);
    assert r(0) == Showing(CALM, CALM, 0) && r(n) == DIELESS;
    assert n > 1 ==> r(1) == Showing(CALM, CALM, 0);
    assert forall k: nat :: 2 <= k < n ==> r(k) == Showing(WEDGED, CALM, 0);
    if n == 2 {
      assert BrokenBurstAt(r, 2, window, 0);
    } else if n > 2 {
      assert SignatureAt(r, 2, window, 0) && FirstUnheld(r, 3, watch, n - 3);
      assert BrokenReadingAt(r, 2, window, watch, 0, n - 3);
    }
    VerdictIff(false, true, window, watch, r);
  }
}
