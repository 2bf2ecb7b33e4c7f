/**
 The L7 starvation recovery probe.  The k-th agent command gets replies(k), so quantifying over
 `replies` covers every board.  A clock window is the number of times its loop guard still finds time
 left.  What the probe does is a function of the replies; the program is proved to be that function.
 */
module StarvationProbe {
  import opened Common
  import opened StarvationReplies

  datatype Command = Obs | Selftest | ArmCrc | Traffic | DisarmCrc

  datatype Exchange = Exchange(cmd: Command, reply: Reply)

  type Transcript = seq<Exchange>

  type Replies = nat -> Reply

  /** How the program ends: a returned code, or an exception that escapes. */
  datatype Exit = Returned(code: int) | Raised

  /** The process exit status; Python reports an escaped exception as 1. */
  function Status(e: Exit): int {
    if e.Raised? then 1 else e.code
  }

  // ---------- what the replies decide ----------

  /** How a run or a part of it ends, and everything that was exchanged. */
  datatype Ending = Ending(exit: Exit, t: Transcript)

  /** A phase that may stop the run. */
  datatype Phase = Phase(stop: Option<Exit>, t: Transcript)

  /** The same command n times, from the exchange at position `at` on. */
  function Asked(c: Command, r: Replies, at: nat, n: nat): Transcript {
    seq(n, k requires 0 <= k < n => Exchange(c, r(at + k)))
  }

  function OpeningLength(arm: bool): nat {
    if arm then 3 else 2
  }

  function OpeningTranscript(arm: bool, r: Replies): Transcript {
    [Exchange(Obs, r(0)), Exchange(Selftest, r(1))] + if arm then [Exchange(ArmCrc, r(2))] else []
  }

  /** Stage the agent, prove the instrument, check the baseline, arm if asked. */
  function PlanOpen(arm: bool, staged: bool, r: Replies): Phase {
    if !staged then Phase(Some(Returned(2)), [])
    else if !StagedOk(r(0)) then Phase(Some(Returned(2)), [Exchange(Obs, r(0))])
    else if !Marked(r(1)) then Phase(Some(Returned(2)), OpeningTranscript(false, r))
    else if BrokenSelftest(r(1)) then Phase(Some(Raised), OpeningTranscript(false, r))
    else if !ProvenAndClear(r(1)) then Phase(Some(Returned(3)), OpeningTranscript(false, r))
    else if arm && !ArmedOk(r(2)) then Phase(Some(Returned(3)), OpeningTranscript(true, r))
    else Phase(None, OpeningTranscript(arm, r))
  }

  /** How many of the next `left` bursts are quiet before the first that is not. */
  function QuietRun(r: Replies, at: nat, left: nat): (n: nat)
    ensures n <= left
    decreases left
  {
    if left > 0 && QuietBurst(r(at)) then 1 + QuietRun(r, at + 1, left - 1) else 0
  }

  /** How many of the next `left` readings still show the wedge before the first that does not. */
  function HeldRun(r: Replies, at: nat, left: nat): (n: nat)
    ensures n <= left
    decreases left
  {
    if left > 0 && HeldReading(r(at)) then 1 + HeldRun(r, at + 1, left - 1) else 0
  }

  /** Where a burst that is not quiet leads. None: on to the watch. */
  function BurstStop(r: Reply): Option<Exit> {
    if WedgeBurst(r) then None
    else if RefusedBurst(r) then Some(Returned(2))
    else if BrokenBurst(r) then Some(Raised)
    else Some(Returned(3))
  }

  /** Bursts of cross-die traffic until one is not quiet or the window closes. */
  function PlanInduce(r: Replies, at: nat, window: nat): Phase {
    var n := QuietRun(r, at, window);
    if n == window then Phase(Some(Returned(3)), Asked(Traffic, r, at, n))
    else Phase(BurstStop(r(at + n)), Asked(Traffic, r, at, n + 1))
  }

  /** Readings until one does not show the wedge or the watch is over, then the closing exchange. */
  function PlanWatch(r: Replies, at: nat, watch: nat): Ending {
    var n := HeldRun(r, at, watch);
    if n == watch then
      Ending(Returned(if LiveSelftest(r(at + n)) then 1 else 3), Asked(Obs, r, at, n) + Asked(Selftest, r, at + n, 1))
    else if ClearReading(r(at + n)) then
      Ending(Returned(if GoodTraffic(r(at + n + 1)) then 0 else 3),
             Asked(Obs, r, at, n + 1) + Asked(Traffic, r, at + n + 1, 1))
    else Ending(if BrokenReading(r(at + n)) then Raised else Returned(3), Asked(Obs, r, at, n + 1))
  }

  /** Everything inside the try block. */
  function PlanBody(arm: bool, staged: bool, window: nat, watch: nat, r: Replies): Ending {
    var opening := PlanOpen(arm, staged, r);
    if opening.stop.Some? then Ending(opening.stop.value, opening.t)
    else
      var induced := PlanInduce(r, |opening.t|, window);
      var t := opening.t + induced.t;
      if induced.stop.Some? then Ending(induced.stop.value, t)
      else
        var end := PlanWatch(r, |t|, watch);
        Ending(end.exit, t + end.t)
  }

  /** The whole run: refused arming asks nothing, and with arming the disarm comes last on every path. */
  function PlanRun(arm: bool, accept: bool, staged: bool, window: nat, watch: nat, r: Replies): Ending {
    if arm && !accept then Ending(Returned(2), [])
    else
      var body := PlanBody(arm, staged, window, watch, r);
      Ending(body.exit, body.t + if arm then Asked(DisarmCrc, r, |body.t|, 1) else [])
  }

  // ---------- runs of alike replies ----------

  predicate QuietBetween(r: Replies, from: nat, to: nat) {
    forall k: nat :: from <= k < to ==> QuietBurst(r(k))
  }

  predicate HeldBetween(r: Replies, from: nat, to: nat) {
    forall k: nat :: from <= k < to ==> HeldReading(r(k))
  }

  /** The count of quiet bursts is the only one that fits. */
  lemma {:induction false} QuietRunIff(r: Replies, at: nat, left: nat, n: nat)
    requires n <= left
    ensures QuietRun(r, at, left) == n <==> QuietBetween(r, at, at + n) && (n < left ==> !QuietBurst(r(at + n)))
    decreases left
  {
    if n > 0 {
      QuietRunIff(r, at + 1, left - 1, n - 1);
    }
  }

  lemma {:induction false} HeldRunIff(r: Replies, at: nat, left: nat, n: nat)
    requires n <= left
    ensures HeldRun(r, at, left) == n <==> HeldBetween(r, at, at + n) && (n < left ==> !HeldReading(r(at + n)))
    decreases left
  {
    if n > 0 {
      HeldRunIff(r, at + 1, left - 1, n - 1);
    }
  }

  // ---------- the program ----------

  method Open(arm: bool, staged: bool, replies: Replies) returns (stop: Option<Exit>, t: Transcript)
    ensures Phase(stop, t) == PlanOpen(arm, staged, replies)
  {
    t := [];
    if !staged {
      return Some(Returned(2)), t;
    }
    var r := replies(0);
    t := [Exchange(Obs, r)];
    if !(r.kind in {Fine, Ran}) || r.json.None? {
      return Some(Returned(2)), t;
    }
    r := replies(1);
    t := t + [Exchange(Selftest, r)];
    if r.json.None? {
      return Some(Returned(2)), t;
    }
    var js := r.json.value;
    if js.readerDead || js.missingMarkers {
      return Some(Returned(3)), t;
    }
    if js.dies.None? {
      return Some(Raised), t;
    }
    var d := js.dies.value;
    if !(d.a.linkOk && d.b.linkOk) {
      return Some(Returned(3)), t;
    }
    var a, b := WedgeSignature(d.a), WedgeSignature(d.b);
    if a.None? {
      return Some(Raised), t;
    }
    if Present(a.value) {
      return Some(Returned(3)), t;
    }
    if b.None? {
      return Some(Raised), t;
    }
    if Present(b.value) {
      return Some(Returned(3)), t;
    }
    if arm {
      r := replies(2);
      t := t + [Exchange(ArmCrc, r)];
      if r.json.None? || !r.json.value.ok {
        return Some(Returned(3)), t;
      }
    }
    return None, t;
  }

  lemma AskOneMore(c: Command, r: Replies, at: nat, n: nat)
    ensures Asked(c, r, at, n + 1) == Asked(c, r, at, n) + [Exchange(c, r(at + n))]
  {
  }

  /** One burst. None in `stop` with `loud`: a wedge signature was seen. */
  method Burst(r: Reply) returns (loud: bool, stop: Option<Exit>)
    ensures loud <==> !QuietBurst(r)
    ensures loud ==> stop == BurstStop(r)
  {
    if r.json.None? {
      return true, Some(Returned(3));
    }
    var js := r.json.value;
    if js.refused {
      return true, Some(Returned(2));
    }
    if js.wedged {
      return true, None;
    }
    if js.dies.None? {
      return true, Some(Raised);
    }
    var a, b := WedgeSignature(js.dies.value.a), WedgeSignature(js.dies.value.b);
    if a.None? || b.None? {
      return true, Some(Returned(3));
    }
    return Present(a.value) || Present(b.value), None;
  }

  method Induce(at: nat, window: nat, replies: Replies) returns (stop: Option<Exit>, t: Transcript)
    ensures Phase(stop, t) == PlanInduce(replies, at, window)
  {
    t := [];
    for i := 0 to window
      invariant t == Asked(Traffic, replies, at, i) && QuietBetween(replies, at, at + i)
    {
      var r := replies(at + i);
      t := t + [Exchange(Traffic, r)];
      AskOneMore(Traffic, replies, at, i);
      var loud;
      loud, stop := Burst(r);
      if loud {
        QuietRunIff(replies, at, window, i);
        return stop, t;
      }
    }
    QuietRunIff(replies, at, window, window);
    return Some(Returned(3)), t;
  }

  /** One reading. None: go on watching. */
  method Reading(r: Reply) returns (stop: Option<Exit>, clear: bool)
    ensures HeldReading(r) <==> stop.None? && !clear
    ensures clear <==> ClearReading(r)
    ensures stop.Some? ==> !clear && stop == Some(if BrokenReading(r) then Raised else Returned(3))
  {
    if r.json.None? {
      return Some(Returned(3)), false;
    }
    if r.json.value.dies.None? {
      return Some(Raised), false;
    }
    var d := r.json.value.dies.value;
    var a, b := WedgeSignature(d.a), WedgeSignature(d.b);
    if a.None? || (!a.value.wedgeAny && b.None?) {
      return Some(Raised), false;
    }
    return None, !a.value.wedgeAny && !(b.value.wedgeAny || a.value.unhealthy || b.value.unhealthy);
  }

  /** Watch for recovery, then confirm whichever way it went. */
  method Discriminate(at: nat, watch: nat, replies: Replies) returns (e: Exit, t: Transcript)
    ensures Ending(e, t) == PlanWatch(replies, at, watch)
  {
    t := [];
    var recovered := false;
    var probes := 0;
    while probes < watch && !recovered
      invariant probes <= watch && t == Asked(Obs, replies, at, probes)
      invariant if recovered then probes > 0 && HeldRun(replies, at, watch) == probes - 1 < watch &&
                                  ClearReading(replies(at + probes - 1))
                else HeldBetween(replies, at, at + probes)
    {
      var r := replies(at + probes);
      t := t + [Exchange(Obs, r)];
      AskOneMore(Obs, replies, at, probes);
      var stop;
      stop, recovered := Reading(r);
      if stop.Some? || recovered {
        HeldRunIff(replies, at, watch, probes);
      }
      if stop.Some? {
        return stop.value, t;
      }
      probes := probes + 1;
    }
    if !recovered {
      HeldRunIff(replies, at, watch, watch);
    }
    var last := replies(at + probes);
    t := t + [Exchange(if recovered then Traffic else Selftest, last)];
    if !recovered {
      e := if last.json.None? || last.json.value.readerDead then Returned(3) else Returned(1);
    } else {
      e := if last.json.None? || last.json.value.wedged || last.json.value.good == 0 then Returned(3) else Returned(0);
    }
  }

  /** Everything inside the try block. */
  method Body(arm: bool, staged: bool, window: nat, watch: nat, replies: Replies) returns (e: Exit, t: Transcript)
    ensures Ending(e, t) == PlanBody(arm, staged, window, watch, replies)
  {
    var stop;
    stop, t := Open(arm, staged, replies);
    if stop.Some? {
      return stop.value, t;
    }
    var bursts;
    stop, bursts := Induce(|t|, window, replies);
    t := t + bursts;
    if stop.Some? {
      return stop.value, t;
    }
    var rest;
    e, rest := Discriminate(|t|, watch, replies);
    t := t + rest;
  }

  /** The whole program, with the disarm of the finally clause. */
  method Run(arm: bool, accept: bool, staged: bool, window: nat, watch: nat, replies: Replies)
    returns (e: Exit, t: Transcript)
    ensures Ending(e, t) == PlanRun(arm, accept, staged, window, watch, replies)
  {
    if arm && !accept {
      return Returned(2), [];
    }
    e, t := Body(arm, staged, window, watch, replies);
    if arm {
      t := t + [Exchange(DisarmCrc, replies(|t|))];
    }
  }
}
