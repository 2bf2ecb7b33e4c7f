/**
 The CRC statistics run of the board tool: pre-controls, then up to 64 single shots, each followed by
 a fresh clean packet, with an outcome count and a counter ledger.
 */
module CrcStats {
  import opened Common
  import opened Injector
  import opened CrcShots

  // ---------- one shot ----------

  datatype Outcome = EXACT | LOST | STRAY | DUP

  /** Outcome of one collect window. */
  function Classify(packets: seq<Packet>, tag: nat): (o: Outcome)
    ensures o.EXACT? <==> Exact(packets, tag)
    ensures o.DUP? <==> |packets| >= 2 && forall i :: 0 <= i < |packets| ==> Carries(packets[i], tag)
    ensures o.LOST? <==> packets == []
  {
    if packets == [] then LOST
    else if Carries(packets[0], tag) then
      if forall i :: 0 <= i < |packets| ==> Carries(packets[i], tag) then
        if |packets| == 1 then EXACT else DUP
      else STRAY
    else STRAY
  }

  /**
   What one counted shot showed.  at, freshAt: where in the bench log the shot packet and the last
   control packet were sent.  t0, t1: the ticks at which its counter was read.  offered: the tick at
   which its packet was first offered.  armed: the injector was still armed when it went out.
   */
  datatype Shot = Shot(tag: nat, at: nat, packets: seq<Packet>, t0: nat, offered: nat, t1: nat, delta: nat,
                       armed: bool, alive: bool, freshTag: nat, freshAt: nat, link: bool)

  /** The part of the record that the board's answers decide. */
  function PlayOf(s: Shot): Play {
    Play(s.packets, s.t0, s.offered, s.t1, s.armed, s.alive, s.link)
  }

  function PlaysOf(shots: seq<Shot>): seq<Play> {
    seq(|shots|, i requires 0 <= i < |shots| => PlayOf(shots[i]))
  }

  predicate SentThenCollected(log: seq<Event>, at: nat, tag: nat, packets: seq<Packet>) {
    at + 1 < |log| && log[at] == Sent(tag) && log[at + 1] == Collected(packets)
  }

  /**
   The record is what really crossed the bus after position `from`, as shot i: sent straight after its
   own arm, or, when it counts as disarmed, straight after a disarm.
   */
  predicate Witnessed(log: seq<Event>, from: nat, i: nat, s: Shot) {
    && s.tag == ShotTag(i) && from < s.at && SentThenCollected(log, s.at, s.tag, s.packets)
    && log[s.at - 1] == (if s.armed then Armed(ShotWord(i)) else Disarmed)
    && (s.alive ==> Answered(log, s.at + 2, i, s.freshTag, s.freshAt))
  }

  lemma WitnessedExtends(log: seq<Event>, more: seq<Event>, from: nat, i: nat, s: Shot)
    requires Witnessed(log, from, i, s) && log <= more
    ensures Witnessed(more, from, i, s)
  {
    assert forall k :: 0 <= k < |log| ==> more[k] == log[k];
  }

  predicate Metered(counter: nat -> nat, s: Shot) {
    s.delta == Moved(counter, s.t0, s.t1)
  }

  /** Sends with one retry after a receiver flush. `disarmFirst` drops the shot before the retry. */
  method SendOrFlush(b: Bench, tag: nat, disarmFirst: bool) returns (ok: bool, flushed: bool)
    requires b.slaveSends || !b.unlocked
    modifies b
    ensures var t, pause := old(b.tick), if disarmFirst then 1 else 0;
            flushed == !b.oracle.room(t) && ok == Accepted(b.oracle, t, pause) && b.tick == SendEnd(b.oracle, t, pause)
    ensures b.log == old(b.log) + (if flushed && disarmFirst then [Disarmed] else []) + (if ok then [Sent(tag)] else [])
    ensures b.unlocked == (old(b.unlocked) && !(flushed && disarmFirst))
  {
    ok := b.Send(tag);
    flushed := false;
    if !ok {
      if disarmFirst {
        var _ := b.Disarm();
      }
      flushed := true;
      ok := b.Send(tag);
    }
  }

  /** At or after `from` a fresh packet of shot i was sent and came back. */
  predicate Answered(log: seq<Event>, from: nat, i: nat, tag: nat, at: nat) {
    && tag in {FreshTag(i, 0), FreshTag(i, 1)} && from <= at && at + 1 < |log|
    && log[at] == Sent(tag) && log[at + 1].Collected? && Delivers(log[at + 1].packets, tag)
  }

  /** Up to two fresh clean packets; alive iff one of them is delivered. */
  method Liveness(b: Bench, i: nat) returns (alive: bool, tag: nat, at: nat)
    requires !b.unlocked
    modifies b
    ensures !b.unlocked && old(b.log) <= b.log && b.tick >= old(b.tick)
    ensures alive ==> Answered(b.log, |old(b.log)|, i, tag, at)
    ensures Probe(alive, b.tick) == ProbeFrom(b.oracle, old(b.tick), FreshTag(i, 0), 2)
  {
    alive, tag, at := false, FreshTag(i, 0), 0;
    ghost var start := b.tick;
    for attempt := 0 to 2
      invariant !b.unlocked && old(b.log) <= b.log && b.tick >= old(b.tick)
      invariant !alive && tag == FreshTag(i, attempt)
      invariant ProbeFrom(b.oracle, b.tick, tag, 2 - attempt) == ProbeFrom(b.oracle, start, FreshTag(i, 0), 2)
    {
      ProbeOnce(b.oracle, b.tick, tag, 2 - attempt);
      var ok, _ := SendOrFlush(b, tag, false);
      if !ok {
        return;
      }
      at := |b.log| - 1;
      var packets := b.Collect();
      if Delivers(packets, tag) {
        alive := true;
        return;
      }
      tag := tag + 1;
    }
  }

  /** The log past `from` ends with this event and the packet sent straight after it. */
  predicate SentAfter(log: seq<Event>, from: nat, e: Event, tag: nat) {
    |log| >= from + 2 && log[|log| - 2] == e && log[|log| - 1] == Sent(tag)
  }

  /** Arms shot i and sends its packet; a flush in between drops the arm. */
  method Launch(b: Bench, i: nat) returns (ok: bool, offered: nat, flushed: bool)
    requires !b.unlocked
    modifies b
    ensures var o, t := b.oracle, old(b.tick);
            && b.tick == LaunchEnd(o, t, i) && ok == Launches(o, t, i)
            && (ok ==> offered == o.ArmEnd(t, ShotWord(i)) && flushed == !o.room(offered))
    ensures old(b.log) <= b.log
    ensures ok ==> SentAfter(b.log, |old(b.log)|, if flushed then Disarmed else Armed(ShotWord(i)), ShotTag(i))
    ensures b.slaveSends || !b.unlocked
    ensures !ok ==> !b.unlocked
  {
    ok, offered, flushed := false, 0, false;
    var armed := b.Arm(SIDEBAND_ID, ShotByte(i), ShotBit(i));
    if armed.Holding? {
      offered := b.tick;
      ok, flushed := SendOrFlush(b, ShotTag(i), true);
    }
  }

  /** The 16-bit movement of the counter since it read `first` at tick t. */
  method CounterSince(b: Bench, t: nat, first: nat) returns (moved: nat)
    requires first == b.oracle.counter(t) % 0x1_0000
    modifies b`tick
    ensures b.tick == old(b.tick) + 1 && moved == Moved(b.oracle.counter, t, old(b.tick))
  {
    var now := b.Counter();
    moved := (now as int - first as int) % 0x1_0000;
  }

  lemma CollectedAfter(sent: seq<Event>, log: seq<Event>, packets: seq<Packet>, tag: nat)
    requires |sent| >= 2 && sent[|sent| - 1] == Sent(tag) && log == sent + [Collected(packets)] + [Disarmed]
    ensures SentThenCollected(log, |sent| - 1, tag, packets) && log[|sent| - 2] == sent[|sent| - 2]
  {
  }

  /** The injection half of a shot: what was seen up to and including the second counter reading. */
  datatype Injected = Injected(at: nat, packets: seq<Packet>, t0: nat, offered: nat, t1: nat, delta: nat, armed: bool)

  /** The same, as the answers from tick t on decide it. */
  predicate InjectedAt(o: Oracle, t: nat, i: nat, r: Option<Injected>, end: nat) {
    var offered, u := o.ArmEnd(t + 2, ShotWord(i)), LaunchEnd(o, t + 2, i);
    if !Launches(o, t + 2, i) then r.None? && end == u
    else r.Some? && end == u + 3 && r.value.t0 == t + 1 && r.value.offered == offered && r.value.t1 == u + 2 &&
         r.value.packets == o.Drained(u) && r.value.armed == o.room(offered)
  }

  /** Arms, sends and collects shot i, then disarms. */
  method Shoot(b: Bench, i: nat) returns (ok: bool, at: nat, packets: seq<Packet>, offered: nat, armed: bool)
    requires !b.unlocked
    modifies b
    ensures !b.unlocked && old(b.log) <= b.log
    ensures ok ==> && |old(b.log)| < at && SentThenCollected(b.log, at, ShotTag(i), packets)
                   && b.log[at - 1] == (if armed then Armed(ShotWord(i)) else Disarmed)
    ensures var o, t := b.oracle, old(b.tick);
            var u := LaunchEnd(o, t, i);
            && ok == Launches(o, t, i) && b.tick == (if ok then u + 2 else u)
            && (ok ==> offered == o.ArmEnd(t, ShotWord(i)) && packets == o.Drained(u) && armed == o.room(offered))
  {
    at, packets, armed := 0, [], false;
    var flushed;
    ok, offered, flushed := Launch(b, i);
    if ok {
      at, armed := |b.log| - 1, !flushed;
      ghost var sent := b.log;
      packets := b.Collect();
      var _ := b.Disarm();
      CollectedAfter(sent, b.log, packets, ShotTag(i));
    }
  }

  method Inject(b: Bench, i: nat) returns (r: Option<Injected>)
    requires !b.unlocked
    modifies b
    ensures !b.unlocked && old(b.log) <= b.log && b.tick >= old(b.tick)
    ensures r.Some? ==>
              && |old(b.log)| < r.value.at && SentThenCollected(b.log, r.value.at, ShotTag(i), r.value.packets)
              && b.log[r.value.at - 1] == (if r.value.armed then Armed(ShotWord(i)) else Disarmed)
              && r.value.delta == Moved(b.oracle.counter, r.value.t0, r.value.t1)
    ensures InjectedAt(b.oracle, old(b.tick), i, r, b.tick)
  {
    var residue := b.Collect();
    var t0 := b.tick;
    var before := b.Counter();
    var ok, at, packets, offered, armed := Shoot(b, i);
    if !ok {
      return None;
    }
    var t1 := b.tick;
    var delta := CounterSince(b, t0, before);
    return Some(Injected(at, packets, t0, offered, t1, delta, armed));
  }

  lemma ShotIsWitnessed(log: seq<Event>, more: seq<Event>, from: nat, i: nat, x: Injected, alive: bool,
                        freshTag: nat, freshAt: nat, link: bool)
    requires log <= more && from < x.at && SentThenCollected(log, x.at, ShotTag(i), x.packets)
    requires log[x.at - 1] == (if x.armed then Armed(ShotWord(i)) else Disarmed)
    requires alive ==> Answered(more, |log|, i, freshTag, freshAt)
    ensures Witnessed(more, from, i, ShotOf(i, x, alive, freshTag, freshAt, link))
  {
    assert more[x.at - 1] == log[x.at - 1] && more[x.at] == log[x.at] && more[x.at + 1] == log[x.at + 1];
  }

  lemma ShotIsPlayed(o: Oracle, t: nat, i: nat, x: Injected, middle: nat, alive: bool, probed: nat)
    requires InjectedAt(o, t, i, Some(x), middle)
    requires Probe(alive, probed) == ProbeFrom(o, middle, FreshTag(i, 0), 2)
    ensures PlayShot(o, t, i) == Shooting(Some(Play(x.packets, x.t0, x.offered, x.t1, x.armed, alive,
                                                    o.link(probed))), probed + 1)
  {
  }

  lemma NoShotIsPlayed(o: Oracle, t: nat, i: nat, end: nat)
    requires InjectedAt(o, t, i, None, end)
    ensures PlayShot(o, t, i) == Shooting(None, end)
  {
  }

  function ShotOf(i: nat, x: Injected, alive: bool, freshTag: nat, freshAt: nat, link: bool): Shot {
    Shot(ShotTag(i), x.at, x.packets, x.t0, x.offered, x.t1, x.delta, x.armed, alive, freshTag, freshAt, link)
  }

  /** One iteration of the run; None when the injector or the receiver refused before the shot. */
  method Fire(b: Bench, i: nat) returns (s: Option<Shot>)
    requires !b.unlocked
    modifies b
    ensures !b.unlocked && old(b.log) <= b.log && b.tick >= old(b.tick)
    ensures s.Some? ==> Witnessed(b.log, |old(b.log)|, i, s.value) && Metered(b.oracle.counter, s.value)
    ensures s.Some? ==> old(b.tick) <= s.value.t0 < s.value.t1 < b.tick
    ensures var played := PlayShot(b.oracle, old(b.tick), i);
            b.tick == played.end && played.play == if s.None? then None else Some(PlayOf(s.value))
  {
    ghost var t := b.tick;
    var r := Inject(b, i);
    if r.None? {
      NoShotIsPlayed(b.oracle, t, i, b.tick);
      return None;
    }
    var x := r.value;
    ghost var injected, middle := b.log, b.tick;
    var alive, freshTag, freshAt := Liveness(b, i);
    ghost var probed, answered := b.tick, b.log;
    ShotIsPlayed(b.oracle, t, i, x, middle, alive, probed);
    var link := b.LinkOk();
    ShotIsWitnessed(injected, answered, |old(b.log)|, i, x, alive, freshTag, freshAt, link);
    return Some(ShotOf(i, x, alive, freshTag, freshAt, link));
  }

  // ---------- counting ----------

  datatype Tally = Tally(exact: nat, lost: nat, stray: nat, dup: nat, inert: nat, undetectedBad: nat)

  function Detected(t: Tally): nat {
    t.exact + t.lost + t.stray + t.dup
  }

  /** A counter that moved at all counts as a detection. */
  function CountShot(t: Tally, s: Shot): Tally {
    var o := Classify(s.packets, s.tag);
    if s.delta == 0 then
      if o.EXACT? then t.(inert := t.inert + 1) else t.(undetectedBad := t.undetectedBad + 1)
    else match o
         case EXACT => t.(exact := t.exact + 1)
         case LOST => t.(lost := t.lost + 1)
         case STRAY => t.(stray := t.stray + 1)
         case DUP => t.(dup := t.dup + 1)
  }

  function TallyOf(shots: seq<Shot>): Tally {
    if shots == [] then Tally(0, 0, 0, 0, 0, 0)
    else CountShot(TallyOf(shots[..|shots| - 1]), shots[|shots| - 1])
  }

  /** Every shot is counted once: shots = detected + inert + undetected-bad. */
  lemma {:induction false} ShotsAreConserved(shots: seq<Shot>)
    ensures var t := TallyOf(shots);
            |shots| == Detected(t) + t.inert + t.undetectedBad
  {
    if shots != [] {
      ShotsAreConserved(shots[..|shots| - 1]);
    }
  }

  predicate Replayed(s: Shot) {
    Exact(s.packets, s.tag)
  }

  /** How many shots are of a sort. */
  function CountOf(shots: seq<Shot>, sort: Shot -> bool): nat {
    if shots == [] then 0
    else CountOf(shots[..|shots| - 1], sort) + if sort(shots[|shots| - 1]) then 1 else 0
  }

  predicate AllCarry(s: Shot) {
    forall i :: 0 <= i < |s.packets| ==> Carries(s.packets[i], s.tag)
  }

  /** Every figure of the tally counts the shots of its sort. */
  lemma {:induction false} TallyCounts(shots: seq<Shot>)
    ensures var t := TallyOf(shots);
            && t.exact == CountOf(shots, (s: Shot) => s.delta != 0 && Replayed(s))
            && t.lost == CountOf(shots, (s: Shot) => s.delta != 0 && s.packets == [])
            && t.dup == CountOf(shots, (s: Shot) => s.delta != 0 && |s.packets| >= 2 && AllCarry(s))
            && t.stray == CountOf(shots, (s: Shot) => s.delta != 0 && s.packets != [] && !AllCarry(s))
            && t.inert == CountOf(shots, (s: Shot) => s.delta == 0 && Replayed(s))
            && t.undetectedBad == CountOf(shots, (s: Shot) => s.delta == 0 && !Replayed(s))
  {
    if shots != [] {
      TallyCounts(shots[..|shots| - 1]);
      SortsOf(shots[|shots| - 1]);
    }
  }

  lemma SortsOf(s: Shot)
    ensures Classify(s.packets, s.tag).EXACT? <==> Replayed(s)
    ensures Classify(s.packets, s.tag).LOST? <==> s.packets == []
    ensures Classify(s.packets, s.tag).DUP? <==> |s.packets| >= 2 && AllCarry(s)
    ensures Classify(s.packets, s.tag).STRAY? <==> s.packets != [] && !AllCarry(s)
  {
  }

  predicate AllReplayed(shots: seq<Shot>) {
    forall i :: 0 <= i < |shots| ==> Replayed(shots[i])
  }

  predicate AnyDetected(shots: seq<Shot>) {
    exists i :: 0 <= i < |shots| && shots[i].delta != 0
  }

  predicate NoneSilent(shots: seq<Shot>) {
    forall i :: 0 <= i < |shots| ==> shots[i].delta != 0 || Replayed(shots[i])
  }

  lemma LastShot(shots: seq<Shot>)
    requires shots != []
    ensures var front, last := shots[..|shots| - 1], shots[|shots| - 1];
            && (AllReplayed(shots) <==> AllReplayed(front) && Replayed(last))
            && (AnyDetected(shots) <==> AnyDetected(front) || last.delta != 0)
            && (NoneSilent(shots) <==> NoneSilent(front) && (last.delta != 0 || Replayed(last)))
  {
    var front := shots[..|shots| - 1];
    assert forall i :: 0 <= i < |front| ==> shots[i] == front[i];
    if AnyDetected(front) {
      var i :| 0 <= i < |front| && front[i].delta != 0;
      assert shots[i].delta != 0;
    }
  }

  lemma {:induction false} BadMeaning(shots: seq<Shot>)
    ensures Bad(TallyOf(shots)) == 0 <==> AllReplayed(shots)
  {
    if shots != [] {
      BadMeaning(shots[..|shots| - 1]);
      LastShot(shots);
      CountShotStep(TallyOf(shots[..|shots| - 1]), shots[|shots| - 1]);
    }
  }

  lemma {:induction false} DetectedMeaning(shots: seq<Shot>)
    ensures Detected(TallyOf(shots)) > 0 <==> AnyDetected(shots)
  {
    if shots != [] {
      DetectedMeaning(shots[..|shots| - 1]);
      LastShot(shots);
      CountShotStep(TallyOf(shots[..|shots| - 1]), shots[|shots| - 1]);
    }
  }

  lemma {:induction false} SilentMeaning(shots: seq<Shot>)
    ensures TallyOf(shots).undetectedBad == 0 <==> NoneSilent(shots)
  {
    if shots != [] {
      SilentMeaning(shots[..|shots| - 1]);
      LastShot(shots);
      CountShotStep(TallyOf(shots[..|shots| - 1]), shots[|shots| - 1]);
    }
  }

  /** The bad counters are all zero iff every single shot delivered exactly its packet. */
  lemma TallyMeaning(shots: seq<Shot>)
    ensures Bad(TallyOf(shots)) == 0 <==> AllReplayed(shots)
    ensures Detected(TallyOf(shots)) > 0 <==> AnyDetected(shots)
    ensures TallyOf(shots).undetectedBad == 0 <==> NoneSilent(shots)
  {
    BadMeaning(shots);
    DetectedMeaning(shots);
    SilentMeaning(shots);
  }

  function Bad(t: Tally): nat {
    t.lost + t.stray + t.dup + t.undetectedBad
  }

  lemma CountShotStep(t: Tally, s: Shot)
    ensures var t' := CountShot(t, s);
            && Bad(t') == Bad(t) + (if Replayed(s) then 0 else 1)
            && Detected(t') == Detected(t) + (if s.delta == 0 then 0 else 1)
            && t'.undetectedBad == t.undetectedBad + (if s.delta == 0 && !Replayed(s) then 1 else 0)
  {
  }

  // ---------- the counter ledger ----------

  function Deltas(shots: seq<Shot>): seq<nat> {
    seq(|shots|, i requires 0 <= i < |shots| => shots[i].delta)
  }

  /** True movement of the absolute count inside the shots. */
  ghost function Inside(counter: nat -> nat, shots: seq<Shot>): int {
    if shots == [] then 0
    else Inside(counter, shots[..|shots| - 1]) + counter(shots[|shots| - 1].t1) - counter(shots[|shots| - 1].t0)
  }

  /** Each shot moved the count by less than a full turn of the 16-bit register. */
  ghost predicate SmallMoves(counter: nat -> nat, shots: seq<Shot>) {
    forall i :: 0 <= i < |shots| ==> 0 <= counter(shots[i].t1) - counter(shots[i].t0) < 0x1_0000
  }

  ghost predicate AllMetered(counter: nat -> nat, shots: seq<Shot>) {
    forall i :: 0 <= i < |shots| ==> Metered(counter, shots[i])
  }

  lemma MovedExactly(x: int, y: int)
    requires 0 <= x - y < 0x1_0000
    ensures (x % 0x1_0000 - y % 0x1_0000) % 0x1_0000 == x - y
  {
    WrapsAlike(x, y);
  }

  lemma {:induction false} SumOfDeltas(counter: nat -> nat, shots: seq<Shot>)
    requires AllMetered(counter, shots) && SmallMoves(counter, shots)
    ensures Sum(Deltas(shots)) == Inside(counter, shots)
  {
    if shots == [] {
      assert Deltas(shots) == [];
    } else {
      var front, last := shots[..|shots| - 1], shots[|shots| - 1];
      SumOfDeltas(counter, front);
      assert Deltas(shots)[..|shots| - 1] == Deltas(front);
      MovedExactly(counter(last.t1), counter(last.t0));
    }
  }

  lemma WrapsAlike(x: int, y: int)
    ensures (x % 0x1_0000 - y % 0x1_0000) % 0x1_0000 == (x - y) % 0x1_0000
  {
    var p, q := x / 0x1_0000, y / 0x1_0000;
    assert x % 0x1_0000 - y % 0x1_0000 == (x - y) - 0x1_0000 * (p - q);
  }

  lemma ResidueIff(d: int, s: int)
    requires s >= 0
    ensures d % 0x1_0000 == s <==> s < 0x1_0000 && (d - s) % 0x1_0000 == 0
  {
    var q := d / 0x1_0000;
    assert d == 0x1_0000 * q + d % 0x1_0000;
  }

  /** Outside the shots the count moved by a multiple of 65536, inside by less than that. */
  ghost predicate NothingOutside(counter: nat -> nat, shots: seq<Shot>, r0: nat, r1: nat) {
    && Inside(counter, shots) < 0x1_0000
    && (counter(r1) - counter(r0) - Inside(counter, shots)) % 0x1_0000 == 0
  }

  /**
   The ledger closes exactly when the shots together moved the count by less than 65536 and
   everything outside the shots, over the whole run, moved it by a multiple of 65536.
   */
  lemma LedgerClosesIff(counter: nat -> nat, r0: nat, r1: nat, shots: seq<Shot>)
    requires AllMetered(counter, shots) && SmallMoves(counter, shots)
    ensures Moved(counter, r0, r1) == Sum(Deltas(shots)) <==> NothingOutside(counter, shots, r0, r1)
  {
    SumOfDeltas(counter, shots);
    WrapsAlike(counter(r1), counter(r0));
    ResidueIff(counter(r1) - counter(r0), Inside(counter, shots));
  }

  // ---------- the run ----------

  predicate Clean(shots: seq<Shot>) {
    forall i :: 0 <= i < |shots| ==> shots[i].alive && shots[i].link
  }

  ghost predicate AllWitnessed(log: seq<Event>, shots: seq<Shot>) {
    forall i :: 0 <= i < |shots| ==> Witnessed(log, 0, i, shots[i])
  }

  /** The shots happened one after the other: each starts after the previous one and its control. */
  predicate Ordered(shots: seq<Shot>) {
    forall i, j :: 0 <= i < j < |shots| ==>
                     shots[i].at < shots[j].at && (shots[i].alive ==> shots[i].freshAt < shots[j].at)
  }

  /** Counter readings of successive shots do not overlap and lie inside the run. */
  predicate Timed(shots: seq<Shot>, r0: nat, r1: nat) {
    && (forall i :: 0 <= i < |shots| ==> r0 <= shots[i].t0 < shots[i].t1 <= r1)
    && (forall i, j :: 0 <= i < j < |shots| ==> shots[i].t1 < shots[j].t0)
  }

  /** What must hold before the first shot; the refusals come in this order. */
  predicate Cleared(o: Oracle, t: nat, log: seq<Event>, start: nat, end: nat) {
    o.link(t) && o.errinj(t + 1) == 0 && !o.crcOff(t + 2) && CleanlyEchoed(o, t + 3, log, start, end)
  }

  predicate CleanlyEchoed(o: Oracle, t: nat, log: seq<Event>, start: nat, end: nat) {
    && |log| >= start + 16 && ControlsDelivered(log, start, PRE_BASE, 8)
    && o.counter(t) % 0x1_0000 == o.counter(end) % 0x1_0000
  }

  /**
   The link is up, the injector idle, the receiver checks CRCs, eight clean packets come back exactly
   and the counter stays quiet.
   */
  method Ready(b: Bench) returns (ok: bool)
    requires !b.unlocked
    modifies b
    ensures !b.unlocked && old(b.log) <= b.log && b.tick > old(b.tick)
    ensures ok <==> Cleared(b.oracle, old(b.tick), b.log, |old(b.log)|, b.tick - 1)
    ensures ok <==> Clears(b.oracle, old(b.tick))
    ensures ok ==> b.tick == old(b.tick) + 21
  {
    ok := b.LinkOk();
    if !ok {
      return false;
    }
    var zero := b.ReadErrinj();
    if zero != 0 {
      return false;
    }
    var off := b.CrcCheckOff();
    if off {
      return false;
    }
    ok := PreControls(b);
  }

  method PreControls(b: Bench) returns (ok: bool)
    modifies b`tick, b`log
    ensures old(b.log) <= b.log && b.tick > old(b.tick)
    ensures ok <==> CleanlyEchoed(b.oracle, old(b.tick), b.log, |old(b.log)|, b.tick - 1)
    ensures ok <==> Undisturbed(b.oracle, old(b.tick))
    ensures ok ==> b.tick == old(b.tick) + 18
  {
    var c0 := b.Counter();
    var good := Drive(b, PRE_BASE, 8);
    if good.None? {
      return false;
    }
    var c1 := b.Counter();
    return good.value == 8 && c1 == c0;
  }

  /** A faithful record: every shot witnessed in the log, metered, in order, inside the ticks r0..r1. */
  ghost predicate Recorded(log: seq<Event>, counter: nat -> nat, shots: seq<Shot>, r0: nat, r1: nat) {
    && AllWitnessed(log, shots) && Ordered(shots) && AllMetered(counter, shots) && Timed(shots, r0, r1)
    && forall i :: 0 <= i < |shots| ==>
                     shots[i].at < |log| && (shots[i].alive ==> shots[i].freshAt < |log|) && shots[i].t1 < r1
  }

  lemma RecordedExtends(log: seq<Event>, more: seq<Event>, counter: nat -> nat, shots: seq<Shot>,
                        r0: nat, r1: nat, r2: nat)
    requires Recorded(log, counter, shots, r0, r1) && log <= more && r1 <= r2
    ensures Recorded(more, counter, shots, r0, r2)
  {
    forall i | 0 <= i < |shots|
      ensures Witnessed(more, 0, i, shots[i])
    {
      WitnessedExtends(log, more, 0, i, shots[i]);
    }
  }

  lemma RecordedAppend(log: seq<Event>, more: seq<Event>, counter: nat -> nat, shots: seq<Shot>, s: Shot,
                       r0: nat, r1: nat, r2: nat)
    requires Recorded(log, counter, shots, r0, r1) && log <= more && r0 <= r1 <= r2
    requires Witnessed(more, |log|, |shots|, s) && Metered(counter, s) && r1 <= s.t0 < s.t1 < r2
    ensures Recorded(more, counter, shots + [s], r0, r2)
  {
    var all := shots + [s];
    forall i | 0 <= i < |all|
      ensures Witnessed(more, 0, i, all[i])
    {
      if i < |shots| {
        WitnessedExtends(log, more, 0, i, shots[i]);
      }
    }
    OrderedAppend(log, shots, s);
    TimedAppend(shots, s, r0, r1, r2);
    assert AllMetered(counter, all);
  }

  lemma OrderedAppend(log: seq<Event>, shots: seq<Shot>, s: Shot)
    requires Ordered(shots) && |log| <= s.at
    requires forall i :: 0 <= i < |shots| ==> shots[i].at < |log| && (shots[i].alive ==> shots[i].freshAt < |log|)
    ensures Ordered(shots + [s])
  {
  }

  lemma TimedAppend(shots: seq<Shot>, s: Shot, r0: nat, r1: nat, r2: nat)
    requires Timed(shots, r0, r1) && r0 <= r1 <= s.t0 < s.t1 < r2
    requires forall i :: 0 <= i < |shots| ==> shots[i].t1 < r1
    ensures Timed(shots + [s], r0, r2)
  {
  }

  function Before(shots: seq<Shot>, rest: Playing): Playing {
    Playing(PlaysOf(shots) + rest.plays, rest.end)
  }

  /** After some shots since tick t0: a faithful record, and what the board's answers still decide. */
  ghost predicate Underway(o: Oracle, log: seq<Event>, tick: nat, t0: nat, n: nat, shots: seq<Shot>, degraded: bool) {
    && |shots| <= n && t0 <= tick && Recorded(log, o.counter, shots, t0, tick)
    && (degraded <==> !Clean(shots))
    && PlayAll(o, t0, n) ==
       if degraded then Playing(PlaysOf(shots), tick) else Before(shots, PlayFrom(o, tick, |shots|, n))
  }

  lemma PlayedOne(o: Oracle, tick: nat, end: nat, n: nat, shots: seq<Shot>, s: Shot)
    requires |shots| < n && PlayShot(o, tick, |shots|) == Shooting(Some(PlayOf(s)), end)
    ensures Before(shots, PlayFrom(o, tick, |shots|, n)) ==
            if s.alive && s.link then Before(shots + [s], PlayFrom(o, end, |shots| + 1, n))
            else Playing(PlaysOf(shots + [s]), end)
  {
    PlayFromStep(o, tick, |shots|, n, PlayOf(s), end);
    BeforeOne(shots, s, PlayFrom(o, end, |shots| + 1, n), end);
  }

  lemma BeforeOne(shots: seq<Shot>, s: Shot, rest: Playing, end: nat)
    ensures Before(shots, Playing([PlayOf(s)] + rest.plays, rest.end)) == Before(shots + [s], rest)
    ensures Before(shots, Playing([PlayOf(s)], end)) == Playing(PlaysOf(shots + [s]), end)
  {
    PlaysOfAppend(shots, s);
    assert PlaysOf(shots) + ([PlayOf(s)] + rest.plays) == PlaysOf(shots) + [PlayOf(s)] + rest.plays;
  }

  lemma PlaysOfAppend(shots: seq<Shot>, s: Shot)
    ensures PlaysOf(shots + [s]) == PlaysOf(shots) + [PlayOf(s)]
  {
  }

  lemma CleanAppend(shots: seq<Shot>, s: Shot)
    ensures Clean(shots + [s]) <==> Clean(shots) && s.alive && s.link
  {
    var all := shots + [s];
    assert all[|shots|] == s;
    assert forall i :: 0 <= i < |shots| ==> all[i] == shots[i];
  }

  lemma UnderwayOne(o: Oracle, log: seq<Event>, more: seq<Event>, tick: nat, end: nat, t0: nat, n: nat,
                    shots: seq<Shot>, s: Shot)
    requires Underway(o, log, tick, t0, n, shots, false) && |shots| < n && log <= more && tick <= end
    requires Witnessed(more, |log|, |shots|, s) && Metered(o.counter, s) && tick <= s.t0 < s.t1 < end
    requires PlayShot(o, tick, |shots|) == Shooting(Some(PlayOf(s)), end)
    ensures Underway(o, more, end, t0, n, shots + [s], !(s.alive && s.link))
  {
    RecordedAppend(log, more, o.counter, shots, s, t0, tick, end);
    CleanAppend(shots, s);
    PlayedOne(o, tick, end, n, shots, s);
  }

  lemma UnderwayRefused(o: Oracle, tick: nat, end: nat, n: nat, shots: seq<Shot>)
    requires |shots| < n && PlayShot(o, tick, |shots|) == Shooting(None, end)
    ensures Before(shots, PlayFrom(o, tick, |shots|, n)) == Playing(PlaysOf(shots), end)
  {
  }

  /** Fires shots until the wanted number ran or one left the link unusable. */
  method Shots(b: Bench, n: nat) returns (shots: seq<Shot>, degraded: bool)
    requires !b.unlocked
    modifies b
    ensures !b.unlocked && old(b.log) <= b.log
    ensures |shots| <= n && Recorded(b.log, b.oracle.counter, shots, old(b.tick), b.tick)
    ensures degraded <==> |shots| < n || !Clean(shots)
    ensures PlayAll(b.oracle, old(b.tick), n) == Playing(PlaysOf(shots), b.tick)
  {
    shots, degraded := [], false;
    NoShots(b.oracle, b.log, b.tick, n);
    while |shots| < n && !degraded
      invariant !b.unlocked && old(b.log) <= b.log
      invariant Underway(b.oracle, b.log, b.tick, old(b.tick), n, shots, degraded)
      decreases n - |shots|
    {
      ghost var log, tick := b.log, b.tick;
      var s := Fire(b, |shots|);
      if s.None? {
        RecordedExtends(log, b.log, b.oracle.counter, shots, old(b.tick), tick, b.tick);
        UnderwayRefused(b.oracle, tick, b.tick, n, shots);
        return shots, true;
      }
      UnderwayOne(b.oracle, log, b.log, tick, b.tick, old(b.tick), n, shots, s.value);
      shots := shots + [s.value];
      degraded := !(s.value.alive && s.value.link);
    }
    AllPlayed(b.oracle, b.tick, n, shots);
  }

  lemma NoShots(o: Oracle, log: seq<Event>, tick: nat, n: nat)
    ensures Underway(o, log, tick, tick, n, [], false)
  {
    assert PlaysOf([]) + PlayFrom(o, tick, 0, n).plays == PlayFrom(o, tick, 0, n).plays;
  }

  lemma AllPlayed(o: Oracle, tick: nat, n: nat, shots: seq<Shot>)
    requires |shots| <= n
    ensures |shots| == n ==> Before(shots, PlayFrom(o, tick, n, n)) == Playing(PlaysOf(shots), tick)
  {
  }

  /** The whole movement against the sum of the shots. */
  method Closes(b: Bench, t: nat, first: nat, shots: seq<Shot>) returns (closed: bool)
    requires first == b.oracle.counter(t) % 0x1_0000
    modifies b`tick
    ensures closed == (Moved(b.oracle.counter, t, old(b.tick)) == Sum(Deltas(shots)))
  {
    var total := CounterSince(b, t, first);
    closed := total == Sum(Deltas(shots));
  }

  /** All shots between two readings of the counter, and whether the ledger closes over them. */
  method Measure(b: Bench, n: nat)
    returns (shots: seq<Shot>, degraded: bool, ledgerClosed: bool, r0: nat, r1: nat, ghost start: nat)
    requires !b.unlocked
    modifies b
    ensures !b.unlocked && old(b.log) <= b.log && r0 == old(b.tick) && start == r0 + 1
    ensures |shots| <= n && Recorded(b.log, b.oracle.counter, shots, start, r1)
    ensures degraded <==> |shots| < n || !Clean(shots)
    ensures ledgerClosed <==> !degraded && Moved(b.oracle.counter, r0, r1) == Sum(Deltas(shots))
    ensures PlayAll(b.oracle, start, n) == Playing(PlaysOf(shots), r1)
  {
    r0 := b.tick;
    var first := b.Counter();
    start := b.tick;
    shots, degraded := Shots(b, n);
    r1 := b.tick;
    ledgerClosed := false;
    if !degraded {
      ledgerClosed := Closes(b, r0, first, shots);
    }
  }

  datatype Verdict = Refused | LinkDegraded | CountMismatch | UndetectedBad | Inconclusive | Fail | Pass

  /** The decision once all shots ran on a healthy link. */
  function Judge(t: Tally, ledgerClosed: bool, expectFixed: bool): (v: Verdict)
    ensures v in {CountMismatch, UndetectedBad, Inconclusive, Fail, Pass}
    ensures v.Pass? <==> ledgerClosed && Detected(t) > 0 && (if expectFixed then Bad(t) == 0 else t.undetectedBad == 0)
  {
    if !ledgerClosed then CountMismatch
    else if t.undetectedBad > 0 then UndetectedBad
    else if Detected(t) == 0 then Inconclusive
    else if expectFixed && (t.lost > 0 || t.stray > 0 || t.dup > 0 || t.exact != Detected(t)) then Fail
    else Pass
  }

  /** What a pass stands for, as a caller could check it on the list of shots. */
  predicate Acceptable(shots: seq<Shot>, expectFixed: bool) {
    AnyDetected(shots) && if expectFixed then AllReplayed(shots) else NoneSilent(shots)
  }

  /** Which verdict a run on a healthy link gets, as the shots and the ledger decide it. */
  predicate Judged(v: Verdict, shots: seq<Shot>, ledgerClosed: bool, expectFixed: bool) {
    match v
    case CountMismatch => !ledgerClosed
    case UndetectedBad => ledgerClosed && !NoneSilent(shots)
    case Inconclusive => ledgerClosed && NoneSilent(shots) && !AnyDetected(shots)
    case Fail => ledgerClosed && NoneSilent(shots) && AnyDetected(shots) && expectFixed && !AllReplayed(shots)
    case Pass => ledgerClosed && Acceptable(shots, expectFixed)
    case _ => false
  }

  /** The verdicts exclude each other, so each is given exactly when its condition holds. */
  lemma JudgedOnce(v: Verdict, w: Verdict, shots: seq<Shot>, ledgerClosed: bool, expectFixed: bool)
    requires Judged(v, shots, ledgerClosed, expectFixed) && Judged(w, shots, ledgerClosed, expectFixed)
    ensures v == w
  {
    if AllReplayed(shots) {
      assert forall i :: 0 <= i < |shots| ==> Replayed(shots[i]);
    }
  }

  lemma JudgeMeaning(shots: seq<Shot>, ledgerClosed: bool, expectFixed: bool)
    ensures Judge(TallyOf(shots), ledgerClosed, expectFixed).Pass? <==> ledgerClosed && Acceptable(shots, expectFixed)
    ensures Judged(Judge(TallyOf(shots), ledgerClosed, expectFixed), shots, ledgerClosed, expectFixed)
  {
    TallyMeaning(shots);
    JudgeBranches(TallyOf(shots), ledgerClosed, expectFixed);
  }

  /** The verdict by the figures of the tally. */
  lemma JudgeBranches(t: Tally, ledgerClosed: bool, expectFixed: bool)
    ensures Judge(t, ledgerClosed, expectFixed) ==
            if !ledgerClosed then CountMismatch
            else if t.undetectedBad != 0 then UndetectedBad
            else if Detected(t) == 0 then Inconclusive
            else if expectFixed && Bad(t) != 0 then Fail
            else Pass
  {
  }

  /** Every shot was armed when it went out iff the receiver had room when it was first offered. */
  ghost predicate ArmedWhenRoom(o: Oracle, shots: seq<Shot>) {
    forall i :: 0 <= i < |shots| ==> (shots[i].armed <==> o.room(shots[i].offered))
  }

  lemma ArmedShots(o: Oracle, t: nat, n: nat, shots: seq<Shot>, end: nat)
    requires PlayAll(o, t, n) == Playing(PlaysOf(shots), end)
    ensures ArmedWhenRoom(o, shots)
  {
    PlayedArmedIff(o, t, 0, n);
    forall i | 0 <= i < |shots|
      ensures shots[i].armed <==> o.room(shots[i].offered)
    {
      assert ArmedIffRoom(o, PlaysOf(shots)[i]);
    }
  }

  /**
   The whole command.  At every return the slave die is locked, and every counted shot is one that
   really was sent and collected.

   No shot is fired unless the checks before it all passed, eight clean packets included.  What the
   board answers decides the shots, and each was armed when it went out exactly if the receiver had
   room at its first offer.
   EXPECT_FIXED passes iff the run was not refused, all n shots ran, each delivered exactly the one
   packet it sent, a fresh packet got through after each with the link up, the counter moved in at
   least one shot, and the ledger closed.
   */
  method CrcStatsRun(b: Bench, n: int, expectFixed: bool)
    returns (v: Verdict, shots: seq<Shot>, ledgerClosed: bool, r0: nat, r1: nat)
    requires !b.unlocked
    modifies b
    ensures !b.unlocked
    ensures v.Refused? <==> !(1 <= n <= MAX_SHOTS && Clears(b.oracle, old(b.tick)))
    ensures v.Refused? ==> shots == []
    ensures !v.Refused? ==> && r0 == old(b.tick) + 21
                            && PlayAll(b.oracle, r0 + 1, n) == Playing(PlaysOf(shots), r1)
                            && ArmedWhenRoom(b.oracle, shots)
    ensures !v.Refused? ==> r0 > 0 && Cleared(b.oracle, old(b.tick), b.log, |old(b.log)|, r0 - 1)
    ensures !v.Refused? ==> && 1 <= n <= MAX_SHOTS && |shots| <= n
                            && Recorded(b.log, b.oracle.counter, shots, r0 + 1, r1)
                            && (v.LinkDegraded? <==> |shots| < n || !Clean(shots))
    ensures !v.Refused? && !v.LinkDegraded? ==>
              (ledgerClosed <==> Moved(b.oracle.counter, r0, r1) == Sum(Deltas(shots)))
    ensures !v.Refused? && !v.LinkDegraded? ==> Judged(v, shots, ledgerClosed, expectFixed)
    ensures v.Pass? && SmallMoves(b.oracle.counter, shots) ==> NothingOutside(b.oracle.counter, shots, r0, r1)
    ensures v.Pass? <==>
            && !v.Refused? && |shots| == n && Clean(shots) && ledgerClosed && Acceptable(shots, expectFixed)
  {
    v, shots, ledgerClosed, r0, r1 := Refused, [], false, 0, 0;
    if n < 1 || n > MAX_SHOTS {
      return;
    }
    var ready := Ready(b);
    if !ready {
      return;
    }
    var degraded;
    ghost var cleared := b.log;
    ghost var start;
    shots, degraded, ledgerClosed, r0, r1, start := Measure(b, n);
    ControlsExtend(cleared, b.log, |old(b.log)|, PRE_BASE, 8);
    ArmedShots(b.oracle, start, n, shots, r1);
    if degraded {
      v := LinkDegraded;
      return;
    }
    JudgeMeaning(shots, ledgerClosed, expectFixed);
    if SmallMoves(b.oracle.counter, shots) {
      LedgerClosesIff(b.oracle.counter, r0, r1, shots);
    }
    v := Judge(TallyOf(shots), ledgerClosed, expectFixed);
  }
}
