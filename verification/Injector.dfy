/**
 The board-side bench of the CRC injection tests: the sideband send/collect path, the receiver's
 16-bit CRC counter, and the error injector with the slave die's debug unlock.

 The board may answer anything: each access consults an oracle at a fresh tick.
 */
module Injector {
  import opened Common

  const ENABLE_BIT := 0x100_0000
  const SIDEBAND_ID := 0xA1

  type Packet = seq<nat>

  /**
   What the board answers at each tick: link up, receiver room, waiting packets, the receiver's CRC count
   and the sender's, 0x23C, CRC check off.
   */
  datatype Oracle = Oracle(link: nat -> bool, room: nat -> bool, fifo: nat -> seq<Packet>, counter: nat -> nat,
                           otherCounter: nat -> nat, errinj: nat -> nat, crcOff: nat -> bool)
  {
    /** What one drain at tick t takes. */
    function Drained(t: nat): seq<Packet> {
      if |fifo(t)| <= 8 then fifo(t) else fifo(t)[..8]
    }

    /** An arm that starts at tick t holds the word v. */
    predicate Holds(t: nat, v: nat) {
      errinj(t) == 0 && (errinj(t + 1) == v || errinj(t + 3) == v)
    }

    /** The tick after that arm: one read, two, or four. */
    function ArmEnd(t: nat, v: nat): nat {
      if errinj(t) != 0 then t + 1 else if errinj(t + 1) == v then t + 2 else t + 4
    }
  }

  datatype Event = Sent(tag: nat) | Collected(packets: seq<Packet>) | Armed(value: nat) | Disarmed

  datatype ArmResult = Holding(value: nat) | NotZero | NoHold(value: nat, seen: seq<nat>)

  /** The injector word: enable, bit number, byte number, DataID. */
  function ArmValue(did: int, byte: int, bit: int): nat {
    ENABLE_BIT + bit % 8 * 0x1_0000 + byte % 256 * 0x100 + did % 256
  }

  /** Each field reads back from the word, so different shots are different words and none is 0. */
  lemma ArmValueFields(did: int, byte: int, bit: int)
    ensures var v := ArmValue(did, byte, bit);
            && v / ENABLE_BIT == 1 && v / 0x1_0000 % 256 == bit % 8
            && v / 0x100 % 256 == byte % 256 && v % 256 == did % 256
  {
    var d, y, t := did % 256, byte % 256, bit % 8;
    assert ArmValue(did, byte, bit) == (0x1_0000 + t * 256 + y) * 256 + d;
    assert ArmValue(did, byte, bit) == (256 + t) * 0x1_0000 + (y * 256 + d);
  }

  class Bench {
    const oracle: Oracle
    const slaveSends: bool  // the transmitting die is the slave, whose writes need the debug unlock
    var tick: nat
    var unlocked: bool
    var errinj: seq<nat>    // values written to 0x23C, oldest first
    var log: seq<Event>

    constructor (oracle: Oracle, slaveSends: bool)
      ensures tick == 0 && !unlocked && log == [] && errinj == []
      ensures this.oracle == oracle && this.slaveSends == slaveSends
    {
      this.oracle, this.slaveSends := oracle, slaveSends;
      tick, unlocked, errinj, log := 0, false, [], [];
    }

    method LinkOk() returns (ok: bool)
      modifies this`tick
      ensures tick == old(tick) + 1 && ok == oracle.link(old(tick))
    {
      ok := oracle.link(tick);
      tick := tick + 1;
    }

    method CrcCheckOff() returns (off: bool)
      modifies this`tick
      ensures tick == old(tick) + 1 && off == oracle.crcOff(old(tick))
    {
      off := oracle.crcOff(tick);
      tick := tick + 1;
    }

    method Counter() returns (c: nat)
      modifies this`tick
      ensures tick == old(tick) + 1 && c == oracle.counter(old(tick)) % 0x1_0000
    {
      c := oracle.counter(tick) % 0x1_0000;
      tick := tick + 1;
    }

    /** The CRC counter of the sending die. */
    method OtherCounter() returns (c: nat)
      modifies this`tick
      ensures tick == old(tick) + 1 && c == oracle.otherCounter(old(tick)) % 0x1_0000
    {
      c := oracle.otherCounter(tick) % 0x1_0000;
      tick := tick + 1;
    }

    method ReadErrinj() returns (v: nat)
      modifies this`tick
      ensures tick == old(tick) + 1 && v == oracle.errinj(old(tick))
    {
      v := oracle.errinj(tick);
      tick := tick + 1;
    }

    /** Writes the packet only when the receiver has room. */
    method Send(tag: nat) returns (ok: bool)
      modifies this`tick, this`log
      ensures tick == old(tick) + 1 && ok == oracle.room(old(tick))
      ensures log == if ok then old(log) + [Sent(tag)] else old(log)
    {
      ok := oracle.room(tick);
      tick := tick + 1;
      if ok {
        log := log + [Sent(tag)];
      }
    }

    /** Drains at most eight packets. */
    method Collect() returns (packets: seq<Packet>)
      modifies this`tick, this`log
      ensures tick == old(tick) + 1 && |packets| <= 8 && packets == oracle.Drained(old(tick))
      ensures log == old(log) + [Collected(packets)]
    {
      packets := oracle.fifo(tick);
      if |packets| > 8 {
        packets := packets[..8];
      }
      tick := tick + 1;
      log := log + [Collected(packets)];
    }

    method SetUnlock(on: bool)
      modifies this`unlocked
      ensures unlocked == if slaveSends then on else old(unlocked)
    {
      if slaveSends {
        unlocked := on;
      }
    }

    /**
     Arms one shot.  Succeeds iff 0x23C reads 0 after the clearing write and the armed word reads back,
     at once or on the last of two slow reads.  Any failure relocks the die; a word that did not hold
     is nevertheless the last value written.
     */
    method Arm(did: int, byte: int, bit: int) returns (r: ArmResult)
      requires slaveSends || !unlocked
      modifies this
      ensures unlocked == (slaveSends && r.Holding?)
      ensures var t, v := old(tick), ArmValue(did, byte, bit);
              && tick == oracle.ArmEnd(t, v)
              && (r.NotZero? <==> oracle.errinj(t) != 0)
              && (r.Holding? <==> oracle.Holds(t, v))
              && errinj == old(errinj) + (if r.NotZero? then [0] else [0, v])
              && (!r.NotZero? ==> r.value == v)
              && log == old(log) + (if r.Holding? then [Armed(v)] else [])
    {
      SetUnlock(true);
      errinj := errinj + [0];
      var zero := ReadErrinj();
      if zero != 0 {
        SetUnlock(false);
        return NotZero;
      }
      var v := ArmValue(did, byte, bit);
      errinj := errinj + [v];
      var first := ReadErrinj();
      var seen := [first];
      if first != v {
        var i := 0;
        while i < 2
          invariant 0 <= i <= 2 && |seen| == 1 + i && tick == old(tick) + 2 + i
          invariant i > 0 ==> seen[i] == oracle.errinj(old(tick) + 1 + i)
          invariant errinj == old(errinj) + [0, v] && log == old(log) && unlocked == slaveSends
        {
          var slow := ReadErrinj();
          seen := seen + [slow];
          i := i + 1;
        }
      }
      if seen[|seen| - 1] != v {
        SetUnlock(false);
        return NoHold(v, seen);
      }
      log := log + [Armed(v)];
      return Holding(v);
    }

    /** Clears the injector and always relocks the die. */
    method Disarm() returns (ok: bool)
      requires slaveSends || !unlocked
      modifies this
      ensures tick == old(tick) + 1 && !unlocked && ok == (oracle.errinj(old(tick)) == 0)
      ensures errinj == old(errinj) + [0] && log == old(log) + [Disarmed]
    {
      errinj := errinj + [0];
      var v := ReadErrinj();
      SetUnlock(false);
      log := log + [Disarmed];
      return v == 0;
    }
  }

  /** The verdict of the wrong-DataID control; None when the control traffic itself gave up. */
  datatype InertVerdict = NotArmed | GaveUp | Ran(bad: nat, quiet: bool, disarmed: bool)

  const WRONG_ID_BASE := 0x7C20_0000

  /** Control packet k went out and came back as the only packet, at its place after `start`. */
  predicate ControlDelivered(log: seq<Event>, start: nat, base: nat, k: nat) {
    && start + 2 * k + 1 < |log|
    && log[start + 2 * k] == Sent(base + k)
    && log[start + 2 * k + 1].Collected? && Exact(log[start + 2 * k + 1].packets, base + k)
  }

  predicate ControlsDelivered(log: seq<Event>, start: nat, base: nat, n: nat) {
    forall k: nat :: k < n ==> ControlDelivered(log, start, base, k)
  }

  lemma ControlsExtend(log: seq<Event>, more: seq<Event>, start: nat, base: nat, n: nat)
    requires log <= more && |log| >= start + 2 * n
    ensures ControlsDelivered(more, start, base, n) <==> ControlsDelivered(log, start, base, n)
  {
    forall k: nat | k < n
      ensures ControlDelivered(more, start, base, k) <==> ControlDelivered(log, start, base, k)
    {
    }
  }

  /** At tick t + 2 k the receiver has room, and the drain after it yields exactly packet k. */
  predicate Echo(o: Oracle, t: nat, base: nat, k: nat) {
    o.room(t + 2 * k) && Exact(o.Drained(t + 2 * k + 1), base + k)
  }

  predicate Echoes(o: Oracle, t: nat, base: nat, count: nat) {
    forall k: nat :: k < count ==> Echo(o, t, base, k)
  }

  /** Each of the sends at ticks t, t + 2, ... finds room. */
  predicate RoomFor(o: Oracle, t: nat, count: nat) {
    forall k: nat :: k < count ==> RoomAt(o, t, k)
  }

  predicate RoomAt(o: Oracle, t: nat, k: nat) {
    o.room(t + 2 * k)
  }

  /** How many of the drains after these sends do not yield exactly the packet sent. */
  function Misses(o: Oracle, t: nat, base: nat, count: nat): (n: nat)
    ensures n <= count
  {
    if count == 0 then 0
    else Misses(o, t, base, count - 1) + if Exact(o.Drained(t + 2 * count - 1), base + count - 1) then 0 else 1
  }

  lemma RoomStep(o: Oracle, t: nat, n: nat)
    ensures RoomFor(o, t, n + 1) <==> RoomFor(o, t, n) && RoomAt(o, t, n)
  {
  }

  lemma NoRoom(o: Oracle, t: nat, k: nat, count: nat)
    requires k < count && !RoomAt(o, t, k)
    ensures !RoomFor(o, t, count)
  {
  }

  lemma EchoesStep(o: Oracle, t: nat, base: nat, n: nat)
    ensures Echoes(o, t, base, n + 1) <==> Echoes(o, t, base, n) && Echo(o, t, base, n)
  {
  }

  /** Every packet is echoed iff every send finds room and no drain misses. */
  lemma {:induction false} EchoesIff(o: Oracle, t: nat, base: nat, n: nat)
    ensures Echoes(o, t, base, n) <==> RoomFor(o, t, n) && Misses(o, t, base, n) == 0
  {
    if n > 0 {
      EchoesIff(o, t, base, n - 1);
      EchoesStep(o, t, base, n - 1);
      RoomStep(o, t, n - 1);
    }
  }

  /** Control packet k was sent, and what was drained after it is in the log. */
  predicate Exchanged(log: seq<Event>, start: nat, o: Oracle, t: nat, base: nat, k: nat) {
    && start + 2 * k + 1 < |log| && log[start + 2 * k] == Sent(base + k)
    && log[start + 2 * k + 1] == Collected(o.Drained(t + 2 * k + 1))
  }

  predicate AllExchanged(log: seq<Event>, start: nat, o: Oracle, t: nat, base: nat, n: nat) {
    forall k: nat :: k < n ==> Exchanged(log, start, o, t, base, k)
  }

  lemma ExchangedStep(log: seq<Event>, start: nat, o: Oracle, t: nat, base: nat, n: nat, packets: seq<Packet>)
    requires AllExchanged(log, start, o, t, base, n) && |log| == start + 2 * n
    requires packets == o.Drained(t + 2 * n + 1)
    ensures AllExchanged(log + [Sent(base + n)] + [Collected(packets)], start, o, t, base, n + 1)
  {
    var more := log + [Sent(base + n)] + [Collected(packets)];
    forall k: nat | k <= n
      ensures Exchanged(more, start, o, t, base, k)
    {
      assert k < n ==> Exchanged(log, start, o, t, base, k);
    }
  }

  lemma ControlsIffEchoes(log: seq<Event>, start: nat, o: Oracle, t: nat, base: nat, n: nat)
    requires AllExchanged(log, start, o, t, base, n) && RoomFor(o, t, n)
    ensures ControlsDelivered(log, start, base, n) <==> Echoes(o, t, base, n)
  {
    forall k: nat | k < n
      ensures ControlDelivered(log, start, base, k) <==> Echo(o, t, base, k)
    {
      assert Exchanged(log, start, o, t, base, k) && RoomAt(o, t, k);
    }
  }

  /** Clean control packets; counts those delivered exactly, None when the receiver has no room. */
  method Drive(b: Bench, base: nat, count: nat) returns (good: Option<nat>)
    modifies b`tick, b`log
    ensures old(b.log) <= b.log && b.tick >= old(b.tick)
    ensures if good.None? then |b.log| < |old(b.log)| + 2 * count
            else |b.log| == |old(b.log)| + 2 * count && good.value <= count
    ensures good == Some(count) <==> ControlsDelivered(b.log, |old(b.log)|, base, count) && good.Some?
    ensures good == Some(count) <==> Echoes(b.oracle, old(b.tick), base, count)
    ensures good.Some? <==> RoomFor(b.oracle, old(b.tick), count)
    ensures good.Some? ==> b.tick == old(b.tick) + 2 * count
                           && good.value + Misses(b.oracle, old(b.tick), base, count) == count
  {
    var n := 0;
    ghost var t, start := b.tick, |b.log|;
    EchoesIff(b.oracle, t, base, count);
    for i := 0 to count
      invariant old(b.log) <= b.log && |b.log| == |old(b.log)| + 2 * i && n <= i && b.tick >= old(b.tick)
      invariant AllExchanged(b.log, start, b.oracle, t, base, i)
      invariant b.tick == t + 2 * i && RoomFor(b.oracle, t, i)
      invariant n + Misses(b.oracle, t, base, i) == i
    {
      ghost var before := b.log;
      RoomStep(b.oracle, t, i);
      var ok := b.Send(base + i);
      if !ok {
        NoRoom(b.oracle, t, i, count);
        return None;
      }
      var packets := b.Collect();
      ExchangedStep(before, start, b.oracle, t, base, i, packets);
      if Exact(packets, base + i) {
        n := n + 1;
      }
    }
    ControlsIffEchoes(b.log, start, b.oracle, t, base, count);
    return Some(n);
  }

  /** The counters of both dies, read one after the other. */
  method Counters(b: Bench) returns (c: (nat, nat))
    modifies b`tick
    ensures b.tick == old(b.tick) + 2 && c == CountersAt(b.oracle, old(b.tick))
  {
    var receiver := b.Counter();
    var sender := b.OtherCounter();
    return (receiver, sender);
  }

  function CountersAt(o: Oracle, t: nat): (nat, nat) {
    (o.counter(t) % 0x1_0000, o.otherCounter(t + 1) % 0x1_0000)
  }

  /** Drives the four control packets past the armed injector, then disarms. */
  method DriveArmed(b: Bench) returns (good: Option<nat>, disarmed: bool)
    requires b.slaveSends || !b.unlocked
    modifies b
    ensures !b.unlocked && |b.log| > |old(b.log)| && b.tick > old(b.tick)
    ensures var o, t := b.oracle, old(b.tick);
            && (good.Some? <==> RoomFor(o, t, 4))
            && (good.Some? ==> && b.tick == t + 9 && disarmed == (o.errinj(t + 8) == 0)
                               && good.value + Misses(o, t, WRONG_ID_BASE, 4) == 4)
    ensures good.Some? ==> good.value <= 4 &&
                           (good.value == 4 <==> ControlsDelivered(b.log, |old(b.log)|, WRONG_ID_BASE, 4))
  {
    good := Drive(b, WRONG_ID_BASE, 4);
    ghost var driven := b.log;
    disarmed := b.Disarm();
    if good.Some? {
      ControlsExtend(driven, b.log, |old(b.log)|, WRONG_ID_BASE, 4);
    }
  }

  const WRONG_ID_WORD := ArmValue(0x7E, 5, 0)

  /** The verdict from tick u on, once armed. */
  function DrivenVerdict(o: Oracle, u: nat, before: (nat, nat)): InertVerdict {
    if !RoomFor(o, u, 4) then GaveUp
    else Ran(Misses(o, u, WRONG_ID_BASE, 4), CountersAt(o, u + 9) == before, o.errinj(u + 8) == 0)
  }

  /** The verdict as the answers from tick t on decide it. */
  function WrongIdVerdict(o: Oracle, t: nat): InertVerdict {
    if !o.Holds(t + 2, WRONG_ID_WORD) then NotArmed
    else DrivenVerdict(o, o.ArmEnd(t + 2, WRONG_ID_WORD), CountersAt(o, t))
  }

  method DriveAndCompare(b: Bench, before: (nat, nat)) returns (v: InertVerdict)
    requires b.slaveSends || !b.unlocked
    modifies b
    ensures !b.unlocked && |b.log| > |old(b.log)|
    ensures v == DrivenVerdict(b.oracle, old(b.tick), before)
    ensures v.Ran? ==> (v.bad == 0 <==> ControlsDelivered(b.log, |old(b.log)|, WRONG_ID_BASE, 4))
  {
    var good, disarmed := DriveArmed(b);
    if good.None? {
      return GaveUp;
    }
    var after := Counters(b);
    return Ran(4 - good.value, after == before, disarmed);
  }

  /**
   Arms a DataID nobody uses, drives four packets, disarms.  However it ends the die is locked; no bad
   packet means that all four packets came back exactly, quiet that the counters of both dies read as
   before, disarmed that the injector reads 0 again.
   */
  method WrongIdControl(b: Bench) returns (v: InertVerdict)
    requires !b.unlocked
    modifies b
    ensures !b.unlocked
    ensures v == WrongIdVerdict(b.oracle, old(b.tick))
    ensures v.NotArmed? <==> b.log == old(b.log)
    ensures v.Ran? ==> (v.bad == 0 <==> ControlsDelivered(b.log, |old(b.log)| + 1, WRONG_ID_BASE, 4))
  {
    var before := Counters(b);
    var r := b.Arm(0x7E, 5, 0);
    if !r.Holding? {
      return NotArmed;
    }
    v := DriveAndCompare(b, before);
  }

  /** The complement word that follows the tag. */
  function Complement(tag: nat): int {
    0xFFFF_FFFF - tag % 0x1_0000_0000
  }

  predicate Carries(p: Packet, tag: nat) {
    |p| >= 4 && p[2] == tag && p[3] == Complement(tag)
  }

  /** Exactly one packet arrived and it is the one that was sent. */
  predicate Exact(packets: seq<Packet>, tag: nat) {
    |packets| == 1 && Carries(packets[0], tag)
  }
}
