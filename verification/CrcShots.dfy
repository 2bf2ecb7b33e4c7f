/**
 The shots of the CRC statistics run: what is sent, and what the answers of a board decide.  The
 functions here follow the ticks at which the run asks the board, and nothing else; the methods of
 `CrcStats` are proved to do what they say.
 */
module CrcShots {
  import opened Common
  import opened Injector

  const MAX_SHOTS := 64

  const PRE_BASE := 0x5E00_0000

  function ShotByte(i: nat): nat {
    4 + i % 8
  }

  function ShotBit(i: nat): nat {
    (i + i / 8) % 8
  }

  function ShotTag(i: nat): nat {
    0x5D00_0000 + i * 256 + ShotByte(i)
  }

  /** Bits 20..23 of a shot tag are 0, so flipping them adds 0xF00000; the second attempt adds one more. */
  function FreshTag(i: nat, attempt: nat): nat {
    ShotTag(i) + 0xF0_0000 + attempt
  }

  /** No packet of one shot, and no control packet, can pass for the packet of another shot. */
  lemma TagsDoNotCollide(i: nat, j: nat, attempt: nat, p: Packet)
    requires i < MAX_SHOTS && j < MAX_SHOTS && attempt < 2
    ensures i != j && Carries(p, ShotTag(j)) ==> !Carries(p, ShotTag(i))
    ensures Carries(p, FreshTag(j, attempt)) ==> !Carries(p, ShotTag(i))
    ensures i != j && Carries(p, FreshTag(j, attempt)) ==> !Carries(p, FreshTag(i, 0)) && !Carries(p, FreshTag(i, 1))
  {
  }

  /** The 64 shots of a full run corrupt 64 different (byte, bit) positions. */
  lemma ShotsCoverDistinctBits(i: nat, j: nat)
    requires i < j < MAX_SHOTS && ShotByte(i) == ShotByte(j)
    ensures ShotBit(i) != ShotBit(j)
  {
    ShotBitOf(i / 8, i % 8);
    ShotBitOf(j / 8, j % 8);
    RotationsDiffer(i / 8, j / 8, i % 8);
  }

  lemma RotationsDiffer(p: nat, q: nat, r: nat)
    requires p < q < 8 && r < 8
    ensures (p + r) % 8 != (q + r) % 8
  {
  }

  lemma ShotBitOf(q: nat, r: nat)
    requires r < 8
    ensures ShotBit(8 * q + r) == (q + r) % 8
  {
    assert (8 * q + r) / 8 == q;
  }

  /** The word that arms shot i. */
  function ShotWord(i: nat): nat {
    ArmValue(SIDEBAND_ID, ShotByte(i), ShotBit(i))
  }

  /** The 16-bit difference of two readings of an absolute count. */
  function Moved(counter: nat -> nat, t0: nat, t1: nat): nat {
    (counter(t1) % 0x1_0000 - counter(t0) % 0x1_0000) % 0x1_0000
  }

  // ---------- before the first shot ----------

  /** The answers from tick t on that let the run begin. */
  predicate Clears(o: Oracle, t: nat) {
    o.link(t) && o.errinj(t + 1) == 0 && !o.crcOff(t + 2) && Undisturbed(o, t + 3)
  }

  /** Eight clean packets come back exactly and the counter reads the same before and after. */
  predicate Undisturbed(o: Oracle, t: nat) {
    Echoes(o, t + 1, PRE_BASE, 8) && o.counter(t) % 0x1_0000 == o.counter(t + 17) % 0x1_0000
  }

  // ---------- one shot ----------

  /** Sending once, and once more after a flush that takes `pause` ticks. */
  predicate Accepted(o: Oracle, t: nat, pause: nat) {
    o.room(t) || o.room(t + 1 + pause)
  }

  function SendEnd(o: Oracle, t: nat, pause: nat): nat {
    if o.room(t) then t + 1 else t + 2 + pause
  }

  /** The arm that starts at t holds, and the packet of shot i is accepted after it. */
  predicate Launches(o: Oracle, t: nat, i: nat) {
    o.Holds(t, ShotWord(i)) && Accepted(o, o.ArmEnd(t, ShotWord(i)), 1)
  }

  function LaunchEnd(o: Oracle, t: nat, i: nat): nat {
    var offered := o.ArmEnd(t, ShotWord(i));
    if o.Holds(t, ShotWord(i)) then SendEnd(o, offered, 1) else offered
  }

  predicate Delivers(packets: seq<Packet>, tag: nat) {
    exists x :: x in packets && Carries(x, tag)
  }

  datatype Probe = Probe(alive: bool, end: nat)

  /** Fresh packets with consecutive tags until one is delivered or refused. */
  function ProbeFrom(o: Oracle, t: nat, tag: nat, attempts: nat): Probe
    decreases attempts
  {
    if attempts == 0 then Probe(false, t)
    else
      var u := SendEnd(o, t, 0);
      if !Accepted(o, t, 0) then Probe(false, u)
      else if Delivers(o.Drained(u), tag) then Probe(true, u + 1)
      else ProbeFrom(o, u + 1, tag + 1, attempts - 1)
  }

  lemma ProbeOnce(o: Oracle, t: nat, tag: nat, attempts: nat)
    requires attempts > 0
    ensures var u := SendEnd(o, t, 0);
            ProbeFrom(o, t, tag, attempts) ==
            if !Accepted(o, t, 0) then Probe(false, u)
            else if Delivers(o.Drained(u), tag) then Probe(true, u + 1)
            else ProbeFrom(o, u + 1, tag + 1, attempts - 1)
  {
  }

  /**
   The node counts as alive iff the first fresh packet is accepted and delivered, or it is accepted and
   a second one is accepted and delivered; each may be offered again once, after a flush.
   */
  lemma AliveIff(o: Oracle, t: nat, tag: nat)
    ensures var u := if o.room(t) then t + 1 else t + 2;
            var w := if o.room(u + 1) then u + 2 else u + 3;
            ProbeFrom(o, t, tag, 2).alive <==>
            && (o.room(t) || o.room(t + 1))
            && (|| Delivers(o.Drained(u), tag)
                || ((o.room(u + 1) || o.room(u + 2)) && Delivers(o.Drained(w), tag + 1)))
  {
    var u := SendEnd(o, t, 0);
    var w := SendEnd(o, u + 1, 0);
    assert ProbeFrom(o, w + 1, tag + 2, 0) == Probe(false, w + 1);
    assert ProbeFrom(o, u + 1, tag + 1, 1).alive <==> Accepted(o, u + 1, 0) && Delivers(o.Drained(w), tag + 1);
  }

  /** One counted shot as the board answered it. offered: the tick at which its packet was first offered. */
  datatype Play = Play(packets: seq<Packet>, t0: nat, offered: nat, t1: nat, armed: bool, alive: bool, link: bool)

  datatype Shooting = Shooting(play: Option<Play>, end: nat)

  /** Shot i from tick t on. It goes out armed exactly when the receiver has room at the first offer. */
  function PlayShot(o: Oracle, t: nat, i: nat): Shooting {
    var offered, u := o.ArmEnd(t + 2, ShotWord(i)), LaunchEnd(o, t + 2, i);
    if !Launches(o, t + 2, i) then Shooting(None, u)
    else
      var probe := ProbeFrom(o, u + 3, FreshTag(i, 0), 2);
      Shooting(Some(Play(o.Drained(u), t + 1, offered, u + 2, o.room(offered), probe.alive, o.link(probe.end))),
               probe.end + 1)
  }

  datatype Playing = Playing(plays: seq<Play>, end: nat)

  /** Shots i, i + 1, ... up to n, stopping after one that leaves the link unusable. */
  function PlayFrom(o: Oracle, t: nat, i: nat, n: nat): Playing
    decreases n - i
  {
    if i >= n then Playing([], t)
    else
      var s := PlayShot(o, t, i);
      if s.play.None? then Playing([], s.end)
      else if !(s.play.value.alive && s.play.value.link) then Playing([s.play.value], s.end)
      else
        var rest := PlayFrom(o, s.end, i + 1, n);
        Playing([s.play.value] + rest.plays, rest.end)
  }

  /** All shots of a run of n from tick t on. */
  function PlayAll(o: Oracle, t: nat, n: nat): Playing {
    PlayFrom(o, t, 0, n)
  }

  lemma PlayFromStep(o: Oracle, t: nat, i: nat, n: nat, p: Play, end: nat)
    requires i < n && PlayShot(o, t, i) == Shooting(Some(p), end)
    ensures var rest := PlayFrom(o, end, i + 1, n);
            PlayFrom(o, t, i, n) == if p.alive && p.link then Playing([p] + rest.plays, rest.end) else Playing([p], end)
  {
  }

  predicate ArmedIffRoom(o: Oracle, p: Play) {
    p.armed <==> o.room(p.offered)
  }

  /** A shot goes out armed exactly when the receiver has room at its first offer. */
  lemma {:induction false} PlayedArmedIff(o: Oracle, t: nat, i: nat, n: nat)
    ensures forall k :: 0 <= k < |PlayFrom(o, t, i, n).plays| ==> ArmedIffRoom(o, PlayFrom(o, t, i, n).plays[k])
    decreases n - i
  {
    if i < n {
      PlayedArmedIff(o, PlayShot(o, t, i).end, i + 1, n);
    }
  }
}
