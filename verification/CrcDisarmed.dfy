/**
 A board for which the statistics run passes although its only shot went out disarmed: the receiver
 has no room when the packet is first offered, and the counter jumps by five meanwhile.
 */
module CrcDisarmed {
  import opened Common
  import opened Injector
  import opened CrcShots
  import opened CrcStats

  function PacketOf(tag: nat): Packet
    requires tag < 0x1_0000_0000
  {
    [0, 0, tag, 0xFFFF_FFFF - tag]
  }

  /** Controls are drained at ticks 5, 7, ..., 19, the shot at 29 and its fresh packet at 33. */
  function Waiting(t: nat): seq<Packet> {
    if 5 <= t < 21 then [PacketOf(PRE_BASE + (t - 5) / 2)]
    else if t == 29 then [PacketOf(ShotTag(0))]
    else if t == 33 then [PacketOf(FreshTag(0, 0))]
    else []
  }

  function FullBoard(): Oracle {
    Oracle(_ => true, t => t != 26, t => Waiting(t), t => if t < 30 then 0 else 5, _ => 0,
           t => if t == 25 then ShotWord(0) else 0, _ => false)
  }

  lemma FullBoardClears()
    ensures Clears(FullBoard(), 0)
  {
    var o := FullBoard();
    forall k: nat | k < 8
      ensures Echo(o, 4, PRE_BASE, k)
    {
      assert o.Drained(5 + 2 * k) == [PacketOf(PRE_BASE + k)];
    }
  }

  lemma FullBoardPlays()
    ensures PlayAll(FullBoard(), 22, 1) == Playing([Play([PacketOf(ShotTag(0))], 23, 26, 31, false, true, true)], 35)
  {
    var o := FullBoard();
    assert o.ArmEnd(24, ShotWord(0)) == 26 && o.Holds(24, ShotWord(0));
    assert SendEnd(o, 26, 1) == 29 && Accepted(o, 26, 1);
    assert o.Drained(29) == [PacketOf(ShotTag(0))] && o.Drained(33) == [PacketOf(FreshTag(0, 0))];
    assert Delivers(o.Drained(33), FreshTag(0, 0)) by {
      assert PacketOf(FreshTag(0, 0)) in o.Drained(33);
    }
    assert ProbeFrom(o, 32, FreshTag(0, 0), 2) == Probe(true, 34);
    assert PlayShot(o, 22, 0) == Shooting(Some(Play([PacketOf(ShotTag(0))], 23, 26, 31, false, true, true)), 35);
    assert PlayFrom(o, 35, 1, 1) == Playing([], 35);
  }

  /** What a record with that play says. */
  lemma TheOneShot(log: seq<Event>, shots: seq<Shot>)
    requires PlaysOf(shots) == [Play([PacketOf(ShotTag(0))], 23, 26, 31, false, true, true)]
    requires |shots| > 0 && Witnessed(log, 0, 0, shots[0]) && Metered(FullBoard().counter, shots[0])
    ensures |shots| == 1 && !shots[0].armed && shots[0].delta == 5 && Clean(shots) && Acceptable(shots, true)
    ensures Moved(FullBoard().counter, 21, 35) == Sum(Deltas(shots))
  {
    var s := shots[0];
    assert PlaysOf(shots)[0] == PlayOf(s);
    assert s.packets == [PacketOf(ShotTag(0))] && Replayed(s);
    assert s.delta == 5;
    assert Deltas(shots) == [5] && [5][..0] == [];
  }

  lemma FirstShot(log: seq<Event>, counter: nat -> nat, shots: seq<Shot>, r0: nat, r1: nat)
    requires Recorded(log, counter, shots, r0, r1) && |shots| > 0
    ensures Witnessed(log, 0, 0, shots[0]) && Metered(counter, shots[0])
  {
  }

  /** The run passes in acceptance mode; its shot was never injected and the counter moved by five. */
  method DisarmedShotPasses() returns (v: Verdict, shots: seq<Shot>)
    ensures v.Pass? && |shots| == 1 && !shots[0].armed && shots[0].delta == 5
  {
    var b := new Bench(FullBoard(), false);
    FullBoardClears();
    FullBoardPlays();
    var closed, r0, r1;
    v, shots, closed, r0, r1 := CrcStatsRun(b, 1, true);
    assert |PlaysOf(shots)| == 1;
    FirstShot(b.log, b.oracle.counter, shots, r0 + 1, r1);
    TheOneShot(b.log, shots);
  }
}
