/** The scoreboard of the CRC matrix: one classifier for "delivered exactly once, in order". */
module CrcClassifier {
  import opened Common

  datatype Class = EXACT | LOST | STRAY | DUP | INERT | ERROR

  datatype Detail = Detail(lost: nat, dup: nat, stray: nat, delivered: nat, sent: nat)

  // ---------- counting ----------

  /** Position of the first occurrence. */
  function FirstIndex<T(==)>(s: seq<T>, x: T): (i: nat)
    requires x in s
    ensures i < |s| && s[i] == x && forall j :: 0 <= j < i ==> s[j] != x
  {
    if s[0] == x then 0 else FirstIndex(s[1..], x) + 1
  }

  /** How many delivered items are booked on sent position i. */
  function Hits<T(==)>(sent: seq<T>, got: seq<T>, i: nat): nat {
    if got == [] then 0
    else
      var g := got[|got| - 1];
      Hits(sent, got[..|got| - 1], i) + (if g in sent && FirstIndex(sent, g) == i then 1 else 0)
  }

  function Strays<T(==)>(sent: seq<T>, got: seq<T>): seq<T> {
    if got == [] then []
    else
      var g := got[|got| - 1];
      Strays(sent, got[..|got| - 1]) + (if g in sent then [] else [g])
  }

  function Lost(cnt: seq<nat>): nat {
    if cnt == [] then 0 else Lost(cnt[..|cnt| - 1]) + (if cnt[|cnt| - 1] == 0 then 1 else 0)
  }

  function Dup(cnt: seq<nat>): nat {
    if cnt == [] then 0 else Dup(cnt[..|cnt| - 1]) + (if cnt[|cnt| - 1] > 1 then cnt[|cnt| - 1] - 1 else 0)
  }

  // ---------- facts about the counts ----------

  lemma {:induction false} SumSplits(cnt: seq<nat>)
    ensures Lost(cnt) <= |cnt| && Sum(cnt) == (|cnt| - Lost(cnt)) + Dup(cnt)
  {
    if cnt != [] {
      SumSplits(cnt[..|cnt| - 1]);
    }
  }

  lemma {:induction false} NoneLost(cnt: seq<nat>)
    ensures Lost(cnt) == 0 <==> forall i :: 0 <= i < |cnt| ==> cnt[i] > 0
    ensures Dup(cnt) == 0 <==> forall i :: 0 <= i < |cnt| ==> cnt[i] <= 1
  {
    if cnt != [] {
      var front := cnt[..|cnt| - 1];
      NoneLost(front);
      assert forall i :: 0 <= i < |front| ==> cnt[i] == front[i];
    }
  }

  lemma {:induction false} SumBump(cnt: seq<nat>, i: nat)
    requires i < |cnt|
    ensures Sum(cnt[i := cnt[i] + 1]) == Sum(cnt) + 1
  {
    var c := cnt[i := cnt[i] + 1];
    if i < |cnt| - 1 {
      SumBump(cnt[..|cnt| - 1], i);
      assert c[..|c| - 1] == cnt[..|cnt| - 1][i := cnt[i] + 1];
    } else {
      assert c[..|c| - 1] == cnt[..|cnt| - 1];
    }
  }

  /** The first occurrence is booked once per delivery; later copies of a sent item never. */
  lemma {:induction false} HitsMeaning<T>(sent: seq<T>, got: seq<T>, i: nat)
    requires i < |sent|
    ensures Hits(sent, got, i) == if FirstIndex(sent, sent[i]) == i then multiset(got)[sent[i]] else 0
  {
    if got != [] {
      var front := got[..|got| - 1];
      HitsMeaning(sent, front, i);
      assert got == front + [got[|got| - 1]];
    }
  }

  lemma {:induction false} StraysMeaning<T>(sent: seq<T>, got: seq<T>)
    ensures Strays(sent, got) == [] <==> forall k :: 0 <= k < |got| ==> got[k] in sent
  {
    if got != [] {
      var front := got[..|got| - 1];
      StraysMeaning(sent, front);
      assert forall k :: 0 <= k < |front| ==> got[k] == front[k];
    }
  }

  lemma DistinctIffFirst<T>(s: seq<T>)
    ensures Distinct(s) <==> forall i :: 0 <= i < |s| ==> FirstIndex(s, s[i]) == i
  {
    if !Distinct(s) {
      var i, j :| 0 <= i < j < |s| && s[i] == s[j];
      assert FirstIndex(s, s[j]) != j;
    }
  }

  lemma DistinctMultiset<T>(s: seq<T>, i: nat)
    requires Distinct(s) && i < |s|
    ensures multiset(s)[s[i]] == 1
  {
    assert s == s[..i] + [s[i]] + s[i + 1..];
    assert s[i] !in s[..i] && s[i] !in s[i + 1..];
  }

  /** No loss, no duplicate and no stray: the delivery is a permutation of distinct items. */
  lemma PermutationFromCounts<T>(sent: seq<T>, got: seq<T>)
    requires forall i :: 0 <= i < |sent| ==> Hits(sent, got, i) == 1
    requires Strays(sent, got) == []
    ensures Distinct(sent) && multiset(got) == multiset(sent)
  {
    forall i | 0 <= i < |sent|
      ensures FirstIndex(sent, sent[i]) == i && multiset(got)[sent[i]] == 1
    {
      HitsMeaning(sent, got, i);
    }
    DistinctIffFirst(sent);
    StraysMeaning(sent, got);
    forall x
      ensures multiset(got)[x] == multiset(sent)[x]
    {
      if x in sent {
        var i :| 0 <= i < |sent| && sent[i] == x;
        DistinctMultiset(sent, i);
      } else {
        assert x !in got;
      }
    }
  }

  /** A faithful delivery of distinct items books every position once. */
  lemma CountsOfFaithful<T>(sent: seq<T>)
    requires Distinct(sent)
    ensures forall i :: 0 <= i < |sent| ==> Hits(sent, sent, i) == 1
    ensures Strays(sent, sent) == []
  {
    DistinctIffFirst(sent);
    StraysMeaning(sent, sent);
    forall i | 0 <= i < |sent|
      ensures Hits(sent, sent, i) == 1
    {
      HitsMeaning(sent, sent, i);
      DistinctMultiset(sent, i);
    }
  }

  // ---------- the classifier ----------

  /** Books the delivered items: cnt per sent position, and the ones never sent. */
  method Book<T(==)>(sent: seq<T>, got: seq<T>) returns (cnt: seq<nat>, stray: seq<T>)
    ensures |cnt| == |sent| && forall i :: 0 <= i < |sent| ==> cnt[i] == Hits(sent, got, i)
    ensures stray == Strays(sent, got) && |got| == Sum(cnt) + |stray|
  {
    cnt, stray := seq(|sent|, _ => 0), [];
    SumZeros(cnt);
    for k := 0 to |got|
      invariant |cnt| == |sent| && forall i :: 0 <= i < |sent| ==> cnt[i] == Hits(sent, got[..k], i)
      invariant stray == Strays(sent, got[..k]) && k == Sum(cnt) + |stray|
    {
      assert got[..k + 1][..k] == got[..k];
      if got[k] in sent {
        var i := FirstIndex(sent, got[k]);
        SumBump(cnt, i);
        cnt := cnt[i := cnt[i] + 1];
      } else {
        stray := stray + [got[k]];
      }
    }
    assert got[..|got|] == got;
  }

  lemma {:induction false} SumZeros(cnt: seq<nat>)
    requires forall i :: 0 <= i < |cnt| ==> cnt[i] == 0
    ensures Sum(cnt) == 0
  {
    if cnt != [] {
      SumZeros(cnt[..|cnt| - 1]);
    }
  }

  predicate Matches(fired: int, expectFired: int, crcDelta: int, expectCrc: int) {
    fired == expectFired && crcDelta == expectCrc
  }

  /** The sent positions nothing was booked on. */
  ghost function Unhit<T>(sent: seq<T>, got: seq<T>): set<nat> {
    set i: nat | i < |sent| && Hits(sent, got, i) == 0
  }

  ghost function Zeros(cnt: seq<nat>): set<nat> {
    set i: nat | i < |cnt| && cnt[i] == 0
  }

  lemma {:induction false} LostCountsZeros(cnt: seq<nat>)
    ensures Lost(cnt) == |Zeros(cnt)|
  {
    if cnt == [] {
      assert Zeros(cnt) == {};
    } else {
      var last := |cnt| - 1;
      LostCountsZeros(cnt[..last]);
      assert Zeros(cnt) == Zeros(cnt[..last]) + if cnt[last] == 0 then {last} else {};
    }
  }

  /** Every sent item is distinct and arrived. */
  predicate AllArrived<T(==)>(sent: seq<T>, got: seq<T>) {
    Distinct(sent) && forall x :: x in sent ==> x in got
  }

  predicate NoStray<T(==)>(sent: seq<T>, got: seq<T>) {
    forall x :: x in got ==> x in sent
  }

  /** What each class says, in terms of the two lists and the counters. */
  predicate IsClass<T(==)>(cls: Class, sent: seq<T>, got: seq<T>, fired: int, expectFired: int, crcDelta: int,
                           expectCrc: int)
  {
    if !Matches(fired, expectFired, crcDelta, expectCrc) then cls.ERROR?
    else match cls
         case ERROR => false
         case LOST => !AllArrived(sent, got)
         case STRAY => AllArrived(sent, got) && (!NoStray(sent, got) || (|got| == |sent| && got != sent))
         case DUP => AllArrived(sent, got) && NoStray(sent, got) && |got| > |sent|
         case INERT => Distinct(sent) && got == sent && fired == 0 && crcDelta == 0
         case EXACT => Distinct(sent) && got == sent && (fired != 0 || crcDelta != 0)
  }

  /** The classes exclude each other. */
  lemma OneClass<T>(c: Class, e: Class, sent: seq<T>, got: seq<T>, fired: int, expectFired: int, crcDelta: int,
                    expectCrc: int)
    requires IsClass(c, sent, got, fired, expectFired, crcDelta, expectCrc)
    requires IsClass(e, sent, got, fired, expectFired, crcDelta, expectCrc)
    ensures c == e
  {
  }

  /**
   EXACT or INERT iff both counters match, the sent items are distinct, and the delivery is the sent
   list itself.  Deliveries are conserved: delivered = (sent - lost) + dup + stray.  STRAY without a
   stray item is a reordering and nothing else.
   */
  method Classify<T(==)>(sent: seq<T>, got: seq<T>, fired: int, expectFired: int, crcDelta: int, expectCrc: int)
    returns (cls: Class, d: Detail)
    ensures cls.ERROR? <==> !Matches(fired, expectFired, crcDelta, expectCrc)
    ensures cls in {EXACT, INERT} <==>
            Matches(fired, expectFired, crcDelta, expectCrc) && Distinct(sent) && got == sent
    ensures cls.INERT? ==> fired == 0 && crcDelta == 0
    ensures cls.EXACT? ==> fired != 0 || crcDelta != 0
    ensures IsClass(cls, sent, got, fired, expectFired, crcDelta, expectCrc)
    ensures d.sent == |sent| && d.delivered == |got| && d.lost <= d.sent
    ensures d.delivered == (d.sent - d.lost) + d.dup + d.stray
    ensures d.lost == |Unhit(sent, got)| && d.stray == |Strays(sent, got)|
    ensures d.lost == 0 <==> Distinct(sent) && forall x :: x in sent ==> x in got
    ensures d.stray == 0 <==> forall x :: x in got ==> x in sent
    ensures cls.LOST? ==> d.lost > 0
    ensures cls.STRAY? ==> d.lost == 0
    ensures cls.STRAY? && d.stray == 0 ==> multiset(got) == multiset(sent) && Distinct(sent) && got != sent
    ensures cls.DUP? ==> d.lost == 0 && d.stray == 0 && d.dup > 0
  {
    var cnt, stray := Book(sent, got);
    SumSplits(cnt);
    d := Detail(Lost(cnt), Dup(cnt), |stray|, |got|, |sent|);
    NoneLost(cnt);
    LostCountsZeros(cnt);
    assert Unhit(sent, got) == Zeros(cnt);
    LossMeaning(sent, got, cnt);
    StraysMeaning(sent, got);
    assert stray == [] <==> |stray| == 0;
    if got == sent && Distinct(sent) {
      CountsOfFaithful(sent);
    }
    if d.lost == 0 && d.dup == 0 && d.stray == 0 {
      PermutationFromCounts(sent, got);
    }
    if fired != expectFired || crcDelta != expectCrc {
      cls := ERROR;
    } else if d.lost > 0 {
      cls := LOST;
    } else if d.stray > 0 || (got != sent && d.dup == 0) {
      cls := STRAY;
    } else if d.dup > 0 {
      cls := DUP;
    } else {
      cls := if expectFired == 0 && expectCrc == 0 then INERT else EXACT;
    }
  }

  /** A position is lost iff its item never arrived or an earlier position has the same item. */
  lemma LossMeaning<T>(sent: seq<T>, got: seq<T>, cnt: seq<nat>)
    requires |cnt| == |sent| && forall i :: 0 <= i < |sent| ==> cnt[i] == Hits(sent, got, i)
    ensures (forall i :: 0 <= i < |cnt| ==> cnt[i] > 0) <==> Distinct(sent) && forall x :: x in sent ==> x in got
  {
    forall i | 0 <= i < |sent|
      ensures cnt[i] > 0 <==> FirstIndex(sent, sent[i]) == i && sent[i] in got
    {
      HitsMeaning(sent, got, i);
    }
    DistinctIffFirst(sent);
  }

  // ---------- judging ----------

  datatype Expectation = ExpectClass(cls: Class) | NotExact | Any

  predicate Judge(cls: Class, e: Expectation) {
    match e
    case NotExact => cls in {LOST, STRAY, DUP}
    case Any => true
    case ExpectClass(c) => cls == c
  }

  /** An arm passes iff its class is the expected one, always when anything goes, and for a mutant iff not exact. */
  method JudgeArm<T(==)>(sent: seq<T>, got: seq<T>, fired: int, expectFired: int, crcDelta: int, expectCrc: int,
                         e: Expectation)
    returns (pass: bool)
    ensures match e
            case Any => pass
            case ExpectClass(c) => pass <==> IsClass(c, sent, got, fired, expectFired, crcDelta, expectCrc)
            case NotExact =>
              pass <==> Matches(fired, expectFired, crcDelta, expectCrc) && !(Distinct(sent) && got == sent)
  {
    var cls, d := Classify(sent, got, fired, expectFired, crcDelta, expectCrc);
    pass := Judge(cls, e);
    if e.ExpectClass? && IsClass(e.cls, sent, got, fired, expectFired, crcDelta, expectCrc) {
      OneClass(cls, e.cls, sent, got, fired, expectFired, crcDelta, expectCrc);
    }
  }

  /** A mutant arm passes iff the counters matched and the delivery was not the sent list of distinct items. */
  method JudgeMutant<T(==)>(sent: seq<T>, got: seq<T>, fired: int, expectFired: int, crcDelta: int, expectCrc: int)
    returns (pass: bool)
    ensures pass <==> Matches(fired, expectFired, crcDelta, expectCrc) && !(Distinct(sent) && got == sent)
  {
    var cls, d := Classify(sent, got, fired, expectFired, crcDelta, expectCrc);
    pass := Judge(cls, NotExact);
  }
}
