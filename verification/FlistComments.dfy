/**
 How the comments of two filelists relate. The test that consumes an iterator is greedy; it decides
 whether an order-preserving embedding exists, and that is a partial order.
 */
module FlistComments {
  import opened FlistParse

  /** The positions f place every element of a in b, in order. */
  ghost predicate Embedding(a: seq<string>, b: seq<string>, f: seq<nat>) {
    |f| == |a| &&
    (forall i :: 0 <= i < |f| ==> f[i] < |b| && a[i] == b[f[i]]) &&
    (forall i, j :: 0 <= i < j < |f| ==> f[i] < f[j])
  }

  ghost predicate Embeds(a: seq<string>, b: seq<string>) {
    exists f :: Embedding(a, b, f)
  }

  /** Takes the first possible match every time. */
  predicate Greedy(a: seq<string>, b: seq<string>)
    decreases b
  {
    if a == [] then true
    else if b == [] then false
    else if a[0] == b[0] then Greedy(a[1..], b[1..])
    else Greedy(a, b[1..])
  }

  function Shifted(f: seq<nat>): seq<nat> {
    seq(|f|, i requires 0 <= i < |f| => f[i] + 1)
  }

  function Unshifted(f: seq<nat>): seq<nat>
    requires forall i :: 0 <= i < |f| ==> f[i] > 0
  {
    seq(|f|, i requires 0 <= i < |f| => f[i] - 1)
  }

  lemma {:induction false} GreedyFinds(a: seq<string>, b: seq<string>) returns (f: seq<nat>)
    requires Greedy(a, b)
    ensures Embedding(a, b, f)
    decreases b
  {
    if a == [] {
      f := [];
    } else if a[0] == b[0] {
      var g := GreedyFinds(a[1..], b[1..]);
      f := [0] + Shifted(g);
    } else {
      var g := GreedyFinds(a, b[1..]);
      f := Shifted(g);
    }
  }

  /** Being greedy loses nothing. */
  lemma {:induction false} GreedyIsComplete(a: seq<string>, b: seq<string>, f: seq<nat>)
    requires Embedding(a, b, f)
    ensures Greedy(a, b)
    decreases b
  {
    if a != [] {
      assert f[0] < |b| && a[0] == b[f[0]];
      if a[0] == b[0] {
        GreedyIsComplete(a[1..], b[1..], Unshifted(f[1..]));
      } else {
        assert forall i :: 0 < i < |f| ==> f[0] < f[i];
        GreedyIsComplete(a, b[1..], Unshifted(f));
      }
    }
  }

  lemma GreedyIff(a: seq<string>, b: seq<string>)
    ensures Greedy(a, b) <==> Embeds(a, b)
  {
    if Greedy(a, b) {
      var f := GreedyFinds(a, b);
    }
    if Embeds(a, b) {
      var f :| Embedding(a, b, f);
      GreedyIsComplete(a, b, f);
    }
  }

  // ---------- the order ----------

  lemma {:induction false} PositionsGrow(a: seq<string>, b: seq<string>, f: seq<nat>, i: nat)
    requires Embedding(a, b, f) && i < |f|
    ensures i <= f[i] && |f| - i <= |b| - f[i]
    decreases |f| - i
  {
    PositionsFromBelow(f, i);
    if i + 1 < |f| {
      PositionsGrow(a, b, f, i + 1);
      assert f[i] < f[i + 1];
    }
  }

  lemma {:induction false} PositionsFromBelow(f: seq<nat>, i: nat)
    requires i < |f| && forall j, k :: 0 <= j < k < |f| ==> f[j] < f[k]
    ensures i <= f[i]
  {
    if i > 0 {
      PositionsFromBelow(f, i - 1);
      assert f[i - 1] < f[i];
    }
  }

  lemma EmbeddingIsNoLonger(a: seq<string>, b: seq<string>, f: seq<nat>)
    requires Embedding(a, b, f)
    ensures |a| <= |b| && (|a| == |b| ==> a == b)
  {
    if a != [] {
      PositionsGrow(a, b, f, 0);
    }
    if |a| == |b| {
      forall i | 0 <= i < |a|
        ensures a[i] == b[i]
      {
        PositionsGrow(a, b, f, i);
      }
    }
  }

  /** Two lists that embed in each other are equal. */
  lemma EmbedsBothWays(a: seq<string>, b: seq<string>)
    requires Embeds(a, b) && Embeds(b, a)
    ensures a == b
  {
    var f :| Embedding(a, b, f);
    var g :| Embedding(b, a, g);
    EmbeddingIsNoLonger(a, b, f);
    EmbeddingIsNoLonger(b, a, g);
  }

  lemma EmbedsTransitively(a: seq<string>, b: seq<string>, c: seq<string>)
    requires Embeds(a, b) && Embeds(b, c)
    ensures Embeds(a, c)
  {
    var f :| Embedding(a, b, f);
    var g :| Embedding(b, c, g);
    var h := seq(|f|, i requires 0 <= i < |f| => g[f[i]]);
    assert Embedding(a, c, h);
  }

  // ---------- the programs ----------

  /** Consumes the big list once while looking for each element of the small one. */
  method IsSubsequence(small: seq<string>, big: seq<string>) returns (r: bool)
    ensures r <==> Embeds(small, big)
  {
    GreedyIff(small, big);
    var pos := 0;
    for i := 0 to |small|
      invariant 0 <= pos <= |big|
      invariant Greedy(small, big) == Greedy(small[i..], big[pos..])
    {
      var found := false;
      while pos < |big| && !found
        invariant 0 <= pos <= |big|
        invariant Greedy(small, big) == Greedy(if found then small[i + 1..] else small[i..], big[pos..])
      {
        assert small[i..][1..] == small[i + 1..] && big[pos..][1..] == big[pos + 1..];
        found := small[i] == big[pos];
        pos := pos + 1;
      }
      if !found {
        return false;
      }
    }
    return true;
  }

  datatype Relation = Identical | ASubset | BSubset | Fork

  function Texts(notes: seq<Note>): seq<string> {
    seq(|notes|, i requires 0 <= i < |notes| => notes[i].text)
  }

  /** The last of the four tests in the chain can never succeed. */
  lemma NotBothSubsets(a: seq<string>, b: seq<string>)
    requires a != b
    ensures !(Embeds(a, b) && Embeds(b, a))
  {
    if Embeds(a, b) && Embeds(b, a) {
      EmbedsBothWays(a, b);
    }
  }

  /** Line numbers do not matter; the four answers are equality, the two strict orders, and neither. */
  method CommentRelation(aNotes: seq<Note>, bNotes: seq<Note>) returns (r: Relation)
    ensures var a, b := Texts(aNotes), Texts(bNotes);
            match r
            case Identical => a == b
            case ASubset => a != b && Embeds(a, b) && !Embeds(b, a)
            case BSubset => a != b && Embeds(b, a) && !Embeds(a, b)
            case Fork => !Embeds(a, b) && !Embeds(b, a)
    ensures var a, b := Texts(aNotes), Texts(bNotes);
            (a == b ==> r == Identical) && (a != b && Embeds(a, b) ==> r == ASubset) &&
            (a != b && Embeds(b, a) ==> r == BSubset)
  {
    var a, b := Texts(aNotes), Texts(bNotes);
    if a == b {
      return Identical;
    }
    NotBothSubsets(a, b);
    var aInB := IsSubsequence(a, b);
    var bInA := IsSubsequence(b, a);
    r := Fork;
    if aInB && !bInA {
      r := ASubset;
    } else if bInA && !aInB {
      r := BSubset;
    } else if aInB && bInA {
      r := Identical;
    }
  }
}
