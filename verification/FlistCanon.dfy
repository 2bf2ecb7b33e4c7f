/**
 When the canonical form of a filelist path is independent of the checkout root: always, as long as
 the variable is a leading component that the rest of the path does not climb above, and never
 otherwise for a leading variable.
 */
module FlistCanon {
  import opened FlistPath

  // ---------- expansion ----------

  predicate MentionsAt(s: string, i: nat) {
    i + |HOME| <= |s| && s[i..i + |HOME|] == HOME
  }

  predicate Mentions(s: string) {
    exists i :: 0 <= i <= |s| && MentionsAt(s, i)
  }

  lemma MentionsSuffix(s: string, k: nat)
    requires k <= |s| && !Mentions(s)
    ensures !Mentions(s[k..])
  {
    var t := s[k..];
    forall i | 0 <= i <= |t|
      ensures !MentionsAt(t, i)
    {
      assert !MentionsAt(s, k + i);
      if i + |HOME| <= |t| {
        assert t[i..i + |HOME|] == s[k + i..k + i + |HOME|];
      }
    }
  }

  lemma {:induction false} ExpandKeeps(s: string, root: string)
    requires !Mentions(s)
    ensures ExpandSymbolic(s, root) == s
  {
    if s != "" {
      var n := MatchVar(s);
      assert !MentionsAt(s, 0);
      if n == 0 {
        MentionsSuffix(s, 1);
        ExpandKeeps(s[1..], root);
      } else {
        MentionsSuffix(s, n);
        ExpandKeeps(s[n..], root);
        assert s == s[..n] + s[n..];
      }
    }
  }

  lemma {:induction false} IdentRun(s: string, k: nat, e: nat)
    requires k <= e < |s| && !IdentChar(s[e])
    requires forall j :: k <= j < e ==> IdentChar(s[j])
    ensures IdentEnd(s, k) == e
    decreases e - k
  {
    if k < e {
      IdentRun(s, k + 1, e);
    }
  }

  lemma HomeMatches(rest: string)
    ensures MatchVar(HOME + rest) == |HOME|
  {
    var s := HOME + rest;
    assert |HOME| == 16 && s[15] == HOME[15];
    forall j | 2 <= j < 15
      ensures IdentChar(s[j])
    {
      assert s[j] == HOME[j];
    }
    IdentRun(s, 2, 15);
  }

  lemma ExpandHome(rest: string, root: string)
    requires !Mentions(rest)
    ensures ExpandSymbolic(HOME + rest, root) == root + rest
  {
    HomeMatches(rest);
    ExpandKeeps(rest, root);
    assert (HOME + rest)[..|HOME|] == HOME && (HOME + rest)[|HOME|..] == rest;
  }

  // ---------- paths inside the root ----------

  lemma JoinSnoc(cs: seq<string>, c: string)
    requires cs != []
    ensures Join(cs + [c]) == Join(cs) + "/" + c
  {
    assert (cs + [c])[..|cs|] == cs;
  }

  lemma {:induction false} JoinAppend(a: seq<string>, b: seq<string>)
    requires a != [] && b != []
    ensures Join(a + b) == Join(a) + "/" + Join(b)
  {
    if |b| == 1 {
      assert b == [b[0]];
      JoinSnoc(a, b[0]);
    } else {
      var front, c := b[..|b| - 1], b[|b| - 1];
      calc {
        Join(a + b);
        { assert a + b == a + front + [c]; }
        Join(a + front + [c]);
        { JoinSnoc(a + front, c); }
        Join(a + front) + "/" + c;
        { JoinAppend(a, front); }
        Join(a) + "/" + Join(front) + "/" + c;
        { assert Join(b) == Join(front) + "/" + c; }
        Join(a) + "/" + Join(b);
      }
    }
  }

  lemma {:induction false} CommonOfPrefix(a: seq<string>, b: seq<string>)
    ensures CommonLength(a, a + b) == |a|
  {
    if a != [] {
      CommonOfPrefix(a[1..], b);
      assert (a + b)[1..] == a[1..] + b;
    }
  }

  lemma PartsOfRoot(cs: seq<string>)
    requires RootComps(cs)
    ensures NonEmpty(Split(Normpath(Root(cs)))) == cs
  {
    NormRoot(cs);
    SplitAbsolute(cs);
    NonEmptySplits([""], cs);
    NonEmptyPlain(cs);
    assert NonEmpty([""]) == [];
  }

  lemma RelpathInside(cs: seq<string>, below: seq<string>)
    requires RootComps(cs) && RootComps(below)
    ensures Relpath(Root(cs + below), Root(cs)) == Join(below)
  {
    PartsOfRoot(cs);
    PartsOfRoot(cs + below);
    CommonOfPrefix(cs, below);
    assert (cs + below)[|cs|..] == below;
    assert seq<string>(0, _ => "..") + below == below;
  }

  /** What a path climbing nowhere becomes: the components below the root. */
  function Inside(below: seq<string>): string {
    if below == [] then "." else Join(below)
  }

  lemma SettleAbsolute(expanded: string, cs: seq<string>)
    requires RootComps(cs) && expanded != "" && expanded[0] == '/'
    ensures Settle(expanded, Root(cs)) == Relocate(Normpath(expanded), Root(cs))
  {
    NormRoot(cs);
  }

  lemma CanonOfHome(cs: seq<string>, rest: string)
    requires RootComps(cs) && LeadsPath(rest) && !Mentions(rest)
    ensures CanonPath(HOME + rest, Root(cs)) == Canon(false, Relocate(Normpath(Root(cs) + rest), Root(cs)))
  {
    var raw, expanded := HOME + rest, Root(cs) + rest;
    ExpandHome(rest, Root(cs));
    SettleAbsolute(expanded, cs);
    assert raw[0] == HOME[0];
  }

  lemma RootAppend(cs: seq<string>, below: seq<string>)
    requires cs != [] && below != []
    ensures Root(cs + below) == Root(cs) + "/" + Join(below)
  {
    JoinAppend(cs, below);
    assert "/" + (Join(cs) + "/" + Join(below)) == "/" + Join(cs) + "/" + Join(below);
  }

  lemma RelocatePrefix(norm: string, root: string, tail: string)
    requires norm == root + "/" + tail
    ensures Relocate(norm, root) == Relpath(norm, root)
  {
    assert |norm| > |root|;
    assert norm[..|root| + 1] == root + "/";
  }

  lemma RelocateInside(cs: seq<string>, below: seq<string>)
    requires RootComps(cs) && AllPlain(below)
    ensures Relocate(Root(cs + below), Root(cs)) == Inside(below)
  {
    if below == [] {
      assert cs + below == cs;
    } else {
      RootAppend(cs, below);
      RelocatePrefix(Root(cs + below), Root(cs), Join(below));
      RelpathInside(cs, below);
    }
  }

  lemma NormInside(cs: seq<string>, rest: string)
    requires RootComps(cs) && LeadsPath(rest) && RestWalk(rest).climb == 0
    ensures Normpath(Root(cs) + rest) == Root(cs + RestWalk(rest).below)
  {
    NormUnderRoot(cs, rest);
    assert cs[..|cs| - 0] == cs;
  }

  lemma CanonInside(cs: seq<string>, rest: string)
    requires RootComps(cs) && LeadsPath(rest) && !Mentions(rest) && RestWalk(rest).climb == 0
    ensures CanonPath(HOME + rest, Root(cs)) == Canon(false, Inside(RestWalk(rest).below))
  {
    RestWalkPlain(rest);
    RelocateInside(cs, RestWalk(rest).below);
    NormInside(cs, rest);
    CanonOfHome(cs, rest);
  }

  // ---------- paths that climb ----------

  /** A root of n components, each the same letter k times over. */
  function Tower(letter: char, k: nat, n: nat): seq<string> {
    seq(n, _ => seq(k, _ => letter))
  }

  lemma TowerIsRoot(letter: char, k: nat, n: nat)
    requires letter != '/' && letter != '.' && k > 0 && n > 0
    ensures RootComps(Tower(letter, k, n))
  {
    var c := seq(k, _ => letter);
    assert c[0] == letter;
  }

  lemma Behead(whole: seq<string>, front: seq<string>, back: seq<string>)
    requires [""] + whole == [""] + front + back
    ensures whole == front + back
  {
    assert whole == ([""] + whole)[1..];
    assert front + back == ([""] + front + back)[1..];
  }

  lemma InsideMeansPrefix(cs: seq<string>, path: seq<string>, tail: string)
    requires RootComps(cs) && RootComps(path) && Root(path) == Root(cs) + "/" + tail
    ensures cs <= path
  {
    SplitAbsolute(cs);
    SplitAbsolute(path);
    SplitAppend(Root(cs), tail);
    Behead(path, cs, Split(tail));
  }

  lemma OutsideStaysAbsolute(cs: seq<string>, path: seq<string>)
    requires RootComps(cs) && RootComps(path) && !(cs <= path)
    ensures Root(path) != Root(cs) && !StartsWith(Root(path), Root(cs) + "/")
  {
    if Root(path) == Root(cs) {
      RootIsInjective(cs, path);
    }
    var inner := Root(cs) + "/";
    if StartsWith(Root(path), inner) {
      assert Root(path) == inner + Root(path)[|inner|..];
      InsideMeansPrefix(cs, path, Root(path)[|inner|..]);
    }
  }

  /** A root too tall for the path to lie inside it. */
  lemma TallRoot(cs: seq<string>, first: string, below: seq<string>)
    requires |cs| >= 2 && forall i :: 0 <= i < |below| ==> |below[i]| < |cs[1]|
    ensures !(cs <= [first] + below)
  {
    assert |below| > 0 ==> ([first] + below)[1] == below[0];
  }

  /** The normalised path starts with the root's first component and does not lie inside the root. */
  lemma ClimbedPath(cs: seq<string>, rest: string)
    requires RootComps(cs) && LeadsPath(rest) && |cs| == RestWalk(rest).climb + 1 >= 2 && |cs[1]| > |rest|
    ensures var path := [cs[0]] + RestWalk(rest).below;
            RootComps(path) && !(cs <= path) && Normpath(Root(cs) + rest) == Root(path)
  {
    var w := RestWalk(rest);
    RestWalkPlain(rest);
    TallRoot(cs, cs[0], w.below);
    NormUnderRoot(cs, rest);
    assert cs[..|cs| - w.climb] == [cs[0]];
  }

  lemma RelocateAny(cs: seq<string>, path: seq<string>)
    requires RootComps(cs) && RootComps(path)
    ensures Relocate(Root(path), Root(cs)) == if cs <= path then Inside(path[|cs|..]) else Root(path)
  {
    if cs <= path {
      assert path == cs + path[|cs|..];
      RelocateInside(cs, path[|cs|..]);
    } else {
      OutsideStaysAbsolute(cs, path);
    }
  }

  /**
   A path that climbs out of any root but not past its first component: inside the root again it is
   relative, otherwise absolute, with the root's remaining components in front.
   */
  lemma CanonClimbing(cs: seq<string>, rest: string)
    requires RootComps(cs) && LeadsPath(rest) && !Mentions(rest) && RestWalk(rest).climb < |cs|
    ensures var path := cs[..|cs| - RestWalk(rest).climb] + RestWalk(rest).below;
            CanonPath(HOME + rest, Root(cs)) ==
            Canon(false, if cs <= path then Inside(path[|cs|..]) else Root(path))
  {
    var w := RestWalk(rest);
    var path := cs[..|cs| - w.climb] + w.below;
    RestWalkPlain(rest);
    NormUnderRoot(cs, rest);
    RelocateAny(cs, path);
    CanonOfHome(cs, rest);
  }

  /** In a tall enough root of one letter a climbing path is absolute and keeps the first component. */
  lemma CanonOutside(letter: char, rest: string)
    requires letter != '/' && letter != '.'
    requires LeadsPath(rest) && !Mentions(rest) && RestWalk(rest).climb > 0
    ensures var w := RestWalk(rest);
            var cs := Tower(letter, |rest| + 1, w.climb + 1);
            RootComps([cs[0]] + w.below) &&
            CanonPath(HOME + rest, Root(cs)) == Canon(false, Root([cs[0]] + w.below))
  {
    var w := RestWalk(rest);
    var cs := Tower(letter, |rest| + 1, w.climb + 1);
    TowerIsRoot(letter, |rest| + 1, w.climb + 1);
    ClimbedPath(cs, rest);
    CanonOfHome(cs, rest);
    OutsideStaysAbsolute(cs, [cs[0]] + w.below);
  }

  lemma RootIsInjective(a: seq<string>, b: seq<string>)
    requires RootComps(a) && RootComps(b) && Root(a) == Root(b)
    ensures a == b
  {
    SplitAbsolute(a);
    SplitAbsolute(b);
    assert ([""] + a)[1..] == a && ([""] + b)[1..] == b;
  }

  // ---------- the verdict for one path ----------

  /** The same canonical form under every pair of roots. */
  ghost predicate RootIndependent(raw: string) {
    forall a, b :: RootComps(a) && RootComps(b) ==> CanonPath(raw, Root(a)) == CanonPath(raw, Root(b))
  }

  /** The variable, if it occurs, is the leading component and occurs nowhere else. */
  predicate LeadingOnly(raw: string) {
    StartsWith(raw, "/") || !Mentions(raw) ||
    (StartsWith(raw, HOME) && LeadsPath(raw[|HOME|..]) && !Mentions(raw[|HOME|..]))
  }

  /** The path uses the root and leaves it through dot-dot components. */
  predicate ClimbsOut(raw: string) {
    StartsWith(raw, HOME) && LeadsPath(raw[|HOME|..]) && RestWalk(raw[|HOME|..]).climb > 0
  }

  lemma PortablePath(raw: string, a: seq<string>, b: seq<string>)
    requires RootComps(a) && RootComps(b) && LeadingOnly(raw) && !ClimbsOut(raw)
    ensures CanonPath(raw, Root(a)) == CanonPath(raw, Root(b))
  {
    if !StartsWith(raw, "/") {
      if !Mentions(raw) {
        ExpandKeeps(raw, Root(a));
        ExpandKeeps(raw, Root(b));
      } else {
        var rest := raw[|HOME|..];
        assert raw == HOME + rest;
        CanonInside(a, rest);
        CanonInside(b, rest);
      }
    }
  }

  /** Two roots that tell a climbing path apart. */
  lemma ClimbingPathDiffers(raw: string) returns (a: seq<string>, b: seq<string>)
    requires LeadingOnly(raw) && ClimbsOut(raw)
    ensures RootComps(a) && RootComps(b)
    ensures CanonPath(raw, Root(a)) != CanonPath(raw, Root(b))
  {
    var rest := raw[|HOME|..];
    assert raw == HOME + rest && raw[0] == HOME[0] && MentionsAt(raw, 0);
    var w := RestWalk(rest);
    a, b := Tower('p', |rest| + 1, w.climb + 1), Tower('q', |rest| + 1, w.climb + 1);
    TowerIsRoot('p', |rest| + 1, w.climb + 1);
    TowerIsRoot('q', |rest| + 1, w.climb + 1);
    CanonOutside('p', rest);
    CanonOutside('q', rest);
    assert a[0][0] == 'p' && b[0][0] == 'q';
    if Root([a[0]] + w.below) == Root([b[0]] + w.below) {
      RootIsInjective([a[0]] + w.below, [b[0]] + w.below);
    }
  }

  /** A path with a leading variable is root independent exactly when it does not climb out. */
  lemma RootIndependentIff(raw: string)
    requires LeadingOnly(raw)
    ensures RootIndependent(raw) <==> !ClimbsOut(raw)
  {
    if ClimbsOut(raw) {
      var a, b := ClimbingPathDiffers(raw);
    } else {
      forall a, b | RootComps(a) && RootComps(b)
        ensures CanonPath(raw, Root(a)) == CanonPath(raw, Root(b))
      {
        PortablePath(raw, a, b);
      }
    }
  }
}
