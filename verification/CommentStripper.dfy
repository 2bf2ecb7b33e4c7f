/**
 The comment stripper of the SystemVerilog lint.  The scan is described token by token: `Step` says
 where the token at i ends and which source positions it keeps.
 */
module CommentStripper {
  import opened Common

  // ---------- searching ----------

  /** First newline at or after i, or |src|. */
  function FindNewline(src: string, i: nat): (j: nat)
    requires i <= |src|
    ensures i <= j <= |src| && (j < |src| ==> src[j] == '\n')
    decreases |src| - i
  {
    if i == |src| || src[i] == '\n' then i else FindNewline(src, i + 1)
  }

  lemma {:induction false} FindNewlineIsFirst(src: string, i: nat)
    requires i <= |src|
    ensures forall k :: i <= k < FindNewline(src, i) ==> src[k] != '\n'
    decreases |src| - i
  {
    if i < |src| && src[i] != '\n' {
      FindNewlineIsFirst(src, i + 1);
    }
  }

  /** First "*" "/" at or after i, or |src| when there is none. */
  function FindClose(src: string, i: nat): (j: nat)
    ensures j <= |src| && (j < |src| ==> i <= j && j + 1 < |src| && src[j] == '*' && src[j + 1] == '/')
    decreases |src| - i
  {
    if i + 1 >= |src| then |src|
    else if src[i] == '*' && src[i + 1] == '/' then i
    else FindClose(src, i + 1)
  }

  /** The closing quote of a literal scanned from j, or |src|; a backslash hides the next character. */
  function StringEnd(src: string, j: nat): (e: nat)
    requires j <= |src|
    ensures j <= e <= |src| && (e < |src| ==> src[e] == '"')
    decreases |src| - j
  {
    if j == |src| || src[j] == '"' then j
    else if src[j] == '\\' && j + 1 < |src| then StringEnd(src, j + 2)
    else StringEnd(src, j + 1)
  }

  // ---------- lists of positions ----------

  predicate Increasing(ks: seq<nat>) {
    forall k, l :: 0 <= k < l < |ks| ==> ks[k] < ks[l]
  }

  predicate Between(ks: seq<nat>, lo: nat, hi: nat) {
    forall k :: 0 <= k < |ks| ==> lo <= ks[k] < hi
  }

  /** Every newline of src[lo..hi] is listed. */
  predicate ListsNewlines(src: string, ks: seq<nat>, lo: nat, hi: nat)
    requires hi <= |src|
  {
    forall p :: lo <= p < hi && src[p] == '\n' ==> p in ks
  }

  function Range(i: nat, j: nat): (r: seq<nat>)
    requires i <= j
    ensures |r| == j - i
  {
    seq(j - i, k requires 0 <= k < j - i => i + k)
  }

  /** Positions of the newlines in src[i..j]. */
  function Newlines(src: string, i: nat, j: nat): (r: seq<nat>)
    requires i <= j <= |src|
    ensures Between(r, i, j)
  {
    if i == j then []
    else Newlines(src, i, j - 1) + (if src[j - 1] == '\n' then [j - 1] else [])
  }

  lemma {:induction false} NewlinesIncrease(src: string, i: nat, j: nat)
    requires i <= j <= |src|
    ensures Increasing(Newlines(src, i, j))
  {
    if i < j {
      NewlinesIncrease(src, i, j - 1);
    }
  }

  lemma {:induction false} NewlinesAreAll(src: string, i: nat, j: nat)
    requires i <= j <= |src|
    ensures ListsNewlines(src, Newlines(src, i, j), i, j)
  {
    if i < j {
      NewlinesAreAll(src, i, j - 1);
      var front, all := Newlines(src, i, j - 1), Newlines(src, i, j);
      assert forall p :: p in front ==> p in all;
    }
  }

  lemma {:induction false} NewlinesAreNewlines(src: string, i: nat, j: nat)
    requires i <= j <= |src|
    ensures forall k :: 0 <= k < |Newlines(src, i, j)| ==> src[Newlines(src, i, j)[k]] == '\n'
  {
    if i < j {
      NewlinesAreNewlines(src, i, j - 1);
    }
  }

  lemma RangeFacts(src: string, i: nat, j: nat)
    requires i <= j <= |src|
    ensures Increasing(Range(i, j)) && ListsNewlines(src, Range(i, j), i, j)
  {
    forall p: nat | i <= p < j
      ensures p in Range(i, j)
    {
      assert Range(i, j)[p - i] == p;
    }
  }

  // ---------- tokens ----------

  datatype Token = Token(next: nat, keep: seq<nat>)

  predicate LineComment(src: string, i: nat) {
    i + 1 < |src| && src[i] == '/' && src[i + 1] == '/'
  }

  predicate BlockComment(src: string, i: nat) {
    i + 1 < |src| && src[i] == '/' && src[i + 1] == '*'
  }

  predicate Unterminated(src: string, i: nat) {
    BlockComment(src, i) && FindClose(src, i + 2) == |src|
  }

  function Step(src: string, i: nat): (t: Token)
    requires i < |src|
    ensures i < t.next <= |src| && Between(t.keep, i, t.next)
  {
    if LineComment(src, i) then Token(FindNewline(src, i), [])
    else if BlockComment(src, i) then
      var j := FindClose(src, i + 2);
      if j == |src| then Token(j, []) else Token(j + 2, Newlines(src, i + 2, j))
    else if src[i] == '"' then
      var j := StringEnd(src, i + 1);
      var e := if j < |src| then j + 1 else j;
      Token(e, Range(i, e))
    else Token(i + 1, [i])
  }

  lemma StepFacts(src: string, i: nat)
    requires i < |src|
    ensures var t := Step(src, i);
            Increasing(t.keep) && (!Unterminated(src, i) ==> ListsNewlines(src, t.keep, i, t.next))
  {
    if LineComment(src, i) {
      FindNewlineIsFirst(src, i);
    } else if BlockComment(src, i) {
      var j := FindClose(src, i + 2);
      if j < |src| {
        NewlinesIncrease(src, i + 2, j);
        NewlinesAreAll(src, i + 2, j);
      }
    } else if src[i] == '"' {
      RangeFacts(src, i, Step(src, i).next);
    }
  }

  /** Source positions that survive from i on. */
  function Kept(src: string, i: nat): (r: seq<nat>)
    requires i <= |src|
    ensures Between(r, i, |src|)
    decreases |src| - i
  {
    if i == |src| then [] else Step(src, i).keep + Kept(src, Step(src, i).next)
  }

  lemma {:induction false} KeptIncreases(src: string, i: nat)
    requires i <= |src|
    ensures Increasing(Kept(src, i))
    decreases |src| - i
  {
    if i < |src| {
      StepFacts(src, i);
      KeptIncreases(src, Step(src, i).next);
    }
  }

  function Project(src: string, ks: seq<nat>): (r: string)
    requires Between(ks, 0, |src|)
    ensures |r| == |ks|
  {
    seq(|ks|, k requires 0 <= k < |ks| => src[ks[k]])
  }

  /** What is left of the source from i on. */
  function Strip(src: string, i: nat): string
    requires i <= |src|
    decreases |src| - i
  {
    if i == |src| then "" else Text(src, i) + Strip(src, Step(src, i).next)
  }

  /** What the token at i leaves behind. */
  function Text(src: string, i: nat): (r: string)
    requires i < |src|
    ensures |r| == |Step(src, i).keep|
  {
    Project(src, Step(src, i).keep)
  }

  lemma {:induction false} StripIsProjection(src: string, i: nat)
    requires i <= |src|
    ensures Strip(src, i) == Project(src, Kept(src, i))
    decreases |src| - i
  {
    if i < |src| {
      var t := Step(src, i);
      StripIsProjection(src, t.next);
      ProjectSplits(src, t.keep, Kept(src, t.next));
    }
  }

  lemma ProjectSplits(src: string, a: seq<nat>, b: seq<nat>)
    requires Between(a, 0, |src|) && Between(b, 0, |src|)
    ensures Between(a + b, 0, |src|) && Project(src, a + b) == Project(src, a) + Project(src, b)
  {
  }

  // ---------- the program ----------

  /** Scans a literal that opens at i; returns the position after it. */
  method ScanLiteral(src: string, i: nat) returns (e: nat)
    requires i < |src| && src[i] == '"'
    ensures i < e <= |src| && e == Step(src, i).next && Text(src, i) == src[i..e]
  {
    var j := i + 1;
    while j < |src| && src[j] != '"'
      invariant i < j <= |src| && StringEnd(src, j) == StringEnd(src, i + 1)
    {
      if src[j] == '\\' && j + 1 < |src| {
        j := j + 2;
      } else {
        j := j + 1;
      }
    }
    e := if j < |src| then j + 1 else j;
  }

  /** One turn of the scan: what the token at i leaves in the output and where it ends; None: stop. */
  method Scan(src: string, i: nat) returns (next: Option<nat>, text: string)
    requires i < |src|
    ensures text == Text(src, i)
    ensures Step(src, i).next == if next.None? then |src| else next.value
  {
    if LineComment(src, i) {
      var j := FindNewline(src, i);
      return if j == |src| then None else Some(j), "";
    }
    if BlockComment(src, i) {
      var j := FindClose(src, i + 2);
      if j == |src| {
        return None, "";
      }
      text := KeepNewlines(src, i + 2, j);
      return Some(j + 2), text;
    }
    if src[i] == '"' {
      var e := ScanLiteral(src, i);
      return Some(e), src[i..e];
    }
    return Some(i + 1), [src[i]];
  }

  /** Drops // and block comments, keeping string literals and every newline of a closed block comment. */
  method StripComments(src: string) returns (out: string)
    ensures out == Strip(src, 0)
  {
    out := "";
    var i := 0;
    ghost var rest := Strip(src, 0);
    while i < |src|
      invariant 0 <= i <= |src| && rest == Strip(src, i)
      invariant out + rest == Strip(src, 0)
    {
      var next, text := Scan(src, i);
      ghost var after := StripStep(src, i, rest, text);
      Associate(out, text, after);
      out, rest := out + text, after;
      if next.None? {
        return;
      }
      i := next.value;
    }
  }

  lemma Associate(a: string, b: string, c: string)
    ensures a + (b + c) == (a + b) + c
  {
  }

  lemma StripStep(src: string, i: nat, rest: string, text: string) returns (after: string)
    requires i < |src| && rest == Strip(src, i) && text == Text(src, i)
    ensures after == Strip(src, Step(src, i).next) && rest == text + after
    ensures Step(src, i).next == |src| ==> after == ""
  {
    after := Strip(src, Step(src, i).next);
  }

  method KeepNewlines(src: string, i: nat, j: nat) returns (out: string)
    requires i <= j <= |src|
    ensures out == Project(src, Newlines(src, i, j))
  {
    out := "";
    for k := i to j
      invariant out == Project(src, Newlines(src, i, k))
    {
      if src[k] == '\n' {
        out := out + "\n";
      }
    }
  }

  // ---------- line numbers ----------

  function CountNewlines(s: string): nat {
    if s == "" then 0 else CountNewlines(s[..|s| - 1]) + (if s[|s| - 1] == '\n' then 1 else 0)
  }

  /** The 1-based line on which position idx lies. */
  function LineOf(src: string, idx: nat): nat
    requires idx <= |src|
  {
    CountNewlines(src[..idx]) + 1
  }

  lemma {:induction false} QuietStretch(s: string, i: nat, j: nat)
    requires i <= j <= |s| && forall p :: i <= p < j ==> s[p] != '\n'
    ensures CountNewlines(s[..j]) == CountNewlines(s[..i])
  {
    if i < j {
      assert s[..j][..j - 1] == s[..j - 1];
      QuietStretch(s, i, j - 1);
    }
  }

  /** The newlines below position ks[k] are all listed before k. */
  lemma ListedBefore(s: string, ks: seq<nat>, k: nat, bound: nat)
    requires k < |ks| && bound <= |s| && Between(ks, 0, bound) && Increasing(ks) && ListsNewlines(s, ks, 0, bound)
    ensures ListsNewlines(s, ks[..k], 0, ks[k])
  {
    forall p | 0 <= p < ks[k] && s[p] == '\n'
      ensures p in ks[..k]
    {
      var l :| 0 <= l < |ks| && ks[l] == p;
      assert ks[..k][l] == p;
    }
  }

  /** Increasing positions that include every newline below the bound see as many newlines as the source. */
  lemma {:induction false} ProjectionCounts(s: string, ks: seq<nat>, bound: nat)
    requires bound <= |s| && Between(ks, 0, bound) && Increasing(ks) && ListsNewlines(s, ks, 0, bound)
    ensures CountNewlines(Project(s, ks)) == CountNewlines(s[..bound])
  {
    if ks == [] {
      QuietStretch(s, 0, bound);
    } else {
      var front, last := ks[..|ks| - 1], ks[|ks| - 1];
      ListedBefore(s, ks, |ks| - 1, bound);
      ProjectionCounts(s, front, last);
      assert Project(s, ks)[..|ks| - 1] == Project(s, front);
      assert s[..last + 1][..last] == s[..last];
      assert forall p: nat :: p > last ==> p !in ks;
      QuietStretch(s, last + 1, bound);
    }
  }

  /** Where an unterminated block comment swallows the rest, or |src|. */
  function Tail(src: string, i: nat): (t: nat)
    requires i <= |src|
    ensures i <= t <= |src|
    decreases |src| - i
  {
    if i == |src| || Unterminated(src, i) then i else Tail(src, Step(src, i).next)
  }

  lemma {:induction false} KeptIsComplete(src: string, i: nat)
    requires i <= |src|
    ensures Between(Kept(src, i), i, Tail(src, i)) && ListsNewlines(src, Kept(src, i), i, Tail(src, i))
    decreases |src| - i
  {
    if i < |src| {
      StepFacts(src, i);
      if !Unterminated(src, i) {
        KeptIsComplete(src, Step(src, i).next);
      }
    }
  }

  /** Every surviving character is on the line it has in the source. */
  lemma LinesArePreserved(src: string, k: nat)
    requires k < |Kept(src, 0)|
    ensures |Strip(src, 0)| == |Kept(src, 0)| && Strip(src, 0)[k] == src[Kept(src, 0)[k]]
    ensures LineOf(Strip(src, 0), k) == LineOf(src, Kept(src, 0)[k])
  {
    var ks := Kept(src, 0);
    KeptIsComplete(src, 0);
    KeptIncreases(src, 0);
    ListedBefore(src, ks, k, Tail(src, 0));
    ProjectionCounts(src, ks[..k], ks[k]);
    StripIsProjection(src, 0);
    assert Strip(src, 0)[..k] == Project(src, ks[..k]);
  }

  /** Newlines are lost exactly when an unterminated block comment contains one. */
  lemma NewlineTotals(src: string)
    ensures CountNewlines(Strip(src, 0)) == CountNewlines(src) <==>
            forall p :: Tail(src, 0) <= p < |src| ==> src[p] != '\n'
  {
    var tail := Tail(src, 0);
    KeptIsComplete(src, 0);
    KeptIncreases(src, 0);
    ProjectionCounts(src, Kept(src, 0), tail);
    StripIsProjection(src, 0);
    assert src[..|src|] == src;
    TotalsFrom(src, tail);
  }

  lemma TotalsFrom(src: string, tail: nat)
    requires tail <= |src|
    ensures CountNewlines(src[..tail]) == CountNewlines(src[..|src|]) <==>
            forall p :: tail <= p < |src| ==> src[p] != '\n'
  {
    if forall p :: tail <= p < |src| ==> src[p] != '\n' {
      QuietStretch(src, tail, |src|);
    } else {
      var p :| tail <= p < |src| && src[p] == '\n';
      CountGrows(src, tail, p);
      CountGrows(src, p + 1, |src|);
      assert src[..p + 1][..p] == src[..p];
    }
  }

  lemma {:induction false} CountGrows(s: string, i: nat, j: nat)
    requires i <= j <= |s|
    ensures CountNewlines(s[..i]) <= CountNewlines(s[..j])
  {
    if i < j {
      assert s[..j][..j - 1] == s[..j - 1];
      CountGrows(s, i, j - 1);
    }
  }

  // ---------- idempotence ----------

  /** End of a token that is not a comment. */
  function TextEnd(o: string, p: nat): (e: nat)
    requires p < |o|
    ensures p < e <= |o|
  {
    if o[p] == '"' then
      var j := StringEnd(o, p + 1);
      if j < |o| then j + 1 else j
    else p + 1
  }

  /** No token from p on is a comment. */
  predicate Clean(o: string, p: nat)
    requires p <= |o|
    decreases |o| - p
  {
    p == |o| || (!LineComment(o, p) && !BlockComment(o, p) && Clean(o, TextEnd(o, p)))
  }

  /** A token that is not a comment is kept whole. */
  lemma TextIsKept(o: string, p: nat)
    requires p < |o| && !LineComment(o, p) && !BlockComment(o, p)
    ensures var e := TextEnd(o, p);
            Step(o, p).next == e && Strip(o, p) == o[p..e] + Strip(o, e)
  {
    assert Text(o, p) == o[p..TextEnd(o, p)];
  }

  lemma {:induction false} CleanIsKept(o: string, p: nat)
    requires p <= |o| && Clean(o, p)
    ensures Strip(o, p) == o[p..]
    decreases |o| - p
  {
    if p < |o| {
      TextIsKept(o, p);
      var e := TextEnd(o, p);
      CleanIsKept(o, e);
      assert o[p..] == o[p..e] + o[e..];
    }
  }

  /** A comment keeps only newlines. */
  lemma CommentKeepsNewlines(src: string, i: nat)
    requires i < |src| && (LineComment(src, i) || BlockComment(src, i))
    ensures var t := Step(src, i);
            forall k :: 0 <= k < |t.keep| ==> src[t.keep[k]] == '\n'
  {
    if !LineComment(src, i) && FindClose(src, i + 2) < |src| {
      NewlinesAreNewlines(src, i + 2, FindClose(src, i + 2));
    }
  }

  lemma {:induction false} CleanAfterNewlines(o: string, p: nat, m: nat)
    requires p + m <= |o| && (forall k :: p <= k < p + m ==> o[k] == '\n') && Clean(o, p + m)
    ensures Clean(o, p)
    decreases m
  {
    if m > 0 {
      CleanAfterNewlines(o, p + 1, m - 1);
    }
  }

  lemma SliceTail(s: string, i: nat, o: string, p: nat, n: nat, d: nat)
    requires i + n <= |s| && p + n <= |o| && s[i..i + n] == o[p..p + n] && d <= n
    ensures s[i + d..i + n] == o[p + d..p + n]
  {
    assert s[i + d..i + n] == s[i..i + n][d..];
    assert o[p + d..p + n] == o[p..p + n][d..];
  }

  /** A closed literal ends at the same place wherever it is copied to. */
  lemma {:induction false} SameStringEnd(src: string, i: nat, o: string, p: nat, n: nat)
    requires i + n < |src| && p + n < |o| && StringEnd(src, i) == i + n
    requires src[i..i + n + 1] == o[p..p + n + 1]
    ensures StringEnd(o, p) == p + n
    decreases n
  {
    assert o[p] == o[p..p + n + 1][0] == src[i];
    if src[i] == '"' {
    } else {
      var d := if src[i] == '\\' then 2 else 1;
      SliceTail(src, i, o, p, n + 1, d);
      SameStringEnd(src, i + d, o, p + d, n - d);
    }
  }

  /** An open literal runs to the end in every copy. */
  lemma {:induction false} OpenStringEnd(src: string, i: nat, o: string, p: nat)
    requires i <= |src| && p <= |o| && src[i..] == o[p..] && StringEnd(src, i) == |src|
    ensures StringEnd(o, p) == |o|
    decreases |src| - i
  {
    if i < |src| {
      assert o[p] == o[p..][0] == src[i];
      var d := if src[i] == '\\' && i + 1 < |src| then 2 else 1;
      assert src[i + d..] == src[i..][d..] == o[p..][d..] == o[p + d..];
      OpenStringEnd(src, i + d, o, p + d);
    }
  }

  /** A copied literal is one token of the copy, provided an open one is copied to the very end. */
  lemma CopiedLiteral(src: string, i: nat, o: string, p: nat)
    requires i < |src| && src[i] == '"'
    requires var n := TextEnd(src, i) - i;
             p + n <= |o| && o[p..p + n] == src[i..i + n] && (i + n == |src| ==> p + n == |o|)
    ensures o[p] == '"' && TextEnd(o, p) == p + (TextEnd(src, i) - i)
  {
    var n := TextEnd(src, i) - i;
    assert o[p] == o[p..p + n][0] == src[i];
    var j := StringEnd(src, i + 1);
    if j < |src| {
      SliceTail(src, i, o, p, n, 1);
      SameStringEnd(src, i + 1, o, p + 1, j - i - 1);
    } else {
      SliceTail(src, i, o, p, n, 1);
      assert src[i + 1..] == src[i + 1..i + n] && o[p + 1..] == o[p + 1..p + n];
      OpenStringEnd(src, i + 1, o, p + 1);
    }
  }

  /** What follows a kept slash is kept next to it, so no new comment can form. */
  lemma NextIsKept(src: string, i: nat)
    requires i < |src| && src[i] != '/'
    ensures Strip(src, i) != "" && Strip(src, i)[0] == src[i]
  {
    TextIsKept(src, i);
  }

  /** If o continues with a + b then it continues with a, and after that with b. */
  lemma SplitRest(o: string, p: nat, a: string, b: string)
    requires p <= |o| && o[p..] == a + b
    ensures p + |a| <= |o| && o[p..p + |a|] == a && o[p + |a|..] == b
  {
    assert o[p..p + |a|] == o[p..][..|a|];
    assert o[p + |a|..] == o[p..][|a|..];
  }

  /** A text token of the source, copied with what follows it, is a text token of the copy. */
  lemma CopiedText(src: string, i: nat, e: nat, o: string, p: nat, q: nat)
    requires i < |src| && !LineComment(src, i) && !BlockComment(src, i) && e == TextEnd(src, i)
    requires q == p + (e - i) <= |o| && o[p..q] == src[i..e]
    requires e == |src| ==> q == |o|
    requires e < |src| && src[e] != '/' ==> q < |o| && o[q] == src[e]
    ensures !LineComment(o, p) && !BlockComment(o, p) && TextEnd(o, p) == q
  {
    assert o[p] == o[p..q][0] == src[i];
    if src[i] == '"' {
      CopiedLiteral(src, i, o, p);
    }
  }

  /** The first character after a text token: gone at the end, kept unless it may open a comment. */
  lemma FollowerOf(src: string, e: nat, o: string, q: nat)
    requires e <= |src| && q <= |o| && o[q..] == Strip(src, e)
    ensures e == |src| ==> q == |o|
    ensures e < |src| && src[e] != '/' ==> q < |o| && o[q] == src[e]
  {
    if e == |src| {
      assert Strip(src, e) == "";
    } else if src[e] != '/' {
      NextIsKept(src, e);
      assert o[q] == o[q..][0];
    }
  }

  lemma CopiedNewlines(src: string, i: nat, o: string, p: nat)
    requires i < |src| && (LineComment(src, i) || BlockComment(src, i))
    requires var t := Step(src, i); p + |t.keep| <= |o| && o[p..p + |t.keep|] == Text(src, i)
    ensures var t := Step(src, i); forall k :: p <= k < p + |t.keep| ==> o[k] == '\n'
  {
    var t := Step(src, i);
    CommentKeepsNewlines(src, i);
    forall k | p <= k < p + |t.keep|
      ensures o[k] == '\n'
    {
      assert o[k] == o[p..p + |t.keep|][k - p] == src[t.keep[k - p]];
    }
  }

  /** How far the copy has to advance to get past the source token at i. */
  function Advance(src: string, i: nat): nat
    requires i < |src|
  {
    if LineComment(src, i) || BlockComment(src, i) then |Step(src, i).keep| else TextEnd(src, i) - i
  }

  lemma AdvanceRest(src: string, i: nat, o: string, p: nat)
    requires i < |src| && p <= |o| && o[p..] == Strip(src, i)
    ensures p + Advance(src, i) <= |o| && o[p + Advance(src, i)..] == Strip(src, Step(src, i).next)
  {
    var t := Step(src, i);
    if LineComment(src, i) || BlockComment(src, i) {
      SplitRest(o, p, Text(src, i), Strip(src, t.next));
    } else {
      TextIsKept(src, i);
      SplitRest(o, p, src[i..t.next], Strip(src, t.next));
    }
  }

  lemma CleanStep(o: string, p: nat, e: nat)
    requires p < |o| && !LineComment(o, p) && !BlockComment(o, p) && e == TextEnd(o, p) && Clean(o, e)
    ensures Clean(o, p)
  {
  }

  lemma CommentStaysClean(src: string, i: nat, o: string, p: nat, m: nat)
    requires i < |src| && p <= |o| && o[p..] == Strip(src, i) && (LineComment(src, i) || BlockComment(src, i))
    requires m == |Step(src, i).keep| && p + m <= |o| && Clean(o, p + m)
    ensures Clean(o, p)
  {
    var t := Step(src, i);
    SplitRest(o, p, Text(src, i), Strip(src, t.next));
    CopiedNewlines(src, i, o, p);
    CleanAfterNewlines(o, p, m);
  }

  lemma TextAdvances(src: string, i: nat, o: string, p: nat)
    requires i < |src| && p <= |o| && o[p..] == Strip(src, i) && !LineComment(src, i) && !BlockComment(src, i)
    ensures p < |o| && !LineComment(o, p) && !BlockComment(o, p) && TextEnd(o, p) == p + (TextEnd(src, i) - i)
  {
    var e := TextEnd(src, i);
    var q := p + (e - i);
    TextIsKept(src, i);
    SplitRest(o, p, src[i..e], Strip(src, e));
    FollowerOf(src, e, o, q);
    CopiedText(src, i, e, o, p, q);
  }

  /** Wherever the rest of o is the stripped rest of a source, o has nothing left to strip. */
  lemma {:induction false} StrippedIsClean(src: string, i: nat, o: string, p: nat)
    requires i <= |src| && p <= |o| && o[p..] == Strip(src, i)
    ensures Clean(o, p)
    decreases |src| - i
  {
    if i < |src| {
      var next, q := Step(src, i).next, p + Advance(src, i);
      AdvanceRest(src, i, o, p);
      StrippedIsClean(src, next, o, q);
      if LineComment(src, i) || BlockComment(src, i) {
        CommentStaysClean(src, i, o, p, q - p);
      } else {
        TextStaysClean(src, i, o, p, q);
      }
    } else {
      assert Strip(src, i) == "";
    }
  }

  lemma TextStaysClean(src: string, i: nat, o: string, p: nat, q: nat)
    requires i < |src| && p <= |o| && o[p..] == Strip(src, i) && !LineComment(src, i) && !BlockComment(src, i)
    requires q == p + (TextEnd(src, i) - i) && q <= |o| && Clean(o, q)
    ensures Clean(o, p)
  {
    TextAdvances(src, i, o, p);
    CleanStep(o, p, q);
  }

  /** Stripping twice is stripping once. */
  lemma StripIsIdempotent(src: string)
    ensures Strip(Strip(src, 0), 0) == Strip(src, 0)
  {
    var o := Strip(src, 0);
    assert o[0..] == o;
    StrippedIsClean(src, 0, o, 0);
    CleanIsKept(o, 0);
  }
}
