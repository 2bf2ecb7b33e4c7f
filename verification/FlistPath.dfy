/**
 Paths in a filelist: variable expansion, POSIX normalisation, and the canonical form that must not
 depend on where the repository is checked out.
 */
module FlistPath {
  const HOME := "${TIDELINK_HOME}"

  // ---------- components ----------

  /** The pieces between slashes; always at least one. */
  function Split(s: string): (r: seq<string>)
    ensures |r| > 0
  {
    if s == "" then [""] else Push(Split(s[..|s| - 1]), s[|s| - 1])
  }

  /** One more character: a slash opens a piece, anything else extends the last one. */
  function Push(parts: seq<string>, c: char): (r: seq<string>)
    requires |parts| > 0
    ensures |r| > 0
  {
    if c == '/' then parts + [""]
    else parts[..|parts| - 1] + [parts[|parts| - 1] + [c]]
  }

  function Join(parts: seq<string>): string {
    if parts == [] then ""
    else if |parts| == 1 then parts[0]
    else Join(parts[..|parts| - 1]) + "/" + parts[|parts| - 1]
  }

  predicate Slashless(c: string) {
    '/' !in c
  }

  /** An ordinary component: a name, not a dot or dot-dot. */
  predicate Plain(c: string) {
    Slashless(c) && c != "" && c != "." && c != ".."
  }

  predicate AllPlain(cs: seq<string>) {
    forall i :: 0 <= i < |cs| ==> Plain(cs[i])
  }

  // ---------- os.path.normpath ----------

  function NormStep(absolute: bool, stack: seq<string>, c: string): seq<string> {
    if c == "" || c == "." then stack
    else if c != ".." || (!absolute && stack == []) || (stack != [] && stack[|stack| - 1] == "..") then stack + [c]
    else if stack != [] then stack[..|stack| - 1]
    else stack
  }

  function NormFold(absolute: bool, stack: seq<string>, comps: seq<string>): seq<string>
    decreases comps
  {
    if comps == [] then stack else NormFold(absolute, NormStep(absolute, stack, comps[0]), comps[1..])
  }

  /** One leading slash, or two when there are exactly two. */
  function LeadingSlashes(p: string): string {
    if p == "" || p[0] != '/' then ""
    else if |p| >= 2 && p[1] == '/' && !(|p| >= 3 && p[2] == '/') then "//"
    else "/"
  }

  function Normpath(p: string): string {
    if p == "" then "."
    else
      var slashes := LeadingSlashes(p);
      var r := slashes + Join(NormFold(slashes != "", [], Split(p)));
      if r == "" then "." else r
  }

  // ---------- os.path.relpath on absolute paths ----------

  function NonEmpty(cs: seq<string>): seq<string> {
    if cs == [] then []
    else NonEmpty(cs[..|cs| - 1]) + (if cs[|cs| - 1] == "" then [] else [cs[|cs| - 1]])
  }

  function CommonLength(a: seq<string>, b: seq<string>): (n: nat)
    ensures n <= |a| && n <= |b|
  {
    if a == [] || b == [] || a[0] != b[0] then 0 else 1 + CommonLength(a[1..], b[1..])
  }

  function Relpath(path: string, start: string): string {
    var p, s := NonEmpty(Split(Normpath(path))), NonEmpty(Split(Normpath(start)));
    var n := CommonLength(s, p);
    var rel := seq(|s| - n, _ => "..") + p[n..];
    if rel == [] then "." else Join(rel)
  }

  // ---------- ${NAME} ----------

  predicate IdentStart(c: char) {
    'A' <= c <= 'Z' || 'a' <= c <= 'z' || c == '_'
  }

  predicate IdentChar(c: char) {
    IdentStart(c) || '0' <= c <= '9'
  }

  function IdentEnd(s: string, k: nat): (e: nat)
    requires k <= |s|
    ensures k <= e <= |s|
    decreases |s| - k
  {
    if k < |s| && IdentChar(s[k]) then IdentEnd(s, k + 1) else k
  }

  /** Length of the variable reference at the front of s, or 0. */
  function MatchVar(s: string): (n: nat)
    ensures n <= |s| && (n > 0 ==> n >= 4 && s[0] == '$')
  {
    if |s| < 4 || s[0] != '$' || s[1] != '{' || !IdentStart(s[2]) then 0
    else
      var e := IdentEnd(s, 2);
      if 3 <= e < |s| && s[e] == '}' then e + 1 else 0
  }

  /** Replaces ${TIDELINK_HOME} by the root and keeps every other reference symbolic. */
  function ExpandSymbolic(s: string, root: string): string {
    if s == "" then ""
    else
      var n := MatchVar(s);
      if n == 0 then [s[0]] + ExpandSymbolic(s[1..], root)
      else (if s[..n] == HOME then root else s[..n]) + ExpandSymbolic(s[n..], root)
  }

  // ---------- the canonical form ----------

  datatype Canon = Canon(absolute: bool, value: string)

  predicate StartsWith(s: string, p: string) {
    p <= s
  }

  function CanonPath(raw: string, root: string): Canon {
    if StartsWith(raw, "/") then Canon(true, Normpath(raw)) else Canon(false, Settle(ExpandSymbolic(raw, root), root))
  }

  /** An expanded path: still symbolic, absolute, or relative. */
  function Settle(expanded: string, root: string): string {
    if StartsWith(expanded, "${") then expanded
    else if StartsWith(expanded, "/") then Relocate(Normpath(expanded), Normpath(root))
    else Normpath(expanded)
  }

  /** Relative inside the root, absolute outside it. */
  function Relocate(norm: string, root: string): string {
    if norm == root then "."
    else if StartsWith(norm, root + "/") then Relpath(norm, root)
    else norm
  }

  // ---------- splitting and joining ----------

  lemma PushBehind(x: seq<string>, y: seq<string>, c: char)
    requires |y| > 0
    ensures Push(x + y, c) == x + Push(y, c)
  {
    var both := x + y;
    assert both[..|both| - 1] == x + y[..|y| - 1];
    assert both[|both| - 1] == y[|y| - 1];
  }

  lemma SplitPush(t: string, c: char)
    ensures Split(t + [c]) == Push(Split(t), c)
  {
    assert (t + [c])[..|t|] == t;
  }

  lemma {:induction false} SplitAppend(a: string, b: string)
    ensures Split(a + "/" + b) == Split(a) + Split(b)
  {
    if b == "" {
      assert a + "/" + b == a + ['/'];
      SplitPush(a, '/');
    } else {
      var front, c := b[..|b| - 1], b[|b| - 1];
      var t := a + "/" + front;
      calc {
        Split(a + "/" + b);
        { assert a + "/" + b == t + [c]; }
        Split(t + [c]);
        { SplitPush(t, c); }
        Push(Split(t), c);
        { SplitAppend(a, front); }
        Push(Split(a) + Split(front), c);
        { PushBehind(Split(a), Split(front), c); }
        Split(a) + Push(Split(front), c);
      }
    }
  }

  lemma {:induction false} SplitSlashless(c: string)
    requires Slashless(c)
    ensures Split(c) == [c]
  {
    if c != "" {
      SplitSlashless(c[..|c| - 1]);
      assert c == c[..|c| - 1] + [c[|c| - 1]];
    }
  }

  lemma {:induction false} SplitJoin(cs: seq<string>)
    requires cs != [] && forall i :: 0 <= i < |cs| ==> Slashless(cs[i])
    ensures Split(Join(cs)) == cs
  {
    var last := cs[|cs| - 1];
    SplitSlashless(last);
    if |cs| > 1 {
      var front := cs[..|cs| - 1];
      SplitJoin(front);
      SplitAppend(Join(front), last);
      assert cs == front + [last];
    }
  }

  /** Joining the pieces gives the text back. */
  lemma {:induction false} JoinSplit(s: string)
    ensures Join(Split(s)) == s
  {
    if s != "" {
      var t, c := s[..|s| - 1], s[|s| - 1];
      calc {
        Join(Split(s));
        { assert s == t + [c]; SplitPush(t, c); }
        Join(Push(Split(t), c));
        { JoinPush(Split(t), c); }
        Join(Split(t)) + [c];
        { JoinSplit(t); }
        t + [c];
      }
    }
  }

  lemma JoinPush(parts: seq<string>, c: char)
    requires parts != []
    ensures Join(Push(parts, c)) == Join(parts) + [c]
  {
    if c == '/' {
      assert (parts + [""])[..|parts|] == parts;
    } else {
      var front, last := parts[..|parts| - 1], parts[|parts| - 1];
      assert Push(parts, c)[..|parts| - 1] == front;
    }
  }

  lemma {:induction false} SplitPieces(s: string, i: nat)
    requires i < |Split(s)|
    ensures Slashless(Split(s)[i]) && |Split(s)[i]| <= |s|
  {
    if s != "" {
      var front := Split(s[..|s| - 1]);
      if i < |front| {
        SplitPieces(s[..|s| - 1], i);
      }
    }
  }

  lemma {:induction false} NonEmptyPlain(cs: seq<string>)
    requires AllPlain(cs)
    ensures NonEmpty(cs) == cs
  {
    if cs != [] {
      NonEmptyPlain(cs[..|cs| - 1]);
      assert cs == cs[..|cs| - 1] + [cs[|cs| - 1]];
    }
  }

  lemma {:induction false} NonEmptySplits(a: seq<string>, b: seq<string>)
    ensures NonEmpty(a + b) == NonEmpty(a) + NonEmpty(b)
  {
    if b == [] {
      assert a + b == a;
    } else {
      NonEmptySplits(a, b[..|b| - 1]);
      assert (a + b)[..|a + b| - 1] == a + b[..|b| - 1];
    }
  }

  lemma {:induction false} NormFoldSplits(absolute: bool, stack: seq<string>, a: seq<string>, b: seq<string>)
    ensures NormFold(absolute, stack, a + b) == NormFold(absolute, NormFold(absolute, stack, a), b)
    decreases a
  {
    if a == [] {
      assert a + b == b;
    } else {
      NormFoldSplits(absolute, NormStep(absolute, stack, a[0]), a[1..], b);
      assert (a + b)[1..] == a[1..] + b;
    }
  }

  lemma {:induction false} NormFoldPlain(stack: seq<string>, cs: seq<string>)
    requires AllPlain(cs)
    ensures NormFold(true, stack, cs) == stack + cs
    decreases cs
  {
    if cs != [] {
      NormFoldPlain(stack + [cs[0]], cs[1..]);
      assert stack + [cs[0]] + cs[1..] == stack + cs;
    } else {
      assert stack + cs == stack;
    }
  }

  // ---------- absolute roots ----------

  /** The root directory with these components. */
  function Root(cs: seq<string>): string {
    "/" + Join(cs)
  }

  /** An absolute, normalised root other than "/". */
  predicate RootComps(cs: seq<string>) {
    cs != [] && AllPlain(cs)
  }

  lemma {:induction false} JoinStarts(cs: seq<string>)
    requires cs != [] && AllPlain(cs)
    ensures Join(cs) != "" && Join(cs)[0] != '/'
  {
    if |cs| == 1 {
      assert Plain(cs[0]);
    } else {
      JoinStarts(cs[..|cs| - 1]);
    }
  }

  /** Components of an absolute path "/" + ... */
  lemma SplitAbsolute(cs: seq<string>)
    requires RootComps(cs)
    ensures Split(Root(cs)) == [""] + cs && LeadingSlashes(Root(cs)) == "/"
  {
    JoinStarts(cs);
    SplitAppend("", Join(cs));
    SplitJoin(cs);
    assert "" + "/" + Join(cs) == Root(cs);
  }

  lemma NormRoot(cs: seq<string>)
    requires RootComps(cs)
    ensures Normpath(Root(cs)) == Root(cs)
  {
    SplitAbsolute(cs);
    assert ([""] + cs)[1..] == cs;
    NormFoldPlain([], cs);
    assert [] + cs == cs;
  }

  /** The components of what follows the variable in ${TIDELINK_HOME}/a/b. */
  function RestComps(rest: string): seq<string> {
    if rest == "" then [] else Split(rest[1..])
  }

  predicate LeadsPath(rest: string) {
    rest == "" || rest[0] == '/'
  }

  lemma SplitUnderRoot(cs: seq<string>, rest: string)
    requires RootComps(cs) && LeadsPath(rest)
    ensures Split(Root(cs) + rest) == [""] + cs + RestComps(rest)
    ensures LeadingSlashes(Root(cs) + rest) == "/"
  {
    SplitAbsolute(cs);
    JoinStarts(cs);
    if rest == "" {
      assert Root(cs) + rest == Root(cs);
    } else {
      assert Root(cs) + rest == Root(cs) + "/" + rest[1..];
      SplitAppend(Root(cs), rest[1..]);
    }
  }

  // ---------- climbing ----------

  /** How far a walk has climbed above where it started, and the components below that point. */
  datatype Walk = Walk(climb: nat, below: seq<string>)

  function WalkStep(w: Walk, c: string): Walk {
    if c == "" || c == "." then w
    else if c != ".." then w.(below := w.below + [c])
    else if w.below == [] then w.(climb := w.climb + 1)
    else w.(below := w.below[..|w.below| - 1])
  }

  function WalkAll(w: Walk, comps: seq<string>): Walk
    decreases comps
  {
    if comps == [] then w else WalkAll(WalkStep(w, comps[0]), comps[1..])
  }

  /** The walk described by the text after the variable. */
  function RestWalk(rest: string): Walk {
    WalkAll(Walk(0, []), RestComps(rest))
  }

  predicate NoDotDot(cs: seq<string>) {
    forall i :: 0 <= i < |cs| ==> cs[i] != ".."
  }

  lemma {:induction false} ClimbGrows(w: Walk, comps: seq<string>)
    ensures w.climb <= WalkAll(w, comps).climb
    decreases comps
  {
    if comps != [] {
      ClimbGrows(WalkStep(w, comps[0]), comps[1..]);
    }
  }

  /** Normalising below a long enough root drops as many of its components as the walk climbs. */
  lemma {:induction false} NormFoldWalks(cs: seq<string>, w: Walk, comps: seq<string>)
    requires AllPlain(cs) && NoDotDot(w.below) && WalkAll(w, comps).climb <= |cs|
    ensures w.climb <= |cs|
    ensures var v := WalkAll(w, comps);
            NormFold(true, cs[..|cs| - w.climb] + w.below, comps) == cs[..|cs| - v.climb] + v.below
    decreases comps
  {
    ClimbGrows(w, comps);
    if comps != [] {
      var next := WalkStep(w, comps[0]);
      ClimbGrows(next, comps[1..]);
      NormFoldWalks(cs, next, comps[1..]);
      var stack := cs[..|cs| - w.climb] + w.below;
      assert NormStep(true, stack, comps[0]) == cs[..|cs| - next.climb] + next.below by {
        NormStepWalks(cs, w, comps[0]);
      }
    }
  }

  lemma NormStepWalks(cs: seq<string>, w: Walk, c: string)
    requires AllPlain(cs) && NoDotDot(w.below) && WalkStep(w, c).climb <= |cs|
    ensures w.climb <= |cs|
    ensures NormStep(true, cs[..|cs| - w.climb] + w.below, c) ==
            cs[..|cs| - WalkStep(w, c).climb] + WalkStep(w, c).below
  {
    var up := cs[..|cs| - w.climb];
    var stack := up + w.below;
    if c == ".." {
      if w.below == [] {
        assert stack == up;
        assert Plain(up[|up| - 1]);
        assert up[..|up| - 1] == cs[..|cs| - w.climb - 1];
      } else {
        assert stack[|stack| - 1] == w.below[|w.below| - 1];
        assert stack[..|stack| - 1] == up + w.below[..|w.below| - 1];
      }
    } else if c != "" && c != "." {
      assert stack + [c] == up + (w.below + [c]);
    }
  }

  lemma {:induction false} WalkBelowPlain(w: Walk, comps: seq<string>)
    requires AllPlain(w.below) && forall i :: 0 <= i < |comps| ==> Slashless(comps[i])
    ensures AllPlain(WalkAll(w, comps).below)
    ensures forall i :: 0 <= i < |WalkAll(w, comps).below| ==>
                          WalkAll(w, comps).below[i] in w.below || WalkAll(w, comps).below[i] in comps
    decreases comps
  {
    if comps != [] {
      WalkBelowPlain(WalkStep(w, comps[0]), comps[1..]);
    }
  }

  lemma RestWalkPlain(rest: string)
    requires LeadsPath(rest)
    ensures AllPlain(RestWalk(rest).below)
    ensures forall i :: 0 <= i < |RestWalk(rest).below| ==> |RestWalk(rest).below[i]| <= |rest|
  {
    var comps := RestComps(rest);
    forall i | 0 <= i < |comps|
      ensures Slashless(comps[i]) && |comps[i]| <= |rest|
    {
      SplitPieces(rest[1..], i);
    }
    WalkBelowPlain(Walk(0, []), comps);
  }

  /** The normalised path of a rest below a root that is deep enough. */
  lemma NormUnderRoot(cs: seq<string>, rest: string)
    requires RootComps(cs) && LeadsPath(rest) && RestWalk(rest).climb <= |cs|
    ensures var w := RestWalk(rest);
            Normpath(Root(cs) + rest) == "/" + Join(cs[..|cs| - w.climb] + w.below)
  {
    var w, comps := RestWalk(rest), RestComps(rest);
    var stack := cs[..|cs| - w.climb] + w.below;
    assert NormFold(true, cs, comps) == stack by {
      NormFoldWalks(cs, Walk(0, []), comps);
      assert cs[..|cs| - 0] + [] == cs;
    }
    assert NormFold(true, [], [""] + cs + comps) == stack by {
      NormFoldRoot(cs, comps);
    }
    SplitUnderRoot(cs, rest);
    OneSlash(Root(cs) + rest, stack);
  }

  lemma OneSlash(p: string, stack: seq<string>)
    requires LeadingSlashes(p) == "/" && NormFold(true, [], Split(p)) == stack
    ensures Normpath(p) == "/" + Join(stack)
  {
  }

  /** The components of the root are taken over as they are. */
  lemma NormFoldRoot(cs: seq<string>, comps: seq<string>)
    requires AllPlain(cs)
    ensures NormFold(true, [], [""] + cs + comps) == NormFold(true, cs, comps)
  {
    NormFoldSplits(true, [], [""] + cs, comps);
    assert ([""] + cs)[1..] == cs;
    NormFoldPlain([], cs);
    assert [] + cs == cs;
  }
}
