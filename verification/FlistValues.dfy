/**
 What an entry of a filelist means, and when two filelists have the same identities: a path means its
 component list, a symbolic path its own text, and the identities agree exactly when these do, line by
 line and under any two checkout roots.
 */
module FlistValues {
  import opened FlistPath
  import opened FlistCanon
  import opened FlistParse
  import opened FlistLaws

  // ---------- normalisation by counting ----------

  /** The walk a path describes: how far up, then which components. */
  function WalkOf(raw: string): Walk {
    WalkAll(Walk(0, []), Split(raw))
  }

  function Dots(n: nat): seq<string> {
    seq(n, _ => "..")
  }

  lemma WalkStepNoDots(w: Walk, c: string)
    requires NoDotDot(w.below)
    ensures NoDotDot(WalkStep(w, c).below)
  {
  }

  /** Below "/" climbing is lost. */
  lemma {:induction false} NormFoldAbsolute(w: Walk, comps: seq<string>)
    requires NoDotDot(w.below)
    ensures NormFold(true, w.below, comps) == WalkAll(w, comps).below
    decreases comps
  {
    if comps != [] {
      WalkStepNoDots(w, comps[0]);
      NormFoldAbsolute(WalkStep(w, comps[0]), comps[1..]);
    }
  }

  lemma NormStepRelative(w: Walk, c: string)
    requires NoDotDot(w.below)
    ensures NormStep(false, Dots(w.climb) + w.below, c) == Dots(WalkStep(w, c).climb) + WalkStep(w, c).below
  {
    var up := Dots(w.climb);
    var stack := up + w.below;
    if c == ".." {
      if w.below == [] {
        assert stack == up;
        assert Dots(w.climb + 1) == up + [".."];
      } else {
        assert stack[|stack| - 1] == w.below[|w.below| - 1];
        assert stack[..|stack| - 1] == up + w.below[..|w.below| - 1];
      }
    } else if c != "" && c != "." {
      assert stack + [c] == up + (w.below + [c]);
    }
  }

  /** In a relative path climbing is kept in front. */
  lemma {:induction false} NormFoldRelative(w: Walk, comps: seq<string>)
    requires NoDotDot(w.below)
    ensures NormFold(false, Dots(w.climb) + w.below, comps) ==
            Dots(WalkAll(w, comps).climb) + WalkAll(w, comps).below
    decreases comps
  {
    if comps != [] {
      WalkStepNoDots(w, comps[0]);
      NormStepRelative(w, comps[0]);
      NormFoldRelative(WalkStep(w, comps[0]), comps[1..]);
    }
  }

  lemma WalkIsPlain(raw: string)
    ensures AllPlain(WalkOf(raw).below)
  {
    var comps := Split(raw);
    forall i | 0 <= i < |comps|
      ensures Slashless(comps[i])
    {
      SplitPieces(raw, i);
    }
    WalkBelowPlain(Walk(0, []), comps);
  }

  // ---------- values ----------

  /** A relative value: so many steps up, then the components; a dot when there is neither. */
  function Shown(climb: nat, below: seq<string>): string {
    if climb == 0 && below == [] then "." else Join(Dots(climb) + below)
  }

  /** A component of a normalised relative path. */
  predicate Normal(c: string) {
    Slashless(c) && c != "" && c != "."
  }

  lemma DotsAreNormal(climb: nat, below: seq<string>)
    requires AllPlain(below)
    ensures forall i :: 0 <= i < |Dots(climb) + below| ==> Normal((Dots(climb) + below)[i])
  {
  }

  lemma {:induction false} JoinIsNotEmpty(cs: seq<string>)
    requires cs != [] && forall i :: 0 <= i < |cs| ==> cs[i] != ""
    ensures Join(cs) != ""
  {
    if |cs| > 1 {
      assert |Join(cs)| >= 1;
    }
  }

  lemma RelativeValue(raw: string)
    requires raw != "" && raw[0] != '/'
    ensures Normpath(raw) == Shown(WalkOf(raw).climb, WalkOf(raw).below)
  {
    var w := WalkOf(raw);
    WalkIsPlain(raw);
    NormFoldRelative(Walk(0, []), Split(raw));
    assert Dots(0) + [] == [];
    var cs := Dots(w.climb) + w.below;
    DotsAreNormal(w.climb, w.below);
    if cs != [] {
      JoinIsNotEmpty(cs);
    }
  }

  lemma AbsoluteValue(raw: string)
    requires raw != "" && raw[0] == '/'
    ensures LeadingSlashes(raw) in {"/", "//"}
    ensures Normpath(raw) == LeadingSlashes(raw) + Join(WalkOf(raw).below)
  {
    NormFoldAbsolute(Walk(0, []), Split(raw));
  }

  // ---------- values tell walks apart ----------

  lemma MoreDots(c: nat, x: seq<string>, d: nat, y: seq<string>)
    requires AllPlain(x) && c < d
    ensures Dots(c) + x != Dots(d) + y
  {
    assert (Dots(d) + y)[c] == "..";
    assert x != [] ==> (Dots(c) + x)[c] == x[0];
  }

  lemma DotsThenPlain(c: nat, x: seq<string>, d: nat, y: seq<string>)
    requires AllPlain(x) && AllPlain(y) && Dots(c) + x == Dots(d) + y
    ensures c == d && x == y
  {
    if c < d {
      MoreDots(c, x, d, y);
    } else if d < c {
      MoreDots(d, y, c, x);
    } else {
      assert x == (Dots(c) + x)[c..] && y == (Dots(d) + y)[c..];
    }
  }

  /** Two relative values are the same iff the walks are. */
  lemma ShownIff(c: nat, x: seq<string>, d: nat, y: seq<string>)
    requires AllPlain(x) && AllPlain(y)
    ensures Shown(c, x) == Shown(d, y) <==> c == d && x == y
  {
    SplitShown(c, x);
    SplitShown(d, y);
    if Shown(c, x) == Shown(d, y) {
      SameSplit(c, x, d, y);
    }
  }

  lemma SplitShown(c: nat, x: seq<string>)
    requires AllPlain(x)
    ensures Split(Shown(c, x)) == if c == 0 && x == [] then ["."] else Dots(c) + x
  {
    if c == 0 && x == [] {
      SplitSlashless(".");
    } else {
      DotsAreNormal(c, x);
      SplitJoin(Dots(c) + x);
    }
  }

  lemma DotIsNotNormal(c: nat, x: seq<string>)
    requires AllPlain(x)
    ensures Dots(c) + x != ["."]
  {
    DotsAreNormal(c, x);
    assert ["."][0] == "." && !Normal(".");
  }

  lemma SameSplit(c: nat, x: seq<string>, d: nat, y: seq<string>)
    requires AllPlain(x) && AllPlain(y)
    requires (if c == 0 && x == [] then ["."] else Dots(c) + x) == (if d == 0 && y == [] then ["."] else Dots(d) + y)
    ensures c == d && x == y
  {
    DotsAreNormal(c, x);
    DotsAreNormal(d, y);
    if !(c == 0 && x == []) && !(d == 0 && y == []) {
      DotsThenPlain(c, x, d, y);
    } else {
      DotIsNotNormal(c, x);
      DotIsNotNormal(d, y);
    }
  }

  /** Two absolute values are the same iff the leading slashes and the components are. */
  lemma FixedIff(s: string, x: seq<string>, t: string, y: seq<string>)
    requires s in {"/", "//"} && t in {"/", "//"} && AllPlain(x) && AllPlain(y)
    ensures s + Join(x) == t + Join(y) <==> s == t && x == y
  {
    JoinHead(x);
    JoinHead(y);
    if s + Join(x) == t + Join(y) {
      SlashesAgree(s, Join(x), t, Join(y));
      JoinIsInjective(x, y);
    }
  }

  lemma JoinHead(x: seq<string>)
    requires AllPlain(x)
    ensures Join(x) != "" ==> Join(x)[0] != '/'
  {
    if x != [] {
      JoinStarts(x);
    }
  }

  lemma SlashesAgree(s: string, x: string, t: string, y: string)
    requires s in {"/", "//"} && t in {"/", "//"} && s + x == t + y
    requires (x != "" ==> x[0] != '/') && (y != "" ==> y[0] != '/')
    ensures s == t && x == y
  {
    var u := s + x;
    assert |u| > 1 ==> (u[1] == '/' <==> s == "//");
    assert |u| > 1 ==> (u[1] == '/' <==> t == "//");
    assert x == u[|s|..] && y == u[|t|..];
  }

  lemma JoinIsInjective(x: seq<string>, y: seq<string>)
    requires AllPlain(x) && AllPlain(y) && Join(x) == Join(y)
    ensures x == y
  {
    if x != [] {
      JoinStarts(x);
      SplitJoin(x);
    }
    if y != [] {
      JoinStarts(y);
      SplitJoin(y);
    }
  }

  // ---------- entries ----------

  /** What an entry means, whatever the checkout root. */
  datatype Meaning =
    | Defined(value: string)
    | Fixed(slashes: string, below: seq<string>)
    | Located(kind: Kind, climb: nat, below: seq<string>)
    | Symbolic(kind: Kind, raw: string)

  /** An absolute path, a path under the checkout root, a path under another variable, or a relative path. */
  function MeaningOf(e: Entry): Meaning {
    match e
    case Macro(value) => Defined(value)
    case Path(kind, raw) =>
      if StartsWith(raw, "/") then Fixed(LeadingSlashes(raw), WalkOf(raw).below)
      else if StartsWith(raw, HOME) then Located(kind, 0, RestBelow(raw))
      else if StartsWith(raw, "${") then Symbolic(kind, raw)
      else Located(kind, WalkOf(raw).climb, WalkOf(raw).below)
  }

  function RestBelow(raw: string): seq<string>
    requires StartsWith(raw, HOME)
  {
    RestWalk(raw[|HOME|..]).below
  }

  /** An entry as the parser makes it: a value that is not empty, and a kind that names a directive. */
  predicate Parsed(e: Entry) {
    e.Path? ==> e.raw != "" && e.kind in {Incdir, Include, Src}
  }

  /** The root variable only leads, and the path does not climb out of the root. */
  predicate Portable(e: Entry) {
    e.Path? ==> LeadingOnly(e.raw) && !ClimbsOut(e.raw)
  }

  lemma ParserMakesParsed(line: string)
    ensures Classify(Strip(line)).Item? ==> Parsed(Classify(Strip(line)).entry)
  {
  }

  function IdOf(m: Meaning): Id {
    match m
    case Defined(value) => Id(Define, value)
    case Fixed(slashes, below) => Id(Abs, slashes + Join(below))
    case Located(kind, climb, below) => Id(kind, Shown(climb, below))
    case Symbolic(kind, raw) => Id(kind, raw)
  }

  /** A path that does not use the root: absolute and symbolic text is kept, a relative path means its walk. */
  lemma PlainIdentity(kind: Kind, raw: string, root: string)
    requires raw != "" && (StartsWith(raw, "/") || !Mentions(raw))
    ensures Identity(Path(kind, raw), root) ==
            if StartsWith(raw, "/") then Id(Abs, LeadingSlashes(raw) + Join(WalkOf(raw).below))
            else if StartsWith(raw, "${") then Id(kind, raw)
            else Id(kind, Shown(WalkOf(raw).climb, WalkOf(raw).below))
  {
    if StartsWith(raw, "/") {
      AbsoluteValue(raw);
    } else {
      ExpandKeeps(raw, root);
      assert raw[0] != '/' by {
        assert raw[..1] == [raw[0]];
      }
      RelativeValue(raw);
    }
  }

  /** A path under the root means the components below it. */
  lemma HomeIdentity(kind: Kind, raw: string, cs: seq<string>)
    requires RootComps(cs) && StartsWith(raw, HOME) && LeadingOnly(raw) && !ClimbsOut(raw)
    ensures Identity(Path(kind, raw), Root(cs)) == Id(kind, Shown(0, RestBelow(raw)))
  {
    var rest := raw[|HOME|..];
    assert raw == HOME + rest && raw[0] == HOME[0] && MentionsAt(raw, 0);
    CanonInside(cs, rest);
    assert Dots(0) + RestBelow(raw) == RestBelow(raw);
  }

  /** Under every root the identity of an entry is that of its meaning. */
  lemma IdentityIsMeaning(e: Entry, cs: seq<string>)
    requires RootComps(cs) && Parsed(e) && Portable(e)
    ensures Identity(e, Root(cs)) == IdOf(MeaningOf(e))
  {
    if e.Path? {
      if StartsWith(e.raw, "/") {
        PlainIdentity(e.kind, e.raw, Root(cs));
      } else if StartsWith(e.raw, HOME) {
        HomeIdentity(e.kind, e.raw, cs);
      } else {
        NoLeadNoMention(e.raw);
        PlainIdentity(e.kind, e.raw, Root(cs));
      }
    }
  }

  lemma NoLeadNoMention(raw: string)
    requires LeadingOnly(raw) && !StartsWith(raw, "/") && !StartsWith(raw, HOME)
    ensures !Mentions(raw)
  {
  }

  // ---------- when two meanings are one identity ----------

  predicate WellFormed(m: Meaning) {
    match m
    case Defined(_) => true
    case Fixed(slashes, below) => slashes in {"/", "//"} && AllPlain(below)
    case Located(kind, _, below) => kind in {Incdir, Include, Src} && AllPlain(below)
    case Symbolic(kind, raw) => kind in {Incdir, Include, Src} && StartsWith(raw, "${")
  }

  /** A symbolic path that is already normalised is also what a relative path with those components means. */
  predicate Spelled(m: Meaning, n: Meaning) {
    m.Symbolic? && n.Located? && m.kind == n.kind && n.climb == 0 && n.below != [] && m.raw == Join(n.below)
  }

  predicate Same(m: Meaning, n: Meaning) {
    m == n || Spelled(m, n) || Spelled(n, m)
  }

  lemma MeaningIsWellFormed(e: Entry)
    requires Parsed(e) && Portable(e)
    ensures WellFormed(MeaningOf(e))
  {
    if e.Path? {
      WalkIsPlain(e.raw);
      if StartsWith(e.raw, "/") {
        AbsoluteValue(e.raw);
      } else if StartsWith(e.raw, HOME) {
        var rest := e.raw[|HOME|..];
        assert e.raw[0] == HOME[0] && MentionsAt(e.raw, 0);
        RestWalkPlain(rest);
      }
    }
  }

  lemma ShownStartsWithDot(climb: nat, below: seq<string>)
    requires climb > 0 || below == []
    ensures Shown(climb, below) != "" && Shown(climb, below)[0] == '.'
  {
    if climb > 0 {
      JoinFirst(Dots(climb) + below);
    }
  }

  lemma {:induction false} JoinFirst(cs: seq<string>)
    requires cs != [] && cs[0] != ""
    ensures Join(cs) != "" && Join(cs)[0] == cs[0][0]
  {
    if |cs| > 1 {
      JoinFirst(cs[..|cs| - 1]);
    }
  }

  lemma SymbolicOrLocated(m: Meaning, n: Meaning)
    requires WellFormed(m) && WellFormed(n) && m.Symbolic? && n.Located?
    ensures IdOf(m) == IdOf(n) <==> Spelled(m, n)
  {
    assert m.raw[0] == '$' by {
      assert m.raw[..2][0] == '$';
    }
    if n.climb > 0 || n.below == [] {
      ShownStartsWithDot(n.climb, n.below);
    } else {
      assert Dots(0) + n.below == n.below;
    }
  }

  /** Two meanings are one identity iff they are the same. */
  lemma IdOfIff(m: Meaning, n: Meaning)
    requires WellFormed(m) && WellFormed(n)
    ensures IdOf(m) == IdOf(n) <==> Same(m, n)
  {
    match (m, n)
    case (Fixed(s, x), Fixed(t, y)) => FixedIff(s, x, t, y);
    case (Located(_, c, x), Located(_, d, y)) => ShownIff(c, x, d, y);
    case (Symbolic(_, _), Located(_, _, _)) => SymbolicOrLocated(m, n);
    case (Located(_, _, _), Symbolic(_, _)) => SymbolicOrLocated(n, m);
    case _ =>
  }

  // ---------- files ----------

  /** The entries of a file, in order. */
  function Entries(ts: seq<Token>): seq<Entry> {
    if ts == [] then []
    else Entries(ts[..|ts| - 1]) + if ts[|ts| - 1].line.Item? then [ts[|ts| - 1].line.entry] else []
  }

  predicate NamesOf(ids: seq<Id>, es: seq<Entry>, name: Entry -> Id) {
    |ids| == |es| && forall k :: 0 <= k < |es| ==> ids[k] == name(es[k])
  }

  lemma {:induction false} IdsAreNames(ts: seq<Token>, file: string, name: Entry -> Id)
    ensures NamesOf(Ids(Records(ts, file, name)), Entries(ts), name)
  {
    if ts != [] {
      var front, t := ts[..|ts| - 1], ts[|ts| - 1];
      IdsAreNames(front, file, name);
      IdsSplit(Records(front, file, name), RecordOf(t, file, |ts|, name));
    }
  }

  /** Every entry is as the parser makes it and portable. */
  predicate AllPortable(ts: seq<Token>) {
    forall k :: 0 <= k < |Entries(ts)| ==> Parsed(Entries(ts)[k]) && Portable(Entries(ts)[k])
  }

  /** The same number of entries, meaning the same one by one. */
  predicate SameMeanings(ts: seq<Token>, us: seq<Token>) {
    && |Entries(ts)| == |Entries(us)|
    && forall k :: 0 <= k < |Entries(ts)| ==> SameEntry(Entries(ts)[k], Entries(us)[k])
  }

  predicate SameEntry(e: Entry, f: Entry) {
    Same(MeaningOf(e), MeaningOf(f))
  }

  lemma SameEntryIff(e: Entry, f: Entry, a: seq<string>, b: seq<string>)
    requires RootComps(a) && RootComps(b) && Parsed(e) && Portable(e) && Parsed(f) && Portable(f)
    ensures Naming(Root(a))(e) == Naming(Root(b))(f) <==> SameEntry(e, f)
  {
    IdentityIsMeaning(e, a);
    IdentityIsMeaning(f, b);
    MeaningIsWellFormed(e);
    MeaningIsWellFormed(f);
    IdOfIff(MeaningOf(e), MeaningOf(f));
  }

  /** Two files, each under its own root, have equal identities exactly when their entries mean the same. */
  lemma FilesAgreeIff(ts: seq<Token>, us: seq<Token>, f: string, g: string, a: seq<string>, b: seq<string>)
    requires RootComps(a) && RootComps(b) && AllPortable(ts) && AllPortable(us)
    ensures Ids(Records(ts, f, Naming(Root(a)))) == Ids(Records(us, g, Naming(Root(b)))) <==> SameMeanings(ts, us)
  {
    var x, y := Ids(Records(ts, f, Naming(Root(a)))), Ids(Records(us, g, Naming(Root(b))));
    var es, fs := Entries(ts), Entries(us);
    IdsAreNames(ts, f, Naming(Root(a)));
    IdsAreNames(us, g, Naming(Root(b)));
    if |es| == |fs| {
      forall k | 0 <= k < |es|
        ensures x[k] == y[k] <==> SameEntry(es[k], fs[k])
      {
        SameEntryIff(es[k], fs[k], a, b);
      }
    }
  }
}
