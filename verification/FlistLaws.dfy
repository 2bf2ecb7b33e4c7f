/**
 What a parsed filelist means: no line is skipped, comments and blank lines do not matter, and the
 identities do not depend on the checkout root exactly when no path climbs out of it.
 */
module FlistLaws {
  import opened FlistPath
  import opened FlistCanon
  import opened FlistParse

  /** The ordered identities that the semantic key is a digest of. */
  function Ids(rs: seq<Record>): seq<Id> {
    seq(|rs|, i requires 0 <= i < |rs| => rs[i].id)
  }

  // ---------- no line is skipped ----------

  /** A record points at its own line. */
  ghost predicate FromLine(r: Record, ts: seq<Token>, name: Entry -> Id) {
    1 <= r.lineno <= |ts| && ts[r.lineno - 1].line.Item? &&
    r.raw == ts[r.lineno - 1].text && r.id == name(ts[r.lineno - 1].line.entry)
  }

  /** Some record stands for line i. */
  ghost predicate Covered(rs: seq<Record>, i: nat) {
    exists k :: 0 <= k < |rs| && rs[k].lineno == i + 1
  }

  ghost predicate Faithful(rs: seq<Record>, ts: seq<Token>, name: Entry -> Id) {
    (forall k :: 0 <= k < |rs| ==> FromLine(rs[k], ts, name)) &&
    (forall j, k :: 0 <= j < k < |rs| ==> rs[j].lineno < rs[k].lineno)
  }

  /** Every record comes from its own line, in line order. */
  lemma {:induction false} RecordsAreFaithful(ts: seq<Token>, file: string, name: Entry -> Id)
    ensures Faithful(Records(ts, file, name), ts, name)
  {
    if ts != [] {
      var front := ts[..|ts| - 1];
      RecordsAreFaithful(front, file, name);
      var before := Records(front, file, name);
      forall k | 0 <= k < |before|
        ensures FromLine(before[k], ts, name)
      {
        assert FromLine(before[k], front, name);
      }
    }
  }

  lemma {:induction false} NoLineIsSkipped(ts: seq<Token>, file: string, name: Entry -> Id, i: nat)
    requires i < |ts| && ts[i].line.Item?
    ensures Covered(Records(ts, file, name), i)
  {
    var front := ts[..|ts| - 1];
    var before, rs := Records(front, file, name), Records(ts, file, name);
    if i < |front| {
      NoLineIsSkipped(front, file, name, i);
      var k :| 0 <= k < |before| && before[k].lineno == i + 1;
      assert rs[k].lineno == i + 1;
    } else {
      assert rs[|before|].lineno == i + 1;
    }
  }

  /** A note carries the text of its own comment line. */
  predicate NoteFromLine(n: Note, ts: seq<Token>) {
    1 <= n.lineno <= |ts| && ts[n.lineno - 1].line.Comment? && n.text == ts[n.lineno - 1].text
  }

  predicate NotesFaithful(ns: seq<Note>, ts: seq<Token>) {
    && (forall k :: 0 <= k < |ns| ==> NoteFromLine(ns[k], ts))
    && (forall j, k :: 0 <= j < k < |ns| ==> ns[j].lineno < ns[k].lineno)
  }

  /** The notes are the comment lines, in line order. */
  lemma {:induction false} NotesAreFaithful(ts: seq<Token>)
    ensures NotesFaithful(Notes(ts), ts)
  {
    if ts != [] {
      var front := ts[..|ts| - 1];
      NotesAreFaithful(front);
      forall k | 0 <= k < |Notes(front)|
        ensures NoteFromLine(Notes(front)[k], ts)
      {
        assert NoteFromLine(Notes(front)[k], front);
      }
    }
  }

  ghost predicate Noted(ns: seq<Note>, i: nat) {
    exists k :: 0 <= k < |ns| && ns[k].lineno == i + 1
  }

  /** No comment line is forgotten. */
  lemma {:induction false} NoCommentIsSkipped(ts: seq<Token>, i: nat)
    requires i < |ts| && ts[i].line.Comment?
    ensures Noted(Notes(ts), i)
  {
    var front := ts[..|ts| - 1];
    var before, ns := Notes(front), Notes(ts);
    if i < |front| {
      NoCommentIsSkipped(front, i);
      var k :| 0 <= k < |before| && before[k].lineno == i + 1;
      assert ns[k].lineno == i + 1;
    } else {
      assert ns[|before|].lineno == i + 1;
    }
  }

  // ---------- comments and blank lines ----------

  predicate Noise(t: Token) {
    t.line.Blank? || t.line.Comment?
  }

  function Weight(t: Token): seq<Token> {
    if Noise(t) then [] else [t]
  }

  /** The lines that carry meaning, in order. */
  function Significant(ts: seq<Token>): seq<Token> {
    if ts == [] then []
    else Significant(ts[..|ts| - 1]) + Weight(ts[|ts| - 1])
  }

  lemma {:induction false} IdsOfSignificant(ts: seq<Token>, f: string, g: string, name: Entry -> Id)
    ensures Ids(Records(ts, f, name)) == Ids(Records(Significant(ts), g, name))
  {
    if ts != [] {
      var front := ts[..|ts| - 1];
      IdsOfSignificant(front, f, g, name);
      var kept, t := Significant(ts), ts[|ts| - 1];
      IdsSplit(Records(front, f, name), RecordOf(t, f, |ts|, name));
      if Noise(t) {
        assert kept == Significant(front);
      } else {
        assert kept[..|kept| - 1] == Significant(front);
        IdsSplit(Records(Significant(front), g, name), RecordOf(t, g, |kept|, name));
      }
    }
  }

  lemma {:induction false} FaultsAreSignificant(ts: seq<Token>)
    ensures FaultFree(ts) <==> FaultFree(Significant(ts))
  {
    if ts != [] {
      var front := ts[..|ts| - 1];
      FaultsAreSignificant(front);
      assert ts == front + [ts[|ts| - 1]];
      FaultFreeAppend(front, ts[|ts| - 1]);
      if Noise(ts[|ts| - 1]) {
        assert Significant(ts) == Significant(front);
      } else {
        FaultFreeAppend(Significant(front), ts[|ts| - 1]);
      }
    }
  }

  lemma FaultFreeAppend(a: seq<Token>, t: Token)
    ensures FaultFree(a + [t]) <==> FaultFree(a) && !t.line.Fault?
  {
    var b := a + [t];
    assert forall i :: 0 <= i < |a| ==> a[i] == b[i];
    assert b[|a|] == t;
  }

  /** Two files with the same meaningful lines both fail to parse, or give the same identities. */
  lemma CommentsDoNotMatter(x: seq<Token>, y: seq<Token>, f: string, g: string, name: Entry -> Id)
    requires Significant(x) == Significant(y)
    ensures FaultFree(x) <==> FaultFree(y)
    ensures Ids(Records(x, f, name)) == Ids(Records(y, g, name))
  {
    FaultsAreSignificant(x);
    FaultsAreSignificant(y);
    IdsOfSignificant(x, f, g, name);
    IdsOfSignificant(y, g, g, name);
  }

  lemma SignificantSnoc(s: seq<Token>, t: Token)
    ensures Significant(s + [t]) == Significant(s) + Weight(t)
  {
    assert (s + [t])[..|s|] == s;
  }

  lemma {:induction false} SignificantSplits(a: seq<Token>, b: seq<Token>)
    ensures Significant(a + b) == Significant(a) + Significant(b)
  {
    if b == [] {
      assert a + b == a;
    } else {
      var front, t := b[..|b| - 1], b[|b| - 1];
      calc {
        Significant(a + b);
        { assert a + b == a + front + [t]; }
        Significant(a + front + [t]);
        { SignificantSnoc(a + front, t); }
        Significant(a + front) + Weight(t);
        { SignificantSplits(a, front); }
        Significant(a) + Significant(front) + Weight(t);
        { SignificantSnoc(front, t); assert b == front + [t]; }
        Significant(a) + Significant(b);
      }
    }
  }

  /** Inserting or deleting a comment or a blank line anywhere changes nothing. */
  lemma NoiseCanGo(a: seq<string>, noise: string, b: seq<string>, file: string, root: string)
    requires Noise(Read(noise))
    ensures FaultFree(Tokens(a + [noise] + b)) <==> FaultFree(Tokens(a + b))
    ensures Ids(Records(Tokens(a + [noise] + b), file, Naming(root))) ==
            Ids(Records(Tokens(a + b), file, Naming(root)))
  {
    NoiseIsDropped(Tokens(a), Read(noise), Tokens(b));
    TokensSplit(a, [noise]);
    TokensSplit(a + [noise], b);
    TokensSplit(a, b);
    CommentsDoNotMatter(Tokens(a + [noise] + b), Tokens(a + b), file, file, Naming(root));
  }

  lemma TokensSnoc(s: seq<string>, line: string)
    ensures Tokens(s + [line]) == Tokens(s) + [Read(line)]
  {
    assert (s + [line])[..|s|] == s;
  }

  lemma {:induction false} TokensSplit(a: seq<string>, b: seq<string>)
    ensures Tokens(a + b) == Tokens(a) + Tokens(b)
  {
    if b == [] {
      assert a + b == a;
    } else {
      var front, line := b[..|b| - 1], b[|b| - 1];
      calc {
        Tokens(a + b);
        { assert a + b == a + front + [line]; }
        Tokens(a + front + [line]);
        { TokensSnoc(a + front, line); }
        Tokens(a + front) + [Read(line)];
        { TokensSplit(a, front); }
        Tokens(a) + Tokens(front) + [Read(line)];
        { TokensSnoc(front, line); assert b == front + [line]; }
        Tokens(a) + Tokens(b);
      }
    }
  }

  lemma NoiseIsDropped(a: seq<Token>, noise: Token, b: seq<Token>)
    requires Noise(noise)
    ensures Significant(a + [noise] + b) == Significant(a + b)
  {
    calc {
      Significant(a + [noise] + b);
      { SignificantSplits(a + [noise], b); }
      Significant(a + [noise]) + Significant(b);
      { SignificantSnoc(a, noise); }
      Significant(a) + Significant(b);
      { SignificantSplits(a, b); }
      Significant(a + b);
    }
  }

  // ---------- the checkout root ----------

  predicate Agree(t: Token, f: Entry -> Id, g: Entry -> Id) {
    t.line.Item? ==> f(t.line.entry) == g(t.line.entry)
  }

  /** Two namings give the same identities exactly when they agree on every entry. */
  lemma {:induction false} SameIdsIff(ts: seq<Token>, file: string, f: Entry -> Id, g: Entry -> Id)
    ensures |Records(ts, file, f)| == |Records(ts, file, g)|
    ensures Ids(Records(ts, file, f)) == Ids(Records(ts, file, g)) <==>
            forall i :: 0 <= i < |ts| ==> Agree(ts[i], f, g)
  {
    if ts != [] {
      var front, t := ts[..|ts| - 1], ts[|ts| - 1];
      SameIdsIff(front, file, f, g);
      IdsSplit(Records(front, file, f), RecordOf(t, file, |ts|, f));
      IdsSplit(Records(front, file, g), RecordOf(t, file, |ts|, g));
      assert (forall i :: 0 <= i < |ts| ==> Agree(ts[i], f, g)) <==>
             (forall i :: 0 <= i < |front| ==> Agree(front[i], f, g)) && Agree(t, f, g) by {
        assert ts == front + [t];
      }
      var a, b := Ids(Records(front, file, f)), Ids(Records(front, file, g));
      var x, y := Ids(RecordOf(t, file, |ts|, f)), Ids(RecordOf(t, file, |ts|, g));
      AppendEqual(a, x, b, y);
      assert x == y <==> Agree(t, f, g) by {
        if t.line.Item? {
          assert x == [f(t.line.entry)] && y == [g(t.line.entry)];
          assert x[0] == f(t.line.entry) && y[0] == g(t.line.entry);
        }
      }
    }
  }

  lemma IdsSplit(a: seq<Record>, b: seq<Record>)
    ensures Ids(a + b) == Ids(a) + Ids(b)
  {
  }

  lemma AppendEqual(a: seq<Id>, x: seq<Id>, b: seq<Id>, y: seq<Id>)
    requires |a| == |b|
    ensures a + x == b + y <==> a == b && x == y
  {
    assert (a + x)[..|a|] == a && (b + y)[..|b|] == b;
    assert (a + x)[|a|..] == x && (b + y)[|b|..] == y;
  }

  /** The variable only ever leads a path. */
  ghost predicate LeadingOnlyFile(ts: seq<Token>) {
    forall i :: 0 <= i < |ts| && HasPath(ts[i]) ==> LeadingOnly(ts[i].line.entry.raw)
  }

  predicate HasPath(t: Token) {
    t.line.Item? && t.line.entry.Path?
  }

  ghost predicate Climbs(t: Token) {
    HasPath(t) && ClimbsOut(t.line.entry.raw)
  }

  ghost predicate SomePathClimbs(ts: seq<Token>) {
    exists i :: 0 <= i < |ts| && Climbs(ts[i])
  }

  lemma AgreesUnlessClimbing(t: Token, a: seq<string>, b: seq<string>)
    requires RootComps(a) && RootComps(b)
    requires HasPath(t) ==> LeadingOnly(t.line.entry.raw)
    requires !Climbs(t)
    ensures Agree(t, Naming(Root(a)), Naming(Root(b)))
  {
    if HasPath(t) {
      PortablePath(t.line.entry.raw, a, b);
    }
  }

  lemma ClimbingDisagrees(t: Token) returns (a: seq<string>, b: seq<string>)
    requires Climbs(t) && LeadingOnly(t.line.entry.raw)
    ensures RootComps(a) && RootComps(b) && !Agree(t, Naming(Root(a)), Naming(Root(b)))
  {
    var raw := t.line.entry.raw;
    a, b := ClimbingPathDiffers(raw);
    assert raw[0] == HOME[0];
  }

  ghost predicate RootIndependentFile(ts: seq<Token>, file: string) {
    forall a, b :: RootComps(a) && RootComps(b) ==> SameUnder(ts, file, a, b)
  }

  ghost predicate SameUnder(ts: seq<Token>, file: string, a: seq<string>, b: seq<string>) {
    Ids(Records(ts, file, Naming(Root(a)))) == Ids(Records(ts, file, Naming(Root(b))))
  }

  /** Under any two roots the identities, and so the key, are the same. */
  lemma ParsingIsPortable(ts: seq<Token>, file: string, a: seq<string>, b: seq<string>)
    requires RootComps(a) && RootComps(b) && LeadingOnlyFile(ts) && !SomePathClimbs(ts)
    ensures SameUnder(ts, file, a, b)
  {
    forall i | 0 <= i < |ts|
      ensures Agree(ts[i], Naming(Root(a)), Naming(Root(b)))
    {
      AgreesUnlessClimbing(ts[i], a, b);
    }
    SameIdsIff(ts, file, Naming(Root(a)), Naming(Root(b)));
  }

  /** The key of a file is independent of the checkout root exactly when no path climbs out of it. */
  lemma RootIndependentFileIff(ts: seq<Token>, file: string)
    requires LeadingOnlyFile(ts)
    ensures RootIndependentFile(ts, file) <==> !SomePathClimbs(ts)
  {
    if SomePathClimbs(ts) {
      var i :| 0 <= i < |ts| && Climbs(ts[i]);
      var a, b := ClimbingDisagrees(ts[i]);
      SameIdsIff(ts, file, Naming(Root(a)), Naming(Root(b)));
      assert !SameUnder(ts, file, a, b);
    } else {
      forall a, b | RootComps(a) && RootComps(b)
        ensures SameUnder(ts, file, a, b)
      {
        ParsingIsPortable(ts, file, a, b);
      }
    }
  }
}
