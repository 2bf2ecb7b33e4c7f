/** Which lines the RDL rewrite keeps: everything that is not moved into a field, once and in order. */
module RdlSurvival {
  import opened RdlRewrite

  /** Line j directly follows field i: only assignments to that field in between, and j is one too. */
  predicate Follows(lines: seq<Line>, i: int, j: int) {
    && 0 <= i < j < |lines| && lines[i].Field?
    && forall k :: i < k <= j ==> AssignsTo(lines[k], lines[i].name)
  }

  /** Line j is an inlinable assignment that directly follows its field. */
  ghost predicate Consumed(lines: seq<Line>, j: int) {
    0 <= j < |lines| && Inlinable(lines[j]) && exists i :: Follows(lines, i, j)
  }

  /** What a line that is not consumed becomes: only a field that absorbs something changes at all. */
  function Outcome(lines: seq<Line>, i: nat): Line
    requires i < |lines|
  {
    if Absorbs(lines, i) then NewField(lines[i], Inlined(Run(lines, i))) else lines[i]
  }

  /** The lines from i on that are not consumed, each as it comes out. */
  ghost function Survivors(lines: seq<Line>, i: nat): seq<Line>
    requires i <= |lines|
    decreases |lines| - i
  {
    if i == |lines| then []
    else (if Consumed(lines, i) then [] else [Outcome(lines, i)]) + Survivors(lines, i + 1)
  }

  // ---------- runs ----------

  lemma {:induction false} RunIsMaximal(lines: seq<Line>, j: nat, name: string)
    requires j <= |lines|
    ensures var e := RunEnd(lines, j, name);
            && (forall k :: j <= k < e ==> AssignsTo(lines[k], name))
            && (e < |lines| ==> !AssignsTo(lines[e], name))
    decreases |lines| - j
  {
    if j < |lines| && AssignsTo(lines[j], name) {
      RunIsMaximal(lines, j + 1, name);
    }
  }

  lemma {:induction false} InlinedNonEmpty(run: seq<Line>)
    ensures Inlined(run) != [] <==> exists k :: 0 <= k < |run| && Inlinable(run[k])
  {
    if run != [] {
      var front := run[..|run| - 1];
      InlinedNonEmpty(front);
      assert forall k :: 0 <= k < |front| ==> run[k] == front[k];
      assert Inlined(run) != [] <==> Inlined(front) != [] || Inlinable(run[|run| - 1]);
    }
  }

  lemma {:induction false} RunReaches(lines: seq<Line>, k: nat, j: nat, name: string)
    requires k <= j < |lines| && forall i :: k <= i <= j ==> AssignsTo(lines[i], name)
    ensures j < RunEnd(lines, k, name)
    decreases j - k
  {
    if k < j {
      RunReaches(lines, k + 1, j, name);
    }
  }

  /** A field absorbs something iff an inlinable assignment directly follows it. */
  lemma AbsorbsIff(lines: seq<Line>, i: nat)
    requires i < |lines|
    ensures Absorbs(lines, i) <==> exists j :: Follows(lines, i, j) && Inlinable(lines[j])
  {
    if lines[i].Field? {
      var e, run := RunEnd(lines, i + 1, lines[i].name), Run(lines, i);
      RunIsMaximal(lines, i + 1, lines[i].name);
      InlinedNonEmpty(run);
      if k :| 0 <= k < |run| && Inlinable(run[k]) {
        assert Follows(lines, i, i + 1 + k) && Inlinable(lines[i + 1 + k]);
      }
      if j :| Follows(lines, i, j) && Inlinable(lines[j]) {
        RunReaches(lines, i + 1, j, lines[i].name);
        assert run[j - i - 1] == lines[j];
      }
    }
  }

  lemma {:induction false} AnyInlinedIff(lines: seq<Line>, i: nat)
    requires i <= |lines|
    ensures AnyInlined(lines, i) <==> exists k :: i <= k < |lines| && Absorbs(lines, k)
    decreases |lines| - i
  {
    if i < |lines| {
      AnyInlinedIff(lines, i + 1);
    }
  }

  lemma InlinesIffConsumes(lines: seq<Line>)
    ensures AnyInlined(lines, 0) <==> exists j :: Consumed(lines, j)
  {
    AnyInlinedIff(lines, 0);
    if k :| 0 <= k < |lines| && Absorbs(lines, k) {
      AbsorbsIff(lines, k);
      var j :| Follows(lines, k, j) && Inlinable(lines[j]);
      assert Consumed(lines, j);
    }
    if j :| Consumed(lines, j) {
      var i :| Follows(lines, i, j);
      AbsorbsIff(lines, i);
    }
  }

  // ---------- the first pass ----------

  /** No assignment at or after i belongs to a field before i. */
  ghost predicate Boundary(lines: seq<Line>, i: nat) {
    forall p, j :: Follows(lines, p, j) && i <= j && Inlinable(lines[j]) ==> i <= p
  }

  lemma {:induction false} RemainingSplits(a: seq<Line>, b: seq<Line>)
    ensures Remaining(a + b) == Remaining(a) + Remaining(b)
  {
    if b == [] {
      assert a + b == a;
    } else {
      RemainingSplits(a, b[..|b| - 1]);
      assert (a + b)[..|a + b| - 1] == a + b[..|b| - 1];
    }
  }

  /** What is left of one line of a run. */
  function Residue(l: Line): seq<Line> {
    if Inlinable(l) then [] else [l]
  }

  lemma RemainingHead(l: Line, tail: seq<Line>)
    ensures Remaining([l] + tail) == Residue(l) + Remaining(tail)
  {
    RemainingSplits([l], tail);
    assert [l][..0] == [];
  }

  lemma SurvivorsStep(lines: seq<Line>, i: nat, j: nat)
    requires i < j < |lines| && Follows(lines, i, j)
    ensures Survivors(lines, j) == Residue(lines[j]) + Survivors(lines, j + 1)
  {
    assert Consumed(lines, j) <==> Inlinable(lines[j]);
    assert Outcome(lines, j) == lines[j];
  }

  /** Inside the run of field i, the lines that remain are the ones that are not consumed. */
  lemma {:induction false} SurvivorsOfRun(lines: seq<Line>, i: nat, j: nat, e: nat)
    requires i < j <= e <= |lines| && lines[i].Field?
    requires forall k :: i < k < e ==> AssignsTo(lines[k], lines[i].name)
    ensures Survivors(lines, j) == Remaining(lines[j..e]) + Survivors(lines, e)
    decreases e - j
  {
    if j == e {
      assert lines[j..e] == [];
    } else {
      calc {
        Survivors(lines, j);
        { SurvivorsStep(lines, i, j); }
        Residue(lines[j]) + Survivors(lines, j + 1);
        { SurvivorsOfRun(lines, i, j + 1, e); }
        Residue(lines[j]) + (Remaining(lines[j + 1..e]) + Survivors(lines, e));
        Residue(lines[j]) + Remaining(lines[j + 1..e]) + Survivors(lines, e);
        { RemainingHead(lines[j], lines[j + 1..e]); assert lines[j..e] == [lines[j]] + lines[j + 1..e]; }
        Remaining(lines[j..e]) + Survivors(lines, e);
      }
    }
  }

  lemma BoundaryAfterRun(lines: seq<Line>, i: nat)
    requires i < |lines| && lines[i].Field? && Boundary(lines, i)
    ensures Boundary(lines, RunEnd(lines, i + 1, lines[i].name))
  {
    var e := RunEnd(lines, i + 1, lines[i].name);
    RunIsMaximal(lines, i + 1, lines[i].name);
    forall p, j | Follows(lines, p, j) && e <= j && Inlinable(lines[j])
      ensures e <= p
    {
      assert i <= p;
      assert i < p < e ==> AssignsTo(lines[p], lines[i].name);
    }
  }

  lemma BoundaryAfterLine(lines: seq<Line>, i: nat)
    requires i < |lines| && !Absorbs(lines, i) && Boundary(lines, i)
    ensures Boundary(lines, i + 1) && !Consumed(lines, i)
  {
    AbsorbsIff(lines, i);
  }

  lemma SurvivorsOfBlock(lines: seq<Line>, i: nat, e: nat)
    requires i < |lines| && lines[i].Field? && e == RunEnd(lines, i + 1, lines[i].name)
    ensures Survivors(lines, i) == [Outcome(lines, i)] + Remaining(Run(lines, i)) + Survivors(lines, e)
  {
    RunIsMaximal(lines, i + 1, lines[i].name);
    calc {
      Survivors(lines, i);
      [Outcome(lines, i)] + Survivors(lines, i + 1);
      { SurvivorsOfRun(lines, i, i + 1, e); }
      [Outcome(lines, i)] + (Remaining(Run(lines, i)) + Survivors(lines, e));
      [Outcome(lines, i)] + Remaining(Run(lines, i)) + Survivors(lines, e);
    }
  }

  lemma {:induction false} RewriteSurvivors(lines: seq<Line>, i: nat)
    requires i <= |lines| && Boundary(lines, i)
    ensures Rewrite(lines, i) == Survivors(lines, i)
    decreases |lines| - i
  {
    if i == |lines| {
    } else if Absorbs(lines, i) {
      var e := RunEnd(lines, i + 1, lines[i].name);
      BoundaryAfterRun(lines, i);
      RewriteSurvivors(lines, e);
      SurvivorsOfBlock(lines, i, e);
    } else {
      BoundaryAfterLine(lines, i);
      RewriteSurvivors(lines, i + 1);
    }
  }

  /**
   The output is the input without the consumed lines, in order, every other line as it was except
   for the fields that absorb something; and once anything was consumed also without every default
   line.  So a trailing comment is lost exactly on the fields that absorb something.
   */
  lemma EveryOtherLineSurvives(lines: seq<Line>)
    ensures Preprocess(lines) ==
            if exists j :: Consumed(lines, j) then DropDefaults(Survivors(lines, 0)) else Survivors(lines, 0)
  {
    InlinesIffConsumes(lines);
    RewriteSurvivors(lines, 0);
  }

  // ---------- what changes on a line ----------

  /** The nine properties that move into the field. */
  lemma InlinableIff(l: Line)
    ensures Inlinable(l) <==>
            l.Assign? && (l.prop.name == "hw" || l.prop.name == "sw" || l.prop.name == "singlepulse" ||
                          l.prop.name == "rclr" || l.prop.name == "woclr" || l.prop.name == "woset" ||
                          l.prop.name == "swmod" || l.prop.name == "onread" || l.prop.name == "onwrite")
  {
  }

  /** Position j carries the next inlined property after those at earlier positions. */
  predicate InlinedFrom(run: seq<Line>, pos: seq<nat>, props: seq<Prop>) {
    && |pos| == |props|
    && (forall k :: 0 <= k < |pos| ==> pos[k] < |run| && Inlinable(run[pos[k]]) && props[k] == run[pos[k]].prop)
    && (forall j, k :: 0 <= j < k < |pos| ==> pos[j] < pos[k])
    && (forall i :: 0 <= i < |run| && Inlinable(run[i]) ==> i in pos)
  }

  lemma InlinedSnoc(run: seq<Line>, pos: seq<nat>, props: seq<Prop>, l: Line)
    requires InlinedFrom(run, pos, props)
    ensures if Inlinable(l) then InlinedFrom(run + [l], pos + [|run|], props + [l.prop])
            else InlinedFrom(run + [l], pos, props)
  {
    var more, pos' := run + [l], if Inlinable(l) then pos + [|run|] else pos;
    assert more[|run|] == l;
    forall k | 0 <= k < |pos|
      ensures pos'[k] == pos[k] && more[pos[k]] == run[pos[k]]
    {
    }
    forall i | 0 <= i < |more| && Inlinable(more[i])
      ensures i in pos'
    {
      if i < |run| {
        assert i in pos;
      }
    }
  }

  /** The inlined properties are those of the inlinable assignments of the run, each once and in order. */
  lemma {:induction false} InlinedProps(run: seq<Line>) returns (pos: seq<nat>)
    ensures InlinedFrom(run, pos, Inlined(run))
  {
    pos := [];
    if run != [] {
      var front, l := run[..|run| - 1], run[|run| - 1];
      pos := InlinedProps(front);
      InlinedSnoc(front, pos, Inlined(front), l);
      assert front + [l] == run && Inlined(front) + [] == Inlined(front);
      if Inlinable(l) {
        pos := pos + [|front|];
      }
    }
  }

  /** An absorbing field gains exactly these properties at the end of its body; only its comment goes. */
  lemma AbsorbingField(lines: seq<Line>, i: nat) returns (pos: seq<nat>)
    requires i < |lines| && Absorbs(lines, i)
    ensures var f, g := lines[i], Outcome(lines, i);
            && g.Field? && g.indent == f.indent && g.name == f.name && g.width == f.width && g.reset == f.reset
            && g.comment == "" && |g.body| == |f.body| + |pos| && g.body[..|f.body|] == f.body
            && InlinedFrom(Run(lines, i), pos, g.body[|f.body|..])
  {
    pos := InlinedProps(Run(lines, i));
    assert (lines[i].body + Inlined(Run(lines, i)))[|lines[i].body|..] == Inlined(Run(lines, i));
  }

  /** Every other line comes out as it went in. */
  lemma OtherLine(lines: seq<Line>, i: nat)
    requires i < |lines| && !Absorbs(lines, i)
    ensures Outcome(lines, i) == lines[i]
  {
  }

  predicate Selects(lines: seq<Line>, pos: seq<nat>, out: seq<Line>) {
    && |pos| == |out|
    && (forall k :: 0 <= k < |pos| ==> pos[k] < |lines| && !lines[pos[k]].Default? && out[k] == lines[pos[k]])
    && (forall j, k :: 0 <= j < k < |pos| ==> pos[j] < pos[k])
    && (forall i :: 0 <= i < |lines| && !lines[i].Default? ==> i in pos)
  }

  lemma SelectsSnoc(lines: seq<Line>, pos: seq<nat>, out: seq<Line>, l: Line)
    requires Selects(lines, pos, out)
    ensures if l.Default? then Selects(lines + [l], pos, out)
            else Selects(lines + [l], pos + [|lines|], out + [l])
  {
    var more, pos' := lines + [l], if l.Default? then pos else pos + [|lines|];
    assert more[|lines|] == l;
    forall i | 0 <= i < |more| && !more[i].Default?
      ensures i in pos'
    {
      if i < |lines| {
        assert i in pos;
      }
    }
  }

  /** Dropping keeps exactly the lines that are no default, in order. */
  lemma {:induction false} DropDefaultsSelects(lines: seq<Line>) returns (pos: seq<nat>)
    ensures Selects(lines, pos, DropDefaults(lines))
  {
    pos := [];
    if lines != [] {
      var front, l := lines[..|lines| - 1], lines[|lines| - 1];
      pos := DropDefaultsSelects(front);
      SelectsSnoc(front, pos, DropDefaults(front), l);
      assert front + [l] == lines && DropDefaults(front) + [] == DropDefaults(front);
      if !l.Default? {
        pos := pos + [|front|];
      }
    }
  }
}
