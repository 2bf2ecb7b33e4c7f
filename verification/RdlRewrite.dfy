/**
 The RDL source rewrite: dynamic property assignments that directly follow a field are moved into the
 field's body.  Lines are already matched against the tool's line patterns.
 */
module RdlRewrite {
  import opened Common

  /** A property with its value; no value for a boolean property. */
  datatype Prop = Prop(name: string, value: Option<string>)

  datatype Line =
    | Field(indent: string, body: seq<Prop>, name: string, width: string, reset: string, comment: string)
    | Assign(indent: string, target: string, prop: Prop)
    | Default(side: string, access: string)
    | Other(text: string)

  const INLINE_PROPS := {"hw", "sw", "singlepulse", "rclr", "woclr", "woset", "swmod", "onread", "onwrite"}

  predicate Inlinable(l: Line) {
    l.Assign? && l.prop.name in INLINE_PROPS
  }

  // ---------- the rewrite ----------

  predicate AssignsTo(l: Line, name: string) {
    l.Assign? && l.target == name
  }

  /** First line at or after j that is not an assignment to the field. */
  function RunEnd(lines: seq<Line>, j: nat, name: string): (e: nat)
    requires j <= |lines|
    ensures j <= e <= |lines|
    decreases |lines| - j
  {
    if j < |lines| && AssignsTo(lines[j], name) then RunEnd(lines, j + 1, name) else j
  }

  /** The properties of the inlinable assignments in a run of assignments. */
  function Inlined(run: seq<Line>): seq<Prop> {
    if run == [] then []
    else Inlined(run[..|run| - 1]) + (if Inlinable(run[|run| - 1]) then [run[|run| - 1].prop] else [])
  }

  /** The other lines of the run, which stay in place. */
  function Remaining(run: seq<Line>): seq<Line> {
    if run == [] then []
    else Remaining(run[..|run| - 1]) + (if Inlinable(run[|run| - 1]) then [] else [run[|run| - 1]])
  }

  function Run(lines: seq<Line>, i: nat): seq<Line>
    requires i < |lines| && lines[i].Field?
  {
    lines[i + 1..RunEnd(lines, i + 1, lines[i].name)]
  }

  /** The field at i absorbs something. */
  predicate Absorbs(lines: seq<Line>, i: nat)
    requires i < |lines|
  {
    lines[i].Field? && Inlined(Run(lines, i)) != []
  }

  function NewField(f: Line, props: seq<Prop>): Line
    requires f.Field?
  {
    f.(body := f.body + props, comment := "")
  }

  /** First pass, from line i on. */
  function Rewrite(lines: seq<Line>, i: nat): seq<Line>
    requires i <= |lines|
    decreases |lines| - i
  {
    if i == |lines| then []
    else if Absorbs(lines, i) then
      [NewField(lines[i], Inlined(Run(lines, i)))] + Remaining(Run(lines, i))
      + Rewrite(lines, RunEnd(lines, i + 1, lines[i].name))
    else [lines[i]] + Rewrite(lines, i + 1)
  }

  /** Whether the first pass, from line i on, inlines anything. */
  predicate AnyInlined(lines: seq<Line>, i: nat)
    requires i <= |lines|
    decreases |lines| - i
  {
    i < |lines| && (Absorbs(lines, i) || AnyInlined(lines, i + 1))
  }

  function DropDefaults(lines: seq<Line>): seq<Line> {
    if lines == [] then []
    else DropDefaults(lines[..|lines| - 1]) + (if lines[|lines| - 1].Default? then [] else [lines[|lines| - 1]])
  }

  function Preprocess(lines: seq<Line>): seq<Line> {
    if AnyInlined(lines, 0) then DropDefaults(Rewrite(lines, 0)) else Rewrite(lines, 0)
  }

  // ---------- the program ----------

  /** The lookahead from a field: its inlinable properties, the lines left over, and where it stops. */
  method LookAhead(lines: seq<Line>, i: nat) returns (props: seq<Prop>, rest: seq<Line>, j: nat)
    requires i < |lines| && lines[i].Field?
    ensures j == RunEnd(lines, i + 1, lines[i].name)
    ensures props == Inlined(Run(lines, i)) && rest == Remaining(Run(lines, i))
  {
    props, rest, j := [], [], i + 1;
    while j < |lines| && AssignsTo(lines[j], lines[i].name)
      invariant i < j <= |lines| && RunEnd(lines, j, lines[i].name) == RunEnd(lines, i + 1, lines[i].name)
      invariant props == Inlined(lines[i + 1..j]) && rest == Remaining(lines[i + 1..j])
    {
      assert lines[i + 1..j + 1][..j - i - 1] == lines[i + 1..j];
      if Inlinable(lines[j]) {
        props := props + [lines[j].prop];
      } else {
        rest := rest + [lines[j]];
      }
      j := j + 1;
    }
  }

  method PreprocessRdl(lines: seq<Line>) returns (out: seq<Line>)
    ensures out == Preprocess(lines)
  {
    out := [];
    var inlined := false;
    var i := 0;
    ghost var rest := Rewrite(lines, 0);
    while i < |lines|
      invariant 0 <= i <= |lines| && rest == Rewrite(lines, i)
      invariant out + rest == Rewrite(lines, 0)
      invariant AnyInlined(lines, 0) == (inlined || AnyInlined(lines, i))
    {
      var block, next, absorbed := Block(lines, i);
      ghost var after := Rewrite(lines, next);
      assert out + (block + after) == (out + block) + after;
      out, i, rest := out + block, next, after;
      inlined := inlined || absorbed;
    }
    assert out == out + rest;
    if inlined {
      out := Filtered(out);
    }
  }

  /** One turn of the main loop: the lines it emits, where it goes on, and whether it inlined. */
  method Block(lines: seq<Line>, i: nat) returns (block: seq<Line>, next: nat, absorbed: bool)
    requires i < |lines|
    ensures i < next <= |lines| && Rewrite(lines, i) == block + Rewrite(lines, next)
    ensures AnyInlined(lines, i) == (absorbed || AnyInlined(lines, next))
  {
    if lines[i].Field? {
      var props, rest, j := LookAhead(lines, i);
      if props != [] {
        return [NewField(lines[i], props)] + rest, j, true;
      }
    }
    return [lines[i]], i + 1, false;
  }

  method Filtered(lines: seq<Line>) returns (out: seq<Line>)
    ensures out == DropDefaults(lines)
  {
    out := [];
    for i := 0 to |lines|
      invariant out == DropDefaults(lines[..i])
    {
      assert lines[..i + 1][..i] == lines[..i];
      if !lines[i].Default? {
        out := out + [lines[i]];
      }
    }
    assert lines[..|lines|] == lines;
  }

  // ---------- what a file means ----------

  type Props = map<string, Option<string>>

  /** A declared field with its explicit properties. */
  datatype Declared = Declared(name: string, props: Props)

  /** Later writes win. */
  function Write(m: Props, ps: seq<Prop>): Props {
    if ps == [] then m else Write(m, ps[..|ps| - 1])[ps[|ps| - 1].name := ps[|ps| - 1].value]
  }

  /** An assignment goes to the latest field of that name; without one it has no effect. */
  function AssignLatest(fields: seq<Declared>, name: string, p: Prop): seq<Declared> {
    if fields == [] then []
    else
      var last := |fields| - 1;
      if fields[last].name == name
      then fields[..last] + [Declared(name, fields[last].props[p.name := p.value])]
      else AssignLatest(fields[..last], name, p) + [fields[last]]
  }

  function Read(fields: seq<Declared>, l: Line): seq<Declared> {
    match l
    case Field(_, body, name, _, _, _) => fields + [Declared(name, Write(map[], body))]
    case Assign(_, target, p) => AssignLatest(fields, target, p)
    case _ => fields
  }

  /** The explicit properties of every field, reading the file from top to bottom. */
  function Meaning(fields: seq<Declared>, lines: seq<Line>): seq<Declared> {
    if lines == [] then fields else Read(Meaning(fields, lines[..|lines| - 1]), lines[|lines| - 1])
  }

  // ---------- the rewrite preserves meaning ----------

  lemma {:induction false} MeaningSplits(fields: seq<Declared>, a: seq<Line>, b: seq<Line>)
    ensures Meaning(fields, a + b) == Meaning(Meaning(fields, a), b)
  {
    if b == [] {
      assert a + b == a;
    } else {
      MeaningSplits(fields, a, b[..|b| - 1]);
      assert (a + b)[..|a + b| - 1] == a + b[..|b| - 1];
    }
  }

  predicate AllAssignTo(run: seq<Line>, name: string) {
    forall k :: 0 <= k < |run| ==> AssignsTo(run[k], name)
  }

  function PropsOf(run: seq<Line>): seq<Prop>
    requires forall k :: 0 <= k < |run| ==> run[k].Assign?
  {
    seq(|run|, k requires 0 <= k < |run| => run[k].prop)
  }

  /** A run of assignments to the field just declared writes its properties in order. */
  lemma {:induction false} RunMeaning(fields: seq<Declared>, name: string, m: Props, run: seq<Line>)
    requires AllAssignTo(run, name)
    ensures Meaning(fields + [Declared(name, m)], run) == fields + [Declared(name, Write(m, PropsOf(run)))]
  {
    if run != [] {
      var front := run[..|run| - 1];
      RunMeaning(fields, name, m, front);
      var before := fields + [Declared(name, Write(m, PropsOf(front)))];
      assert before[..|before| - 1] == fields;
      assert PropsOf(run)[..|run| - 1] == PropsOf(front);
    } else {
      assert PropsOf(run) == [];
    }
  }

  predicate NoneNamed(ps: seq<Prop>, name: string) {
    forall k :: 0 <= k < |ps| ==> ps[k].name != name
  }

  /** Writing another property first or last makes no difference. */
  lemma {:induction false} WriteCommutes(m: Props, ps: seq<Prop>, p: Prop)
    requires NoneNamed(ps, p.name)
    ensures Write(m[p.name := p.value], ps) == Write(m, ps)[p.name := p.value]
  {
    if ps != [] {
      WriteCommutes(m, ps[..|ps| - 1], p);
    }
  }

  lemma {:induction false} WriteSplits(m: Props, a: seq<Prop>, b: seq<Prop>)
    ensures Write(m, a + b) == Write(Write(m, a), b)
  {
    if b == [] {
      assert a + b == a;
    } else {
      WriteSplits(m, a, b[..|b| - 1]);
      assert (a + b)[..|a + b| - 1] == a + b[..|b| - 1];
    }
  }

  lemma {:induction false} RemainingFacts(run: seq<Line>, name: string)
    requires AllAssignTo(run, name)
    ensures AllAssignTo(Remaining(run), name)
    ensures forall k :: 0 <= k < |Remaining(run)| ==> !Inlinable(Remaining(run)[k])
  {
    if run != [] {
      RemainingFacts(run[..|run| - 1], name);
    }
  }

  lemma WriteLast(m: Props, ps: seq<Prop>, p: Prop)
    ensures Write(m, ps + [p]) == Write(m, ps)[p.name := p.value]
  {
    assert (ps + [p])[..|ps|] == ps;
  }

  lemma PropsOfLast(run: seq<Line>, l: Line)
    requires l.Assign? && forall k :: 0 <= k < |run| ==> run[k].Assign?
    ensures PropsOf(run + [l]) == PropsOf(run) + [l.prop]
  {
  }

  /** Hoisting the inlinable writes to the front leaves the last-write-wins map unchanged. */
  lemma {:induction false} HoistingIsHarmless(m: Props, run: seq<Line>, name: string)
    requires AllAssignTo(run, name)
    ensures AllAssignTo(Remaining(run), name)
    ensures Write(Write(m, Inlined(run)), PropsOf(Remaining(run))) == Write(m, PropsOf(run))
  {
    RemainingFacts(run, name);
    if run == [] {
      assert PropsOf(run) == [] && PropsOf(Remaining(run)) == [];
    } else {
      var front, last := run[..|run| - 1], run[|run| - 1];
      RemainingFacts(front, name);
      HoistingIsHarmless(m, front, name);
      assert run == front + [last];
      HoistOne(m, front, last, name);
    }
  }

  lemma HoistOne(m: Props, front: seq<Line>, last: Line, name: string)
    requires AllAssignTo(front, name) && AssignsTo(last, name) && AllAssignTo(Remaining(front), name)
    requires forall k :: 0 <= k < |Remaining(front)| ==> !Inlinable(Remaining(front)[k])
    requires Write(Write(m, Inlined(front)), PropsOf(Remaining(front))) == Write(m, PropsOf(front))
    requires AllAssignTo(Remaining(front + [last]), name)
    ensures Write(Write(m, Inlined(front + [last])), PropsOf(Remaining(front + [last]))) ==
            Write(m, PropsOf(front + [last]))
  {
    var inl, rest := Inlined(front), Remaining(front);
    assert (front + [last])[..|front|] == front;
    PropsOfLast(front, last);
    WriteLast(m, PropsOf(front), last.prop);
    if Inlinable(last) {
      assert Remaining(front + [last]) == rest;
      WriteLast(m, inl, last.prop);
      WriteCommutes(Write(m, inl), PropsOf(rest), last.prop);
    } else {
      assert Inlined(front + [last]) == inl;
      PropsOfLast(rest, last);
      WriteLast(Write(m, inl), PropsOf(rest), last.prop);
    }
  }

  lemma {:induction false} RunAssigns(lines: seq<Line>, j: nat, name: string)
    requires j <= |lines|
    ensures AllAssignTo(lines[j..RunEnd(lines, j, name)], name)
    decreases |lines| - j
  {
    if j < |lines| && AssignsTo(lines[j], name) {
      RunAssigns(lines, j + 1, name);
      var e := RunEnd(lines, j, name);
      assert lines[j..e] == [lines[j]] + lines[j + 1..e];
    }
  }

  /** One absorbing field: the rewritten block reads like the original one. */
  lemma BlockMeaning(fields: seq<Declared>, lines: seq<Line>, i: nat)
    requires i < |lines| && lines[i].Field?
    ensures var run := Run(lines, i);
            Meaning(fields, [NewField(lines[i], Inlined(run))] + Remaining(run)) == Meaning(fields, [lines[i]] + run)
  {
    var f, run := lines[i], Run(lines, i);
    var g := NewField(f, Inlined(run));
    RunAssigns(lines, i + 1, f.name);
    MeaningSplits(fields, [f], run);
    MeaningSplits(fields, [g], Remaining(run));
    HoistingIsHarmless(Write(map[], f.body), run, f.name);
    ReadsOne(fields, f);
    ReadsOne(fields, g);
    WriteSplits(map[], f.body, Inlined(run));
    RunMeaning(fields, f.name, Write(map[], f.body), run);
    RunMeaning(fields, f.name, Write(map[], g.body), Remaining(run));
  }

  lemma ReadsOne(fields: seq<Declared>, l: Line)
    ensures Meaning(fields, [l]) == Read(fields, l)
  {
    assert [l][..0] == [];
  }

  lemma {:induction false} RewriteMeaning(fields: seq<Declared>, lines: seq<Line>, i: nat)
    requires i <= |lines|
    ensures Meaning(fields, Rewrite(lines, i)) == Meaning(fields, lines[i..])
    decreases |lines| - i
  {
    if i == |lines| {
      assert lines[i..] == [];
    } else if Absorbs(lines, i) {
      var e, run := RunEnd(lines, i + 1, lines[i].name), Run(lines, i);
      var block := [NewField(lines[i], Inlined(run))] + Remaining(run);
      calc {
        Meaning(fields, Rewrite(lines, i));
        Meaning(fields, block + Rewrite(lines, e));
        { MeaningSplits(fields, block, Rewrite(lines, e)); }
        Meaning(Meaning(fields, block), Rewrite(lines, e));
        { RewriteMeaning(Meaning(fields, block), lines, e); }
        Meaning(Meaning(fields, block), lines[e..]);
        { BlockMeaning(fields, lines, i); }
        Meaning(Meaning(fields, [lines[i]] + run), lines[e..]);
        { MeaningSplits(fields, [lines[i]] + run, lines[e..]); }
        Meaning(fields, [lines[i]] + run + lines[e..]);
        { assert lines[i..] == [lines[i]] + run + lines[e..]; }
        Meaning(fields, lines[i..]);
      }
    } else {
      calc {
        Meaning(fields, Rewrite(lines, i));
        { MeaningSplits(fields, [lines[i]], Rewrite(lines, i + 1)); }
        Meaning(Meaning(fields, [lines[i]]), Rewrite(lines, i + 1));
        { RewriteMeaning(Meaning(fields, [lines[i]]), lines, i + 1); }
        Meaning(Meaning(fields, [lines[i]]), lines[i + 1..]);
        { MeaningSplits(fields, [lines[i]], lines[i + 1..]); }
        Meaning(fields, [lines[i]] + lines[i + 1..]);
        { assert lines[i..] == [lines[i]] + lines[i + 1..]; }
        Meaning(fields, lines[i..]);
      }
    }
  }

  lemma {:induction false} DefaultsAreNotExplicit(fields: seq<Declared>, lines: seq<Line>)
    ensures Meaning(fields, DropDefaults(lines)) == Meaning(fields, lines)
  {
    if lines != [] {
      var front, last := lines[..|lines| - 1], lines[|lines| - 1];
      DefaultsAreNotExplicit(fields, front);
      if last.Default? {
        assert DropDefaults(lines) == DropDefaults(front);
      } else {
        assert DropDefaults(lines)[..|DropDefaults(front)|] == DropDefaults(front);
      }
    }
  }

  /** The explicit properties of every field, in order, are the same before and after the rewrite. */
  lemma PreprocessPreservesMeaning(lines: seq<Line>)
    ensures Meaning([], Preprocess(lines)) == Meaning([], lines)
  {
    RewriteMeaning([], lines, 0);
    DefaultsAreNotExplicit([], Rewrite(lines, 0));
    assert lines[0..] == lines;
  }
}
