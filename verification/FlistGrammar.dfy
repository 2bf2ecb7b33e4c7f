/** The grammar of one filelist line, stated without an order of tests, and the classifier that decides it. */
module FlistGrammar {
  import opened FlistPath
  import opened FlistParse

  /** The stripped line spells the entry. */
  predicate Spells(line: string, e: Entry) {
    !HasBareVariable(line) &&
    match e
    case Macro(v) => v != "" && line == "+define+" + v
    case Path(Incdir, v) => v != "" && line == "+incdir+" + v
    case Path(Include, v) => |line| >= 3 && line[..3] in {"-f ", "-F "} && v == Strip(line[3..]) && v != "" && ' ' !in v
    case Path(Src, v) => line == v && v != "" && v[0] !in "+-#" && !("//" <= v) && ' ' !in v && '\t' !in v
    case Path(_, _) => false
  }

  predicate IsComment(line: string) {
    line != "" && (line[0] == '#' || "//" <= line)
  }

  lemma Peel(line: string, prefix: string, v: string)
    requires line == prefix + v
    ensures prefix <= line && line[|prefix|..] == v && |line| == |prefix| + |v|
  {
  }

  lemma Rebuild(line: string, prefix: string)
    requires prefix <= line
    ensures line == prefix + line[|prefix|..]
  {
  }

  /** A spelled entry is read back. */
  lemma SpelledIsRead(line: string, e: Entry)
    requires Spells(line, e)
    ensures Classify(line) == Item(e)
  {
    match e
    case Macro(v) =>
      Peel(line, "+define+", v);
      assert line[0] == '+';
    case Path(Incdir, v) =>
      Peel(line, "+incdir+", v);
      assert line[0] == '+' && line[1] == 'i';
    case Path(Include, v) =>
      assert line[0] == line[..3][0] == '-';
    case Path(Src, v) =>
      assert v[0] != '+' && v[0] != '-' && v[0] != '#';
    case Path(_, _) =>
  }

  /** What is read as an entry is spelled. */
  lemma ReadIsSpelled(line: string, e: Entry)
    requires Classify(line) == Item(e)
    ensures Spells(line, e)
  {
    if "+define+" <= line {
      Rebuild(line, "+define+");
    } else if "+incdir+" <= line {
      Rebuild(line, "+incdir+");
    } else if "-f " <= line {
      assert line[..3] == "-f ";
    } else if "-F " <= line {
      assert line[..3] == "-F ";
    } else {
      assert line[0] !in "+-#" by {
        assert line[..1] == [line[0]];
      }
    }
  }

  /** Every line is blank, a comment, the spelling of exactly one entry, or a fault. */
  lemma LineGrammar(line: string, e: Entry)
    ensures Classify(line) == Item(e) <==> Spells(line, e)
    ensures Classify(line).Blank? <==> line == ""
    ensures Classify(line).Comment? <==> IsComment(line)
    ensures Classify(line).Fault? <==> line != "" && !IsComment(line) && !exists other :: Spells(line, other)
  {
    if Spells(line, e) {
      SpelledIsRead(line, e);
    }
    if Classify(line) == Item(e) {
      ReadIsSpelled(line, e);
    }
    if Classify(line).Item? {
      ReadIsSpelled(line, Classify(line).entry);
    }
    if other :| Spells(line, other) {
      SpelledIsRead(line, other);
    }
    CommentsAreSeen(line);
  }

  lemma CommentsAreSeen(line: string)
    ensures Classify(line).Comment? <==> IsComment(line)
  {
    assert "#" <= line <==> line != "" && line[0] == '#';
  }
}
