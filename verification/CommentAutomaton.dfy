/**
 The comment stripper against a character-by-character automaton: a position survives exactly when the
 automaton, reading one character at a time, is outside comments there, or at a newline that counts.
 */
module CommentAutomaton {
  import opened CommentStripper

  /** What the automaton is in the middle of. */
  datatype Mode = Code | Line | BlockOpen | Block | BlockEnd | Literal | Escaped

  predicate IsAt(src: string, p: int, c: char) {
    0 <= p < |src| && src[p] == c
  }

  /** The mode after reading the character at p. */
  function Advanced(m: Mode, src: string, p: nat): Mode
    requires p < |src|
  {
    match m
    case Code =>
      if src[p] == '/' && IsAt(src, p + 1, '/') then Line
      else if src[p] == '/' && IsAt(src, p + 1, '*') then BlockOpen
      else if src[p] == '"' then Literal
      else Code
    case Line => if src[p] == '\n' then Code else Line
    case BlockOpen => Block
    case Block => if src[p] == '*' && IsAt(src, p + 1, '/') then BlockEnd else Block
    case BlockEnd => Code
    case Literal =>
      if src[p] == '"' then Code else if src[p] == '\\' && p + 1 < |src| then Escaped else Literal
    case Escaped => Literal
  }

  /** The mode before reading the character at p. */
  function ModeAt(src: string, p: nat): Mode
    requires p <= |src|
  {
    if p == 0 then Code else Advanced(ModeAt(src, p - 1), src, p - 1)
  }

  /** A block comment open at p is closed somewhere. */
  ghost predicate Closes(src: string, p: nat) {
    exists q: nat :: p <= q && ClosesAt(src, q)
  }

  predicate ClosesAt(src: string, q: nat) {
    IsAt(src, q, '*') && IsAt(src, q + 1, '/')
  }

  /** Whether the character at p survives. */
  ghost predicate Keeps(src: string, p: nat)
    requires p < |src|
  {
    match ModeAt(src, p)
    case Code => !(src[p] == '/' && (IsAt(src, p + 1, '/') || IsAt(src, p + 1, '*')))
    case Line => src[p] == '\n'
    case BlockOpen => false
    case Block => src[p] == '\n' && Closes(src, p)
    case BlockEnd => false
    case Literal => true
    case Escaped => true
  }

  // ---------- inside one token ----------

  lemma {:induction false} LineRun(src: string, i: nat, k: nat)
    requires i < k <= |src| && ModeAt(src, i) == Code && LineComment(src, i)
    requires forall p :: i <= p < k ==> src[p] != '\n'
    ensures ModeAt(src, k) == Line
  {
    if k > i + 1 {
      LineRun(src, i, k - 1);
    }
  }

  lemma {:induction false} FindCloseIsFirst(src: string, i: nat)
    ensures forall q: nat :: i <= q < FindClose(src, i) ==> !ClosesAt(src, q)
    ensures FindClose(src, i) < |src| ==> ClosesAt(src, FindClose(src, i))
    decreases |src| - i
  {
    if i + 1 < |src| && !(src[i] == '*' && src[i + 1] == '/') {
      FindCloseIsFirst(src, i + 1);
    }
  }

  lemma {:induction false} BlockRun(src: string, i: nat, k: nat)
    requires i + 2 <= k <= |src| && ModeAt(src, i) == Code && BlockComment(src, i)
    requires forall q: nat :: i + 2 <= q < k ==> !ClosesAt(src, q)
    ensures ModeAt(src, i + 1) == BlockOpen && ModeAt(src, k) == Block
  {
    if k > i + 2 {
      BlockRun(src, i, k - 1);
      assert !ClosesAt(src, k - 1);
    }
  }

  /** From inside a literal up to its closing quote the automaton stays inside. */
  lemma {:induction false} LiteralRun(src: string, j: nat, p: nat)
    requires j <= |src| && j <= p <= StringEnd(src, j) && ModeAt(src, j) == Literal
    ensures ModeAt(src, p) in {Literal, Escaped}
    ensures p == StringEnd(src, j) && p < |src| ==> ModeAt(src, p) == Literal
    decreases |src| - j
  {
    if p > j {
      if src[j] == '\\' && j + 1 < |src| {
        if p > j + 1 {
          LiteralRun(src, j + 2, p);
        }
      } else {
        LiteralRun(src, j + 1, p);
      }
    }
  }

  /** Where a token may start. */
  predicate AtToken(src: string, i: nat)
    requires i < |src|
  {
    ModeAt(src, i) == Code || (ModeAt(src, i) == Line && src[i] == '\n')
  }

  /** The token at i keeps exactly what the automaton keeps. */
  ghost predicate TokenAgrees(src: string, i: nat)
    requires i < |src|
  {
    forall p: nat :: i <= p < Step(src, i).next ==> (p in Step(src, i).keep <==> Keeps(src, p))
  }

  /** The next token may start where this one ends. */
  predicate EndsAtToken(src: string, i: nat)
    requires i < |src|
  {
    Step(src, i).next < |src| ==> AtToken(src, Step(src, i).next)
  }

  lemma LineToken(src: string, i: nat)
    requires i < |src| && ModeAt(src, i) == Code && LineComment(src, i)
    ensures TokenAgrees(src, i) && EndsAtToken(src, i)
  {
    var j := FindNewline(src, i);
    FindNewlineIsFirst(src, i);
    forall p: nat | i < p <= j
      ensures ModeAt(src, p) == Line
    {
      LineRun(src, i, p);
    }
  }

  lemma BlockToken(src: string, i: nat)
    requires i < |src| && ModeAt(src, i) == Code && BlockComment(src, i)
    ensures TokenAgrees(src, i) && EndsAtToken(src, i)
  {
    var j := FindClose(src, i + 2);
    FindCloseIsFirst(src, i + 2);
    forall p: nat | i + 2 <= p <= j && p <= |src|
      ensures ModeAt(src, p) == Block
    {
      BlockRun(src, i, p);
    }
    BlockRun(src, i, i + 2);
    if j < |src| {
      assert ModeAt(src, j) == Block;
      AfterClose(src, j);
      ClosedBlock(src, i, j);
    } else {
      OpenBlock(src, i);
    }
  }

  lemma AfterClose(src: string, j: nat)
    requires ClosesAt(src, j) && ModeAt(src, j) == Block
    ensures ModeAt(src, j + 1) == BlockEnd && ModeAt(src, j + 2) == Code
  {
    assert ModeAt(src, j + 1) == Advanced(Block, src, j);
    assert ModeAt(src, j + 2) == Advanced(BlockEnd, src, j + 1);
  }

  lemma NewlinesIff(src: string, i: nat, j: nat, p: nat)
    requires i <= j <= |src|
    ensures p in Newlines(src, i, j) <==> i <= p < j && src[p] == '\n'
  {
    NewlinesAreAll(src, i, j);
    NewlinesAreNewlines(src, i, j);
    if p in Newlines(src, i, j) {
      var k :| 0 <= k < |Newlines(src, i, j)| && Newlines(src, i, j)[k] == p;
      assert src[Newlines(src, i, j)[k]] == '\n';
    }
  }

  lemma ClosedBlock(src: string, i: nat, j: nat)
    requires i + 2 <= j && j + 1 < |src| && BlockComment(src, i) && j == FindClose(src, i + 2) && ClosesAt(src, j)
    requires ModeAt(src, i) == Code && ModeAt(src, i + 1) == BlockOpen
    requires ModeAt(src, j + 1) == BlockEnd && ModeAt(src, j + 2) == Code
    requires forall p: nat :: i + 2 <= p <= j ==> ModeAt(src, p) == Block
    ensures TokenAgrees(src, i) && EndsAtToken(src, i)
  {
    var t := Step(src, i);
    assert t == Token(j + 2, Newlines(src, i + 2, j));
    forall p: nat | i <= p < j + 2
      ensures p in t.keep <==> Keeps(src, p)
    {
      NewlinesIff(src, i + 2, j, p);
      if i + 2 <= p < j {
        assert Closes(src, p);
      }
    }
  }

  lemma OpenBlock(src: string, i: nat)
    requires i + 1 < |src| && BlockComment(src, i) && FindClose(src, i + 2) == |src|
    requires ModeAt(src, i) == Code && ModeAt(src, i + 1) == BlockOpen
    requires forall p: nat :: i + 2 <= p <= |src| ==> ModeAt(src, p) == Block
    requires forall q: nat :: i + 2 <= q < |src| ==> !ClosesAt(src, q)
    ensures TokenAgrees(src, i) && EndsAtToken(src, i)
  {
    assert Step(src, i) == Token(|src|, []);
    forall p: nat | i <= p < |src|
      ensures !Keeps(src, p)
    {
    }
  }

  lemma LiteralToken(src: string, i: nat)
    requires i < |src| && ModeAt(src, i) == Code && src[i] == '"'
    ensures TokenAgrees(src, i) && EndsAtToken(src, i)
  {
    var j := StringEnd(src, i + 1);
    var t := Step(src, i);
    forall p: nat | i < p < t.next
      ensures Keeps(src, p)
    {
      LiteralRun(src, i + 1, p);
    }
    forall p: nat | i <= p < t.next
      ensures p in t.keep
    {
      assert Range(i, t.next)[p - i] == p;
    }
    if j < |src| {
      LiteralRun(src, i + 1, j);
    }
  }

  lemma EveryToken(src: string, i: nat)
    requires i < |src| && AtToken(src, i)
    ensures TokenAgrees(src, i) && EndsAtToken(src, i)
  {
    if ModeAt(src, i) == Code {
      if LineComment(src, i) {
        LineToken(src, i);
      } else if BlockComment(src, i) {
        BlockToken(src, i);
      } else if src[i] == '"' {
        LiteralToken(src, i);
      }
    }
  }

  // ---------- the whole text ----------

  /** What survives is exactly what the automaton keeps. */
  lemma {:induction false} KeptIff(src: string, i: nat, p: nat)
    requires i <= p < |src| && AtToken(src, i)
    ensures p in Kept(src, i) <==> Keeps(src, p)
    decreases |src| - i
  {
    var t := Step(src, i);
    EveryToken(src, i);
    if p >= t.next {
      KeptIff(src, t.next, p);
      assert p !in t.keep;
    } else {
      assert p !in Kept(src, t.next);
    }
  }

  /** A character is in the output iff the automaton keeps it; the output lists them in order. */
  lemma StripMeaning(src: string)
    ensures Strip(src, 0) == Project(src, Kept(src, 0)) && Increasing(Kept(src, 0))
    ensures forall p: nat :: p < |src| ==> (p in Kept(src, 0) <==> Keeps(src, p))
  {
    StripIsProjection(src, 0);
    KeptIncreases(src, 0);
    forall p: nat | p < |src|
      ensures p in Kept(src, 0) <==> Keeps(src, p)
    {
      KeptIff(src, 0, p);
    }
  }
}
