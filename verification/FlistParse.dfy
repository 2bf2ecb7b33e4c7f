/**
 The strict filelist parser. Every line is blank, a comment, an entry or a fault, and the first fault
 ends the parse; entries keep their order and line numbers.
 */
module FlistParse {
  import opened FlistPath
  import opened FlistCanon

  // ---------- white space ----------

  /** What str.strip removes. */
  predicate Space(c: char) {
    '\t' <= c <= '\r' || '\U{1C}' <= c <= ' ' || c in "\U{85}\U{A0}\U{1680}\U{2028}\U{2029}\U{202F}\U{205F}\U{3000}" ||
    '\U{2000}' <= c <= '\U{200A}'
  }

  predicate AllSpace(s: string) {
    forall i :: 0 <= i < |s| ==> Space(s[i])
  }

  function StripRight(s: string): string {
    if s != "" && Space(s[|s| - 1]) then StripRight(s[..|s| - 1]) else s
  }

  function StripLeft(s: string): string {
    if s != "" && Space(s[0]) then StripLeft(s[1..]) else s
  }

  function Strip(s: string): string {
    StripLeft(StripRight(s))
  }

  predicate StartsTight(s: string) {
    s != "" ==> !Space(s[0])
  }

  predicate EndsTight(s: string) {
    s != "" ==> !Space(s[|s| - 1])
  }

  lemma {:induction false} StripRightSplits(s: string) returns (right: string)
    ensures s == StripRight(s) + right && AllSpace(right) && EndsTight(StripRight(s))
  {
    right := "";
    if s != "" && Space(s[|s| - 1]) {
      right := StripRightSplits(s[..|s| - 1]);
      right := right + [s[|s| - 1]];
      assert s == s[..|s| - 1] + [s[|s| - 1]];
    }
  }

  lemma {:induction false} StripLeftSplits(s: string) returns (left: string)
    ensures s == left + StripLeft(s) && AllSpace(left) && StartsTight(StripLeft(s))
  {
    left := "";
    if s != "" && Space(s[0]) {
      left := StripLeftSplits(s[1..]);
      left := [s[0]] + left;
      assert s == [s[0]] + s[1..];
    }
  }

  lemma SuffixEndsTight(front: string, s: string)
    requires EndsTight(front + s)
    ensures EndsTight(s)
  {
    if s != "" {
      assert (front + s)[|front + s| - 1] == s[|s| - 1];
    }
  }

  /** Stripping removes exactly the white space around the text. */
  lemma StripMeaning(s: string) returns (left: string, right: string)
    ensures s == left + Strip(s) + right && AllSpace(left) && AllSpace(right)
    ensures StartsTight(Strip(s)) && EndsTight(Strip(s))
  {
    right := StripRightSplits(s);
    left := StripLeftSplits(StripRight(s));
    SuffixEndsTight(left, Strip(s));
  }

  // ---------- lines ----------

  datatype Kind = Define | Incdir | Include | Src | Abs

  datatype Reason = BareVariable | EmptyDefine | EmptyIncdir | MalformedInclude | UnsupportedDirective | MultiToken

  datatype Entry = Macro(value: string) | Path(kind: Kind, raw: string)

  /** What one line is, before any path is expanded. */
  datatype Line = Blank | Comment | Fault(reason: Reason) | Item(entry: Entry)

  predicate BareAt(s: string, i: nat) {
    i + 1 < |s| && s[i] == '$' && IdentStart(s[i + 1])
  }

  predicate HasBareVariable(s: string) {
    exists i :: 0 <= i < |s| && BareAt(s, i)
  }

  function Classify(line: string): Line {
    if line == "" then Blank
    else if StartsWith(line, "//") || StartsWith(line, "#") then Comment
    else if HasBareVariable(line) then Fault(BareVariable)
    else if StartsWith(line, "+define+") then
      if |line| == 8 then Fault(EmptyDefine) else Item(Macro(line[8..]))
    else if StartsWith(line, "+incdir+") then
      if |line| == 8 then Fault(EmptyIncdir) else Item(Path(Incdir, line[8..]))
    else if StartsWith(line, "-f ") || StartsWith(line, "-F ") then
      var val := Strip(line[3..]);
      if val == "" || ' ' in val then Fault(MalformedInclude) else Item(Path(Include, val))
    else if StartsWith(line, "+") || StartsWith(line, "-") then Fault(UnsupportedDirective)
    else if ' ' in line || '\t' in line then Fault(MultiToken)
    else Item(Path(Src, line))
  }

  /** A stripped line together with what it is. */
  datatype Token = Token(text: string, line: Line)

  function Read(line: string): Token {
    Token(Strip(line), Classify(Strip(line)))
  }

  function Tokens(lines: seq<string>): (ts: seq<Token>)
    ensures |ts| == |lines|
  {
    if lines == [] then [] else Tokens(lines[..|lines| - 1]) + [Read(lines[|lines| - 1])]
  }

  lemma {:induction false} TokenAt(lines: seq<string>, i: nat)
    requires i < |lines|
    ensures Tokens(lines)[i] == Read(lines[i])
  {
    if i < |lines| - 1 {
      TokenAt(lines[..|lines| - 1], i);
    }
  }

  // ---------- records ----------

  /** The identity of an entry; everything else is provenance. */
  datatype Id = Id(kind: Kind, value: string)

  datatype Record = Record(id: Id, file: string, lineno: nat, raw: string)

  datatype Note = Note(lineno: nat, text: string)

  function Identity(e: Entry, root: string): Id {
    match e
    case Macro(value) => Id(Define, value)
    case Path(kind, raw) =>
      var canon := CanonPath(raw, root);
      Id(if canon.absolute then Abs else kind, canon.value)
  }

  /** The identities given out under a root. */
  function Naming(root: string): Entry -> Id {
    e => Identity(e, root)
  }

  function RecordOf(t: Token, file: string, lineno: nat, name: Entry -> Id): seq<Record> {
    if t.line.Item? then [Record(name(t.line.entry), file, lineno, t.text)] else []
  }

  function Records(ts: seq<Token>, file: string, name: Entry -> Id): seq<Record> {
    if ts == [] then []
    else Records(ts[..|ts| - 1], file, name) + RecordOf(ts[|ts| - 1], file, |ts|, name)
  }

  function NoteOf(t: Token, lineno: nat): seq<Note> {
    if t.line.Comment? then [Note(lineno, t.text)] else []
  }

  function Notes(ts: seq<Token>): seq<Note> {
    if ts == [] then [] else Notes(ts[..|ts| - 1]) + NoteOf(ts[|ts| - 1], |ts|)
  }

  predicate FaultFree(ts: seq<Token>) {
    forall i :: 0 <= i < |ts| ==> !ts[i].line.Fault?
  }

  datatype Parsed =
    | Ok(records: seq<Record>, comments: seq<Note>)
    | Error(lineno: nat, text: string, reason: Reason)

  lemma TokenStep(ts: seq<Token>, i: nat, file: string, name: Entry -> Id)
    requires i < |ts| && FaultFree(ts[..i])
    ensures FaultFree(ts[..i + 1]) <==> !ts[i].line.Fault?
    ensures ts[i].line.Fault? ==> !FaultFree(ts)
    ensures Records(ts[..i + 1], file, name) == Records(ts[..i], file, name) + RecordOf(ts[i], file, i + 1, name)
    ensures Notes(ts[..i + 1]) == Notes(ts[..i]) + NoteOf(ts[i], i + 1)
  {
    assert ts[..i + 1][..i] == ts[..i];
    assert ts[..i + 1] == ts[..i] + [ts[i]];
  }

  /** Parses up to the first faulty line, which is reported. */
  method ParseLines(lines: seq<string>, file: string, root: string) returns (r: Parsed)
    ensures r.Ok? <==> FaultFree(Tokens(lines))
    ensures r.Ok? ==> r == Ok(Records(Tokens(lines), file, Naming(root)), Notes(Tokens(lines)))
    ensures r.Error? ==>
              1 <= r.lineno <= |lines| && Tokens(lines)[r.lineno - 1] == Token(r.text, Fault(r.reason)) &&
              FaultFree(Tokens(lines)[..r.lineno - 1])
  {
    ghost var ts, name := Tokens(lines), Naming(root);
    var records: seq<Record>, comments: seq<Note> := [], [];
    for i := 0 to |lines|
      invariant FaultFree(ts[..i])
      invariant records == Records(ts[..i], file, name) && comments == Notes(ts[..i])
    {
      TokenAt(lines, i);
      TokenStep(ts, i, file, name);
      var t := Read(lines[i]);
      var text := t.text;
      match t.line {
        case Blank =>
        case Comment => comments := comments + [Note(i + 1, text)];
        case Fault(reason) => return Error(i + 1, text, reason);
        case Item(Macro(value)) => records := records + [Record(Id(Define, value), file, i + 1, text)];
        case Item(Path(kind, raw)) =>
          var canon := CanonPath(raw, root);
          records := records + [Record(Id(if canon.absolute then Abs else kind, canon.value), file, i + 1, text)];
      }
    }
    assert ts[..|lines|] == ts;
    return Ok(records, comments);
  }
}
