/**
 The recursive include walk as it runs: one mutable seen-set for the whole walk, growing output lists,
 and the first problem ending everything.
 */
module FlistFollow {
  import opened Common
  import opened FlistPath
  import opened FlistParse
  import opened FlistIncludes

  datatype Expansion = Refused | Expanded(records: seq<Record>, comments: seq<Note>)

  lemma {:induction false} FailureStays(d: Disk, rs: seq<Record>, i: nat, seen: set<string>)
    requires i <= |rs| && ExpandAll(d, rs[..i], seen) == Fail
    ensures ExpandAll(d, rs, seen) == Fail
  {
    if i == |rs| {
      assert rs[..i] == rs;
    } else {
      var front := rs[..|rs| - 1];
      assert front[..i] == rs[..i];
      FailureStays(d, front, i, seen);
    }
  }

  lemma ExpandStep(d: Disk, rs: seq<Record>, i: nat, seen: set<string>)
    requires i < |rs| && ExpandAll(d, rs[..i], seen).Done?
    ensures var o := ExpandAll(d, rs[..i], seen);
            ExpandAll(d, rs[..i + 1], seen) ==
            match d.Followed(rs[i])
            case None => Done(o.records + [rs[i]], o.comments, o.seen)
            case Some(path) =>
              match Expand(d, path, o.seen)
              case Fail => Fail
              case Done(sub, comments, after) => Done(o.records + [rs[i]] + sub, o.comments + comments, after)
  {
    assert rs[..i + 1][..i] == rs[..i];
  }

  /** Reads and parses one file. */
  method ParseFile(d: Disk, path: string) returns (r: Expansion)
    ensures r.Expanded? <==> d.Readable(path)
    ensures r.Expanded? ==> r == Expanded(d.Entries(path), d.Remarks(path))
  {
    if d.Real(path) !in d.files {
      return Refused;
    }
    var parsed := ParseLines(d.files[d.Real(path)], path, d.root);
    match parsed {
      case Error(_, _, _) => return Refused;
      case Ok(records, comments) => return Expanded(records, comments);
    }
  }

  class Walk {
    const disk: Disk
    var seen: set<string>

    constructor (disk: Disk)
      ensures this.disk == disk && seen == {}
    {
      this.disk := disk;
      seen := {};
    }

    /** Expands one file; the seen-set afterwards holds every file read so far. */
    method Follow(path: string) returns (r: Expansion)
      modifies this
      ensures r.Expanded? ==> Expand(disk, path, old(seen)) == Done(r.records, r.comments, seen)
      ensures r.Refused? ==> Expand(disk, path, old(seen)) == Fail
      decreases |Unseen(disk, seen)|, 1, 0
    {
      var here := disk.Real(path);
      if here in seen {
        return Refused;
      }
      ghost var before := seen;
      seen := seen + {here};
      UnseenShrinks(disk, before, seen);
      var parsed := ParseFile(disk, path);
      if parsed.Refused? {
        return Refused;
      }
      var below := FollowAll(parsed.records);
      if below.Refused? {
        return Refused;
      }
      return Expanded(below.records, parsed.comments + below.comments);
    }

    /** The loop over the records of one file. */
    method FollowAll(rs: seq<Record>) returns (r: Expansion)
      modifies this
      ensures r.Expanded? ==> ExpandAll(disk, rs, old(seen)) == Done(r.records, r.comments, seen)
      ensures r.Refused? ==> ExpandAll(disk, rs, old(seen)) == Fail
      decreases |Unseen(disk, seen)|, 2, |rs|
    {
      ghost var start := seen;
      var out: seq<Record>, comments: seq<Note> := [], [];
      for i := 0 to |rs|
        invariant start <= seen
        invariant ExpandAll(disk, rs[..i], start) == Done(out, comments, seen)
      {
        ExpandStep(disk, rs, i, start);
        out := out + [rs[i]];
        var target := disk.Followed(rs[i]);
        if target.Some? {
          UnseenShrinks(disk, start, seen);
          var sub := Follow(target.value);
          if sub.Refused? {
            FailureStays(disk, rs, i + 1, start);
            return Refused;
          }
          out, comments := out + sub.records, comments + sub.comments;
        }
      }
      assert rs[..|rs|] == rs;
      return Expanded(out, comments);
    }
  }

  // ---------- including a file twice ----------

  lemma ReadInclude()
    ensures Read("-f b") == Token("-f b", Item(Path(Include, "b")))
  {
    var s := "-f b";
    assert !Space(s[3]) && !Space(s[0]);
    assert StripRight(s) == s && StripLeft(s) == s;
    assert s[3..] == "b" && Strip("b") == "b";
    assert forall i :: 0 <= i < |s| ==> !BareAt(s, i);
  }

  const INCLUDE_B := Token("-f b", Item(Path(Include, "b")))

  function TwiceDisk(): Disk {
    Disk(map["a" := ["-f b", "-f b"], "b" := []], p => p, _ => Some("b"), "/r")
  }

  lemma TwiceTokens()
    ensures Tokens(["-f b", "-f b"]) == [INCLUDE_B, INCLUDE_B]
  {
    ReadInclude();
    TokenAt(["-f b", "-f b"], 0);
    TokenAt(["-f b", "-f b"], 1);
  }

  lemma TwiceFiles()
    ensures var d := TwiceDisk(); d.files["a"] == ["-f b", "-f b"] && d.files["b"] == []
  {
    assert "a"[0] != "b"[0];
  }

  lemma IncludesB(root: string)
    ensures Naming(root)(INCLUDE_B.line.entry).kind == Include
  {
    assert "b"[0] != '/';
  }

  lemma TwiceRecords(name: Entry -> Id)
    requires name(INCLUDE_B.line.entry).kind == Include
    ensures var rs := Records([INCLUDE_B, INCLUDE_B], "a", name);
            |rs| == 2 && rs[0].id.kind == rs[1].id.kind == Include
  {
    var ts := [INCLUDE_B, INCLUDE_B];
    assert ts[..1] == [INCLUDE_B] && [INCLUDE_B][..0] == [];
    assert Records([INCLUDE_B], "a", name) == Records([], "a", name) + RecordOf(INCLUDE_B, "a", 1, name);
    assert Records(ts, "a", name) == Records([INCLUDE_B], "a", name) + RecordOf(INCLUDE_B, "a", 2, name);
  }

  lemma TwiceEntries()
    ensures var d := TwiceDisk();
            d.Readable("a") && d.Readable("b") && d.Entries("b") == [] && |d.Entries("a")| == 2 &&
            IncludesAt(d, d.Entries("a"), 0, "b") && IncludesAt(d, d.Entries("a"), 1, "b")
  {
    TwiceTokens();
    TwiceFiles();
    IncludesB("/r");
    TwiceRecords(Naming("/r"));
    var d := TwiceDisk();
    assert d.Readable("a") && d.Readable("b");
    assert d.Followed(d.Entries("a")[0]) == Some("b");
  }

  /** A file system without any cycle, whose unfolding is finite, and which is refused all the same. */
  lemma TwiceIsRefused() returns (d: Disk, t: Tree)
    ensures Unfolds(d, t) && t.path == "a" && Reads(d, t) == ["a", "b", "b"]
    ensures Expand(d, "a", {}) == Fail
  {
    d := TwiceDisk();
    TwiceEntries();
    var kid := Node("b", Empty);
    assert Unfolds(d, kid);
    t := Node("a", Branch(Branch(Empty, kid), kid));
    var rs := d.Entries("a");
    assert rs[..1][..0] == [] && rs[..1][0] == rs[0];
    DiamondIsRejected(d, "a", 0, 1, ["b"], ["b"]);
  }
}
