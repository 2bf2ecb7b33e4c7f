/** The store commands as they work on the file system: directories, links and the index change in place. */
module ArtifactStoreCommands {
  import opened Common
  import opened ArtifactStore

  lemma SingletonMember<T>(s: set<T>, x: T, y: T)
    requires |s| == 1 && x in s && y in s
    ensures x == y
  {
    assert |s - {x}| == 0;
  }

  class Store {
    const sha256: Bytes -> Sha
    var blobs: map<string, Blob>
    var tags: map<string, string>
    var index: map<string, Entry>

    ghost function View(): State
      reads this
    {
      State(blobs, tags, index)
    }

    constructor (sha256: Bytes -> Sha)
      ensures View() == EMPTY && this.sha256 == sha256
    {
      this.sha256 := sha256;
      blobs, tags, index := map[], map[], map[];
    }

    /** A label, a full blob name, or a unique prefix of one. */
    method Resolve(ref: string) returns (r: Resolution)
      ensures r == ArtifactStore.Resolve(View(), ref)
    {
      if ref in blobs {
        return Found(ref);
      }
      if ref in tags && tags[ref] in blobs {
        return Found(tags[ref]);
      }
      var todo, matches := blobs.Keys, {};
      while todo != {}
        invariant todo <= blobs.Keys
        invariant matches == set d | d in blobs && d !in todo && ref <= d
      {
        var d :| d in todo;
        todo := todo - {d};
        if ref <= d {
          matches := matches + {d};
        }
      }
      assert matches == Matches(View(), ref);
      if |matches| == 1 {
        var d :| d in matches;
        SingletonMember(matches, d, ArtifactStore.Resolve(View(), ref).name);
        return Found(d);
      }
      return if |matches| > 1 then Ambiguous else NotFound;
    }

    method AppendResult(name: string, r: Record)
      requires name in blobs
      modifies this`blobs
      ensures View() == AppendRecord(old(View()), name, r)
    {
      blobs := blobs[name := blobs[name].(results := blobs[name].results + [r])];
    }

    /** Copies the given files one by one into the staging directory. */
    method Stage(tmp: string, files: seq<(string, FileArg)>) returns (ok: bool)
      modifies this`blobs
      ensures ok == CopyFiles(files).1
      ensures blobs == old(blobs)[tmp := Blob(CopyFiles(files).0, None, [], map[])]
    {
      blobs := blobs[tmp := Blob(map[], None, [], map[])];
      var i := 0;
      while i < |files|
        invariant 0 <= i <= |files|
        invariant CopyFiles(files[..i]).1
        invariant blobs == old(blobs)[tmp := Blob(CopyFiles(files[..i]).0, None, [], map[])]
      {
        var (name, arg) := files[i];
        assert files[..i + 1][..i] == files[..i];
        if arg.Missing? {
          StopsAtMissing(files, i);
          return false;
        }
        if arg.Given? {
          blobs := blobs[tmp := blobs[tmp].(files := blobs[tmp].files[name := arg.bytes])];
        }
        i := i + 1;
      }
      assert files[..i] == files;
      return true;
    }

    method Add(a: AddArgs) returns (o: Outcome)
      modifies this
      ensures (View(), o) == ApplyAdd(sha256, old(View()), a)
    {
      if !a.master.Given? {
        return Died;
      }
      if a.slave.Missing? {
        return Crashed;
      }
      var sha := sha256(a.master.bytes);
      if sha in blobs {
        var current := blobs[sha].files;
        if MASTER_BIN in current && sha256(current[MASTER_BIN]) != sha {
          return Died;
        }
      } else {
        var tmp := sha + INCOMING;
        var ok := Stage(tmp, NamedFiles(a));
        if !ok {
          return Crashed;
        }
        var files := blobs[tmp].files;
        var manifest := Manifest(sha, SlaveHash(sha256, a.slave), a.meta, a.tag, a.expectedLockMin, a.now, files.Keys);
        blobs := (blobs - {tmp})[sha := blobs[tmp].(manifest := Some(manifest))];
        assert blobs == (old(blobs) - {tmp})[sha := Blob(files, Some(NewManifest(sha256, a)), [], map[])];
      }
      tags := tags[a.tag := sha];
      index := index[a.tag := Entry(sha, MetaOf(blobs[sha]), "blobs/" + sha)];
      if a.note.Some? && a.note.value != "" {
        AppendResult(sha, Record(a.now, "(add)", "", a.note.value));
      }
      return Done;
    }

    /** Drops index entries whose tag is gone. */
    method List() returns (o: Outcome)
      modifies this`index
      ensures (View(), o) == Apply(sha256, old(View()), Command.List)
    {
      var todo, stale := index.Keys, {};
      while todo != {}
        invariant todo <= index.Keys
        invariant stale == set l | l in index && l !in todo && l !in tags
      {
        var l :| l in todo;
        todo := todo - {l};
        if l !in tags {
          stale := stale + {l};
        }
      }
      assert stale == Stale(View());
      index := index - stale;
      return Done;
    }

    method RecordResult(ref: string, rec: Record) returns (o: Outcome)
      modifies this`blobs
      ensures (View(), o) == Apply(sha256, old(View()), Command.RecordResult(ref, rec))
    {
      var r := Resolve(ref);
      if !r.Found? {
        return Died;
      }
      AppendResult(r.name, rec);
      return Done;
    }

    method Deploy(ref: string, bridgeKnown: bool, deployPairExists: bool) returns (o: Outcome)
      modifies this`blobs
      ensures (View(), o) == ApplyDeploy(sha256, old(View()), ref, bridgeKnown, deployPairExists)
    {
      var r := Resolve(ref);
      if !r.Found? {
        return Died;
      }
      var b := blobs[r.name];
      if MASTER_BIN !in b.files || sha256(b.files[MASTER_BIN]) != r.name || !bridgeKnown {
        return Died;
      }
      var sha := sha256(b.files[MASTER_BIN]);
      var sidecars := b.sidecars[MASTER_BIN := Sidecar(sha, None, TagOf(b))];
      if SlaveOf(b).Some? {
        sidecars := sidecars[SLAVE_BIN := Sidecar(SlaveOf(b).value, Some(sha), TagOf(b))];
      }
      blobs := blobs[sha := b.(sidecars := sidecars)];
      if !deployPairExists {
        return Died;
      }
      return Plan(sha, [Step(DieA, Some(sha)), Step(DieB, SlaveOf(b))]);
    }

    method Gc(force: bool) returns (o: Outcome)
      modifies this`blobs
      ensures (View(), o) == Apply(sha256, old(View()), Command.Gc(force))
    {
      ghost var before := View();
      var links, live := tags.Keys, {};
      while links != {}
        invariant links <= tags.Keys
        invariant live == set l | l in tags && l !in links :: tags[l]
      {
        var l :| l in links;
        links := links - {l};
        live := live + {tags[l]};
      }
      assert live == Live(before);
      var todo, orphans := blobs.Keys, {};
      while todo != {}
        invariant todo <= blobs.Keys
        invariant orphans == set d | d in blobs && d !in todo && !Staging(d) && d !in live
      {
        var d :| d in todo;
        todo := todo - {d};
        if !Staging(d) && d !in live {
          orphans := orphans + {d};
        }
      }
      assert orphans == Orphans(before);
      if force {
        var rest := orphans;
        while rest != {}
          invariant rest <= orphans
          invariant blobs == before.blobs - (orphans - rest)
        {
          var d :| d in rest;
          rest := rest - {d};
          blobs := blobs - {d};
        }
        assert orphans - {} == orphans;
      }
      return Done;
    }

    method Untag(tag: string) returns (o: Outcome)
      modifies this`tags, this`index
      ensures (View(), o) == Apply(sha256, old(View()), Command.Untag(tag))
    {
      if tag !in tags {
        return Died;
      }
      tags := tags - {tag};
      index := index - {tag};
      return Done;
    }
  }

  lemma {:induction false} StopsAtMissing(files: seq<(string, FileArg)>, i: nat)
    requires i < |files| && files[i].1.Missing? && CopyFiles(files[..i]).1
    ensures CopyFiles(files) == (CopyFiles(files[..i]).0, false)
  {
    if i == |files| - 1 {
    } else {
      var front := files[..|files| - 1];
      assert front[..i] == files[..i];
      StopsAtMissing(front, i);
    }
  }
}
