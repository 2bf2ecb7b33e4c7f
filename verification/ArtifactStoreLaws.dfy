/** What every run of store commands keeps, and what the store promises about deployment and collection. */
module ArtifactStoreLaws {
  import opened Common
  import opened ArtifactStore

  // ---------- the invariant ----------

  /** A finished blob: named by its master, its manifest tells the truth about master and slave. */
  predicate BlobOk(h: Bytes -> Sha, name: string, b: Blob) {
    && IsSha(name)
    && MASTER_BIN in b.files && h(b.files[MASTER_BIN]) == name
    && b.manifest.Some? && b.manifest.value.sha256 == name
    && b.manifest.value.sha256Slave == (if SLAVE_BIN in b.files then Some(h(b.files[SLAVE_BIN])) else None)
    && b.manifest.value.files == b.files.Keys
    && (forall f :: f in b.sidecars ==>
                      f in b.files && b.sidecars[f].sha256 == h(b.files[f]))
  }

  predicate BlobsOk(h: Bytes -> Sha, s: State) {
    forall d :: d in s.blobs ==> Staging(d) || BlobOk(h, d, s.blobs[d])
  }

  /** Every tag targets a finished blob, and the index repeats at least what the tags say. */
  predicate TagsOk(s: State) {
    && (forall l :: l in s.tags ==> s.tags[l] in s.blobs && !Staging(s.tags[l]))
    && (forall l :: l in s.tags ==>
                      l in s.index && s.index[l].sha256 == s.tags[l] && s.index[l].meta == MetaOf(s.blobs[s.tags[l]]))
  }

  predicate Inv(h: Bytes -> Sha, s: State) {
    BlobsOk(h, s) && TagsOk(s)
  }

  /** The index has exactly the tagged labels. */
  predicate IndexExact(s: State) {
    s.index.Keys == s.tags.Keys
  }

  lemma FileNamesDiffer()
    ensures Distinct([MASTER_BIN, MASTER_HWH, SLAVE_BIN, SLAVE_HWH])
  {
    assert MASTER_BIN[9] != MASTER_HWH[9] && SLAVE_BIN[14] != SLAVE_HWH[14];
  }

  /** The file is there iff it was given, with the given bytes. */
  predicate Stored(files: map<string, Bytes>, name: string, arg: FileArg) {
    (name in files <==> arg.Given?) && (arg.Given? ==> files[name] == arg.bytes)
  }

  lemma CopiedFiles(a: AddArgs)
    requires a.master.Given? && !a.slave.Missing?
    ensures var (files, ok) := CopyFiles(NamedFiles(a));
            && MASTER_BIN in files && files[MASTER_BIN] == a.master.bytes
            && (ok ==> (SLAVE_BIN in files <==> a.slave.Given?))
            && (SLAVE_BIN in files ==> a.slave.Given? && files[SLAVE_BIN] == a.slave.bytes)
            && (ok <==> !a.masterHwh.Missing? && !a.slaveHwh.Missing?)
            && (ok ==> Stored(files, MASTER_HWH, a.masterHwh) && Stored(files, SLAVE_HWH, a.slaveHwh)
                       && Stored(files, SLAVE_BIN, a.slave)
                       && files.Keys <= {MASTER_BIN, MASTER_HWH, SLAVE_BIN, SLAVE_HWH})
  {
    FileNamesDiffer();
    var names := [MASTER_BIN, MASTER_HWH, SLAVE_BIN, SLAVE_HWH];
    assert names[0] != names[1] && names[0] != names[2] && names[0] != names[3];
    assert names[1] != names[2] && names[2] != names[3];
    var fs := NamedFiles(a);
    assert fs[..3][..2] == fs[..2] && fs[..2][..1] == fs[..1] && fs[..1][..0] == [];
    assert CopyFiles(fs[..1][..0]) == (map[], true);
    assert CopyFiles(fs[..1]) == (map[MASTER_BIN := a.master.bytes], true);
    assert CopyFiles(fs[..2]) == CopyFiles(fs[..3][..2]);
    assert fs[..4] == fs;
  }

  lemma NewBlobOk(h: Bytes -> Sha, a: AddArgs)
    requires a.master.Given? && !a.slave.Missing? && CopyFiles(NamedFiles(a)).1
    ensures BlobOk(h, h(a.master.bytes), Blob(CopyFiles(NamedFiles(a)).0, Some(NewManifest(h, a)), [], map[]))
  {
    CopiedFiles(a);
  }

  lemma RecordKeepsInv(h: Bytes -> Sha, s: State, d: string, r: Record)
    requires Inv(h, s) && d in s.blobs
    ensures Inv(h, AppendRecord(s, d, r))
  {
  }

  lemma PointTagKeepsInv(h: Bytes -> Sha, s: State, a: AddArgs, sha: Sha)
    requires Inv(h, s) && sha in s.blobs
    ensures Inv(h, PointTag(s, a, sha))
    ensures IndexExact(s) ==> IndexExact(PointTag(s, a, sha))
  {
    ShaIsNotStaging(sha);
    var entry := Entry(sha, MetaOf(s.blobs[sha]), "blobs/" + sha);
    var s' := s.(tags := s.tags[a.tag := sha], index := s.index[a.tag := entry]);
    assert Inv(h, s');
    if a.note.Some? && a.note.value != "" {
      RecordKeepsInv(h, s', sha, Record(a.now, "(add)", "", a.note.value));
    }
  }

  lemma NewBlobKeepsInv(h: Bytes -> Sha, s: State, a: AddArgs)
    requires Inv(h, s) && a.master.Given? && !a.slave.Missing? && h(a.master.bytes) !in s.blobs
    requires CopyFiles(NamedFiles(a)).1
    ensures var sha := h(a.master.bytes);
            var blob := Blob(CopyFiles(NamedFiles(a)).0, Some(NewManifest(h, a)), [], map[]);
            Inv(h, s.(blobs := (s.blobs - {sha + INCOMING})[sha := blob]))
  {
    NewBlobOk(h, a);
    IncomingIsStaging(h(a.master.bytes));
  }

  lemma AddKeepsInv(h: Bytes -> Sha, s: State, a: AddArgs)
    requires Inv(h, s)
    ensures Inv(h, ApplyAdd(h, s, a).0)
    ensures IndexExact(s) ==> IndexExact(ApplyAdd(h, s, a).0)
  {
    if a.master.Given? && !a.slave.Missing? {
      var sha := h(a.master.bytes);
      IncomingIsStaging(sha);
      ShaIsNotStaging(sha);
      if sha in s.blobs {
        PointTagKeepsInv(h, s, a, sha);
      } else if CopyFiles(NamedFiles(a)).1 {
        NewBlobKeepsInv(h, s, a);
        var blob := Blob(CopyFiles(NamedFiles(a)).0, Some(NewManifest(h, a)), [], map[]);
        PointTagKeepsInv(h, s.(blobs := (s.blobs - {sha + INCOMING})[sha := blob]), a, sha);
      }
    }
  }

  lemma SidecarsKeepInv(h: Bytes -> Sha, s: State, sha: Sha)
    requires Inv(h, s) && sha in s.blobs
    ensures Inv(h, WriteSidecars(s, sha))
    ensures var s' := WriteSidecars(s, sha);
            s'.blobs.Keys == s.blobs.Keys && s'.tags == s.tags && s'.index == s.index &&
            forall d :: d in s.blobs ==> s'.blobs[d] == s.blobs[d].(sidecars := s'.blobs[d].sidecars)
  {
    ShaIsNotStaging(sha);
    assert BlobOk(h, sha, s.blobs[sha]);
    assert BlobOk(h, sha, WriteSidecars(s, sha).blobs[sha]);
  }

  lemma DeployKeepsInv(h: Bytes -> Sha, s: State, ref: string, known: bool, script: bool)
    requires Inv(h, s)
    ensures Inv(h, ApplyDeploy(h, s, ref, known, script).0)
    ensures IndexExact(s) ==> IndexExact(ApplyDeploy(h, s, ref, known, script).0)
  {
    var r := Resolve(s, ref);
    if r.Found? && MASTER_BIN in s.blobs[r.name].files && h(s.blobs[r.name].files[MASTER_BIN]) == r.name {
      SidecarsKeepInv(h, s, r.name);
    }
  }

  lemma GcKeepsInv(h: Bytes -> Sha, s: State)
    requires Inv(h, s)
    ensures Inv(h, s.(blobs := s.blobs - Orphans(s)))
  {
    assert forall l :: l in s.tags ==> s.tags[l] in Live(s);
  }

  lemma UntagKeepsInv(h: Bytes -> Sha, s: State, tag: string)
    requires Inv(h, s)
    ensures Inv(h, s.(tags := s.tags - {tag}, index := s.index - {tag}))
    ensures Inv(h, s.(tags := s.tags - {tag}))
    ensures Inv(h, s.(index := s.index - Stale(s)))
  {
  }

  lemma ApplyKeepsInv(h: Bytes -> Sha, s: State, c: Command)
    requires Inv(h, s)
    ensures Inv(h, Apply(h, s, c).0)
    ensures IndexExact(s) && !c.ManualRemoveTag? ==> IndexExact(Apply(h, s, c).0)
    ensures c.List? ==> IndexExact(Apply(h, s, c).0)
  {
    match c
    case Add(a) => AddKeepsInv(h, s, a);
    case Deploy(ref, known, script) => DeployKeepsInv(h, s, ref, known, script);
    case RecordResult(ref, rec) =>
      var r := Resolve(s, ref);
      if r.Found? {
        RecordKeepsInv(h, s, r.name, rec);
      }
    case Gc(_) => GcKeepsInv(h, s);
    case Untag(tag) => UntagKeepsInv(h, s, tag);
    case ManualRemoveTag(tag) => UntagKeepsInv(h, s, tag);
    case List => UntagKeepsInv(h, s, "");
  }

  /** Main safety theorem: every state reached from an empty store satisfies the invariant. */
  lemma {:induction false} EveryRunKeepsInv(h: Bytes -> Sha, cs: seq<Command>)
    ensures Inv(h, Run(h, EMPTY, cs))
    ensures (forall i :: 0 <= i < |cs| ==> !cs[i].ManualRemoveTag?) ==> IndexExact(Run(h, EMPTY, cs))
  {
    if cs != [] {
      var front := cs[..|cs| - 1];
      EveryRunKeepsInv(h, front);
      assert (forall i :: 0 <= i < |cs| ==> !cs[i].ManualRemoveTag?) ==>
          forall i :: 0 <= i < |front| ==> !front[i].ManualRemoveTag?;
      ApplyKeepsInv(h, Run(h, EMPTY, front), cs[|cs| - 1]);
    }
  }

  // ---------- deployment ----------

  /** Which bitstream deploy_pair.sh flashes for a die, given the blob directory. */
  function Shipped(b: Blob, die: Die): string {
    if MASTER_BIN in b.files && SLAVE_BIN !in b.files then MASTER_BIN
    else if die.DieA? then MASTER_BIN else SLAVE_BIN
  }

  /** The hash deploy_pair.sh insists on: the explicit one, else the sidecar next to the bitstream. */
  function Insisted(b: Blob, st: Step): Option<Sha> {
    if st.expected.Some? then st.expected
    else if Shipped(b, st.die) in b.sidecars then Some(b.sidecars[Shipped(b, st.die)].sha256)
    else None
  }

  /** Every deploy plan insists on exactly the hash of the bytes it ships, for both dies. */
  lemma DeployShipsWhatItExpects(h: Bytes -> Sha, cs: seq<Command>, ref: string, known: bool, script: bool)
    ensures
      var s := Run(h, EMPTY, cs);
      var (s', o) := ApplyDeploy(h, s, ref, known, script);
      o.Plan? ==>
        && Resolve(s, ref) == Found(o.blob) && o.blob in s'.blobs
        && |o.steps| == 2 && o.steps[0].die == DieA && o.steps[1].die == DieB
        && forall i :: 0 <= i < 2 ==>
                         var b := s'.blobs[o.blob];
                         && Shipped(b, o.steps[i].die) in b.files
                         && Insisted(b, o.steps[i]) == Some(h(b.files[Shipped(b, o.steps[i].die)]))
  {
    EveryRunKeepsInv(h, cs);
    var s := Run(h, EMPTY, cs);
    var r := Resolve(s, ref);
    if r.Found? && MASTER_BIN in s.blobs[r.name].files && h(s.blobs[r.name].files[MASTER_BIN]) == r.name {
      ShaIsNotStaging(r.name);
      assert BlobOk(h, r.name, s.blobs[r.name]);
    }
  }

  // ---------- immutability ----------

  /** b may become b' while the blob lives. */
  predicate OnlyGrows(b: Blob, b': Blob) {
    b'.files == b.files && b'.manifest == b.manifest && b.results <= b'.results
  }

  lemma StepIsWriteOnce(h: Bytes -> Sha, s: State, c: Command, d: string)
    requires d in s.blobs && !Staging(d) && d in Apply(h, s, c).0.blobs
    ensures OnlyGrows(s.blobs[d], Apply(h, s, c).0.blobs[d])
  {
    if c.Add? && c.args.master.Given? {
      IncomingIsStaging(h(c.args.master.bytes));
    }
  }

  ghost predicate AliveThroughout(h: Bytes -> Sha, s: State, cs: seq<Command>, d: string) {
    forall i :: 0 <= i <= |cs| ==> d in Run(h, s, cs[..i]).blobs
  }

  /** While a blob lives, no run changes its bytes or its manifest, and its results only grow. */
  lemma {:induction false} BlobsAreWriteOnce(h: Bytes -> Sha, s: State, cs: seq<Command>, d: string)
    requires !Staging(d) && AliveThroughout(h, s, cs, d)
    ensures d in s.blobs && d in Run(h, s, cs).blobs && OnlyGrows(s.blobs[d], Run(h, s, cs).blobs[d])
  {
    assert cs[..0] == [] && cs[..|cs|] == cs;
    assert d in Run(h, s, cs[..0]).blobs && d in Run(h, s, cs[..|cs|]).blobs;
    if cs != [] {
      var front := cs[..|cs| - 1];
      assert forall i :: 0 <= i <= |front| ==> front[..i] == cs[..i];
      BlobsAreWriteOnce(h, s, front, d);
      StepIsWriteOnce(h, Run(h, s, front), cs[|cs| - 1], d);
    }
  }

  /** Adding a master that is already stored keeps the old slave, whatever slave came with the second add. */
  lemma ReAddKeepsFirstSlave(h: Bytes -> Sha, s: State, a: AddArgs)
    requires Inv(h, s) && a.master.Given? && !a.slave.Missing? && h(a.master.bytes) in s.blobs
    ensures var (s', o) := ApplyAdd(h, s, a);
            var sha := h(a.master.bytes);
            && o == Done && s'.tags[a.tag] == sha
            && s'.blobs.Keys == s.blobs.Keys
            && s'.blobs[sha].files == s.blobs[sha].files && SlaveOf(s'.blobs[sha]) == SlaveOf(s.blobs[sha])
  {
    ShaIsNotStaging(h(a.master.bytes));
  }

  /**
   After a completed add the store records the slave that was given exactly when the master was new or
   its recorded slave already agreed.
   */
  lemma GivenSlaveIsRecordedIff(h: Bytes -> Sha, s: State, a: AddArgs)
    requires Inv(h, s) && a.master.Given? && ApplyAdd(h, s, a).1 == Done
    ensures var s' := ApplyAdd(h, s, a).0;
            var sha := h(a.master.bytes);
            && sha in s'.blobs
            && (SlaveOf(s'.blobs[sha]) == SlaveHash(h, a.slave) <==>
                sha !in s.blobs || SlaveOf(s.blobs[sha]) == SlaveHash(h, a.slave))
  {
    ShaIsNotStaging(h(a.master.bytes));
  }

  /** After a completed add the new tag names the added master, unless the tag is spelled like another blob. */
  lemma TagResolvesToAddedMaster(h: Bytes -> Sha, s: State, a: AddArgs)
    requires Inv(h, s) && a.master.Given? && ApplyAdd(h, s, a).1 == Done
    ensures var s' := ApplyAdd(h, s, a).0;
            var sha := h(a.master.bytes);
            Resolve(s', a.tag) == Found(sha) <==> (a.tag == sha || a.tag !in s'.blobs)
  {
  }

  // ---------- garbage collection ----------

  ghost function Collected(h: Bytes -> Sha, s: State): State {
    Apply(h, s, Gc(true)).0
  }

  /** Forced collection removes exactly the untagged finished blobs and touches nothing else. */
  lemma GcRemovesExactlyOrphans(h: Bytes -> Sha, s: State, d: string)
    ensures var s' := Collected(h, s);
            && s'.tags == s.tags && s'.index == s.index
            && (d in s'.blobs <==> d in s.blobs && (Staging(d) || exists l :: l in s.tags && s.tags[l] == d))
            && (d in s'.blobs ==> s'.blobs[d] == s.blobs[d])
  {
  }

  lemma GcIsIdempotent(h: Bytes -> Sha, s: State)
    ensures Collected(h, Collected(h, s)) == Collected(h, s)
  {
    var s' := Collected(h, s);
    assert Orphans(s') == {};
    assert s'.blobs - {} == s'.blobs;
  }

  /**
   Collection leaves a label's resolution alone exactly when the label is not spelled like an orphan
   blob: such a label names the orphan before, and its own tag after.
   */
  lemma GcKeepsLabelIffNotOrphanName(h: Bytes -> Sha, s: State, tag: string)
    requires TagsOk(s) && tag in s.tags
    ensures Resolve(Collected(h, s), tag) == Resolve(s, tag) <==> tag !in Orphans(s)
  {
    assert s.tags[tag] in Live(s);
  }

  lemma AddFresh(h: Bytes -> Sha, s: State, a: AddArgs)
    requires a.master.Given? && a.slave.NotGiven? && a.masterHwh.NotGiven? && a.slaveHwh.NotGiven? && a.note.None?
    requires h(a.master.bytes) !in s.blobs && forall d :: d in s.blobs ==> !Staging(d)
    ensures var s' := ApplyAdd(h, s, a).0;
            var sha := h(a.master.bytes);
            s'.blobs.Keys == s.blobs.Keys + {sha} && s'.tags == s.tags[a.tag := sha] &&
            forall d :: d in s'.blobs ==> !Staging(d)
  {
    CopiedFiles(a);
    ShaIsNotStaging(h(a.master.bytes));
    IncomingIsStaging(h(a.master.bytes));
  }

  /** Two adds, the second under a label spelled like the first blob, and an untag. */
  function Shadowing(h: Bytes -> Sha, one: Bytes, two: Bytes, m: Meta): seq<Command> {
    [Add(Plainly(one, "old", m)), Add(Plainly(two, h(one), m)), Untag("old")]
  }

  function Plainly(master: Bytes, tag: string, m: Meta): AddArgs {
    AddArgs(Given(master), NotGiven, NotGiven, NotGiven, tag, m, 0, "", None)
  }

  lemma ShadowState(h: Bytes -> Sha, one: Bytes, two: Bytes, m: Meta)
    requires h(one) != h(two)
    ensures var s := Run(h, EMPTY, Shadowing(h, one, two, m));
            s.blobs.Keys == {h(one), h(two)} && s.tags == map[h(one) := h(two)]
  {
    var a1 := Plainly(one, "old", m);
    var s1 := Apply(h, EMPTY, Add(a1)).0;
    AddFresh(h, EMPTY, a1);
    ShaIsNotStaging(h(one));
    SecondAdd(h, s1, h(one), two, m);
    RunThree(h, Add(a1), Add(Plainly(two, h(one), m)), Untag("old"));
  }

  lemma SecondAdd(h: Bytes -> Sha, s: State, x: Sha, two: Bytes, m: Meta)
    requires s.blobs.Keys == {x} && s.tags == map["old" := x] && !Staging(x) && x != h(two)
    ensures var s' := Apply(h, Apply(h, s, Add(Plainly(two, x, m))).0, Untag("old")).0;
            s'.blobs.Keys == {x, h(two)} && s'.tags == map[x := h(two)]
  {
    AddFresh(h, s, Plainly(two, x, m));
    ShaIsNotOld(x);
  }

  /** After that run, collection changes what the label spelled h(one) means. */
  lemma GcCanRetargetLabel(h: Bytes -> Sha, one: Bytes, two: Bytes, m: Meta)
    requires h(one) != h(two)
    ensures var s := Run(h, EMPTY, Shadowing(h, one, two, m));
            Resolve(s, h(one)) == Found(h(one)) && Resolve(Collected(h, s), h(one)) == Found(h(two))
  {
    ShadowState(h, one, two, m);
    ShaIsNotStaging(h(one));
    Retargets(h, Run(h, EMPTY, Shadowing(h, one, two, m)), h(one), h(two));
  }

  lemma RunThree(h: Bytes -> Sha, a: Command, b: Command, c: Command)
    ensures Run(h, EMPTY, [a, b, c]) == Apply(h, Apply(h, Apply(h, EMPTY, a).0, b).0, c).0
  {
    var cs := [a, b, c];
    assert cs[..2] == [a, b] && [a, b][..1] == [a] && [a][..0] == [];
    assert Run(h, EMPTY, [a]) == Apply(h, EMPTY, a).0;
    assert Run(h, EMPTY, [a, b]) == Apply(h, Run(h, EMPTY, [a]), b).0;
  }

  lemma ShaIsNotOld(sha: Sha)
    ensures sha != "old"
  {
    assert |"old"| == 3;
  }

  lemma Retargets(h: Bytes -> Sha, s: State, x: string, y: string)
    requires x != y && s.blobs.Keys == {x, y} && s.tags == map[x := y] && !Staging(x)
    ensures Resolve(s, x) == Found(x) && Resolve(Collected(h, s), x) == Found(y)
  {
    assert x !in Live(s);
    assert s.tags[x] in Live(s);
    assert x in Orphans(s);
  }
}
