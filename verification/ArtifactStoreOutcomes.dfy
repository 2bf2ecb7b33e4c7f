/** What each store command answers and what it changes, over the blobs, the tags and the index themselves. */
module ArtifactStoreOutcomes {
  import opened Common
  import opened ArtifactStore
  import opened ArtifactStoreLaws

  // ---------- resolution ----------

  /** Blob d is the only one whose name starts with the reference. */
  predicate OnlyPrefix(s: State, ref: string, d: string) {
    d in s.blobs && ref <= d && forall e :: e in s.blobs && ref <= e ==> e == d
  }

  /** A blob name means itself, then a tag means its blob, then a prefix means the only blob it fits. */
  lemma ResolveIff(s: State, ref: string, d: string)
    ensures Resolve(s, ref) == Found(d) <==>
            if ref in s.blobs then d == ref
            else if ref in s.tags && s.tags[ref] in s.blobs then d == s.tags[ref]
            else OnlyPrefix(s, ref, d)
  {
    var m := Matches(s, ref);
    assert forall e :: e in m <==> e in s.blobs && ref <= e;
    if OnlyPrefix(s, ref, d) {
      assert m == {d};
    }
    if |m| == 1 {
      var x :| x in m;
      OneElement(m, x);
    }
  }

  lemma OneElement(m: set<string>, x: string)
    requires |m| == 1 && x in m
    ensures m == {x}
  {
    assert |m - {x}| == 0;
  }

  /** Ambiguous iff neither a blob nor a live tag is meant and two blobs fit; not found iff none does. */
  lemma UnresolvedIff(s: State, ref: string)
    ensures var direct := ref in s.blobs || (ref in s.tags && s.tags[ref] in s.blobs);
            && (Resolve(s, ref) == NotFound <==> !direct && forall d :: d in s.blobs ==> !(ref <= d))
            && (Resolve(s, ref) == Ambiguous <==>
                  !direct && exists d, e :: d in s.blobs && e in s.blobs && d != e && ref <= d && ref <= e)
  {
    var m := Matches(s, ref);
    assert forall e :: e in m <==> e in s.blobs && ref <= e;
    if |m| == 1 {
      var x :| x in m;
      OneElement(m, x);
    } else if |m| > 1 {
      var x :| x in m;
      assert |m - {x}| > 0;
      var y :| y in m - {x};
    }
    if d, e :| d in s.blobs && e in s.blobs && d != e && ref <= d && ref <= e {
      assert {d, e} <= m;
      SubsetSize({d, e}, m);
    }
    if |m| == 0 {
      assert m == {};
    }
  }

  // ---------- what stays ----------

  /** Every blob but `name` is as before, and no blob appeared or went away. */
  predicate OnlyBlob(s: State, s': State, name: string) {
    && s'.blobs.Keys == s.blobs.Keys && name in s.blobs
    && forall d :: d in s.blobs && d != name ==> s'.blobs[d] == s.blobs[d]
  }

  // ---------- record, untag, list, gc ----------

  /** A resolved reference gets exactly one record, at the end of exactly one blob; otherwise nothing happens. */
  lemma RecordOutcome(h: Bytes -> Sha, s: State, ref: string, rec: Record)
    ensures var (s', o) := Apply(h, s, RecordResult(ref, rec));
            var r := Resolve(s, ref);
            && (o == Done <==> r.Found?) && (o == Died <==> !r.Found?)
            && (!r.Found? ==> s' == s)
            && (r.Found? ==>
                  && OnlyBlob(s, s', r.name) && s'.tags == s.tags && s'.index == s.index
                  && s'.blobs[r.name].results == s.blobs[r.name].results + [rec]
                  && s'.blobs[r.name].files == s.blobs[r.name].files
                  && s'.blobs[r.name].manifest == s.blobs[r.name].manifest
                  && s'.blobs[r.name].sidecars == s.blobs[r.name].sidecars)
  {
  }

  /** An existing label goes, from tags and index, and nothing else; an unknown one changes nothing. */
  lemma UntagOutcome(h: Bytes -> Sha, s: State, tag: string)
    ensures var (s', o) := Apply(h, s, Untag(tag));
            && (o == Done <==> tag in s.tags) && (o == Died <==> tag !in s.tags)
            && (tag !in s.tags ==> s' == s)
            && s'.blobs == s.blobs && tag !in s'.tags
            && (forall l :: l != tag ==> (l in s'.tags <==> l in s.tags) && (l in s'.index <==> l in s.index))
            && (forall l :: l in s'.tags ==> s'.tags[l] == s.tags[l])
            && (forall l :: l in s'.index ==> l in s.index && s'.index[l] == s.index[l])
            && (tag in s.tags ==> tag !in s'.index)
  {
  }

  /** Listing drops the index entries of labels that have no tag, and touches neither tags nor blobs. */
  lemma ListOutcome(h: Bytes -> Sha, s: State)
    ensures var (s', o) := Apply(h, s, List);
            && o == Done && s'.blobs == s.blobs && s'.tags == s.tags
            && (forall l :: l in s'.index <==> l in s.index && l in s.tags)
            && forall l :: l in s'.index ==> s'.index[l] == s.index[l]
  {
  }

  /** Without force collection changes nothing; it never refuses. */
  lemma GcOutcome(h: Bytes -> Sha, s: State, force: bool)
    ensures Apply(h, s, Gc(force)).1 == Done && (!force ==> Apply(h, s, Gc(force)).0 == s)
  {
  }

  // ---------- add ----------

  /** The stored master is missing or has the bytes its name promises. */
  predicate Intact(h: Bytes -> Sha, s: State, name: string) {
    name in s.blobs ==> MASTER_BIN in s.blobs[name].files ==> h(s.blobs[name].files[MASTER_BIN]) == name
  }

  /** Files beside the bitstreams are only read when the blob is new. */
  predicate Copyable(a: AddArgs) {
    !a.masterHwh.Missing? && !a.slaveHwh.Missing?
  }

  lemma AddOutcome(h: Bytes -> Sha, s: State, a: AddArgs)
    ensures var o := ApplyAdd(h, s, a).1;
            var stored := a.master.Given? && h(a.master.bytes) in s.blobs;
            && (o == Done <==> && a.master.Given? && !a.slave.Missing?
                               && if stored then Intact(h, s, h(a.master.bytes)) else Copyable(a))
            && (o == Died <==> || !a.master.Given?
                               || (!a.slave.Missing? && stored && !Intact(h, s, h(a.master.bytes))))
            && o in {Done, Died, Crashed}
  {
    if a.master.Given? && !a.slave.Missing? {
      CopiedFiles(a);
    }
  }

  /** What a completed add leaves: the label on the master, the index repeating it, every other label as before. */
  lemma AddLabels(h: Bytes -> Sha, s: State, a: AddArgs)
    requires ApplyAdd(h, s, a).1 == Done
    ensures var s' := ApplyAdd(h, s, a).0;
            var sha := h(a.master.bytes);
            && sha in s'.blobs && a.tag in s'.tags && s'.tags[a.tag] == sha
            && s'.tags.Keys == s.tags.Keys + {a.tag} && s'.index.Keys == s.index.Keys + {a.tag}
            && (forall l :: l in s.tags && l != a.tag ==> s'.tags[l] == s.tags[l])
            && (forall l :: l in s.index && l != a.tag ==> s'.index[l] == s.index[l])
            && s'.index[a.tag] == Entry(sha, MetaOf(s'.blobs[sha]), "blobs/" + sha)
  {
  }

  function NoteOf(a: AddArgs): seq<Record> {
    if a.note.Some? && a.note.value != "" then [Record(a.now, "(add)", "", a.note.value)] else []
  }

  /** A new master makes one blob with what was given; a stored one only gets the note. Staging of it is gone. */
  lemma AddBlobs(h: Bytes -> Sha, s: State, a: AddArgs)
    requires ApplyAdd(h, s, a).1 == Done
    ensures var s' := ApplyAdd(h, s, a).0;
            var sha := h(a.master.bytes);
            && sha in s'.blobs
            && (forall d :: d != sha && d != sha + INCOMING ==>
                              (d in s'.blobs <==> d in s.blobs) && (d in s.blobs ==> s'.blobs[d] == s.blobs[d]))
            && (sha in s.blobs ==>
                  && s'.blobs.Keys == s.blobs.Keys
                  && (sha + INCOMING in s.blobs ==> s'.blobs[sha + INCOMING] == s.blobs[sha + INCOMING])
                  && s'.blobs[sha] == s.blobs[sha].(results := s.blobs[sha].results + NoteOf(a)))
            && (sha !in s.blobs ==>
                  && sha + INCOMING !in s'.blobs && NewlyAdded(h, a, s'.blobs[sha]))
  {
    var sha := h(a.master.bytes);
    CopiedFiles(a);
    ShaIsNotStaging(sha);
    IncomingIsStaging(sha);
    if sha !in s.blobs {
      FreshBlob(h, a);
      var blob := Blob(CopyFiles(NamedFiles(a)).0, Some(NewManifest(h, a)), [], map[]);
      assert [] + NoteOf(a) == NoteOf(a);
      assert ApplyAdd(h, s, a).0.blobs[sha] == blob.(results := NoteOf(a));
    } else {
      assert s.blobs[sha].results + [] == s.blobs[sha].results;
    }
  }

  /** The files, the manifest and the log of a blob that was just added. */
  predicate NewlyAdded(h: Bytes -> Sha, a: AddArgs, b: Blob) {
    && a.master.Given? && b.manifest.Some? && b.sidecars == map[] && b.results == NoteOf(a)
    && MASTER_BIN in b.files && b.files[MASTER_BIN] == a.master.bytes
    && Stored(b.files, SLAVE_BIN, a.slave) && Stored(b.files, MASTER_HWH, a.masterHwh)
    && Stored(b.files, SLAVE_HWH, a.slaveHwh)
    && b.files.Keys <= {MASTER_BIN, MASTER_HWH, SLAVE_BIN, SLAVE_HWH}
    && var m := b.manifest.value;
       && m.sha256 == h(a.master.bytes) && m.meta == a.meta && m.tag == a.tag && m.createdAt == a.now
       && m.expectedLockMin == a.expectedLockMin && m.files == b.files.Keys
       && m.sha256Slave == (if a.slave.Given? then Some(h(a.slave.bytes)) else None)
  }

  lemma FreshBlob(h: Bytes -> Sha, a: AddArgs)
    requires a.master.Given? && !a.slave.Missing? && CopyFiles(NamedFiles(a)).1
    ensures NewlyAdded(h, a, Blob(CopyFiles(NamedFiles(a)).0, Some(NewManifest(h, a)), NoteOf(a), map[]))
  {
    CopiedFiles(a);
  }

  /** An add that does not complete touches no finished blob, no tag and no index entry. */
  lemma FailedAdd(h: Bytes -> Sha, s: State, a: AddArgs)
    requires ApplyAdd(h, s, a).1 != Done
    ensures var s' := ApplyAdd(h, s, a).0;
            && s'.tags == s.tags && s'.index == s.index
            && (forall d :: !Staging(d) ==>
                              (d in s'.blobs <==> d in s.blobs) && (d in s.blobs ==> s'.blobs[d] == s.blobs[d]))
            && (!a.master.Given? || a.slave.Missing? || h(a.master.bytes) in s.blobs ==> s' == s)
  {
    if a.master.Given? {
      IncomingIsStaging(h(a.master.bytes));
    }
  }

  // ---------- deploy ----------

  /** The sidecars that tell deploy_pair.sh what to expect; the slave's only when a slave is recorded. */
  predicate SidecarsFor(name: string, old': Blob, new': Blob) {
    && MASTER_BIN in new'.sidecars
    && new'.sidecars[MASTER_BIN].sha256 == name && new'.sidecars[MASTER_BIN].sha256Master == None
    && new'.sidecars[MASTER_BIN].tag == TagOf(old')
    && (SlaveOf(old').Some? ==>
          && SLAVE_BIN in new'.sidecars && new'.sidecars[SLAVE_BIN].sha256 == SlaveOf(old').value
          && new'.sidecars[SLAVE_BIN].sha256Master.Some? && new'.sidecars[SLAVE_BIN].sha256Master.value == name
          && new'.sidecars[SLAVE_BIN].tag == TagOf(old'))
    && (forall f :: f in new'.sidecars && f != MASTER_BIN && f != SLAVE_BIN ==> f in old'.sidecars)
    && (forall f :: f in old'.sidecars && f != MASTER_BIN && (f != SLAVE_BIN || SlaveOf(old').None?) ==>
                      f in new'.sidecars && new'.sidecars[f] == old'.sidecars[f])
    && new' == old'.(sidecars := new'.sidecars)
  }

  /**
   After every run: a plan iff the reference means a finished blob, the bridge is known and the script
   exists.  A missing script still leaves the sidecars; every other refusal leaves the store as it was.
   */
  lemma DeployOutcome(h: Bytes -> Sha, cs: seq<Command>, ref: string, known: bool, script: bool)
    ensures var s := Run(h, EMPTY, cs);
            var (s', o) := Apply(h, s, Deploy(ref, known, script));
            var r := Resolve(s, ref);
            var ready := r.Found? && !Staging(r.name) && known;
            && (o.Plan? <==> ready && script) && (!o.Plan? ==> o == Died)
            && (o.Plan? ==> && o.blob == r.name && r.name in s.blobs && |o.steps| == 2
                            && o.steps[0].die == DieA && o.steps[1].die == DieB
                            && o.steps[1].expected == SlaveOf(s.blobs[r.name])
                            && o.steps[0].expected.Some? && o.steps[0].expected.value == r.name)
            && (!ready ==> s' == s)
            && (ready ==> && OnlyBlob(s, s', r.name) && s'.tags == s.tags && s'.index == s.index
                          && SidecarsFor(r.name, s.blobs[r.name], s'.blobs[r.name]))
  {
    EveryRunKeepsInv(h, cs);
    var s := Run(h, EMPTY, cs);
    DeployFrom(h, s, ref, known, script);
  }

  lemma DeployFrom(h: Bytes -> Sha, s: State, ref: string, known: bool, script: bool)
    requires Inv(h, s)
    ensures var (s', o) := ApplyDeploy(h, s, ref, known, script);
            var r := Resolve(s, ref);
            var ready := r.Found? && !Staging(r.name) && known;
            && (o.Plan? <==> ready && script) && (!o.Plan? ==> o == Died)
            && (o.Plan? ==> && o.blob == r.name && r.name in s.blobs && |o.steps| == 2
                            && o.steps[0].die == DieA && o.steps[1].die == DieB
                            && o.steps[1].expected == SlaveOf(s.blobs[r.name])
                            && o.steps[0].expected.Some? && o.steps[0].expected.value == r.name)
            && (!ready ==> s' == s)
            && (ready ==> && OnlyBlob(s, s', r.name) && s'.tags == s.tags && s'.index == s.index
                          && SidecarsFor(r.name, s.blobs[r.name], s'.blobs[r.name]))
  {
    var r := Resolve(s, ref);
    if r.Found? {
      DeployFound(h, s, r.name);
      if !Staging(r.name) {
        SidecarsMeaning(s, h(s.blobs[r.name].files[MASTER_BIN]));
      }
    }
  }

  lemma SidecarsMeaning(s: State, name: Sha)
    requires name in s.blobs
    ensures var s' := WriteSidecars(s, name);
            OnlyBlob(s, s', name) && s'.tags == s.tags && s'.index == s.index &&
            SidecarsFor(name, s.blobs[name], s'.blobs[name])
  {
    FileNamesDiffer();
    var names := [MASTER_BIN, MASTER_HWH, SLAVE_BIN, SLAVE_HWH];
    assert names[0] != names[2];
  }

  /** The master check passes exactly for the finished blobs. */
  lemma DeployFound(h: Bytes -> Sha, s: State, name: string)
    requires Inv(h, s) && name in s.blobs
    ensures MASTER_BIN in s.blobs[name].files && h(s.blobs[name].files[MASTER_BIN]) == name <==> !Staging(name)
  {
    if MASTER_BIN in s.blobs[name].files && h(s.blobs[name].files[MASTER_BIN]) == name {
      ShaIsNotStaging(h(s.blobs[name].files[MASTER_BIN]));
    }
    if !Staging(name) {
      assert BlobOk(h, name, s.blobs[name]);
    }
  }
}
