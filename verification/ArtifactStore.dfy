/**
 The content-addressed bitstream store: blob directories named by the hash of their master
 bitstream, mutable tags, and a registry index.

 `State` and `Apply` say what every command does to the store; the class `Store` performs the
 commands in place and is proved to do exactly that.
 */
module ArtifactStore {
  import opened Common

  // ---------- hashes and names ----------

  predicate IsHexDigit(c: char) {
    '0' <= c <= '9' || 'a' <= c <= 'f'
  }

  /** A SHA-256 hex digest: 64 lower-case hex digits. */
  predicate IsSha(s: string) {
    |s| == 64 && forall i :: 0 <= i < |s| ==> IsHexDigit(s[i])
  }

  type Sha = s: string | IsSha(s) witness seq(64, _ => '0')

  const INCOMING := ".incoming"

  const MASTER_BIN := "tidelink.bin"
  const MASTER_HWH := "tidelink.hwh"
  const SLAVE_BIN := "tidelink-flip.bin"
  const SLAVE_HWH := "tidelink-flip.hwh"

  /** A blob directory name that garbage collection takes for a staging directory. */
  predicate Staging(name: string) {
    |name| >= |INCOMING| && name[|name| - |INCOMING|..] == INCOMING
  }

  lemma ShaIsNotStaging(s: Sha)
    ensures !Staging(s)
  {
    assert s[|s| - |INCOMING|..][0] == s[|s| - |INCOMING|];
    assert INCOMING[0] == '.';
  }

  lemma IncomingIsStaging(s: string)
    ensures Staging(s + INCOMING) && !IsSha(s + INCOMING)
  {
    assert (s + INCOMING)[|s|..] == INCOMING;
    assert (s + INCOMING)[|s|] == '.';
  }

  // ---------- what is stored ----------

  datatype Meta = Meta(commit: string, buildHost: string, buildDate: string, target: string)

  datatype Manifest = Manifest(sha256: Sha, sha256Slave: Option<Sha>, meta: Meta, tag: string,
                               expectedLockMin: int, createdAt: string, files: set<string>)

  datatype Record = Record(timestamp: string, pair: string, body: string, note: string)

  datatype Sidecar = Sidecar(sha256: Sha, sha256Master: Option<Sha>, tag: string)

  /** One directory under `blobs/`. A staging directory has no manifest yet. */
  datatype Blob = Blob(files: map<string, Bytes>, manifest: Option<Manifest>, results: seq<Record>,
                       sidecars: map<string, Sidecar>)

  datatype Entry = Entry(sha256: Sha, meta: Meta, blobDir: string)

  datatype State = State(blobs: map<string, Blob>, tags: map<string, string>, index: map<string, Entry>)

  const EMPTY := State(map[], map[], map[])

  // ---------- commands ----------

  /** A file argument: not given, given but unreadable, or given with its bytes. */
  datatype FileArg = NotGiven | Missing | Given(bytes: Bytes)

  datatype AddArgs = AddArgs(master: FileArg, slave: FileArg, masterHwh: FileArg, slaveHwh: FileArg, tag: string,
                             meta: Meta, expectedLockMin: int, now: string, note: Option<string>)

  datatype Command =
    | Add(args: AddArgs)
    | List
    | RecordResult(ref: string, record: Record)
    | Deploy(ref: string, bridgeKnown: bool, deployPairExists: bool)
    | Gc(force: bool)
    | Untag(tag: string)
    | ManualRemoveTag(tag: string)  // `rm tags/<label>` behind the tool's back

  /** The role a board plays and the hash passed to deploy_pair.sh for it. */
  datatype Step = Step(die: Die, expected: Option<Sha>)
  datatype Die = DieA | DieB

  /** Died: refused with a message. Crashed: an exception escaped. */
  datatype Outcome = Done | Died | Crashed | Plan(blob: string, steps: seq<Step>)

  // ---------- resolution ----------

  datatype Resolution = Found(name: string) | NotFound | Ambiguous

  ghost function Matches(s: State, ref: string): set<string> {
    set d | d in s.blobs && ref <= d
  }

  ghost function Resolve(s: State, ref: string): Resolution {
    if ref in s.blobs then Found(ref)
    else if ref in s.tags && s.tags[ref] in s.blobs then Found(s.tags[ref])
    else if |Matches(s, ref)| == 1 then
      var d :| d in Matches(s, ref);
      Found(d)
    else if |Matches(s, ref)| > 1 then Ambiguous
    else NotFound
  }

  // ---------- what each command does ----------

  function NamedFiles(a: AddArgs): seq<(string, FileArg)> {
    [(MASTER_BIN, a.master), (MASTER_HWH, a.masterHwh), (SLAVE_BIN, a.slave), (SLAVE_HWH, a.slaveHwh)]
  }

  /** Copies in order, stopping at the first unreadable file. The flag says all were copied. */
  function CopyFiles(files: seq<(string, FileArg)>): (r: (map<string, Bytes>, bool)) {
    if files == [] then (map[], true)
    else
      var (done, ok) := CopyFiles(files[..|files| - 1]);
      var (name, arg) := files[|files| - 1];
      if !ok || arg.NotGiven? then (done, ok)
      else if arg.Missing? then (done, false)
      else (done[name := arg.bytes], true)
  }

  function SlaveHash(h: Bytes -> Sha, slave: FileArg): Option<Sha> {
    if slave.Given? then Some(h(slave.bytes)) else None
  }

  function NewManifest(h: Bytes -> Sha, a: AddArgs): Manifest
    requires a.master.Given?
  {
    Manifest(h(a.master.bytes), SlaveHash(h, a.slave), a.meta, a.tag, a.expectedLockMin, a.now,
             CopyFiles(NamedFiles(a)).0.Keys)
  }

  function AppendRecord(s: State, name: string, r: Record): State
    requires name in s.blobs
  {
    s.(blobs := s.blobs[name := s.blobs[name].(results := s.blobs[name].results + [r])])
  }

  // A missing manifest reads as an empty one.

  function MetaOf(b: Blob): Meta {
    if b.manifest.Some? then b.manifest.value.meta else Meta("", "", "", "")
  }

  function TagOf(b: Blob): string {
    if b.manifest.Some? then b.manifest.value.tag else ""
  }

  function SlaveOf(b: Blob): Option<Sha> {
    if b.manifest.Some? then b.manifest.value.sha256Slave else None
  }

  /** Point the tag and the index at a blob, then append the seed note. */
  function PointTag(s: State, a: AddArgs, sha: Sha): State
    requires sha in s.blobs
  {
    var entry := Entry(sha, MetaOf(s.blobs[sha]), "blobs/" + sha);
    var s' := s.(tags := s.tags[a.tag := sha], index := s.index[a.tag := entry]);
    if a.note.Some? && a.note.value != "" then AppendRecord(s', sha, Record(a.now, "(add)", "", a.note.value)) else s'
  }

  function ApplyAdd(h: Bytes -> Sha, s: State, a: AddArgs): (State, Outcome) {
    if !a.master.Given? then (s, Died)
    else if a.slave.Missing? then (s, Crashed)
    else
      var sha := h(a.master.bytes);
      if sha in s.blobs then
        var b := s.blobs[sha];
        if MASTER_BIN in b.files && h(b.files[MASTER_BIN]) != sha then (s, Died)
        else (PointTag(s, a, sha), Done)
      else
        var (files, ok) := CopyFiles(NamedFiles(a));
        if !ok then (s.(blobs := s.blobs[sha + INCOMING := Blob(files, None, [], map[])]), Crashed)
        else
          var blob := Blob(files, Some(NewManifest(h, a)), [], map[]);
          (PointTag(s.(blobs := (s.blobs - {sha + INCOMING})[sha := blob]), a, sha), Done)
  }

  function WriteSidecars(s: State, name: Sha): State
    requires name in s.blobs
  {
    var b := s.blobs[name];
    var master := b.sidecars[MASTER_BIN := Sidecar(name, None, TagOf(b))];
    var both := if SlaveOf(b).Some? then master[SLAVE_BIN := Sidecar(SlaveOf(b).value, Some(name), TagOf(b))]
                else master;
    s.(blobs := s.blobs[name := b.(sidecars := both)])
  }

  ghost function ApplyDeploy(h: Bytes -> Sha, s: State, ref: string, bridgeKnown: bool, deployPairExists: bool)
    : (State, Outcome)
  {
    var r := Resolve(s, ref);
    if !r.Found? then (s, Died)
    else
      var b := s.blobs[r.name];
      if MASTER_BIN !in b.files || h(b.files[MASTER_BIN]) != r.name || !bridgeKnown then (s, Died)
      else
        var s' := WriteSidecars(s, h(b.files[MASTER_BIN]));
        if !deployPairExists then (s', Died)
        else (s', Plan(r.name, [Step(DieA, Some(h(b.files[MASTER_BIN]))), Step(DieB, SlaveOf(b))]))
  }

  function Live(s: State): set<string> {
    set l | l in s.tags :: s.tags[l]
  }

  function Orphans(s: State): set<string> {
    set d | d in s.blobs && !Staging(d) && d !in Live(s)
  }

  function Stale(s: State): set<string> {
    set l | l in s.index && l !in s.tags
  }

  ghost function Apply(h: Bytes -> Sha, s: State, c: Command): (State, Outcome) {
    match c
    case Add(a) => ApplyAdd(h, s, a)
    case List => (s.(index := s.index - Stale(s)), Done)
    case RecordResult(ref, rec) =>
      var r := Resolve(s, ref);
      if r.Found? then (AppendRecord(s, r.name, rec), Done) else (s, Died)
    case Deploy(ref, known, exists') => ApplyDeploy(h, s, ref, known, exists')
    case Gc(force) => (if force then s.(blobs := s.blobs - Orphans(s)) else s, Done)
    case Untag(tag) =>
      if tag in s.tags then (s.(tags := s.tags - {tag}, index := s.index - {tag}), Done) else (s, Died)
    case ManualRemoveTag(tag) => (s.(tags := s.tags - {tag}), Done)
  }

  ghost function Run(h: Bytes -> Sha, s: State, cs: seq<Command>): State {
    if cs == [] then s else Apply(h, Run(h, s, cs[..|cs| - 1]), cs[|cs| - 1]).0
  }
}
