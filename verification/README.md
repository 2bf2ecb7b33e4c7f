# TideLink host programs, modelled in Dafny

The TideLink repository decides on the host what may be built, stored, deployed and believed. This
project models the programs that decide, and proves what they promise. Every module is one program or
one part of it.

| modules | program |
|---|---|
| `MatrixRunner`, `MatrixBatch`, `MatrixNames` | the CRC-matrix runner: workers sharing a queue, per-worker build directories, two gated phases |
| `CrcClassifier` | the scoreboard of that matrix |
| `ArtifactStore`, `ArtifactStoreLaws`, `ArtifactStoreOutcomes`, `ArtifactStoreCommands` | the content-addressed bitstream store |
| `FlistPath`, `FlistCanon`, `FlistParse`, `FlistGrammar`, `FlistLaws`, `FlistValues`, `FlistIncludes`, `FlistFollow`, `FlistComments` | the semantic model of filelists |
| `StarvationReplies`, `StarvationProbe`, `StarvationLaws`, `StarvationCommands` | the board verdict for L7 starvation recovery |
| `Injector`, `CrcShots`, `CrcStats`, `CrcDisarmed`, `Wilson` | the error injector, the CRC statistics run and its interval |
| `BitFile`, `ByteSwap` | the two `.bit` converters |
| `RdlRewrite`, `RdlSurvival`, `RdlLayout`, `RdlPaths` | the SystemRDL rewrite and the C register struct |
| `CommentStripper`, `CommentAutomaton` | comment stripping of the SystemVerilog lint |
| `AhbCompletion` | when an AHB-Lite access (AMBA 3 AHB-Lite, section 3.1) is complete |
| `Common` | shared vocabulary |

Code that changes state step by step is a method or a class here, proved equal to a function of its
inputs or of its old state; the laws are lemmas about those functions. What the programs cannot control
is a parameter: the hash of the store (any function from bytes to digests), the replies of a board (any
stream), the outcome of a simulation, the order in which workers act, the square root of the interval
(any number whose square is the radicand). Time windows are numbers of loop turns, which may be anything.

## What the proofs found

- The starvation probe also ends with status 1, its wedge status, when an exception escapes: the die data
  are missing from a marker-bearing selftest, burst or watch reply, or a signature the baseline or watch
  test needs cannot be read. `StatusOneIff` gives the exact condition on the replies, `FailingBoardRaises`
  boards that meet it. Those tests stop at die A when it settles them, so an unreadable die B can pass
  unnoticed (`HalfReadBoardRecovers`).
- Its recovery watch ignores the starvation bit that the signature includes, and one verified word is
  enough traffic for exit 0 (`StarvedBoardRecovers`). Its closing selftest looks at the marker and the
  reader only.
- The CRC statistics summary speaks of "crc +1", but any movement counts as detected, and a shot that
  needed a receiver flush goes out disarmed and still counts (`DisarmedShotPasses`). A counted shot was
  injected exactly if the receiver had room when its packet was first offered (`CrcStatsRun`).
- An arm that does not hold relocks the die and leaves the armed word written (`Injector.Bench.Arm`).
- Adding a stored master again ignores the slave that comes with it (`GivenSlaveIsRecordedIff`). A label spelled like a blob name is
  shadowed by that blob, and collection can then change what the label means.
- A batch can report only ok although a case failed exactly when two of its cases have the same name
  (`FailureCanBeHiddenIff`); a selection that is empty exits 0.
- A relative path that normalises to the text of a symbolic one, such as one with a leading dot, has the
  same identity as that one (`FilesAgreeIff`).
- Include expansion refuses every file reached twice, though its message speaks of a cycle.
- The RDL rewrite drops every `default hw` and `default sw` line as soon as it inlined anything, and the
  trailing comment of exactly the fields that absorb an assignment (`EveryOtherLineSurvives`).
- The AHB completion loop accepts unknown samples between its lows; its comment says consecutive lows
  (`UnknownsDoNotMatter`, `LowsNeedNotBeConsecutive`).

## Model

| member | source | states |
|---|---|---|
| `MatrixRunner.Verdict` | cocotb/tidelink_axi_datanode_recovery/run_crc_matrix.py:60-74 | a case passes iff its exit code is 0, its log has a verdict line, and the last readable RESULT record says ok |
| `MatrixRunner.DirNameInjective` | cocotb/tidelink_axi_datanode_recovery/run_crc_matrix.py:46 | two (build, worker) pairs never name the same directory on disk |
| `MatrixRunner.PopKeepsInv` | cocotb/tidelink_axi_datanode_recovery/run_crc_matrix.py:101-106 | taking the head of the shared queue keeps the pool invariant: it is launched once, on this worker, in a directory of this invocation |
| `MatrixRunner.FinishKeepsInv` | cocotb/tidelink_axi_datanode_recovery/run_crc_matrix.py:106-109 | finishing a case keeps the invariant: every launched case is either running on its worker or finished there exactly once |
| `MatrixRunner.EveryInterleavingKeepsInv` | cocotb/tidelink_axi_datanode_recovery/run_crc_matrix.py:96-115 | the invariant holds after every interleaving of the workers, for any number of workers and any set of cleaned directories |
| `MatrixRunner.NoSharedDirectory` | cocotb/tidelink_axi_datanode_recovery/run_crc_matrix.py:86-109 | in every interleaving, two cases running at the same time are different cases in different directories |
| `MatrixBatch.GatherAt` | cocotb/tidelink_axi_datanode_recovery/run_crc_matrix.py:111-115 | the report merged under the name of a finished case is the report of a finished case of that name, with the worker that ran it |
| `MatrixBatch.GatherComplete` | cocotb/tidelink_axi_datanode_recovery/run_crc_matrix.py:111-116 | when all workers have exited every case finds a report under its name |
| `MatrixBatch.CleanDirs` | cocotb/tidelink_axi_datanode_recovery/run_crc_matrix.py:92-95 | a directory survives iff an earlier phase of this invocation compiled it, or its build or worker is not in the batch; survivors are unchanged |
| `MatrixBatch.RunPool` | cocotb/tidelink_axi_datanode_recovery/run_crc_matrix.py:99-112 | the workers terminate under any scheduler, with the queue empty and nobody running |
| `MatrixBatch.RunBatch` | cocotb/tidelink_axi_datanode_recovery/run_crc_matrix.py:86-116 | each case is launched once, in queue order, never in a directory from before; the results are those of some interleaving; with distinct names result i is the report of case i from its one worker |
| `MatrixNames.DistinctNamesGiveOwnReports` | cocotb/tidelink_axi_datanode_recovery/run_crc_matrix.py:111-116 | under every interleaving, distinct names give each case its own report |
| `MatrixNames.RepeatedNameHidesFailure` | cocotb/tidelink_axi_datanode_recovery/run_crc_matrix.py:111-116 | for any two cases of one name there is a run in which the earlier fails and every reported result is ok |
| `MatrixNames.FailureCanBeHiddenIff` | cocotb/tidelink_axi_datanode_recovery/run_crc_matrix.py:111-116 | some run reports only ok although a case failed, iff two cases of the batch have the same name |
| `MatrixBatch.NotRun` | cocotb/tidelink_axi_datanode_recovery/run_crc_matrix.py:153-157 | the not-run count is 0 iff every case has a result under its name |
| `MatrixBatch.KeepIsCompiled` | cocotb/tidelink_axi_datanode_recovery/run_crc_matrix.py:143 | the (build, worker) pairs kept for the second phase are directories compiled by the first |
| `MatrixBatch.PositionsSelect` | cocotb/tidelink_axi_datanode_recovery/run_crc_matrix.py:132-133 | a phase selects exactly the cases whose group is one of its groups, each once and in order |
| `MatrixBatch.SelectionMeaning` | cocotb/tidelink_axi_datanode_recovery/run_crc_matrix.py:132-137 | all selected cases pass iff every case of those groups does |
| `MatrixBatch.RunTier` | cocotb/tidelink_axi_datanode_recovery/run_crc_matrix.py:132-169 | every Control and Mutant case is launched in phase one; exit 0 iff every Control, Mutant and Matrix case of the tier passed, 2 iff a Control or Mutant failed, and then no Matrix case is launched; both phases run only in directories of this invocation; an empty selection exits 0; with repeated names the code still follows the reports |
| `CrcClassifier.Book` | cocotb/tidelink_axi_datanode_recovery/crc_matrix_core.py:63-70 | each delivered item is counted on the first sent position holding it or is a stray, and deliveries = hits + strays |
| `CrcClassifier.SumSplits` | cocotb/tidelink_axi_datanode_recovery/crc_matrix_core.py:71-72 | hits = (sent positions - lost) + duplicates |
| `CrcClassifier.LossMeaning` | cocotb/tidelink_axi_datanode_recovery/crc_matrix_core.py:64-71 | nothing is lost iff the sent items are distinct and each of them arrived |
| `CrcClassifier.PermutationFromCounts` | cocotb/tidelink_axi_datanode_recovery/crc_matrix_core.py:73-89 | distinct items, nothing lost, duplicated or stray: the delivery is a permutation of what was sent |
| `CrcClassifier.CountsOfFaithful` | cocotb/tidelink_axi_datanode_recovery/crc_matrix_core.py:66-68 | a faithful delivery of distinct items books one hit per position |
| `CrcClassifier.LostCountsZeros` | cocotb/tidelink_axi_datanode_recovery/crc_matrix_core.py:71 | the lost figure is the number of sent positions without a hit |
| `CrcClassifier.Classify` | cocotb/tidelink_axi_datanode_recovery/crc_matrix_core.py:60-92 | EXACT or INERT iff both counters match, the sent items are distinct and delivered equals sent; conservation of deliveries; STRAY without a stray item is a non-identity permutation |
| `CrcClassifier.OneClass` | cocotb/tidelink_axi_datanode_recovery/crc_matrix_core.py:77-92 | the meanings of the classes exclude each other, so each class is given exactly when its meaning holds |
| `CrcClassifier.JudgeArm` | cocotb/tidelink_axi_datanode_recovery/crc_matrix_core.py:461-467 | an arm passes always when anything goes, iff its lists and counters have the expected class, or, for a mutant, iff not delivered exactly |
| `CrcClassifier.JudgeMutant` | cocotb/tidelink_axi_datanode_recovery/crc_matrix_core.py:461-467 | a mutant arm passes iff the counters match and the delivery is not the sent list of distinct items |
| `ArtifactStoreLaws.CopiedFiles` | pynq_host/td_artifact.py:223-245 | the copied files hold exactly the given bytes under their canonical names; copying completes iff every given file is readable |
| `ArtifactStoreLaws.NewBlobKeepsInv` | pynq_host/td_artifact.py:242-271 | a newly renamed-in blob is named by the hash of its master and records the hash of its slave; leftover staging of the same name is gone |
| `ArtifactStoreLaws.PointTagKeepsInv` | pynq_host/td_artifact.py:273-301 | moving a tag and its index entry keeps tags on finished blobs and the index agreeing with them |
| `ArtifactStoreLaws.AddKeepsInv` | pynq_host/td_artifact.py:214-292 | add keeps the store invariant on every path, the failing ones included |
| `ArtifactStoreLaws.SidecarsKeepInv` | pynq_host/td_artifact.py:468-484 | writing the sidecars keeps the invariant, and of every blob the bytes, the manifest and the results |
| `ArtifactStoreLaws.ApplyKeepsInv` | pynq_host/td_artifact.py:214-660 | every command keeps the invariant; listing makes the index exact again |
| `ArtifactStoreLaws.EveryRunKeepsInv` | pynq_host/td_artifact.py:214-660 | after every command sequence from an empty store: names are master hashes, recorded slave hashes are slave hashes, tags target finished blobs, the index agrees (exactly, unless a tag was removed behind the tool's back) |
| `ArtifactStoreLaws.DeployShipsWhatItExpects` | pynq_host/td_artifact.py:394-448 | after every run, each deploy plan makes both boards insist on exactly the hash of the bytes shipped to them |
| `ArtifactStoreLaws.StepIsWriteOnce` | pynq_host/td_artifact.py:231-271 | no command changes the bytes or manifest of a finished blob that it keeps; its results only grow at the end |
| `ArtifactStoreLaws.BlobsAreWriteOnce` | pynq_host/td_artifact.py:214-390 | over every run during which a blob lives, its bytes and manifest are unchanged and its results log is only appended to |
| `ArtifactStoreLaws.ReAddKeepsFirstSlave` | pynq_host/td_artifact.py:231-241 | adding a stored master again keeps the stored files and the recorded slave, whatever slave came with it |
| `ArtifactStoreLaws.GivenSlaveIsRecordedIff` | pynq_host/td_artifact.py:221-257 | a completed add leaves the given slave recorded iff the master was new or its recorded slave already agreed |
| `ArtifactStoreLaws.TagResolvesToAddedMaster` | pynq_host/td_artifact.py:180-200 | after an add the tag resolves to the added master iff the tag is not spelled like another blob |
| `ArtifactStoreLaws.GcRemovesExactlyOrphans` | pynq_host/td_artifact.py:551-574 | forced collection removes exactly the untagged finished blobs and changes nothing else |
| `ArtifactStoreLaws.GcIsIdempotent` | pynq_host/td_artifact.py:551-574 | collecting twice is collecting once |
| `ArtifactStoreLaws.GcKeepsLabelIffNotOrphanName` | pynq_host/td_artifact.py:180-200 | collection leaves a label's resolution unchanged iff the label is not spelled like an orphan blob |
| `ArtifactStoreLaws.GcCanRetargetLabel` | pynq_host/td_artifact.py:551-574 | a three-command run after which collection changes what a label means |
| `ArtifactStoreOutcomes.ResolveIff` | pynq_host/td_artifact.py:180-200 | a reference means a blob of that name, else the live target of the tag, else the only blob it is a prefix of |
| `ArtifactStoreOutcomes.UnresolvedIff` | pynq_host/td_artifact.py:192-200 | ambiguous iff two blobs fit and nothing is meant directly, unknown iff none does |
| `ArtifactStoreOutcomes.RecordOutcome` | pynq_host/td_artifact.py:369-390 | a resolved reference gets exactly one record at the end of exactly one blob, otherwise nothing happens |
| `ArtifactStoreOutcomes.UntagOutcome` | pynq_host/td_artifact.py:652-660 | exactly that label goes from tags and index, nothing else changes; an unknown one is refused |
| `ArtifactStoreOutcomes.ListOutcome` | pynq_host/td_artifact.py:304-321 | touches neither tags nor blobs; keeps exactly the index entries that have a tag |
| `ArtifactStoreOutcomes.GcOutcome` | pynq_host/td_artifact.py:551-580 | without force nothing changes |
| `ArtifactStoreOutcomes.AddOutcome` | pynq_host/td_artifact.py:214-249 | completes iff the given files it reads are readable and a stored master is intact; refused or crashed exactly otherwise |
| `ArtifactStoreOutcomes.AddLabels` | pynq_host/td_artifact.py:273-288 | the label and its index entry point at the master, every other label stays |
| `ArtifactStoreOutcomes.AddBlobs` | pynq_host/td_artifact.py:231-292 | a new master makes one blob with the given files and a manifest that says so; a stored one only gets the note; no other blob changes |
| `ArtifactStoreOutcomes.FailedAdd` | pynq_host/td_artifact.py:214-249 | an add that does not complete touches no finished blob, tag or index entry |
| `ArtifactStoreOutcomes.DeployOutcome` | pynq_host/td_artifact.py:394-448 | after every run: a plan iff the reference means a finished blob, the bridge is known and the script exists; a missing script leaves the sidecars written, every other refusal leaves the store as it was |
| `ArtifactStoreOutcomes.SidecarsMeaning` | pynq_host/td_artifact.py:468-484 | the sidecars written name the master, the slave only when one is recorded; nothing else changes |
| `ArtifactStoreCommands.Store.Resolve` | pynq_host/td_artifact.py:180-200 | the lookup by name, tag, then unique prefix; ambiguity reported |
| `ArtifactStoreCommands.Store.Stage` | pynq_host/td_artifact.py:245-249 | the staging directory holds what was copied before the first unreadable file |
| `ArtifactStoreCommands.Store.Add` | pynq_host/td_artifact.py:214-292 | the mutating command is the specified step, failing paths included |
| `ArtifactStoreCommands.Store.List` | pynq_host/td_artifact.py:304-321 | drops exactly the index entries without a tag |
| `ArtifactStoreCommands.Store.RecordResult` | pynq_host/td_artifact.py:369-390 | appends one record to the resolved blob |
| `ArtifactStoreCommands.Store.Deploy` | pynq_host/td_artifact.py:394-465 | verifies, writes sidecars and plans as specified |
| `ArtifactStoreCommands.Store.Gc` | pynq_host/td_artifact.py:551-580 | the loop over the blob directories removes the orphans, only when forced |
| `ArtifactStoreCommands.Store.Untag` | pynq_host/td_artifact.py:652-660 | removes the tag and its index entry, or refuses |
| `ArtifactStoreCommands.StopsAtMissing` | pynq_host/td_artifact.py:248-249 | once one given file is unreadable, no later file is copied |
| `FlistPath.SplitJoin` | scripts/flist_semantic.py:292-321 | splitting on slashes inverts joining of slash-free components |
| `FlistPath.JoinSplit` | scripts/flist_semantic.py:292-321 | joining the pieces of a path gives the path |
| `FlistPath.NormFoldWalks` | scripts/flist_semantic.py:311-319 | normalising a path below a deep enough root drops one root component per net climb |
| `FlistPath.NormUnderRoot` | scripts/flist_semantic.py:311-319 | the normalised path of root plus rest is the root shortened by the climb, then the remaining components |
| `FlistPath.RestWalkPlain` | scripts/flist_semantic.py:311-319 | what remains below the root are ordinary components of the written path |
| `FlistCanon.ExpandKeeps` | scripts/flist_semantic.py:230-251 | text without the root variable is unchanged by expansion; other variables stay symbolic |
| `FlistCanon.ExpandHome` | scripts/flist_semantic.py:230-251 | a leading root variable becomes the root, the rest is untouched |
| `FlistCanon.RelocateInside` | scripts/flist_semantic.py:311-317 | a path inside the root is emitted relative to it, the root itself as a dot |
| `FlistCanon.CanonInside` | scripts/flist_semantic.py:292-321 | a path under the variable that climbs nowhere has a canonical form made of its own components alone |
| `FlistCanon.CanonClimbing` | scripts/flist_semantic.py:311-319 | under any root with more components than the path climbs: relative if the path re-enters the root, else absolute with the remaining root components in front |
| `FlistCanon.CanonOutside` | scripts/flist_semantic.py:318-319 | under a tall enough root of one repeated component a climbing path stays absolute and keeps that component |
| `FlistCanon.PortablePath` | scripts/flist_semantic.py:292-321 | under any two roots the canonical form is the same, if the variable only leads and the path does not climb out |
| `FlistCanon.RootIndependentIff` | scripts/flist_semantic.py:292-321 | a path whose variable only leads has the same canonical form under all roots iff it does not climb out |
| `FlistParse.StripMeaning` | scripts/flist_semantic.py:338-339 | stripping removes exactly the white space at both ends |
| `FlistParse.ParseLines` | scripts/flist_semantic.py:324-396 | succeeds iff no line is faulty, with all records and comments in order and their line numbers; otherwise reports the first faulty line and its reason |
| `FlistValues.RelativeValue` | scripts/flist_semantic.py:320-321 | a relative path means how far it climbs and the components it then names |
| `FlistValues.AbsoluteValue` | scripts/flist_semantic.py:300-303 | an absolute path means its leading slashes and the components it names; climbing above the root is lost |
| `FlistValues.ShownIff` | scripts/flist_semantic.py:320-321 | two relative values are equal iff climb and components are |
| `FlistValues.FixedIff` | scripts/flist_semantic.py:300-303 | two absolute values are equal iff slashes and components are |
| `FlistValues.PlainIdentity` | scripts/flist_semantic.py:300-321 | a path that does not use the root: symbolic text is kept as it is, an absolute path has kind abs, every other one the kind of its directive |
| `FlistValues.HomeIdentity` | scripts/flist_semantic.py:311-317 | a path under the root variable means the components below it |
| `FlistValues.IdentityIsMeaning` | scripts/flist_semantic.py:292-321 | under every root an entry is identified by its meaning alone |
| `FlistValues.IdOfIff` | scripts/flist_semantic.py:458-461 | two meanings are one identity iff they are equal, or a relative path spells out a symbolic one |
| `FlistValues.IdsAreNames` | scripts/flist_semantic.py:336-389 | the identities are those of the entries, in order |
| `FlistValues.FilesAgreeIff` | scripts/flist_semantic.py:292-461 | two files, each under its own root, have equal identities iff their entries mean the same one by one |
| `FlistGrammar.LineGrammar` | scripts/flist_semantic.py:340-389 | each stripped line is blank, a comment, the spelling of exactly one entry, or a fault, whatever the order of the tests |
| `FlistLaws.RecordsAreFaithful` | scripts/flist_semantic.py:388-389 | every record comes from its own line, in strictly increasing line order, with that line's identity |
| `FlistLaws.NoLineIsSkipped` | scripts/flist_semantic.py:336-389 | every entry line has a record |
| `FlistLaws.NotesAreFaithful` | scripts/flist_semantic.py:342-344 | every note carries its own comment line, in line order |
| `FlistLaws.NoCommentIsSkipped` | scripts/flist_semantic.py:342-344 | every comment line has a note |
| `FlistLaws.CommentsDoNotMatter` | scripts/flist_semantic.py:338-344 | files with the same meaningful lines both fail or give the same identities |
| `FlistLaws.NoiseCanGo` | scripts/flist_semantic.py:340-344 | inserting or deleting a comment or blank line anywhere changes neither acceptance nor identities |
| `FlistLaws.SameIdsIff` | scripts/flist_semantic.py:458-461 | two ways of naming entries give the same identity list iff they agree on every entry of the file |
| `FlistLaws.ParsingIsPortable` | scripts/flist_semantic.py:324-461 | under any two roots the ordered identities, hence the key, are the same, if the variable only leads paths and none climbs out |
| `FlistLaws.RootIndependentFileIff` | scripts/flist_semantic.py:292-461 | the identities are the same under all roots iff no path climbs out |
| `FlistIncludes.OtherKindsStay` | scripts/flist_semantic.py:428-431 | a record of any kind but include stands for itself |
| `FlistIncludes.DeadIncludesStay` | scripts/flist_semantic.py:432-434 | so does an include with an unset variable or a missing target |
| `FlistIncludes.IncludesAreFollowed` | scripts/flist_semantic.py:435-442 | an include whose target exists is followed by everything its target expands to |
| `FlistIncludes.ExpandsInOrder` | scripts/flist_semantic.py:427-442 | a list of records expands part after part, with what was seen before, and fails as soon as one part does |
| `FlistIncludes.FileIsItsRecords` | scripts/flist_semantic.py:408-442 | a file not seen before, that exists and parses, is its own comments first and the expansion of its records |
| `FlistIncludes.ExpandGivesTree` | scripts/flist_semantic.py:408-442 | a walk that returns equals the pre-order text of a finite unfolding, comments included, reading no file twice |
| `FlistIncludes.TreeIsExpanded` | scripts/flist_semantic.py:408-442 | a finite unfolding that repeats no file is what the walk returns |
| `FlistIncludes.ExpandsIff` | scripts/flist_semantic.py:408-442 | the walk returns iff some finite unfolding reads no file twice; it always terminates |
| `FlistIncludes.UnfoldingIsUnique` | scripts/flist_semantic.py:408-442 | a file has at most one unfolding |
| `FlistIncludes.ChainIsRead` | scripts/flist_semantic.py:419-423 | along an include chain of an accepted file every file is read, all different |
| `FlistIncludes.CycleIsRejected` | scripts/flist_semantic.py:419-423 | a reachable cycle of real paths never returns a result |
| `FlistIncludes.DiamondIsRejected` | scripts/flist_semantic.py:419-423 | two records leading to one file never return a result, cycle or not |
| `FlistFollow.ParseFile` | scripts/flist_semantic.py:399-405 | a file is read iff it exists and parses, giving its records and comments |
| `FlistFollow.Walk.Follow` | scripts/flist_semantic.py:408-442 | the recursion over one mutable seen-set is the specified expansion |
| `FlistFollow.Walk.FollowAll` | scripts/flist_semantic.py:426-442 | the loop over the records of one file, stopping at the first refusal |
| `FlistFollow.FailureStays` | scripts/flist_semantic.py:440-441 | a refusal below one record refuses the whole file |
| `FlistFollow.TwiceIsRefused` | scripts/flist_semantic.py:419-423 | a concrete cycle-free include structure that is refused |
| `FlistComments.GreedyFinds` | scripts/flist_semantic.py:818-820 | a greedy success gives an order-preserving embedding |
| `FlistComments.GreedyIsComplete` | scripts/flist_semantic.py:818-820 | if any order-preserving embedding exists the greedy scan succeeds |
| `FlistComments.EmbedsBothWays` | scripts/flist_semantic.py:740-758 | lists embedding in each other are equal |
| `FlistComments.EmbedsTransitively` | scripts/flist_semantic.py:740-758 | embedding is transitive |
| `FlistComments.IsSubsequence` | scripts/flist_semantic.py:818-820 | the scan consuming one iterator decides whether an embedding exists |
| `FlistComments.NotBothSubsets` | scripts/flist_semantic.py:756-757 | the second branch answering identical is unreachable |
| `FlistComments.CommentRelation` | scripts/flist_semantic.py:740-758 | identical iff equal texts, a subset answer iff a strict subsequence that way, fork iff incomparable |
| `StarvationReplies.ReplyFields` | fpga/hw_regression/asic_l7_starvation_hwtest.py:335-350 | which fields of the two dies make a reply readable, a signature, a clear reading or a broken one |
| `StarvationProbe.QuietRunIff` | fpga/hw_regression/asic_l7_starvation_hwtest.py:441-492 | the number of quiet bursts before the watch is the only one that fits the replies and the window |
| `StarvationProbe.HeldRunIff` | fpga/hw_regression/asic_l7_starvation_hwtest.py:517-536 | the number of readings that still show the wedge is the only one that fits the replies and the watch |
| `StarvationProbe.Open` | fpga/hw_regression/asic_l7_starvation_hwtest.py:396-433 | staging, instrument, baseline and arming end as the replies decide, on every path |
| `StarvationProbe.Burst` | fpga/hw_regression/asic_l7_starvation_hwtest.py:446-492 | where one burst leads: on, to the watch, to an abort, to no result, or to an exception |
| `StarvationProbe.Induce` | fpga/hw_regression/asic_l7_starvation_hwtest.py:439-508 | bursts go on while they are quiet and the window is open, and no longer |
| `StarvationProbe.Reading` | fpga/hw_regression/asic_l7_starvation_hwtest.py:520-535 | what one reading of the watch means; die B is read only while the sticky bit of die A is down |
| `StarvationProbe.Discriminate` | fpga/hw_regression/asic_l7_starvation_hwtest.py:511-585 | readings go on while they show the wedge and the watch lasts, then the one closing exchange that fits |
| `StarvationProbe.Body` | fpga/hw_regression/asic_l7_starvation_hwtest.py:390-585 | exit and transcript are the function of the replies, the window and the watch that the laws below speak of |
| `StarvationProbe.Run` | fpga/hw_regression/asic_l7_starvation_hwtest.py:353-605 | the same for the whole program, refused arming and the final disarm included |
| `StarvationLaws.OpenIff` | fpga/hw_regression/asic_l7_starvation_hwtest.py:396-433 | the opening goes on iff the replies hold its whole evidence; when it raises and when it aborts |
| `StarvationLaws.InduceIff` | fpga/hw_regression/asic_l7_starvation_hwtest.py:439-508 | the watch is reached iff a signature comes within the window after quiet bursts only; when it raises and when it aborts |
| `StarvationLaws.WatchIff` | fpga/hw_regression/asic_l7_starvation_hwtest.py:511-585 | which of 0, 1 and an exception follows from the readings and the closing reply |
| `StarvationLaws.WatchDecides` | fpga/hw_regression/asic_l7_starvation_hwtest.py:511-585 | with a signature at one burst, the watch decides what the whole run has evidence for |
| `StarvationLaws.NoSignatureNoVerdict` | fpga/hw_regression/asic_l7_starvation_hwtest.py:497-508 | without a signature there is evidence for neither verdict |
| `StarvationLaws.VerdictIff` | fpga/hw_regression/asic_l7_starvation_hwtest.py:390-585 | over every stream of replies: exit 0, 1, 2 and an escaping exception, each iff its evidence is in the replies, in order and within window and watch; otherwise 3 |
| `StarvationLaws.StatusOneIff` | fpga/hw_regression/asic_l7_starvation_hwtest.py:353-605 | status 1 iff a wedge stayed through the whole watch with a live closing selftest, or an exception escapes; the condition is on the replies |
| `StarvationLaws.NoSignatureIsInconclusive` | fpga/hw_regression/asic_l7_starvation_hwtest.py:497-508 | nothing but quiet bursts: the whole window is spent and the answer is 3 |
| `StarvationLaws.NoMarkerNoVerdict` | fpga/hw_regression/asic_l7_starvation_hwtest.py:390-585 | a reply without the marker is the last one read, and the answer is 2 or 3 |
| `StarvationLaws.BodyInOrder` | fpga/hw_regression/asic_l7_starvation_hwtest.py:390-585 | the replies are read one after the other, and nothing is disarmed inside |
| `StarvationLaws.DisarmIsLast` | fpga/hw_regression/asic_l7_starvation_hwtest.py:587-593 | with arming, the disarm is the last agent command of every path and the only one |
| `StarvationCommands.OpeningCommands` | fpga/hw_regression/asic_l7_starvation_hwtest.py:290-433 | exchange 0 is obs, 1 the selftest, 2 the arming iff armed, each only after the one before went well |
| `StarvationCommands.BurstCommands` | fpga/hw_regression/asic_l7_starvation_hwtest.py:441-508 | traffic up to the first burst that is not quiet, or through the whole window |
| `StarvationCommands.WatchCommands` | fpga/hw_regression/asic_l7_starvation_hwtest.py:517-570 | after a signature only readings; the closing exchange is traffic iff a clear reading ended the watch, a selftest iff the whole watch was held |
| `StarvationCommands.ClosingCommand` | fpga/hw_regression/asic_l7_starvation_hwtest.py:539-585 | exit 0 is decided by good traffic asked for last, exit 1 by a live selftest asked for last |
| `StarvationCommands.RunCommands` | fpga/hw_regression/asic_l7_starvation_hwtest.py:353-605 | the whole run is the body, and after it the disarm iff armed |
| `StarvationLaws.StarvedBoardRecovers` | fpga/hw_regression/asic_l7_starvation_hwtest.py:531-532 | a board whose starvation bit never clears and whose bursts verify one word: the run ends with 0 |
| `StarvationLaws.HalfReadBoardRecovers` | fpga/hw_regression/asic_l7_starvation_hwtest.py:529-535 | a board whose die B cannot be read at one reading, hidden by the sticky bit of die A: the run ends with 0 |
| `StarvationLaws.FailingBoardRaises` | fpga/hw_regression/asic_l7_starvation_hwtest.py:320-530 | an agent that from any exchange of the selftest, the burst or the watch on only reports exceptions: the run ends with status 1 |
| `Injector.ArmValueFields` | pynq_host/hw_regress/injector_controls.py:51-52 | each field reads back from the word |
| `Injector.Bench.Arm` | pynq_host/hw_regress/injector_controls.py:176-198 | holds iff the register read 0 and a later read equals the word; every failed arm leaves the die locked; what was written on each path |
| `Injector.Bench.Disarm` | pynq_host/hw_regress/injector_controls.py:200-204 | writes 0, relocks, and reports whether 0 read back |
| `Injector.Bench.Send` | pynq_host/hw_regress/rev2hw.py:272-281 | writes only when the receiver has room |
| `Injector.Bench.Collect` | pynq_host/hw_regress/rev2hw.py:299-307 | drains at most eight packets |
| `Injector.Drive` | pynq_host/hw_regress/rev2hw.py:562-563 | all control packets count as good iff each came back as the only packet of its window |
| `Injector.WrongIdControl` | pynq_host/hw_regress/injector_controls.py:220-231 | the verdict is the one the board answers decide: not armed, given up at the first send without room, or the number of packets not echoed, whether both dies' counters read the same, whether the disarm read 0; the die is locked at every return |
| `CrcShots.TagsDoNotCollide` | pynq_host/hw_regress/rev2hw.py:573 | no packet of one shot or control passes for another shot's |
| `CrcShots.ShotsCoverDistinctBits` | pynq_host/hw_regress/rev2hw.py:572 | shots on the same byte corrupt different bits |
| `CrcShots.PlayedArmedIff` | pynq_host/hw_regress/rev2hw.py:579-585 | whatever the board answers, a shot goes out armed iff the receiver had room at its first offer |
| `CrcShots.AliveIff` | pynq_host/hw_regress/rev2hw.py:600-613 | the node is alive iff one of at most two fresh packets is accepted, perhaps after a flush, and delivered |
| `CrcStats.Liveness` | pynq_host/hw_regress/rev2hw.py:600-613 | alive only if one of two fresh packets was sent and came back |
| `CrcStats.Launch` | pynq_host/hw_regress/rev2hw.py:579-585 | the packet is sent straight after its own arm, or after a disarm when it had to be offered again; which, and when, is decided by the answers |
| `CrcStats.Shoot` | pynq_host/hw_regress/rev2hw.py:579-587 | a sent shot is collected in its own window and the die is locked again |
| `CrcStats.Inject` | pynq_host/hw_regress/rev2hw.py:574-590 | a counted shot lies between its two counter readings, whose 16-bit difference is its movement |
| `CrcStats.Fire` | pynq_host/hw_regress/rev2hw.py:571-621 | one iteration: the record is what crossed the bus, in order, with whether it was armed; it is the shot the answers decide |
| `CrcStats.ShotsAreConserved` | pynq_host/hw_regress/rev2hw.py:587-598 | shots = detected + inert + undetected-bad |
| `CrcStats.TallyCounts` | pynq_host/hw_regress/rev2hw.py:587-598 | each figure of the summary counts the shots of its sort |
| `CrcStats.TallyMeaning` | pynq_host/hw_regress/rev2hw.py:590-598 | no bad count iff every shot delivered exactly its packet; detected iff some counter moved |
| `CrcStats.SumOfDeltas` | pynq_host/hw_regress/injector_controls.py:120-131 | shots that each move the counter by less than 65536 are metered exactly |
| `CrcStats.LedgerClosesIff` | pynq_host/hw_regress/injector_controls.py:123-135 | the total check is empty iff the in-shot movements sum below 65536 and the rest is a multiple of 65536 |
| `CrcStats.Ready` | pynq_host/hw_regress/rev2hw.py:549-566 | shots are allowed iff the link is up, the injector idle, CRC checking on, eight clean packets exact and the counter quiet |
| `CrcStats.Shots` | pynq_host/hw_regress/rev2hw.py:571-621 | stops at the first shot without a live link; the list is a faithful, ordered record of the shots the answers decide |
| `CrcStats.Measure` | pynq_host/hw_regress/rev2hw.py:567-646 | the ledger verdict compares the whole movement with the sum of the shots |
| `CrcStats.JudgeMeaning` | pynq_host/hw_regress/rev2hw.py:646-671 | the verdict, each one by its condition on the shots and the ledger |
| `CrcStats.JudgedOnce` | pynq_host/hw_regress/rev2hw.py:646-671 | the conditions of the verdicts exclude each other, so each is given exactly when its condition holds |
| `CrcDisarmed.DisarmedShotPasses` | pynq_host/hw_regress/rev2hw.py:537-671 | a board for which the acceptance run passes with a counter step of five and its only shot disarmed |
| `CrcStats.CrcStatsRun` | pynq_host/hw_regress/rev2hw.py:537-671 | for every board behaviour the die is locked at return; refused iff the checks before the first shot fail; each shot armed iff the receiver had room at its first offer; of a run on a healthy link each verdict by its condition on shots and ledger; a pass iff all shots ran, each delivered exactly its packet, fresh packets got through, the ledger closed, and then, for small movements, nothing but a multiple of 65536 moved outside the shots |
| `Wilson.Algebra` | pynq_host/hw_regress/rev2hw.py:506-509 | the three inequalities behind the interval |
| `Wilson.IntervalContainsRatio` | pynq_host/hw_regress/rev2hw.py:502-510 | the interval contains k/n and lies in [0, 1]; neither clamp changes a bound |
| `Wilson.IntervalIsScoreTest` | pynq_host/hw_regress/rev2hw.py:502-510 | the interval is exactly the set of ratios x with (k/n - x)^2 at most z^2 x(1-x)/n |
| `Wilson.IntervalMirrors` | pynq_host/hw_regress/rev2hw.py:502-510 | counting failures instead mirrors the interval |
| `BitFile.ParseOfEncode` | fpga/scripts/bit2bin_zynqmp.py:45-81 | parsing an encoding gives back the header fields and the payload |
| `BitFile.Parse` | fpga/scripts/bit2bin_zynqmp.py:45-81 | whatever is accepted is the encoding of what is returned |
| `BitFile.BigEndian16` | fpga/scripts/bit2bin_zynqmp.py:48-62 | field lengths and the flag are big-endian |
| `BitFile.BigEndian32` | fpga/scripts/bit2bin_zynqmp.py:71-72 | so is the payload length |
| `BitFile.FieldLayout` | fpga/scripts/bit2bin_zynqmp.py:48-62 | a field is its length and its bytes |
| `BitFile.EncodeLayout` | fpga/scripts/bit2bin_zynqmp.py:45-76 | the whole file field by field, with its key bytes |
| `BitFile.SyncBytes` | fpga/scripts/bit2bin_zynqmp.py:86 | the four bytes of the sync word |
| `BitFile.WalkFields` | fpga/scripts/bit2bin_zynqmp.py:53-62 | the moving cursor consumes exactly the tagged fields |
| `BitFile.WalkPayload` | fpga/scripts/bit2bin_zynqmp.py:64-81 | the length field must equal what follows it |
| `BitFile.ParsePayload` | fpga/scripts/bit2bin_zynqmp.py:45-81 | the cursor walk finds the payload of exactly the files that are encodings |
| `BitFile.FindEarlySync` | fpga/scripts/bit2bin_zynqmp.py:86 | the sync word lies in the first 256 payload bytes |
| `BitFile.ConvertZynqMp` | fpga/scripts/bit2bin_zynqmp.py:41-93 | accepts a file iff it is an encoding with an early sync word, and returns exactly that payload |
| `BitFile.AcceptedFilesArePrefixFree` | fpga/scripts/bit2bin_zynqmp.py:76-81 | no accepted file is a strict prefix of another, so truncations and extensions are rejected |
| `ByteSwap.SwapTwice` | fpga/scripts/bit2bin.py:40-44 | swapping the bytes of each word twice is the identity |
| `ByteSwap.SwappedWord` | fpga/scripts/bit2bin.py:42-44 | the four bytes of a word come out reversed |
| `ByteSwap.PaddedWithZeros` | fpga/scripts/bit2bin.py:36-38 | padding adds zeros up to the next whole word |
| `ByteSwap.FindSync` | fpga/scripts/bit2bin.py:31-33 | the first sync word, or -1 iff there is none |
| `ByteSwap.SwapWords` | fpga/scripts/bit2bin.py:40-44 | the in-place loop writes each word reversed |
| `ByteSwap.ConvertZynq` | fpga/scripts/bit2bin.py:31-44 | fails iff there is no sync word; un-swapping gives the file from its first sync word, zero-padded |
| `ByteSwap.SyncsAreApart` | fpga/scripts/bit2bin.py:31 | sync words do not overlap |
| `ByteSwap.CutIsPayloadIff` | fpga/scripts/bit2bin.py:31-38 | for a .bit file the cut is the payload from its first sync word iff no sync word starts earlier in the file |
| `RdlRewrite.LookAhead` | scripts/rdl2c.py:113-153 | collects the inlinable properties and the other lines of the contiguous run |
| `RdlRewrite.PreprocessRdl` | scripts/rdl2c.py:88-190 | the two nested loops and the second pass compute the specified rewrite |
| `RdlRewrite.HoistingIsHarmless` | scripts/rdl2c.py:155-177 | moving inlinable assignments before the others keeps the last-write-wins property map |
| `RdlRewrite.BlockMeaning` | scripts/rdl2c.py:155-179 | a rewritten field block reads like the original one |
| `RdlRewrite.RewriteMeaning` | scripts/rdl2c.py:102-184 | the first pass keeps every field's explicit property map |
| `RdlRewrite.DefaultsAreNotExplicit` | scripts/rdl2c.py:186-188 | dropping default lines changes no explicit property |
| `RdlRewrite.PreprocessPreservesMeaning` | scripts/rdl2c.py:88-190 | the rewrite keeps, for every field in order, the last-write-wins map of explicit properties |
| `RdlSurvival.AbsorbsIff` | scripts/rdl2c.py:113-155 | a field absorbs something iff an inlinable assignment directly follows it |
| `RdlSurvival.InlinableIff` | scripts/rdl2c.py:65-66 | the nine properties that are moved |
| `RdlSurvival.AbsorbingField` | scripts/rdl2c.py:155-173 | an absorbing field keeps indent, name, width, reset and body, gains exactly the inlinable properties of its run in order, and loses only its comment |
| `RdlSurvival.OtherLine` | scripts/rdl2c.py:181-184 | every other line comes out as it went in |
| `RdlSurvival.DropDefaultsSelects` | scripts/rdl2c.py:186-188 | dropping keeps exactly the lines that are no default, in order |
| `RdlSurvival.RewriteSurvivors` | scripts/rdl2c.py:102-184 | the first pass outputs the lines that are not consumed, once and in order, unchanged except for fields that absorb something |
| `RdlSurvival.EveryOtherLineSurvives` | scripts/rdl2c.py:88-190 | the whole output, exactly: the same lines, without every default hw/sw line once anything was consumed; comments go exactly with absorbing fields |
| `RdlLayout.CollectRegisters` | scripts/rdl2c.py:200-278 | the recursive loop extends one list with the registers of every node in order |
| `RdlPaths.CollectedIff` | scripts/rdl2c.py:200-278 | exactly the registers some path of the tree leads to are collected, with the joined name and the summed address |
| `RdlPaths.CollectedHasPath` | scripts/rdl2c.py:200-278 | every collected register has a path |
| `RdlLayout.LaidElements` | scripts/rdl2c.py:228-244 | array elements are spaced by the stride |
| `RdlLayout.LaidList` | scripts/rdl2c.py:214-278 | of an address-ordered, aligned, non-overlapping tree the list is strictly ascending, aligned and disjoint |
| `RdlLayout.EmitStruct` | scripts/rdl2c.py:376-396 | the member loop with its running end |
| `RdlLayout.MembersAreRegisters` | scripts/rdl2c.py:378-394 | the members other than padding are the registers, each once and in order |
| `RdlLayout.MembersMatch` | scripts/rdl2c.py:378-394 | the members are placed right iff the registers are spaced, and then fill exactly up to the last register |
| `RdlLayout.StructIsFaithfulIff` | scripts/rdl2c.py:378-394 | every member sits at its register offset iff the registers are ascending, four apart and aligned |
| `RdlLayout.TreeStructIsFaithful` | scripts/rdl2c.py:200-394 | for every well-placed tree the struct has exactly the collected registers, in order, each at its offset, and they are spaced |
| `RdlLayout.Hex3RoundTrip` | scripts/rdl2c.py:384 | three-digit upper-case hex names read back as their number |
| `RdlLayout.ReservedNamesAreUnique` | scripts/rdl2c.py:380-384 | no two padding members share a name, for any spaced registers |
| `RdlLayout.ReservedAtOffset` | scripts/rdl2c.py:380-384 | a padding member is named after the offset it starts at |
| `RdlLayout.TreeReservedNamesAreUnique` | scripts/rdl2c.py:200-394 | no two padding members of the struct of a well-placed tree share a name |
| `CommentAutomaton.KeptIff` | cocotb/lint/sv_anti_pattern_lint.py:90-126 | a position survives iff a character-by-character automaton keeps it |
| `CommentAutomaton.StripMeaning` | cocotb/lint/sv_anti_pattern_lint.py:90-126 | the output is the source characters outside comments, and the newlines of closed block comments, in order |
| `CommentStripper.StripComments` | cocotb/lint/sv_anti_pattern_lint.py:90-126 | the scanning loop computes the specified strip |
| `CommentStripper.ScanLiteral` | cocotb/lint/sv_anti_pattern_lint.py:113-122 | a literal ends after its first unescaped quote, or at the end of the text |
| `CommentStripper.KeepNewlines` | cocotb/lint/sv_anti_pattern_lint.py:109-111 | exactly the newlines inside a block comment are kept |
| `CommentStripper.StripIsProjection` | cocotb/lint/sv_anti_pattern_lint.py:90-126 | the output is the source at strictly chosen positions |
| `CommentStripper.KeptIncreases` | cocotb/lint/sv_anti_pattern_lint.py:90-126 | the surviving positions are strictly increasing |
| `CommentStripper.KeptIsComplete` | cocotb/lint/sv_anti_pattern_lint.py:98-112 | no newline is dropped before an unterminated comment |
| `CommentStripper.LinesArePreserved` | cocotb/lint/sv_anti_pattern_lint.py:162-163 | every surviving character has the line number it has in the source |
| `CommentStripper.NewlineTotals` | cocotb/lint/sv_anti_pattern_lint.py:90-126 | newline totals agree iff the dropped tail has none, so always without an unterminated comment |
| `CommentStripper.StripIsIdempotent` | cocotb/lint/sv_anti_pattern_lint.py:90-126 | stripping twice is stripping once |
| `AhbCompletion.Run` | cocotb/eth_tidelink_pair_m1/eth_pair_common.py:65-90 | finishes at the first high that follows enough lows since the previous high, with that sample's data and response; times out iff there is none |
| `AhbCompletion.UnknownsDoNotMatter` | cocotb/eth_tidelink_pair_m1/eth_pair_common.py:70-83 | inserting an unknown sample anywhere changes nothing about which samples complete the access |
| `AhbCompletion.LowsNeedNotBeConsecutive` | cocotb/eth_tidelink_pair_m1/eth_pair_common.py:81-83 | an access that completes although an unknown sample separates its lows |
| `AhbCompletion.OscillationNeverCompletes` | cocotb/eth_tidelink_pair_m1/eth_pair_common.py:65-83 | accept pulses alone never complete an access |

## Left out

- Memory-mapped access, ssh, subprocesses, argument parsing, printing and file formats: board replies, register reads and simulation outcomes are parameters.
- SHA-256, JSON, YAML, regular expressions and the SystemRDL compiler: hashes are any function, keys are digests of the identity lists proved equal, log and RDL lines are already recognised tokens, register trees are already elaborated.
- Wall-clock time and sleeps: windows and timeouts are numbers of loop turns; floating-point rounding in the interval: real numbers.
- MatrixRunner.EveryInterleavingKeepsInv: one event is one whole action of a worker (pop, finish, exit), so a failing `rmtree`, whose errors the source ignores, and a worker that raises are not modelled.
- MatrixBatch.RunTier: per-case environment, log file names, the `--only` filter and the printed summary are not modelled; a case is its name, group, build and simulation outcome.
- ArtifactStore: references and labels that are paths (empty, dots, slashes) resolve through the file system in the source; here names are map keys.
- ArtifactStoreLaws.DeployShipsWhatItExpects: models the bitstream choice and expected-hash precedence of pynq_host/scripts/deploy_pair.sh:125-140 and 176-206 only for a blob directory; the flashing itself, `verify`, `show` and record formatting are not modelled.
- FlistCanon.RootIndependentIff: about paths that do not contain the root variable, are absolute, or contain it once and in front, which is where independence is promised; a variable in the middle of a path is not classified.
- FlistCanon.CanonClimbing: stated for roots with more components than the path climbs; a path that climbs to or past the file system root is normalised by the model but has no closed form here.
- FlistParse.ParseLines: a text that does not decode and the wording of the errors are not modelled.
- FlistIncludes.ExpandsIff: where an include points is a function of its record; environment lookup, the allowlist and `check` are not modelled.
- StarvationProbe.Run: a JSON reply is marker, flags, word count and the two dies' status words; replies whose fields have the wrong type, exceptions of the transport itself, and failures of writing the report are not modelled.
- CrcStats.CrcStatsRun: the board is read at successive ticks of an arbitrary oracle; late copies of a lost packet, the printed tables and the Wilson figures in the verdict text are not modelled. The sweep and the stream commands are variations of this run and are left out.
- Injector.Bench.Collect: a packet is the list of words drained; header decoding is not modelled.
- ByteSwap.SwapWords: writes a fresh buffer, as the source does; reading and writing the files is not modelled.
- RdlRewrite.PreprocessPreservesMeaning: the meaning of a file is the explicit properties of each field; inherited `default` values are exactly what the rewrite does not keep.
- RdlLayout.TreeStructIsFaithful: one-dimensional arrays of 32-bit registers; arrays of register files and several dimensions, of which the source uses only the first, are not modelled, nor is a register whose own name looks like a padding name.
- The case-without-default and latch checks of the lint are deliberately approximate and have no sound meaning to prove; `_find_matching_end` only serves them.
- Dashboards, documentation generators, report parsers, constant tables and the cocotb harness copies: formatting, or drivers of RTL that is not part of this model.
