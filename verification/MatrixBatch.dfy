/** Batches and the two-phase gate of the CRC-matrix runner, over the worker pool of `MatrixRunner`. */
module MatrixBatch {
  import opened Common
  import opened MatrixRunner

  datatype Report = Report(item: Case, ok: bool, worker: nat)

  predicate DistinctNames(cases: seq<Case>) {
    forall i, j :: 0 <= i < j < |cases| ==> cases[i].name != cases[j].name
  }

  predicate InRange(cases: seq<Case>, done: seq<nat>) {
    forall k :: 0 <= k < |done| ==> done[k] < |cases|
  }

  // ---------- collecting results by name ----------

  function GatherWorker(cases: seq<Case>, sims: nat -> Sim, done: seq<nat>, w: nat, acc: map<string, Report>)
    : map<string, Report>
    requires InRange(cases, done)
  {
    if done == [] then acc
    else
      var i := done[|done| - 1];
      GatherWorker(cases, sims, done[..|done| - 1], w, acc)[cases[i].name := Report(cases[i], Passed(sims(i)), w)]
  }

  function Gather(cases: seq<Case>, sims: nat -> Sim, out: seq<seq<nat>>): map<string, Report>
    requires forall w :: 0 <= w < |out| ==> InRange(cases, out[w])
  {
    if out == [] then map[]
    else GatherWorker(cases, sims, out[|out| - 1], |out| - 1, Gather(cases, sims, out[..|out| - 1]))
  }

  /** Entry k is the last one of that name. */
  predicate LastNamed(cases: seq<Case>, done: seq<nat>, k: int, n: string)
    requires InRange(cases, done)
  {
    0 <= k < |done| && cases[done[k]].name == n && forall m :: k < m < |done| ==> cases[done[m]].name != n
  }

  /** Under name n the worker's last entry for n wins; without one the accumulator stands. */
  lemma {:induction false} GatherWorkerAt(cases: seq<Case>, sims: nat -> Sim, done: seq<nat>, w: nat,
                                          acc: map<string, Report>, n: string)
    requires InRange(cases, done)
    ensures var r := GatherWorker(cases, sims, done, w, acc);
            if exists k :: 0 <= k < |done| && cases[done[k]].name == n then
              n in r && exists k :: LastNamed(cases, done, k, n) &&
                                    r[n] == Report(cases[done[k]], Passed(sims(done[k])), w)
            else (n in r <==> n in acc) && (n in acc ==> r[n] == acc[n])
  {
    if done != [] {
      var last := |done| - 1;
      var front := done[..last];
      GatherWorkerAt(cases, sims, front, w, acc, n);
      if cases[done[last]].name == n {
        assert LastNamed(cases, done, last, n);
      } else {
        StillLast(cases, done, n);
      }
    }
  }

  lemma StillLast(cases: seq<Case>, done: seq<nat>, n: string)
    requires InRange(cases, done) && done != [] && cases[done[|done| - 1]].name != n
    ensures var front := done[..|done| - 1];
            && InRange(cases, front)
            && forall k :: LastNamed(cases, front, k, n) <==> LastNamed(cases, done, k, n)
  {
  }

  /** Every gathered report is the report of a finished case of that name, from the worker that ran it. */
  lemma {:induction false} GatherAt(cases: seq<Case>, sims: nat -> Sim, out: seq<seq<nat>>, v: nat, l: nat)
    requires forall w :: 0 <= w < |out| ==> InRange(cases, out[w])
    requires v < |out| && l < |out[v]| && InRange(cases, out[v])
    ensures var n := cases[out[v][l]].name;
            var r := Gather(cases, sims, out);
            n in r && exists w, k :: 0 <= w < |out| && 0 <= k < |out[w]| && cases[out[w][k]].name == n &&
                                     r[n] == Report(cases[out[w][k]], Passed(sims(out[w][k])), w)
  {
    var front, last := out[..|out| - 1], |out| - 1;
    var n := cases[out[v][l]].name;
    GatherWorkerAt(cases, sims, out[last], last, Gather(cases, sims, front), n);
    if k :| 0 <= k < |out[last]| && cases[out[last][k]].name == n {
    } else {
      assert front[v] == out[v];
      GatherAt(cases, sims, front, v, l);
      var w, k :| 0 <= w < |front| && 0 <= k < |front[w]| && cases[front[w][k]].name == n &&
        Gather(cases, sims, front)[n] == Report(cases[front[w][k]], Passed(sims(front[w][k])), w);
      assert out[w][k] == front[w][k];
    }
  }

  /** When all workers have exited, looking up by name yields one report per case, in case order. */
  lemma GatherComplete(cases: seq<Case>, jobs: nat, sims: nat -> Sim, p: Pool, i: nat)
    requires Inv(cases, jobs, p) && Exited(cases, jobs, p) && i < |cases|
    ensures var r := Gather(cases, sims, p.out);
            && cases[i].name in r
            && ReportsSome(cases, sims, p.launches, r[cases[i].name], cases[i].name)
  {
    var w := p.launches[i].worker;
    assert i in p.out[w];
    var l :| 0 <= l < |p.out[w]| && p.out[w][l] == i;
    GatherAt(cases, sims, p.out, w, l);
    var r := Gather(cases, sims, p.out);
    var v, k :| 0 <= v < |p.out| && 0 <= k < |p.out[v]| && cases[p.out[v][k]].name == cases[i].name &&
      r[cases[i].name] == Report(cases[p.out[v][k]], Passed(sims(p.out[v][k])), v);
    var j := p.out[v][k];
    assert p.launches[j].worker == v;
  }

  // ---------- one batch ----------

  function Builds(cases: seq<Case>): set<string> {
    set c | c in cases :: c.build
  }

  function Workers(jobs: int): nat {
    if jobs < 1 then 1 else jobs
  }

  /** Removes every build directory of the batch that an earlier phase did not compile. */
  method CleanDirs(cases: seq<Case>, jobs: nat, keep: set<Dir>, dirs: Dirs) returns (left: Dirs)
    requires forall d :: d in keep && d in dirs ==> dirs[d] == Compiled
    ensures Fresh(cases, jobs, left)
    ensures forall d :: d in left ==> d in dirs && left[d] == dirs[d]
    ensures forall d :: d in dirs ==> (d in left <==> d in keep || d.0 !in Builds(cases) || d.1 >= jobs)
  {
    left := dirs;
    var todo := Builds(cases);
    while todo != {}
      invariant forall d :: d in left ==> d in dirs && left[d] == dirs[d]
      invariant todo <= Builds(cases)
      invariant forall d :: d in left && d.0 in Builds(cases) - todo && d.1 < jobs ==> d in keep
      invariant forall d :: d in dirs && (d in keep || d.0 !in Builds(cases) || d.1 >= jobs) ==> d in left
    {
      var b :| b in todo;
      for w := 0 to jobs
        invariant forall d :: d in left ==> d in dirs && left[d] == dirs[d]
        invariant forall d :: d in left && d.0 in Builds(cases) - todo && d.1 < jobs ==> d in keep
        invariant forall d :: d in left && d.0 == b && d.1 < w ==> d in keep
        invariant forall d :: d in dirs && (d in keep || d.0 !in Builds(cases) || d.1 >= jobs) ==> d in left
      {
        if (b, w) !in keep {
          left := left - {(b, w)};
        }
      }
      todo := todo - {b};
    }
  }

  ghost predicate Batched(cases: seq<Case>, sims: nat -> Sim, results: seq<Report>, launches: seq<Launch>) {
    && |results| == |launches| == |cases|
    && (forall i :: 0 <= i < |cases| ==> launches[i].index == i && launches[i].age == Compiled)
    && (forall i :: 0 <= i < |cases| ==> ReportsSome(cases, sims, launches, results[i], cases[i].name))
  }

  ghost predicate ReportsSome(cases: seq<Case>, sims: nat -> Sim, launches: seq<Launch>, r: Report, name: string)
    requires |launches| == |cases|
  {
    exists j :: 0 <= j < |cases| && cases[j].name == name && r == Report(cases[j], Passed(sims(j)), launches[j].worker)
  }

  ghost function Busy(p: Pool): set<nat> {
    set w: nat | w < |p.running| && p.running[w].Some?
  }

  ghost function Active(p: Pool): set<nat> {
    set w: nat | w < |p.stopped| && !p.stopped[w]
  }

  /** Result i is the report of case i from the one worker that launched it. */
  ghost predicate InOrder(cases: seq<Case>, sims: nat -> Sim, results: seq<Report>, launches: seq<Launch>) {
    && |results| == |launches| == |cases|
    && forall i :: 0 <= i < |cases| ==> results[i] == Report(cases[i], Passed(sims(i)), launches[i].worker)
  }

  predicate Exited(cases: seq<Case>, jobs: nat, p: Pool)
    requires Shaped(cases, jobs, p)
  {
    p.next == |cases| && forall w :: 0 <= w < jobs ==> p.running[w].None?
  }

  /** Every event brings the pool closer to its end: a pop, else a finish, else an exit. */
  lemma EveryEventAdvances(cases: seq<Case>, p: Pool, e: Event)
    requires Shaped(cases, |p.running|, p) && Enabled(cases, p, e)
    ensures var q := Next(cases, p, e);
            || q.next > p.next
            || (q.next == p.next && Busy(q) < Busy(p))
            || (q.next == p.next && Busy(q) == Busy(p) && Active(q) < Active(p))
  {
    var q := Next(cases, p, e);
    if e.Finish? {
      assert Busy(q) == Busy(p) - {e.w} && e.w in Busy(p);
    } else if e.Exit? {
      assert Busy(q) == Busy(p) && Active(q) == Active(p) - {e.w} && e.w in Active(p);
    }
  }

  /** Lets the workers act in any order until all have exited; `es` is the order they took. */
  method RunPool(cases: seq<Case>, jobs: nat, dirs: Dirs) returns (p: Pool, ghost es: seq<Event>)
    requires jobs > 0 && Fresh(cases, jobs, dirs)
    ensures Inv(cases, jobs, p) && Exited(cases, jobs, p)
    ensures After(cases, Start(jobs, dirs), es) == Some(p)
  {
    p, es := Start(jobs, dirs), [];
    StartInv(cases, jobs, dirs);
    while exists w :: 0 <= w < jobs && !p.stopped[w]
      invariant Inv(cases, jobs, p) && After(cases, Start(jobs, dirs), es) == Some(p)
      decreases |cases| - p.next, Busy(p), Active(p)
    {
      var w :| 0 <= w < jobs && !p.stopped[w];
      var e := if p.running[w].Some? then Finish(w) else if p.next < |cases| then Pop(w) else Exit(w);
      NextKeepsInv(cases, jobs, p, e);
      AfterOne(cases, Start(jobs, dirs), es, e);
      EveryEventAdvances(cases, p, e);
      p, es := Next(cases, p, e), es + [e];
    }
    assert p.stopped[0];
  }

  ghost predicate Named(cases: seq<Case>, sims: nat -> Sim, launches: seq<Launch>, byName: map<string, Report>)
    requires |launches| == |cases|
  {
    forall i :: 0 <= i < |cases| ==>
                  cases[i].name in byName && ReportsSome(cases, sims, launches, byName[cases[i].name], cases[i].name)
  }

  lemma GatherNamesAll(cases: seq<Case>, jobs: nat, sims: nat -> Sim, p: Pool)
    requires Inv(cases, jobs, p) && Exited(cases, jobs, p)
    ensures Named(cases, sims, p.launches, Gather(cases, sims, p.out))
  {
    forall i | 0 <= i < |cases|
      ensures var r := Gather(cases, sims, p.out);
              cases[i].name in r && ReportsSome(cases, sims, p.launches, r[cases[i].name], cases[i].name)
    {
      GatherComplete(cases, jobs, sims, p, i);
    }
  }

  predicate ReadBack(cases: seq<Case>, byName: map<string, Report>, results: seq<Report>) {
    && |results| == |cases|
    && forall i :: 0 <= i < |cases| ==> cases[i].name in byName && results[i] == byName[cases[i].name]
  }

  /** The interleaving es, from the cleaned directories, ends with every case done and yields these results. */
  ghost predicate ReachedBy(cases: seq<Case>, jobs: nat, sims: nat -> Sim, results: seq<Report>, clean: Dirs,
                            es: seq<Event>)
  {
    && Fresh(cases, jobs, clean)
    && var q := After(cases, Start(jobs, clean), es);
       && q.Some? && Shaped(cases, jobs, q.value) && Exited(cases, jobs, q.value)
       && (forall w :: 0 <= w < |q.value.out| ==> InRange(cases, q.value.out[w]))
       && ReadBack(cases, Gather(cases, sims, q.value.out), results)
  }

  /** Reads the merged results back in case order. */
  method InCaseOrder(cases: seq<Case>, sims: nat -> Sim, ghost launches: seq<Launch>, byName: map<string, Report>)
    returns (results: seq<Report>)
    requires |launches| == |cases| && Named(cases, sims, launches, byName)
    ensures |results| == |cases|
    ensures forall i :: 0 <= i < |cases| ==> ReportsSome(cases, sims, launches, results[i], cases[i].name)
    ensures ReadBack(cases, byName, results)
  {
    results := [];
    for i := 0 to |cases|
      invariant |results| == i
      invariant forall k :: 0 <= k < i ==> results[k] == byName[cases[k].name]
      invariant forall k :: 0 <= k < i ==> ReportsSome(cases, sims, launches, results[k], cases[k].name)
    {
      results := results + [byName[cases[i].name]];
    }
  }

  /**
   Runs a batch under any scheduler: every case is launched once, in queue order, never in a
   directory left over from before; with distinct names result i is the report of case i.
   */
  method RunBatch(cases: seq<Case>, jobs: int, keep: set<Dir>, dirs: Dirs, sims: nat -> Sim)
    returns (results: seq<Report>, left: Dirs, launches: seq<Launch>, ghost clean: Dirs, ghost es: seq<Event>)
    requires forall d :: d in keep && d in dirs ==> dirs[d] == Compiled
    ensures ReachedBy(cases, Workers(jobs), sims, results, clean, es)
    ensures Batched(cases, sims, results, launches)
    ensures LaunchDirsOk(cases, launches, left)
    ensures DistinctNames(cases) ==> InOrder(cases, sims, results, launches)
  {
    if cases == [] {
      return [], dirs, [], dirs, [];
    }
    left := CleanDirs(cases, Workers(jobs), keep, dirs);
    var p;
    clean := left;
    p, es := RunPool(cases, Workers(jobs), left);
    left, launches := p.dirs, p.launches;
    GatherNamesAll(cases, Workers(jobs), sims, p);
    results := InCaseOrder(cases, sims, launches, Gather(cases, sims, p.out));
    if DistinctNames(cases) {
      NamesPickReports(cases, sims, results, launches);
    }
  }

  lemma NamesPickReports(cases: seq<Case>, sims: nat -> Sim, results: seq<Report>, launches: seq<Launch>)
    requires DistinctNames(cases) && Batched(cases, sims, results, launches)
    ensures InOrder(cases, sims, results, launches)
  {
    forall i | 0 <= i < |cases|
      ensures results[i] == Report(cases[i], Passed(sims(i)), launches[i].worker)
    {
      assert ReportsSome(cases, sims, launches, results[i], cases[i].name);
    }
  }

  // ---------- the two phases ----------

  /** The positions of the cases of some groups, in order. */
  function Positions(cases: seq<Case>, groups: set<Group>): seq<nat> {
    if cases == [] then []
    else
      var last := |cases| - 1;
      Positions(cases[..last], groups) + if cases[last].group in groups then [last] else []
  }

  /** Strictly increasing positions of exactly the cases whose group is among the groups. */
  predicate IsSelection(cases: seq<Case>, groups: set<Group>, pos: seq<nat>) {
    && (forall k :: 0 <= k < |pos| ==> pos[k] < |cases| && cases[pos[k]].group in groups)
    && (forall j, k :: 0 <= j < k < |pos| ==> pos[j] < pos[k])
    && (forall i :: 0 <= i < |cases| && cases[i].group in groups ==> i in pos)
  }

  lemma {:induction false} PositionsSelect(cases: seq<Case>, groups: set<Group>)
    ensures IsSelection(cases, groups, Positions(cases, groups))
  {
    if cases != [] {
      var front := cases[..|cases| - 1];
      PositionsSelect(front, groups);
      assert forall i :: 0 <= i < |front| ==> front[i] == cases[i];
    }
  }

  function At(cases: seq<Case>, pos: seq<nat>): seq<Case>
    requires forall k :: 0 <= k < |pos| ==> pos[k] < |cases|
  {
    seq(|pos|, k requires 0 <= k < |pos| => cases[pos[k]])
  }

  /** The simulations of the selected cases. */
  function SimsAt(sims: nat -> Sim, pos: seq<nat>): nat -> Sim {
    (k: nat) => if k < |pos| then sims(pos[k]) else sims(0)
  }

  predicate DistinctIn(cases: seq<Case>, groups: set<Group>) {
    forall i, j :: 0 <= i < j < |cases| && cases[i].group in groups && cases[j].group in groups ==>
                     cases[i].name != cases[j].name
  }

  ghost predicate GroupPasses(cases: seq<Case>, groups: set<Group>, sims: nat -> Sim) {
    forall i :: 0 <= i < |cases| && cases[i].group in groups ==> Passed(sims(i))
  }

  lemma SelectionMeaning(cases: seq<Case>, groups: set<Group>, pos: seq<nat>, sims: nat -> Sim)
    requires IsSelection(cases, groups, pos)
    ensures DistinctIn(cases, groups) ==> DistinctNames(At(cases, pos))
    ensures AllPass(At(cases, pos), SimsAt(sims, pos)) <==> GroupPasses(cases, groups, sims)
  {
    if AllPass(At(cases, pos), SimsAt(sims, pos)) {
      forall i | 0 <= i < |cases| && cases[i].group in groups
        ensures Passed(sims(i))
      {
        var k :| 0 <= k < |pos| && pos[k] == i;
        assert Passed(SimsAt(sims, pos)(k));
      }
    }
  }

  ghost predicate AllPass(cases: seq<Case>, sims: nat -> Sim) {
    forall i :: 0 <= i < |cases| ==> Passed(sims(i))
  }

  predicate AllOk(results: seq<Report>) {
    forall i :: 0 <= i < |results| ==> results[i].ok
  }

  lemma AllOkIffAllPass(cases: seq<Case>, sims: nat -> Sim, results: seq<Report>, launches: seq<Launch>)
    requires InOrder(cases, sims, results, launches)
    ensures AllOk(results) <==> AllPass(cases, sims)
  {
    assert forall i :: 0 <= i < |cases| ==> results[i].ok == Passed(sims(i));
  }

  method Failures(results: seq<Report>) returns (n: nat)
    ensures n == 0 <==> AllOk(results)
  {
    n := 0;
    for i := 0 to |results|
      invariant n == 0 <==> forall k :: 0 <= k < i ==> results[k].ok
    {
      if !results[i].ok {
        n := n + 1;
      }
    }
  }

  predicate HasResult(results: seq<Report>, name: string) {
    exists r :: r in results && r.item.name == name
  }

  /** Counts the matrix cases that have no result; none when the batch ran. */
  method NotRun(cases: seq<Case>, results: seq<Report>) returns (n: nat)
    ensures n == 0 <==> forall i :: 0 <= i < |cases| ==> HasResult(results, cases[i].name)
  {
    n := 0;
    var ran := set r | r in results :: r.item.name;
    assert forall name :: name in ran <==> HasResult(results, name);
    for i := 0 to |cases|
      invariant n == 0 <==> forall j :: 0 <= j < i ==> cases[j].name in ran
    {
      if cases[i].name !in ran {
        n := n + 1;
      }
    }
  }

  lemma KeepIsCompiled(cases: seq<Case>, sims: nat -> Sim, results: seq<Report>, launches: seq<Launch>, dirs: Dirs)
    requires Batched(cases, sims, results, launches) && LaunchDirsOk(cases, launches, dirs)
    ensures forall r :: r in results ==> (r.item.build, r.worker) in dirs && dirs[(r.item.build, r.worker)] == Compiled
  {
    forall r | r in results
      ensures (r.item.build, r.worker) in dirs && dirs[(r.item.build, r.worker)] == Compiled
    {
      var i :| 0 <= i < |results| && results[i] == r;
      assert ReportsSome(cases, sims, launches, results[i], cases[i].name);
    }
  }

  lemma BatchRanAll(cases: seq<Case>, sims: nat -> Sim, results: seq<Report>, launches: seq<Launch>)
    requires Batched(cases, sims, results, launches)
    ensures forall i :: 0 <= i < |cases| ==> HasResult(results, cases[i].name)
  {
    forall i | 0 <= i < |cases|
      ensures HasResult(results, cases[i].name)
    {
      assert ReportsSome(cases, sims, launches, results[i], cases[i].name);
      assert results[i] in results;
    }
  }

  const CONTROLS := {Control, Mutant}

  /**
   Controls first; the matrix only if every control is ok.  Every Control and Mutant case is launched
   in the first phase.  Exit 0 iff every Control, Mutant and Matrix case passed, 2 iff a Control or a
   Mutant did not, and then nothing of the matrix was launched.  Nothing in either phase runs in a
   directory from before this invocation.
   */
  method RunTier(cases: seq<Case>, jobs: int, dirs: Dirs, sims: nat -> Sim)
    returns (code: int, controls: seq<Report>, matrix: seq<Report>, first: seq<Launch>, second: seq<Launch>,
             ctl: seq<nat>, mat: seq<nat>)
    ensures code in {0, 1, 2}
    ensures IsSelection(cases, {Control, Mutant}, ctl) && IsSelection(cases, {Matrix}, mat)
    ensures Batched(At(cases, ctl), SimsAt(sims, ctl), controls, first)
    ensures if code == 2 then matrix == [] && second == []
            else Batched(At(cases, mat), SimsAt(sims, mat), matrix, second)
    ensures DistinctIn(cases, {Control, Mutant}) ==>
              && InOrder(At(cases, ctl), SimsAt(sims, ctl), controls, first)
              && (code == 2 <==> !GroupPasses(cases, {Control, Mutant}, sims))
    ensures DistinctIn(cases, {Control, Mutant}) && DistinctIn(cases, {Matrix}) ==>
              && (code != 2 ==> InOrder(At(cases, mat), SimsAt(sims, mat), matrix, second))
              && (code == 0 <==> GroupPasses(cases, {Control, Mutant, Matrix}, sims))
    ensures (code == 2 <==> !AllOk(controls)) && (code == 0 <==> AllOk(controls) && AllOk(matrix))
    ensures (forall i :: 0 <= i < |cases| ==> cases[i].group.Unlisted?) ==> code == 0 && first == [] && second == []
  {
    ctl, mat := Positions(cases, CONTROLS), Positions(cases, {Matrix});
    PositionsSelect(cases, CONTROLS);
    PositionsSelect(cases, {Matrix});
    SelectionMeaning(cases, CONTROLS, ctl, sims);
    SelectionMeaning(cases, {Matrix}, mat, sims);
    GroupsSplit(cases, sims);
    if forall i :: 0 <= i < |cases| ==> cases[i].group.Unlisted? {
      EmptySelectionIff(cases, CONTROLS, ctl);
      EmptySelectionIff(cases, {Matrix}, mat);
    }
    code, controls, matrix, first, second :=
      RunPhases(At(cases, ctl), At(cases, mat), jobs, dirs, SimsAt(sims, ctl), SimsAt(sims, mat));
  }

  lemma GroupsSplit(cases: seq<Case>, sims: nat -> Sim)
    ensures GroupPasses(cases, {Control, Mutant, Matrix}, sims) <==>
            GroupPasses(cases, {Control, Mutant}, sims) && GroupPasses(cases, {Matrix}, sims)
  {
  }

  lemma EmptySelectionIff(cases: seq<Case>, groups: set<Group>, pos: seq<nat>)
    requires IsSelection(cases, groups, pos)
    ensures pos == [] <==> forall i :: 0 <= i < |cases| ==> cases[i].group !in groups
  {
    if pos != [] {
      assert cases[pos[0]].group in groups;
    }
  }

  /** The two gated phases on the selected cases. */
  method RunPhases(ctl: seq<Case>, mat: seq<Case>, jobs: int, dirs: Dirs, controlSims: nat -> Sim,
                   matrixSims: nat -> Sim)
    returns (code: int, controls: seq<Report>, matrix: seq<Report>, first: seq<Launch>, second: seq<Launch>)
    ensures code in {0, 1, 2}
    ensures Batched(ctl, controlSims, controls, first)
    ensures if code == 2 then matrix == [] && second == [] else Batched(mat, matrixSims, matrix, second)
    ensures DistinctNames(ctl) ==>
              InOrder(ctl, controlSims, controls, first) && (code == 2 <==> !AllPass(ctl, controlSims))
    ensures DistinctNames(ctl) && DistinctNames(mat) ==>
              && (code != 2 ==> InOrder(mat, matrixSims, matrix, second))
              && (code == 0 <==> AllPass(ctl, controlSims) && AllPass(mat, matrixSims))
    ensures (code == 2 <==> !AllOk(controls)) && (code == 0 <==> AllOk(controls) && AllOk(matrix))
  {
    var left;
    ghost var clean, es;
    controls, left, first, clean, es := RunBatch(ctl, jobs, {}, dirs, controlSims);
    var broken := Failures(controls);
    if DistinctNames(ctl) {
      AllOkIffAllPass(ctl, controlSims, controls, first);
    }
    if broken != 0 {
      return 2, controls, [], first, [];
    }
    var keep := set r | r in controls :: (r.item.build, r.worker);
    KeepIsCompiled(ctl, controlSims, controls, first, left);
    matrix, left, second, clean, es := RunBatch(mat, jobs, keep, left, matrixSims);
    if DistinctNames(mat) {
      AllOkIffAllPass(mat, matrixSims, matrix, second);
    }
    BatchRanAll(mat, matrixSims, matrix, second);
    var failing := Failures(controls + matrix);
    AllOkConcat(controls, matrix);
    var missing := NotRun(mat, controls + matrix);
    assert forall name :: HasResult(matrix, name) ==> HasResult(controls + matrix, name);
    code := if failing + missing != 0 then 1 else 0;
  }

  lemma AllOkConcat(a: seq<Report>, b: seq<Report>)
    ensures AllOk(a + b) <==> AllOk(a) && AllOk(b)
  {
    assert forall i :: 0 <= i < |a| ==> (a + b)[i] == a[i];
    assert forall i :: 0 <= i < |b| ==> (a + b)[|a| + i] == b[i];
  }
}
