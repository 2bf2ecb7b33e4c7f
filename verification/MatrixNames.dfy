/** What case names do to a batch: results are merged by name, so a repeated name can hide a failure. */
module MatrixNames {
  import opened Common
  import opened MatrixRunner
  import opened MatrixBatch

  // ---------- with distinct names ----------

  /** Under any interleaving, distinct names give every case its own report. */
  lemma {:induction false} DistinctNamesGiveOwnReports(cases: seq<Case>, jobs: nat, sims: nat -> Sim,
                                                       results: seq<Report>, clean: Dirs, es: seq<Event>)
    requires DistinctNames(cases) && ReachedBy(cases, jobs, sims, results, clean, es)
    ensures InOrder(cases, sims, results, After(cases, Start(jobs, clean), es).value.launches)
  {
    EveryInterleavingKeepsInv(cases, jobs, clean, es);
    var p := After(cases, Start(jobs, clean), es).value;
    forall i | 0 <= i < |cases|
      ensures ReportsSome(cases, sims, p.launches, results[i], cases[i].name)
    {
      GatherComplete(cases, jobs, sims, p, i);
    }
    NamesPickReports(cases, sims, results, p.launches);
  }

  // ---------- one worker doing everything ----------

  function Solo(n: nat): seq<Event> {
    if n == 0 then [] else Solo(n - 1) + [Pop(0)] + [Finish(0)]
  }

  function UpTo(n: nat): seq<nat> {
    seq(n, k => k)
  }

  /** Worker 0 has finished the first n cases and nobody else has done anything. */
  predicate SoloDone(cases: seq<Case>, jobs: nat, p: Pool, n: nat) {
    && Shaped(cases, jobs, p) && jobs > 0 && p.next == n
    && p.out[0] == UpTo(n) && (forall w :: 0 < w < jobs ==> p.out[w] == [])
    && forall w :: 0 <= w < jobs ==> p.running[w].None? && !p.stopped[w]
  }

  lemma {:induction false} SoloRuns(cases: seq<Case>, jobs: nat, n: nat)
    requires jobs > 0 && n <= |cases|
    ensures var q := After(cases, Start(jobs, map[]), Solo(n)); q.Some? && SoloDone(cases, jobs, q.value, n)
  {
    if n > 0 {
      SoloRuns(cases, jobs, n - 1);
      var start, es := Start(jobs, map[]), Solo(n - 1);
      SoloStep(cases, jobs, After(cases, start, es).value, n - 1);
      AfterOne(cases, start, es, Pop(0));
      AfterOne(cases, start, es + [Pop(0)], Finish(0));
    }
  }

  lemma SoloStep(cases: seq<Case>, jobs: nat, p: Pool, n: nat)
    requires SoloDone(cases, jobs, p, n) && n < |cases|
    ensures Enabled(cases, p, Pop(0))
    ensures var q := Next(cases, p, Pop(0));
            && Shaped(cases, |q.running|, q) && Enabled(cases, q, Finish(0))
            && SoloDone(cases, jobs, Next(cases, q, Finish(0)), n + 1)
  {
    assert UpTo(n + 1) == UpTo(n) + [n];
  }

  lemma {:induction false} GatherIdle(cases: seq<Case>, sims: nat -> Sim, out: seq<seq<nat>>)
    requires |out| > 0 && InRange(cases, out[0]) && forall w :: 0 < w < |out| ==> out[w] == []
    ensures Gather(cases, sims, out) == GatherWorker(cases, sims, out[0], 0, map[])
  {
    if |out| > 1 {
      GatherIdle(cases, sims, out[..|out| - 1]);
    }
  }

  // ---------- with a repeated name ----------

  /** The simulation of case i fails, every other one passes. */
  function FailingAt(i: nat): nat -> Sim {
    k => if k == i then Sim([], 1) else Sim([ResultLine(Some(true)), VerdictLine], 0)
  }

  lemma FailingAtFails(i: nat, k: nat)
    ensures Passed(FailingAt(i)(k)) <==> k != i
  {
    if k != i {
      var sim := FailingAt(i)(k);
      assert Readable(sim.log[0]) && sim.log[0].parsed.value && !Readable(sim.log[1]) && sim.log[1] == VerdictLine;
    }
  }

  /** Any two cases of one name: the earlier may fail and yet every reported result is ok. */
  lemma {:induction false} RepeatedNameHidesFailure(cases: seq<Case>, jobs: nat, i: nat, j: nat)
    returns (results: seq<Report>)
    requires jobs > 0 && i < j < |cases| && cases[i].name == cases[j].name
    ensures ReachedBy(cases, jobs, FailingAt(i), results, map[], Solo(|cases|))
    ensures AllOk(results) && !AllPass(cases, FailingAt(i))
  {
    var sims := FailingAt(i);
    SoloRuns(cases, jobs, |cases|);
    var p := After(cases, Start(jobs, map[]), Solo(|cases|)).value;
    GatherIdle(cases, sims, p.out);
    var byName := Gather(cases, sims, p.out);
    forall k | 0 <= k < |cases|
      ensures cases[k].name in byName && byName[cases[k].name].ok
    {
      OkUnderName(cases, i, j, k);
    }
    assert SoloDone(cases, jobs, p, |cases|) && Exited(cases, jobs, p);
    results := seq(|cases|, k requires 0 <= k < |cases| => byName[cases[k].name]);
    FailingAtFails(i, i);
  }

  lemma OkUnderName(cases: seq<Case>, i: nat, j: nat, k: nat)
    requires i < j < |cases| && cases[i].name == cases[j].name && k < |cases|
    ensures InRange(cases, UpTo(|cases|))
    ensures var r := GatherWorker(cases, FailingAt(i), UpTo(|cases|), 0, map[]);
            cases[k].name in r && r[cases[k].name].ok
  {
    var done, n := UpTo(|cases|), cases[k].name;
    assert done[k] == k && cases[done[k]].name == n;
    GatherWorkerAt(cases, FailingAt(i), done, 0, map[], n);
    var l :| LastNamed(cases, done, l, n) && GatherWorker(cases, FailingAt(i), done, 0, map[])[n] ==
                                               Report(cases[done[l]], Passed(FailingAt(i)(done[l])), 0);
    assert cases[done[j]].name == cases[i].name;
    FailingAtFails(i, l);
  }

  ghost predicate Hides(cases: seq<Case>, jobs: nat, sims: nat -> Sim, results: seq<Report>, clean: Dirs,
                        es: seq<Event>)
  {
    ReachedBy(cases, jobs, sims, results, clean, es) && AllOk(results) && !AllPass(cases, sims)
  }

  /** A batch can report nothing but ok while a case failed exactly when two cases have the same name. */
  lemma {:induction false} FailureCanBeHiddenIff(cases: seq<Case>, jobs: nat)
    requires jobs > 0
    ensures (exists sims: nat -> Sim, results, clean, es :: Hides(cases, jobs, sims, results, clean, es)) <==>
            !DistinctNames(cases)
  {
    if !DistinctNames(cases) {
      var i, j :| 0 <= i < j < |cases| && cases[i].name == cases[j].name;
      var results := RepeatedNameHidesFailure(cases, jobs, i, j);
      assert Hides(cases, jobs, FailingAt(i), results, map[], Solo(|cases|));
    }
    forall sims: nat -> Sim, results, clean, es | Hides(cases, jobs, sims, results, clean, es)
      ensures !DistinctNames(cases)
    {
      if DistinctNames(cases) {
        DistinctNamesGiveOwnReports(cases, jobs, sims, results, clean, es);
        AllOkIffAllPass(cases, sims, results, After(cases, Start(jobs, clean), es).value.launches);
      }
    }
  }
}
