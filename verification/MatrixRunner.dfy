/**
 The CRC-matrix runner: a pool of workers pops cases from one shared queue, each worker building in
 its own directory per build flavour, in two gated phases.

 The pool is a state machine whose events are the atomic actions of single workers, so a sequence
 of events is an interleaving. `RunBatch` and `RunTier` drive it under an arbitrary scheduler.
 */
module MatrixRunner {
  import opened Common

  // ---------- one case ----------

  datatype Group = Control | Mutant | Matrix | Unlisted

  datatype Case = Case(name: string, group: Group, build: string)

  /** A line of a simulation log: a [cm] RESULT (with the parsed record, if it parses), a verdict, or noise. */
  datatype LogLine = ResultLine(parsed: Option<bool>) | VerdictLine | Noise

  datatype Sim = Sim(log: seq<LogLine>, rc: int)

  /** Says "this sim ran to a verdict and its last readable RESULT record is ok". */
  predicate Passed(sim: Sim) {
    && sim.rc == 0
    && VerdictLine in sim.log
    && exists k :: 0 <= k < |sim.log| && Readable(sim.log[k]) && sim.log[k].parsed.value &&
                   forall j :: k < j < |sim.log| ==> !Readable(sim.log[j])
  }

  predicate Readable(l: LogLine) {
    l.ResultLine? && l.parsed.Some?
  }

  /** Scans the log of a finished simulation. */
  method Verdict(sim: Sim) returns (ok: bool)
    ensures ok == Passed(sim)
  {
    var res: Option<bool> := None;
    var verdict := false;
    ghost var at := 0;
    for i := 0 to |sim.log|
      invariant verdict <==> VerdictLine in sim.log[..i]
      invariant res.None? ==> forall j :: 0 <= j < i ==> !Readable(sim.log[j])
      invariant res.Some? ==> at < i && Readable(sim.log[at]) && sim.log[at].parsed == res
      invariant res.Some? ==> forall j :: at < j < i ==> !Readable(sim.log[j])
    {
      match sim.log[i] {
        case ResultLine(Some(b)) =>
          res, at := Some(b), i;
        case VerdictLine =>
          verdict := true;
        case _ =>
      }
    }
    assert sim.log[..|sim.log|] == sim.log;
    ok := res == Some(true) && verdict && sim.rc == 0;
  }

  // ---------- build directories ----------

  /** A directory that exists was left by an earlier invocation, or was compiled by this one. */
  datatype Age = Leftover | Compiled

  type Dir = (string, nat)

  type Dirs = map<Dir, Age>

  function DirName(d: Dir, asic: bool): string {
    "sim_build_cm_" + d.0 + (if asic then "_asic" else "") + "_w" + Decimal(d.1)
  }

  /** The digits after the last "_w" are the worker number. */
  lemma SplitAtMark(p: string, q: string, s: string, t: string)
    requires p + "_w" + s == q + "_w" + t
    requires forall i :: 0 <= i < |s| ==> '0' <= s[i] <= '9'
    requires forall i :: 0 <= i < |t| ==> '0' <= t[i] <= '9'
    ensures p == q && s == t
  {
    var x, y := p + "_w" + s, q + "_w" + t;
    assert x[|p| + 1] == 'w' && y[|q| + 1] == 'w';
    assert forall i :: |p| + 2 <= i < |x| ==> x[i] == s[i - |p| - 2];
    assert forall i :: |q| + 2 <= i < |y| ==> y[i] == t[i - |q| - 2];
    assert |p| == |q|;
    assert x[..|p|] == p && y[..|q|] == q;
    assert x[|p| + 2..] == s && y[|q| + 2..] == t;
  }

  /** Two (build, worker) pairs never share a directory on disk. */
  lemma DirNameInjective(d: Dir, e: Dir, asic: bool)
    requires DirName(d, asic) == DirName(e, asic)
    ensures d == e
  {
    var mid := if asic then "_asic" else "";
    var p, q := "sim_build_cm_" + d.0 + mid, "sim_build_cm_" + e.0 + mid;
    SplitAtMark(p, q, Decimal(d.1), Decimal(e.1));
    DecimalInjective(d.1, e.1);
    assert |d.0| == |e.0|;
    assert p[13..13 + |d.0|] == d.0 && q[13..13 + |e.0|] == e.0;
  }

  // ---------- the pool ----------

  /** Case `index` was launched by `worker` in a directory of the given age. */
  datatype Launch = Launch(index: nat, worker: nat, age: Age)

  /**
   next: the queue still holds cases[next..].  running[w]: what worker w simulates.  out[w]: what it
   has finished, oldest first.  launches: history of pops, oldest first.
   */
  datatype Pool = Pool(next: nat, running: seq<Option<nat>>, out: seq<seq<nat>>, stopped: seq<bool>,
                       dirs: Dirs, launches: seq<Launch>)

  datatype Event = Pop(w: nat) | Finish(w: nat) | Exit(w: nat)

  function Start(jobs: nat, dirs: Dirs): Pool {
    Pool(0, seq(jobs, _ => None), seq(jobs, _ => []), seq(jobs, _ => false), dirs, [])
  }

  predicate Shaped(cases: seq<Case>, jobs: nat, p: Pool) {
    |p.running| == |p.out| == |p.stopped| == jobs && p.next <= |cases|
  }

  predicate Enabled(cases: seq<Case>, p: Pool, e: Event)
    requires Shaped(cases, |p.running|, p)
  {
    && e.w < |p.running| && !p.stopped[e.w]
    && match e
       case Pop(w) => p.running[w].None? && p.next < |cases|
       case Finish(w) => p.running[w].Some?
       case Exit(w) => p.running[w].None? && p.next == |cases|
  }

  function Next(cases: seq<Case>, p: Pool, e: Event): Pool
    requires Shaped(cases, |p.running|, p) && Enabled(cases, p, e)
  {
    match e
    case Pop(w) =>
      var dir := (cases[p.next].build, w);
      var age := if dir in p.dirs then p.dirs[dir] else Compiled;
      p.(next := p.next + 1, running := p.running[w := Some(p.next)], dirs := p.dirs[dir := age],
         launches := p.launches + [Launch(p.next, w, age)])
    case Finish(w) =>
      p.(running := p.running[w := None], out := p.out[w := p.out[w] + [p.running[w].value]])
    case Exit(w) =>
      p.(stopped := p.stopped[w := true])
  }

  predicate Fresh(cases: seq<Case>, jobs: nat, dirs: Dirs) {
    forall d :: d in dirs && d.1 < jobs && (exists c :: c in cases && c.build == d.0) ==> dirs[d] == Compiled
  }

  /** Launches are the first `next` cases in order, each on one worker, in a directory of this invocation. */
  predicate LaunchesOk(jobs: nat, p: Pool) {
    && |p.launches| == p.next
    && forall i :: 0 <= i < p.next ==>
                     p.launches[i].index == i && p.launches[i].worker < jobs && p.launches[i].age == Compiled
  }

  /** A launched case is either still running on its worker or finished there, once. */
  predicate WorkersOk(cases: seq<Case>, p: Pool)
    requires Shaped(cases, |p.running|, p) && LaunchesOk(|p.running|, p)
  {
    && (forall w :: 0 <= w < |p.running| ==> p.running[w].Some? ==>
                      && p.running[w].value < p.next && p.launches[p.running[w].value].worker == w
                      && p.running[w].value !in p.out[w])
    && (forall w, k :: 0 <= w < |p.out| && 0 <= k < |p.out[w]| ==>
                         p.out[w][k] < p.next && p.launches[p.out[w][k]].worker == w)
    && (forall w :: 0 <= w < |p.out| ==> Distinct(p.out[w]))
    && (forall i :: 0 <= i < p.next ==>
                      var w := p.launches[i].worker; p.running[w] == Some(i) || i in p.out[w])
    && (forall w :: 0 <= w < |p.stopped| ==> p.stopped[w] ==> p.next == |cases| && p.running[w].None?)
  }

  /** The directories that were used are still there. */
  predicate LaunchDirsOk(cases: seq<Case>, launches: seq<Launch>, dirs: Dirs)
    requires |launches| <= |cases|
  {
    forall i :: 0 <= i < |launches| ==>
                  var d := (cases[i].build, launches[i].worker); d in dirs && dirs[d] == Compiled
  }

  predicate Inv(cases: seq<Case>, jobs: nat, p: Pool) {
    && Shaped(cases, jobs, p) && LaunchesOk(jobs, p) && WorkersOk(cases, p)
    && Fresh(cases, jobs, p.dirs) && LaunchDirsOk(cases, p.launches, p.dirs)
  }

  lemma PopKeepsInv(cases: seq<Case>, jobs: nat, p: Pool, w: nat)
    requires Inv(cases, jobs, p) && Enabled(cases, p, Pop(w))
    ensures Inv(cases, jobs, Next(cases, p, Pop(w)))
  {
    var q := Next(cases, p, Pop(w));
    assert cases[p.next] in cases;
    assert Fresh(cases, jobs, q.dirs) && LaunchesOk(jobs, q);
    assert LaunchDirsOk(cases, q.launches, q.dirs);
    assert WorkersOk(cases, q);
  }

  lemma FinishKeepsInv(cases: seq<Case>, jobs: nat, p: Pool, w: nat)
    requires Inv(cases, jobs, p) && Enabled(cases, p, Finish(w))
    ensures Inv(cases, jobs, Next(cases, p, Finish(w)))
  {
    var q := Next(cases, p, Finish(w));
    assert q.out[w][|p.out[w]|] == p.running[w].value;
    assert forall i :: i in p.out[w] ==> i in q.out[w];
    assert WorkersOk(cases, q);
  }

  lemma NextKeepsInv(cases: seq<Case>, jobs: nat, p: Pool, e: Event)
    requires Inv(cases, jobs, p) && Enabled(cases, p, e)
    ensures Inv(cases, jobs, Next(cases, p, e))
  {
    match e
    case Pop(w) => PopKeepsInv(cases, jobs, p, w);
    case Finish(w) => FinishKeepsInv(cases, jobs, p, w);
    case Exit(w) =>
  }

  /** The pool after the events, or None when one of them could not happen. */
  ghost function After(cases: seq<Case>, p: Pool, es: seq<Event>): Option<Pool> {
    if es == [] then Some(p)
    else
      var q := After(cases, p, es[..|es| - 1]);
      var e := es[|es| - 1];
      if q.Some? && Shaped(cases, |q.value.running|, q.value) && Enabled(cases, q.value, e)
      then Some(Next(cases, q.value, e)) else None
  }

  lemma AfterOne(cases: seq<Case>, p: Pool, es: seq<Event>, e: Event)
    requires var q := After(cases, p, es);
             q.Some? && Shaped(cases, |q.value.running|, q.value) && Enabled(cases, q.value, e)
    ensures After(cases, p, es + [e]) == Some(Next(cases, After(cases, p, es).value, e))
  {
    assert (es + [e])[..|es|] == es;
  }

  lemma StartInv(cases: seq<Case>, jobs: nat, dirs: Dirs)
    requires Fresh(cases, jobs, dirs)
    ensures Inv(cases, jobs, Start(jobs, dirs))
  {
  }

  /** Whatever the interleaving, every state it reaches keeps the invariant. */
  lemma {:induction false} EveryInterleavingKeepsInv(cases: seq<Case>, jobs: nat, dirs: Dirs, es: seq<Event>)
    requires Fresh(cases, jobs, dirs) && After(cases, Start(jobs, dirs), es).Some?
    ensures Inv(cases, jobs, After(cases, Start(jobs, dirs), es).value)
  {
    if es == [] {
      StartInv(cases, jobs, dirs);
    } else {
      var front := es[..|es| - 1];
      EveryInterleavingKeepsInv(cases, jobs, dirs, front);
      NextKeepsInv(cases, jobs, After(cases, Start(jobs, dirs), front).value, es[|es| - 1]);
    }
  }

  /** Two cases that run at the same time are different cases in different directories on disk. */
  lemma NoSharedDirectory(cases: seq<Case>, jobs: nat, dirs: Dirs, es: seq<Event>, v: nat, w: nat, asic: bool)
    requires Fresh(cases, jobs, dirs) && After(cases, Start(jobs, dirs), es).Some?
    requires v != w && v < jobs && w < jobs
    ensures var p := After(cases, Start(jobs, dirs), es).value;
            && Shaped(cases, jobs, p)
            && (p.running[v].Some? && p.running[w].Some? ==>
                  && p.running[v].value < |cases| && p.running[w].value < |cases|
                  && p.running[v] != p.running[w]
                  && DirName((cases[p.running[v].value].build, v), asic) !=
                     DirName((cases[p.running[w].value].build, w), asic))
  {
    EveryInterleavingKeepsInv(cases, jobs, dirs, es);
    var p := After(cases, Start(jobs, dirs), es).value;
    if p.running[v].Some? && p.running[w].Some? {
      var d, e := (cases[p.running[v].value].build, v), (cases[p.running[w].value].build, w);
      if DirName(d, asic) == DirName(e, asic) {
        DirNameInjective(d, e, asic);
      }
    }
  }
}
