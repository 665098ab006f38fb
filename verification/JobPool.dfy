/**
 The job threads of adapters/search/facade.py (_run_pool): every thread takes a permit of one
 bounded semaphore, runs or skips its job, and gives the permit back. Threads take their steps in
 any interleaving.
 */
module JobPool {

  datatype Phase = Waiting | Acquired | Skipped | Running | Released

  /** `free` is the semaphore's counter and `overReleased` says that a release found it full,
      which a bounded semaphore answers with a ValueError. */
  datatype Pool = Pool(phases: seq<Phase>, free: nat, bound: nat, overReleased: bool)

  datatype Event =
    | Acquire(job: nat)
    | Skip(job: nat)     // cancelled, or the deadline has passed
    | Start(job: nat)
    | Release(job: nat)  // the finally clause, after a skip, an outcome or an exception

  predicate Enabled(p: Pool, e: Event) {
    && e.job < |p.phases|
    && match e
       case Acquire(j) => p.phases[j] == Waiting && p.free > 0
       case Skip(j) => p.phases[j] == Acquired
       case Start(j) => p.phases[j] == Acquired
       case Release(j) => p.phases[j] == Skipped || p.phases[j] == Running
  }

  function After(p: Pool, e: Event): Pool
    requires Enabled(p, e)
  {
    match e
    case Acquire(j) => p.(phases := p.phases[j := Acquired], free := p.free - 1)
    case Skip(j) => p.(phases := p.phases[j := Skipped])
    case Start(j) => p.(phases := p.phases[j := Running])
    case Release(j) =>
      var released := p.(phases := p.phases[j := Released]);
      if p.free < p.bound then released.(free := p.free + 1) else released.(overReleased := true)
  }

  /** max(1, max_concurrent_jobs) permits, and one thread for every job. */
  predicate Initial(p: Pool, maxConcurrentJobs: int) {
    && p.bound == p.free == (if maxConcurrentJobs > 1 then maxConcurrentJobs else 1) && !p.overReleased
    && forall j :: 0 <= j < |p.phases| ==> p.phases[j] == Waiting
  }

  /** The i-th step of a run. */
  ghost predicate IsStep(trace: seq<Pool>, events: seq<Event>, i: nat)
    requires 0 < i <= |events| && |trace| == |events| + 1
  {
    Enabled(trace[i - 1], events[i - 1]) && trace[i] == After(trace[i - 1], events[i - 1])
  }

  ghost predicate IsRun(trace: seq<Pool>, events: seq<Event>, maxConcurrentJobs: int) {
    && |trace| == |events| + 1 && Initial(trace[0], maxConcurrentJobs)
    && forall i :: 0 < i <= |events| ==> IsStep(trace, events, i)
  }

  // ---------- the permits ----------

  predicate Holds(phase: Phase) {
    phase == Acquired || phase == Skipped || phase == Running
  }

  function Holders(phases: seq<Phase>): nat {
    if phases == [] then 0
    else Holders(phases[..|phases| - 1]) + if Holds(phases[|phases| - 1]) then 1 else 0
  }

  function RunningJobs(phases: seq<Phase>): nat {
    if phases == [] then 0
    else RunningJobs(phases[..|phases| - 1]) + if phases[|phases| - 1] == Running then 1 else 0
  }

  /** How many steps a job still has to take: acquire, skip or start, release. */
  function StepsOf(phase: Phase): nat {
    match phase
    case Waiting => 3
    case Acquired => 2
    case Skipped => 1
    case Running => 1
    case Released => 0
  }

  function StepsLeft(phases: seq<Phase>): nat {
    if phases == [] then 0 else StepsLeft(phases[..|phases| - 1]) + StepsOf(phases[|phases| - 1])
  }

  lemma {:induction false} ChangePhase(phases: seq<Phase>, j: nat, to: Phase)
    requires j < |phases|
    ensures Holders(phases[j := to]) + (if Holds(phases[j]) then 1 else 0) == Holders(phases) + if Holds(to) then 1 else 0
    ensures StepsLeft(phases[j := to]) + StepsOf(phases[j]) == StepsLeft(phases) + StepsOf(to)
  {
    var n := |phases| - 1;
    if j < n {
      ChangePhase(phases[..n], j, to);
      assert phases[j := to][..n] == phases[..n][j := to];
    } else {
      assert phases[j := to][..n] == phases[..n];
    }
  }

  lemma {:induction false} HolderCounts(phases: seq<Phase>, j: nat)
    requires j < |phases| && Holds(phases[j])
    ensures Holders(phases) > 0
  {
    if j < |phases| - 1 {
      HolderCounts(phases[..|phases| - 1], j);
    }
  }

  lemma {:induction false} RunnersHold(phases: seq<Phase>)
    ensures RunningJobs(phases) <= Holders(phases)
  {
    if phases != [] {
      RunnersHold(phases[..|phases| - 1]);
    }
  }

  lemma {:induction false} AllWaiting(phases: seq<Phase>)
    requires forall j :: 0 <= j < |phases| ==> phases[j] == Waiting
    ensures Holders(phases) == 0 && StepsLeft(phases) == 3 * |phases|
  {
    if phases != [] {
      AllWaiting(phases[..|phases| - 1]);
    }
  }

  /** The permits are free or held, never more and never fewer. */
  ghost predicate Balanced(p: Pool) {
    p.free + Holders(p.phases) == p.bound && p.bound > 0 && !p.overReleased
  }

  lemma BalancedStep(p: Pool, e: Event)
    requires Balanced(p) && Enabled(p, e)
    ensures Balanced(After(p, e))
    ensures StepsLeft(After(p, e).phases) == StepsLeft(p.phases) - 1
  {
    match e
    case Acquire(j) => ChangePhase(p.phases, j, Acquired);
    case Skip(j) => ChangePhase(p.phases, j, Skipped);
    case Start(j) => ChangePhase(p.phases, j, Running);
    case Release(j) =>
      HolderCounts(p.phases, j);
      ChangePhase(p.phases, j, Released);
  }

  lemma {:induction false} BalancedRun(trace: seq<Pool>, events: seq<Event>, maxConcurrentJobs: int, n: nat)
    requires IsRun(trace, events, maxConcurrentJobs) && n <= |events|
    ensures Balanced(trace[n]) && trace[n].bound == trace[0].bound && |trace[n].phases| == |trace[0].phases|
    ensures StepsLeft(trace[n].phases) == 3 * |trace[0].phases| - n
  {
    if n == 0 {
      AllWaiting(trace[0].phases);
    } else {
      BalancedRun(trace, events, maxConcurrentJobs, n - 1);
      BalancedAt(trace, events, maxConcurrentJobs, n);
    }
  }

  lemma BalancedAt(trace: seq<Pool>, events: seq<Event>, maxConcurrentJobs: int, i: nat)
    requires IsRun(trace, events, maxConcurrentJobs) && 0 < i <= |events| && Balanced(trace[i - 1])
    ensures Balanced(trace[i]) && trace[i].bound == trace[i - 1].bound && |trace[i].phases| == |trace[i - 1].phases|
    ensures StepsLeft(trace[i].phases) == StepsLeft(trace[i - 1].phases) - 1
  {
    assert IsStep(trace, events, i);
    BalancedStep(trace[i - 1], events[i - 1]);
  }

  /** In every interleaving at most max(1, max_concurrent_jobs) jobs run, and the semaphore is
      never released more often than it was acquired. */
  lemma RunningJobsAreBounded(trace: seq<Pool>, events: seq<Event>, maxConcurrentJobs: int, n: nat)
    requires IsRun(trace, events, maxConcurrentJobs) && n <= |events|
    ensures RunningJobs(trace[n].phases) <= if maxConcurrentJobs > 1 then maxConcurrentJobs else 1
    ensures !trace[n].overReleased
  {
    BalancedRun(trace, events, maxConcurrentJobs, n);
    RunnersHold(trace[n].phases);
  }

  // ---------- every job is dealt with ----------

  lemma {:induction false} SomeoneLeft(phases: seq<Phase>) returns (j: nat)
    requires StepsLeft(phases) > 0
    ensures j < |phases| && phases[j] != Released
    ensures Holders(phases) > 0 ==> Holds(phases[j])
  {
    var n := |phases| - 1;
    if Holds(phases[n]) || StepsLeft(phases[..n]) == 0 {
      j := n;
      NobodyHolds(phases[..n]);
    } else {
      j := SomeoneLeft(phases[..n]);
    }
  }

  lemma {:induction false} NobodyHolds(phases: seq<Phase>)
    ensures Holders(phases) <= StepsLeft(phases)
    ensures StepsLeft(phases) == 0 ==> forall j :: 0 <= j < |phases| ==> phases[j] == Released
  {
    if phases != [] {
      NobodyHolds(phases[..|phases| - 1]);
    }
  }

  /** No run gets stuck: as long as some job is not done, some thread can take a step; after three
      steps a job all are done, skipped ones included, and every permit is back. */
  lemma EveryJobIsReleased(trace: seq<Pool>, events: seq<Event>, maxConcurrentJobs: int)
    requires IsRun(trace, events, maxConcurrentJobs)
    ensures var p := trace[|events|];
      && |events| <= 3 * |p.phases|
      && (|events| < 3 * |p.phases| ==> exists e :: Enabled(p, e))
      && (|events| == 3 * |p.phases| ==> p.free == p.bound && forall j :: 0 <= j < |p.phases| ==> p.phases[j] == Released)
  {
    var p := trace[|events|];
    BalancedRun(trace, events, maxConcurrentJobs, |events|);
    NobodyHolds(p.phases);
    if StepsLeft(p.phases) > 0 {
      NotStuck(p);
    }
  }

  lemma NotStuck(p: Pool)
    requires Balanced(p) && StepsLeft(p.phases) > 0
    ensures exists e :: Enabled(p, e)
  {
    var j := SomeoneLeft(p.phases);
    var e := match p.phases[j]
      case Waiting => Acquire(j)
      case Acquired => Start(j)
      case _ => Release(j);
    if p.phases[j] == Waiting {
      assert Holders(p.phases) == 0;
    }
    assert Enabled(p, e);
  }

  // ---------- the life of one job ----------

  /** How often e occurs among the first n events. */
  function Occurs(events: seq<Event>, n: nat, e: Event): nat
    requires n <= |events|
  {
    if n == 0 then 0 else Occurs(events, n - 1, e) + if events[n - 1] == e then 1 else 0
  }

  /** The phase of a job tells what has happened to it: a permit taken once, then the job run or
      skipped, one of these and once, then the permit given back once. */
  ghost predicate Lived(phase: Phase, events: seq<Event>, n: nat, j: nat)
    requires n <= |events|
  {
    && Occurs(events, n, Acquire(j)) == (if phase == Waiting then 0 else 1)
    && Occurs(events, n, Start(j)) + Occurs(events, n, Skip(j)) == (if phase == Waiting || phase == Acquired then 0 else 1)
    && (phase == Running ==> Occurs(events, n, Start(j)) == 1)
    && Occurs(events, n, Release(j)) == (if phase == Released then 1 else 0)
  }

  lemma LivedAt(trace: seq<Pool>, events: seq<Event>, maxConcurrentJobs: int, i: nat, j: nat)
    requires IsRun(trace, events, maxConcurrentJobs) && 0 < i <= |events|
    requires j < |trace[i - 1].phases| && Lived(trace[i - 1].phases[j], events, i - 1, j)
    ensures j < |trace[i].phases| && Lived(trace[i].phases[j], events, i, j)
  {
    assert IsStep(trace, events, i);
  }

  lemma {:induction false} JobsLiveOnce(trace: seq<Pool>, events: seq<Event>, maxConcurrentJobs: int, n: nat, j: nat)
    requires IsRun(trace, events, maxConcurrentJobs) && n <= |events| && j < |trace[0].phases|
    ensures j < |trace[n].phases| && Lived(trace[n].phases[j], events, n, j)
  {
    if n > 0 {
      JobsLiveOnce(trace, events, maxConcurrentJobs, n - 1, j);
      LivedAt(trace, events, maxConcurrentJobs, n, j);
    }
  }

  /** A waiting job can begin whenever a permit is free, and one with a permit can be run. */
  lemma NothingElseIsAwaited(p: Pool, j: nat)
    requires j < |p.phases|
    ensures p.phases[j] == Waiting && p.free > 0 ==> Enabled(p, Acquire(j)) && After(p, Acquire(j)).phases[j] == Acquired
    ensures p.phases[j] == Acquired ==> Enabled(p, Start(j)) && After(p, Start(j)).phases[j] == Running
  {
  }
}
