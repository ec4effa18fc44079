/** The frontier scheduler: per-job unmet-dependency counts and has-run flags
    in arrays, updated round by round, with every call appended to a log. */
module Scheduler {
  import opened Errors
  import opened Values
  import opened Validator
  import opened Reference
  import opened Bookkeeping

  /** Collects the jobs that have not run and have no unmet dependency, in key order. */
  method ReadyJobs(jobs: seq<Job>, unmet: array<nat>, ran: array<bool>, ghost done: set<string>)
    returns (frontier: seq<nat>)
    requires Tracks(jobs, unmet, ran, done)
    ensures frontier == Frontier(jobs, done)
  {
    frontier := [];
    var i := 0;
    while i < |jobs|
      invariant 0 <= i <= |jobs|
      invariant frontier == FrontierUpTo(jobs, done, i)
    {
      MissingZero(jobs[i].after, done);
      if !ran[i] && unmet[i] == 0 {
        frontier := frontier + [i];
      }
      i := i + 1;
    }
  }

  /** Marks job `idx` as run and takes its name off the unmet counts of every
      job still to run, once per time that job waits for it. */
  method Complete(jobs: seq<Job>, unmet: array<nat>, ran: array<bool>, ghost done: set<string>, idx: nat)
    requires DistinctNames(jobs) && Tracks(jobs, unmet, ran, done)
    requires idx < |jobs| && !ran[idx]
    modifies unmet, ran
    ensures Tracks(jobs, unmet, ran, done + {jobs[idx].name})
    ensures forall i :: 0 <= i < |jobs| ==> ran[i] == (old(ran[i]) || i == idx)
    ensures forall i :: 0 <= i < |jobs| ==>
      unmet[i] == if ran[i] then old(unmet[i]) else old(unmet[i]) - Occurrences(jobs[i].after, jobs[idx].name)
  {
    var x := jobs[idx].name;
    ran[idx] := true;
    var i := 0;
    while i < |jobs|
      modifies unmet
      invariant 0 <= i <= |jobs|
      invariant forall j :: 0 <= j < |jobs| ==> ran[j] == (old(ran[j]) || j == idx)
      invariant forall j :: 0 <= j < i && !ran[j] ==>
        unmet[j] == Missing(jobs[j].after, done + {x}) == old(unmet[j]) - Occurrences(jobs[j].after, x)
      invariant forall j :: 0 <= j < i && ran[j] ==> unmet[j] == old(unmet[j])
      invariant forall j :: i <= j < |jobs| ==> unmet[j] == old(unmet[j])
    {
      if !ran[i] {
        MissingMark(jobs[i].after, done, x);
        unmet[i] := unmet[i] - Occurrences(jobs[i].after, x);
      }
      i := i + 1;
    }
  }

  /** One round: invokes every job of the frontier in key order, passing each
      its own name, and records each as complete. `remaining` counts the
      names still to run, before and after the round. */
  method RunRound(jobs: seq<Job>, unmet: array<nat>, ran: array<bool>, ghost done: set<string>,
                  frontier: seq<nat>, remaining: nat)
    returns (called: seq<Call>, left: nat)
    requires DistinctNames(jobs) && Tracks(jobs, unmet, ran, done)
    requires frontier == Frontier(jobs, done)
    requires remaining == |Names(jobs) - done|
    modifies unmet, ran
    ensures Tracks(jobs, unmet, ran, done + NamesIn(jobs, frontier))
    ensures called == CallsOf(jobs, frontier)
    ensures left == |Names(jobs) - (done + NamesIn(jobs, frontier))|
  {
    ghost var now := done;
    called, left := [], remaining;
    var k := 0;
    while k < |frontier|
      invariant RoundSoFar(jobs, unmet, ran, done, frontier, k, now, called, left)
    {
      called, left, now := RunJob(jobs, unmet, ran, done, frontier, k, now, called, left);
      k := k + 1;
    }
    NamesUpToAll(jobs, frontier, k);
    CallsUpToAll(jobs, frontier, k);
    assert frontier[..k] == frontier;
  }

  /** Invokes the `k`-th job of a round with its own name and records it as complete. */
  method RunJob(jobs: seq<Job>, unmet: array<nat>, ran: array<bool>, ghost done: set<string>,
                frontier: seq<nat>, k: nat, ghost now: set<string>, called: seq<Call>, left: nat)
    returns (called': seq<Call>, left': nat, ghost now': set<string>)
    requires DistinctNames(jobs) && k < |frontier|
    requires RoundSoFar(jobs, unmet, ran, done, frontier, k, now, called, left)
    requires frontier == Frontier(jobs, done)
    modifies unmet, ran
    ensures RoundSoFar(jobs, unmet, ran, done, frontier, k + 1, now', called', left')
  {
    var idx := frontier[k];
    NotYetNamed(jobs, frontier, k, idx);
    called' := called + [Call(jobs[idx].job, jobs[idx].name)];
    Complete(jobs, unmet, ran, now, idx);
    assert jobs[idx].name in Names(jobs);
    CardMark(Names(jobs), now, jobs[idx].name);
    left' := left - 1;
    now' := now + {jobs[idx].name};
  }

  /** Schedules normalised jobs: NoStart if no job can start; otherwise, round
      by round, invokes every runnable job with its own name in key order, and
      fails with CircularDependency when a round finds nothing to run while
      jobs remain. The result and the call log are exactly those of `Scheduled`. */
  method Schedule(jobs: seq<Job>) returns (result: Result<seq<string>>, calls: seq<Call>)
    requires DistinctNames(jobs)
    ensures result == Report(jobs, Scheduled(jobs))
    ensures calls == CallsOf(jobs, Scheduled(jobs).invoked)
  {
    var n := |jobs|;
    var unmet := new nat[n](i requires 0 <= i < n => |jobs[i].after|);
    var ran := new bool[n](i => false);
    forall i | 0 <= i < n ensures unmet[i] == Missing(jobs[i].after, {}) {
      MissingNone(jobs[i].after);
    }
    var start := ReadyJobs(jobs, unmet, ran, {});
    if start == [] {
      return Failure(NoStart), [];
    }
    DistinctNamesCount(jobs);
    result, calls := RunRounds(jobs, unmet, ran);
  }

  /** The rounds, from the arrays of a run in which nothing has run yet. */
  method RunRounds(jobs: seq<Job>, unmet: array<nat>, ran: array<bool>)
    returns (result: Result<seq<string>>, calls: seq<Call>)
    requires DistinctNames(jobs) && Tracks(jobs, unmet, ran, {})
    requires |Names(jobs)| == |jobs|
    modifies unmet, ran
    ensures result == Report(jobs, Rounds(jobs, {}, []))
    ensures calls == CallsOf(jobs, Rounds(jobs, {}, []).invoked)
  {
    ghost var done: set<string> := {};
    ghost var final := Rounds(jobs, {}, []);
    var invoked: seq<nat> := [];
    calls := [];
    var remaining := |jobs|;
    var stalled := false;
    while remaining > 0 && !stalled
      invariant Tracks(jobs, unmet, ran, done)
      invariant Indices(jobs, invoked)
      invariant remaining == |Names(jobs) - done|
      invariant !stalled ==> Rounds(jobs, done, invoked) == final
      invariant stalled ==> final == Trace(invoked, Some(CircularDependency))
      invariant calls == CallsOf(jobs, invoked)
      decreases remaining, if stalled then 0 else 1
    {
      stalled, invoked, calls, remaining, done := Step(jobs, unmet, ran, done, invoked, calls, remaining);
    }
    if stalled {
      result := Failure(CircularDependency);
    } else {
      assert Names(jobs) <= done;
      result := Success(NamesOf(jobs, invoked));
    }
  }

  /** One pass of the round loop: computes the frontier and, unless it is
      empty, runs it; the rounds still to come are unchanged. */
  method Step(jobs: seq<Job>, unmet: array<nat>, ran: array<bool>, ghost done: set<string>,
              invoked: seq<nat>, calls: seq<Call>, remaining: nat)
    returns (stalled: bool, invoked': seq<nat>, calls': seq<Call>, remaining': nat, ghost done': set<string>)
    requires DistinctNames(jobs) && Tracks(jobs, unmet, ran, done)
    requires Indices(jobs, invoked) && calls == CallsOf(jobs, invoked)
    requires remaining == |Names(jobs) - done| && remaining > 0
    modifies unmet, ran
    ensures Tracks(jobs, unmet, ran, done') && Indices(jobs, invoked') && calls' == CallsOf(jobs, invoked')
    ensures remaining' == |Names(jobs) - done'|
    ensures stalled ==> invoked' == invoked && remaining' == remaining
    ensures stalled ==> Rounds(jobs, done, invoked) == Trace(invoked, Some(CircularDependency))
    ensures !stalled ==> remaining' < remaining && Rounds(jobs, done', invoked') == Rounds(jobs, done, invoked)
  {
    var frontier := ReadyJobs(jobs, unmet, ran, done);
    if frontier == [] {
      assert !(Names(jobs) <= done);
      return true, invoked, calls, remaining, done;
    }
    FewerUnrun(jobs, done);
    var called;
    called, remaining' := RunRound(jobs, unmet, ran, done, frontier, remaining);
    CallsOfAppend(jobs, invoked, frontier);
    stalled, invoked', calls', done' := false, invoked + frontier, calls + called, done + NamesIn(jobs, frontier);
  }

}
