/** The bookkeeping of a scheduler run: the call log, what the caller is told,
    and how the scheduler's arrays relate to the set of names that have run. */
module Bookkeeping {
  import opened Errors
  import opened Values
  import opened Validator
  import opened Reference
  /** One invocation of a job's callable, with the argument it was given. */
  datatype Call = Call(job: FnId, arg: string)

  /** The names of the jobs at the indices `idx`, in order. */
  function NamesOf(jobs: seq<Job>, idx: seq<nat>): (names: seq<string>)
    requires Indices(jobs, idx)
    ensures |names| == |idx| && forall p :: 0 <= p < |idx| ==> names[p] == jobs[idx[p]].name
  {
    if idx == [] then [] else NamesOf(jobs, idx[..|idx| - 1]) + [jobs[idx[|idx| - 1]].name]
  }

  /** The calls made when the jobs at `idx` are invoked in order, each with its own name. */
  function CallsOf(jobs: seq<Job>, idx: seq<nat>): (calls: seq<Call>)
    requires Indices(jobs, idx)
    ensures |calls| == |idx| && forall p :: 0 <= p < |idx| ==> calls[p] == Call(jobs[idx[p]].job, jobs[idx[p]].name)
  {
    if idx == [] then []
    else CallsOf(jobs, idx[..|idx| - 1]) + [Call(jobs[idx[|idx| - 1]].job, jobs[idx[|idx| - 1]].name)]
  }

  /** What the caller sees of a run: the names in completion order, or its one error. */
  function Report(jobs: seq<Job>, t: Trace): (r: Result<seq<string>>)
    requires Indices(jobs, t.invoked)
    ensures r.Success? <==> t.failure.None?
    ensures r.Success? ==> r.value == NamesOf(jobs, t.invoked)
    ensures r.Failure? ==> t.failure == Some(r.error)
  {
    match t.failure
    case None => Success(NamesOf(jobs, t.invoked))
    case Some(e) => Failure(e)
  }

  /** The scheduler's arrays agree with the set `done` of names that have run:
      a job's flag is set exactly when its name is done, and a job still to run
      counts exactly its dependencies that are not done. */
  ghost predicate Tracks(jobs: seq<Job>, unmet: array<nat>, ran: array<bool>, done: set<string>)
    reads unmet, ran
  {
    && unmet.Length == |jobs| && ran.Length == |jobs|
    && (forall i :: 0 <= i < |jobs| ==> (ran[i] <==> jobs[i].name in done))
    && (forall i :: 0 <= i < |jobs| && !ran[i] ==> unmet[i] == Missing(jobs[i].after, done))
  }

  /** The names of the first `k` jobs of a round. */
  ghost function NamesUpTo(jobs: seq<Job>, frontier: seq<nat>, k: nat): set<string>
    requires Indices(jobs, frontier) && k <= |frontier|
  {
    if k == 0 then {} else NamesUpTo(jobs, frontier, k - 1) + {jobs[frontier[k - 1]].name}
  }

  /** The calls made by the first `k` jobs of a round. */
  ghost function CallsUpTo(jobs: seq<Job>, frontier: seq<nat>, k: nat): seq<Call>
    requires Indices(jobs, frontier) && k <= |frontier|
  {
    if k == 0 then [] else CallsUpTo(jobs, frontier, k - 1) + [Call(jobs[frontier[k - 1]].job, jobs[frontier[k - 1]].name)]
  }

  /** The state after the first `k` jobs of a round that started from `done`:
      those jobs are complete, `called` lists their calls in order and `left`
      counts the names still to run. */
  ghost predicate RoundSoFar(jobs: seq<Job>, unmet: array<nat>, ran: array<bool>, done: set<string>,
                             frontier: seq<nat>, k: nat, now: set<string>, called: seq<Call>, left: nat)
    reads unmet, ran
  {
    && Indices(jobs, frontier) && k <= |frontier|
    && Tracks(jobs, unmet, ran, now)
    && now == done + NamesUpTo(jobs, frontier, k)
    && left == |Names(jobs) - now|
    && called == CallsUpTo(jobs, frontier, k)
  }

  /** A job that is not among the first `k` of a round has a name none of them has. */
  lemma {:induction false} NotYetNamed(jobs: seq<Job>, frontier: seq<nat>, k: nat, i: nat)
    requires DistinctNames(jobs) && Indices(jobs, frontier) && k <= |frontier| && i < |jobs|
    requires forall p :: 0 <= p < k ==> frontier[p] != i
    ensures jobs[i].name !in NamesUpTo(jobs, frontier, k)
  {
    if k > 0 {
      NotYetNamed(jobs, frontier, k - 1, i);
    }
  }

  /** A whole round names exactly the names of its frontier. */
  lemma {:induction false} NamesUpToAll(jobs: seq<Job>, frontier: seq<nat>, k: nat)
    requires Indices(jobs, frontier) && k <= |frontier|
    ensures NamesUpTo(jobs, frontier, k) == NamesIn(jobs, frontier[..k])
  {
    if k > 0 {
      NamesUpToAll(jobs, frontier, k - 1);
      SliceSnoc(frontier, k - 1);
      NamesInSnoc(jobs, frontier[..k - 1], frontier[k - 1]);
    }
  }

  /** A whole round makes exactly the calls of its frontier. */
  lemma {:induction false} CallsUpToAll(jobs: seq<Job>, frontier: seq<nat>, k: nat)
    requires Indices(jobs, frontier) && k <= |frontier|
    ensures CallsUpTo(jobs, frontier, k) == CallsOf(jobs, frontier[..k])
  {
    if k > 0 {
      CallsUpToAll(jobs, frontier, k - 1);
      SliceSnoc(frontier, k - 1);
      CallsOfSnoc(jobs, frontier[..k - 1], frontier[k - 1]);
    }
  }

  /** Marking one more name done leaves one name fewer to run. */
  lemma CardMark(all: set<string>, done: set<string>, x: string)
    requires x in all && x !in done
    ensures |all - (done + {x})| == |all - done| - 1
  {
    CardRemove(all - done, x);
    assert (all - done) - {x} == all - (done + {x});
  }

  lemma SliceSnoc(s: seq<nat>, k: nat)
    requires k < |s|
    ensures s[..k + 1] == s[..k] + [s[k]]
  {
  }

  lemma CallsOfSnoc(jobs: seq<Job>, s: seq<nat>, i: nat)
    requires Indices(jobs, s) && i < |jobs|
    ensures CallsOf(jobs, s + [i]) == CallsOf(jobs, s) + [Call(jobs[i].job, jobs[i].name)]
  {
    assert (s + [i])[..|s|] == s;
  }

  lemma NamesInSnoc(jobs: seq<Job>, s: seq<nat>, i: nat)
    requires i < |jobs|
    ensures NamesIn(jobs, s + [i]) == NamesIn(jobs, s) + {jobs[i].name}
  {
  }


  lemma CallsOfAppend(jobs: seq<Job>, s: seq<nat>, t: seq<nat>)
    requires Indices(jobs, s) && Indices(jobs, t)
    ensures Indices(jobs, s + t) && CallsOf(jobs, s + t) == CallsOf(jobs, s) + CallsOf(jobs, t)
  {
  }

  /** With distinct names there are as many names as jobs. */
  lemma {:induction false} DistinctNamesCount(jobs: seq<Job>)
    requires DistinctNames(jobs)
    ensures |Names(jobs)| == |jobs|
  {
    if jobs != [] {
      var init := jobs[..|jobs| - 1];
      DistinctNamesCount(init);
      assert Names(jobs) == Names(init) + {jobs[|jobs| - 1].name};
      assert jobs[|jobs| - 1].name !in Names(init);
    }
  }
}
