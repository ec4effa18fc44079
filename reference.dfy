/** The reference semantics of frontier scheduling: which jobs are runnable,
    what one round does, and the whole run, as functions over the set of
    names that have completed. The array-based scheduler is proved equal to
    `Scheduled`; the lemmas here say what `Scheduled` guarantees. */
module Reference {
  import opened Errors
  import opened Values
  import opened Validator

  /** Every job name appears once (the keys of the specification object). */
  predicate DistinctNames(jobs: seq<Job>) {
    forall i, j :: 0 <= i < j < |jobs| ==> jobs[i].name != jobs[j].name
  }

  /** Every entry of `idx` is the index of a job. */
  predicate Indices(jobs: seq<Job>, idx: seq<nat>) {
    forall p :: 0 <= p < |idx| ==> idx[p] < |jobs|
  }

  function Names(jobs: seq<Job>): set<string> {
    set i | 0 <= i < |jobs| :: jobs[i].name
  }

  /** The names of the jobs at the indices `idx`. */
  function NamesIn(jobs: seq<Job>, idx: seq<nat>): set<string> {
    set i | i in idx && i < |jobs| :: jobs[i].name
  }

  /** A job is runnable when it has not run and every name it waits for has. */
  predicate Runnable(job: Job, done: set<string>) {
    job.name !in done && forall d :: d in job.after ==> d in done
  }

  /** The number of entries of `after` that are still unmet once `done` have run. */
  function Missing(after: seq<string>, done: set<string>): nat {
    if after == [] then 0
    else (if after[0] in done then 0 else 1) + Missing(after[1..], done)
  }

  /** How often `x` occurs in `after`. */
  function Occurrences(after: seq<string>, x: string): nat {
    if after == [] then 0
    else (if after[0] == x then 1 else 0) + Occurrences(after[1..], x)
  }

  /** Before anything runs, every dependency is unmet. */
  lemma {:induction false} MissingNone(after: seq<string>)
    ensures Missing(after, {}) == |after|
  {
    if after != [] {
      MissingNone(after[1..]);
    }
  }

  /** A count of zero unmet dependencies means every dependency has run. */
  lemma {:induction false} MissingZero(after: seq<string>, done: set<string>)
    ensures Missing(after, done) == 0 <==> forall d :: d in after ==> d in done
  {
    if after != [] {
      MissingZero(after[1..], done);
      assert forall d :: d in after <==> d == after[0] || d in after[1..];
    }
  }

  /** When `x` completes, the unmet count drops by the number of times `x` is waited for. */
  lemma {:induction false} MissingMark(after: seq<string>, done: set<string>, x: string)
    requires x !in done
    ensures Missing(after, done + {x}) + Occurrences(after, x) == Missing(after, done)
  {
    if after != [] {
      MissingMark(after[1..], done, x);
    }
  }

  /** The runnable jobs among the first `k`, in key order. */
  function FrontierUpTo(jobs: seq<Job>, done: set<string>, k: nat): (f: seq<nat>)
    requires k <= |jobs|
    ensures forall p :: 0 <= p < |f| ==> f[p] < k && Runnable(jobs[f[p]], done)
    ensures forall p, q :: 0 <= p < q < |f| ==> f[p] < f[q]
    ensures forall i :: 0 <= i < k && Runnable(jobs[i], done) ==> i in f
  {
    if k == 0 then []
    else FrontierUpTo(jobs, done, k - 1) + (if Runnable(jobs[k - 1], done) then [k - 1] else [])
  }

  /** The frontier: every runnable job, in key order. */
  function Frontier(jobs: seq<Job>, done: set<string>): (f: seq<nat>)
    ensures Indices(jobs, f)
  {
    FrontierUpTo(jobs, done, |jobs|)
  }

  /** Two strictly increasing sequences with the same members are equal. */
  lemma {:induction false} IncreasingUnique(a: seq<nat>, b: seq<nat>)
    requires forall p, q :: 0 <= p < q < |a| ==> a[p] < a[q]
    requires forall p, q :: 0 <= p < q < |b| ==> b[p] < b[q]
    requires forall x :: x in a <==> x in b
    ensures a == b
  {
    assert a != [] ==> a[0] in a;
    assert b != [] ==> b[0] in b;
    if a != [] && b != [] {
      assert a[0] in b && b[0] in a;
      assert a[0] == b[0];
      forall x ensures x in a[1..] <==> x in b[1..] {
        if x in a[1..] {
          assert x in b && x != b[0];
        }
        if x in b[1..] {
          assert x in a && x != a[0];
        }
      }
      IncreasingUnique(a[1..], b[1..]);
      assert a == [a[0]] + a[1..] && b == [b[0]] + b[1..];
    }
  }

  /** The frontier is exactly the runnable jobs, in key order. */
  lemma FrontierExactly(jobs: seq<Job>, done: set<string>, f: seq<nat>)
    requires forall p, q :: 0 <= p < q < |f| ==> f[p] < f[q]
    requires forall p :: 0 <= p < |f| ==> f[p] < |jobs|
    requires forall i :: 0 <= i < |jobs| ==> (Runnable(jobs[i], done) <==> i in f)
    ensures Frontier(jobs, done) == f
  {
    var g := Frontier(jobs, done);
    forall x ensures x in g <==> x in f {
      if x in g {
        var p :| 0 <= p < |g| && g[p] == x;
        assert Runnable(jobs[x], done);
      }
      if x in f {
        var p :| 0 <= p < |f| && f[p] == x;
        assert x < |jobs|;
      }
    }
    IncreasingUnique(g, f);
  }

  /** Removing a member makes a set one smaller. */
  lemma CardRemove<T>(s: set<T>, x: T)
    requires x in s
    ensures |s - {x}| == |s| - 1
  {
    assert s == (s - {x}) + {x};
  }

  /** A subset is no larger. */
  lemma CardSubset(a: set<string>, b: set<string>)
    requires a <= b
    ensures |a| <= |b|
  {
    assert b == a + (b - a);
  }

  /** A non-empty frontier leaves fewer jobs to run. */
  lemma FewerUnrun(jobs: seq<Job>, done: set<string>)
    requires Frontier(jobs, done) != []
    ensures |Names(jobs) - (done + NamesIn(jobs, Frontier(jobs, done)))| < |Names(jobs) - done|
  {
    var f := Frontier(jobs, done);
    var x := jobs[f[0]].name;
    var before := Names(jobs) - done;
    var after := Names(jobs) - (done + NamesIn(jobs, f));
    assert x in NamesIn(jobs, f);
    assert x in Names(jobs);
    assert x in before;
    CardRemove(before, x);
    CardSubset(after, before - {x});
  }

  /** What a run did: the jobs it invoked, in order, and the error it stopped with, if any. */
  datatype Trace = Trace(invoked: seq<nat>, failure: Option<Error>)

  /** The rounds from the point where `done` have run and `invoked` were called:
      stop when every job has run; stall with CircularDependency when no job is
      runnable; otherwise run the whole frontier and go on. */
  function Rounds(jobs: seq<Job>, done: set<string>, invoked: seq<nat>): (t: Trace)
    ensures invoked <= t.invoked
    ensures Indices(jobs, invoked) ==> Indices(jobs, t.invoked)
    ensures t.failure.None? || t.failure == Some(CircularDependency)
    decreases |Names(jobs) - done|
  {
    if Names(jobs) <= done then Trace(invoked, None)
    else
      var f := Frontier(jobs, done);
      if f == [] then Trace(invoked, Some(CircularDependency))
      else
        FewerUnrun(jobs, done);
        Rounds(jobs, done + NamesIn(jobs, f), invoked + f)
  }

  /** The whole run: without a job that can start there is NoStart and nothing
      runs; otherwise the rounds from nothing having run. */
  function Scheduled(jobs: seq<Job>): (t: Trace)
    ensures Indices(jobs, t.invoked)
    ensures t.failure == Some(NoStart) <==> forall i :: 0 <= i < |jobs| ==> jobs[i].after != []
    ensures t.failure == Some(NoStart) ==> t.invoked == []
    ensures t.failure == Some(CircularDependency) ==> t.invoked != []
  {
    var f := Frontier(jobs, {});
    NoStartIff(jobs);
    if f == [] then Trace([], Some(NoStart))
    else
      assert jobs[f[0]].name in Names(jobs);
      FewerUnrun(jobs, {});
      Rounds(jobs, {}, [])
  }

  /** The initial frontier is empty exactly when every job waits for something. */
  lemma NoStartIff(jobs: seq<Job>)
    ensures Frontier(jobs, {}) == [] <==> forall i :: 0 <= i < |jobs| ==> jobs[i].after != []
  {
    var f := Frontier(jobs, {});
    forall i | 0 <= i < |jobs|
      ensures Runnable(jobs[i], {}) <==> jobs[i].after == []
    {
      if jobs[i].after != [] {
        assert jobs[i].after[0] in jobs[i].after;
      }
    }
    if f != [] {
      assert jobs[f[0]].after == [];
    }
    if i :| 0 <= i < |jobs| && jobs[i].after == [] {
      assert i in f;
    }
  }
}
