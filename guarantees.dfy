/** What frontier scheduling guarantees: every job it calls is called once and
    only after everything it waits for; a run succeeds exactly when the jobs
    admit such an order at all; and a run that stalls leaves only blocked jobs. */
module Guarantees {
  import opened Errors
  import opened Values
  import opened Validator
  import opened Reference

  /** `ord` calls distinct jobs, each only after every name it waits for has been called. */
  predicate RespectsDeps(jobs: seq<Job>, ord: seq<nat>) {
    && Indices(jobs, ord)
    && (forall p, q :: 0 <= p < q < |ord| ==> ord[p] != ord[q])
    && (forall p, d :: 0 <= p < |ord| && d in jobs[ord[p]].after ==> d in NamesIn(jobs, ord[..p]))
  }

  /** `ord` runs every job exactly once, dependencies first. */
  predicate IsTopoOrder(jobs: seq<Job>, ord: seq<nat>) {
    RespectsDeps(jobs, ord) && forall i :: 0 <= i < |jobs| ==> i in ord
  }

  /** Every job that was not called waits for a name that was not called. */
  predicate Stalled(jobs: seq<Job>, invoked: seq<nat>) {
    forall i :: 0 <= i < |jobs| && i !in invoked ==>
      exists d :: d in jobs[i].after && d !in NamesIn(jobs, invoked)
  }

  /** With distinct names, a job's name marks it as called. */
  lemma NamedIndex(jobs: seq<Job>, s: seq<nat>, i: nat)
    requires DistinctNames(jobs) && i < |jobs|
    ensures jobs[i].name in NamesIn(jobs, s) <==> i in s
  {
    if jobs[i].name in NamesIn(jobs, s) {
      var j :| j in s && j < |jobs| && jobs[j].name == jobs[i].name;
      assert j == i;
    }
  }

  /** Running a frontier after a dependency-respecting prefix keeps it dependency-respecting. */
  lemma AppendFrontier(jobs: seq<Job>, done: set<string>, invoked: seq<nat>)
    requires DistinctNames(jobs)
    requires RespectsDeps(jobs, invoked) && done == NamesIn(jobs, invoked)
    ensures RespectsDeps(jobs, invoked + Frontier(jobs, done))
    ensures NamesIn(jobs, invoked + Frontier(jobs, done)) == done + NamesIn(jobs, Frontier(jobs, done))
  {
    AppendDistinct(jobs, done, invoked);
    AppendOrdered(jobs, done, invoked);
    NamesInAppend(jobs, invoked, Frontier(jobs, done));
  }

  /** A frontier holds no job of a prefix that has run. */
  lemma AppendDistinct(jobs: seq<Job>, done: set<string>, invoked: seq<nat>)
    requires RespectsDeps(jobs, invoked) && done == NamesIn(jobs, invoked)
    ensures var s := invoked + Frontier(jobs, done);
      forall p, q :: 0 <= p < q < |s| ==> s[p] != s[q]
  {
    var f := Frontier(jobs, done);
    var s := invoked + f;
    var n := |invoked|;
    forall p, q | 0 <= p < q < |s| ensures s[p] != s[q] {
      if q >= n && p < n {
        assert jobs[s[p]].name in done;
        assert !(jobs[s[q]].name in done) by { assert Runnable(jobs[f[q - n]], done); }
      } else if p >= n {
        assert s[p] == f[p - n] && s[q] == f[q - n];
      }
    }
  }

  /** Every job of a frontier finds its dependencies among the prefix before it. */
  lemma AppendOrdered(jobs: seq<Job>, done: set<string>, invoked: seq<nat>)
    requires RespectsDeps(jobs, invoked) && done == NamesIn(jobs, invoked)
    ensures var s := invoked + Frontier(jobs, done);
      forall p, d :: 0 <= p < |s| && d in jobs[s[p]].after ==> d in NamesIn(jobs, s[..p])
  {
    var f := Frontier(jobs, done);
    var s := invoked + f;
    var n := |invoked|;
    forall p, d | 0 <= p < |s| && d in jobs[s[p]].after
      ensures d in NamesIn(jobs, s[..p])
    {
      if p < n {
        assert s[..p] == invoked[..p];
      } else {
        assert Runnable(jobs[f[p - n]], done);
        assert d in done;
        assert s[..p] == invoked + f[..p - n];
        NamesInAppend(jobs, invoked, f[..p - n]);
      }
    }
  }

  /** The names of two runs one after the other are the names of both. */
  lemma NamesInAppend(jobs: seq<Job>, s: seq<nat>, t: seq<nat>)
    ensures NamesIn(jobs, s + t) == NamesIn(jobs, s) + NamesIn(jobs, t)
  {
  }

  /** Soundness of the rounds from a consistent point: what they call respects
      dependencies, a successful run calls every job, and a stalled run leaves
      only blocked jobs. */
  lemma {:induction false} RoundsSound(jobs: seq<Job>, done: set<string>, invoked: seq<nat>)
    requires DistinctNames(jobs)
    requires RespectsDeps(jobs, invoked) && done == NamesIn(jobs, invoked)
    ensures RespectsDeps(jobs, Rounds(jobs, done, invoked).invoked)
    ensures Rounds(jobs, done, invoked).failure.None? ==> IsTopoOrder(jobs, Rounds(jobs, done, invoked).invoked)
    ensures Rounds(jobs, done, invoked).failure == Some(CircularDependency) ==>
      Stalled(jobs, Rounds(jobs, done, invoked).invoked)
    decreases |Names(jobs) - done|
  {
    if Names(jobs) <= done {
      forall i | 0 <= i < |jobs| ensures i in invoked {
        assert jobs[i].name in Names(jobs);
        NamedIndex(jobs, invoked, i);
      }
    } else {
      var f := Frontier(jobs, done);
      if f == [] {
        forall i | 0 <= i < |jobs| && i !in invoked
          ensures exists d :: d in jobs[i].after && d !in done
        {
          NamedIndex(jobs, invoked, i);
          assert !Runnable(jobs[i], done);
        }
      } else {
        AppendFrontier(jobs, done, invoked);
        FewerUnrun(jobs, done);
        RoundsSound(jobs, done + NamesIn(jobs, f), invoked + f);
      }
    }
  }

  /** The first position of `ord` whose job has not run. */
  lemma {:induction false} EarliestUnrun(jobs: seq<Job>, ord: seq<nat>, done: set<string>, p0: nat) returns (p: nat)
    requires Indices(jobs, ord) && p0 < |ord| && jobs[ord[p0]].name !in done
    ensures p <= p0 && jobs[ord[p]].name !in done
    ensures forall q :: 0 <= q < p ==> jobs[ord[q]].name in done
  {
    if q :| 0 <= q < p0 && jobs[ord[q]].name !in done {
      p := EarliestUnrun(jobs, ord, done, q);
    } else {
      p := p0;
    }
  }

  /** If some order runs every job dependencies first, the frontier is never
      empty while a job is left to run. */
  lemma ReadyWhenOrdered(jobs: seq<Job>, done: set<string>, ord: seq<nat>)
    requires IsTopoOrder(jobs, ord) && !(Names(jobs) <= done)
    ensures Frontier(jobs, done) != []
  {
    var x :| x in Names(jobs) && x !in done;
    var i :| 0 <= i < |jobs| && jobs[i].name == x;
    assert i in ord;
    var p0 :| 0 <= p0 < |ord| && ord[p0] == i;
    var p := EarliestUnrun(jobs, ord, done, p0);
    forall d | d in jobs[ord[p]].after ensures d in done {
      assert d in NamesIn(jobs, ord[..p]);
      var j :| j in ord[..p] && j < |jobs| && jobs[j].name == d;
      var q :| 0 <= q < p && ord[..p][q] == j;
      assert jobs[ord[q]].name in done;
    }
    assert Runnable(jobs[ord[p]], done);
    assert ord[p] in Frontier(jobs, done);
  }

  /** Completeness of the rounds: if the jobs admit a dependency-respecting
      order, the rounds never stall. */
  lemma {:induction false} RoundsComplete(jobs: seq<Job>, done: set<string>, invoked: seq<nat>, ord: seq<nat>)
    requires IsTopoOrder(jobs, ord)
    ensures Rounds(jobs, done, invoked).failure.None?
    decreases |Names(jobs) - done|
  {
    if !(Names(jobs) <= done) {
      ReadyWhenOrdered(jobs, done, ord);
      var f := Frontier(jobs, done);
      FewerUnrun(jobs, done);
      RoundsComplete(jobs, done + NamesIn(jobs, f), invoked + f, ord);
    }
  }

  /** A successful run calls every job exactly once, each after every name it
      waits for; whatever a failed run called also respects dependencies. */
  lemma ScheduledSound(jobs: seq<Job>)
    requires DistinctNames(jobs)
    ensures RespectsDeps(jobs, Scheduled(jobs).invoked)
    ensures Scheduled(jobs).failure.None? ==> IsTopoOrder(jobs, Scheduled(jobs).invoked)
  {
    if Frontier(jobs, {}) != [] {
      assert NamesIn(jobs, []) == {};
      RoundsSound(jobs, {}, []);
    }
  }

  /** A non-empty set of jobs that admits a dependency-respecting order is
      always scheduled successfully. */
  lemma ScheduledComplete(jobs: seq<Job>, ord: seq<nat>)
    requires |jobs| > 0 && IsTopoOrder(jobs, ord)
    ensures Scheduled(jobs).failure.None?
  {
    assert 0 in ord;
    assert NamesIn(jobs, ord[..0]) == {};
    assert Runnable(jobs[ord[0]], {});
    assert ord[0] in Frontier(jobs, {});
    RoundsComplete(jobs, {}, [], ord);
  }

  /** CircularDependency means some job had no dependencies and ran, yet the
      jobs admit no dependency-respecting order, and every job left over is
      blocked on a name that never ran. */
  lemma CircularMeansNoOrder(jobs: seq<Job>)
    requires DistinctNames(jobs)
    requires Scheduled(jobs).failure == Some(CircularDependency)
    ensures exists i :: 0 <= i < |jobs| && jobs[i].after == []
    ensures Stalled(jobs, Scheduled(jobs).invoked)
    ensures forall ord :: !IsTopoOrder(jobs, ord)
  {
    assert Frontier(jobs, {}) != [];
    assert NamesIn(jobs, []) == {};
    RoundsSound(jobs, {}, []);
    forall ord | IsTopoOrder(jobs, ord) ensures false {
      ScheduledComplete(jobs, ord);
    }
  }
}
