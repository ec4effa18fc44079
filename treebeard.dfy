/** `schedule(jobs)` end to end: the specification is validated, then its jobs
    are run in rounds; the caller sees one result or one error, and the
    watcher sees the arguments of the calls, in order. */
module Treebeard {
  import opened Errors
  import opened Values
  import opened Validator
  import opened Reference
  import opened Bookkeeping
  import opened Guarantees
  import opened Scheduler

  /** What one call of `schedule(spec)` settles with, and the calls it makes on the way. */
  datatype Outcome = Outcome(result: Result<seq<string>>, calls: seq<Call>)

  /** The arguments the callables were given, in call order: what the watcher records. */
  function Args(calls: seq<Call>): (args: seq<string>)
    ensures |args| == |calls| && forall i :: 0 <= i < |calls| ==> args[i] == calls[i].arg
  {
    if calls == [] then [] else Args(calls[..|calls| - 1]) + [calls[|calls| - 1].arg]
  }

  /** The outcome of `schedule(spec)`: an invalid specification fails before any
      job runs; otherwise the reference rounds decide the result and the calls. */
  function Expected(spec: Value): (o: Outcome)
    ensures o.result == Failure(InvalidJobObject) <==> Validate(spec).Failure?
    ensures o.result.Failure? && o.result.error != CircularDependency ==> o.calls == []
    ensures o.result == Failure(CircularDependency) ==> o.calls != []
    ensures o.result.Success? ==> Args(o.calls) == o.result.value
  {
    match Validate(spec)
    case Failure(e) => Outcome(Failure(e), [])
    case Success(jobs) =>
      var t := Scheduled(jobs);
      var o := Outcome(Report(jobs, t), CallsOf(jobs, t.invoked));
      assert o.result.Success? ==> Args(o.calls) == NamesOf(jobs, t.invoked);
      o
  }

  /** Keys of a JavaScript object are distinct, so the validated jobs have distinct names. */
  lemma ValidatedNamesDistinct(spec: Value)
    requires UniqueKeys(spec) && Validate(spec).Success?
    ensures DistinctNames(Validate(spec).value)
  {
    var jobs := Validate(spec).value;
    forall i, j | 0 <= i < j < |jobs| ensures jobs[i].name != jobs[j].name {
      assert jobs[i].name == spec.fields[i].0 && jobs[j].name == spec.fields[j].0;
    }
  }

  /** `schedule(spec)`: validates, then runs the jobs with the scheduler's arrays. */
  method Run(spec: Value) returns (o: Outcome)
    requires UniqueKeys(spec)
    ensures o == Expected(spec)
  {
    var v := Validate(spec);
    if v.Failure? {
      return Outcome(Failure(v.error), []);
    }
    ValidatedNamesDistinct(spec);
    var result, calls := Schedule(v.value);
    o := Outcome(result, calls);
  }

  /** The members of a sequence without repeats are as many as its entries. */
  lemma {:induction false} DistinctMembers(s: seq<nat>)
    requires forall p, q :: 0 <= p < q < |s| ==> s[p] != s[q]
    ensures |set x: nat | x in s| == |s|
  {
    if s != [] {
      var init, last := s[..|s| - 1], s[|s| - 1];
      DistinctMembers(init);
      assert s == init + [last];
      var members := set x: nat | x in s;
      assert last in members;
      CardRemove(members, last);
      assert members - {last} == set x: nat | x in init;
    }
  }

  /** The indices below `n`. */
  function Below(n: nat): (r: set<nat>)
    ensures |r| == n && forall i: nat :: i in r <==> i < n
  {
    if n == 0 then {}
    else
      var r := Below(n - 1) + {n - 1};
      CardRemove(r, n - 1);
      assert r - {n - 1} == Below(n - 1);
      r
  }

  /** A sequence without repeats of the indices below `n` that holds every one of them has length `n`. */
  lemma CoverLength(ord: seq<nat>, n: nat)
    requires forall p, q :: 0 <= p < q < |ord| ==> ord[p] != ord[q]
    requires forall p :: 0 <= p < |ord| ==> ord[p] < n
    requires forall i :: 0 <= i < n ==> i in ord
    ensures |ord| == n
  {
    DistinctMembers(ord);
    assert (set x: nat | x in ord) == Below(n);
  }

  /** The names along a topological order: every job's name exactly once, and
      each after every name its job waits for. */
  lemma TopoOrderNames(jobs: seq<Job>, ord: seq<nat>)
    requires DistinctNames(jobs) && IsTopoOrder(jobs, ord)
    ensures var r := NamesOf(jobs, ord);
      && |r| == |jobs|
      && (forall k :: 0 <= k < |jobs| ==> jobs[k].name in r)
      && (forall i, j :: 0 <= i < j < |r| ==> r[i] != r[j])
      && (forall i, k, d :: 0 <= i < |r| && 0 <= k < |jobs| && r[i] == jobs[k].name && d in jobs[k].after ==>
            d in r[..i])
  {
    var r := NamesOf(jobs, ord);
    CoverLength(ord, |jobs|);
    forall k | 0 <= k < |jobs| ensures jobs[k].name in r {
      assert k in ord;
      var p :| 0 <= p < |ord| && ord[p] == k;
      assert r[p] == jobs[k].name;
    }
    forall i, j | 0 <= i < j < |r| ensures r[i] != r[j] {
      assert ord[i] != ord[j];
    }
    forall i, k, d | 0 <= i < |r| && 0 <= k < |jobs| && r[i] == jobs[k].name && d in jobs[k].after
      ensures d in r[..i]
    {
      assert ord[i] == k;
      assert d in NamesIn(jobs, ord[..i]);
      var x :| x in ord[..i] && x < |jobs| && jobs[x].name == d;
      var q :| 0 <= q < i && ord[q] == x;
      assert r[..i][q] == d;
    }
  }

  /** A successful `schedule(spec)` calls every key exactly once, and a job's
      name comes after every name it waits for. */
  lemma ScheduleSound(spec: Value)
    requires UniqueKeys(spec) && Expected(spec).result.Success?
    ensures Validate(spec).Success?
    ensures var jobs, r := Validate(spec).value, Expected(spec).result.value;
      && |r| == |spec.fields|
      && (forall k :: 0 <= k < |spec.fields| ==> spec.fields[k].0 in r)
      && (forall i, j :: 0 <= i < j < |r| ==> r[i] != r[j])
      && (forall i, k, d :: 0 <= i < |r| && 0 <= k < |jobs| && r[i] == jobs[k].name && d in jobs[k].after ==>
            d in r[..i])
  {
    var jobs := Validate(spec).value;
    ValidatedNamesDistinct(spec);
    ScheduledSound(jobs);
    TopoOrderNames(jobs, Scheduled(jobs).invoked);
  }
}
