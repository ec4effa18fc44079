/** The behaviours the `schedule` test suite pins down, on its own inputs.
    `watcher` is the mock every job calls with its name; `wrapper` is a
    callable of its own that passes its argument on to the watcher. */
module Scenarios {
  import opened Errors
  import opened Values
  import opened Validator
  import opened Reference
  import opened Bookkeeping
  import opened Treebeard

  /** The record `{after: [...], job: fn}`. */
  function Rec(after: seq<string>, f: FnId): Value {
    Obj([("after", Arr(StrValues(after))), ("job", Fn(f))])
  }

  /** Entries that each parse to the matching job validate to exactly those jobs. */
  lemma Accepts(fields: seq<(string, Value)>, jobs: seq<Job>)
    requires |fields| == |jobs|
    requires forall k :: 0 <= k < |fields| ==> ParseEntry(fields[k].0, fields[k].1) == Some(jobs[k])
    ensures Validate(Obj(fields)) == Success(jobs)
  {
    var r := Validate(Obj(fields));
    assert r.Success?;
    assert r.value == jobs;
  }

  /** The names of one job. */
  lemma NamesInOne(jobs: seq<Job>, i: nat)
    requires i < |jobs|
    ensures NamesIn(jobs, [i]) == {jobs[i].name}
  {
    assert NamesIn(jobs, []) == {};
    assert [] + [i] == [i];
    NamesInSnoc(jobs, [], i);
  }

  /** The three ways a round can go. */
  lemma RoundsNext(jobs: seq<Job>, done: set<string>, invoked: seq<nat>, f: seq<nat>,
                   done': set<string>, invoked': seq<nat>)
    requires !(Names(jobs) <= done) && f == Frontier(jobs, done) && f != []
    requires done' == done + NamesIn(jobs, f) && invoked' == invoked + f
    ensures Rounds(jobs, done, invoked) == Rounds(jobs, done', invoked')
  {
  }

  lemma RoundsStall(jobs: seq<Job>, done: set<string>, invoked: seq<nat>)
    requires !(Names(jobs) <= done) && Frontier(jobs, done) == []
    ensures Rounds(jobs, done, invoked) == Trace(invoked, Some(CircularDependency))
  {
  }

  lemma RoundsDone(jobs: seq<Job>, done: set<string>, invoked: seq<nat>)
    requires Names(jobs) <= done
    ensures Rounds(jobs, done, invoked) == Trace(invoked, None)
  {
  }

  /** Null, undefined, a string, a number, a boolean, and an array, even one
      holding a job object, are all rejected before anything runs. */
  lemma InvalidStructures(watcher: FnId)
    ensures forall v :: v in [Null, Undefined, Str("string"), Num(3), Bool(true), Arr([Obj([("a", Fn(watcher))])])] ==>
      Expected(v) == Outcome(Failure(InvalidJobObject), [])
  {
  }

  /** A record with `job` but no `after` fails the whole specification. */
  lemma OnlyJobKey(watcher: FnId)
    ensures Expected(Obj([("a", Fn(watcher)), ("x", Obj([("job", Fn(watcher))]))]))
         == Outcome(Failure(InvalidJobObject), [])
  {
    MalformedEntryRejectsSpec([("a", Fn(watcher)), ("x", Obj([("job", Fn(watcher))]))], 1);
  }

  /** A string, number, boolean, Set, Map or array entry is neither a callable
      nor a record, and fails the specification next to a valid entry. */
  lemma InvalidEntries(watcher: FnId)
    ensures forall w :: w in [Str("string"), Num(4), Bool(true), SetV([]), MapV([]), Arr([])] ==>
      Expected(Obj([("x", Fn(watcher)), ("key", w)])) == Outcome(Failure(InvalidJobObject), [])
  {
    forall w | w in [Str("string"), Num(4), Bool(true), SetV([]), MapV([]), Arr([])]
      ensures Expected(Obj([("x", Fn(watcher)), ("key", w)])) == Outcome(Failure(InvalidJobObject), [])
    {
      MalformedEntryRejectsSpec([("x", Fn(watcher)), ("key", w)], 1);
    }
  }

  /** `a` waits for `c`, `b` for `a` and `c` for `b`. */
  function CycleSpec(watcher: FnId): seq<(string, Value)> {
    [("a", Rec(["c"], watcher)), ("b", Rec(["a"], watcher)), ("c", Rec(["b"], watcher))]
  }

  function CycleJobs(watcher: FnId): seq<Job> {
    [Job("a", ["c"], watcher), Job("b", ["a"], watcher), Job("c", ["b"], watcher)]
  }

  lemma CycleValid(watcher: FnId)
    ensures Validate(Obj(CycleSpec(watcher))) == Success(CycleJobs(watcher))
  {
    RecordAccepted("a", Rec(["c"], watcher).fields, ["c"], watcher);
    RecordAccepted("b", Rec(["a"], watcher).fields, ["a"], watcher);
    RecordAccepted("c", Rec(["b"], watcher).fields, ["b"], watcher);
    Accepts(CycleSpec(watcher), CycleJobs(watcher));
  }

  lemma CycleNoStart(watcher: FnId)
    ensures Scheduled(CycleJobs(watcher)) == Trace([], Some(NoStart))
  {
    var jobs := CycleJobs(watcher);
    forall i | 0 <= i < |jobs| ensures jobs[i].after != [] {
      if i == 0 {} else if i == 1 {} else {}
    }
  }

  /** Every job waits for another: NoStart, and nothing runs. */
  lemma NoImmediatelyRunnable(watcher: FnId)
    ensures Expected(Obj(CycleSpec(watcher))) == Outcome(Failure(NoStart), [])
  {
    CycleValid(watcher);
    CycleNoStart(watcher);
  }

  /** The cycle of `a`, `b` and `c`, behind a job `x` that can start. */
  function CircularJobs(watcher: FnId): seq<Job> {
    [Job("x", [], watcher), Job("a", ["c"], watcher), Job("b", ["a"], watcher), Job("c", ["b"], watcher)]
  }

  lemma CircularStart(watcher: FnId)
    ensures Frontier(CircularJobs(watcher), {}) == [0]
  {
    var jobs := CircularJobs(watcher);
    assert !Runnable(jobs[1], {}) by { assert "c" in jobs[1].after; }
    assert !Runnable(jobs[2], {}) by { assert "a" in jobs[2].after; }
    assert !Runnable(jobs[3], {}) by { assert "b" in jobs[3].after; }
    assert FrontierUpTo(jobs, {}, 1) == [0];
    assert FrontierUpTo(jobs, {}, 2) == [0];
    assert FrontierUpTo(jobs, {}, 3) == [0];
  }

  lemma CircularStall(watcher: FnId)
    ensures Frontier(CircularJobs(watcher), {"x"}) == []
  {
    var jobs := CircularJobs(watcher);
    assert !Runnable(jobs[0], {"x"});
    assert !Runnable(jobs[1], {"x"}) by { assert "c" in jobs[1].after; }
    assert !Runnable(jobs[2], {"x"}) by { assert "a" in jobs[2].after; }
    assert !Runnable(jobs[3], {"x"}) by { assert "b" in jobs[3].after; }
    assert FrontierUpTo(jobs, {"x"}, 1) == [];
    assert FrontierUpTo(jobs, {"x"}, 2) == [];
    assert FrontierUpTo(jobs, {"x"}, 3) == [];
  }

  lemma CircularValid(watcher: FnId)
    ensures Validate(Obj([("x", Fn(watcher))] + CycleSpec(watcher))) == Success(CircularJobs(watcher))
  {
    RecordAccepted("a", Rec(["c"], watcher).fields, ["c"], watcher);
    RecordAccepted("b", Rec(["a"], watcher).fields, ["a"], watcher);
    RecordAccepted("c", Rec(["b"], watcher).fields, ["b"], watcher);
    Accepts([("x", Fn(watcher))] + CycleSpec(watcher), CircularJobs(watcher));
  }

  lemma CircularRounds(watcher: FnId)
    ensures Scheduled(CircularJobs(watcher)) == Trace([0], Some(CircularDependency))
  {
    var jobs := CircularJobs(watcher);
    CircularStart(watcher);
    CircularStall(watcher);
    NamesInOne(jobs, 0);
    assert jobs[1].name in Names(jobs);
    RoundsNext(jobs, {}, [], [0], {"x"}, [0]);
    RoundsStall(jobs, {"x"}, [0]);
  }

  /** `x` can start but `a`, `b` and `c` wait on each other in a cycle:
      `x` runs, then the run fails with CircularDependency. */
  lemma CircularSchedule(watcher: FnId)
    ensures Expected(Obj([("x", Fn(watcher))] + CycleSpec(watcher)))
         == Outcome(Failure(CircularDependency), [Call(watcher, "x")])
  {
    CircularValid(watcher);
    CircularRounds(watcher);
  }

  /** `a` waits for `b`; `b` is a callable of its own. */
  function SimpleSpec(watcher: FnId, wrapper: FnId): seq<(string, Value)> {
    [("a", Rec(["b"], watcher)), ("b", Fn(wrapper))]
  }

  function SimpleJobs(watcher: FnId, wrapper: FnId): seq<Job> {
    [Job("a", ["b"], watcher), Job("b", [], wrapper)]
  }

  lemma SimpleRounds(watcher: FnId, wrapper: FnId)
    ensures Scheduled(SimpleJobs(watcher, wrapper)) == Trace([1, 0], None)
  {
    var jobs := SimpleJobs(watcher, wrapper);
    assert !Runnable(jobs[0], {}) by { assert "b" in jobs[0].after; }
    assert FrontierUpTo(jobs, {}, 1) == [];
    assert Frontier(jobs, {}) == [1];
    NamesInOne(jobs, 1);
    assert FrontierUpTo(jobs, {"b"}, 1) == [0];
    assert Frontier(jobs, {"b"}) == [0];
    NamesInOne(jobs, 0);
    assert jobs[0].name in Names(jobs);
    RoundsNext(jobs, {}, [], [1], {"b"}, [1]);
    assert Names(jobs) <= {"b", "a"};
    RoundsNext(jobs, {"b"}, [1], [0], {"b", "a"}, [1, 0]);
    RoundsDone(jobs, {"b", "a"}, [1, 0]);
  }

  /** `a` waits for `b`, whose callable hands its name on to the watcher:
      `b` is called first, then `a`. */
  lemma SimpleQueue(watcher: FnId, wrapper: FnId)
    ensures Expected(Obj(SimpleSpec(watcher, wrapper)))
         == Outcome(Success(["b", "a"]), [Call(wrapper, "b"), Call(watcher, "a")])
  {
    RecordAccepted("a", Rec(["b"], watcher).fields, ["b"], watcher);
    Accepts(SimpleSpec(watcher, wrapper), SimpleJobs(watcher, wrapper));
    SimpleRounds(watcher, wrapper);
    var jobs := SimpleJobs(watcher, wrapper);
    assert NamesOf(jobs, [1, 0]) == ["b", "a"];
    assert CallsOf(jobs, [1, 0]) == [Call(wrapper, "b"), Call(watcher, "a")];
  }

  /** Six jobs: `a` and `c` stand alone, `b` waits for `a`, `d` and `e` for
      `a` and `c`, and `f` for `a` and `b`. */
  function ComplexSpec(watcher: FnId): seq<(string, Value)> {
    [("a", Fn(watcher)), ("b", Rec(["a"], watcher)), ("c", Fn(watcher)),
     ("d", Rec(["a", "c"], watcher)), ("e", Rec(["a", "c"], watcher)), ("f", Rec(["a", "b"], watcher))]
  }

  function ComplexJobs(watcher: FnId): seq<Job> {
    [Job("a", [], watcher), Job("b", ["a"], watcher), Job("c", [], watcher),
     Job("d", ["a", "c"], watcher), Job("e", ["a", "c"], watcher), Job("f", ["a", "b"], watcher)]
  }

  lemma ComplexValid(watcher: FnId)
    ensures Validate(Obj(ComplexSpec(watcher))) == Success(ComplexJobs(watcher))
  {
    RecordAccepted("b", Rec(["a"], watcher).fields, ["a"], watcher);
    RecordAccepted("d", Rec(["a", "c"], watcher).fields, ["a", "c"], watcher);
    RecordAccepted("e", Rec(["a", "c"], watcher).fields, ["a", "c"], watcher);
    RecordAccepted("f", Rec(["a", "b"], watcher).fields, ["a", "b"], watcher);
    Accepts(ComplexSpec(watcher), ComplexJobs(watcher));
  }

  /** Round one: `a` and `c`. */
  lemma ComplexFirst(watcher: FnId)
    ensures Frontier(ComplexJobs(watcher), {}) == [0, 2]
  {
    var jobs := ComplexJobs(watcher);
    forall i | 0 <= i < |jobs| ensures Runnable(jobs[i], {}) <==> i in [0, 2] {
      if i !in [0, 2] {
        assert "a" in jobs[i].after;
      }
    }
    FrontierExactly(jobs, {}, [0, 2]);
  }

  /** Round two: `b`, `d` and `e`; `f` still waits for `b`. */
  lemma ComplexSecond(watcher: FnId)
    ensures Frontier(ComplexJobs(watcher), {"a", "c"}) == [1, 3, 4]
  {
    var jobs := ComplexJobs(watcher);
    forall i | 0 <= i < |jobs| ensures Runnable(jobs[i], {"a", "c"}) <==> i in [1, 3, 4] {
      if i == 5 {
        assert "b" in jobs[i].after;
      }
    }
    FrontierExactly(jobs, {"a", "c"}, [1, 3, 4]);
  }

  /** Round three: `f`. */
  lemma ComplexThird(watcher: FnId)
    ensures Frontier(ComplexJobs(watcher), {"a", "c", "b", "d", "e"}) == [5]
  {
    var jobs := ComplexJobs(watcher);
    forall i | 0 <= i < |jobs| ensures Runnable(jobs[i], {"a", "c", "b", "d", "e"}) <==> i in [5] {
    }
    FrontierExactly(jobs, {"a", "c", "b", "d", "e"}, [5]);
  }

  lemma ComplexRound1(watcher: FnId)
    ensures Rounds(ComplexJobs(watcher), {}, []) == Rounds(ComplexJobs(watcher), {"a", "c"}, [0, 2])
  {
    var jobs := ComplexJobs(watcher);
    ComplexFirst(watcher);
    NamesInOne(jobs, 0);
    NamesInSnoc(jobs, [0], 2);
    assert [0] + [2] == [0, 2];
    assert jobs[0].name in Names(jobs);
    RoundsNext(jobs, {}, [], [0, 2], {"a", "c"}, [0, 2]);
  }

  lemma ComplexSecondNames(watcher: FnId)
    ensures NamesIn(ComplexJobs(watcher), [1, 3, 4]) == {"b", "d", "e"}
  {
    var jobs := ComplexJobs(watcher);
    NamesInOne(jobs, 1);
    NamesInSnoc(jobs, [1], 3);
    assert [1] + [3] == [1, 3];
    NamesInSnoc(jobs, [1, 3], 4);
    assert [1, 3] + [4] == [1, 3, 4];
  }

  lemma ComplexRound2(watcher: FnId)
    ensures Rounds(ComplexJobs(watcher), {"a", "c"}, [0, 2])
         == Rounds(ComplexJobs(watcher), {"a", "c", "b", "d", "e"}, [0, 2, 1, 3, 4])
  {
    var jobs := ComplexJobs(watcher);
    ComplexSecond(watcher);
    ComplexSecondNames(watcher);
    assert jobs[1].name in Names(jobs);
    RoundsNext(jobs, {"a", "c"}, [0, 2], [1, 3, 4], {"a", "c", "b", "d", "e"}, [0, 2, 1, 3, 4]);
  }

  /** After round three every name has run. */
  lemma ComplexAllRun(watcher: FnId)
    ensures Names(ComplexJobs(watcher)) <= {"a", "c", "b", "d", "e", "f"}
  {
    var jobs := ComplexJobs(watcher);
    forall x | x in Names(jobs) ensures x in {"a", "c", "b", "d", "e", "f"} {
      var i :| 0 <= i < |jobs| && jobs[i].name == x;
      if i == 0 {} else if i == 1 {} else if i == 2 {} else if i == 3 {} else if i == 4 {} else {}
    }
  }

  lemma ComplexRound3(watcher: FnId)
    ensures Rounds(ComplexJobs(watcher), {"a", "c", "b", "d", "e"}, [0, 2, 1, 3, 4])
         == Trace([0, 2, 1, 3, 4, 5], None)
  {
    var jobs := ComplexJobs(watcher);
    ComplexThird(watcher);
    NamesInOne(jobs, 5);
    assert jobs[5].name in Names(jobs);
    RoundsNext(jobs, {"a", "c", "b", "d", "e"}, [0, 2, 1, 3, 4], [5], {"a", "c", "b", "d", "e", "f"}, [0, 2, 1, 3, 4, 5]);
    ComplexAllRun(watcher);
    RoundsDone(jobs, {"a", "c", "b", "d", "e", "f"}, [0, 2, 1, 3, 4, 5]);
  }

  /** The names of the complex queue in call order. */
  lemma ComplexNames(watcher: FnId)
    ensures NamesOf(ComplexJobs(watcher), [0, 2, 1, 3, 4, 5]) == ["a", "c", "b", "d", "e", "f"]
  {
    var jobs := ComplexJobs(watcher);
    var n := NamesOf(jobs, [0, 2, 1, 3, 4, 5]);
    assert n[0] == "a" && n[1] == "c" && n[2] == "b" && n[3] == "d" && n[4] == "e" && n[5] == "f";
  }

  lemma ComplexRounds(watcher: FnId)
    ensures Scheduled(ComplexJobs(watcher)) == Trace([0, 2, 1, 3, 4, 5], None)
  {
    ComplexFirst(watcher);
    ComplexRound1(watcher);
    ComplexRound2(watcher);
    ComplexRound3(watcher);
  }

  /** Six jobs in three rounds, `{a, c}`, `{b, d, e}` and `{f}`, each in key
      order: the watcher is called six times, with a, c, b, d, e, f. */
  lemma ComplexQueue(watcher: FnId)
    ensures Expected(Obj(ComplexSpec(watcher))).result == Success(["a", "c", "b", "d", "e", "f"])
    ensures Args(Expected(Obj(ComplexSpec(watcher))).calls) == ["a", "c", "b", "d", "e", "f"]
  {
    ComplexValid(watcher);
    ComplexRounds(watcher);
    ComplexNames(watcher);
  }
}
