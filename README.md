# treebeard `schedule(jobs)` in Dafny

`schedule(jobs)` takes a specification of named jobs. It settles with the names
of the jobs in the order they ran, or with one of three errors.

The specification is a plain object. Each key is a job name. Each value is either
a bare callable, or a record `{ after: [names...], job: callable }`. Anything else
fails with `ErrInvalidJobObject`, and so does a specification that is not a plain
object at all. A valid specification is run in rounds:
- The first round holds every job with no dependencies. If there is none, the
  call fails with `ErrNoStart` and nothing runs.
- Each round calls every runnable job once, in key order, passing the job its own
  name. The round then takes the finished names off the unmet-dependency counts
  of the jobs still to run.
- A round that finds no runnable job while jobs remain fails with
  `ErrCircularDependency`. The jobs already called stay called.

The implementation (`src/index.js`) and the error classes (`src/errors.js`) are
not part of this model. The behaviour modelled here is the one pinned down by
the test suite `src/index.spec.js`, read together with the design of the project.

The model has these modules:
- `Errors`: the three errors, and a `Result` type.
- `Values`: JavaScript values as a datatype. An object is its fields, in key order.
- `Validator`: the shape check. It normalises a specification into a sequence of
  `Job(name, after, job)`, or fails with `InvalidJobObject`.
- `Reference`: the scheduling rounds as functions.
  - `Frontier` gives the runnable jobs, in key order.
  - `Rounds` and `Scheduled` give the trace of a run: the indices called, in
    order, and the error the run stopped with, if any.
- `Guarantees`: what the rounds promise.
  - Soundness: every job is called once, after everything it waits for.
  - Completeness: a run succeeds whenever some dependency-respecting order exists.
  - A stalled run leaves only blocked jobs.
- `Bookkeeping`: the call log, what the caller is told, and how the scheduler's
  arrays relate to the set of names that have run.
- `Scheduler`: the imperative scheduler.
  - `unmet` is an array of per-job counts of unmet dependencies.
  - `ran` is an array of has-run flags.
  - A round loop appends every call to a log.
  - Each method is proved equal to the `Reference` functions.
- `Treebeard`: `schedule(spec)` end to end.
  - `Expected` is the outcome as a function.
  - `Run` is the validator followed by the scheduler.
  - `ScheduleSound` states what a successful call promises, over the caller's object.
- `Scenarios`: the suite's inputs, each shown to give exactly the asserted outcome.
  - A callable is an opaque identity. The `watcher` mock is one such identity.
  - The wrapper `b: (key) => { watcher(key); }` is another identity. It forwards
    its argument unchanged, so `Args` of the call log is the watcher's call history.

About the suite itself: `error` is assigned in the `catch` branch and never
reset. So the tests after the "only a job key" case would still see an earlier
`ErrInvalidJobObject` even if their own call succeeded. The model gives the
verdict that each of those inputs calls for on its own (`Scenarios.InvalidEntries`).

## Model

| member | source | states |
|---|---|---|
| Values.Lookup | src/index.spec.js:90-101 | The key is found exactly when some field has it, and the value found is stored under that key. |
| Validator.Strings | src/index.spec.js:124-130 | An `after` array yields names exactly when every element is a string, and those names write back to the same array. |
| Validator.ParseEntry | src/index.spec.js:90-122 | A bare callable is a job with no dependencies. A non-callable non-object, or a record lacking `after` or `job`, is rejected. An accepted record has exactly the keys `after` (the job's names) and `job` (its callable). |
| Validator.ValidateEntries | src/index.spec.js:90-122 | Succeeds exactly when every entry normalises, and then gives one job per entry, in key order. Any failure is `InvalidJobObject`. |
| Validator.Validate | src/index.spec.js:40-59 | Anything but a plain object fails with `InvalidJobObject`. An object succeeds exactly when every entry normalises, giving the jobs in key order under their keys. |
| Validator.RecordAccepted | src/index.spec.js:126-130 | Any two-key record with an `after` array of names and a callable `job` is accepted, whichever order its keys come in. |
| Validator.ValidateSpecOf | src/index.spec.js:143-165 | Round trip: writing jobs out as records and validating them gives the same jobs back. |
| Validator.BareCallableIsEmptyRecord | src/index.spec.js:131-133 | A bare callable validates exactly like a record with an empty `after` list. |
| Validator.MalformedEntryRejectsSpec | src/index.spec.js:103-122 | One malformed entry fails the whole specification with `InvalidJobObject`, whatever the other entries are. |
| Reference.MissingZero | src/index.spec.js:61-73 | A job has no missing dependency exactly when every name it waits for has run. |
| Reference.MissingMark | src/index.spec.js:143-175 | When a name runs, the missing count of a job falls by the number of times that job waits for the name. |
| Reference.MissingNone | src/index.spec.js:61-73 | Before anything has run, every entry of a job's `after` list counts as unmet. |
| Reference.FrontierUpTo | src/index.spec.js:167-174 | The runnable jobs below a bound, in strictly increasing key order: an index is listed exactly when its job has not run and everything it waits for has. |
| Reference.IncreasingUnique | src/index.spec.js:167-174 | Two strictly increasing sequences with the same members are equal, so key order within a round is fixed. |
| Reference.FrontierExactly | src/index.spec.js:167-174 | Any strictly increasing list of exactly the runnable jobs is the frontier. |
| Reference.FewerUnrun | src/index.spec.js:143-175 | Running a non-empty frontier strictly lowers the number of names still to run, so the rounds terminate. |
| Reference.Rounds | src/index.spec.js:75-88 | The rounds only extend the log of calls, keep its indices in range, and can fail only with `CircularDependency`. |
| Reference.Scheduled | src/index.spec.js:61-88 | The run fails with `NoStart` exactly when every job waits for something, and then calls nothing. A `CircularDependency` failure has called at least one job. |
| Reference.NoStartIff | src/index.spec.js:61-73 | The first frontier is empty exactly when every job has a non-empty `after` list. |
| Guarantees.NamedIndex | src/index.spec.js:143-175 | With distinct names, a job counts as called exactly when its name has run. |
| Guarantees.AppendFrontier | src/index.spec.js:143-175 | Appending a frontier to a dependency-respecting log keeps it dependency-respecting and adds the frontier's names. |
| Guarantees.AppendDistinct | src/index.spec.js:143-175 | A frontier holds no job that has already run, and no job twice. |
| Guarantees.AppendOrdered | src/index.spec.js:143-175 | Every job of a frontier finds what it waits for among the jobs called before it. |
| Guarantees.RoundsSound | src/index.spec.js:143-175 | From a consistent point, the rounds call distinct jobs, each after its dependencies. Success calls every job. A stall leaves every uncalled job waiting on an uncalled name. |
| Guarantees.RoundsComplete | src/index.spec.js:143-175 | If some order runs every job dependencies first, the rounds never stall. |
| Guarantees.ReadyWhenOrdered | src/index.spec.js:143-175 | If such an order exists, the frontier is non-empty while any job remains. |
| Guarantees.ScheduledSound | src/index.spec.js:143-175 | A run calls distinct jobs, each after every name it waits for. A successful run calls every job exactly once. |
| Guarantees.ScheduledComplete | src/index.spec.js:124-175 | A non-empty set of jobs that admits a dependency-respecting order is always scheduled successfully. |
| Guarantees.CircularMeansNoOrder | src/index.spec.js:75-88 | `CircularDependency` means some job could start, the leftover jobs are all blocked, and no dependency-respecting order of all the jobs exists. |
| Bookkeeping.NamesOf | src/index.spec.js:137-140 | The names of the called jobs, position by position. |
| Bookkeeping.CallsOf | src/index.spec.js:137-140 | The call log: each called job's callable, given the job's own name, position by position. |
| Bookkeeping.Report | src/index.spec.js:15-33 | The caller sees success, with the names in call order, exactly when the run had no error. Otherwise it sees that one error. |
| Bookkeeping.NamesUpToAll | src/index.spec.js:167-174 | The names gathered over the first `k` jobs of a round are the names of that prefix. |
| Bookkeeping.CallsUpToAll | src/index.spec.js:167-174 | The calls gathered over the first `k` jobs of a round are the call log of that prefix. |
| Bookkeeping.DistinctNamesCount | src/index.spec.js:143-175 | Jobs with distinct names have as many names as jobs. |
| Scheduler.ReadyJobs | src/index.spec.js:143-175 | Scanning the arrays in key order collects exactly the frontier. |
| Scheduler.Complete | src/index.spec.js:143-175 | Marks the job run and lowers each unrun job's count by how often it waits for the name. Every other entry is unchanged, and the arrays keep tracking the names that have run. |
| Scheduler.RunRound | src/index.spec.js:167-174 | Invokes the frontier in key order, each job with its own name, and appends exactly the frontier's calls. Leaves the arrays tracking the new names and counts the names still to run. |
| Scheduler.RunJob | src/index.spec.js:137-140 | Invokes one job of a round and carries the round's invariant one job further. |
| Scheduler.Step | src/index.spec.js:75-88 | A round either stalls, and then the reference rounds end in `CircularDependency`, or it runs and strictly lowers the number of names still to run, leaving the rest of the rounds unchanged. |
| Scheduler.RunRounds | src/index.spec.js:143-175 | The round loop yields exactly the reference rounds' report and call log. |
| Scheduler.Schedule | src/index.spec.js:124-175 | The array scheduler's result and call log are exactly those of `Scheduled`: `NoStart` with no calls, `CircularDependency`, or success. |
| Treebeard.Args | src/index.spec.js:137-140 | The arguments of the calls, in order: the watcher's call history. |
| Treebeard.Expected | src/index.spec.js:14-34 | The result is `InvalidJobObject` exactly when validation fails. Other failures make no calls, except `CircularDependency`, which has made some. On success, the callables were called with the result's names, in order. |
| Treebeard.ValidatedNamesDistinct | src/index.spec.js:63-67 | The keys of an object are distinct, so the validated jobs have distinct names. |
| Treebeard.Run | src/index.spec.js:14-34 | Validating and then running the array scheduler settles with exactly the `Expected` outcome. |
| Treebeard.DistinctMembers | src/index.spec.js:143-175 | A sequence without repeats has as many members as entries. |
| Treebeard.Below | src/index.spec.js:143-175 | The indices below `n`: exactly those, `n` of them. |
| Treebeard.CoverLength | src/index.spec.js:143-175 | A repeat-free sequence of indices below `n` that holds all of them has length `n`. |
| Treebeard.TopoOrderNames | src/index.spec.js:143-175 | Along a topological order the names hold every job's name exactly once, each after every name it waits for. |
| Treebeard.ScheduleSound | src/index.spec.js:143-175 | A successful `schedule(spec)` returns one name per key, with every key and no repeats, each after every name in its `after` list. |
| Scenarios.Accepts | src/index.spec.js:124-165 | An object whose entries normalise one by one to given jobs validates to exactly those jobs. |
| Scenarios.RoundsNext | src/index.spec.js:167-174 | A non-empty frontier moves the rounds on by that frontier. |
| Scenarios.RoundsStall | src/index.spec.js:75-88 | An empty frontier with jobs left ends the rounds in `CircularDependency`. |
| Scenarios.RoundsDone | src/index.spec.js:167-174 | The rounds end successfully once every name has run. |
| Scenarios.InvalidStructures | src/index.spec.js:40-59 | null, undefined, a string, a number, a boolean and an array of job objects each fail with `InvalidJobObject` before any call. |
| Scenarios.NoImmediatelyRunnable | src/index.spec.js:61-73 | The three-job cycle a→c→b→a fails with `NoStart` and makes no call. |
| Scenarios.CycleValid | src/index.spec.js:63-67 | The three-job cycle is a valid specification. |
| Scenarios.CycleNoStart | src/index.spec.js:61-73 | The scheduled run of the cycle is `NoStart` with nothing called. |
| Scenarios.CircularStart | src/index.spec.js:77-82 | In the circular schedule, only `x` can start. |
| Scenarios.CircularStall | src/index.spec.js:77-82 | Once `x` has run, nothing is runnable. |
| Scenarios.CircularValid | src/index.spec.js:77-82 | The circular schedule is a valid specification. |
| Scenarios.CircularRounds | src/index.spec.js:75-88 | The circular schedule calls `x` and then stops with `CircularDependency`. |
| Scenarios.CircularSchedule | src/index.spec.js:75-88 | `schedule` of the circular schedule fails with `CircularDependency` after calling the watcher once, with `"x"`. |
| Scenarios.OnlyJobKey | src/index.spec.js:90-101 | A record with only a `job` key fails the whole specification with `InvalidJobObject`, beside a valid bare callable, and nothing is called. |
| Scenarios.InvalidEntries | src/index.spec.js:103-122 | An entry that is a string, number, boolean, Set, Map or array fails with `InvalidJobObject`, beside a valid bare callable, and nothing is called. |
| Scenarios.SimpleRounds | src/index.spec.js:124-141 | The simple queue calls `b`, then `a`, and succeeds. |
| Scenarios.SimpleQueue | src/index.spec.js:124-141 | `schedule` of the simple queue succeeds with `["b", "a"]`, calling the wrapper with `"b"` and then the watcher with `"a"`. |
| Scenarios.ComplexValid | src/index.spec.js:143-165 | The six-job graph is a valid specification. |
| Scenarios.ComplexFirst | src/index.spec.js:167-169 | The first round is `a`, `c`. |
| Scenarios.ComplexSecond | src/index.spec.js:170-172 | Once `a` and `c` have run, the second round is `b`, `d`, `e`. |
| Scenarios.ComplexThird | src/index.spec.js:173 | Once those have run, the third round is `f`. |
| Scenarios.ComplexRounds | src/index.spec.js:143-175 | The six-job graph calls a, c, b, d, e, f in that order and succeeds. |
| Scenarios.ComplexQueue | src/index.spec.js:143-175 | `schedule` of the six-job graph succeeds with a, c, b, d, e, f, and the watcher sees exactly those arguments, in that order. |

## Left out

- The Promise wrapper and the `.then`/`.catch` plumbing (src/index.spec.js:15-33): the outcome is a value, `Outcome(result, calls)`, not a deferred one.
- The Jest machinery (`jest.fn`, `mockClear`, the `before`/`after` hooks, the reassigned `jobs`, `result` and `error` variables): the mock's call history is the returned call log, and each scenario is one call of `schedule`.
- Concurrency: the jobs of a round are invoked one after another, in key order, and each finishes before the next starts.
- What a callable does, and what happens when one throws or returns a rejected promise: a callable is an opaque identity that is called with a name.
- Class identity and `instanceof` on the errors: the three errors are three constructors of one datatype.
- JavaScript numbers are modelled as integers. The validator never looks inside them.
- Enumeration order of JavaScript object keys: an object is its fields in the order listed. The rule that integer-like keys enumerate first is not modelled.
- Treebeard.Run: requires that the specification's keys are distinct (`UniqueKeys`). A JavaScript object cannot hold one key twice, so every real input meets this.
- Decisions the suite leaves open, taken from the project's design:
  - A finished name lowers a waiting job's count once per time the job lists it, so a repeated dependency does not deadlock.
  - A record with keys other than exactly `after` and `job` is invalid.
  - A dependency that names no job is never satisfied, so its job never runs.
  - An empty specification `{}` fails with `NoStart`.
