/** The specification validator: the only place that inspects the shape of the
    caller's value, turning it into a sequence of normalised jobs or failing
    with InvalidJobObject. */
module Validator {
  import opened Errors
  import opened Values

  /** A normalised entry: the job's name, the names it must run after, and its callable. */
  datatype Job = Job(name: string, after: seq<string>, job: FnId)

  /** The strings `ss` as a JavaScript array's elements. */
  function StrValues(ss: seq<string>): (vs: seq<Value>)
    ensures |vs| == |ss| && forall i :: 0 <= i < |ss| ==> vs[i] == Str(ss[i])
  {
    seq(|ss|, i requires 0 <= i < |ss| => Str(ss[i]))
  }

  /** The elements of an `after` array as names, or None when one of them is not a string. */
  function Strings(vs: seq<Value>): (r: Option<seq<string>>)
    ensures r.Some? <==> forall i :: 0 <= i < |vs| ==> vs[i].Str?
    ensures r.Some? ==> vs == StrValues(r.value)
  {
    if vs == [] then Some([])
    else if !vs[0].Str? then None
    else match Strings(vs[1..])
      case None => None
      case Some(rest) =>
        StrValuesCons(vs[0].s, rest);
        assert vs == [vs[0]] + vs[1..];
        Some([vs[0].s] + rest)
  }

  lemma StrValuesCons(s: string, rest: seq<string>)
    ensures StrValues([s] + rest) == [Str(s)] + StrValues(rest)
  {
  }

  /** Normalises one entry of the specification: a bare callable is a job with
      no dependencies; otherwise the entry must be a record whose only two keys
      are `after`, an array of names, and `job`, a callable. */
  function ParseEntry(name: string, v: Value): (r: Option<Job>)
    ensures v.Fn? ==> r == Some(Job(name, [], v.id))
    ensures !v.Fn? && !v.Obj? ==> r == None
    ensures v.Obj? && Lookup(v.fields, "after").None? ==> r == None
    ensures v.Obj? && Lookup(v.fields, "job").None? ==> r == None
    ensures r.Some? ==> r.value.name == name
    ensures r.Some? ==>
      || (v == Fn(r.value.job) && r.value.after == [])
      || (&& v.Obj? && |v.fields| == 2
          && Lookup(v.fields, "after") == Some(Arr(StrValues(r.value.after)))
          && Lookup(v.fields, "job") == Some(Fn(r.value.job)))
  {
    match v
    case Fn(id) => Some(Job(name, [], id))
    case Obj(fields) =>
      if |fields| != 2 then None
      else (
        match (Lookup(fields, "after"), Lookup(fields, "job"))
        case (Some(Arr(elems)), Some(Fn(id))) =>
          (match Strings(elems)
           case Some(after) => Some(Job(name, after, id))
           case None => None)
        case _ => None)
    case _ => None
  }

  /** Normalises every entry, failing as a whole if any one entry is malformed. */
  function ValidateEntries(fields: seq<(string, Value)>): (r: Result<seq<Job>>)
    ensures r.Failure? ==> r.error == InvalidJobObject
    ensures r.Success? <==> forall k :: 0 <= k < |fields| ==> ParseEntry(fields[k].0, fields[k].1).Some?
    ensures r.Success? ==>
      |r.value| == |fields| &&
      forall k :: 0 <= k < |fields| ==> ParseEntry(fields[k].0, fields[k].1) == Some(r.value[k])
  {
    if fields == [] then Success([])
    else match ParseEntry(fields[0].0, fields[0].1)
      case None => Failure(InvalidJobObject)
      case Some(job) =>
        match ValidateEntries(fields[1..])
        case Failure(e) => Failure(e)
        case Success(rest) => Success([job] + rest)
  }

  /** Validates a whole specification: it must be a plain object, and each of
      its entries must normalise. The jobs keep the object's key order. */
  function Validate(spec: Value): (r: Result<seq<Job>>)
    ensures !spec.Obj? ==> r == Failure(InvalidJobObject)
    ensures r.Failure? ==> r.error == InvalidJobObject
    ensures spec.Obj? ==>
      (r.Success? <==> forall k :: 0 <= k < |spec.fields| ==> ParseEntry(spec.fields[k].0, spec.fields[k].1).Some?)
    ensures r.Success? ==>
      |r.value| == |spec.fields| &&
      forall k :: 0 <= k < |spec.fields| ==>
        ParseEntry(spec.fields[k].0, spec.fields[k].1) == Some(r.value[k]) &&
        r.value[k].name == spec.fields[k].0
  {
    match spec
    case Obj(fields) => ValidateEntries(fields)
    case _ => Failure(InvalidJobObject)
  }

  /** The record form `{after: [...], job: fn}` of a job. */
  function RecordOf(j: Job): Value {
    Obj([("after", Arr(StrValues(j.after))), ("job", Fn(j.job))])
  }

  /** A specification object listing `jobs` in order, each in record form. */
  function SpecOf(jobs: seq<Job>): (v: Value)
    ensures v.Obj? && |v.fields| == |jobs|
    ensures forall k :: 0 <= k < |jobs| ==> v.fields[k] == (jobs[k].name, RecordOf(jobs[k]))
  {
    Obj(seq(|jobs|, k requires 0 <= k < |jobs| => (jobs[k].name, RecordOf(jobs[k]))))
  }

  /** Any two-key record with an `after` array of names and a callable `job`
      is accepted, whichever order its keys come in. */
  lemma RecordAccepted(name: string, fields: seq<(string, Value)>, after: seq<string>, f: FnId)
    requires |fields| == 2
    requires Lookup(fields, "after") == Some(Arr(StrValues(after)))
    requires Lookup(fields, "job") == Some(Fn(f))
    ensures ParseEntry(name, Obj(fields)) == Some(Job(name, after, f))
  {
    var r := Strings(StrValues(after));
    assert r.Some?;
    assert StrValues(r.value) == StrValues(after);
    assert r.value == after by {
      forall i | 0 <= i < |after| ensures r.value[i] == after[i] {
        assert StrValues(r.value)[i] == Str(r.value[i]);
      }
    }
  }

  /** Round trip: writing jobs out as records and validating them gives the same jobs back. */
  lemma ValidateSpecOf(jobs: seq<Job>)
    ensures Validate(SpecOf(jobs)) == Success(jobs)
  {
    var spec := SpecOf(jobs);
    forall k | 0 <= k < |jobs|
      ensures ParseEntry(spec.fields[k].0, spec.fields[k].1) == Some(jobs[k])
    {
      var j := jobs[k];
      RecordAccepted(j.name, RecordOf(j).fields, j.after, j.job);
    }
    var r := Validate(spec);
    assert r.Success?;
    assert r.value == jobs;
  }

  /** A bare callable is shorthand for a record with an empty `after` list. */
  lemma BareCallableIsEmptyRecord(name: string, f: FnId)
    ensures ParseEntry(name, Fn(f)) == ParseEntry(name, RecordOf(Job(name, [], f)))
  {
    RecordAccepted(name, RecordOf(Job(name, [], f)).fields, [], f);
  }

  /** One malformed entry fails the whole specification, whatever the other entries are. */
  lemma MalformedEntryRejectsSpec(fields: seq<(string, Value)>, k: nat)
    requires k < |fields| && ParseEntry(fields[k].0, fields[k].1).None?
    ensures Validate(Obj(fields)) == Failure(InvalidJobObject)
  {
  }
}
