/**
 What every run of the cluster manager's handlers keeps.
 */
module ClusterRuns {
  import opened Wrappers
  import opened ClusterJobs
  import opened ClusterLife
  import opened ClusterMarking

  /**
   A request as the root sends it: it carries the one instance it is about, with a status the cluster knows and no null time.
   A new document gets an id that is not taken.
   */
  predicate GoodRequest(jobs: seq<Job>, number: int, r: Request, newId: string) {
    && |r.instances| == 1 && r.instances[0].number == number && Readable(r.instances[0])
    && (r.id.None? ==> IndexById(jobs, newId) == |jobs|)
  }

  predicate GoodEvent(s: State, e: Event) {
    e.DeployRequest? ==> GoodRequest(s.jobs, e.number, e.request, e.newId)
  }

  datatype Timed = Timed(event: Event, at: Time)

  /** The state after a run of handlers. */
  function After(s: State, run: seq<Timed>, t: Timeouts): State {
    if run == [] then
      s
    else
      Handle(After(s, run[..|run| - 1], t), run[|run| - 1].event, t, run[|run| - 1].at)
  }

  ghost predicate GoodRun(s: State, run: seq<Timed>, t: Timeouts) {
    forall k {:trigger run[k]} :: 0 <= k < |run| ==> GoodEvent(After(s, run[..k], t), run[k].event)
  }

  lemma {:induction false} GoodPrefix(s: State, run: seq<Timed>, t: Timeouts)
    requires run != [] && GoodRun(s, run, t)
    ensures GoodRun(s, run[..|run| - 1], t) && GoodEvent(After(s, run[..|run| - 1], t), run[|run| - 1].event)
  {
    var p := run[..|run| - 1];
    forall k {:trigger p[k]} | 0 <= k < |p|
      ensures GoodEvent(After(s, p[..k], t), p[k].event)
    {
      assert p[..k] == run[..k] && p[k] == run[k];
    }
  }

  // ---- Deployment and deletion ----

  lemma {:induction false} PulledDistinct(instances: seq<Instance>, number: int)
    requires Distinct(Numbers(instances))
    ensures Distinct(Numbers(WithoutNumber(instances, number)))
  {
    if instances != [] {
      var x, rest := instances[0], WithoutNumber(instances[1..], number);
      TailDistinct(instances);
      PulledDistinct(instances[1..], number);
      if x.number != number {
        forall i | 0 <= i < |rest|
          ensures rest[i].number != x.number
        {
          assert rest[i] in instances[1..];
        }
        ConsNumbers(x, rest);
      }
    }
  }

  lemma {:induction false} TailDistinct(instances: seq<Instance>)
    requires instances != [] && Distinct(Numbers(instances))
    ensures Distinct(Numbers(instances[1..]))
    ensures forall i :: i in instances[1..] ==> i.number != instances[0].number
  {
    var n := Numbers(instances);
    assert Numbers(instances[1..]) == n[1..];
    forall i | i in instances[1..]
      ensures i.number != instances[0].number
    {
      var k :| 0 <= k < |instances| - 1 && instances[1..][k] == i;
      assert n[k + 1] == i.number && n[0] == instances[0].number;
    }
  }

  lemma {:induction false} PulledLife(instances: seq<Instance>, number: int, n: int)
    ensures LifeIn(WithoutNumber(instances, number), n) == if n == number then Absent else LifeIn(instances, n)
  {
    if instances != [] {
      var x, tail := instances[0], instances[1..];
      var rest := WithoutNumber(tail, number);
      PulledLife(tail, number, n);
      assert instances == [x] + tail;
      assert WithoutNumber(instances, number) == if x.number == number then rest else [x] + rest;
      LifeFromFront(x, tail, n);
      LifeFromFront(x, rest, n);
    }
  }

  lemma {:induction false} LifeFromFront(x: Instance, rest: seq<Instance>, n: int)
    ensures LifeIn([x] + rest, n) == if x.number == n then Life.Life(x.status, x.heard) else LifeIn(rest, n)
  {
    assert ([x] + rest)[0] == x && ([x] + rest)[1..] == rest;
  }

  lemma {:induction false} ConsNumbers(x: Instance, rest: seq<Instance>)
    requires Distinct(Numbers(rest)) && forall i :: 0 <= i < |rest| ==> rest[i].number != x.number
    ensures Distinct(Numbers([x] + rest))
  {
    var n := Numbers([x] + rest);
    assert forall i :: 1 <= i < |n| ==> n[i] == Numbers(rest)[i - 1] == rest[i - 1].number;
  }

  /** Replacing a job by one with the same id and name and distinct numbers keeps the store well formed. */
  lemma {:induction false} Reshaped(jobs: seq<Job>, k: nat, job: Job)
    requires WellFormed(jobs) && k < |jobs| && Distinct(Numbers(job.instances))
    requires job.id == jobs[k].id && job.name == jobs[k].name
    ensures WellFormed(jobs[k := job])
    ensures forall id :: IndexById(jobs[k := job], id) == IndexById(jobs, id)
    ensures forall id, n {:trigger LifeOf(jobs[k := job], id, n)} :: LifeOf(jobs[k := job], id, n) ==
              if id == job.id then LifeIn(job.instances, n) else LifeOf(jobs, id, n)
  {
    var after := jobs[k := job];
    SameIndices(after, jobs);
    WellFormedAt(jobs, k);
    assert forall i :: 0 <= i < |jobs| ==> Outlines(after)[i] == if i == k then OutlineOf(job) else Outlines(jobs)[i];
    forall id, n
      ensures LifeOf(after, id, n) == if id == job.id then LifeIn(job.instances, n) else LifeOf(jobs, id, n)
    {
      var i := IndexById(jobs, id);
      assert i < |jobs| && i != k ==> after[i] == jobs[i];
    }
  }

  lemma {:induction false} PulledJob(jobs: seq<Job>, id: string, number: int)
    requires WellFormed(jobs)
    ensures var after := PullInstance(jobs, id, number);
            && WellFormed(after)
            && (forall i :: IndexById(after, i) == IndexById(jobs, i))
            && |after| == |jobs|
            && forall id', n' :: LifeOf(after, id', n') ==
                 if id' == id && n' == number then Absent else LifeOf(jobs, id', n')
  {
    var k := IndexById(jobs, id);
    if k < |jobs| {
      WellFormedAt(jobs, k);
      PulledDistinct(jobs[k].instances, number);
      forall n'
        ensures LifeIn(WithoutNumber(jobs[k].instances, number), n') ==
                if n' == number then Absent else LifeIn(jobs[k].instances, n')
      {
        PulledLife(jobs[k].instances, number, n');
      }
      Reshaped(jobs, k, jobs[k].(instances := WithoutNumber(jobs[k].instances, number)));
    }
  }

  lemma {:induction false} ShapeWithout(o: seq<Outline>, k: nat)
    requires WellShaped(o) && k < |o|
    ensures WellShaped(o[..k] + o[k + 1..])
  {
    var p := o[..k] + o[k + 1..];
    assert forall i :: 0 <= i < |p| ==> p[i] == o[if i < k then i else i + 1];
  }

  lemma {:induction false} RemovedWellFormed(jobs: seq<Job>, id: string)
    requires WellFormed(jobs)
    ensures WellFormed(RemoveJob(jobs, id))
  {
    var after, k := RemoveJob(jobs, id), IndexById(jobs, id);
    if k < |jobs| {
      ShapeWithout(Outlines(jobs), k);
      assert Outlines(after) == Outlines(jobs)[..k] + Outlines(jobs)[k + 1..];
    }
  }

  lemma {:induction false} RemovedIndex(jobs: seq<Job>, k: nat, id: string)
    requires k < |jobs|
    ensures var i, j := IndexById(jobs, id), IndexById(jobs[..k] + jobs[k + 1..], id);
            i != k ==> if i == |jobs| then j == |jobs| - 1 else j == if i < k then i else i - 1
  {
    var after := jobs[..k] + jobs[k + 1..];
    var i, j := IndexById(jobs, id), IndexById(after, id);
    assert forall m :: 0 <= m < |after| ==> after[m] == jobs[if m < k then m else m + 1];
    assert i < k ==> after[i].id == id;
    assert k < i < |jobs| ==> after[i - 1].id == id;
  }

  lemma {:induction false} RemovedLife(jobs: seq<Job>, k: nat, id: string, n: int)
    requires WellFormed(jobs) && k < |jobs|
    ensures LifeOf(jobs[..k] + jobs[k + 1..], id, n) == if id == jobs[k].id then Absent else LifeOf(jobs, id, n)
  {
    var after := jobs[..k] + jobs[k + 1..];
    if id == jobs[k].id {
      RemovedIsGone(jobs, k);
    } else {
      RemovedIndex(jobs, k, id);
      var i := IndexById(jobs, id);
      assert i < |jobs| ==> after[if i < k then i else i - 1] == jobs[i];
    }
  }

  lemma {:induction false} RemovedIsGone(jobs: seq<Job>, k: nat)
    requires WellFormed(jobs) && k < |jobs|
    ensures IndexById(jobs[..k] + jobs[k + 1..], jobs[k].id) == |jobs| - 1
  {
    var after := jobs[..k] + jobs[k + 1..];
    forall m | 0 <= m < |after|
      ensures after[m].id != jobs[k].id
    {
      WellFormedAt(jobs, k);
      WellFormedAt(jobs, if m < k then m else m + 1);
    }
  }

  predicate Hit(instances: seq<Instance>, number: int, n': int) {
    exists i :: 0 <= i < |instances| && IsDeleted(instances[i], number) && instances[i].number == n'
  }

  lemma {:induction false} ErasedInstances(jobs: seq<Job>, job: Job, rest: seq<Instance>, number: int)
    requires WellFormed(jobs)
    ensures var r := DeleteInstances(jobs, job, rest, number, true);
            && WellFormed(r.jobs)
            && (forall i :: IndexById(r.jobs, i) == IndexById(jobs, i)) && |r.jobs| == |jobs|
            && (r.deleted <= |rest|)
            && (r.deleted == |rest| ==> forall i :: 0 <= i < |rest| ==> IsDeleted(rest[i], number))
            && forall id', n' :: LifeOf(r.jobs, id', n') ==
                 if id' == job.id && Hit(rest, number, n') then Absent else LifeOf(jobs, id', n')
    decreases rest
  {
    if rest != [] {
      var next := if IsDeleted(rest[0], number) then PullInstance(jobs, job.id, rest[0].number) else jobs;
      PulledJob(jobs, job.id, rest[0].number);
      ErasedInstances(next, job, rest[1..], number);
      forall n'
        ensures Hit(rest, number, n') <==> (IsDeleted(rest[0], number) && rest[0].number == n') || Hit(rest[1..], number, n')
      {
        if i :| 0 < i < |rest| && IsDeleted(rest[i], number) && rest[i].number == n' {
          assert IsDeleted(rest[1..][i - 1], number);
        }
      }
    }
  }

  lemma {:induction false} HitIffNamed(instances: seq<Instance>, number: int, n: int)
    requires !LifeIn(instances, n).Absent?
    ensures Hit(instances, number, n) <==> n == number || number == -1
  {
    assert instances[IndexOfInstance(instances, n)].number == n;
  }

  lemma {:induction false} DeleteKeepsShape(jobs: seq<Job>, id: string, number: int)
    requires WellFormed(jobs)
    ensures WellFormed(DeleteJobInstance(jobs, id, number, true).0)
  {
    var k := IndexById(jobs, id);
    if k < |jobs| {
      ErasedInstances(jobs, jobs[k], jobs[k].instances, number);
      RemovedWellFormed(DeleteInstances(jobs, jobs[k], jobs[k].instances, number, true).jobs, id);
    }
  }

  lemma {:induction false} LifeAfterErase(jobs: seq<Job>, k: nat, number: int, id': string, n': int)
    requires WellFormed(jobs) && k < |jobs|
    ensures var r := DeleteInstances(jobs, jobs[k], jobs[k].instances, number, true);
            && LifeOf(r.jobs, id', n') == (if id' == jobs[k].id && (n' == number || number == -1) then Absent else LifeOf(jobs, id', n'))
            && (|jobs[k].instances| <= r.deleted && !LifeIn(jobs[k].instances, n').Absent? ==> n' == number || number == -1)
  {
    var instances := jobs[k].instances;
    WellFormedAt(jobs, k);
    ErasedInstances(jobs, jobs[k], instances, number);
    if !LifeIn(instances, n').Absent? {
      HitIffNamed(instances, number, n');
      assert instances[IndexOfInstance(instances, n')].number == n';
    }
  }

  /** A deletion removes exactly the instances it names, all of them for -1, and the job with its last instance. */
  lemma {:induction false} LifeAfterDelete(jobs: seq<Job>, id: string, number: int, id': string, n': int)
    requires WellFormed(jobs)
    ensures LifeOf(DeleteJobInstance(jobs, id, number, true).0, id', n') ==
            if id' == id && (n' == number || number == -1) then Absent else LifeOf(jobs, id', n')
  {
    var k := IndexById(jobs, id);
    if k < |jobs| {
      var r := DeleteInstances(jobs, jobs[k], jobs[k].instances, number, true);
      LifeAfterErase(jobs, k, number, id', n');
      ErasedInstances(jobs, jobs[k], jobs[k].instances, number);
      if |jobs[k].instances| <= r.deleted {
        RemovedLife(r.jobs, k, id', n');
        assert r.jobs[k].id == id;
      }
    }
  }

  /** Without erasing, a deletion only tells the workers. */
  lemma {:induction false} NotErased(jobs: seq<Job>, job: Job, rest: seq<Instance>, number: int)
    ensures DeleteInstances(jobs, job, rest, number, false).jobs == jobs
    decreases rest
  {
    if rest != [] {
      NotErased(jobs, job, rest[1..], number);
    }
  }

  lemma {:induction false} OneInstance(i: Instance)
    ensures Distinct(Numbers([i])) && Appended([i]) == [i.(appended := true)]
    ensures forall n :: LifeIn([i], n) == if n == i.number then Life.Life(i.status, i.heard) else Absent
  {
    forall n
      ensures LifeIn([i], n) == if n == i.number then Life.Life(i.status, i.heard) else Absent
    {
      var m := IndexOfInstance([i], n);
    }
  }

  /** Appending keeps the numbers of a job distinct exactly if the appended number is new. */
  lemma {:induction false} AppendDistinct(instances: seq<Instance>, i: Instance)
    requires Distinct(Numbers(instances))
    ensures Distinct(Numbers(instances + [i])) <==> LifeIn(instances, i.number).Absent?
    ensures LifeIn(instances, i.number).Absent? ==>
              forall n :: LifeIn(instances + [i], n) == if n == i.number then Life.Life(i.status, i.heard) else LifeIn(instances, n)
  {
    var longer := Numbers(instances + [i]);
    assert longer == Numbers(instances) + [i.number];
    var m := IndexOfInstance(instances, i.number);
    if m < |instances| {
      assert longer[m] == longer[|instances|];
    }
    forall n
      ensures IndexOfInstance(instances, n) < |instances| ==> IndexOfInstance(instances + [i], n) == IndexOfInstance(instances, n)
      ensures IndexOfInstance(instances, n) == |instances| && n != i.number ==> IndexOfInstance(instances + [i], n) == |instances| + 1
      ensures IndexOfInstance(instances, n) == |instances| && n == i.number ==> IndexOfInstance(instances + [i], n) == |instances|
    {
      var a, b := IndexOfInstance(instances, n), IndexOfInstance(instances + [i], n);
      assert a < |instances| ==> (instances + [i])[a].number == n;
      assert b < |instances| ==> instances[b].number == n;
      assert (instances + [i])[|instances|] == i;
    }
  }

  /** The request is about a job that the store has. */
  predicate IsStored(jobs: seq<Job>, r: Request) {
    r.id.Some? && IndexById(jobs, r.id.value) < |jobs|
  }

  /**
   A deploy request that the root sends is turned down exactly if its job is stored and has the instance already, and
   then changes nothing. Otherwise the one job it names in its answer has the instance afterwards, as the request describes
   it, besides the instances it had if the job was stored under its id, and alone if it was not; no other job changes.
   */
  lemma {:induction false} LifeAfterDeploy(jobs: seq<Job>, number: int, r: Request, newId: string)
    requires WellFormed(jobs) && GoodRequest(jobs, number, r, newId)
    ensures var (after, id) := CreateNewJobInstance(jobs, number, r, newId);
            && WellFormed(after)
            && (id.None? <==> IsStored(jobs, r) && !LifeOf(jobs, r.id.value, number).Absent?)
            && (id.None? ==> after == jobs)
            && forall id', n' :: LifeOf(after, id', n') ==
                 if id != Some(id') then LifeOf(jobs, id', n')
                 else if n' == number then Life.Life(r.instances[0].status, r.instances[0].heard)
                 else if IsStored(jobs, r) then LifeOf(jobs, id', n') else Absent
  {
    if IsStored(jobs, r) {
      LifeAfterAppend(jobs, number, r);
    } else {
      LifeAfterCreate(jobs, number, r, newId);
    }
  }

  /**
   The job's own status after a deploy request: a job that is stored under the request's id keeps it, and so does one of the same
   name unless the request brings a status; a new job has that of the request.
   */
  lemma {:induction false} StatusAfterDeploy(jobs: seq<Job>, number: int, r: Request, newId: string, k: nat)
    requires k < |CreateNewJobInstance(jobs, number, r, newId).0|
    ensures var after := CreateNewJobInstance(jobs, number, r, newId).0;
            |jobs| <= |after| <= |jobs| + 1 && after[k].status ==
              if k == |jobs| then r.status
              else if !IsStored(jobs, r) && k == IndexByName(jobs, r.name) && r.status.Some? then r.status
              else jobs[k].status
    ensures var (after, id) := CreateNewJobInstance(jobs, number, r, newId);
            k == |jobs| ==> after[k].name == r.name && id == Some(after[k].id) && after[k].id == if r.id.Some? then r.id.value else newId
  {
  }

  lemma {:induction false} LifeAfterAppend(jobs: seq<Job>, number: int, r: Request)
    requires WellFormed(jobs) && GoodRequest(jobs, number, r, "") && IsStored(jobs, r)
    ensures var (after, id) := AppendInstance(jobs, IndexById(jobs, r.id.value), number, r);
            && WellFormed(after)
            && id == (if LifeOf(jobs, r.id.value, number).Absent? then Some(r.id.value) else None)
            && (id.None? ==> after == jobs)
            && forall id', n' :: LifeOf(after, id', n') ==
                 if id == Some(id') && n' == number then Life.Life(r.instances[0].status, r.instances[0].heard)
                 else LifeOf(jobs, id', n')
  {
    var k, i := IndexById(jobs, r.id.value), r.instances[0].(appended := true);
    if LifeIn(jobs[k].instances, number).Absent? {
      WellFormedAt(jobs, k);
      AppendDistinct(jobs[k].instances, i);
      Reshaped(jobs, k, jobs[k].(instances := jobs[k].instances + [i]));
    }
  }

  lemma {:induction false} LifeAfterCreate(jobs: seq<Job>, number: int, r: Request, newId: string)
    requires WellFormed(jobs) && GoodRequest(jobs, number, r, newId) && !IsStored(jobs, r)
    ensures var (after, id) := CreateJob(jobs, r, newId);
            && WellFormed(after) && id.Some?
            && forall id', n' :: LifeOf(after, id', n') ==
                 if id' != id.value then LifeOf(jobs, id', n')
                 else if n' == number then Life.Life(r.instances[0].status, r.instances[0].heard) else Absent
  {
    var k, i := IndexByName(jobs, r.name), r.instances[0].(appended := true);
    assert r.instances == [r.instances[0]];
    OneInstance(r.instances[0]);
    OneInstance(i);
    assert Appended(r.instances) == [i];
    if k < |jobs| {
      var status := if r.status.Some? then r.status else jobs[k].status;
      Reshaped(jobs, k, jobs[k].(status := status, instances := [i]));
    } else {
      InsertedJob(jobs, Job(if r.id.Some? then r.id.value else newId, r.name, r.status, [i]));
    }
  }

  /** What keeps a deploy request, whatever it looks like, from spoiling the store. */
  predicate KeepsDistinct(jobs: seq<Job>, number: int, r: Request, newId: string) {
    if IsStored(jobs, r) then
      || !LifeOf(jobs, r.id.value, number).Absent?
      || r.instances == []
      || LifeOf(jobs, r.id.value, r.instances[|r.instances| - 1].number).Absent?
    else
      && (forall i, j :: 0 <= i < j < |r.instances| ==> r.instances[i].number != r.instances[j].number)
      && (IndexByName(jobs, r.name) < |jobs| || r.id.Some? || IndexById(jobs, newId) == |jobs|)
  }

  /**
   For any request at all: ids, names and numbers stay distinct exactly if the number appended, not the number asked for,
   is new to the stored job, or the document that is put in place has distinct numbers and a free id.
   */
  lemma {:induction false} DeployKeepsShapeIff(jobs: seq<Job>, number: int, r: Request, newId: string)
    requires WellFormed(jobs)
    ensures WellFormed(CreateNewJobInstance(jobs, number, r, newId).0) <==> KeepsDistinct(jobs, number, r, newId)
  {
    if IsStored(jobs, r) {
      var k := IndexById(jobs, r.id.value);
      if LifeIn(jobs[k].instances, number).Absent? && r.instances != [] {
        WellFormedAt(jobs, k);
        AppendDistinct(jobs[k].instances, r.instances[|r.instances| - 1].(appended := true));
        ReshapedIff(jobs, k, jobs[k].(instances := jobs[k].instances + [r.instances[|r.instances| - 1].(appended := true)]));
      }
    } else {
      SameNumbers(r.instances);
      var k := IndexByName(jobs, r.name);
      if k < |jobs| {
        var status := if r.status.Some? then r.status else jobs[k].status;
        ReshapedIff(jobs, k, jobs[k].(status := status, instances := Appended(r.instances)));
      } else {
        InsertedIff(jobs, Job(if r.id.Some? then r.id.value else newId, r.name, r.status, Appended(r.instances)));
      }
    }
  }

  lemma {:induction false} SameNumbers(instances: seq<Instance>)
    ensures Distinct(Numbers(Appended(instances))) <==>
            forall i, j :: 0 <= i < j < |instances| ==> instances[i].number != instances[j].number
  {
    assert forall i :: 0 <= i < |instances| ==> Numbers(Appended(instances))[i] == instances[i].number;
  }

  lemma {:induction false} ReshapedIff(jobs: seq<Job>, k: nat, job: Job)
    requires WellFormed(jobs) && k < |jobs| && job.id == jobs[k].id && job.name == jobs[k].name
    ensures WellFormed(jobs[k := job]) <==> Distinct(Numbers(job.instances))
  {
    if Distinct(Numbers(job.instances)) {
      Reshaped(jobs, k, job);
    } else {
      assert Outlines(jobs[k := job])[k].numbers == Numbers(job.instances);
    }
  }

  lemma {:induction false} InsertedIff(jobs: seq<Job>, job: Job)
    requires WellFormed(jobs) && IndexByName(jobs, job.name) == |jobs|
    ensures WellFormed(jobs + [job]) <==> Distinct(Numbers(job.instances)) && IndexById(jobs, job.id) == |jobs|
  {
    var k, o := IndexById(jobs, job.id), Outlines(jobs + [job]);
    assert o[|jobs|] == OutlineOf(job);
    if k < |jobs| {
      assert o[k].id == o[|jobs|].id;
    } else if Distinct(Numbers(job.instances)) {
      InsertedJob(jobs, job);
    }
  }

  /** The request asks for instance 1 and its document describes instance 0 again: the job then has instance 0 twice. */
  lemma {:induction false} MismatchedNumber() returns (jobs: seq<Job>, r: Request)
    ensures WellFormed(jobs) && |jobs| == 1 && r.id == Some(jobs[0].id) && LifeOf(jobs, jobs[0].id, 1).Absent?
    ensures forall newId :: !WellFormed(CreateNewJobInstance(jobs, 1, r, newId).0)
  {
    var i := Instance(0, Some(CLUSTER_SCHEDULED), Missing, None, false);
    OneInstance(i);
    jobs, r := [Job("j", "j", None, [i])], Request(Some("j"), "j", None, [i]);
    assert Outlines(jobs)[0].numbers == Numbers([i]);
    assert IndexById(jobs, "j") == 0;
    forall newId
      ensures !WellFormed(CreateNewJobInstance(jobs, 1, r, newId).0)
    {
      DeployKeepsShapeIff(jobs, 1, r, newId);
    }
  }

  lemma {:induction false} InsertedJob(jobs: seq<Job>, job: Job)
    requires WellFormed(jobs) && Distinct(Numbers(job.instances))
    requires IndexById(jobs, job.id) == |jobs| && IndexByName(jobs, job.name) == |jobs|
    ensures WellFormed(jobs + [job])
    ensures forall id, n :: LifeOf(jobs + [job], id, n) == if id == job.id then LifeIn(job.instances, n) else LifeOf(jobs, id, n)
  {
    var after := jobs + [job];
    assert forall i :: 0 <= i < |after| ==> Outlines(after)[i] == if i < |jobs| then Outlines(jobs)[i] else OutlineOf(job);
    forall id
      ensures IndexById(jobs, id) < |jobs| ==> IndexById(after, id) == IndexById(jobs, id)
      ensures IndexById(jobs, id) == |jobs| && id != job.id ==> IndexById(after, id) == |after|
      ensures id == job.id ==> IndexById(after, id) == |jobs|
    {
      var a, b := IndexById(jobs, id), IndexById(after, id);
      assert a < |jobs| ==> after[a].id == id;
      assert b < |jobs| ==> jobs[b].id == id;
      assert after[|jobs|] == job;
    }
  }

  // ---- Redeployment ----

  /** The instances that the inner loop redeploys, in their order: up to the first status that raises. */
  function ToRedeploy(instances: seq<Instance>): seq<int> {
    if instances == [] || !StatusKnown(instances[0]) then []
    else (if TriggersRedeploy(instances[0]) then [instances[0].number] else []) + ToRedeploy(instances[1..])
  }

  predicate AllKnown(instances: seq<Instance>) {
    forall i :: 0 <= i < |instances| ==> StatusKnown(instances[i])
  }

  /** The instances of job `id` that the routine redeploys. */
  function ListFor(jobs: seq<Job>, id: string): seq<int> {
    if jobs == [] then []
    else if jobs[0].id == id then ToRedeploy(jobs[0].instances)
    else if AllKnown(jobs[0].instances) then ListFor(jobs[1..], id)
    else []
  }

  /** One call after the other with the one document they share. */
  function RedeployEach(jobs: seq<Job>, doc: DocId, numbers: seq<int>): Redeployed
    decreases numbers
  {
    if numbers == [] then Redeployed(jobs, [], doc)
    else
      var r := UndeployAndRedeploy(jobs, doc, numbers[0]);
      var later := RedeployEach(r.jobs, r.doc, numbers[1..]);
      later.(outbox := r.outbox + later.outbox)
  }

  lemma {:induction false} LoopIsEach(jobs: seq<Job>, doc: DocId, rest: seq<Instance>)
    ensures RedeployInstances(jobs, doc, rest) == (RedeployEach(jobs, doc, ToRedeploy(rest)), AllKnown(rest))
    decreases rest
  {
    if rest != [] && StatusKnown(rest[0]) {
      KnownFront(rest[0], rest[1..]);
      assert rest == [rest[0]] + rest[1..];
      if TriggersRedeploy(rest[0]) {
        var r := UndeployAndRedeploy(jobs, doc, rest[0].number);
        LoopIsEach(r.jobs, r.doc, rest[1..]);
        assert ToRedeploy(rest)[0] == rest[0].number && ToRedeploy(rest)[1..] == ToRedeploy(rest[1..]);
      } else {
        assert ToRedeploy(rest) == ToRedeploy(rest[1..]);
        LoopIsEach(jobs, doc, rest[1..]);
      }
    }
  }

  lemma {:induction false} KnownFront(x: Instance, rest: seq<Instance>)
    ensures AllKnown([x] + rest) <==> StatusKnown(x) && AllKnown(rest)
  {
    var all := [x] + rest;
    assert all[0] == x && forall j :: 0 <= j < |rest| ==> rest[j] == all[j + 1];
    assert forall j :: 0 < j < |all| ==> all[j] == rest[j - 1];
  }

  /** An instance whose entry was overwritten by the job's document. */
  function Overwritten(l: Life): Life {
    if l.Absent? then l else Life.Life(Some(REQUESTED), Null)
  }

  /** What the outbox holds of requests for a node, whatever lies between. */
  function Requests(sent: seq<Command>): seq<Command> {
    if sent == [] then [] else (if sent[0].Schedule? then [sent[0]] else []) + Requests(sent[1..])
  }

  lemma {:induction false} RequestsConcat(a: seq<Command>, b: seq<Command>)
    ensures Requests(a + b) == Requests(a) + Requests(b)
  {
    if a == [] {
      assert a + b == b;
    } else {
      RequestsConcat(a[1..], b);
      assert (a + b)[0] == a[0] && (a + b)[1..] == a[1..] + b;
      var first := if a[0].Schedule? then [a[0]] else [];
      assert first + (Requests(a[1..]) + Requests(b)) == (first + Requests(a[1..])) + Requests(b);
    }
  }

  lemma {:induction false} UndeploysThenRequest(jobs: seq<Job>, job: Job, rest: seq<Instance>, number: int, c: Command)
    requires c.Schedule?
    ensures Requests(DeleteInstances(jobs, job, rest, number, false).outbox + [c]) == [c]
  {
    var sent := DeleteInstances(jobs, job, rest, number, false).outbox;
    NoRequests(jobs, job, rest, number);
    RequestsConcat(sent, [c]);
    assert Requests([c]) == [c] + Requests([c][1..]);
  }

  lemma {:induction false} NoRequests(jobs: seq<Job>, job: Job, rest: seq<Instance>, number: int)
    ensures Requests(DeleteInstances(jobs, job, rest, number, false).outbox) == []
    decreases rest
  {
    if rest != [] {
      NoRequests(jobs, job, rest[1..], number);
      var sent := if rest[0].worker.Some? then [Undeploy(rest[0].worker.value, job.name, rest[0].number)] else [];
      RequestsConcat(sent, DeleteInstances(jobs, job, rest[1..], number, false).outbox);
      assert sent != [] ==> sent[1..] == [];
    }
  }

  lemma {:induction false} LifeAfterFirst(jobs: seq<Job>, id: string, number: int)
    requires IndexById(jobs, id) < |jobs|
    ensures var r := UndeployAndRedeploy(jobs, DocId(id, []), number);
            && Outlines(r.jobs) == Outlines(jobs) && r.doc == DocId(id, [number])
            && (forall id', n' :: LifeOf(r.jobs, id', n') ==
                  if id' == id && n' == number then WithLifeStatus(LifeOf(jobs, id, number), REQUESTED) else LifeOf(jobs, id', n'))
            && Requests(r.outbox) == [Schedule(r.doc)]
  {
    var k := IndexById(jobs, id);
    NotErased(jobs, jobs[k], jobs[k].instances, number);
    LifeAfterUpdateStatus(jobs, id, number, REQUESTED);
    UndeploysThenRequest(jobs, jobs[k], jobs[k].instances, number, Schedule(DocId(id, [number])));
    assert Extended(DocId(id, []), number) == DocId(id, [number]);
  }

  lemma {:induction false} FoundIffPresent(instances: seq<Instance>, number: int)
    ensures WithNumber(instances, number) == [] <==> LifeIn(instances, number).Absent?
  {
    if instances != [] {
      FoundIffPresent(instances[1..], number);
    }
  }

  lemma {:induction false} LifeAfterOverwrite(jobs: seq<Job>, id: string, number: int)
    ensures var after := Overwrite(jobs, id, number, REQUESTED);
            && Outlines(after) == Outlines(jobs)
            && forall id', n' :: LifeOf(after, id', n') ==
                 if id' == id && n' == number then Overwritten(LifeOf(jobs, id, number)) else LifeOf(jobs, id', n')
  {
    var k := IndexById(jobs, id);
    if k < |jobs| && IndexOfInstance(jobs[k].instances, number) < |jobs[k].instances| {
      var m := IndexOfInstance(jobs[k].instances, number);
      var i := jobs[k].instances[m].(status := Some(REQUESTED), heard := Null, worker := None);
      var job := jobs[k].(instances := jobs[k].instances[m := i]);
      assert Numbers(job.instances) == Numbers(jobs[k].instances);
      ReplaceJob(jobs, k, job);
      forall n'
        ensures IndexOfInstance(job.instances, n') == IndexOfInstance(jobs[k].instances, n')
      {
        SameInstanceIndex(job.instances, jobs[k].instances, n');
      }
    }
  }

  lemma {:induction false} LifeAfterSecond(jobs: seq<Job>, id: string, first: int, number: int)
    requires !LifeOf(jobs, id, first).Absent?
    ensures var r := UndeployAndRedeploy(jobs, DocId(id, [first]), number);
            && Outlines(r.jobs) == Outlines(jobs) && r.doc == DocId(id, [first, number])
            && (forall id', n' :: LifeOf(r.jobs, id', n') ==
                  if id' == id && n' == first then Overwritten(LifeOf(jobs, id, first)) else LifeOf(jobs, id', n'))
            && Requests(r.outbox) == [Schedule(r.doc)]
  {
    var k := IndexById(jobs, id);
    var found := WithNumber(jobs[k].instances, first);
    FoundIffPresent(jobs[k].instances, first);
    LifeAfterOverwrite(jobs, id, first);
    UndeploysThenRequest(jobs, jobs[k], found, number, Schedule(DocId(id, [first, number])));
    assert Extended(DocId(id, [first]), number) == DocId(id, [first, number]);
  }

  lemma {:induction false} ThirdDoesNothing(jobs: seq<Job>, doc: DocId, numbers: seq<int>)
    requires |doc.numbers| > 1
    ensures RedeployEach(jobs, doc, numbers) == Redeployed(jobs, [], doc)
    decreases numbers
  {
    if numbers != [] {
      ThirdDoesNothing(jobs, doc, numbers[1..]);
    }
  }

  /** The requests for a node that come of redeploying these instances of a job: two at most, both answered for the first. */
  function RequestsFor(id: string, numbers: seq<int>): seq<Command> {
    if numbers == [] then []
    else if |numbers| == 1 then [Schedule(DocId(id, [numbers[0]]))]
    else [Schedule(DocId(id, [numbers[0]])), Schedule(DocId(id, [numbers[0], numbers[1]]))]
  }

  /** Redeploying the instances of one job: only the first is requested, and loses its time if there is a second. */
  function RedeployedLife(l: Life, n: int, numbers: seq<int>): Life {
    if numbers == [] || n != numbers[0] then l
    else if |numbers| == 1 then WithLifeStatus(l, REQUESTED)
    else Overwritten(l)
  }

  lemma {:induction false} EachByLength(jobs: seq<Job>, id: string, numbers: seq<int>)
    requires numbers != [] ==> !LifeOf(jobs, id, numbers[0]).Absent?
    ensures var r := RedeployEach(jobs, DocId(id, []), numbers);
            && Outlines(r.jobs) == Outlines(jobs) && Requests(r.outbox) == RequestsFor(id, numbers)
            && forall id', n' :: LifeOf(r.jobs, id', n') ==
                 if id' == id then RedeployedLife(LifeOf(jobs, id', n'), n', numbers) else LifeOf(jobs, id', n')
  {
    if numbers != [] {
      var r := UndeployAndRedeploy(jobs, DocId(id, []), numbers[0]);
      LifeAfterFirst(jobs, id, numbers[0]);
      if |numbers| == 1 {
        assert numbers[1..] == [];
        assert r.outbox + [] == r.outbox;
      } else {
        SecondByLength(r.jobs, id, numbers[0], numbers[1..]);
        RequestsConcat(r.outbox, RedeployEach(r.jobs, r.doc, numbers[1..]).outbox);
      }
    }
  }

  lemma {:induction false} SecondByLength(jobs: seq<Job>, id: string, first: int, numbers: seq<int>)
    requires !LifeOf(jobs, id, first).Absent? && numbers != []
    ensures var r := RedeployEach(jobs, DocId(id, [first]), numbers);
            && Outlines(r.jobs) == Outlines(jobs) && Requests(r.outbox) == [Schedule(DocId(id, [first, numbers[0]]))]
            && forall id', n' :: LifeOf(r.jobs, id', n') ==
                 if id' == id && n' == first then Overwritten(LifeOf(jobs, id, first)) else LifeOf(jobs, id', n')
  {
    var r := UndeployAndRedeploy(jobs, DocId(id, [first]), numbers[0]);
    LifeAfterSecond(jobs, id, first, numbers[0]);
    ThirdDoesNothing(r.jobs, r.doc, numbers[1..]);
    assert r.outbox + [] == r.outbox;
  }

  lemma {:induction false} ListedIsThere(instances: seq<Instance>, n: int)
    requires n in ToRedeploy(instances)
    ensures !LifeIn(instances, n).Absent?
  {
    if n in ToRedeploy(instances[1..]) {
      ListedIsThere(instances[1..], n);
    }
  }

  /** The jobs are in the store with the numbers they have. */
  ghost predicate InStore(jobs: seq<Job>, rest: seq<Job>) {
    && forall k :: 0 <= k < |rest| ==> IsIn(jobs, rest[k])
  }

  predicate IsIn(jobs: seq<Job>, job: Job) {
    IndexById(jobs, job.id) < |jobs| && Numbers(jobs[IndexById(jobs, job.id)].instances) == Numbers(job.instances)
  }

  ghost predicate DistinctIds(jobs: seq<Job>) {
    forall i, j :: 0 <= i < j < |jobs| ==> jobs[i].id != jobs[j].id
  }

  /** One job through the loop. */
  lemma {:induction false} OneJobRedeployed(jobs: seq<Job>, x: Job)
    requires IsIn(jobs, x)
    ensures var (r, completed) := RedeployInstances(jobs, DocId(x.id, []), x.instances);
            && completed == AllKnown(x.instances)
            && Outlines(r.jobs) == Outlines(jobs) && Requests(r.outbox) == RequestsFor(x.id, ToRedeploy(x.instances))
            && forall id, n :: LifeOf(r.jobs, id, n) ==
                 if id == x.id then RedeployedLife(LifeOf(jobs, id, n), n, ToRedeploy(x.instances)) else LifeOf(jobs, id, n)
  {
    var numbers := ToRedeploy(x.instances);
    LoopIsEach(jobs, DocId(x.id, []), x.instances);
    if numbers != [] {
      ListedIsThere(x.instances, numbers[0]);
      SameInstanceIndex(jobs[IndexById(jobs, x.id)].instances, x.instances, numbers[0]);
      assert |jobs[IndexById(jobs, x.id)].instances| == |Numbers(x.instances)| == |x.instances|;
    }
    EachByLength(jobs, x.id, numbers);
  }

  lemma {:induction false} StillInStore(jobs: seq<Job>, next: seq<Job>, rest: seq<Job>)
    requires Outlines(next) == Outlines(jobs) && InStore(jobs, rest)
    ensures InStore(next, rest)
  {
    OutlinesKeepIndices(next, jobs);
    forall k | 0 <= k < |rest|
      ensures IsIn(next, rest[k])
    {
      assert IsIn(jobs, rest[k]);
      assert Outlines(next)[IndexById(jobs, rest[k].id)] == Outlines(jobs)[IndexById(jobs, rest[k].id)];
    }
  }

  lemma {:induction false} LifeAfterRedeployJobs(jobs: seq<Job>, rest: seq<Job>, id: string, n: int)
    requires InStore(jobs, rest) && DistinctIds(rest)
    ensures var after := RedeployJobs(jobs, rest).0;
            && Outlines(after) == Outlines(jobs)
            && LifeOf(after, id, n) == RedeployedLife(LifeOf(jobs, id, n), n, ListFor(rest, id))
    decreases rest
  {
    if rest != [] {
      var x, later := rest[0], rest[1..];
      var next := RedeployInstances(jobs, DocId(x.id, []), x.instances).0.jobs;
      assert IsIn(jobs, x);
      OneJobRedeployed(jobs, x);
      assert forall k :: 0 <= k < |later| ==> later[k] == rest[k + 1];
      StillInStore(jobs, next, later);
      if AllKnown(x.instances) {
        LifeAfterRedeployJobs(next, later, id, n);
        if x.id == id {
          NotListed(later, id);
        }
      }
    }
  }

  lemma {:induction false} NotListed(jobs: seq<Job>, id: string)
    requires forall k :: 0 <= k < |jobs| ==> jobs[k].id != id
    ensures ListFor(jobs, id) == []
  {
    if jobs != [] {
      NotListed(jobs[1..], id);
    }
  }

  lemma {:induction false} WellFormedInStore(jobs: seq<Job>)
    requires WellFormed(jobs)
    ensures InStore(jobs, jobs) && DistinctIds(jobs)
  {
    forall k | 0 <= k < |jobs|
      ensures IndexById(jobs, jobs[k].id) == k
    {
      WellFormedAt(jobs, k);
    }
  }

  predicate LifeTriggers(l: Life) {
    l.Life? && (l.status == Some(FAILED) || l.status == Some(DEAD) || l.status == Some(NO_WORKER_CAPACITY))
  }

  /**
   The redeployment routine: of the failed, dead and unplaced instances of a job that it reaches, it requests the first
   again, and none of the others; if there are others, the first also loses its time. It changes nothing else.
   */
  lemma {:induction false} LifeAfterRedeploy(jobs: seq<Job>, id: string, n: int)
    requires WellFormed(jobs)
    ensures Outlines(RedeployJobs(jobs, jobs).0) == Outlines(jobs)
    ensures LifeOf(RedeployJobs(jobs, jobs).0, id, n) == RedeployedLife(LifeOf(jobs, id, n), n, ListFor(jobs, id))
    ensures !LifeTriggers(LifeOf(jobs, id, n)) ==> n !in ListFor(jobs, id)
  {
    WellFormedInStore(jobs);
    LifeAfterRedeployJobs(jobs, jobs, id, n);
    ListedIffTriggers(jobs, id, n);
  }

  /** The loops come to the instance: no status before it raises. */
  predicate RoutineReaches(jobs: seq<Job>, id: string, n: int) {
    var k := IndexById(jobs, id);
    && (forall l :: 0 <= l < k ==> AllKnown(jobs[l].instances))
    && (k < |jobs| ==> KnownBefore(jobs[k].instances, IndexOfInstance(jobs[k].instances, n)))
  }

  predicate KnownBefore(instances: seq<Instance>, m: int) {
    forall i :: 0 <= i < m && i < |instances| ==> StatusKnown(instances[i])
  }

  /** The routine's list of a job: the instances that are failed, dead or unplaced and that it reaches, each once. */
  lemma {:induction false} ListedIffTriggers(jobs: seq<Job>, id: string, n: int)
    requires WellFormed(jobs)
    ensures n in ListFor(jobs, id) <==> LifeTriggers(LifeOf(jobs, id, n)) && RoutineReaches(jobs, id, n)
    ensures Distinct(ListFor(jobs, id))
  {
    var k := IndexById(jobs, id);
    ListAt(jobs, id);
    if k < |jobs| {
      WellFormedAt(jobs, k);
      ToRedeployIff(jobs[k].instances, n);
      ToRedeployDistinct(jobs[k].instances);
    }
  }

  /** The routine gets no further than the first status that the cluster does not know. */
  lemma {:induction false} UnknownStopsTheRoutine(jobs: seq<Job>, k: nat, i: nat, l: nat, n: int)
    requires WellFormed(jobs) && k < |jobs| && i < |jobs[k].instances|
    requires jobs[k].instances[i].status.Some? && jobs[k].instances[i].status.value.Unrecognised?
    requires k <= l < |jobs| && (l == k ==> i <= IndexOfInstance(jobs[k].instances, n))
    ensures n !in ListFor(jobs, jobs[l].id)
    ensures LifeOf(RedeployJobs(jobs, jobs).0, jobs[l].id, n) == LifeOf(jobs, jobs[l].id, n)
  {
    WellFormedAt(jobs, l);
    ListedIffTriggers(jobs, jobs[l].id, n);
    LifeAfterRedeploy(jobs, jobs[l].id, n);
    if RoutineReaches(jobs, jobs[l].id, n) {
      assert l == k;
      assert IndexOfInstance(jobs[k].instances, n) == i;
    }
  }

  lemma {:induction false} ListAt(jobs: seq<Job>, id: string)
    ensures var k := IndexById(jobs, id);
            ListFor(jobs, id) ==
              if k < |jobs| && forall l :: 0 <= l < k ==> AllKnown(jobs[l].instances) then ToRedeploy(jobs[k].instances) else []
  {
    if jobs != [] && jobs[0].id != id {
      var k, later := IndexById(jobs, id), jobs[1..];
      ListAt(later, id);
      assert forall l :: 0 <= l < |later| ==> later[l] == jobs[l + 1];
      assert forall l :: 0 < l < |jobs| ==> jobs[l] == later[l - 1];
    }
  }

  lemma {:induction false} KnownBeforeFromFront(x: Instance, rest: seq<Instance>, m: nat)
    ensures KnownBefore([x] + rest, m) <==> m == 0 || (StatusKnown(x) && KnownBefore(rest, m - 1))
  {
    var all := [x] + rest;
    assert all[0] == x && forall i :: 0 <= i < |rest| ==> rest[i] == all[i + 1];
    assert forall i :: 0 < i < |all| ==> all[i] == rest[i - 1];
  }

  lemma {:induction false} IndexFromFront(x: Instance, rest: seq<Instance>, n: int)
    ensures IndexOfInstance([x] + rest, n) == if x.number == n then 0 else 1 + IndexOfInstance(rest, n)
  {
    assert ([x] + rest)[0] == x && ([x] + rest)[1..] == rest;
  }

  lemma {:induction false} NotListedTwice(x: Instance, rest: seq<Instance>)
    requires Distinct(Numbers([x] + rest))
    ensures x.number !in ToRedeploy(rest) && Distinct(Numbers(rest))
  {
    TailDistinct([x] + rest);
    assert ([x] + rest)[1..] == rest && ([x] + rest)[0] == x;
    if x.number in ToRedeploy(rest) {
      ListedIsIn(rest, x.number);
    }
  }

  lemma {:induction false} ListedIsIn(instances: seq<Instance>, n: int)
    requires n in ToRedeploy(instances)
    ensures exists i :: i in instances && i.number == n
  {
    ListedIsThere(instances, n);
    assert instances[IndexOfInstance(instances, n)] in instances;
  }

  lemma {:induction false} ToRedeployIff(instances: seq<Instance>, n: int)
    requires Distinct(Numbers(instances))
    ensures n in ToRedeploy(instances) <==> LifeTriggers(LifeIn(instances, n)) && KnownBefore(instances, IndexOfInstance(instances, n))
  {
    if instances != [] {
      var x, rest := instances[0], instances[1..];
      assert instances == [x] + rest;
      NotListedTwice(x, rest);
      ToRedeployIff(rest, n);
      LifeFromFront(x, rest, n);
      IndexFromFront(x, rest, n);
      KnownBeforeFromFront(x, rest, IndexOfInstance(instances, n));
    }
  }

  lemma {:induction false} ToRedeployDistinct(instances: seq<Instance>)
    requires Distinct(Numbers(instances))
    ensures Distinct(ToRedeploy(instances))
  {
    if instances != [] && StatusKnown(instances[0]) {
      var x, rest := instances[0], instances[1..];
      TailDistinct(instances);
      ToRedeployDistinct(rest);
      forall i | 0 <= i < |ToRedeploy(rest)|
        ensures ToRedeploy(rest)[i] != x.number
      {
        ListedIsThere(rest, ToRedeploy(rest)[i]);
        assert rest[IndexOfInstance(rest, ToRedeploy(rest)[i])] in rest;
      }
    }
  }

  // ---- Which requests for a node come of it ----

  /** The commands ask for a node for instance `n` of job `id`: that is where an answer to one of them will go. */
  ghost predicate Asks(sent: seq<Command>, id: string, n: int) {
    exists i :: 0 <= i < |sent| && sent[i].Schedule? && sent[i].doc.job == id && sent[i].doc.numbers != [] && sent[i].doc.numbers[0] == n
  }

  lemma {:induction false} AsksByRequests(sent: seq<Command>, id: string, n: int)
    ensures Asks(sent, id, n) <==> Asks(Requests(sent), id, n)
  {
    if sent != [] {
      AsksByRequests(sent[1..], id, n);
      AsksFront(sent[0], sent[1..], id, n);
      assert sent == [sent[0]] + sent[1..];
      if sent[0].Schedule? {
        AsksFront(sent[0], Requests(sent[1..]), id, n);
      } else {
        assert Requests(sent) == Requests(sent[1..]);
      }
    }
  }

  lemma {:induction false} AsksFront(c: Command, rest: seq<Command>, id: string, n: int)
    ensures Asks([c] + rest, id, n) <==>
            (c.Schedule? && c.doc.job == id && c.doc.numbers != [] && c.doc.numbers[0] == n) || Asks(rest, id, n)
  {
    var all := [c] + rest;
    assert all[0] == c && forall i :: 0 <= i < |rest| ==> rest[i] == all[i + 1];
    assert forall i :: 0 < i < |all| ==> all[i] == rest[i - 1];
  }

  lemma {:induction false} AsksConcat(a: seq<Command>, b: seq<Command>, id: string, n: int)
    ensures Asks(a + b, id, n) <==> Asks(a, id, n) || Asks(b, id, n)
  {
    if a == [] {
      assert a + b == b;
    } else {
      AsksConcat(a[1..], b, id, n);
      assert a + b == [a[0]] + (a[1..] + b) && a == [a[0]] + a[1..];
      AsksFront(a[0], a[1..] + b, id, n);
      AsksFront(a[0], a[1..], id, n);
    }
  }

  lemma {:induction false} AsksForFirst(jobs: seq<Job>, rest: seq<Job>, id: string, n: int)
    requires InStore(jobs, rest) && DistinctIds(rest)
    ensures Asks(RedeployJobs(jobs, rest).1, id, n) <==> ListFor(rest, id) != [] && n == ListFor(rest, id)[0]
    decreases rest
  {
    if rest != [] {
      var x, later := rest[0], rest[1..];
      var r := RedeployInstances(jobs, DocId(x.id, []), x.instances).0;
      assert IsIn(jobs, x);
      OneJobRedeployed(jobs, x);
      AsksByRequests(r.outbox, id, n);
      AsksOfList(x.id, ToRedeploy(x.instances), id, n);
      if AllKnown(x.instances) {
        assert forall k :: 0 <= k < |later| ==> later[k] == rest[k + 1];
        StillInStore(jobs, r.jobs, later);
        AsksForFirst(r.jobs, later, id, n);
        AsksConcat(r.outbox, RedeployJobs(r.jobs, later).1, id, n);
        if x.id == id {
          NotListed(later, id);
        }
      }
    }
  }

  lemma {:induction false} AsksOfList(job: string, numbers: seq<int>, id: string, n: int)
    ensures Asks(RequestsFor(job, numbers), id, n) <==> job == id && numbers != [] && n == numbers[0]
  {
    if job == id && numbers != [] && n == numbers[0] {
      assert RequestsFor(job, numbers)[0].doc.numbers[0] == n;
    }
  }

  /**
   Every instance that the routine means to redeploy is asked a node for exactly if no job has two of them: of several, only
   the first is, twice over.
   */
  lemma {:induction false} EachIsAskedForIff(jobs: seq<Job>)
    requires WellFormed(jobs)
    ensures (forall id, n :: n in ListFor(jobs, id) ==> Asks(RedeployJobs(jobs, jobs).1, id, n))
            <==> forall id :: |ListFor(jobs, id)| <= 1
  {
    WellFormedInStore(jobs);
    forall id, n
      ensures Asks(RedeployJobs(jobs, jobs).1, id, n) <==> ListFor(jobs, id) != [] && n == ListFor(jobs, id)[0]
      ensures Distinct(ListFor(jobs, id))
    {
      AsksForFirst(jobs, jobs, id, n);
      ListedIffTriggers(jobs, id, n);
    }
    if id :| |ListFor(jobs, id)| > 1 {
      var second := ListFor(jobs, id)[1];
      assert second in ListFor(jobs, id) && !Asks(RedeployJobs(jobs, jobs).1, id, second);
    }
  }

  /** A job whose two instances have failed, after the first call of the routine, and after the second. */
  function TwoFailed(calls: nat): Job {
    var second := Instance(1, Some(FAILED), At(0.0), Some("w"), false);
    if calls == 0 then Job("j", "j", None, [Instance(0, Some(FAILED), At(0.0), Some("w"), false), second])
    else if calls == 1 then Job("j", "j", Some(REQUESTED), [Instance(0, Some(REQUESTED), At(0.0), Some("w"), false), second])
    else Job("j", "j", Some(REQUESTED), [Instance(0, Some(REQUESTED), Null, None, false), second])
  }

  const CALLS_SENT: seq<Command> := [Undeploy("w", "j", 0), Schedule(DocId("j", [0])), Schedule(DocId("j", [0, 1]))]

  lemma {:induction false} FirstCall(other: Job)
    ensures UndeployAndRedeploy([TwoFailed(0), other], DocId("j", []), 0) ==
            Redeployed([TwoFailed(1), other], CALLS_SENT[..2], DocId("j", [0]))
  {
    var jobs, job := [TwoFailed(0), other], TwoFailed(0);
    assert IndexById(jobs, "j") == 0;
    NotErased(jobs, job, job.instances, 0);
    var rest := job.instances[1..];
    assert rest == [job.instances[1]] && rest[1..] == [];
    assert DeleteInstances(jobs, job, rest, 0, false).outbox == [];
    assert DeleteInstances(jobs, job, job.instances, 0, false).outbox == [Undeploy("w", "j", 0)];
    assert JobAfterStatus(job, 0, REQUESTED).instances == TwoFailed(1).instances;
    assert jobs[0 := TwoFailed(1)] == [TwoFailed(1), other];
    assert [Undeploy("w", "j", 0)] + [Schedule(DocId("j", [0]))] == CALLS_SENT[..2];
  }

  lemma {:induction false} SecondCall(other: Job)
    ensures UndeployAndRedeploy([TwoFailed(1), other], DocId("j", [0]), 1) ==
            Redeployed([TwoFailed(2), other], CALLS_SENT[2..], DocId("j", [0, 1]))
  {
    var jobs, job := [TwoFailed(1), other], TwoFailed(1);
    assert IndexById(jobs, "j") == 0 && IndexOfInstance(job.instances, 0) == 0;
    var rest := job.instances[1..];
    assert rest == [job.instances[1]] && rest[1..] == [];
    assert WithNumber(rest, 0) == [];
    var found := WithNumber(job.instances, 0);
    assert found == [job.instances[0]] && found[1..] == [];
    assert DeleteInstances(jobs, job, found, 1, false).outbox == [];
    assert job.instances[0 := TwoFailed(2).instances[0]] == TwoFailed(2).instances;
    assert jobs[0 := TwoFailed(2)] == [TwoFailed(2), other];
    assert Extended(DocId("j", [0]), 1) == DocId("j", [0, 1]);
  }

  lemma {:induction false} BothListed()
    ensures ToRedeploy(TwoFailed(0).instances) == [0, 1] && AllKnown(TwoFailed(0).instances)
  {
    var rest := TwoFailed(0).instances[1..];
    assert rest == [TwoFailed(0).instances[1]] && rest[1..] == [];
    assert ToRedeploy(rest) == [1] + ToRedeploy(rest[1..]);
  }

  lemma {:induction false} BothCalls(other: Job)
    ensures RedeployEach([TwoFailed(0), other], DocId("j", []), [0, 1]) ==
            Redeployed([TwoFailed(2), other], CALLS_SENT, DocId("j", [0, 1]))
  {
    FirstCall(other);
    SecondCall(other);
    LastCall([TwoFailed(1), other], DocId("j", [0]), 1);
    assert [0, 1][1..] == [1];
    assert CALLS_SENT[..2] + CALLS_SENT[2..] == CALLS_SENT;
  }

  lemma {:induction false} LastCall(jobs: seq<Job>, doc: DocId, number: int)
    ensures RedeployEach(jobs, doc, [number]) == UndeployAndRedeploy(jobs, doc, number)
  {
    var r := UndeployAndRedeploy(jobs, doc, number);
    assert [number][1..] == [];
    assert r.outbox + [] == r.outbox;
  }

  lemma {:induction false} NothingToRedeploy(jobs: seq<Job>, other: Job)
    requires AllKnown(other.instances) && ToRedeploy(other.instances) == []
    ensures RedeployJobs(jobs, [other]) == (jobs, [])
  {
    LoopIsEach(jobs, DocId(other.id, []), other.instances);
    var r := RedeployInstances(jobs, DocId(other.id, []), other.instances).0;
    assert r.outbox == [] && [other][1..] == [];
    assert RedeployJobs(r.jobs, [other][1..]) == (r.jobs, []);
    assert r.outbox + [] == [];
  }

  lemma {:induction false} FirstJobThen(jobs: seq<Job>, x: Job, other: Job)
    ensures RedeployJobs(jobs, [x, other]) ==
            var (r, completed) := RedeployInstances(jobs, DocId(x.id, []), x.instances);
            if !completed then (r.jobs, r.outbox)
            else var later := RedeployJobs(r.jobs, [other]); (later.0, r.outbox + later.1)
  {
    assert [x, other][0] == x && [x, other][1..] == [other];
  }

  lemma {:induction false} BothOfTheJob(other: Job)
    ensures RedeployInstances([TwoFailed(0), other], DocId(TwoFailed(0).id, []), TwoFailed(0).instances) ==
            (Redeployed([TwoFailed(2), other], CALLS_SENT, DocId("j", [0, 1])), true)
  {
    BothListed();
    LoopIsEach([TwoFailed(0), other], DocId("j", []), TwoFailed(0).instances);
    BothCalls(other);
  }

  /** What the routine makes of the job: both requests will be answered for instance 0; instance 1 is left as it is. */
  lemma {:induction false} TwoFailedInstances(other: Job)
    requires AllKnown(other.instances) && ToRedeploy(other.instances) == []
    ensures RedeployJobs([TwoFailed(0), other], [TwoFailed(0), other]) == ([TwoFailed(2), other], CALLS_SENT)
  {
    BothOfTheJob(other);
    FirstJobThen([TwoFailed(0), other], TwoFailed(0), other);
    NothingToRedeploy([TwoFailed(2), other], other);
    assert CALLS_SENT + [] == CALLS_SENT;
  }

  /** From then on a tick that takes all jobs raises at instance 0 and marks nothing, however late it comes for another job. */
  lemma {:induction false} TwoFailedStopTheTimer(other: Job, t: Timeouts, now: Time)
    requires WellFormed([TwoFailed(2), other])
    ensures var jobs := [TwoFailed(2), other];
            MarkJobs(jobs, FetchedJobs(jobs, false, t, now), t, now).0 == jobs
  {
    var jobs := [TwoFailed(2), other];
    TickIsPointwise(jobs, false, t, now);
    assert !Readable(TwoFailed(2).instances[0]);
    assert MarkedInstances(TwoFailed(2).instances, t, now) == TwoFailed(2).instances;
    assert MarkedJob(TwoFailed(2), t, now) == TwoFailed(2);
    assert jobs == [TwoFailed(2)] + jobs[1..];
  }

  // ---- Numbers ----

  lemma {:induction false} ResultKeepsShape(jobs: seq<Job>, id: string, number: int, node: string, now: Time)
    ensures var after := UpdateStatus(UpdateInstance(jobs, id, number, Patch(None, Some(node)), now).0, id, number, NODE_SCHEDULED);
            && Outlines(after) == Outlines(jobs)
            && forall id', n :: LifeOf(after, id', n).Absent? <==> LifeOf(jobs, id', n).Absent?
  {
    var next := UpdateInstance(jobs, id, number, Patch(None, Some(node)), now).0;
    LifeAfterUpdateInstance(jobs, id, number, Patch(None, Some(node)), now);
    LifeAfterUpdateStatus(next, id, number, NODE_SCHEDULED);
    SamePresence(UpdateStatus(next, id, number, NODE_SCHEDULED), jobs);
  }

  /** The store stays well formed and has no instance that it did not have before, other than `added`. */
  ghost predicate NothingNew(jobs: seq<Job>, after: seq<Job>, added: Option<(string, int)>) {
    && WellFormed(after)
    && forall id, n :: !LifeOf(after, id, n).Absent? ==> !LifeOf(jobs, id, n).Absent? || added == Some((id, n))
  }

  /** The job and the number of the instance that a deploy request brings in. */
  function Added(jobs: seq<Job>, e: Event): Option<(string, int)> {
    if !e.DeployRequest? then None
    else
      var id := CreateNewJobInstance(jobs, e.number, e.request, e.newId).1;
      if id.None? then None else Some((id.value, e.number))
  }

  lemma {:induction false} SameOutlinesNothingNew(jobs: seq<Job>, after: seq<Job>)
    requires WellFormed(jobs) && Outlines(after) == Outlines(jobs)
    ensures NothingNew(jobs, after, None)
  {
    SamePresence(after, jobs);
  }

  /** Every handler keeps ids, names and the numbers of each job distinct, and only a deploy request brings in an instance, its own. */
  lemma {:induction false} HandlerKeepsShape(s: State, e: Event, t: Timeouts, now: Time)
    requires WellFormed(s.jobs) && GoodEvent(s, e)
    ensures NothingNew(s.jobs, Handle(s, e, t, now).jobs, Added(s.jobs, e))
  {
    if e.DeployRequest? {
      LifeAfterDeploy(s.jobs, e.number, e.request, e.newId);
    } else if e.DeleteRequest? {
      DeleteKeepsShape(s.jobs, e.id, e.number);
      forall id, n
        ensures !LifeOf(Handle(s, e, t, now).jobs, id, n).Absent? ==> !LifeOf(s.jobs, id, n).Absent?
      {
        LifeAfterDelete(s.jobs, e.id, e.number, id, n);
      }
    } else {
      HandlerKeepsOutlines(s, e, t, now);
      SameOutlinesNothingNew(s.jobs, Handle(s, e, t, now).jobs);
    }
  }

  lemma {:induction false} HandlerKeepsOutlines(s: State, e: Event, t: Timeouts, now: Time)
    requires WellFormed(s.jobs) && !e.DeployRequest? && !e.DeleteRequest?
    ensures Outlines(Handle(s, e, t, now).jobs) == Outlines(s.jobs)
  {
    if e.SchedulingResult? {
      if e.doc.numbers != [] {
        ResultKeepsShape(s.jobs, e.doc.job, e.doc.numbers[0], e.node, now);
      }
    } else if e.WorkerStatus? {
      LifeAfterReport(s.jobs, e.service, now);
    } else if e.ResourceReport? {
      LifeAfterReports(s.jobs, e.worker, e.services, now, "", 0);
    } else if e.Tick? {
      TickIsPointwise(s.jobs, e.queried, t, now);
    } else {
      LifeAfterRedeploy(s.jobs, "", 0);
    }
  }

  lemma {:induction false} SamePresence(a: seq<Job>, b: seq<Job>)
    requires Outlines(a) == Outlines(b)
    ensures forall id, n :: LifeOf(a, id, n).Absent? <==> LifeOf(b, id, n).Absent?
  {
    OutlinesKeepIndices(a, b);
    forall id, n
      ensures LifeOf(a, id, n).Absent? <==> LifeOf(b, id, n).Absent?
    {
      var k := IndexById(a, id);
      if k < |a| {
        assert Outlines(a)[k] == Outlines(b)[k];
        SameInstanceIndex(a[k].instances, b[k].instances, n);
        assert |a[k].instances| == |Numbers(a[k].instances)| == |b[k].instances|;
      }
    }
  }

  lemma {:induction false} RunsKeepShape(s: State, run: seq<Timed>, t: Timeouts)
    requires WellFormed(s.jobs) && GoodRun(s, run, t)
    ensures WellFormed(After(s, run, t).jobs)
  {
    if run != [] {
      GoodPrefix(s, run, t);
      RunsKeepShape(s, run[..|run| - 1], t);
      HandlerKeepsShape(After(s, run[..|run| - 1], t), run[|run| - 1].event, t, run[|run| - 1].at);
    }
  }

  /** An instance that is not in the store, say because it was deleted, is there again only after a deploy request that brought it in. */
  lemma {:induction false} DeletedStaysDeleted(s: State, run: seq<Timed>, t: Timeouts, id: string, n: int)
    requires WellFormed(s.jobs) && GoodRun(s, run, t)
    requires LifeOf(s.jobs, id, n).Absent? && !LifeOf(After(s, run, t).jobs, id, n).Absent?
    ensures exists k :: 0 <= k < |run| && BringsIn(s, run, k, t, id, n)
  {
    var p := run[..|run| - 1];
    GoodPrefix(s, run, t);
    RunsKeepShape(s, p, t);
    HandlerKeepsShape(After(s, p, t), run[|run| - 1].event, t, run[|run| - 1].at);
    if !LifeOf(After(s, p, t).jobs, id, n).Absent? {
      DeletedStaysDeleted(s, p, t, id, n);
      var k :| 0 <= k < |p| && BringsIn(s, p, k, t, id, n);
      assert run[..k] == p[..k] && run[k] == p[k];
      assert BringsIn(s, run, k, t, id, n);
    } else {
      assert BringsIn(s, run, |run| - 1, t, id, n);
    }
  }

  /** Event `k` of the run is a deploy request for number `n` whose instance goes to job `id`. */
  ghost predicate BringsIn(s: State, run: seq<Timed>, k: nat, t: Timeouts, id: string, n: int)
    requires k < |run|
  {
    var e := run[k].event;
    && e.DeployRequest? && e.number == n
    && CreateNewJobInstance(After(s, run[..k], t).jobs, n, e.request, e.newId).1 == Some(id)
  }
}
