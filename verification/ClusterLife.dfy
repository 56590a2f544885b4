/**
 How each store operation changes the shape of the job documents and the life of a single instance.
 */
module ClusterLife {
  import opened Wrappers
  import opened ClusterJobs

  // ---- Shape ----

  function Numbers(instances: seq<Instance>): (r: seq<int>)
    ensures |r| == |instances| && forall i :: 0 <= i < |r| ==> r[i] == instances[i].number
  {
    seq(|instances|, i requires 0 <= i < |instances| => instances[i].number)
  }

  datatype Outline = Outline(id: string, name: string, numbers: seq<int>)

  function OutlineOf(job: Job): Outline {
    Outline(job.id, job.name, Numbers(job.instances))
  }

  function Outlines(jobs: seq<Job>): (r: seq<Outline>)
    ensures |r| == |jobs| && forall k :: 0 <= k < |r| ==> r[k] == OutlineOf(jobs[k])
  {
    seq(|jobs|, k requires 0 <= k < |jobs| => OutlineOf(jobs[k]))
  }

  ghost predicate Distinct<T(!new)>(s: seq<T>) {
    forall i, j :: 0 <= i < j < |s| ==> s[i] != s[j]
  }

  ghost predicate DistinctKeys(o: seq<Outline>) {
    forall i, j :: 0 <= i < j < |o| ==> o[i].id != o[j].id && o[i].name != o[j].name
  }

  /** No two jobs share an id or a name, and no two instances of a job share a number. */
  ghost predicate WellShaped(o: seq<Outline>) {
    DistinctKeys(o) && forall k :: 0 <= k < |o| ==> Distinct(o[k].numbers)
  }

  ghost predicate WellFormed(jobs: seq<Job>) {
    WellShaped(Outlines(jobs))
  }

  lemma {:induction false} FirstInstance(instances: seq<Instance>, m: nat)
    requires Distinct(Numbers(instances)) && m < |instances|
    ensures IndexOfInstance(instances, instances[m].number) == m
  {
    var l := IndexOfInstance(instances, instances[m].number);
    assert Numbers(instances)[l] == Numbers(instances)[m];
  }

  lemma {:induction false} WellFormedAt(jobs: seq<Job>, k: nat)
    requires WellFormed(jobs) && k < |jobs|
    ensures IndexById(jobs, jobs[k].id) == k && IndexByName(jobs, jobs[k].name) == k
    ensures Distinct(Numbers(jobs[k].instances))
  {
    var o := Outlines(jobs);
    assert o[IndexById(jobs, jobs[k].id)].id == o[k].id;
    assert o[IndexByName(jobs, jobs[k].name)].name == o[k].name;
    assert o[k].numbers == Numbers(jobs[k].instances);
  }

  /** Replacing a job by one of the same outline moves nothing. */
  lemma {:induction false} ReplaceJob(jobs: seq<Job>, k: nat, job: Job)
    requires k < |jobs| && OutlineOf(job) == OutlineOf(jobs[k])
    ensures Outlines(jobs[k := job]) == Outlines(jobs)
    ensures forall id :: IndexById(jobs[k := job], id) == IndexById(jobs, id)
    ensures forall name :: IndexByName(jobs[k := job], name) == IndexByName(jobs, name)
  {
    SameIndices(jobs[k := job], jobs);
  }

  lemma {:induction false} SameIndices(a: seq<Job>, b: seq<Job>)
    requires |a| == |b| && forall i :: 0 <= i < |a| ==> a[i].id == b[i].id && a[i].name == b[i].name
    ensures forall id :: IndexById(a, id) == IndexById(b, id)
    ensures forall name :: IndexByName(a, name) == IndexByName(b, name)
  {
    if a != [] {
      SameIndices(a[1..], b[1..]);
      assert forall id :: IndexById(a, id) == if a[0].id == id then 0 else 1 + IndexById(a[1..], id);
      assert forall name :: IndexByName(a, name) == if a[0].name == name then 0 else 1 + IndexByName(a[1..], name);
    }
  }

  lemma {:induction false} SameInstanceIndex(a: seq<Instance>, b: seq<Instance>, number: int)
    requires Numbers(a) == Numbers(b)
    ensures IndexOfInstance(a, number) == IndexOfInstance(b, number)
  {
    assert |a| == |Numbers(a)| == |b|;
    assert forall i :: 0 <= i < |a| ==> a[i].number == Numbers(a)[i] && b[i].number == Numbers(b)[i];
  }

  lemma {:induction false} OutlinesKeepIndices(a: seq<Job>, b: seq<Job>)
    requires Outlines(a) == Outlines(b)
    ensures |a| == |b|
    ensures forall id :: IndexById(a, id) == IndexById(b, id)
    ensures forall name :: IndexByName(a, name) == IndexByName(b, name)
  {
    forall i | 0 <= i < |a|
      ensures a[i].id == b[i].id && a[i].name == b[i].name
    {
      assert Outlines(a)[i] == Outlines(b)[i];
    }
    assert |a| == |Outlines(a)| == |b|;
    SameIndices(a, b);
  }

  // ---- One instance ----

  /** What the store knows of instance `number` of job `id`: its status and when it was last heard of. */
  datatype Life = Absent | Life(status: Option<Status>, heard: Stamp)

  function LifeIn(instances: seq<Instance>, number: int): Life {
    var m := IndexOfInstance(instances, number);
    if m == |instances| then Absent else Life.Life(instances[m].status, instances[m].heard)
  }

  function LifeOf(jobs: seq<Job>, id: string, number: int): Life {
    var k := IndexById(jobs, id);
    if k == |jobs| then Absent else LifeIn(jobs[k].instances, number)
  }

  function WithLifeStatus(l: Life, s: Status): Life {
    if l.Absent? then l else l.(status := Some(s))
  }

  function Heard(l: Life, now: Time): Life {
    if l.Absent? then l else l.(heard := At(now))
  }

  lemma {:induction false} LifeInAfterStatus(job: Job, number: int, s: Status, n': int)
    ensures var after := JobAfterStatus(job, number, s).instances;
            && Numbers(after) == Numbers(job.instances)
            && LifeIn(after, n') ==
               if n' == number then WithLifeStatus(LifeIn(job.instances, number), s) else LifeIn(job.instances, n')
  {
    var after := JobAfterStatus(job, number, s).instances;
    assert Numbers(after) == Numbers(job.instances);
    SameInstanceIndex(after, job.instances, n');
  }

  lemma {:induction false} LifeAfterUpdateStatus(jobs: seq<Job>, id: string, number: int, s: Status)
    ensures var after := UpdateStatus(jobs, id, number, s);
            && Outlines(after) == Outlines(jobs)
            && forall id', n' :: LifeOf(after, id', n') ==
                 if id' == id && n' == number && s != CREATED then WithLifeStatus(LifeOf(jobs, id, number), s)
                 else LifeOf(jobs, id', n')
  {
    var k := IndexById(jobs, id);
    if s != CREATED && k < |jobs| {
      LifeInAfterStatus(jobs[k], number, s, number);
      ReplaceJob(jobs, k, JobAfterStatus(jobs[k], number, s));
      forall id', n'
        ensures LifeOf(UpdateStatus(jobs, id, number, s), id', n') ==
                if id' == id && n' == number then WithLifeStatus(LifeOf(jobs, id, number), s) else LifeOf(jobs, id', n')
      {
        LifeInAfterStatus(jobs[k], number, s, n');
      }
    }
  }

  lemma {:induction false} LifeAfterUpdateInstance(jobs: seq<Job>, id: string, number: int, p: Patch, now: Time)
    ensures var (after, known) := UpdateInstance(jobs, id, number, p, now);
            && Outlines(after) == Outlines(jobs)
            && (known <==> !LifeOf(jobs, id, number).Absent?)
            && forall id', n' :: LifeOf(after, id', n') ==
                 if id' == id && n' == number then
                   var l := LifeOf(jobs, id, number);
                   Heard(if p.status.Some? then WithLifeStatus(l, p.status.value) else l, now)
                 else LifeOf(jobs, id', n')
  {
    var k := IndexById(jobs, id);
    if k < |jobs| && IndexOfInstance(jobs[k].instances, number) < |jobs[k].instances| {
      var m := IndexOfInstance(jobs[k].instances, number);
      var job := jobs[k].(instances := jobs[k].instances[m := Patched(jobs[k].instances[m], p, now)]);
      assert Numbers(job.instances) == Numbers(jobs[k].instances);
      ReplaceJob(jobs, k, job);
      forall n'
        ensures IndexOfInstance(job.instances, n') == IndexOfInstance(jobs[k].instances, n')
      {
        SameInstanceIndex(job.instances, jobs[k].instances, n');
      }
    }
  }

  // ---- Reports ----

  function ReportedLife(l: Life, s: Status, now: Time): Life {
    Heard(if s == CREATED then l else WithLifeStatus(l, s), now)
  }

  /** Whether a report is about instance `number` of job `id`. */
  predicate IsAbout(jobs: seq<Job>, s: Service, id: string, number: int) {
    var k := IndexByName(jobs, s.jobName);
    k < |jobs| && jobs[k].id == id && s.number == number
  }

  /**
   A report about a known instance takes its status and its time, unless the status is CREATED, and changes no other
   instance; one about an unknown instance changes no instance and is answered with false.
   */
  lemma {:induction false} LifeAfterReport(jobs: seq<Job>, s: Service, now: Time)
    ensures var (after, known) := ReportService(jobs, s, now);
            && Outlines(after) == Outlines(jobs)
            && (known <==> exists id :: IsAbout(jobs, s, id, s.number) && !LifeOf(jobs, id, s.number).Absent?)
            && forall id', n' :: LifeOf(after, id', n') ==
                 if IsAbout(jobs, s, id', n') then ReportedLife(LifeOf(jobs, id', n'), s.status, now) else LifeOf(jobs, id', n')
  {
    var k := IndexByName(jobs, s.jobName);
    if k < |jobs| {
      var id := jobs[k].id;
      LifeAfterUpdateStatus(jobs, id, s.number, s.status);
      LifeAfterUpdateInstance(UpdateStatus(jobs, id, s.number, s.status), id, s.number, Patch(None, None), now);
      assert IsAbout(jobs, s, id, s.number);
    }
  }

  /** What a whole report makes of one instance. */
  function LifeThroughReports(jobs: seq<Job>, l: Life, id: string, number: int, services: seq<Service>, now: Time): Life
    decreases services
  {
    if services == [] then
      l
    else
      LifeThroughReports(jobs, if IsAbout(jobs, services[0], id, number) then ReportedLife(l, services[0].status, now) else l,
                         id, number, services[1..], now)
  }

  lemma {:induction false} LifeAfterReports(jobs: seq<Job>, worker: string, services: seq<Service>, now: Time, id: string, number: int)
    ensures var after := ReportServices(jobs, worker, services, now).0;
            && Outlines(after) == Outlines(jobs)
            && LifeOf(after, id, number) == LifeThroughReports(jobs, LifeOf(jobs, id, number), id, number, services, now)
    decreases services
  {
    if services != [] {
      var next := ReportService(jobs, services[0], now).0;
      LifeAfterReport(jobs, services[0], now);
      LifeAfterReports(next, worker, services[1..], now, id, number);
      SameAudience(next, jobs, LifeOf(next, id, number), id, number, services[1..], now);
    }
  }

  lemma {:induction false} SameAudience(a: seq<Job>, b: seq<Job>, l: Life, id: string, number: int, services: seq<Service>, now: Time)
    requires Outlines(a) == Outlines(b)
    ensures LifeThroughReports(a, l, id, number, services, now) == LifeThroughReports(b, l, id, number, services, now)
    decreases services
  {
    if services != [] {
      OutlinesKeepIndices(a, b);
      var k := IndexByName(a, services[0].jobName);
      if k < |a| {
        assert Outlines(a)[k] == Outlines(b)[k];
      }
      var l' := if IsAbout(a, services[0], id, number) then ReportedLife(l, services[0].status, now) else l;
      SameAudience(a, b, l', id, number, services[1..], now);
    }
  }

  /** The service reports about something the store does not have. */
  predicate IsStray(jobs: seq<Job>, s: Service) {
    var k := IndexByName(jobs, s.jobName);
    k == |jobs| || LifeIn(jobs[k].instances, s.number).Absent?
  }

  function UndeploysFor(jobs: seq<Job>, worker: string, services: seq<Service>): seq<Command> {
    if services == [] then
      []
    else
      (if IsStray(jobs, services[0]) then [Undeploy(worker, services[0].jobName, services[0].number)] else [])
      + UndeploysFor(jobs, worker, services[1..])
  }

  /** The reporting worker is told to undeploy exactly the services it reports that the store does not have. */
  lemma {:induction false} StraysAreUndeployed(jobs: seq<Job>, worker: string, services: seq<Service>, now: Time)
    requires WellFormed(jobs)
    ensures ReportServices(jobs, worker, services, now).1 == UndeploysFor(jobs, worker, services)
    ensures Outlines(ReportServices(jobs, worker, services, now).0) == Outlines(jobs)
    decreases services
  {
    if services != [] {
      var s := services[0];
      var (next, known) := ReportService(jobs, s, now);
      LifeAfterReport(jobs, s, now);
      var k := IndexByName(jobs, s.jobName);
      if k < |jobs| {
        WellFormedAt(jobs, k);
        assert LifeOf(jobs, jobs[k].id, s.number) == LifeIn(jobs[k].instances, s.number);
        assert known ==> !IsStray(jobs, s);
        assert !IsStray(jobs, s) ==> IsAbout(jobs, s, jobs[k].id, s.number) && known;
      }
      StraysAreUndeployed(next, worker, services[1..], now);
      SameStrays(next, jobs, worker, services[1..]);
    }
  }

  lemma {:induction false} SameStrays(a: seq<Job>, b: seq<Job>, worker: string, services: seq<Service>)
    requires Outlines(a) == Outlines(b)
    ensures UndeploysFor(a, worker, services) == UndeploysFor(b, worker, services)
    decreases services
  {
    if services != [] {
      OutlinesKeepIndices(a, b);
      var k := IndexByName(a, services[0].jobName);
      if k < |a| {
        assert Outlines(a)[k] == Outlines(b)[k];
        SameInstanceIndex(a[k].instances, b[k].instances, services[0].number);
        assert |a[k].instances| == |Numbers(a[k].instances)| == |b[k].instances|;
      }
      SameStrays(a, b, worker, services[1..]);
    }
  }

  /**
   A report about an unknown instance of a known job leaves all its instances as they are, but the job's own status
   follows it: it becomes the reported one unless that is CREATED, or RUNNING while some instance is not.
   */
  lemma {:induction false} StrayReport(jobs: seq<Job>, s: Service, now: Time)
    requires WellFormed(jobs) && IsStray(jobs, s)
    ensures var (after, known) := ReportService(jobs, s, now);
            && !known && |after| == |jobs|
            && forall k :: 0 <= k < |jobs| ==>
                 && Settled(after[k].instances) == Settled(jobs[k].instances)
                 && after[k].status ==
                    if jobs[k].name == s.jobName && s.status != CREATED
                       && (s.status == RUNNING ==> AllRunning(jobs[k].instances)) then Some(s.status)
                    else jobs[k].status
  {
    var k := IndexByName(jobs, s.jobName);
    if k < |jobs| {
      WellFormedAt(jobs, k);
      var same := SetStatus(jobs[k].instances, s.number, s.status);
      assert same == jobs[k].instances;
      var after := UpdateStatus(jobs, jobs[k].id, s.number, s.status);
      LifeAfterUpdateStatus(jobs, jobs[k].id, s.number, s.status);
      LifeAfterUpdateInstance(after, jobs[k].id, s.number, Patch(None, None), now);
      assert LifeOf(jobs, jobs[k].id, s.number).Absent?;
      assert ReportService(jobs, s, now).0 == after;
      forall i | 0 <= i < |jobs| && i != k
        ensures jobs[i].name != s.jobName
      {
        WellFormedAt(jobs, i);
      }
    }
  }
}
