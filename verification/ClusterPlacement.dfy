/**
 Where instances run and what the job documents themselves say: which worker each instance was placed on, to whom a deletion
 therefore speaks, and the job's own status.
 */
module ClusterPlacement {
  import opened Wrappers
  import opened ClusterJobs
  import opened ClusterLife
  import opened ClusterMarking
  import opened ClusterRuns

  // ---- Where instances run ----

  datatype Place = Place(number: int, worker: Option<string>)

  function Places(instances: seq<Instance>): (r: seq<Place>)
    ensures |r| == |instances| && forall i :: 0 <= i < |r| ==> r[i] == Place(instances[i].number, instances[i].worker)
  {
    seq(|instances|, i requires 0 <= i < |instances| => Place(instances[i].number, instances[i].worker))
  }

  datatype Layout = Layout(id: string, name: string, places: seq<Place>)

  function Layouts(jobs: seq<Job>): (r: seq<Layout>)
    ensures |r| == |jobs| && forall k :: 0 <= k < |r| ==> r[k] == Layout(jobs[k].id, jobs[k].name, Places(jobs[k].instances))
  {
    seq(|jobs|, k requires 0 <= k < |jobs| => Layout(jobs[k].id, jobs[k].name, Places(jobs[k].instances)))
  }

  lemma {:induction false} SameLayouts(a: seq<Job>, b: seq<Job>)
    requires Layouts(a) == Layouts(b)
    ensures |a| == |b| && Outlines(a) == Outlines(b)
    ensures forall k :: 0 <= k < |a| ==> a[k].id == b[k].id && a[k].name == b[k].name && Places(a[k].instances) == Places(b[k].instances)
  {
    assert |a| == |Layouts(a)| == |b|;
    forall k | 0 <= k < |a|
      ensures a[k].id == b[k].id && a[k].name == b[k].name && Places(a[k].instances) == Places(b[k].instances)
      ensures OutlineOf(a[k]) == OutlineOf(b[k])
    {
      assert Layouts(a)[k] == Layouts(b)[k];
      SamePlaces(a[k].instances, b[k].instances);
    }
  }

  lemma {:induction false} SamePlaces(a: seq<Instance>, b: seq<Instance>)
    requires Places(a) == Places(b)
    ensures |a| == |b| && Numbers(a) == Numbers(b)
    ensures forall i :: 0 <= i < |a| ==> a[i].number == b[i].number && a[i].worker == b[i].worker
  {
    assert |a| == |Places(a)| == |b|;
    forall i | 0 <= i < |a|
      ensures a[i].number == b[i].number && a[i].worker == b[i].worker
    {
      assert Places(a)[i] == Places(b)[i];
    }
  }

  lemma {:induction false} StatusKeepsLayouts(jobs: seq<Job>, id: string, number: int, s: Status)
    ensures Layouts(UpdateStatus(jobs, id, number, s)) == Layouts(jobs)
  {
    var k := IndexById(jobs, id);
    if k < |jobs| {
      assert Places(JobAfterStatus(jobs[k], number, s).instances) == Places(jobs[k].instances);
    }
  }

  lemma {:induction false} PatchKeepsLayouts(jobs: seq<Job>, id: string, number: int, p: Patch, now: Time)
    requires p.worker.None?
    ensures Layouts(UpdateInstance(jobs, id, number, p, now).0) == Layouts(jobs)
  {
    var k := IndexById(jobs, id);
    if k < |jobs| && IndexOfInstance(jobs[k].instances, number) < |jobs[k].instances| {
      var m := IndexOfInstance(jobs[k].instances, number);
      assert Places(jobs[k].instances[m := Patched(jobs[k].instances[m], p, now)]) == Places(jobs[k].instances);
    }
  }

  lemma {:induction false} ReportKeepsLayouts(jobs: seq<Job>, s: Service, now: Time)
    ensures Layouts(ReportService(jobs, s, now).0) == Layouts(jobs)
  {
    var k := IndexByName(jobs, s.jobName);
    if k < |jobs| {
      StatusKeepsLayouts(jobs, jobs[k].id, s.number, s.status);
      PatchKeepsLayouts(UpdateStatus(jobs, jobs[k].id, s.number, s.status), jobs[k].id, s.number, Patch(None, None), now);
    }
  }

  lemma {:induction false} ReportsKeepLayouts(jobs: seq<Job>, worker: string, services: seq<Service>, now: Time)
    ensures Layouts(ReportServices(jobs, worker, services, now).0) == Layouts(jobs)
    decreases services
  {
    if services != [] {
      ReportKeepsLayouts(jobs, services[0], now);
      ReportsKeepLayouts(ReportService(jobs, services[0], now).0, worker, services[1..], now);
    }
  }

  lemma {:induction false} MarkingKeepsLayouts(jobs: seq<Job>, id: string, rest: seq<Instance>, t: Timeouts, now: Time)
    ensures Layouts(MarkInstances(jobs, id, rest, t, now).jobs) == Layouts(jobs)
    decreases rest
  {
    if rest != [] && Readable(rest[0]) {
      if Stale(rest[0], t, now) {
        PatchKeepsLayouts(jobs, id, rest[0].number, MARK, now);
        MarkingKeepsLayouts(UpdateInstance(jobs, id, rest[0].number, MARK, now).0, id, rest[1..], t, now);
      } else {
        MarkingKeepsLayouts(jobs, id, rest[1..], t, now);
      }
    }
  }

  lemma {:induction false} FailingKeepsLayouts(jobs: seq<Job>, id: string)
    ensures Layouts(FailJob(jobs, id)) == Layouts(jobs)
  {
    var k := IndexById(jobs, id);
    if k < |jobs| {
      assert Places(WithStatus(jobs[k], FAILED).instances) == Places(jobs[k].instances);
    }
  }

  lemma {:induction false} TickKeepsLayouts(jobs: seq<Job>, rest: seq<Job>, t: Timeouts, now: Time)
    ensures Layouts(MarkJobs(jobs, rest, t, now).0) == Layouts(jobs)
    decreases rest
  {
    if rest != [] {
      var r := MarkInstances(jobs, rest[0].id, rest[0].instances, t, now);
      MarkingKeepsLayouts(jobs, rest[0].id, rest[0].instances, t, now);
      if r.completed {
        FailingKeepsLayouts(r.jobs, rest[0].id);
        TickKeepsLayouts(if r.failed != [] then FailJob(r.jobs, rest[0].id) else r.jobs, rest[1..], t, now);
      }
    }
  }

  predicate IsReportOrTick(e: Event) {
    e.WorkerStatus? || e.ResourceReport? || e.Tick?
  }

  /** Reports and ticks, however many, move no instance and rename, add or remove none. */
  lemma {:induction false} ReportsMoveNothing(s: State, run: seq<Timed>, t: Timeouts)
    requires forall k :: 0 <= k < |run| ==> IsReportOrTick(run[k].event)
    ensures Layouts(After(s, run, t).jobs) == Layouts(s.jobs)
  {
    if run != [] {
      var p, last := run[..|run| - 1], run[|run| - 1];
      ReportsMoveNothing(s, p, t);
      var u := After(s, p, t);
      match last.event
      case WorkerStatus(service) => ReportKeepsLayouts(u.jobs, service, last.at);
      case ResourceReport(worker, services) => ReportsKeepLayouts(u.jobs, worker, services, last.at);
      case Tick(queried) => TickKeepsLayouts(u.jobs, FetchedJobs(u.jobs, queried, t, last.at), t, last.at);
    }
  }

  // ---- To whom a deletion speaks ----

  /** The command tells the worker of one of these instances, if it is named and has one, to undeploy it. */
  predicate TellsOne(job: string, instances: seq<Instance>, number: int, c: Command) {
    exists i :: 0 <= i < |instances| && (number == -1 || instances[i].number == number)
                && instances[i].worker.Some? && c == Undeploy(instances[i].worker.value, job, instances[i].number)
  }

  lemma {:induction false} TellsFromFront(job: string, x: Instance, rest: seq<Instance>, number: int, c: Command)
    ensures TellsOne(job, [x] + rest, number, c) <==>
            || ((number == -1 || x.number == number) && x.worker.Some? && c == Undeploy(x.worker.value, job, x.number))
            || TellsOne(job, rest, number, c)
  {
    var all := [x] + rest;
    assert all[0] == x && forall i :: 0 <= i < |rest| ==> rest[i] == all[i + 1];
    assert forall i :: 0 < i < |all| ==> all[i] == rest[i - 1];
  }

  lemma {:induction false} UndeploysAre(jobs: seq<Job>, job: Job, rest: seq<Instance>, number: int, erase: bool, c: Command)
    ensures c in DeleteInstances(jobs, job, rest, number, erase).outbox <==> TellsOne(job.name, rest, number, c)
    decreases rest
  {
    if rest != [] {
      var next := if IsDeleted(rest[0], number) && erase then PullInstance(jobs, job.id, rest[0].number) else jobs;
      assert rest == [rest[0]] + rest[1..];
      TellsFromFront(job.name, rest[0], rest[1..], number, c);
      UndeploysAre(next, job, rest[1..], number, erase, c);
    }
  }

  lemma {:induction false} UndeploysDistinct(jobs: seq<Job>, job: Job, rest: seq<Instance>, number: int, erase: bool)
    requires Distinct(Numbers(rest))
    ensures Distinct(DeleteInstances(jobs, job, rest, number, erase).outbox)
    decreases rest
  {
    if rest != [] {
      var next := if IsDeleted(rest[0], number) && erase then PullInstance(jobs, job.id, rest[0].number) else jobs;
      TailDistinct(rest);
      UndeploysDistinct(next, job, rest[1..], number, erase);
      forall c | c in DeleteInstances(next, job, rest[1..], number, erase).outbox
        ensures c.Undeploy? && c.number != rest[0].number
      {
        UndeploysAre(next, job, rest[1..], number, erase, c);
      }
    }
  }

  /**
   A deletion, erasing or not, tells exactly the workers of the instances that it names, each once for each of them: all
   instances for -1, and none that was never placed.
   */
  lemma {:induction false} DeletionTells(jobs: seq<Job>, k: nat, number: int, erase: bool)
    requires WellFormed(jobs) && k < |jobs|
    ensures var sent := DeleteJobInstance(jobs, jobs[k].id, number, erase).1;
            Distinct(sent) && forall c :: c in sent <==> TellsOne(jobs[k].name, jobs[k].instances, number, c)
  {
    WellFormedAt(jobs, k);
    UndeploysDistinct(jobs, jobs[k], jobs[k].instances, number, erase);
    forall c
      ensures c in DeleteJobInstance(jobs, jobs[k].id, number, erase).1 <==> TellsOne(jobs[k].name, jobs[k].instances, number, c)
    {
      UndeploysAre(jobs, jobs[k], jobs[k].instances, number, erase, c);
    }
  }

  /** An erasing deletion removes a job exactly if it names all its instances, and no other job. */
  lemma {:induction false} JobGoesWithItsInstances(jobs: seq<Job>, k: nat, number: int)
    requires WellFormed(jobs) && k < |jobs|
    ensures var after := DeleteJobInstance(jobs, jobs[k].id, number, true).0;
            var all := forall i :: 0 <= i < |jobs[k].instances| ==> number == -1 || jobs[k].instances[i].number == number;
            && |after| == |jobs| - (if all then 1 else 0)
            && after[..k] == jobs[..k]
            && after[if all then k else k + 1..] == jobs[k + 1..]
            && (!all ==> after[k].id == jobs[k].id && after[k].name == jobs[k].name && after[k].status == jobs[k].status)
  {
    WellFormedAt(jobs, k);
    var r := DeleteInstances(jobs, jobs[k], jobs[k].instances, number, true);
    DeletedCount(jobs, jobs[k], jobs[k].instances, number);
    OnlyThatJob(jobs, k, jobs[k].instances, number);
  }

  lemma {:induction false} DeletedCount(jobs: seq<Job>, job: Job, rest: seq<Instance>, number: int)
    ensures var n := DeleteInstances(jobs, job, rest, number, true).deleted;
            n <= |rest| && (n == |rest| <==> forall i :: 0 <= i < |rest| ==> number == -1 || rest[i].number == number)
    decreases rest
  {
    if rest != [] {
      var next := if IsDeleted(rest[0], number) then PullInstance(jobs, job.id, rest[0].number) else jobs;
      DeletedCount(next, job, rest[1..], number);
      assert forall i :: 0 < i < |rest| ==> rest[i] == rest[1..][i - 1];
      assert forall i :: 0 <= i < |rest| - 1 ==> rest[1..][i] == rest[i + 1];
    }
  }

  lemma {:induction false} OnlyThatJob(jobs: seq<Job>, k: nat, rest: seq<Instance>, number: int)
    requires WellFormed(jobs) && k < |jobs|
    ensures var after := DeleteInstances(jobs, jobs[k], rest, number, true).jobs;
            && |after| == |jobs| && IndexById(after, jobs[k].id) == k
            && (forall i :: 0 <= i < |jobs| && i != k ==> after[i] == jobs[i])
            && after[k].id == jobs[k].id && after[k].name == jobs[k].name && after[k].status == jobs[k].status
    decreases rest
  {
    WellFormedAt(jobs, k);
    if rest != [] {
      if IsDeleted(rest[0], number) {
        var next := PullInstance(jobs, jobs[k].id, rest[0].number);
        PulledJob(jobs, jobs[k].id, rest[0].number);
        OnlyThatJob(next, k, rest[1..], number);
        SameDeletion(next, jobs[k], next[k], rest[1..], number);
      } else {
        OnlyThatJob(jobs, k, rest[1..], number);
      }
    }
  }

  /** Of the job itself, a deletion uses the id and the name only. */
  lemma {:induction false} SameDeletion(jobs: seq<Job>, a: Job, b: Job, rest: seq<Instance>, number: int)
    requires a.id == b.id && a.name == b.name
    ensures DeleteInstances(jobs, a, rest, number, true) == DeleteInstances(jobs, b, rest, number, true)
    decreases rest
  {
    if rest != [] {
      var next := if IsDeleted(rest[0], number) then PullInstance(jobs, a.id, rest[0].number) else jobs;
      SameDeletion(next, a, b, rest[1..], number);
    }
  }

  /** A redeployment under an id that names no stored instance does nothing. */
  lemma {:induction false} UnknownAddress(jobs: seq<Job>, doc: DocId, number: int)
    requires || (forall k :: 0 <= k < |jobs| ==> jobs[k].id != doc.job)
             || |doc.numbers| > 1
             || (|doc.numbers| == 1 && LifeOf(jobs, doc.job, doc.numbers[0]).Absent?)
    ensures UndeployAndRedeploy(jobs, doc, number) == Redeployed(jobs, [], doc)
  {
    var k := IndexById(jobs, doc.job);
    if k < |jobs| && |doc.numbers| == 1 {
      FoundIffPresent(jobs[k].instances, doc.numbers[0]);
    }
  }

  lemma {:induction false} OnlyCommand(sent: seq<Command>, c: Command)
    requires Distinct(sent) && forall d :: d in sent <==> d == c
    ensures sent == [c]
  {
    assert c in sent;
    assert |sent| > 1 ==> sent[0] != sent[1];
    forall i | 0 <= i < |sent|
      ensures sent[i] == c
    {
      assert sent[i] in sent;
    }
  }

  // ---- Placing ----

  /** Instance `number` of job `id` as it is stored. */
  function EntryOf(jobs: seq<Job>, id: string, number: int): Option<Instance> {
    var k := IndexById(jobs, id);
    if k == |jobs| then None
    else
      var m := IndexOfInstance(jobs[k].instances, number);
      if m == |jobs[k].instances| then None else Some(jobs[k].instances[m])
  }

  lemma {:induction false} EntryAfterStatus(jobs: seq<Job>, id: string, number: int, s: Status, id': string, n': int)
    ensures var before, after := EntryOf(jobs, id', n'), EntryOf(UpdateStatus(jobs, id, number, s), id', n');
            && after.Some? == before.Some?
            && (before.Some? ==> after.value.number == n' && after.value.worker == before.value.worker
                                 && after.value.heard == before.value.heard)
            && (before.Some? ==>
                  after.value.status == if id' == id && n' == number && s != CREATED then Some(s) else before.value.status)
  {
    LifeAfterUpdateStatus(jobs, id, number, s);
    StatusKeepsLayouts(jobs, id, number, s);
    var after := UpdateStatus(jobs, id, number, s);
    OutlinesKeepIndices(after, jobs);
    SameLayouts(after, jobs);
    var k := IndexById(jobs, id');
    if k < |jobs| {
      SamePlaces(after[k].instances, jobs[k].instances);
      SameInstanceIndex(after[k].instances, jobs[k].instances, n');
      assert LifeOf(after, id', n') == LifeIn(after[k].instances, n');
    }
  }

  lemma {:induction false} EntryAfterPatch(jobs: seq<Job>, id: string, number: int, p: Patch, now: Time, id': string, n': int)
    ensures var before, after := EntryOf(jobs, id', n'), EntryOf(UpdateInstance(jobs, id, number, p, now).0, id', n');
            if id' == id && n' == number && before.Some? then
              after == Some(before.value.(heard := At(now),
                                          status := if p.status.Some? then p.status else before.value.status,
                                          worker := if p.worker.Some? then p.worker else before.value.worker))
            else after == before
  {
    var after := UpdateInstance(jobs, id, number, p, now).0;
    LifeAfterUpdateInstance(jobs, id, number, p, now);
    OutlinesKeepIndices(after, jobs);
    var k := IndexById(jobs, id');
    if k < |jobs| {
      assert Outlines(after)[k] == Outlines(jobs)[k];
      SameInstanceIndex(after[k].instances, jobs[k].instances, n');
    }
  }

  /**
   A node found for an instance: the instance waits for that node from now on, no other instance changes its status, its time or
   its worker, and the node is told exactly if the job is stored.
   */
  lemma {:induction false} PlacedAt(s: State, doc: DocId, node: string, t: Timeouts, now: Time, id: string, n: int)
    requires doc.numbers != []
    ensures var u := Handle(s, SchedulingResult(doc, node), t, now);
            var before, after := EntryOf(s.jobs, id, n), EntryOf(u.jobs, id, n);
            && after.Some? == before.Some?
            && (id == doc.job && n == doc.numbers[0] && before.Some? ==>
                  after.value.status == Some(NODE_SCHEDULED) && after.value.heard == At(now) && after.value.worker == Some(node))
            && (!(id == doc.job && n == doc.numbers[0]) && before.Some? ==>
                  after.value.status == before.value.status && after.value.heard == before.value.heard
                  && after.value.worker == before.value.worker)
            && u.outbox == s.outbox + if exists k :: 0 <= k < |s.jobs| && s.jobs[k].id == doc.job
                                      then [Deploy(node, doc.job, doc.numbers[0])] else []
  {
    var first := UpdateInstance(s.jobs, doc.job, doc.numbers[0], Patch(None, Some(node)), now).0;
    EntryAfterPatch(s.jobs, doc.job, doc.numbers[0], Patch(None, Some(node)), now, id, n);
    EntryAfterStatus(first, doc.job, doc.numbers[0], NODE_SCHEDULED, id, n);
    LifeAfterUpdateInstance(s.jobs, doc.job, doc.numbers[0], Patch(None, Some(node)), now);
    LifeAfterUpdateStatus(first, doc.job, doc.numbers[0], NODE_SCHEDULED);
    OutlinesKeepIndices(first, s.jobs);
    OutlinesKeepIndices(UpdateStatus(first, doc.job, doc.numbers[0], NODE_SCHEDULED), first);
  }

  lemma {:induction false} EntryByPlaces(jobs: seq<Job>, k: nat, number: int)
    requires WellFormed(jobs) && k < |jobs|
    ensures EntryOf(jobs, jobs[k].id, number).None? <==> forall i :: 0 <= i < |jobs[k].instances| ==> jobs[k].instances[i].number != number
    ensures forall i :: 0 <= i < |jobs[k].instances| && jobs[k].instances[i].number == number ==>
              EntryOf(jobs, jobs[k].id, number) == Some(jobs[k].instances[i])
  {
    WellFormedAt(jobs, k);
    forall i | 0 <= i < |jobs[k].instances| && jobs[k].instances[i].number == number
      ensures EntryOf(jobs, jobs[k].id, number) == Some(jobs[k].instances[i])
    {
      FirstInstance(jobs[k].instances, i);
    }
  }

  /**
   An instance that is placed on a node, and then only reported on and watched by the timer, is undeployed from that very node
   when it is deleted, and nobody else is told.
   */
  lemma {:induction false} UndeployedWhereItWasPlaced(s: State, k: nat, doc: DocId, node: string, at: Time, run: seq<Timed>, t: Timeouts, now: Time)
    requires WellFormed(s.jobs) && k < |s.jobs| && doc.job == s.jobs[k].id && doc.numbers != [] && doc.numbers[0] != -1
    requires EntryOf(s.jobs, doc.job, doc.numbers[0]).Some?
    requires forall j :: 0 <= j < |run| ==> IsReportOrTick(run[j].event)
    ensures var placed := Handle(s, SchedulingResult(doc, node), t, at);
            var u := After(placed, run, t);
            Handle(u, DeleteRequest(doc.job, doc.numbers[0]), t, now).outbox ==
              u.outbox + [Undeploy(node, s.jobs[k].name, doc.numbers[0])]
  {
    var placed, number := Handle(s, SchedulingResult(doc, node), t, at), doc.numbers[0];
    var u := After(placed, run, t);
    WellFormedAt(s.jobs, k);
    PlacedAt(s, doc, node, t, at, doc.job, number);
    PlacingKeepsOutlines(s, doc, node, t, at);
    OutlinesKeepIndices(placed.jobs, s.jobs);
    assert Outlines(placed.jobs)[k] == Outlines(s.jobs)[k];
    ReportsMoveNothing(placed, run, t);
    SameLayouts(u.jobs, placed.jobs);
    DeletionTells(u.jobs, k, number, true);
    DeletedFrom(placed.jobs, u.jobs, k, number, node);
    OnlyCommand(DeleteJobInstance(u.jobs, doc.job, number, true).1, Undeploy(node, s.jobs[k].name, number));
  }

  lemma {:induction false} PlacingKeepsOutlines(s: State, doc: DocId, node: string, t: Timeouts, now: Time)
    ensures Outlines(Handle(s, SchedulingResult(doc, node), t, now).jobs) == Outlines(s.jobs)
  {
    if doc.numbers != [] {
      var first := UpdateInstance(s.jobs, doc.job, doc.numbers[0], Patch(None, Some(node)), now).0;
      LifeAfterUpdateInstance(s.jobs, doc.job, doc.numbers[0], Patch(None, Some(node)), now);
      LifeAfterUpdateStatus(first, doc.job, doc.numbers[0], NODE_SCHEDULED);
    }
  }

  lemma {:induction false} DeletedFrom(placed: seq<Job>, jobs: seq<Job>, k: nat, number: int, node: string)
    requires WellFormed(placed) && k < |placed| && Layouts(jobs) == Layouts(placed) && number != -1
    requires EntryOf(placed, placed[k].id, number).Some? && EntryOf(placed, placed[k].id, number).value.worker == Some(node)
    ensures |jobs| == |placed| && jobs[k].name == placed[k].name
    ensures forall c :: TellsOne(jobs[k].name, jobs[k].instances, number, c) <==> c == Undeploy(node, placed[k].name, number)
  {
    SameLayouts(jobs, placed);
    SamePlaces(jobs[k].instances, placed[k].instances);
    EntryByPlaces(placed, k, number);
    var i :| 0 <= i < |placed[k].instances| && placed[k].instances[i].number == number;
    assert jobs[k].instances[i].number == number && jobs[k].instances[i].worker == Some(node);
    forall j | 0 <= j < |jobs[k].instances| && jobs[k].instances[j].number == number
      ensures jobs[k].instances[j].worker == Some(node)
    {
      assert placed[k].instances[j].number == number;
    }
  }

  // ---- The job's own status ----

  /** Every instance that the store has of the job runs. */
  ghost predicate RunsThroughout(jobs: seq<Job>, id: string) {
    forall n :: LifeOf(jobs, id, n).Life? ==> LifeOf(jobs, id, n).status == Some(RUNNING)
  }

  lemma {:induction false} AllRunningIff(jobs: seq<Job>, k: nat)
    requires WellFormed(jobs) && k < |jobs|
    ensures AllRunning(jobs[k].instances) <==> RunsThroughout(jobs, jobs[k].id)
  {
    WellFormedAt(jobs, k);
    forall i | 0 <= i < |jobs[k].instances| && RunsThroughout(jobs, jobs[k].id)
      ensures jobs[k].instances[i].status == Some(RUNNING)
    {
      FirstInstance(jobs[k].instances, i);
      assert LifeOf(jobs, jobs[k].id, jobs[k].instances[i].number).Life?;
    }
  }

  /**
   A status that a worker reports for an instance becomes that of its job, unless it is CREATED, one the cluster does not know,
   or RUNNING while another instance is not: a job runs from the moment all its instances do. The instance takes it in any case
   but the first two, and the time in any case but the second.
   */
  lemma {:induction false} ReportIsTaken(s: State, k: nat, service: Service, t: Timeouts, now: Time)
    requires WellFormed(s.jobs) && k < |s.jobs| && service.jobName == s.jobs[k].name
    requires LifeOf(s.jobs, s.jobs[k].id, service.number).Life?
    ensures var id := s.jobs[k].id;
            var before := LifeOf(s.jobs, id, service.number);
            var u := Handle(s, WorkerStatus(service), t, now);
            && |u.jobs| == |s.jobs| && u.outbox == s.outbox
            && LifeOf(u.jobs, id, service.number) ==
               (if service.status.Unrecognised? then before
                else Life.Life(if service.status == CREATED then before.status else Some(service.status), At(now)))
            && u.jobs[k].status ==
               (if service.status.Unrecognised? || service.status == CREATED
                   || (service.status == RUNNING && !RunsThroughout(u.jobs, id)) then s.jobs[k].status
                else Some(service.status))
  {
    if !service.status.Unrecognised? {
      var id := s.jobs[k].id;
      var after := ReportService(s.jobs, service, now).0;
      WellFormedAt(s.jobs, k);
      LifeAfterReport(s.jobs, service, now);
      assert IsAbout(s.jobs, service, id, service.number);
      OutlinesKeepIndices(after, s.jobs);
      assert Outlines(after)[k] == Outlines(s.jobs)[k];
      AllRunningIff(after, k);
      StatusAfterReport(s.jobs, k, service, now);
    }
  }

  lemma {:induction false} StatusAfterReport(jobs: seq<Job>, k: nat, service: Service, now: Time)
    requires WellFormed(jobs) && k < |jobs| && service.jobName == jobs[k].name
    ensures var after := ReportService(jobs, service, now).0;
            |after| == |jobs| && after[k].status ==
              if service.status == CREATED || (service.status == RUNNING && !AllRunning(after[k].instances)) then jobs[k].status
              else Some(service.status)
  {
    WellFormedAt(jobs, k);
    var job := jobs[k].(instances := SetStatus(jobs[k].instances, service.number, service.status));
    var half := UpdateStatus(jobs, jobs[k].id, service.number, service.status);
    LifeAfterUpdateStatus(jobs, jobs[k].id, service.number, service.status);
    OutlinesKeepIndices(half, jobs);
    var m := IndexOfInstance(half[k].instances, service.number);
    var after := ReportService(jobs, service, now).0;
    assert forall i :: 0 <= i < |half[k].instances| ==> after[k].instances[i].status == half[k].instances[i].status;
    if service.status == RUNNING {
      assert forall i :: 0 <= i < |job.instances| ==> half[k].instances[i].status == job.instances[i].status;
      assert AllRunning(after[k].instances) <==> AllRunning(job.instances);
    }
  }
}
