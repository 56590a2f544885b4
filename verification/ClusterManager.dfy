/**
 The handlers of the cluster manager as they run: loops over fetched documents that write to the store and publish.
 */
module ClusterManager {
  import opened Wrappers
  import C = ClusterJobs
  import L = ClusterLife
  import R = ClusterRuns

  lemma {:induction false} Regroup<T>(a: seq<T>, b: seq<T>, c: seq<T>)
    ensures a + b + c == a + (b + c)
  {
  }

  lemma {:induction false} ReportsFront(jobs: seq<C.Job>, worker: string, services: seq<C.Service>, i: nat, now: C.Time)
    requires i < |services|
    ensures var (next, known) := C.ReportService(jobs, services[i], now);
            var undeploy := if known then [] else [C.Undeploy(worker, services[i].jobName, services[i].number)];
            var r := C.ReportServices(next, worker, services[i + 1..], now);
            C.ReportServices(jobs, worker, services[i..], now) == (r.0, undeploy + r.1)
  {
    assert services[i..][0] == services[i] && services[i..][1..] == services[i + 1..];
  }

  lemma {:induction false} DeletionsFront(jobs: seq<C.Job>, job: C.Job, i: nat, number: int, erase: bool)
    requires i < |job.instances|
    ensures var x := job.instances[i];
            var undeploy := if x.worker.None? then [] else [C.Undeploy(x.worker.value, job.name, x.number)];
            var next := if erase && C.IsDeleted(x, number) then C.PullInstance(jobs, job.id, x.number) else jobs;
            var r := C.DeleteInstances(next, job, job.instances[i + 1..], number, erase);
            C.DeleteInstances(jobs, job, job.instances[i..], number, erase) ==
              if C.IsDeleted(x, number) then C.DeleteResult(r.jobs, undeploy + r.outbox, r.deleted + 1) else r
  {
    assert job.instances[i..][0] == job.instances[i] && job.instances[i..][1..] == job.instances[i + 1..];
  }

  lemma {:induction false} RedeployFront(jobs: seq<C.Job>, doc: C.DocId, instances: seq<C.Instance>, i: nat)
    requires i < |instances|
    ensures C.RedeployInstances(jobs, doc, instances[i..]) ==
            if !C.StatusKnown(instances[i]) then (C.Redeployed(jobs, [], doc), false)
            else if C.TriggersRedeploy(instances[i]) then
              var r := C.UndeployAndRedeploy(jobs, doc, instances[i].number);
              var later := C.RedeployInstances(r.jobs, r.doc, instances[i + 1..]);
              (later.0.(outbox := r.outbox + later.0.outbox), later.1)
            else C.RedeployInstances(jobs, doc, instances[i + 1..])
  {
    assert instances[i..][0] == instances[i] && instances[i..][1..] == instances[i + 1..];
  }

  /** Of the job itself, a deletion that does not erase uses the name only. */
  lemma {:induction false} SameDeletions(jobs: seq<C.Job>, a: C.Job, b: C.Job, rest: seq<C.Instance>, number: int)
    requires a.name == b.name
    ensures C.DeleteInstances(jobs, a, rest, number, false) == C.DeleteInstances(jobs, b, rest, number, false)
    decreases rest
  {
    if rest != [] {
      SameDeletions(jobs, a, b, rest[1..], number);
    }
  }

  /** A fetched job document: every call made for one of its instances works on this one object. */
  class FetchedJob {
    var id: C.DocId
    const instances: seq<C.Instance>

    constructor (job: C.Job)
      ensures id == C.DocId(job.id, []) && instances == job.instances
    {
      id, instances := C.DocId(job.id, []), job.instances;
    }
  }

  class Manager {
    var jobs: seq<C.Job>
    var outbox: seq<C.Command>

    constructor ()
      ensures jobs == [] && outbox == []
    {
      jobs, outbox := [], [];
    }

    /** Writes the status into the fetched document and the document back into the store. */
    method UpdateStatus(id: string, number: int, status: C.Status)
      modifies this
      ensures jobs == C.UpdateStatus(old(jobs), id, number, status) && outbox == old(outbox)
    {
      if status == C.CREATED {
        return;
      }
      var k := C.IndexById(jobs, id);
      if k == |jobs| {
        return;
      }
      var job := jobs[k];
      var instances := job.instances;
      var allRunning := true;
      for i := 0 to |instances|
        invariant |instances| == |job.instances|
        invariant forall m :: 0 <= m < i ==> instances[m] == C.SetStatus(job.instances, number, status)[m]
        invariant forall m :: i <= m < |instances| ==> instances[m] == job.instances[m]
        invariant allRunning <==> forall m :: 0 <= m < i ==> instances[m].status == Some(C.RUNNING)
      {
        if instances[i].number == number {
          instances := instances[i := instances[i].(status := Some(status))];
        }
        allRunning := allRunning && instances[i].status == Some(C.RUNNING);
      }
      assert instances == C.SetStatus(job.instances, number, status);
      job := job.(instances := instances);
      if status != C.RUNNING || allRunning {
        job := C.WithStatus(job, status);
      }
      jobs := jobs[k := job];
    }

    /** Finds the instance in the fetched document; only the store decides whether it is there to be updated. */
    method UpdateInstance(id: string, number: int, p: C.Patch, now: C.Time) returns (known: bool)
      modifies this
      ensures (jobs, known) == C.UpdateInstance(old(jobs), id, number, p, now) && outbox == old(outbox)
    {
      var k := C.IndexById(jobs, id);
      if k == |jobs| {
        return false;
      }
      var m := 0;
      while m < |jobs[k].instances| && jobs[k].instances[m].number != number
        invariant 0 <= m <= |jobs[k].instances| && jobs == old(jobs)
        invariant forall i :: 0 <= i < m ==> jobs[k].instances[i].number != number
      {
        m := m + 1;
      }
      assert m == C.IndexOfInstance(jobs[k].instances, number);
      if m == |jobs[k].instances| {
        return false;
      }
      jobs := jobs[k := jobs[k].(instances := jobs[k].instances[m := C.Patched(jobs[k].instances[m], p, now)])];
      known := true;
    }

    method MarkJob(id: string, instances: seq<C.Instance>, t: C.Timeouts, now: C.Time) returns (failed: seq<int>, completed: bool)
      modifies this
      ensures C.MarkInstances(old(jobs), id, instances, t, now) == C.MarkResult(jobs, failed, completed)
      ensures outbox == old(outbox)
    {
      failed, completed := [], true;
      for i := 0 to |instances|
        invariant completed && outbox == old(outbox)
        invariant var r := C.MarkInstances(jobs, id, instances[i..], t, now);
                  C.MarkInstances(old(jobs), id, instances, t, now) == r.(failed := failed + r.failed)
      {
        var instance := instances[i];
        assert instances[i..][0] == instance && instances[i..][1..] == instances[i + 1..];
        if !C.Readable(instance) {
          assert failed + [] == failed;
          return failed, false;
        }
        if C.Stale(instance, t, now) {
          ghost var rest := C.MarkInstances(C.UpdateInstance(jobs, id, instance.number, C.MARK, now).0, id, instances[i + 1..], t, now);
          assert failed + ([instance.number] + rest.failed) == failed + [instance.number] + rest.failed;
          var known := UpdateInstance(id, instance.number, C.MARK, now);
          failed := failed + [instance.number];
        }
      }
      assert failed + [] == failed;
    }

    /** The periodic marking; the store may or may not apply the query. */
    method MarkInactiveAsFailed(queried: bool, t: C.Timeouts, now: C.Time)
      modifies this
      ensures jobs == C.Handle(C.State(old(jobs), old(outbox)), C.Tick(queried), t, now).jobs && outbox == old(outbox)
    {
      var fetched := C.FetchedJobs(jobs, queried, t, now);
      for k := 0 to |fetched|
        invariant outbox == old(outbox)
        invariant C.MarkJobs(jobs, fetched[k..], t, now) == C.MarkJobs(old(jobs), fetched, t, now)
      {
        var job := fetched[k];
        assert fetched[k..][0] == job && fetched[k..][1..] == fetched[k + 1..];
        var failed, completed := MarkJob(job.id, job.instances, t, now);
        if !completed {
          return;
        }
        if failed != [] {
          jobs := C.FailJob(jobs, job.id);
        }
      }
    }

    /** Goes over the fetched instances: tells their workers, and pulls them from the store to erase them. */
    method DeleteInstances(job: C.Job, number: int, erase: bool) returns (deleted: nat)
      modifies this
      ensures var r := C.DeleteInstances(old(jobs), job, job.instances, number, erase);
              jobs == r.jobs && deleted == r.deleted && outbox == old(outbox) + r.outbox
    {
      deleted := 0;
      ghost var all := C.DeleteInstances(jobs, job, job.instances, number, erase);
      ghost var sent: seq<C.Command> := [];
      for i := 0 to |job.instances|
        invariant outbox == old(outbox) + sent
        invariant var r := C.DeleteInstances(jobs, job, job.instances[i..], number, erase);
                  all == C.DeleteResult(r.jobs, sent + r.outbox, deleted + r.deleted)
      {
        DeletionsFront(jobs, job, i, number, erase);
        var instance := job.instances[i];
        if C.IsDeleted(instance, number) {
          deleted := deleted + 1;
          var undeploy := if instance.worker.None? then [] else [C.Undeploy(instance.worker.value, job.name, instance.number)];
          if erase {
            jobs := C.PullInstance(jobs, job.id, instance.number);
          }
          Regroup(sent, undeploy, C.DeleteInstances(jobs, job, job.instances[i + 1..], number, erase).outbox);
          Regroup(old(outbox), sent, undeploy);
          outbox := outbox + undeploy;
          sent := sent + undeploy;
        }
      }
      assert sent + [] == sent;
    }

    method DeleteJobInstance(id: string, number: int, erase: bool)
      modifies this
      ensures var (after, sent) := C.DeleteJobInstance(old(jobs), id, number, erase);
              jobs == after && outbox == old(outbox) + sent
    {
      var k := C.IndexById(jobs, id);
      if k == |jobs| {
        assert outbox + [] == outbox;
        return;
      }
      var job := jobs[k];
      var deleted := DeleteInstances(job, number, erase);
      if erase && |job.instances| <= deleted {
        jobs := C.RemoveJob(jobs, id);
      }
    }

    /** The request for a node writes its number into the id of the caller's document. */
    method RequestDeploy(service: FetchedJob, number: int)
      modifies this`outbox, service
      ensures service.id == C.Extended(old(service.id), number) && outbox == old(outbox) + [C.Schedule(service.id)]
    {
      service.id := service.id.(numbers := service.id.numbers + [number]);
      outbox := outbox + [C.Schedule(service.id)];
    }

    /** The two calls under the document's id as it is by now: the store takes one number for the address of an instance. */
    method UndeployAndRedeploy(service: FetchedJob, number: int)
      modifies this, service
      ensures var r := C.UndeployAndRedeploy(old(jobs), old(service.id), number);
              jobs == r.jobs && outbox == old(outbox) + r.outbox && service.id == r.doc
    {
      var id := service.id;
      var k := C.IndexById(jobs, id.job);
      if k == |jobs| || |id.numbers| > 1 {
        assert outbox + [] == outbox;
        return;
      }
      if |id.numbers| == 0 {
        ghost var sent := C.DeleteJobInstance(jobs, id.job, number, false).1;
        DeleteJobInstance(id.job, number, false);
        UpdateStatus(id.job, number, C.REQUESTED);
        RequestDeploy(service, number);
        Regroup(old(outbox), sent, [C.Schedule(service.id)]);
      } else {
        var job := jobs[k].(instances := C.WithNumber(jobs[k].instances, id.numbers[0]));
        if |job.instances| == 0 {
          assert outbox + [] == outbox;
          return;
        }
        ghost var sent := C.DeleteInstances(jobs, jobs[k], job.instances, number, false).outbox;
        ghost var was := jobs;
        R.NotErased(jobs, job, job.instances, number);
        SameDeletions(jobs, jobs[k], job, job.instances, number);
        var _ := DeleteInstances(job, number, false);
        jobs := C.Overwrite(jobs, id.job, id.numbers[0], C.REQUESTED);
        RequestDeploy(service, number);
        Regroup(old(outbox), sent, [C.Schedule(service.id)]);
      }
    }

    method RedeployDeadInstances(service: FetchedJob) returns (completed: bool)
      modifies this, service
      ensures var (r, done) := C.RedeployInstances(old(jobs), old(service.id), service.instances);
              jobs == r.jobs && outbox == old(outbox) + r.outbox && completed == done
    {
      var instances := service.instances;
      ghost var all := C.RedeployInstances(jobs, service.id, instances);
      ghost var sent: seq<C.Command> := [];
      assert instances[0..] == instances && [] + all.0.outbox == all.0.outbox && outbox + [] == outbox;
      for i := 0 to |instances|
        invariant outbox == old(outbox) + sent
        invariant var r := C.RedeployInstances(jobs, service.id, instances[i..]);
                  all == (r.0.(outbox := sent + r.0.outbox), r.1)
      {
        RedeployFront(jobs, service.id, instances, i);
        assert sent + [] == sent;
        if !C.StatusKnown(instances[i]) {
          return false;
        }
        if C.TriggersRedeploy(instances[i]) {
          ghost var next := C.UndeployAndRedeploy(jobs, service.id, instances[i].number);
          Regroup(sent, next.outbox, C.RedeployInstances(next.jobs, next.doc, instances[i + 1..]).0.outbox);
          Regroup(old(outbox), sent, next.outbox);
          UndeployAndRedeploy(service, instances[i].number);
          sent := sent + next.outbox;
        }
      }
      assert sent + [] == sent;
      completed := true;
    }

    method RedeployDeadJobs()
      modifies this
      ensures var (after, sent) := C.RedeployJobs(old(jobs), old(jobs));
              jobs == after && outbox == old(outbox) + sent
    {
      var fetched := jobs;
      ghost var all := C.RedeployJobs(jobs, fetched);
      for k := 0 to |fetched|
        invariant var r := C.RedeployJobs(jobs, fetched[k..]);
                  all.0 == r.0 && old(outbox) + all.1 == outbox + r.1
      {
        assert fetched[k..][0] == fetched[k] && fetched[k..][1..] == fetched[k + 1..];
        var service := new FetchedJob(fetched[k]);
        var completed := RedeployDeadInstances(service);
        if !completed {
          assert outbox + [] == outbox;
          return;
        }
      }
      assert outbox + [] == outbox;
    }

    method ReportService(s: C.Service, now: C.Time) returns (known: bool)
      modifies this
      ensures (jobs, known) == C.ReportService(old(jobs), s, now) && outbox == old(outbox)
    {
      var k := C.IndexByName(jobs, s.jobName);
      if k == |jobs| {
        return false;
      }
      var id := jobs[k].id;
      UpdateStatus(id, s.number, s.status);
      known := UpdateInstance(id, s.number, C.Patch(None, None), now);
    }

    /** Services that the store does not know are undeployed from the worker that reports them. */
    method HandleResourceReport(worker: string, services: seq<C.Service>, now: C.Time)
      modifies this
      ensures var (after, sent) := C.ReportServices(old(jobs), worker, services, now);
              jobs == after && outbox == old(outbox) + sent
    {
      ghost var all := C.ReportServices(jobs, worker, services, now);
      ghost var sent: seq<C.Command> := [];
      for i := 0 to |services|
        invariant outbox == old(outbox) + sent
        invariant all.0 == C.ReportServices(jobs, worker, services[i..], now).0
        invariant all.1 == sent + C.ReportServices(jobs, worker, services[i..], now).1
      {
        ReportsFront(jobs, worker, services, i, now);
        ghost var before := jobs;
        var known := ReportService(services[i], now);
        var undeploy := if known then [] else [C.Undeploy(worker, services[i].jobName, services[i].number)];
        Regroup(sent, undeploy, C.ReportServices(jobs, worker, services[i + 1..], now).1);
        Regroup(old(outbox), sent, undeploy);
        outbox := outbox + undeploy;
        sent := sent + undeploy;
      }
      assert sent + [] == sent;
    }

    /** A job that is not stored replaces the one of its name or is inserted; for one that is, the last instance is pushed. */
    method CreateNewJobInstance(number: int, request: C.Request, newId: string) returns (id: Option<string>)
      modifies this
      ensures (jobs, id) == C.CreateNewJobInstance(old(jobs), number, request, newId) && outbox == old(outbox)
    {
      if request.id.Some? {
        var k := C.IndexById(jobs, request.id.value);
        if k < |jobs| {
          if |request.instances| == 0 {
            return None;
          }
          var i := 0;
          while i < |jobs[k].instances|
            invariant 0 <= i <= |jobs[k].instances| && jobs == old(jobs)
            invariant forall m :: 0 <= m < i ==> jobs[k].instances[m].number != number
          {
            if jobs[k].instances[i].number == number {
              assert C.IndexOfInstance(jobs[k].instances, number) == i;
              return None;
            }
            i := i + 1;
          }
          assert C.IndexOfInstance(jobs[k].instances, number) == i;
          var last := request.instances[|request.instances| - 1];
          jobs := jobs[k := jobs[k].(instances := jobs[k].instances + [last.(appended := true)])];
          return request.id;
        }
      }
      var k := C.IndexByName(jobs, request.name);
      if k < |jobs| {
        var job := jobs[k].(instances := C.Appended(request.instances));
        if request.status.Some? {
          job := job.(status := request.status);
        }
        jobs := jobs[k := job];
        return Some(job.id);
      }
      var key := if request.id.Some? then request.id.value else newId;
      jobs := jobs + [C.Job(key, request.name, request.status, C.Appended(request.instances))];
      id := Some(key);
    }

    /**
     A request of the root that is turned down, because the instance is there already, changes nothing; otherwise the instance
     is in the store, as described, and it alone is sent to be scheduled. No instance of another job changes.
     */
    method DeployJob(number: int, request: C.Request, newId: string) returns (id: Option<string>)
      modifies this
      ensures (jobs, id) == C.CreateNewJobInstance(old(jobs), number, request, newId)
      ensures outbox == old(outbox) + if id.Some? then [C.Schedule(C.DocId(id.value, [number]))] else []
      ensures L.WellFormed(old(jobs)) && R.GoodRequest(old(jobs), number, request, newId) ==>
                && L.WellFormed(jobs)
                && (id.None? ==> jobs == old(jobs) && !L.LifeOf(jobs, request.id.value, number).Absent?)
                && (id.Some? ==> L.LifeOf(jobs, id.value, number) == L.Life.Life(request.instances[0].status, request.instances[0].heard))
                && forall other, n :: id != Some(other) ==> L.LifeOf(jobs, other, n) == L.LifeOf(old(jobs), other, n)
    {
      if L.WellFormed(jobs) && R.GoodRequest(jobs, number, request, newId) {
        R.LifeAfterDeploy(jobs, number, request, newId);
      }
      id := CreateNewJobInstance(number, request, newId);
      outbox := outbox + if id.Some? then [C.Schedule(C.DocId(id.value, [number]))] else [];
    }

    method PlaceInstance(id: string, number: int, node: string, now: C.Time)
      modifies this
      ensures C.State(jobs, outbox) == C.PlaceInstance(C.State(old(jobs), old(outbox)), id, number, node, now)
    {
      var known := UpdateInstance(id, number, C.Patch(None, Some(node)), now);
      UpdateStatus(id, number, C.NODE_SCHEDULED);
      outbox := outbox + if C.IndexById(jobs, id) < |jobs| then [C.Deploy(node, id, number)] else [];
    }

    /** Any handler. */
    method Handle(e: C.Event, t: C.Timeouts, now: C.Time)
      modifies this
      ensures C.State(jobs, outbox) == C.Handle(C.State(old(jobs), old(outbox)), e, t, now)
    {
      match e
      case DeployRequest(number, request, newId) =>
        var id := DeployJob(number, request, newId);
      case DeleteRequest(id, number) => DeleteJobInstance(id, number, true);
      case SchedulingResult(doc, node) =>
        if |doc.numbers| > 0 {
          PlaceInstance(doc.job, doc.numbers[0], node, now);
        }
      case WorkerStatus(service) =>
        if !service.status.Unrecognised? {
          var known := ReportService(service, now);
        }
      case ResourceReport(worker, services) => HandleResourceReport(worker, services, now);
      case Tick(queried) => MarkInactiveAsFailed(queried, t, now);
      case RedeployRoutine => RedeployDeadJobs();
    }

    /** Any run of handlers is one of the runs that the theorems about runs speak of. */
    method Run(run: seq<R.Timed>, t: C.Timeouts)
      modifies this
      ensures C.State(jobs, outbox) == R.After(C.State(old(jobs), old(outbox)), run, t)
    {
      for i := 0 to |run|
        invariant C.State(jobs, outbox) == R.After(C.State(old(jobs), old(outbox)), run[..i], t)
      {
        assert run[..i + 1][..i] == run[..i];
        Handle(run[i].event, t, run[i].at);
      }
      assert run[..|run|] == run;
    }
  }
}
