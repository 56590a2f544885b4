/**
 What the statuses of jobs and instances mean in every run, and when the timer marks an instance.
 */
module ClusterSafety {
  import opened Wrappers
  import opened ClusterJobs
  import opened ClusterLife
  import opened ClusterMarking
  import opened ClusterRuns

  // ---- A running job ----

  /** A RUNNING job has only running instances, apart from those appended since its status was last written. */
  predicate Honest(job: Job) {
    job.status == Some(RUNNING) ==>
      forall i :: 0 <= i < |job.instances| ==>
        Readable(job.instances[i]) && (job.instances[i].appended || job.instances[i].status == Some(RUNNING))
  }

  /** An instance without a time is one whose entry the redeployment has overwritten. */
  predicate NullIsRequested(job: Job) {
    forall i :: 0 <= i < |job.instances| && job.instances[i].heard == Null ==> job.instances[i].status == Some(REQUESTED)
  }

  predicate Sane(job: Job) {
    Honest(job) && NullIsRequested(job)
  }

  predicate AllHonest(jobs: seq<Job>) {
    forall k :: 0 <= k < |jobs| ==> Sane(jobs[k])
  }

  lemma {:induction false} HonestAfterStatus(job: Job, number: int, s: Status)
    requires Sane(job)
    requires s == REQUESTED || forall i :: 0 <= i < |job.instances| && job.instances[i].number == number ==> job.instances[i].heard != Null
    ensures Sane(JobAfterStatus(job, number, s))
  {
  }

  lemma {:induction false} HonestAfterRequest(jobs: seq<Job>, id: string, number: int)
    requires AllHonest(jobs)
    ensures AllHonest(UpdateStatus(jobs, id, number, REQUESTED))
  {
    var k := IndexById(jobs, id);
    if k < |jobs| {
      HonestAfterStatus(jobs[k], number, REQUESTED);
    }
  }

  /** Between the two halves of a report, when its instance may have a status but no time. */
  predicate SaneBut(job: Job, number: int) {
    && (forall i :: 0 <= i < |job.instances| && job.instances[i].number != number && job.instances[i].heard == Null ==>
          job.instances[i].status == Some(REQUESTED))
    && (job.status == Some(RUNNING) ==> forall i :: 0 <= i < |job.instances| ==>
          && StatusKnown(job.instances[i]) && (job.instances[i].number != number ==> job.instances[i].heard != Null)
          && (job.instances[i].appended || job.instances[i].status == Some(RUNNING)))
  }

  lemma {:induction false} FirstHalf(job: Job, number: int, s: Status)
    requires Sane(job)
    ensures SaneBut(JobAfterStatus(job, number, s), number)
  {
  }

  lemma {:induction false} SecondHalf(job: Job, number: int, worker: Option<string>, now: Time)
    requires SaneBut(job, number) && Distinct(Numbers(job.instances))
    ensures var m := IndexOfInstance(job.instances, number);
            if m == |job.instances| then Sane(job)
            else var patched := job.(instances := job.instances[m := Patched(job.instances[m], Patch(None, worker), now)]);
                 Sane(patched) && forall i :: 0 <= i < |job.instances| && job.instances[i].number == number ==> patched.instances[i].heard != Null
  {
    forall i | 0 <= i < |job.instances| && job.instances[i].number == number
      ensures i == IndexOfInstance(job.instances, number)
    {
      FirstInstance(job.instances, i);
    }
  }

  /** A report about a job of the store, both halves. */
  lemma {:induction false} HonestAfterReport(jobs: seq<Job>, s: Service, now: Time)
    requires AllHonest(jobs) && WellFormed(jobs)
    ensures AllHonest(ReportService(jobs, s, now).0) && WellFormed(ReportService(jobs, s, now).0)
  {
    LifeAfterReport(jobs, s, now);
    var k := IndexByName(jobs, s.jobName);
    if k < |jobs| {
      WellFormedAt(jobs, k);
      var half := if s.status == CREATED then jobs[k] else JobAfterStatus(jobs[k], s.number, s.status);
      FirstHalf(jobs[k], s.number, s.status);
      assert Numbers(half.instances) == Numbers(jobs[k].instances);
      SecondHalf(half, s.number, None, now);
      ReplaceJob(jobs, k, half);
      assert jobs[k := half] == UpdateStatus(jobs, jobs[k].id, s.number, s.status);
    }
  }

  lemma {:induction false} HonestAfterReports(jobs: seq<Job>, worker: string, services: seq<Service>, now: Time)
    requires AllHonest(jobs) && WellFormed(jobs)
    ensures AllHonest(ReportServices(jobs, worker, services, now).0)
    decreases services
  {
    if services != [] {
      HonestAfterReport(jobs, services[0], now);
      HonestAfterReports(ReportService(jobs, services[0], now).0, worker, services[1..], now);
    }
  }

  lemma {:induction false} HonestAfterPlacing(s: State, id: string, number: int, node: string, now: Time)
    requires AllHonest(s.jobs) && WellFormed(s.jobs)
    ensures AllHonest(PlaceInstance(s, id, number, node, now).jobs)
  {
    var k := IndexById(s.jobs, id);
    if k < |s.jobs| {
      WellFormedAt(s.jobs, k);
      var job := s.jobs[k];
      SecondHalf(job, number, Some(node), now);
      var m := IndexOfInstance(job.instances, number);
      var patched := if m == |job.instances| then job
        else job.(instances := job.instances[m := Patched(job.instances[m], Patch(None, Some(node)), now)]);
      assert Numbers(patched.instances) == Numbers(job.instances);
      ReplaceJob(s.jobs, k, patched);
      assert s.jobs[k := patched] == UpdateInstance(s.jobs, id, number, Patch(None, Some(node)), now).0;
      HonestAfterStatus(patched, number, NODE_SCHEDULED);
    }
  }

  /** Where a tick marks an instance the job fails with it; a tick that raises inside a job finds it not RUNNING. */
  lemma {:induction false} HonestAfterTick(jobs: seq<Job>, queried: bool, t: Timeouts, now: Time)
    requires AllHonest(jobs)
    ensures AllHonest(MarkedJobs(jobs, queried, t, now))
  {
    forall k | 0 <= k < |jobs|
      ensures Sane(MarkedJobs(jobs, queried, t, now)[k])
    {
      HonestAfterMark(jobs[k], t, now);
    }
  }

  lemma {:induction false} HonestAfterMark(job: Job, t: Timeouts, now: Time)
    requires Sane(job)
    ensures Sane(MarkedJob(job, t, now))
  {
    if job.status == Some(RUNNING) {
      assert Clean(job.instances);
      if !AnyStale(job.instances, t, now) {
        assert MarkedInstances(job.instances, t, now) == job.instances;
      }
    }
  }

  lemma {:induction false} HonestAfterErase(jobs: seq<Job>, job: Job, rest: seq<Instance>, number: int)
    requires AllHonest(jobs)
    ensures AllHonest(DeleteInstances(jobs, job, rest, number, true).jobs)
    decreases rest
  {
    if rest != [] {
      var k := IndexById(jobs, job.id);
      if k < |jobs| {
        HonestAfterPull(jobs[k], rest[0].number);
      }
      HonestAfterErase(if IsDeleted(rest[0], number) then PullInstance(jobs, job.id, rest[0].number) else jobs,
                       job, rest[1..], number);
    }
  }

  lemma {:induction false} HonestAfterPull(job: Job, number: int)
    requires Sane(job)
    ensures Sane(job.(instances := WithoutNumber(job.instances, number)))
  {
    var rest := WithoutNumber(job.instances, number);
    forall i | 0 <= i < |rest|
      ensures rest[i].heard == Null ==> rest[i].status == Some(REQUESTED)
      ensures job.status == Some(RUNNING) ==> Readable(rest[i]) && (rest[i].appended || rest[i].status == Some(RUNNING))
    {
      assert rest[i] in job.instances;
    }
  }

  /** Once an instance of it has been requested again, a job is not RUNNING. */
  ghost predicate NotRunningOnceShared(jobs: seq<Job>, doc: DocId) {
    doc.numbers != [] && IndexById(jobs, doc.job) < |jobs| ==> jobs[IndexById(jobs, doc.job)].status != Some(RUNNING)
  }

  lemma {:induction false} HonestAfterOne(jobs: seq<Job>, doc: DocId, number: int)
    requires AllHonest(jobs) && NotRunningOnceShared(jobs, doc)
    ensures var r := UndeployAndRedeploy(jobs, doc, number);
            AllHonest(r.jobs) && NotRunningOnceShared(r.jobs, r.doc)
  {
    var k := IndexById(jobs, doc.job);
    if k < |jobs| {
      if doc.numbers == [] {
        NotErased(jobs, jobs[k], jobs[k].instances, number);
        HonestAfterRequest(jobs, doc.job, number);
        SameIndices(UpdateStatus(jobs, doc.job, number, REQUESTED), jobs);
      } else if |doc.numbers| == 1 {
        SameIndices(Overwrite(jobs, doc.job, doc.numbers[0], REQUESTED), jobs);
      }
    }
  }

  lemma {:induction false} HonestAfterRedeployInstances(jobs: seq<Job>, doc: DocId, rest: seq<Instance>)
    requires AllHonest(jobs) && NotRunningOnceShared(jobs, doc)
    ensures AllHonest(RedeployInstances(jobs, doc, rest).0.jobs)
    decreases rest
  {
    if rest != [] && StatusKnown(rest[0]) {
      if TriggersRedeploy(rest[0]) {
        var r := UndeployAndRedeploy(jobs, doc, rest[0].number);
        HonestAfterOne(jobs, doc, rest[0].number);
        HonestAfterRedeployInstances(r.jobs, r.doc, rest[1..]);
      } else {
        HonestAfterRedeployInstances(jobs, doc, rest[1..]);
      }
    }
  }

  lemma {:induction false} HonestAfterRedeploy(jobs: seq<Job>, rest: seq<Job>)
    requires AllHonest(jobs)
    ensures AllHonest(RedeployJobs(jobs, rest).0)
    decreases rest
  {
    if rest != [] {
      HonestAfterRedeployInstances(jobs, DocId(rest[0].id, []), rest[0].instances);
      HonestAfterRedeploy(RedeployInstances(jobs, DocId(rest[0].id, []), rest[0].instances).0.jobs, rest[1..]);
    }
  }

  lemma {:induction false} HonestAfterDelete(jobs: seq<Job>, id: string, number: int)
    requires AllHonest(jobs)
    ensures AllHonest(DeleteJobInstance(jobs, id, number, true).0)
  {
    var k := IndexById(jobs, id);
    if k < |jobs| {
      HonestAfterErase(jobs, jobs[k], jobs[k].instances, number);
    }
  }

  lemma {:induction false} HonestAfterDeploy(jobs: seq<Job>, number: int, r: Request, newId: string)
    requires AllHonest(jobs) && GoodRequest(jobs, number, r, newId)
    ensures AllHonest(CreateNewJobInstance(jobs, number, r, newId).0)
  {
    assert r.instances[|r.instances| - 1] == r.instances[0];
  }

  lemma {:induction false} HandlerKeepsHonest(s: State, e: Event, t: Timeouts, now: Time)
    requires WellFormed(s.jobs) && GoodEvent(s, e) && AllHonest(s.jobs)
    ensures AllHonest(Handle(s, e, t, now).jobs)
  {
    match e
    case DeployRequest(number, r, newId) => HonestAfterDeploy(s.jobs, number, r, newId);
    case DeleteRequest(id, number) => HonestAfterDelete(s.jobs, id, number);
    case SchedulingResult(doc, node) =>
      if doc.numbers != [] {
        HonestAfterPlacing(s, doc.job, doc.numbers[0], node, now);
      }
    case WorkerStatus(service) => HonestAfterReport(s.jobs, service, now);
    case ResourceReport(worker, services) => HonestAfterReports(s.jobs, worker, services, now);
    case Tick(queried) =>
      TickHandled(s, queried, t, now);
      HonestAfterTick(s.jobs, queried, t, now);
    case RedeployRoutine => HonestAfterRedeploy(s.jobs, s.jobs);
  }

  /** In every run from an empty store, a RUNNING job has only running instances among those its status has seen. */
  lemma {:induction false} RunningMeansRunning(run: seq<Timed>, t: Timeouts)
    requires GoodRun(State([], []), run, t)
    ensures AllHonest(After(State([], []), run, t).jobs) && WellFormed(After(State([], []), run, t).jobs)
  {
    RunsKeepShape(State([], []), run, t);
    if run != [] {
      var p := run[..|run| - 1];
      GoodPrefix(State([], []), run, t);
      RunningMeansRunning(p, t);
      HandlerKeepsHonest(After(State([], []), p, t), run[|run| - 1].event, t, run[|run| - 1].at);
    }
  }

  /** The instances of the example: both as deployed, and the first as its worker reports it at time `at`. */
  function Deployed(number: int): Instance {
    Instance(number, Some(CLUSTER_SCHEDULED), Missing, None, false)
  }

  function ReportedAt(at: Time): Instance {
    Instance(0, Some(RUNNING), At(at), None, false)
  }

  /** The jobs after `k` steps of the example: deploy 0, hear of 0, deploy 1, hear of 0 again. */
  function ExampleJobs(k: nat): seq<Job>
    requires k <= 4
  {
    if k == 0 then []
    else if k == 1 then [Job("j", "j", None, [Deployed(0).(appended := true)])]
    else if k == 2 then [Job("j", "j", Some(RUNNING), [ReportedAt(1.0)])]
    else [Job("j", "j", Some(RUNNING), [ReportedAt(if k == 3 then 1.0 else 3.0), Deployed(1).(appended := true)])]
  }

  function ExampleEvent(k: nat): Timed
    requires k < 4
  {
    if k == 0 then Timed(DeployRequest(0, Request(None, "j", None, [Deployed(0)]), "j"), 0.0)
    else if k == 2 then Timed(DeployRequest(1, Request(Some("j"), "j", None, [Deployed(1)]), ""), 2.0)
    else Timed(WorkerStatus(Service("j", 0, RUNNING)), if k == 1 then 1.0 else 3.0)
  }

  lemma {:induction false} ExampleReport(k: nat, t: Timeouts)
    requires k == 1 || k == 3
    ensures ReportService(ExampleJobs(k), ExampleEvent(k).event.service, ExampleEvent(k).at).0 == ExampleJobs(k + 1)
  {
    var jobs, at := ExampleJobs(k), ExampleEvent(k).at;
    assert IndexByName(jobs, "j") == 0 && IndexById(jobs, "j") == 0;
    var job := jobs[0];
    var next := JobAfterStatus(job, 0, RUNNING);
    if k == 1 {
      assert next == Job("j", "j", Some(RUNNING), [Instance(0, Some(RUNNING), Missing, None, false)]);
    } else {
      assert SetStatus(job.instances, 0, RUNNING) == job.instances;
      assert job.instances[1].status != Some(RUNNING);
      assert next == job;
    }
    assert UpdateStatus(jobs, "j", 0, RUNNING) == [next];
    assert IndexOfInstance(next.instances, 0) == 0;
    var patched := Patched(next.instances[0], Patch(None, None), at);
    assert next.instances[0 := patched] == ExampleJobs(k + 1)[0].instances;
    assert UpdateInstance([next], "j", 0, Patch(None, None), at).0 == ExampleJobs(k + 1);
  }

  lemma {:induction false} ExampleDeploy(k: nat)
    requires k == 0 || k == 2
    ensures var e := ExampleEvent(k).event;
            && GoodRequest(ExampleJobs(k), e.number, e.request, e.newId)
            && CreateNewJobInstance(ExampleJobs(k), e.number, e.request, e.newId).0 == ExampleJobs(k + 1)
  {
    if k == 0 {
      assert Appended([Deployed(0)]) == [Deployed(0).(appended := true)];
    } else {
      var jobs := ExampleJobs(2);
      assert IndexById(jobs, "j") == 0 && IndexOfInstance(jobs[0].instances, 1) == 1;
      assert jobs[0].instances + [Deployed(1).(appended := true)] == ExampleJobs(3)[0].instances;
    }
  }

  lemma {:induction false} ExampleStep(s: State, k: nat, t: Timeouts)
    requires k < 4 && s.jobs == ExampleJobs(k)
    ensures GoodEvent(s, ExampleEvent(k).event)
    ensures Handle(s, ExampleEvent(k).event, t, ExampleEvent(k).at).jobs == ExampleJobs(k + 1)
  {
    if k == 0 || k == 2 {
      ExampleDeploy(k);
    } else {
      ExampleReport(k, t);
    }
  }

  ghost predicate ExampleLeadsTo(run: seq<Timed>, k: nat, t: Timeouts)
    requires k <= 4
  {
    GoodRun(State([], []), run, t) && After(State([], []), run, t).jobs == ExampleJobs(k)
  }

  lemma {:induction false} ExampleMore(run: seq<Timed>, k: nat, t: Timeouts)
    requires k < 4 && ExampleLeadsTo(run, k, t)
    ensures ExampleLeadsTo(run + [ExampleEvent(k)], k + 1, t)
  {
    ExampleStep(After(State([], []), run, t), k, t);
    GoodThen(State([], []), run, ExampleEvent(k), t);
  }

  lemma {:induction false} GoodThen(s: State, run: seq<Timed>, e: Timed, t: Timeouts)
    requires GoodRun(s, run, t) && GoodEvent(After(s, run, t), e.event)
    ensures GoodRun(s, run + [e], t) && After(s, run + [e], t) == Handle(After(s, run, t), e.event, t, e.at)
  {
    var longer := run + [e];
    assert longer[..|run|] == run;
    forall k {:trigger longer[k]} | 0 <= k < |longer|
      ensures GoodEvent(After(s, longer[..k], t), longer[k].event)
    {
      if k < |run| {
        assert longer[..k] == run[..k] && longer[k] == run[k];
      }
    }
  }

  /**
   It has to be the job's status that is written: in this run the last report rewrites the job's document, at time 3, and the
   job stays RUNNING although it has an instance, appended before that, which does not run.
   */
  lemma {:induction false} DocumentWriteIsNotEnough(t: Timeouts) returns (run: seq<Timed>, last: Timed)
    ensures GoodRun(State([], []), run + [last], t) && last.event == WorkerStatus(Service("j", 0, RUNNING))
    ensures LifeOf(After(State([], []), run, t).jobs, "j", 1) == Life.Life(Some(CLUSTER_SCHEDULED), Missing)
    ensures var after := After(State([], []), run + [last], t).jobs;
            && LifeOf(after, "j", 0) == Life.Life(Some(RUNNING), At(last.at))
            && |after| == 1 && after[0].status == Some(RUNNING) && !AllRunning(after[0].instances)
  {
    run, last := [], ExampleEvent(3);
    for k := 0 to 3
      invariant ExampleLeadsTo(run, k, t)
    {
      ExampleMore(run, k, t);
      run := run + [ExampleEvent(k)];
    }
    ExampleMore(run, 3, t);
    assert IndexById(ExampleJobs(3), "j") == 0 && IndexById(ExampleJobs(4), "j") == 0;
    assert IndexOfInstance(ExampleJobs(3)[0].instances, 1) == 1 && IndexOfInstance(ExampleJobs(4)[0].instances, 0) == 0;
    assert ExampleJobs(4)[0].instances[1].status != Some(RUNNING);
  }

  // ---- What the timer leaves alone ----

  predicate IsTimerStep(e: Event) {
    e.Tick? || e.RedeployRoutine?
  }

  predicate TimerProof(l: Life) {
    l.Life? && (l.status == Some(COMPLETED) || l.status == Some(REQUESTED) || l.status == Some(CLUSTER_SCHEDULED))
  }

  lemma {:induction false} TickLeaves(s: State, queried: bool, t: Timeouts, now: Time, id: string, n: int)
    requires WellFormed(s.jobs) && 0.0 <= t.running && 0.0 <= t.nodeScheduled
    requires TimerProof(LifeOf(s.jobs, id, n))
    ensures LifeOf(Handle(s, Tick(queried), t, now).jobs, id, n) == LifeOf(s.jobs, id, n)
  {
    TickHandled(s, queried, t, now);
    LifeAfterTick(s.jobs, queried, t, now, id, n);
  }

  lemma {:induction false} TimerStepLeaves(s: State, e: Event, t: Timeouts, now: Time, id: string, n: int)
    requires WellFormed(s.jobs) && IsTimerStep(e) && 0.0 <= t.running && 0.0 <= t.nodeScheduled
    requires TimerProof(LifeOf(s.jobs, id, n))
    ensures LifeOf(Handle(s, e, t, now).jobs, id, n) == LifeOf(s.jobs, id, n)
  {
    if e.Tick? {
      TickLeaves(s, e.queried, t, now, id, n);
    } else {
      LifeAfterRedeploy(s.jobs, id, n);
    }
  }

  /** Ticks and redeployment routines alone never touch an instance that is completed, requested or waiting for a node. */
  lemma {:induction false} TimersLeave(s: State, run: seq<Timed>, t: Timeouts, id: string, n: int)
    requires WellFormed(s.jobs) && 0.0 <= t.running && 0.0 <= t.nodeScheduled
    requires forall k :: 0 <= k < |run| ==> IsTimerStep(run[k].event)
    requires TimerProof(LifeOf(s.jobs, id, n))
    ensures WellFormed(After(s, run, t).jobs) && LifeOf(After(s, run, t).jobs, id, n) == LifeOf(s.jobs, id, n)
  {
    if run != [] {
      var p, last := run[..|run| - 1], run[|run| - 1];
      TimersLeave(s, p, t, id, n);
      HandlerKeepsShape(After(s, p, t), last.event, t, last.at);
      TimerStepLeaves(After(s, p, t), last.event, t, last.at, id, n);
    }
  }

  // ---- When the timer marks ----

  /**
   The event neither deploys, nor deletes, nor places instance `n` of job `id`. A deploy request for another instance of the
   job leaves it if the job is stored under its id; otherwise it puts a new document in place of the job.
   */
  predicate Leaves(jobs: seq<Job>, e: Event, id: string, n: int) {
    match e
    case DeployRequest(number, request, newId) =>
      CreateNewJobInstance(jobs, number, request, newId).1 == Some(id) ==> IsStored(jobs, request) && number != n
    case DeleteRequest(id', number) => !(id' == id && (number == n || number == -1))
    case SchedulingResult(doc, _) => !(doc.job == id && doc.numbers != [] && doc.numbers[0] == n)
    case _ => true
  }

  /** The event is a report about instance `n` of job `id`. */
  predicate Addresses(jobs: seq<Job>, e: Event, id: string, n: int) {
    match e
    case WorkerStatus(service) => !service.status.Unrecognised? && IsAbout(jobs, service, id, n)
    case ResourceReport(_, services) => exists i :: 0 <= i < |services| && IsAbout(jobs, services[i], id, n)
    case _ => false
  }

  predicate SaysAlive(jobs: seq<Job>, services: seq<Service>, id: string, n: int) {
    forall i :: 0 <= i < |services| && IsAbout(jobs, services[i], id, n) ==>
      services[i].status == RUNNING || services[i].status == INSTANTIATION || services[i].status == CREATED
  }

  /** Whatever the event says about the instance is that it runs or is about to. */
  predicate Alive(jobs: seq<Job>, e: Event, id: string, n: int) {
    match e
    case WorkerStatus(service) => SaysAlive(jobs, [service], id, n)
    case ResourceReport(_, services) => SaysAlive(jobs, services, id, n)
    case _ => true
  }

  predicate LiveStatus(l: Life) {
    l.Life? && (l.status == Some(RUNNING) || l.status == Some(INSTANTIATION))
  }

  lemma {:induction false} ReportsOnLife(jobs: seq<Job>, l: Life, id: string, n: int, services: seq<Service>, now: Time)
    ensures var l' := LifeThroughReports(jobs, l, id, n, services, now);
            if exists i :: 0 <= i < |services| && IsAbout(jobs, services[i], id, n) then
              l.Life? ==> l'.Life? && l'.heard == At(now) && (LiveStatus(l) && SaysAlive(jobs, services, id, n) ==> LiveStatus(l'))
            else l' == l
    decreases services
  {
    if services != [] {
      var about := IsAbout(jobs, services[0], id, n);
      ReportsOnLife(jobs, if about then ReportedLife(l, services[0].status, now) else l, id, n, services[1..], now);
      if i :| 0 < i < |services| && IsAbout(jobs, services[i], id, n) {
        assert IsAbout(jobs, services[1..][i - 1], id, n);
      }
      if SaysAlive(jobs, services, id, n) {
        assert SaysAlive(jobs, services[1..], id, n);
      }
    }
  }

  /** What one event that leaves an instance alone makes of its life. */
  predicate LifeStep(jobs: seq<Job>, e: Event, t: Timeouts, now: Time, id: string, n: int, l: Life, l': Life) {
    if e.Tick? then
      l' == if Reached(jobs, e.queried, t, now, id, n) then MarkedLife(l, t, now) else l
    else if e.RedeployRoutine? then
      l' == l || (LifeTriggers(l) && l'.Life? && l'.status == Some(REQUESTED))
    else if Addresses(jobs, e, id, n) then
      l.Life? ==> l'.Life? && l'.heard == At(now) && (LiveStatus(l) && Alive(jobs, e, id, n) ==> LiveStatus(l'))
    else
      l' == l
  }

  lemma {:induction false} StatusOnLife(jobs: seq<Job>, service: Service, t: Timeouts, now: Time, id: string, n: int)
    requires !service.status.Unrecognised?
    ensures LifeStep(jobs, WorkerStatus(service), t, now, id, n,
                     LifeOf(jobs, id, n), LifeOf(ReportService(jobs, service, now).0, id, n))
  {
    LifeAfterReport(jobs, service, now);
    assert [service][0] == service;
  }

  lemma {:induction false} ReportOnLife(jobs: seq<Job>, worker: string, services: seq<Service>, t: Timeouts, now: Time, id: string, n: int)
    ensures LifeStep(jobs, ResourceReport(worker, services), t, now, id, n,
                     LifeOf(jobs, id, n), LifeOf(ReportServices(jobs, worker, services, now).0, id, n))
  {
    LifeAfterReports(jobs, worker, services, now, id, n);
    ReportsOnLife(jobs, LifeOf(jobs, id, n), id, n, services, now);
  }

  lemma {:induction false} TickOnLife(s: State, queried: bool, t: Timeouts, now: Time, id: string, n: int)
    requires WellFormed(s.jobs) && 0.0 <= t.running && 0.0 <= t.nodeScheduled
    ensures LifeStep(s.jobs, Tick(queried), t, now, id, n,
                     LifeOf(s.jobs, id, n), LifeOf(Handle(s, Tick(queried), t, now).jobs, id, n))
  {
    TickHandled(s, queried, t, now);
    LifeAfterTick(s.jobs, queried, t, now, id, n);
  }

  lemma {:induction false} RedeployOnLife(jobs: seq<Job>, t: Timeouts, now: Time, id: string, n: int)
    requires WellFormed(jobs)
    ensures LifeStep(jobs, RedeployRoutine, t, now, id, n, LifeOf(jobs, id, n), LifeOf(RedeployJobs(jobs, jobs).0, id, n))
  {
    LifeAfterRedeploy(jobs, id, n);
  }

  lemma {:induction false} PlacingOnLife(s: State, doc: DocId, node: string, now: Time, id: string, n: int)
    requires doc.numbers != [] && !(doc.job == id && doc.numbers[0] == n)
    ensures LifeOf(PlaceInstance(s, doc.job, doc.numbers[0], node, now).jobs, id, n) == LifeOf(s.jobs, id, n)
  {
    LifeAfterUpdateInstance(s.jobs, doc.job, doc.numbers[0], Patch(None, Some(node)), now);
    LifeAfterUpdateStatus(UpdateInstance(s.jobs, doc.job, doc.numbers[0], Patch(None, Some(node)), now).0, doc.job, doc.numbers[0],
                          NODE_SCHEDULED);
  }

  /** One event that leaves the instance alone, seen from it. */
  lemma {:induction false} EventOnLife(s: State, e: Event, t: Timeouts, now: Time, id: string, n: int)
    requires WellFormed(s.jobs) && GoodEvent(s, e) && 0.0 <= t.running && 0.0 <= t.nodeScheduled && Leaves(s.jobs, e, id, n)
    ensures LifeStep(s.jobs, e, t, now, id, n, LifeOf(s.jobs, id, n), LifeOf(Handle(s, e, t, now).jobs, id, n))
  {
    match e
    case DeployRequest(number, request, newId) => LifeAfterDeploy(s.jobs, number, request, newId);
    case DeleteRequest(id', number) => LifeAfterDelete(s.jobs, id', number, id, n);
    case SchedulingResult(doc, node) =>
      if doc.numbers != [] {
        PlacingOnLife(s, doc, node, now, id, n);
      }
    case WorkerStatus(service) =>
      if !service.status.Unrecognised? {
        StatusOnLife(s.jobs, service, t, now, id, n);
      }
    case ResourceReport(worker, services) => ReportOnLife(s.jobs, worker, services, t, now, id, n);
    case Tick(queried) => TickOnLife(s, queried, t, now, id, n);
    case RedeployRoutine => RedeployOnLife(s.jobs, t, now, id, n);
  }

  ghost predicate InOrder(run: seq<Timed>) {
    forall i, j :: 0 <= i < j < |run| ==> run[i].at <= run[j].at
  }

  /** The jobs before event `k` of a run. */
  function JobsAt(s: State, run: seq<Timed>, k: nat, t: Timeouts): seq<Job>
    requires k <= |run|
  {
    After(s, run[..k], t).jobs
  }

  predicate LeftAt(s: State, run: seq<Timed>, k: nat, t: Timeouts, id: string, n: int)
    requires k < |run|
  {
    Leaves(JobsAt(s, run, k, t), run[k].event, id, n)
  }

  predicate AddressedAt(s: State, run: seq<Timed>, k: nat, t: Timeouts, id: string, n: int)
    requires k < |run|
  {
    Addresses(JobsAt(s, run, k, t), run[k].event, id, n)
  }

  predicate AliveAt(s: State, run: seq<Timed>, k: nat, t: Timeouts, id: string, n: int)
    requires k < |run|
  {
    Alive(JobsAt(s, run, k, t), run[k].event, id, n)
  }

  /** A shorter run is the same as far as it goes. */
  lemma {:induction false} SameAt(s: State, run: seq<Timed>, k: nat, t: Timeouts)
    requires k < |run| - 1
    ensures run[..|run| - 1][k] == run[k] && JobsAt(s, run[..|run| - 1], k, t) == JobsAt(s, run, k, t)
  {
    assert run[..|run| - 1][..k] == run[..k];
  }

  /** At position `k` the instance was heard of at most `timeout` ago, by a report or when the run began. */
  ghost predicate HeardRecently(s: State, run: seq<Timed>, k: nat, t: Timeouts, id: string, n: int, start: Time)
    requires k < |run|
  {
    || run[k].at - start <= t.running
    || exists j :: 0 <= j < k && AddressedAt(s, run, j, t, id, n) && run[k].at - run[j].at <= t.running
  }

  /** The instance lives, and its time of last contact is not before that of any report about it. */
  ghost predicate LastHeard(s: State, run: seq<Timed>, t: Timeouts, l: Life, id: string, n: int, start: Time) {
    && LiveStatus(l) && l.heard.At? && l.heard.value >= start
    && forall j :: 0 <= j < |run| && AddressedAt(s, run, j, t, id, n) ==> l.heard.value >= run[j].at
  }

  /**
   In any run in time order that leaves it alone, an instance that runs or is being instantiated, whose reports say so
   and come in time for every tick, is never marked by the timer.
   */
  lemma {:induction false} ReportedInTimeStaysAlive(s: State, run: seq<Timed>, t: Timeouts, id: string, n: int, start: Time)
    requires WellFormed(s.jobs) && GoodRun(s, run, t) && 0.0 <= t.running && 0.0 <= t.nodeScheduled
    requires LiveStatus(LifeOf(s.jobs, id, n)) && LifeOf(s.jobs, id, n).heard == At(start)
    requires InOrder(run) && forall k :: 0 <= k < |run| ==> start <= run[k].at
    requires forall k :: 0 <= k < |run| ==> LeftAt(s, run, k, t, id, n) && AliveAt(s, run, k, t, id, n)
    requires forall k :: 0 <= k < |run| && run[k].event.Tick? ==> HeardRecently(s, run, k, t, id, n, start)
    ensures LastHeard(s, run, t, LifeOf(After(s, run, t).jobs, id, n), id, n, start)
  {
    if run != [] {
      var p, last := run[..|run| - 1], run[|run| - 1];
      GoodPrefix(s, run, t);
      RunsKeepShape(s, p, t);
      forall k | 0 <= k < |p|
        ensures p[k] == run[k] && LeftAt(s, p, k, t, id, n) && AliveAt(s, p, k, t, id, n)
      {
        SameAt(s, run, k, t);
        assert LeftAt(s, run, k, t, id, n) && AliveAt(s, run, k, t, id, n);
      }
      forall k | 0 <= k < |p| && p[k].event.Tick?
        ensures HeardRecently(s, p, k, t, id, n, start)
      {
        RecentInPrefix(s, run, k, t, id, n, start);
      }
      ReportedInTimeStaysAlive(s, p, t, id, n, start);
      var before := After(s, p, t);
      assert JobsAt(s, run, |run| - 1, t) == before.jobs;
      assert LeftAt(s, run, |run| - 1, t, id, n) && AliveAt(s, run, |run| - 1, t, id, n);
      EventOnLife(before, last.event, t, last.at, id, n);
      LastHeardStep(s, run, LifeOf(before.jobs, id, n), LifeOf(After(s, run, t).jobs, id, n), t, id, n, start);
    }
  }

  lemma {:induction false} RecentInPrefix(s: State, run: seq<Timed>, k: nat, t: Timeouts, id: string, n: int, start: Time)
    requires k < |run| - 1 && HeardRecently(s, run, k, t, id, n, start)
    ensures HeardRecently(s, run[..|run| - 1], k, t, id, n, start)
  {
    SameAt(s, run, k, t);
    if run[k].at - start > t.running {
      var j :| 0 <= j < k && AddressedAt(s, run, j, t, id, n) && run[k].at - run[j].at <= t.running;
      SameAt(s, run, j, t);
      assert AddressedAt(s, run[..|run| - 1], j, t, id, n);
    }
  }

  lemma {:induction false} LastHeardStep(s: State, run: seq<Timed>, l: Life, l': Life, t: Timeouts, id: string, n: int, start: Time)
    requires run != [] && InOrder(run) && start <= run[|run| - 1].at
    requires LastHeard(s, run[..|run| - 1], t, l, id, n, start)
    requires AliveAt(s, run, |run| - 1, t, id, n)
    requires run[|run| - 1].event.Tick? ==> HeardRecently(s, run, |run| - 1, t, id, n, start)
    requires LifeStep(JobsAt(s, run, |run| - 1, t), run[|run| - 1].event, t, run[|run| - 1].at, id, n, l, l')
    ensures LastHeard(s, run, t, l', id, n, start)
  {
    var p, last := run[..|run| - 1], run[|run| - 1];
    forall j | 0 <= j < |run| - 1 && AddressedAt(s, run, j, t, id, n)
      ensures l.heard.value >= run[j].at
    {
      SameAt(s, run, j, t);
      assert AddressedAt(s, p, j, t, id, n);
    }
    if last.event.Tick? {
      assert last.at - l.heard.value <= t.running;
      assert MarkedLife(l, t, last.at) == l;
    }
  }

  /** Tick `k` comes more than the timeout after the instance was heard of, and reaches it. */
  predicate LateTick(s: State, run: seq<Timed>, k: int, t: Timeouts, id: string, n: int, heard: Time) {
    && 0 <= k < |run| && run[k].event.Tick? && run[k].at - heard > t.running
    && Reached(JobsAt(s, run, k, t), run[k].event.queried, t, run[k].at, id, n)
  }

  /**
   In any run that leaves it alone and brings no report about it, an instance that runs or is being instantiated stays
   exactly as it is until a tick reaches it more than the timeout after it was last heard of; that tick marks it as failed,
   and from then on it is failed or requested again.
   */
  lemma {:induction false} SilentIsMarkedIffLate(s: State, run: seq<Timed>, t: Timeouts, id: string, n: int, heard: Time)
    requires WellFormed(s.jobs) && GoodRun(s, run, t) && 0.0 <= t.running && 0.0 <= t.nodeScheduled
    requires LiveStatus(LifeOf(s.jobs, id, n)) && LifeOf(s.jobs, id, n).heard == At(heard)
    requires forall k :: 0 <= k < |run| ==> LeftAt(s, run, k, t, id, n) && !AddressedAt(s, run, k, t, id, n)
    ensures var l := LifeOf(After(s, run, t).jobs, id, n);
            if exists k :: LateTick(s, run, k, t, id, n, heard) then
              l.Life? && (l.status == Some(FAILED) || l.status == Some(REQUESTED))
            else l == LifeOf(s.jobs, id, n)
  {
    if run != [] {
      var p, last := run[..|run| - 1], run[|run| - 1];
      GoodPrefix(s, run, t);
      RunsKeepShape(s, p, t);
      forall k | 0 <= k < |p|
        ensures LeftAt(s, p, k, t, id, n) && !AddressedAt(s, p, k, t, id, n)
      {
        SameAt(s, run, k, t);
        assert LeftAt(s, run, k, t, id, n) && !AddressedAt(s, run, k, t, id, n);
      }
      SilentIsMarkedIffLate(s, p, t, id, n, heard);
      var before := After(s, p, t);
      assert JobsAt(s, run, |run| - 1, t) == before.jobs;
      assert LeftAt(s, run, |run| - 1, t, id, n) && !AddressedAt(s, run, |run| - 1, t, id, n);
      EventOnLife(before, last.event, t, last.at, id, n);
      SilentStep(before.jobs, LifeOf(before.jobs, id, n), LifeOf(After(s, run, t).jobs, id, n), last.event, t, last.at, id, n, heard);
      LateTickIn(s, run, p, t, id, n, heard);
    }
  }

  /** Unaddressed, a live instance falls to a late tick only, and one that has fallen does not come back. */
  lemma {:induction false} SilentStep(jobs: seq<Job>, l: Life, l': Life, e: Event, t: Timeouts, now: Time, id: string, n: int, heard: Time)
    requires LifeStep(jobs, e, t, now, id, n, l, l') && !Addresses(jobs, e, id, n)
    ensures LiveStatus(l) && l.heard == At(heard) ==>
              if e.Tick? && now - heard > t.running && Reached(jobs, e.queried, t, now, id, n) then l'.Life? && l'.status == Some(FAILED)
              else l' == l
    ensures l.Life? && (l.status == Some(FAILED) || l.status == Some(REQUESTED)) ==>
              l'.Life? && (l'.status == Some(FAILED) || l'.status == Some(REQUESTED))
  {
  }

  lemma {:induction false} LateTickIn(s: State, run: seq<Timed>, p: seq<Timed>, t: Timeouts, id: string, n: int, heard: Time)
    requires run != [] && p == run[..|run| - 1]
    ensures (exists k :: LateTick(s, run, k, t, id, n, heard)) <==>
            (exists k :: LateTick(s, p, k, t, id, n, heard)) || LateTick(s, run, |run| - 1, t, id, n, heard)
  {
    if k :| LateTick(s, p, k, t, id, n, heard) {
      SameAt(s, run, k, t);
      assert LateTick(s, run, k, t, id, n, heard);
    }
    if k :| LateTick(s, run, k, t, id, n, heard) && k != |run| - 1 {
      SameAt(s, run, k, t);
      assert LateTick(s, p, k, t, id, n, heard);
    }
  }

  // ---- When every tick reaches everything ----

  /** No report brings a status the cluster does not know, and no job has two instances to redeploy. */
  predicate IsClear(jobs: seq<Job>, e: Event) {
    && (e.ResourceReport? ==> forall i :: 0 <= i < |e.services| ==> !e.services[i].status.Unrecognised?)
    && (e.RedeployRoutine? ==> forall k :: 0 <= k < |jobs| ==> |ToRedeploy(jobs[k].instances)| <= 1)
  }

  lemma {:induction false} CleanAfterUpdateStatus(jobs: seq<Job>, id: string, number: int, s: Status)
    requires CleanJobs(jobs) && !s.Unrecognised?
    ensures CleanJobs(UpdateStatus(jobs, id, number, s))
  {
    var k := IndexById(jobs, id);
    if k < |jobs| {
      assert Clean(JobAfterStatus(jobs[k], number, s).instances);
    }
  }

  lemma {:induction false} CleanAfterReport(jobs: seq<Job>, s: Service, now: Time)
    requires CleanJobs(jobs) && !s.status.Unrecognised?
    ensures CleanJobs(ReportService(jobs, s, now).0)
  {
    var k := IndexByName(jobs, s.jobName);
    if k < |jobs| {
      CleanAfterUpdateStatus(jobs, jobs[k].id, s.number, s.status);
    }
  }

  lemma {:induction false} CleanAfterReports(jobs: seq<Job>, worker: string, services: seq<Service>, now: Time)
    requires CleanJobs(jobs) && forall i :: 0 <= i < |services| ==> !services[i].status.Unrecognised?
    ensures CleanJobs(ReportServices(jobs, worker, services, now).0)
    decreases services
  {
    if services != [] {
      CleanAfterReport(jobs, services[0], now);
      CleanAfterReports(ReportService(jobs, services[0], now).0, worker, services[1..], now);
    }
  }

  lemma {:induction false} CleanAfterTick(jobs: seq<Job>, queried: bool, t: Timeouts, now: Time)
    requires CleanJobs(jobs)
    ensures CleanJobs(MarkedJobs(jobs, queried, t, now))
  {
    forall k | 0 <= k < |jobs|
      ensures Clean(MarkedJobs(jobs, queried, t, now)[k].instances)
    {
      var marked := MarkedInstances(jobs[k].instances, t, now);
      assert forall i :: 0 <= i < |marked| ==> Readable(marked[i]);
    }
  }

  lemma {:induction false} CleanAfterErase(jobs: seq<Job>, job: Job, rest: seq<Instance>, number: int)
    requires CleanJobs(jobs)
    ensures CleanJobs(DeleteInstances(jobs, job, rest, number, true).jobs)
    decreases rest
  {
    if rest != [] {
      var k := IndexById(jobs, job.id);
      if k < |jobs| {
        CleanAfterPull(jobs[k].instances, rest[0].number);
      }
      CleanAfterErase(if IsDeleted(rest[0], number) then PullInstance(jobs, job.id, rest[0].number) else jobs,
                      job, rest[1..], number);
    }
  }

  lemma {:induction false} CleanAfterPull(instances: seq<Instance>, number: int)
    requires Clean(instances)
    ensures Clean(WithoutNumber(instances, number))
  {
    var rest := WithoutNumber(instances, number);
    assert forall i :: 0 <= i < |rest| ==> rest[i] in instances;
  }

  lemma {:induction false} CleanAfterRedeploy(jobs: seq<Job>, rest: seq<Job>)
    requires CleanJobs(jobs) && forall k :: 0 <= k < |rest| ==> |ToRedeploy(rest[k].instances)| <= 1
    ensures CleanJobs(RedeployJobs(jobs, rest).0)
    decreases rest
  {
    if rest != [] {
      var x := rest[0];
      var numbers := ToRedeploy(x.instances);
      LoopIsEach(jobs, DocId(x.id, []), x.instances);
      if numbers != [] {
        assert numbers[1..] == [];
        var k := IndexById(jobs, x.id);
        if k < |jobs| {
          NotErased(jobs, jobs[k], jobs[k].instances, numbers[0]);
          CleanAfterUpdateStatus(jobs, x.id, numbers[0], REQUESTED);
        }
      }
      CleanAfterRedeploy(RedeployInstances(jobs, DocId(x.id, []), x.instances).0.jobs, rest[1..]);
    }
  }

  lemma {:induction false} CleanAfterDeploy(jobs: seq<Job>, number: int, r: Request, newId: string)
    requires CleanJobs(jobs) && GoodRequest(jobs, number, r, newId)
    ensures CleanJobs(CreateNewJobInstance(jobs, number, r, newId).0)
  {
    assert r.instances[|r.instances| - 1] == r.instances[0];
  }

  lemma {:induction false} StaysClean(s: State, e: Event, t: Timeouts, now: Time)
    requires WellFormed(s.jobs) && CleanJobs(s.jobs) && GoodEvent(s, e) && IsClear(s.jobs, e)
    ensures CleanJobs(Handle(s, e, t, now).jobs)
  {
    match e
    case DeployRequest(number, r, newId) => CleanAfterDeploy(s.jobs, number, r, newId);
    case DeleteRequest(id, number) =>
      var k := IndexById(s.jobs, id);
      if k < |s.jobs| {
        CleanAfterErase(s.jobs, s.jobs[k], s.jobs[k].instances, number);
      }
    case SchedulingResult(doc, node) =>
      if doc.numbers != [] {
        var next := UpdateInstance(s.jobs, doc.job, doc.numbers[0], Patch(None, Some(node)), now).0;
        CleanAfterUpdateStatus(next, doc.job, doc.numbers[0], NODE_SCHEDULED);
      }
    case WorkerStatus(service) =>
      if !service.status.Unrecognised? {
        CleanAfterReport(s.jobs, service, now);
      }
    case ResourceReport(worker, services) => CleanAfterReports(s.jobs, worker, services, now);
    case Tick(queried) =>
      TickHandled(s, queried, t, now);
      CleanAfterTick(s.jobs, queried, t, now);
    case RedeployRoutine => CleanAfterRedeploy(s.jobs, s.jobs);
  }

  predicate ClearAt(s: State, run: seq<Timed>, k: nat, t: Timeouts)
    requires k < |run|
  {
    IsClear(JobsAt(s, run, k, t), run[k].event)
  }

  /** A tick at the end of any clear run from a clean store, say the empty one, reaches every instance. */
  lemma {:induction false} ClearRunsAreReached(s: State, run: seq<Timed>, t: Timeouts)
    requires WellFormed(s.jobs) && CleanJobs(s.jobs) && GoodRun(s, run, t)
    requires forall k :: 0 <= k < |run| ==> ClearAt(s, run, k, t)
    ensures CleanJobs(After(s, run, t).jobs)
    ensures forall queried, now, id, n :: Reached(After(s, run, t).jobs, queried, t, now, id, n)
  {
    if run != [] {
      var p, last := run[..|run| - 1], run[|run| - 1];
      GoodPrefix(s, run, t);
      RunsKeepShape(s, p, t);
      forall k | 0 <= k < |p|
        ensures ClearAt(s, p, k, t)
      {
        SameAt(s, run, k, t);
        assert ClearAt(s, run, k, t);
      }
      ClearRunsAreReached(s, p, t);
      assert ClearAt(s, run, |run| - 1, t);
      StaysClean(After(s, p, t), last.event, t, last.at);
    }
    forall queried, now, id, n
      ensures Reached(After(s, run, t).jobs, queried, t, now, id, n)
    {
      CleanIsReached(After(s, run, t).jobs, queried, t, now, id, n);
    }
  }
}
