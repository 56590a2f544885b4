/**
 The job documents of a cluster and what each handler of the cluster manager makes of them.
 A handler is one step; reads and writes of the store inside it are its calls below.
 */
module ClusterJobs {
  import opened Wrappers

  type Time = real

  datatype Status =
    // positive scheduling statuses
    | REQUESTED | CLUSTER_SCHEDULED | NODE_SCHEDULED | INSTANTIATION
    // negative scheduling statuses
    | TARGET_CLUSTER_NOT_FOUND | TARGET_CLUSTER_NOT_ACTIVE | TARGET_CLUSTER_NO_CAPACITY
    | NO_ACTIVE_CLUSTER_WITH_CAPACITY | NO_WORKER_CAPACITY | NO_QUALIFIED_WORKER_FOUND | NO_NODE_FOUND
    // deployment statuses
    | CREATING | CREATED | RUNNING | FAILED | DEAD | COMPLETED | UNDEPLOYED | UNKNOWN
    | LEGACY_0 | LEGACY_1
    // any other text, on which the conversion to a status raises
    | Unrecognised(text: string)

  /** A timestamp field: left out, null, or a time. */
  datatype Stamp = Missing | Null | At(value: Time)

  /**
   One entry of a job's instance list; `heard` is its last_modified_timestamp. `appended` is bookkeeping: whether
   it was added after the job's own status was last written.
   */
  datatype Instance = Instance(number: int, status: Option<Status>, heard: Stamp, worker: Option<string>, appended: bool)

  datatype Job = Job(id: string, name: string, status: Option<Status>, instances: seq<Instance>)

  /** The id of a job document, as text: the job's own id, and behind it a slash and a number for each request made with it. */
  datatype DocId = DocId(job: string, numbers: seq<int>)

  /** What the cluster manager sends out. A request for a node is answered under the id it carries. */
  datatype Command =
    | Undeploy(worker: string, jobName: string, number: int)
    | Deploy(node: string, jobId: string, number: int)
    | Schedule(doc: DocId)

  datatype Timeouts = Timeouts(running: Time, nodeScheduled: Time)

  // ---- The store ----

  function IndexById(jobs: seq<Job>, id: string): (k: nat)
    ensures k <= |jobs| && (k < |jobs| ==> jobs[k].id == id)
    ensures forall i :: 0 <= i < k ==> jobs[i].id != id
  {
    if jobs == [] || jobs[0].id == id then 0 else 1 + IndexById(jobs[1..], id)
  }

  function IndexByName(jobs: seq<Job>, name: string): (k: nat)
    ensures k <= |jobs| && (k < |jobs| ==> jobs[k].name == name)
    ensures forall i :: 0 <= i < k ==> jobs[i].name != name
  {
    if jobs == [] || jobs[0].name == name then 0 else 1 + IndexByName(jobs[1..], name)
  }

  function IndexOfInstance(instances: seq<Instance>, number: int): (k: nat)
    ensures k <= |instances| && (k < |instances| ==> instances[k].number == number)
    ensures forall i :: 0 <= i < k ==> instances[i].number != number
  {
    if instances == [] || instances[0].number == number then 0 else 1 + IndexOfInstance(instances[1..], number)
  }

  /** Writing a job's own status ends the exemption of the instances appended so far. */
  function WithStatus(job: Job, status: Status): Job {
    job.(status := Some(status), instances := Settled(job.instances))
  }

  function Settled(instances: seq<Instance>): (r: seq<Instance>)
    ensures |r| == |instances|
    ensures forall i :: 0 <= i < |r| ==> r[i] == instances[i].(appended := false)
  {
    seq(|instances|, i requires 0 <= i < |instances| => instances[i].(appended := false))
  }

  // ---- update_status ----

  function SetStatus(instances: seq<Instance>, number: int, status: Status): (r: seq<Instance>)
    ensures |r| == |instances|
    ensures forall i :: 0 <= i < |r| ==>
              r[i] == if instances[i].number == number then instances[i].(status := Some(status)) else instances[i]
  {
    seq(|instances|, i requires 0 <= i < |instances| =>
      if instances[i].number == number then instances[i].(status := Some(status)) else instances[i])
  }

  predicate AllRunning(instances: seq<Instance>) {
    forall i :: 0 <= i < |instances| ==> instances[i].status == Some(RUNNING)
  }

  function JobAfterStatus(job: Job, number: int, status: Status): Job {
    var j := job.(instances := SetStatus(job.instances, number, status));
    if status != RUNNING || AllRunning(j.instances) then WithStatus(j, status) else j
  }

  function UpdateStatus(jobs: seq<Job>, id: string, number: int, status: Status): seq<Job> {
    var k := IndexById(jobs, id);
    if status == CREATED || k == |jobs| then jobs else jobs[k := JobAfterStatus(jobs[k], number, status)]
  }

  // ---- update_instance ----

  /** The fields a caller passes; None leaves a field as it is. */
  datatype Patch = Patch(status: Option<Status>, worker: Option<string>)

  function Patched(i: Instance, p: Patch, now: Time): Instance {
    i.(status := if p.status.Some? then p.status else i.status,
    worker := if p.worker.Some? then p.worker else i.worker, heard := At(now))
  }

  /** The first instance with that number is patched; whether there is one is the caller's result. */
  function UpdateInstance(jobs: seq<Job>, id: string, number: int, p: Patch, now: Time): (seq<Job>, bool) {
    var k := IndexById(jobs, id);
    if k == |jobs| then
      (jobs, false)
    else
      var m := IndexOfInstance(jobs[k].instances, number);
      if m == |jobs[k].instances| then
        (jobs, false)
      else
        var instances := jobs[k].instances[m := Patched(jobs[k].instances[m], p, now)];
        (jobs[k := jobs[k].(instances := instances)], true)
  }

  // ---- mark_inactive_as_failed ----

  predicate StatusKnown(i: Instance) {
    !(i.status.Some? && i.status.value.Unrecognised?)
  }

  /** The timer can judge it: converting its status does not raise, nor does comparing its timestamp. */
  predicate Readable(i: Instance) {
    StatusKnown(i) && i.heard != Null
  }

  predicate IsPositive(s: Status) {
    s == REQUESTED || s == CLUSTER_SCHEDULED || s == NODE_SCHEDULED || s == INSTANTIATION
  }

  predicate StaleStatus(status: Option<Status>, heard: Stamp, t: Timeouts, now: Time) {
    var s := if status.Some? then status.value else LEGACY_0;
    var timestamp := if heard.At? then heard.value else now;
    || (s == NODE_SCHEDULED && timestamp < now - t.nodeScheduled)
    || (s == INSTANTIATION && timestamp < now - t.running)
    || (timestamp < now - t.running && !IsPositive(s) && s != COMPLETED)
  }

  predicate Stale(i: Instance, t: Timeouts, now: Time) {
    StaleStatus(i.status, i.heard, t, now)
  }

  /** The query in front of the loop: some timestamp is older than the broadest cutoff. */
  predicate Fetched(job: Job, t: Timeouts, now: Time) {
    var cutoff := if now - t.running > now - t.nodeScheduled then now - t.running else now - t.nodeScheduled;
    exists i :: 0 <= i < |job.instances| && job.instances[i].heard.At? && job.instances[i].heard.value < cutoff
  }

  const MARK := Patch(Some(FAILED), None)

  datatype MarkResult = MarkResult(jobs: seq<Job>, failed: seq<int>, completed: bool)

  /** The inner loop over the fetched instances; it writes to the store and ends early where an instance makes it raise. */
  function MarkInstances(jobs: seq<Job>, id: string, rest: seq<Instance>, t: Timeouts, now: Time): MarkResult
    decreases rest
  {
    if rest == [] then
      MarkResult(jobs, [], true)
    else if !Readable(rest[0]) then
      MarkResult(jobs, [], false)
    else if Stale(rest[0], t, now) then
      var r := MarkInstances(UpdateInstance(jobs, id, rest[0].number, MARK, now).0, id, rest[1..], t, now);
      r.(failed := [rest[0].number] + r.failed)
    else
      MarkInstances(jobs, id, rest[1..], t, now)
  }

  function FailJob(jobs: seq<Job>, id: string): seq<Job> {
    var k := IndexById(jobs, id);
    if k == |jobs| then jobs else jobs[k := WithStatus(jobs[k], FAILED)]
  }

  /** The outer loop over the fetched jobs. */
  function MarkJobs(jobs: seq<Job>, rest: seq<Job>, t: Timeouts, now: Time): (seq<Job>, bool)
    decreases rest
  {
    if rest == [] then
      (jobs, true)
    else
      var r := MarkInstances(jobs, rest[0].id, rest[0].instances, t, now);
      if !r.completed then
        (r.jobs, false)
      else
        MarkJobs(if r.failed != [] then FailJob(r.jobs, rest[0].id) else r.jobs, rest[1..], t, now)
  }

  /** The jobs that the query selects; a store that ignores the query returns all of them. */
  function FetchedJobs(jobs: seq<Job>, queried: bool, t: Timeouts, now: Time): seq<Job> {
    if jobs == [] then
      []
    else
      (if !queried || Fetched(jobs[0], t, now) then [jobs[0]] else []) + FetchedJobs(jobs[1..], queried, t, now)
  }

  // ---- deploy, delete, redeploy ----

  function Appended(instances: seq<Instance>): seq<Instance> {
    seq(|instances|, i requires 0 <= i < |instances| => instances[i].(appended := true))
  }

  /** The request of the root: a job document, without an id if it was never stored. */
  datatype Request = Request(id: Option<string>, name: string, status: Option<Status>, instances: seq<Instance>)

  /** A job that is not stored yet replaces the one of the same name, or is inserted. */
  function CreateJob(jobs: seq<Job>, r: Request, newId: string): (seq<Job>, Option<string>) {
    var k := IndexByName(jobs, r.name);
    if k < |jobs| then
      var status := if r.status.Some? then r.status else jobs[k].status;
      (jobs[k := jobs[k].(status := status, instances := Appended(r.instances))], Some(jobs[k].id))
    else
      var id := if r.id.Some? then r.id.value else newId;
      (jobs + [Job(id, r.name, r.status, Appended(r.instances))], Some(id))
  }

  /** Pushes the request's last instance, unless the number asked for is there already or the request has none. */
  function AppendInstance(jobs: seq<Job>, k: nat, number: int, r: Request): (seq<Job>, Option<string>)
    requires k < |jobs|
  {
    if IndexOfInstance(jobs[k].instances, number) < |jobs[k].instances| || r.instances == [] then
      (jobs, None)
    else
      var i := r.instances[|r.instances| - 1].(appended := true);
      (jobs[k := jobs[k].(instances := jobs[k].instances + [i])], Some(jobs[k].id))
  }

  /** The store after a deploy request and the id of the job to schedule, None if the request is turned down. */
  function CreateNewJobInstance(jobs: seq<Job>, number: int, r: Request, newId: string): (seq<Job>, Option<string>) {
    if r.id.None? || IndexById(jobs, r.id.value) == |jobs| then
      CreateJob(jobs, r, newId)
    else
      AppendInstance(jobs, IndexById(jobs, r.id.value), number, r)
  }

  function WithoutNumber(instances: seq<Instance>, number: int): (r: seq<Instance>)
    ensures forall i :: i in r <==> i in instances && i.number != number
    ensures |r| <= |instances|
  {
    if instances == [] then
      []
    else
      (if instances[0].number == number then [] else [instances[0]]) + WithoutNumber(instances[1..], number)
  }

  function PullInstance(jobs: seq<Job>, id: string, number: int): seq<Job> {
    var k := IndexById(jobs, id);
    if k == |jobs| then jobs else jobs[k := jobs[k].(instances := WithoutNumber(jobs[k].instances, number))]
  }

  function RemoveJob(jobs: seq<Job>, id: string): seq<Job> {
    var k := IndexById(jobs, id);
    if k == |jobs| then jobs else jobs[..k] + jobs[k + 1..]
  }

  predicate IsDeleted(i: Instance, number: int) {
    i.number == number || number == -1
  }

  /** The loop over the fetched instances of a job to delete. */
  datatype DeleteResult = DeleteResult(jobs: seq<Job>, outbox: seq<Command>, deleted: nat)

  function DeleteInstances(jobs: seq<Job>, job: Job, rest: seq<Instance>, number: int, erase: bool): DeleteResult
    decreases rest
  {
    if rest == [] then
      DeleteResult(jobs, [], 0)
    else if !IsDeleted(rest[0], number) then
      DeleteInstances(jobs, job, rest[1..], number, erase)
    else
      var sent := if rest[0].worker.Some? then [Undeploy(rest[0].worker.value, job.name, rest[0].number)] else [];
      var next := if erase then PullInstance(jobs, job.id, rest[0].number) else jobs;
      var r := DeleteInstances(next, job, rest[1..], number, erase);
      DeleteResult(r.jobs, sent + r.outbox, r.deleted + 1)
  }

  function DeleteJobInstance(jobs: seq<Job>, id: string, number: int, erase: bool): (seq<Job>, seq<Command>) {
    var k := IndexById(jobs, id);
    if k == |jobs| then
      (jobs, [])
    else
      var r := DeleteInstances(jobs, jobs[k], jobs[k].instances, number, erase);
      (if erase && |jobs[k].instances| <= r.deleted then RemoveJob(r.jobs, id) else r.jobs, r.outbox)
  }

  /** What the store has under the address of an instance: its entry, or entries, alone. */
  function WithNumber(instances: seq<Instance>, number: int): seq<Instance> {
    if instances == [] then []
    else (if instances[0].number == number then [instances[0]] else []) + WithNumber(instances[1..], number)
  }

  /** A job document written to the address of an instance: the instance gets the job's status, and its other fields null. */
  function Overwrite(jobs: seq<Job>, id: string, number: int, status: Status): seq<Job> {
    var k := IndexById(jobs, id);
    if k == |jobs| then
      jobs
    else
      var m := IndexOfInstance(jobs[k].instances, number);
      if m == |jobs[k].instances| then
        jobs
      else
        var i := jobs[k].instances[m].(status := Some(status), heard := Null, worker := None);
        jobs[k := jobs[k].(instances := jobs[k].instances[m := i])]
  }

  datatype Redeployed = Redeployed(jobs: seq<Job>, outbox: seq<Command>, doc: DocId)

  /** The request for a node puts a slash and the number behind the id of the document it is made with. */
  function Extended(doc: DocId, number: int): DocId {
    doc.(numbers := doc.numbers + [number])
  }

  /**
   Undeploys an instance without erasing it and requests it again, by way of the fetched document, which all the instances
   of its job share. With one number behind the id, the store takes the calls for calls about that instance; with more,
   it does not know the address, and the deletion raises.
   */
  function UndeployAndRedeploy(jobs: seq<Job>, doc: DocId, number: int): Redeployed {
    var k, next := IndexById(jobs, doc.job), Extended(doc, number);
    if k == |jobs| || |doc.numbers| > 1 then
      Redeployed(jobs, [], doc)
    else if doc.numbers == [] then
      var (after, sent) := DeleteJobInstance(jobs, doc.job, number, false);
      Redeployed(UpdateStatus(after, doc.job, number, REQUESTED), sent + [Schedule(next)], next)
    else
      var found := WithNumber(jobs[k].instances, doc.numbers[0]);
      if found == [] then
        Redeployed(jobs, [], doc)
      else
        var sent := DeleteInstances(jobs, jobs[k], found, number, false).outbox;
        Redeployed(Overwrite(jobs, doc.job, doc.numbers[0], REQUESTED), sent + [Schedule(next)], next)
  }

  predicate TriggersRedeploy(i: Instance) {
    i.status == Some(FAILED) || i.status == Some(DEAD) || i.status == Some(NO_WORKER_CAPACITY)
  }

  /** The inner loop; the flag says whether it came to its end without a status that raises. */
  function RedeployInstances(jobs: seq<Job>, doc: DocId, rest: seq<Instance>): (Redeployed, bool)
    decreases rest
  {
    if rest == [] then
      (Redeployed(jobs, [], doc), true)
    else if !StatusKnown(rest[0]) then
      (Redeployed(jobs, [], doc), false)
    else if TriggersRedeploy(rest[0]) then
      var r := UndeployAndRedeploy(jobs, doc, rest[0].number);
      var later := RedeployInstances(r.jobs, r.doc, rest[1..]);
      (later.0.(outbox := r.outbox + later.0.outbox), later.1)
    else
      RedeployInstances(jobs, doc, rest[1..])
  }

  function RedeployJobs(jobs: seq<Job>, rest: seq<Job>): (seq<Job>, seq<Command>)
    decreases rest
  {
    if rest == [] then
      (jobs, [])
    else
      var (r, completed) := RedeployInstances(jobs, DocId(rest[0].id, []), rest[0].instances);
      if !completed then
        (r.jobs, r.outbox)
      else
        var later := RedeployJobs(r.jobs, rest[1..]);
        (later.0, r.outbox + later.1)
  }

  // ---- Reports ----

  /** One service of a worker's resource report. */
  datatype Service = Service(jobName: string, number: int, status: Status)

  function ReportService(jobs: seq<Job>, s: Service, now: Time): (seq<Job>, bool) {
    var k := IndexByName(jobs, s.jobName);
    if k == |jobs| then
      (jobs, false)
    else
      UpdateInstance(UpdateStatus(jobs, jobs[k].id, s.number, s.status), jobs[k].id, s.number, Patch(None, None), now)
  }

  function ReportServices(jobs: seq<Job>, worker: string, services: seq<Service>, now: Time): (seq<Job>, seq<Command>)
    decreases services
  {
    if services == [] then
      (jobs, [])
    else
      var (next, known) := ReportService(jobs, services[0], now);
      var r := ReportServices(next, worker, services[1..], now);
      (r.0, (if known then [] else [Undeploy(worker, services[0].jobName, services[0].number)]) + r.1)
  }

  // ---- All handlers ----

  datatype Event =
    | DeployRequest(number: int, request: Request, newId: string)
    | DeleteRequest(id: string, number: int)
    | SchedulingResult(doc: DocId, node: string)
    | WorkerStatus(service: Service)
    | ResourceReport(worker: string, services: seq<Service>)
    | Tick(queried: bool)
    | RedeployRoutine

  datatype State = State(jobs: seq<Job>, outbox: seq<Command>)

  function PlaceInstance(s: State, id: string, number: int, node: string, now: Time): State {
    var jobs := UpdateInstance(s.jobs, id, number, Patch(None, Some(node)), now).0;
    var after := UpdateStatus(jobs, id, number, NODE_SCHEDULED);
    State(after, s.outbox + if IndexById(after, id) < |after| then [Deploy(node, id, number)] else [])
  }

  function Handle(s: State, e: Event, t: Timeouts, now: Time): State {
    match e
    case DeployRequest(number, request, newId) =>
      var (jobs, id) := CreateNewJobInstance(s.jobs, number, request, newId);
      State(jobs, s.outbox + if id.Some? then [Schedule(DocId(id.value, [number]))] else [])
    case DeleteRequest(id, number) =>
      var (jobs, sent) := DeleteJobInstance(s.jobs, id, number, true);
      State(jobs, s.outbox + sent)
    case SchedulingResult(doc, node) =>
      // the answer's id is split at its slashes: the first number counts, and without one the handler raises
      if doc.numbers == [] then s else PlaceInstance(s, doc.job, doc.numbers[0], node, now)
    case WorkerStatus(service) =>
      // the conversion of an unknown status raises before anything is written
      if service.status.Unrecognised? then s else State(ReportService(s.jobs, service, now).0, s.outbox)
    case ResourceReport(worker, services) =>
      var (jobs, sent) := ReportServices(s.jobs, worker, services, now);
      State(jobs, s.outbox + sent)
    case Tick(queried) =>
      State(MarkJobs(s.jobs, FetchedJobs(s.jobs, queried, t, now), t, now).0, s.outbox)
    case RedeployRoutine =>
      var (jobs, sent) := RedeployJobs(s.jobs, s.jobs);
      State(jobs, s.outbox + sent)
  }
}
