# Oakestra: verified models

Dafny models of the parts of Oakestra whose correctness is hardest to see by reading: the life of a crosvm
instance under concurrency, its log buffer, the cluster's job documents, resource aggregation and scheduling, two
bounded-retry services, and a few functions that must keep structure. `dafny verify dfyconfig.toml` checks
everything.

## Files

- `Wrappers.dfy`: optional values.
- `TailBuffer.dfy`, `Utf8.dfy`: the circular buffer that keeps the end of a VM's output, as a class over an array,
  specified by the unbounded history of what was written; RFC 3629 (section 4) streams read through it.
- `InstanceProtocol.dfy`: the crosvm instance as a state machine. A step is one critical section that does not block,
  or one step between two points at which another goroutine can get in. Runs are numbered by the start counter.
  Senders of channel messages and the histories `claims`, `notices` and `restarts` are bookkeeping.
- `InstanceRuntime.dfy`: the `Instance` class. Its methods are the Go methods; at every point where another goroutine
  can get in, `OthersRun` allows any interleaving of the protocol, and each method is proved against that.
- `ClusterJobs.dfy`: job documents, store operations and handlers as functions; `ClusterManager.dfy`: the same
  handlers as loops that write to the store, proved equal to them. `ClusterLife.dfy`, `ClusterMarking.dfy`,
  `ClusterRuns.dfy`, `ClusterPlacement.dfy`, `ClusterSafety.dfy`: what the handlers do to one instance, to a job's own
  status and to the workers, and what every run keeps.
- `Aggregation.dfy`, `Scheduling.dfy`: the aggregation loops with their global counters, over the reals, and the
  scheduler's best fit, joined by the theorem that a summary hides no capable worker.
- `CopyDir.dfy`: recursive copy on a tree of paths, in which any operation can fail.
- `AddonsMonitor.dfy`, `MountTracker.dfy`: the bounded-retry services, as state machines and as classes; what the
  container runtime, the addons manager and the kernel answer are parameters of their methods.
- `TaskIds.dfy`, `ContainerIds.dfy`, `KernelVersion.dfy`: identifiers and version order.

## Where code and documentation or expectation differ

- Stop does not cancel a restart that is already scheduled; only Close is final
  (`InstanceProtocol.ComesBackIffRestartPending`).
- "RUNNING means all instances run, except those appended since the job document was last written" is false: a
  report about a running instance rewrites the document without writing the status. It holds of the last write of
  the job's *status* (`ClusterSafety.DocumentWriteIsNotEnough`, `ClusterSafety.RunningMeansRunning`).
- The jobs endpoint reads a request argument `params` that its client never sends
  (`resource-abstractor/api/v1/jobs_blueprint.py:20-33`), so the timer's pre-filter has no effect on the store side.
  `Tick` models both, and `ClusterMarking.QueryAgrees` says exactly when they agree.
- An unrecognised status text makes the timer and the redeployment routine raise in the middle, and a null time the
  timer; what they have written until then stays.
- The redeployment routine hands one fetched document to all calls for the instances of a job, and each request for a
  node extends the id in it (`cluster_orchestrator/cluster-manager/ext_requests/scheduler_requests.py:19`).
  With two instances to redeploy, the second call takes the id for the address of the first instance: it overwrites
  that instance, which loses its node and its time, and asks for a node that will again be given to the first. Each
  listed instance is asked for under its own number exactly if no job has two of them
  (`ClusterRuns.EachIsAskedForIff`, `ClusterRuns.LifeAfterRedeploy`, `ClusterRuns.TwoFailedInstances`). Until that
  instance is reported or placed, a tick that comes to its null time raises there and marks nothing behind it
  (`ClusterMarking.LifeAfterTick`, `ClusterRuns.TwoFailedStopTheTimer`).
- A report about an unknown instance of a known job changes no instance, but does overwrite the job's own status
  (`ClusterLife.StrayReport`).
- Appending an instance checks the number in the request's address and appends the last instance of its body, whose
  number may differ (`ClusterRuns.DeployKeepsShapeIff`, `ClusterRuns.MismatchedNumber`). The run theorems assume
  requests as the root sends them: one instance, with the number of the address and a known status (`GoodRequest`).
- The mount tracker's comment announces exponential backoff; the code counts ticks, waiting six of them after the
  first attempt, so that it gives up after 14 attempts where its log says 20.
- Publishing a target again does not withdraw an unmount of it that is queued (`MountTracker.LosesMountIffQueued`).
- Publishing a target that is tracked but no longer mounted succeeds without mounting it
  (`MountTracker.PublishWithoutMount`).
- The kernel tokenizer's comment says that letters are lower-cased; they are not (`KernelVersion.CaseCounts`).
- A directory copy to or from "/" is not caught by the overlap guards (`CopyDir.RootEscapesGuard`).
- A container whose id returns after its cleanup gets new retries (`AddonsMonitor.ReturningIdStartsOver`,
  `AddonsMonitor.BoundedByCleanups`).
- A cluster's summary can promise more than any of its workers has (`Scheduling.SummaryCanOverpromise`); when it
  cannot is stated by `Scheduling.SummaryIsExactIff`.

## Model

| member | source | states |
|---|---|---|
| InstanceProtocol.SendFindsRoom | go_node_engine/virtualization/internal/crosvm/internal/instance/instance.go:420-428 | In every interleaving of all callers, exit goroutines and restarts the lock-free send finds the one-slot channel empty, so no exit is ever dropped; the put-back of WaitForExit finds it empty too |
| InstanceProtocol.OneVmAtMost | go_node_engine/virtualization/internal/crosvm/internal/instance/instance.go:245-289 | At most one VM is alive, it is the newest one, and only while the status is Running; otherwise `lastExit` is the exit of run `startCount` |
| InstanceProtocol.EachExitClaimedOnce | go_node_engine/virtualization/internal/crosvm/internal/instance/instance.go:304-348 | The exit of every run is taken for good exactly once and unchanged, except that of the current run of a running instance, which nobody has taken yet |
| InstanceProtocol.OnlyUnclaimedExitsAreAnnounced | go_node_engine/virtualization/internal/crosvm/internal/instance/instance.go:450-471 | A run is announced at most once, exactly if only its own exit handler took its exit, COMPLETED exactly for a successful one-shot run; the same runs, and no others, schedule one restart each, unless the service is one-shot |
| InstanceProtocol.NoticesExact | go_node_engine/virtualization/internal/crosvm/internal/instance/instance.go:456-470 | The notifications that a history of claims leads to are ordered by run, and there is one for exactly the claims of the exit handler |
| InstanceProtocol.ClosedIsFinal | go_node_engine/virtualization/internal/crosvm/internal/instance/instance.go:254-257 | After closing, whatever restarts are pending, no VM lives or is started and nothing is claimed or announced |
| InstanceProtocol.WaiterIsServed | go_node_engine/virtualization/internal/crosvm/internal/instance/instance.go:304-371 | Whoever waits for an exit under the lock finds one, or the current run reaches its send by at most four steps of its own, none of which needs the lock, and the exit is then on the channel |
| InstanceProtocol.ComesBackIffRestartPending | go_node_engine/virtualization/internal/crosvm/internal/instance/instance.go:473-480 | An instance that is down comes up again with no caller starting it exactly if it is not closed and a restart is pending: Stop cancels none |
| InstanceProtocol.StopThenRestarted | go_node_engine/virtualization/internal/crosvm/internal/instance/instance.go:291-298 | A reachable run in which Stop returns at once and a pending restart then starts the VM |
| InstanceProtocol.StaysDownWithoutPendingRestart | go_node_engine/virtualization/internal/crosvm/internal/instance/instance.go:433-480 | With no restart pending and no caller starting it, an instance that is down stays down over any run |
| InstanceProtocol.TraceSchedule | go_node_engine/virtualization/internal/crosvm/internal/instance/instance.go:245-480 | Every run of the protocol is a sequence of its actions, so that calls can be counted |
| InstanceProtocol.RestartsAreSpent | go_node_engine/virtualization/internal/crosvm/internal/instance/instance.go:469-480 | Over any run, the starts called by restarts and the pending restarts add up to the restarts ever scheduled: each starts the VM at most once, and the runs are at most the callers' starts and the scheduled restarts |
| InstanceProtocol.LogsOfCurrentRun | go_node_engine/virtualization/internal/crosvm/internal/instance/instance.go:173-177 | In every reachable state the logs are a suffix of the current run's output that begins at a line start: the whole output while it fits beside the initial newline, otherwise from the first line start in the buffer on; nothing once the buffer was cleared |
| InstanceProtocol.OnlyTheCurrentRunResets | go_node_engine/virtualization/internal/crosvm/internal/instance/instance.go:416-418 | The goroutine about to clear or refill the buffer is that of the newest run, and no newer run can start before its exit is out |
| InstanceProtocol.InvStep | go_node_engine/virtualization/internal/crosvm/internal/instance/instance.go:245-480 | The inductive invariant on channel, phases, claims, reactions and buffer that every atomic step keeps |
| InstanceProtocol.TraceInv | go_node_engine/virtualization/internal/crosvm/internal/instance/instance.go:386-431 | Every state of every run satisfies the invariant |
| InstanceRuntime.LockExcludes | go_node_engine/virtualization/internal/crosvm/internal/instance/instance.go:292-293 | While somebody waits under the lock, no interleaving of the other goroutines changes status, last exit, start counter, claims or notifications |
| InstanceRuntime.GoroutineIsItsOwn | go_node_engine/virtualization/internal/crosvm/internal/instance/instance.go:386-431 | No interleaving moves the exit goroutine of a run other than by its own steps |
| InstanceRuntime.UnclaimedIffRunning | go_node_engine/virtualization/internal/crosvm/internal/instance/instance.go:446-454 | An exit goroutine that gets the lock finds its own exit on the channel if its run is current and the status Running, and an empty channel whenever the status is not Running |
| InstanceRuntime.Instance.constructor | go_node_engine/virtualization/internal/crosvm/internal/instance/instance.go:143-177 | A new instance is stopped, with an empty channel and one newline in the buffer |
| InstanceRuntime.Instance.Start | go_node_engine/virtualization/internal/crosvm/internal/instance/instance.go:245-289 | One protocol step; succeeds exactly when stopped and the process could be spawned, and then there is one more run, alive; fails with already-closed exactly when closed; a start by a restart uses up that pending restart, whether or not it succeeds |
| InstanceRuntime.Instance.Stop | go_node_engine/virtualization/internal/crosvm/internal/instance/instance.go:291-314 | Against any interference: on success no VM lives and, if one ran, this call alone took the exit of run `startCount`; it fails only if its timer fired, and then the status is still Running and nothing is claimed; until one of the two it waits under the lock with no exit to take |
| InstanceRuntime.Instance.Close | go_node_engine/virtualization/internal/crosvm/internal/instance/instance.go:316-348 | Likewise; unless it times out or still waits the instance is closed, also when tearing down the network fails, which is the only other error |
| InstanceRuntime.Instance.WaitForExit | go_node_engine/virtualization/internal/crosvm/internal/instance/instance.go:350-371 | Claims nothing and changes no status; on success the exit of the current run is back on the channel before the lock is released; it fails only if it is bounded and its timer fired, and otherwise still waits with no exit to take |
| InstanceRuntime.Instance.AwaitVm | go_node_engine/virtualization/internal/crosvm/internal/instance/instance.go:386-428 | From the return of the wait to the send, with interference between all steps: the exit of the run is always emitted |
| InstanceRuntime.Instance.SendExit | go_node_engine/virtualization/internal/crosvm/internal/instance/instance.go:420-428 | The default branch of the select is never taken |
| InstanceRuntime.Instance.HandleUnclaimedExit | go_node_engine/virtualization/internal/crosvm/internal/instance/instance.go:433-471 | Takes the exit, announces it and schedules a restart exactly if the run is current and the status Running; otherwise changes nothing that the lock guards |
| InstanceRuntime.Instance.GatherLogs | go_node_engine/virtualization/internal/crosvm/internal/instance/instance.go:377-384 | Returns the log of the current run from a line start on |
| TailBuffers.TailBuffer.constructor | go_node_engine/virtualization/internal/crosvm/internal/tailbuf/tailbuf.go:10-12 | A new buffer has the given capacity and an empty history |
| TailBuffers.TailBuffer.Reset | go_node_engine/virtualization/internal/crosvm/internal/tailbuf/tailbuf.go:14-16 | Empties the history |
| TailBuffers.TailBuffer.Write | go_node_engine/virtualization/internal/crosvm/internal/tailbuf/tailbuf.go:18-49 | Appends to the unbounded history that the circular array represents, also for data longer than the array |
| TailBuffers.TailBuffer.WriteTo | go_node_engine/virtualization/internal/crosvm/internal/tailbuf/tailbuf.go:51-53 | Yields the last bytes of the history, as many as fit |
| TailBuffers.TailBuffer.WriteToSkippingUntil | go_node_engine/virtualization/internal/crosvm/internal/tailbuf/tailbuf.go:55-80 | Yields one drop-until pass over that tail, threading the state of a stateful predicate across the wrap point |
| TailBuffers.WriteToDropUntil | go_node_engine/virtualization/internal/crosvm/internal/tailbuf/tailbuf.go:86-101 | One part written from the first byte on which the predicate holds |
| TailBuffers.DropUntilConcat | go_node_engine/virtualization/internal/crosvm/internal/tailbuf/tailbuf.go:67-79 | Dropping over two parts in turn equals dropping over their concatenation |
| TailBuffers.TailWrapped | go_node_engine/virtualization/internal/crosvm/internal/tailbuf/tailbuf.go:62-79 | The array read from the write position around to it again is the end of the history |
| TailBuffers.TailUnwrapped | go_node_engine/virtualization/internal/crosvm/internal/tailbuf/tailbuf.go:58-60 | Before the first wrap the front of the array is the history |
| TailBuffers.TailPlaced | go_node_engine/virtualization/internal/crosvm/internal/tailbuf/tailbuf.go:25-44 | Placing the last bytes of a chunk, in one or two copies, keeps every one of the newest bytes at its place modulo the capacity |
| TailBuffers.WrapCases | go_node_engine/virtualization/internal/crosvm/internal/tailbuf/tailbuf.go:35-44 | A chunk that fits the array lies between `start` and `end` or wraps exactly once, also when it fills the array |
| TailBuffers.Replay | go_node_engine/virtualization/internal/crosvm/internal/tailbuf/tailbuf.go:10-80 | Any sequence of writes and resets, then a read: the last bytes written since the last reset, and one skipping pass over them |
| TailBuffers.ChunkingIsInvisible | go_node_engine/virtualization/internal/crosvm/internal/tailbuf/tailbuf.go:18-49 | Two writes leave what one write of both leaves |
| TailBuffers.LineStartDrops | go_node_engine/virtualization/internal/crosvm/internal/tailbuf/predicates.go:10-22 | Reading from a line start drops everything through the first newline |
| TailBuffers.LineStartNeedsNewline | go_node_engine/virtualization/internal/crosvm/internal/tailbuf/predicates.go:10-22 | Without a newline everything is dropped |
| Utf8.MaskTest | go_node_engine/virtualization/internal/crosvm/internal/tailbuf/predicates.go:3-7 | The mask test holds for exactly the bytes outside 0x80..0xBF |
| Utf8.CutAtStart | go_node_engine/virtualization/internal/crosvm/internal/tailbuf/predicates.go:3-7 | A well-formed UTF-8 stream cut before any byte that passes the test is well formed |
| Utf8.DropsContinuations | go_node_engine/virtualization/internal/crosvm/internal/tailbuf/predicates.go:3-7 | Skipping with the test drops exactly the leading continuation bytes |
| Utf8.LongestWellFormedSuffix | go_node_engine/virtualization/internal/crosvm/internal/tailbuf/tailbuf.go:55-80 | For every well-formed stream, skipping yields the longest well-formed suffix that fits the capacity |
| Utf8.ReadExcerpt | go_node_engine/virtualization/internal/crosvm/internal/instance/instance.go:399-400 | The same of a real buffer, however the stream was chunked |
| ClusterManager.Manager.UpdateStatus | cluster_orchestrator/cluster-manager/clients/job_management.py:120-141 | The loop over the fetched document and the write-back: all instances of that number get the status, and the job itself unless the status is RUNNING while some instance is not; CREATED changes nothing |
| ClusterManager.Manager.UpdateInstance | cluster_orchestrator/cluster-manager/clients/job_management.py:176-205 | Only an existing instance is updated, the first of that number; a missing one yields false and changes nothing |
| ClusterManager.Manager.MarkJob | cluster_orchestrator/cluster-manager/clients/job_management.py:36-68 | The inner loop of the timer on one job, including where an unknown status makes it raise; what it does status by status is `ClusterMarking.TickByStatus` |
| ClusterManager.Manager.MarkInactiveAsFailed | cluster_orchestrator/cluster-manager/clients/job_management.py:17-80 | The whole timer step, with the query applied or ignored; its effect on instances and jobs is given by `ClusterMarking.TickByStatus` and `ClusterMarking.JobAfterTick` |
| ClusterManager.Manager.DeleteInstances | cluster_orchestrator/cluster-manager/clients/job_management.py:232-252 | The loop over the fetched instances: undeploys and removals for exactly the named ones |
| ClusterManager.Manager.DeleteJobInstance | cluster_orchestrator/cluster-manager/clients/job_management.py:225-260 | Deletion of an instance, or of all; the job goes with its last instance |
| ClusterManager.Manager.RequestDeploy | cluster_orchestrator/cluster-manager/ext_requests/scheduler_requests.py:16-22 | The request for a node puts a slash and the number behind the id of the document it is called with, and sends that id |
| ClusterManager.Manager.UndeployAndRedeploy | cluster_orchestrator/cluster-manager/ext_requests/system_manager_requests.py:69-82 | The two store calls and the request under the id that the shared document has by now: with no number behind it, the instance is undeployed without erasing and requested; with one, the document is written over that other instance; with more, nothing happens |
| ClusterManager.Manager.RedeployDeadInstances | cluster_orchestrator/cluster-manager/ext_requests/system_manager_requests.py:48-56 | One call per failed, dead or unplaced instance of a fetched job, all with the same document, up to a status that raises |
| ClusterManager.Manager.RedeployDeadJobs | cluster_orchestrator/cluster-manager/ext_requests/system_manager_requests.py:39-59 | The redeployment routine over all jobs, one shared document for each |
| ClusterManager.Manager.PlaceInstance | cluster_orchestrator/cluster-manager/blueprints/service_blueprints.py:108-126 | A node for an instance: its entry gets node and time, then the status NODE_SCHEDULED, and the node is told if the job is still there |
| ClusterManager.Manager.HandleResourceReport | cluster_orchestrator/cluster-manager/clients/mqtt_client.py:60-77 | A worker's report, service by service, with an undeploy for each that cannot be updated |
| ClusterManager.Manager.CreateNewJobInstance | cluster_orchestrator/cluster-manager/clients/job_management.py:98-106 | The store operations step by step: a job that is not stored replaces the one of its name or is inserted, for a stored one the last instance of the body is pushed unless the number is there or the body has none |
| ClusterManager.Manager.DeployJob | cluster_orchestrator/cluster-manager/clients/job_management.py:208-211 | A request of the root is turned down only if its instance is there, and then changes nothing; otherwise the instance is in the answered job as described and it alone is sent to be scheduled; no instance of another job changes |
| ClusterManager.Manager.Handle | cluster_orchestrator/cluster-manager/clients/mqtt_client.py:53-77 | Every handler computes one step of the state machine over the job store |
| ClusterManager.Manager.Run | cluster_orchestrator/cluster-manager/ext_requests/system_manager_requests.py:25-59 | Any run of handlers is one of the runs the theorems below speak of |
| ClusterLife.LifeAfterUpdateStatus | cluster_orchestrator/cluster-manager/clients/job_management.py:120-141 | Seen from a single instance: exactly the addressed one takes the status |
| ClusterLife.LifeAfterUpdateInstance | resource-abstractor/db/jobs_db.py:113-152 | Seen from a single instance: exactly the addressed one takes status and time; it is reported unknown exactly if it is absent |
| ClusterRuns.LifeAfterOverwrite | resource-abstractor/db/jobs_db.py:113-152 | A job document patched at the address of an instance: that instance is REQUESTED without a time, and no other changes |
| ClusterPlacement.UnknownAddress | cluster_orchestrator/cluster-manager/ext_requests/system_manager_requests.py:69-82 | A redeployment under an id that names no stored instance does nothing |
| ClusterLife.LifeAfterReport | cluster_orchestrator/cluster-manager/clients/job_management.py:144-163 | A report sets status and time of the instance it is about, only the time for CREATED, and nothing of any other instance |
| ClusterLife.StraysAreUndeployed | cluster_orchestrator/cluster-manager/clients/mqtt_client.py:60-77 | The undeploys sent to the reporting worker are exactly those of the reported services the store does not have, and no report changes which instances there are |
| ClusterLife.StrayReport | cluster_orchestrator/cluster-manager/clients/job_management.py:124-141 | A report about an unknown instance leaves every instance as it is, but a known job's own status follows it all the same |
| ClusterMarking.TickIsPointwise | cluster_orchestrator/cluster-manager/clients/job_management.py:36-80 | The loops, writing to the store as they go, amount to marking job by job up to the first status that raises |
| ClusterMarking.QueryAgrees | cluster_orchestrator/cluster-manager/clients/job_management.py:22-32 | Marking the pre-filtered jobs equals marking all jobs exactly unless the first job that makes the loop raise is one the query leaves out, and behind it is a fetched job with a stale instance that no raising instance precedes, in its own list or in a fetched job between |
| ClusterMarking.JobKeptIff | cluster_orchestrator/cluster-manager/clients/job_management.py:36-78 | The marking changes a job exactly if it has a stale instance with no raising instance up to it |
| ClusterMarking.QueryAgreesWhenClean | cluster_orchestrator/cluster-manager/clients/job_management.py:22-32 | In particular it does whenever all statuses are known and no time is null |
| ClusterMarking.QueryDisagrees | cluster_orchestrator/cluster-manager/clients/job_management.py:40 | A store on which the two differ |
| ClusterMarking.LifeAfterTick | cluster_orchestrator/cluster-manager/clients/job_management.py:39-68 | A tick fails an instance exactly if it is stale and no instance that the tick visits up to and including it makes the tick raise, by an unknown status or a null time; what comes later does not matter |
| ClusterMarking.TickByStatus | cluster_orchestrator/cluster-manager/clients/job_management.py:39-62 | Status by status: a reached NODE_SCHEDULED instance becomes FAILED, heard now, exactly if it was heard of longer ago than the node timeout; COMPLETED, REQUESTED and CLUSTER_SCHEDULED ones never; every other one, also without a status, exactly if longer ago than the running timeout; none without a time |
| ClusterMarking.JobAfterTick | cluster_orchestrator/cluster-manager/clients/job_management.py:64-78 | The job itself becomes FAILED exactly if the tick gets to the end of its instances and has failed one of them |
| ClusterMarking.RaisingStopsTheTick | cluster_orchestrator/cluster-manager/clients/job_management.py:39-57 | A tick over all jobs leaves everything from the first instance with an unknown status or a null time on as it is |
| ClusterMarking.TickReachesAll | cluster_orchestrator/cluster-manager/clients/job_management.py:36-57 | Without such an instance a tick reaches every instance |
| ClusterRuns.LifeAfterDelete | cluster_orchestrator/cluster-manager/clients/job_management.py:225-260 | A deletion removes exactly the named instance, or all of the job for -1 |
| ClusterPlacement.DeletionTells | cluster_orchestrator/cluster-manager/clients/job_management.py:232-252 | A deletion, erasing or not, sends an undeploy with name and number to exactly the workers of the named instances, one for each; none to an instance that was never placed |
| ClusterPlacement.JobGoesWithItsInstances | cluster_orchestrator/cluster-manager/clients/job_management.py:225-260 | An erasing deletion removes the job exactly if it names all its instances; otherwise the job keeps id, name and status; no other job changes |
| ClusterPlacement.PlacedAt | cluster_orchestrator/cluster-manager/blueprints/service_blueprints.py:108-126 | A node found for an instance: the instance is NODE_SCHEDULED, heard now and on that node; status, time and worker of all others stay; the node is told exactly if the job is stored |
| ClusterPlacement.ReportsMoveNothing | cluster_orchestrator/cluster-manager/clients/job_management.py:144-205 | Reports and ticks, however many, change neither the worker of an instance nor which jobs and instances there are |
| ClusterPlacement.UndeployedWhereItWasPlaced | cluster_orchestrator/cluster-manager/clients/job_management.py:232-252 | An instance that is placed, and then only reported on and watched by the timer, is undeployed from that very node when it is deleted, and nobody else is told |
| ClusterPlacement.ReportIsTaken | cluster_orchestrator/cluster-manager/clients/job_management.py:120-163 | A reported status becomes that of the instance and of its job, except CREATED and unknown ones; RUNNING becomes the job's exactly if all its instances run by then |
| ClusterRuns.DeployKeepsShapeIff | resource-abstractor/db/jobs_db.py:97-110 | For any deploy request: ids, names and numbers stay distinct exactly if the number of the appended instance, not the one in the address, is new to the stored job, or, for a document put in place, its numbers are distinct and its id free |
| ClusterRuns.MismatchedNumber | resource-abstractor/db/jobs_db.py:97-110 | A request whose address and body disagree and give a job the same number twice |
| ClusterRuns.LifeAfterDeploy | cluster_orchestrator/cluster-manager/clients/job_management.py:98-106 | For a request of the form the root sends, exactly: turned down iff its job is stored and has the instance; otherwise the answered job has the instance as described, beside its others if it was stored under its id and alone if not, and no other job changes |
| ClusterRuns.StatusAfterDeploy | cluster_orchestrator/cluster-manager/clients/job_management.py:98-106 | The job's own status after a request: kept by a stored job, the request's for a document put in place if it brings one, and for a new job |
| ClusterRuns.ListedIffTriggers | cluster_orchestrator/cluster-manager/ext_requests/system_manager_requests.py:48-50 | The instances the routine means to redeploy are exactly the failed, dead and unplaced ones with no raising status before them, each once |
| ClusterRuns.LifeAfterRedeploy | cluster_orchestrator/cluster-manager/ext_requests/system_manager_requests.py:47-82 | Exactly: of the listed instances of a job the first is REQUESTED, keeping its time if it is the only one and left with a null time if not; the others and all other instances stay as they are |
| ClusterRuns.UnknownStopsTheRoutine | cluster_orchestrator/cluster-manager/ext_requests/system_manager_requests.py:48-56 | From the first unknown status on, the routine lists nothing and changes nothing |
| ClusterRuns.EachIsAskedForIff | cluster_orchestrator/cluster-manager/ext_requests/scheduler_requests.py:16-22 | Every listed instance is asked a node for under its own number exactly if no job has two of them; of several, the answers to all requests go to the first |
| ClusterRuns.TwoFailedInstances | cluster_orchestrator/cluster-manager/ext_requests/scheduler_requests.py:19 | Two failed instances: the requests carry the ids j/0 and j/0/1, instance 1 is neither undeployed nor requested, instance 0 loses node and time |
| ClusterRuns.TwoFailedStopTheTimer | cluster_orchestrator/cluster-manager/clients/job_management.py:40-57 | From then on a tick over all jobs raises at that instance and marks nothing, however late it comes |
| ClusterRuns.HandlerKeepsShape | cluster_orchestrator/cluster-manager/clients/job_management.py:98-260 | Every handler keeps ids, names and each job's numbers distinct, and the only instance that can be new is the number a deploy request asks for in the job it is answered with |
| ClusterRuns.RunsKeepShape | cluster_orchestrator/cluster-manager/clients/job_management.py:98-260 | So does every run |
| ClusterRuns.DeletedStaysDeleted | resource-abstractor/db/jobs_db.py:161-166 | In any run an absent instance of a job is there again only after a deploy request for its number that was answered with that very job |
| ClusterSafety.HandlerKeepsHonest | cluster_orchestrator/cluster-manager/clients/job_management.py:120-141 | Every handler keeps: a RUNNING job has only RUNNING instances besides those appended since its status was written, all of them readable for the timer, and a null time only goes with REQUESTED |
| ClusterSafety.RunningMeansRunning | cluster_orchestrator/cluster-manager/clients/job_management.py:135-139 | So it holds in every run from an empty store |
| ClusterSafety.DocumentWriteIsNotEnough | cluster_orchestrator/cluster-manager/clients/job_management.py:135-141 | It must be a write of the status: a run from the empty store in which a report rewrites the document, keeps RUNNING, and keeps an instance appended before that does not run |
| ClusterSafety.TimersLeave | cluster_orchestrator/cluster-manager/clients/job_management.py:43-57 | Ticks and redeployment routines alone never change an instance that is COMPLETED, REQUESTED or CLUSTER_SCHEDULED, over any run |
| ClusterSafety.ReportedInTimeStaysAlive | cluster_orchestrator/cluster-manager/clients/job_management.py:40-57 | Over any run of all handlers in time order that neither deploys, deletes nor places it, a RUNNING or INSTANTIATION instance heard of at most the timeout before each tick is never marked |
| ClusterSafety.SilentIsMarkedIffLate | cluster_orchestrator/cluster-manager/clients/job_management.py:40-68 | Over any such run with no report about it, it stays exactly as it is until a tick reaches it later than the timeout after it was last heard of; from that tick on it is failed or requested again |
| ClusterSafety.ClearRunsAreReached | cluster_orchestrator/cluster-manager/clients/job_management.py:39-57 | After any run from a clean store without unknown statuses and without two instances of a job to redeploy, a tick reaches every instance |
| Aggregation.RunningMean | cluster_orchestrator/cluster-manager/clients/resource_aggregation.py:51-59 | One step of the running mean gives the mean with one more value |
| Aggregation.PassGivesMean | cluster_orchestrator/cluster-manager/clients/resource_aggregation.py:38-59 | A pass of running-mean steps over the workers ends in the mean of the non-zero reports, 0 if there is none, and their number |
| Aggregation.ReportCounts | cluster_orchestrator/cluster-manager/clients/resource_aggregation.py:38-59 | One more worker adds its report to the sum and, unless it is missing or zero, to the mean |
| Aggregation.Aggregator.AverageAggregator | cluster_orchestrator/cluster-manager/clients/resource_aggregation.py:38-59 | The step on the global counters; missing and zero reports change nothing |
| Aggregation.Aggregator.AggregateWorkers | cluster_orchestrator/cluster-manager/clients/resource_aggregation.py:109-140 | Whatever earlier calls left in the counters, the result is the independently defined summary: means, sums, concatenations, merged drivers, number of workers |
| Aggregation.Aggregator.AggregateNumbers | cluster_orchestrator/cluster-manager/clients/resource_aggregation.py:119-133 | Worker by worker and key by key in any order: the pass of the running mean, or the sum |
| Aggregation.Aggregator.AggregateLists | cluster_orchestrator/cluster-manager/clients/resource_aggregation.py:18-35 | Lists are concatenated in worker order, single strings counting as lists of one |
| Aggregation.Aggregator.MergeDrivers | cluster_orchestrator/cluster-manager/clients/resource_aggregation.py:62-83 | Names are appended once, items without a name skipped |
| Aggregation.OrderDoesNotMatter | cluster_orchestrator/cluster-manager/clients/resource_aggregation.py:109-140 | Means, sums and the number of nodes are the same for every order of the workers |
| Aggregation.SummaryByKey | cluster_orchestrator/cluster-manager/clients/resource_aggregation.py:85-107 | Loads and temperatures are means, capacities sums, and the list resources concatenations |
| Aggregation.ListsJoin | cluster_orchestrator/cluster-manager/clients/resource_aggregation.py:18-35 | Two groups of workers together list what they list apart, in their order |
| Aggregation.GroupByArchitecture | cluster_orchestrator/cluster-manager/clients/resource_aggregation.py:151-156 | The groups are the workers of each architecture, in order; workers without one are in none |
| Aggregation.AggregatePerArchitecture | cluster_orchestrator/cluster-manager/clients/resource_aggregation.py:158-160 | Every architecture's entry is the summary of its workers although the counters are shared |
| Aggregation.ArchitecturesAddUp | cluster_orchestrator/cluster-manager/clients/resource_aggregation.py:149-160 | The sums and node counts per architecture and those of the workers without one add up to the cluster's |
| Aggregation.CompleteArchitecturesAddUp | cluster_orchestrator/cluster-manager/clients/resource_aggregation.py:149-160 | They alone do if every worker has an architecture |
| Scheduling.CheckDrivers | scheduler/calculate/schedulers/cpumemfit/cpumemfit.go:170-184 | True exactly if every named driver of the job's volumes is advertised |
| Scheduling.FilterRequirements | scheduler/calculate/schedulers/cpumemfit/cpumemfit.go:161-166 | Keeps exactly the qualifying candidates, in order |
| Scheduling.Calculate | scheduler/calculate/schedulers/cpumemfit/cpumemfit.go:147-157 | Refuses exactly if no candidate qualifies, as not-active exactly for no candidates; otherwise a qualifying candidate such that no other has more memory left over its CPU load |
| Scheduling.NormaliseCsiDrivers | scheduler/calculate/schedulers/cpumemfit/cpumemfit.go:106-139 | The distinct non-empty names in order of first appearance |
| Scheduling.NormalisedGrows | scheduler/calculate/schedulers/cpumemfit/cpumemfit.go:106-139 | A name keeps the place of its first appearance |
| Scheduling.MergedIsNormalised | cluster_orchestrator/cluster-manager/clients/resource_aggregation.py:62-83 | The drivers merged worker by worker are the distinct non-empty names of all that is advertised, in order of first appearance; none exactly if no worker has any |
| Scheduling.RootSeesDrivers | scheduler/calculate/schedulers/cpumemfit/cpumemfit.go:106-139 | The root decodes from the summary exactly these names |
| Scheduling.SummaryNeverHides | scheduler/calculate/schedulers/placement/placement.go:103-110 | If one worker of a cluster, all of whose CPU and memory reports are non-negative, meets a job's needs, the decoded summary of the cluster does |
| Scheduling.SummaryReading | scheduler/calculate/schedulers/cpumemfit/cpumemfit.go:161-184 | What a qualifying summary means, exactly: some worker offers the virtualization, the totals cover CPU and memory, and each named driver is advertised by some worker, possibly different ones |
| Scheduling.SummaryIsExactIff | scheduler/calculate/schedulers/cpumemfit/cpumemfit.go:161-184 | The summary promises no job that no single worker can take exactly if, for every virtualization it lists, one worker has by itself all CPU, all memory and all drivers |
| Scheduling.SummaryCanOverpromise | scheduler/calculate/schedulers/cpumemfit/cpumemfit.go:161-166 | A cluster that qualifies without any worker that does |
| Scheduling.SummariseCluster | cluster_orchestrator/cluster-manager/clients/resource_aggregation.py:109-140 | What a cluster reports and the root decodes |
| Scheduling.ScheduleAtRoot | scheduler/calculate/schedulers/cpumemfit/cpumemfit.go:147-157 | If any worker of any cluster can take the job, the root does not refuse it; it picks a cluster whose summary qualifies and whose total memory less its mean CPU load is the greatest among those |
| Scheduling.ScheduleAtCluster | scheduler/calculate/schedulers/cpumemfit/cpumemfit.go:147-157 | In a cluster a worker is found exactly if one offers the virtualization, CPU, memory and drivers the job names, and none that does has more memory left over its CPU load |
| CopyDir.PrefixGuard | go_node_engine/util/iotools/filecopy.go:63-71 | For non-root paths the textual guard (prefix plus separator) holds exactly for paths strictly inside one another |
| CopyDir.RenderInjective | go_node_engine/util/iotools/filecopy.go:58-61 | Two cleaned paths have the same text exactly if they are the same |
| CopyDir.RootEscapesGuard | go_node_engine/util/iotools/filecopy.go:63-71 | For the root the guard never fires, although everything is inside the root |
| CopyDir.FileSystem.CopyFile | go_node_engine/util/iotools/filecopy.go:17-35 | Opening creates or truncates; an existing file keeps its mode, a failed copy may leave part of it |
| CopyDir.CopyDirNoChecks | go_node_engine/util/iotools/filecopy.go:89-121 | The recursion terminates on every finite tree; on success the new tree equals the source's, and nothing outside it changes; it succeeds if no operation fails by itself and the parent is a directory |
| CopyDir.CopyEntry | go_node_engine/util/iotools/filecopy.go:104-118 | The same for one entry, file or directory |
| CopyDir.CopyDir | go_node_engine/util/iotools/filecopy.go:47-87 | Success: the tree at dst equals that at src, old content gone, src and everything outside dst unchanged; overlapping paths change nothing; failures change nothing outside dst; if no operation fails by itself, disjoint paths are copied exactly if src is a directory and the parent of dst is one |
| CopyDir.Assemble | go_node_engine/util/iotools/filecopy.go:104-118 | A directory whose entries are all copied, and no others, is copied |
| CopyDir.TreeKept | go_node_engine/util/iotools/filecopy.go:104-118 | A finished subtree survives changes at a disjoint path |
| AddonsMonitor.InvStep | addons_engine/addons-monitor/services/monitor_service.py:253-273 | The invariant on counts, pending and failed sets and restarts that every step keeps |
| AddonsMonitor.BoundedRestarts | addons_engine/addons-monitor/services/monitor_service.py:253-273 | If removed container ids do not return: in every run no container is restarted more than the maximum, pending ones have between 1 and that many retries, failed ones none and are not pending, also when reporting or removing raises |
| AddonsMonitor.BoundedByCleanups | addons_engine/addons-monitor/services/monitor_service.py:253-273 | Without that assumption, in every run: at most the maximum once more than the container was cleaned up |
| AddonsMonitor.ReturningIdStartsOver | addons_engine/addons-monitor/services/monitor_service.py:262-265 | The assumption is needed: a run in which an id returns after its one cleanup and is restarted once more than the maximum |
| AddonsMonitor.Monitor.HandleFailedContainer | addons_engine/addons-monitor/services/monitor_service.py:253-273 | With no retry left the container has failed; otherwise, while none has failed, it waits for a restart with one retry more; otherwise nothing changes, and nothing of any other container ever does |
| AddonsMonitor.Monitor.ProcessFailedContainers | addons_engine/addons-monitor/services/monitor_service.py:399-443 | Nothing if none has failed or reporting raises; otherwise all failed containers are removed, or, if removing one raises, some of the others, and all are still failed |
| AddonsMonitor.ReportedMeans | addons_engine/addons-monitor/services/monitor_service.py:399-443 | Reporting clears all failures or none, removes failed containers only, and changes neither counts nor pending containers nor restarts |
| AddonsMonitor.Monitor.ProcessRetryContainers | addons_engine/addons-monitor/services/monitor_service.py:445-462 | Each pending container is restarted once or, if it is gone, counts as failed; nothing else changes; a restart that raises, and nothing else, ends the monitor |
| AddonsMonitor.RetriedMeans | addons_engine/addons-monitor/services/monitor_service.py:445-462 | Whatever waited and does not wait any more was restarted exactly once, or has failed and lost its retries |
| AddonsMonitor.FailuresAreSeen | addons_engine/addons-monitor/services/monitor_service.py:363-397 | What a poll makes of the exit codes: a container not listed as failing is as before; one that is has failed, waits, or another has failed; none fails before its retries are used up |
| AddonsMonitor.Monitor.RetryContainer | addons_engine/addons-monitor/services/monitor_service.py:446-462 | One pending container: restarted once more; or gone, and then it has failed, without retries; or its restart raises, which leaves it pending and ends the monitor |
| AddonsMonitor.Monitor.MonitorAddon | addons_engine/addons-monitor/services/monitor_service.py:363-397 | One poll of an addon: the failures in listing order, then the report, then the restarts, each as the runtime and the manager answer; nothing if all containers are missing |
| AddonsMonitor.Monitor.MonitorActiveAddons | addons_engine/addons-monitor/services/monitor_service.py:357-397 | One poll of all active addons, each monitored once in turn until a restart raises; the bound is kept for all of them and no other addon is touched |
| MountTracker.MountsStayTracked | csi/hostpath/mount_tracker.go:62-303 | In every run, restarts included, whatever publishing has mounted is tracked in memory and in the state file, and no target is mounted twice |
| MountTracker.TrackedUntilUnmounted | csi/hostpath/mount_tracker.go:84-117 | A mount stays mounted, tracked and on file over any run without a successful unmount of it |
| MountTracker.LosesMountIffQueued | csi/hostpath/mount_tracker.go:153-203 | Without an unpublish of it or a startup cleanup, a mounted target can be taken down exactly if it waits in the cleanup channel or the retry queue; publishing again does not withdraw it |
| MountTracker.FailedUnpublishIsRetriedIff | csi/hostpath/mount_tracker.go:95-104 | After an unpublish that leaves the target mounted, some run in which nobody asks again takes it down exactly if it was queued before or the channel had room |
| MountTracker.StartupRetriesIff | csi/hostpath/mount_tracker.go:210-245 | After a restart and the startup cleanup, what is still mounted is taken down by such a run exactly if it was among the first that the channel holds, and always if no more targets were tracked than that |
| MountTracker.RestartWithdraws | csi/hostpath/mount_tracker.go:140-155 | A restart without that cleanup withdraws every queued unmount |
| MountTracker.UnpublishByOutcome | csi/hostpath/mount_tracker.go:84-137 | Each outcome of an unmount: forgotten and not mounted, or still tracked, mounted or not as the unmount itself says; an untracked or empty target is left alone |
| MountTracker.RetryByOutcome | csi/hostpath/mount_tracker.go:164-203 | The same for an entry at a tick, which is left alone in rounds 1 to 6 |
| MountTracker.InvStep | csi/hostpath/node.go:106-143 | Every operation keeps that |
| MountTracker.RoundKeeps | csi/hostpath/mount_tracker.go:164-203 | So does a whole tick or startup cleanup, in any order of visit, and it changes the mount of no target it does not visit |
| MountTracker.TickMovesEntry | csi/hostpath/mount_tracker.go:164-203 | A tick moves every entry it visits by exactly one step of that entry |
| MountTracker.EntryLeaves | csi/hostpath/mount_tracker.go:164-203 | In every run a retry entry that is not queued again is attempted at most 14 times and has left the queue after 20 ticks; until then its counter is the number of ticks, whatever the attempts meet |
| MountTracker.EntryGivesUp | csi/hostpath/mount_tracker.go:176-189 | In every run without a restart, one whose attempts all fail stays for exactly 20 ticks and 14 attempts |
| MountTracker.Tracker.constructor | csi/hostpath/mount_tracker.go:31-51 | A new process starts from the state file with empty queues |
| MountTracker.Tracker.AddMount | csi/hostpath/mount_tracker.go:62-80 | The record replaces one of the same target, in memory and on file |
| MountTracker.Tracker.RemoveMount | csi/hostpath/mount_tracker.go:84-117 | Succeeds exactly if the target is not tracked or the attempt succeeds, and then it is neither tracked nor mounted; after a failed attempt it stays tracked and is put at the end of the cleanup channel unless that is full |
| MountTracker.Tracker.AttemptUnmount | csi/hostpath/mount_tracker.go:120-137 | Succeeds exactly if the unmount succeeds or says that the path does not exist, and the directory is removed; an unmount can succeed and the attempt still fail |
| MountTracker.Tracker.PublishVolume | csi/hostpath/node.go:64-146 | Succeeds exactly for a complete request whose target is tracked, already a mount point, or mounted now; on success the target is tracked in memory and on file with its volume and source, and mounted exactly if it was or if neither tracker nor kernel knew it; on failure nothing changes |
| MountTracker.PublishedIsMountedIff | csi/hostpath/node.go:106-143 | The same of the state machine: a target that is tracked without being mounted is not mounted again |
| MountTracker.PublishWithoutMount | csi/hostpath/node.go:106-111 | A run that reaches this: the unmount succeeds, its directory stays, and the next publish succeeds without mounting |
| MountTracker.Tracker.ReceiveForRetry | csi/hostpath/mount_tracker.go:153-155 | An entry moves from the channel to the retry queue with no attempts |
| MountTracker.Tracker.RetryEntry | csi/hostpath/mount_tracker.go:164-203 | One entry at one tick: in rounds 1 to 6 it only waits; a successful attempt forgets target and entry; a failed one keeps the target and counts, until the twentieth |
| MountTracker.Tracker.ProcessRetryQueue | csi/hostpath/mount_tracker.go:157-203 | One tick visits every entry exactly once, in any order, with what the system calls say of it |
| MountTracker.Tracker.CleanupOrphanedMounts | csi/hostpath/mount_tracker.go:210-245 | At startup every tracked target is attempted once; it stays tracked exactly if that fails, and exactly those are put into the cleanup channel, in order of visit, up to its capacity |
| TaskIds.ExtractInvertsGenerate | go_node_engine/util/taskid/taskid.go:14-43 | For every service name, also empty or containing the separator, and every 64-bit instance number, extraction recovers both |
| TaskIds.SeparatorIsLast | go_node_engine/util/taskid/taskid.go:23 | The separator occurs last where it was inserted, whatever the name contains |
| TaskIds.DecimalDenotes | go_node_engine/util/taskid/taskid.go:37-40 | The decimal form, with sign, parses back exactly if it is in range |
| TaskIds.DecimalIsCanonical | go_node_engine/util/taskid/taskid.go:14-16 | The decimal form has a sign exactly for negative numbers and a leading zero exactly for 0 |
| TaskIds.SignsAreRead | go_node_engine/util/taskid/taskid.go:37-40 | A numeral is read with either sign or none; beyond 64 bits it is an error |
| TaskIds.NumeralsOnly | go_node_engine/util/taskid/taskid.go:37-40 | So is a text without digits, or with anything but digits behind its first character |
| TaskIds.TaskIdsAreUnique | go_node_engine/util/taskid/taskid.go:14-16 | Two task ids are equal exactly if names and numbers are |
| TaskIds.GenerateInvertsExtract | go_node_engine/util/taskid/taskid.go:22-43 | Extracting and generating again gives back exactly the ids whose last separator is followed by a canonical 64-bit decimal |
| TaskIds.ExtractionFails | go_node_engine/util/taskid/taskid.go:22-43 | Without the separator the name is empty and the number 0; otherwise the name is all that precedes its last occurrence, and the number 0 if what follows is none |
| TaskIds.LastIndex | go_node_engine/util/taskid/taskid.go:23 | The last occurrence, -1 exactly if there is none |
| ContainerIds.IdIsValid | go_node_engine/virtualization/internal/containerd/ContainersManagement.go:788-838 | The id is non-empty, at most 76 characters, lower-case alphanumerics with single inner dots, and ends in the hash |
| ContainerIds.EqualIds | go_node_engine/virtualization/internal/containerd/ContainersManagement.go:833-838 | Two ids are equal exactly if hashes and readable parts are |
| ContainerIds.SafeIsWords | go_node_engine/virtualization/internal/containerd/ContainersManagement.go:818-822 | The readable part before truncation is the words of the lower-cased valid characters, joined by dots |
| ContainerIds.Alphabet | go_node_engine/virtualization/internal/containerd/ContainersManagement.go:788-820 | The letters and figures of an id, spelled out |
| ContainerIds.LowerByPlace | go_node_engine/virtualization/internal/containerd/ContainersManagement.go:788-820 | Capitals become the letters in the same place |
| ContainerIds.PrefixIsTight | go_node_engine/virtualization/internal/containerd/ContainersManagement.go:822-830 | The readable prefix is at most 55 characters and begins and ends with an alphanumeric, also when truncation hits a separator |
| ContainerIds.KeptVerbatim | go_node_engine/virtualization/internal/containerd/ContainersManagement.go:818-830 | A task id is its own prefix exactly if it already has that form and at most 55 characters |
| KernelVersion.TokenizeVersion | go_node_engine/virtualization/internal/crosvm/internal/kernel/version.go:73-108 | The loop terminates and yields the tokens of the maximal runs |
| KernelVersion.ReadRun | go_node_engine/virtualization/internal/crosvm/internal/kernel/version.go:112-118 | The longest stretch from an index on which a condition holds |
| KernelVersion.SplitIsRuns | go_node_engine/virtualization/internal/crosvm/internal/kernel/version.go:73-108 | A list of runs covers the string with non-extendable one-class runs exactly if it is the tokenizer's |
| KernelVersion.Compare | go_node_engine/virtualization/internal/crosvm/internal/kernel/version.go:40-70 | The index loop computes the lexicographic comparison of the token lists |
| KernelVersion.VersionsAreOrdered | go_node_engine/virtualization/internal/crosvm/internal/kernel/version.go:39-70 | A total preorder on all names: sign-antisymmetric, transitive also strictly, 0 exactly for equal token lists |
| KernelVersion.TokenOrder | go_node_engine/virtualization/internal/crosvm/internal/kernel/version.go:45-66 | Tokens are totally ordered |
| KernelVersion.NumbersDecide | go_node_engine/virtualization/internal/crosvm/internal/kernel/version.go:79-87 | After a common beginning numbers decide by value, whatever their leading zeros and number of digits, and what follows counts only if they tie; numbers beyond the range of a 64-bit int tie |
| KernelVersion.ClassesDecide | go_node_engine/virtualization/internal/crosvm/internal/kernel/version.go:48-51 | After a common beginning digits are older than letters, and both older than any other byte |
| KernelVersion.LettersDecide | go_node_engine/virtualization/internal/crosvm/internal/kernel/version.go:58-61 | After a common beginning words are compared byte by byte: the first difference decides, and a word is older than one it begins |
| KernelVersion.SeparatorsTie | go_node_engine/virtualization/internal/crosvm/internal/kernel/version.go:62-64 | Runs of other bytes tie whatever they are |
| KernelVersion.LettersHaveCases | go_node_engine/virtualization/internal/crosvm/internal/kernel/version.go:88-95 | The letters are the bytes of Latin-1 that have two cases, and the five letters without an upper case there |
| KernelVersion.LongerIsNewer | go_node_engine/virtualization/internal/crosvm/internal/kernel/version.go:68-69 | A name that goes on after a whole token is newer, so a release is older than its release candidate |
| KernelVersion.CaseCounts | go_node_engine/virtualization/internal/crosvm/internal/kernel/version.go:72-95 | Names that differ only in letter case tie exactly if they are equal: letters are not lower-cased |
| KernelVersion.MaxIsMaximum | go_node_engine/virtualization/internal/crosvm/internal/kernel/pick.go:30 | The chosen element is at least as great as all and greater than those before it |
| KernelVersion.NewestFilesAreFound | go_node_engine/virtualization/internal/crosvm/internal/kernel/pick.go:19-43 | For matches that are files of given names in a directory: no name among those of the first kernel pattern with a match is newer by version than that of the chosen kernel, the first of equals is chosen, and likewise for the initrd, which is empty if nothing matches |
| KernelVersion.FoundIff | go_node_engine/virtualization/internal/crosvm/internal/kernel/pick.go:19-43 | No kernel exactly if neither kernel pattern matches; failure exactly if the pattern that decides for the kernel fails, or a kernel is found and the one that decides for the initrd fails; files otherwise |
| KernelVersion.BaseIsName | go_node_engine/virtualization/internal/crosvm/internal/kernel/pick.go:45-49 | The name that is compared is that of the file, whatever the directory |
| KernelVersion.BaseOfSlashes | go_node_engine/virtualization/internal/crosvm/internal/kernel/pick.go:45-49 | Slashes at the end do not count; the base of "/" is "/" and of the empty path "." |
| KernelVersion.FirstMatchesAre | go_node_engine/virtualization/internal/crosvm/internal/kernel/pick.go:52-63 | The result is that of the first pattern that fails or has a match |

## Left out

- InstanceProtocol.TraceInv: the start counter is unbounded; the 32-bit counter of the source would wrap after 2^32 starts.
- InstanceRuntime.Instance.WaitForExit: a wait that has not ended yet is a result of its own, there and in Stop and Close; the exit goroutine puts its excerpt into the log, which is not modelled beyond `Utf8.ReadExcerpt`.
- TailBuffers.TailBuffer.Write: the position is unbounded (no wrap-around of the machine word) and the capacity positive.
- TailBuffers.TailBuffer.WriteToSkippingUntil: the writer accepts every byte; the model does not include writers that fail or the mutex around the buffer, whose calls are single steps.
- Starting processes, stop commands, image store, cloud-init files and metrics of a crosvm instance; whether a start, a stop in time and the network teardown succeed is left open.
- ClusterManager.Manager.Handle: a handler is one step, and the threads of one redeployment routine run one after the other; races between the reads and writes of two handlers or threads are not modelled, nor is the failure branch of scheduling results, which concatenates a missing node id before testing it.
- ClusterManager.Manager.RedeployDeadJobs: goes over all jobs, as the store ignores the query for failed ones.
- ClusterManager.Manager.UpdateStatus: instance documents without a status key (the root always sends one), job documents without an instance list, status details, CPU and memory history and logs are not modelled.
- Aggregation.Aggregator.AggregateWorkers: covers the canonical resources with the types the node engine reports; other keys, values of other types, empty worker documents and a missing worker list are not modelled, and numbers are reals, without rounding.
- Scheduling.SortByScore: stands for the library sort, of which only an ascending rearrangement is used; ties may be broken either way.
- Scheduling.Calculate: placement constraints only select the candidates that are fetched, which is not modelled; decoding errors are not either.
- CopyDir.CopyDir: requires non-root paths; links, umask and other file kinds than directories and regular files are not modelled, nor are file systems whose creation modes differ from those asked for.
- AddonsMonitor.Monitor.MonitorAddon: assumes that container ids that were removed are not listed again; the texts of reports, installing, disabling and deleting addons are not modelled.
- MountTracker.MountsStayTracked: assumes that operations are atomic and that saving and loading the state file succeed; mounts made by others on the same target are not counted, and startup cleanup saves after each target instead of once at its end.
- TaskIds.ExtractInvertsGenerate: assumes 64-bit ints.
- ContainerIds.IdIsValid: the hash is any 20-character text over its alphabet; SHA-256 and base32 are not modelled.
- KernelVersion.NewestFilesAreFound: globbing is a parameter that gives the matches of a pattern or fails.
- HTTP, gRPC and MQTT transport, Docker, containerd and QEMU calls, dashboards, users and SLA schemas.
- The CSI stage sequence and the containerd and unikernel kill channels.
