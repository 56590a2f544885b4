/**
 The timer: which instances a tick marks as failed, and which it never touches.
 */
module ClusterMarking {
  import opened Wrappers
  import opened ClusterJobs
  import opened ClusterLife

  // ---- What the loops amount to, job by job ----

  predicate Clean(instances: seq<Instance>) {
    forall i :: 0 <= i < |instances| ==> Readable(instances[i])
  }

  predicate CleanJobs(jobs: seq<Job>) {
    forall k :: 0 <= k < |jobs| ==> Clean(jobs[k].instances)
  }

  function MarkedInstance(i: Instance, t: Timeouts, now: Time): Instance {
    if Stale(i, t, now) then Patched(i, MARK, now) else i
  }

  /** Everything up to the first instance that makes the loop raise. */
  function MarkedInstances(instances: seq<Instance>, t: Timeouts, now: Time): (r: seq<Instance>)
    ensures |r| == |instances|
    ensures forall i :: 0 <= i < |r| ==> r[i] == instances[i] || (Readable(instances[i]) && r[i] == MarkedInstance(instances[i], t, now))
    ensures Clean(instances) ==> forall i :: 0 <= i < |r| ==> r[i] == MarkedInstance(instances[i], t, now)
  {
    if instances == [] || !Readable(instances[0]) then
      instances
    else
      [MarkedInstance(instances[0], t, now)] + MarkedInstances(instances[1..], t, now)
  }

  predicate AnyStale(instances: seq<Instance>, t: Timeouts, now: Time) {
    exists i :: 0 <= i < |instances| && Stale(instances[i], t, now)
  }

  function MarkedJob(job: Job, t: Timeouts, now: Time): Job {
    var j := job.(instances := MarkedInstances(job.instances, t, now));
    if Clean(job.instances) && AnyStale(job.instances, t, now) then WithStatus(j, FAILED) else j
  }

  /** The jobs the query does not select stay as they are; nothing is reached after an instance that makes it raise. */
  function MarkedJobs(jobs: seq<Job>, queried: bool, t: Timeouts, now: Time): (r: seq<Job>)
    ensures |r| == |jobs|
    ensures forall k :: 0 <= k < |r| ==> r[k] == jobs[k] || r[k] == MarkedJob(jobs[k], t, now)
  {
    if jobs == [] then
      []
    else
      var later := jobs[1..];
      if queried && !Fetched(jobs[0], t, now) then
        [jobs[0]] + MarkedJobs(later, queried, t, now)
      else
        [MarkedJob(jobs[0], t, now)] + if Clean(jobs[0].instances) then MarkedJobs(later, queried, t, now) else later
  }

  // ---- The loops compute it ----

  lemma {:induction false} MarkOne(jobs: seq<Job>, k: nat, done: seq<Instance>, rest: seq<Instance>, t: Timeouts, now: Time) returns (next: seq<Job>)
    requires k < |jobs| && IndexById(jobs, jobs[k].id) == k
    requires rest != [] && jobs[k].instances == done + rest && Distinct(Numbers(done + rest))
    ensures next == UpdateInstance(jobs, jobs[k].id, rest[0].number, MARK, now).0
    ensures next == jobs[k := jobs[k].(instances := done + [Patched(rest[0], MARK, now)] + rest[1..])]
    ensures IndexById(next, jobs[k].id) == k && Distinct(Numbers(next[k].instances))
  {
    var instances := done + rest;
    assert instances[|done|] == rest[0];
    FirstInstance(instances, |done|);
    next := UpdateInstance(jobs, jobs[k].id, rest[0].number, MARK, now).0;
    assert instances[|done| := Patched(rest[0], MARK, now)] == done + [Patched(rest[0], MARK, now)] + rest[1..];
    assert Numbers(next[k].instances) == Numbers(instances);
    ReplaceJob(jobs, k, next[k]);
  }

  lemma {:induction false} MarkInstancesLoop(jobs: seq<Job>, k: nat, done: seq<Instance>, rest: seq<Instance>, t: Timeouts, now: Time)
    requires k < |jobs| && IndexById(jobs, jobs[k].id) == k
    requires jobs[k].instances == done + rest && Distinct(Numbers(done + rest))
    ensures var r := MarkInstances(jobs, jobs[k].id, rest, t, now);
            && r.jobs == jobs[k := jobs[k].(instances := done + MarkedInstances(rest, t, now))]
            && r.completed == Clean(rest)
            && (r.completed ==> (r.failed != [] <==> AnyStale(rest, t, now)))
    decreases rest
  {
    if rest != [] && Readable(rest[0]) {
      var x, later := rest[0], rest[1..];
      var marked := MarkedInstance(x, t, now);
      CleanAndStaleFromFront(rest, t, now);
      Glue(done, marked, MarkedInstances(later, t, now));
      if Stale(x, t, now) {
        var next := MarkOne(jobs, k, done, rest, t, now);
        MarkInstancesLoop(next, k, done + [marked], later, t, now);
      } else {
        Glue(done, x, later);
        assert rest == [x] + later;
        MarkInstancesLoop(jobs, k, done + [x], later, t, now);
      }
    }
  }

  lemma {:induction false} CleanAndStaleFromFront(rest: seq<Instance>, t: Timeouts, now: Time)
    requires rest != []
    ensures Clean(rest) <==> Readable(rest[0]) && Clean(rest[1..])
    ensures AnyStale(rest, t, now) <==> Stale(rest[0], t, now) || AnyStale(rest[1..], t, now)
  {
    if i :| 0 < i < |rest| && Stale(rest[i], t, now) {
      assert Stale(rest[1..][i - 1], t, now);
    }
    if i :| 0 < i < |rest| && !Readable(rest[i]) {
      assert !Readable(rest[1..][i - 1]);
    }
  }

  lemma {:induction false} MarkedOutline(job: Job, t: Timeouts, now: Time)
    ensures OutlineOf(MarkedJob(job, t, now)) == OutlineOf(job)
  {
    assert Numbers(MarkedJob(job, t, now).instances) == Numbers(job.instances);
  }

  /** The inner loop on job `k` and the write that may follow it. */
  function MarkedStore(jobs: seq<Job>, job: Job, t: Timeouts, now: Time): (seq<Job>, bool) {
    var r := MarkInstances(jobs, job.id, job.instances, t, now);
    (if r.completed && r.failed != [] then FailJob(r.jobs, job.id) else r.jobs, r.completed)
  }

  lemma {:induction false} InnerLoop(jobs: seq<Job>, k: nat, t: Timeouts, now: Time)
    requires k < |jobs| && IndexById(jobs, jobs[k].id) == k && Distinct(Numbers(jobs[k].instances))
    ensures var r := MarkInstances(jobs, jobs[k].id, jobs[k].instances, t, now);
            && r.jobs == jobs[k := jobs[k].(instances := MarkedInstances(jobs[k].instances, t, now))]
            && r.completed == Clean(jobs[k].instances)
            && (r.completed ==> (r.failed != [] <==> AnyStale(jobs[k].instances, t, now)))
  {
    var instances := jobs[k].instances;
    assert [] + instances == instances && [] + MarkedInstances(instances, t, now) == MarkedInstances(instances, t, now);
    MarkInstancesLoop(jobs, k, [], instances, t, now);
  }

  lemma {:induction false} FailReplaced(jobs: seq<Job>, k: nat, half: Job)
    requires k < |jobs| && IndexById(jobs, jobs[k].id) == k && OutlineOf(half) == OutlineOf(jobs[k])
    ensures FailJob(jobs[k := half], half.id) == jobs[k := WithStatus(half, FAILED)]
  {
    ReplaceJob(jobs, k, half);
  }

  lemma {:induction false} MarkJobOnce(jobs: seq<Job>, k: nat, t: Timeouts, now: Time)
    requires WellFormed(jobs) && k < |jobs|
    ensures MarkedStore(jobs, jobs[k], t, now) == (jobs[k := MarkedJob(jobs[k], t, now)], Clean(jobs[k].instances))
  {
    WellFormedAt(jobs, k);
    InnerLoop(jobs, k, t, now);
    var half := jobs[k].(instances := MarkedInstances(jobs[k].instances, t, now));
    assert Numbers(half.instances) == Numbers(jobs[k].instances);
    FailReplaced(jobs, k, half);
  }

  lemma {:induction false} MarkedStaysWellFormed(jobs: seq<Job>, k: nat, t: Timeouts, now: Time)
    requires WellFormed(jobs) && k < |jobs|
    ensures WellFormed(jobs[k := MarkedJob(jobs[k], t, now)])
  {
    MarkedOutline(jobs[k], t, now);
    ReplaceJob(jobs, k, MarkedJob(jobs[k], t, now));
  }

  lemma {:induction false} MarkJobsFront(jobs: seq<Job>, x: Job, later: seq<Job>, t: Timeouts, now: Time)
    ensures MarkJobs(jobs, [x] + later, t, now) ==
            var (next, completed) := MarkedStore(jobs, x, t, now);
            if completed then MarkJobs(next, later, t, now) else (next, false)
  {
    assert ([x] + later)[0] == x && ([x] + later)[1..] == later;
  }

  lemma {:induction false} Glue<T>(a: seq<T>, x: T, b: seq<T>)
    ensures a + [x] + b == a + ([x] + b)
  {
  }

  lemma {:induction false} MarkJobsLoop(done: seq<Job>, rest: seq<Job>, queried: bool, t: Timeouts, now: Time)
    requires WellFormed(done + rest)
    ensures MarkJobs(done + rest, FetchedJobs(rest, queried, t, now), t, now).0 == done + MarkedJobs(rest, queried, t, now)
    decreases rest
  {
    if rest != [] {
      var x, later := rest[0], rest[1..];
      assert rest == [x] + later;
      Glue(done, x, later);
      if queried && !Fetched(x, t, now) {
        assert FetchedJobs(rest, queried, t, now) == FetchedJobs(later, queried, t, now);
        MarkJobsLoop(done + [x], later, queried, t, now);
        Glue(done, x, MarkedJobs(later, queried, t, now));
      } else {
        var marked := MarkedJob(x, t, now);
        assert (done + rest)[|done|] == x && (done + rest)[|done| := marked] == done + [marked] + later;
        MarkFetchedJob(done + rest, |done|, FetchedJobs(later, queried, t, now), t, now);
        assert FetchedJobs(rest, queried, t, now) == [x] + FetchedJobs(later, queried, t, now);
        if Clean(x.instances) {
          MarkJobsLoop(done + [marked], later, queried, t, now);
          Glue(done, marked, MarkedJobs(later, queried, t, now));
        } else {
          Glue(done, marked, later);
        }
      }
    }
  }

  lemma {:induction false} MarkFetchedJob(jobs: seq<Job>, k: nat, fetched: seq<Job>, t: Timeouts, now: Time)
    requires WellFormed(jobs) && k < |jobs|
    ensures var next := jobs[k := MarkedJob(jobs[k], t, now)];
            && WellFormed(next)
            && MarkJobs(jobs, [jobs[k]] + fetched, t, now).0 ==
               if Clean(jobs[k].instances) then MarkJobs(next, fetched, t, now).0 else next
  {
    MarkJobsFront(jobs, jobs[k], fetched, t, now);
    MarkJobOnce(jobs, k, t, now);
    MarkedStaysWellFormed(jobs, k, t, now);
  }

  /** A tick, as the manager performs it, marks job by job. */
  lemma {:induction false} TickIsPointwise(jobs: seq<Job>, queried: bool, t: Timeouts, now: Time)
    requires WellFormed(jobs)
    ensures MarkJobs(jobs, FetchedJobs(jobs, queried, t, now), t, now).0 == MarkedJobs(jobs, queried, t, now)
    ensures Outlines(MarkedJobs(jobs, queried, t, now)) == Outlines(jobs)
  {
    assert [] + jobs == jobs && [] + MarkedJobs(jobs, queried, t, now) == MarkedJobs(jobs, queried, t, now);
    MarkJobsLoop([], jobs, queried, t, now);
    MarkedOutlines(jobs, queried, t, now);
  }

  lemma {:induction false} TickHandled(s: State, queried: bool, t: Timeouts, now: Time)
    requires WellFormed(s.jobs)
    ensures Handle(s, Tick(queried), t, now).jobs == MarkedJobs(s.jobs, queried, t, now)
  {
    assert Handle(s, Tick(queried), t, now).jobs == MarkJobs(s.jobs, FetchedJobs(s.jobs, queried, t, now), t, now).0;
    TickIsPointwise(s.jobs, queried, t, now);
  }

  lemma {:induction false} MarkedOutlines(jobs: seq<Job>, queried: bool, t: Timeouts, now: Time)
    ensures Outlines(MarkedJobs(jobs, queried, t, now)) == Outlines(jobs)
  {
    forall k | 0 <= k < |jobs|
      ensures OutlineOf(MarkedJobs(jobs, queried, t, now)[k]) == OutlineOf(jobs[k])
    {
      MarkedOutline(jobs[k], t, now);
    }
  }

  // ---- The query in front ----

  /** What the query leaves out is not stale. */
  lemma {:induction false} NotFetchedNotStale(job: Job, t: Timeouts, now: Time)
    requires 0.0 <= t.running && 0.0 <= t.nodeScheduled && !Fetched(job, t, now)
    ensures !AnyStale(job.instances, t, now)
    ensures MarkedJob(job, t, now) == job
  {
    assert MarkedInstances(job.instances, t, now) == job.instances;
  }

  /** The first job that makes the loops raise. */
  function FirstUnclean(jobs: seq<Job>): (k: nat)
    ensures k <= |jobs| && (k < |jobs| ==> !Clean(jobs[k].instances))
    ensures forall i :: 0 <= i < k ==> Clean(jobs[i].instances)
  {
    if jobs == [] || !Clean(jobs[0].instances) then 0 else 1 + FirstUnclean(jobs[1..])
  }

  /** No instance up to and including that at index `i` makes the loop raise. */
  predicate CleanUpTo(instances: seq<Instance>, i: int) {
    forall j :: 0 <= j <= i && j < |instances| ==> Readable(instances[j])
  }

  lemma {:induction false} CleanFromFront(x: Instance, rest: seq<Instance>, i: nat)
    ensures CleanUpTo([x] + rest, i) <==> Readable(x) && CleanUpTo(rest, i - 1)
  {
    var all := [x] + rest;
    assert all[0] == x;
    assert forall j :: 0 <= j < |rest| ==> rest[j] == all[j + 1];
    assert forall j :: 0 < j < |all| ==> all[j] == rest[j - 1];
  }

  /** The loop over these instances marks one: it is stale, and no instance up to it makes the loop raise. */
  predicate MarksOne(instances: seq<Instance>, t: Timeouts, now: Time) {
    exists i :: 0 <= i < |instances| && Stale(instances[i], t, now) && CleanUpTo(instances, i)
  }

  lemma {:induction false} MarksFromFront(x: Instance, rest: seq<Instance>, t: Timeouts, now: Time)
    ensures MarksOne([x] + rest, t, now) <==> Readable(x) && (Stale(x, t, now) || MarksOne(rest, t, now))
  {
    var all := [x] + rest;
    if i :| 0 <= i < |all| && Stale(all[i], t, now) && CleanUpTo(all, i) {
      CleanFromFront(x, rest, i);
      if i > 0 {
        assert rest[i - 1] == all[i];
      }
    }
    if Readable(x) && Stale(x, t, now) {
      CleanFromFront(x, rest, 0);
      assert all[0] == x;
    }
    if i :| Readable(x) && 0 <= i < |rest| && Stale(rest[i], t, now) && CleanUpTo(rest, i) {
      CleanFromFront(x, rest, i + 1);
      assert all[i + 1] == rest[i];
    }
  }

  /** Marking changes an instance, since a stale one was heard of before now. */
  lemma {:induction false} MarkedDiffers(i: Instance, t: Timeouts, now: Time)
    requires 0.0 <= t.running && 0.0 <= t.nodeScheduled
    ensures MarkedInstance(i, t, now) == i <==> !Stale(i, t, now)
  {
  }

  lemma {:induction false} InstancesKeptIff(instances: seq<Instance>, t: Timeouts, now: Time)
    requires 0.0 <= t.running && 0.0 <= t.nodeScheduled
    ensures MarkedInstances(instances, t, now) == instances <==> !MarksOne(instances, t, now)
  {
    if instances != [] {
      var x, rest := instances[0], instances[1..];
      assert instances == [x] + rest;
      InstancesKeptIff(rest, t, now);
      MarksFromFront(x, rest, t, now);
      MarkedDiffers(x, t, now);
      if Readable(x) {
        SameCons(MarkedInstance(x, t, now), MarkedInstances(rest, t, now), x, rest);
      }
    }
  }

  lemma {:induction false} SameCons<T>(x: T, a: seq<T>, y: T, b: seq<T>)
    ensures [x] + a == [y] + b <==> x == y && a == b
  {
    assert ([x] + a)[0] == x && ([y] + b)[0] == y && ([x] + a)[1..] == a && ([y] + b)[1..] == b;
  }

  lemma {:induction false} JobKeptIff(job: Job, t: Timeouts, now: Time)
    requires 0.0 <= t.running && 0.0 <= t.nodeScheduled
    ensures MarkedJob(job, t, now) == job <==> !MarksOne(job.instances, t, now)
  {
    InstancesKeptIff(job.instances, t, now);
    if Clean(job.instances) && AnyStale(job.instances, t, now) {
      var i :| 0 <= i < |job.instances| && Stale(job.instances[i], t, now);
      assert CleanUpTo(job.instances, i);
      MarkedDiffers(job.instances[i], t, now);
      assert MarkedInstances(job.instances, t, now)[i] == MarkedInstance(job.instances[i], t, now);
      assert MarkedJob(job, t, now).instances[i].status == Some(FAILED) && MarkedJob(job, t, now).instances[i].heard == At(now);
    }
  }

  /** With the query applied, the loops reach job `m` of `jobs` and mark an instance of it. */
  predicate MarksAt(jobs: seq<Job>, m: int, t: Timeouts, now: Time) {
    && 0 <= m < |jobs|
    && Fetched(jobs[m], t, now) && MarksOne(jobs[m].instances, t, now)
    && forall l :: 0 <= l < m && Fetched(jobs[l], t, now) ==> Clean(jobs[l].instances)
  }

  lemma {:induction false} QueriedKeptIff(jobs: seq<Job>, t: Timeouts, now: Time)
    requires 0.0 <= t.running && 0.0 <= t.nodeScheduled
    ensures MarkedJobs(jobs, true, t, now) == jobs <==> forall m :: !MarksAt(jobs, m, t, now)
  {
    if jobs != [] {
      var x, later := jobs[0], jobs[1..];
      assert jobs == [x] + later;
      QueriedKeptIff(later, t, now);
      JobKeptIff(x, t, now);
      MarksAtFromFront(x, later, t, now);
      SameCons(x, MarkedJobs(later, true, t, now), x, later);
      SameCons(MarkedJob(x, t, now), MarkedJobs(later, true, t, now), x, later);
      SameCons(MarkedJob(x, t, now), later, x, later);
    }
  }

  lemma {:induction false} MarksAtFromFront(x: Job, later: seq<Job>, t: Timeouts, now: Time)
    ensures (exists m :: MarksAt([x] + later, m, t, now)) <==>
            (Fetched(x, t, now) && MarksOne(x.instances, t, now))
            || ((Fetched(x, t, now) ==> Clean(x.instances)) && exists m :: MarksAt(later, m, t, now))
  {
    var jobs := [x] + later;
    if m :| MarksAt(jobs, m, t, now) {
      if m > 0 {
        assert jobs[0] == x && jobs[m] == later[m - 1];
        assert forall l :: 0 <= l < m - 1 ==> later[l] == jobs[l + 1];
        assert MarksAt(later, m - 1, t, now);
      }
    }
    if Fetched(x, t, now) && MarksOne(x.instances, t, now) {
      assert MarksAt(jobs, 0, t, now);
    }
    if m :| (Fetched(x, t, now) ==> Clean(x.instances)) && MarksAt(later, m, t, now) {
      assert forall l :: 0 <= l < m + 1 ==> jobs[l] == if l == 0 then x else later[l - 1];
      assert MarksAt(jobs, m + 1, t, now);
    }
  }

  /** Job `m` comes after job `k`, is fetched and has an instance to mark, and no fetched job between them raises. */
  predicate MarksBehind(jobs: seq<Job>, k: nat, m: int, t: Timeouts, now: Time) {
    && k < m < |jobs|
    && Fetched(jobs[m], t, now) && MarksOne(jobs[m].instances, t, now)
    && forall l :: k < l < m && Fetched(jobs[l], t, now) ==> Clean(jobs[l].instances)
  }

  lemma {:induction false} BehindIsInSuffix(jobs: seq<Job>, k: nat, later: seq<Job>, t: Timeouts, now: Time)
    requires k < |jobs| && later == jobs[k + 1..]
    ensures (exists m :: MarksAt(later, m, t, now)) <==> exists m :: MarksBehind(jobs, k, m, t, now)
  {
    if m :| MarksAt(later, m, t, now) {
      assert forall l :: k < l < m + k + 1 ==> jobs[l] == later[l - k - 1];
      assert MarksBehind(jobs, k, m + k + 1, t, now);
    }
    if m :| MarksBehind(jobs, k, m, t, now) {
      assert forall l :: 0 <= l < m - k - 1 ==> later[l] == jobs[l + k + 1];
      assert MarksAt(later, m - k - 1, t, now);
    }
  }

  /**
   Marking what the query selects is the same as marking everything, unless the first job that makes the loop raise
   is one that the query leaves out, and behind it is a fetched job with an instance to mark, reached before any
   other fetched job raises.
   */
  lemma {:induction false} QueryAgrees(jobs: seq<Job>, t: Timeouts, now: Time)
    requires 0.0 <= t.running && 0.0 <= t.nodeScheduled
    ensures MarkedJobs(jobs, true, t, now) == MarkedJobs(jobs, false, t, now)
            <==> var k := FirstUnclean(jobs);
                 k < |jobs| && !Fetched(jobs[k], t, now) ==> forall m :: !MarksBehind(jobs, k, m, t, now)
  {
    QueryAgreesOnSuffix(jobs, t, now);
    var k := FirstUnclean(jobs);
    if k < |jobs| {
      QueriedKeptIff(jobs[k + 1..], t, now);
      BehindIsInSuffix(jobs, k, jobs[k + 1..], t, now);
    }
  }

  lemma {:induction false} QueryAgreesOnSuffix(jobs: seq<Job>, t: Timeouts, now: Time)
    requires 0.0 <= t.running && 0.0 <= t.nodeScheduled
    ensures MarkedJobs(jobs, true, t, now) == MarkedJobs(jobs, false, t, now)
            <==> var k := FirstUnclean(jobs);
                 k < |jobs| && !Fetched(jobs[k], t, now) ==> MarkedJobs(jobs[k + 1..], true, t, now) == jobs[k + 1..]
  {
    if jobs != [] {
      QueryAgreesOnSuffix(jobs[1..], t, now);
      if !Fetched(jobs[0], t, now) {
        NotFetchedNotStale(jobs[0], t, now);
      }
      if Clean(jobs[0].instances) {
        SameTail(MarkedJob(jobs[0], t, now), MarkedJobs(jobs[1..], true, t, now), MarkedJobs(jobs[1..], false, t, now));
        LaterUnclean(jobs);
      } else {
        SameTail(MarkedJob(jobs[0], t, now), MarkedJobs(jobs[1..], true, t, now), jobs[1..]);
      }
    }
  }

  lemma {:induction false} LaterUnclean(jobs: seq<Job>)
    requires jobs != [] && Clean(jobs[0].instances)
    ensures FirstUnclean(jobs) == FirstUnclean(jobs[1..]) + 1
    ensures FirstUnclean(jobs) < |jobs| ==>
              jobs[FirstUnclean(jobs)] == jobs[1..][FirstUnclean(jobs[1..])] &&
              jobs[FirstUnclean(jobs) + 1..] == jobs[1..][FirstUnclean(jobs[1..]) + 1..]
  {
  }

  lemma {:induction false} SameTail<T>(x: T, a: seq<T>, b: seq<T>)
    ensures [x] + a == [x] + b <==> a == b
  {
    assert ([x] + a)[1..] == a && ([x] + b)[1..] == b;
  }

  lemma {:induction false} QueryAgreesWhenClean(jobs: seq<Job>, t: Timeouts, now: Time)
    requires CleanJobs(jobs) && 0.0 <= t.running && 0.0 <= t.nodeScheduled
    ensures MarkedJobs(jobs, true, t, now) == MarkedJobs(jobs, false, t, now)
  {
    QueryAgrees(jobs, t, now);
  }

  /** The exception is real: a fresh instance with an unknown status hides a silent job behind it from the full run only. */
  lemma {:induction false} QueryDisagrees() returns (jobs: seq<Job>, t: Timeouts, now: Time)
    ensures WellFormed(jobs) && 0.0 <= t.running && 0.0 <= t.nodeScheduled
    ensures MarkedJobs(jobs, true, t, now) != MarkedJobs(jobs, false, t, now)
  {
    t, now := Timeouts(10.0, 10.0), 100.0;
    var odd := Job("a", "a", None, [Instance(0, Some(Unrecognised("?")), At(100.0), None, false)]);
    var silent := Job("b", "b", None, [Instance(0, Some(RUNNING), At(0.0), None, false)]);
    jobs := [odd, silent];
    assert jobs[1..] == [silent];
    assert Stale(silent.instances[0], t, now);
    assert MarkedJob(silent, t, now).status == Some(FAILED);
    assert !Fetched(odd, t, now) && Fetched(silent, t, now);
    assert MarkedJobs(jobs, true, t, now)[1] == MarkedJobs([silent], true, t, now)[0] == MarkedJob(silent, t, now);
    assert MarkedJobs(jobs, false, t, now)[1] == silent;
  }

  // ---- One instance through a tick ----

  function MarkedLife(l: Life, t: Timeouts, now: Time): Life {
    if l.Life? && StaleStatus(l.status, l.heard, t, now) then Life.Life(Some(FAILED), At(now)) else l
  }

  /** No instance up to and including number `n` makes the loop over a job raise. */
  predicate ReachedIn(instances: seq<Instance>, n: int) {
    CleanUpTo(instances, IndexOfInstance(instances, n))
  }

  /** No job that a loop over the jobs visits before job `k` makes it raise. */
  predicate CleanBefore(jobs: seq<Job>, queried: bool, t: Timeouts, now: Time, k: nat) {
    forall l :: 0 <= l < k && l < |jobs| && (queried ==> Fetched(jobs[l], t, now)) ==> Clean(jobs[l].instances)
  }

  lemma {:induction false} CleanBeforeFromFront(x: Job, later: seq<Job>, queried: bool, t: Timeouts, now: Time, k: nat)
    ensures CleanBefore([x] + later, queried, t, now, k + 1) <==>
            ((queried ==> Fetched(x, t, now)) ==> Clean(x.instances)) && CleanBefore(later, queried, t, now, k)
  {
    var jobs := [x] + later;
    assert jobs[0] == x;
    assert forall l :: 0 <= l < |later| ==> later[l] == jobs[l + 1];
    assert forall l :: 0 < l < |jobs| ==> jobs[l] == later[l - 1];
  }

  /** No instance that the loops visit up to and including number `n` of job `id` makes them raise. */
  predicate Reached(jobs: seq<Job>, queried: bool, t: Timeouts, now: Time, id: string, n: int) {
    var k := IndexById(jobs, id);
    CleanBefore(jobs, queried, t, now, k) && (k < |jobs| ==> ReachedIn(jobs[k].instances, n))
  }

  lemma {:induction false} CleanIsReached(jobs: seq<Job>, queried: bool, t: Timeouts, now: Time, id: string, n: int)
    requires CleanJobs(jobs)
    ensures Reached(jobs, queried, t, now, id, n)
  {
  }

  /** The marking of instance `i` by itself: only what comes before it counts. */
  lemma {:induction false} MarkedInstanceAt(instances: seq<Instance>, t: Timeouts, now: Time, i: nat)
    requires i < |instances|
    ensures MarkedInstances(instances, t, now)[i] ==
            if CleanUpTo(instances, i) then MarkedInstance(instances[i], t, now) else instances[i]
  {
    var x, rest := instances[0], instances[1..];
    assert instances == [x] + rest;
    CleanFromFront(x, rest, i);
    if i > 0 {
      assert instances[i] == rest[i - 1];
      MarkedInstanceAt(rest, t, now, i - 1);
    }
  }

  lemma {:induction false} LifeInMarkedJob(job: Job, t: Timeouts, now: Time, number: int)
    ensures var l := LifeIn(job.instances, number);
            LifeIn(MarkedJob(job, t, now).instances, number) == if ReachedIn(job.instances, number) then MarkedLife(l, t, now) else l
  {
    var m := IndexOfInstance(job.instances, number);
    MarkedOutline(job, t, now);
    SameInstanceIndex(MarkedJob(job, t, now).instances, job.instances, number);
    if m < |job.instances| {
      MarkedInstanceAt(job.instances, t, now, m);
    }
  }

  /** A tick marks an instance exactly if it is stale and no instance that the tick visits before it, nor itself, makes it raise. */
  lemma {:induction false} LifeAfterTick(jobs: seq<Job>, queried: bool, t: Timeouts, now: Time, id: string, number: int)
    requires WellFormed(jobs) && 0.0 <= t.running && 0.0 <= t.nodeScheduled
    ensures var l := LifeOf(jobs, id, number);
            LifeOf(MarkedJobs(jobs, queried, t, now), id, number) ==
              if Reached(jobs, queried, t, now, id, number) then MarkedLife(l, t, now) else l
  {
    var after := MarkedJobs(jobs, queried, t, now);
    MarkedOutlines(jobs, queried, t, now);
    OutlinesKeepIndices(after, jobs);
    var k := IndexById(jobs, id);
    if k < |jobs| {
      MarkedAt(jobs, queried, t, now, k);
      LifeInMarkedJob(jobs[k], t, now, number);
      if queried && !Fetched(jobs[k], t, now) {
        NotFetchedNotStale(jobs[k], t, now);
      }
    }
  }

  lemma {:induction false} MarkedFront(x: Job, later: seq<Job>, queried: bool, t: Timeouts, now: Time)
    requires 0.0 <= t.running && 0.0 <= t.nodeScheduled
    ensures var goesOn := (queried ==> Fetched(x, t, now)) ==> Clean(x.instances);
            MarkedJobs([x] + later, queried, t, now) ==
              [MarkedJob(x, t, now)] + if goesOn then MarkedJobs(later, queried, t, now) else later
  {
    assert ([x] + later)[0] == x && ([x] + later)[1..] == later;
    if queried && !Fetched(x, t, now) {
      NotFetchedNotStale(x, t, now);
    }
  }

  /** Job `k` is marked exactly if no job that is visited before it raises. */
  lemma {:induction false} MarkedAt(jobs: seq<Job>, queried: bool, t: Timeouts, now: Time, k: nat)
    requires k < |jobs| && 0.0 <= t.running && 0.0 <= t.nodeScheduled
    ensures MarkedJobs(jobs, queried, t, now)[k] ==
            if CleanBefore(jobs, queried, t, now, k) then MarkedJob(jobs[k], t, now) else jobs[k]
  {
    var x, later := jobs[0], jobs[1..];
    assert jobs == [x] + later;
    MarkedFront(x, later, queried, t, now);
    if k > 0 {
      CleanBeforeFromFront(x, later, queried, t, now, k - 1);
      assert later[k - 1] == jobs[k];
      MarkedAt(later, queried, t, now, k - 1);
    }
  }

  // ---- Which instances a tick fails ----

  /** The tick fails this life exactly if the condition holds, and otherwise leaves it. */
  predicate FailsIff(l: Life, after: Life, now: Time, condition: bool) {
    after == if condition then Life.Life(Some(FAILED), At(now)) else l
  }

  /**
   What a tick does to an instance that it reaches, status by status: one that waits for its node has the timeout for that; one
   that is completed, requested or waiting for a node to be found has none; any other has the running timeout, also one
   without a status. Without a time none is ever failed.
   */
  lemma {:induction false} TickByStatus(s: State, queried: bool, t: Timeouts, now: Time, id: string, n: int)
    requires WellFormed(s.jobs) && 0.0 <= t.running && 0.0 <= t.nodeScheduled && Reached(s.jobs, queried, t, now, id, n)
    requires !LifeOf(s.jobs, id, n).Absent?
    ensures ByStatus(LifeOf(s.jobs, id, n), LifeOf(Handle(s, Tick(queried), t, now).jobs, id, n), t, now)
  {
    TickHandled(s, queried, t, now);
    LifeAfterTick(s.jobs, queried, t, now, id, n);
    MarkedByStatus(LifeOf(s.jobs, id, n), t, now);
  }

  predicate ByStatus(l: Life, after: Life, t: Timeouts, now: Time)
    requires l.Life?
  {
    match l.heard
    case At(h) =>
      if l.status == Some(NODE_SCHEDULED) then FailsIff(l, after, now, now - h > t.nodeScheduled)
      else if l.status == Some(REQUESTED) || l.status == Some(CLUSTER_SCHEDULED) || l.status == Some(COMPLETED) then after == l
      else FailsIff(l, after, now, now - h > t.running)
    case _ => after == l
  }

  lemma {:induction false} MarkedByStatus(l: Life, t: Timeouts, now: Time)
    requires l.Life? && 0.0 <= t.running && 0.0 <= t.nodeScheduled
    ensures ByStatus(l, MarkedLife(l, t, now), t, now)
  {
  }

  /** The instance makes the timer raise: its status is none that the cluster knows, or its time is null. */
  predicate Raises(i: Instance) {
    i.heard == Null || (i.status.Some? && i.status.value.Unrecognised?)
  }

  /** A tick over all jobs gets no further than the first instance that raises: whatever comes after it stays as it is. */
  lemma {:induction false} RaisingStopsTheTick(s: State, t: Timeouts, now: Time, k: nat, i: nat)
    requires WellFormed(s.jobs) && 0.0 <= t.running && 0.0 <= t.nodeScheduled
    requires k < |s.jobs| && i < |s.jobs[k].instances| && Raises(s.jobs[k].instances[i])
    ensures var jobs := Handle(s, Tick(false), t, now).jobs;
            && |jobs| == |s.jobs| && jobs[k + 1..] == s.jobs[k + 1..]
            && jobs[k].status == s.jobs[k].status && |jobs[k].instances| == |s.jobs[k].instances|
            && jobs[k].instances[i..] == s.jobs[k].instances[i..]
  {
    TickHandled(s, false, t, now);
    MarkedAt(s.jobs, false, t, now, k);
    RaisingStopsTheJob(s.jobs[k], t, now, i);
    UncleanStopsTheLoop(s.jobs, t, now, k);
  }

  lemma {:induction false} UncleanStopsTheLoop(jobs: seq<Job>, t: Timeouts, now: Time, k: nat)
    requires k < |jobs| && !Clean(jobs[k].instances) && 0.0 <= t.running && 0.0 <= t.nodeScheduled
    ensures MarkedJobs(jobs, false, t, now)[k + 1..] == jobs[k + 1..]
  {
    forall l | k < l < |jobs|
      ensures MarkedJobs(jobs, false, t, now)[l] == jobs[l]
    {
      MarkedAt(jobs, false, t, now, l);
    }
  }

  lemma {:induction false} RaisingStopsTheJob(job: Job, t: Timeouts, now: Time, i: nat)
    requires i < |job.instances| && Raises(job.instances[i])
    ensures var after := MarkedJob(job, t, now);
            && !Clean(job.instances) && after.status == job.status
            && |after.instances| == |job.instances| && after.instances[i..] == job.instances[i..]
  {
    forall j | i <= j < |job.instances|
      ensures MarkedInstances(job.instances, t, now)[j] == job.instances[j]
    {
      MarkedInstanceAt(job.instances, t, now, j);
    }
  }

  /** Where none raises, a tick reaches every instance. */
  lemma {:induction false} TickReachesAll(jobs: seq<Job>, queried: bool, t: Timeouts, now: Time, id: string, n: int)
    requires forall k, i :: 0 <= k < |jobs| && 0 <= i < |jobs[k].instances| ==> !Raises(jobs[k].instances[i])
    ensures Reached(jobs, queried, t, now, id, n)
  {
    CleanIsReached(jobs, queried, t, now, id, n);
  }

  /** A job is failed by a tick exactly if the tick gets to its end and fails one of its instances; its status stays otherwise. */
  lemma {:induction false} JobAfterTick(s: State, queried: bool, t: Timeouts, now: Time, k: nat)
    requires WellFormed(s.jobs) && k < |s.jobs| && 0.0 <= t.running && 0.0 <= t.nodeScheduled
    requires CleanBefore(s.jobs, queried, t, now, k)
    ensures var job := s.jobs[k];
            var jobs := Handle(s, Tick(queried), t, now).jobs;
            && |jobs| == |s.jobs| && jobs[k].id == job.id && Numbers(jobs[k].instances) == Numbers(job.instances)
            && jobs[k].status ==
               if Clean(job.instances) && (exists n :: LifeIn(jobs[k].instances, n) != LifeIn(job.instances, n)) then Some(FAILED) else job.status
  {
    var job := s.jobs[k];
    TickHandled(s, queried, t, now);
    MarkedAt(s.jobs, queried, t, now, k);
    MarkedOutline(job, t, now);
    WellFormedAt(s.jobs, k);
    ChangedIffStale(job, t, now);
  }

  lemma {:induction false} ChangedIffStale(job: Job, t: Timeouts, now: Time)
    requires Distinct(Numbers(job.instances)) && 0.0 <= t.running && 0.0 <= t.nodeScheduled
    ensures Clean(job.instances) ==>
              ((exists n :: LifeIn(MarkedJob(job, t, now).instances, n) != LifeIn(job.instances, n)) <==> AnyStale(job.instances, t, now))
  {
    if Clean(job.instances) {
      var after := MarkedJob(job, t, now).instances;
      MarkedOutline(job, t, now);
      if i :| 0 <= i < |job.instances| && Stale(job.instances[i], t, now) {
        FirstInstance(job.instances, i);
        LifeInMarkedJob(job, t, now, job.instances[i].number);
        assert LifeIn(after, job.instances[i].number) != LifeIn(job.instances, job.instances[i].number);
      }
      if n :| LifeIn(after, n) != LifeIn(job.instances, n) {
        LifeInMarkedJob(job, t, now, n);
        assert Stale(job.instances[IndexOfInstance(job.instances, n)], t, now);
      }
    }
  }
}
