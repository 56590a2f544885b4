/**
 The hostpath plugin's mount tracker: what is bind-mounted, what is tracked in memory and in the state file,
 and the background queue of unmounts to retry.
 */
module MountTracker {
  import opened Wrappers

  type Target = string

  datatype Record = Record(volumeId: string, sourcePath: string)

  const QUEUE_CAPACITY: nat := 100

  // ---- Outcomes of the system calls ----

  /** Asking the kernel whether a target is a mount point can fail. */
  datatype Check = CheckFailed | IsMountPoint | NoMountPoint

  /**
   An unmount attempt: it can fail, it can find that the path does not exist, and after a successful unmount removing the
   directory can still fail.
   */
  datatype Outcome = Unmounted | UnmountFailed | LeftDirectory | DoesNotExist

  /** What the system call for an unmount says. */
  datatype Answer = Done | NotThere | Refused

  /** What the system calls of one attempt say: the unmount, and whether removing the directory then succeeds. */
  datatype Answers = Answers(unmount: Answer, removed: bool)
  {
    predicate Succeed() {
      !unmount.Refused? && removed
    }
  }

  function OutcomeOf(a: Answers): Outcome {
    match a.unmount
    case Done => if a.removed then Unmounted else LeftDirectory
    case NotThere => if a.removed then DoesNotExist else UnmountFailed
    case Refused => UnmountFailed
  }

  predicate Succeeds(o: Outcome) {
    o.Unmounted? || o.DoesNotExist?
  }

  predicate Unmounts(o: Outcome) {
    o.Unmounted? || o.LeftDirectory?
  }

  // ---- The retry queue, entry by entry ----

  /** In these rounds an entry waits; the counter counts waiting rounds and attempts alike. */
  predicate Waits(attempts: nat) {
    0 < attempts < 7
  }

  /** An entry after one tick; None once it has left the queue. */
  function EntryAfter(attempts: nat, o: Outcome): Option<nat> {
    if Waits(attempts) then Some(attempts + 1)
    else if Succeeds(o) || attempts + 1 >= 20 then None
    else Some(attempts + 1)
  }

  /** The attempts among the first `ticks` ticks of an entry that stays in the queue. */
  function AttemptsBy(ticks: nat): nat {
    if ticks == 0 then 0 else if ticks <= 7 then 1 else ticks - 6
  }

  // ---- The plugin as a state machine ----

  /** `kernel` counts, per target, the bind mounts that publishing made and no unmount has taken down. */
  datatype State = State(
    mounts: map<Target, Record>,
    file: map<Target, Record>,
    queue: seq<Target>,
    retries: map<Target, nat>,
    kernel: map<Target, nat>)

  const FRESH := State(map[], map[], [], map[], map[])

  datatype Attempt = Attempt(target: Target, outcome: Outcome)

  /** `Tick` and `CleanOrphans` carry the order in which the entries are visited and what each attempt meets. */
  datatype Action =
    | Publish(volumeId: string, target: Target, source: Option<string>, check: Check, mounted: bool)
    | Unpublish(attempt: Attempt)
    | Receive
    | Tick(round: seq<Attempt>)
    | CleanOrphans(round: seq<Attempt>)
    | Restart

  function MountCount(kernel: map<Target, nat>, t: Target): nat {
    if t in kernel then kernel[t] else 0
  }

  function CountAt(s: State, t: Target): nat {
    MountCount(s.kernel, t)
  }

  function Track(s: State, t: Target, r: Record): State {
    s.(mounts := s.mounts[t := r], file := s.mounts[t := r])
  }

  function Untrack(s: State, t: Target): State {
    s.(mounts := s.mounts - {t}, file := s.mounts - {t})
  }

  function Take(s: State, a: Attempt): State {
    if Unmounts(a.outcome) then s.(kernel := s.kernel - {a.target}) else s
  }

  function Enqueue(s: State, t: Target): State {
    if |s.queue| < QUEUE_CAPACITY then s.(queue := s.queue + [t]) else s
  }

  /** Refusals first, then a target that is tracked or already a mount point, then the mount itself. */
  function AfterPublish(s: State, volumeId: string, t: Target, source: Option<string>, check: Check, mounted: bool): State {
    if volumeId == "" || t == "" || source.None? || t in s.mounts then s
    else if check.IsMountPoint? then Track(s, t, Record(volumeId, source.value))
    else if !mounted then s
    else Track(s, t, Record(volumeId, source.value)).(kernel := s.kernel[t := CountAt(s, t) + 1])
  }

  /** An attempt at a tracked target: untracked if it succeeds, queued for the worker if it does not. */
  function AfterAttempt(s: State, a: Attempt): State {
    if Succeeds(a.outcome) then Untrack(Take(s, a), a.target) else Enqueue(Take(s, a), a.target)
  }

  function AfterUnpublish(s: State, a: Attempt): State {
    if a.target == "" || a.target !in s.mounts then s else AfterAttempt(s, a)
  }

  function AfterOrphans(s: State, round: seq<Attempt>): State {
    if round == [] then s else AfterAttempt(AfterOrphans(s, round[..|round| - 1]), round[|round| - 1])
  }

  /** One entry of the retry queue at a tick. */
  function AfterRetry(s: State, a: Attempt): State {
    var t := a.target;
    if t !in s.retries then s
    else
      var next := EntryAfter(s.retries[t], a.outcome);
      var u := s.(retries := if next.Some? then s.retries[t := next.value] else s.retries - {t});
      if Waits(s.retries[t]) then u
      else if Succeeds(a.outcome) then Untrack(Take(u, a), t)
      else Take(u, a)
  }

  function AfterTick(s: State, round: seq<Attempt>): State {
    if round == [] then s else AfterRetry(AfterTick(s, round[..|round| - 1]), round[|round| - 1])
  }

  function Apply(s: State, a: Action): State {
    match a
    case Publish(volumeId, target, source, check, mounted) => AfterPublish(s, volumeId, target, source, check, mounted)
    case Unpublish(attempt) => AfterUnpublish(s, attempt)
    case Receive => if s.queue == [] then s else s.(retries := s.retries[s.queue[0] := 0], queue := s.queue[1..])
    case Tick(round) => AfterTick(s, round)
    case CleanOrphans(round) => AfterOrphans(s, round)
    case Restart => s.(mounts := s.file, queue := [], retries := map[])
  }

  /** A path that does not exist is not mounted, and no round visits a target twice. */
  predicate Sound(s: State, round: seq<Attempt>) {
    && (forall i :: 0 <= i < |round| && round[i].outcome.DoesNotExist? ==> CountAt(s, round[i].target) == 0)
    && (forall i, j :: 0 <= i < j < |round| ==> round[i].target != round[j].target)
  }

  /** The round has visited exactly the keys that are not to do any more. */
  ghost predicate Visited(round: seq<Attempt>, keys: set<Target>, todo: set<Target>) {
    && todo <= keys
    && forall t :: t in keys && t !in todo <==> exists i :: 0 <= i < |round| && round[i].target == t
  }

  /** What the kernel answers agrees with what is mounted; a round visits every entry there is. */
  ghost predicate Enabled(s: State, a: Action) {
    match a
    case Publish(_, target, _, check, _) => check.NoMountPoint? ==> CountAt(s, target) == 0
    case Unpublish(attempt) => Sound(s, [attempt])
    case Tick(round) => Sound(s, round) && Visited(round, s.retries.Keys, {})
    case CleanOrphans(round) => Sound(s, round) && Visited(round, s.mounts.Keys, {})
    case _ => true
  }

  // ---- What every run keeps ----

  /**
   Whatever publishing has mounted is tracked in memory and in the state file, nothing is mounted twice, and the
   queues stay within their bounds.
   */
  predicate Inv(s: State) {
    && s.file == s.mounts
    && (forall t :: t in s.kernel ==> s.kernel[t] == 1 && t in s.mounts)
    && |s.queue| <= QUEUE_CAPACITY
    && (forall t :: t in s.retries ==> s.retries[t] < 20)
  }

  lemma {:induction false} AttemptKeeps(s: State, a: Attempt)
    requires Inv(s) && (a.outcome.DoesNotExist? ==> CountAt(s, a.target) == 0)
    ensures Inv(AfterAttempt(s, a))
    ensures forall t :: t != a.target ==> CountAt(AfterAttempt(s, a), t) == CountAt(s, t)
  {
  }

  lemma {:induction false} RetryKeeps(s: State, a: Attempt)
    requires Inv(s) && (a.outcome.DoesNotExist? ==> CountAt(s, a.target) == 0)
    ensures Inv(AfterRetry(s, a))
    ensures forall t :: t != a.target ==> CountAt(AfterRetry(s, a), t) == CountAt(s, t)
  {
  }

  lemma {:induction false} RoundKeeps(s: State, round: seq<Attempt>)
    requires Inv(s) && Sound(s, round)
    ensures Inv(AfterTick(s, round)) && Inv(AfterOrphans(s, round))
    ensures forall t :: (forall i :: 0 <= i < |round| ==> round[i].target != t) ==>
              CountAt(AfterTick(s, round), t) == CountAt(s, t) == CountAt(AfterOrphans(s, round), t)
  {
    if round != [] {
      var before, last := round[..|round| - 1], round[|round| - 1];
      RoundKeeps(s, before);
      assert forall i :: 0 <= i < |before| ==> before[i].target != last.target;
      RetryKeeps(AfterTick(s, before), last);
      AttemptKeeps(AfterOrphans(s, before), last);
      forall t | forall i :: 0 <= i < |round| ==> round[i].target != t
        ensures CountAt(AfterTick(s, round), t) == CountAt(s, t) == CountAt(AfterOrphans(s, round), t)
      {
        assert round[|round| - 1].target != t;
        assert forall i :: 0 <= i < |before| ==> before[i] == round[i];
      }
    }
  }

  lemma {:induction false} InvStep(s: State, a: Action)
    requires Inv(s) && Enabled(s, a)
    ensures Inv(Apply(s, a))
  {
    match a
    case Unpublish(attempt) =>
      assert [attempt][0] == attempt;
      AttemptKeeps(s, attempt);
    case Tick(round) => RoundKeeps(s, round);
    case CleanOrphans(round) => RoundKeeps(s, round);
    case _ =>
  }

  function After(s: State, run: seq<Action>): State {
    if run == [] then s else Apply(After(s, run[..|run| - 1]), run[|run| - 1])
  }

  ghost predicate IsRun(s: State, run: seq<Action>) {
    forall k {:trigger run[k]} :: 0 <= k < |run| ==> Enabled(After(s, run[..k]), run[k])
  }

  lemma {:induction false} PrefixRun(s: State, run: seq<Action>)
    requires run != [] && IsRun(s, run)
    ensures IsRun(s, run[..|run| - 1]) && Enabled(After(s, run[..|run| - 1]), run[|run| - 1])
  {
    var p := run[..|run| - 1];
    forall k {:trigger p[k]} | 0 <= k < |p|
      ensures Enabled(After(s, p[..k]), p[k])
    {
      assert p[..k] == run[..k] && p[k] == run[k];
    }
  }

  /** In every run, restarts included, a mounted target is tracked in memory and on disk, and never mounted twice. */
  lemma {:induction false} MountsStayTracked(run: seq<Action>)
    requires IsRun(FRESH, run)
    ensures var s := After(FRESH, run);
            Inv(s) && forall t :: CountAt(s, t) <= 1 && (CountAt(s, t) > 0 ==> t in s.mounts && t in s.file)
  {
    if run != [] {
      PrefixRun(FRESH, run);
      MountsStayTracked(run[..|run| - 1]);
      InvStep(After(FRESH, run[..|run| - 1]), run[|run| - 1]);
    }
  }

  predicate UnmountsIn(round: seq<Attempt>, t: Target) {
    exists i :: 0 <= i < |round| && round[i].target == t && Unmounts(round[i].outcome)
  }

  /** The action contains a successful unmount of `t`. */
  predicate UnmountsTarget(a: Action, t: Target) {
    match a
    case Unpublish(attempt) => attempt.target == t && Unmounts(attempt.outcome)
    case Tick(round) => UnmountsIn(round, t)
    case CleanOrphans(round) => UnmountsIn(round, t)
    case _ => false
  }

  lemma {:induction false} TickUnmounts(s: State, round: seq<Attempt>, t: Target)
    requires !UnmountsIn(round, t)
    ensures CountAt(AfterTick(s, round), t) == CountAt(s, t)
  {
    if round != [] {
      assert forall i :: 0 <= i < |round| - 1 ==> round[..|round| - 1][i] == round[i];
      TickUnmounts(s, round[..|round| - 1], t);
      assert !(round[|round| - 1].target == t && Unmounts(round[|round| - 1].outcome));
    }
  }

  lemma {:induction false} OrphansUnmount(s: State, round: seq<Attempt>, t: Target)
    requires !UnmountsIn(round, t)
    ensures CountAt(AfterOrphans(s, round), t) == CountAt(s, t)
  {
    if round != [] {
      assert forall i :: 0 <= i < |round| - 1 ==> round[..|round| - 1][i] == round[i];
      OrphansUnmount(s, round[..|round| - 1], t);
      assert !(round[|round| - 1].target == t && Unmounts(round[|round| - 1].outcome));
    }
  }

  /** A mount goes away only through a successful unmount of it: until then it stays tracked, also across restarts. */
  lemma {:induction false} TrackedUntilUnmounted(s: State, run: seq<Action>, t: Target)
    requires Inv(s) && CountAt(s, t) == 1 && IsRun(s, run)
    requires forall k :: 0 <= k < |run| ==> !UnmountsTarget(run[k], t)
    ensures Inv(After(s, run)) && CountAt(After(s, run), t) == 1 && t in After(s, run).mounts && t in After(s, run).file
  {
    if run != [] {
      var p, last := run[..|run| - 1], run[|run| - 1];
      PrefixRun(s, run);
      assert forall k :: 0 <= k < |p| ==> p[k] == run[k];
      TrackedUntilUnmounted(s, p, t);
      InvStep(After(s, p), last);
      StillMounted(After(s, p), last, t);
    }
  }

  lemma {:induction false} StillMounted(s: State, a: Action, t: Target)
    requires Inv(s) && CountAt(s, t) == 1 && !UnmountsTarget(a, t)
    ensures CountAt(Apply(s, a), t) == 1
  {
    if a.Tick? {
      TickUnmounts(s, a.round, t);
    } else if a.CleanOrphans? {
      OrphansUnmount(s, a.round, t);
    }
  }

  // ---- How long an entry stays in the retry queue ----

  function EntryIn(s: State, t: Target): Option<nat> {
    if t in s.retries then Some(s.retries[t]) else None
  }

  /** What a round meets at `t`. */
  function OutcomeIn(round: seq<Attempt>, t: Target): Option<Outcome> {
    if round == [] then None
    else if round[|round| - 1].target == t then Some(round[|round| - 1].outcome)
    else OutcomeIn(round[..|round| - 1], t)
  }

  lemma {:induction false} OutcomeThere(round: seq<Attempt>, t: Target)
    ensures OutcomeIn(round, t).Some? <==> exists i :: 0 <= i < |round| && round[i].target == t
  {
    if round != [] {
      var before := round[..|round| - 1];
      OutcomeThere(before, t);
      assert forall i :: 0 <= i < |before| ==> before[i] == round[i];
    }
  }

  ghost predicate DistinctTargets(round: seq<Attempt>) {
    forall i, j :: 0 <= i < j < |round| ==> round[i].target != round[j].target
  }

  /** A tick moves each entry it visits by exactly one step of that entry. */
  lemma {:induction false} TickMovesEntry(s: State, round: seq<Attempt>, t: Target)
    requires DistinctTargets(round)
    ensures EntryIn(AfterTick(s, round), t) ==
            if t in s.retries && OutcomeIn(round, t).Some? then EntryAfter(s.retries[t], OutcomeIn(round, t).value)
            else EntryIn(s, t)
  {
    if round != [] {
      var before, last := round[..|round| - 1], round[|round| - 1];
      TickMovesEntry(s, before, t);
      OutcomeThere(before, t);
      assert forall i :: 0 <= i < |before| ==> before[i].target != last.target;
    }
  }

  function Ticks(run: seq<Action>): nat {
    if run == [] then 0 else Ticks(run[..|run| - 1]) + if run[|run| - 1].Tick? then 1 else 0
  }

  /** The action attempts the unmount of `t` from the retry queue. */
  predicate AttemptsEntry(s: State, a: Action, t: Target) {
    a.Tick? && t in s.retries && !Waits(s.retries[t])
  }

  function AttemptsOn(s: State, run: seq<Action>, t: Target): nat {
    if run == [] then 0
    else
      var before := run[..|run| - 1];
      AttemptsOn(s, before, t) + if AttemptsEntry(After(s, before), run[|run| - 1], t) then 1 else 0
  }

  predicate Requeues(s: State, a: Action, t: Target) {
    a.Receive? && s.queue != [] && s.queue[0] == t
  }

  ghost predicate NotRequeued(s: State, run: seq<Action>, t: Target) {
    forall k {:trigger run[k]} :: 0 <= k < |run| ==> !Requeues(After(s, run[..k]), run[k], t)
  }

  lemma {:induction false} PrefixNotRequeued(s: State, run: seq<Action>, t: Target)
    requires run != [] && NotRequeued(s, run, t)
    ensures NotRequeued(s, run[..|run| - 1], t) && !Requeues(After(s, run[..|run| - 1]), run[|run| - 1], t)
  {
    var p := run[..|run| - 1];
    forall k {:trigger p[k]} | 0 <= k < |p|
      ensures !Requeues(After(s, p[..k]), p[k], t)
    {
      assert p[..k] == run[..k] && p[k] == run[k];
    }
  }

  /** Only ticks, restarts and a new request move an entry. */
  lemma {:induction false} EntryStep(s: State, a: Action, t: Target)
    requires Enabled(s, a) && !Requeues(s, a, t)
    ensures a.Tick? && t in s.retries ==>
              OutcomeIn(a.round, t).Some? && EntryIn(Apply(s, a), t) == EntryAfter(s.retries[t], OutcomeIn(a.round, t).value)
    ensures a.Restart? || t !in s.retries ==> EntryIn(Apply(s, a), t) == None
    ensures !a.Tick? && !a.Restart? ==> EntryIn(Apply(s, a), t) == EntryIn(s, t)
  {
    match a
    case Tick(round) =>
      TickMovesEntry(s, round, t);
      OutcomeThere(round, t);
    case CleanOrphans(round) => OrphansKeepRetries(s, round);
    case _ =>
  }

  lemma {:induction false} OrphansKeepRetries(s: State, round: seq<Attempt>)
    ensures AfterOrphans(s, round).retries == s.retries
  {
    if round != [] {
      OrphansKeepRetries(s, round[..|round| - 1]);
    }
  }

  /** While it is queued, the counter of an entry tells how many ticks and attempts it has seen. */
  lemma {:induction false} EntryProgress(s: State, run: seq<Action>, t: Target)
    requires EntryIn(s, t) == Some(0) && IsRun(s, run) && NotRequeued(s, run, t)
    ensures var u, n := After(s, run), AttemptsOn(s, run, t);
            && n <= 14
            && (t in u.retries ==> u.retries[t] == Ticks(run) < 20 && n == AttemptsBy(Ticks(run)))
  {
    if run != [] {
      var before, last := run[..|run| - 1], run[|run| - 1];
      PrefixRun(s, run);
      PrefixNotRequeued(s, run, t);
      EntryProgress(s, before, t);
      EntryStep(After(s, before), last, t);
    }
  }

  /**
   In every run, an entry that is not queued again has left the queue after 20 ticks, and is attempted at most 14 times,
   whatever the attempts meet.
   */
  lemma {:induction false} EntryLeaves(s: State, run: seq<Action>, t: Target)
    requires EntryIn(s, t) == Some(0) && IsRun(s, run) && NotRequeued(s, run, t)
    ensures AttemptsOn(s, run, t) <= 14
    ensures Ticks(run) >= 20 ==> t !in After(s, run).retries
    ensures t in After(s, run).retries ==> After(s, run).retries[t] == Ticks(run)
  {
    EntryProgress(s, run, t);
  }

  /** No restart, and no attempt at `t` in a tick succeeds. */
  predicate KeepsFailing(a: Action, t: Target) {
    !a.Restart? && (a.Tick? && OutcomeIn(a.round, t).Some? ==> !Succeeds(OutcomeIn(a.round, t).value))
  }

  /** The bounds are met exactly by an entry whose attempts never succeed. */
  lemma {:induction false} EntryGivesUp(s: State, run: seq<Action>, t: Target)
    requires EntryIn(s, t) == Some(0) && IsRun(s, run) && NotRequeued(s, run, t)
    requires forall k :: 0 <= k < |run| ==> KeepsFailing(run[k], t)
    ensures EntryIn(After(s, run), t) == if Ticks(run) < 20 then Some(Ticks(run)) else None
    ensures AttemptsOn(s, run, t) == if Ticks(run) < 20 then AttemptsBy(Ticks(run)) else 14
  {
    if run != [] {
      var before, last := run[..|run| - 1], run[|run| - 1];
      PrefixRun(s, run);
      PrefixNotRequeued(s, run, t);
      assert forall k :: 0 <= k < |before| ==> before[k] == run[k];
      EntryGivesUp(s, before, t);
      EntryStep(After(s, before), last, t);
    }
  }

  // ---- Losing a mount that nobody asks to unmount ----

  /** Somebody asks for an unmount of `t`: an unpublish of it, or the cleanup at startup. */
  predicate AsksToUnmount(a: Action, t: Target) {
    a.CleanOrphans? || (a.Unpublish? && a.attempt.target == t)
  }

  ghost predicate NobodyAsks(run: seq<Action>, t: Target) {
    forall k :: 0 <= k < |run| ==> !AsksToUnmount(run[k], t)
  }

  predicate IsQueued(s: State, t: Target) {
    t in s.queue || t in s.retries
  }

  lemma {:induction false} UnqueuedStep(s: State, a: Action, t: Target)
    requires Inv(s) && Enabled(s, a) && CountAt(s, t) == 1 && !IsQueued(s, t) && !AsksToUnmount(a, t)
    ensures CountAt(Apply(s, a), t) == 1 && !IsQueued(Apply(s, a), t)
  {
    match a
    case Tick(round) =>
      assert !UnmountsIn(round, t) && OutcomeIn(round, t).None? by {
        OutcomeThere(round, t);
      }
      TickUnmounts(s, round, t);
      TickMovesEntry(s, round, t);
      TickKeepsQueue(s, round);
    case Receive =>
      if s.queue != [] {
        assert s.queue[0] in s.queue && forall x :: x in s.queue[1..] ==> x in s.queue;
      }
    case _ =>
  }

  lemma {:induction false} TickKeepsQueue(s: State, round: seq<Attempt>)
    ensures AfterTick(s, round).queue == s.queue
  {
    if round != [] {
      TickKeepsQueue(s, round[..|round| - 1]);
    }
  }

  lemma {:induction false} UnqueuedStaysMounted(s: State, run: seq<Action>, t: Target)
    requires Inv(s) && CountAt(s, t) == 1 && !IsQueued(s, t) && IsRun(s, run) && NobodyAsks(run, t)
    ensures Inv(After(s, run)) && CountAt(After(s, run), t) == 1 && !IsQueued(After(s, run), t)
  {
    if run != [] {
      var p, last := run[..|run| - 1], run[|run| - 1];
      PrefixRun(s, run);
      assert forall k :: 0 <= k < |p| ==> p[k] == run[k];
      UnqueuedStaysMounted(s, p, t);
      InvStep(After(s, p), last);
      UnqueuedStep(After(s, p), last, t);
    }
  }

  lemma {:induction false} StepThenRun(s: State, a: Action, rest: seq<Action>)
    requires Enabled(s, a) && IsRun(Apply(s, a), rest)
    ensures IsRun(s, [a] + rest) && After(s, [a] + rest) == After(Apply(s, a), rest)
  {
    var run := [a] + rest;
    if rest == [] {
      assert run == [a] && run[..0] == [];
    } else {
      var p := rest[..|rest| - 1];
      PrefixRun(Apply(s, a), rest);
      StepThenRun(s, a, p);
      assert run[..|run| - 1] == [a] + p && run[|run| - 1] == rest[|rest| - 1];
      forall k {:trigger run[k]} | 0 <= k < |run|
        ensures Enabled(After(s, run[..k]), run[k])
      {
        if k < |run| - 1 {
          assert run[..k] == ([a] + p)[..k] && run[k] == ([a] + p)[k];
        }
      }
    }
  }

  /** A round over these entries in which the attempt at `t` succeeds and every other one fails. */
  lemma {:induction false} RoundWith(keys: set<Target>, t: Target) returns (round: seq<Attempt>)
    ensures Visited(round, keys, {}) && DistinctTargets(round)
    ensures forall i :: 0 <= i < |round| ==> round[i].outcome == if round[i].target == t then Unmounted else UnmountFailed
  {
    round := [];
    var todo := keys;
    while todo != {}
      invariant Visited(round, keys, todo) && DistinctTargets(round)
      invariant forall i :: 0 <= i < |round| ==> round[i].outcome == if round[i].target == t then Unmounted else UnmountFailed
      decreases todo
    {
      var u :| u in todo;
      VisitedMore(round, keys, todo - {u}, Attempt(u, if u == t then Unmounted else UnmountFailed));
      round := round + [Attempt(u, if u == t then Unmounted else UnmountFailed)];
      todo := todo - {u};
    }
  }

  lemma {:induction false} VisitedMore(round: seq<Attempt>, keys: set<Target>, todo: set<Target>, a: Attempt)
    requires Visited(round, keys, todo + {a.target}) && a.target !in todo && DistinctTargets(round)
    ensures Visited(round + [a], keys, todo) && DistinctTargets(round + [a])
  {
    var longer := round + [a];
    assert longer[|round|] == a;
    assert forall i :: 0 <= i < |round| ==> longer[i] == round[i] && round[i].target != a.target;
    forall t
      ensures t in keys && t !in todo <==> exists i :: 0 <= i < |longer| && longer[i].target == t
    {
      if i :| 0 <= i < |round| && round[i].target == t {
        assert longer[i].target == t;
      }
    }
  }

  lemma {:induction false} OutcomeAt(round: seq<Attempt>, i: nat)
    requires i < |round| && DistinctTargets(round)
    ensures OutcomeIn(round, round[i].target) == Some(round[i].outcome)
  {
    if i < |round| - 1 {
      OutcomeAt(round[..|round| - 1], i);
    }
  }

  /** The tick's attempt at an entry that does not wait takes its mount down. */
  lemma {:induction false} TickTakesDown(s: State, round: seq<Attempt>, t: Target)
    requires DistinctTargets(round) && t in s.retries && !Waits(s.retries[t]) && OutcomeIn(round, t) == Some(Unmounted)
    ensures CountAt(AfterTick(s, round), t) == 0
  {
    var before, last := round[..|round| - 1], round[|round| - 1];
    if last.target == t {
      TickMovesEntry(s, before, t);
      OutcomeThere(before, t);
      assert forall i :: 0 <= i < |before| ==> before[i].target != last.target;
    } else {
      TickTakesDown(s, before, t);
    }
  }

  lemma {:induction false} RetryTakesDown(s: State, t: Target) returns (run: seq<Action>)
    requires t in s.retries
    ensures IsRun(s, run) && NobodyAsks(run, t) && CountAt(After(s, run), t) == 0
    decreases if Waits(s.retries[t]) then 7 - s.retries[t] else 0
  {
    var round := RoundWith(s.retries.Keys, t);
    var i :| 0 <= i < |round| && round[i].target == t;
    OutcomeAt(round, i);
    var next := Apply(s, Tick(round));
    TickMovesEntry(s, round, t);
    var rest := [];
    if Waits(s.retries[t]) {
      rest := RetryTakesDown(next, t);
    } else {
      TickTakesDown(s, round, t);
    }
    StepThenRun(s, Tick(round), rest);
    run := [Tick(round)] + rest;
  }

  lemma {:induction false} QueuedTakesDown(s: State, t: Target) returns (run: seq<Action>)
    requires IsQueued(s, t)
    ensures IsRun(s, run) && NobodyAsks(run, t) && CountAt(After(s, run), t) == 0
    decreases |s.queue|
  {
    if t in s.retries {
      run := RetryTakesDown(s, t);
    } else {
      assert s.queue == [s.queue[0]] + s.queue[1..];
      var rest := QueuedTakesDown(Apply(s, Receive), t);
      StepThenRun(s, Receive, rest);
      run := [Receive] + rest;
    }
  }

  /**
   Publishing again does not withdraw a queued unmount: a mounted target can lose its mount without anyone asking for it
   exactly if it is waiting for the worker.
   */
  lemma {:induction false} LosesMountIffQueued(s: State, t: Target)
    requires Inv(s) && CountAt(s, t) == 1
    ensures (exists run :: IsRun(s, run) && NobodyAsks(run, t) && CountAt(After(s, run), t) == 0) <==> IsQueued(s, t)
  {
    if IsQueued(s, t) {
      var run := QueuedTakesDown(s, t);
    } else {
      forall run | IsRun(s, run) && NobodyAsks(run, t)
        ensures CountAt(After(s, run), t) == 1
      {
        UnqueuedStaysMounted(s, run, t);
      }
    }
  }

  // ---- What a failed unmount leads to ----

  /** An attempt at `t` has taken it out of the tracker, or has left it there; what is mounted elsewhere stays. */
  ghost predicate Concludes(s: State, u: State, t: Target, gone: bool) {
    && u.mounts == u.file == (if gone then s.mounts - {t} else s.mounts)
    && (gone ==> t !in u.kernel)
    && forall other :: other != t ==> CountAt(u, other) == CountAt(s, other)
  }

  /**
   What an unpublish makes of each outcome: a target that is unmounted with its directory, or does not exist any more, is forgotten;
   one whose unmount fails stays tracked and mounted, and one whose directory stays is tracked without being mounted. A target
   that is not tracked, or empty, is left alone.
   */
  lemma {:induction false} UnpublishByOutcome(s: State, t: Target, o: Outcome)
    requires Inv(s) && Enabled(s, Unpublish(Attempt(t, o)))
    ensures var u := Apply(s, Unpublish(Attempt(t, o)));
            if t == "" || t !in s.mounts then u == s
            else
              match o
              case Unmounted => Concludes(s, u, t, true) && u.queue == s.queue
              case DoesNotExist => Concludes(s, u, t, true) && u.queue == s.queue
              case UnmountFailed => Concludes(s, u, t, false) && u.kernel == s.kernel
              case LeftDirectory => Concludes(s, u, t, false) && t !in u.kernel
  {
    assert [Attempt(t, o)][0] == Attempt(t, o);
  }

  /**
   One entry at a tick: in its second to seventh round it only waits; otherwise an outcome that ends the mount ends the entry, and
   any other keeps the target tracked, and its entry until the twentieth round.
   */
  lemma {:induction false} RetryByOutcome(s: State, t: Target, o: Outcome)
    requires Inv(s) && Sound(s, [Attempt(t, o)]) && t in s.retries
    ensures var u := AfterRetry(s, Attempt(t, o));
            var n := s.retries[t];
            if 1 <= n <= 6 then u == s.(retries := s.retries[t := n + 1])
            else if o.Unmounted? || o.DoesNotExist? then Concludes(s, u, t, true) && u.retries == s.retries - {t}
            else
              && Concludes(s, u, t, false) && (if o.UnmountFailed? then u.kernel == s.kernel else t !in u.kernel)
              && u.retries == if n == 19 then s.retries - {t} else s.retries[t := n + 1]
  {
    assert [Attempt(t, o)][0] == Attempt(t, o);
  }

  /** The queue after some targets have been offered to it in turn: those beyond its capacity are dropped. */
  function Offered(queue: seq<Target>, offered: seq<Target>): seq<Target> {
    var all := queue + offered;
    if |all| <= QUEUE_CAPACITY then all else all[..QUEUE_CAPACITY]
  }

  /** The targets of a round that are tracked afterwards, in the order of the round. */
  function StillTracked(mounts: map<Target, Record>, round: seq<Attempt>): seq<Target> {
    if round == [] then []
    else
      var before, t := round[..|round| - 1], round[|round| - 1].target;
      StillTracked(mounts, before) + if t in mounts then [t] else []
  }

  lemma {:induction false} StillTrackedIsTracked(mounts: map<Target, Record>, round: seq<Attempt>, t: Target)
    ensures t in StillTracked(mounts, round) <==> t in mounts && exists i :: 0 <= i < |round| && round[i].target == t
  {
    if round != [] {
      var before := round[..|round| - 1];
      StillTrackedIsTracked(mounts, before, t);
      assert forall i :: 0 <= i < |before| ==> before[i] == round[i];
    }
  }

  lemma {:induction false} StillTrackedLocal(mounts: map<Target, Record>, other: map<Target, Record>, round: seq<Attempt>)
    requires forall i :: 0 <= i < |round| ==> (round[i].target in mounts <==> round[i].target in other)
    ensures StillTracked(mounts, round) == StillTracked(other, round)
  {
    if round != [] {
      var before := round[..|round| - 1];
      assert forall i :: 0 <= i < |before| ==> before[i] == round[i];
      StillTrackedLocal(mounts, other, before);
    }
  }

  /** The cleanup at startup offers the queue exactly what it could not unmount, each target once, in its own order. */
  lemma {:induction false} OrphansQueue(s: State, round: seq<Attempt>)
    requires |s.queue| <= QUEUE_CAPACITY && DistinctTargets(round)
    requires forall i :: 0 <= i < |round| ==> round[i].target in s.mounts
    ensures var u := AfterOrphans(s, round); u.queue == Offered(s.queue, StillTracked(u.mounts, round))
    ensures forall t :: (forall i :: 0 <= i < |round| ==> round[i].target != t) ==>
              (t in AfterOrphans(s, round).mounts <==> t in s.mounts)
  {
    if round != [] {
      var before, last := round[..|round| - 1], round[|round| - 1];
      assert forall i :: 0 <= i < |before| ==> before[i] == round[i];
      OrphansQueue(s, before);
      var m, u := AfterOrphans(s, before), AfterOrphans(s, round);
      assert last.target in m.mounts;
      StillTrackedLocal(m.mounts, u.mounts, before);
      OfferedMore(s.queue, StillTracked(m.mounts, before), last.target);
    }
  }

  lemma {:induction false} OfferedMore(queue: seq<Target>, offered: seq<Target>, t: Target)
    ensures Offered(queue, offered + [t]) ==
            if |Offered(queue, offered)| < QUEUE_CAPACITY then Offered(queue, offered) + [t] else Offered(queue, offered)
  {
    assert queue + (offered + [t]) == (queue + offered) + [t];
  }

  /**
   After an unpublish that leaves the target mounted, the worker can take it down with nobody asking again exactly if the
   target was queued before or found room in the queue.
   */
  lemma {:induction false} FailedUnpublishIsRetriedIff(s: State, a: Attempt)
    requires Inv(s) && Enabled(s, Unpublish(a)) && a.target != "" && CountAt(Apply(s, Unpublish(a)), a.target) == 1
    ensures (exists run :: var u := Apply(s, Unpublish(a));
              IsRun(u, run) && NobodyAsks(run, a.target) && CountAt(After(u, run), a.target) == 0) <==>
            IsQueued(s, a.target) || |s.queue| < 100
  {
    InvStep(s, Unpublish(a));
    LosesMountIffQueued(Apply(s, Unpublish(a)), a.target);
  }

  /**
   A restart empties the queues, and the cleanup at startup fills them again: whatever it leaves mounted is retried, as far
   as the queue has room.
   */
  lemma {:induction false} StartupRetriesIff(s: State, round: seq<Attempt>, t: Target)
    requires Inv(s) && Enabled(Apply(s, Restart), CleanOrphans(round))
    requires CountAt(After(s, [Restart, CleanOrphans(round)]), t) == 1
    ensures var u := After(s, [Restart, CleanOrphans(round)]);
            (exists run :: IsRun(u, run) && NobodyAsks(run, t) && CountAt(After(u, run), t) == 0) <==>
            t in Offered([], StillTracked(u.mounts, round))
    ensures |s.mounts| <= QUEUE_CAPACITY ==> t in Offered([], StillTracked(After(s, [Restart, CleanOrphans(round)]).mounts, round))
  {
    var start, clean := Apply(s, Restart), CleanOrphans(round);
    TwoSteps(s, Restart, clean);
    var u := Apply(start, clean);
    InvStep(s, Restart);
    InvStep(start, clean);
    OrphansQueue(start, round);
    OrphansKeepRetries(start, round);
    LosesMountIffQueued(u, t);
    var left := StillTracked(u.mounts, round);
    StillTrackedIsTracked(u.mounts, round, t);
    assert t in left;
    StillTrackedFits(start, round);
    assert [] + left == left;
  }

  lemma {:induction false} TwoSteps(s: State, a: Action, b: Action)
    ensures After(s, [a, b]) == Apply(Apply(s, a), b)
  {
    assert [a, b][..1] == [a] && [a][..0] == [];
    assert After(s, [a]) == Apply(After(s, []), a);
  }

  lemma {:induction false} StillTrackedFits(s: State, round: seq<Attempt>)
    requires DistinctTargets(round) && forall i :: 0 <= i < |round| ==> round[i].target in s.mounts
    ensures |round| <= |s.mounts| && |StillTracked(AfterOrphans(s, round).mounts, round)| <= |round|
  {
    TargetsFit(round, s.mounts.Keys);
    StillTrackedShort(AfterOrphans(s, round).mounts, round);
  }

  lemma {:induction false} TargetsFit(round: seq<Attempt>, keys: set<Target>)
    requires DistinctTargets(round) && forall i :: 0 <= i < |round| ==> round[i].target in keys
    ensures |round| <= |keys|
  {
    if round != [] {
      var before, last := round[..|round| - 1], round[|round| - 1];
      assert forall i :: 0 <= i < |before| ==> before[i] == round[i];
      TargetsFit(before, keys - {last.target});
    }
  }

  lemma {:induction false} StillTrackedShort(mounts: map<Target, Record>, round: seq<Attempt>)
    ensures |StillTracked(mounts, round)| <= |round|
  {
    if round != [] {
      StillTrackedShort(mounts, round[..|round| - 1]);
    }
  }

  /** Without that cleanup a restart withdraws every queued unmount. */
  lemma {:induction false} RestartWithdraws(s: State, run: seq<Action>, t: Target)
    requires Inv(s) && CountAt(s, t) == 1 && IsRun(Apply(s, Restart), run) && NobodyAsks(run, t)
    ensures CountAt(After(Apply(s, Restart), run), t) == 1
  {
    InvStep(s, Restart);
    UnqueuedStaysMounted(Apply(s, Restart), run, t);
  }

  // ---- Publishing what is tracked but not mounted ----

  /**
   A publish that is accepted leaves the target mounted by this plugin exactly if it was, or if it is new both to the tracker
   and to the kernel: a target that is tracked without being mounted is not mounted again.
   */
  lemma {:induction false} PublishedIsMountedIff(s: State, a: Action)
    requires Inv(s) && a.Publish? && Enabled(s, a) && a.target in Apply(s, a).mounts
    ensures CountAt(Apply(s, a), a.target) == 1 <==>
            CountAt(s, a.target) == 1 || (a.target !in s.mounts && !a.check.IsMountPoint?)
  {
  }

  /** That situation is reachable: the unmount succeeds but its directory stays, and the next publish mounts nothing. */
  lemma {:induction false} PublishWithoutMount() returns (run: seq<Action>)
    ensures IsRun(FRESH, run) && |run| == 3 && run[2].Publish? && run[2].volumeId != ""
    ensures run[2].target in After(FRESH, run).mounts && CountAt(After(FRESH, run), run[2].target) == 0
  {
    var publish := Publish("v", "t", Some("/s"), NoMountPoint, true);
    run := [publish, Unpublish(Attempt("t", LeftDirectory)), publish];
    assert run[..0] == [] && run[..1][..0] == [] && run[..2][..1] == run[..1] && run[..1] == [publish];
    assert After(FRESH, run[..1]) == Apply(FRESH, run[0]);
    assert After(FRESH, run[..2]) == Apply(Apply(FRESH, run[0]), run[1]);
    assert After(FRESH, run) == Apply(After(FRESH, run[..2]), run[2]);
    forall k {:trigger run[k]} | 0 <= k < |run|
      ensures Enabled(After(FRESH, run[..k]), run[k])
    {
    }
  }

  // ---- The tracker object ----

  class Tracker {
    var mounts: map<Target, Record>
    var cleanupCh: seq<Target>
    var retryQueue: map<Target, nat>

    /** The state file and the kernel outlive the process. */
    var file: map<Target, Record>
    var kernel: map<Target, nat>

    ghost function View(): State
      reads this
    {
      State(mounts, file, cleanupCh, retryQueue, kernel)
    }

    ghost predicate Valid()
      reads this
    {
      Inv(View())
    }

    /** Starting with what an earlier process left: the state file is loaded. */
    constructor (file: map<Target, Record>, kernel: map<Target, nat>)
      requires forall t :: t in kernel ==> kernel[t] == 1 && t in file
      ensures Valid() && View() == State(file, file, [], map[], kernel)
    {
      this.file, this.kernel := file, kernel;
      mounts, cleanupCh, retryQueue := file, [], map[];
    }

    method Save()
      modifies this`file
      ensures file == mounts
    {
      file := mounts;
    }

    method AddMount(volumeId: string, source: string, t: Target)
      modifies this`mounts, this`file
      ensures View() == Track(old(View()), t, Record(volumeId, source))
    {
      mounts := mounts[t := Record(volumeId, source)];
      Save();
    }

    /** What the kernel can say about a target: a path that does not exist is not mounted. */
    ghost predicate CanSay(t: Target, a: Answers)
      reads this`kernel
    {
      a.unmount.NotThere? ==> t !in kernel
    }

    /** Unmounts, then removes the directory; a path that does not exist counts as unmounted. */
    method AttemptUnmount(t: Target, a: Answers) returns (ok: bool)
      requires CanSay(t, a)
      modifies this`kernel
      ensures View() == Take(old(View()), Attempt(t, OutcomeOf(a)))
      ensures ok <==> a.unmount != Refused && a.removed
      ensures kernel == if a.unmount.Done? then old(kernel) - {t} else old(kernel)
    {
      if a.unmount.Refused? {
        return false;
      }
      if a.unmount.Done? {
        kernel := kernel - {t};
      }
      ok := a.removed;
    }

    method Forget(t: Target)
      modifies this`mounts, this`file
      ensures View() == Untrack(old(View()), t)
    {
      mounts := mounts - {t};
      Save();
    }

    method QueueForRetry(t: Target)
      modifies this`cleanupCh
      ensures View() == Enqueue(old(View()), t)
    {
      if |cleanupCh| < QUEUE_CAPACITY {
        cleanupCh := cleanupCh + [t];
      }
    }

    method RemoveMount(t: Target, a: Answers) returns (ok: bool)
      requires Valid() && t != "" && CanSay(t, a)
      modifies this
      ensures Valid() && View() == AfterUnpublish(old(View()), Attempt(t, OutcomeOf(a)))
      ensures ok <==> t !in old(mounts) || a.Succeed()
      ensures ok <==> t !in mounts
      ensures mounts == if ok then old(mounts) - {t} else old(mounts)
      ensures ok ==> t !in kernel
      ensures cleanupCh == if !ok && |old(cleanupCh)| < QUEUE_CAPACITY then old(cleanupCh) + [t] else old(cleanupCh)
    {
      if t !in mounts {
        return true;
      }
      AttemptKeeps(View(), Attempt(t, OutcomeOf(a)));
      ok := AttemptUnmount(t, a);
      if !ok {
        QueueForRetry(t);
        return;
      }
      Forget(t);
    }

    /**
     Mounts unless the target is tracked or the kernel says that something is mounted there. `check` and `mounted` are what the
     kernel says and whether a mount would succeed.
     */
    method PublishVolume(volumeId: string, t: Target, source: Option<string>, check: Check, mounted: bool) returns (ok: bool)
      requires Valid() && (check.NoMountPoint? ==> t !in kernel)
      modifies this
      ensures Valid() && View() == Apply(old(View()), Publish(volumeId, t, source, check, mounted))
      ensures ok <==> volumeId != "" && t != "" && source.Some? && (t in old(mounts) || check.IsMountPoint? || mounted)
      ensures ok ==> file == mounts == if t in old(mounts) then old(mounts) else old(mounts)[t := Record(volumeId, source.value)]
      ensures ok ==> (t in kernel <==> t in old(kernel) || (t !in old(mounts) && !check.IsMountPoint?))
      ensures !ok ==> View() == old(View())
    {
      if volumeId == "" || t == "" || source.None? {
        return false;
      }
      if t in mounts {
        return true;
      }
      if check.IsMountPoint? {
        AddMount(volumeId, source.value, t);
        return true;
      }
      if !mounted {
        return false;
      }
      kernel := kernel[t := MountCount(kernel, t) + 1];
      AddMount(volumeId, source.value, t);
      ok := true;
    }

    method ReceiveForRetry()
      requires Valid() && cleanupCh != []
      modifies this`cleanupCh, this`retryQueue
      ensures Valid() && View() == Apply(old(View()), Receive)
      ensures retryQueue == old(retryQueue)[old(cleanupCh)[0] := 0] && cleanupCh == old(cleanupCh)[1..]
    {
      retryQueue := retryQueue[cleanupCh[0] := 0];
      cleanupCh := cleanupCh[1..];
    }

    method RetryEntry(t: Target, a: Answers)
      requires Valid() && t in retryQueue && CanSay(t, a)
      modifies this
      ensures Valid() && View() == AfterRetry(old(View()), Attempt(t, OutcomeOf(a)))
      ensures retryQueue.Keys - {t} == old(retryQueue.Keys) - {t}
      ensures if 0 < old(retryQueue[t]) < 7 then View() == old(View()).(retries := old(retryQueue)[t := old(retryQueue[t]) + 1])
              else if a.Succeed() then retryQueue == old(retryQueue) - {t} && mounts == old(mounts) - {t} && t !in kernel
              else
                && mounts == old(mounts)
                && retryQueue == if old(retryQueue[t]) < 19 then old(retryQueue)[t := old(retryQueue[t]) + 1] else old(retryQueue) - {t}
    {
      var attempts := retryQueue[t];
      RetryKeeps(View(), Attempt(t, OutcomeOf(a)));
      if attempts > 0 && attempts < 7 {
        retryQueue := retryQueue[t := attempts + 1];
        return;
      }
      var ok := AttemptUnmount(t, a);
      if !ok {
        attempts := attempts + 1;
        retryQueue := retryQueue[t := attempts];
        if attempts >= 20 {
          retryQueue := retryQueue - {t};
          assert retryQueue == old(retryQueue) - {t};
        }
        return;
      }
      retryQueue := retryQueue - {t};
      Forget(t);
    }

    /** One tick of the worker, over the entries in any order. */
    method ProcessRetryQueue(answers: Target -> Answers) returns (ghost round: seq<Attempt>)
      requires Valid() && forall t :: CanSay(t, answers(t))
      modifies this
      ensures forall i :: 0 <= i < |round| ==> round[i].outcome == OutcomeOf(answers(round[i].target))
      ensures Valid() && Enabled(old(View()), Tick(round)) && View() == Apply(old(View()), Tick(round))
      ensures Visited(round, old(retryQueue.Keys), {})
    {
      var todo := retryQueue.Keys;
      round := [];
      ghost var s0 := View();
      while todo != {}
        invariant Valid() && TickSoFar(s0, round, todo, View())
        invariant forall i :: 0 <= i < |round| ==> round[i].outcome == OutcomeOf(answers(round[i].target))
        decreases todo
      {
        var t :| t in todo;
        todo := todo - {t};
        assert t in retryQueue;
        ghost var s := View();
        TickUntouched(s0, round, todo, s, t);
        RetryEntry(t, answers(t));
        TickMore(s0, round, todo, s, Attempt(t, OutcomeOf(answers(t))));
        round := round + [Attempt(t, OutcomeOf(answers(t)))];
      }
    }

    method CleanupOrphan(t: Target, a: Answers)
      requires Valid() && CanSay(t, a)
      modifies this
      ensures Valid() && View() == AfterAttempt(old(View()), Attempt(t, OutcomeOf(a)))
      ensures mounts == if a.Succeed() then old(mounts) - {t} else old(mounts)
    {
      AttemptKeeps(View(), Attempt(t, OutcomeOf(a)));
      var ok := AttemptUnmount(t, a);
      if ok {
        Forget(t);
      } else {
        QueueForRetry(t);
      }
    }

    /** At startup: what is tracked is unmounted if possible, otherwise queued. */
    method CleanupOrphanedMounts(answers: Target -> Answers) returns (ghost round: seq<Attempt>)
      requires Valid() && forall t :: CanSay(t, answers(t))
      modifies this
      ensures forall t :: t in mounts <==> t in old(mounts) && !answers(t).Succeed()
      ensures Valid() && Enabled(old(View()), CleanOrphans(round)) && View() == Apply(old(View()), CleanOrphans(round))
      ensures Visited(round, old(mounts.Keys), {}) && DistinctTargets(round)
      ensures cleanupCh == Offered(old(cleanupCh), StillTracked(mounts, round))
      ensures forall t :: t in StillTracked(mounts, round) <==> t in mounts
    {
      var todo := mounts.Keys;
      round := [];
      ghost var s0 := View();
      while todo != {}
        invariant Valid() && Visited(round, s0.mounts.Keys, todo)
        invariant Sound(s0, round) && View() == AfterOrphans(s0, round)
        invariant forall t :: t in mounts <==> t in s0.mounts && (t in todo || !answers(t).Succeed())
        decreases todo
      {
        var t :| t in todo;
        todo := todo - {t};
        UnvisitedUntouched(s0, round, t);
        CleanupOrphan(t, answers(t));
        VisitMore(s0, round, s0.mounts.Keys, todo, Attempt(t, OutcomeOf(answers(t))));
        round := round + [Attempt(t, OutcomeOf(answers(t)))];
      }
      OrphansTracked(s0, round);
    }
  }

  lemma {:induction false} OrphansTracked(s: State, round: seq<Attempt>)
    requires Inv(s) && Sound(s, round) && Visited(round, s.mounts.Keys, {})
    ensures var u := AfterOrphans(s, round); u.queue == Offered(s.queue, StillTracked(u.mounts, round))
    ensures var u := AfterOrphans(s, round); forall t :: t in StillTracked(u.mounts, round) <==> t in u.mounts
  {
    OrphansQueue(s, round);
    var u := AfterOrphans(s, round);
    forall t
      ensures t in StillTracked(u.mounts, round) <==> t in u.mounts
    {
      StillTrackedIsTracked(u.mounts, round, t);
    }
  }

  lemma {:induction false} VisitMore(s0: State, round: seq<Attempt>, keys: set<Target>, todo: set<Target>, a: Attempt)
    requires Visited(round, keys, todo + {a.target}) && a.target !in todo && Sound(s0, round)
    requires a.outcome.DoesNotExist? ==> CountAt(s0, a.target) == 0
    ensures Visited(round + [a], keys, todo) && Sound(s0, round + [a])
    ensures AfterTick(s0, round + [a]) == AfterRetry(AfterTick(s0, round), a)
    ensures AfterOrphans(s0, round + [a]) == AfterAttempt(AfterOrphans(s0, round), a)
  {
    var longer := round + [a];
    assert longer[..|round|] == round && longer[|round|] == a;
    assert forall i :: 0 <= i < |round| ==> round[i].target != a.target;
    forall t
      ensures t in keys && t !in todo <==> exists i :: 0 <= i < |longer| && longer[i].target == t
    {
      if i :| 0 <= i < |round| && round[i].target == t {
        assert longer[i].target == t;
      }
    }
  }

  lemma {:induction false} UnvisitedUntouched(s0: State, round: seq<Attempt>, t: Target)
    requires Inv(s0) && Sound(s0, round) && !exists i :: 0 <= i < |round| && round[i].target == t
    ensures CountAt(AfterTick(s0, round), t) == CountAt(s0, t) == CountAt(AfterOrphans(s0, round), t)
  {
    RoundKeeps(s0, round);
  }

  /** Part of a tick: the round so far, which of the entries are still to do, and the state it has led to. */
  ghost predicate TickSoFar(s0: State, round: seq<Attempt>, todo: set<Target>, s: State) {
    && Inv(s0)
    && Sound(s0, round)
    && Visited(round, s0.retries.Keys, todo)
    && s == AfterTick(s0, round)
    && todo <= s.retries.Keys
  }

  lemma {:induction false} TickMore(s0: State, round: seq<Attempt>, todo: set<Target>, s: State, a: Attempt)
    requires TickSoFar(s0, round, todo + {a.target}, s) && a.target !in todo
    requires a.outcome.DoesNotExist? ==> a.target !in s.kernel
    ensures TickSoFar(s0, round + [a], todo, AfterRetry(s, a))
  {
    UnvisitedUntouched(s0, round, a.target);
    assert CountAt(s, a.target) == CountAt(s0, a.target);
    RetryLeavesOthers(s, a, todo);
    VisitMore(s0, round, s0.retries.Keys, todo, a);
  }

  lemma {:induction false} TickUntouched(s0: State, round: seq<Attempt>, todo: set<Target>, s: State, t: Target)
    requires TickSoFar(s0, round, todo + {t}, s) && t !in todo
    ensures t in s.kernel ==> t in s0.kernel
  {
    UnvisitedUntouched(s0, round, t);
    assert CountAt(s, t) == CountAt(s0, t) && Inv(s0);
    RoundKeeps(s0, round);
  }

  lemma {:induction false} RetryLeavesOthers(s: State, a: Attempt, todo: set<Target>)
    requires todo <= s.retries.Keys && a.target !in todo
    ensures todo <= AfterRetry(s, a).retries.Keys
  {
  }
}
