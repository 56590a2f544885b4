/**
 The protocol of a crosvm instance: the callers of Start, Stop, Close and WaitForExit, one
 exit goroutine per run of the VM, and the goroutines of the auto-restart, over a shared lock,
 a status, a start counter, a channel of capacity one and the output buffer.

 One action is one critical section that does not block, or one step between two points
 at which another goroutine can get in: a blocking receive, its timeout, and every step of
 an exit goroutine, which clears the buffer and sends its exit without taking the lock.
 */
module InstanceProtocol {
  import opened TailBuffers

  datatype Status = Stopped | Running | Closed
  datatype Exit = NoExit | Success | Failure
  datatype RestartMode = Never | UnlessStopped
  datatype ServiceStatus = COMPLETED | DEAD

  /** How far the goroutine of one run is; `Dropped` is the branch in which its exit did not fit into the channel. */
  datatype Phase = Alive | Exited | Cleared | Prefilled | Emitted | Finished | Dropped

  /** The `n`-th successful start is run `n`; `output` is everything its VM wrote. */
  datatype Run = Run(phase: Phase, exit: Exit, output: seq<byte>)

  /** An exit on the channel. The sender is bookkeeping: receivers only see the exit. */
  datatype Message = Message(exit: Exit, sender: nat)

  datatype Claimer = ByStop | ByClose | ByHandler

  /** An exit that was taken off the channel for good, and who took it. */
  datatype Claim = Claim(taker: Claimer, message: Message)

  datatype Notice = Notice(run: nat, status: ServiceStatus)

  /** Who holds the lock across a point where others can get in. */
  datatype Holder = Free | Stopping | Closing | Waiting(bounded: bool) | PuttingBack(message: Message)

  datatype State = State(
    mode: RestartMode,
    status: Status,
    channel: seq<Message>,
    lastExit: Exit,
    startCount: nat,
    buffer: seq<byte>,
    holder: Holder,
    runs: seq<Run>,
    pendingRestarts: nat,
    claims: seq<Claim>,
    notices: seq<Notice>,
    restarts: seq<nat>)
  {
    function PhaseOf(n: nat): Phase
      requires 1 <= n <= |runs|
    {
      runs[n - 1].phase
    }

    function Move(n: nat, phase: Phase): State
      requires 1 <= n <= |runs|
    {
      this.(runs := runs[n - 1 := runs[n - 1].(phase := phase)])
    }

    /** Takes the exit off the channel for good. */
    function TakeExit(taker: Claimer, next: Status): State
      requires channel != []
    {
      this.(status := next, lastExit := channel[0].exit, channel := channel[1..],
      claims := claims + [Claim(taker, channel[0])], holder := Free)
    }
  }

  datatype Action =
    | Start(spawned: bool, byRestart: bool)
    | VmOutput(n: nat, data: seq<byte>)
    | VmExits(n: nat, exit: Exit)
    | ClearBuffer(n: nat)
    | PrefillBuffer(n: nat)
    | EmitExit(n: nat)
    | HandleExit(n: nat)
    | EnterStop
    | StopReceives
    | StopTimesOut
    | EnterClose
    | CloseReceives
    | CloseTimesOut
    | EnterWait(bounded: bool)
    | WaitReceives
    | WaitPutsBack
    | WaitTimesOut

  predicate InPhase(s: State, n: nat, phase: Phase) {
    1 <= n <= |s.runs| && s.PhaseOf(n) == phase
  }

  predicate Enabled(s: State, a: Action) {
    match a
    case Start(_, byRestart) => s.holder.Free? && (byRestart ==> 0 < s.pendingRestarts)
    case VmOutput(n, _) => InPhase(s, n, Alive)
    case VmExits(n, exit) => InPhase(s, n, Alive) && exit != NoExit
    case ClearBuffer(n) => InPhase(s, n, Exited)
    case PrefillBuffer(n) => InPhase(s, n, Cleared)
    case EmitExit(n) => InPhase(s, n, Prefilled)
    case HandleExit(n) => InPhase(s, n, Emitted) && s.holder.Free?
    case EnterStop => s.holder.Free?
    case StopReceives => s.holder.Stopping? && s.channel != []
    case StopTimesOut => s.holder.Stopping?
    case EnterClose => s.holder.Free?
    case CloseReceives => s.holder.Closing? && s.channel != []
    case CloseTimesOut => s.holder.Closing?
    case EnterWait(_) => s.holder.Free?
    case WaitReceives => s.holder.Waiting? && s.channel != []
    case WaitPutsBack => s.holder.PuttingBack? && s.channel == []
    case WaitTimesOut => s.holder == Waiting(true)
  }

  function StartVm(s: State, spawned: bool): State {
    if s.status.Stopped? && spawned then
      s.(startCount := s.startCount + 1, status := Running, runs := s.runs + [Run(Alive, NoExit, [])])
    else
      s
  }

  function NoticeFor(mode: RestartMode, m: Message): Notice {
    Notice(m.sender, if mode.Never? && m.exit.Success? then COMPLETED else DEAD)
  }

  /** The handler of an exit that nobody else has claimed; it runs under the lock. */
  function HandleUnclaimed(s: State, n: nat): State {
    if n != s.startCount || s.channel == [] then
      s
    else
      var m := s.channel[0];
      var t := s.TakeExit(ByHandler, Stopped);
      var u := t.(notices := t.notices + [NoticeFor(s.mode, m)]);
      if s.mode.Never? then u else u.(pendingRestarts := u.pendingRestarts + 1, restarts := u.restarts + [m.sender])
  }

  function Apply(s: State, a: Action): State
    requires Enabled(s, a)
  {
    match a
    case Start(spawned, byRestart) =>
      StartVm(if byRestart then s.(pendingRestarts := s.pendingRestarts - 1) else s, spawned)
    case VmOutput(n, data) =>
      s.(buffer := s.buffer + data, runs := s.runs[n - 1 := s.runs[n - 1].(output := s.runs[n - 1].output + data)])
    case VmExits(n, exit) => s.(runs := s.runs[n - 1 := s.runs[n - 1].(phase := Exited, exit := exit)])
    case ClearBuffer(n) => s.Move(n, Cleared).(buffer := [])
    case PrefillBuffer(n) => s.Move(n, Prefilled).(buffer := s.buffer + [NEWLINE])
    case EmitExit(n) =>
      if s.channel == [] then s.Move(n, Emitted).(channel := [Message(s.runs[n - 1].exit, n)]) else s.Move(n, Dropped)
    case HandleExit(n) => HandleUnclaimed(s.Move(n, Finished), n)
    case EnterStop => if s.status.Running? then s.(holder := Stopping) else s
    case StopReceives => s.TakeExit(ByStop, Stopped)
    case StopTimesOut => s.(holder := Free)
    case EnterClose =>
      match s.status {
        case Running => s.(holder := Closing)
        case Stopped => s.(status := Closed)
        case Closed => s
      }
    case CloseReceives => s.TakeExit(ByClose, Closed)
    case CloseTimesOut => s.(holder := Free)
    case EnterWait(bounded) => if s.status.Running? then s.(holder := Waiting(bounded)) else s
    case WaitReceives => s.(holder := PuttingBack(s.channel[0]), channel := s.channel[1..])
    case WaitPutsBack => s.(channel := [s.holder.message], holder := Free)
    case WaitTimesOut => s.(holder := Free)
  }

  ghost predicate Next(s: State, s': State) {
    exists a :: Enabled(s, a) && s' == Apply(s, a)
  }

  predicate Initial(s: State) {
    s == State(s.mode, Stopped, [], NoExit, 0, [NEWLINE], Free, [], 0, [], [], [])
  }

  ghost predicate StepsAt(t: seq<State>, i: int) {
    0 <= i < |t| - 1 && Next(t[i], t[i + 1])
  }

  /** A run of the whole system, in any interleaving, from a new instance. */
  ghost predicate IsTrace(t: seq<State>) {
    && t != [] && Initial(t[0])
    && forall i :: 0 <= i < |t| - 1 ==> StepsAt(t, i)
  }

  // ---- The invariant ----

  /** The exit of a run in such a phase has not reached the channel yet. */
  predicate BeforeEmit(p: Phase) {
    p.Alive? || p.Exited? || p.Cleared? || p.Prefilled?
  }

  predicate AfterEmit(p: Phase) {
    p.Emitted? || p.Finished?
  }

  /** While the status is Running, the exit of the current run is ahead, on the channel, or about to be put back. */
  predicate ExitUnclaimed(s: State)
    requires s.runs != []
  {
    var current := s.runs[|s.runs| - 1];
    var m := Message(current.exit, |s.runs|);
    if BeforeEmit(current.phase) then
      s.channel == [] && !s.holder.PuttingBack?
    else
      && current.phase.Emitted?
      && if s.holder.PuttingBack? then s.channel == [] && s.holder.message == m else s.channel == [m]
  }

  predicate ExitClaimed(s: State) {
    && s.channel == [] && s.holder.Free?
    && (s.runs == [] ==> s.lastExit == NoExit)
    && (s.runs != [] ==> AfterEmit(s.runs[|s.runs| - 1].phase) && s.lastExit == s.runs[|s.runs| - 1].exit)
  }

  /** Since the last reset the buffer was written by the current run alone, after one newline. */
  function ExpectedBuffer(s: State): seq<byte> {
    if s.status.Running? && s.runs != [] then
      var current := s.runs[|s.runs| - 1];
      if current.phase.Alive? || current.phase.Exited? then [NEWLINE] + current.output
      else if current.phase.Cleared? then []
      else [NEWLINE]
    else
      [NEWLINE]
  }

  /** The notifications that a history of claims calls for. */
  function NoticesFor(mode: RestartMode, claims: seq<Claim>): seq<Notice> {
    if claims == [] then
      []
    else
      var last := claims[|claims| - 1];
      NoticesFor(mode, claims[..|claims| - 1]) + if last.taker.ByHandler? then [NoticeFor(mode, last.message)] else []
  }

  function RunsOf(notices: seq<Notice>): seq<nat> {
    seq(|notices|, i requires 0 <= i < |notices| => notices[i].run)
  }

  /** Where the exits are: at most the newest run has one that is not claimed. */
  ghost predicate ExitsInPlace(s: State) {
    && s.startCount == |s.runs|
    && (forall k :: 0 <= k < |s.runs| - 1 ==> AfterEmit(s.runs[k].phase))
    && (forall k :: 0 <= k < |s.runs| ==> (s.runs[k].exit.NoExit? <==> s.runs[k].phase.Alive?))
    && (s.status.Running? ==> s.runs != [] && ExitUnclaimed(s))
    && (!s.status.Running? ==> ExitClaimed(s))
  }

  /** Claim `k` took the exit of run `k + 1`, and every run but the current one of a running instance has one. */
  ghost predicate ClaimsInOrder(s: State) {
    && |s.claims| == (if s.status.Running? then |s.runs| - 1 else |s.runs|)
    && (forall k :: 0 <= k < |s.claims| ==> s.claims[k].message == Message(s.runs[k].exit, k + 1))
  }

  predicate ReactionsFollowClaims(s: State) {
    && s.notices == NoticesFor(s.mode, s.claims)
    && s.restarts == (if s.mode.Never? then [] else RunsOf(s.notices))
    && s.pendingRestarts <= |s.restarts|
  }

  ghost predicate Inv(s: State) {
    ExitsInPlace(s) && ClaimsInOrder(s) && ReactionsFollowClaims(s) && s.buffer == ExpectedBuffer(s)
  }

  lemma {:induction false} InvInitially(s: State)
    requires Initial(s)
    ensures Inv(s)
  {
  }

  lemma {:induction false} InvStep(s: State, a: Action)
    requires Inv(s) && Enabled(s, a)
    ensures Inv(Apply(s, a))
  {
    ExitsStep(s, a);
    ClaimsStep(s, a);
    ReactionsStep(s, a);
    BufferStep(s, a);
  }

  predicate TakesClaim(s: State, a: Action) {
    a.StopReceives? || a.CloseReceives? || (a.HandleExit? && a.n == s.startCount && s.channel != [])
  }

  /** An action of a run's VM or of its exit goroutine before the handler. */
  predicate IsLockFree(a: Action) {
    a.VmOutput? || a.VmExits? || a.ClearBuffer? || a.PrefillBuffer? || a.EmitExit?
  }

  lemma {:induction false} ExitsStep(s: State, a: Action)
    requires ExitsInPlace(s) && Enabled(s, a)
    ensures ExitsInPlace(Apply(s, a))
  {
    if IsLockFree(a) {
      ExitsStepLockFree(s, a);
    } else {
      ExitsStepLocked(s, a);
    }
  }

  lemma {:induction false} ExitsStepLockFree(s: State, a: Action)
    requires ExitsInPlace(s) && Enabled(s, a) && IsLockFree(a)
    ensures ExitsInPlace(Apply(s, a))
  {
    // only the current run can take such a step
    assert a.n == |s.runs|;
  }

  lemma {:induction false} ExitsStepLocked(s: State, a: Action)
    requires ExitsInPlace(s) && Enabled(s, a) && !IsLockFree(a)
    ensures ExitsInPlace(Apply(s, a))
  {
  }

  lemma {:induction false} ClaimsStep(s: State, a: Action)
    requires ExitsInPlace(s) && ClaimsInOrder(s) && Enabled(s, a)
    ensures ClaimsInOrder(Apply(s, a))
  {
    if IsLockFree(a) {
      ClaimsStepLockFree(s, a);
    } else if TakesClaim(s, a) {
      ClaimsStepTaken(s, a);
    } else {
      ClaimsStepOther(s, a);
    }
  }

  lemma {:induction false} ClaimsStepLockFree(s: State, a: Action)
    requires ExitsInPlace(s) && ClaimsInOrder(s) && Enabled(s, a) && IsLockFree(a)
    ensures ClaimsInOrder(Apply(s, a))
  {
    assert a.n == |s.runs|;
  }

  lemma {:induction false} ClaimsStepTaken(s: State, a: Action)
    requires ExitsInPlace(s) && ClaimsInOrder(s) && Enabled(s, a) && TakesClaim(s, a)
    ensures ClaimsInOrder(Apply(s, a))
  {
  }

  lemma {:induction false} ClaimsStepOther(s: State, a: Action)
    requires ExitsInPlace(s) && ClaimsInOrder(s) && Enabled(s, a) && !IsLockFree(a) && !TakesClaim(s, a)
    ensures ClaimsInOrder(Apply(s, a))
  {
  }

  lemma {:induction false} NoticesAfterClaim(mode: RestartMode, claims: seq<Claim>, c: Claim)
    ensures NoticesFor(mode, claims + [c]) ==
            NoticesFor(mode, claims) + if c.taker.ByHandler? then [NoticeFor(mode, c.message)] else []
  {
    assert (claims + [c])[..|claims|] == claims;
  }

  lemma {:induction false} ReactionsStep(s: State, a: Action)
    requires ReactionsFollowClaims(s) && Enabled(s, a)
    ensures ReactionsFollowClaims(Apply(s, a))
  {
    if TakesClaim(s, a) {
      var taker := if a.StopReceives? then ByStop else if a.CloseReceives? then ByClose else ByHandler;
      NoticesAfterClaim(s.mode, s.claims, Claim(taker, s.channel[0]));
    } else {
      var t := Apply(s, a);
      assert t.mode == s.mode && t.claims == s.claims && t.notices == s.notices && t.restarts == s.restarts;
    }
  }

  lemma {:induction false} BufferStep(s: State, a: Action)
    requires ExitsInPlace(s) && s.buffer == ExpectedBuffer(s) && Enabled(s, a)
    ensures Apply(s, a).buffer == ExpectedBuffer(Apply(s, a))
  {
    if IsLockFree(a) {
      BufferStepLockFree(s, a);
    } else {
      BufferStepLocked(s, a);
    }
  }

  lemma {:induction false} BufferStepLocked(s: State, a: Action)
    requires ExitsInPlace(s) && s.buffer == ExpectedBuffer(s) && Enabled(s, a) && !IsLockFree(a)
    ensures Apply(s, a).buffer == ExpectedBuffer(Apply(s, a))
  {
    assert Apply(s, a).buffer == s.buffer;
    if s.status.Running? {
      assert AfterEmit(s.runs[|s.runs| - 1].phase) || Apply(s, a).status.Running?;
    }
  }

  lemma {:induction false} BufferStepLockFree(s: State, a: Action)
    requires ExitsInPlace(s) && s.buffer == ExpectedBuffer(s) && Enabled(s, a) && IsLockFree(a)
    ensures Apply(s, a).buffer == ExpectedBuffer(Apply(s, a))
  {
    assert a.n == |s.runs|;
    if a.VmOutput? {
      assert s.buffer + a.data == [NEWLINE] + (s.runs[a.n - 1].output + a.data);
    }
  }

  lemma {:induction false} TraceInv(t: seq<State>, i: nat)
    requires IsTrace(t) && i < |t|
    ensures Inv(t[i])
  {
    if i == 0 {
      InvInitially(t[0]);
    } else {
      TraceInv(t, i - 1);
      assert StepsAt(t, i - 1);
      var a :| Enabled(t[i - 1], a) && t[i] == Apply(t[i - 1], a);
      InvStep(t[i - 1], a);
    }
  }

  /** `s` occurs in some run of the whole system. */
  ghost predicate Reachable(s: State) {
    exists t :: IsTrace(t) && t[|t| - 1] == s
  }

  lemma {:induction false} ReachableInv(s: State)
    requires Reachable(s)
    ensures Inv(s)
  {
    var t :| IsTrace(t) && t[|t| - 1] == s;
    TraceInv(t, |t| - 1);
  }

  lemma {:induction false} ReachableInitially(s: State)
    requires Initial(s)
    ensures Reachable(s)
  {
    assert IsTrace([s]);
  }

  lemma {:induction false} ReachableStep(s: State, a: Action)
    requires Reachable(s) && Enabled(s, a)
    ensures Reachable(Apply(s, a))
  {
    var t :| IsTrace(t) && t[|t| - 1] == s;
    var longer := t + [Apply(s, a)];
    assert Next(s, Apply(s, a));
    forall i | 0 <= i < |longer| - 1
      ensures StepsAt(longer, i)
    {
      if i < |t| - 1 {
        assert StepsAt(t, i);
      }
    }
    assert IsTrace(longer);
  }

  // ---- What the invariant gives in every reachable state ----

  /**
   The send, which takes no lock, and the put-back of WaitForExit always find the channel empty:
   no exit is ever dropped and no lock holder ever blocks on a full channel.
   */
  lemma {:induction false} SendFindsRoom(t: seq<State>, i: nat)
    requires IsTrace(t) && i < |t|
    ensures forall n :: InPhase(t[i], n, Prefilled) ==> t[i].channel == []
    ensures forall n :: !InPhase(t[i], n, Dropped)
    ensures t[i].holder.PuttingBack? ==> Enabled(t[i], WaitPutsBack)
    ensures |t[i].channel| <= 1
  {
    TraceInv(t, i);
  }

  /** Only the newest run can have a live VM, and only while the status is Running. */
  lemma {:induction false} OneVmAtMost(t: seq<State>, i: nat)
    requires IsTrace(t) && i < |t|
    ensures forall m, n :: InPhase(t[i], m, Alive) && InPhase(t[i], n, Alive) ==> m == n
    ensures forall n :: InPhase(t[i], n, Alive) ==> n == t[i].startCount && t[i].status.Running?
    ensures t[i].startCount == |t[i].runs|
    ensures !t[i].status.Running? && t[i].runs != [] ==> t[i].lastExit == t[i].runs[t[i].startCount - 1].exit
  {
    TraceInv(t, i);
  }

  /** Claim `k` took the exit of run `n`. */
  predicate Claims(s: State, k: int, n: int) {
    0 <= k < |s.claims| && s.claims[k].message.sender == n
  }

  /** Every exit is claimed once and unchanged: a run has exactly one claim unless it is the current one of a running instance. */
  lemma {:induction false} EachExitClaimedOnce(t: seq<State>, i: nat, n: nat)
    requires IsTrace(t) && i < |t| && 1 <= n <= t[i].startCount
    ensures forall k, l :: Claims(t[i], k, n) && Claims(t[i], l, n) ==> k == l
    ensures (exists k :: Claims(t[i], k, n)) <==> n < t[i].startCount || !t[i].status.Running?
    ensures n <= |t[i].runs|
    ensures forall k :: Claims(t[i], k, n) ==> t[i].claims[k].message.exit == t[i].runs[n - 1].exit != NoExit
  {
    TraceInv(t, i);
    var s := t[i];
    if n < s.startCount || !s.status.Running? {
      assert Claims(s, n - 1, n);
    }
    forall k | Claims(s, k, n)
      ensures k == n - 1
    {
    }
  }

  /** Nobody but its own exit handler took the exit of run `n`. */
  predicate Unclaimed(claims: seq<Claim>, n: int) {
    1 <= n <= |claims| && claims[n - 1].taker.ByHandler?
  }

  ghost predicate OrderedByRun(notices: seq<Notice>) {
    forall a, b :: 0 <= a < b < |notices| ==> notices[a].run < notices[b].run
  }

  /** Every notice is about a claim of the exit handler, and says what its exit calls for. */
  ghost predicate Justified(mode: RestartMode, claims: seq<Claim>, notices: seq<Notice>) {
    forall a :: 0 <= a < |notices| ==>
      && Unclaimed(claims, notices[a].run)
      && notices[a].status == if mode.Never? && claims[notices[a].run - 1].message.exit.Success? then COMPLETED else DEAD
  }

  /** Every claim of the exit handler has a notice. */
  ghost predicate Complete(claims: seq<Claim>, notices: seq<Notice>) {
    forall n :: Unclaimed(claims, n) ==> exists a :: 0 <= a < |notices| && notices[a].run == n
  }

  /** Notices are ordered by run, there is one for exactly the claims of the exit handler, and it says what their exit calls for. */
  ghost predicate Exact(mode: RestartMode, claims: seq<Claim>, notices: seq<Notice>) {
    OrderedByRun(notices) && Justified(mode, claims, notices) && Complete(claims, notices)
  }

  lemma {:induction false} NoticesExact(mode: RestartMode, claims: seq<Claim>)
    requires forall k :: 0 <= k < |claims| ==> claims[k].message.sender == k + 1
    ensures Exact(mode, claims, NoticesFor(mode, claims))
  {
    if claims != [] {
      var shorter := claims[..|claims| - 1];
      NoticesExact(mode, shorter);
      ExactStep(mode, shorter, claims[|claims| - 1], NoticesFor(mode, shorter));
      assert claims == shorter + [claims[|claims| - 1]];
    }
  }

  lemma {:induction false} ExactStep(mode: RestartMode, claims: seq<Claim>, last: Claim, notices: seq<Notice>)
    requires Exact(mode, claims, notices) && last.message.sender == |claims| + 1
    ensures Exact(mode, claims + [last], notices + if last.taker.ByHandler? then [NoticeFor(mode, last.message)] else [])
  {
    UnclaimedThen(claims, last);
    if last.taker.ByHandler? {
      ExactOneMore(mode, claims, last, notices);
    } else {
      assert notices + [] == notices;
    }
  }

  lemma {:induction false} UnclaimedThen(claims: seq<Claim>, last: Claim)
    ensures forall n :: Unclaimed(claims + [last], n) <==> Unclaimed(claims, n) || (n == |claims| + 1 && last.taker.ByHandler?)
    ensures forall n :: Unclaimed(claims, n) ==> (claims + [last])[n - 1] == claims[n - 1]
  {
  }

  lemma {:induction false} ExactOneMore(mode: RestartMode, claims: seq<Claim>, last: Claim, notices: seq<Notice>)
    requires Exact(mode, claims, notices) && last.message.sender == |claims| + 1 && last.taker.ByHandler?
    ensures Exact(mode, claims + [last], notices + [NoticeFor(mode, last.message)])
  {
    var n := NoticeFor(mode, last.message);
    assert forall a :: 0 <= a < |notices| ==> notices[a].run <= |claims|;
    assert OrderedByRun(notices + [n]);
    JustifiedOneMore(mode, claims, last, notices);
    CompleteOneMore(claims, last, notices, n);
  }

  lemma {:induction false} JustifiedOneMore(mode: RestartMode, claims: seq<Claim>, last: Claim, notices: seq<Notice>)
    requires Justified(mode, claims, notices) && last.message.sender == |claims| + 1 && last.taker.ByHandler?
    ensures Justified(mode, claims + [last], notices + [NoticeFor(mode, last.message)])
  {
    UnclaimedThen(claims, last);
  }

  lemma {:induction false} CompleteOneMore(claims: seq<Claim>, last: Claim, notices: seq<Notice>, next: Notice)
    requires Complete(claims, notices) && next.run == |claims| + 1
    ensures Complete(claims + [last], notices + [next])
  {
    UnclaimedThen(claims, last);
    var more := notices + [next];
    forall n | Unclaimed(claims + [last], n)
      ensures exists a :: 0 <= a < |more| && more[a].run == n
    {
      if Unclaimed(claims, n) {
        var a :| 0 <= a < |notices| && notices[a].run == n;
        assert more[a].run == n;
      } else {
        assert more[|notices|].run == n;
      }
    }
  }

  /**
   The outside world hears of a run at most once, exactly if nobody but its own exit handler took its exit, and is told
   COMPLETED exactly for the successful exit of a one-shot service; the same exits, and no others, each schedule
   one restart, unless the service is one-shot.
   */
  lemma {:induction false} OnlyUnclaimedExitsAreAnnounced(t: seq<State>, i: nat)
    requires IsTrace(t) && i < |t|
    ensures Exact(t[i].mode, t[i].claims, t[i].notices)
    ensures forall a, b :: 0 <= a < b < |t[i].restarts| ==> t[i].restarts[a] != t[i].restarts[b]
    ensures forall n :: n in t[i].restarts <==> t[i].mode.UnlessStopped? && Unclaimed(t[i].claims, n)
  {
    TraceInv(t, i);
    var s := t[i];
    NoticesExact(s.mode, s.claims);
    forall n | s.mode.UnlessStopped? && Unclaimed(s.claims, n)
      ensures n in s.restarts
    {
      var a :| 0 <= a < |s.notices| && s.notices[a].run == n;
      assert s.restarts[a] == n;
    }
  }

  // ---- Closing is final ----

  /** What a closed instance shows to the outside. */
  function Footprint(s: State): (Status, nat, seq<Claim>, seq<Notice>, seq<nat>, Exit) {
    (s.status, |s.runs|, s.claims, s.notices, s.restarts, s.lastExit)
  }

  lemma {:induction false} ClosedStep(s: State, a: Action)
    requires Inv(s) && Enabled(s, a) && s.status.Closed?
    ensures Footprint(Apply(s, a)) == Footprint(s)
  {
  }

  /** Once closed, whatever restarts are still pending: no VM lives, none is started, and nothing is announced. */
  lemma {:induction false} ClosedIsFinal(t: seq<State>, i: nat, j: nat)
    requires IsTrace(t) && i <= j < |t| && t[i].status.Closed?
    ensures Footprint(t[j]) == Footprint(t[i])
    ensures forall n :: !InPhase(t[j], n, Alive)
    decreases j
  {
    OneVmAtMost(t, i);
    if i < j {
      ClosedIsFinal(t, i, j - 1);
      TraceInv(t, j - 1);
      assert StepsAt(t, j - 1);
      var a :| Enabled(t[j - 1], a) && t[j] == Apply(t[j - 1], a);
      ClosedStep(t[j - 1], a);
      OneVmAtMost(t, j);
    }
  }

  // ---- Nobody waits for an exit that cannot come ----

  /** The next step of the goroutine of run `n` on the way to its send; none of them takes the lock. */
  function TowardsEmit(s: State, n: nat, exit: Exit): Action
    requires 1 <= n <= |s.runs| && BeforeEmit(s.PhaseOf(n))
  {
    match s.PhaseOf(n)
    case Alive => VmExits(n, exit)
    case Exited => ClearBuffer(n)
    case Cleared => PrefillBuffer(n)
    case Prefilled => EmitExit(n)
  }

  predicate AwaitsExit(h: Holder) {
    h.Stopping? || h.Closing? || h.Waiting?
  }

  /** How many of its own steps a run is away from having sent its exit. */
  function StepsToEmit(p: Phase): nat {
    match p
    case Alive => 4
    case Exited => 3
    case Cleared => 2
    case Prefilled => 1
    case _ => 0
  }

  /** One step of the goroutine of run `n` towards its send, while others may hold the lock. */
  ghost predicate ServesRun(s: State, s': State, n: nat, exit: Exit) {
    && 1 <= n <= |s.runs| && BeforeEmit(s.PhaseOf(n))
    && Enabled(s, TowardsEmit(s, n, exit)) && s' == Apply(s, TowardsEmit(s, n, exit))
  }

  lemma {:induction false} ServeStep(s: State, exit: Exit) returns (s': State)
    requires Inv(s) && AwaitsExit(s.holder) && exit != NoExit && s.channel == []
    ensures 1 <= s.startCount == |s.runs| && ServesRun(s, s', s.startCount, exit) && Inv(s')
    ensures s'.holder == s.holder && s'.startCount == s.startCount
    ensures StepsToEmit(s'.PhaseOf(s.startCount)) == StepsToEmit(s.PhaseOf(s.startCount)) - 1
  {
    var a := TowardsEmit(s, s.startCount, exit);
    s' := Apply(s, a);
    InvStep(s, a);
  }

  /**
   Whoever holds the lock and waits for an exit either finds one on the channel or waits for the current run,
   whose own steps, at most four and none in need of the lock, put its exit there.
   */
  lemma {:induction false} WaiterIsServed(s: State, exit: Exit) returns (path: seq<State>)
    requires Inv(s) && AwaitsExit(s.holder) && exit != NoExit
    ensures path != [] && path[0] == s && 1 <= s.startCount == |s.runs|
    ensures |path| == 1 + StepsToEmit(s.PhaseOf(s.startCount))
    ensures forall i :: 0 <= i < |path| - 1 ==> ServesRun(path[i], path[i + 1], s.startCount, exit)
    ensures var last := path[|path| - 1];
            && last.holder == s.holder && last.startCount == s.startCount == |last.runs|
            && last.channel == [Message(last.runs[s.startCount - 1].exit, s.startCount)]
    decreases StepsToEmit(s.runs[s.startCount - 1].phase)
  {
    if s.channel != [] {
      path := [s];
    } else {
      var s' := ServeStep(s, exit);
      var rest := WaiterIsServed(s', exit);
      path := [s] + rest;
      forall i | 0 <= i < |path| - 1
        ensures ServesRun(path[i], path[i + 1], s.startCount, exit)
      {
        if i > 0 {
          assert ServesRun(rest[i - 1], rest[i - 1 + 1], s.startCount, exit);
        }
      }
    }
  }

  // ---- Stopping, and the restart that may still be pending ----

  /** Some action other than a caller's start leads on from position `i`. */
  ghost predicate StepsWithoutUser(path: seq<State>, i: int) {
    && 0 <= i < |path| - 1
    && exists a :: Enabled(path[i], a) && path[i + 1] == Apply(path[i], a) && !(a.Start? && !a.byRestart)
  }

  /** A path on which no caller asks for a start. */
  ghost predicate NoUserStart(path: seq<State>) {
    path != [] && forall i :: 0 <= i < |path| - 1 ==> StepsWithoutUser(path, i)
  }

  lemma {:induction false} StaysDownStep(s: State, a: Action)
    requires ExitClaimed(s) && !s.status.Running? && s.pendingRestarts == 0
    requires Enabled(s, a) && !(a.Start? && !a.byRestart)
    ensures !Apply(s, a).status.Running? && Apply(s, a).pendingRestarts == 0
  {
  }

  lemma {:induction false} StaysDownWithoutPendingRestart(path: seq<State>, i: nat)
    requires NoUserStart(path) && i < |path|
    requires Inv(path[0]) && !path[0].status.Running? && path[0].pendingRestarts == 0
    ensures Inv(path[i]) && !path[i].status.Running? && path[i].pendingRestarts == 0
  {
    if i > 0 {
      StaysDownWithoutPendingRestart(path, i - 1);
      assert StepsWithoutUser(path, i - 1);
      var a :| Enabled(path[i - 1], a) && path[i] == Apply(path[i - 1], a) && !(a.Start? && !a.byRestart);
      InvStep(path[i - 1], a);
      StaysDownStep(path[i - 1], a);
    }
  }

  /**
   Stop does not cancel a restart that is already scheduled: an instance that is down comes up again without
   anyone asking for it exactly if it is not closed and a restart is pending.
   */
  lemma {:induction false} ComesBackIffRestartPending(s: State)
    requires Inv(s) && !s.status.Running?
    ensures (exists path: seq<State> :: NoUserStart(path) && path[0] == s && path[|path| - 1].status.Running?)
            <==> s.status.Stopped? && 0 < s.pendingRestarts
  {
    if s.status.Stopped? && 0 < s.pendingRestarts {
      var a := Start(true, true);
      var path := [s, Apply(s, a)];
      assert Enabled(path[0], a) && path[1] == Apply(path[0], a);
      assert NoUserStart(path) && path[0] == s && path[|path| - 1].status.Running?;
    } else {
      forall path: seq<State> | NoUserStart(path) && path[0] == s
        ensures !path[|path| - 1].status.Running?
      {
        if s.status.Closed? {
          StaysClosed(path, |path| - 1);
        } else {
          StaysDownWithoutPendingRestart(path, |path| - 1);
        }
      }
    }
  }

  lemma {:induction false} StaysClosed(path: seq<State>, i: nat)
    requires NoUserStart(path) && i < |path| && Inv(path[0]) && path[0].status.Closed?
    ensures Inv(path[i]) && path[i].status.Closed?
  {
    if i > 0 {
      StaysClosed(path, i - 1);
      assert StepsWithoutUser(path, i - 1);
      var a :| Enabled(path[i - 1], a) && path[i] == Apply(path[i - 1], a) && !(a.Start? && !a.byRestart);
      InvStep(path[i - 1], a);
      ClosedStep(path[i - 1], a);
    }
  }

  /** The state that one run of `mode` leads to after `k` of its own steps and a successful exit. */
  function AfterSteps(k: nat): State
    requires k <= 6
  {
    var s0 := State(UnlessStopped, Stopped, [], NoExit, 0, [NEWLINE], Free, [], 0, [], [], []);
    var s1 := s0.(startCount := 1, status := Running, runs := [Run(Alive, NoExit, [])]);
    if k == 0 then s0
    else if k == 1 then s1
    else if k == 2 then s1.(runs := [Run(Exited, Success, [])])
    else if k == 3 then s1.(runs := [Run(Cleared, Success, [])], buffer := [])
    else if k == 4 then s1.(runs := [Run(Prefilled, Success, [])])
    else if k == 5 then s1.(runs := [Run(Emitted, Success, [])], channel := [Message(Success, 1)])
    else s0.(startCount := 1, runs := [Run(Finished, Success, [])], lastExit := Success, pendingRestarts := 1,
      claims := [Claim(ByHandler, Message(Success, 1))], notices := [Notice(1, DEAD)], restarts := [1])
  }

  lemma {:induction false} StepOfExample(k: nat)
    requires k < 6
    ensures Next(AfterSteps(k), AfterSteps(k + 1))
  {
    var a := if k == 0 then Start(true, false) else if k == 1 then VmExits(1, Success) else if k == 2 then ClearBuffer(1)
             else if k == 3 then PrefillBuffer(1) else if k == 4 then EmitExit(1) else HandleExit(1);
    var s, s' := AfterSteps(k), AfterSteps(k + 1);
    assert Enabled(s, a) && s' == Apply(s, a);
  }

  /** That situation is reachable: a VM exits by itself, Stop returns at once, and then a restart brings the VM up again. */
  lemma {:induction false} StopThenRestarted() returns (t: seq<State>, down: State, up: State)
    ensures IsTrace(t) && t[|t| - 1] == down
    ensures Enabled(down, EnterStop) && Apply(down, EnterStop) == down && down.status.Stopped?
    ensures Enabled(down, Start(true, true)) && Apply(down, Start(true, true)) == up && up.status.Running?
  {
    t := seq(7, k requires 0 <= k < 7 => AfterSteps(k));
    forall i | 0 <= i < |t| - 1
      ensures StepsAt(t, i)
    {
      StepOfExample(i);
    }
    down := t[6];
    up := Apply(down, Start(true, true));
  }

  // ---- How often restarts start the VM ----

  /** The state after these actions, one after the other. */
  function Perform(s: State, actions: seq<Action>): State {
    if actions == [] then s
    else
      var before, last := Perform(s, actions[..|actions| - 1]), actions[|actions| - 1];
      if Enabled(before, last) then Apply(before, last) else before
  }

  ghost predicate IsSchedule(s: State, actions: seq<Action>) {
    forall k {:trigger actions[k]} :: 0 <= k < |actions| ==> Enabled(Perform(s, actions[..k]), actions[k])
  }

  lemma {:induction false} ScheduleThen(s: State, actions: seq<Action>, a: Action)
    requires IsSchedule(s, actions) && Enabled(Perform(s, actions), a)
    ensures IsSchedule(s, actions + [a]) && Perform(s, actions + [a]) == Apply(Perform(s, actions), a)
  {
    var longer := actions + [a];
    assert longer[..|actions|] == actions;
    forall k {:trigger longer[k]} | 0 <= k < |longer|
      ensures Enabled(Perform(s, longer[..k]), longer[k])
    {
      if k < |actions| {
        assert longer[..k] == actions[..k] && longer[k] == actions[k];
      }
    }
  }

  /** Every run of the system is that of some actions. */
  lemma {:induction false} TraceSchedule(t: seq<State>, i: nat) returns (actions: seq<Action>)
    requires IsTrace(t) && i < |t|
    ensures |actions| == i && IsSchedule(t[0], actions) && Perform(t[0], actions) == t[i]
  {
    if i == 0 {
      actions := [];
    } else {
      var before := TraceSchedule(t, i - 1);
      assert StepsAt(t, i - 1);
      var a :| Enabled(t[i - 1], a) && t[i] == Apply(t[i - 1], a);
      ScheduleThen(t[0], before, a);
      actions := before + [a];
    }
  }

  /** The calls of Start made by restart goroutines, and those made by anybody else. */
  function RestartCalls(actions: seq<Action>): nat {
    if actions == [] then 0
    else
      var last := actions[|actions| - 1];
      RestartCalls(actions[..|actions| - 1]) + if last.Start? && last.byRestart then 1 else 0
  }

  function UserCalls(actions: seq<Action>): nat {
    if actions == [] then 0
    else
      var last := actions[|actions| - 1];
      UserCalls(actions[..|actions| - 1]) + if last.Start? && !last.byRestart then 1 else 0
  }

  lemma {:induction false} SchedulePrefix(s: State, actions: seq<Action>)
    requires actions != [] && IsSchedule(s, actions)
    ensures var p := actions[..|actions| - 1];
            IsSchedule(s, p) && Enabled(Perform(s, p), actions[|actions| - 1])
  {
    var p := actions[..|actions| - 1];
    forall k {:trigger p[k]} | 0 <= k < |p|
      ensures Enabled(Perform(s, p[..k]), p[k])
    {
      assert p[..k] == actions[..k] && p[k] == actions[k];
    }
  }

  lemma {:induction false} RestartsStep(s: State, a: Action)
    requires Enabled(s, a)
    ensures var s' := Apply(s, a);
            && s'.pendingRestarts + (if a.Start? && a.byRestart then 1 else 0) - s.pendingRestarts == |s'.restarts| - |s.restarts|
            && |s.runs| <= |s'.runs| <= |s.runs| + (if a.Start? then 1 else 0)
  {
  }

  /**
   A scheduled restart calls Start once: the calls made and those still pending are the restarts scheduled so far. So the VM
   has been started at most once per caller's start and once per scheduled restart.
   */
  lemma {:induction false} RestartsAreSpent(s: State, actions: seq<Action>)
    requires Initial(s) && IsSchedule(s, actions)
    ensures var after := Perform(s, actions);
            && RestartCalls(actions) + after.pendingRestarts == |after.restarts|
            && |after.runs| <= UserCalls(actions) + |after.restarts|
  {
    if actions != [] {
      var p := actions[..|actions| - 1];
      SchedulePrefix(s, actions);
      RestartsAreSpent(s, p);
      RestartsStep(Perform(s, p), actions[|actions| - 1]);
      CallsBound(s, actions);
    }
  }

  lemma {:induction false} CallsBound(s: State, actions: seq<Action>)
    requires Initial(s) && IsSchedule(s, actions)
    ensures |Perform(s, actions).runs| <= UserCalls(actions) + RestartCalls(actions)
  {
    if actions != [] {
      SchedulePrefix(s, actions);
      CallsBound(s, actions[..|actions| - 1]);
      RestartsStep(Perform(s, actions[..|actions| - 1]), actions[|actions| - 1]);
    }
  }

  // ---- The logs ----

  /** What GatherLogs returns; it takes the lock of the buffer only. */
  function GatherLogs(s: State, capacity: nat): seq<byte> {
    DropUntil(LastBytes(s.buffer, capacity), IsLineStart, false).0
  }

  /**
   `logs` is `output` from some line start on: all of it while it fits beside the initial newline, otherwise
   everything after the first newline among its last `capacity` bytes.
   */
  ghost predicate IsLogOf(logs: seq<byte>, output: seq<byte>, capacity: nat) {
    && |logs| <= |output| && logs == output[|output| - |logs|..]
    && (logs == output || logs == [] || output[|output| - |logs| - 1] == NEWLINE)
    && (|output| < capacity ==> logs == output)
    && (capacity <= |output| ==> |logs| < capacity)
    && (forall j :: 0 <= j < |output| && output[j] == NEWLINE && |output| - j <= capacity ==> |output| - j - 1 <= |logs|)
  }

  /** The current run's output from a line start on while its VM has not been reaped, and nothing otherwise. */
  ghost predicate IsLogOfCurrentRun(logs: seq<byte>, s: State, capacity: nat) {
    if InPhase(s, s.startCount, Alive) || InPhase(s, s.startCount, Exited) then
      IsLogOf(logs, s.runs[s.startCount - 1].output, capacity)
    else
      logs == []
  }

  lemma {:induction false} LogsOfCurrentRun(t: seq<State>, i: nat, capacity: nat)
    requires IsTrace(t) && i < |t| && 0 < capacity
    ensures IsLogOfCurrentRun(GatherLogs(t[i], capacity), t[i], capacity)
  {
    TraceInv(t, i);
    LogsByInvariant(t[i], capacity);
  }

  lemma {:induction false} LogsByInvariant(s: State, capacity: nat)
    requires Inv(s) && 0 < capacity
    ensures IsLogOfCurrentRun(GatherLogs(s, capacity), s, capacity)
  {
    var current := InPhase(s, s.startCount, Alive) || InPhase(s, s.startCount, Exited);
    var output := if current then s.runs[s.startCount - 1].output else [];
    assert if current then s.buffer == [NEWLINE] + output else s.buffer == [] || s.buffer == [NEWLINE];
    LogsOfBuffer(s.buffer, current, output, capacity);
  }

  lemma {:induction false} LogsOfBuffer(buffer: seq<byte>, current: bool, output: seq<byte>, capacity: nat)
    requires 0 < capacity
    requires if current then buffer == [NEWLINE] + output else buffer == [] || buffer == [NEWLINE]
    ensures var logs := DropUntil(LastBytes(buffer, capacity), IsLineStart, false).0;
            if current then IsLogOf(logs, output, capacity) else logs == []
  {
    if current {
      LogsOfOutput(output, capacity);
    } else {
      EmptyLogs(buffer, capacity);
    }
  }

  lemma {:induction false} EmptyLogs(buffer: seq<byte>, capacity: nat)
    requires buffer == [] || buffer == [NEWLINE]
    requires 0 < capacity
    ensures DropUntil(LastBytes(buffer, capacity), IsLineStart, false).0 == []
  {
    if buffer == [NEWLINE] {
      LineStartDrops(buffer, 0);
    }
  }

  lemma {:induction false} LogsOfOutput(output: seq<byte>, capacity: nat)
    requires 0 < capacity
    ensures IsLogOf(DropUntil(LastBytes([NEWLINE] + output, capacity), IsLineStart, false).0, output, capacity)
  {
    var tail := LastBytes([NEWLINE] + output, capacity);
    if |output| < capacity {
      assert tail == [NEWLINE] + output;
      LineStartDrops(tail, 0);
    } else {
      var off := |output| - capacity;
      assert tail == output[off..];
      var f := FirstNewline(tail);
      forall j | off <= j < off + f
        ensures output[j] != NEWLINE
      {
        assert output[j] == tail[..f][j - off];
      }
      if f == |tail| {
        assert tail[..f] == tail;
        LineStartNeedsNewline(tail);
      } else {
        LineStartDrops(tail, f);
        assert tail[f + 1..] == output[off + f + 1..];
      }
    }
  }

  /** The goroutine that clears and prefills the buffer is that of the newest run, and no newer one starts before its exit is out. */
  lemma {:induction false} OnlyTheCurrentRunResets(t: seq<State>, i: nat, n: nat)
    requires IsTrace(t) && i < |t|
    requires Enabled(t[i], ClearBuffer(n)) || Enabled(t[i], PrefillBuffer(n))
    ensures n == t[i].startCount && t[i].status.Running?
    ensures forall spawned, byRestart :: Enabled(t[i], Start(spawned, byRestart)) ==>
              Apply(t[i], Start(spawned, byRestart)).runs == t[i].runs
  {
    TraceInv(t, i);
  }
}
