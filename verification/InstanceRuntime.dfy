/**
 The Instance object itself. Each method is one Go method; between taking the lock and a blocking receive,
 and between the steps of an exit goroutine, `OthersRun` lets every other goroutine do whatever the protocol allows.
 */
module InstanceRuntime {
  import opened TailBuffers
  import opened InstanceProtocol

  const BUFFER_CAPACITY: nat := 8192

  // ---- Interference ----

  /** On whose behalf a method runs, so that nobody else takes its steps. */
  datatype Actor = LockHolder | ExitGoroutine(n: nat) | Nobody

  predicate IsStepOf(me: Actor, a: Action) {
    match me
    case LockHolder =>
      a.StopReceives? || a.StopTimesOut? || a.CloseReceives? || a.CloseTimesOut?
      || a.WaitReceives? || a.WaitPutsBack? || a.WaitTimesOut?
    case ExitGoroutine(n) =>
      a == ClearBuffer(n) || a == PrefillBuffer(n) || a == EmitExit(n) || a == HandleExit(n)
    case Nobody => false
  }

  ghost predicate OtherStep(me: Actor, path: seq<State>, i: int) {
    && 0 <= i < |path| - 1
    && exists a :: Enabled(path[i], a) && path[i + 1] == Apply(path[i], a) && !IsStepOf(me, a)
  }

  ghost predicate IsPath(me: Actor, path: seq<State>, s: State, t: State) {
    && path != [] && path[0] == s && path[|path| - 1] == t
    && forall i :: 0 <= i < |path| - 1 ==> OtherStep(me, path, i)
  }

  /** `t` comes from `s` by any number of steps of goroutines other than `me`. */
  ghost predicate Interleaved(me: Actor, s: State, t: State) {
    exists path :: IsPath(me, path, s, t)
  }

  /** `t` comes from `s` by steps of the protocol. */
  ghost predicate Reaches(s: State, t: State) {
    Interleaved(Nobody, s, t)
  }

  lemma {:induction false} InterleavedRefl(me: Actor, s: State)
    ensures Interleaved(me, s, s)
  {
    assert IsPath(me, [s], s, s);
  }

  lemma {:induction false} ReachesThen(s: State, t: State, a: Action)
    requires Reaches(s, t) && Enabled(t, a)
    ensures Reaches(s, Apply(t, a))
  {
    var path :| IsPath(Nobody, path, s, t);
    var longer := path + [Apply(t, a)];
    forall i | 0 <= i < |longer| - 1
      ensures OtherStep(Nobody, longer, i)
    {
      if i < |path| - 1 {
        assert OtherStep(Nobody, path, i);
      } else {
        assert Enabled(longer[i], a) && longer[i + 1] == Apply(longer[i], a);
      }
    }
    assert IsPath(Nobody, longer, s, Apply(t, a));
  }

  lemma {:induction false} ReachesThenOthers(s: State, t: State, u: State, me: Actor)
    requires Reaches(s, t) && Interleaved(me, t, u)
    ensures Reaches(s, u)
  {
    var path :| IsPath(me, path, t, u);
    ReachesAlong(s, me, path, t, |path| - 1);
  }

  lemma {:induction false} ReachesAlong(s: State, me: Actor, path: seq<State>, t: State, i: nat)
    requires Reaches(s, t) && path != [] && IsPath(me, path, t, path[|path| - 1]) && i < |path|
    ensures Reaches(s, path[i])
  {
    if i > 0 {
      ReachesAlong(s, me, path, t, i - 1);
      assert OtherStep(me, path, i - 1);
      var a :| Enabled(path[i - 1], a) && path[i] == Apply(path[i - 1], a) && !IsStepOf(me, a);
      ReachesThen(s, path[i - 1], a);
    }
  }

  /** What only a lock holder changes. */
  function Guarded(s: State): (Status, Exit, nat, nat, seq<Claim>, seq<Notice>, Holder) {
    (s.status, s.lastExit, s.startCount, |s.runs|, s.claims, s.notices, s.holder)
  }

  /** While somebody waits under the lock, no other goroutine touches what the lock guards. */
  lemma {:induction false} LockExcludes(path: seq<State>, s: State, t: State, i: nat)
    requires IsPath(LockHolder, path, s, t) && i < |path|
    requires Reachable(s) && !s.holder.Free?
    ensures Reachable(path[i]) && Guarded(path[i]) == Guarded(s)
  {
    if i > 0 {
      LockExcludes(path, s, t, i - 1);
      assert OtherStep(LockHolder, path, i - 1);
      var a :| Enabled(path[i - 1], a) && path[i] == Apply(path[i - 1], a) && !IsStepOf(LockHolder, a);
      ReachableStep(path[i - 1], a);
    }
  }

  lemma {:induction false} GoroutineStep(n: nat, s: State, a: Action)
    requires Enabled(s, a) && !IsStepOf(ExitGoroutine(n), a)
    requires 1 <= n <= |s.runs| && !s.PhaseOf(n).Alive?
    ensures n <= |Apply(s, a).runs| && Apply(s, a).runs[n - 1] == s.runs[n - 1]
  {
  }

  /** Nobody else moves the goroutine of a run that has exited. */
  lemma {:induction false} GoroutineIsItsOwn(n: nat, path: seq<State>, s: State, t: State, i: nat)
    requires IsPath(ExitGoroutine(n), path, s, t) && i < |path|
    requires 1 <= n <= |s.runs| && !s.PhaseOf(n).Alive?
    ensures n <= |path[i].runs| && path[i].runs[n - 1] == s.runs[n - 1]
  {
    if i > 0 {
      GoroutineIsItsOwn(n, path, s, t, i - 1);
      assert OtherStep(ExitGoroutine(n), path, i - 1);
      var a :| Enabled(path[i - 1], a) && path[i] == Apply(path[i - 1], a) && !IsStepOf(ExitGoroutine(n), a);
      GoroutineStep(n, path[i - 1], a);
    }
  }

  // ---- One step of a method ----

  predicate NoLiveVm(s: State) {
    forall k :: 0 <= k < |s.runs| ==> !s.runs[k].phase.Alive?
  }

  lemma {:induction false} StepFrom(s0: State, s: State, a: Action)
    requires Reaches(s0, s) && Reachable(s) && Enabled(s, a)
    ensures Reaches(s0, Apply(s, a)) && Reachable(Apply(s, a))
  {
    ReachesThen(s0, s, a);
    ReachableStep(s, a);
  }

  lemma {:induction false} OthersFrom(s0: State, s1: State, s2: State)
    requires Reaches(s0, s1) && Interleaved(LockHolder, s1, s2) && Reachable(s1) && !s1.holder.Free?
    ensures Reaches(s0, s2) && Reachable(s2) && Guarded(s2) == Guarded(s1)
  {
    var path :| IsPath(LockHolder, path, s1, s2);
    LockExcludes(path, s1, s2, |path| - 1);
    ReachesThenOthers(s0, s1, s2, LockHolder);
  }

  /** What is on the channel while somebody waits for it is the exit of the current run, whose VM is gone. */
  lemma {:induction false} OnChannel(s: State)
    requires Reachable(s) && AwaitsExit(s.holder) && s.channel != []
    ensures s.startCount == |s.runs| && |s.channel| == 1 && s.channel[0].sender == s.startCount
    ensures InPhase(s, s.startCount, Emitted) && NoLiveVm(s)
  {
    ReachableInv(s);
  }

  /** An exit goroutine that gets the lock finds its exit on the channel exactly if its run is current and Running. */
  lemma {:induction false} UnclaimedIffRunning(s: State, n: nat)
    requires Reachable(s) && s.holder.Free? && InPhase(s, n, Emitted)
    ensures n == s.startCount && s.status.Running? ==> s.channel == [Message(s.runs[n - 1].exit, n)]
    ensures !s.status.Running? ==> s.channel == []
  {
    ReachableInv(s);
  }

  lemma {:induction false} CountsRuns(s: State)
    requires Reachable(s)
    ensures s.startCount == |s.runs|
  {
    ReachableInv(s);
  }

  lemma {:induction false} PutBackFits(s: State)
    requires Reachable(s) && s.holder.PuttingBack?
    ensures s.channel == [] && s.holder.message.sender == s.startCount && InPhase(s, s.startCount, Emitted)
  {
    ReachableInv(s);
  }

  lemma {:induction false} EmitFits(s: State, n: nat)
    requires Reachable(s) && InPhase(s, n, Prefilled)
    ensures s.channel == []
  {
    ReachableInv(s);
  }

  lemma {:induction false} DownMeansNoVm(s: State)
    requires Reachable(s) && !s.status.Running?
    ensures NoLiveVm(s)
  {
    ReachableInv(s);
  }

  // ---- The object ----

  datatype StartResult = Started | Ignored | AlreadyClosed | SpawnFailed
  /** A select between the exit and a timer; it blocks while there is neither. */
  datatype SelectResult = Received | TimedOut | Blocked

  datatype StopResult = StoppedOk | StopTimedOut | StillStopping
  datatype CloseResult = ClosedOk | CloseTimedOut | TeardownFailed | StillClosing
  datatype WaitResult = NotRunning | HasExited | WaitTimedOut | StillWaiting

  class Instance {
    const restartMode: RestartMode
    const outputBuffer: TailBuffer

    var status: Status
    var exitChan: seq<Message>
    var lastExit: Exit
    var startCount: nat

    /** What the status handler was told, and how many restart goroutines have not run yet. */
    var notices: seq<Notice>
    var pendingRestarts: nat

    ghost var holder: Holder
    ghost var runs: seq<Run>
    ghost var claims: seq<Claim>
    ghost var restarts: seq<nat>

    ghost function View(): State
      reads this, outputBuffer
    {
      State(restartMode, status, exitChan, lastExit, startCount, outputBuffer.history, holder, runs, pendingRestarts,
            claims, notices, restarts)
    }

    ghost predicate Valid()
      reads this, outputBuffer, outputBuffer.buf
    {
      outputBuffer.Valid() && outputBuffer.buf.Length == BUFFER_CAPACITY && Reachable(View())
    }

    constructor (mode: RestartMode)
      ensures Valid() && Initial(View()) && restartMode == mode
      ensures fresh(outputBuffer) && fresh(outputBuffer.buf) && outputBuffer.buf.Length == 8192 && outputBuffer.history == [10]
    {
      restartMode := mode;
      var buffer := new TailBuffer(BUFFER_CAPACITY);
      var _ := buffer.Write([NEWLINE]);
      outputBuffer := buffer;
      status, exitChan, lastExit, startCount := Stopped, [], NoExit, 0;
      notices, pendingRestarts := [], 0;
      holder, runs, claims, restarts := Free, [], [], [];
      new;
      ReachableInitially(View());
    }

    /** Any number of steps of the other goroutines: nothing, as far as this body goes; callers know no more than the protocol. */
    method OthersRun(ghost me: Actor)
      requires Valid()
      modifies this, outputBuffer, outputBuffer.buf
      ensures Valid() && Interleaved(me, old(View()), View())
    {
      InterleavedRefl(me, View());
    }

    method Start(spawned: bool, byRestart: bool) returns (r: StartResult)
      requires Valid() && holder.Free? && (byRestart ==> 0 < pendingRestarts)
      modifies this
      ensures Valid() && View() == Apply(old(View()), InstanceProtocol.Start(spawned, byRestart))
      ensures r.Started? <==> old(status).Stopped? && spawned
      ensures r.Started? ==> status.Running? && startCount == old(startCount) + 1 && InPhase(View(), startCount, Alive)
      ensures !r.Started? ==> status == old(status) && runs == old(runs)
      ensures r.AlreadyClosed? <==> old(status).Closed?
      ensures pendingRestarts == old(pendingRestarts) - if byRestart then 1 else 0
    {
      CountsRuns(View());
      ReachableStep(View(), InstanceProtocol.Start(spawned, byRestart));
      if byRestart {
        pendingRestarts := pendingRestarts - 1;
      }
      if status.Running? {
        return Ignored;
      }
      if status.Closed? {
        return AlreadyClosed;
      }
      if !spawned {
        return SpawnFailed;
      }
      runs := runs + [Run(Alive, NoExit, [])];
      startCount := startCount + 1;
      status := Running;
      return Started;
    }

    /** Receives the exit for good. */
    method TakeExit(taker: Claimer, next: Status)
      requires exitChan != []
      modifies this
      ensures View() == old(View()).TakeExit(taker, next)
    {
      claims := claims + [Claim(taker, exitChan[0])];
      status := next;
      lastExit := exitChan[0].exit;
      exitChan := exitChan[1..];
      holder := Free;
    }

    /** From taking the lock to the select: `holder` waits, the others run. */
    method LockAndWait(h: Holder, ghost a: Action)
      requires Valid() && holder.Free? && status.Running? && AwaitsExit(h)
      requires a == match h { case Stopping => EnterStop case Closing => EnterClose case Waiting(b) => EnterWait(b) case _ => a }
      modifies this, outputBuffer, outputBuffer.buf
      ensures Valid() && Reaches(old(View()), View())
      ensures Guarded(View()) == Guarded(old(View()).(holder := h))
      ensures exitChan != [] ==> |exitChan| == 1 && exitChan[0].sender == startCount && NoLiveVm(View())
                                 && InPhase(View(), startCount, Emitted)
    {
      ghost var s0 := View();
      InterleavedRefl(Nobody, s0);
      StepFrom(s0, s0, a);
      holder := h;
      ghost var s1 := View();
      OthersRun(LockHolder);
      OthersFrom(s0, s1, View());
      if exitChan != [] {
        OnChannel(View());
      }
    }

    /** The timer came first: nothing but the lock is given up. */
    method GiveUp(ghost s0: State)
      requires Valid() && AwaitsExit(holder) && holder != Waiting(false) && Reaches(s0, View())
      modifies this`holder
      ensures Valid() && holder.Free? && Reaches(s0, View())
    {
      StepFrom(s0, View(), match holder { case Stopping => StopTimesOut case Closing => CloseTimesOut case _ => WaitTimesOut });
      holder := Free;
    }

    /** The exit came first. */
    method Receive(taker: Claimer, next: Status, ghost s0: State)
      requires Valid() && exitChan != [] && Reaches(s0, View())
      requires if holder.Stopping? then (taker, next) == (ByStop, Stopped) else holder.Closing? && (taker, next) == (ByClose, Status.Closed)
      modifies this
      ensures Valid() && Reaches(s0, View()) && View() == old(View()).TakeExit(taker, next)
    {
      StepFrom(s0, View(), if holder.Stopping? then StopReceives else CloseReceives);
      TakeExit(taker, next);
    }

    /** The select of Stop and Close: the exit or the timer, whichever is there, and either if both are. */
    method ReceiveOrTimeOut(h: Holder, taker: Claimer, next: Status, timerFired: bool) returns (r: SelectResult)
      requires Valid() && holder.Free? && status.Running?
      requires (h, taker, next) == (Stopping, ByStop, Stopped) || (h, taker, next) == (Closing, ByClose, Status.Closed)
      modifies this, outputBuffer, outputBuffer.buf
      ensures Valid() && Reaches(old(View()), View())
      ensures startCount == old(startCount) && |runs| == |old(runs)| && notices == old(notices)
      ensures r.Received? ==> status == next && NoLiveVm(View()) && holder.Free?
      ensures r.Received? ==> claims == old(claims) + [Claim(taker, Message(lastExit, startCount))]
      ensures !r.Received? ==> status.Running? && claims == old(claims)
      ensures r.TimedOut? ==> timerFired && holder.Free?
      ensures r.Blocked? ==> !timerFired && exitChan == [] && holder == h
    {
      ghost var s0 := View();
      LockAndWait(h, if h.Stopping? then EnterStop else EnterClose);
      var timerChosen: bool := *;
      if |exitChan| > 0 && !(timerFired && timerChosen) {
        Receive(taker, next, s0);
        return Received;
      }
      if timerFired {
        GiveUp(s0);
        return TimedOut;
      }
      return Blocked;
    }

    /**
     Stop only fails when its timer fires; when it succeeds, the VM is down and its exit is claimed by this call if it ran. Until
     then it waits under the lock, with no exit to take.
     */
    method Stop(timerFired: bool) returns (r: StopResult)
      requires Valid() && holder.Free?
      modifies this, outputBuffer, outputBuffer.buf
      ensures Valid() && Reaches(old(View()), View())
      ensures startCount == old(startCount) && |runs| == |old(runs)| && notices == old(notices)
      ensures !old(status).Running? ==> r.StoppedOk? && View() == old(View())
      ensures r.StoppedOk? ==> !status.Running? && NoLiveVm(View()) && holder.Free?
      ensures old(status).Running? && r.StoppedOk? ==>
                status.Stopped? && claims == old(claims) + [Claim(ByStop, Message(lastExit, startCount))]
      ensures !r.StoppedOk? ==> status.Running? && claims == old(claims)
      ensures r.StopTimedOut? ==> timerFired && holder.Free?
      ensures r.StillStopping? ==> !timerFired && exitChan == [] && holder.Stopping?
    {
      if !status.Running? {
        InterleavedRefl(Nobody, View());
        DownMeansNoVm(View());
        return StoppedOk;
      }
      var s := ReceiveOrTimeOut(Stopping, ByStop, Stopped, timerFired);
      r := match s case Received => StoppedOk case TimedOut => StopTimedOut case Blocked => StillStopping;
    }

    /** Once Close has not timed out the instance is closed for good, whether or not the network could be torn down. */
    method Close(timerFired: bool, tornDown: bool) returns (r: CloseResult)
      requires Valid() && holder.Free?
      modifies this, outputBuffer, outputBuffer.buf
      ensures Valid() && Reaches(old(View()), View())
      ensures startCount == old(startCount) && |runs| == |old(runs)| && notices == old(notices)
      ensures r.CloseTimedOut? ==> timerFired && holder.Free?
      ensures r.StillClosing? ==> !timerFired && exitChan == [] && holder.Closing?
      ensures r.CloseTimedOut? || r.StillClosing? ==> old(status).Running? && status.Running? && claims == old(claims)
      ensures r.ClosedOk? || r.TeardownFailed? ==> status.Closed? && NoLiveVm(View()) && holder.Free?
      ensures old(status).Running? && (r.ClosedOk? || r.TeardownFailed?) ==>
                claims == old(claims) + [Claim(ByClose, Message(lastExit, startCount))]
      ensures !old(status).Running? ==> claims == old(claims) && lastExit == old(lastExit)
      ensures r.TeardownFailed? ==> !tornDown && !old(status).Closed?
      ensures r.ClosedOk? ==> tornDown || old(status).Closed?
    {
      ghost var s0 := View();
      if status.Closed? {
        InterleavedRefl(Nobody, s0);
        DownMeansNoVm(s0);
        return ClosedOk;
      }
      if status.Running? {
        var s := ReceiveOrTimeOut(Closing, ByClose, Status.Closed, timerFired);
        if !s.Received? {
          return if s.TimedOut? then CloseTimedOut else StillClosing;
        }
      } else {
        InterleavedRefl(Nobody, s0);
        StepFrom(s0, s0, EnterClose);
        DownMeansNoVm(s0);
        status := Closed;
      }
      r := if tornDown then ClosedOk else TeardownFailed;
    }

    /**
     Waiting leaves the exit to be claimed by others: the value taken off the channel is put back before the lock
     is given up. It ends with the exit or with the timer, if it has one; until then it waits under the lock.
     */
    method WaitForExit(bounded: bool, timerFired: bool) returns (r: WaitResult)
      requires Valid() && holder.Free?
      modifies this, outputBuffer, outputBuffer.buf
      ensures Valid() && Reaches(old(View()), View())
      ensures status == old(status) && startCount == old(startCount) && claims == old(claims) && notices == old(notices)
      ensures holder == if r.StillWaiting? then Waiting(bounded) else Free
      ensures r.NotRunning? <==> !old(status).Running?
      ensures r.HasExited? ==> |exitChan| == 1 && exitChan[0].sender == startCount && InPhase(View(), startCount, Emitted)
      ensures r.WaitTimedOut? ==> bounded && timerFired
      ensures r.StillWaiting? ==> !(bounded && timerFired) && exitChan == []
    {
      ghost var s0 := View();
      if !status.Running? {
        InterleavedRefl(Nobody, s0);
        return NotRunning;
      }
      LockAndWait(Waiting(bounded), EnterWait(bounded));
      var timerChosen: bool := *;
      if |exitChan| > 0 && !(bounded && timerFired && timerChosen) {
        PutBack(s0);
        return HasExited;
      }
      if bounded && timerFired {
        GiveUp(s0);
        return WaitTimedOut;
      }
      return StillWaiting;
    }

    /** Takes the exit and sends it back; the others run in between, but the channel stays empty. */
    method PutBack(ghost s0: State)
      requires Valid() && holder.Waiting? && exitChan != [] && Reaches(s0, View())
      modifies this, outputBuffer, outputBuffer.buf
      ensures Valid() && Reaches(s0, View())
      ensures Guarded(View()) == Guarded(old(View()).(holder := Free)) && exitChan == [old(exitChan)[0]]
      ensures exitChan[0].sender == startCount && InPhase(View(), startCount, Emitted)
    {
      StepFrom(s0, View(), WaitReceives);
      var exit := exitChan[0];
      exitChan := exitChan[1..];
      holder := PuttingBack(exit);
      ghost var s3 := View();
      OthersRun(LockHolder);
      OthersFrom(s0, s3, View());
      PutBackFits(View());
      StepFrom(s0, View(), WaitPutsBack);
      exitChan := exitChan + [exit];
      holder := Free;
      assert exitChan == [exit];
    }

    /** From the return of cmd.Wait to the send: the exit always fits into the channel. */
    method AwaitVm(n: nat, exit: Exit) returns (emitted: bool)
      requires Valid() && InPhase(View(), n, Alive) && exit != NoExit
      modifies this, outputBuffer, outputBuffer.buf
      ensures Valid() && Reaches(old(View()), View())
      ensures emitted && InPhase(View(), n, Emitted) && runs[n - 1].exit == exit
    {
      ghost var s0 := View();
      InterleavedRefl(Nobody, s0);
      StepFrom(s0, s0, VmExits(n, exit));
      runs := runs[n - 1 := runs[n - 1].(phase := Exited, exit := exit)];
      ResetBuffer(n, s0);
      RefillBuffer(n, s0);
      emitted := SendExit(n, exit, s0);
    }

    method ResetBuffer(ghost n: nat, ghost s0: State)
      requires Valid() && InPhase(View(), n, Exited) && Reaches(s0, View())
      modifies this, outputBuffer, outputBuffer.buf
      ensures Valid() && Reaches(s0, View())
      ensures InPhase(View(), n, Cleared) && runs[n - 1].exit == old(runs)[n - 1].exit && outputBuffer.history == []
    {
      Yield(n, s0);
      StepFrom(s0, View(), ClearBuffer(n));
      outputBuffer.Reset();
      runs := runs[n - 1 := runs[n - 1].(phase := Cleared)];
    }

    method RefillBuffer(ghost n: nat, ghost s0: State)
      requires Valid() && InPhase(View(), n, Cleared) && Reaches(s0, View())
      modifies this, outputBuffer, outputBuffer.buf
      ensures Valid() && Reaches(s0, View())
      ensures InPhase(View(), n, Prefilled) && runs[n - 1].exit == old(runs)[n - 1].exit
    {
      Yield(n, s0);
      StepFrom(s0, View(), PrefillBuffer(n));
      var _ := outputBuffer.Write([NEWLINE]);
      runs := runs[n - 1 := runs[n - 1].(phase := Prefilled)];
    }

    /** The select with a default branch; the send needs no lock. */
    method SendExit(n: nat, exit: Exit, ghost s0: State) returns (emitted: bool)
      requires Valid() && InPhase(View(), n, Prefilled) && runs[n - 1].exit == exit && Reaches(s0, View())
      modifies this, outputBuffer, outputBuffer.buf
      ensures Valid() && Reaches(s0, View())
      ensures emitted && InPhase(View(), n, Emitted) && runs[n - 1].exit == exit
    {
      Yield(n, s0);
      EmitFits(View(), n);
      StepFrom(s0, View(), EmitExit(n));
      if |exitChan| < 1 {
        exitChan := exitChan + [Message(exit, n)];
        assert exitChan == [Message(exit, n)];
        runs := runs[n - 1 := runs[n - 1].(phase := Emitted)];
        emitted := true;
      } else {
        // the branch that is meant never to happen
        emitted := false;
      }
    }

    /** A point between two steps of the goroutine of run `n`. */
    method Yield(ghost n: nat, ghost s0: State)
      requires Valid() && 1 <= n <= |runs| && !runs[n - 1].phase.Alive? && Reaches(s0, View())
      modifies this, outputBuffer, outputBuffer.buf
      ensures Valid() && n <= |runs| && runs[n - 1] == old(runs)[n - 1] && Reaches(s0, View())
    {
      ghost var s1 := View();
      OthersRun(ExitGoroutine(n));
      ghost var path :| IsPath(ExitGoroutine(n), path, s1, View());
      GoroutineIsItsOwn(n, path, s1, View(), |path| - 1);
      ReachesThenOthers(s0, s1, View(), ExitGoroutine(n));
    }

    /** The exit of run `n` is handled here exactly if run `n` is current and nobody has taken its exit. */
    method HandleUnclaimedExit(n: nat)
      requires Valid() && holder.Free? && InPhase(View(), n, Emitted)
      modifies this
      ensures Valid() && View() == Apply(old(View()), HandleExit(n))
      ensures n != old(startCount) || !old(status).Running? ==> Guarded(View()) == old(Guarded(View()))
      ensures n == old(startCount) && old(status).Running? ==>
                && status.Stopped? && InPhase(View(), n, Finished) && lastExit == runs[n - 1].exit
                && claims == old(claims) + [Claim(ByHandler, Message(lastExit, n))]
                && notices == old(notices) +
                     [Notice(n, if restartMode.Never? && lastExit.Success? then COMPLETED else DEAD)]
                && pendingRestarts == old(pendingRestarts) + if restartMode.Never? then 0 else 1
    {
      ReachableStep(View(), HandleExit(n));
      UnclaimedIffRunning(View(), n);
      runs := runs[n - 1 := runs[n - 1].(phase := Finished)];
      if n != startCount {
        return;
      }
      if |exitChan| == 0 {
        return;
      }
      var exit := exitChan[0];
      TakeExit(ByHandler, Stopped);
      if restartMode.Never? {
        if exit.exit.Success? {
          notices := notices + [Notice(exit.sender, COMPLETED)];
        } else {
          notices := notices + [Notice(exit.sender, DEAD)];
        }
      } else {
        notices := notices + [Notice(exit.sender, DEAD)];
        pendingRestarts := pendingRestarts + 1;
        restarts := restarts + [exit.sender];
      }
    }

    method GatherLogs() returns (logs: seq<byte>)
      requires Valid()
      ensures IsLogOfCurrentRun(logs, View(), BUFFER_CAPACITY)
    {
      var found;
      logs, found := outputBuffer.WriteToSkippingUntil(IsLineStart, false);
      ReachableInv(View());
      LogsByInvariant(View(), BUFFER_CAPACITY);
    }
  }
}
