/**
 The addons monitor: bounded restarts of failed containers, over a container runtime and an
 addons manager that may fail.
 */
module AddonsMonitor {
  import opened Wrappers

  type Id = string

  /**
   What the monitor keeps for one addon: retry counts, containers waiting for a restart, failed containers still to be
   reported. `restarts` and `cleaned` are bookkeeping: how often each was restarted and cleaned up; `ended`
   says that a restart has raised, which ends the process and with it everything it keeps.
   */
  datatype Book = Book(counts: map<Id, nat>, pending: set<Id>, failed: set<Id>, restarts: map<Id, nat>, cleaned: multiset<Id>, ended: bool)

  const NEW_BOOK := Book(map[], {}, {}, map[], multiset{}, false)

  function RestartsOf(b: Book, id: Id): nat {
    if id in b.restarts then b.restarts[id] else 0
  }

  // ---- The steps ----

  datatype Step =
    | SeesFailure(id: Id)     // the container is listed with a non-zero exit code
    | CleansUp                // the failure is reported and every failed container removed
    | CleansPartly(ids: set<Id>)  // reported, but removing raises after these
    | Misses(id: Id)          // a container to restart is gone
    | Restarts(id: Id)
    | RestartRaises(id: Id)   // it may have taken place all the same

  function AfterFailure(b: Book, id: Id, max: nat): Book {
    var retries := if id in b.counts then b.counts[id] else 0;
    if retries >= max then
      b.(failed := b.failed + {id}, counts := b.counts - {id}, pending := b.pending - {id})
    else if b.failed == {} then
      b.(counts := b.counts[id := retries + 1], pending := b.pending + {id})
    else
      b
  }

  function AfterMiss(b: Book, id: Id): Book {
    b.(pending := b.pending - {id}, counts := b.counts - {id}, failed := b.failed + {id})
  }

  function AfterRestart(b: Book, id: Id): Book {
    b.(pending := b.pending - {id}, restarts := b.restarts[id := RestartsOf(b, id) + 1])
  }

  function Apply(b: Book, s: Step, max: nat): Book {
    match s
    case SeesFailure(id) => AfterFailure(b, id, max)
    case CleansUp => b.(failed := {}, cleaned := b.cleaned + multiset(b.failed))
    case CleansPartly(ids) => b.(cleaned := b.cleaned + multiset(ids))
    case Misses(id) => AfterMiss(b, id)
    case Restarts(id) => AfterRestart(b, id)
    case RestartRaises(id) => AfterRestart(b, id).(pending := b.pending, ended := true)
  }

  /** What the monitor looks at. */
  predicate Enabled(b: Book, s: Step) {
    && !b.ended
    && match s
       case SeesFailure(_) => true
       case CleansUp => true
       case CleansPartly(ids) => ids <= b.failed
       case Misses(id) => id in b.pending
       case Restarts(id) => id in b.pending
       case RestartRaises(id) => id in b.pending
  }

  /** A container that was cleaned up is not listed again. */
  predicate NoReturn(b: Book, s: Step) {
    s.SeesFailure? ==> s.id !in b.cleaned || s.id in b.failed
  }

  // ---- The invariant ----

  predicate PendingCounted(b: Book, max: nat) {
    forall id :: id in b.pending ==> id in b.counts && 1 <= b.counts[id] <= max
  }

  predicate FailedUncounted(b: Book) {
    forall id :: id in b.failed ==> id !in b.counts && id !in b.pending
  }

  /** Every restart was paid for with a retry, and a container that lost its retries is failed or gone. */
  predicate RestartsPaid(b: Book, max: nat) {
    && (forall id :: id in b.counts ==>
          b.counts[id] <= max && RestartsOf(b, id) + (if id in b.pending && !b.ended then 1 else 0) <= b.counts[id])
    && (forall id :: id in b.restarts && id !in b.counts ==> b.restarts[id] <= max && (id in b.failed || id in b.cleaned))
  }

  predicate Inv(b: Book, max: nat) {
    && PendingCounted(b, max) && FailedUncounted(b) && RestartsPaid(b, max)
    && forall id :: id in b.cleaned ==> id !in b.counts && id !in b.pending
  }

  lemma {:induction false} InvStep(b: Book, s: Step, max: nat)
    requires Inv(b, max) && Enabled(b, s) && NoReturn(b, s)
    ensures Inv(Apply(b, s, max), max)
  {
  }

  function After(b: Book, run: seq<Step>, max: nat): Book {
    if run == [] then b else Apply(After(b, run[..|run| - 1], max), run[|run| - 1], max)
  }

  ghost predicate IsRun(b: Book, run: seq<Step>, max: nat) {
    forall k {:trigger run[k]} :: 0 <= k < |run| ==> Enabled(After(b, run[..k], max), run[k])
  }

  ghost predicate NoneReturns(b: Book, run: seq<Step>, max: nat) {
    forall k {:trigger run[k]} :: 0 <= k < |run| ==> NoReturn(After(b, run[..k], max), run[k])
  }

  lemma {:induction false} PrefixRun(b: Book, run: seq<Step>, max: nat)
    requires run != [] && IsRun(b, run, max)
    ensures var p := run[..|run| - 1];
            IsRun(b, p, max) && Enabled(After(b, p, max), run[|run| - 1])
  {
    var p := run[..|run| - 1];
    forall k {:trigger p[k]} | 0 <= k < |p|
      ensures Enabled(After(b, p[..k], max), p[k])
    {
      assert p[..k] == run[..k] && p[k] == run[k];
    }
  }

  /**
   In every run no container is restarted more often than allowed; those waiting for a restart have between one and
   that many retries; failed ones have none, whether or not reporting them has succeeded.
   */
  lemma {:induction false} BoundedRestarts(run: seq<Step>, max: nat)
    requires IsRun(NEW_BOOK, run, max) && NoneReturns(NEW_BOOK, run, max)
    ensures var b := After(NEW_BOOK, run, max);
            && Inv(b, max)
            && (forall id :: RestartsOf(b, id) <= max)
            && (forall id :: id in b.pending ==> id in b.counts && 1 <= b.counts[id] <= max)
            && (forall id :: id in b.failed ==> id !in b.counts && id !in b.pending)
  {
    if run != [] {
      var p := run[..|run| - 1];
      forall k {:trigger p[k]} | 0 <= k < |p|
        ensures NoReturn(After(NEW_BOOK, p[..k], max), p[k])
      {
        assert p[..k] == run[..k] && p[k] == run[k];
      }
      PrefixRun(NEW_BOOK, run, max);
      BoundedRestarts(p, max);
      InvStep(After(NEW_BOOK, p, max), run[|run| - 1], max);
    }
  }

  // ---- When removed ids do return ----

  function Times(max: nat, n: nat): nat {
    if n == 0 then 0 else Times(max, n - 1) + max
  }

  lemma {:induction false} TimesIsProduct(max: nat, n: nat)
    ensures Times(max, n) == max * n
  {
    if n > 0 {
      TimesIsProduct(max, n - 1);
    }
  }

  /** The restarts that a container can have had: the maximum per cleanup, and what it has been granted since. */
  function Allowance(b: Book, id: Id, max: nat): nat {
    Times(max, b.cleaned[id]) + if id in b.counts then b.counts[id] else if id in b.failed then max else 0
  }

  ghost predicate WithinAllowance(b: Book, max: nat) {
    && PendingCounted(b, max) && FailedUncounted(b)
    && (forall id :: id in b.counts ==> b.counts[id] <= max)
    && forall id :: RestartsOf(b, id) + (if id in b.pending && !b.ended then 1 else 0) <= Allowance(b, id, max)
  }

  lemma {:induction false} AllowanceStep(b: Book, s: Step, max: nat)
    requires WithinAllowance(b, max) && Enabled(b, s)
    ensures WithinAllowance(Apply(b, s, max), max)
  {
    var after := Apply(b, s, max);
    forall id
      ensures RestartsOf(after, id) + (if id in after.pending && !after.ended then 1 else 0) <= Allowance(after, id, max)
    {
      assert RestartsOf(b, id) + (if id in b.pending && !b.ended then 1 else 0) <= Allowance(b, id, max);
      assert after.cleaned[id] == b.cleaned[id] || after.cleaned[id] == b.cleaned[id] + 1;
    }
  }

  lemma {:induction false} WithinMeans(b: Book, id: Id, max: nat)
    requires WithinAllowance(b, max)
    ensures RestartsOf(b, id) <= max * (b.cleaned[id] + 1)
  {
    assert RestartsOf(b, id) <= Allowance(b, id, max);
    assert Times(max, b.cleaned[id] + 1) == Times(max, b.cleaned[id]) + max;
    TimesIsProduct(max, b.cleaned[id] + 1);
  }

  /** Even if ids return, a container is restarted at most the maximum once more than it was cleaned up. */
  lemma {:induction false} BoundedByCleanups(run: seq<Step>, max: nat, id: Id)
    requires IsRun(NEW_BOOK, run, max)
    ensures var b := After(NEW_BOOK, run, max);
            RestartsOf(b, id) <= max * (b.cleaned[id] + 1)
  {
    RunsWithinAllowance(run, max);
    WithinMeans(After(NEW_BOOK, run, max), id, max);
  }

  lemma {:induction false} RunsWithinAllowance(run: seq<Step>, max: nat)
    requires IsRun(NEW_BOOK, run, max)
    ensures WithinAllowance(After(NEW_BOOK, run, max), max)
  {
    if run != [] {
      PrefixRun(NEW_BOOK, run, max);
      RunsWithinAllowance(run[..|run| - 1], max);
      AllowanceStep(After(NEW_BOOK, run[..|run| - 1], max), run[|run| - 1], max);
    }
  }

  lemma {:induction false} RunThen(run: seq<Step>, s: Step, max: nat)
    requires IsRun(NEW_BOOK, run, max) && Enabled(After(NEW_BOOK, run, max), s)
    ensures IsRun(NEW_BOOK, run + [s], max)
    ensures After(NEW_BOOK, run + [s], max) == Apply(After(NEW_BOOK, run, max), s, max)
  {
    var longer := run + [s];
    assert longer[..|run|] == run;
    forall k {:trigger longer[k]} | 0 <= k < |longer|
      ensures Enabled(After(NEW_BOOK, longer[..k], max), longer[k])
    {
      if k < |run| {
        assert longer[..k] == run[..k] && longer[k] == run[k];
      }
    }
  }

  /** One container, restarted `n` times so far. */
  function Worn(id: Id, n: nat): Book {
    if n == 0 then NEW_BOOK else NEW_BOOK.(counts := map[id := n], restarts := map[id := n])
  }

  lemma {:induction false} WornStep(id: Id, n: nat, max: nat)
    requires 0 < n <= max
    ensures Enabled(Worn(id, n - 1), SeesFailure(id))
    ensures Enabled(Apply(Worn(id, n - 1), SeesFailure(id), max), Restarts(id))
    ensures Apply(Apply(Worn(id, n - 1), SeesFailure(id), max), Restarts(id), max) == Worn(id, n)
  {
    var b := Apply(Apply(Worn(id, n - 1), SeesFailure(id), max), Restarts(id), max);
    assert b.counts == map[id := n] && b.restarts == map[id := n] && b.pending == {};
  }

  lemma {:induction false} TwoMore(run: seq<Step>, x: Step, y: Step, max: nat)
    requires IsRun(NEW_BOOK, run, max) && Enabled(After(NEW_BOOK, run, max), x)
    requires Enabled(Apply(After(NEW_BOOK, run, max), x, max), y)
    ensures IsRun(NEW_BOOK, run + [x] + [y], max)
    ensures After(NEW_BOOK, run + [x] + [y], max) == Apply(Apply(After(NEW_BOOK, run, max), x, max), y, max)
  {
    RunThen(run, x, max);
    RunThen(run + [x], y, max);
  }

  /** The run leads to this book. */
  ghost predicate LeadsTo(run: seq<Step>, b: Book, max: nat) {
    IsRun(NEW_BOOK, run, max) && After(NEW_BOOK, run, max) == b
  }

  lemma {:induction false} OneRound(run: seq<Step>, id: Id, n: nat, max: nat) returns (longer: seq<Step>)
    requires 0 < n <= max && LeadsTo(run, Worn(id, n - 1), max)
    ensures LeadsTo(longer, Worn(id, n), max)
  {
    WornStep(id, n, max);
    TwoMore(run, SeesFailure(id), Restarts(id), max);
    longer := run + [SeesFailure(id)] + [Restarts(id)];
  }

  lemma {:induction false} WearOut(id: Id, n: nat, max: nat) returns (run: seq<Step>)
    requires n <= max
    ensures LeadsTo(run, Worn(id, n), max)
  {
    run := [];
    for i := 0 to n
      invariant LeadsTo(run, Worn(id, i), max)
    {
      run := OneRound(run, id, i + 1, max);
    }
  }

  /**
   The assumption is needed: a run in which a container is restarted as often as allowed, fails and is cleaned up, and then
   comes back under the same id and is restarted once more.
   */
  lemma {:induction false} ReturningIdStartsOver(id: Id, max: nat) returns (run: seq<Step>)
    requires 0 < max
    ensures IsRun(NEW_BOOK, run, max) && After(NEW_BOOK, run, max).cleaned[id] == 1
    ensures RestartsOf(After(NEW_BOOK, run, max), id) == max + 1
  {
    var worn := WearOut(id, max, max);
    TwoMore(worn, SeesFailure(id), CleansUp, max);
    var gone := worn + [SeesFailure(id)] + [CleansUp];
    var b := Apply(Apply(Worn(id, max), SeesFailure(id), max), CleansUp, max);
    assert b.counts == map[] && b.failed == {} && b.cleaned[id] == 1 && RestartsOf(b, id) == max;
    TwoMore(gone, SeesFailure(id), Restarts(id), max);
    run := gone + [SeesFailure(id)] + [Restarts(id)];
  }

  // ---- The monitor ----

  datatype Container = Container(id: Id, exitCode: int)

  /** What one poll lists for an active addon: its containers, and how many services it should have. */
  datatype Listing = Listing(addon: string, containers: seq<Container>, services: nat)

  /** The book after the exit codes have been looked at. */
  function AfterFailures(b: Book, containers: seq<Container>, max: nat): Book {
    if containers == [] then
      b
    else
      var before := AfterFailures(b, containers[..|containers| - 1], max);
      var last := containers[|containers| - 1];
      if last.exitCode != 0 then AfterFailure(before, last.id, max) else before
  }

  /** What a restart of a container meets. */
  datatype Answer = Restarted | Gone | Raised

  /** What one poll of an addon meets: whether reporting succeeds, removing each container, and restarting each. */
  datatype Environment = Environment(reported: bool, removes: Id -> bool, answers: Id -> Answer)

  function StepFor(id: Id, answer: Answer): Step {
    match answer
    case Restarted => Restarts(id)
    case Gone => Misses(id)
    case Raised => RestartRaises(id)
  }

  /**
   Nothing if none has failed or reporting raises. Otherwise everything failed is removed, or, if removing one of them raises, some
   of the others are, and all stay failed.
   */
  ghost predicate Reported(was: Book, b: Book, e: Environment, max: nat) {
    if was.failed == {} || !e.reported then b == was
    else if forall id :: id in was.failed ==> e.removes(id) then b == Apply(was, CleansUp, max)
    else exists ids :: ids <= was.failed && (forall id :: id in ids ==> e.removes(id)) && b == Apply(was, CleansPartly(ids), max)
  }

  /** Whether two books agree on a container. */
  predicate SameOn(a: Book, b: Book, id: Id) {
    && (id in a.counts <==> id in b.counts) && (id in a.counts ==> a.counts[id] == b.counts[id])
    && (id in a.failed <==> id in b.failed) && RestartsOf(a, id) == RestartsOf(b, id)
  }

  /**
   Of what was pending, each container that is not pending any more was restarted once or has gone missing, and nothing
   else has changed, unless a restart raised, of one container that is still pending.
   */
  ghost predicate Retried(was: Book, b: Book, answers: Id -> Answer, max: nat) {
    && b.cleaned == was.cleaned && b.pending <= was.pending
    && (forall id :: id in was.pending && id !in b.pending ==>
          !answers(id).Raised? && SameOn(b, Apply(was, StepFor(id, answers(id)), max), id))
    && (!b.ended ==> forall id :: !(id in was.pending && id !in b.pending) ==> SameOn(b, was, id))
    && (b.ended ==> exists r :: r in b.pending && answers(r).Raised? && SameOn(b, Apply(was, RestartRaises(r), max), r)
                                && forall id :: id != r && !(id in was.pending && id !in b.pending) ==> SameOn(b, was, id))
  }

  /** Reporting clears all failures or none, counts a removal for failed containers only, and changes nothing else. */
  lemma {:induction false} ReportedMeans(was: Book, b: Book, e: Environment, max: nat)
    requires Reported(was, b, e, max)
    ensures b.counts == was.counts && b.pending == was.pending && b.restarts == was.restarts && b.ended == was.ended
    ensures b.failed == if e.reported && forall id :: id in was.failed ==> e.removes(id) then {} else was.failed
    ensures b.failed != was.failed ==> b.cleaned == was.cleaned + multiset(was.failed)
    ensures forall id :: was.cleaned[id] <= b.cleaned[id] <= was.cleaned[id] + if id in was.failed then 1 else 0
  {
  }

  /** Every container that waited and does not wait any more was restarted exactly once, or else has failed and lost its retries. */
  lemma {:induction false} RetriedMeans(was: Book, b: Book, answers: Id -> Answer, max: nat, id: Id)
    requires Retried(was, b, answers, max) && id in was.pending && id !in b.pending
    ensures if answers(id).Gone? then RestartsOf(b, id) == RestartsOf(was, id) && id in b.failed && id !in b.counts
            else answers(id).Restarted? && RestartsOf(b, id) == RestartsOf(was, id) + 1 && (id in b.failed <==> id in was.failed)
  {
  }

  lemma {:induction false} RetriedNone(b: Book, answers: Id -> Answer, max: nat)
    requires !b.ended
    ensures Retried(b, b, answers, max)
  {
  }

  lemma {:induction false} RetriedMissing(was: Book, b: Book, id: Id, answers: Id -> Answer, max: nat)
    requires Retried(was, b, answers, max) && id in b.pending && !b.ended && answers(id).Gone?
    ensures Retried(was, Apply(b, Misses(id), max), answers, max)
  {
  }

  lemma {:induction false} RetriedRestarted(was: Book, b: Book, id: Id, answers: Id -> Answer, max: nat)
    requires Retried(was, b, answers, max) && id in b.pending && !b.ended && answers(id).Restarted?
    ensures Retried(was, Apply(b, Restarts(id), max), answers, max)
  {
  }

  lemma {:induction false} RetriedRaised(was: Book, b: Book, id: Id, answers: Id -> Answer, max: nat)
    requires Retried(was, b, answers, max) && id in b.pending && !b.ended && answers(id).Raised?
    ensures Retried(was, Apply(b, RestartRaises(id), max), answers, max)
  {
    assert SameOn(b, was, id);
    var raised := Apply(b, RestartRaises(id), max);
    assert id in raised.pending && SameOn(raised, Apply(was, RestartRaises(id), max), id);
  }

  lemma {:induction false} RetriedOne(was: Book, b: Book, id: Id, answers: Id -> Answer, max: nat)
    requires Retried(was, b, answers, max) && id in b.pending && !b.ended
    ensures Retried(was, Apply(b, StepFor(id, answers(id)), max), answers, max)
  {
    match answers(id)
    case Restarted => RetriedRestarted(was, b, id, answers, max);
    case Gone => RetriedMissing(was, b, id, answers, max);
    case Raised => RetriedRaised(was, b, id, answers, max);
  }

  /** One poll of an addon: the exit codes, then the report, then the restarts; nothing if all its containers are missing. */
  ghost predicate Monitored(was: Book, b: Book, l: Listing, e: Environment, max: nat) {
    if l.containers == [] && 0 < l.services then b == was
    else exists mid :: Reported(AfterFailures(was, l.containers, max), mid, e, max) && Retried(mid, b, e.answers, max)
  }

  lemma {:induction false} MonitoredBy(was: Book, mid: Book, b: Book, l: Listing, e: Environment, max: nat)
    requires l.containers != [] || l.services == 0
    requires Reported(AfterFailures(was, l.containers, max), mid, e, max) && Retried(mid, b, e.answers, max)
    ensures Monitored(was, b, l, e, max)
  {
  }

  /** The containers that a poll lists do not include any that were cleaned up before. */
  predicate NoneReturned(b: Book, containers: seq<Container>) {
    forall i :: 0 <= i < |containers| ==> containers[i].id !in b.cleaned || containers[i].id in b.failed
  }

  lemma {:induction false} FailuresKeep(b: Book, containers: seq<Container>, max: nat)
    ensures var after := AfterFailures(b, containers, max);
            after.cleaned == b.cleaned && b.failed <= after.failed && after.ended == b.ended && after.restarts == b.restarts
  {
    if containers != [] {
      FailuresKeep(b, containers[..|containers| - 1], max);
    }
  }

  /** A failure: out of retries it has failed; otherwise it waits for a restart, with one retry more, unless any has failed. */
  ghost predicate FailsOrWaits(was: Book, b: Book, id: Id, max: nat) {
    var retries := if id in was.counts then was.counts[id] else 0;
    && (retries >= max ==> b.failed == was.failed + {id} && id !in b.counts && id !in b.pending)
    && (retries < max && was.failed == {} ==> b.failed == {} && id in b.pending && id in b.counts && b.counts[id] == retries + 1)
    && (retries < max && was.failed != {} ==> b == was)
    && b.restarts == was.restarts && b.cleaned == was.cleaned
    && forall other :: other != id ==> SameOn(b, was, other) && (other in b.pending <==> other in was.pending)
  }

  lemma {:induction false} FailureTaken(b: Book, id: Id, max: nat)
    ensures FailsOrWaits(b, Apply(b, SeesFailure(id), max), id, max)
  {
  }

  predicate IsRestarted(was: Book, b: Book, id: Id) {
    RestartsOf(b, id) == RestartsOf(was, id) + 1 && b.pending == was.pending - {id} && b.failed == was.failed && b.counts == was.counts
  }

  /** A container that is gone has failed and lost its retries. */
  predicate IsGivenUp(was: Book, b: Book, id: Id) {
    b.failed == was.failed + {id} && b.pending == was.pending - {id} && b.counts == was.counts - {id} && b.restarts == was.restarts
  }

  /** A restart that raises may have taken place; the container still waits. */
  predicate IsHalfDone(was: Book, b: Book, id: Id) {
    RestartsOf(b, id) == RestartsOf(was, id) + 1 && b.pending == was.pending && b.failed == was.failed && b.counts == was.counts && b.ended
  }

  lemma {:induction false} RetryTaken(b: Book, id: Id, max: nat)
    ensures IsRestarted(b, Apply(b, Restarts(id), max), id)
    ensures IsGivenUp(b, Apply(b, Misses(id), max), id)
    ensures IsHalfDone(b, Apply(b, RestartRaises(id), max), id)
  {
  }

  /** The poll lists the container as failed. */
  predicate ListsFailure(containers: seq<Container>, id: Id) {
    exists i :: 0 <= i < |containers| && containers[i].id == id && containers[i].exitCode != 0
  }

  /**
   After the exit codes have been looked at: a container that is not listed with a non-zero one is as before; one that is has
   failed, or waits for its restart, or another has failed; and no container fails before it has had all its retries.
   */
  lemma {:induction false} FailuresAreSeen(b: Book, containers: seq<Container>, max: nat, id: Id)
    ensures var after := AfterFailures(b, containers, max);
            && (!ListsFailure(containers, id) ==> SameOn(after, b, id) && (id in after.pending <==> id in b.pending))
            && (ListsFailure(containers, id) ==> id in after.pending || after.failed != {})
            && (id in after.failed && id !in b.failed ==> ListsFailure(containers, id))
            && (id in after.failed && id !in b.failed && 0 < max && id !in b.counts ==> |containers| > max)
  {
    if containers != [] {
      var before, last := containers[..|containers| - 1], containers[|containers| - 1];
      FailuresAreSeen(b, before, max, id);
      if id !in b.counts {
        CountsGrow(b, before, max, id);
      }
      assert containers == before + [last];
      ListsMore(before, last, id);
    }
  }

  lemma {:induction false} ListsMore(before: seq<Container>, last: Container, id: Id)
    ensures ListsFailure(before + [last], id) <==> ListsFailure(before, id) || (last.id == id && last.exitCode != 0)
  {
    var all := before + [last];
    assert all[|before|] == last && forall i :: 0 <= i < |before| ==> all[i] == before[i];
  }

  lemma {:induction false} CountsGrow(b: Book, containers: seq<Container>, max: nat, id: Id)
    requires id !in b.counts
    ensures var after := AfterFailures(b, containers, max);
            id in after.counts ==> after.counts[id] <= |containers|
  {
    if containers != [] {
      CountsGrow(b, containers[..|containers| - 1], max, id);
    }
  }

  lemma {:induction false} NoMoreThan(b: Book, max: nat)
    requires Inv(b, max)
    ensures forall id :: RestartsOf(b, id) <= max
  {
  }

  class Monitor {
    const maxRetries: nat
    var books: map<string, Book>
    var running: bool

    constructor (maxRetries: nat)
      ensures books == map[] && this.maxRetries == maxRetries && running && Valid()
    {
      this.maxRetries := maxRetries;
      books, running := map[], true;
    }

    function BookOf(addon: string): Book
      reads this
    {
      if addon in books then books[addon] else NEW_BOOK
    }

    ghost predicate Valid()
      reads this
    {
      forall addon :: addon in books ==> Inv(books[addon], maxRetries) && (running ==> !books[addon].ended)
    }

    /** Writes back the book of an addon after a step. */
    method Put(addon: string, b: Book, ghost s: Step)
      requires Valid() && Enabled(BookOf(addon), s) && NoReturn(BookOf(addon), s)
      requires b == Apply(BookOf(addon), s, maxRetries) && (running ==> !b.ended)
      modifies this`books
      ensures Valid() && books == old(books)[addon := b]
    {
      InvStep(BookOf(addon), s, maxRetries);
      books := books[addon := b];
    }

    method HandleFailedContainer(addon: string, id: Id)
      requires Valid() && running && (id !in BookOf(addon).cleaned || id in BookOf(addon).failed)
      modifies this`books
      ensures Valid() && books == old(books)[addon := Apply(old(BookOf(addon)), SeesFailure(id), maxRetries)]
      ensures FailsOrWaits(old(BookOf(addon)), BookOf(addon), id, maxRetries)
    {
      FailureTaken(BookOf(addon), id, maxRetries);
      var b := BookOf(addon);
      var retries := if id in b.counts then b.counts[id] else 0;
      var next := b;
      if retries >= maxRetries {
        next := b.(failed := b.failed + {id}, counts := b.counts - {id}, pending := b.pending - {id});
      } else if b.failed == {} {
        next := b.(counts := b.counts[id := retries + 1], pending := b.pending + {id});
      }
      Put(addon, next, SeesFailure(id));
    }

    /** One container that waits for a restart. */
    method RetryContainer(addon: string, id: Id, answer: Answer) returns (raised: bool)
      requires Valid() && running && id in BookOf(addon).pending
      modifies this
      ensures Valid() && running == !raised == !answer.Raised?
      ensures books == old(books)[addon := Apply(old(BookOf(addon)), StepFor(id, answer), maxRetries)]
      ensures match answer
              case Restarted => IsRestarted(old(BookOf(addon)), BookOf(addon), id)
              case Gone => IsGivenUp(old(BookOf(addon)), BookOf(addon), id)
              case Raised => IsHalfDone(old(BookOf(addon)), BookOf(addon), id)
    {
      var b := BookOf(addon);
      RetryTaken(b, id, maxRetries);
      if answer.Gone? {
        Put(addon, b.(pending := b.pending - {id}, counts := b.counts - {id}, failed := b.failed + {id}), Misses(id));
        return false;
      }
      if answer.Raised? {
        running := false;
        Put(addon, b.(restarts := b.restarts[id := RestartsOf(b, id) + 1], ended := true), RestartRaises(id));
        return true;
      }
      Put(addon, b.(restarts := b.restarts[id := RestartsOf(b, id) + 1], pending := b.pending - {id}), Restarts(id));
      return false;
    }

    /** Reports the failed containers and removes them one by one; either may raise, and then they stay failed. */
    method ProcessFailedContainers(addon: string, e: Environment)
      requires Valid() && running
      modifies this`books
      ensures Valid() && forall other :: other != addon ==> BookOf(other) == old(BookOf(other))
      ensures Reported(old(BookOf(addon)), BookOf(addon), e, maxRetries)
    {
      var b := BookOf(addon);
      if b.failed == {} {
        return;
      }
      if !e.reported {
        return;
      }
      var todo, removed: set<Id> := b.failed, {};
      while todo != {}
        invariant todo + removed == b.failed && todo !! removed && books == old(books)
        invariant forall id :: id in removed ==> e.removes(id)
        decreases todo
      {
        var id :| id in todo;
        if !e.removes(id) {
          Put(addon, b.(cleaned := b.cleaned + multiset(removed)), CleansPartly(removed));
          return;
        }
        todo, removed := todo - {id}, removed + {id};
      }
      Put(addon, b.(failed := {}, cleaned := b.cleaned + multiset(removed)), CleansUp);
    }

    /** Restarts what is pending; what is gone counts as failed; a restart that raises ends the monitor. */
    method ProcessRetryContainers(addon: string, answers: Id -> Answer) returns (raised: bool)
      requires Valid() && running
      modifies this
      ensures Valid() && running == !raised && BookOf(addon).ended == raised
      ensures forall other :: other != addon ==> BookOf(other) == old(BookOf(other))
      ensures Retried(old(BookOf(addon)), BookOf(addon), answers, maxRetries)
      ensures !raised ==> BookOf(addon).pending == {}
    {
      var was := BookOf(addon);
      var todo := was.pending;
      raised := false;
      RetriedNone(was, answers, maxRetries);
      while todo != {}
        invariant Valid() && running && todo == BookOf(addon).pending && !BookOf(addon).ended
        invariant forall other :: other != addon ==> BookOf(other) == old(BookOf(other))
        invariant Retried(was, BookOf(addon), answers, maxRetries)
        decreases todo
      {
        var id :| id in todo;
        todo := todo - {id};
        RetriedOne(was, BookOf(addon), id, answers, maxRetries);
        raised := RetryContainer(addon, id, answers(id));
        if raised {
          return;
        }
      }
    }

    /** One poll of an active addon; one whose containers are all missing is only reported. */
    method MonitorAddon(l: Listing, e: Environment) returns (raised: bool)
      requires Valid() && running && NoneReturned(BookOf(l.addon), l.containers)
      modifies this
      ensures Valid() && running == !raised
      ensures forall other :: other != l.addon ==> BookOf(other) == old(BookOf(other))
      ensures Monitored(old(BookOf(l.addon)), BookOf(l.addon), l, e, maxRetries)
    {
      var addon, containers := l.addon, l.containers;
      if |containers| == 0 && l.services > 0 {
        return false;
      }
      ghost var was := BookOf(addon);
      LookAtExitCodes(addon, containers);
      ProcessFailedContainers(addon, e);
      ghost var mid := BookOf(addon);
      raised := ProcessRetryContainers(addon, e.answers);
      MonitoredBy(was, mid, BookOf(addon), l, e, maxRetries);
    }

    method LookAtExitCodes(addon: string, containers: seq<Container>)
      requires Valid() && running && NoneReturned(BookOf(addon), containers)
      modifies this`books
      ensures Valid() && forall other :: other != addon ==> BookOf(other) == old(BookOf(other))
      ensures BookOf(addon) == AfterFailures(old(BookOf(addon)), containers, maxRetries)
    {
      ghost var was := BookOf(addon);
      for i := 0 to |containers|
        invariant Valid() && forall other :: other != addon ==> BookOf(other) == old(BookOf(other))
        invariant BookOf(addon) == AfterFailures(was, containers[..i], maxRetries)
      {
        assert containers[..i + 1][..i] == containers[..i];
        FailuresKeep(was, containers[..i], maxRetries);
        if containers[i].exitCode != 0 {
          HandleFailedContainer(addon, containers[i].id);
        }
      }
      assert containers[..|containers|] == containers;
    }

    /**
     One poll of all active addons, one after the other until a restart raises; `n` is how many it came to. No container is ever
     restarted too often.
     */
    method MonitorActiveAddons(listings: seq<Listing>, environments: seq<Environment>) returns (raised: bool, n: nat)
      requires Valid() && running && |environments| == |listings|
      requires forall i, j :: 0 <= i < j < |listings| ==> listings[i].addon != listings[j].addon
      requires forall i :: 0 <= i < |listings| ==> NoneReturned(BookOf(listings[i].addon), listings[i].containers)
      modifies this
      ensures Valid() && running == !raised && n <= |listings| && (!raised ==> n == |listings|)
      ensures forall i :: 0 <= i < n ==>
                Monitored(old(BookOf(listings[i].addon)), BookOf(listings[i].addon), listings[i], environments[i], maxRetries)
      ensures forall i :: n <= i < |listings| ==> BookOf(listings[i].addon) == old(BookOf(listings[i].addon))
      ensures forall addon, id :: RestartsOf(BookOf(addon), id) <= maxRetries
      ensures forall addon :: (forall i :: 0 <= i < |listings| ==> listings[i].addon != addon) ==> BookOf(addon) == old(BookOf(addon))
    {
      raised, n := false, 0;
      while n < |listings| && !raised
        invariant Valid() && n <= |listings| && running == !raised
        invariant forall j :: 0 <= j < n ==>
                    Monitored(old(BookOf(listings[j].addon)), BookOf(listings[j].addon), listings[j], environments[j], maxRetries)
        invariant forall j :: n <= j < |listings| ==> BookOf(listings[j].addon) == old(BookOf(listings[j].addon))
        invariant forall addon :: (forall j :: 0 <= j < |listings| ==> listings[j].addon != addon) ==> BookOf(addon) == old(BookOf(addon))
      {
        raised := MonitorAddon(listings[n], environments[n]);
        n := n + 1;
      }
      forall addon, id
        ensures RestartsOf(BookOf(addon), id) <= maxRetries
      {
        NoMoreThan(BookOf(addon), maxRetries);
      }
    }
  }
}
