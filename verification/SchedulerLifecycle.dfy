/** Over whole runs: the lifecycle of an entry, with the exact repairs it takes. */
module SchedulerLifecycle {
  import opened Entries
  import opened LinkedLists
  import opened Scheduler
  import opened SchedulerInvariants
  import opened SweepTheory
  import opened Reachability
  import opened Witnesses
  import opened SchedulerSafety
  import opened SchedulerAgreement

  // ----- the edges -----

  /** The changes of status that each kind of step is meant to make. */
  predicate Edge(step: Step, before: Status, after: Status) {
    match step
    case Sweeping => before.WAITING? && after.STARTING?
    case Pause(_) => (before.WAITING? || before.STARTING? || before.STARTED?) && after.PAUSED?
    case Restart(_) => before.PAUSED? && after.WAITING?
    case Working(_, Start) => before.STARTING? && after.STARTED?
    case Working(_, FailOpen) => before.STARTING? && after.PAUSED?
    case Working(_, Finish) => before.STARTED? && after.COMPLETED?
    case _ => false
  }

  /** Entries that stay queued change status along an edge; new ones are WAITING. */
  ghost predicate FollowsEdges(s: State, step: Step, t: State)
    requires InRange(s) && InRange(t)
  {
    forall e | e in t.queue ::
      if e in s.queue
      then s.entries[e].status == t.entries[e].status || Edge(step, s.entries[e].status, t.entries[e].status)
      else t.entries[e].status.WAITING?
  }

  ghost predicate LifecycleHolds(code: Code, max: nat) {
    forall s, step | InRange(s) && Reachable(code, max, s) :: FollowsEdges(s, step, Next(code, max, s, step))
  }

  /** What keeps the lifecycle: the two repairs, or a limit that lets nothing start. */
  ghost predicate Orderly(code: Code, max: nat, s: State) {
    && WorkersAgree(code, s)
    && if max == 0 then Dormant(s) else code.markFirst && code.stopStarting
  }

  lemma ReachOrderly(code: Code, max: nat, s: State)
    requires (max == 0 || (code.markFirst && code.stopStarting)) && Reachable(code, max, s)
    ensures Orderly(code, max, s)
  {
    if max == 0 {
      ReachDormant(code, s);
    } else {
      ReachWorkers(code, max, s);
    }
  }

  lemma NextOrderly(code: Code, max: nat, s: State, step: Step)
    requires Orderly(code, max, s)
    ensures Orderly(code, max, Next(code, max, s, step))
  {
    if max == 0 {
      NextDormant(code, s, step);
      NextWellFormed(code, 0, s, step);
      DormantAgrees(code, Next(code, 0, s, step));
    } else {
      NextKeepsWorkers(code, max, s, step);
    }
  }

  lemma PauseFollowsEdges(code: Code, s: State, name: string)
    requires WellFormed(s)
    ensures FollowsEdges(s, Pause(name), QueuePause(code, s, name).0)
  {
    var p := QueuePosition(s, name);
    var k := ThreadPosition(s, name);
    if p < |s.queue| && k < |s.threads| && s.threads[k].entry in s.queue {
      SameNameSameEntry(s, s.threads[k].entry, s.queue[p]);
    }
  }

  lemma CancelFollowsEdges(code: Code, s: State, name: string)
    requires WellFormed(s) && s.sweep.Idle?
    ensures FollowsEdges(s, Cancel(name), QueueCancel(code, s, name).0)
  {
    if QueuePosition(s, name) < |s.queue| {
      CancelEffect(code, s, name);
    }
  }

  lemma WorkFollowsEdges(code: Code, max: nat, s: State, k: nat, work: Work)
    requires Orderly(code, max, s)
    ensures FollowsEdges(s, Working(k, work), WorkerStep(code, s, k, work))
  {
    if k < |s.threads| {
      assert RecordAgrees(code, s, k);
    }
  }

  lemma AddFollowsEdges(code: Code, max: nat, s: State, name: string, url: string, junk: bool)
    requires InRange(s)
    ensures FollowsEdges(s, Add(name, url, junk), Next(code, max, s, Add(name, url, junk)))
  {
  }

  lemma RestartFollowsEdges(code: Code, max: nat, s: State, name: string)
    requires WellFormed(s)
    ensures FollowsEdges(s, Restart(name), Next(code, max, s, Restart(name)))
  {
  }

  lemma SweepFollowsEdges(code: Code, max: nat, s: State)
    requires Orderly(code, max, s)
    ensures FollowsEdges(s, Sweeping, SweepStep(code, max, s))
  {
  }

  lemma NextFollowsEdges(code: Code, max: nat, s: State, step: Step)
    requires Orderly(code, max, s)
    ensures FollowsEdges(s, step, Next(code, max, s, step))
  {
    match step
    case Pause(name) => PauseFollowsEdges(code, s, name);
    case Cancel(name) =>
      if s.sweep.Idle? {
        CancelFollowsEdges(code, s, name);
      }
    case Working(k, work) => WorkFollowsEdges(code, max, s, k, work);
    case Add(name, url, junk) => AddFollowsEdges(code, max, s, name, url, junk);
    case Restart(name) => RestartFollowsEdges(code, max, s, name);
    case Sweeping => SweepFollowsEdges(code, max, s);
  }

  /** A worker that starts an entry which is not STARTING. */
  lemma StrayStart(code: Code, max: nat, status: Status, sweep: Sweep)
    requires InRange(Solo(status, [Thread(1, Created)], sweep)) && !status.STARTING? && !status.STARTED?
    requires Reachable(code, max, Solo(status, [Thread(1, Created)], sweep))
    ensures !LifecycleHolds(code, max)
  {
    var s := Solo(status, [Thread(1, Created)], sweep);
    var t := Next(code, max, s, Working(0, Start));
    assert 1 in t.queue && 1 in s.queue && t.entries[1].status == STARTED;
    assert !FollowsEdges(s, Working(0, Start), t);
  }

  /** Every change of status in every run is one of the intended edges, exactly when
      nothing can start, or STARTING is written first and a starting worker can be stopped. */
  lemma LifecycleExact(code: Code, max: nat)
    ensures LifecycleHolds(code, max) <==> max == 0 || (code.markFirst && code.stopStarting)
  {
    if max > 0 && !code.markFirst {
      ReachSpawned(code, max);
      StrayStart(code, max, WAITING, Mark(1));
    } else if max > 0 && !code.stopStarting {
      ReachPausedWithWorker(code, max);
      StrayStart(code, max, PAUSED, Idle);
    } else {
      forall s, step | InRange(s) && Reachable(code, max, s)
        ensures FollowsEdges(s, step, Next(code, max, s, step))
      {
        ReachOrderly(code, max, s);
        NextFollowsEdges(code, max, s, step);
      }
    }
  }

  lemma CompletedStep(code: Code, max: nat, s: State, step: Step, e: nat)
    requires Orderly(code, max, s)
    requires e in s.queue && s.entries[e].status.COMPLETED?
    ensures var t := Next(code, max, s, step);
            Orderly(code, max, t) && e < |t.entries| && (e in t.queue ==> t.entries[e].status.COMPLETED?)
  {
    NextFollowsEdges(code, max, s, step);
    NextOrderly(code, max, s, step);
    NextQueue(code, max, s, step);
  }

  /** COMPLETED is absorbing for an entry that stays in the queue. */
  lemma {:induction false} CompletedStays(code: Code, max: nat, s: State, steps: seq<Step>, e: nat)
    requires Orderly(code, max, s)
    requires e in s.queue && s.entries[e].status.COMPLETED?
    requires e in Run(code, max, s, steps).queue
    ensures Run(code, max, s, steps).entries[e].status.COMPLETED?
    decreases |steps|
  {
    if steps != [] {
      CompletedStep(code, max, s, steps[0], e);
      var t := Next(code, max, s, steps[0]);
      if e !in t.queue {
        NeverReturns(code, max, t, steps[1..], e);
      }
      CompletedStays(code, max, t, steps[1..], e);
    }
  }

  // ----- runs that leave COMPLETED -----

  ghost predicate CompletedHolds(code: Code, max: nat) {
    forall s, steps, e | InRange(s) && Reachable(code, max, s) && e in s.queue && s.entries[e].status.COMPLETED? ::
      e in Run(code, max, s, steps).queue ==> Run(code, max, s, steps).entries[e].status.COMPLETED?
  }

  lemma CompletedLeft(code: Code, max: nat, s: State, step: Step, e: nat)
    requires InRange(s) && Reachable(code, max, s) && e in s.queue && s.entries[e].status.COMPLETED?
    requires var t := Next(code, max, s, step); e in t.queue && !t.entries[e].status.COMPLETED?
    ensures !CompletedHolds(code, max)
  {
    RunSingle(code, max, s, step);
    assert !Run(code, max, s, [step]).entries[e].status.COMPLETED?;
  }

  /** What a completed worker leaves in the thread list. */
  function Reaped(code: Code): seq<Thread> {
    if code.reapDone then [] else [Thread(1, Ended)]
  }

  lemma OvertakenSteps(code: Code, max: nat)
    requires !code.markFirst
    ensures Next(code, max, Solo(WAITING, [Thread(1, Created)], Mark(1)), Working(0, Start))
            == Solo(STARTED, [Thread(1, Transferring)], Mark(1))
    ensures Next(code, max, Solo(STARTED, [Thread(1, Transferring)], Mark(1)), Working(0, Finish))
            == Solo(COMPLETED, Reaped(code), Mark(1))
    ensures SweepStep(code, max, Solo(COMPLETED, Reaped(code), Mark(1))) == Solo(STARTING, Reaped(code), Look(2))
    ensures SweepStep(code, max, Solo(STARTING, Reaped(code), Look(2))) == Solo(STARTING, Reaped(code), Idle)
  {
  }

  /** An entry whose worker is done before the write of STARTING. */
  lemma ReachOvertaken(code: Code, max: nat)
    requires max > 0 && !code.markFirst
    ensures Reachable(code, max, Solo(COMPLETED, Reaped(code), Mark(1)))
  {
    ReachSpawned(code, max);
    OvertakenSteps(code, max);
    ReachNext(code, max, Solo(WAITING, [Thread(1, Created)], Mark(1)), Working(0, Start));
    ReachNext(code, max, Solo(STARTED, [Thread(1, Transferring)], Mark(1)), Working(0, Finish));
  }

  /** The write of STARTING overtakes the whole download. */
  lemma CompletedNeedsMarking(code: Code, max: nat)
    requires max > 0 && !code.markFirst
    ensures !CompletedHolds(code, max)
  {
    ReachOvertaken(code, max);
    OvertakenSteps(code, max);
    var done := Solo(COMPLETED, Reaped(code), Mark(1));
    assert 1 in done.queue;
    CompletedLeft(code, max, done, Sweeping, 1);
  }

  lemma RestartPaused(code: Code, max: nat)
    ensures Next(code, max, Solo(PAUSED, [Thread(1, Created)], Idle), Restart("a"))
            == Solo(WAITING, [Thread(1, Created)], Look(0))
  {
    FoundSolo(PAUSED, [Thread(1, Created)], Idle);
  }

  lemma SweepRestarted(code: Code, max: nat)
    requires max > 0
    ensures SweepFrom(code, max, Solo(WAITING, [Thread(1, Created)], Look(0)))
            == Solo(STARTING, [Thread(1, Created), Thread(1, Created)], Idle)
  {
    var waiting := Solo(WAITING, [Thread(1, Created)], Look(0));
    WaitingRoom(code.countStarting);
    SweepLast(code, max, waiting, 1);
    assert Launched(waiting, 1) == Solo(STARTING, [Thread(1, Created), Thread(1, Created)], Idle);
  }

  /** An entry paused while it starts keeps its worker, and RESTART gives it another. */
  lemma ReachTwoWorkers(code: Code, max: nat)
    requires max > 0 && !code.stopStarting
    ensures Reachable(code, max, Solo(STARTING, [Thread(1, Created), Thread(1, Created)], Idle))
  {
    ReachPausedWithWorker(code, max);
    RestartPaused(code, max);
    ReachNext(code, max, Solo(PAUSED, [Thread(1, Created)], Idle), Restart("a"));
    ReachSweep(code, max, Solo(WAITING, [Thread(1, Created)], Look(0)));
    SweepRestarted(code, max);
  }

  lemma TwoWorkersSteps(code: Code, max: nat)
    ensures Next(code, max, Solo(STARTING, [Thread(1, Created), Thread(1, Created)], Idle), Working(0, Start))
            == Solo(STARTED, [Thread(1, Transferring), Thread(1, Created)], Idle)
    ensures Next(code, max, Solo(STARTED, [Thread(1, Transferring), Thread(1, Created)], Idle), Working(0, Finish))
            == Solo(COMPLETED, Reaped(code) + [Thread(1, Created)], Idle)
  {
  }

  lemma ReachDoneOnce(code: Code, max: nat)
    requires max > 0 && !code.stopStarting
    ensures Reachable(code, max, Solo(COMPLETED, Reaped(code) + [Thread(1, Created)], Idle))
  {
    ReachTwoWorkers(code, max);
    TwoWorkersSteps(code, max);
    ReachNext(code, max, Solo(STARTING, [Thread(1, Created), Thread(1, Created)], Idle), Working(0, Start));
    ReachNext(code, max, Solo(STARTED, [Thread(1, Transferring), Thread(1, Created)], Idle), Working(0, Finish));
  }

  lemma StartAgain(code: Code, max: nat, s: State, k: nat)
    requires InRange(s) && k < |s.threads| && s.threads[k].phase.Created?
    ensures Next(code, max, s, Working(k, Start)).entries[s.threads[k].entry].status == STARTED
    ensures Next(code, max, s, Working(k, Start)).queue == s.queue
  {
  }

  /** The first worker completes the entry, and the second starts it again. */
  lemma CompletedNeedsStopping(code: Code, max: nat)
    requires max > 0 && !code.stopStarting
    ensures !CompletedHolds(code, max)
  {
    ReachDoneOnce(code, max);
    var done := Solo(COMPLETED, Reaped(code) + [Thread(1, Created)], Idle);
    StartAgain(code, max, done, |Reaped(code)|);
    assert 1 in done.queue;
    CompletedLeft(code, max, done, Working(|Reaped(code)|, Start), 1);
  }

  /** COMPLETED is absorbing in every run, for an entry that stays queued, exactly when
      nothing can start, or STARTING is written first and a starting worker can be stopped. */
  lemma CompletedExact(code: Code, max: nat)
    ensures CompletedHolds(code, max) <==> max == 0 || (code.markFirst && code.stopStarting)
  {
    if max > 0 && !code.markFirst {
      CompletedNeedsMarking(code, max);
    } else if max > 0 && !code.stopStarting {
      CompletedNeedsStopping(code, max);
    } else {
      forall s, steps, e | InRange(s) && Reachable(code, max, s) && e in s.queue && s.entries[e].status.COMPLETED?
        ensures e in Run(code, max, s, steps).queue ==> Run(code, max, s, steps).entries[e].status.COMPLETED?
      {
        ReachOrderly(code, max, s);
        if e in Run(code, max, s, steps).queue {
          CompletedStays(code, max, s, steps, e);
        }
      }
    }
  }

  lemma CancelQueue(code: Code, s: State, name: string)
    requires InRange(s) && s.sweep.Idle?
    ensures var t := QueueCancel(code, s, name).0;
            |t.entries| == |s.entries| && forall e | e in t.queue :: e in s.queue
  {
    var p := QueuePosition(s, name);
    if p < |s.queue| {
      assert forall e | e in RemoveAt(s.queue, p) :: e in s.queue;
    }
  }

  lemma NextQueue(code: Code, max: nat, s: State, step: Step)
    requires InRange(s)
    ensures var t := Next(code, max, s, step);
            |t.entries| >= |s.entries| && forall e | e in t.queue && e < |s.entries| :: e in s.queue
  {
    match step
    case Cancel(name) =>
      if s.sweep.Idle? {
        CancelQueue(code, s, name);
      }
    case Working(k, work) => WorkNames(code, s, k, work);
    case Sweeping => SweepNames(code, max, s);
    case Pause(name) => StatusCommandNames(code, s, name);
    case Restart(name) => StatusCommandNames(code, s, name);
    case Add(name, url, junk) =>
  }

  /** An entry that has left the queue never comes back. */
  lemma {:induction false} NeverReturns(code: Code, max: nat, s: State, steps: seq<Step>, e: nat)
    requires InRange(s) && e < |s.entries| && e !in s.queue
    ensures e !in Run(code, max, s, steps).queue
    decreases |steps|
  {
    if steps != [] {
      NextQueue(code, max, s, steps[0]);
      NeverReturns(code, max, Next(code, max, s, steps[0]), steps[1..], e);
    }
  }

  predicate NoneCancelled(s: State) {
    forall e | 0 <= e < |s.entries| :: !s.entries[e].status.CANCELLED?
  }

  lemma CommandNotCancelled(code: Code, s: State, name: string)
    requires InRange(s) && NoneCancelled(s)
    ensures NoneCancelled(QueuePause(code, s, name).0)
    ensures NoneCancelled(QueueRestart(s, name).0)
    ensures s.sweep.Idle? ==> NoneCancelled(QueueCancel(code, s, name).0)
  {
  }

  lemma WorkNotCancelled(code: Code, s: State, k: nat, work: Work)
    requires InRange(s) && NoneCancelled(s)
    ensures NoneCancelled(WorkerStep(code, s, k, work))
  {
  }

  lemma NextNotCancelled(code: Code, max: nat, s: State, step: Step)
    requires InRange(s) && NoneCancelled(s)
    ensures NoneCancelled(Next(code, max, s, step))
  {
    match step
    case Sweeping =>
    case Working(k, work) => WorkNotCancelled(code, s, k, work);
    case Add(name, url, junk) =>
    case Pause(name) => CommandNotCancelled(code, s, name);
    case Cancel(name) => CommandNotCancelled(code, s, name);
    case Restart(name) => CommandNotCancelled(code, s, name);
  }

  /** CANCELLED is never reached, by any code. */
  lemma {:induction false} NeverCancelled(code: Code, max: nat, s: State, steps: seq<Step>)
    requires InRange(s) && NoneCancelled(s)
    ensures NoneCancelled(Run(code, max, s, steps))
    decreases |steps|
  {
    if steps != [] {
      NextNotCancelled(code, max, s, steps[0]);
      NeverCancelled(code, max, Next(code, max, s, steps[0]), steps[1..]);
    }
  }

  lemma ReachNotCancelled(code: Code, max: nat, s: State)
    requires Reachable(code, max, s)
    ensures NoneCancelled(s)
  {
    var start, steps :| Starts(start) && Run(code, max, start, steps) == s;
    NeverCancelled(code, max, start, steps);
  }

  /** The code as written keeps none of the four, whatever the limit on downloads,
      unless it is zero. */
  lemma AsWrittenIsUnsafe(max: nat)
    requires max > 0
    ensures !CapHolds(AS_WRITTEN, max) && !AgreementHolds(AS_WRITTEN, max)
    ensures !LifecycleHolds(AS_WRITTEN, max) && !CompletedHolds(AS_WRITTEN, max)
    ensures CapHolds(REPAIRED, max) && AgreementHolds(REPAIRED, max)
    ensures LifecycleHolds(REPAIRED, max) && CompletedHolds(REPAIRED, max)
  {
    CapExact(AS_WRITTEN, max);
    CapExact(REPAIRED, max);
    AgreementExact(AS_WRITTEN, max);
    AgreementExact(REPAIRED, max);
    LifecycleExact(AS_WRITTEN, max);
    LifecycleExact(REPAIRED, max);
    CompletedExact(AS_WRITTEN, max);
    CompletedExact(REPAIRED, max);
  }
}
