/** Safety over whole runs: the cap on concurrent downloads. It holds of exactly
    those codes that have made two of the repairs; the code as written has made
    none. */
module SchedulerSafety {
  import opened Entries
  import opened LinkedLists
  import opened Scheduler
  import opened SchedulerInvariants
  import opened SweepTheory
  import opened Reachability
  import opened Witnesses

  // ----- the cap -----

  ghost predicate WithinCap(max: nat, s: State) {
    InRange(s) && QueueTally(s, true) <= max
  }

  /** While the controller counts, its count bounds the active entries it has
      passed from above, since workers only ever leave the active states. */
  ghost predicate CapBound(max: nat, statuses: seq<Status>, sweep: Sweep) {
    && Tally(statuses, true) <= max
    && match sweep
       case Count(_, j, count) => j <= |statuses| && Tally(statuses[..j], true) <= count
       case Mark(i) => i < |statuses| && Tally(statuses[i := WAITING], true) < max
       case _ => true
  }

  ghost predicate CapInvariant(code: Code, max: nat, s: State) {
    WorkersAgree(code, s) && CapBound(max, Statuses(Rows(s)), s.sweep)
  }

  lemma AddTally(s: State, name: string, url: string, junk: bool)
    requires InRange(s)
    ensures QueueTally(QueueAdd(s, name, url, junk).0, true) == QueueTally(s, true)
  {
    var t := QueueAdd(s, name, url, junk).0;
    if t != s {
      assert Statuses(Rows(t))[..|s.queue|] == Statuses(Rows(s));
    }
  }

  lemma TallyWithout(rows: seq<Entry>, p: nat)
    requires p < |rows|
    ensures Tally(Statuses(RemoveAt(rows, p)), true) <= Tally(Statuses(rows), true)
  {
    assert Statuses(RemoveAt(rows, p)) == RemoveAt(Statuses(rows), p);
    TallyRemove(Statuses(rows), true, p);
  }

  lemma CancelTally(code: Code, s: State, name: string)
    requires WellFormed(s) && s.sweep.Idle?
    ensures QueueTally(QueueCancel(code, s, name).0, true) <= QueueTally(s, true)
  {
    var p := QueuePosition(s, name);
    CancelRows(code, s, name);
    if p < |s.queue| {
      TallyWithout(Rows(s), p);
    }
  }

  /** Entries that stay in place and become no more active. */
  lemma QuieterTally(s: State, t: State)
    requires InRange(s) && InRange(t) && t.queue == s.queue && |t.entries| == |s.entries|
    requires forall e | 0 <= e < |s.entries| && Active(t.entries[e].status) :: Active(s.entries[e].status)
    ensures QueueTally(t, true) <= QueueTally(s, true)
  {
    TallyMonotone(Statuses(Rows(t)), Statuses(Rows(s)), true);
  }

  lemma LessKeepsCap(code: Code, max: nat, s: State, t: State)
    requires CapInvariant(code, max, s) && WorkersAgree(code, t)
    requires (t.sweep.Idle? || t.sweep.Look?) && QueueTally(t, true) <= QueueTally(s, true)
    ensures CapInvariant(code, max, t)
  {
  }

  lemma AddKeepsCap(code: Code, max: nat, s: State, name: string, url: string, junk: bool)
    requires CapInvariant(code, max, s) && s.sweep.Idle?
    ensures CapInvariant(code, max, QueueAdd(s, name, url, junk).0)
  {
    AddKeepsWorkers(code, s, name, url, junk);
    AddTally(s, name, url, junk);
    LessKeepsCap(code, max, s, QueueAdd(s, name, url, junk).0);
  }

  lemma CancelKeepsCap(code: Code, max: nat, s: State, name: string)
    requires code.stopStarting && CapInvariant(code, max, s) && s.sweep.Idle?
    ensures CapInvariant(code, max, QueueCancel(code, s, name).0)
  {
    CancelKeepsWorkers(code, s, name);
    CancelTally(code, s, name);
    LessKeepsCap(code, max, s, QueueCancel(code, s, name).0);
  }

  lemma PauseKeepsCap(code: Code, max: nat, s: State, name: string)
    requires code.stopStarting && CapInvariant(code, max, s) && s.sweep.Idle?
    ensures CapInvariant(code, max, QueuePause(code, s, name).0)
  {
    PauseKeepsWorkers(code, s, name);
    QuieterTally(s, QueuePause(code, s, name).0);
    LessKeepsCap(code, max, s, QueuePause(code, s, name).0);
  }

  lemma RestartKeepsCap(code: Code, max: nat, s: State, name: string)
    requires CapInvariant(code, max, s) && s.sweep.Idle?
    ensures CapInvariant(code, max, QueueRestart(s, name).0)
  {
    RestartKeepsWorkers(code, s, name);
    QuieterTally(s, QueueRestart(s, name).0);
    LessKeepsCap(code, max, s, QueueRestart(s, name).0);
  }

  lemma DecideKeepsCap(code: Code, max: nat, s: State, i: nat, count: nat)
    requires InRange(s) && Distinct(s.queue) && s.sweep == Count(i, |s.queue|, count)
    requires Rows(s)[i].status.WAITING? && Tally(Statuses(Rows(s)), true) <= max
             && Tally(Statuses(Rows(s)), true) <= count
    ensures var t := SweepStep(code, max, s);
            CapBound(max, Statuses(Rows(t)), t.sweep)
  {
    var before := Statuses(Rows(s));
    var t := SweepStep(code, max, s);
    assert before[i := WAITING] == before;
    TallyUpdate(before, true, i, STARTING);
    assert Statuses(Rows(t)) == if code.markFirst && count < max then before[i := STARTING] else before;
  }

  lemma PassKeepsCap(code: Code, max: nat, s: State, i: nat, j: nat, count: nat)
    requires code.countStarting && InRange(s) && j < |s.queue| && s.sweep == Count(i, j, count)
    requires CapBound(max, Statuses(Rows(s)), s.sweep)
    ensures var t := SweepStep(code, max, s);
            CapBound(max, Statuses(Rows(t)), t.sweep)
  {
    var statuses := Statuses(Rows(s));
    assert statuses[..j + 1][..j] == statuses[..j];
    assert SweepStep(code, max, s).entries == s.entries;
  }

  lemma CountKeepsCap(code: Code, max: nat, s: State, i: nat, j: nat, count: nat)
    requires code.countStarting && InRange(s) && Distinct(s.queue) && s.sweep == Count(i, j, count)
    requires Rows(s)[i].status.WAITING? && CapBound(max, Statuses(Rows(s)), s.sweep)
    ensures var t := SweepStep(code, max, s);
            CapBound(max, Statuses(Rows(t)), t.sweep)
  {
    if j < |s.queue| {
      PassKeepsCap(code, max, s, i, j, count);
    } else {
      assert Statuses(Rows(s))[..j] == Statuses(Rows(s));
      DecideKeepsCap(code, max, s, i, count);
    }
  }

  lemma MarkKeepsCap(code: Code, max: nat, s: State, i: nat)
    requires WellFormed(s) && s.sweep == Mark(i) && CapBound(max, Statuses(Rows(s)), s.sweep)
    ensures var t := SweepStep(code, max, s);
            CapBound(max, Statuses(Rows(t)), t.sweep)
  {
    var before := Statuses(Rows(s));
    assert Statuses(Rows(SweepStep(code, max, s))) == before[i := WAITING][i := STARTING];
    TallyUpdate(before[i := WAITING], true, i, STARTING);
  }

  lemma SweepKeepsCap(code: Code, max: nat, s: State)
    requires code.countStarting && CapInvariant(code, max, s)
    ensures CapInvariant(code, max, SweepStep(code, max, s))
  {
    SweepKeepsWorkers(code, max, s);
    match s.sweep
    case Count(i, j, count) => CountKeepsCap(code, max, s, i, j, count);
    case Mark(i) => MarkKeepsCap(code, max, s, i);
    case _ =>
  }

  /** A worker makes no queued entry active, other than one that is about to be marked. */
  lemma WorkActivates(code: Code, s: State, k: nat, work: Work, i: nat)
    requires WorkersAgree(code, s) && i < |s.queue|
    ensures Active(Rows(WorkerStep(code, s, k, work))[i].status) ==> Active(Rows(s)[i].status) || s.sweep == Mark(i)
  {
    if k < |s.threads| {
      assert RecordAgrees(code, s, k);
    }
  }

  lemma QuieterKeepsCap(max: nat, before: seq<Status>, after: seq<Status>, sweep: Sweep)
    requires |before| == |after| && CapBound(max, before, sweep)
    requires forall i | 0 <= i < |after| && Counts(true, after[i]) :: Counts(true, before[i]) || sweep == Mark(i)
    ensures CapBound(max, after, sweep)
  {
    match sweep
    case Mark(i) =>
      TallyMonotone(after[i := WAITING], before[i := WAITING], true);
      TallyUpdate(after, true, i, WAITING);
    case Count(i, j, count) =>
      TallyMonotone(after, before, true);
      TallyMonotone(after[..j], before[..j], true);
    case _ => TallyMonotone(after, before, true);
  }

  lemma WorkKeepsCap(code: Code, max: nat, s: State, k: nat, work: Work)
    requires CapInvariant(code, max, s)
    ensures CapInvariant(code, max, WorkerStep(code, s, k, work))
  {
    WorkKeepsWorkers(code, s, k, work);
    WorkNames(code, s, k, work);
    var t := WorkerStep(code, s, k, work);
    forall i | 0 <= i < |s.queue|
      ensures Counts(true, Statuses(Rows(t))[i]) ==> Counts(true, Statuses(Rows(s))[i]) || s.sweep == Mark(i)
    {
      WorkActivates(code, s, k, work, i);
    }
    QuieterKeepsCap(max, Statuses(Rows(s)), Statuses(Rows(t)), s.sweep);
  }

  lemma NextKeepsCap(code: Code, max: nat, s: State, step: Step)
    requires code.countStarting && code.stopStarting && CapInvariant(code, max, s)
    ensures CapInvariant(code, max, Next(code, max, s, step))
  {
    if step.Sweeping? {
      SweepKeepsCap(code, max, s);
    } else if step.Working? {
      WorkKeepsCap(code, max, s, step.k, step.work);
    } else if s.sweep.Idle? {
      match step
      case Add(name, url, junk) => AddKeepsCap(code, max, s, name, url, junk);
      case Cancel(name) => CancelKeepsCap(code, max, s, name);
      case Pause(name) => PauseKeepsCap(code, max, s, name);
      case Restart(name) => RestartKeepsCap(code, max, s, name);
    }
  }

  lemma {:induction false} RunKeepsCap(code: Code, max: nat, s: State, steps: seq<Step>)
    requires code.countStarting && code.stopStarting && CapInvariant(code, max, s)
    ensures CapInvariant(code, max, Run(code, max, s, steps))
    decreases |steps|
  {
    if steps != [] {
      NextKeepsCap(code, max, s, steps[0]);
      RunKeepsCap(code, max, Next(code, max, s, steps[0]), steps[1..]);
    }
  }

  lemma {:induction false} NothingActive(statuses: seq<Status>)
    requires forall i | 0 <= i < |statuses| :: !Active(statuses[i])
    ensures Tally(statuses, true) == 0
  {
    if statuses != [] {
      NothingActive(statuses[..|statuses| - 1]);
    }
  }

  /** The entries that the cap speaks about, by their number. */
  lemma {:induction false} TallyExact(statuses: seq<Status>)
    ensures Tally(statuses, true)
            == |set i | 0 <= i < |statuses| && (statuses[i] == STARTING || statuses[i] == STARTED)|
  {
    if statuses != [] {
      var m := |statuses| - 1;
      TallyExact(statuses[..m]);
      var before := set i | 0 <= i < m && (statuses[i] == STARTING || statuses[i] == STARTED);
      var all := set i | 0 <= i < |statuses| && (statuses[i] == STARTING || statuses[i] == STARTED);
      assert before == set i | 0 <= i < m && (statuses[..m][i] == STARTING || statuses[..m][i] == STARTED);
      assert all == if statuses[m] == STARTING || statuses[m] == STARTED then before + {m} else before;
    }
  }

  ghost predicate CapHolds(code: Code, max: nat) {
    forall s | Reachable(code, max, s) :: WithinCap(max, s)
  }

  lemma CapOfNone(code: Code)
    ensures CapHolds(code, 0)
  {
    forall s | Reachable(code, 0, s)
      ensures WithinCap(0, s)
    {
      ReachDormant(code, s);
      NothingActive(Statuses(Rows(s)));
    }
  }

  lemma ReachCap(code: Code, max: nat, s: State)
    requires code.countStarting && code.stopStarting && Reachable(code, max, s)
    ensures CapInvariant(code, max, s)
  {
    var start, steps :| Starts(start) && Run(code, max, start, steps) == s;
    NothingActive(Statuses(Rows(start)));
    RunKeepsCap(code, max, start, steps);
  }

  lemma CapSufficient(code: Code, max: nat)
    requires code.countStarting && code.stopStarting
    ensures CapHolds(code, max)
  {
    forall s | Reachable(code, max, s)
      ensures WithinCap(max, s)
    {
      ReachCap(code, max, s);
    }
  }

  // ----- runs that break the cap -----

  /** Counting STARTED alone, every addition is started. */
  lemma CapNeedsBothCounted(code: Code, max: nat)
    requires max > 0 && !code.countStarting
    ensures !CapHolds(code, max)
  {
    ReachBase(code, max);
    ReachFilled(code, max, Base(), 0, max + 1);
    FilledFacts(Base(), 0, max + 1);
  }

  /** The worker of a paused download starts all the same, when all slots are taken. */
  lemma ReviveTally(code: Code, max: nat, s: State)
    requires InRange(s) && Distinct(s.queue) && |s.queue| > 1 && s.queue[1] == 1 && s.entries[1].status.PAUSED?
    requires s.threads != [] && s.threads[0] == Thread(1, Created)
    ensures QueueTally(Next(code, max, s, Working(0, Start)), true) == QueueTally(s, true) + 1
  {
    var before := Statuses(Rows(s));
    assert Statuses(Rows(Next(code, max, s, Working(0, Start)))) == before[1 := STARTED];
    TallyUpdate(before, true, 1, STARTED);
  }

  lemma CapNeedsStopping(code: Code, max: nat)
    requires max > 0 && !code.stopStarting
    ensures !CapHolds(code, max)
  {
    var paused := Solo(PAUSED, [Thread(1, Created)], Idle);
    ReachPausedWithWorker(code, max);
    PausedRoom(true);
    PausedRoom(code.countStarting);
    ReachFilled(code, max, paused, 0, max);
    FilledFacts(paused, 0, max);
    var full := Filled(paused, 0, max);
    ReachWellFormed(code, max, full);
    assert full.queue[1] == paused.queue[1] && full.entries[1] == paused.entries[1]
           && full.threads[0] == paused.threads[0];
    ReviveTally(code, max, full);
    ReachNext(code, max, full, Working(0, Start));
  }

  /** Over all interleavings of commands, single accesses of the sweep and worker
      steps, at most `max` entries are STARTING or STARTED, exactly when `max` is
      zero, or the sweep counts both states and PAUSE and CANCEL stop a starting worker. */
  lemma CapExact(code: Code, max: nat)
    ensures CapHolds(code, max) <==> max == 0 || (code.countStarting && code.stopStarting)
  {
    if max == 0 {
      CapOfNone(code);
    } else if code.countStarting && code.stopStarting {
      CapSufficient(code, max);
    } else if !code.countStarting {
      CapNeedsBothCounted(code, max);
    } else {
      CapNeedsStopping(code, max);
    }
  }
}
