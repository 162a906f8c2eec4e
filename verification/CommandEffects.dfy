/** What the commands are for, over whole runs: PAUSE and CANCEL stop the download
    they name and touch no other, RESTART makes it wait again. */
module CommandEffects {
  import opened Entries
  import opened LinkedLists
  import opened Scheduler
  import opened SchedulerInvariants
  import opened Reachability
  import opened Witnesses
  import opened SchedulerAgreement
  import opened SchedulerLifecycle
  import opened WorkerRecords

  predicate NoWorker(s: State, e: nat) {
    forall k | 0 <= k < |s.threads| && s.threads[k].entry == e :: !s.threads[k].Live()
  }

  function PausedEntry(e: Entry): Entry {
    if e.status.CANCELLED? || e.status.COMPLETED? then e else e.(status := PAUSED)
  }

  /** PAUSE refuses an unknown name. Any other entry is PAUSED afterwards unless it
      was done, no worker of it is left, and no other entry has changed. */
  ghost predicate Pauses(code: Code, s: State, name: string)
    requires InRange(s)
  {
    var p := QueuePosition(s, name);
    var (t, status) := QueuePause(code, s, name);
    if p == |s.queue| then t == s && status == FAILURE
    else
      status == SUCCESS && t.queue == s.queue && Rows(t) == Rows(s)[p := PausedEntry(Rows(s)[p])]
        && NoWorker(t, s.queue[p])
  }

  /** CANCEL refuses an unknown name. Any other entry leaves the queue, and no
      worker of it is left. */
  ghost predicate Cancels(code: Code, s: State, name: string)
    requires InRange(s) && s.sweep.Idle?
  {
    var p := QueuePosition(s, name);
    var (t, status) := QueueCancel(code, s, name);
    if p == |s.queue| then t == s && status == FAILURE
    else status == SUCCESS && Rows(t) == RemoveAt(Rows(s), p) && NoWorker(t, s.queue[p])
  }

  ghost predicate PausesHold(code: Code, max: nat) {
    forall s, name | InRange(s) && Reachable(code, max, s) && s.sweep.Idle? :: Pauses(code, s, name)
  }

  ghost predicate CancelsHold(code: Code, max: nat) {
    forall s, name | InRange(s) && Reachable(code, max, s) && s.sweep.Idle? :: Cancels(code, s, name)
  }

  // ----- the repairs suffice -----

  /** With the records exact, an entry that is not active has no record. */
  lemma RestingHasNoRecord(s: State, p: nat)
    requires RecordsExact(s) && p < |s.queue| && !Active(s.entries[s.queue[p]].status)
    ensures s.queue[p] !in Targets(s.threads)
  {
  }

  lemma RowsUpdated(s: State, t: State, p: nat)
    requires WellFormed(s) && InRange(t) && t.queue == s.queue && |t.entries| == |s.entries| && p < |s.queue|
    requires forall e | 0 <= e < |s.entries| && e != s.queue[p] :: t.entries[e] == s.entries[e]
    ensures Rows(t) == Rows(s)[p := t.entries[s.queue[p]]]
  {
  }

  lemma PauseActive(code: Code, s: State, name: string, p: nat, k: nat)
    requires code.stopStarting && WellFormed(s) && p == QueuePosition(s, name) < |s.queue|
    requires Active(s.entries[s.queue[p]].status)
    requires k == ThreadPosition(s, name) < |s.threads| && s.threads[k].entry == s.queue[p]
    ensures QueuePause(code, s, name).0 == DropThread(SetStatus(s, s.queue[p], PAUSED), k)
  {
  }

  lemma PauseSuffices(code: Code, s: State, name: string)
    requires RecordsKept(code) && WorkersAgree(code, s) && RecordsExact(s) && s.sweep.Idle?
    ensures Pauses(code, s, name)
  {
    var p := QueuePosition(s, name);
    if p < |s.queue| {
      var t := QueuePause(code, s, name).0;
      if Active(s.entries[s.queue[p]].status) {
        ActiveRecord(s, p);
        var k := ThreadPosition(s, name);
        PauseActive(code, s, name, p, k);
        DistinctTargets(code, s);
        OnlyRecordGone(s.threads, k);
      } else {
        RestingHasNoRecord(s, p);
      }
      assert forall k | 0 <= k < |t.threads| :: t.threads[k].entry == Targets(t.threads)[k];
      RowsUpdated(s, t, p);
    }
  }

  lemma CancelSuffices(code: Code, s: State, name: string)
    requires RecordsDropped(code) && WorkersAgree(code, s) && RecordsActive(s) && s.sweep.Idle?
    ensures Cancels(code, s, name)
  {
    var p := QueuePosition(s, name);
    if p < |s.queue| {
      var t := QueueCancel(code, s, name).0;
      CancelRows(code, s, name);
      CancelDrops(code, s, name);
      assert forall k | 0 <= k < |t.threads| :: t.threads[k].entry == Targets(t.threads)[k];
    }
  }

  lemma PauseDormant(code: Code, s: State, name: string)
    requires WellFormed(s) && Dormant(s) && s.sweep.Idle?
    ensures Pauses(code, s, name)
  {
    var p := QueuePosition(s, name);
    if p < |s.queue| {
      RowsUpdated(s, QueuePause(code, s, name).0, p);
    }
  }

  lemma CancelDormant(code: Code, s: State, name: string)
    requires WellFormed(s) && Dormant(s) && s.sweep.Idle?
    ensures Cancels(code, s, name)
  {
    CancelRows(code, s, name);
  }

  // ----- none of them can be spared -----

  lemma PauseLeavesWorker(code: Code)
    requires !code.stopStarting
    ensures !Pauses(code, OneStarting(), "a")
  {
    var s := OneStarting();
    FoundSolo(STARTING, s.threads, Idle);
    assert QueuePause(code, s, "a").0.threads == s.threads;
    assert s.threads[0].Live() && s.threads[0].entry == s.queue[1];
  }

  lemma PauseMissesWorker(code: Code)
    requires code.stopStarting
    ensures !Pauses(code, Missed(), "a")
  {
    FoundMissed();
    var t := QueuePause(code, Missed(), "a").0;
    assert t.threads == [Thread(2, Created)];
    assert t.threads[0].Live() && t.threads[0].entry == Missed().queue[1];
  }

  lemma ReachStuck(code: Code, max: nat)
    requires max > 0 && !code.markFirst
    ensures Reachable(code, max, Solo(STARTING, Reaped(code), Idle))
  {
    ReachOvertaken(code, max);
    OvertakenSteps(code, max);
    ReachSweepStep(code, max, Solo(COMPLETED, Reaped(code), Mark(1)));
    ReachSweepStep(code, max, Solo(STARTING, Reaped(code), Look(2)));
  }

  /** An entry marked STARTING after its worker was done and reaped has no record
      to be paused by. */
  lemma PauseMissesEntry(code: Code)
    requires code.stopStarting && code.reapDone
    ensures !Pauses(code, Solo(STARTING, Reaped(code), Idle), "a")
  {
    FoundSolo(STARTING, [], Idle);
    assert Rows(QueuePause(code, Solo(STARTING, [], Idle), "a").0)[1].status == STARTING;
  }

  lemma CancelLeavesWorker(code: Code)
    requires !code.stopStarting
    ensures !Cancels(code, OneStarting(), "a")
  {
    var s := OneStarting();
    FoundSolo(STARTING, s.threads, Idle);
    assert QueueCancel(code, s, "a").0.threads == s.threads;
    assert s.threads[0].Live() && s.threads[0].entry == s.queue[1];
  }

  /** A download whose first record is a leftover, once cancelled. */
  function Orphaned(code: Code): State {
    State([Resting(), Fresh("a", PAUSED), Fresh("a", STARTING)], [0],
          (if code.removeByName then [] else [Thread(1, Ended)]) + [Thread(2, Created)], Idle)
  }

  lemma CancelOrphans(code: Code)
    requires code.stopStarting
    ensures QueueCancel(code, Missed(), "a").0 == Orphaned(code)
  {
    var s := Missed();
    FoundMissed();
    assert RemoveAt(s.threads, 0) == [Thread(2, Created)];
    assert s.threads[0 := s.threads[0].(phase := Ended)] == s.threads;
    assert RemoveAt(s.queue, 1) == [0];
  }

  lemma CancelMissesWorker(code: Code)
    requires code.stopStarting
    ensures !Cancels(code, Missed(), "a")
  {
    FoundMissed();
    CancelOrphans(code);
    var t := Orphaned(code);
    var k := |t.threads| - 1;
    assert t.threads[k].Live() && t.threads[k].entry == Missed().queue[1];
  }

  /** In every reachable state PAUSE does to the named download what it promises, and
      nothing to any other, exactly when nothing can start, or the thread list is kept
      in step with the queue. */
  lemma PausesExact(code: Code, max: nat)
    ensures PausesHold(code, max) <==> max == 0 || RecordsKept(code)
  {
    if max == 0 || RecordsKept(code) {
      forall s, name | InRange(s) && Reachable(code, max, s) && s.sweep.Idle?
        ensures Pauses(code, s, name)
      {
        if max == 0 {
          ReachDormant(code, s);
          PauseDormant(code, s, name);
        } else {
          ReachExact(code, max, s);
          PauseSuffices(code, s, name);
        }
      }
    } else if !code.stopStarting {
      ReachOneStarting(code, max);
      PauseLeavesWorker(code);
    } else if !RecordsDropped(code) {
      ReachMissed(code, max);
      PauseMissesWorker(code);
    } else {
      ReachStuck(code, max);
      PauseMissesEntry(code);
    }
  }

  /** CANCEL takes exactly the named download out and leaves no worker of it, in every
      reachable state, exactly when nothing can start, or PAUSE, CANCEL and completion
      drop the record: it does not matter when STARTING is written. */
  lemma CancelsExact(code: Code, max: nat)
    ensures CancelsHold(code, max) <==> max == 0 || RecordsDropped(code)
  {
    if max == 0 || RecordsDropped(code) {
      forall s, name | InRange(s) && Reachable(code, max, s) && s.sweep.Idle?
        ensures Cancels(code, s, name)
      {
        if max == 0 {
          ReachDormant(code, s);
          CancelDormant(code, s, name);
        } else {
          ReachActive(code, max, s);
          CancelSuffices(code, s, name);
        }
      }
    } else if !code.stopStarting {
      ReachOneStarting(code, max);
      CancelLeavesWorker(code);
    } else {
      ReachMissed(code, max);
      CancelMissesWorker(code);
    }
  }

  // ----- RESTART -----

  function WaitingEntry(e: Entry): Entry {
    if e.status.WAITING? || e.status.PAUSED? then e.(status := WAITING) else e
  }

  /** RESTART makes a PAUSED entry wait, leaves every other entry and all workers
      alone, and begins a sweep. It answers SUCCESS whenever the name is queued,
      also when it has refused: the refusal is overwritten. */
  lemma RestartExact(s: State, name: string)
    requires WellFormed(s)
    ensures var p := QueuePosition(s, name);
            var (t, status) := QueueRestart(s, name);
            if p == |s.queue| then t == s && status == FAILURE
            else
              && status == SUCCESS && t.sweep == Look(0) && t.queue == s.queue && t.threads == s.threads
              && Rows(t) == Rows(s)[p := WaitingEntry(Rows(s)[p])]
  {
    var p := QueuePosition(s, name);
    if p < |s.queue| {
      RowsUpdated(s, QueueRestart(s, name).0, p);
    }
  }
}
