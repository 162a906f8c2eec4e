/** The cap on worker threads. `SchedulerSafety` bounds the entries that are STARTING
    or STARTED; here it is the threads that run, queued entry or not. */
module LiveWorkers {
  import opened Entries
  import opened LinkedLists
  import opened Scheduler
  import opened SchedulerInvariants
  import opened SweepTheory
  import opened Reachability
  import opened Witnesses
  import opened SchedulerSafety
  import opened SchedulerAgreement
  import opened WorkerRecords
  import opened CommandEffects

  function LiveCount(threads: seq<Thread>): (n: nat)
    ensures n <= |threads|
  {
    if threads == [] then 0
    else LiveCount(threads[..|threads| - 1]) + if threads[|threads| - 1].Live() then 1 else 0
  }

  lemma {:induction false} LiveCountExact(threads: seq<Thread>)
    ensures LiveCount(threads) == |set k | 0 <= k < |threads| && threads[k].phase != Ended|
  {
    if threads != [] {
      var m := |threads| - 1;
      LiveCountExact(threads[..m]);
      var before := set k | 0 <= k < m && threads[k].phase != Ended;
      var all := set k | 0 <= k < |threads| && threads[k].phase != Ended;
      assert before == set k | 0 <= k < m && threads[..m][k].phase != Ended;
      assert all == if threads[m].phase != Ended then before + {m} else before;
    }
  }

  ghost predicate LiveCapHolds(code: Code, max: nat) {
    forall s | Reachable(code, max, s) :: LiveCount(s.threads) <= max
  }

  // ----- the repairs suffice -----

  ghost predicate CountedAt(queue: seq<nat>, statuses: seq<Status>, e: nat)
    requires |queue| == |statuses|
  {
    exists j :: 0 <= j < |queue| && queue[j] == e && Counts(true, statuses[j])
  }

  lemma CountedBefore(queue: seq<nat>, statuses: seq<Status>, e: nat)
    requires |queue| == |statuses| > 0 && CountedAt(queue, statuses, e) && e != queue[|queue| - 1]
    ensures CountedAt(queue[..|queue| - 1], statuses[..|queue| - 1], e)
  {
    var j :| 0 <= j < |queue| && queue[j] == e && Counts(true, statuses[j]);
    assert queue[..|queue| - 1][j] == e && Counts(true, statuses[..|queue| - 1][j]);
  }

  /** Distinct references to counted elements are no more than the count. */
  lemma {:induction false} CountedTargets(queue: seq<nat>, statuses: seq<Status>, targets: seq<nat>)
    requires |queue| == |statuses| && Distinct(queue) && Distinct(targets)
    requires forall e | e in targets :: CountedAt(queue, statuses, e)
    ensures |targets| <= Tally(statuses, true)
    decreases |queue|
  {
    if queue == [] {
      assert targets == [] || CountedAt(queue, statuses, targets[0]);
    } else {
      var n := |queue| - 1;
      var rest := targets;
      if queue[n] in targets {
        var k :| 0 <= k < |targets| && targets[k] == queue[n];
        rest := RemoveAt(targets, k);
        RemovalDistinct(targets, k);
        assert CountedAt(queue, statuses, queue[n]) && Counts(true, statuses[n]);
      }
      forall e | e in rest
        ensures CountedAt(queue[..n], statuses[..n], e)
      {
        CountedBefore(queue, statuses, e);
      }
      CountedTargets(queue[..n], statuses[..n], rest);
    }
  }

  /** The statuses with the entry that is about to be marked counted in. */
  function Marked(s: State): (statuses: seq<Status>)
    requires InRange(s)
    ensures |statuses| == |s.queue|
  {
    if s.sweep.Mark? then Statuses(Rows(s))[s.sweep.i := STARTING] else Statuses(Rows(s))
  }

  lemma RecordCounted(s: State, k: nat)
    requires RecordsActive(s) && k < |s.threads|
    ensures CountedAt(s.queue, Marked(s), s.threads[k].entry)
  {
    assert RecordActive(s, k);
    var e := s.threads[k].entry;
    assert e in s.queue;
    var j :| 0 <= j < |s.queue| && s.queue[j] == e;
    var i := if s.sweep.Mark? && s.queue[s.sweep.i] == e then s.sweep.i else j;
    assert s.queue[i] == e && Counts(true, Marked(s)[i]);
  }

  lemma MarkedTally(code: Code, max: nat, s: State)
    requires CapInvariant(code, max, s)
    ensures Tally(Marked(s), true) <= max
  {
    if s.sweep.Mark? {
      var without := Statuses(Rows(s))[s.sweep.i := WAITING];
      TallyUpdate(without, true, s.sweep.i, STARTING);
      assert without[s.sweep.i := STARTING] == Marked(s);
    }
  }

  lemma LiveCapSuffices(code: Code, max: nat, s: State)
    requires code.countStarting && RecordsDropped(code) && Reachable(code, max, s)
    ensures |s.threads| <= max
  {
    ReachActive(code, max, s);
    ReachCap(code, max, s);
    forall e | e in Targets(s.threads)
      ensures CountedAt(s.queue, Marked(s), e)
    {
      assert e in Targets(s.threads);
      var k :| 0 <= k < |s.threads| && Targets(s.threads)[k] == e;
      RecordCounted(s, k);
    }
    CountedTargets(s.queue, Marked(s), Targets(s.threads));
    MarkedTally(code, max, s);
  }

  // ----- none of them can be spared -----

  lemma LiveLast(threads: seq<Thread>, t: Thread)
    ensures LiveCount(threads + [t]) == LiveCount(threads) + if t.Live() then 1 else 0
  {
    assert (threads + [t])[..|threads|] == threads;
  }

  /** Every download that is started is one more live worker. */
  lemma {:induction false} FilledLive(s: State, k: nat, n: nat)
    ensures LiveCount(Filled(s, k, n).threads) == LiveCount(s.threads) + n
    decreases n
  {
    if n > 0 {
      LiveLast(s.threads, Thread(|s.entries|, Created));
      FilledLive(Grown(s, NameOf(k)), k + 1, n - 1);
    }
  }

  /** A live worker that the sweep does not count, and `max` more that it starts. */
  lemma OneTooMany(code: Code, max: nat, s: State)
    requires Reachable(code, max, s) && Fillable(s, 0) && LiveCount(s.threads) > 0
    requires QueueTally(s, code.countStarting) == 0 && max > 0
    ensures !LiveCapHolds(code, max)
  {
    ReachFilled(code, max, s, 0, max);
    FilledLive(s, 0, max);
  }

  lemma LiveNeedsBothCounted(code: Code, max: nat)
    requires max > 0 && !code.countStarting
    ensures !LiveCapHolds(code, max)
  {
    ReachBase(code, max);
    ReachFilled(code, max, Base(), 0, max + 1);
    FilledLive(Base(), 0, max + 1);
  }

  lemma OneLive(t: Thread)
    requires t.Live()
    ensures LiveCount([t]) == 1
  {
    LiveLast([], t);
    assert [] + [t] == [t];
  }

  lemma LiveNeedsStopping(code: Code, max: nat)
    requires max > 0 && !code.stopStarting
    ensures !LiveCapHolds(code, max)
  {
    ReachPausedWithWorker(code, max);
    PausedRoom(code.countStarting);
    OneLive(Thread(1, Created));
    OneTooMany(code, max, Solo(PAUSED, [Thread(1, Created)], Idle));
  }

  lemma OrphanedLive(code: Code)
    ensures LiveCount(Orphaned(code).threads) > 0
    ensures Fillable(Orphaned(code), 0) && QueueTally(Orphaned(code), code.countStarting) == 0
  {
    LiveLast(if code.removeByName then [] else [Thread(1, Ended)], Thread(2, Created));
    assert Rows(Orphaned(code)) == Rows(Base());
    BaseTally(code.countStarting);
  }

  /** The worker of a cancelled download runs on, uncounted. */
  lemma LiveNeedsDropping(code: Code, max: nat)
    requires max > 0 && code.stopStarting && !RecordsDropped(code)
    ensures !LiveCapHolds(code, max)
  {
    ReachMissed(code, max);
    CancelOrphans(code);
    ReachNext(code, max, Missed(), Cancel("a"));
    OrphanedLive(code);
    OneTooMany(code, max, Orphaned(code));
  }

  /** At most `max` worker threads run in any state of any interleaving, exactly when
      `max` is zero, or the sweep counts both states and PAUSE, CANCEL and completion
      drop the record of the worker. It does not matter when STARTING is written. */
  lemma LiveCapExact(code: Code, max: nat)
    ensures LiveCapHolds(code, max) <==> max == 0 || (code.countStarting && RecordsDropped(code))
  {
    if max == 0 {
      forall s | Reachable(code, 0, s)
        ensures LiveCount(s.threads) <= 0
      {
        ReachDormant(code, s);
      }
    } else if !code.countStarting {
      LiveNeedsBothCounted(code, max);
    } else if !code.stopStarting {
      LiveNeedsStopping(code, max);
    } else if !RecordsDropped(code) {
      LiveNeedsDropping(code, max);
    } else {
      forall s | Reachable(code, max, s)
        ensures LiveCount(s.threads) <= max
      {
        LiveCapSuffices(code, max, s);
      }
    }
  }
}
