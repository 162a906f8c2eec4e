/** Over whole runs: the agreement of the queue with the thread list, with the
    exact repairs it takes. */
module SchedulerAgreement {
  import opened Entries
  import opened LinkedLists
  import opened Scheduler
  import opened SchedulerInvariants
  import opened Reachability
  import opened Witnesses

  // ----- the queue and the thread list agree -----

  function Targets(threads: seq<Thread>): (r: seq<nat>)
    ensures |r| == |threads|
    ensures forall k | 0 <= k < |r| :: r[k] == threads[k].entry
  {
    seq(|threads|, k requires 0 <= k < |threads| => threads[k].entry)
  }

  /** The sweep has marked the entry and is about to create its thread. */
  predicate Spawning(s: State, e: nat)
    requires InRange(s)
  {
    s.sweep.Spawn? && s.queue[s.sweep.i] == e
  }

  /** The thread list holds exactly one record for every STARTING or STARTED entry
      of the queue but the one whose thread is about to be created, which has none;
      each record is live, no two share a name, and there is no other record. */
  ghost predicate ListsAgree(s: State) {
    && InRange(s)
    && Distinct(Targets(s.threads)) && Distinct(ThreadNames(s))
    && (forall t | t in s.threads :: t.Live() && t.entry in s.queue && Active(s.entries[t.entry].status))
    && (forall e | e in s.queue && Active(s.entries[e].status) :: e in Targets(s.threads) <==> !Spawning(s, e))
  }

  predicate RecordsRepaired(code: Code) {
    RecordsKept(code) && code.parkUnopened
  }

  predicate RecordsKept(code: Code) {
    code.markFirst && RecordsDropped(code)
  }

  /** PAUSE, CANCEL and completion take the record of the worker along. */
  predicate RecordsDropped(code: Code) {
    code.stopStarting && code.removeByName && code.reapDone
  }

  /** The records are exactly those of the STARTING and STARTED entries queued. */
  ghost predicate RecordsExact(s: State) {
    && InRange(s)
    && (forall k | 0 <= k < |s.threads| ::
       s.threads[k].entry in s.queue && Active(s.entries[s.threads[k].entry].status))
    && (forall e | e in s.queue && Active(s.entries[e].status) && !Spawning(s, e) :: e in Targets(s.threads))
  }

  predicate AllLive(s: State) {
    forall k | 0 <= k < |s.threads| :: s.threads[k].Live()
  }

  lemma ExactMeansAgree(code: Code, s: State)
    requires WorkersAgree(code, s) && RecordsExact(s) && AllLive(s)
    ensures ListsAgree(s)
  {
    DistinctTargets(code, s);
    forall k, l | 0 <= k < l < |s.threads|
      ensures ThreadNames(s)[k] != ThreadNames(s)[l]
    {
      if ThreadNames(s)[k] == ThreadNames(s)[l] {
        SameNameSameEntry(s, s.threads[k].entry, s.threads[l].entry);
      }
    }
  }

  /** Dropping the record of an entry that is no longer active, or no longer queued. */
  lemma DropExact(s: State, t: State, k: nat)
    requires RecordsExact(s) && InRange(t) && k < |s.threads| && t.threads == RemoveAt(s.threads, k)
    requires Distinct(Targets(s.threads))
    requires forall e | e in t.queue :: e in s.queue
    requires forall e | e in s.queue && e != s.threads[k].entry ::
             e in t.queue && t.entries[e].status == s.entries[e].status
    requires s.threads[k].entry in t.queue ==> !Active(t.entries[s.threads[k].entry].status)
    requires t.sweep == s.sweep && (t.queue == s.queue || s.sweep.Idle?)
    ensures RecordsExact(t)
  {
    forall l | 0 <= l < |t.threads|
      ensures t.threads[l].entry in t.queue && Active(t.entries[t.threads[l].entry].status)
    {
      var m := if l < k then l else l + 1;
      assert t.threads[l] == s.threads[m];
      assert Targets(s.threads)[m] != Targets(s.threads)[k];
    }
    forall e | e in t.queue && Active(t.entries[e].status) && !Spawning(t, e)
      ensures e in Targets(t.threads)
    {
      assert e in Targets(s.threads);
      var m :| 0 <= m < |s.threads| && Targets(s.threads)[m] == e;
      assert Targets(t.threads)[if m < k then m else m - 1] == e;
    }
  }

  /** An active queued entry is found by the first record of its name. */
  lemma ActiveRecord(s: State, p: nat)
    requires WellFormed(s) && RecordsExact(s) && s.sweep.Idle?
    requires p < |s.queue| && Active(s.entries[s.queue[p]].status)
    ensures var k := ThreadPosition(s, s.entries[s.queue[p]].name);
            k < |s.threads| && s.threads[k].entry == s.queue[p]
  {
    var e := s.queue[p];
    var name := s.entries[e].name;
    assert e in Targets(s.threads);
    var l :| 0 <= l < |s.threads| && Targets(s.threads)[l] == e;
    assert ThreadNames(s)[l] == name;
    var k := ThreadPosition(s, name);
    SameNameSameEntry(s, s.threads[k].entry, e);
  }

  lemma DistinctTargets(code: Code, s: State)
    requires WorkersAgree(code, s) && RecordsExact(s)
    ensures Distinct(Targets(s.threads))
  {
  }

  lemma PauseKeepsExact(code: Code, s: State, name: string)
    requires RecordsKept(code) && WorkersAgree(code, s) && RecordsExact(s) && s.sweep.Idle?
    ensures RecordsExact(QueuePause(code, s, name).0)
  {
    var p := QueuePosition(s, name);
    if p < |s.queue| && Stoppable(code, s.entries[s.queue[p]].status) {
      ActiveRecord(s, p);
      DistinctTargets(code, s);
      DropExact(s, QueuePause(code, s, name).0, ThreadPosition(s, name));
    }
  }

  lemma CancelKeepsExact(code: Code, s: State, name: string)
    requires RecordsKept(code) && WorkersAgree(code, s) && RecordsExact(s) && s.sweep.Idle?
    ensures RecordsExact(QueueCancel(code, s, name).0)
  {
    var p := QueuePosition(s, name);
    if p < |s.queue| {
      var t := QueueCancel(code, s, name).0;
      CancelEffect(code, s, name);
      RemovalDistinct(s.queue, p);
      RemovalKeeps(s.queue, p);
      if Stoppable(code, s.entries[s.queue[p]].status) {
        ActiveRecord(s, p);
        DistinctTargets(code, s);
        DropExact(s, t, ThreadPosition(s, name));
      }
    }
  }

  lemma RemovalKeeps<X>(s: seq<X>, p: nat)
    requires p < |s|
    ensures forall x | x in s && x != s[p] :: x in RemoveAt(s, p)
  {
  }

  lemma SweepKeepsExact(code: Code, max: nat, s: State)
    requires RecordsKept(code) && WorkersAgree(code, s) && RecordsExact(s)
    ensures RecordsExact(SweepStep(code, max, s))
  {
    var t := SweepStep(code, max, s);
    if |t.threads| > |s.threads| {
      assert Targets(t.threads) == Targets(s.threads) + [s.queue[s.sweep.i]];
    }
  }

  lemma WorkKeepsExact(code: Code, s: State, k: nat, work: Work)
    requires RecordsKept(code) && WorkersAgree(code, s) && RecordsExact(s)
    ensures RecordsExact(WorkerStep(code, s, k, work))
  {
    if k < |s.threads| {
      var t := WorkerStep(code, s, k, work);
      assert RecordAgrees(code, s, k);
      if |t.threads| < |s.threads| {
        DistinctTargets(code, s);
        DropExact(s, t, k);
      } else {
        assert Targets(t.threads) == Targets(s.threads);
      }
    }
  }

  lemma AddKeepsExact(s: State, name: string, url: string, junk: bool)
    requires RecordsExact(s) && s.sweep.Idle?
    ensures RecordsExact(QueueAdd(s, name, url, junk).0)
  {
  }

  lemma RestartKeepsExact(s: State, name: string)
    requires RecordsExact(s) && s.sweep.Idle?
    ensures RecordsExact(QueueRestart(s, name).0)
  {
  }

  lemma NextKeepsExact(code: Code, max: nat, s: State, step: Step)
    requires RecordsKept(code) && WorkersAgree(code, s) && RecordsExact(s)
    ensures RecordsExact(Next(code, max, s, step))
  {
    match step
    case Sweeping => SweepKeepsExact(code, max, s);
    case Working(k, work) => WorkKeepsExact(code, s, k, work);
    case Pause(name) =>
      if s.sweep.Idle? {
        PauseKeepsExact(code, s, name);
      }
    case Cancel(name) =>
      if s.sweep.Idle? {
        CancelKeepsExact(code, s, name);
      }
    case Add(name, url, junk) =>
      if s.sweep.Idle? {
        AddKeepsExact(s, name, url, junk);
      }
    case Restart(name) =>
      if s.sweep.Idle? {
        RestartKeepsExact(s, name);
      }
  }

  lemma {:induction false} RunKeepsExact(code: Code, max: nat, s: State, steps: seq<Step>)
    requires RecordsKept(code) && WorkersAgree(code, s) && RecordsExact(s)
    ensures WorkersAgree(code, Run(code, max, s, steps)) && RecordsExact(Run(code, max, s, steps))
    decreases |steps|
  {
    if steps != [] {
      NextKeepsWorkers(code, max, s, steps[0]);
      NextKeepsExact(code, max, s, steps[0]);
      RunKeepsExact(code, max, Next(code, max, s, steps[0]), steps[1..]);
    }
  }

  lemma CommandsKeepLive(code: Code, s: State, name: string)
    requires RecordsRepaired(code) && InRange(s) && AllLive(s)
    ensures AllLive(QueuePause(code, s, name).0)
    ensures s.sweep.Idle? ==> AllLive(QueueCancel(code, s, name).0)
  {
  }

  lemma WorkKeepsLive(code: Code, s: State, k: nat, work: Work)
    requires RecordsRepaired(code) && InRange(s) && AllLive(s)
    ensures AllLive(WorkerStep(code, s, k, work))
  {
  }

  lemma NextKeepsLive(code: Code, max: nat, s: State, step: Step)
    requires RecordsRepaired(code) && InRange(s) && AllLive(s)
    ensures AllLive(Next(code, max, s, step))
  {
    match step
    case Pause(name) => CommandsKeepLive(code, s, name);
    case Cancel(name) => CommandsKeepLive(code, s, name);
    case Working(k, work) => WorkKeepsLive(code, s, k, work);
    case _ =>
  }

  lemma {:induction false} RunKeepsLive(code: Code, max: nat, s: State, steps: seq<Step>)
    requires RecordsRepaired(code) && InRange(s) && AllLive(s)
    ensures AllLive(Run(code, max, s, steps))
    decreases |steps|
  {
    if steps != [] {
      NextKeepsLive(code, max, s, steps[0]);
      RunKeepsLive(code, max, Next(code, max, s, steps[0]), steps[1..]);
    }
  }

  lemma ReachExact(code: Code, max: nat, s: State)
    requires RecordsKept(code) && Reachable(code, max, s)
    ensures WorkersAgree(code, s) && RecordsExact(s)
  {
    var start, steps :| Starts(start) && Run(code, max, start, steps) == s;
    RunKeepsExact(code, max, start, steps);
  }

  ghost predicate AgreementHolds(code: Code, max: nat) {
    forall s | Reachable(code, max, s) :: ListsAgree(s)
  }

  lemma AgreementOfNone(code: Code)
    ensures AgreementHolds(code, 0)
  {
    forall s | Reachable(code, 0, s)
      ensures ListsAgree(s)
    {
      ReachDormant(code, s);
    }
  }

  lemma AgreementSufficient(code: Code, max: nat)
    requires RecordsRepaired(code)
    ensures AgreementHolds(code, max)
  {
    forall s | Reachable(code, max, s)
      ensures ListsAgree(s)
    {
      ReachExact(code, max, s);
      var start, steps :| Starts(start) && Run(code, max, start, steps) == s;
      RunKeepsLive(code, max, start, steps);
      ExactMeansAgree(code, s);
    }
  }

  // ----- runs that break the agreement -----

  lemma StaleRecord(s: State, t: Thread)
    requires InRange(s) && t in s.threads && (!t.Live() || !Active(s.entries[t.entry].status))
    ensures !ListsAgree(s)
  {
  }

  lemma AgreementNeedsMarking(code: Code, max: nat)
    requires max > 0 && !code.markFirst
    ensures !AgreementHolds(code, max)
  {
    ReachSpawned(code, max);
    StaleRecord(Solo(WAITING, [Thread(1, Created)], Mark(1)), Thread(1, Created));
  }

  lemma AgreementNeedsStopping(code: Code, max: nat)
    requires max > 0 && !code.stopStarting
    ensures !AgreementHolds(code, max)
  {
    ReachPausedWithWorker(code, max);
    StaleRecord(Solo(PAUSED, [Thread(1, Created)], Idle), Thread(1, Created));
  }

  lemma AgreementNeedsName(code: Code, max: nat)
    requires max > 0 && !code.removeByName
    ensures !AgreementHolds(code, max)
  {
    ReachLeftover(code, max);
    StaleRecord(Leftover(), Thread(1, Ended));
  }

  lemma AgreementNeedsReaping(code: Code, max: nat)
    requires max > 0 && !code.reapDone
    ensures !AgreementHolds(code, max)
  {
    ReachDone(code, max);
    StaleRecord(Solo(COMPLETED, [Thread(1, Ended)], Idle), Thread(1, Ended));
  }

  lemma AgreementNeedsParking(code: Code, max: nat)
    requires max > 0 && !code.parkUnopened
    ensures !AgreementHolds(code, max)
  {
    ReachOneStarting(code, max);
    ReachNext(code, max, OneStarting(), Working(0, FailOpen));
    assert Next(code, max, OneStarting(), Working(0, FailOpen)) == Solo(STARTING, [Thread(1, Ended)], Idle);
    StaleRecord(Solo(STARTING, [Thread(1, Ended)], Idle), Thread(1, Ended));
  }

  /** In every reachable state the queue and the thread list agree, exactly when
      nothing can start or all five repairs to statuses and records are made; none
      can be spared. */
  lemma AgreementExact(code: Code, max: nat)
    ensures AgreementHolds(code, max) <==> max == 0 || RecordsRepaired(code)
  {
    if max == 0 {
      AgreementOfNone(code);
    } else if RecordsRepaired(code) {
      AgreementSufficient(code, max);
    } else if !code.markFirst {
      AgreementNeedsMarking(code, max);
    } else if !code.stopStarting {
      AgreementNeedsStopping(code, max);
    } else if !code.removeByName {
      AgreementNeedsName(code, max);
    } else if !code.reapDone {
      AgreementNeedsReaping(code, max);
    } else {
      AgreementNeedsParking(code, max);
    }
  }
}
