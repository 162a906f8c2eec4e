/** What the thread list holds once PAUSE, CANCEL and completion drop the record of
    the worker, wherever STARTING is written: every record belongs to a queued
    entry that is active or about to be marked. */
module WorkerRecords {
  import opened Entries
  import opened LinkedLists
  import opened Scheduler
  import opened SchedulerInvariants
  import opened Reachability
  import opened SchedulerAgreement

  predicate RecordActive(s: State, k: nat)
    requires InRange(s) && k < |s.threads|
  {
    var e := s.threads[k].entry;
    e in s.queue && (Active(s.entries[e].status) || (Pending(s, e) && s.entries[e].status.WAITING?))
  }

  ghost predicate RecordsActive(s: State) {
    InRange(s) && forall k | 0 <= k < |s.threads| :: RecordActive(s, k)
  }

  lemma ActiveTargets(code: Code, s: State)
    requires WorkersAgree(code, s) && RecordsActive(s)
    ensures Distinct(Targets(s.threads))
  {
    forall k, l | 0 <= k < l < |s.threads|
      ensures s.threads[k].entry != s.threads[l].entry
    {
      assert RecordActive(s, k);
    }
  }

  /** The first record of a queued name is that of the entry, if there is any. */
  lemma NamedRecord(s: State, p: nat)
    requires WellFormed(s) && RecordsActive(s) && p < |s.queue|
    ensures var k := ThreadPosition(s, s.entries[s.queue[p]].name);
            if k < |s.threads| then s.threads[k].entry == s.queue[p] else s.queue[p] !in Targets(s.threads)
  {
    var e := s.queue[p];
    var name := s.entries[e].name;
    var k := ThreadPosition(s, name);
    if k < |s.threads| {
      assert RecordActive(s, k);
      SameNameSameEntry(s, s.threads[k].entry, e);
    } else {
      forall l | 0 <= l < |s.threads|
        ensures Targets(s.threads)[l] != e
      {
        assert ThreadNames(s)[l] != name;
      }
    }
  }

  lemma OnlyRecordGone(threads: seq<Thread>, k: nat)
    requires k < |threads| && Distinct(Targets(threads))
    ensures threads[k].entry !in Targets(RemoveAt(threads, k))
    ensures forall l | 0 <= l < |threads| - 1 :: RemoveAt(threads, k)[l] in threads
  {
    RemovalDistinct(Targets(threads), k);
    TargetsWithout(threads, k);
    assert forall l | 0 <= l < |threads| - 1 :: RemoveAt(threads, k)[l] == threads[if l < k then l else l + 1];
  }

  lemma TargetsWithout(threads: seq<Thread>, k: nat)
    requires k < |threads|
    ensures Targets(RemoveAt(threads, k)) == RemoveAt(Targets(threads), k)
  {
  }

  /** All records of `t` were in `s`, and none belongs to `e`, the only entry that changed. */
  lemma OthersStayActive(s: State, t: State, e: nat)
    requires RecordsActive(s) && InRange(t) && t.sweep == s.sweep && (t.queue == s.queue || s.sweep.Idle?)
    requires forall k | 0 <= k < |t.threads| :: t.threads[k] in s.threads
    requires e !in Targets(t.threads)
    requires forall f | f in s.queue && f != e :: f in t.queue && t.entries[f].status == s.entries[f].status
    ensures RecordsActive(t)
  {
    forall k | 0 <= k < |t.threads|
      ensures RecordActive(t, k)
    {
      assert t.threads[k] in s.threads;
      var l :| 0 <= l < |s.threads| && s.threads[l] == t.threads[k];
      assert RecordActive(s, l);
      assert Targets(t.threads)[k] == t.threads[k].entry;
    }
  }

  lemma DownloadPauseActive(code: Code, s: State, p: nat)
    requires WorkersAgree(code, s) && RecordsActive(s) && p < |s.queue|
    ensures RecordsActive(DownloadPause(s, s.entries[s.queue[p]].name).0)
  {
    NamedRecord(s, p);
    var k := ThreadPosition(s, s.entries[s.queue[p]].name);
    if k < |s.threads| {
      ActiveTargets(code, s);
      OnlyRecordGone(s.threads, k);
      OthersStayActive(s, DownloadPause(s, s.entries[s.queue[p]].name).0, s.queue[p]);
    }
  }

  /** Between sweeps an entry that is not active has no record. */
  lemma RestingHasNone(s: State, e: nat)
    requires RecordsActive(s) && !s.sweep.Mark? && e < |s.entries| && !Active(s.entries[e].status)
    ensures e !in Targets(s.threads)
  {
    forall k | 0 <= k < |s.threads|
      ensures s.threads[k].entry != e
    {
      assert RecordActive(s, k);
    }
  }

  lemma PauseKeepsActive(code: Code, s: State, name: string)
    requires RecordsDropped(code) && WorkersAgree(code, s) && RecordsActive(s) && s.sweep.Idle?
    ensures RecordsActive(QueuePause(code, s, name).0)
  {
    var p := QueuePosition(s, name);
    if p < |s.queue| {
      if Stoppable(code, s.entries[s.queue[p]].status) {
        DownloadPauseActive(code, s, p);
      } else {
        RestingHasNone(s, s.queue[p]);
        OthersStayActive(s, QueuePause(code, s, name).0, s.queue[p]);
      }
    }
  }

  lemma RestartKeepsActive(s: State, name: string)
    requires RecordsActive(s) && s.sweep.Idle?
    ensures RecordsActive(QueueRestart(s, name).0)
  {
    var p := QueuePosition(s, name);
    if p < |s.queue| {
      var t := QueueRestart(s, name).0;
      if !Active(s.entries[s.queue[p]].status) {
        RestingHasNone(s, s.queue[p]);
      }
      forall k | 0 <= k < |t.threads|
        ensures RecordActive(t, k)
      {
        assert RecordActive(s, k);
        assert Targets(s.threads)[k] == s.threads[k].entry;
      }
    }
  }

  /** CANCEL drops the record of the entry, if there is one, and no other. */
  lemma CancelDrops(code: Code, s: State, name: string)
    requires RecordsDropped(code) && WorkersAgree(code, s) && RecordsActive(s) && s.sweep.Idle?
    requires QueuePosition(s, name) < |s.queue|
    ensures var t := QueueCancel(code, s, name).0;
            && s.queue[QueuePosition(s, name)] !in Targets(t.threads)
            && forall k | 0 <= k < |t.threads| :: t.threads[k] in s.threads
  {
    var p := QueuePosition(s, name);
    NamedRecord(s, p);
    ActiveTargets(code, s);
    if Stoppable(code, s.entries[s.queue[p]].status) {
      var k := ThreadPosition(s, name);
      if k < |s.threads| {
        OnlyRecordGone(s.threads, k);
      }
    } else {
      RestingHasNone(s, s.queue[p]);
    }
  }

  lemma CancelKeepsActive(code: Code, s: State, name: string)
    requires RecordsDropped(code) && WorkersAgree(code, s) && RecordsActive(s) && s.sweep.Idle?
    ensures RecordsActive(QueueCancel(code, s, name).0)
  {
    var p := QueuePosition(s, name);
    if p < |s.queue| {
      CancelDrops(code, s, name);
      CancelEffect(code, s, name);
      RemovalKeeps(s.queue, p);
      OthersStayActive(s, QueueCancel(code, s, name).0, s.queue[p]);
    }
  }

  lemma SweepKeepsActive(code: Code, max: nat, s: State)
    requires WorkersAgree(code, s) && RecordsActive(s)
    ensures RecordsActive(SweepStep(code, max, s))
  {
    var t := SweepStep(code, max, s);
    forall k | 0 <= k < |t.threads|
      ensures RecordActive(t, k)
    {
      assert k < |s.threads| ==> RecordActive(s, k);
    }
  }

  lemma WorkKeepsActive(code: Code, s: State, k: nat, work: Work)
    requires RecordsDropped(code) && WorkersAgree(code, s) && RecordsActive(s)
    ensures RecordsActive(WorkerStep(code, s, k, work))
  {
    if k < |s.threads| {
      var t := WorkerStep(code, s, k, work);
      ActiveTargets(code, s);
      if |t.threads| < |s.threads| {
        OnlyRecordGone(s.threads, k);
        OthersStayActive(s, t, s.threads[k].entry);
      } else {
        forall l | 0 <= l < |t.threads|
          ensures RecordActive(t, l)
        {
          assert RecordActive(s, l);
          assert Targets(s.threads)[l] == s.threads[l].entry && Targets(s.threads)[k] == s.threads[k].entry;
        }
      }
    }
  }

  lemma AddKeepsActive(s: State, name: string, url: string, junk: bool)
    requires RecordsActive(s) && s.sweep.Idle?
    ensures RecordsActive(QueueAdd(s, name, url, junk).0)
  {
    var t := QueueAdd(s, name, url, junk).0;
    forall k | 0 <= k < |t.threads|
      ensures RecordActive(t, k)
    {
      assert RecordActive(s, k);
    }
  }

  lemma NextKeepsActive(code: Code, max: nat, s: State, step: Step)
    requires RecordsDropped(code) && WorkersAgree(code, s) && RecordsActive(s)
    ensures RecordsActive(Next(code, max, s, step))
  {
    if step.Sweeping? {
      SweepKeepsActive(code, max, s);
    } else if step.Working? {
      WorkKeepsActive(code, s, step.k, step.work);
    } else if s.sweep.Idle? {
      match step
      case Pause(name) => PauseKeepsActive(code, s, name);
      case Cancel(name) => CancelKeepsActive(code, s, name);
      case Add(name, url, junk) => AddKeepsActive(s, name, url, junk);
      case Restart(name) => RestartKeepsActive(s, name);
    }
  }

  lemma {:induction false} RunKeepsActive(code: Code, max: nat, s: State, steps: seq<Step>)
    requires RecordsDropped(code) && WorkersAgree(code, s) && RecordsActive(s)
    ensures RecordsActive(Run(code, max, s, steps))
    decreases |steps|
  {
    if steps != [] {
      NextKeepsWorkers(code, max, s, steps[0]);
      NextKeepsActive(code, max, s, steps[0]);
      RunKeepsActive(code, max, Next(code, max, s, steps[0]), steps[1..]);
    }
  }

  /** In every reachable state each record belongs to a queued entry that is
      active or about to be marked, and no two belong to the same one. */
  lemma ReachActive(code: Code, max: nat, s: State)
    requires RecordsDropped(code) && Reachable(code, max, s)
    ensures WorkersAgree(code, s) && RecordsActive(s) && Distinct(Targets(s.threads))
  {
    ReachWorkers(code, max, s);
    var start, steps :| Starts(start) && Run(code, max, start, steps) == s;
    RunKeepsActive(code, max, start, steps);
    ActiveTargets(code, s);
  }
}
