/** What every step of every run keeps: names stay distinct whatever the code,
    and, once PAUSE and CANCEL stop a worker that is still starting, the thread
    list and the queue agree about every worker. */
module SchedulerInvariants {
  import opened Entries
  import opened LinkedLists
  import opened Scheduler

  // ----- names stay distinct, for every code -----

  lemma RemovalDistinct<X>(s: seq<X>, p: nat)
    requires p < |s| && Distinct(s)
    ensures Distinct(RemoveAt(s, p))
    ensures s[p] !in RemoveAt(s, p)
    ensures forall x | x in RemoveAt(s, p) :: x in s
  {
    var r := RemoveAt(s, p);
    assert forall i | 0 <= i < |r| :: r[i] == s[if i < p then i else i + 1];
  }

  lemma SameNames(s: State, t: State)
    requires WellFormed(s) && InRange(t)
    requires t.queue == s.queue && |t.entries| >= |s.entries|
    requires forall e | 0 <= e < |s.entries| :: t.entries[e].name == s.entries[e].name
    ensures WellFormed(t)
  {
    assert Names(Rows(t)) == Names(Rows(s));
  }

  lemma AddWellFormed(s: State, name: string, url: string, junk: bool)
    requires WellFormed(s)
    ensures WellFormed(QueueAdd(s, name, url, junk).0)
  {
    var t := QueueAdd(s, name, url, junk).0;
    if t != s {
      assert name !in Names(Rows(s));
      assert Names(Rows(t)) == Names(Rows(s)) + [name];
    }
  }

  /** Names identify queued entries. */
  lemma SameNameSameEntry(s: State, e: nat, f: nat)
    requires WellFormed(s) && e in s.queue && f in s.queue
    requires s.entries[e].name == s.entries[f].name
    ensures e == f
  {
    var i :| 0 <= i < |s.queue| && s.queue[i] == e;
    var j :| 0 <= j < |s.queue| && s.queue[j] == f;
    assert Names(Rows(s))[i] == Names(Rows(s))[j];
  }

  lemma CancelEffect(code: Code, s: State, name: string)
    requires WellFormed(s) && s.sweep.Idle? && QueuePosition(s, name) < |s.queue|
    ensures var t := QueueCancel(code, s, name).0;
            var k := ThreadPosition(s, name);
            && t.sweep == s.sweep && t.queue == RemoveAt(s.queue, QueuePosition(s, name))
            && (forall e | e in t.queue :: e in s.queue && t.entries[e] == s.entries[e])
            && (t.threads == s.threads
                || (k < |s.threads| && s.threads[k].entry !in t.queue
                    && (t.threads == RemoveAt(s.threads, k)
                        || t.threads == s.threads[k := Thread(s.threads[k].entry, Ended)])))
  {
    var p := QueuePosition(s, name);
    var k := ThreadPosition(s, name);
    RemovalDistinct(s.queue, p);
    if k < |s.threads| && s.threads[k].entry in s.queue {
      SameNameSameEntry(s, s.threads[k].entry, s.queue[p]);
    }
  }

  lemma RowsWithout(s: State, t: State, p: nat)
    requires InRange(s) && InRange(t) && p < |s.queue| && t.queue == RemoveAt(s.queue, p)
    requires forall e | e in t.queue :: t.entries[e] == s.entries[e]
    ensures Rows(t) == RemoveAt(Rows(s), p)
  {
    forall i | 0 <= i < |t.queue|
      ensures Rows(t)[i] == RemoveAt(Rows(s), p)[i]
    {
      var j := if i < p then i else i + 1;
      assert t.queue[i] == s.queue[j] && t.queue[i] in t.queue;
      assert RemoveAt(Rows(s), p)[i] == Rows(s)[j];
    }
  }

  lemma NamesWithout(rows: seq<Entry>, p: nat)
    requires p < |rows|
    ensures Names(RemoveAt(rows, p)) == RemoveAt(Names(rows), p)
  {
  }

  /** CANCEL takes exactly the named entry out of the queue, and leaves the order
      and the contents of all others alone, for every code. */
  lemma CancelRows(code: Code, s: State, name: string)
    requires WellFormed(s) && s.sweep.Idle?
    ensures var p := QueuePosition(s, name);
            Rows(QueueCancel(code, s, name).0) == if p == |s.queue| then Rows(s) else RemoveAt(Rows(s), p)
  {
    var p := QueuePosition(s, name);
    if p < |s.queue| {
      CancelEffect(code, s, name);
      RowsWithout(s, QueueCancel(code, s, name).0, p);
    }
  }

  lemma CancelWellFormed(code: Code, s: State, name: string)
    requires WellFormed(s) && s.sweep.Idle?
    ensures WellFormed(QueueCancel(code, s, name).0)
  {
    var p := QueuePosition(s, name);
    if p < |s.queue| {
      CancelEffect(code, s, name);
      CancelRows(code, s, name);
      RemovalDistinct(s.queue, p);
      RemovalDistinct(Names(Rows(s)), p);
      NamesWithout(Rows(s), p);
    }
  }

  lemma WorkNames(code: Code, s: State, k: nat, work: Work)
    requires InRange(s)
    ensures var t := WorkerStep(code, s, k, work);
            t.queue == s.queue && t.sweep == s.sweep && |t.entries| == |s.entries| &&
            forall e | 0 <= e < |s.entries| :: t.entries[e].name == s.entries[e].name
  {
  }

  predicate KeepsNames(s: State, t: State) {
    && t.queue == s.queue && |t.entries| == |s.entries|
    && forall e | 0 <= e < |s.entries| :: t.entries[e].name == s.entries[e].name
  }

  lemma StatusCommandNames(code: Code, s: State, name: string)
    requires InRange(s)
    ensures KeepsNames(s, QueuePause(code, s, name).0) && KeepsNames(s, QueueRestart(s, name).0)
  {
  }

  lemma SweepNames(code: Code, max: nat, s: State)
    requires InRange(s)
    ensures KeepsNames(s, SweepStep(code, max, s))
  {
  }

  lemma NextWellFormed(code: Code, max: nat, s: State, step: Step)
    requires WellFormed(s)
    ensures WellFormed(Next(code, max, s, step))
  {
    match step
    case Add(name, url, junk) => AddWellFormed(s, name, url, junk);
    case Cancel(name) =>
      if s.sweep.Idle? {
        CancelWellFormed(code, s, name);
      }
    case Working(k, work) =>
      WorkNames(code, s, k, work);
      SameNames(s, WorkerStep(code, s, k, work));
    case Sweeping =>
      SweepNames(code, max, s);
      SameNames(s, SweepStep(code, max, s));
    case Pause(name) =>
      StatusCommandNames(code, s, name);
      SameNames(s, QueuePause(code, s, name).0);
    case Restart(name) =>
      StatusCommandNames(code, s, name);
      SameNames(s, QueueRestart(s, name).0);
  }

  /** Over every run of every code the names in the queue stay distinct. */
  lemma {:induction false} RunWellFormed(code: Code, max: nat, s: State, steps: seq<Step>)
    requires WellFormed(s)
    ensures WellFormed(Run(code, max, s, steps))
    decreases |steps|
  {
    if steps != [] {
      NextWellFormed(code, max, s, steps[0]);
      RunWellFormed(code, max, Next(code, max, s, steps[0]), steps[1..]);
    }
  }

  // ----- workers and statuses -----

  predicate Pending(s: State, e: nat)
    requires InRange(s)
  {
    s.sweep.Mark? && s.queue[s.sweep.i] == e
  }

  /** An entry that is marked and has no record yet. */
  predicate SpawnAwaited(s: State, e: nat)
    requires InRange(s) && e < |s.entries|
  {
    s.entries[e].status.STARTING? && forall k | 0 <= k < |s.threads| :: s.threads[k].entry != e
  }

  /** What the phase of a record says about the status of its entry, while that
      entry is queued. */
  predicate RecordAgrees(code: Code, s: State, k: nat)
    requires InRange(s) && k < |s.threads|
  {
    var t := s.threads[k];
    var status := s.entries[t.entry].status;
    var unmarked := Pending(s, t.entry) && status.WAITING?;
    t.entry in s.queue ==>
      match t.phase
      case Created => status.STARTING? || unmarked
      case Transferring => status.STARTED? || (!code.markFirst && status.STARTING?)
      case Ended => status.STARTING? || status.COMPLETED? || unmarked
  }

  ghost predicate WorkersAgree(code: Code, s: State) {
    && WellFormed(s)
    && (forall k | 0 <= k < |s.threads| :: RecordAgrees(code, s, k))
    && (forall k, l | 0 <= k < l < |s.threads| ::
          s.threads[k].entry == s.threads[l].entry ==> s.threads[k].entry !in s.queue)
    && (s.sweep.Count? ==> s.entries[s.queue[s.sweep.i]].status.WAITING?)
    && (s.sweep.Mark? ==> !code.markFirst)
    && (s.sweep.Spawn? ==> SpawnAwaited(s, s.queue[s.sweep.i]))
  }

  lemma AddKeepsWorkers(code: Code, s: State, name: string, url: string, junk: bool)
    requires WorkersAgree(code, s) && s.sweep.Idle?
    ensures WorkersAgree(code, QueueAdd(s, name, url, junk).0)
  {
    AddWellFormed(s, name, url, junk);
    var t := QueueAdd(s, name, url, junk).0;
    assert forall k | 0 <= k < |s.threads| :: RecordAgrees(code, s, k) ==> RecordAgrees(code, t, k);
  }

  /** Record `k` is dropped, or moves to a phase that agrees with its entry; the
      statuses of all other entries stay. */
  lemma RecordChanged(code: Code, s: State, t: State, k: nat)
    requires WorkersAgree(code, s) && InRange(t) && k < |s.threads|
    requires t.queue == s.queue && t.sweep == s.sweep && |t.entries| == |s.entries|
    requires forall e | 0 <= e < |s.entries| && e != s.threads[k].entry :: t.entries[e].status == s.entries[e].status
    requires t.threads == RemoveAt(s.threads, k)
      || (|t.threads| == |s.threads| && t.threads == s.threads[k := t.threads[k]]
          && t.threads[k].entry == s.threads[k].entry && RecordAgrees(code, t, k))
    ensures forall l | 0 <= l < |t.threads| :: RecordAgrees(code, t, l)
    ensures forall k, l | 0 <= k < l < |t.threads| ::
              t.threads[k].entry == t.threads[l].entry ==> t.threads[k].entry !in t.queue
    ensures t.sweep.Count? ==> t.entries[t.queue[t.sweep.i]].status.WAITING?
    ensures t.sweep.Spawn? ==> SpawnAwaited(t, t.queue[t.sweep.i])
  {
    var dropped := |t.threads| < |s.threads|;
    forall l | 0 <= l < |t.threads|
      ensures RecordAgrees(code, t, l)
    {
      var m := if dropped && l >= k then l + 1 else l;
      assert t.threads[l].entry == s.threads[m].entry && RecordAgrees(code, s, m);
    }
    assert RecordAgrees(code, s, k);
  }

  lemma DownloadPauseKeepsWorkers(code: Code, s: State, e: nat)
    requires WorkersAgree(code, s) && s.sweep.Idle? && e in s.queue
    ensures WorkersAgree(code, DownloadPause(s, s.entries[e].name).0)
  {
    var k := ThreadPosition(s, s.entries[e].name);
    if k < |s.threads| {
      var t := DownloadPause(s, s.entries[e].name).0;
      SameNames(s, t);
      RecordChanged(code, s, t, k);
    }
  }

  lemma PauseKeepsWorkers(code: Code, s: State, name: string)
    requires code.stopStarting && WorkersAgree(code, s) && s.sweep.Idle?
    ensures WorkersAgree(code, QueuePause(code, s, name).0)
  {
    var t := QueuePause(code, s, name).0;
    SameNames(s, t);
    var p := QueuePosition(s, name);
    if p < |s.queue| && Stoppable(code, s.entries[s.queue[p]].status) {
      DownloadPauseKeepsWorkers(code, s, s.queue[p]);
    } else {
      assert forall k | 0 <= k < |t.threads| :: RecordAgrees(code, s, k) ==> RecordAgrees(code, t, k);
    }
  }

  /** Dropping or ending a record whose entry is no longer queued, while the
      entries that stay queued are unchanged, keeps the agreement of records. */
  lemma FewerRecords(code: Code, s: State, t: State, k: nat)
    requires WorkersAgree(code, s) && s.sweep.Idle? && InRange(t)
    requires forall e | e in t.queue :: e in s.queue && t.entries[e] == s.entries[e]
    requires t.threads == s.threads
      || (k < |s.threads| && s.threads[k].entry !in t.queue
          && (t.threads == RemoveAt(s.threads, k) || t.threads == s.threads[k := Thread(s.threads[k].entry, Ended)]))
    ensures forall l | 0 <= l < |t.threads| :: RecordAgrees(code, t, l)
    ensures forall k, l | 0 <= k < l < |t.threads| ::
              t.threads[k].entry == t.threads[l].entry ==> t.threads[k].entry !in t.queue
  {
    var dropped := |t.threads| < |s.threads|;
    forall l | 0 <= l < |t.threads|
      ensures RecordAgrees(code, t, l)
    {
      var m := if dropped && l >= k then l + 1 else l;
      assert t.threads[l].entry == s.threads[m].entry && RecordAgrees(code, s, m);
    }
  }

  lemma CancelKeepsWorkers(code: Code, s: State, name: string)
    requires code.stopStarting && WorkersAgree(code, s) && s.sweep.Idle?
    ensures WorkersAgree(code, QueueCancel(code, s, name).0)
  {
    if QueuePosition(s, name) < |s.queue| {
      var t := QueueCancel(code, s, name).0;
      CancelEffect(code, s, name);
      FewerRecords(code, s, t, ThreadPosition(s, name));
      assert t.sweep.Idle?;
      CancelWellFormed(code, s, name);
    }
  }

  lemma RestartKeepsWorkers(code: Code, s: State, name: string)
    requires WorkersAgree(code, s) && s.sweep.Idle?
    ensures WorkersAgree(code, QueueRestart(s, name).0)
  {
    var t := QueueRestart(s, name).0;
    SameNames(s, t);
    assert forall k | 0 <= k < |t.threads| :: RecordAgrees(code, s, k) ==> RecordAgrees(code, t, k);
  }

  lemma SweepKeepsWorkers(code: Code, max: nat, s: State)
    requires WorkersAgree(code, s)
    ensures WorkersAgree(code, SweepStep(code, max, s))
  {
    var t := SweepStep(code, max, s);
    SameNames(s, t);
    forall k | 0 <= k < |t.threads|
      ensures RecordAgrees(code, t, k)
    {
      assert k < |s.threads| ==> RecordAgrees(code, s, k);
    }
    if s.sweep.Count? && (t.sweep.Mark? || t.sweep.Spawn?) {
      forall k | 0 <= k < |s.threads|
        ensures s.threads[k].entry != s.queue[s.sweep.i]
      {
        assert RecordAgrees(code, s, k);
      }
    }
  }

  lemma WorkKeepsWorkers(code: Code, s: State, k: nat, work: Work)
    requires WorkersAgree(code, s)
    ensures WorkersAgree(code, WorkerStep(code, s, k, work))
  {
    var t := WorkerStep(code, s, k, work);
    WorkNames(code, s, k, work);
    SameNames(s, t);
    if k < |s.threads| {
      assert RecordAgrees(code, s, k);
      RecordChanged(code, s, t, k);
    }
  }

  lemma NextKeepsWorkers(code: Code, max: nat, s: State, step: Step)
    requires code.stopStarting && WorkersAgree(code, s)
    ensures WorkersAgree(code, Next(code, max, s, step))
  {
    if !s.sweep.Idle? && !step.Sweeping? && !step.Working? {
      return;
    }
    match step
    case Sweeping => SweepKeepsWorkers(code, max, s);
    case Working(k, work) => WorkKeepsWorkers(code, s, k, work);
    case Add(name, url, junk) => AddKeepsWorkers(code, s, name, url, junk);
    case Pause(name) => PauseKeepsWorkers(code, s, name);
    case Cancel(name) => CancelKeepsWorkers(code, s, name);
    case Restart(name) => RestartKeepsWorkers(code, s, name);
  }
}
