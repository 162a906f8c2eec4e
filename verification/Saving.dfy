/** The save on termination, as far as the scheduler is concerned: the entries it
    puts to rest, the rows it prints, and the workers it stops. */
module Saving {
  import opened Entries
  import opened LinkedLists
  import opened Scheduler
  import opened SchedulerInvariants
  import opened Reachability
  import opened Witnesses
  import opened SchedulerAgreement
  import opened WorkerRecords

  /** `queue_data_save` on element `i`, apart from the line it prints. */
  function SaveEntry(s: State, i: nat): (r: State)
    requires InRange(s) && i < |s.queue|
    ensures InRange(r) && r.queue == s.queue && |r.entries| == |s.entries|
  {
    var e := s.queue[i];
    if Active(s.entries[e].status) then SetStatus(DownloadPause(s, s.entries[e].name).0, e, WAITING) else s
  }

  /** An active entry waits afterwards; the first record of its name goes, and the entry of
      that record, should it be another, is PAUSED. Any other entry is left alone. */
  lemma SaveEntryExact(s: State, i: nat, k: nat)
    requires InRange(s) && i < |s.queue| && k <= |s.threads|
    requires forall l | 0 <= l < k :: s.entries[s.threads[l].entry].name != s.entries[s.queue[i]].name
    requires k < |s.threads| ==> s.entries[s.threads[k].entry].name == s.entries[s.queue[i]].name
    ensures var t, e := SaveEntry(s, i), s.queue[i];
            if s.entries[e].status != STARTING && s.entries[e].status != STARTED then t == s
            else
              && t.queue == s.queue && t.sweep == s.sweep
              && t.threads == (if k < |s.threads| then s.threads[..k] + s.threads[k + 1..] else s.threads)
              && (forall x | 0 <= x < |s.entries| ::
                    t.entries[x] == if x == e then s.entries[e].(status := WAITING)
                                    else if k < |s.threads| && x == s.threads[k].entry
                                    then s.entries[x].(status := PAUSED) else s.entries[x])
  {
    assert ThreadPosition(s, s.entries[s.queue[i]].name) == k;
  }

  /** The entries are printed one by one, each just after it was put to rest. */
  function SaveFrom(s: State, i: nat): (r: (State, seq<Entry>))
    requires InRange(s) && i <= |s.queue|
    ensures InRange(r.0) && r.0.queue == s.queue
    decreases |s.queue| - i
  {
    if i == |s.queue| then (s, [])
    else
      var t := SaveEntry(s, i);
      var (u, rows) := SaveFrom(t, i + 1);
      (u, [t.entries[t.queue[i]]] + rows)
  }

  lemma SaveFromNext(s: State, i: nat)
    requires InRange(s) && i < |s.queue|
    ensures var t := SaveEntry(s, i);
            SaveFrom(s, i) == (SaveFrom(t, i + 1).0, [t.entries[t.queue[i]]] + SaveFrom(t, i + 1).1)
  {
  }

  function AtRest(e: Entry): Entry {
    if Active(e.status) then e.(status := WAITING) else e
  }

  function SavedRows(rows: seq<Entry>): (r: seq<Entry>)
    ensures |r| == |rows| && forall j | 0 <= j < |rows| :: r[j] == AtRest(rows[j])
  {
    seq(|rows|, j requires 0 <= j < |rows| => AtRest(rows[j]))
  }

  lemma SavedRowsExact(rows: seq<Entry>, j: nat)
    requires j < |rows|
    ensures SavedRows(rows)[j]
            == if rows[j].status == STARTING || rows[j].status == STARTED then rows[j].(status := WAITING) else rows[j]
  {
  }

  lemma SaveEntryRows(s: State, i: nat)
    requires WellFormed(s) && i < |s.queue|
    ensures WellFormed(SaveEntry(s, i))
    ensures Rows(SaveEntry(s, i)) == Rows(s)[i := AtRest(Rows(s)[i])]
  {
    var e := s.queue[i];
    var t := SaveEntry(s, i);
    if Active(s.entries[e].status) {
      var k := ThreadPosition(s, s.entries[e].name);
      if k < |s.threads| && s.threads[k].entry in s.queue {
        SameNameSameEntry(s, s.threads[k].entry, e);
      }
    }
    SameNames(s, t);
  }

  lemma SavedStep(rows: seq<Entry>, i: nat)
    requires i < |rows|
    ensures var before := SavedRows(rows)[..i] + rows[i..];
            before[i] == rows[i] && before[i := AtRest(rows[i])] == SavedRows(rows)[..i + 1] + rows[i + 1..]
    ensures (SavedRows(rows)[..i + 1] + rows[i + 1..])[i] == SavedRows(rows)[i]
    ensures SavedRows(rows)[i..] == [SavedRows(rows)[i]] + SavedRows(rows)[i + 1..]
  {
  }

  lemma SavedEnds(rows: seq<Entry>)
    ensures SavedRows(rows)[..|rows|] + rows[|rows|..] == SavedRows(rows) && SavedRows(rows)[|rows|..] == []
    ensures SavedRows(rows)[..0] + rows[0..] == rows && SavedRows(rows)[0..] == SavedRows(rows)
  {
  }

  lemma {:induction false} SaveFromRows(s: State, i: nat, rows: seq<Entry>)
    requires WellFormed(s) && i <= |s.queue| == |rows|
    requires Rows(s) == SavedRows(rows)[..i] + rows[i..]
    ensures var (t, saved) := SaveFrom(s, i);
            WellFormed(t) && Rows(t) == SavedRows(rows) && saved == SavedRows(rows)[i..]
    decreases |s.queue| - i
  {
    if i == |s.queue| {
      SavedEnds(rows);
    } else {
      SavedStep(rows, i);
      SaveEntryRows(s, i);
      SaveFromRows(SaveEntry(s, i), i + 1, rows);
      SaveFromNext(s, i);
    }
  }

  /** A save prints every queued entry in order, with STARTING and STARTED turned
      into WAITING, and leaves the queue in that same condition: for every code
      and every state with distinct names no queued entry is active afterwards. */
  lemma SaveExact(s: State)
    requires WellFormed(s)
    ensures var (t, rows) := SaveFrom(s, 0);
            WellFormed(t) && rows == SavedRows(Rows(s)) && Rows(t) == SavedRows(Rows(s))
  {
    SavedEnds(Rows(s));
    SaveFromRows(s, 0, Rows(s));
  }

  // ----- the workers a save stops -----

  lemma SaveEntryActive(s: State, i: nat)
    requires WellFormed(s) && RecordsActive(s) && !s.sweep.Mark? && Distinct(Targets(s.threads)) && i < |s.queue|
    ensures RecordsActive(SaveEntry(s, i)) && Distinct(Targets(SaveEntry(s, i).threads))
  {
    var e := s.queue[i];
    if Active(s.entries[e].status) {
      NamedRecord(s, i);
      var k := ThreadPosition(s, s.entries[e].name);
      if k < |s.threads| {
        SaveEntryDrops(s, i, k);
        OnlyRecordGone(s.threads, k);
        RemovalDistinct(Targets(s.threads), k);
        TargetsWithout(s.threads, k);
      }
      OthersStayActive(s, SaveEntry(s, i), e);
    }
  }

  lemma SaveEntryDrops(s: State, i: nat, k: nat)
    requires InRange(s) && i < |s.queue| && Active(s.entries[s.queue[i]].status)
    requires k == ThreadPosition(s, s.entries[s.queue[i]].name) < |s.threads| && s.threads[k].entry == s.queue[i]
    ensures var t := SaveEntry(s, i);
            && t.threads == RemoveAt(s.threads, k) && t.entries[s.queue[i]].status.WAITING?
            && forall e | 0 <= e < |s.entries| && e != s.queue[i] :: t.entries[e] == s.entries[e]
  {
  }

  lemma {:induction false} SaveFromActive(s: State, i: nat)
    requires WellFormed(s) && RecordsActive(s) && !s.sweep.Mark? && Distinct(Targets(s.threads)) && i <= |s.queue|
    ensures RecordsActive(SaveFrom(s, i).0) && SaveFrom(s, i).0.sweep == s.sweep
    decreases |s.queue| - i
  {
    if i < |s.queue| {
      SaveEntryRows(s, i);
      SaveEntryActive(s, i);
      SaveFromActive(SaveEntry(s, i), i + 1);
    }
  }

  predicate NoWorkerQueued(s: State) {
    forall k | 0 <= k < |s.threads| && s.threads[k].Live() :: s.threads[k].entry !in s.queue
  }

  /** A save before any access of a sweep, or between requests: the handler of a signal
      interrupts the controller in the middle of its loop. */
  ghost predicate SaveStops(code: Code, max: nat) {
    forall s | InRange(s) && Reachable(code, max, s) :: NoWorkerQueued(SaveFrom(s, 0).0)
  }

  /** A save while the controller waits for a request. */
  ghost predicate IdleSaveStops(code: Code, max: nat) {
    forall s | InRange(s) && Reachable(code, max, s) && s.sweep.Idle? :: NoWorkerQueued(SaveFrom(s, 0).0)
  }

  lemma RecordMeansActive(s: State)
    requires RecordsActive(s) && !s.sweep.Mark? && s.threads != []
    ensures exists j :: 0 <= j < |s.queue| && Active(Rows(s)[j].status)
  {
    assert RecordActive(s, 0);
    assert s.threads[0].entry in s.queue;
    var j :| 0 <= j < |s.queue| && s.queue[j] == s.threads[0].entry;
    assert Active(Rows(s)[j].status);
  }

  /** When PAUSE, CANCEL and completion drop the record, a save empties the thread
      list, unless it falls between the creation of a thread and the write of STARTING. */
  lemma SaveEmptiesThreads(code: Code, max: nat, s: State)
    requires RecordsDropped(code) && InRange(s) && Reachable(code, max, s) && !s.sweep.Mark?
    ensures SaveFrom(s, 0).0.threads == []
  {
    ReachActive(code, max, s);
    SaveFromActive(s, 0);
    SaveExact(s);
    if SaveFrom(s, 0).0.threads != [] {
      RecordMeansActive(SaveFrom(s, 0).0);
    }
  }

  /** A save of two entries, the first of which is at rest. */
  lemma SaveSecond(s: State, t: State)
    requires InRange(s) && |s.queue| == 2 && !Active(s.entries[s.queue[0]].status) && SaveEntry(s, 1) == t
    ensures SaveFrom(s, 0).0 == t
  {
    assert SaveEntry(s, 0) == s;
    assert SaveFrom(t, 2).0 == t;
    assert SaveFrom(s, 1).0 == t;
  }

  lemma SaveNothing(status: Status, sweep: Sweep)
    requires !Active(status) && InRange(Solo(status, [Thread(1, Created)], sweep))
    ensures !NoWorkerQueued(SaveFrom(Solo(status, [Thread(1, Created)], sweep), 0).0)
  {
    var s := Solo(status, [Thread(1, Created)], sweep);
    SaveSecond(s, s);
    assert s.threads[0].Live() && s.threads[0].entry == s.queue[1];
  }

  /** The record of an earlier download is taken for that of the worker. */
  lemma SaveMissesWorker()
    ensures !NoWorkerQueued(SaveFrom(Missed(), 0).0)
  {
    FoundMissed();
    var t := Readded(WAITING, [Thread(2, Created)]);
    assert RemoveAt(Missed().threads, 0) == t.threads;
    assert DownloadPause(Missed(), "a").0 == Readded(STARTING, t.threads);
    assert SaveEntry(Missed(), 1) == t;
    SaveSecond(Missed(), t);
    assert t.threads[0].Live() && t.threads[0].entry == t.queue[1];
  }

  lemma SaveOfNone(code: Code)
    ensures SaveStops(code, 0)
  {
    forall s | InRange(s) && Reachable(code, 0, s)
      ensures NoWorkerQueued(SaveFrom(s, 0).0)
    {
      ReachDormant(code, s);
      SaveFromActive(s, 0);
      SaveExact(s);
      if SaveFrom(s, 0).0.threads != [] {
        RecordMeansActive(SaveFrom(s, 0).0);
      }
    }
  }

  /** After a save between requests no worker of a queued entry is left running, exactly
      when nothing can start, or PAUSE, CANCEL and completion drop the record of the worker. */
  lemma IdleSaveStopsExact(code: Code, max: nat)
    ensures IdleSaveStops(code, max) <==> max == 0 || RecordsDropped(code)
  {
    if max == 0 {
      SaveOfNone(code);
    } else if RecordsDropped(code) {
      forall s | InRange(s) && Reachable(code, max, s) && s.sweep.Idle?
        ensures NoWorkerQueued(SaveFrom(s, 0).0)
      {
        SaveEmptiesThreads(code, max, s);
      }
    } else if !code.stopStarting {
      ReachPausedWithWorker(code, max);
      SaveNothing(PAUSED, Idle);
    } else {
      ReachMissed(code, max);
      SaveMissesWorker();
    }
  }

  lemma NeverMark(code: Code, max: nat, s: State)
    requires code.markFirst && code.stopStarting && Reachable(code, max, s)
    ensures !s.sweep.Mark?
  {
    ReachWorkers(code, max, s);
  }

  /** A save that may also interrupt a sweep leaves none exactly when nothing can
      start, or STARTING is written first as well. */
  lemma SaveStopsExact(code: Code, max: nat)
    ensures SaveStops(code, max) <==> max == 0 || RecordsKept(code)
  {
    if max == 0 {
      SaveOfNone(code);
    } else if RecordsKept(code) {
      forall s | InRange(s) && Reachable(code, max, s)
        ensures NoWorkerQueued(SaveFrom(s, 0).0)
      {
        NeverMark(code, max, s);
        SaveEmptiesThreads(code, max, s);
      }
    } else if !code.markFirst {
      ReachSpawned(code, max);
      SaveNothing(WAITING, Mark(1));
    } else {
      IdleSaveStopsExact(code, max);
    }
  }
}
