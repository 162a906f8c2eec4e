/** Runs towards the states in which the departures of the code show, for every limit
    on downloads but zero. An entry "z" stays paused at the head of the queue, so that
    no run removes the head. */
module Witnesses {
  import opened Entries
  import opened LinkedLists
  import opened Scheduler
  import opened SweepTheory
  import opened Reachability

  function Fresh(name: string, status: Status): Entry {
    NewEntry(name, "http://h/" + name).(status := status)
  }

  lemma NextAdd(code: Code, max: nat, s: State, name: string)
    requires InRange(s) && s.sweep.Idle? && forall i | 0 <= i < |s.queue| :: s.entries[s.queue[i]].name != name
    ensures Next(code, max, s, Add(name, "http://h/" + name, false)) == Added(s, name)
  {
  }

  /** A search that ends at element `p`. */
  lemma FoundAt(s: State, name: string, p: nat)
    requires InRange(s) && p < |s.queue| && s.entries[s.queue[p]].name == name
    requires forall i | 0 <= i < p :: s.entries[s.queue[i]].name != name
    ensures QueuePosition(s, name) == p
  {
    FirstMatchUnique(Names(Rows(s)), Named(name), p);
  }

  // ----- a sweep with one entry to start -----

  predicate NoneWaits(s: State, n: nat)
    requires InRange(s) && n <= |s.queue|
  {
    forall j | 0 <= j < n :: !s.entries[s.queue[j]].status.WAITING?
  }

  lemma {:induction false} NothingWaits(statuses: seq<Status>)
    requires forall j | 0 <= j < |statuses| :: !statuses[j].WAITING?
    ensures Waiting(statuses) == 0
  {
    if statuses != [] {
      NothingWaits(statuses[..|statuses| - 1]);
    }
  }

  lemma {:induction false} NoNewThreads(both: bool, max: nat, s: State, n: nat)
    requires InRange(s) && n <= |s.queue| && NoneWaits(s, n)
    ensures NewThreads(both, max, s, n) == []
  {
    if n > 0 {
      NoNewThreads(both, max, s, n - 1);
    }
  }

  function Launched(s: State, e: nat): State
    requires e < |s.entries|
  {
    DownloadStart(SetStatus(s, e, STARTING), e).(sweep := Idle)
  }

  lemma LaunchedBySwept(both: bool, max: nat, s: State, t: State, n: nat)
    requires WellFormedQueue(s) && n == |s.queue| - 1 && NoneWaits(s, n)
    requires s.entries[s.queue[n]].status.WAITING? && QueueTally(s, both) < max
    requires Swept(both, max, s, t, |s.queue|) && t.sweep.Idle?
    ensures t == Launched(s, s.queue[n])
  {
    var statuses, e := Statuses(Rows(s)), s.queue[n];
    NothingWaits(statuses[..n]);
    NoNewThreads(both, max, s, n);
    assert Moves(both, max, statuses, n);
    assert t.threads == s.threads + [Thread(e, Created)];
    forall f | 0 <= f < |s.entries|
      ensures t.entries[f] == Launched(s, e).entries[f]
    {
      if f in s.queue {
        var j :| 0 <= j < |s.queue| && s.queue[j] == f;
        assert Rows(t)[j] == Promoted(both, max, Rows(s), |s.queue|)[j];
        assert Moves(both, max, statuses, j) <==> j == n;
      }
    }
  }

  /** A sweep that finds only the last entry waiting, and a slot for it. */
  lemma SweepLast(code: Code, max: nat, s: State, n: nat)
    requires WellFormedQueue(s) && s.sweep == Look(0) && n == |s.queue| - 1 && NoneWaits(s, n)
    requires s.entries[s.queue[n]].status.WAITING? && QueueTally(s, code.countStarting) < max
    ensures SweepFrom(code, max, s) == Launched(s, s.queue[n])
  {
    FullSweepExact(code, max, s);
    assert s.(sweep := Look(0)) == s;
    LaunchedBySwept(code.countStarting, max, s, SweepFrom(code, max, s), n);
  }

  // ----- one more download -----

  function Added(s: State, name: string): State {
    State(s.entries + [Fresh(name, WAITING)], s.queue + [|s.entries|], s.threads, Look(0))
  }

  /** A download added and started. */
  function Grown(s: State, name: string): State {
    State(s.entries + [Fresh(name, STARTING)], s.queue + [|s.entries|], s.threads + [Thread(|s.entries|, Created)],
      Idle)
  }

  lemma TallyLast(statuses: seq<Status>, status: Status, both: bool)
    ensures Tally(statuses + [status], both) == Tally(statuses, both) + if Counts(both, status) then 1 else 0
  {
    assert (statuses + [status])[..|statuses|] == statuses;
  }

  lemma AddedTally(s: State, name: string, both: bool)
    requires InRange(s)
    ensures InRange(Added(s, name)) && QueueTally(Added(s, name), both) == QueueTally(s, both)
  {
    TallyLast(Statuses(Rows(s)), WAITING, both);
    assert Statuses(Rows(Added(s, name))) == Statuses(Rows(s)) + [WAITING];
  }

  lemma GrownTally(s: State, name: string, both: bool)
    requires InRange(s)
    ensures InRange(Added(s, name)) && QueueTally(Added(s, name), both) == QueueTally(s, both)
    ensures InRange(Grown(s, name)) && QueueTally(Grown(s, name), both) == QueueTally(s, both) + if both then 1 else 0
  {
    AddedTally(s, name, both);
    TallyLast(Statuses(Rows(s)), STARTING, both);
    assert Statuses(Rows(Grown(s, name))) == Statuses(Rows(s)) + [STARTING];
  }

  lemma LaunchedAdded(s: State, name: string)
    requires InRange(s)
    ensures Launched(Added(s, name), |s.entries|) == Grown(s, name)
  {
    var added := s.entries + [Fresh(name, WAITING)];
    assert added[|s.entries| := Fresh(name, STARTING)] == s.entries + [Fresh(name, STARTING)];
  }

  /** With a slot left for it a new download starts. */
  lemma ReachGrown(code: Code, max: nat, s: State, name: string)
    requires InRange(s) && s.sweep.Idle? && Reachable(code, max, s) && NoneWaits(s, |s.queue|)
    requires forall i | 0 <= i < |s.queue| :: s.entries[s.queue[i]].name != name
    requires QueueTally(s, code.countStarting) < max
    ensures Reachable(code, max, Grown(s, name))
  {
    var added := Added(s, name);
    NextAdd(code, max, s, name);
    ReachNext(code, max, s, Add(name, "http://h/" + name, false));
    ReachWellFormed(code, max, added);
    GrownTally(s, name, code.countStarting);
    assert NoneWaits(added, |s.queue|);
    SweepLast(code, max, added, |s.queue|);
    ReachSweep(code, max, added);
    LaunchedAdded(s, name);
  }

  // ----- any number of downloads -----

  /** Names of different lengths, all longer than "z" and "a". */
  function NameOf(k: nat): string {
    seq(k + 2, _ => 'b')
  }

  /** The states that adding n downloads leads to, the first one named by k. */
  function Filled(s: State, k: nat, n: nat): State
    decreases n
  {
    if n == 0 then s else Filled(Grown(s, NameOf(k)), k + 1, n - 1)
  }

  /** No entry waits, and every name is shorter than NameOf(k). */
  predicate Fillable(s: State, k: nat) {
    && InRange(s) && s.sweep.Idle? && NoneWaits(s, |s.queue|)
    && forall i | 0 <= i < |s.queue| :: |s.entries[s.queue[i]].name| < k + 2
  }

  lemma GrownFillable(s: State, k: nat)
    requires Fillable(s, k)
    ensures Fillable(Grown(s, NameOf(k)), k + 1)
  {
  }

  lemma {:induction false} FilledFacts(s: State, k: nat, n: nat)
    requires Fillable(s, k)
    ensures var t := Filled(s, k, n);
            && Fillable(t, k + n)
            && QueueTally(t, true) == QueueTally(s, true) + n
            && s.entries <= t.entries && s.queue <= t.queue && s.threads <= t.threads
    decreases n
  {
    if n > 0 {
      var t := Grown(s, NameOf(k));
      GrownFillable(s, k);
      GrownTally(s, NameOf(k), true);
      FilledFacts(t, k + 1, n - 1);
    }
  }

  /** The sweep finds slots for n more downloads. */
  predicate Room(both: bool, max: nat, s: State, n: nat)
    requires InRange(s)
  {
    n > 0 ==> QueueTally(s, both) + (if both then n else 1) <= max
  }

  lemma ReachOneMore(code: Code, max: nat, s: State, k: nat, n: nat, t: State)
    requires Fillable(s, k) && Reachable(code, max, s)
    requires n > 0 && Room(code.countStarting, max, s, n) && t == Grown(s, NameOf(k))
    ensures Reachable(code, max, t) && Fillable(t, k + 1) && Room(code.countStarting, max, t, n - 1)
  {
    ReachGrown(code, max, s, NameOf(k));
    GrownFillable(s, k);
    GrownTally(s, NameOf(k), code.countStarting);
  }

  /** As many downloads start as the sweep does not count, or finds slots for. */
  lemma {:induction false} ReachFilled(code: Code, max: nat, s: State, k: nat, n: nat)
    requires Fillable(s, k) && Reachable(code, max, s) && Room(code.countStarting, max, s, n)
    ensures Reachable(code, max, Filled(s, k, n))
    decreases n
  {
    if n > 0 {
      var t := Grown(s, NameOf(k));
      ReachOneMore(code, max, s, k, n, t);
      ReachFilled(code, max, t, k + 1, n - 1);
    }
  }

  // ----- one download -----

  /** An entry that was loaded and never restarted. */
  function Resting(): Entry {
    Fresh("z", PAUSED)
  }

  function Base(): State {
    State([Resting()], [0], [], Idle)
  }

  lemma BaseStarts()
    ensures Starts(Base())
  {
  }

  lemma BaseTally(both: bool)
    ensures QueueTally(Base(), both) == 0
  {
    assert Statuses(Rows(Base())) == [] + [PAUSED];
    TallyLast([], PAUSED, both);
  }

  lemma ReachBase(code: Code, max: nat)
    ensures Reachable(code, max, Base())
    ensures Fillable(Base(), 0) && QueueTally(Base(), true) == 0 && QueueTally(Base(), false) == 0
  {
    BaseStarts();
    ReachStart(code, max, Base());
    BaseTally(true);
    BaseTally(false);
  }

  function Solo(status: Status, threads: seq<Thread>, sweep: Sweep): State {
    State([Resting(), Fresh("a", status)], [0, 1], threads, sweep)
  }

  /** Both searches for "a" end at its entry and at the first record. */
  lemma FoundSolo(status: Status, threads: seq<Thread>, sweep: Sweep)
    requires InRange(Solo(status, threads, sweep))
    ensures QueuePosition(Solo(status, threads, sweep), "a") == 1
    ensures threads != [] && threads[0].entry == 1 ==> ThreadPosition(Solo(status, threads, sweep), "a") == 0
  {
    assert "z"[0] != "a"[0];
    FoundAt(Solo(status, threads, sweep), "a", 1);
    FoundFirst(Solo(status, threads, sweep), "a");
  }

  lemma SoloTally(status: Status, threads: seq<Thread>, both: bool)
    requires InRange(Solo(status, threads, Idle))
    ensures QueueTally(Solo(status, threads, Idle), both) == if Counts(both, status) then 1 else 0
  {
    assert Statuses(Rows(Solo(status, threads, Idle))) == ([] + [PAUSED]) + [status];
    TallyLast([], PAUSED, both);
    TallyLast([] + [PAUSED], status, both);
  }

  function OneStarting(): State {
    Solo(STARTING, [Thread(1, Created)], Idle)
  }

  lemma ReachOneStarting(code: Code, max: nat)
    requires max > 0
    ensures Reachable(code, max, OneStarting())
  {
    ReachBase(code, max);
    assert "z"[0] != "a"[0];
    ReachGrown(code, max, Base(), "a");
    assert Grown(Base(), "a") == OneStarting();
  }

  lemma ReachPausedWithWorker(code: Code, max: nat)
    requires max > 0 && !code.stopStarting
    ensures Reachable(code, max, Solo(PAUSED, [Thread(1, Created)], Idle))
  {
    ReachOneStarting(code, max);
    FoundSolo(STARTING, [Thread(1, Created)], Idle);
    ReachNext(code, max, OneStarting(), Pause("a"));
    assert Next(code, max, OneStarting(), Pause("a")) == Solo(PAUSED, [Thread(1, Created)], Idle);
  }

  /** A paused download with a worker leaves all slots free. */
  lemma PausedRoom(both: bool)
    ensures Fillable(Solo(PAUSED, [Thread(1, Created)], Idle), 0)
    ensures QueueTally(Solo(PAUSED, [Thread(1, Created)], Idle), both) == 0
  {
    SoloTally(PAUSED, [Thread(1, Created)], both);
  }

  lemma WaitingRoom(both: bool)
    ensures var s := Solo(WAITING, [Thread(1, Created)], Look(0));
            WellFormedQueue(s) && NoneWaits(s, 1) && QueueTally(s, both) == 0
  {
    SoloTally(WAITING, [Thread(1, Created)], both);
    assert Rows(Solo(WAITING, [Thread(1, Created)], Look(0))) == Rows(Solo(WAITING, [Thread(1, Created)], Idle));
  }

  lemma SpawnSteps(code: Code, max: nat)
    requires max > 0 && !code.markFirst
    ensures SweepStep(code, max, Solo(WAITING, [], Look(0))) == Solo(WAITING, [], Look(1))
    ensures SweepStep(code, max, Solo(WAITING, [], Look(1))) == Solo(WAITING, [], Count(1, 0, 0))
    ensures SweepStep(code, max, Solo(WAITING, [], Count(1, 0, 0))) == Solo(WAITING, [], Count(1, 1, 0))
    ensures SweepStep(code, max, Solo(WAITING, [], Count(1, 1, 0))) == Solo(WAITING, [], Count(1, 2, 0))
    ensures SweepStep(code, max, Solo(WAITING, [], Count(1, 2, 0))) == Solo(WAITING, [Thread(1, Created)], Mark(1))
  {
  }

  lemma AddedBase(code: Code, max: nat)
    requires InRange(Base())
    ensures Next(code, max, Base(), Add("a", "http://h/" + "a", false)) == Solo(WAITING, [], Look(0))
  {
    assert "z"[0] != "a"[0];
    NextAdd(code, max, Base(), "a");
    assert Added(Base(), "a") == Solo(WAITING, [], Look(0));
  }

  lemma ReachAdded(code: Code, max: nat)
    requires max > 0
    ensures Reachable(code, max, Solo(WAITING, [], Look(0)))
  {
    ReachBase(code, max);
    AddedBase(code, max);
    ReachNext(code, max, Base(), Add("a", "http://h/" + "a", false));
  }

  lemma ReachSpawned(code: Code, max: nat)
    requires max > 0 && !code.markFirst
    ensures Reachable(code, max, Solo(WAITING, [Thread(1, Created)], Mark(1)))
  {
    ReachAdded(code, max);
    SpawnSteps(code, max);
    ReachSweepStep(code, max, Solo(WAITING, [], Look(0)));
    ReachSweepStep(code, max, Solo(WAITING, [], Look(1)));
    ReachSweepStep(code, max, Solo(WAITING, [], Count(1, 0, 0)));
    ReachSweepStep(code, max, Solo(WAITING, [], Count(1, 1, 0)));
    ReachSweepStep(code, max, Solo(WAITING, [], Count(1, 2, 0)));
  }

  lemma ReachTransferring(code: Code, max: nat)
    requires max > 0
    ensures Reachable(code, max, Solo(STARTED, [Thread(1, Transferring)], Idle))
  {
    ReachOneStarting(code, max);
    ReachNext(code, max, OneStarting(), Working(0, Start));
    assert Next(code, max, OneStarting(), Working(0, Start)) == Solo(STARTED, [Thread(1, Transferring)], Idle);
  }

  lemma ReachDone(code: Code, max: nat)
    requires max > 0 && !code.reapDone
    ensures Reachable(code, max, Solo(COMPLETED, [Thread(1, Ended)], Idle))
  {
    ReachTransferring(code, max);
    var one := Solo(STARTED, [Thread(1, Transferring)], Idle);
    ReachNext(code, max, one, Working(0, Finish));
    assert Next(code, max, one, Working(0, Finish)) == Solo(COMPLETED, [Thread(1, Ended)], Idle);
  }

  // ----- a record left over from an earlier download of the same name -----

  function Leftover(): State {
    State([Resting(), Fresh("a", PAUSED)], [0], [Thread(1, Ended)], Idle)
  }

  lemma RecordLeft(code: Code)
    requires !code.removeByName
    ensures DownloadCancel(code, Solo(STARTED, [Thread(1, Transferring)], Idle), "a")
            == Solo(PAUSED, [Thread(1, Ended)], Idle)
  {
    FoundSolo(STARTED, [Thread(1, Transferring)], Idle);
  }

  lemma CancelLeavesRecord(code: Code)
    requires !code.removeByName
    ensures QueueCancel(code, Solo(STARTED, [Thread(1, Transferring)], Idle), "a").0 == Leftover()
  {
    FoundSolo(STARTED, [Thread(1, Transferring)], Idle);
    RecordLeft(code);
    assert RemoveAt([0, 1], 1) == [0];
  }

  lemma CancelDone(code: Code)
    ensures QueueCancel(code, Solo(COMPLETED, [Thread(1, Ended)], Idle), "a").0 == Leftover()
  {
    FoundSolo(COMPLETED, [Thread(1, Ended)], Idle);
    assert RemoveAt([0, 1], 1) == [0];
  }

  lemma ReachLeftover(code: Code, max: nat)
    requires max > 0 && (!code.removeByName || !code.reapDone)
    ensures Reachable(code, max, Leftover())
  {
    if !code.removeByName {
      ReachTransferring(code, max);
      ReachNext(code, max, Solo(STARTED, [Thread(1, Transferring)], Idle), Cancel("a"));
      CancelLeavesRecord(code);
    } else {
      ReachDone(code, max);
      ReachNext(code, max, Solo(COMPLETED, [Thread(1, Ended)], Idle), Cancel("a"));
      CancelDone(code);
    }
  }

  function Readded(status: Status, threads: seq<Thread>): State {
    State([Resting(), Fresh("a", PAUSED), Fresh("a", status)], [0, 2], threads, Idle)
  }

  /** The worker of the second download, behind the record of the first. */
  function Missed(): State {
    Readded(STARTING, [Thread(1, Ended), Thread(2, Created)])
  }

  lemma LeftoverRoom(both: bool)
    ensures InRange(Leftover()) && NoneWaits(Leftover(), 1) && QueueTally(Leftover(), both) == 0
    ensures Leftover().entries[Leftover().queue[0]].name != "a"
  {
    assert "z"[0] != "a"[0];
    assert Rows(Leftover()) == Rows(Base());
    BaseTally(both);
  }

  lemma GrownLeftover()
    ensures Grown(Leftover(), "a") == Missed()
  {
  }

  lemma ReachMissed(code: Code, max: nat)
    requires max > 0 && (!code.removeByName || !code.reapDone)
    ensures Reachable(code, max, Missed())
  {
    ReachLeftover(code, max);
    LeftoverRoom(code.countStarting);
    ReachGrown(code, max, Leftover(), "a");
    GrownLeftover();
  }

  lemma FoundMissed()
    ensures QueuePosition(Missed(), "a") == 1 && ThreadPosition(Missed(), "a") == 0
  {
    assert "z"[0] != "a"[0];
    FoundAt(Missed(), "a", 1);
    FoundFirst(Missed(), "a");
  }
}
