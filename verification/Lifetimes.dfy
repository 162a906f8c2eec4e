/** From one life of the server to the next: what the termination handler saves and
    `queue_load` reads is a state from which runs may start. */
module Lifetimes {
  import opened Entries
  import opened Scheduler
  import opened SweepTheory
  import opened Reachability
  import opened SchedulerLifecycle
  import opened Saving
  import opened IndexFile
  import opened Reload

  /** What `queue_load` leaves when its sweep begins. */
  function Begin(entries: seq<Entry>): (s: State)
    ensures InRange(s) && Rows(s) == entries
  {
    Loaded(entries).(sweep := Look(0))
  }

  predicate Settled(e: Entry) {
    !Active(e.status) && !e.status.CANCELLED?
  }

  /** A loaded queue is a start exactly when its names are distinct and none of its
      entries is active or CANCELLED. */
  lemma LoadedStartsExact(entries: seq<Entry>)
    ensures Starts(Begin(entries)) <==> Distinct(Names(entries)) && forall i | 0 <= i < |entries| :: Settled(entries[i])
  {
    assert Begin(entries).entries == entries;
  }

  /** The sweep of the load leads to a reachable state in which requests are awaited. */
  lemma LoadedReachable(code: Code, max: nat, entries: seq<Entry>)
    requires Starts(Begin(entries))
    ensures Reachable(code, max, FullSweep(code, max, Loaded(entries)))
    ensures FullSweep(code, max, Loaded(entries)).sweep.Idle?
  {
    ReachStart(code, max, Begin(entries));
    ReachSweep(code, max, Begin(entries));
  }

  // ----- one restart -----

  predicate BasesDistinct(rows: seq<Entry>)
    requires AllSaveable(rows)
  {
    forall i, j | 0 <= i < j < |rows| :: BaseName(rows[i].url) != BaseName(rows[j].url)
  }

  lemma SavedKnown(rows: seq<Entry>)
    requires AllSaveable(rows)
    ensures KnownCodes(ScanRows(Reload.Text(rows)))
    ensures ToEntries(ScanRows(Reload.Text(rows))) == if rows == [] then [NewEntry("", "")] else RenamedRows(rows)
  {
    IndexRoundTrip(rows);
    if rows == [] {
      EmptyFile();
    }
  }

  /** The entries that the next life loads after a save in `s`. */
  function NextLife(s: State): (entries: seq<Entry>)
    requires WellFormed(s) && AllSaveable(Rows(s))
  {
    SavedAtRest(s);
    SavedKnown(SaveFrom(s, 0).1);
    ToEntries(ScanRows(Reload.Text(SaveFrom(s, 0).1)))
  }

  lemma NextLifeEntries(s: State)
    requires WellFormed(s) && AllSaveable(Rows(s))
    ensures AllSaveable(SavedRows(Rows(s)))
    ensures NextLife(s) == if s.queue == [] then [NewEntry("", "")] else RenamedRows(SavedRows(Rows(s)))
  {
    SavedAtRest(s);
    SaveExact(s);
    SavedKnown(SavedRows(Rows(s)));
  }

  lemma RenamedName(rows: seq<Entry>, i: nat)
    requires AllSaveable(rows) && AllSaveable(SavedRows(rows)) && i < |rows|
    ensures Names(RenamedRows(SavedRows(rows)))[i] == BaseName(rows[i].url)
  {
    var saved := SavedRows(rows);
    assert saved[i].url == rows[i].url;
    assert RenamedRows(saved)[i] == Renamed(saved[i]);
  }

  lemma RenamedDistinct(rows: seq<Entry>)
    requires AllSaveable(rows) && AllSaveable(SavedRows(rows))
    ensures Distinct(Names(RenamedRows(SavedRows(rows)))) <==> BasesDistinct(rows)
  {
    var names := Names(RenamedRows(SavedRows(rows)));
    forall i | 0 <= i < |rows|
      ensures names[i] == BaseName(rows[i].url)
    {
      RenamedName(rows, i);
    }
  }

  lemma RenamedSettled(rows: seq<Entry>)
    requires AllSaveable(SavedRows(rows)) && forall i | 0 <= i < |rows| :: !rows[i].status.CANCELLED?
    ensures forall i | 0 <= i < |rows| :: Settled(RenamedRows(SavedRows(rows))[i])
  {
  }

  lemma RenamedStartsExact(rows: seq<Entry>, entries: seq<Entry>)
    requires AllSaveable(rows) && AllSaveable(SavedRows(rows))
    requires forall i | 0 <= i < |rows| :: !rows[i].status.CANCELLED?
    requires entries == if rows == [] then [NewEntry("", "")] else RenamedRows(SavedRows(rows))
    ensures Starts(Begin(entries)) <==> BasesDistinct(rows)
  {
    LoadedStartsExact(entries);
    if rows != [] {
      RenamedDistinct(rows);
      RenamedSettled(rows);
    }
  }

  lemma RowsNotCancelled(code: Code, max: nat, s: State)
    requires Reachable(code, max, s) && WellFormed(s)
    ensures forall i | 0 <= i < |s.queue| :: !Rows(s)[i].status.CANCELLED?
  {
    ReachNotCancelled(code, max, s);
  }

  /** A run cut short anywhere by a save, whatever the code: the next life begins in
      a start exactly when the base names of the queued URLs are distinct. */
  lemma ReloadStartsExact(code: Code, max: nat, s: State)
    requires Reachable(code, max, s) && WellFormed(s) && AllSaveable(Rows(s))
    ensures Starts(Begin(NextLife(s))) <==> BasesDistinct(Rows(s))
  {
    NextLifeEntries(s);
    RowsNotCancelled(code, max, s);
    RenamedStartsExact(Rows(s), NextLife(s));
  }

  // ----- any number of restarts -----

  /** Each life runs some steps, and is then saved and loaded again. */
  ghost predicate Lives(code: Code, max: nat, start: State, lives: seq<seq<Step>>)
    requires InRange(start)
    decreases |lives|
  {
    lives == [] ||
    var s := Run(code, max, start, lives[0]);
    WellFormed(s) && AllSaveable(Rows(s)) && BasesDistinct(Rows(s)) && Lives(code, max, Begin(NextLife(s)), lives[1..])
  }

  ghost function LastBegin(code: Code, max: nat, start: State, lives: seq<seq<Step>>): (s: State)
    requires InRange(start) && Lives(code, max, start, lives)
    ensures InRange(s)
    decreases |lives|
  {
    if lives == [] then start
    else LastBegin(code, max, Begin(NextLife(Run(code, max, start, lives[0]))), lives[1..])
  }

  /** Across any number of restarts every life begins in a start, so what holds of
      all reachable states holds in all of them. */
  lemma {:induction false} LivesStart(code: Code, max: nat, start: State, lives: seq<seq<Step>>)
    requires Starts(start) && Lives(code, max, start, lives)
    ensures Starts(LastBegin(code, max, start, lives))
    decreases |lives|
  {
    if lives != [] {
      var s := Run(code, max, start, lives[0]);
      ReachStart(code, max, start);
      ReachRun(code, max, start, lives[0]);
      ReloadStartsExact(code, max, s);
      LivesStart(code, max, Begin(NextLife(s)), lives[1..]);
    }
  }
}
