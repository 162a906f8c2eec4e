/** Saving the queue to the index file and loading it again, sweep included. */
module Reload {
  import opened Entries
  import opened LinkedLists
  import opened Scheduler
  import opened SchedulerAgreement
  import opened SweepTheory
  import opened Saving
  import opened IndexFile
  import Scanning

  // ----- entries and rows -----

  /** An entry whose line can be read back: its URL has a base name that fits. */
  predicate Saveable(e: Entry) {
    && HasName(e.url) && Scanning.NoSpace(e.url)
    && 0 < |BaseName(e.url)| <= 255
  }

  predicate AllSaveable(rows: seq<Entry>) {
    forall i | 0 <= i < |rows| :: Saveable(rows[i])
  }

  function ToRows(rows: seq<Entry>): (r: seq<Row>)
    requires AllSaveable(rows)
    ensures |r| == |rows| && forall i | 0 <= i < |r| :: r[i] == ToRow(rows[i])
  {
    seq(|rows|, i requires 0 <= i < |rows| => ToRow(rows[i]))
  }

  predicate KnownCodes(rows: seq<Row>) {
    forall i | 0 <= i < |rows| :: 0 <= rows[i].code < 6
  }

  function ToEntries(rows: seq<Row>): (r: seq<Entry>)
    requires KnownCodes(rows)
    ensures |r| == |rows| && forall i | 0 <= i < |r| :: r[i] == ToEntry(rows[i])
  {
    seq(|rows|, i requires 0 <= i < |rows| => ToEntry(rows[i]))
  }

  function RenamedRows(rows: seq<Entry>): (r: seq<Entry>)
    requires AllSaveable(rows)
    ensures |r| == |rows| && forall i | 0 <= i < |r| :: r[i] == Renamed(rows[i])
  {
    seq(|rows|, i requires 0 <= i < |rows| => Renamed(rows[i]))
  }

  lemma NoSpaceBehind(s: string, n: nat)
    requires n <= |s| && Scanning.NoSpace(s)
    ensures Scanning.NoSpace(s[n..])
  {
  }

  lemma SaveableRow(e: Entry)
    requires Saveable(e)
    ensures Readable(ToRow(e)) && Saveable(Renamed(e)) && ToRow(Renamed(e)) == ToRow(e)
            && ToEntry(ToRow(e)) == Renamed(e)
  {
    NoSpaceBehind(e.url, LastSlash(e.url, |e.url|) + 1);
  }

  function Text(rows: seq<Entry>): string
    requires AllSaveable(rows)
  {
    PrintRows(ToRows(rows))
  }

  /** Reading a written file back gives the entries again, renamed after the last
      part of their URLs: for every non-empty queue, and only then. */
  lemma IndexRoundTrip(rows: seq<Entry>)
    requires AllSaveable(rows)
    ensures var read := ScanRows(Text(rows));
            KnownCodes(read) && (ToEntries(read) == RenamedRows(rows) <==> rows != [])
  {
    forall i | 0 <= i < |rows|
      ensures Readable(ToRows(rows)[i]) && ToEntry(ToRows(rows)[i]) == Renamed(rows[i])
    {
      SaveableRow(rows[i]);
    }
    RowsReadBack(ToRows(rows));
  }

  // ----- loading -----

  function Upto(n: nat): (r: seq<nat>)
    ensures |r| == n && forall i | 0 <= i < n :: r[i] == i
  {
    seq(n, i => i)
  }

  /** The queue that `queue_load` builds before its sweep. */
  function Loaded(entries: seq<Entry>): (s: State)
    ensures InRange(s) && Rows(s) == entries && WellFormedQueue(s)
    ensures s.entries == entries && s.threads == [] && s.sweep == Idle
  {
    State(entries, Upto(|entries|), [], Idle)
  }

  /** After loading, names are distinct exactly when base names are: two downloads
      of the same file name from different places collide. */
  lemma LoadedNamesExact(rows: seq<Entry>)
    requires AllSaveable(rows)
    ensures WellFormed(Loaded(RenamedRows(rows)))
            <==> forall i, j | 0 <= i < j < |rows| :: BaseName(rows[i].url) != BaseName(rows[j].url)
  {
    var names := Names(RenamedRows(rows));
    assert forall i | 0 <= i < |rows| :: names[i] == BaseName(rows[i].url);
  }

  // ----- saving after a load and its sweep -----

  /** The active entries from `i` on, in queue order. */
  function ActiveRefs(queue: seq<nat>, rows: seq<Entry>, i: nat): seq<nat>
    requires i <= |queue| == |rows|
    decreases |queue| - i
  {
    if i == |queue| then []
    else (if Active(rows[i].status) then [queue[i]] else []) + ActiveRefs(queue, rows, i + 1)
  }

  predicate AllAtRest(rows: seq<Entry>) {
    forall i | 0 <= i < |rows| :: !Active(rows[i].status)
  }

  lemma TargetsAppend(a: seq<Thread>, b: seq<Thread>)
    ensures Targets(a + b) == Targets(a) + Targets(b)
  {
  }

  lemma Associate<X>(a: seq<X>, b: seq<X>, c: seq<X>)
    ensures a + b + c == a + (b + c)
  {
  }

  lemma NewTarget(both: bool, max: nat, s: State, i: nat)
    requires InRange(s) && i < |s.queue|
    ensures Targets(NewThreads(both, max, s, i + 1))
            == Targets(NewThreads(both, max, s, i))
               + if Moves(both, max, Statuses(Rows(s)), i) then [s.queue[i]] else []
  {
    var next := if Moves(both, max, Statuses(Rows(s)), i) then [Thread(s.queue[i], Created)] else [];
    TargetsAppend(NewThreads(both, max, s, i), next);
  }

  lemma {:induction false} SweepRecords(both: bool, max: nat, s: State, after: seq<Entry>, i: nat)
    requires InRange(s) && i <= |s.queue| == |after|
    requires forall j | 0 <= j < |after| :: Active(after[j].status) <==> Moves(both, max, Statuses(Rows(s)), j)
    ensures Targets(NewThreads(both, max, s, i)) + ActiveRefs(s.queue, after, i)
            == Targets(NewThreads(both, max, s, |s.queue|))
    decreases |s.queue| - i
  {
    if i < |s.queue| {
      SweepRecords(both, max, s, after, i + 1);
      NewTarget(both, max, s, i);
      var target := if Active(after[i].status) then [s.queue[i]] else [];
      Associate(Targets(NewThreads(both, max, s, i)), target, ActiveRefs(s.queue, after, i + 1));
    }
  }

  lemma {:induction false} ActiveRefsFrame(queue: seq<nat>, a: seq<Entry>, b: seq<Entry>, i: nat)
    requires i <= |queue| == |a| == |b| && forall j | i <= j < |a| :: Active(a[j].status) <==> Active(b[j].status)
    ensures ActiveRefs(queue, a, i) == ActiveRefs(queue, b, i)
    decreases |queue| - i
  {
    if i < |queue| {
      ActiveRefsFrame(queue, a, b, i + 1);
    }
  }

  /** From element `i` on the records are those of the active entries, in queue order. */
  ghost predicate InOrder(t: State, i: nat) {
    WellFormedQueue(t) && i <= |t.queue| && Targets(t.threads) == ActiveRefs(t.queue, Rows(t), i)
  }

  /** When the records are in queue order, putting an entry to rest takes the first. */
  lemma SaveInOrderStep(t: State, i: nat)
    requires InOrder(t, i) && i < |t.queue|
    ensures var u := SaveEntry(t, i);
            Rows(u) == Rows(t)[i := AtRest(Rows(t)[i])] && Targets(u.threads) == ActiveRefs(t.queue, Rows(t), i + 1)
  {
    var e := t.queue[i];
    if Active(t.entries[e].status) {
      assert Targets(t.threads)[0] == e;
      FoundFirst(t, t.entries[e].name);
      assert RemoveAt(t.threads, 0) == t.threads[1..];
      assert Targets(t.threads[1..]) == Targets(t.threads)[1..];
    }
  }

  lemma SaveInOrderNext(t: State, u: State, i: nat)
    requires WellFormedQueue(t) && i < |t.queue| && InRange(u) && u.queue == t.queue
    requires Rows(u) == Rows(t)[i := AtRest(Rows(t)[i])] && Targets(u.threads) == ActiveRefs(t.queue, Rows(t), i + 1)
    ensures InOrder(u, i + 1)
    ensures u.entries[u.queue[i]] == AtRest(Rows(t)[i])
  {
    ActiveRefsFrame(t.queue, Rows(t), Rows(u), i + 1);
    assert u.entries[u.queue[i]] == Rows(u)[i];
  }

  lemma SavedTail(rows: seq<Entry>, i: nat)
    requires i < |rows|
    ensures SavedRows(rows)[i..] == [AtRest(rows[i])] + SavedRows(rows[i := AtRest(rows[i])])[i + 1..]
  {
  }

  lemma {:induction false} SaveInOrder(t: State, i: nat)
    requires InOrder(t, i)
    ensures SaveFrom(t, i).1 == SavedRows(Rows(t))[i..]
    decreases |t.queue| - i
  {
    if i < |t.queue| {
      var u := SaveEntry(t, i);
      SaveInOrderStep(t, i);
      SaveInOrderNext(t, u, i);
      SaveInOrder(u, i + 1);
      SaveFromNext(t, i);
      SavedTail(Rows(t), i);
    }
  }

  /** Sweeping entries at rest and putting them to rest again changes nothing. */
  lemma PromotedAtRest(both: bool, max: nat, rows: seq<Entry>)
    requires AllAtRest(rows)
    ensures SavedRows(Promoted(both, max, rows, |rows|)) == rows
    ensures forall j | 0 <= j < |rows| ::
              Active(Promoted(both, max, rows, |rows|)[j].status) <==> Moves(both, max, Statuses(rows), j)
  {
  }

  /** A state in which a save would print `entries`. */
  ghost predicate Prints(t: State, entries: seq<Entry>) {
    InOrder(t, 0) && SavedRows(Rows(t)) == entries
  }

  lemma SweptPrints(code: Code, max: nat, entries: seq<Entry>)
    requires AllAtRest(entries)
    ensures Prints(FullSweep(code, max, Loaded(entries)), entries)
  {
    var s := Loaded(entries);
    var t := FullSweep(code, max, s);
    FullSweepExact(code, max, s);
    PromotedAtRest(code.countStarting, max, entries);
    SweepRecords(code.countStarting, max, s, Rows(t), 0);
    TargetsAppend([], NewThreads(code.countStarting, max, s, |s.queue|));
    assert s.threads + NewThreads(code.countStarting, max, s, |s.queue|)
           == NewThreads(code.countStarting, max, s, |s.queue|);
  }

  predicate OnlyStarts(steps: seq<Step>) {
    forall i | 0 <= i < |steps| :: steps[i].Working? && steps[i].work.Start?
  }

  lemma {:induction false} ActiveRefsActive(queue: seq<nat>, rows: seq<Entry>, i: nat, e: nat)
    requires i <= |queue| == |rows| && e in ActiveRefs(queue, rows, i)
    ensures exists j :: i <= j < |queue| && queue[j] == e && Active(rows[j].status)
    decreases |queue| - i
  {
    if !(Active(rows[i].status) && queue[i] == e) {
      ActiveRefsActive(queue, rows, i + 1, e);
    }
  }

  /** A worker that starts turns STARTING into STARTED, which is saved alike. */
  lemma StartPrints(code: Code, t: State, k: nat, entries: seq<Entry>)
    requires Prints(t, entries)
    ensures Prints(WorkerStep(code, t, k, Start), entries)
  {
    var u := WorkerStep(code, t, k, Start);
    if k < |t.threads| && t.threads[k].phase.Created? {
      assert Targets(t.threads)[k] == t.threads[k].entry;
      ActiveRefsActive(t.queue, Rows(t), 0, t.threads[k].entry);
      assert Targets(u.threads) == Targets(t.threads);
      ActiveRefsFrame(t.queue, Rows(t), Rows(u), 0);
      assert SavedRows(Rows(u)) == SavedRows(Rows(t));
    }
  }

  lemma {:induction false} StartsPrint(code: Code, max: nat, t: State, steps: seq<Step>, entries: seq<Entry>)
    requires Prints(t, entries) && OnlyStarts(steps)
    ensures Prints(Run(code, max, t, steps), entries)
    decreases |steps|
  {
    if steps != [] {
      assert steps[0].Working? && steps[0].work.Start?;
      StartPrints(code, t, steps[0].k, entries);
      StartsPrint(code, max, Next(code, max, t, steps[0]), steps[1..], entries);
    }
  }

  /** A save after the sweep of a load prints the entries as they were loaded, also
      when names collide, and whichever of the workers have started. */
  lemma SaveUndoesSweep(code: Code, max: nat, entries: seq<Entry>, steps: seq<Step>)
    requires AllAtRest(entries) && OnlyStarts(steps)
    ensures SaveFrom(Run(code, max, FullSweep(code, max, Loaded(entries)), steps), 0).1 == entries
  {
    var t := FullSweep(code, max, Loaded(entries));
    SweptPrints(code, max, entries);
    StartsPrint(code, max, t, steps, entries);
    SaveInOrder(Run(code, max, t, steps), 0);
  }

  lemma RowsAtRest(rows: seq<Entry>)
    requires AllSaveable(rows)
    ensures AllSaveable(SavedRows(rows)) && AllAtRest(SavedRows(rows))
  {
  }

  lemma SavedAtRest(s: State)
    requires WellFormed(s) && AllSaveable(Rows(s))
    ensures AllSaveable(SaveFrom(s, 0).1) && AllAtRest(SaveFrom(s, 0).1) && |SaveFrom(s, 0).1| == |s.queue|
  {
    SaveExact(s);
    RowsAtRest(Rows(s));
  }

  /** The second save, on the entries that were loaded. */
  lemma SecondSave(code: Code, max: nat, rows: seq<Entry>, loaded: seq<Entry>, steps: seq<Step>)
    requires AllSaveable(rows) && AllAtRest(rows) && loaded == RenamedRows(rows) && OnlyStarts(steps)
    ensures var again := SaveFrom(Run(code, max, FullSweep(code, max, Loaded(loaded)), steps), 0).1;
            AllSaveable(again) && Text(again) == Text(rows)
  {
    SaveUndoesSweep(code, max, loaded, steps);
    SameText(rows);
  }

  /** Save, load with its sweep, save again: the second file is the first, for every
      code, when something was saved, and workers have at most begun in between. */
  lemma SaveLoadSave(code: Code, max: nat, s: State, read: seq<Row>, steps: seq<Step>)
    requires WellFormed(s) && s.queue != [] && AllSaveable(Rows(s)) && OnlyStarts(steps)
    requires AllSaveable(SaveFrom(s, 0).1) ==> read == ScanRows(Text(SaveFrom(s, 0).1))
    ensures AllSaveable(SaveFrom(s, 0).1) && KnownCodes(read)
    ensures var again := SaveFrom(Run(code, max, FullSweep(code, max, Loaded(ToEntries(read))), steps), 0).1;
            AllSaveable(again) && Text(again) == Text(SaveFrom(s, 0).1)
  {
    var rows := SaveFrom(s, 0).1;
    SavedAtRest(s);
    IndexRoundTrip(rows);
    SecondSave(code, max, rows, ToEntries(read), steps);
  }

  /** Renaming does not show in the file. */
  lemma SameText(rows: seq<Entry>)
    requires AllSaveable(rows)
    ensures AllSaveable(RenamedRows(rows)) && Text(RenamedRows(rows)) == Text(rows)
  {
    forall i | 0 <= i < |rows|
      ensures Saveable(RenamedRows(rows)[i]) && ToRow(RenamedRows(rows)[i]) == ToRow(rows[i])
    {
      SaveableRow(rows[i]);
    }
    assert ToRows(RenamedRows(rows)) == ToRows(rows);
  }

  lemma LoneSweep(code: Code, max: nat, rows: seq<Entry>)
    requires max > 0 && |rows| == 1 && rows[0].status.WAITING?
    ensures |FullSweep(code, max, Loaded(rows)).threads| == 1
  {
    var s := Loaded(rows);
    var statuses := Statuses(Rows(s));
    FullSweepExact(code, max, s);
    assert Tally(statuses[..0], code.countStarting) == 0;
    assert Moves(code.countStarting, max, statuses, 0);
    assert NewThreads(code.countStarting, max, s, 1) == [] + [Thread(0, Created)];
  }

  lemma BlankEntry()
    ensures KnownCodes([BLANK]) && ToEntries([BLANK]) == [NewEntry("", "")]
  {
  }

  lemma EmptyText()
    ensures Text([]) == ""
  {
    assert ToRows([]) == [];
  }

  /** An empty queue saves an empty file, which loads as one blank entry, and the
      sweep starts a worker for it. */
  lemma EmptyFileStartsBlank(code: Code, max: nat)
    requires max > 0
    ensures ScanRows(Text([])) == [BLANK] && ToEntries([BLANK]) == [NewEntry("", "")]
    ensures |FullSweep(code, max, Loaded([NewEntry("", "")])).threads| == 1
  {
    EmptyText();
    EmptyFile();
    BlankEntry();
    var rows := [NewEntry("", "")];
    LoneSweep(code, max, rows);
  }
}
