/** An uninterrupted sweep: `list_for_each(download_queue, queue_update, NULL)`
    with no worker step in between. */
module SweepTheory {
  import opened Entries
  import opened LinkedLists
  import opened Scheduler

  // ----- counting -----

  predicate Counts(both: bool, status: Status) {
    status.STARTED? || (both && status.STARTING?)
  }

  /** The number of STARTED entries, or of STARTING and STARTED ones. */
  function Tally(statuses: seq<Status>, both: bool): (n: nat)
    ensures n <= |statuses|
  {
    if statuses == [] then 0
    else Tally(statuses[..|statuses| - 1], both) + if Counts(both, statuses[|statuses| - 1]) then 1 else 0
  }

  function Waiting(statuses: seq<Status>): (n: nat) {
    if statuses == [] then 0
    else Waiting(statuses[..|statuses| - 1]) + if statuses[|statuses| - 1].WAITING? then 1 else 0
  }

  lemma {:induction false} TallyUpdate(statuses: seq<Status>, both: bool, p: nat, status: Status)
    requires p < |statuses|
    ensures Tally(statuses[p := status], both)
            == Tally(statuses, both)
               - (if Counts(both, statuses[p]) then 1 else 0) + (if Counts(both, status) then 1 else 0)
  {
    var n := |statuses| - 1;
    if p < n {
      assert statuses[p := status][..n] == statuses[..n][p := status];
      TallyUpdate(statuses[..n], both, p, status);
    } else {
      assert statuses[p := status][..n] == statuses[..n];
    }
  }

  lemma {:induction false} TallyMonotone(a: seq<Status>, b: seq<Status>, both: bool)
    requires |a| == |b| && forall i | 0 <= i < |a| && Counts(both, a[i]) :: Counts(both, b[i])
    ensures Tally(a, both) <= Tally(b, both)
  {
    if a != [] {
      TallyMonotone(a[..|a| - 1], b[..|b| - 1], both);
    }
  }

  lemma {:induction false} TallyRemove(s: seq<Status>, both: bool, p: nat)
    requires p < |s|
    ensures Tally(RemoveAt(s, p), both) <= Tally(s, both)
  {
    var r, n := RemoveAt(s, p), |s| - 1;
    if p < n {
      assert r[..n - 1] == RemoveAt(s[..n], p);
      TallyRemove(s[..n], both, p);
    } else {
      assert r == s[..n];
    }
  }

  // ----- the uninterrupted sweep -----

  function QueueTally(s: State, both: bool): nat
    requires InRange(s)
  {
    Tally(Statuses(Rows(s)), both)
  }

  /** One `queue_update`, at the element the cursor looks at. */
  function UpdateEntry(code: Code, max: nat, s: State): (r: State)
    requires InRange(s) && s.sweep.Look? && s.sweep.i < |s.queue|
    ensures InRange(r) && r.queue == s.queue && r.sweep == Look(s.sweep.i + 1)
  {
    var e := s.queue[s.sweep.i];
    var updated :=
      if s.entries[e].status.WAITING? && QueueTally(s, code.countStarting) < max
      then DownloadStart(SetStatus(s, e, STARTING), e)
      else s;
    updated.(sweep := Look(s.sweep.i + 1))
  }

  function SweepFrom(code: Code, max: nat, s: State): (r: State)
    requires InRange(s) && s.sweep.Look?
    ensures InRange(r) && r.queue == s.queue && r.sweep.Idle?
    decreases |s.queue| - s.sweep.i
  {
    if s.sweep.i == |s.queue| then s.(sweep := Idle) else SweepFrom(code, max, UpdateEntry(code, max, s))
  }

  function FullSweep(code: Code, max: nat, s: State): (r: State)
    requires InRange(s)
    ensures InRange(r) && r.queue == s.queue && r.sweep.Idle?
  {
    SweepFrom(code, max, s.(sweep := Look(0)))
  }

  // ----- the small steps take the uninterrupted sweep's way -----

  function SweepSteps(code: Code, max: nat, s: State, n: nat): (r: State)
    requires InRange(s)
    ensures InRange(r)
    decreases n
  {
    if n == 0 then s else SweepSteps(code, max, SweepStep(code, max, s), n - 1)
  }

  lemma {:induction false} SweepStepsAppend(code: Code, max: nat, s: State, m: nat, n: nat)
    requires InRange(s)
    ensures SweepSteps(code, max, s, m + n) == SweepSteps(code, max, SweepSteps(code, max, s, m), n)
    decreases m
  {
    if m > 0 {
      SweepStepsAppend(code, max, SweepStep(code, max, s), m - 1, n);
    }
  }

  lemma {:induction false} SweepStepsRun(code: Code, max: nat, s: State, n: nat)
    requires InRange(s)
    ensures SweepSteps(code, max, s, n) == Run(code, max, s, seq(n, _ => Sweeping))
    decreases n
  {
    if n > 0 {
      SweepStepsRun(code, max, SweepStep(code, max, s), n - 1);
      assert seq(n, _ => Sweeping)[1..] == seq(n - 1, _ => Sweeping);
    }
  }

  lemma SweepStepsJoin(code: Code, max: nat, s: State, m: nat, t: State, k: nat, u: State, n: nat)
    requires InRange(s) && InRange(t) && n == m + k
    requires SweepSteps(code, max, s, m) == t && SweepSteps(code, max, t, k) == u
    ensures SweepSteps(code, max, s, n) == u
  {
    SweepStepsAppend(code, max, s, m, k);
  }

  lemma CountStep(code: Code, max: nat, s: State, i: nat, j: nat)
    requires InRange(s) && i < |s.queue| && j < |s.queue|
    requires s.sweep == Count(i, j, Tally(Statuses(Rows(s))[..j], code.countStarting))
    ensures SweepStep(code, max, s)
            == s.(sweep := Count(i, j + 1, Tally(Statuses(Rows(s))[..j + 1], code.countStarting)))
  {
    var statuses := Statuses(Rows(s));
    assert statuses[..j + 1][..j] == statuses[..j];
  }

  lemma {:induction false} CountRun(code: Code, max: nat, s: State, i: nat, j: nat)
    requires InRange(s) && i < |s.queue| && j <= |s.queue|
    requires s.sweep == Count(i, j, Tally(Statuses(Rows(s))[..j], code.countStarting))
    ensures SweepSteps(code, max, s, |s.queue| - j)
            == s.(sweep := Count(i, |s.queue|, QueueTally(s, code.countStarting)))
    decreases |s.queue| - j
  {
    var statuses := Statuses(Rows(s));
    if j == |s.queue| {
      assert statuses[..j] == statuses;
    } else {
      CountStep(code, max, s, i, j);
      CountRun(code, max, SweepStep(code, max, s), i, j + 1);
    }
  }

  lemma OneStep(code: Code, max: nat, s: State)
    requires InRange(s)
    ensures SweepSteps(code, max, s, 1) == SweepStep(code, max, s)
  {
    assert SweepSteps(code, max, SweepStep(code, max, s), 0) == SweepStep(code, max, s);
  }

  /** The end of a `queue_update`, once the count is complete. */
  lemma DecisionRun(code: Code, max: nat, s: State, i: nat) returns (n: nat)
    requires InRange(s) && i < |s.queue| && s.entries[s.queue[i]].status.WAITING?
    requires s.sweep == Count(i, |s.queue|, QueueTally(s, code.countStarting))
    ensures SweepSteps(code, max, s, n) == UpdateEntry(code, max, s.(sweep := Look(i)))
  {
    var t := SweepStep(code, max, s);
    OneStep(code, max, s);
    n := 1;
    if !t.sweep.Look? {
      OneStep(code, max, t);
      SweepStepsAppend(code, max, s, 1, 1);
      n := 2;
    }
  }

  lemma WaitingRun(code: Code, max: nat, s: State, i: nat)
    requires InRange(s) && i < |s.queue| && s.sweep == Look(i) && s.entries[s.queue[i]].status.WAITING?
    ensures SweepSteps(code, max, s, 1 + |s.queue|)
            == s.(sweep := Count(i, |s.queue|, QueueTally(s, code.countStarting)))
  {
    var t := SweepStep(code, max, s);
    OneStep(code, max, s);
    assert t == s.(sweep := Count(i, 0, 0));
    assert Tally(Statuses(Rows(t))[..0], code.countStarting) == 0;
    CountRun(code, max, t, i, 0);
    SweepStepsAppend(code, max, s, 1, |s.queue|);
  }

  lemma CountedEntryRun(code: Code, max: nat, s: State, counted: State, i: nat) returns (m: nat)
    requires InRange(s) && i < |s.queue| && s.sweep == Look(i) && s.entries[s.queue[i]].status.WAITING?
    requires counted == s.(sweep := Count(i, |s.queue|, QueueTally(s, code.countStarting)))
    ensures SweepSteps(code, max, counted, m) == UpdateEntry(code, max, s)
  {
    m := DecisionRun(code, max, counted, i);
    assert counted.(sweep := Look(i)) == s;
  }

  lemma WaitingEntryRun(code: Code, max: nat, s: State, i: nat) returns (n: nat)
    requires InRange(s) && i < |s.queue| && s.sweep == Look(i) && s.entries[s.queue[i]].status.WAITING?
    ensures SweepSteps(code, max, s, n) == UpdateEntry(code, max, s)
  {
    var counted := s.(sweep := Count(i, |s.queue|, QueueTally(s, code.countStarting)));
    var m := CountedEntryRun(code, max, s, counted, i);
    n := 1 + |s.queue| + m;
    WaitingRun(code, max, s, i);
    SweepStepsJoin(code, max, s, 1 + |s.queue|, counted, m, UpdateEntry(code, max, s), n);
  }

  /** Some number of sweep steps has the effect of one `queue_update`. */
  lemma EntryRun(code: Code, max: nat, s: State) returns (n: nat)
    requires InRange(s) && s.sweep.Look? && s.sweep.i < |s.queue|
    ensures SweepSteps(code, max, s, n) == UpdateEntry(code, max, s)
  {
    var i := s.sweep.i;
    if !s.entries[s.queue[i]].status.WAITING? {
      OneStep(code, max, s);
      n := 1;
    } else {
      n := WaitingEntryRun(code, max, s, i);
    }
  }

  lemma SweepRunLast(code: Code, max: nat, s: State, swept: State)
    requires InRange(s) && s.sweep == Look(|s.queue|) && swept == SweepFrom(code, max, s)
    ensures SweepSteps(code, max, s, 1) == swept
  {
    OneStep(code, max, s);
  }

  lemma SweepRunFirst(code: Code, max: nat, s: State, swept: State) returns (t: State, m: nat)
    requires InRange(s) && s.sweep.Look? && s.sweep.i < |s.queue| && swept == SweepFrom(code, max, s)
    ensures SweepSteps(code, max, s, m) == t && InRange(t)
    ensures t.queue == s.queue && t.sweep == Look(s.sweep.i + 1) && swept == SweepFrom(code, max, t)
  {
    m := EntryRun(code, max, s);
    t := UpdateEntry(code, max, s);
  }

  lemma {:induction false} SweepRunTo(code: Code, max: nat, s: State, swept: State) returns (n: nat)
    requires InRange(s) && s.sweep.Look? && swept == SweepFrom(code, max, s)
    ensures SweepSteps(code, max, s, n) == swept
    decreases |s.queue| - s.sweep.i
  {
    if s.sweep.i == |s.queue| {
      SweepRunLast(code, max, s, swept);
      n := 1;
    } else {
      var t, m := SweepRunFirst(code, max, s, swept);
      var k := SweepRunTo(code, max, t, swept);
      n := m + k;
      SweepStepsJoin(code, max, s, m, t, k, swept, n);
    }
  }

  /** The fine-grained sweep, when no worker interferes, is the uninterrupted sweep. */
  lemma SweepRun(code: Code, max: nat, s: State) returns (n: nat)
    requires InRange(s) && s.sweep.Look?
    ensures SweepSteps(code, max, s, n) == SweepFrom(code, max, s)
  {
    n := SweepRunTo(code, max, s, SweepFrom(code, max, s));
  }

  // ----- what an uninterrupted sweep does, in closed form -----

  /** The count a sweep finds when it comes to element `i`. */
  function CountAt(both: bool, max: nat, statuses: seq<Status>, i: nat): nat
    requires i <= |statuses|
  {
    var count, waiting := Tally(statuses, both), Waiting(statuses[..i]);
    if !both || max <= count then count
    else if count + waiting <= max then count + waiting else max
  }

  predicate Moves(both: bool, max: nat, statuses: seq<Status>, i: nat)
    requires i < |statuses|
  {
    statuses[i].WAITING? && Tally(statuses, both) + (if both then Waiting(statuses[..i]) else 0) < max
  }

  function NewThreads(both: bool, max: nat, s: State, i: nat): seq<Thread>
    requires InRange(s) && i <= |s.queue|
  {
    if i == 0 then []
    else
      NewThreads(both, max, s, i - 1)
      + if Moves(both, max, Statuses(Rows(s)), i - 1) then [Thread(s.queue[i - 1], Created)] else []
  }

  /** The rows after the sweep has passed the first `i` elements. */
  function Promoted(both: bool, max: nat, rows: seq<Entry>, i: nat): (r: seq<Entry>)
    requires i <= |rows|
    ensures |r| == |rows|
    ensures forall j | 0 <= j < |rows| :: r[j] ==
              if j < i && Moves(both, max, Statuses(rows), j) then rows[j].(status := STARTING) else rows[j]
  {
    seq(|rows|, j requires 0 <= j < |rows| =>
      if j < i && Moves(both, max, Statuses(rows), j) then rows[j].(status := STARTING) else rows[j])
  }

  /** `t` is `s` after the sweep has passed the first `i` elements. */
  ghost predicate Swept(both: bool, max: nat, s: State, t: State, i: nat)
    requires InRange(s) && i <= |s.queue|
  {
    && InRange(t) && t.queue == s.queue && |t.entries| == |s.entries|
    && (forall e | 0 <= e < |s.entries| && e !in s.queue :: t.entries[e] == s.entries[e])
    && Rows(t) == Promoted(both, max, Rows(s), i)
    && t.threads == s.threads + NewThreads(both, max, s, i)
  }

  predicate WellFormedQueue(s: State) {
    InRange(s) && Distinct(s.queue)
  }

  lemma UpdateEntryRows(code: Code, max: nat, t: State, i: nat)
    requires WellFormedQueue(t) && t.sweep == Look(i) && i < |t.queue|
    ensures var u := UpdateEntry(code, max, t);
            Rows(u) == if Rows(t)[i].status.WAITING? && QueueTally(t, code.countStarting) < max
                       then Rows(t)[i := Rows(t)[i].(status := STARTING)] else Rows(t)
    ensures var u := UpdateEntry(code, max, t);
            Statuses(Rows(u)) == if Rows(t)[i].status.WAITING? && QueueTally(t, code.countStarting) < max
                                 then Statuses(Rows(t))[i := STARTING] else Statuses(Rows(t))
  {
  }

  lemma CountAtNext(both: bool, max: nat, statuses: seq<Status>, i: nat)
    requires i < |statuses|
    ensures Moves(both, max, statuses, i) <==> statuses[i].WAITING? && CountAt(both, max, statuses, i) < max
    ensures CountAt(both, max, statuses, i + 1)
            == CountAt(both, max, statuses, i) + if both && Moves(both, max, statuses, i) then 1 else 0
  {
    assert statuses[..i + 1][..i] == statuses[..i];
  }

  lemma PromotedNext(both: bool, max: nat, rows: seq<Entry>, i: nat)
    requires i < |rows|
    ensures Promoted(both, max, rows, i + 1) ==
            if Moves(both, max, Statuses(rows), i)
            then Promoted(both, max, rows, i)[i := rows[i].(status := STARTING)] else Promoted(both, max, rows, i)
    ensures Promoted(both, max, rows, i)[i] == rows[i]
  {
  }

  lemma UpdateEntryFrame(code: Code, max: nat, t: State, i: nat)
    requires InRange(t) && t.sweep == Look(i) && i < |t.queue|
    ensures var u := UpdateEntry(code, max, t);
            && |u.entries| == |t.entries|
            && (forall e | 0 <= e < |t.entries| && e !in t.queue :: u.entries[e] == t.entries[e])
            && u.threads == t.threads + if Rows(t)[i].status.WAITING? && QueueTally(t, code.countStarting) < max
                                        then [Thread(t.queue[i], Created)] else []
  {
  }

  lemma SweptNext(both: bool, max: nat, s: State, t: State, u: State, i: nat)
    requires InRange(s) && i < |s.queue| && Swept(both, max, s, t, i)
    requires InRange(u) && u.queue == t.queue && |u.entries| == |t.entries|
    requires forall e | 0 <= e < |t.entries| && e !in t.queue :: u.entries[e] == t.entries[e]
    requires var moves := Moves(both, max, Statuses(Rows(s)), i);
             && Rows(u) == (if moves then Rows(t)[i := Rows(t)[i].(status := STARTING)] else Rows(t))
             && u.threads == t.threads + if moves then [Thread(s.queue[i], Created)] else []
    ensures Swept(both, max, s, u, i + 1)
  {
    PromotedNext(both, max, Rows(s), i);
  }

  lemma UpdateEntrySwept(code: Code, max: nat, s: State, t: State, i: nat)
    requires WellFormedQueue(s) && t.sweep == Look(i) && i < |s.queue| && Swept(code.countStarting, max, s, t, i)
    requires QueueTally(t, code.countStarting) == CountAt(code.countStarting, max, Statuses(Rows(s)), i)
    ensures Swept(code.countStarting, max, s, UpdateEntry(code, max, t), i + 1)
  {
    UpdateEntryRows(code, max, t, i);
    UpdateEntryFrame(code, max, t, i);
    CountAtNext(code.countStarting, max, Statuses(Rows(s)), i);
    PromotedNext(code.countStarting, max, Rows(s), i);
    SweptNext(code.countStarting, max, s, t, UpdateEntry(code, max, t), i);
  }

  lemma UpdateEntryTally(code: Code, max: nat, s: State, t: State, i: nat)
    requires WellFormedQueue(s) && t.sweep == Look(i) && i < |s.queue| && Swept(code.countStarting, max, s, t, i)
    requires QueueTally(t, code.countStarting) == CountAt(code.countStarting, max, Statuses(Rows(s)), i)
    ensures QueueTally(UpdateEntry(code, max, t), code.countStarting)
            == CountAt(code.countStarting, max, Statuses(Rows(s)), i + 1)
  {
    UpdateEntryRows(code, max, t, i);
    CountAtNext(code.countStarting, max, Statuses(Rows(s)), i);
    PromotedNext(code.countStarting, max, Rows(s), i);
    TallyUpdate(Statuses(Rows(t)), code.countStarting, i, STARTING);
  }

  /** The sweep has passed `i` elements of `s`, and its next count is known. */
  ghost predicate SweepAt(code: Code, max: nat, s: State, t: State, i: nat)
    requires InRange(s) && i <= |s.queue|
  {
    && Swept(code.countStarting, max, s, t, i)
    && QueueTally(t, code.countStarting) == CountAt(code.countStarting, max, Statuses(Rows(s)), i)
  }

  lemma SweepAtNext(code: Code, max: nat, s: State, t: State, i: nat)
    requires WellFormedQueue(s) && t.sweep == Look(i) && i < |s.queue| && SweepAt(code, max, s, t, i)
    ensures SweepAt(code, max, s, UpdateEntry(code, max, t), i + 1)
  {
    UpdateEntrySwept(code, max, s, t, i);
    UpdateEntryTally(code, max, s, t, i);
  }

  lemma SweepAtEnd(code: Code, max: nat, s: State, t: State)
    requires WellFormedQueue(s) && t.sweep == Look(|s.queue|) && SweepAt(code, max, s, t, |s.queue|)
    ensures SweepAt(code, max, s, SweepFrom(code, max, t), |s.queue|)
  {
  }

  lemma {:induction false} SweepSwept(code: Code, max: nat, s: State, t: State, i: nat)
    requires WellFormedQueue(s) && t.sweep == Look(i) && i <= |s.queue| && SweepAt(code, max, s, t, i)
    ensures SweepAt(code, max, s, SweepFrom(code, max, t), |s.queue|)
    decreases |s.queue| - i
  {
    if i == |s.queue| {
      SweepAtEnd(code, max, s, t);
    } else {
      SweepAtNext(code, max, s, t, i);
      SweepSwept(code, max, s, UpdateEntry(code, max, t), i + 1);
    }
  }

  /** A sweep turns WAITING into STARTING exactly at the elements that `Moves`
      picks, starts one worker for each, in queue order, and changes nothing else. */
  lemma FullSweepExact(code: Code, max: nat, s: State)
    requires WellFormedQueue(s)
    ensures Swept(code.countStarting, max, s, FullSweep(code, max, s), |s.queue|)
    ensures QueueTally(FullSweep(code, max, s), code.countStarting)
            == CountAt(code.countStarting, max, Statuses(Rows(s)), |s.queue|)
  {
    SweepSwept(code, max, s, s.(sweep := Look(0)), 0);
  }

  lemma {:induction false} WaitingPrefix(statuses: seq<Status>, i: nat)
    requires i < |statuses| && statuses[i].WAITING?
    ensures Waiting(statuses[..i]) < Waiting(statuses)
    decreases |statuses|
  {
    var n := |statuses| - 1;
    if i < n {
      assert statuses[..n][..i] == statuses[..i];
      WaitingPrefix(statuses[..n], i);
    }
  }

  lemma WaitingNext(statuses: seq<Status>, i: nat)
    requires i < |statuses|
    ensures Waiting(statuses[..i + 1]) == Waiting(statuses[..i]) + if statuses[i].WAITING? then 1 else 0
  {
    assert statuses[..i + 1][..i] == statuses[..i];
  }

  lemma {:induction false} NewThreadCount(both: bool, max: nat, s: State, i: nat)
    requires InRange(s) && i <= |s.queue|
    ensures var statuses := Statuses(Rows(s));
            |NewThreads(both, max, s, i)| ==
              if both then CountAt(true, max, statuses, i) - Tally(statuses, true)
              else if Tally(statuses, false) < max then Waiting(statuses[..i]) else 0
  {
    if i > 0 {
      WaitingNext(Statuses(Rows(s)), i - 1);
      CountAtNext(both, max, Statuses(Rows(s)), i - 1);
      NewThreadCount(both, max, s, i - 1);
    }
  }

  /** With both states counted the sweep moves the first min(max - active,
      waiting) WAITING entries, never more than the free slots, and afterwards
      the slots are full or nothing waits. */
  lemma SweepFills(code: Code, max: nat, s: State)
    requires WellFormedQueue(s) && code.countStarting
    ensures var t := FullSweep(code, max, s);
            var active, waiting := QueueTally(s, true), Waiting(Statuses(Rows(s)));
            var moved := |t.threads| - |s.threads|;
            && moved == (if max <= active then 0 else if waiting <= max - active then waiting else max - active)
            && QueueTally(t, true) == active + moved
            && (QueueTally(t, true) >= max || forall j | 0 <= j < |t.queue| :: !Rows(t)[j].status.WAITING?)
  {
    var t, statuses := FullSweep(code, max, s), Statuses(Rows(s));
    FullSweepExact(code, max, s);
    NewThreadCount(true, max, s, |s.queue|);
    assert statuses[..|s.queue|] == statuses;
    if QueueTally(t, true) < max {
      forall j | 0 <= j < |t.queue|
        ensures !Rows(t)[j].status.WAITING?
      {
        if statuses[j].WAITING? {
          WaitingPrefix(statuses, j);
        }
      }
    }
  }

  /** With STARTED alone counted the sweep is all or nothing: it starts every
      WAITING entry when fewer than `max` are STARTED, and none otherwise. */
  lemma SweepAllOrNothing(code: Code, max: nat, s: State)
    requires WellFormedQueue(s) && !code.countStarting
    ensures var t := FullSweep(code, max, s);
            if QueueTally(s, false) < max
            then (forall j | 0 <= j < |s.queue| :: Rows(t)[j] ==
                    if Rows(s)[j].status.WAITING? then Rows(s)[j].(status := STARTING) else Rows(s)[j])
                 && |t.threads| == |s.threads| + Waiting(Statuses(Rows(s)))
            else t == s.(sweep := Idle)
  {
    var t := FullSweep(code, max, s);
    FullSweepExact(code, max, s);
    NewThreadCount(false, max, s, |s.queue|);
    assert Statuses(Rows(s))[..|s.queue|] == Statuses(Rows(s));
    if QueueTally(s, false) >= max {
      forall e | 0 <= e < |s.entries|
        ensures t.entries[e] == s.entries[e]
      {
        if e in s.queue {
          var j :| 0 <= j < |s.queue| && s.queue[j] == e;
          assert Rows(t)[j] == Rows(s)[j];
        }
      }
    }
  }

  lemma {:induction false} TallyAfterAll(before: seq<Status>, after: seq<Status>)
    requires |before| == |after|
    requires forall j | 0 <= j < |before| :: after[j] == if before[j].WAITING? then STARTING else before[j]
    ensures Tally(after, true) == Tally(before, true) + Waiting(before)
  {
    if before != [] {
      TallyAfterAll(before[..|before| - 1], after[..|after| - 1]);
    }
  }

  /** So, as written, one sweep keeps to the cap exactly when it starts nothing
      and the cap was kept, or there are slots for all that wait. */
  lemma AsWrittenSweepWithinCap(code: Code, max: nat, s: State)
    requires WellFormedQueue(s) && !code.countStarting
    ensures QueueTally(FullSweep(code, max, s), true) <= max
            <==> QueueTally(s, true) + (if QueueTally(s, false) < max then Waiting(Statuses(Rows(s))) else 0) <= max
  {
    var t := FullSweep(code, max, s);
    SweepAllOrNothing(code, max, s);
    if QueueTally(s, false) < max {
      TallyAfterAll(Statuses(Rows(s)), Statuses(Rows(t)));
    } else {
      assert Rows(t) == Rows(s);
    }
  }
}
