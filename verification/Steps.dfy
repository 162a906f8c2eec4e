/** What single steps of the sweep and of the workers do, field by field, in every state
    and for every code, and the life of a worker that nobody disturbs. */
module Steps {
  import opened Entries
  import opened Scheduler
  import opened SchedulerInvariants
  import opened SweepTheory
  import opened ProgressReports

  /** Each access of the sweep reads or writes one entry: it passes an entry that does not
      wait, counts one element, gives up when the count has reached the limit, or starts the
      download in two halves, in the one order or the other. */
  lemma SweepStepExact(code: Code, max: nat, s: State)
    requires InRange(s)
    ensures var t := SweepStep(code, max, s);
            && t.queue == s.queue
            && match s.sweep
               case Idle => t == s
               case Look(i) =>
                 && t.entries == s.entries && t.threads == s.threads
                 && t.sweep == if i == |s.queue| then Idle
                               else if s.entries[s.queue[i]].status == WAITING then Count(i, 0, 0) else Look(i + 1)
               case Count(i, j, count) =>
                 if j < |s.queue| then
                   var status := s.entries[s.queue[j]].status;
                   var more := if status == STARTED || (code.countStarting && status == STARTING) then 1 else 0;
                   t.entries == s.entries && t.threads == s.threads && t.sweep == Count(i, j + 1, count + more)
                 else if count >= max then t.entries == s.entries && t.threads == s.threads && t.sweep == Look(i + 1)
                 else if code.markFirst then Marked(s, t, i) && t.threads == s.threads && t.sweep == Spawn(i)
                 else t.entries == s.entries && Spawned(s, t, i) && t.sweep == Mark(i)
               case Mark(i) => Marked(s, t, i) && t.threads == s.threads && t.sweep == Look(i + 1)
               case Spawn(i) => t.entries == s.entries && Spawned(s, t, i) && t.sweep == Look(i + 1)
  {
  }

  /** STARTING has been written to element `i`, and nothing else. */
  predicate Marked(s: State, t: State, i: nat)
    requires InRange(s) && i < |s.queue|
  {
    var e := s.queue[i];
    && |t.entries| == |s.entries| && t.entries[e] == s.entries[e].(status := STARTING)
    && forall x | 0 <= x < |s.entries| && x != e :: t.entries[x] == s.entries[x]
  }

  /** A record of a new worker of element `i` has been appended. */
  predicate Spawned(s: State, t: State, i: nat)
    requires InRange(s) && i < |s.queue|
  {
    t.threads == s.threads + [Thread(s.queue[i], Created)]
  }

  /** Only the status of entry `e` differs, if anything does. */
  predicate StatusOnly(s: State, t: State, e: nat, status: Status)
    requires e < |s.entries|
  {
    && t.queue == s.queue && t.sweep == s.sweep && |t.entries| == |s.entries|
    && t.entries[e] == s.entries[e].(status := status)
    && forall x | 0 <= x < |s.entries| && x != e :: t.entries[x] == s.entries[x]
  }

  /** A worker that begins is STARTED; one that is done is COMPLETED, and one that cannot
      open its file leaves the status alone, or is PAUSED when that is repaired. The record
      then stays as an ended one, or goes. Out of turn a worker does nothing. */
  lemma WorkExact(code: Code, s: State, k: nat, work: Work)
    requires InRange(s) && k < |s.threads|
    ensures var t, e, phase := WorkerStep(code, s, k, work), s.threads[k].entry, s.threads[k].phase;
            var ended := s.threads[k := Thread(e, Ended)];
            var gone := s.threads[..k] + s.threads[k + 1..];
            if phase == Created && work == Start then
              StatusOnly(s, t, e, STARTED) && t.threads == s.threads[k := Thread(e, Transferring)]
            else if phase == Created && work == FailOpen then
              && StatusOnly(s, t, e, if code.parkUnopened then PAUSED else s.entries[e].status)
              && t.threads == if code.parkUnopened then gone else ended
            else if phase == Transferring && work == Finish then
              StatusOnly(s, t, e, COMPLETED) && t.threads == if code.reapDone then gone else ended
            else if phase == Transferring && work.Report? then
              StatusOnly(s, t.(entries := s.entries), e, s.entries[e].status) && t.threads == s.threads
              && |t.entries| == |s.entries| && forall x | 0 <= x < |s.entries| && x != e :: t.entries[x] == s.entries[x]
            else t == s
  {
  }

  lemma NoSuchWorker(code: Code, s: State, k: nat, work: Work)
    requires InRange(s) && k >= |s.threads|
    ensures WorkerStep(code, s, k, work) == s
  {
  }

  // ----- a whole download -----

  /** What the worker of record `k` does from its creation to its end. */
  function WholeLife(k: nat, reports: seq<Report>): seq<Scheduler.Step> {
    [Working(k, Start)] + ReportSteps(k, reports) + [Working(k, Finish)]
  }

  lemma LifeRuns(code: Code, max: nat, s: State, k: nat, reports: seq<Report>)
    requires InRange(s)
    ensures var begun := Next(code, max, s, Working(k, Start));
            Run(code, max, s, WholeLife(k, reports))
            == Next(code, max, Run(code, max, begun, ReportSteps(k, reports)), Working(k, Finish))
  {
    var begun := Next(code, max, s, Working(k, Start));
    RunSingle(code, max, s, Working(k, Start));
    RunAppend(code, max, s, [Working(k, Start)], ReportSteps(k, reports));
    RunSingle(code, max, Run(code, max, begun, ReportSteps(k, reports)), Working(k, Finish));
    RunAppend(code, max, s, [Working(k, Start)] + ReportSteps(k, reports), [Working(k, Finish)]);
  }

  lemma ShowsStatus(before: Entry, reports: seq<Report>, after: Entry, status: Status)
    requires Shows(before, reports, after)
    ensures Shows(before.(status := status), reports, after.(status := status))
  {
  }

  /** An undisturbed worker leaves its entry COMPLETED and showing what its reports said,
      ends, and has touched no other entry and no other record. */
  lemma WholeDownload(code: Code, max: nat, s: State, k: nat, reports: seq<Report>)
    requires InRange(s) && k < |s.threads| && s.threads[k].phase == Created
    requires s.entries[s.threads[k].entry].measured >= 0 && forall i | 0 <= i < |reports| :: reports[i].clock >= 0
    ensures var t, e := Run(code, max, s, WholeLife(k, reports)), s.threads[k].entry;
            && t.queue == s.queue && t.sweep == s.sweep && |t.entries| == |s.entries|
            && (forall x | 0 <= x < |s.entries| && x != e :: t.entries[x] == s.entries[x])
            && t.entries[e].status == COMPLETED
            && Shows(s.entries[e], reports, t.entries[e].(status := s.entries[e].status))
            && t.threads == if code.reapDone then s.threads[..k] + s.threads[k + 1..]
                            else s.threads[k := Thread(e, Ended)]
  {
    var e := s.threads[k].entry;
    var begun := Next(code, max, s, Working(k, Start));
    var reported := Run(code, max, begun, ReportSteps(k, reports));
    LifeRuns(code, max, s, k, reports);
    WorkExact(code, s, k, Start);
    ReportsShown(code, max, begun, k, reports);
    WorkExact(code, reported, k, Finish);
    ShowsStatus(begun.entries[e], reports, reported.entries[e], s.entries[e].status);
  }
}
