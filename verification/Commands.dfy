/** One whole request as `process_request` serves it, with no worker in between:
    the new state and every reply it sends, the terminal one last. */
module Commands {
  import opened Entries
  import opened LinkedLists
  import opened Scheduler
  import opened SchedulerInvariants
  import opened SweepTheory

  /** What uninitialised memory holds: the result of `queue_entry_exists`, and the
      response that an unknown command leaves unset. */
  datatype Junk = Junk(exists_: bool, response: Reply)

  datatype Served = Served(state: State, replies: seq<Reply>)

  function Snapshots(rows: seq<Entry>): (r: seq<Reply>)
    ensures |r| == |rows|
    ensures forall i | 0 <= i < |rows| :: r[i] == SnapshotReply(rows[i])
  {
    seq(|rows|, i requires 0 <= i < |rows| => SnapshotReply(rows[i]))
  }

  function Serve(code: Code, max: nat, s: State, request: Request, junk: Junk): (r: Served)
    requires InRange(s) && s.sweep.Idle?
    ensures InRange(r.state) && r.state.sweep.Idle?
  {
    match request.command
    case DOWNLOAD =>
      var (added, status) := QueueAdd(s, request.name, request.url, junk.exists_);
      Served(if status.SUCCESS? then FullSweep(code, max, added) else s, [TextReply(request, status)])
    case STATUS => Served(s, Snapshots(Rows(s)) + [TextReply(request, SUCCESS)])
    case PAUSE =>
      var (paused, status) := QueuePause(code, s, request.name);
      Served(paused, [TextReply(request, status)])
    case CANCEL =>
      var (cancelled, status) := QueueCancel(code, s, request.name);
      Served(cancelled, [TextReply(request, status)])
    case RESTART =>
      var (restarted, status) := QueueRestart(s, request.name);
      Served(if status.SUCCESS? then FullSweep(code, max, restarted) else s, [TextReply(request, status)])
    case NONE => Served(s, [junk.response])
  }

  lemma ServeOnce(code: Code, max: nat, s: State, request: Request, junk: Junk)
    requires InRange(s) && s.sweep.Idle? && request.command != STATUS
    ensures var r := Serve(code, max, s, request, junk);
            && |r.replies| == 1 && (request.command != NONE ==> r.replies[0].status != PROCESSING)
            && (request.command == NONE ==> r.replies[0] == junk.response)
            && |r.state.queue| <= |s.queue| + if request.command == DOWNLOAD then 1 else 0
  {
  }

  /** Every request gets at least one reply; all but the last are PROCESSING, and
      the last one is terminal unless it is what an unknown command left unset.
      Only STATUS gets more than one, and only DOWNLOAD lengthens the queue. */
  lemma ServeReplies(code: Code, max: nat, s: State, request: Request, junk: Junk)
    requires InRange(s) && s.sweep.Idle?
    ensures var r := Serve(code, max, s, request, junk);
            && 1 <= |r.replies| <= |s.queue| + 1
            && (forall i | 0 <= i < |r.replies| - 1 :: r.replies[i].status == PROCESSING)
            && (r.replies[|r.replies| - 1].status == PROCESSING
               <==> request.command == NONE && junk.response.status == PROCESSING)
            && |r.state.queue| <= |s.queue| + if request.command == DOWNLOAD then 1 else 0
  {
    if request.command == STATUS {
      ServeStatus(code, max, s, request, junk);
    } else {
      ServeOnce(code, max, s, request, junk);
    }
  }

  /** STATUS on n entries is n snapshots in queue order, then one SUCCESS, and the
      state is as it was. */
  lemma ServeStatus(code: Code, max: nat, s: State, request: Request, junk: Junk)
    requires InRange(s) && s.sweep.Idle? && request.command == STATUS
    ensures var r := Serve(code, max, s, request, junk);
            && r.state == s && |r.replies| == |s.queue| + 1
            && (forall i | 0 <= i < |s.queue| ::
               r.replies[i].status == PROCESSING && r.replies[i].payload == Snapshot(s.entries[s.queue[i]]))
            && r.replies[|s.queue|] == TextReply(request, SUCCESS)
  {
  }

  /** The step that begins to serve a request. */
  function CommandStep(request: Request, junk: Junk): seq<Step> {
    match request.command
    case DOWNLOAD => [Add(request.name, request.url, junk.exists_)]
    case PAUSE => [Pause(request.name)]
    case CANCEL => [Cancel(request.name)]
    case RESTART => [Restart(request.name)]
    case _ => []
  }

  lemma FullSweepIdle(code: Code, max: nat, s: State)
    requires InRange(s) && s.sweep == Look(0)
    ensures FullSweep(code, max, s) == SweepFrom(code, max, s)
  {
    assert s.(sweep := Look(0)) == s;
  }

  function Begun(code: Code, s: State, request: Request, junk: Junk): (r: State)
    requires InRange(s)
    ensures InRange(r)
    requires s.sweep.Idle?
  {
    match request.command
    case DOWNLOAD => QueueAdd(s, request.name, request.url, junk.exists_).0
    case PAUSE => QueuePause(code, s, request.name).0
    case CANCEL => QueueCancel(code, s, request.name).0
    case RESTART => QueueRestart(s, request.name).0
    case _ => s
  }

  lemma BegunByStep(code: Code, max: nat, s: State, request: Request, junk: Junk)
    requires InRange(s) && s.sweep.Idle?
    ensures Run(code, max, s, CommandStep(request, junk)) == Begun(code, s, request, junk)
  {
    match request.command
    case DOWNLOAD => RunSingle(code, max, s, Add(request.name, request.url, junk.exists_));
    case PAUSE => RunSingle(code, max, s, Pause(request.name));
    case CANCEL => RunSingle(code, max, s, Cancel(request.name));
    case RESTART => RunSingle(code, max, s, Restart(request.name));
    case _ =>
  }

  lemma ServeIsSwept(code: Code, max: nat, s: State, request: Request, junk: Junk)
    requires InRange(s) && s.sweep.Idle?
    ensures var t := Begun(code, s, request, junk);
            && (t.sweep.Idle? || t.sweep == Look(0))
            && Serve(code, max, s, request, junk).state == if t.sweep.Look? then FullSweep(code, max, t) else t
  {
  }

  /** Serving a request is a run of the fine-grained steps without worker steps. */
  lemma ServeIsRun(code: Code, max: nat, s: State, request: Request, junk: Junk) returns (n: nat)
    requires InRange(s) && s.sweep.Idle?
    ensures Run(code, max, s, CommandStep(request, junk) + seq(n, _ => Sweeping))
            == Serve(code, max, s, request, junk).state
  {
    BegunByStep(code, max, s, request, junk);
    ServeIsSwept(code, max, s, request, junk);
    var t := Begun(code, s, request, junk);
    n := 0;
    if t.sweep.Look? {
      FullSweepIdle(code, max, t);
      n := SweepRun(code, max, t);
    }
    SweepStepsRun(code, max, t, n);
    RunAppend(code, max, s, CommandStep(request, junk), seq(n, _ => Sweeping));
  }

  // ----- the traversals behind the commands -----

  lemma {:induction false} CountMatchesLast<X>(s: seq<X>, matches: X -> bool)
    requires s != []
    ensures var n := |s| - 1;
            CountMatches(s, matches) == CountMatches(s[..n], matches) + if matches(s[n]) then 1 else 0
  {
    if |s| > 1 {
      assert s[1..][..|s| - 2] == s[..|s| - 1][1..];
      CountMatchesLast(s[1..], matches);
    }
  }

  function EntryCounts(both: bool): Entry -> bool {
    (e: Entry) => Counts(both, e.status)
  }

  lemma {:induction false} TallyIsCount(rows: seq<Entry>, both: bool)
    ensures Tally(Statuses(rows), both) == CountMatches(rows, EntryCounts(both))
  {
    if rows != [] {
      var n := |rows| - 1;
      assert Statuses(rows)[..n] == Statuses(rows[..n]);
      TallyIsCount(rows[..n], both);
      CountMatchesLast(rows, EntryCounts(both));
    }
  }

  /** `queue_count_started` as the list traversal it is gives the count of the sweep. */
  lemma CountStartedTraversal(code: Code, s: State, uniqueness: bool)
    requires InRange(s)
    ensures Traverse(Rows(s), uniqueness, Counting(EntryCounts(code.countStarting)), 0)
            == QueueTally(s, code.countStarting)
  {
    TallyIsCount(Rows(s), code.countStarting);
    CountingTraversal(Rows(s), uniqueness, EntryCounts(code.countStarting), 0);
  }

  /** `queue_entry_exists` as the list traversal it is answers what QueueAdd asks:
      whether the name is queued, or else what its result held before. */
  lemma ExistsTraversal(s: State, name: string, junk: bool)
    requires InRange(s)
    ensures Traverse(Names(Rows(s)), true, Existing(Named(name)), junk) == (QueuePosition(s, name) < |s.queue| || junk)
  {
    ExistenceTest(Names(Rows(s)), Named(name), junk);
  }

  // ----- the queue as an ordered map keyed by name -----

  /** A search by name answers with the one entry of that name. */
  lemma FindUnique(s: State, i: nat)
    requires WellFormed(s) && i < |s.queue|
    ensures QueuePosition(s, s.entries[s.queue[i]].name) == i
  {
    assert Names(Rows(s))[i] == Names(Rows(s))[QueuePosition(s, s.entries[s.queue[i]].name)];
  }

  /** The entry a name stands for, as a sequence of at most one. */
  function Lookup(rows: seq<Entry>, name: string): (r: seq<Entry>)
    ensures |r| <= 1
  {
    var p := Position(Names(rows), name);
    if p < |rows| then [rows[p]] else []
  }

  lemma PositionAfterRemoval(names: seq<string>, p: nat, other: string)
    requires Distinct(names) && p < |names|
    ensures var q := Position(names, other);
            Position(RemoveAt(names, p), other) == if q < p then q else if q == p then |names| - 1 else q - 1
  {
    var q := Position(names, other);
    var r := RemoveAt(names, p);
    assert forall i | 0 <= i < |r| :: r[i] == names[if i < p then i else i + 1];
    FirstMatchUnique(r, Named(other), if q < p then q else if q == p then |names| - 1 else q - 1);
  }

  lemma LookupAfterRemoval(rows: seq<Entry>, p: nat, other: string)
    requires Distinct(Names(rows)) && p < |rows|
    ensures Lookup(RemoveAt(rows, p), other) == if other == rows[p].name then [] else Lookup(rows, other)
  {
    NamesWithout(rows, p);
    PositionAfterRemoval(Names(rows), p, other);
    assert Position(Names(rows), other) == p <==> other == Names(rows)[p];
  }

  /** After a CANCEL its name is gone, and every other name finds what it found before. */
  lemma CancelForgets(code: Code, s: State, name: string, other: string)
    requires WellFormed(s) && s.sweep.Idle?
    ensures Lookup(Rows(QueueCancel(code, s, name).0), other) == if other == name then [] else Lookup(Rows(s), other)
  {
    var p := QueuePosition(s, name);
    CancelRows(code, s, name);
    if p < |s.queue| {
      LookupAfterRemoval(Rows(s), p, other);
    }
  }

  /** A DOWNLOAD is refused exactly when the name is queued or the uninitialised
      answer happened to be true, and otherwise adds one WAITING entry at the end
      and begins a sweep. */
  lemma AddExact(s: State, name: string, url: string, junk: bool)
    requires WellFormed(s)
    ensures var (t, status) := QueueAdd(s, name, url, junk);
            if name in Names(Rows(s)) || junk then t == s && status == FAILURE
            else
              && status == SUCCESS && |t.queue| == |s.queue| + 1 && Rows(t)[..|s.queue|] == Rows(s)
              && t.threads == s.threads && t.sweep == Look(0)
              && var added := Rows(t)[|s.queue|];
                 && added.name == name && added.url == url && added.status == WAITING
                 && added.size == 0 && added.remaining == 0 && added.complete == 0 && added.speed == 0
                 && added.start == 0 && added.measured == 0
  {
  }
}
