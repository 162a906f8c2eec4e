/** The download scheduler of `queue.c` and `downloadmanager.c`: the queue, the
    thread list, and every step the controller and the workers can take.

    Entries live in a store and are referred to by position, as the source
    refers to them by pointer: the queue and the thread list share them, and an
    entry that leaves the queue stays reachable from a thread record. The creation
    of a thread and of its record is one step, and so is the completion of a
    worker with what becomes of its record.

    `Code` says which of six departures from the evident intent have been
    repaired. `AS_WRITTEN` repairs none. A seventh repair is taken for granted
    throughout: removing the head of a list moves `root` (see `LinkedLists`). */
module Scheduler {
  import opened Entries
  import opened LinkedLists

  datatype Code = Code(
    countStarting: bool,  // the cap counts STARTING as well as STARTED entries
    markFirst: bool,      // STARTING is written before the thread is created
    stopStarting: bool,   // PAUSE and CANCEL treat STARTING like STARTED
    removeByName: bool,   // download_cancel removes by the entry's name
    reapDone: bool,       // a worker that completes takes its record along
    parkUnopened: bool    // a worker that cannot open its file pauses the entry and takes its record along
  )

  const AS_WRITTEN := Code(false, false, false, false, false, false)
  const REPAIRED := Code(true, true, true, true, true, true)

  datatype Phase = Created | Transferring | Ended

  datatype Thread = Thread(entry: nat, phase: Phase) {
    predicate Live() {
      !phase.Ended?
    }
  }

  /** Where the controller stands in `list_for_each(queue_update)`: between
      elements, inside the nested count, or between the creation of a thread and the
      write of STARTING. As written the write is still to come (`Mark`); with
      `markFirst` the creation is (`Spawn`). */
  datatype Sweep = Idle | Look(i: nat) | Count(i: nat, j: nat, count: nat) | Mark(i: nat) | Spawn(i: nat)

  datatype State = State(entries: seq<Entry>, queue: seq<nat>, threads: seq<Thread>, sweep: Sweep)

  const EMPTY := State([], [], [], Idle)

  // ----- well-formed states -----

  predicate InRange(s: State) {
    && (forall i | 0 <= i < |s.queue| :: s.queue[i] < |s.entries|)
    && (forall k | 0 <= k < |s.threads| :: s.threads[k].entry < |s.entries|)
    && match s.sweep
       case Idle => true
       case Look(i) => i <= |s.queue|
       case Count(i, j, _) => i < |s.queue| && j <= |s.queue|
       case Mark(i) => i < |s.queue|
       case Spawn(i) => i < |s.queue|
  }

  function Rows(s: State): (rows: seq<Entry>)
    requires InRange(s)
    ensures |rows| == |s.queue|
    ensures forall i | 0 <= i < |rows| :: rows[i] == s.entries[s.queue[i]]
  {
    Deref(s.entries, s.queue)
  }

  /** What a list of references into a store stands for. */
  function Deref<X>(store: seq<X>, refs: seq<nat>): (r: seq<X>)
    requires forall i | 0 <= i < |refs| :: refs[i] < |store|
    ensures |r| == |refs|
    ensures forall i | 0 <= i < |r| :: r[i] == store[refs[i]]
  {
    seq(|refs|, i requires 0 <= i < |refs| => store[refs[i]])
  }

  function Names(rows: seq<Entry>): (names: seq<string>)
    ensures |names| == |rows|
    ensures forall i | 0 <= i < |rows| :: names[i] == rows[i].name
  {
    seq(|rows|, i requires 0 <= i < |rows| => rows[i].name)
  }

  function Statuses(rows: seq<Entry>): (statuses: seq<Status>)
    ensures |statuses| == |rows|
    ensures forall i | 0 <= i < |rows| :: statuses[i] == rows[i].status
  {
    seq(|rows|, i requires 0 <= i < |rows| => rows[i].status)
  }

  predicate Distinct<X(==)>(s: seq<X>) {
    forall i, j | 0 <= i < j < |s| :: s[i] != s[j]
  }

  ghost predicate WellFormed(s: State) {
    InRange(s) && Distinct(s.queue) && Distinct(Names(Rows(s)))
  }

  // ----- searches -----

  function Named(name: string): string -> bool {
    n => n == name
  }

  function Position(names: seq<string>, name: string): (p: nat)
    ensures p <= |names|
    ensures forall i | 0 <= i < p :: names[i] != name
    ensures p < |names| ==> names[p] == name
  {
    FirstMatch(names, Named(name))
  }

  function QueuePosition(s: State, name: string): (p: nat)
    requires InRange(s)
    ensures p <= |s.queue|
    ensures p < |s.queue| ==> s.entries[s.queue[p]].name == name
    ensures forall i | 0 <= i < p :: s.entries[s.queue[i]].name != name
  {
    Position(Names(Rows(s)), name)
  }

  function ThreadNames(s: State): (names: seq<string>)
    requires InRange(s)
    ensures |names| == |s.threads|
    ensures forall k | 0 <= k < |names| :: names[k] == s.entries[s.threads[k].entry].name
  {
    seq(|s.threads|, k requires 0 <= k < |s.threads| => s.entries[s.threads[k].entry].name)
  }

  function ThreadPosition(s: State, name: string): (k: nat)
    requires InRange(s)
    ensures k <= |s.threads|
    ensures k < |s.threads| ==> s.entries[s.threads[k].entry].name == name
    ensures forall i | 0 <= i < k :: s.entries[s.threads[i].entry].name != name
  {
    Position(ThreadNames(s), name)
  }

  /** A search that ends at the first element. */
  lemma FoundFirst(s: State, name: string)
    requires InRange(s)
    ensures s.queue != [] && s.entries[s.queue[0]].name == name ==> QueuePosition(s, name) == 0
    ensures s.threads != [] && s.entries[s.threads[0].entry].name == name ==> ThreadPosition(s, name) == 0
  {
    assert s.queue != [] ==> Names(Rows(s))[0] == s.entries[s.queue[0]].name;
    assert s.threads != [] ==> ThreadNames(s)[0] == s.entries[s.threads[0].entry].name;
  }

  // ----- the download manager -----

  function SetStatus(s: State, e: nat, status: Status): State
    requires e < |s.entries|
  {
    s.(entries := s.entries[e := s.entries[e].(status := status)])
  }

  function DownloadStart(s: State, e: nat): State {
    s.(threads := s.threads + [Thread(e, Created)])
  }

  function DropThread(s: State, k: nat): State
    requires k < |s.threads|
  {
    s.(threads := RemoveAt(s.threads, k))
  }

  function EndThread(s: State, k: nat): State
    requires k < |s.threads|
  {
    s.(threads := s.threads[k := s.threads[k].(phase := Ended)])
  }

  /** The entry that is paused is the one the first record of that name points
      to, which need not be the entry in the queue. */
  function DownloadPause(s: State, name: string): (r: (State, bool))
    requires InRange(s)
    ensures InRange(r.0)
  {
    var k := ThreadPosition(s, name);
    if k == |s.threads| then (s, false)
    else (DropThread(SetStatus(s, s.threads[k].entry, PAUSED), k), true)
  }

  /** As written the removal compares names with the bytes of the record, so the
      record of the cancelled thread stays in the list. */
  function DownloadCancel(code: Code, s: State, name: string): (r: State)
    requires InRange(s)
    ensures InRange(r)
  {
    var k := ThreadPosition(s, name);
    if k == |s.threads| then s
    else
      var paused := SetStatus(s, s.threads[k].entry, PAUSED);
      if code.removeByName then DropThread(paused, k) else EndThread(paused, k)
  }

  // ----- the commands -----

  predicate Stoppable(code: Code, status: Status) {
    status.STARTED? || (code.stopStarting && status.STARTING?)
  }

  /** `junk` is what the uninitialised result of `queue_entry_exists` held. */
  function QueueAdd(s: State, name: string, url: string, junk: bool): (r: (State, ReplyStatus))
    requires InRange(s)
    ensures InRange(r.0)
  {
    if QueuePosition(s, name) < |s.queue| || junk then (s, FAILURE)
    else
      (State(s.entries + [NewEntry(name, url)], s.queue + [|s.entries|], s.threads, Look(0)), SUCCESS)
  }

  function QueuePause(code: Code, s: State, name: string): (r: (State, ReplyStatus))
    requires InRange(s)
    ensures InRange(r.0)
  {
    var p := QueuePosition(s, name);
    if p == |s.queue| then (s, FAILURE)
    else
      var e := s.queue[p];
      var status := s.entries[e].status;
      if Stoppable(code, status) then (DownloadPause(s, name).0, SUCCESS)
      else if status.CANCELLED? || status.COMPLETED? then (s, SUCCESS)
      else (SetStatus(s, e, PAUSED), SUCCESS)
  }

  function QueueCancel(code: Code, s: State, name: string): (r: (State, ReplyStatus))
    requires InRange(s) && s.sweep.Idle?
    ensures InRange(r.0)
  {
    var p := QueuePosition(s, name);
    if p == |s.queue| then (s, FAILURE)
    else
      var e := s.queue[p];
      var status := s.entries[e].status;
      var stopped :=
        if Stoppable(code, status) then DownloadCancel(code, s, name)
        else if status.CANCELLED? then s
        else SetStatus(s, e, PAUSED);
      (stopped.(queue := RemoveAt(s.queue, p)), SUCCESS)
  }

  /** The FAILURE reply of the refusing branches is overwritten, and the sweep
      runs whichever branch was taken. */
  function QueueRestart(s: State, name: string): (r: (State, ReplyStatus))
    requires InRange(s)
    ensures InRange(r.0)
  {
    var p := QueuePosition(s, name);
    if p == |s.queue| then (s, FAILURE)
    else
      var e := s.queue[p];
      var status := s.entries[e].status;
      var waiting := if status.WAITING? || status.PAUSED? then SetStatus(s, e, WAITING) else s;
      (waiting.(sweep := Look(0)), SUCCESS)
  }

  // ----- the sweep, one access at a time -----

  predicate Counted(code: Code, status: Status) {
    status.STARTED? || (code.countStarting && status.STARTING?)
  }

  function SweepStep(code: Code, max: nat, s: State): (r: State)
    requires InRange(s)
    ensures InRange(r)
  {
    match s.sweep
    case Idle => s
    case Look(i) =>
      if i == |s.queue| then s.(sweep := Idle)
      else if s.entries[s.queue[i]].status.WAITING? then s.(sweep := Count(i, 0, 0))
      else s.(sweep := Look(i + 1))
    case Count(i, j, count) =>
      if j < |s.queue| then
        var one := if Counted(code, s.entries[s.queue[j]].status) then 1 else 0;
        s.(sweep := Count(i, j + 1, count + one))
      else if count >= max then s.(sweep := Look(i + 1))
      else if code.markFirst then SetStatus(s, s.queue[i], STARTING).(sweep := Spawn(i))
      else DownloadStart(s, s.queue[i]).(sweep := Mark(i))
    case Mark(i) => SetStatus(s, s.queue[i], STARTING).(sweep := Look(i + 1))
    case Spawn(i) => DownloadStart(s, s.queue[i]).(sweep := Look(i + 1))
  }

  // ----- worker steps -----

  /** `progress_callback`, on a report of `now` out of `total` bytes at time `clock`. */
  function Progress(e: Entry, clock: int, total: int, now: int): Entry {
    var sized := if e.size == 0 then e.(size := total, start := clock) else e;
    if sized.measured == 0 then sized.(measured := clock)
    else if clock - sized.measured >= 1 then
      sized.(speed := now - sized.complete, measured := clock, remaining := total, complete := now)
    else sized
  }

  datatype Work = Start | FailOpen | Report(clock: int, total: int, now: int) | Finish

  /** The next thing the worker of record `k` does; nothing when it is not at that point. */
  function WorkerStep(code: Code, s: State, k: nat, work: Work): (r: State)
    requires InRange(s)
    ensures InRange(r)
  {
    if k >= |s.threads| then s
    else
      var e := s.threads[k].entry;
      match (s.threads[k].phase, work)
      case (Created, Start) =>
        SetStatus(s, e, STARTED).(threads := s.threads[k := Thread(e, Transferring)])
      case (Created, FailOpen) =>
        if code.parkUnopened then DropThread(SetStatus(s, e, PAUSED), k) else EndThread(s, k)
      case (Transferring, Report(clock, total, now)) =>
        s.(entries := s.entries[e := Progress(s.entries[e], clock, total, now)])
      case (Transferring, Finish) =>
        var done := SetStatus(s, e, COMPLETED);
        if code.reapDone then DropThread(done, k) else EndThread(done, k)
      case _ => s
  }

  // ----- runs -----

  /** One step of any run. A command is taken only between sweeps. */
  datatype Step =
    | Add(name: string, url: string, junk: bool)
    | Pause(name: string)
    | Cancel(name: string)
    | Restart(name: string)
    | Sweeping
    | Working(k: nat, work: Work)

  function Next(code: Code, max: nat, s: State, step: Step): (r: State)
    requires InRange(s)
    ensures InRange(r)
  {
    match step
    case Sweeping => SweepStep(code, max, s)
    case Working(k, work) => WorkerStep(code, s, k, work)
    case Add(name, url, junk) => if s.sweep.Idle? then QueueAdd(s, name, url, junk).0 else s
    case Pause(name) => if s.sweep.Idle? then QueuePause(code, s, name).0 else s
    case Cancel(name) => if s.sweep.Idle? then QueueCancel(code, s, name).0 else s
    case Restart(name) => if s.sweep.Idle? then QueueRestart(s, name).0 else s
  }

  function Run(code: Code, max: nat, s: State, steps: seq<Step>): (r: State)
    requires InRange(s)
    ensures InRange(r)
    decreases |steps|
  {
    if steps == [] then s else Run(code, max, Next(code, max, s, steps[0]), steps[1..])
  }

  lemma {:induction false} RunAppend(code: Code, max: nat, s: State, a: seq<Step>, b: seq<Step>)
    requires InRange(s)
    ensures Run(code, max, s, a + b) == Run(code, max, Run(code, max, s, a), b)
    decreases |a|
  {
    if a == [] {
      assert a + b == b;
    } else {
      assert (a + b)[0] == a[0] && (a + b)[1..] == a[1..] + b;
      RunAppend(code, max, Next(code, max, s, a[0]), a[1..], b);
    }
  }

  lemma RunSingle(code: Code, max: nat, s: State, step: Step)
    requires InRange(s)
    ensures Run(code, max, s, [step]) == Next(code, max, s, step)
  {
    assert [step][1..] == [];
    assert Run(code, max, Next(code, max, s, step), []) == Next(code, max, s, step);
  }
}
