/** What each request does and what its client is told, field by field. */
module Requests {
  import opened Entries
  import opened Scheduler
  import opened SweepTheory
  import opened Commands

  // ----- the replies -----

  lemma QueuedExact(s: State, name: string)
    requires InRange(s)
    ensures QueuePosition(s, name) < |s.queue| <==> name in Names(Rows(s))
  {
    var names := Names(Rows(s));
    if name in names {
      var i :| 0 <= i < |names| && names[i] == name;
    }
  }

  /** One reply, which repeats the command and as much of the name as fits. It is FAILURE
      exactly when a DOWNLOAD names a queued download or finds the uninitialised answer
      true, or any other request names no queued download, and SUCCESS otherwise. */
  predicate Answered(s: State, request: Request, junk: Junk, replies: seq<Reply>)
    requires InRange(s)
  {
    var queued := request.name in Names(Rows(s));
    && |replies| == 1 && replies[0].command == request.command && replies[0].payload == Text
    && replies[0].name == (if |request.name| > 253 then request.name[..253] else request.name)
    && (request.command == DOWNLOAD ==> replies[0].status == if queued || junk.exists_ then FAILURE else SUCCESS)
    && (request.command != DOWNLOAD ==> replies[0].status == if queued then SUCCESS else FAILURE)
  }

  /** What a DOWNLOAD, PAUSE, CANCEL or RESTART is answered, in every state. */
  lemma AnswerExact(code: Code, max: nat, s: State, request: Request, junk: Junk)
    requires InRange(s) && s.sweep.Idle? && request.command != STATUS && request.command != NONE
    ensures Answered(s, request, junk, Serve(code, max, s, request, junk).replies)
  {
    QueuedExact(s, request.name);
  }

  /** STATUS gets one PROCESSING reply for every entry, in queue order, with the entry
      and its name, and then one SUCCESS; nothing changes. */
  lemma StatusExact(code: Code, max: nat, s: State, request: Request, junk: Junk)
    requires InRange(s) && s.sweep.Idle? && request.command == STATUS
    ensures Serve(code, max, s, request, junk).state == s
    ensures var replies := Serve(code, max, s, request, junk).replies;
            && |replies| == |s.queue| + 1
            && (forall i | 0 <= i < |s.queue| ::
                  var e := s.entries[s.queue[i]];
                  && replies[i].command == STATUS && replies[i].status == PROCESSING
                  && replies[i].payload == Snapshot(e)
                  && replies[i].name == if |e.name| > 253 then e.name[..253] else e.name)
            && var last := replies[|s.queue|];
               && last.command == STATUS && last.status == SUCCESS && last.payload == Text
               && last.name == if |request.name| > 253 then request.name[..253] else request.name
  {
    ServeStatus(code, max, s, request, junk);
  }

  // ----- the state -----

  /** The steps of the scheduler are the beginnings of the requests. */
  lemma StepsBegin(code: Code, max: nat, s: State, name: string, url: string, junk: Junk)
    requires InRange(s) && s.sweep.Idle?
    ensures Next(code, max, s, Add(name, url, junk.exists_)) == Begun(code, s, Request(DOWNLOAD, name, url), junk)
    ensures Next(code, max, s, Pause(name)) == Begun(code, s, Request(PAUSE, name, url), junk)
    ensures Next(code, max, s, Cancel(name)) == Begun(code, s, Request(CANCEL, name, url), junk)
    ensures Next(code, max, s, Restart(name)) == Begun(code, s, Request(RESTART, name, url), junk)
  {
  }

  /** During a sweep no request is taken. */
  lemma NoneDuringSweep(code: Code, max: nat, s: State, step: Step)
    requires InRange(s) && !s.sweep.Idle? && !step.Sweeping? && !step.Working?
    ensures Next(code, max, s, step) == s
  {
  }

  /** A request that is refused, or that is none of the commands, changes nothing. */
  lemma RefusedExact(code: Code, max: nat, s: State, request: Request, junk: Junk)
    requires InRange(s) && s.sweep.Idle? && request.command != STATUS
    ensures var refused := if request.command == DOWNLOAD then request.name in Names(Rows(s)) || junk.exists_
                           else request.name !in Names(Rows(s));
            refused || request.command == NONE ==>
              Begun(code, s, request, junk) == s && Serve(code, max, s, request, junk).state == s
  {
    QueuedExact(s, request.name);
  }

  /** An accepted DOWNLOAD puts an entry at the end of the queue that waits for the URL
      of the request and holds nothing else; all else is as before, and a sweep begins. */
  lemma DownloadExact(code: Code, s: State, request: Request, junk: Junk)
    requires InRange(s) && s.sweep.Idle? && request.command == DOWNLOAD
    requires request.name !in Names(Rows(s)) && !junk.exists_
    ensures var t := Begun(code, s, request, junk);
            && |t.entries| == |s.entries| + 1 && t.entries[..|s.entries|] == s.entries
            && t.queue == s.queue + [|s.entries|] && t.threads == s.threads && t.sweep == Look(0)
            && Rows(t)[..|s.queue|] == Rows(s)
            && var added := Rows(t)[|s.queue|];
               && added.name == request.name && added.url == request.url && added.status == WAITING
               && added.size == 0 && added.remaining == 0 && added.complete == 0 && added.speed == 0
               && added.start == 0 && added.measured == 0
  {
    QueuedExact(s, request.name);
  }

  /** What its sweep makes of it: the new entry is the last of the queue, waiting or
      STARTING, and of the others no more than a status has changed, WAITING to STARTING. */
  lemma DownloadServed(code: Code, max: nat, s: State, request: Request, junk: Junk)
    requires WellFormed(s) && s.sweep.Idle? && request.command == DOWNLOAD
    requires request.name !in Names(Rows(s)) && !junk.exists_
    ensures var t := Serve(code, max, s, request, junk).state;
            && |t.queue| == |s.queue| + 1 && s.queue <= t.queue && s.threads <= t.threads
            && (forall i | 0 <= i < |s.queue| ::
                  Rows(t)[i] == Rows(s)[i]
                  || (Rows(s)[i].status == WAITING && Rows(t)[i] == Rows(s)[i].(status := STARTING)))
            && var added := Rows(t)[|s.queue|];
               && added.name == request.name && added.url == request.url
               && (added.status == WAITING || added.status == STARTING)
               && added.size == 0 && added.remaining == 0 && added.complete == 0 && added.speed == 0
  {
    var begun := Begun(code, s, request, junk);
    DownloadExact(code, s, request, junk);
    ServeIsSwept(code, max, s, request, junk);
    FullSweepExact(code, max, begun);
  }

  /** PAUSE of a queued name. A download that can be stopped is stopped by its first
      record of that name, which goes, and whose entry is PAUSED; without a record nothing
      happens. Any other entry is PAUSED unless it is done. */
  lemma PauseExact(code: Code, s: State, request: Request, junk: Junk, p: nat, k: nat)
    requires WellFormed(s) && s.sweep.Idle? && request.command == PAUSE
    requires p < |s.queue| && s.entries[s.queue[p]].name == request.name
    requires k <= |s.threads| && forall i | 0 <= i < k :: s.entries[s.threads[i].entry].name != request.name
    requires k < |s.threads| ==> s.entries[s.threads[k].entry].name == request.name
    ensures var t := Begun(code, s, request, junk);
            var e := s.queue[p];
            var status := s.entries[e].status;
            && t.queue == s.queue && t.sweep == Idle
            && if status == STARTED || (code.stopStarting && status == STARTING)
               then
                 if k == |s.threads| then t == s
                 else
                   var x := s.threads[k].entry;
                   && t.entries == s.entries[x := s.entries[x].(status := PAUSED)]
                   && t.threads == s.threads[..k] + s.threads[k + 1..]
               else
                 && t.threads == s.threads
                 && t.entries == if status == CANCELLED || status == COMPLETED then s.entries
                                 else s.entries[e := s.entries[e].(status := PAUSED)]
  {
    FindUnique(s, p);
    SearchExact(s, request.name, k);
  }

  lemma SearchExact(s: State, name: string, k: nat)
    requires InRange(s) && k <= |s.threads| && forall i | 0 <= i < k :: s.entries[s.threads[i].entry].name != name
    requires k < |s.threads| ==> s.entries[s.threads[k].entry].name == name
    ensures ThreadPosition(s, name) == k
  {
  }

  /** CANCEL of a queued name takes exactly its element out of the queue. A download that
      can be stopped is stopped by its first record of that name, whose entry is PAUSED;
      the record goes when it is removed by name, and otherwise stays behind, ended. */
  lemma CancelExact(code: Code, s: State, request: Request, junk: Junk, p: nat, k: nat)
    requires WellFormed(s) && s.sweep.Idle? && request.command == CANCEL
    requires p < |s.queue| && s.entries[s.queue[p]].name == request.name
    requires k <= |s.threads| && forall i | 0 <= i < k :: s.entries[s.threads[i].entry].name != request.name
    requires k < |s.threads| ==> s.entries[s.threads[k].entry].name == request.name
    ensures var t := Begun(code, s, request, junk);
            var e := s.queue[p];
            var status := s.entries[e].status;
            && t.queue == s.queue[..p] + s.queue[p + 1..] && t.sweep == Idle
            && if status == STARTED || (code.stopStarting && status == STARTING)
               then
                 if k == |s.threads| then t.entries == s.entries && t.threads == s.threads
                 else
                   var x := s.threads[k].entry;
                   && t.entries == s.entries[x := s.entries[x].(status := PAUSED)]
                   && t.threads == if code.removeByName then s.threads[..k] + s.threads[k + 1..]
                                   else s.threads[k := Thread(x, Ended)]
               else
                 && t.threads == s.threads
                 && t.entries == if status == CANCELLED then s.entries
                                 else s.entries[e := s.entries[e].(status := PAUSED)]
  {
    FindUnique(s, p);
    SearchExact(s, request.name, k);
  }

  /** RESTART of a queued name makes a PAUSED entry wait, leaves any other as it is, and
      begins a sweep whichever it was. */
  lemma RestartBegun(code: Code, s: State, request: Request, junk: Junk, p: nat)
    requires WellFormed(s) && s.sweep.Idle? && request.command == RESTART
    requires p < |s.queue| && s.entries[s.queue[p]].name == request.name
    ensures var t := Begun(code, s, request, junk);
            var e := s.queue[p];
            && t.queue == s.queue && t.threads == s.threads && t.sweep == Look(0)
            && t.entries == if s.entries[e].status == PAUSED then s.entries[e := s.entries[e].(status := WAITING)]
                            else s.entries
  {
    FindUnique(s, p);
  }
}
