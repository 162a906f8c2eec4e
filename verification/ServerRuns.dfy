/** Runs of the whole server, handlers, controller and workers together: how the
    scheduler moves between the requests it serves, and what it keeps. */
module ServerRuns {
  import opened Entries
  import opened Scheduler
  import opened Reachability
  import opened SchedulerSafety
  import opened SchedulerAgreement
  import opened LiveWorkers
  import opened Commands
  import opened Protocol
  import opened AtomicCalls

  /** Accesses of a sweep and steps of workers, in any order. */
  predicate NoCommand(steps: seq<Step>) {
    forall i | 0 <= i < |steps| :: steps[i].Working? || steps[i].Sweeping?
  }

  /** Without any command, `s` turns into `t`. */
  ghost predicate LeadsTo(code: Code, max: nat, s: State, t: State)
    requires InRange(s)
  {
    exists steps :: NoCommand(steps) && Run(code, max, s, steps) == t
  }

  /** The state in which the first `i` requests have begun to be served. */
  function Left(code: Code, start: State, history: seq<Exchange>, i: nat): (s: State)
    requires InRange(start) && i <= |history|
    requires forall k | 0 <= k < |history| :: InRange(history[k].before) && history[k].before.sweep.Idle?
    ensures InRange(s)
  {
    if i == 0 then start
    else
      var x := history[i - 1];
      Begun(code, x.before, x.asked.request, x.junk)
  }

  /** The state in which request `i` was served, or the present one. */
  function Met(n: Net, i: nat): State
    requires i <= |n.history|
  {
    if i < |n.history| then n.history[i].before else n.sys
  }

  /** Every request was served in the state that the request before it left behind,
      up to its sweep and steps of the workers. */
  ghost predicate Chained(code: Code, max: nat, start: State, n: Net)
    requires InRange(start)
  {
    && AllFaithful(code, max, n.history)
    && forall i | 0 <= i <= |n.history| :: LeadsTo(code, max, Left(code, start, n.history, i), Met(n, i))
  }

  lemma LeadsNowhere(code: Code, max: nat, s: State)
    requires InRange(s)
    ensures LeadsTo(code, max, s, s)
  {
    assert Run(code, max, s, []) == s && NoCommand([]);
  }

  lemma LeadsFurther(code: Code, max: nat, s: State, t: State, step: Step)
    requires InRange(s) && InRange(t) && LeadsTo(code, max, s, t) && NoCommand([step])
    ensures LeadsTo(code, max, s, Next(code, max, t, step))
  {
    var steps :| NoCommand(steps) && Run(code, max, s, steps) == t;
    RunAppend(code, max, s, steps, [step]);
    RunSingle(code, max, t, step);
    assert [step][0] == step;
    assert NoCommand(steps + [step]);
  }

  lemma ReceiveChained(code: Code, max: nat, start: State, n: Net, junk: Junk)
    requires InRange(start) && Sane(n) && Enabled(n, Receive(junk)) && Chained(code, max, start, n)
    ensures Chained(code, max, start, NextNet(code, max, n, Receive(junk)))
  {
    var t := NextNet(code, max, n, Receive(junk));
    var m := |n.history|;
    assert AllFaithful(code, max, t.history);
    forall i | 0 <= i <= m + 1
      ensures LeadsTo(code, max, Left(code, start, t.history, i), Met(t, i))
    {
      if i <= m {
        assert Left(code, start, t.history, i) == Left(code, start, n.history, i) && Met(t, i) == Met(n, i);
      } else {
        LeadsNowhere(code, max, t.sys);
      }
    }
  }

  lemma StepChained(code: Code, max: nat, start: State, n: Net, t: Net, step: Step)
    requires InRange(start) && Sane(n) && Chained(code, max, start, n) && NoCommand([step])
    requires t.history == n.history && t.sys == Next(code, max, n.sys, step)
    ensures Chained(code, max, start, t)
  {
    var m := |n.history|;
    forall i | 0 <= i <= m
      ensures LeadsTo(code, max, Left(code, start, t.history, i), Met(t, i))
    {
      assert LeadsTo(code, max, Left(code, start, n.history, i), Met(n, i));
      if i == m {
        LeadsFurther(code, max, Left(code, start, n.history, m), n.sys, step);
      }
    }
  }

  /** The steps that touch neither the scheduler nor the record of what it served. */
  lemma SameChained(code: Code, max: nat, start: State, n: Net, t: Net)
    requires InRange(start) && Chained(code, max, start, n) && t.sys == n.sys && t.history == n.history
    ensures Chained(code, max, start, t)
  {
    assert forall i | 0 <= i <= |n.history| :: Met(t, i) == Met(n, i);
  }

  lemma NextChained(code: Code, max: nat, start: State, n: Net, step: NetStep)
    requires InRange(start) && Sane(n) && Enabled(n, step) && Chained(code, max, start, n)
    ensures Chained(code, max, start, NextNet(code, max, n, step))
  {
    var t := NextNet(code, max, n, step);
    match step
    case Receive(junk) => ReceiveChained(code, max, start, n, junk);
    case Advance => StepChained(code, max, start, n, t, Sweeping);
    case Work(k, work) => StepChained(code, max, start, n, t, Working(k, work));
    case _ => SameChained(code, max, start, n, t);
  }

  /** For any number of handlers, any schedule and any losses, the requests are
      served one after the other: between the beginnings of two lie the sweep of
      the first and steps of the workers, before, during and after it. */
  lemma {:induction false} RunChained(code: Code, max: nat, start: State, n: Net, steps: seq<NetStep>)
    requires InRange(start) && Sane(n) && Possible(code, max, n, steps) && Chained(code, max, start, n)
    ensures Chained(code, max, start, RunNet(code, max, n, steps))
    decreases |steps|
  {
    if steps != [] {
      NextChained(code, max, start, n, steps[0]);
      RunChained(code, max, start, NextNet(code, max, n, steps[0]), steps[1..]);
    }
  }

  lemma ChainedStart(code: Code, max: nat, n: Net)
    requires Sane(n) && n.history == []
    ensures Chained(code, max, n.sys, n)
  {
    LeadsNowhere(code, max, n.sys);
  }

  // ----- STATUS, as the client sees it -----

  lemma StatusReplies(code: Code, max: nat, x: Exchange)
    requires Faithful(code, max, x) && x.asked.request.command == STATUS
    ensures x.replies == Snapshots(Rows(x.before)) + [TextReply(x.asked.request, SUCCESS)]
    ensures Begun(code, x.before, x.asked.request, x.junk) == x.before
  {
  }

  /** The replies to one request stand together between those to earlier and later ones. */
  lemma {:induction false} MineSplit(history: seq<Exchange>, i: nat)
    requires i < |history|
    ensures var x := history[i];
            Mine(history, x.asked.asker) == Mine(history[..i], x.asked.asker) + Tagged(x.asked.asker, x.replies)
                                            + Mine(history[i + 1..], x.asked.asker)
    decreases |history|
  {
    var x := history[i];
    var h, m := x.asked.asker, |history| - 1;
    if i == m {
      assert history[i + 1..] == [];
    } else {
      MineSplit(history[..m], i);
      assert history[..m][..i] == history[..i] && history[..m][i + 1..] == history[i + 1..][..m - i - 1];
    }
  }

  /** Every STATUS that an idle handler ever asked, in a polite run: its client has got,
      in one piece and between its other replies, a snapshot of every entry in queue
      order and one SUCCESS. The snapshots are of a state that the server was in when
      all requests before it, and no other, had begun, and serving it changed nothing. */
  lemma StatusCall(code: Code, max: nat, start: State, n: Net, steps: seq<NetStep>, t: Net, i: nat)
    requires InRange(start) && Sane(n) && Possible(code, max, n, steps) && PoliteRun(code, max, n, steps)
    requires Atomic(code, max, n) && Chained(code, max, start, n) && t == RunNet(code, max, n, steps)
    requires i < |t.history| && t.history[i].asked.request.command == STATUS
    requires !WaitsFor(t, t.history[i].asked.asker)
    ensures var x := t.history[i];
            var h := x.asked.asker;
            && h < |t.handlers| && InRange(x.before)
            && t.handlers[h].got == Mine(t.history[..i], h)
                                    + Tagged(h, Snapshots(Rows(x.before)) + [TextReply(x.asked.request, SUCCESS)])
                                    + Mine(t.history[i + 1..], h)
            && (forall k | 0 <= k < |t.history| :: InRange(t.history[k].before) && t.history[k].before.sweep.Idle?)
            && LeadsTo(code, max, Left(code, start, t.history, i), x.before)
            && Left(code, start, t.history, i + 1) == x.before
  {
    RunAtomic(code, max, n, steps);
    RunChained(code, max, start, n, steps);
    var x := t.history[i];
    IdleHasAll(code, max, t, x.asked.asker);
    MineSplit(t.history, i);
    StatusReplies(code, max, x);
    assert LeadsTo(code, max, Left(code, start, t.history, i), Met(t, i));
  }

  // ----- safety of the whole server -----

  lemma BegunReachable(code: Code, max: nat, s: State, request: Request, junk: Junk)
    requires InRange(s) && s.sweep.Idle? && Reachable(code, max, s)
    ensures Reachable(code, max, Begun(code, s, request, junk))
  {
    BegunByStep(code, max, s, request, junk);
    ReachRun(code, max, s, CommandStep(request, junk));
  }

  lemma NextReachable(code: Code, max: nat, n: Net, step: NetStep)
    requires Sane(n) && Enabled(n, step) && Reachable(code, max, n.sys)
    ensures Reachable(code, max, NextNet(code, max, n, step).sys)
  {
    match step
    case Receive(junk) => BegunReachable(code, max, n.sys, n.input[0].request, junk);
    case Advance => ReachNext(code, max, n.sys, Sweeping);
    case Work(k, work) => ReachNext(code, max, n.sys, Working(k, work));
    case _ =>
  }

  lemma {:induction false} RunReachable(code: Code, max: nat, n: Net, steps: seq<NetStep>)
    requires Sane(n) && Possible(code, max, n, steps) && Reachable(code, max, n.sys)
    ensures Reachable(code, max, RunNet(code, max, n, steps).sys)
    decreases |steps|
  {
    if steps != [] {
      NextReachable(code, max, n, steps[0]);
      RunReachable(code, max, NextNet(code, max, n, steps[0]), steps[1..]);
    }
  }

  /** What the scheduler keeps on its own it keeps in the server: whatever clients
      ask and however messages, sweep and workers are scheduled or messages lost,
      names stay distinct, and with the repairs both caps are kept and the queue and
      the thread list agree. */
  lemma ServerSafe(code: Code, max: nat, n: Net, steps: seq<NetStep>)
    requires Sane(n) && Possible(code, max, n, steps) && Reachable(code, max, n.sys)
    ensures var s := RunNet(code, max, n, steps).sys;
            && WellFormed(s)
            && (max == 0 || (code.countStarting && code.stopStarting) ==> WithinCap(max, s))
            && (max == 0 || (code.countStarting && RecordsDropped(code)) ==> LiveCount(s.threads) <= max)
            && (max == 0 || RecordsRepaired(code) ==> ListsAgree(s))
  {
    RunReachable(code, max, n, steps);
    ReachWellFormed(code, max, RunNet(code, max, n, steps).sys);
    CapExact(code, max);
    LiveCapExact(code, max);
    AgreementExact(code, max);
  }
}
