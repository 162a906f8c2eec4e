/** What a run can reach: the states in which the server may start, and those it gets
    to from there by any steps. */
module Reachability {
  import opened Entries
  import opened Scheduler
  import opened SchedulerInvariants
  import opened SweepTheory

  /** The states a controller starts from: an empty queue, or one just loaded. */
  ghost predicate Starts(s: State) {
    && WellFormed(s) && s.threads == [] && (s.sweep.Idle? || s.sweep == Look(0))
    && forall e | 0 <= e < |s.entries| :: !Active(s.entries[e].status) && !s.entries[e].status.CANCELLED?
  }

  ghost predicate Reachable(code: Code, max: nat, s: State) {
    exists start, steps :: Starts(start) && Run(code, max, start, steps) == s
  }

  lemma ReachStart(code: Code, max: nat, s: State)
    requires Starts(s)
    ensures Reachable(code, max, s)
  {
    assert Run(code, max, s, []) == s;
  }

  lemma ReachRun(code: Code, max: nat, s: State, steps: seq<Step>)
    requires InRange(s) && Reachable(code, max, s)
    ensures Reachable(code, max, Run(code, max, s, steps))
  {
    var start, before :| Starts(start) && Run(code, max, start, before) == s;
    RunAppend(code, max, start, before, steps);
  }

  lemma ReachNext(code: Code, max: nat, s: State, step: Step)
    requires InRange(s) && Reachable(code, max, s)
    ensures Reachable(code, max, Next(code, max, s, step))
  {
    ReachRun(code, max, s, [step]);
    RunSingle(code, max, s, step);
  }

  lemma ReachSweepStep(code: Code, max: nat, s: State)
    requires InRange(s) && Reachable(code, max, s)
    ensures Reachable(code, max, SweepStep(code, max, s))
  {
    ReachNext(code, max, s, Sweeping);
  }

  lemma ReachSweep(code: Code, max: nat, s: State)
    requires InRange(s) && s.sweep.Look? && Reachable(code, max, s)
    ensures Reachable(code, max, SweepFrom(code, max, s))
  {
    var n := SweepRun(code, max, s);
    SweepStepsRun(code, max, s, n);
    ReachRun(code, max, s, seq(n, _ => Sweeping));
  }

  lemma ReachWellFormed(code: Code, max: nat, s: State)
    requires Reachable(code, max, s)
    ensures WellFormed(s)
  {
    var start, steps :| Starts(start) && Run(code, max, start, steps) == s;
    RunWellFormed(code, max, start, steps);
  }

  lemma {:induction false} RunKeepsWorkers(code: Code, max: nat, s: State, steps: seq<Step>)
    requires code.stopStarting && WorkersAgree(code, s)
    ensures WorkersAgree(code, Run(code, max, s, steps))
    decreases |steps|
  {
    if steps != [] {
      NextKeepsWorkers(code, max, s, steps[0]);
      RunKeepsWorkers(code, max, Next(code, max, s, steps[0]), steps[1..]);
    }
  }

  lemma ReachWorkers(code: Code, max: nat, s: State)
    requires code.stopStarting && Reachable(code, max, s)
    ensures WorkersAgree(code, s)
  {
    var start, steps :| Starts(start) && Run(code, max, start, steps) == s;
    RunKeepsWorkers(code, max, start, steps);
  }

  // ----- a limit of no downloads at all -----

  /** Nothing is active and no thread exists. */
  predicate Dormant(s: State) {
    && InRange(s) && s.threads == []
    && (forall e | 0 <= e < |s.entries| :: !Active(s.entries[e].status))
    && !s.sweep.Mark? && !s.sweep.Spawn?
    && (s.sweep.Count? ==> s.entries[s.queue[s.sweep.i]].status.WAITING?)
  }

  lemma DormantAgrees(code: Code, s: State)
    requires WellFormed(s) && Dormant(s)
    ensures WorkersAgree(code, s)
  {
  }

  lemma NextDormant(code: Code, s: State, step: Step)
    requires Dormant(s)
    ensures Dormant(Next(code, 0, s, step))
  {
    if s.sweep.Idle? && (step.Pause? || step.Cancel? || step.Restart?) {
      CommandsDormant(code, s, step.name);
    }
  }

  lemma CommandsDormant(code: Code, s: State, name: string)
    requires Dormant(s) && s.sweep.Idle?
    ensures Dormant(QueuePause(code, s, name).0) && Dormant(QueueCancel(code, s, name).0)
            && Dormant(QueueRestart(s, name).0)
  {
  }

  lemma {:induction false} RunDormant(code: Code, s: State, steps: seq<Step>)
    requires Dormant(s)
    ensures Dormant(Run(code, 0, s, steps))
    decreases |steps|
  {
    if steps != [] {
      NextDormant(code, s, steps[0]);
      RunDormant(code, Next(code, 0, s, steps[0]), steps[1..]);
    }
  }

  /** With a limit of zero nothing ever starts, whatever the code. */
  lemma ReachDormant(code: Code, s: State)
    requires Reachable(code, 0, s)
    ensures WellFormed(s) && Dormant(s) && WorkersAgree(code, s)
  {
    ReachWellFormed(code, 0, s);
    var start, steps :| Starts(start) && Run(code, 0, start, steps) == s;
    RunDormant(code, start, steps);
    DormantAgrees(code, s);
  }
}
