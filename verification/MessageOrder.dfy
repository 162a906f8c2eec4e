/** The order of messages and of the steps of the scheduler, for any number of handlers,
    any schedule and any losses: both queues are served oldest first, so what is where
    follows from the schedule alone. */
module MessageOrder {
  import opened Entries
  import opened Scheduler
  import opened Commands
  import opened Protocol
  import opened AtomicCalls

  // ----- requests -----

  /** The requests that a schedule puts into the input queue. */
  function AskedBy(steps: seq<NetStep>): seq<Asked> {
    if steps == [] then []
    else
      (if steps[0].Ask? && steps[0].sent then [Asked(steps[0].h, steps[0].request)] else []) + AskedBy(steps[1..])
  }

  ghost predicate RequestsInOrder(n: Net) {
    n.asked == AskedIn(n.history) + n.input
  }

  lemma NextRequests(code: Code, max: nat, n: Net, step: NetStep)
    requires Sane(n) && Enabled(n, step) && RequestsInOrder(n)
    ensures var t := NextNet(code, max, n, step);
            RequestsInOrder(t) && t.asked == n.asked + AskedBy([step]) && n.history <= t.history
  {
    var t := NextNet(code, max, n, step);
    assert AskedBy([step][1..]) == [];
    if step.Ask? && step.sent {
      Associate(AskedIn(n.history), n.input, [Asked(step.h, step.request)]);
    } else if step.Receive? {
      assert AskedIn(t.history) == AskedIn(n.history) + [n.input[0]];
      Associate(AskedIn(n.history), [n.input[0]], n.input[1..]);
      assert [n.input[0]] + n.input[1..] == n.input;
    }
  }

  lemma Associate<X>(a: seq<X>, b: seq<X>, c: seq<X>)
    ensures a + b + c == a + (b + c)
  {
  }

  lemma {:induction false} RunRequests(code: Code, max: nat, n: Net, steps: seq<NetStep>)
    requires Sane(n) && Possible(code, max, n, steps) && RequestsInOrder(n)
    ensures var t := RunNet(code, max, n, steps);
            RequestsInOrder(t) && t.asked == n.asked + AskedBy(steps) && n.history <= t.history
    decreases |steps|
  {
    if steps != [] {
      var next := NextNet(code, max, n, steps[0]);
      NextRequests(code, max, n, steps[0]);
      RunRequests(code, max, next, steps[1..]);
      AskedByFirst(steps);
      Associate(n.asked, AskedBy([steps[0]]), AskedBy(steps[1..]));
    }
  }

  lemma AskedByFirst(steps: seq<NetStep>)
    requires steps != []
    ensures AskedBy(steps) == AskedBy([steps[0]]) + AskedBy(steps[1..])
  {
    assert AskedBy([steps[0]][1..]) == [];
  }

  /** The requests served so far and those still pending are, in this order, the requests
      that were sent: the controller always takes the oldest, and takes each once. */
  lemma ServedInOrder(code: Code, max: nat, n: Net, steps: seq<NetStep>)
    requires Sane(n) && Quiet(n) && Possible(code, max, n, steps)
    ensures var t := RunNet(code, max, n, steps);
            && t.asked == AskedIn(t.history) + t.input
            && AskedBy(steps) == AskedIn(t.history) + t.input
            && forall i | 0 <= i < |t.history| :: i < |AskedBy(steps)| && t.history[i].asked == AskedBy(steps)[i]
  {
    assert AskedIn(n.history) == [];
    RunRequests(code, max, n, steps);
    var t := RunNet(code, max, n, steps);
    assert forall i | 0 <= i < |t.history| :: (AskedIn(t.history) + t.input)[i] == t.history[i].asked;
  }

  // ----- what the scheduler does -----

  /** The steps of the scheduler that a schedule of the server amounts to, when `pending`
      is in the input queue: a command for the oldest request at each receive, and the
      accesses of the sweep and the steps of the workers as they come. */
  function Project(pending: seq<Asked>, steps: seq<NetStep>): seq<Step>
    decreases |steps|
  {
    if steps == [] then []
    else
      var rest := steps[1..];
      match steps[0]
      case Ask(h, request, sent) => Project(if sent then pending + [Asked(h, request)] else pending, rest)
      case Receive(junk) =>
        if pending == [] then [] else CommandStep(pending[0].request, junk) + Project(pending[1..], rest)
      case Advance => [Sweeping] + Project(pending, rest)
      case Work(k, work) => [Working(k, work)] + Project(pending, rest)
      case Send(_) => Project(pending, rest)
      case Forward(_) => Project(pending, rest)
  }

  lemma ProjectFirst(code: Code, max: nat, n: Net, steps: seq<NetStep>) returns (first: seq<Step>)
    requires Sane(n) && steps != [] && Enabled(n, steps[0])
    ensures var t := NextNet(code, max, n, steps[0]);
            && Project(n.input, steps) == first + Project(t.input, steps[1..])
            && t.sys == Run(code, max, n.sys, first)
  {
    match steps[0]
    case Receive(junk) =>
      first := CommandStep(n.input[0].request, junk);
      BegunByStep(code, max, n.sys, n.input[0].request, junk);
    case Advance =>
      first := [Sweeping];
      RunSingle(code, max, n.sys, Sweeping);
    case Work(k, work) =>
      first := [Working(k, work)];
      RunSingle(code, max, n.sys, Working(k, work));
    case _ =>
      first := [];
      assert [] + Project(NextNet(code, max, n, steps[0]).input, steps[1..])
             == Project(NextNet(code, max, n, steps[0]).input, steps[1..]);
  }

  /** A run of the whole server is, for the scheduler, the run of exactly those steps. */
  lemma {:induction false} RunProjects(code: Code, max: nat, n: Net, steps: seq<NetStep>)
    requires Sane(n) && Possible(code, max, n, steps)
    ensures RunNet(code, max, n, steps).sys == Run(code, max, n.sys, Project(n.input, steps))
    decreases |steps|
  {
    if steps != [] {
      var t := NextNet(code, max, n, steps[0]);
      var first := ProjectFirst(code, max, n, steps);
      RunProjects(code, max, t, steps[1..]);
      RunAppend(code, max, n.sys, first, Project(t.input, steps[1..]));
    }
  }

  // ----- replies -----

  /** All replies that were fetched, in the order they were. */
  function Fetched(history: seq<Exchange>): seq<Message> {
    if history == [] then []
    else
      var m := |history| - 1;
      Fetched(history[..m]) + Tagged(history[m].asked.asker, history[m].replies)
  }

  /** The messages that were sent with success, given how each send ended. */
  function Kept(messages: seq<Message>, sends: seq<bool>): (r: seq<Message>)
    requires |sends| <= |messages|
  {
    if sends == [] then []
    else
      var m := |sends| - 1;
      Kept(messages, sends[..m]) + if sends[m] then [messages[m]] else []
  }

  /** The messages that handler `h` took, given who took each. */
  function Dealt(messages: seq<Message>, takers: seq<nat>, h: nat): (r: seq<Message>)
    requires |takers| <= |messages|
  {
    if takers == [] then []
    else
      var m := |takers| - 1;
      Dealt(messages, takers[..m], h) + if takers[m] == h then [messages[m]] else []
  }

  function SendsOf(steps: seq<NetStep>): seq<bool> {
    if steps == [] then [] else (if steps[0].Send? then [steps[0].sent] else []) + SendsOf(steps[1..])
  }

  function TakersOf(steps: seq<NetStep>): seq<nat> {
    if steps == [] then [] else (if steps[0].Forward? then [steps[0].h] else []) + TakersOf(steps[1..])
  }

  /** Where every reply is, after `sends` and `takers`. */
  ghost predicate RepliesInOrder(n: Net, sends: seq<bool>, takers: seq<nat>) {
    var fetched := Fetched(n.history);
    && |sends| <= |fetched| && n.outbox == fetched[|sends|..]
    && var kept := Kept(fetched, sends);
       && |takers| <= |kept| && n.output == kept[|takers|..]
       && forall h | 0 <= h < |n.handlers| :: n.handlers[h].got == Dealt(kept, takers, h)
  }

  lemma {:induction false} KeptMore(messages: seq<Message>, more: seq<Message>, sends: seq<bool>)
    requires |sends| <= |messages|
    ensures Kept(messages + more, sends) == Kept(messages, sends)
    decreases |sends|
  {
    if sends != [] {
      KeptMore(messages, more, sends[..|sends| - 1]);
    }
  }

  lemma {:induction false} DealtMore(messages: seq<Message>, more: seq<Message>, takers: seq<nat>, h: nat)
    requires |takers| <= |messages|
    ensures Dealt(messages + more, takers, h) == Dealt(messages, takers, h)
    decreases |takers|
  {
    if takers != [] {
      DealtMore(messages, more, takers[..|takers| - 1], h);
    }
  }

  lemma FetchedAppend(history: seq<Exchange>, x: Exchange)
    ensures Fetched(history + [x]) == Fetched(history) + Tagged(x.asked.asker, x.replies)
  {
    assert (history + [x])[..|history|] == history;
  }

  lemma ReceiveReplies(n: Net, t: Net, x: Exchange, sends: seq<bool>, takers: seq<nat>)
    requires RepliesInOrder(n, sends, takers) && n.outbox == []
    requires t.handlers == n.handlers && t.output == n.output && t.history == n.history + [x]
    requires t.outbox == Tagged(x.asked.asker, x.replies)
    ensures RepliesInOrder(t, sends, takers)
  {
    FetchedAppend(n.history, x);
    KeptMore(Fetched(n.history), t.outbox, sends);
  }

  lemma SendReplies(n: Net, t: Net, sends: seq<bool>, takers: seq<nat>, sent: bool)
    requires RepliesInOrder(n, sends, takers) && n.outbox != []
    requires t.handlers == n.handlers && t.history == n.history && t.outbox == n.outbox[1..]
    requires t.output == n.output + if sent then [n.outbox[0]] else []
    ensures RepliesInOrder(t, sends + [sent], takers)
  {
    var fetched := Fetched(n.history);
    var kept := Kept(fetched, sends);
    assert (sends + [sent])[..|sends|] == sends;
    var more := if sent then [n.outbox[0]] else [];
    assert Kept(fetched, sends + [sent]) == kept + more;
    assert (kept + more)[|takers|..] == kept[|takers|..] + more;
    forall h | 0 <= h < |n.handlers|
      ensures t.handlers[h].got == Dealt(kept + more, takers, h)
    {
      DealtMore(kept, more, takers, h);
    }
  }

  lemma ForwardReplies(n: Net, t: Net, sends: seq<bool>, takers: seq<nat>, h: nat)
    requires RepliesInOrder(n, sends, takers) && n.output != [] && h < |n.handlers| == |t.handlers|
    requires t.history == n.history && t.outbox == n.outbox && t.output == n.output[1..]
    requires t.handlers[h].got == n.handlers[h].got + [n.output[0]]
    requires forall g | 0 <= g < |n.handlers| && g != h :: t.handlers[g].got == n.handlers[g].got
    ensures RepliesInOrder(t, sends, takers + [h])
  {
    var kept := Kept(Fetched(n.history), sends);
    assert (takers + [h])[..|takers|] == takers;
    assert kept[|takers|] == n.output[0];
    forall g | 0 <= g < |t.handlers|
      ensures t.handlers[g].got == Dealt(kept, takers + [h], g)
    {
      assert n.handlers[g].got + [] == n.handlers[g].got;
    }
  }

  lemma SameReplies(n: Net, t: Net, sends: seq<bool>, takers: seq<nat>)
    requires RepliesInOrder(n, sends, takers) && |t.handlers| == |n.handlers|
    requires t.history == n.history && t.outbox == n.outbox && t.output == n.output
    requires forall g | 0 <= g < |n.handlers| :: t.handlers[g].got == n.handlers[g].got
    ensures RepliesInOrder(t, sends, takers)
  {
  }

  lemma StepReplies(
      code: Code, max: nat, n: Net, step: NetStep, sends: seq<bool>, takers: seq<nat>, moreSends: seq<bool>,
      moreTakers: seq<nat>)
    requires Sane(n) && Enabled(n, step) && RepliesInOrder(n, sends, takers)
    requires moreSends == if step.Send? then sends + [step.sent] else sends
    requires moreTakers == if step.Forward? then takers + [step.h] else takers
    ensures RepliesInOrder(NextNet(code, max, n, step), moreSends, moreTakers)
  {
    var t := NextNet(code, max, n, step);
    if step.Receive? {
      ReceiveReplies(n, t, t.history[|n.history|], sends, takers);
    } else if step.Send? {
      SendReplies(n, t, sends, takers, step.sent);
    } else if step.Forward? {
      ForwardReplies(n, t, sends, takers, step.h);
    } else {
      SameReplies(n, t, sends, takers);
    }
  }

  lemma OneMore(steps: seq<NetStep>, sends: seq<bool>, takers: seq<nat>, moreSends: seq<bool>, moreTakers: seq<nat>)
    requires steps != []
    requires moreSends == if steps[0].Send? then sends + [steps[0].sent] else sends
    requires moreTakers == if steps[0].Forward? then takers + [steps[0].h] else takers
    ensures moreSends + SendsOf(steps[1..]) == sends + SendsOf(steps)
    ensures moreTakers + TakersOf(steps[1..]) == takers + TakersOf(steps)
  {
    if steps[0].Send? {
      Associate(sends, [steps[0].sent], SendsOf(steps[1..]));
    } else {
      assert [] + SendsOf(steps[1..]) == SendsOf(steps[1..]);
    }
    if steps[0].Forward? {
      Associate(takers, [steps[0].h], TakersOf(steps[1..]));
    } else {
      assert [] + TakersOf(steps[1..]) == TakersOf(steps[1..]);
    }
  }

  lemma {:induction false} RunReplies(
      code: Code, max: nat, n: Net, steps: seq<NetStep>, sends: seq<bool>, takers: seq<nat>)
    requires Sane(n) && Possible(code, max, n, steps) && RepliesInOrder(n, sends, takers)
    ensures RepliesInOrder(RunNet(code, max, n, steps), sends + SendsOf(steps), takers + TakersOf(steps))
    decreases |steps|
  {
    if steps == [] {
      assert sends + [] == sends && takers + [] == takers;
    } else {
      var moreSends := if steps[0].Send? then sends + [steps[0].sent] else sends;
      var moreTakers := if steps[0].Forward? then takers + [steps[0].h] else takers;
      StepReplies(code, max, n, steps[0], sends, takers, moreSends, moreTakers);
      RunReplies(code, max, NextNet(code, max, n, steps[0]), steps[1..], moreSends, moreTakers);
      OneMore(steps, sends, takers, moreSends, moreTakers);
    }
  }

  /** The replies fetched leave the controller oldest first, those that were not lost leave
      the output queue oldest first, and every handler has got exactly the ones it took. */
  lemma DeliveredInOrder(code: Code, max: nat, n: Net, steps: seq<NetStep>)
    requires Sane(n) && Quiet(n) && Possible(code, max, n, steps)
    ensures RepliesInOrder(RunNet(code, max, n, steps), SendsOf(steps), TakersOf(steps))
  {
    assert RepliesInOrder(n, [], []);
    RunReplies(code, max, n, steps, [], []);
    assert [] + SendsOf(steps) == SendsOf(steps) && [] + TakersOf(steps) == TakersOf(steps);
  }

  // ----- who waits -----

  /** What each party waits for, and for nothing else: a handler asks unless it waits for an
      answer, and then takes whatever is in the output queue; the controller receives when
      it has neither replies to send nor a sweep to make, makes the sweep first, and then
      sends; a worker waits for nobody. */
  lemma EnabledExact(n: Net, h: nat, request: Request, junk: Junk, ok: bool, k: nat, work: Work)
    ensures Enabled(n, Ask(h, request, ok)) <==> h < |n.handlers| && !n.handlers[h].waiting
    ensures Enabled(n, Forward(h)) <==> h < |n.handlers| && n.handlers[h].waiting && |n.output| > 0
    ensures Enabled(n, Receive(junk)) <==> |n.outbox| == 0 && n.sys.sweep == Idle && |n.input| > 0
    ensures Enabled(n, Advance) <==> n.sys.sweep != Idle
    ensures Enabled(n, Send(ok)) <==> |n.outbox| > 0 && n.sys.sweep == Idle
    ensures Enabled(n, Work(k, work))
  {
  }

  /** How often handler `h` asks. */
  function AsksOf(steps: seq<NetStep>, h: nat): nat {
    if steps == [] then 0 else (if steps[0].Ask? && steps[0].h == h then 1 else 0) + AsksOf(steps[1..], h)
  }

  function Unanswered(x: Handler): nat {
    if x.waiting then 1 else 0
  }

  /** A handler waits exactly when it has asked once more than it has got terminal replies. */
  lemma {:induction false} RunWaits(code: Code, max: nat, n: Net, steps: seq<NetStep>, h: nat)
    requires Sane(n) && Possible(code, max, n, steps) && h < |n.handlers|
    ensures var x, y := n.handlers[h], RunNet(code, max, n, steps).handlers[h];
            Terminals(x.got) + Unanswered(x) + AsksOf(steps, h) == Terminals(y.got) + Unanswered(y)
    decreases |steps|
  {
    if steps != [] {
      if steps[0].Forward? {
        TerminalsAppend(n.handlers[steps[0].h].got, n.output[0]);
      }
      RunWaits(code, max, NextNet(code, max, n, steps[0]), steps[1..], h);
    }
  }
}
