/** The request/reply protocol of `server.c` and `controller.c`: any number of
    forked handlers and one controller share one input and one output queue.

    A handler sends a request and forwards whatever comes out of the output queue
    to its client until a reply is terminal. The controller takes one request at a
    time, begins to serve it, makes its sweep one access at a time, and then sends
    its replies one by one. Sends may be lost; receives wait.

    Requests and replies are tagged here with the handler that asked. No step looks
    at a tag: the messages of the source do not carry one. */
module Protocol {
  import opened Entries
  import opened Scheduler
  import opened SchedulerInvariants
  import opened Commands

  datatype Asked = Asked(asker: nat, request: Request)

  datatype Message = Message(asker: nat, reply: Reply)

  datatype Handler = Handler(waiting: bool, got: seq<Message>)

  /** One request as the controller served it. */
  datatype Exchange = Exchange(before: State, asked: Asked, junk: Junk, replies: seq<Reply>)

  datatype Net = Net(
    handlers: seq<Handler>,
    input: seq<Asked>,
    outbox: seq<Message>,    // what the controller still has to send for the request it serves
    output: seq<Message>,
    sys: State,
    lostRequests: nat,       // requests dropped after the last retry
    lostTerminals: nat,      // terminal replies dropped after the last retry
    mute: nat,               // requests whose last reply is not terminal
    asked: seq<Asked>,       // requests put into the input queue so far
    history: seq<Exchange>   // requests taken out of it so far
  )

  predicate Terminal(m: Message) {
    m.reply.status != PROCESSING
  }

  predicate Busy(n: Net) {
    n.outbox != [] && Terminal(n.outbox[|n.outbox| - 1])
  }

  function Tagged(asker: nat, replies: seq<Reply>): (r: seq<Message>)
    ensures |r| == |replies| && forall i | 0 <= i < |r| :: r[i] == Message(asker, replies[i])
  {
    seq(|replies|, i requires 0 <= i < |replies| => Message(asker, replies[i]))
  }

  datatype NetStep =
    | Ask(h: nat, request: Request, sent: bool)
    | Receive(junk: Junk)
    | Advance
    | Send(sent: bool)
    | Forward(h: nat)
    | Work(k: nat, work: Work)

  predicate Sane(n: Net) {
    InRange(n.sys)
  }

  predicate Enabled(n: Net, step: NetStep) {
    match step
    case Ask(h, _, _) => h < |n.handlers| && !n.handlers[h].waiting
    case Receive(_) => n.outbox == [] && n.sys.sweep.Idle? && n.input != []
    case Advance => !n.sys.sweep.Idle?
    case Send(_) => n.outbox != [] && n.sys.sweep.Idle?
    case Forward(h) => h < |n.handlers| && n.handlers[h].waiting && n.output != []
    case Work(_, _) => true
  }

  function NextNet(code: Code, max: nat, n: Net, step: NetStep): (r: Net)
    requires Sane(n) && Enabled(n, step)
    ensures Sane(r) && |r.handlers| == |n.handlers|
  {
    match step
    case Ask(h, request, sent) =>
      var asking := n.(handlers := n.handlers[h := n.handlers[h].(waiting := true)]);
      if sent then asking.(input := n.input + [Asked(h, request)], asked := n.asked + [Asked(h, request)])
      else asking.(lostRequests := n.lostRequests + 1)
    case Receive(junk) =>
      var x := n.input[0];
      var replies := Serve(code, max, n.sys, x.request, junk).replies;
      n.(input := n.input[1..], outbox := Tagged(x.asker, replies), sys := Begun(code, n.sys, x.request, junk),
         mute := n.mute + if replies[|replies| - 1].status == PROCESSING then 1 else 0,
         history := n.history + [Exchange(n.sys, x, junk, replies)])
    case Advance => n.(sys := SweepStep(code, max, n.sys))
    case Send(sent) =>
      var sending := n.(outbox := n.outbox[1..]);
      if sent then sending.(output := n.output + [n.outbox[0]])
      else sending.(lostTerminals := n.lostTerminals + if Terminal(n.outbox[0]) then 1 else 0)
    case Forward(h) =>
      var m := n.output[0];
      n.(output := n.output[1..],
         handlers := n.handlers[h := Handler(!Terminal(m), n.handlers[h].got + [m])])
    case Work(k, work) => n.(sys := WorkerStep(code, n.sys, k, work))
  }

  predicate Possible(code: Code, max: nat, n: Net, steps: seq<NetStep>)
    requires Sane(n)
    decreases |steps|
  {
    steps == [] || (Enabled(n, steps[0]) && Possible(code, max, NextNet(code, max, n, steps[0]), steps[1..]))
  }

  function RunNet(code: Code, max: nat, n: Net, steps: seq<NetStep>): (r: Net)
    requires Sane(n) && Possible(code, max, n, steps)
    ensures Sane(r) && |r.handlers| == |n.handlers|
    decreases |steps|
  {
    if steps == [] then n else RunNet(code, max, NextNet(code, max, n, steps[0]), steps[1..])
  }

  lemma RunFirst(code: Code, max: nat, n: Net, step: NetStep, rest: seq<NetStep>)
    requires Sane(n) && Enabled(n, step) && Possible(code, max, NextNet(code, max, n, step), rest)
    ensures Possible(code, max, n, [step] + rest)
    ensures RunNet(code, max, n, [step] + rest) == RunNet(code, max, NextNet(code, max, n, step), rest)
  {
    assert ([step] + rest)[1..] == rest;
  }

  // ----- conservation -----

  function Waiters(handlers: seq<Handler>): nat {
    if handlers == [] then 0
    else Waiters(handlers[..|handlers| - 1]) + if handlers[|handlers| - 1].waiting then 1 else 0
  }

  function Terminals(messages: seq<Message>): nat {
    if messages == [] then 0
    else Terminals(messages[..|messages| - 1]) + if Terminal(messages[|messages| - 1]) then 1 else 0
  }

  lemma {:induction false} WaitersUpdate(handlers: seq<Handler>, h: nat, x: Handler)
    requires h < |handlers|
    ensures Waiters(handlers[h := x])
            == Waiters(handlers) - (if handlers[h].waiting then 1 else 0) + (if x.waiting then 1 else 0)
  {
    var m := |handlers| - 1;
    if h < m {
      assert handlers[h := x][..m] == handlers[..m][h := x];
      WaitersUpdate(handlers[..m], h, x);
    } else {
      assert handlers[h := x][..m] == handlers[..m];
    }
  }

  lemma {:induction false} TerminalsTail(messages: seq<Message>)
    requires messages != []
    ensures Terminals(messages) == Terminals(messages[1..]) + if Terminal(messages[0]) then 1 else 0
  {
    var m := |messages| - 1;
    if m > 0 {
      assert messages[1..][..m - 1] == messages[..m][1..];
      TerminalsTail(messages[..m]);
    }
  }

  lemma TerminalsAppend(messages: seq<Message>, m: Message)
    ensures Terminals(messages + [m]) == Terminals(messages) + if Terminal(m) then 1 else 0
  {
    assert (messages + [m])[..|messages|] == messages;
  }

  /** All replies to one request but the last are PROCESSING. */
  predicate OnlyLastTerminal(messages: seq<Message>) {
    forall i | 0 <= i < |messages| - 1 :: !Terminal(messages[i])
  }

  function Losses(n: Net): nat {
    n.lostRequests + n.lostTerminals + n.mute
  }

  /** Every waiting handler is accounted for by one request on its way, by the
      request being served, by one terminal reply on its way, or by one loss. */
  predicate Conserved(n: Net) {
    && OnlyLastTerminal(n.outbox)
    && Waiters(n.handlers) == |n.input| + (if Busy(n) then 1 else 0) + Terminals(n.output) + Losses(n)
  }

  lemma AskConserves(code: Code, max: nat, n: Net, h: nat, request: Request, sent: bool)
    requires Sane(n) && Enabled(n, Ask(h, request, sent)) && Conserved(n)
    ensures Conserved(NextNet(code, max, n, Ask(h, request, sent)))
  {
    WaitersUpdate(n.handlers, h, n.handlers[h].(waiting := true));
  }

  lemma ReceiveConserves(code: Code, max: nat, n: Net, junk: Junk)
    requires Sane(n) && Enabled(n, Receive(junk)) && Conserved(n)
    ensures Conserved(NextNet(code, max, n, Receive(junk)))
  {
    ServeReplies(code, max, n.sys, n.input[0].request, junk);
  }

  lemma SendConserves(code: Code, max: nat, n: Net, sent: bool)
    requires Sane(n) && Enabled(n, Send(sent)) && Conserved(n)
    ensures Conserved(NextNet(code, max, n, Send(sent)))
  {
    TerminalsAppend(n.output, n.outbox[0]);
  }

  lemma ForwardConserves(code: Code, max: nat, n: Net, h: nat)
    requires Sane(n) && Enabled(n, Forward(h)) && Conserved(n)
    ensures Conserved(NextNet(code, max, n, Forward(h)))
  {
    TerminalsTail(n.output);
    WaitersUpdate(n.handlers, h, Handler(!Terminal(n.output[0]), n.handlers[h].got + [n.output[0]]));
  }

  lemma NextConserves(code: Code, max: nat, n: Net, step: NetStep)
    requires Sane(n) && Enabled(n, step) && Conserved(n)
    ensures Conserved(NextNet(code, max, n, step))
  {
    match step
    case Ask(h, request, sent) => AskConserves(code, max, n, h, request, sent);
    case Receive(junk) => ReceiveConserves(code, max, n, junk);
    case Send(sent) => SendConserves(code, max, n, sent);
    case Forward(h) => ForwardConserves(code, max, n, h);
    case Advance =>
    case Work(k, work) =>
  }

  /** Conservation over every run, for any number of handlers and any schedule. */
  lemma {:induction false} RunConserves(code: Code, max: nat, n: Net, steps: seq<NetStep>)
    requires Sane(n) && Possible(code, max, n, steps) && Conserved(n)
    ensures Conserved(RunNet(code, max, n, steps))
    decreases |steps|
  {
    if steps != [] {
      NextConserves(code, max, n, steps[0]);
      RunConserves(code, max, NextNet(code, max, n, steps[0]), steps[1..]);
    }
  }

  // ----- progress -----

  predicate Moving(step: NetStep) {
    step.Receive? || step.Advance? || step.Send? || step.Forward?
  }

  /** Nothing can move: no sweep to make, nothing to receive or send, and nobody to
      forward to. */
  predicate Quiescent(n: Net) {
    && n.sys.sweep.Idle? && n.input == [] && n.outbox == []
    && (n.output == [] || Waiters(n.handlers) == 0)
  }

  lemma {:induction false} SomeWaiter(handlers: seq<Handler>) returns (h: nat)
    requires Waiters(handlers) > 0
    ensures h < |handlers| && handlers[h].waiting
  {
    h := |handlers| - 1;
    if !handlers[h].waiting {
      h := SomeWaiter(handlers[..h]);
    }
  }

  lemma {:induction false} WaiterCounts(handlers: seq<Handler>, h: nat)
    requires h < |handlers| && handlers[h].waiting
    ensures Waiters(handlers) > 0
    decreases |handlers|
  {
    if h < |handlers| - 1 {
      WaiterCounts(handlers[..|handlers| - 1], h);
    }
  }

  /** `Quiescent` is exactly that no moving step is enabled. */
  lemma QuiescentExact(n: Net, junk: Junk)
    ensures Quiescent(n) <==> forall step | Moving(step) :: !Enabled(n, step)
  {
    if !Quiescent(n) {
      if !n.sys.sweep.Idle? {
        assert Moving(Advance) && Enabled(n, Advance);
      } else if n.outbox != [] {
        assert Moving(Send(true)) && Enabled(n, Send(true));
      } else if n.input != [] {
        assert Moving(Receive(junk)) && Enabled(n, Receive(junk));
      } else {
        var h := SomeWaiter(n.handlers);
        assert Moving(Forward(h)) && Enabled(n, Forward(h));
      }
    } else {
      forall step | Moving(step)
        ensures !Enabled(n, step)
      {
        if step.Forward? && Enabled(n, step) {
          WaiterCounts(n.handlers, step.h);
        }
      }
    }
  }

  /** At rest exactly as many handlers hang as requests or terminal replies were
      lost: without losses a waiting handler means that something can move. */
  lemma RestExact(n: Net)
    requires Conserved(n) && Quiescent(n)
    ensures Waiters(n.handlers) == Losses(n)
  {
  }

  /** As long as nothing is lost, a waiting handler means that something can move. */
  lemma NoDeadlock(n: Net, h: nat, junk: Junk)
    requires Conserved(n) && Losses(n) == 0 && h < |n.handlers| && n.handlers[h].waiting
    ensures exists step :: Moving(step) && Enabled(n, step)
  {
    WaiterCounts(n.handlers, h);
    QuiescentExact(n, junk);
  }

  // ----- draining -----

  /** The accesses to k of m elements, m + 3 for each, and the last look. */
  function Passes(k: nat, m: nat): nat {
    if k == 0 then 1 else m + 3 + Passes(k - 1, m)
  }

  /** The accesses the present sweep has left at most, whatever the workers do. */
  function SweepLeft(s: State): nat
    requires InRange(s)
  {
    var m := |s.queue|;
    match s.sweep
    case Idle => 0
    case Look(i) => Passes(m - i, m)
    case Count(i, j, _) => Passes(m - i - 1, m) + (m - j) + 2
    case Mark(i) => Passes(m - i - 1, m) + 1
    case Spawn(i) => Passes(m - i - 1, m) + 1
  }

  /** Bounds the moves left: a pending request may fetch a reply for every entry the
      queue can hold when it is served, and one more, and cause one sweep. */
  function Measure(n: Net): nat
    requires Sane(n)
  {
    |n.output| + 2 * |n.outbox| + SweepLeft(n.sys) + Charges(|n.input|, |n.sys.queue| + |n.input|)
  }

  function Charge(m: nat): nat {
    2 * (m + 1) + Passes(m, m) + 1
  }

  function Charges(k: nat, m: nat): nat {
    if k == 0 then 0 else Charge(m) + Charges(k - 1, m)
  }

  lemma {:induction false} PassesMonotone(k: nat, m: nat, k1: nat, m1: nat)
    requires k <= k1 && m <= m1
    ensures Passes(k, m) <= Passes(k1, m1)
    decreases k1
  {
    if k > 0 {
      PassesMonotone(k - 1, m, k1 - 1, m1);
    } else if k1 > 0 {
      PassesMonotone(0, m, k1 - 1, m1);
    }
  }

  lemma {:induction false} ChargesMonotone(k: nat, m: nat, m1: nat)
    requires m <= m1
    ensures Charges(k, m) <= Charges(k, m1)
  {
    if k > 0 {
      PassesMonotone(m, m, m1, m1);
      ChargesMonotone(k - 1, m, m1);
    }
  }

  lemma SweepStepDrains(code: Code, max: nat, s: State)
    requires InRange(s) && !s.sweep.Idle?
    ensures SweepLeft(SweepStep(code, max, s)) < SweepLeft(s)
    ensures SweepStep(code, max, s).queue == s.queue
  {
  }

  lemma BegunSweep(code: Code, s: State, request: Request, junk: Junk)
    requires InRange(s) && s.sweep.Idle?
    ensures var t := Begun(code, s, request, junk);
            SweepLeft(t) <= Passes(|t.queue|, |t.queue|) && |t.queue| <= |s.queue| + 1
  {
  }

  /** What a request that is served may fetch and cause. */
  lemma ReceiveCharge(q: nat, m: nat, q1: nat, replies: nat, left: nat)
    requires m >= 1 && q1 <= q + 1 && replies <= q + 1 && left <= Passes(q1, q1)
    ensures 2 * replies + left < Charge(q + m)
  {
    PassesMonotone(q1, q1, q + m, q + m);
  }

  lemma ReceiveEffect(code: Code, max: nat, n: Net, junk: Junk)
    requires Sane(n) && Enabled(n, Receive(junk))
    ensures var t := NextNet(code, max, n, Receive(junk));
            && t.output == n.output && |t.input| == |n.input| - 1 && |t.outbox| <= |n.sys.queue| + 1
            && |t.sys.queue| <= |n.sys.queue| + 1 && SweepLeft(t.sys) <= Passes(|t.sys.queue|, |t.sys.queue|)
  {
    ServeReplies(code, max, n.sys, n.input[0].request, junk);
    BegunSweep(code, n.sys, n.input[0].request, junk);
  }

  lemma FetchDrains(n: Net, t: Net)
    requires Sane(n) && Sane(t) && n.input != [] && n.outbox == [] && n.sys.sweep.Idle?
    requires t.output == n.output && |t.input| == |n.input| - 1 && |t.outbox| <= |n.sys.queue| + 1
    requires |t.sys.queue| <= |n.sys.queue| + 1 && SweepLeft(t.sys) <= Passes(|t.sys.queue|, |t.sys.queue|)
    ensures Measure(t) < Measure(n)
  {
    var m, q, q1 := |n.input|, |n.sys.queue|, |t.sys.queue|;
    ReceiveCharge(q, m, q1, |t.outbox|, SweepLeft(t.sys));
    ChargesMonotone(m - 1, q1 + (m - 1), q + m);
  }

  lemma ReceiveDrains(code: Code, max: nat, n: Net, junk: Junk)
    requires Sane(n) && Enabled(n, Receive(junk))
    ensures Measure(NextNet(code, max, n, Receive(junk))) < Measure(n)
  {
    ReceiveEffect(code, max, n, junk);
    FetchDrains(n, NextNet(code, max, n, Receive(junk)));
  }

  /** The steps that leave the input and the length of the queue alone. */
  lemma OtherDrains(n: Net, t: Net, fewer: nat)
    requires Sane(n) && Sane(t) && t.input == n.input && |t.sys.queue| == |n.sys.queue|
    requires |t.output| + 2 * |t.outbox| + SweepLeft(t.sys) + fewer <= |n.output| + 2 * |n.outbox| + SweepLeft(n.sys)
    ensures Measure(t) + fewer <= Measure(n)
  {
  }

  lemma NextDrains(code: Code, max: nat, n: Net, step: NetStep)
    requires Sane(n) && Enabled(n, step) && !step.Ask?
    ensures Measure(NextNet(code, max, n, step)) + (if Moving(step) then 1 else 0) <= Measure(n)
  {
    var t := NextNet(code, max, n, step);
    match step
    case Receive(junk) => ReceiveDrains(code, max, n, junk);
    case Advance =>
      SweepStepDrains(code, max, n.sys);
      OtherDrains(n, t, 1);
    case Work(k, work) =>
      WorkNames(code, n.sys, k, work);
      OtherDrains(n, t, 0);
    case Send(_) => OtherDrains(n, t, 1);
    case Forward(_) => OtherDrains(n, t, 1);
  }

  function Moves(steps: seq<NetStep>): nat {
    if steps == [] then 0 else (if Moving(steps[0]) then 1 else 0) + Moves(steps[1..])
  }

  predicate NoAsk(steps: seq<NetStep>) {
    forall i | 0 <= i < |steps| :: !steps[i].Ask?
  }

  /** Without new requests every schedule makes at most `Measure` moves. */
  lemma {:induction false} RunDrains(code: Code, max: nat, n: Net, steps: seq<NetStep>)
    requires Sane(n) && Possible(code, max, n, steps) && NoAsk(steps)
    ensures Moves(steps) + Measure(RunNet(code, max, n, steps)) <= Measure(n)
    decreases |steps|
  {
    if steps != [] {
      NextDrains(code, max, n, steps[0]);
      RunDrains(code, max, NextNet(code, max, n, steps[0]), steps[1..]);
    }
  }

  /** So a run without new requests that can move no further, from a state where
      and along which nothing is lost, has left every handler idle. */
  lemma DrainedMeansIdle(code: Code, max: nat, n: Net, steps: seq<NetStep>, h: nat)
    requires Sane(n) && Possible(code, max, n, steps) && Conserved(n) && NoAsk(steps)
    requires var t := RunNet(code, max, n, steps); Quiescent(t) && Losses(t) == 0
    requires h < |n.handlers|
    ensures Moves(steps) <= Measure(n)
    ensures !RunNet(code, max, n, steps).handlers[h].waiting
  {
    RunDrains(code, max, n, steps);
    RunConserves(code, max, n, steps);
    var t := RunNet(code, max, n, steps);
    if t.handlers[h].waiting {
      WaiterCounts(t.handlers, h);
    }
  }

  // ----- the start -----

  /** All handlers idle, all queues empty. */
  ghost predicate Quiet(n: Net) {
    && (forall h | 0 <= h < |n.handlers| :: n.handlers[h] == Handler(false, []))
    && n.input == [] && n.outbox == [] && n.output == [] && Losses(n) == 0 && n.asked == [] && n.history == []
  }

  lemma {:induction false} NoWaiters(handlers: seq<Handler>)
    requires forall h | 0 <= h < |handlers| :: !handlers[h].waiting
    ensures Waiters(handlers) == 0
  {
    if handlers != [] {
      NoWaiters(handlers[..|handlers| - 1]);
    }
  }

  lemma QuietConserved(n: Net)
    requires Quiet(n)
    ensures Conserved(n)
  {
    NoWaiters(n.handlers);
  }
}
