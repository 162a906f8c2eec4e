/** Whose replies a handler gets. Nothing ties a reply to the handler that asked, so
    it is the schedule of the requests that decides: as long as a handler asks only
    while none waits, every run refines a sequence of atomic calls; otherwise some
    continuation hands a client the reply to another's request. */
module AtomicCalls {
  import opened Entries
  import opened Scheduler
  import opened Commands
  import opened Protocol

  /** What the requests of handler `h` fetched, in the order they were served. */
  function Mine(history: seq<Exchange>, h: nat): seq<Message> {
    if history == [] then []
    else
      var x := history[|history| - 1];
      Mine(history[..|history| - 1], h) + if x.asked.asker == h then Tagged(h, x.replies) else []
  }

  lemma MineAppend(history: seq<Exchange>, x: Exchange, h: nat)
    ensures Mine(history + [x], h) == Mine(history, h) + if x.asked.asker == h then Tagged(h, x.replies) else []
  {
    assert (history + [x])[..|history|] == history;
  }

  lemma {:induction false} MineBy(history: seq<Exchange>, h: nat)
    ensures forall i | 0 <= i < |Mine(history, h)| :: Mine(history, h)[i].asker == h
  {
    if history != [] {
      MineBy(history[..|history| - 1], h);
    }
  }

  function AskedIn(history: seq<Exchange>): (r: seq<Asked>)
    ensures |r| == |history| && forall i | 0 <= i < |r| :: r[i] == history[i].asked
  {
    seq(|history|, i requires 0 <= i < |history| => history[i].asked)
  }

  predicate Faithful(code: Code, max: nat, x: Exchange) {
    && InRange(x.before) && x.before.sweep.Idle?
    && x.replies == Serve(code, max, x.before, x.asked.request, x.junk).replies
  }

  predicate AllFaithful(code: Code, max: nat, history: seq<Exchange>) {
    forall i | 0 <= i < |history| :: Faithful(code, max, history[i])
  }

  /** The replies on their way, the oldest first. */
  function Stream(n: Net): seq<Message> {
    n.output + n.outbox
  }

  predicate WaitsFor(n: Net, asker: nat) {
    asker < |n.handlers| && n.handlers[asker].waiting
  }

  predicate NobodyWaits(n: Net) {
    forall h | 0 <= h < |n.handlers| :: !n.handlers[h].waiting
  }

  predicate OneWaits(n: Net) {
    forall g, h | 0 <= g < h < |n.handlers| :: !n.handlers[g].waiting || !n.handlers[h].waiting
  }

  /** What handler `h` has coming. */
  function Coming(n: Net, h: nat): seq<Message>
    requires h < |n.handlers|
  {
    if n.handlers[h].waiting then Stream(n) else []
  }

  /** All that is on its way belongs to the one handler that waits. */
  predicate Routed(n: Net) {
    && OneWaits(n)
    && (forall i | 0 <= i < |n.input| :: WaitsFor(n, n.input[i].asker))
    && (forall i | 0 <= i < |Stream(n)| :: WaitsFor(n, Stream(n)[i].asker))
    && |n.input| <= 1 && (n.input != [] ==> Stream(n) == [])
    && OnlyLastTerminal(Stream(n))
  }

  /** The requests are served in the order they were asked, each as one call, and
      every handler has got all replies to its own requests but those still coming,
      and nothing else. */
  ghost predicate Recorded(code: Code, max: nat, n: Net) {
    && AllFaithful(code, max, n.history)
    && n.asked == AskedIn(n.history) + n.input
    && (forall i | 0 <= i < |n.history| :: n.history[i].asked.asker < |n.handlers|)
    && (forall h | 0 <= h < |n.handlers| :: Mine(n.history, h) == n.handlers[h].got + Coming(n, h))
  }

  ghost predicate Atomic(code: Code, max: nat, n: Net) {
    Routed(n) && Recorded(code, max, n)
  }

  // ----- polite schedules -----

  /** A request is sent only while no handler waits, and nothing is lost. */
  predicate Polite(n: Net, step: NetStep) {
    match step
    case Ask(_, _, sent) => sent && NobodyWaits(n)
    case Send(sent) => sent
    case _ => true
  }

  ghost predicate PoliteRun(code: Code, max: nat, n: Net, steps: seq<NetStep>)
    requires Sane(n) && Possible(code, max, n, steps)
    decreases |steps|
  {
    steps == [] || (Polite(n, steps[0]) && PoliteRun(code, max, NextNet(code, max, n, steps[0]), steps[1..]))
  }

  lemma NothingOnItsWay(n: Net)
    requires Routed(n) && NobodyWaits(n)
    ensures n.input == [] && Stream(n) == []
  {
    assert n.input != [] ==> WaitsFor(n, n.input[0].asker);
    assert Stream(n) != [] ==> WaitsFor(n, Stream(n)[0].asker);
  }

  lemma AskAtomic(code: Code, max: nat, n: Net, h: nat, request: Request)
    requires Sane(n) && Enabled(n, Ask(h, request, true)) && NobodyWaits(n) && Atomic(code, max, n)
    ensures Atomic(code, max, NextNet(code, max, n, Ask(h, request, true)))
  {
    var t := NextNet(code, max, n, Ask(h, request, true));
    NothingOnItsWay(n);
    assert Stream(t) == [];
    assert AskedIn(n.history) + (n.input + [Asked(h, request)]) == (AskedIn(n.history) + n.input) + [Asked(h, request)];
    forall g | 0 <= g < |t.handlers|
      ensures Mine(t.history, g) == t.handlers[g].got + Coming(t, g)
    {
      assert t.handlers[g].got == n.handlers[g].got && Coming(n, g) == [];
    }
  }

  lemma ReceiveRouted(code: Code, max: nat, n: Net, junk: Junk)
    requires Sane(n) && Enabled(n, Receive(junk)) && Routed(n)
    ensures Routed(NextNet(code, max, n, Receive(junk)))
    ensures Stream(n) == []
            && Stream(NextNet(code, max, n, Receive(junk))) == NextNet(code, max, n, Receive(junk)).outbox
    ensures WaitsFor(n, n.input[0].asker) && n.input[1..] == []
  {
    ServeReplies(code, max, n.sys, n.input[0].request, junk);
    assert WaitsFor(n, n.input[0].asker);
    assert n.output == [] by {
      assert |Stream(n)| == |n.output| + |n.outbox|;
    }
  }

  lemma ReceiveMine(n: Net, t: Net, x: Exchange, h: nat)
    requires OneWaits(n) && t.handlers == n.handlers && t.history == n.history + [x] && Stream(n) == []
    requires WaitsFor(n, x.asked.asker) && Stream(t) == Tagged(x.asked.asker, x.replies)
    requires h < |n.handlers| && Mine(n.history, h) == n.handlers[h].got + Coming(n, h)
    ensures Mine(t.history, h) == t.handlers[h].got + Coming(t, h)
  {
    MineAppend(n.history, x, h);
    assert n.handlers[h].got + [] == n.handlers[h].got;
  }

  lemma ReceiveRecorded(code: Code, max: nat, n: Net, t: Net, x: Exchange)
    requires Recorded(code, max, n) && OneWaits(n) && n.input != [] && WaitsFor(n, n.input[0].asker)
    requires t.handlers == n.handlers && t.asked == n.asked && t.input == n.input[1..] && t.history == n.history + [x]
    requires x.asked == n.input[0] && Faithful(code, max, x)
    requires Stream(n) == [] && Stream(t) == Tagged(x.asked.asker, x.replies)
    ensures Recorded(code, max, t)
  {
    assert AskedIn(t.history) + t.input == AskedIn(n.history) + n.input;
    forall h | 0 <= h < |t.handlers|
      ensures Mine(t.history, h) == t.handlers[h].got + Coming(t, h)
    {
      ReceiveMine(n, t, x, h);
    }
  }

  lemma ReceiveAtomic(code: Code, max: nat, n: Net, junk: Junk)
    requires Sane(n) && Enabled(n, Receive(junk)) && Atomic(code, max, n)
    ensures Atomic(code, max, NextNet(code, max, n, Receive(junk)))
  {
    var t := NextNet(code, max, n, Receive(junk));
    ReceiveRouted(code, max, n, junk);
    ReceiveRecorded(code, max, n, t, t.history[|n.history|]);
  }

  lemma SameMessages(code: Code, max: nat, n: Net, t: Net)
    requires Atomic(code, max, n) && Stream(t) == Stream(n) && t.handlers == n.handlers
    requires t.input == n.input && t.asked == n.asked && t.history == n.history
    ensures Atomic(code, max, t)
  {
    assert forall h | 0 <= h < |n.handlers| :: Coming(t, h) == Coming(n, h);
  }

  lemma ShiftFirst(got: seq<Message>, stream: seq<Message>)
    requires stream != []
    ensures got + [stream[0]] + stream[1..] == got + stream
    ensures OnlyLastTerminal(stream) ==> OnlyLastTerminal(stream[1..]) && (Terminal(stream[0]) ==> stream[1..] == [])
  {
  }

  /** The message that is forwarded belongs to the handler that takes it. */
  lemma ForwardRouted(n: Net, h: nat, t: Net)
    requires Routed(n) && Enabled(n, Forward(h)) && Stream(t) == Stream(n)[1..] && t.input == n.input
    requires t.handlers == n.handlers[h := Handler(!Terminal(Stream(n)[0]), n.handlers[h].got + [Stream(n)[0]])]
    ensures Routed(t) && Stream(n)[0].asker == h
  {
    var stream := Stream(n);
    ShiftFirst(n.handlers[h].got, stream);
    assert WaitsFor(n, stream[0].asker);
    forall i | 0 <= i < |Stream(t)|
      ensures WaitsFor(t, Stream(t)[i].asker)
    {
      assert Stream(t)[i] == stream[i + 1] && WaitsFor(n, stream[i + 1].asker);
    }
  }

  lemma ForwardMine(n: Net, h: nat, t: Net, g: nat)
    requires Routed(n) && Enabled(n, Forward(h)) && Stream(t) == Stream(n)[1..] && t.history == n.history
    requires t.handlers == n.handlers[h := Handler(!Terminal(Stream(n)[0]), n.handlers[h].got + [Stream(n)[0]])]
    requires g < |n.handlers| && Mine(n.history, g) == n.handlers[g].got + Coming(n, g)
    ensures Mine(t.history, g) == t.handlers[g].got + Coming(t, g)
  {
    ShiftFirst(n.handlers[h].got, Stream(n));
    if g != h {
      assert !n.handlers[g].waiting;
    }
  }

  lemma ForwardRecorded(code: Code, max: nat, n: Net, h: nat, t: Net)
    requires Atomic(code, max, n) && Enabled(n, Forward(h)) && Stream(t) == Stream(n)[1..]
    requires t.history == n.history && t.asked == n.asked && t.input == n.input
    requires t.handlers == n.handlers[h := Handler(!Terminal(Stream(n)[0]), n.handlers[h].got + [Stream(n)[0]])]
    ensures Recorded(code, max, t)
  {
    forall g | 0 <= g < |t.handlers|
      ensures Mine(t.history, g) == t.handlers[g].got + Coming(t, g)
    {
      ForwardMine(n, h, t, g);
    }
  }

  lemma ForwardStream(code: Code, max: nat, n: Net, h: nat)
    requires Sane(n) && Enabled(n, Forward(h))
    ensures Stream(n)[0] == n.output[0] && Stream(NextNet(code, max, n, Forward(h))) == Stream(n)[1..]
  {
  }

  lemma ForwardAtomic(code: Code, max: nat, n: Net, h: nat)
    requires Sane(n) && Enabled(n, Forward(h)) && Atomic(code, max, n)
    ensures Atomic(code, max, NextNet(code, max, n, Forward(h)))
  {
    var t := NextNet(code, max, n, Forward(h));
    ForwardStream(code, max, n, h);
    ForwardRouted(n, h, t);
    ForwardRecorded(code, max, n, h, t);
  }

  lemma NextAtomic(code: Code, max: nat, n: Net, step: NetStep)
    requires Sane(n) && Enabled(n, step) && Polite(n, step) && Atomic(code, max, n)
    ensures Atomic(code, max, NextNet(code, max, n, step))
  {
    match step
    case Ask(h, request, sent) => AskAtomic(code, max, n, h, request);
    case Receive(junk) => ReceiveAtomic(code, max, n, junk);
    case Forward(h) => ForwardAtomic(code, max, n, h);
    case Send(sent) =>
      var t := NextNet(code, max, n, step);
      assert Stream(t) == Stream(n);
      SameMessages(code, max, n, t);
    case _ => SameMessages(code, max, n, NextNet(code, max, n, step));
  }

  /** Every polite run, of any number of handlers, refines a sequence of atomic calls. */
  lemma {:induction false} RunAtomic(code: Code, max: nat, n: Net, steps: seq<NetStep>)
    requires Sane(n) && Possible(code, max, n, steps) && PoliteRun(code, max, n, steps) && Atomic(code, max, n)
    ensures Atomic(code, max, RunNet(code, max, n, steps))
    decreases |steps|
  {
    if steps != [] {
      NextAtomic(code, max, n, steps[0]);
      RunAtomic(code, max, NextNet(code, max, n, steps[0]), steps[1..]);
    }
  }

  lemma IdleHasAll(code: Code, max: nat, t: Net, h: nat)
    requires Atomic(code, max, t) && h < |t.handlers|
    ensures t.handlers[h].got <= Mine(t.history, h)
    ensures !t.handlers[h].waiting ==> t.handlers[h].got == Mine(t.history, h)
  {
    assert t.handlers[h].got + [] == t.handlers[h].got;
  }

  /** In a polite run each client has got replies to its own requests only, in order,
      and all of them once its handler is idle. */
  lemma ClientGetsItsReplies(code: Code, max: nat, n: Net, steps: seq<NetStep>, h: nat)
    requires Sane(n) && Possible(code, max, n, steps) && PoliteRun(code, max, n, steps) && Atomic(code, max, n)
    requires h < |n.handlers|
    ensures var t := RunNet(code, max, n, steps);
            && t.asked == AskedIn(t.history) + t.input
            && t.handlers[h].got <= Mine(t.history, h)
            && (!t.handlers[h].waiting ==> t.handlers[h].got == Mine(t.history, h))
  {
    RunAtomic(code, max, n, steps);
    IdleHasAll(code, max, RunNet(code, max, n, steps), h);
  }

  lemma QuietAtomic(code: Code, max: nat, n: Net)
    requires Quiet(n)
    ensures Atomic(code, max, n)
  {
  }

  // ----- a request while another handler waits -----

  /** Every handler has got replies to its own requests only. */
  predicate OwnOnly(n: Net) {
    forall h, i | 0 <= h < |n.handlers| && 0 <= i < |n.handlers[h].got| :: n.handlers[h].got[i].asker == h
  }

  predicate Lossless(steps: seq<NetStep>) {
    forall i | 0 <= i < |steps| :: steps[i] != Send(false)
  }

  /** However the pending messages are scheduled, no reply goes astray. */
  ghost predicate Safe(code: Code, max: nat, n: Net)
    requires Sane(n)
  {
    forall steps | Possible(code, max, n, steps) && NoAsk(steps) && Lossless(steps) ::
      OwnOnly(RunNet(code, max, n, steps))
  }

  /** Something is on its way to some handler. */
  predicate Pending(n: Net) {
    n.input != [] || n.outbox != [] || n.output != []
  }

  /** One move of the controller towards a reply in the output queue. */
  lemma NextMove(code: Code, max: nat, n: Net, junk: Junk) returns (step: NetStep)
    requires Sane(n) && Pending(n) && n.output == []
    ensures Enabled(n, step) && Moving(step) && !step.Forward? && step != Send(false)
    ensures var t := NextNet(code, max, n, step);
            t.handlers == n.handlers && Pending(t)
  {
    if !n.sys.sweep.Idle? {
      step := Advance;
    } else if n.outbox != [] {
      step := Send(true);
    } else {
      step := Receive(junk);
      ServeReplies(code, max, n.sys, n.input[0].request, junk);
    }
  }

  lemma FirstAstray(code: Code, max: nat, n: Net, g: nat, h: nat) returns (w: nat)
    requires Sane(n) && n.output != [] && WaitsFor(n, g) && WaitsFor(n, h) && g != h
    ensures (w == g || w == h) && Enabled(n, Forward(w))
    ensures var t := NextNet(code, max, n, Forward(w));
            && |t.handlers[w].got| == |n.handlers[w].got| + 1
            && t.handlers[w].got[|n.handlers[w].got|].asker != w
  {
    w := if n.output[0].asker == g then h else g;
  }

  lemma RunOne(code: Code, max: nat, n: Net, step: NetStep)
    requires Sane(n) && Enabled(n, step)
    ensures Possible(code, max, n, [step]) && RunNet(code, max, n, [step]) == NextNet(code, max, n, step)
  {
    RunFirst(code, max, n, step, []);
    assert [step] + [] == [step];
  }

  lemma QuietSteps(step: NetStep, rest: seq<NetStep>)
    requires !step.Ask? && step != Send(false) && NoAsk(rest) && Lossless(rest)
    ensures NoAsk([step] + rest) && Lossless([step] + rest)
  {
  }

  /** With two handlers waiting and anything on its way, the oldest pending reply, or the
      reply to the oldest pending request, can always go to the wrong one of them. */
  lemma {:induction false} MixUp(code: Code, max: nat, n: Net, g: nat, h: nat, junk: Junk)
    returns (steps: seq<NetStep>, w: nat)
    requires Sane(n) && Pending(n) && WaitsFor(n, g) && WaitsFor(n, h) && g != h
    ensures Possible(code, max, n, steps) && NoAsk(steps) && Lossless(steps) && (w == g || w == h)
    ensures var t := RunNet(code, max, n, steps);
            && |t.handlers[w].got| == |n.handlers[w].got| + 1
            && t.handlers[w].got[|n.handlers[w].got|].asker != w
    decreases Measure(n)
  {
    if n.output != [] {
      w := FirstAstray(code, max, n, g, h);
      steps := [Forward(w)];
      RunOne(code, max, n, Forward(w));
    } else {
      var step := NextMove(code, max, n, junk);
      NextDrains(code, max, n, step);
      var rest;
      rest, w := MixUp(code, max, NextNet(code, max, n, step), g, h, junk);
      RunFirst(code, max, n, step, rest);
      steps := [step] + rest;
      QuietSteps(step, rest);
    }
  }

  lemma Astray(n: Net, t: Net, w: nat)
    requires w < |n.handlers| == |t.handlers| && |t.handlers[w].got| == |n.handlers[w].got| + 1
    requires t.handlers[w].got[|n.handlers[w].got|].asker != w
    ensures !OwnOnly(t)
  {
  }

  lemma TwoWaitersUnsafe(code: Code, max: nat, n: Net, g: nat, h: nat, junk: Junk)
    requires Sane(n) && Pending(n) && WaitsFor(n, g) && WaitsFor(n, h) && g != h
    ensures !Safe(code, max, n)
  {
    var steps, w := MixUp(code, max, n, g, h, junk);
    Astray(n, RunNet(code, max, n, steps), w);
  }

  lemma AtomicOwnOnly(code: Code, max: nat, n: Net)
    requires Atomic(code, max, n)
    ensures OwnOnly(n)
  {
    forall h, i | 0 <= h < |n.handlers| && 0 <= i < |n.handlers[h].got|
      ensures n.handlers[h].got[i].asker == h
    {
      MineBy(n.history, h);
      assert Mine(n.history, h)[i] == n.handlers[h].got[i];
    }
  }

  lemma {:induction false} QuietRunPolite(code: Code, max: nat, n: Net, steps: seq<NetStep>)
    requires Sane(n) && Possible(code, max, n, steps) && NoAsk(steps) && Lossless(steps)
    ensures PoliteRun(code, max, n, steps)
    decreases |steps|
  {
    if steps != [] {
      assert steps[0] != Send(false);
      QuietRunPolite(code, max, NextNet(code, max, n, steps[0]), steps[1..]);
    }
  }

  lemma AtomicSafe(code: Code, max: nat, n: Net)
    requires Sane(n) && Atomic(code, max, n)
    ensures Safe(code, max, n)
  {
    forall steps | Possible(code, max, n, steps) && NoAsk(steps) && Lossless(steps)
      ensures OwnOnly(RunNet(code, max, n, steps))
    {
      QuietRunPolite(code, max, n, steps);
      RunAtomic(code, max, n, steps);
      AtomicOwnOnly(code, max, RunNet(code, max, n, steps));
    }
  }

  /** After a polite run a request is safe, in that no schedule of what is then pending
      lets a reply go astray, exactly when no handler waits at the time. */
  lemma AskExact(code: Code, max: nat, n: Net, h: nat, request: Request, junk: Junk)
    requires Sane(n) && Atomic(code, max, n) && Enabled(n, Ask(h, request, true))
    ensures Safe(code, max, NextNet(code, max, n, Ask(h, request, true))) <==> NobodyWaits(n)
  {
    var t := NextNet(code, max, n, Ask(h, request, true));
    if NobodyWaits(n) {
      AskAtomic(code, max, n, h, request);
      AtomicSafe(code, max, t);
    } else {
      var g :| 0 <= g < |n.handlers| && n.handlers[g].waiting;
      TwoWaitersUnsafe(code, max, t, g, h, junk);
    }
  }

  /** From the start of the server, whichever two handlers ask and whatever for. */
  lemma RepliesMixedUp(code: Code, max: nat, n: Net, g: nat, h: nat, x: Request, y: Request, junk: Junk)
    requires Sane(n) && Quiet(n) && g < |n.handlers| && h < |n.handlers| && g != h
    ensures var first := NextNet(code, max, n, Ask(g, x, true));
            Enabled(first, Ask(h, y, true)) && !Safe(code, max, NextNet(code, max, first, Ask(h, y, true)))
  {
    QuietAtomic(code, max, n);
    AskAtomic(code, max, n, g, x);
    AskExact(code, max, NextNet(code, max, n, Ask(g, x, true)), h, y, junk);
  }
}
