/** The bounded retry of `send_message_local` and `read_message_local`, against any
    oracle that says how each attempt ends. */
module MessageRetry {

  datatype Attempt = Done | Again | Error

  /** How attempt `n` ends. */
  function Answer(oracle: nat -> Attempt, n: nat): Attempt {
    oracle(n)
  }

  const SHORT_MAX := 32767

  /** `retry_count` is a short. */
  function Bump(count: int): (r: int)
    ensures count <= SHORT_MAX ==> r <= SHORT_MAX
  {
    if count == SHORT_MAX then -32768 else count + 1
  }

  /** The counter after n failed attempts. */
  function Counter(n: nat): (count: int)
    ensures count <= SHORT_MAX
    ensures n <= SHORT_MAX ==> count == n
  {
    if n == 0 then 0 else Bump(Counter(n - 1))
  }

  /** The counter runs through the shorts, from 32767 on to -32768. */
  lemma {:induction false} CounterExact(n: nat)
    ensures Counter(n) == (n + 32768) % 65536 - 32768
  {
    if n > 0 {
      CounterExact(n - 1);
    }
  }

  /** The loop makes the attempt `n` when all before it ended in EAGAIN and the
      counter was still below the limit. */
  ghost predicate Attempted(oracle: nat -> Attempt, limit: nat, n: nat) {
    forall i | 0 <= i < n :: Answer(oracle, i) == Again && Counter(i + 1) < limit
  }

  /** Some attempt is the last one. */
  ghost predicate Ends(oracle: nat -> Attempt, limit: nat) {
    limit <= SHORT_MAX || exists n: nat :: Answer(oracle, n) != Again
  }

  /** A limit above the range of the counter is never reached: as long as the queue
      is full the loop goes on for ever. With a limit the counter can reach there
      are at most max(1, limit) attempts. */
  lemma EndsExact(oracle: nat -> Attempt, limit: nat)
    ensures Ends(oracle, limit) <==> exists n: nat :: Attempted(oracle, limit, n) && !Attempted(oracle, limit, n + 1)
  {
    if Ends(oracle, limit) {
      var n := LastAttempt(oracle, limit);
    } else {
      assert forall n: nat :: Attempted(oracle, limit, n);
    }
  }

  lemma AttemptedNext(oracle: nat -> Attempt, limit: nat, n: nat)
    requires Attempted(oracle, limit, n) && Answer(oracle, n) == Again && Counter(n + 1) < limit
    ensures Attempted(oracle, limit, n + 1)
  {
  }

  lemma AttemptsBelow(oracle: nat -> Attempt, limit: nat, n: nat, last: nat)
    requires Attempted(oracle, limit, n) && !Attempted(oracle, limit, last + 1)
    ensures n <= last
  {
  }

  lemma LastAttempt(oracle: nat -> Attempt, limit: nat) returns (n: nat)
    requires Ends(oracle, limit)
    ensures Attempted(oracle, limit, n) && !Attempted(oracle, limit, n + 1)
    ensures limit <= SHORT_MAX ==> n + 1 <= if limit == 0 then 1 else limit
  {
    ghost var stop: nat;
    if limit <= SHORT_MAX {
      stop := if limit == 0 then 0 else limit - 1;
    } else {
      stop :| Answer(oracle, stop) != Again;
    }
    n := 0;
    while n < stop && Attempted(oracle, limit, n + 1)
      invariant n <= stop && Attempted(oracle, limit, n)
    {
      n := n + 1;
    }
    if n == stop {
      assert !(Answer(oracle, n) == Again && Counter(n + 1) < limit);
    }
  }

  /** Exactly one copy is put into the queue when true is returned, none otherwise. */
  method Send<M>(fifo: seq<M>, message: M, oracle: nat -> Attempt, limit: nat)
    returns (after: seq<M>, sent: bool, attempts: nat)
    requires limit < 0x1_0000 && Ends(oracle, limit)
    ensures after == if sent then fifo + [message] else fifo
    ensures attempts >= 1 && Attempted(oracle, limit, attempts - 1)
    ensures sent <==> Answer(oracle, attempts - 1) == Done
    ensures !sent ==>
              || Answer(oracle, attempts - 1) == Error
              || (Answer(oracle, attempts - 1) == Again && Counter(attempts) >= limit)
    ensures limit <= SHORT_MAX ==> attempts <= if limit == 0 then 1 else limit
  {
    ghost var last := LastAttempt(oracle, limit);
    after, attempts := fifo, 0;
    var count := 0;
    while true
      invariant count == Counter(attempts) && Attempted(oracle, limit, attempts) && after == fifo && attempts <= last
      decreases last - attempts
    {
      var result := Answer(oracle, attempts);
      attempts := attempts + 1;
      if result == Done {
        return after + [message], true, attempts;
      }
      count := Bump(count);
      assert count == Counter(attempts);
      if result != Again || count >= limit {
        return after, false, attempts;
      }
      AttemptedNext(oracle, limit, attempts - 1);
      AttemptsBelow(oracle, limit, attempts, last);
    }
  }

  /** Exactly one message is taken out and copied when true is returned; otherwise
      the queue is as it was and the caller holds zeroed memory. */
  method Receive<M>(fifo: seq<M>, zero: M, oracle: nat -> Attempt, limit: nat)
    returns (after: seq<M>, received: M, ok: bool, attempts: nat)
    requires limit < 0x1_0000 && Ends(oracle, limit)
    requires fifo == [] ==> forall n :: Answer(oracle, n) != Done
    ensures if ok then fifo == [received] + after else after == fifo && received == zero
    ensures attempts >= 1 && Attempted(oracle, limit, attempts - 1)
    ensures ok <==> Answer(oracle, attempts - 1) == Done
    ensures !ok ==>
              || Answer(oracle, attempts - 1) == Error
              || (Answer(oracle, attempts - 1) == Again && Counter(attempts) >= limit)
    ensures limit <= SHORT_MAX ==> attempts <= if limit == 0 then 1 else limit
  {
    ghost var last := LastAttempt(oracle, limit);
    after, received, attempts := fifo, zero, 0;
    var count := 0;
    while true
      invariant count == Counter(attempts) && Attempted(oracle, limit, attempts) && after == fifo && received == zero
                && attempts <= last
      decreases last - attempts
    {
      var result := Answer(oracle, attempts);
      attempts := attempts + 1;
      if result == Done {
        return fifo[1..], fifo[0], true, attempts;
      }
      count := Bump(count);
      assert count == Counter(attempts);
      if result != Again || count >= limit {
        return after, received, false, attempts;
      }
      AttemptedNext(oracle, limit, attempts - 1);
      AttemptsBelow(oracle, limit, attempts, last);
    }
  }
}
