/** The queue server as the source runs it: two linked lists that the commands relink
    in place, `download_queue` and `thread_list`, and the records they point to.
    Every search, count, sweep and save is a walk along the nodes. Every method is
    proved against the specification functions of `Scheduler`, `SweepTheory`,
    `Commands` and `Saving`, on the state that the two lists stand for. */
module QueueServer {
  import opened Entries
  import opened LinkedLists
  import opened Scheduler
  import opened SchedulerInvariants
  import opened SweepTheory
  import opened Commands
  import opened Requests
  import opened Saving
  import opened Reload
  import IndexFile

  // ----- comparisons on what the nodes point to -----

  /** `queue_compare_id`. */
  function EntryNamed(entries: seq<Entry>, name: string): nat -> bool {
    (e: nat) => e < |entries| && entries[e].name == name
  }

  /** `queue_count_by_status`. */
  function EntryCounted(entries: seq<Entry>, both: bool): nat -> bool {
    (e: nat) => e < |entries| && Counts(both, entries[e].status)
  }

  /** `download_thread_compare_id`. */
  function RecordNamed(entries: seq<Entry>, records: seq<Thread>, name: string): nat -> bool {
    (r: nat) => r < |records| && records[r].entry < |entries| && entries[records[r].entry].name == name
  }

  lemma EntrySearch(entries: seq<Entry>, refs: seq<nat>, name: string)
    requires forall i | 0 <= i < |refs| :: refs[i] < |entries|
    ensures FirstMatch(refs, EntryNamed(entries, name)) == Position(Names(Deref(entries, refs)), name)
  {
    FirstMatchUnique(refs, EntryNamed(entries, name), Position(Names(Deref(entries, refs)), name));
  }

  /** The search also finds the same record after statuses and phases have changed. */
  lemma RecordSearch(s: State, records: seq<Thread>, refs: seq<nat>, name: string)
    requires InRange(s) && |refs| == |s.threads|
    requires forall k | 0 <= k < |refs| :: refs[k] < |records| && records[refs[k]].entry == s.threads[k].entry
    ensures FirstMatch(refs, RecordNamed(s.entries, records, name)) == ThreadPosition(s, name)
  {
    FirstMatchUnique(refs, RecordNamed(s.entries, records, name), ThreadPosition(s, name));
  }

  lemma {:induction false} EntryCount(entries: seq<Entry>, refs: seq<nat>, both: bool)
    requires forall i | 0 <= i < |refs| :: refs[i] < |entries|
    ensures CountMatches(refs, EntryCounted(entries, both)) == CountMatches(Deref(entries, refs), EntryCounts(both))
  {
    if refs != [] {
      assert Deref(entries, refs)[1..] == Deref(entries, refs[1..]);
      EntryCount(entries, refs[1..], both);
    }
  }

  lemma DerefWithout<X>(store: seq<X>, refs: seq<nat>, p: nat)
    requires p < |refs| && forall i | 0 <= i < |refs| :: refs[i] < |store|
    ensures forall i | 0 <= i < |refs| - 1 :: RemoveAt(refs, p)[i] < |store|
    ensures Deref(store, RemoveAt(refs, p)) == RemoveAt(Deref(store, refs), p)
  {
    assert forall i | 0 <= i < |refs| - 1 :: RemoveAt(refs, p)[i] == refs[if i < p then i else i + 1];
  }

  lemma Without<X>(store: seq<X>, refs: seq<nat>, p: nat)
    requires p < |refs| && Distinct(refs) && forall i | 0 <= i < |refs| :: refs[i] < |store|
    ensures Distinct(RemoveAt(refs, p)) && forall i | 0 <= i < |refs| - 1 :: RemoveAt(refs, p)[i] < |store|
    ensures Deref(store, RemoveAt(refs, p)) == RemoveAt(Deref(store, refs), p)
  {
    DerefWithout(store, refs, p);
    RemovalDistinct(refs, p);
  }

  lemma FewerNodes<X>(nodes: seq<X>, p: nat)
    requires p < |nodes|
    ensures forall i | 0 <= i < |nodes| - 1 :: RemoveAt(nodes, p)[i] in nodes
    ensures forall n | n in RemoveAt(nodes, p) :: n in nodes
  {
    assert forall i | 0 <= i < |nodes| - 1 :: RemoveAt(nodes, p)[i] == nodes[if i < p then i else i + 1];
  }

  lemma DerefUpdate<X>(store: seq<X>, refs: seq<nat>, p: nat, x: X)
    requires p < |refs| && Distinct(refs) && forall i | 0 <= i < |refs| :: refs[i] < |store|
    ensures Deref(store[refs[p] := x], refs) == Deref(store, refs)[p := x]
  {
  }

  lemma DerefAppend<X>(store: seq<X>, refs: seq<nat>, x: X)
    requires forall i | 0 <= i < |refs| :: refs[i] < |store|
    ensures Deref(store + [x], refs + [|store|]) == Deref(store, refs) + [x]
    ensures Deref(store + [x], refs) == Deref(store, refs)
  {
  }

  // ----- the walk of the sweep -----

  /** The visit of element `i` turns `s` into `t`. */
  ghost predicate Visited(code: Code, max: nat, s: State, i: nat, t: State) {
    && InRange(s) && s.sweep.Idle? && i < |s.queue|
    && t == UpdateEntry(code, max, s.(sweep := Look(i))).(sweep := Idle)
  }

  /** The states between the visits of one sweep, from element `i` on. */
  ghost predicate Trail(code: Code, max: nat, i: nat, trail: seq<State>) {
    forall k | 0 <= k < |trail| - 1 :: Visited(code, max, trail[k], i + k, trail[k + 1])
  }

  /** A trail from `s`, before element `i`, to `swept`. */
  ghost predicate TrailTo(code: Code, max: nat, s: State, i: nat, swept: State, trail: seq<State>) {
    && i <= |s.queue| && |trail| == |s.queue| - i + 1
    && trail[0] == s && trail[|trail| - 1] == swept && Trail(code, max, i, trail)
  }

  lemma TrailLonger(code: Code, max: nat, s: State, i: nat, t: State, swept: State, rest: seq<State>)
    requires Visited(code, max, s, i, t) && t.queue == s.queue && TrailTo(code, max, t, i + 1, swept, rest)
    ensures TrailTo(code, max, s, i, swept, [s] + rest)
  {
    var trail := [s] + rest;
    forall k | 0 <= k < |trail| - 1
      ensures Visited(code, max, trail[k], i + k, trail[k + 1])
    {
      assert k > 0 ==> Visited(code, max, rest[k - 1], i + 1 + (k - 1), rest[k]);
    }
  }

  ghost predicate SweptFrom(code: Code, max: nat, s: State, i: nat, swept: State) {
    InRange(s) && s.sweep.Idle? && i <= |s.queue| && SweepFrom(code, max, s.(sweep := Look(i))) == swept
  }

  lemma VisitFirst(code: Code, max: nat, s: State, i: nat, swept: State) returns (t: State)
    requires i < |s.queue| && SweptFrom(code, max, s, i, swept)
    ensures Visited(code, max, s, i, t) && t.queue == s.queue && SweptFrom(code, max, t, i + 1, swept)
  {
    var u := UpdateEntry(code, max, s.(sweep := Look(i)));
    t := u.(sweep := Idle);
    assert t.(sweep := Look(i + 1)) == u;
  }

  lemma VisitLast(code: Code, max: nat, s: State, swept: State)
    requires SweptFrom(code, max, s, |s.queue|, swept)
    ensures TrailTo(code, max, s, |s.queue|, swept, [s])
  {
  }

  lemma {:induction false} SweepTrail(code: Code, max: nat, s: State, i: nat, swept: State) returns (trail: seq<State>)
    requires SweptFrom(code, max, s, i, swept)
    ensures TrailTo(code, max, s, i, swept, trail)
    decreases |s.queue| - i
  {
    if i == |s.queue| {
      VisitLast(code, max, s, swept);
      return [s];
    }
    var t := VisitFirst(code, max, s, i, swept);
    var rest := SweepTrail(code, max, t, i + 1, swept);
    TrailLonger(code, max, s, i, t, swept, rest);
    return [s] + rest;
  }

  lemma TrailNext(code: Code, max: nat, trail: seq<State>, i: nat, t: State)
    requires Trail(code, max, 0, trail) && i < |trail| - 1 && InRange(trail[i]) && i < |trail[i].queue| && t.sweep.Idle?
    requires t.(sweep := Look(i + 1)) == UpdateEntry(code, max, trail[i].(sweep := Look(i)))
    ensures t == trail[i + 1]
  {
    assert Visited(code, max, trail[i], 0 + i, trail[i + 1]);
  }

  // ----- the walk of the save -----

  /** The save of `start` has reached `s` before element `i`, and printed `rows`. */
  ghost predicate SavesTo(start: State, i: nat, s: State, rows: seq<Entry>)
    requires InRange(start)
  {
    && InRange(s) && i <= |s.queue|
    && SaveFrom(start, 0) == (SaveFrom(s, i).0, rows + SaveFrom(s, i).1)
  }

  lemma SavesFirst(start: State)
    requires InRange(start)
    ensures SavesTo(start, 0, start, [])
  {
    assert [] + SaveFrom(start, 0).1 == SaveFrom(start, 0).1;
  }

  lemma SavesFurther(start: State, i: nat, s: State, rows: seq<Entry>)
    requires InRange(start) && SavesTo(start, i, s, rows) && i < |s.queue|
    ensures var t := Saving.SaveEntry(s, i);
            SavesTo(start, i + 1, t, rows + [t.entries[t.queue[i]]])
  {
    var t := Saving.SaveEntry(s, i);
    var more := SaveFrom(t, i + 1).1;
    SaveFromNext(s, i);
    assert rows + ([t.entries[t.queue[i]]] + more) == (rows + [t.entries[t.queue[i]]]) + more;
  }

  lemma SavesEnd(start: State, s: State, rows: seq<Entry>)
    requires InRange(start) && SavesTo(start, |s.queue|, s, rows)
    ensures SaveFrom(start, 0) == (s, rows)
  {
    assert rows + [] == rows;
  }

  /** New nodes have been appended to a list, if anything. */
  twostate predicate Extended<T>(list: List<T>)
    reads list
  {
    && old(list.nodes) <= list.nodes
    && forall k | |old(list.nodes)| <= k < |list.nodes| :: fresh(list.nodes[k])
  }

  /** Nodes have been removed from a list, if anything. */
  twostate predicate Shrunk<T>(list: List<T>)
    reads list
  {
    forall k | 0 <= k < |list.nodes| :: list.nodes[k] in old(list.nodes)
  }

  lemma SweepBegins(code: Code, max: nat, s: State)
    requires InRange(s)
    ensures FullSweep(code, max, s.(sweep := Look(0))) == FullSweep(code, max, s)
  {
  }

  class Server {
    const code: Code
    const max: nat              // max_concurrent_downloads
    const queue: List<nat>      // download_queue: positions in `entries`
    const threads: List<nat>    // thread_list: positions in `records`
    var entries: seq<Entry>     // every entry_t ever made
    var records: seq<Thread>    // every download_thread_t ever made

    /** The lists hold no nodes but their own former ones and new ones. */
    twostate predicate Grown()
      reads queue, threads
    {
      && (forall k | 0 <= k < |queue.nodes| :: queue.nodes[k] in old(queue.nodes) || fresh(queue.nodes[k]))
      && (forall k | 0 <= k < |threads.nodes| :: threads.nodes[k] in old(threads.nodes) || fresh(threads.nodes[k]))
    }

    /** Two sound lists that share no node, whose nodes point to records; no record
        is in the thread list twice. */
    ghost predicate Valid()
      reads this, queue, threads, queue.nodes, threads.nodes
    {
      && queue != threads && queue.Sound() && threads.Sound()
      && (forall n | n in queue.nodes :: n !in threads.nodes)
      && Distinct(threads.Contents())
      && (forall k | 0 <= k < |threads.Contents()| :: threads.Contents()[k] < |records|)
      && InRange(Snapshot())
    }

    /** The state of the transition system that the lists stand for. */
    ghost function Snapshot(): State
      requires forall k | 0 <= k < |threads.Contents()| :: threads.Contents()[k] < |records|
      reads this, queue, threads
    {
      State(entries, queue.Contents(), Deref(records, threads.Contents()), Idle)
    }

    constructor (code: Code, max: nat)
      ensures Valid() && fresh(queue) && fresh(threads) && Snapshot() == EMPTY && this.code == code && this.max == max
    {
      this.code, this.max := code, max;
      queue := new List<nat>();
      threads := new List<nat>();
      entries, records := [], [];
    }

    method CountStarted() returns (count: int)
      requires Valid()
      ensures count == QueueTally(Snapshot(), code.countStarting)
    {
      count := queue.ForEachCompare(false, Counting(EntryCounted(entries, code.countStarting)), 0);
      CountingTraversal(queue.Contents(), false, EntryCounted(entries, code.countStarting), 0);
      EntryCount(entries, queue.Contents(), code.countStarting);
      TallyIsCount(Rows(Snapshot()), code.countStarting);
    }

    /** `junk` is what the result of the traversal holds at first. */
    method EntryExists(name: string, junk: bool) returns (result: bool)
      requires Valid()
      ensures result == (QueuePosition(Snapshot(), name) < |queue.nodes| || junk)
    {
      result := queue.ForEachCompare(true, Existing(EntryNamed(entries, name)), junk);
      ExistenceTest(queue.Contents(), EntryNamed(entries, name), junk);
      EntrySearch(entries, queue.Contents(), name);
    }

    method FindEntry(name: string) returns (node: Node?<nat>)
      requires Valid()
      ensures node == At(queue.nodes, QueuePosition(Snapshot(), name))
    {
      node := queue.GetItem(EntryNamed(entries, name));
      EntrySearch(entries, queue.Contents(), name);
    }

    method FindThread(name: string) returns (node: Node?<nat>)
      requires Valid()
      ensures node == At(threads.nodes, ThreadPosition(Snapshot(), name))
    {
      node := threads.GetItem(RecordNamed(entries, records, name));
      RecordSearch(Snapshot(), records, threads.Contents(), name);
    }

    method Write(e: nat, status: Status)
      requires Valid() && e < |entries|
      modifies this`entries
      ensures Valid() && Snapshot() == SetStatus(old(Snapshot()), e, status)
    {
      entries := entries[e := entries[e].(status := status)];
    }

    /** pthread_cancel on the thread of a record. */
    method Stop(node: Node<nat>, ghost k: nat)
      requires Valid() && k < |threads.nodes| && node == threads.nodes[k]
      modifies this`records
      ensures Valid() && Snapshot() == EndThread(old(Snapshot()), k)
    {
      DerefUpdate(records, threads.Contents(), k, records[node.data].(phase := Ended));
      records := records[node.data := records[node.data].(phase := Ended)];
    }

    /** `list_remove_item` on the thread list. */
    method RemoveThread(matches: nat -> bool) returns (removed: bool)
      requires Valid()
      modifies threads, threads.nodes
      ensures Valid() && Shrunk(threads)
      ensures removed <==> FirstMatch(old(threads.Contents()), matches) < |old(threads.Contents())|
      ensures Snapshot() == if removed then DropThread(old(Snapshot()), FirstMatch(old(threads.Contents()), matches))
              else old(Snapshot())
    {
      ghost var k := FirstMatch(threads.Contents(), matches);
      if k < |threads.nodes| {
        Without(records, threads.Contents(), k);
        FewerNodes(threads.nodes, k);
      }
      removed := threads.RemoveItemMovingRoot(matches);
      Untouched(queue);
    }

    /** Takes the first record of that name out of the thread list. */
    method DropRecord(name: string) returns (removed: bool)
      requires Valid()
      modifies threads, threads.nodes
      ensures Valid() && Shrunk(threads)
      ensures removed <==> ThreadPosition(old(Snapshot()), name) < |old(Snapshot()).threads|
      ensures Snapshot() == if removed then DropThread(old(Snapshot()), ThreadPosition(old(Snapshot()), name))
              else old(Snapshot())
    {
      RecordSearch(Snapshot(), records, threads.Contents(), name);
      removed := RemoveThread(RecordNamed(entries, records, name));
    }

    /** As written: the removal with a key that no record matches. */
    method DropNoRecord() returns (removed: bool)
      requires Valid()
      modifies threads, threads.nodes
      ensures Valid() && Shrunk(threads) && !removed && Snapshot() == old(Snapshot())
    {
      removed := RemoveThread((_: nat) => false);
    }

    /** What pausing and cancelling have in common: the entry of the first record of
        that name is PAUSED and its thread stopped. */
    method StopDownload(name: string) returns (found: bool)
      requires Valid()
      modifies this`entries, this`records
      ensures Valid()
      ensures found <==> ThreadPosition(old(Snapshot()), name) < |threads.nodes|
      ensures !found ==> Snapshot() == old(Snapshot())
      ensures found ==>
                var k := ThreadPosition(old(Snapshot()), name);
                && Snapshot() == EndThread(SetStatus(old(Snapshot()), old(Snapshot()).threads[k].entry, PAUSED), k)
                && ThreadPosition(Snapshot(), name) == k
    {
      var node := FindThread(name);
      if node == null {
        return false;
      }
      ghost var k := ThreadPosition(Snapshot(), name);
      Write(records[node.data].entry, PAUSED);
      Stop(node, k);
      StillFirst(old(Snapshot()), Snapshot(), name);
      return true;
    }

    method PauseDownload(name: string) returns (found: bool)
      requires Valid()
      modifies this`entries, this`records, threads, threads.nodes
      ensures Valid() && Shrunk(threads)
      ensures (Snapshot(), found) == DownloadPause(old(Snapshot()), name)
    {
      found := StopDownload(name);
      if found {
        ghost var k := ThreadPosition(Snapshot(), name);
        EndThenDrop(SetStatus(old(Snapshot()), old(Snapshot()).threads[k].entry, PAUSED), k);
        found := DropRecord(name);
      }
    }

    method CancelDownload(name: string)
      requires Valid()
      modifies this`entries, this`records, threads, threads.nodes
      ensures Valid() && Shrunk(threads)
      ensures Snapshot() == DownloadCancel(code, old(Snapshot()), name)
    {
      var found := StopDownload(name);
      if found {
        ghost var k := ThreadPosition(Snapshot(), name);
        EndThenDrop(SetStatus(old(Snapshot()), old(Snapshot()).threads[k].entry, PAUSED), k);
        if code.removeByName {
          found := DropRecord(name);
        } else {
          found := DropNoRecord();
        }
      }
    }

    /** A new record at the end of the thread list. */
    method StartDownload(e: nat)
      requires Valid() && e < |entries|
      modifies this`records, threads, threads.nodes
      ensures Valid() && Extended(threads) && queue.nodes == old(queue.nodes)
      ensures Snapshot() == DownloadStart(old(Snapshot()), e)
    {
      DerefAppend(records, threads.Contents(), Thread(e, Created));
      records := records + [Thread(e, Created)];
      var _ := threads.Append(|records| - 1);
      Untouched(queue);
    }

    /** As written the thread is created before its entry is marked. */
    method StartWaiting(e: nat)
      requires Valid() && e < |entries|
      modifies this`entries, this`records, threads, threads.nodes
      ensures Valid() && Extended(threads) && queue.nodes == old(queue.nodes)
      ensures Snapshot() == DownloadStart(SetStatus(old(Snapshot()), e, STARTING), e)
    {
      StartDownload(e);
      Write(e, STARTING);
    }

    /** `queue_update` on the entry at `i`. */
    method UpdateEntry(e: nat, ghost i: nat)
      requires Valid() && i < |queue.nodes| && e == queue.Contents()[i]
      modifies this`entries, this`records, threads, threads.nodes
      ensures Valid() && Extended(threads) && queue.nodes == old(queue.nodes)
      ensures Snapshot().(sweep := Look(i + 1))
              == SweepTheory.UpdateEntry(code, max, old(Snapshot()).(sweep := Look(i)))
    {
      if entries[e].status.WAITING? {
        var count := CountStarted();
        if count < max {
          StartWaiting(e);
        }
      }
    }

    /** One step of the walk: the visit, and the way to the next node. */
    method UpdateNode(node: Node<nat>, ghost i: nat, ghost trail: seq<State>) returns (next: Node?<nat>)
      requires Valid() && i < |queue.nodes| && node == queue.nodes[i]
      requires Trail(code, max, 0, trail) && i < |trail| - 1 && Snapshot() == trail[i]
      modifies this`entries, this`records, threads, threads.nodes
      ensures Valid() && Extended(threads) && queue.nodes == old(queue.nodes)
      ensures next == At(queue.nodes, i + 1) && Snapshot() == trail[i + 1]
    {
      UpdateEntry(node.data, i);
      TrailNext(code, max, trail, i, Snapshot());
      assert LinksAgree(queue.nodes, i);
      next := node.next;
    }

    /** `list_for_each(download_queue, queue_update, NULL)`. */
    method Update()
      requires Valid()
      modifies this`entries, this`records, threads, threads.nodes
      ensures Valid() && Extended(threads) && queue.nodes == old(queue.nodes)
      ensures Snapshot() == FullSweep(code, max, old(Snapshot()))
    {
      ghost var trail := SweepTrail(code, max, Snapshot(), 0, FullSweep(code, max, Snapshot()));
      var node := queue.root;
      ghost var i := 0;
      while node != null
        invariant Valid() && Extended(threads) && queue.nodes == old(queue.nodes)
        invariant 0 <= i <= |queue.nodes| && node == At(queue.nodes, i) && Snapshot() == trail[i]
        decreases |queue.nodes| - i
      {
        node := UpdateNode(node, i, trail);
        i := i + 1;
      }
    }

    method Add(request: Request, junk: bool) returns (status: ReplyStatus)
      requires Valid()
      modifies this`entries, this`records, queue, queue.nodes, threads, threads.nodes
      ensures Valid() && Grown() && status == QueueAdd(old(Snapshot()), request.name, request.url, junk).1
      ensures Snapshot() == if status.SUCCESS?
              then FullSweep(code, max, QueueAdd(old(Snapshot()), request.name, request.url, junk).0)
                            else old(Snapshot())
    {
      var exists_ := EntryExists(request.name, junk);
      if exists_ {
        return FAILURE;
      }
      AddEntry(NewEntry(request.name, request.url));
      Update();
      return SUCCESS;
    }

    /** A new entry at the end of the queue. */
    method AddEntry(entry: Entry)
      requires Valid()
      modifies this`entries, queue, queue.nodes
      ensures Valid() && Extended(queue) && threads.nodes == old(threads.nodes)
      ensures Snapshot()
              == old(Snapshot()).(entries := old(entries) + [entry], queue := old(queue.Contents()) + [|old(entries)|])
    {
      entries := entries + [entry];
      var _ := queue.Append(|entries| - 1);
      Untouched(threads);
    }

    method Pause(name: string) returns (status: ReplyStatus)
      requires Valid()
      modifies this`entries, this`records, threads, threads.nodes
      ensures Valid() && Grown()
      ensures (Snapshot(), status) == QueuePause(code, old(Snapshot()), name)
    {
      var node := FindEntry(name);
      if node == null {
        return FAILURE;
      }
      var current := entries[node.data].status;
      if Stoppable(code, current) {
        var _ := PauseDownload(name);
      } else if !current.CANCELLED? && !current.COMPLETED? {
        Write(node.data, PAUSED);
      }
      return SUCCESS;
    }

    /** `list_remove_item` on the queue. */
    method RemoveEntry(name: string) returns (removed: bool)
      requires Valid()
      modifies queue, queue.nodes
      ensures Valid() && Shrunk(queue) && threads.nodes == old(threads.nodes)
      ensures removed <==> QueuePosition(old(Snapshot()), name) < |old(Snapshot()).queue|
      ensures Snapshot() == if removed
              then old(Snapshot()).(queue := RemoveAt(old(queue.Contents()), QueuePosition(old(Snapshot()), name)))
                            else old(Snapshot())
    {
      EntrySearch(entries, queue.Contents(), name);
      ghost var p := QueuePosition(Snapshot(), name);
      if p < |queue.nodes| {
        FewerNodes(queue.nodes, p);
        FewerNodes(queue.Contents(), p);
      }
      removed := queue.RemoveItemMovingRoot(EntryNamed(entries, name));
      Untouched(threads);
    }

    /** What CANCEL does before it removes the entry from the queue. */
    method StopEntry(e: nat, name: string)
      requires Valid() && QueuePosition(Snapshot(), name) < |queue.nodes|
      requires e == queue.Contents()[QueuePosition(Snapshot(), name)]
      modifies this`entries, this`records, threads, threads.nodes
      ensures Valid() && Shrunk(threads) && queue.nodes == old(queue.nodes)
      ensures QueuePosition(Snapshot(), name) == QueuePosition(old(Snapshot()), name)
      ensures Snapshot().(queue := RemoveAt(Snapshot().queue, QueuePosition(Snapshot(), name)))
              == QueueCancel(code, old(Snapshot()), name).0
    {
      var current := entries[e].status;
      if Stoppable(code, current) {
        CancelDownload(name);
      } else if !current.CANCELLED? {
        Write(e, PAUSED);
      }
      StillQueued(old(Snapshot()), Snapshot(), name);
    }

    method Cancel(name: string) returns (status: ReplyStatus)
      requires Valid()
      modifies this`entries, this`records, queue, queue.nodes, threads, threads.nodes
      ensures Valid() && Grown()
      ensures (Snapshot(), status) == QueueCancel(code, old(Snapshot()), name)
    {
      var node := FindEntry(name);
      if node == null {
        return FAILURE;
      }
      StopEntry(node.data, name);
      var _ := RemoveEntry(name);
      return SUCCESS;
    }

    /** What RESTART does before its sweep. */
    method Resume(e: nat, ghost name: string)
      requires Valid() && QueuePosition(Snapshot(), name) < |queue.nodes|
      requires e == queue.Contents()[QueuePosition(Snapshot(), name)]
      modifies this`entries
      ensures Valid() && QueueRestart(old(Snapshot()), name) == (Snapshot().(sweep := Look(0)), SUCCESS)
    {
      var current := entries[e].status;
      if current.WAITING? || current.PAUSED? {
        Write(e, WAITING);
      }
    }

    method ResumeAndSweep(e: nat, ghost name: string)
      requires Valid() && QueuePosition(Snapshot(), name) < |queue.nodes|
      requires e == queue.Contents()[QueuePosition(Snapshot(), name)]
      modifies this`entries, this`records, threads, threads.nodes
      ensures Valid() && Extended(threads) && queue.nodes == old(queue.nodes)
      ensures Snapshot() == FullSweep(code, max, QueueRestart(old(Snapshot()), name).0)
    {
      Resume(e, name);
      SweepBegins(code, max, Snapshot());
      Update();
    }

    method Restart(name: string) returns (status: ReplyStatus)
      requires Valid()
      modifies this`entries, this`records, threads, threads.nodes
      ensures Valid() && Grown() && status == QueueRestart(old(Snapshot()), name).1
      ensures Snapshot() == if status.SUCCESS? then FullSweep(code, max, QueueRestart(old(Snapshot()), name).0)
              else old(Snapshot())
    {
      var node := FindEntry(name);
      if node == null {
        return FAILURE;
      }
      ResumeAndSweep(node.data, name);
      return SUCCESS;
    }

    /** The snapshots go out through the dispatcher, the last reply through the caller. */
    method Status(request: Request) returns (replies: seq<Reply>)
      requires Valid()
      ensures replies == Snapshots(Rows(Snapshot())) + [TextReply(request, SUCCESS)]
    {
      replies := [];
      var node := queue.root;
      ghost var i := 0;
      while node != null
        invariant 0 <= i <= |queue.nodes| && node == At(queue.nodes, i)
        invariant replies == Snapshots(Rows(Snapshot()))[..i]
        decreases |queue.nodes| - i
      {
        assert LinksAgree(queue.nodes, i);
        replies := replies + [SnapshotReply(entries[node.data])];
        node, i := node.next, i + 1;
      }
      replies := replies + [TextReply(request, SUCCESS)];
    }

    method ProcessRequest(request: Request, junk: Junk) returns (replies: seq<Reply>)
      requires Valid()
      modifies this`entries, this`records, queue, queue.nodes, threads, threads.nodes
      ensures Valid() && Grown()
      ensures Served(Snapshot(), replies) == Serve(code, max, old(Snapshot()), request, junk)
      ensures request.command != STATUS && request.command != NONE ==>
                Answered(old(Snapshot()), request, junk, replies)
    {
      if request.command != STATUS && request.command != NONE {
        AnswerExact(code, max, Snapshot(), request, junk);
      }
      var status;
      match request.command
      case DOWNLOAD =>
        status := Add(request, junk.exists_);
        return [TextReply(request, status)];
      case STATUS =>
        replies := Status(request);
      case PAUSE =>
        status := Pause(request.name);
        return [TextReply(request, status)];
      case CANCEL =>
        status := Cancel(request.name);
        return [TextReply(request, status)];
      case RESTART =>
        status := Restart(request.name);
        return [TextReply(request, status)];
      case NONE =>
        return [junk.response];
    }

    /** `queue_data_save` on the entry at `i`; the row is what it prints. */
    method SaveEntry(e: nat, ghost i: nat) returns (row: Entry)
      requires Valid() && i < |queue.nodes| && e == queue.Contents()[i]
      modifies this`entries, this`records, threads, threads.nodes
      ensures Valid() && Shrunk(threads) && queue.nodes == old(queue.nodes)
      ensures Snapshot() == Saving.SaveEntry(old(Snapshot()), i) && row == Snapshot().entries[Snapshot().queue[i]]
    {
      if Active(entries[e].status) {
        var _ := PauseDownload(entries[e].name);
        Write(e, WAITING);
      }
      row := entries[e];
    }

    /** One step of the walk: the entry is put to rest and printed, and the way to the next
        node. */
    method SaveNode(node: Node<nat>, ghost i: nat, ghost start: State, rows: seq<Entry>)
      returns (printed: seq<Entry>, next: Node?<nat>)
      requires Valid() && i < |queue.nodes| && node == queue.nodes[i]
      requires InRange(start) && SavesTo(start, i, Snapshot(), rows)
      modifies this`entries, this`records, threads, threads.nodes
      ensures Valid() && Shrunk(threads) && queue.nodes == old(queue.nodes)
      ensures next == At(queue.nodes, i + 1) && SavesTo(start, i + 1, Snapshot(), printed)
    {
      SavesFurther(start, i, Snapshot(), rows);
      var row := SaveEntry(node.data, i);
      printed := rows + [row];
      assert LinksAgree(queue.nodes, i);
      next := node.next;
    }

    /** The rows of the index file, in the order they are printed. */
    method Save() returns (rows: seq<Entry>)
      requires Valid()
      modifies this`entries, this`records, threads, threads.nodes
      ensures Valid() && Shrunk(threads) && queue.nodes == old(queue.nodes)
      ensures (Snapshot(), rows) == SaveFrom(old(Snapshot()), 0)
    {
      rows := [];
      ghost var start := Snapshot();
      var node := queue.root;
      ghost var i := 0;
      SavesFirst(start);
      while node != null
        invariant Valid() && Shrunk(threads) && queue.nodes == old(queue.nodes)
        invariant 0 <= i <= |queue.nodes| && node == At(queue.nodes, i)
        invariant SavesTo(start, i, Snapshot(), rows)
        decreases |queue.nodes| - i
      {
        rows, node := SaveNode(node, i, start, rows);
        i := i + 1;
      }
      SavesEnd(start, Snapshot(), rows);
    }

    /** The entries of an index file, appended one by one, and the sweep behind them. */
    method Load(text: string)
      requires Valid() && Snapshot() == EMPTY && KnownCodes(IndexFile.ScanRows(text))
      modifies this`entries, this`records, queue, queue.nodes, threads, threads.nodes
      ensures Valid() && Grown()
      ensures Snapshot() == FullSweep(code, max, Loaded(ToEntries(IndexFile.ScanRows(text))))
    {
      var rows := IndexFile.ReadRows(text);
      for i := 0 to |rows|
        invariant Valid() && Extended(queue) && threads.nodes == old(threads.nodes)
        invariant Snapshot() == State(ToEntries(rows)[..i], Upto(i), [], Idle)
      {
        LoadNext(rows, i);
        AddEntry(IndexFile.ToEntry(rows[i]));
      }
      assert Snapshot() == Loaded(ToEntries(rows));
      Update();
    }
  }

  lemma StillFirst(s: State, t: State, name: string)
    requires InRange(s) && InRange(t) && |t.threads| == |s.threads| && |t.entries| == |s.entries|
    requires forall e | 0 <= e < |s.entries| :: t.entries[e].name == s.entries[e].name
    requires forall k | 0 <= k < |s.threads| :: t.threads[k].entry == s.threads[k].entry
    ensures ThreadPosition(t, name) == ThreadPosition(s, name)
  {
    assert ThreadNames(t) == ThreadNames(s);
  }

  lemma LoadNext(rows: seq<IndexFile.Row>, i: nat)
    requires KnownCodes(rows) && i < |rows|
    ensures Upto(i) + [i] == Upto(i + 1)
    ensures ToEntries(rows)[..i] + [IndexFile.ToEntry(rows[i])] == ToEntries(rows)[..i + 1]
    ensures |ToEntries(rows)[..i]| == i
  {
  }

  lemma StillQueued(s: State, t: State, name: string)
    requires InRange(s) && InRange(t) && t.queue == s.queue && |t.entries| == |s.entries|
    requires forall e | 0 <= e < |s.entries| :: t.entries[e].name == s.entries[e].name
    ensures QueuePosition(t, name) == QueuePosition(s, name)
  {
    assert Names(Rows(t)) == Names(Rows(s));
  }

  lemma EndThenDrop(s: State, k: nat)
    requires k < |s.threads|
    ensures DropThread(EndThread(s, k), k) == DropThread(s, k)
  {
  }
}
