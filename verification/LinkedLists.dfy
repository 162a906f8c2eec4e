/** The doubly linked list of `list.c` and `node.c`, linked on the heap and
    verified against a ghost sequence of nodes.

    The removals are kept as written: neither moves `root` when the head goes.
    `RemoveItemMovingRoot` is the amended removal on which the queue relies. */
module LinkedLists {

  class Node<T> {
    var next: Node?<T>
    var previous: Node?<T>
    const data: T

    constructor (data: T)
      ensures next == null && previous == null && this.data == data
    {
      this.next, this.previous, this.data := null, null, data;
    }
  }

  ghost function NonNull<T>(node: Node?<T>): set<Node<T>> {
    if node == null then {} else {node}
  }

  /** Both helpers repair the link in both directions and ignore a null node. */
  method SetPrevious<T>(node: Node?<T>, previous: Node?<T>)
    modifies NonNull(node)`previous, NonNull(previous)`next
    ensures node != null ==> node.previous == previous
    ensures node != null && previous != null ==> previous.next == node
    ensures node == null ==> previous == null || previous.next == old(previous.next)
  {
    if node == null {
      return;
    }
    node.previous := previous;
    if previous != null {
      previous.next := node;
    }
  }

  method SetNext<T>(node: Node?<T>, next: Node?<T>)
    modifies NonNull(node)`next, NonNull(next)`previous
    ensures node != null ==> node.next == next
    ensures node != null && next != null ==> next.previous == node
    ensures node == null ==> next == null || next.previous == old(next.previous)
  {
    if node == null {
      return;
    }
    node.next := next;
    if next != null {
      next.previous := node;
    }
  }

  // ----- sequences -----

  function RemoveAt<X>(s: seq<X>, p: nat): (r: seq<X>)
    requires p < |s|
  {
    s[..p] + s[p + 1..]
  }

  function InsertAt<X>(s: seq<X>, p: nat, x: X): (r: seq<X>)
    requires p <= |s|
  {
    s[..p] + [x] + s[p..]
  }

  lemma SequencesExact<X>(s: seq<X>, p: nat, x: X)
    requires p <= |s|
    ensures InsertAt(s, p, x)[..p] == s[..p] && |InsertAt(s, p, x)| == |s| + 1
    ensures InsertAt(s, p, x)[p] == x && InsertAt(s, p, x)[p + 1..] == s[p..]
    ensures p < |s| ==>
              |RemoveAt(s, p)| == |s| - 1 && RemoveAt(s, p)[..p] == s[..p] && RemoveAt(s, p)[p..] == s[p + 1..]
    ensures RemoveAt(InsertAt(s, p, x), p) == s
  {
  }

  /** The position of the first element that satisfies `match`, or |s|. */
  function FirstMatch<X>(s: seq<X>, matches: X -> bool): (p: nat)
    ensures p <= |s|
    ensures forall i | 0 <= i < p :: !matches(s[i])
    ensures p < |s| ==> matches(s[p])
  {
    if s == [] then 0
    else if matches(s[0]) then 0
    else 1 + FirstMatch(s[1..], matches)
  }

  lemma FirstMatchUnique<X>(s: seq<X>, matches: X -> bool, p: nat)
    requires p <= |s|
    requires forall i | 0 <= i < p :: !matches(s[i])
    requires p < |s| ==> matches(s[p])
    ensures FirstMatch(s, matches) == p
  {
  }

  /** What one removal leaves behind as written: `root` still points at a
      removed head, whose own links are gone. */
  function LeftAfterRemoval<X>(s: seq<X>, p: nat): (r: seq<X>)
    requires p < |s|
  {
    if p == 0 then s[..1] else RemoveAt(s, p)
  }

  lemma RemovalExact<X>(s: seq<X>, p: nat)
    requires p < |s|
    requires forall i, j | 0 <= i < j < |s| :: s[i] != s[j]
    ensures LeftAfterRemoval(s, p) == RemoveAt(s, p) <==> p > 0
  {
    if p == 0 && |s| == 2 {
      assert LeftAfterRemoval(s, p)[0] == s[0] && RemoveAt(s, p)[0] == s[1];
    }
  }

  // ----- chains of nodes -----

  ghost function At<T>(nodes: seq<Node<T>>, i: int): Node?<T> {
    if 0 <= i < |nodes| then nodes[i] else null
  }

  ghost predicate LinksAgree<T>(nodes: seq<Node<T>>, i: int)
    requires 0 <= i < |nodes|
    reads nodes
  {
    nodes[i].next == At(nodes, i + 1) && nodes[i].previous == At(nodes, i - 1)
  }

  /** Forward and backward links agree with the sequence; no node repeats, so
      the chain is acyclic, and the first node has no predecessor. */
  ghost predicate Linked<T>(nodes: seq<Node<T>>)
    reads nodes
  {
    && (forall i, j | 0 <= i < j < |nodes| :: nodes[i] != nodes[j])
    && (forall i | 0 <= i < |nodes| :: LinksAgree(nodes, i))
  }

  ghost function Nodes<T>(nodes: seq<Node<T>>): set<Node<T>> {
    set n | n in nodes
  }

  ghost function Data<T>(nodes: seq<Node<T>>): (s: seq<T>)
    ensures |s| == |nodes|
    ensures forall i | 0 <= i < |s| :: s[i] == nodes[i].data
  {
    seq(|nodes|, i requires 0 <= i < |nodes| => nodes[i].data)
  }

  lemma DataRemoved<T>(nodes: seq<Node<T>>, p: nat)
    requires p < |nodes|
    ensures Data(RemoveAt(nodes, p)) == RemoveAt(Data(nodes), p)
    ensures Data(LeftAfterRemoval(nodes, p)) == LeftAfterRemoval(Data(nodes), p)
  {
  }

  lemma DataInserted<T>(nodes: seq<Node<T>>, p: nat, node: Node<T>)
    requires p <= |nodes|
    ensures Data(InsertAt(nodes, p, node)) == InsertAt(Data(nodes), p, node.data)
  {
  }

  class List<T> {
    var root: Node?<T>
    var current: Node?<T>
    ghost var nodes: seq<Node<T>>
    ghost var released: set<Node<T>>  // the nodes this list has freed

    ghost predicate Valid()
      reads this, nodes
    {
      root == At(nodes, 0) && Linked(nodes)
    }

    /** A valid list none of whose reachable nodes has been freed. */
    ghost predicate Sound()
      reads this, nodes
    {
      Valid() && forall i | 0 <= i < |nodes| :: nodes[i] !in released
    }

    ghost function Contents(): (s: seq<T>)
      reads this
    {
      Data(nodes)
    }

    constructor ()
      ensures Sound() && nodes == []
    {
      root, current, nodes, released := null, null, [], {};
    }

    method GoTo(position: nat) returns (node: Node?<T>, count: nat)
      requires Valid()
      ensures count == if position < |nodes| then position else |nodes|
      ensures node == At(nodes, count)
    {
      node, count := root, 0;
      while node != null && count < position
        invariant count <= position && count <= |nodes|
        invariant node == At(nodes, count)
        decreases |nodes| - count
      {
        assert LinksAgree(nodes, count);
        node := node.next;
        count := count + 1;
      }
    }

    method GoToEnd() returns (node: Node?<T>)
      requires Valid()
      ensures node == At(nodes, |nodes| - 1)
    {
      node := root;
      ghost var i := 0;
      while node != null && node.next != null
        invariant nodes == [] ==> node == null
        invariant nodes != [] ==> 0 <= i < |nodes| && node == nodes[i]
        decreases |nodes| - i
      {
        assert LinksAgree(nodes, i);
        node := node.next;
        i := i + 1;
      }
      assert nodes != [] ==> LinksAgree(nodes, i);
    }

    method Count() returns (count: nat)
      requires Valid()
      ensures count == |Contents()|
    {
      count := 0;
      var node := root;
      while node != null
        invariant count <= |nodes|
        invariant node == At(nodes, count)
        decreases |nodes| - count
      {
        assert LinksAgree(nodes, count);
        node := node.next;
        count := count + 1;
      }
    }

    /** The relinking of an append to a non-empty list. */
    method LinkLast(last: Node<T>, node: Node<T>)
      requires Valid() && nodes != [] && last == nodes[|nodes| - 1]
      requires node !in nodes && node.next == null
      modifies this`nodes, last`next, node`previous
      ensures Valid() && nodes == old(nodes) + [node]
    {
      SetNext(last, node);
      SetPrevious(node, last);
      nodes := nodes + [node];
      forall i | 0 <= i < |nodes|
        ensures LinksAgree(nodes, i)
      {
        assert i < |old(nodes)| ==> old(LinksAgree(nodes, i));
      }
    }

    method Append(data: T) returns (node: Node<T>)
      requires Sound()
      modifies this, nodes
      ensures Sound() && fresh(node)
      ensures nodes == old(nodes) + [node]
      ensures Contents() == old(Contents()) + [data]
    {
      var last := GoToEnd();
      node := new Node(data);
      if last == null {
        root, current := node, node;
        nodes := [node];
        assert LinksAgree(nodes, 0);
      } else {
        LinkLast(last, node);
      }
    }

    /** The insertion as written: the test is an assignment that makes `current`
        null, so every insertion within the list dereferences a null pointer. */
    method Insert(data: T, position: nat) returns (crashed: bool)
      requires Valid()
      ensures crashed <==> position <= |Contents()|
    {
      var current, count := GoTo(position);
      if count != position {
        return false;
      }
      var node := new Node(data);
      current := null;
      crashed := current == null;
    }

    /** The relinking of an insertion in front of `at`. */
    method LinkBefore(at: Node<T>, node: Node<T>, ghost position: nat)
      requires Valid() && position < |nodes| && at == nodes[position]
      requires node !in nodes && node.next == null && node.previous == null
      modifies this`nodes, Nodes(nodes)`next, Nodes(nodes)`previous, node`next, node`previous
      ensures nodes == if position == 0 then old(nodes) else InsertAt(old(nodes), position, node)
      ensures position > 0 ==> Valid()
      ensures position == 0 ==> at.previous == node && node.next == at && !Valid()
      ensures position == 0 ==>
                && node.previous == null && at.next == At(nodes, 1)
                && forall i | 0 < i < |nodes| :: LinksAgree(nodes, i)
    {
      assert LinksAgree(nodes, position);
      SetNext(at.previous, node);
      SetPrevious(node, at.previous);
      SetPrevious(at, node);
      SetNext(node, at);
      if position > 0 {
        nodes := InsertAt(nodes, position, node);
        forall i | 0 <= i < |nodes|
          ensures LinksAgree(nodes, i)
        {
          assert i < position ==> old(LinksAgree(nodes, i));
          assert i > position ==> old(LinksAgree(nodes, i - 1));
        }
      } else {
        assert !LinksAgree(nodes, 0);
        forall i | 0 < i < |nodes|
          ensures LinksAgree(nodes, i)
        {
          assert old(LinksAgree(nodes, i));
        }
      }
    }

    /** The insertion with the comparison that was evidently meant. It still
        drops a non-empty list when inserting at its end, and loses a node
        inserted at its head. */
    method InsertCompared(data: T, position: nat) returns (node: Node?<T>)
      requires Sound()
      modifies this, nodes
      ensures node == null <==> position > |old(nodes)|
      ensures node == null ==> Sound() && nodes == old(nodes) && Contents() == old(Contents())
      ensures node != null ==> fresh(node) && node.data == data
      ensures position == |old(nodes)| ==> Sound() && nodes == [node] && Contents() == [data]
      ensures 0 < position < |old(nodes)| ==>
                Sound() && nodes == InsertAt(old(nodes), position, node) &&
                Contents() == InsertAt(old(Contents()), position, data)
      ensures 0 == position < |old(nodes)| ==>
                nodes == old(nodes) && root == nodes[0] && Contents() == old(Contents()) &&
                root.previous == node && node.next == root && !Valid()
    {
      var at, count := GoTo(position);
      if count != position {
        return null;
      }
      node := new Node(data);
      if at == null {
        root, current := node, node;
        nodes := [node];
        assert LinksAgree(nodes, 0);
      } else {
        DataInserted(nodes, position, node);
        LinkBefore(at, node, position);
      }
    }

    /** The insertion that is evidently meant, at every position up to the length: the
        comparison, an append at the end, and `root` moved at the head. */
    method InsertMended(data: T, position: nat) returns (node: Node?<T>)
      requires Sound()
      modifies this, nodes
      ensures Sound() && (node == null <==> position > |old(nodes)|)
      ensures node == null ==> nodes == old(nodes) && Contents() == old(Contents())
      ensures node != null ==>
                && fresh(node) && nodes == InsertAt(old(nodes), position, node)
                && Contents() == InsertAt(old(Contents()), position, data)
    {
      var at, count := GoTo(position);
      if count != position {
        return null;
      }
      if at == null {
        node := Append(data);
        assert old(nodes)[position..] == [] && old(nodes)[..position] == old(nodes);
      } else {
        node := new Node(data);
        DataInserted(nodes, position, node);
        LinkBefore(at, node, position);
        if position == 0 {
          MoveRoot(node);
        }
      }
    }

    /** `root` moved to a node that has been linked in front of it. */
    method MoveRoot(node: Node<T>)
      requires nodes != [] && root == nodes[0] && node !in nodes && node !in released
      requires forall i | 0 <= i < |nodes| :: nodes[i] !in released
      requires forall i, j | 0 <= i < j < |nodes| :: nodes[i] != nodes[j]
      requires forall i | 0 < i < |nodes| :: LinksAgree(nodes, i)
      requires root.previous == node && root.next == At(nodes, 1) && node.next == root && node.previous == null
      modifies this
      ensures Sound() && nodes == InsertAt(old(nodes), 0, node)
    {
      root := node;
      nodes := InsertAt(nodes, 0, node);
      forall i | 0 <= i < |nodes|
        ensures LinksAgree(nodes, i)
      {
        assert i > 1 ==> old(LinksAgree(nodes, i - 1));
      }
    }

    /** The unlinking shared by both removals: what is left is one chain, the
        removed node is detached, and `root` is where it was. */
    method Unlink(node: Node<T>, ghost p: nat)
      requires Valid() && p < |nodes| && nodes[p] == node
      modifies this`current, Nodes(nodes)`next, Nodes(nodes)`previous
      ensures Linked(RemoveAt(nodes, p))
      ensures node.next == null && node.previous == null
      ensures current == if p == 0 then null else nodes[p - 1]
    {
      assert LinksAgree(nodes, p);
      SetNext(node.previous, node.next);
      SetPrevious(node.next, node.previous);
      current := node.previous;
      node.previous := null;
      node.next := null;
      forall i | 0 <= i < |RemoveAt(nodes, p)|
        ensures LinksAgree(RemoveAt(nodes, p), i)
      {
        assert old(LinksAgree(nodes, if i < p then i else i + 1));
      }
    }

    ghost method Forget(p: nat)
      requires p < |nodes| && root == nodes[0] && Linked(RemoveAt(nodes, p))
      requires nodes[p].next == null && nodes[p].previous == null
      modifies this`nodes
      ensures Valid() && nodes == LeftAfterRemoval(old(nodes), p)
    {
      nodes := LeftAfterRemoval(nodes, p);
      assert p == 0 ==> LinksAgree(nodes, 0);
    }

    method Remove(position: nat) returns (node: Node?<T>)
      requires Sound()
      modifies this, nodes
      ensures Sound()
      ensures position >= |old(nodes)| ==> node == null && nodes == old(nodes) && Contents() == old(Contents())
      ensures position < |old(nodes)| ==>
                node == old(nodes)[position] && node.next == null && node.previous == null
      ensures position < |old(nodes)| ==>
                nodes == LeftAfterRemoval(old(nodes), position) &&
                Contents() == LeftAfterRemoval(old(Contents()), position)
      ensures released == old(released) && root == old(root)
      ensures position < |old(nodes)| ==> Linked(RemoveAt(old(nodes), position))
    {
      var count;
      node, count := GoTo(position);
      if count != position || node == null {
        return null;
      }
      DataRemoved(nodes, position);
      Unlink(node, position);
      Forget(position);
    }

    /** The removal by position followed by the missing move of `root`. */
    method RemoveMovingRoot(position: nat) returns (node: Node?<T>)
      requires Sound()
      modifies this, nodes
      ensures Sound()
      ensures position >= |old(nodes)| ==> node == null && nodes == old(nodes) && Contents() == old(Contents())
      ensures position < |old(nodes)| ==>
                && node == old(nodes)[position] && node.next == null && node.previous == null
                && nodes == RemoveAt(old(nodes), position) && Contents() == RemoveAt(old(Contents()), position)
    {
      assert nodes != [] ==> LinksAgree(nodes, 0);
      var second := if root == null then null else root.next;
      ghost var before := nodes;
      node := Remove(position);
      if node != null {
        DataRemoved(before, position);
        if position == 0 {
          root := second;
        }
        nodes := RemoveAt(before, position);
      }
    }

    /** The search that `list_get_item` and `list_remove_item` both make. */
    method GetItem(matches: T -> bool) returns (node: Node?<T>)
      requires Valid()
      ensures node == At(nodes, FirstMatch(Contents(), matches))
    {
      node := root;
      ghost var p := 0;
      while node != null
        invariant 0 <= p <= |nodes| && node == At(nodes, p)
        invariant forall i | 0 <= i < p :: !matches(Contents()[i])
        decreases |nodes| - p
      {
        assert LinksAgree(nodes, p);
        if matches(node.data) {
          break;
        }
        node := node.next;
        p := p + 1;
      }
      FirstMatchUnique(Contents(), matches, p);
    }

    /** As written: after the removal of the head, `root` is a freed node. */
    method RemoveItem(matches: T -> bool) returns (removed: bool)
      requires Sound()
      modifies this, nodes
      ensures Valid()
      ensures removed <==> FirstMatch(old(Contents()), matches) < |old(nodes)|
      ensures !removed ==> Sound() && nodes == old(nodes) && root == old(root) && Contents() == old(Contents())
      ensures removed ==>
                var p := FirstMatch(old(Contents()), matches);
                && nodes == LeftAfterRemoval(old(nodes), p)
                && Contents() == LeftAfterRemoval(old(Contents()), p)
                && (Sound() <==> p > 0)
                && released == old(released) + {old(nodes)[p]}
                && old(nodes)[p].next == null && old(nodes)[p].previous == null
                && Linked(RemoveAt(old(nodes), p))
                && root == old(root)
    {
      var node := GetItem(matches);
      if node == null {
        return false;
      }
      ghost var p := FirstMatch(Contents(), matches);
      DataRemoved(nodes, p);
      Unlink(node, p);
      Forget(p);
      released := released + {node};
      return true;
    }

    /** The same removal followed by the missing move of `root`. */
    method RemoveItemMovingRoot(matches: T -> bool) returns (removed: bool)
      requires Sound()
      modifies this, nodes
      ensures Sound()
      ensures removed <==> FirstMatch(old(Contents()), matches) < |old(nodes)|
      ensures !removed ==> nodes == old(nodes) && Contents() == old(Contents())
      ensures removed ==>
                var p := FirstMatch(old(Contents()), matches);
                && nodes == RemoveAt(old(nodes), p) && Contents() == RemoveAt(old(Contents()), p)
                && released == old(released) + {old(nodes)[p]}
                && old(nodes)[p].next == null && old(nodes)[p].previous == null
    {
      assert nodes != [] ==> LinksAgree(nodes, 0);
      var head := root;
      var at := GetItem(matches);
      var second := if root == null then null else root.next;
      removed := RemoveItem(matches);
      if removed {
        DataRemoved(old(nodes), FirstMatch(old(Contents()), matches));
        if head == at {
          root := second;
          nodes := RemoveAt(old(nodes), 0);
        }
      }
    }

    /** The traversal threads `result` through every comparison and stops at the
        first one that succeeds when `uniqueness` is asked for. */
    method ForEachCompare<R>(uniqueness: bool, compare: (T, R) -> (bool, R), init: R) returns (result: R)
      requires Valid()
      ensures result == Traverse(Contents(), uniqueness, compare, init)
    {
      result := init;
      var node := root;
      ghost var p := 0;
      while node != null
        invariant 0 <= p <= |nodes| && node == At(nodes, p)
        invariant Traverse(Contents()[p..], uniqueness, compare, result)
                  == Traverse(Contents(), uniqueness, compare, init)
        decreases |nodes| - p
      {
        assert LinksAgree(nodes, p);
        assert Contents()[p..][1..] == Contents()[p + 1..];
        var step := compare(node.data, result);
        result := step.1;
        if step.0 && uniqueness {
          return;
        }
        node := node.next;
        p := p + 1;
      }
    }
  }

  /** A list stays sound while nobody touches it or its nodes. */
  twostate lemma Untouched<T>(list: List<T>)
    requires old(list.Sound()) && unchanged(list) && forall n | n in list.nodes :: unchanged(n)
    ensures list.Sound()
  {
    forall i | 0 <= i < |list.nodes|
      ensures LinksAgree(list.nodes, i)
    {
      assert old(LinksAgree(list.nodes, i)) && list.nodes[i] in list.nodes;
    }
  }

  ghost function Traverse<X, R>(s: seq<X>, uniqueness: bool, compare: (X, R) -> (bool, R), result: R): R {
    if s == [] then result
    else
      var step := compare(s[0], result);
      if step.0 && uniqueness then step.1 else Traverse(s[1..], uniqueness, compare, step.1)
  }

  /** A comparison that writes `true` on a match and nothing otherwise. */
  function Existing<X>(matches: X -> bool): (X, bool) -> (bool, bool) {
    (x, r) => (matches(x), matches(x) || r)
  }

  /** A comparison that counts its matches and never succeeds. */
  function Counting<X>(matches: X -> bool): (X, int) -> (bool, int) {
    (x, r) => (false, if matches(x) then r + 1 else r)
  }

  /** `queue_compare_id` writes `true` on a match and nothing otherwise. So the
      existence test answers what its uninitialised result happened to hold
      unless a match is found: it is right exactly when there is a match or the
      result started out false. */
  lemma {:induction false} ExistenceTest<X>(s: seq<X>, matches: X -> bool, init: bool)
    ensures Traverse(s, true, Existing(matches), init)
            == (FirstMatch(s, matches) < |s| || init)
  {
    if s != [] && !matches(s[0]) {
      ExistenceTest(s[1..], matches, init);
    }
  }

  function CountMatches<X>(s: seq<X>, matches: X -> bool): nat {
    if s == [] then 0 else (if matches(s[0]) then 1 else 0) + CountMatches(s[1..], matches)
  }

  /** A comparison that only counts never stops the traversal. */
  lemma {:induction false} CountingTraversal<X>(s: seq<X>, uniqueness: bool, matches: X -> bool, init: int)
    ensures Traverse(s, uniqueness, Counting(matches), init)
            == init + CountMatches(s, matches)
  {
    if s != [] {
      CountingTraversal(s[1..], uniqueness, matches, if matches(s[0]) then init + 1 else init);
    }
  }
}
