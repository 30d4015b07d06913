/** The linked nodes of a message queue (ipc.c): a chain of nodes through their next fields, and
    the partition of all nodes among the queue, the free list and the copies under way. */
module MessageNodes {
  import opened Lists

  const NULL: int := -1

  /** Following next from `start` visits `nodes` and ends with NULL. */
  ghost predicate Chain(next: seq<int>, start: int, nodes: seq<nat>)
    decreases |nodes|
  {
    if nodes == [] then start == NULL
    else start == nodes[0] && nodes[0] < |next| && Chain(next, next[nodes[0]], nodes[1..])
  }

  lemma {:induction false} ChainElsewhere(next: seq<int>, start: int, nodes: seq<nat>, x: nat, y: int)
    requires Chain(next, start, nodes) && x < |next| && x !in Ids(nodes)
    ensures Chain(next[x := y], start, nodes)
    decreases |nodes|
  {
    if nodes != [] {
      assert nodes[0] in Ids(nodes);
      ChainElsewhere(next, next[nodes[0]], nodes[1..], x, y);
    }
  }

  /** A node in front. */
  lemma ChainPushed(next: seq<int>, start: int, nodes: seq<nat>, x: nat)
    requires Chain(next, start, nodes) && x < |next| && x !in Ids(nodes)
    ensures Chain(next[x := start], x, [x] + nodes)
  {
    ChainElsewhere(next, start, nodes, x, start);
    assert ([x] + nodes)[1..] == nodes;
  }

  /** A node at the end, linked from the last one. */
  lemma {:induction false} ChainAppended(next: seq<int>, start: int, nodes: seq<nat>, x: nat)
    requires Chain(next, start, nodes) && x < |next| && x !in Ids(nodes) && next[x] == NULL && Once(nodes)
    ensures if nodes == [] then Chain(next, x, [x]) else
      nodes[|nodes| - 1] < |next| && Chain(next[nodes[|nodes| - 1] := x], start, nodes + [x])
    decreases |nodes|
  {
    if nodes != [] {
      var last := nodes[|nodes| - 1];
      var tail := nodes[1..];
      OnceTail(nodes);
      assert nodes[0] in Ids(nodes);
      ChainAppended(next, next[nodes[0]], tail, x);
      if tail == [] {
        assert nodes + [x] == [nodes[0], x];
        assert (nodes + [x])[1..] == [x];
      } else {
        assert tail[|tail| - 1] == last;
        assert (nodes + [x])[1..] == tail + [x];
        assert last != nodes[0];
      }
    }
  }

  function Nodes(n: nat): (r: set<nat>)
    ensures forall x: nat :: x in r <==> x < n
  {
    if n == 0 then {} else Nodes(n - 1) + {n - 1}
  }

  /** Every node is in exactly one place. */
  ghost predicate Partition(n: nat, queue: seq<nat>, free: seq<nat>, sending: set<nat>, receiving: set<nat>) {
    && Once(queue) && Once(free)
    && Ids(queue) !! Ids(free) !! sending !! receiving
    && Ids(queue) + Ids(free) + sending + receiving == Nodes(n)
  }

  lemma AllFree(n: nat, free: seq<nat>)
    requires Once(free) && Ids(free) == Nodes(n)
    ensures Partition(n, [], free, {}, {})
  {
    assert Ids([]) == {};
  }

  lemma {:induction false} OnceCount(list: seq<nat>)
    requires Once(list)
    ensures |Ids(list)| == |list|
    decreases |list|
  {
    if list == [] {
      assert Ids(list) == {};
    } else {
      OnceTail(list);
      OnceCount(list[1..]);
      assert list[0] in Ids(list);
      assert Ids(list) == {list[0]} + Ids(list[1..]);
    }
  }

  lemma {:induction false} NodesCount(n: nat)
    ensures |Nodes(n)| == n
  {
    if n > 0 {
      NodesCount(n - 1);
    }
  }

  /** Conservation: no node is ever lost or counted twice. */
  lemma Conserved(n: nat, queue: seq<nat>, free: seq<nat>, sending: set<nat>, receiving: set<nat>)
    requires Partition(n, queue, free, sending, receiving)
    ensures |queue| + |free| + |sending| + |receiving| == n
  {
    OnceCount(queue);
    OnceCount(free);
    NodesCount(n);
    assert |Ids(queue) + Ids(free)| == |Ids(queue)| + |Ids(free)|;
    assert |Ids(queue) + Ids(free) + sending| == |Ids(queue) + Ids(free)| + |sending|;
    assert |Ids(queue) + Ids(free) + sending + receiving| == |Ids(queue) + Ids(free) + sending| + |receiving|;
  }

  /** What the nodes of a chain hold. */
  function Payloads(payload: seq<seq<nat>>, nodes: seq<nat>): (r: seq<seq<nat>>)
    requires forall x :: x in Ids(nodes) ==> x < |payload|
    ensures |r| == |nodes|
    decreases |nodes|
  {
    if nodes == [] then []
    else
      assert nodes[0] in Ids(nodes) && Ids(nodes[1..]) <= Ids(nodes);
      [payload[nodes[0]]] + Payloads(payload, nodes[1..])
  }

  lemma {:induction false} PayloadsElsewhere(payload: seq<seq<nat>>, nodes: seq<nat>, x: nat, bytes: seq<nat>)
    requires (forall y :: y in Ids(nodes) ==> y < |payload|) && x < |payload| && x !in Ids(nodes)
    ensures Payloads(payload[x := bytes], nodes) == Payloads(payload, nodes)
    decreases |nodes|
  {
    if nodes != [] {
      assert nodes[0] in Ids(nodes) && Ids(nodes[1..]) <= Ids(nodes);
      PayloadsElsewhere(payload, nodes[1..], x, bytes);
    }
  }

  lemma {:induction false} PayloadsAppended(payload: seq<seq<nat>>, nodes: seq<nat>, x: nat)
    requires (forall y :: y in Ids(nodes) ==> y < |payload|) && x < |payload|
    ensures forall y :: y in Ids(nodes + [x]) ==> y < |payload|
    ensures Payloads(payload, nodes + [x]) == Payloads(payload, nodes) + [payload[x]]
    decreases |nodes|
  {
    IdsConcat(nodes, [x]);
    if nodes == [] {
      assert [] + [x] == [x] && [x][1..] == [];
    } else {
      assert nodes[0] in Ids(nodes) && Ids(nodes[1..]) <= Ids(nodes);
      assert (nodes + [x])[1..] == nodes[1..] + [x];
      PayloadsAppended(payload, nodes[1..], x);
    }
  }
}
