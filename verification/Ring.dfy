/** The intrusive circular lists of ikcp.h: pointer surgery on `next` and `prev` that refines
    insertion, append and removal on a sequence. */
module Ring {

  /** `struct IQUEUEHEAD`: both the head of a queue and the link inside each segment. */
  class Node {
    var next: Node?
    var prev: Node?

    /** A node in no queue, as `IQUEUE_DEL` leaves it. */
    constructor ()
      ensures next == null && prev == null
    {
      next, prev := null, null;
    }
  }

  /** Once around: the head, the members in order, the head again. */
  ghost function Around(head: Node, nodes: seq<Node>): seq<Node> {
    [head] + nodes + [head]
  }

  ghost predicate Distinct(nodes: seq<Node>) {
    forall i, j :: 0 <= i < j < |nodes| ==> nodes[i] != nodes[j]
  }

  /** Neighbours on the circle point at each other, and no node occurs twice. */
  ghost predicate Linked(head: Node, nodes: seq<Node>)
    reads head, nodes
  {
    && head !in nodes && Distinct(nodes)
    && (forall i :: 0 <= i <= |nodes| ==> Around(head, nodes)[i].next == Around(head, nodes)[i + 1])
    && (forall i :: 0 <= i <= |nodes| ==> Around(head, nodes)[i + 1].prev == Around(head, nodes)[i])
  }

  /** `IQUEUE_INIT` */
  method Init(head: Node)
    modifies head
    ensures Linked(head, [])
  {
    head.next := head;
    head.prev := head;
  }

  /** `IQUEUE_IS_EMPTY` */
  method IsEmpty(head: Node, ghost nodes: seq<Node>) returns (empty: bool)
    requires Linked(head, nodes)
    ensures empty <==> nodes == []
  {
    assert Around(head, nodes)[0].next == Around(head, nodes)[1];
    empty := head == head.next;
  }

  /** `IQUEUE_ADD`: insert after `at`, the head or the i-th member.  Only the new node and its
      two neighbours are written. */
  method Add(node: Node, at: Node, ghost head: Node, ghost nodes: seq<Node>, ghost i: nat)
    requires Linked(head, nodes) && node != head && node !in nodes
    requires i <= |nodes| && at == Around(head, nodes)[i]
    modifies node, Around(head, nodes)[i], Around(head, nodes)[i + 1]
    ensures Linked(head, Inserted(nodes, node, i))
  {
    ghost var old', new' := Around(head, nodes), Around(head, Inserted(nodes, node, i));
    AroundInserted(head, nodes, node, i);
    assert old'[i].next == old'[i + 1];
    node.prev := at;
    node.next := at.next;
    at.next.prev := node;
    at.next := node;
    forall j | 0 <= j <= |nodes| + 1 ensures new'[j].next == new'[j + 1] && new'[j + 1].prev == new'[j] {
      assert j < i ==> new'[j] == old'[j] && new'[j + 1] == old'[j + 1] && old'[j].next == old'[j + 1];
      assert j > i + 1 ==> new'[j] == old'[j - 1] && new'[j + 1] == old'[j] && old'[j - 1].next == old'[j];
    }
  }

  ghost function Inserted(nodes: seq<Node>, node: Node, i: nat): seq<Node>
    requires i <= |nodes|
  {
    nodes[..i] + [node] + nodes[i..]
  }

  lemma AroundInserted(head: Node, nodes: seq<Node>, node: Node, i: nat)
    requires i <= |nodes| && Distinct(nodes) && head !in nodes && node != head && node !in nodes
    ensures var old', new' := Around(head, nodes), Around(head, Inserted(nodes, node, i));
            && |new'| == |old'| + 1
            && (forall j :: 0 <= j <= i ==> new'[j] == old'[j]) && new'[i + 1] == node
            && (forall j :: i + 1 < j < |new'| ==> new'[j] == old'[j - 1])
    ensures Distinct(Inserted(nodes, node, i)) && head !in Inserted(nodes, node, i)
  {
  }

  /** `IQUEUE_ADD_TAIL`: append. */
  method AddTail(node: Node, head: Node, ghost nodes: seq<Node>)
    requires Linked(head, nodes) && node != head && node !in nodes
    modifies node, head, Around(head, nodes)[|nodes|]
    ensures Linked(head, nodes + [node])
  {
    ghost var old', new' := Around(head, nodes), Around(head, nodes + [node]);
    assert old'[|nodes| + 1].prev == old'[|nodes|];
    node.prev := head.prev;
    node.next := head;
    head.prev.next := node;
    head.prev := node;
    assert forall j :: 0 <= j <= |nodes| ==> new'[j] == old'[j];
  }

  /** `IQUEUE_DEL`: take out the i-th member and clear its links. */
  method Del(entry: Node, ghost head: Node, ghost nodes: seq<Node>, ghost i: nat)
    requires Linked(head, nodes) && i < |nodes| && nodes[i] == entry
    modifies entry, Around(head, nodes)[i], Around(head, nodes)[i + 2]
    ensures Linked(head, nodes[..i] + nodes[i + 1..])
    ensures entry.next == null && entry.prev == null
  {
    hide Distinct;
    ghost var old', new' := Around(head, nodes), Around(head, nodes[..i] + nodes[i + 1..]);
    assert old'[i + 1] == entry;
    assert old'[i + 1].next == old'[i + 2] && old'[i + 1].prev == old'[i];
    entry.next.prev := entry.prev;
    entry.prev.next := entry.next;
    entry.next := null;
    entry.prev := null;
    assert forall j :: 0 <= j <= i ==> new'[j] == old'[j];
    assert forall j :: i < j < |new'| ==> new'[j] == old'[j + 1];
    RemovedDistinct(nodes, i);
  }

  lemma RemovedDistinct(nodes: seq<Node>, i: nat)
    requires Distinct(nodes) && i < |nodes|
    ensures Distinct(nodes[..i] + nodes[i + 1..]) && nodes[i] !in nodes[..i] + nodes[i + 1..]
  {
  }

  /** Two queues that share no node. */
  ghost predicate Apart(a: Node, xs: seq<Node>, b: Node, ys: seq<Node>) {
    a != b && a !in ys && b !in xs && forall x :: x in xs ==> x !in ys
  }

  /** The move between queues in flush, receive and parse_data: the head of one queue becomes
      the tail of the other; no third queue is written. */
  method MoveFirst(from: Node, to: Node, ghost xs: seq<Node>, ghost ys: seq<Node>)
    requires Linked(from, xs) && Linked(to, ys) && Apart(from, xs, to, ys) && xs != []
    modifies from, to, xs, ys
    ensures Linked(from, xs[1..]) && Linked(to, ys + [xs[0]]) && Apart(from, xs[1..], to, ys + [xs[0]])
  {
    hide Linked;
    FirstMember(from, xs);
    LastMember(to, ys);
    assert xs[0] in xs && xs[0] !in ys;
    var node := from.next;
    Del(node, from, xs, 0);
    assert xs[..0] + xs[1..] == xs[1..];
    AddTail(node, to, ys);
  }

  lemma FirstMember(head: Node, nodes: seq<Node>)
    requires Linked(head, nodes) && nodes != []
    ensures head.next == nodes[0] && nodes[0] != head && nodes[0] !in nodes[1..]
    ensures Around(head, nodes)[0] == head
    ensures Around(head, nodes)[2] == head || Around(head, nodes)[2] in nodes
  {
    assert Around(head, nodes)[0].next == Around(head, nodes)[1];
  }

  lemma LastMember(head: Node, nodes: seq<Node>)
    ensures Around(head, nodes)[|nodes|] == head || Around(head, nodes)[|nodes|] in nodes
  {
  }

  /** Moving the first `n` members one by one. */
  method MoveMany(from: Node, to: Node, n: nat, ghost xs: seq<Node>, ghost ys: seq<Node>)
    requires Linked(from, xs) && Linked(to, ys) && Apart(from, xs, to, ys) && n <= |xs|
    modifies from, to, xs, ys
    ensures Linked(from, xs[n..]) && Linked(to, ys + xs[..n])
  {
    assert ys + xs[..0] == ys && xs[0..] == xs;
    for i := 0 to n
      invariant Linked(from, xs[i..]) && Linked(to, ys + xs[..i]) && Apart(from, xs[i..], to, ys + xs[..i])
    {
      MoveFirst(from, to, xs[i..], ys + xs[..i]);
      assert xs[i..][1..] == xs[i + 1..];
      assert ys + xs[..i] + [xs[i..][0]] == ys + xs[..i + 1];
    }
  }
}
