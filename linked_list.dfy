/**
 * The doubly-linked deque of `1_concepts/src/linked_list.rs`. Nodes hold a
 * value and `next`/`prev` links; the list holds `head` (the BACK end: where
 * `push_back` adds and `pop_back` removes), `tail` (the FRONT end) and a
 * length counter. The `Arc<Mutex<_>>` cells become heap objects: every operation
 * runs under `&mut self`, so a mutex is only a cell here.
 *
 * Ghost state: `nodes` lists the nodes front to back, `elems` their values.
 */
module LinkedLists {
  import opened Wrappers

  class Node<T> {
    var next: Node?<T>
    var prev: Node?<T>
    var val: T

    /** `Node::new`: an unlinked node. */
    constructor (val: T)
      ensures this.val == val && next == null && prev == null
    {
      this.val := val;
      next := null;
      prev := null;
    }
  }

  class LinkedList<T> {
    var head: Node?<T>
    var tail: Node?<T>
    var len: nat
    ghost var nodes: seq<Node<T>>
    ghost var elems: seq<T>
    ghost var Repr: set<object>

    /** The links form one chain from `tail` (front) to `head` (back), `len` long. */
    ghost predicate Valid()
      reads this, Repr
    {
      && this in Repr
      && |nodes| == |elems| == len
      && (forall i | 0 <= i < |nodes| :: nodes[i] in Repr)
      && (forall i, j | 0 <= i < j < |nodes| :: nodes[i] != nodes[j])
      && (len == 0 ==> head == null && tail == null)
      && (len > 0 ==> head == nodes[len - 1] && tail == nodes[0])
      && (forall i | 0 <= i < |nodes| :: nodes[i].val == elems[i])
      && (len > 0 ==> nodes[0].prev == null && nodes[len - 1].next == null)
      && (forall i | 0 < i < |nodes| :: nodes[i].prev == nodes[i - 1])
      && (forall i | 0 <= i < |nodes| - 1 :: nodes[i].next == nodes[i + 1])
    }

    /** `LinkedList::new`: no nodes, length 0. */
    constructor ()
      ensures Valid() && fresh(Repr)
      ensures elems == [] && Back() == None && Front() == None
    {
      head := null;
      tail := null;
      len := 0;
      nodes := [];
      elems := [];
      Repr := {this};
    }

    /** `back`: the value of the `head` node. */
    function Back(): (r: Option<T>)
      reads this, head, Repr
      ensures Valid() ==> r == if elems == [] then None else Some(elems[|elems| - 1])
    {
      if head == null then None else Some(head.val)
    }

    /** `front`: the value of the `tail` node. */
    function Front(): (r: Option<T>)
      reads this, tail, Repr
      ensures Valid() ==> r == if elems == [] then None else Some(elems[0])
    {
      if tail == null then None else Some(tail.val)
    }

    /** `push_back`: a new node after `head`, which becomes the new `head`. */
    method PushBack(val: T)
      requires Valid()
      modifies Repr
      ensures Valid() && fresh(Repr - old(Repr))
      ensures elems == old(elems) + [val] && len == old(len) + 1
    {
      var node := new Node(val);
      ghost var k := |nodes|;
      if head == null {
        head := node;
        tail := node;
      } else {
        assert head == nodes[k - 1];
        head.next := node;
        node.prev := head;
        head := node;
      }
      len := len + 1;
      nodes := nodes + [node];
      elems := elems + [val];
      Repr := Repr + {node};
      forall i | 0 < i < k ensures nodes[i].prev == nodes[i - 1] {
        assert nodes[i] == old(nodes[i]) && nodes[i] in old(Repr);
        assert nodes[i].prev == old(nodes[i].prev);
      }
      forall i | 0 <= i < k - 1 ensures nodes[i].next == nodes[i + 1] {
        assert nodes[i] == old(nodes[i]) && nodes[i] in old(Repr);
        assert nodes[i].next == old(nodes[i].next);
      }
    }

    /** `push_front`: a new node before `tail`, which becomes the new `tail`. */
    method PushFront(val: T)
      requires Valid()
      modifies Repr
      ensures Valid() && fresh(Repr - old(Repr))
      ensures elems == [val] + old(elems) && len == old(len) + 1
    {
      var node := new Node(val);
      ghost var k := |nodes|;
      if tail == null {
        tail := node;
        head := node;
      } else {
        assert tail == nodes[0];
        tail.prev := node;
        node.next := tail;
        tail := node;
      }
      len := len + 1;
      nodes := [node] + nodes;
      elems := [val] + elems;
      Repr := Repr + {node};
      forall i | 1 < i <= k ensures nodes[i].prev == nodes[i - 1] {
        assert nodes[i] == old(nodes[i - 1]) && nodes[i] in old(Repr);
        assert nodes[i].prev == old(nodes[i - 1].prev);
      }
      forall i | 1 <= i < k ensures nodes[i].next == nodes[i + 1] {
        assert nodes[i] == old(nodes[i - 1]) && nodes[i] in old(Repr);
        assert nodes[i].next == old(nodes[i - 1].next);
      }
    }

    /**
     * `pop_back`: the value of `head`; its `prev` becomes the new `head`.
     * When that was the only node, both ends are cleared.
     */
    method PopBack() returns (r: Option<T>)
      requires Valid()
      modifies Repr
      ensures Valid() && Repr == old(Repr)
      ensures old(elems) == [] ==> r == None && elems == [] && len == old(len)
      ensures old(elems) != [] ==>
        && r == Some(old(elems)[|old(elems)| - 1])
        && elems == old(elems)[..|old(elems)| - 1]
        && len == old(len) - 1
    {
      if head == null {
        return None;
      }
      ghost var k := |nodes| - 1;
      assert head == nodes[k];
      var popped := head.val;
      var p := head.prev;
      assert p == if k == 0 then null else nodes[k - 1];
      head.prev := null;
      if p != null {
        p.next := null;
        head := p;
      } else {
        head := null;
        tail := null;
      }
      len := len - 1;
      nodes := nodes[..len];
      elems := elems[..len];
      forall i | 0 < i < k ensures nodes[i].prev == nodes[i - 1] {
        assert nodes[i] == old(nodes[i]) && nodes[i] in old(Repr);
        assert nodes[i].prev == old(nodes[i].prev);
      }
      forall i | 0 <= i < k - 1 ensures nodes[i].next == nodes[i + 1] {
        assert nodes[i] == old(nodes[i]) && nodes[i] in old(Repr);
        assert nodes[i].next == old(nodes[i].next);
      }
      r := Some(popped);
    }

    /**
     * `pop_front`: the value of `tail`; its `next` becomes the new `tail`.
     * When that was the only node, both ends are cleared.
     */
    method PopFront() returns (r: Option<T>)
      requires Valid()
      modifies Repr
      ensures Valid() && Repr == old(Repr)
      ensures old(elems) == [] ==> r == None && elems == [] && len == old(len)
      ensures old(elems) != [] ==> r == Some(old(elems)[0]) && elems == old(elems)[1..] && len == old(len) - 1
    {
      if tail == null {
        return None;
      }
      ghost var k := |nodes| - 1;
      assert tail == nodes[0];
      var popped := tail.val;
      var n := tail.next;
      assert n == if k == 0 then null else nodes[1];
      tail.next := null;
      if n != null {
        n.prev := null;
        tail := n;
      } else {
        tail := null;
        head := null;
      }
      len := len - 1;
      nodes := nodes[1..];
      elems := elems[1..];
      forall i | 0 < i < k ensures nodes[i].prev == nodes[i - 1] {
        assert nodes[i] == old(nodes[i + 1]);
        assert nodes[i].prev == old(nodes[i + 1].prev);
      }
      forall i | 0 <= i < k - 1 ensures nodes[i].next == nodes[i + 1] {
        assert nodes[i] == old(nodes[i + 1]);
        assert nodes[i].next == old(nodes[i + 1].next);
      }
      r := Some(popped);
    }

    /**
     * `pop_back` as written: when the popped node was the only one, only
     * `head` is cleared and `tail` still points at the popped node.
     */
    method PopBackAsWritten() returns (r: Option<T>)
      requires Valid()
      modifies Repr
      ensures old(elems) == [] ==> r == None && Valid() && elems == []
      ensures |old(elems)| > 1 ==>
        && Valid()
        && r == Some(old(elems)[|old(elems)| - 1])
        && elems == old(elems)[..|old(elems)| - 1]
      ensures |old(elems)| == 1 ==>
        && r == Some(old(elems)[0])
        && len == 0 && head == null
        && tail == old(tail) && tail != null && tail.val == old(elems)[0]
    {
      if head == null {
        return None;
      }
      ghost var k := |nodes| - 1;
      assert head == nodes[k];
      var popped := head.val;
      var p := head.prev;
      assert p == if k == 0 then null else nodes[k - 1];
      head.prev := null;
      if p != null {
        p.next := null;
        head := p;
      } else {
        head := null;
      }
      len := len - 1;
      nodes := nodes[..len];
      elems := elems[..len];
      forall i | 0 < i < k ensures nodes[i].prev == nodes[i - 1] {
        assert nodes[i] == old(nodes[i]) && nodes[i] in old(Repr);
        assert nodes[i].prev == old(nodes[i].prev);
      }
      forall i | 0 <= i < k - 1 ensures nodes[i].next == nodes[i + 1] {
        assert nodes[i] == old(nodes[i]) && nodes[i] in old(Repr);
        assert nodes[i].next == old(nodes[i].next);
      }
      r := Some(popped);
    }

    /**
     * `pop_front` as written: when the popped node was the only one, only
     * `tail` is cleared and `head` still points at the popped node.
     */
    method PopFrontAsWritten() returns (r: Option<T>)
      requires Valid()
      modifies Repr
      ensures old(elems) == [] ==> r == None && Valid() && elems == []
      ensures |old(elems)| > 1 ==> Valid() && r == Some(old(elems)[0]) && elems == old(elems)[1..]
      ensures |old(elems)| == 1 ==>
        && r == Some(old(elems)[0])
        && len == 0 && tail == null
        && head == old(head) && head != null && head.val == old(elems)[0]
    {
      if tail == null {
        return None;
      }
      ghost var k := |nodes| - 1;
      assert tail == nodes[0];
      var popped := tail.val;
      var n := tail.next;
      assert n == if k == 0 then null else nodes[1];
      tail.next := null;
      if n != null {
        n.prev := null;
        tail := n;
      } else {
        tail := null;
      }
      len := len - 1;
      nodes := nodes[1..];
      elems := elems[1..];
      forall i | 0 < i < k ensures nodes[i].prev == nodes[i - 1] {
        assert nodes[i] == old(nodes[i + 1]);
        assert nodes[i].prev == old(nodes[i + 1].prev);
      }
      forall i | 0 <= i < k - 1 ensures nodes[i].next == nodes[i + 1] {
        assert nodes[i] == old(nodes[i + 1]);
        assert nodes[i].next == old(nodes[i + 1].next);
      }
      r := Some(popped);
    }
  }

  /** `IntoIter`: owns the list; `next` is `pop_front`. */
  class IntoIter<T> {
    const list: LinkedList<T>

    /** `LinkedList::into_iter`. */
    constructor (list: LinkedList<T>)
      ensures this.list == list
    {
      this.list := list;
    }

    /** `Iterator::next`: the front value, removed from the list. */
    method Next() returns (r: Option<T>)
      requires list.Valid()
      modifies list.Repr
      ensures list.Valid() && list.Repr == old(list.Repr)
      ensures old(list.elems) == [] ==> r == None && list.elems == []
      ensures old(list.elems) != [] ==> r == Some(old(list.elems)[0]) && list.elems == old(list.elems)[1..]
    {
      r := list.PopFront();
    }
  }

  /** `into_iter().collect::<Vec<_>>()`: every value, front to back. */
  method Collect<T>(list: LinkedList<T>) returns (out: seq<T>)
    requires list.Valid()
    modifies list.Repr
    ensures list.Valid() && list.elems == []
    ensures out == old(list.elems)
  {
    var it := new IntoIter(list);
    out := [];
    var done := false;
    while !done
      invariant list.Valid() && list.Repr == old(list.Repr)
      invariant out + list.elems == old(list.elems)
      invariant done ==> list.elems == []
      decreases |list.elems| + (if done then 0 else 1)
    {
      var r := it.Next();
      match r
      case None => done := true;
      case Some(v) => out := out + [v];
    }
  }

  // ---------------------------------------------------------------------------
  // The unit tests next to the list, as scenarios
  // ---------------------------------------------------------------------------

  /** Pushes at both ends, then pops at both ends. */
  method PushPopScenario() returns (backs: seq<Option<int>>, fronts: seq<Option<int>>, val: Option<int>, val2: Option<int>)
    ensures backs == [None, Some(20), Some(30), Some(40), Some(40), Some(30)]
    ensures fronts == [None, Some(20), Some(20), Some(20), Some(10), Some(20)]
    ensures val == Some(40) && val2 == Some(10)
  {
    var list := new LinkedList<int>();
    backs, fronts := [list.Back()], [list.Front()];
    list.PushBack(20);
    backs, fronts := backs + [list.Back()], fronts + [list.Front()];
    list.PushBack(30);
    backs, fronts := backs + [list.Back()], fronts + [list.Front()];
    list.PushBack(40);
    backs, fronts := backs + [list.Back()], fronts + [list.Front()];
    list.PushFront(10);
    backs, fronts := backs + [list.Back()], fronts + [list.Front()];
    val := list.PopBack();
    val2 := list.PopFront();
    backs, fronts := backs + [list.Back()], fronts + [list.Front()];
  }

  /** Every value pushed at the back comes out of the iterator, front to back. */
  method PushedValuesAreCollected(n: nat) returns (out: seq<nat>)
    ensures |out| == n && forall i | 0 <= i < n :: out[i] == i
    ensures forall v: nat :: v in out <==> v < n
  {
    var list := new LinkedList<nat>();
    var i := 0;
    while i < n
      invariant i <= n && list.Valid() && fresh(list.Repr)
      invariant |list.elems| == i && forall k | 0 <= k < i :: list.elems[k] == k
    {
      list.PushBack(i);
      i := i + 1;
    }
    out := Collect(list);
    assert forall v :: v in out ==> v < n by {
      forall v | v in out ensures v < n {
        var k :| 0 <= k < |out| && out[k] == v;
      }
    }
    assert forall v: nat :: v < n ==> v in out by {
      forall v: nat | v < n ensures v in out {
        assert out[v] == v;
      }
    }
  }

  /** `pop_back` of the only element leaves `front` at the popped value while the length is 0. */
  method StaleFrontAfterPopBack() returns (popped: Option<int>, front: Option<int>, len: nat)
    ensures popped == Some(10) && front == Some(10) && len == 0
  {
    var list := new LinkedList<int>();
    list.PushBack(10);
    popped := list.PopBackAsWritten();
    front := list.Front();
    len := list.len;
  }

  /** `pop_front` of the only element leaves `back` at the popped value while the length is 0. */
  method StaleBackAfterPopFront() returns (popped: Option<int>, back: Option<int>, len: nat)
    ensures popped == Some(10) && back == Some(10) && len == 0
  {
    var list := new LinkedList<int>();
    list.PushBack(10);
    popped := list.PopFrontAsWritten();
    back := list.Back();
    len := list.len;
  }

  /** With both ends cleared, a list emptied from either end is empty at both ends. */
  method EmptyAfterLastPop() returns (popped: seq<Option<int>>, ends: seq<Option<int>>)
    ensures popped == [Some(10), Some(20)]
    ensures ends == [None, None, None, None]
  {
    var list := new LinkedList<int>();
    list.PushBack(10);
    var a := list.PopBack();
    ends := [list.Back(), list.Front()];
    list.PushFront(20);
    var b := list.PopFront();
    ends := ends + [list.Back(), list.Front()];
    popped := [a, b];
  }
}
