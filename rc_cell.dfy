/**
 * The shared stack of `1_concepts/1_3_rc_cell`: a `GlobalStack` is a handle
 * on one reference-counted, interior-mutable vector, and cloning a handle
 * shares that vector, so a push or pop through any handle is seen by all.
 */
module SharedStack {
  import opened Wrappers

  /** The `Rc<RefCell<Vec<T>>>` that the handles share. */
  class SharedVec<T> {
    var items: seq<T>

    constructor New()
      ensures items == []
    {
      items := [];
    }
  }

  /** `GlobalStack<T>`: a handle on the shared vector, whose last item is the top. */
  class GlobalStack<T> {
    const data: SharedVec<T>

    /** `new`: a handle on a fresh, empty vector. */
    constructor New()
      ensures fresh(data) && data.items == []
    {
      data := new SharedVec.New();
    }

    /** The handle that `clone` builds: it shares `data`. */
    constructor Sharing(data: SharedVec<T>)
      ensures this.data == data
    {
      this.data := data;
    }

    /** `clone`: a new handle on the same vector; nothing is copied. */
    method Clone() returns (other: GlobalStack<T>)
      ensures fresh(other) && other.data == data
    {
      other := new GlobalStack.Sharing(data);
    }

    /** `push`: the item goes on top, seen by every handle on the same vector. */
    method Push(item: T)
      modifies data
      ensures data.items == old(data.items) + [item]
    {
      data.items := data.items + [item];
    }

    /** `pop`: the top item, taken off; `None` on an empty stack. */
    method Pop() returns (r: Option<T>)
      modifies data
      ensures old(data.items) == [] ==> r == None && data.items == []
      ensures old(data.items) != [] ==>
        r == Some(old(data.items)[|old(data.items)| - 1]) && data.items == old(data.items)[..|old(data.items)| - 1]
    {
      if data.items == [] {
        return None;
      }
      r := Some(data.items[|data.items| - 1]);
      data.items := data.items[..|data.items| - 1];
    }

    /** `peek`: the top item, left in place; `None` on an empty stack. */
    function Peek(): (r: Option<T>)
      reads data
      ensures r.None? <==> data.items == []
      ensures r.Some? ==> r.value == data.items[|data.items| - 1]
    {
      if data.items == [] then None else Some(data.items[|data.items| - 1])
    }

    /** `is_empty`. */
    predicate IsEmpty()
      reads data
      ensures IsEmpty() <==> Len() == 0
    {
      data.items == []
    }

    /** `len`. */
    function Len(): nat
      reads data
    {
      |data.items|
    }
  }

  /** The items of `s`, last first. */
  function Reverse<T>(s: seq<T>): (r: seq<T>)
    ensures |r| == |s|
    ensures forall i | 0 <= i < |s| :: r[i] == s[|s| - 1 - i]
  {
    if s == [] then [] else [s[|s| - 1]] + Reverse(s[..|s| - 1])
  }

  /** Reversing twice gives the sequence back. */
  lemma ReverseReverse<T>(s: seq<T>)
    ensures Reverse(Reverse(s)) == s
  {
  }

  /** Pushing an item and popping it gives the item back and leaves the stack as it was. */
  method PushThenPop<T>(stack: GlobalStack<T>, item: T) returns (r: Option<T>)
    modifies stack.data
    ensures r == Some(item) && stack.data.items == old(stack.data.items)
  {
    stack.Push(item);
    ghost var pushed := stack.data.items;
    r := stack.Pop();
    assert pushed[..|pushed| - 1] == old(stack.data.items);
  }

  /**
   * `while let Some(val) = stack.pop()`: pops until empty; the items come
   * out in the reverse of the order they were pushed.
   */
  method PopAll<T>(stack: GlobalStack<T>) returns (popped: seq<T>)
    modifies stack.data
    ensures popped == Reverse(old(stack.data.items))
    ensures stack.data.items == [] && stack.IsEmpty()
  {
    popped := [];
    while true
      invariant Reverse(old(stack.data.items)) == popped + Reverse(stack.data.items)
      decreases |stack.data.items|
    {
      ghost var before := stack.data.items;
      var r := stack.Pop();
      if r.None? {
        break;
      }
      assert before == stack.data.items + [r.value];
      assert Reverse(before) == [r.value] + Reverse(stack.data.items);
      popped := popped + [r.value];
    }
  }

  /**
   * The demonstration: three handles, pushes through each, every handle
   * sees the same length and top, and popping everything at the end yields
   * 5, 4, 2, 1.
   */
  method Demonstration() returns (lengths: seq<nat>, top: Option<int>, popped: Option<int>, rest: seq<int>)
    ensures lengths == [3, 3, 3, 2, 2, 2] && top == Some(3) && popped == Some(3)
    ensures rest == [5, 4, 2, 1]
  {
    var stack := new GlobalStack<int>.New();
    var stack2 := stack.Clone();
    var stack3 := stack.Clone();
    stack.Push(1);
    stack2.Push(2);
    stack3.Push(3);
    assert stack.data.items == [1, 2, 3];
    lengths := [stack.Len(), stack2.Len(), stack3.Len()];
    top := stack2.Peek();
    popped := stack2.Pop();
    lengths := lengths + [stack.Len(), stack2.Len(), stack3.Len()];
    assert stack.data.items == [1, 2];
    stack.Push(4);
    stack3.Push(5);
    assert stack.data.items == [1, 2, 4, 5];
    rest := PopAll(stack);
    assert Reverse([1, 2, 4, 5]) == [5, 4, 2, 1];
    assert stack.data.items == [] && stack3.IsEmpty();
  }
}
