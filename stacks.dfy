/** The LIFO stack of stacks.py. Its linked-list storage is modelled as a
    sequence whose last element is the top of the stack. */
module Stacks {

  class Stack<T> {
    /** The stacked elements, bottom first. */
    var storage: seq<T>

    /** `__init__` (stacks.py:34-35): a new stack holds nothing. */
    constructor ()
      ensures storage == []
    {
      storage := [];
    }

    /** `__len__` (stacks.py:37-38). */
    function Len(): (n: nat)
      reads this
      ensures n == |storage|
    {
      |storage|
    }

    /** `is_empty` (stacks.py:43-44). */
    function IsEmpty(): (b: bool)
      reads this
      ensures b <==> Len() == 0
    {
      storage == []
    }

    /** `push` (stacks.py:46-47): `x` becomes the new top. */
    method Push(x: T)
      modifies this
      ensures storage == old(storage) + [x]
    {
      storage := storage + [x];
    }

    /** `pop` (stacks.py:49-51): takes the top off and returns it. */
    method Pop() returns (x: T)
      requires storage != []
      modifies this
      ensures x == old(storage)[|old(storage)| - 1]
      ensures storage == old(storage)[..|old(storage)| - 1]
    {
      x := storage[|storage| - 1];
      storage := storage[..|storage| - 1];
    }

    /** `peek` (stacks.py:53-54): the top, without changing the stack. */
    method Peek() returns (x: T)
      requires storage != []
      ensures x == storage[|storage| - 1]
    {
      x := storage[|storage| - 1];
    }
  }

  /** Pushing and then popping hands back the pushed element and leaves the
      stack as it was. */
  method PushThenPop<T>(s: Stack<T>, x: T) returns (y: T)
    modifies s
    ensures y == x && s.storage == old(s.storage)
  {
    s.Push(x);
    y := s.Pop();
  }

  /** Peeking after a push sees the pushed element and changes nothing. */
  method PushThenPeek<T>(s: Stack<T>, x: T) returns (y: T)
    modifies s
    ensures y == x && s.storage == old(s.storage) + [x]
  {
    s.Push(x);
    y := s.Peek();
  }
}
