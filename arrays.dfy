/** The capacity-doubling dynamic array of arrays.py. */
module Arrays {
  import opened Wrappers

  /** The capacity a DynamicArray gets when none is given (arrays.py:36). */
  const DefaultCapacity: nat := 5

  /** The error `remove_at` raises itself, `IndexError("Out of bounds")`. */
  datatype Error = OutOfBounds

  /** `s` without the element at position `i`: earlier elements keep their
      positions, later ones move one position to the left. */
  function Delete<X>(s: seq<X>, i: nat): (r: seq<X>)
    requires i < |s|
    ensures |r| == |s| - 1
    ensures forall k :: 0 <= k < i ==> r[k] == s[k]
    ensures forall k :: i <= k < |r| ==> r[k] == s[k + 1]
  {
    s[..i] + s[i + 1..]
  }

  /** The first position at which `x` occurs in `s`. */
  function FirstIndex<X(==)>(s: seq<X>, x: X): (i: nat)
    requires x in s
    ensures i < |s| && s[i] == x
    ensures x !in s[..i]
  {
    if s[0] == x then 0 else 1 + FirstIndex(s[1..], x)
  }

  /** The capacity `add` moves to when the buffer is full (arrays.py:65):
      always larger, so the grown buffer has room for the new element. */
  function GrownCapacity(capacity: nat): (c: nat)
    ensures c > capacity
    ensures c <= 2 * capacity + 1
  {
    if capacity != 0 then capacity * 2 else 1
  }

  /** A buffer of `capacity` slots of which the first `length` hold the stored
      elements. The backing list `slots` is padded with the placeholder `None`;
      its size is tracked apart from `capacity`, because `remove_at` leaves it
      one slot shorter than `capacity`. */
  class DynamicArray<T(==)> {
    var capacity: nat
    var length: int
    var slots: array<Option<T>>

    /** What every operation keeps: the backing list is `capacity` slots long or
        one shorter, `length` fits in it (it drops to -1 only through the guard
        of RemoveAt), and every slot below `length` holds a stored element. */
    ghost predicate Valid()
      reads this, slots
    {
      -1 <= length <= slots.Length &&
      capacity - 1 <= slots.Length <= capacity &&
      forall k :: 0 <= k < length ==> slots[k].Some?
    }

    /** The stored elements, in order. */
    ghost function Elements(): (e: seq<T>)
      reads this, slots
      requires Valid()
      ensures |e| == if length < 0 then 0 else length
      ensures forall k :: 0 <= k < |e| ==> slots[k] == Some(e[k])
    {
      var n := if length < 0 then 0 else length;
      var s := slots[..n];
      seq(n, k requires 0 <= k < n && s[k].Some? => s[k].value)
    }

    /** `__init__` (arrays.py:36-40). */
    constructor (initialCapacity: nat)
      ensures Valid() && fresh(slots)
      ensures capacity == initialCapacity && length == 0 && Elements() == []
      ensures slots[..] == seq(initialCapacity, _ => None)
    {
      capacity := initialCapacity;
      length := 0;
      slots := new Option<T>[initialCapacity](_ => None);
    }

    /** `__len__` (arrays.py:42-43). */
    function Len(): (n: int)
      reads this, slots
      requires Valid()
      ensures n >= -1
      ensures n >= 0 ==> n == |Elements()|
    {
      length
    }

    /** `is_empty` (arrays.py:49-50). */
    function IsEmpty(): (b: bool)
      reads this, slots
      requires Valid()
      ensures b <==> Len() == 0
      ensures b ==> Elements() == []
      ensures Elements() == [] ==> b || Len() == -1
    {
      Len() == 0
    }

    /** `get` (arrays.py:52-53): below the length it yields the stored element. */
    function Get(index: int): (v: Option<T>)
      reads this, slots
      requires 0 <= index < slots.Length
      ensures Valid() && index < length ==> v == Some(Elements()[index])
    {
      slots[index]
    }

    /** `set` (arrays.py:55-56): overwrites one slot in place. */
    method Set(index: int, value: T)
      requires Valid() && 0 <= index < slots.Length
      modifies slots
      ensures Valid()
      ensures slots[..] == old(slots[..])[index := Some(value)]
      ensures index < length ==> Elements() == old(Elements())[index := value]
      ensures index >= length ==> Elements() == old(Elements())
    {
      slots[index] := Some(value);
    }

    /** `clear` (arrays.py:58-60). */
    method Clear()
      requires Valid()
      modifies this
      ensures Valid() && fresh(slots)
      ensures capacity == old(capacity) && length == 0 && Elements() == []
      ensures slots[..] == seq(capacity, _ => None)
    {
      slots := new Option<T>[capacity](_ => None);
      length := 0;
    }

    /** `add` (arrays.py:62-72): grows the buffer when `length + 1 >= capacity`,
        copying every slot to the same index, then appends `value`. */
    method Add(value: T)
      requires Valid() && length >= 0
      modifies this, slots
      ensures Valid()
      ensures length == old(length) + 1
      ensures Elements() == old(Elements()) + [value]
      ensures old(length) + 1 >= old(capacity) ==>
        capacity == GrownCapacity(old(capacity)) && fresh(slots) && slots.Length == capacity
      ensures old(length) + 1 < old(capacity) ==> capacity == old(capacity) && slots == old(slots)
      ensures slots[old(length)] == Some(value)
      ensures forall k :: 0 <= k < old(slots.Length) && k != old(length) ==> slots[k] == old(slots[k])
      ensures forall k :: old(slots.Length) <= k < slots.Length && k != old(length) ==> slots[k] == None
    {
      if length + 1 >= capacity {
        capacity := GrownCapacity(capacity);
        var grown := new Option<T>[capacity](_ => None);
        for idx := 0 to slots.Length
          modifies grown
          invariant forall k :: 0 <= k < idx ==> grown[k] == slots[k]
          invariant forall k :: idx <= k < grown.Length ==> grown[k] == None
        {
          grown[idx] := slots[idx];
        }
        slots := grown;
      }
      slots[length] := Some(value);
      length := length + 1;
    }

    /** Lines 77-80 of `remove_at`, once its guard has passed: take the slot at
        `index`, rebuild the backing list from the first `capacity` slots other
        than `index`, and shorten the length. */
    method DeleteSlot(index: nat) returns (data: Option<T>)
      requires Valid() && index <= length && index < slots.Length == capacity
      modifies this
      ensures Valid() && fresh(slots)
      ensures data == old(slots[index])
      ensures slots[..] == Delete(old(slots[..]), index)
      ensures capacity == old(capacity) && length == old(length) - 1
      ensures index < old(length) ==> Elements() == Delete(old(Elements()), index)
      ensures index == old(length) && index > 0 ==> Elements() == old(Elements())[..index - 1]
    {
      data := slots[index];
      var rest := new Option<T>[capacity - 1](_ => None);
      var next := 0;
      for idx := 0 to capacity
        modifies rest
        invariant rest != slots
        invariant next == if idx <= index then idx else idx - 1
        invariant forall k :: 0 <= k < next && k < index ==> rest[k] == slots[k]
        invariant forall k :: index <= k < next ==> rest[k] == slots[k + 1]
      {
        if idx != index {
          rest[next] := slots[idx];
          next := next + 1;
        }
      }
      slots := rest;
      length := length - 1;
    }

    /** `remove_at` (arrays.py:74-80) as written: the guard rejects only
        `index > length`, so `index == length` is accepted. */
    method RemoveAt(index: int) returns (r: Result<Option<T>, Error>)
      requires Valid() && 0 <= index
      requires index <= length ==> index < slots.Length == capacity
      modifies this
      ensures Valid()
      ensures old(length) < index ==> r == Failure(OutOfBounds) && unchanged(this)
      ensures index <= old(length) ==>
        && r == Success(old(slots[index]))
        && fresh(slots) && slots[..] == Delete(old(slots[..]), index)
        && capacity == old(capacity) && length == old(length) - 1
      ensures index < old(length) ==> Elements() == Delete(old(Elements()), index)
      ensures index == old(length) > 0 ==> Elements() == old(Elements())[..index - 1]
    {
      if index > length {
        return Failure(OutOfBounds);
      }
      var data := DeleteSlot(index);
      return Success(data);
    }

    /** Lines 77-80 of `remove_at` as evidently intended: take the slot at
        `index` and rebuild the backing list from every other slot, padded with
        one placeholder at the end, so that the list keeps its size and a later
        removal can rebuild it again. */
    method DeleteSlotPadded(index: nat) returns (data: Option<T>)
      requires Valid() && index < length
      modifies this
      ensures Valid() && fresh(slots)
      ensures data == Some(old(Elements())[index])
      ensures slots[..] == Delete(old(slots[..]), index) + [None]
      ensures capacity == old(capacity) && length == old(length) - 1
      ensures Elements() == Delete(old(Elements()), index)
    {
      data := slots[index];
      var rest := new Option<T>[slots.Length](_ => None);
      var next := 0;
      for idx := 0 to slots.Length
        modifies rest
        invariant rest != slots
        invariant next == if idx <= index then idx else idx - 1
        invariant forall k :: 0 <= k < next && k < index ==> rest[k] == slots[k]
        invariant forall k :: index <= k < next ==> rest[k] == slots[k + 1]
        invariant forall k :: next <= k < rest.Length ==> rest[k] == None
      {
        if idx != index {
          rest[next] := slots[idx];
          next := next + 1;
        }
      }
      slots := rest;
      length := length - 1;
    }

    /** `remove_at` corrected: the guard `index >= length` lets only stored
        elements be removed, so the length never becomes negative, and the
        rebuild keeps the backing list's size, so removals can follow one
        another. */
    method RemoveAtInRange(index: int) returns (r: Result<Option<T>, Error>)
      requires Valid() && 0 <= index
      modifies this
      ensures Valid()
      ensures old(length) >= 0 ==> length >= 0
      ensures old(length) <= index ==> r == Failure(OutOfBounds) && unchanged(this)
      ensures index < old(length) ==>
        && r == Success(Some(old(Elements())[index]))
        && Elements() == Delete(old(Elements()), index)
        && fresh(slots) && slots[..] == Delete(old(slots[..]), index) + [None]
        && capacity == old(capacity) && length == old(length) - 1
    {
      if index >= length {
        return Failure(OutOfBounds);
      }
      var data := DeleteSlotPadded(index);
      return Success(data);
    }

    /** `remove` (arrays.py:82-89): scans the stored elements and removes the
        first one equal to `elem` with `remove_at` as written, so the backing
        list loses a slot and must still be `capacity` long when it is rebuilt. */
    method Remove(elem: T) returns (found: bool)
      requires Valid()
      requires elem in Elements() ==> slots.Length == capacity
      modifies this
      ensures Valid()
      ensures found <==> elem in old(Elements())
      ensures !found ==> unchanged(this)
      ensures found ==>
        && Elements() == Delete(old(Elements()), FirstIndex(old(Elements()), elem))
        && slots[..] == Delete(old(slots[..]), FirstIndex(old(Elements()), elem))
        && capacity == old(capacity) && length == old(length) - 1
    {
      found := false;
      var idx := 0;
      while idx < length
        invariant unchanged(this)
        invariant 0 <= idx <= (if length < 0 then 0 else length)
        invariant forall k :: 0 <= k < idx ==> slots[k] != Some(elem)
      {
        if slots[idx] == Some(elem) {
          ghost var before := Elements();
          assert idx == FirstIndex(before, elem);
          var _ := RemoveAt(idx);
          found := true;
          break;
        }
        idx := idx + 1;
      }
    }

    /** `remove` over the corrected `remove_at`: the same scan, but the
        backing list keeps its size, so removals can follow one another. */
    method RemoveCorrected(elem: T) returns (found: bool)
      requires Valid()
      modifies this
      ensures Valid()
      ensures found <==> elem in old(Elements())
      ensures !found ==> unchanged(this)
      ensures found ==>
        && Elements() == Delete(old(Elements()), FirstIndex(old(Elements()), elem))
        && slots[..] == Delete(old(slots[..]), FirstIndex(old(Elements()), elem)) + [None]
        && capacity == old(capacity) && length == old(length) - 1
    {
      found := false;
      var idx := 0;
      while idx < length
        invariant unchanged(this)
        invariant 0 <= idx <= (if length < 0 then 0 else length)
        invariant forall k :: 0 <= k < idx ==> slots[k] != Some(elem)
      {
        if slots[idx] == Some(elem) {
          ghost var before := Elements();
          assert idx == FirstIndex(before, elem);
          var _ := RemoveAtInRange(idx);
          found := true;
          break;
        }
        idx := idx + 1;
      }
    }
  }

  /** On any array, `get(i)` after `set(i, v)` yields `v`, and every other
      slot `j` still holds what it held before. */
  method SetThenGet<T(==)>(a: DynamicArray<T>, i: int, j: int, v: T) returns (got: Option<T>, other: Option<T>)
    requires a.Valid() && 0 <= i < a.slots.Length && 0 <= j < a.slots.Length && i != j
    modifies a.slots
    ensures got == Some(v) && other == old(a.slots[j])
  {
    a.Set(i, v);
    got := a.Get(i);
    other := a.Get(j);
  }

  /** The guard of RemoveAt at work: on an array holding 1 and 2, `remove_at(2)`
      raises nothing, hands back the placeholder and leaves length 1, so the
      stored 2 is lost. */
  method RemoveAtLengthAccepted() returns (r: Result<Option<int>, Error>, len: int, first: Option<int>)
    ensures r == Success(None) && len == 1 && first == Some(1)
  {
    var a := new DynamicArray<int>(DefaultCapacity);
    a.Add(1);
    a.Add(2);
    r := a.RemoveAt(2);
    len := a.Len();
    first := a.Get(0);
  }

  /** The same guard on a fresh, empty array: `remove_at(0)` succeeds and the
      length becomes -1. */
  method RemoveAtOnEmptyAccepted() returns (r: Result<Option<int>, Error>, len: int)
    ensures r == Success(None) && len == -1
  {
    var a := new DynamicArray<int>(DefaultCapacity);
    r := a.RemoveAt(0);
    len := a.Len();
  }

  /** After one `remove_at` the backing list is a slot shorter than the
      capacity, so a second `remove_at` with no growing `add` and no `clear`
      in between cannot rebuild the list (arrays.py:78 reads every index below
      the capacity): the condition RemoveAt requires for that step is false. */
  method SecondRemoveAtBlocked() returns (canRebuild: bool, len: int)
    ensures !canRebuild && len == 2
  {
    var a := new DynamicArray<int>(DefaultCapacity);
    a.Add(1);
    a.Add(2);
    a.Add(3);
    var _ := a.RemoveAt(0);
    canRebuild := a.slots.Length == a.capacity;
    len := a.Len();
  }

  /** The corrected guard rejects both of those calls and changes nothing. */
  method RemoveAtInRangeRejectsLength() returns (r: Result<Option<int>, Error>, s: Result<Option<int>, Error>, len: int)
    ensures r == Failure(OutOfBounds) && s == Failure(OutOfBounds) && len == 2
  {
    var a := new DynamicArray<int>(DefaultCapacity);
    s := a.RemoveAtInRange(0);
    a.Add(1);
    a.Add(2);
    r := a.RemoveAtInRange(2);
    len := a.Len();
  }

  /** With the corrected removal, `remove(1)` and then `remove(2)` on an array
      holding 1, 2 and 3 both succeed and leave only 3. */
  method RemoveTwiceSucceeds() returns (first: bool, second: bool, len: int, left: Option<int>)
    ensures first && second && len == 1 && left == Some(3)
  {
    var a := new DynamicArray<int>(DefaultCapacity);
    a.Add(1);
    a.Add(2);
    a.Add(3);
    assert a.Elements() == [1, 2, 3];
    first := a.RemoveCorrected(1);
    assert a.Elements() == [2, 3];
    second := a.RemoveCorrected(2);
    len := a.Len();
    left := a.Get(0);
  }

  /** The same through `remove`: after `remove(1)` on an array holding 1, 2
      and 3 the list is a slot short, while 2 is still stored, so the
      condition Remove requires for `remove(2)` is false. */
  method SecondRemoveBlocked() returns (canRebuild: bool, present: bool)
    ensures !canRebuild && present
  {
    var a := new DynamicArray<int>(DefaultCapacity);
    a.Add(1);
    a.Add(2);
    a.Add(3);
    assert a.Elements() == [1, 2, 3];
    var _ := a.Remove(1);
    canRebuild := a.slots.Length == a.capacity;
    present := a.Get(0) == Some(2);
  }
}
