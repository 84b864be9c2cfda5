# Dynamic array, stack and bracket matching

A Dafny model of the two pieces of the `ds` data-structures library that
hold real logic:

- `DynamicArray` (arrays.py): a buffer of `capacity` slots padded with
  `None`, of which the first `length` hold the stored elements. `add`
  grows the buffer when `length + 1 >= capacity` (it doubles the capacity,
  or sets it to 1 from 0) and copies every slot to the same index; `remove_at` rebuilds the backing list without one
  slot; `remove` scans for the first equal element. The model is the class
  `Arrays.DynamicArray` over an `array<Option<T>>` (`None` is the
  placeholder). The size of that array is tracked apart from `capacity`,
  because `remove_at` leaves the list one slot shorter than `capacity`. The
  class invariant `Valid()` says the list holds `capacity` or
  `capacity - 1` slots, `length` lies between -1 and the list's size, and
  every slot below `length` holds an element. `Elements()` is the abstract view: the stored
  elements in order.
- `Stack` and `bracket_match` (stacks.py): the stack is the class
  `Stacks.Stack` over a sequence whose last element is the top.
  `bracket_match` is the method `Brackets.BracketMatch`, a loop over the
  input that pushes and pops on a `Stack`. It is proved against the
  function `Brackets.Scan` (the stack after a prefix). It is also proved
  against an independent definition of properly matched brackets: strings
  generated by the tree type `Nest`, where a group is an opener, a
  well-nested string, the matching closer, then the rest. The method
  returns true exactly for those strings.

Where the code raises on its own (`raise IndexError("Out of bounds")`,
arrays.py:76), the model returns `Failure(OutOfBounds)`. Where Python's list
would raise `IndexError` on a read or write outside the list, the model has
a precondition that is exactly the condition for the access to succeed.
The corrected members named under "## Findings" (`DeleteSlotPadded`,
`RemoveAtInRange`, `RemoveCorrected`) follow the evidently intended
behaviour instead and sit beside the as-written ones.

The repository also describes an indexed, heap-backed priority queue.
priority_queues.py defines `PriorityQueue` with the body `pass`
(priority_queues.py:57-58), so the model follows the code and has no
priority queue.

## Model

| member | source | states |
|---|---|---|
| `Arrays.Delete` | arrays.py:78 | the result is the sequence with position `i` removed: one shorter, earlier elements at the same index, later ones one index to the left |
| `Arrays.FirstIndex` | arrays.py:84-88 | the position returned holds `x` and no earlier position does |
| `Arrays.GrownCapacity` | arrays.py:65 | the grown capacity is strictly larger than the old one (so the appended element fits) and at most `2 * capacity + 1` |
| `Arrays.DynamicArray.constructor` | arrays.py:36-40 | `capacity` is the argument, `length` is 0, every slot is `None`, no elements |
| `Arrays.DynamicArray.Len` | arrays.py:42-43 | the length is at least -1, and when not negative it is the number of stored elements |
| `Arrays.DynamicArray.IsEmpty` | arrays.py:49-50 | true exactly when the length is 0; true means no elements are stored, and no elements means true except in the length -1 state |
| `Arrays.DynamicArray.Get` | arrays.py:52-53 | below the length the slot holds the stored element at that index |
| `Arrays.DynamicArray.Set` | arrays.py:55-56 | exactly slot `index` now holds the value and every other slot is unchanged; below the length the element at `index` is replaced, above it the elements are unchanged |
| `Arrays.DynamicArray.Clear` | arrays.py:58-60 | length 0, a fresh list of `capacity` placeholders, capacity unchanged |
| `Arrays.DynamicArray.Add` | arrays.py:62-72 | the elements gain `value` at the end and the length grows by 1; the capacity grows (to `GrownCapacity`) exactly when `length + 1 >= capacity`; every old slot keeps its value at the same index, new slots are `None`; `Valid()` is kept, so the write at arrays.py:71 is always in range |
| `Arrays.DynamicArray.DeleteSlot` | arrays.py:77-80 | returns the old slot at `index`; the new list is the old one with that position deleted; length drops by 1; below the old length the elements lose exactly that one, at the old length the last element drops out of view |
| `Arrays.DynamicArray.RemoveAt` | arrays.py:74-80 | fails with `OutOfBounds`, changing nothing, exactly when `index > length`; otherwise returns the old slot at `index`, deletes that position from the list and lowers the length by 1, capacity unchanged; below the length exactly that element is removed, at the length the last stored element drops out of view |
| `Arrays.DynamicArray.DeleteSlotPadded` | arrays.py:77-80 | the corrected rebuild: returns the stored element at `index`; the new list is the old one with that position deleted and one placeholder appended, so its size is kept; the elements lose exactly that one; length drops by 1 |
| `Arrays.DynamicArray.RemoveAtInRange` | arrays.py:74-80 | with the guard `index >= length` and the size-keeping rebuild: fails and changes nothing exactly when `index >= length`; otherwise returns the stored element at `index`, removes exactly it from the elements, keeps the list's size, and the length never becomes negative; it needs no condition on the list's size |
| `Arrays.DynamicArray.Remove` | arrays.py:82-89 | returns true exactly when `elem` is among the stored elements; then removes only its first occurrence, from the elements and, through `remove_at` as written, from the backing list, which becomes one slot shorter; otherwise nothing changes; it requires the list to be `capacity` long when `elem` is present, exactly the condition for the rebuild at arrays.py:78 not to raise |
| `Arrays.DynamicArray.RemoveCorrected` | arrays.py:82-89 | `remove` over the corrected `RemoveAtInRange`: the same answer and the same first occurrence removed, but the backing list keeps its size (one placeholder appended), so it needs no condition on the list's size |
| `Arrays.SetThenGet` | arrays.py:52-56 | on any valid array, `get(i)` after `set(i, v)` yields `v`, and any other slot `j` holds what it held before |
| `Arrays.RemoveAtLengthAccepted` | arrays.py:74-80 | on an array holding 1 and 2, `remove_at(2)` succeeds, returns the placeholder and leaves length 1 |
| `Arrays.RemoveAtOnEmptyAccepted` | arrays.py:74-80 | on a fresh array `remove_at(0)` succeeds and the length becomes -1 |
| `Arrays.RemoveAtInRangeRejectsLength` | arrays.py:74-76 | with the corrected guard both of those calls fail with `OutOfBounds` and leave the array unchanged |
| `Arrays.SecondRemoveAtBlocked` | arrays.py:78 | after one `remove_at` the list is shorter than the capacity, so the rebuild of a second `remove_at` (with no growing `add` and no `clear` in between) cannot succeed |
| `Arrays.SecondRemoveBlocked` | arrays.py:82-89 | after `remove(1)` on an array holding 1, 2, 3 the list is shorter than the capacity while 2 is still stored, so `Remove`'s condition for `remove(2)` is false |
| `Arrays.RemoveTwiceSucceeds` | arrays.py:82-89 | with the corrected removal (`RemoveCorrected`), `remove(1)` then `remove(2)` on an array holding 1, 2, 3 both return true and leave only 3 |
| `Stacks.Stack.constructor` | stacks.py:34-35 | a new stack is empty |
| `Stacks.Stack.Len` | stacks.py:37-38 | the number of stacked elements |
| `Stacks.Stack.IsEmpty` | stacks.py:43-44 | true exactly when the length is 0 |
| `Stacks.Stack.Push` | stacks.py:46-47 | the element becomes the new top above the old contents |
| `Stacks.Stack.Pop` | stacks.py:49-51 | returns the top and leaves the contents below it |
| `Stacks.Stack.Peek` | stacks.py:53-54 | returns the top and changes nothing |
| `Stacks.PushThenPop` | stacks.py:46-51 | `pop` after `push(x)` returns `x` and restores the previous contents |
| `Stacks.PushThenPeek` | stacks.py:46-54 | `peek` after `push(x)` returns `x` and leaves `x` on top |
| `Brackets.Step` | stacks.py:75-81 | one iteration pushes or pops exactly one character; it pops only on a closing bracket and only an opener; a push keeps the stack below |
| `Brackets.Scan` | stacks.py:74-81 | the stack after reading the input: it grows by at most one character per character read |
| `Brackets.ScanParity` | stacks.py:74-81 | the characters read and the change in the stack's size have the same parity |
| `Brackets.Matches` | stacks.py:82 | the verdict `len(stack) == 0`; a matching input has even length |
| `Brackets.CloserKind` | stacks.py:73 | the table maps each closing bracket to the opener of the same kind |
| `Brackets.ScanAppend` | stacks.py:74-81 | reading `u` and then `w` leaves the same stack as reading `u + w` |
| `Brackets.ScanText` | stacks.py:74-81 | a well-nested string leaves any stack as it found it |
| `Brackets.StuckPrefix` | stacks.py:74-81 | a stacked character that is not an opener is never popped, nor anything below it |
| `Brackets.LeftoverRejects` | stacks.py:74-82 | once the stack holds a closer or a stray character, the input is rejected whatever follows |
| `Brackets.StrayCharacterRejects` | stacks.py:74-82 | an input containing a character outside `()[]{}` is rejected |
| `Brackets.UnmatchedCloserRejects` | stacks.py:75-82 | a closer read on an empty stack or under a different opener is pushed and the input is rejected |
| `Brackets.Decompose` | stacks.py:74-81 | an input whose stack holds only openers is well-nested pieces separated by exactly those openers |
| `Brackets.MatchesIffWellNested` | stacks.py:71-82 | the stack ends empty if and only if the input is a properly matched bracket string |
| `Brackets.BracketMatch` | stacks.py:71-82 | returns true exactly when the stack is empty after the last character, exactly when the input is properly matched; the loop keeps "characters read = stack size + 2 * pops", so a true result means even length; the empty input is accepted |
| `Brackets.StepOpen` | stacks.py:75-81 | an opening bracket is always pushed |
| `Brackets.StepClose` | stacks.py:75-78 | a closing bracket whose opener is on top pops it |
| `Brackets.ScanOne` | stacks.py:75-81 | reading a single character is one step of the loop |
| `Brackets.DocumentedMatches` | stacks.py:62-67 | `[{}]`, `(()())`, `[]{}({})` and the empty string match |
| `Brackets.DocumentedMismatches` | stacks.py:62-67 | `{]` and `[()]))()` do not match |
| `Brackets.CheckCases` | stacks.py:85-91 | running bracket_match over the listed cases gives the expected `[True, True, False, False, True]` |

## Left out

- priority_queues.py: `PriorityQueue` is an empty class; the heap and its position index exist only as prose in the module docstring.
- queues.py and lists.py: every `Queue` method delegates to `DoublyLinkedList`, which is not defined in the repository (`DLL` in lists.py is empty). `DoublyLinkedList` is not part of this model; the stack's storage is a sequence instead.
- Printing: `__str__` (arrays.py:45-46, stacks.py:40-41), the demo at arrays.py:92-98 and the `print` calls at stacks.py:90-93.
- Python's negative indices: `Get`, `Set`, `RemoveAt` and `RemoveAtInRange` require a non-negative index.
- Arrays.DynamicArray.Add: requires `length >= 0`; in the length -1 state Python would write the value into the last slot through a negative index, and that write is not modelled.
- Arrays.DynamicArray.Get and Arrays.DynamicArray.Set: require the index to be inside the backing list, where Python's list would raise `IndexError`.
- Arrays.DynamicArray.RemoveAt: when the guard passes, requires `index < size of the list == capacity`; otherwise Python raises `IndexError` at arrays.py:77-78 (after one `remove_at` with no growing `add` and no `clear` since, see `SecondRemoveAtBlocked` and the second row under Findings).
- Arrays.DynamicArray.Remove: requires the list to be `capacity` long when `elem` is present, for the same reason (see `SecondRemoveBlocked`); `RemoveCorrected` is the same operation over the corrected removal.
- Arrays.DynamicArray.constructor: takes a natural capacity; a negative capacity, which Python would accept, is not modelled.
- Stored values are of type `T` and the placeholder is `None`; a Python caller storing `None` itself is not distinguished from the placeholder.
- Arrays.DynamicArray.Len: models `__len__`; Python's `len()` built-in raises `ValueError` when `__len__` returns -1, and that is not modelled.
- Stacks.Stack.Pop and Stacks.Stack.Peek: require a non-empty stack, because what `remove_last` and `last` do on an empty `DoublyLinkedList` is not defined in the repository.
- Python's `==` on stored values is Dafny equality on `T`.

## Findings

| source | as written | input that shows it | evidently intended | confidence | as-written member | corrected member |
|---|---|---|---|---|---|---|
| arrays.py:75 | `if index > self.__length` accepts `index == length` | `DynamicArray()`, `add(1)`, `add(2)`, `remove_at(2)`: no error, returns `None`, length 1, so 2 is lost; on a fresh array `remove_at(0)` leaves length -1 | reject `index >= length` | high; not executed | `Arrays.DynamicArray.RemoveAt`, `Arrays.RemoveAtLengthAccepted` | `Arrays.DynamicArray.RemoveAtInRange` |
| arrays.py:78 | the rebuild iterates `range(self.__capacity)` over the list, which a previous `remove_at` left one slot shorter than the capacity | `DynamicArray()`, `add(1)`, `add(2)`, `add(3)`, `remove(1)`, `remove(2)`: the second rebuild reads index 4 of a 4-slot list and raises `IndexError` | the rebuild keeps the list `capacity` slots long (pad with one `None`), so removals can follow one another | high; not executed | `Arrays.DynamicArray.RemoveAt` and `Arrays.DynamicArray.Remove` (their preconditions), `Arrays.SecondRemoveAtBlocked`, `Arrays.SecondRemoveBlocked` | `Arrays.DynamicArray.DeleteSlotPadded`, `Arrays.DynamicArray.RemoveAtInRange`, `Arrays.DynamicArray.RemoveCorrected`, `Arrays.RemoveTwiceSucceeds` |
