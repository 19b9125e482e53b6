/**
 * The `LoopStack` of both pipelines: a fixed array of pending open brackets
 * and a `pointer` to its first free slot (src/brainfork.c:116-135,
 * src/Brainfork.c:75-94).
 */
module LoopStacks {

  class LoopStack<T(0)> {
    var stack: array<T>
    var pointer: nat

    ghost predicate Valid()
      reads this
    {
      pointer <= stack.Length
    }

    /** The pushed entries, oldest first. */
    ghost function Contents(): seq<T>
      reads this, stack
      requires Valid()
    {
      stack[..pointer]
    }

    /** `allocate_loop_stack`: room for `entries` entries, none pushed. */
    constructor (entries: nat)
      ensures Valid() && fresh(stack)
      ensures stack.Length == entries && Contents() == []
    {
      stack := new T[entries];
      pointer := 0;
    }

    /** `push_loop_stack`: writes at `pointer`, then increments it. The source
        does not check for room; its callers must leave some. */
    method Push(x: T)
      requires Valid() && pointer < stack.Length
      modifies this`pointer, stack
      ensures Valid() && stack == old(stack)
      ensures Contents() == old(Contents()) + [x]
    {
      stack[pointer] := x;
      pointer := pointer + 1;
    }

    /** `pop_loop_stack`: decrements `pointer`, then reads there. Callers test
        `pointer == 0` first. */
    method Pop() returns (x: T)
      requires Valid() && pointer > 0
      modifies this`pointer
      ensures Valid()
      ensures x == old(Contents())[|old(Contents())| - 1]
      ensures Contents() == old(Contents())[..|old(Contents())| - 1]
    {
      pointer := pointer - 1;
      x := stack[pointer];
    }
  }
}
