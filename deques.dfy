/**
 * The observable behaviour of Python's `collections.deque` of strings, as
 * the step-by-step demonstration of filas_python_old.py uses it: a
 * sequence with both ends open. Popping from an empty deque raises
 * `IndexError` in Python; here it gives `None` and leaves the deque as it is.
 */
module Deques {
  import opened Wrappers

  class Deque {
    var itens: seq<string>

    /** `deque(inicial)`. */
    constructor (inicial: seq<string>)
      ensures itens == inicial
    {
      itens := inicial;
    }

    method Append(x: string)
      modifies this
      ensures itens == old(itens) + [x]
    {
      itens := itens + [x];
    }

    method AppendLeft(x: string)
      modifies this
      ensures itens == [x] + old(itens)
    {
      itens := [x] + itens;
    }

    /** Removes and returns the front element. */
    method PopLeft() returns (r: Option<string>)
      modifies this
      ensures old(itens) == [] ==> r == None && itens == old(itens)
      ensures old(itens) != [] ==> r == Some(old(itens)[0]) && itens == old(itens)[1..]
    {
      if itens == [] {
        r := None;
      } else {
        r := Some(itens[0]);
        itens := itens[1..];
      }
    }

    /** Removes and returns the back element. */
    method Pop() returns (r: Option<string>)
      modifies this
      ensures old(itens) == [] ==> r == None && itens == old(itens)
      ensures old(itens) != [] ==> r == Some(old(itens)[|old(itens)| - 1])
      ensures old(itens) != [] ==> itens == old(itens)[..|old(itens)| - 1]
    {
      if itens == [] {
        r := None;
      } else {
        r := Some(itens[|itens| - 1]);
        itens := itens[..|itens| - 1];
      }
    }
  }
}
