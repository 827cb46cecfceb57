/** Option, standing for Kotlin's nullable types. */
module Wrappers {
  datatype Option<+T> = None | Some(value: T)
}

/** Sequence helpers shared by the models. */
module Seqs {
  /** The elements of `ss`, concatenated in order. */
  function Flatten<T>(ss: seq<seq<T>>): seq<T>
  {
    if ss == [] then [] else ss[0] + Flatten(ss[1..])
  }

  lemma {:induction false} FlattenAppend<T>(a: seq<seq<T>>, b: seq<seq<T>>)
    ensures Flatten(a + b) == Flatten(a) + Flatten(b)
  {
    if a == [] {
      assert a + b == b;
    } else {
      assert (a + b)[1..] == a[1..] + b;
      FlattenAppend(a[1..], b);
    }
  }

  lemma FlattenSnoc<T>(a: seq<seq<T>>, x: seq<T>)
    ensures Flatten(a + [x]) == Flatten(a) + x
  {
    FlattenAppend(a, [x]);
    assert Flatten([x]) == x + Flatten([]);
  }

  /** Moving one element from the front of `rest` to the end of `done` keeps their concatenation. */
  lemma SnocKeepsWhole<T>(done: seq<T>, x: T, rest: seq<T>, whole: seq<T>)
    requires done + ([x] + rest) == whole
    ensures (done + [x]) + rest == whole
  {
    assert done + ([x] + rest) == (done + [x]) + rest;
  }

  /** Appending `b` and then `c` is appending `b + c`. */
  lemma SnocAssociates<T>(a: seq<T>, b: seq<T>, c: seq<T>)
    ensures (a + b) + c == a + (b + c)
  {
  }
}
