/** Regrouping of concatenations. */
module Sequences {

  lemma Together<T>(a: seq<T>, b: seq<T>, c: seq<T>)
    ensures a + b + c == a + (b + c)
  {
  }

  lemma NothingAdded<T>(a: seq<T>)
    ensures a + [] == a && [] + a == a
  {
  }

  /** The parts of x y z w v taken in another grouping. */
  lemma InTheMiddle<T>(x: seq<T>, y: seq<T>, z: seq<T>, w: seq<T>, v: seq<T>)
    ensures (x + y) + z + (w + v) == x + (y + z + w) + v
  {
  }
}
