/** Facts about sequence concatenation, proved once so that larger proofs can cite
    them instead of rediscovering them. */
module Sequences {

  lemma AppendAssociative<T>(a: seq<T>, b: seq<T>, c: seq<T>)
    ensures a + (b + c) == (a + b) + c
  {
  }
}
