/** Facts about sequences that the proofs of the other modules lean on. */
module Seqs {
  /** Concatenation is associative; naming the instance spares the solver a search. */
  lemma AppendAssoc<T>(a: seq<T>, b: seq<T>, c: seq<T>)
    ensures a + b + c == a + (b + c)
  {
  }
}
