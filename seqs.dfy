/** Facts about sequences (and so strings) that several modules regroup concatenations with. */
module Seqs {

  /** Concatenation is associative; stated once so that long concatenations can be regrouped step by step. */
  lemma AppendAssoc<T>(a: seq<T>, b: seq<T>, c: seq<T>)
    ensures a + (b + c) == (a + b) + c
  {
  }
}
