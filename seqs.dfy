/** Facts about sequences that the other modules use by name, so that the solver does
    not have to rediscover them inside larger proofs. */
module Seqs {
  lemma AppendAssoc<T>(a: seq<T>, b: seq<T>, c: seq<T>)
    ensures (a + b) + c == a + (b + c)
  {
  }
}
