/** Facts about sequences shared by the loops of the model. */
module Seqs {
  /** Concatenation is associative; the solver finds this only element by
      element, so the loops call it instead. */
  lemma {:induction false} SeqAssoc<T>(a: seq<T>, b: seq<T>, c: seq<T>)
    ensures (a + b) + c == a + (b + c)
  {
  }
}
