module Sequences {

  // The verifier regroups a long concatenation only when told to.
  lemma Associate<X>(a: seq<X>, b: seq<X>, c: seq<X>)
    ensures a + (b + c) == a + b + c
  {
  }
}
