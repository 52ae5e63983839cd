/** Sequence helpers shared by the entity models. */
module Seqs {

  /** `iter().map(f).collect()`: `f` applied to every element, in order. */
  function MapEach<A, B>(s: seq<A>, f: A -> B): (r: seq<B>)
    ensures |r| == |s|
    ensures forall i :: 0 <= i < |s| ==> r[i] == f(s[i])
  {
    if |s| == 0 then [] else [f(s[0])] + MapEach(s[1..], f)
  }
}
