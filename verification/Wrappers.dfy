/** Option, used wherever the program has a None, a NULL column or a missing key. */
module Wrappers {
  datatype Option<+T> = None | Some(value: T)

  /** The values that are there, in order. */
  function Somes<T>(xs: seq<Option<T>>): seq<T> {
    if xs == [] then []
    else
      var rest := Somes(xs[..|xs| - 1]);
      match xs[|xs| - 1]
      case Some(x) => rest + [x]
      case None => rest
  }

  lemma SomesGrow<T>(xs: seq<Option<T>>, n: nat)
    requires n < |xs|
    ensures Somes(xs[..n + 1]) == if xs[n].Some? then Somes(xs[..n]) + [xs[n].value] else Somes(xs[..n])
  {
    assert xs[..n + 1][..n] == xs[..n];
  }

  lemma {:induction false} SomesHas<T>(xs: seq<Option<T>>)
    ensures forall x :: x in Somes(xs) <==> Some(x) in xs
  {
    if xs != [] {
      var n := |xs| - 1;
      SomesHas(xs[..n]);
      assert xs == xs[..n] + [xs[n]];
    }
  }
}
