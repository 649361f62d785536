/** Sequence operations that several parts of the model share. */
module Sequences {

  function Take<T>(s: seq<T>, k: nat): seq<T> {
    if k <= |s| then s[..k] else s
  }

  /** First occurrences, in order. */
  function Distinct(xs: seq<string>): (ys: seq<string>)
    ensures forall x :: x in xs <==> x in ys
    ensures forall i, j :: 0 <= i < j < |ys| ==> ys[i] != ys[j]
  {
    if xs == [] then []
    else
      var ys := Distinct(xs[..|xs| - 1]);
      assert forall x :: x in xs <==> x in xs[..|xs| - 1] || x == xs[|xs| - 1];
      if xs[|xs| - 1] in ys then ys else ys + [xs[|xs| - 1]]
  }
}
