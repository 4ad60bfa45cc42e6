/** Listing a hash set: every element once, in an order the model leaves open. */
module Collections {

  predicate NoDuplicates<T(==)>(xs: seq<T>)
  {
    forall i, j :: 0 <= i < j < |xs| ==> xs[i] != xs[j]
  }

  function Elements<T>(xs: seq<T>): set<T>
  {
    set x | x in xs
  }

  /** `set.iter().collect()`: each element of `s` exactly once; the order is whatever iteration yields. */
  method Enumerate<T(==)>(s: set<T>) returns (xs: seq<T>)
    ensures NoDuplicates(xs)
    ensures Elements(xs) == s
    ensures |xs| == |s|
  {
    xs := [];
    var rest := s;
    while rest != {}
      invariant rest + Elements(xs) == s
      invariant rest !! Elements(xs)
      invariant NoDuplicates(xs)
      invariant |rest| + |xs| == |s|
      decreases rest
    {
      var x :| x in rest;
      xs := xs + [x];
      rest := rest - {x};
    }
  }
}
