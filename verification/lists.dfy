/** Python lists built from sets: `list(s)` holds each element once. */
module Lists {

  function Elems<T>(xs: seq<T>): set<T> {
    set x | x in xs
  }

  predicate NoDuplicates<T(==)>(xs: seq<T>) {
    forall i, j :: 0 <= i < j < |xs| ==> xs[i] != xs[j]
  }

  /** Popping the last element of a list without duplicates. */
  lemma Pop<T>(xs: seq<T>)
    requires |xs| > 0 && NoDuplicates(xs)
    ensures Elems(xs) == Elems(xs[..|xs| - 1]) + {xs[|xs| - 1]}
    ensures xs[|xs| - 1] !in Elems(xs[..|xs| - 1])
    ensures NoDuplicates(xs[..|xs| - 1])
  {
  }

  /** `list(s)`: some order of the elements of `s`, each exactly once. */
  method ToList<T>(s: set<T>) returns (xs: seq<T>)
    ensures Elems(xs) == s
    ensures NoDuplicates(xs)
  {
    xs := [];
    var rest := s;
    while rest != {}
      invariant Elems(xs) + rest == s
      invariant Elems(xs) !! rest
      invariant NoDuplicates(xs)
      decreases rest
    {
      var x :| x in rest;
      xs := xs + [x];
      rest := rest - {x};
    }
  }
}
