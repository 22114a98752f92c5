/** Lists as sets, lists without an element, and sets of one element. */
module Lists {

  function Elements<T>(xs: seq<T>): set<T> {
    set x | x in xs
  }

  lemma ElementsConcat<T>(a: seq<T>, b: seq<T>)
    ensures Elements(a + b) == Elements(a) + Elements(b)
  {
  }

  predicate Distinct<T(==)>(xs: seq<T>) {
    forall i, j :: 0 <= i < j < |xs| ==> xs[i] != xs[j]
  }

  function Without<T(==)>(xs: seq<T>, x: T): seq<T> {
    if xs == [] then [] else if xs[0] == x then Without(xs[1..], x) else [xs[0]] + Without(xs[1..], x)
  }

  lemma OnlyOne<T>(xs: set<T>, x: T)
    requires x in xs && |xs| <= 1
    ensures xs == {x}
  {
    assert |xs - {x}| == |xs| - 1;
  }

  lemma TwoAreTooMany<T>(xs: set<T>, x: T, y: T)
    requires x in xs && y in xs && x != y
    ensures |xs| > 1
  {
    assert y in xs - {x};
    assert |xs - {x}| == |xs| - 1;
  }
}
