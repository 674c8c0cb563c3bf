/** Lists made item by item. */
module Lists {
  /** What f makes of each item, one after the other. */
  function Flatten<A, B>(f: A -> seq<B>, items: seq<A>): seq<B> {
    if items == [] then [] else f(items[0]) + Flatten(f, items[1..])
  }

  lemma {:induction false} FlattenFirst<A, B>(f: A -> seq<B>, item: A, rest: seq<A>)
    ensures Flatten(f, [item] + rest) == f(item) + Flatten(f, rest)
  {
    assert ([item] + rest)[1..] == rest;
  }

  lemma {:induction false} FlattenConcat<A, B>(f: A -> seq<B>, a: seq<A>, b: seq<A>)
    ensures Flatten(f, a + b) == Flatten(f, a) + Flatten(f, b)
  {
    if a == [] {
      assert a + b == b;
    } else {
      FlattenConcat(f, a[1..], b);
      assert (a + b)[1..] == a[1..] + b;
    }
  }
}
