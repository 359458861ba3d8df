/**
 `std::map` and `std::set` as they are specified: the first key that is not below a given one, and
 the keys one after the other in their order.
 */
module OrderedKeys {
  import opened Words

  datatype Option<+T> = None | Some(value: T)

  /** `std::map::lower_bound`: the least key that is not below a. */
  function LowerBound(keys: set<Address>, a: Address): (r: Option<Address>)
    ensures r.None? ==> forall k <- keys :: k < a
    ensures r.Some? ==> r.value in keys && a <= r.value && forall k <- keys :: a <= k ==> r.value <= k
  {
    if exists k <- keys :: a <= k then
      assert exists k :: k in keys && a <= k && forall k' <- keys :: a <= k' ==> k <= k' by {
        var least := LeastExists(keys, a);
      }
      var k :| k in keys && a <= k && forall k' <- keys :: a <= k' ==> k <= k';
      Some(k)
    else None
  }

  lemma {:induction false} LeastExists(keys: set<Address>, a: Address) returns (least: Address)
    requires exists k <- keys :: a <= k
    ensures least in keys && a <= least && forall k <- keys :: a <= k ==> least <= k
  {
    var k :| k in keys && a <= k;
    var rest := keys - {k};
    least := k;
    if exists m <- rest :: a <= m {
      var m := LeastExists(rest, a);
      least := if m <= k then m else k;
    }
    assert forall x <- keys :: x == k || x in rest;
  }

  // ----- iteration

  ghost predicate TotalOrder<K(!new)>(atMost: (K, K) -> bool) {
    && (forall a: K, b: K :: atMost(a, b) || atMost(b, a))
    && (forall a: K, b: K :: atMost(a, b) && atMost(b, a) ==> a == b)
    && (forall a: K, b: K, c: K :: atMost(a, b) && atMost(b, c) ==> atMost(a, c))
  }

  /** The keys, each once, in ascending order. */
  ghost predicate Lists<K(!new)>(order: seq<K>, keys: set<K>, atMost: (K, K) -> bool) {
    && (forall k :: k in order <==> k in keys)
    && (forall i, j :: 0 <= i < j < |order| ==> atMost(order[i], order[j]) && order[i] != order[j])
  }

  ghost predicate IsLeast<K(!new)>(k: K, keys: set<K>, atMost: (K, K) -> bool) {
    k in keys && forall k' <- keys :: atMost(k, k')
  }

  lemma {:induction false} LeastInOrder<K(!new)>(keys: set<K>, atMost: (K, K) -> bool) returns (least: K)
    requires keys != {} && TotalOrder(atMost)
    ensures IsLeast(least, keys, atMost)
  {
    var k :| k in keys;
    var rest := keys - {k};
    least := k;
    if rest != {} {
      var m := LeastInOrder(rest, atMost);
      least := if atMost(m, k) then m else k;
    }
    assert forall x <- keys :: x == k || x in rest;
  }

  /** The order in which iterating over a container with these keys meets them. */
  ghost function InOrder<K(!new)>(keys: set<K>, atMost: (K, K) -> bool): (order: seq<K>)
    requires TotalOrder(atMost)
    ensures Lists(order, keys, atMost)
  {
    if keys == {} then []
    else
      assert exists k :: IsLeast(k, keys, atMost) by {
        var k := LeastInOrder(keys, atMost);
      }
      var k :| IsLeast(k, keys, atMost);
      [k] + InOrder(keys - {k}, atMost)
  }

  lemma {:induction false} InOrderStep<K(!new)>(keys: set<K>, atMost: (K, K) -> bool, k: K)
    requires TotalOrder(atMost) && IsLeast(k, keys, atMost)
    ensures InOrder(keys, atMost) == [k] + InOrder(keys - {k}, atMost)
  {
    hide Lists;
  }

  method Iterate<K(!new, ==)>(keys: set<K>, atMost: (K, K) -> bool) returns (order: seq<K>)
    requires TotalOrder(atMost)
    ensures order == InOrder(keys, atMost)
  {
    hide TotalOrder, Lists, InOrder;
    var rest := keys;
    order := [];
    InOrderNone(atMost);
    while rest != {}
      invariant InOrder(keys, atMost) == order + InOrder(rest, atMost)
      decreases |rest|
    {
      ghost var least := LeastInOrder(rest, atMost);
      assert least in rest && forall k' <- rest :: atMost(least, k');
      var k :| k in rest && forall k' <- rest :: atMost(k, k');
      InOrderStep(rest, atMost, k);
      assert order + ([k] + InOrder(rest - {k}, atMost)) == (order + [k]) + InOrder(rest - {k}, atMost);
      order, rest := order + [k], rest - {k};
    }
  }

  lemma {:induction false} InOrderNone<K(!new)>(atMost: (K, K) -> bool)
    requires TotalOrder(atMost)
    ensures InOrder({}, atMost) == []
  {
  }

  // ----- the two kinds of keys

  predicate AddressAtMost(a: Address, b: Address) { a <= b }

  /** `std::string`'s order. */
  predicate TextAtMost(a: string, b: string) {
    a == [] || (b != [] && (a[0] < b[0] || (a[0] == b[0] && TextAtMost(a[1..], b[1..]))))
  }

  predicate AddressAtLeast(a: Address, b: Address) { a >= b }

  lemma {:induction false} AddressOrder()
    ensures TotalOrder(AddressAtMost) && TotalOrder(AddressAtLeast)
  {
  }

  lemma {:induction false} TextOrder()
    ensures TotalOrder(TextAtMost)
  {
    forall a: string, b: string ensures TextAtMost(a, b) || TextAtMost(b, a) {
      TextTotal(a, b);
    }
    forall a: string, b: string | TextAtMost(a, b) && TextAtMost(b, a) ensures a == b {
      TextAntisymmetric(a, b);
    }
    forall a: string, b: string, c: string | TextAtMost(a, b) && TextAtMost(b, c) ensures TextAtMost(a, c) {
      TextTransitive(a, b, c);
    }
  }

  lemma {:induction false} TextTotal(a: string, b: string)
    ensures TextAtMost(a, b) || TextAtMost(b, a)
  {
    if a != [] && b != [] {
      TextTotal(a[1..], b[1..]);
    }
  }

  lemma {:induction false} TextAntisymmetric(a: string, b: string)
    requires TextAtMost(a, b) && TextAtMost(b, a)
    ensures a == b
  {
    if a != [] && b != [] {
      TextAntisymmetric(a[1..], b[1..]);
      assert a == [a[0]] + a[1..] && b == [b[0]] + b[1..];
    }
  }

  lemma {:induction false} TextTransitive(a: string, b: string, c: string)
    requires TextAtMost(a, b) && TextAtMost(b, c)
    ensures TextAtMost(a, c)
  {
    if a != [] && a[0] == b[0] == c[0] {
      TextTransitive(a[1..], b[1..], c[1..]);
    }
  }
}
