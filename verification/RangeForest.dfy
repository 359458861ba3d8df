/**
 Contained ranges as a value: a forest of ranges whose children are keyed by their highest address,
 the store and retrieve operations on it, and what they mean for the set of stored ranges.
 */
module RangeForest {
  import opened OrderedKeys
  import opened Words

  /** The children of one node, keyed by high address. */
  datatype Forest<E> = Forest(children: map<Address, Child<E>>)

  /** A node without its high address, which is its key in its parent. */
  datatype Child<E> = Child(base: Address, entry: E, below: Forest<E>)

  /** One stored range: the addresses base, ..., high, with its entry. */
  datatype Item<E> = Item(base: Address, high: Address, entry: E)

  // ----- the operations, as the program performs them

  /** The keys from the first to the second iterator. */
  function KeysBetween(keys: set<Address>, first: Option<Address>, last: Option<Address>,
      inclusive: bool): set<Address> {
    set k | k in keys && first.Some? && first.value <= k
            && (last.None? || k < last.value || (inclusive && k == last.value))
  }

  function Restrict<V>(m: map<Address, V>, keys: set<Address>): (r: map<Address, V>)
    requires keys <= m.Keys
    ensures r.Keys == keys && forall k <- keys :: r[k] == m[k]
  {
    map k | k in keys :: m[k]
  }

  /** `StoreRange`: the forest afterwards, and whether the range was stored. */
  function Store<E>(f: Forest<E>, base: Address, size: Address, entry: E): (Forest<E>, bool) {
    var high := WrapSub(WrapAdd(base, size), 1);
    if size == 0 || high < base then (f, false)
    else
      var keys := f.children.Keys;
      var iBase, iHigh := LowerBound(keys, base), LowerBound(keys, high);
      if iBase == iHigh && iBase.Some? && base >= f.children[iBase.value].base then
        var child := f.children[iBase.value];
        if child.base == base && iBase.value == high then (f, false)
        else
          var (below, ok) := Store(child.below, base, size, entry);
          (Forest(f.children[iBase.value := child.(below := below)]), ok)
      else
        var containsHigh := iHigh.Some? && high >= f.children[iHigh.value].base;
        if (iBase.Some? && base > f.children[iBase.value].base) || (containsHigh && high < iHigh.value) then (f, false)
        else
          var moved := KeysBetween(keys, iBase, iHigh, containsHigh);
          var below := Forest(Restrict(f.children, moved));
          (Forest((f.children - moved)[high := Child(base, entry, below)]), true)
  }

  /** `RetrieveRange`: the entry found, if any. */
  function Retrieve<E>(f: Forest<E>, address: Address): Option<E> {
    var i := LowerBound(f.children.Keys, address);
    if i.None? || address < f.children[i.value].base then None
    else
      var child := f.children[i.value];
      match Retrieve(child.below, address)
      case Some(e) => Some(e)
      case None => Some(child.entry)
  }

  // ----- the set of stored ranges

  /** What one child stands for: its own range and everything below it. */
  ghost function Group<E>(high: Address, c: Child<E>): set<Item<E>>
    decreases c
  {
    {Item(c.base, high, c.entry)} + Items(c.below)
  }

  ghost function Items<E>(f: Forest<E>): set<Item<E>>
    decreases f
  {
    set k, x | k in f.children && x in Group(k, f.children[k]) :: x
  }

  predicate Within<E>(x: Item<E>, base: Address, high: Address) {
    base <= x.base && x.high <= high
  }

  predicate Holds<E>(x: Item<E>, address: Address) {
    x.base <= address <= x.high
  }

  /** The range base, ..., high differs from x and does not overlap it in part. */
  predicate Compatible<E>(base: Address, high: Address, x: Item<E>) {
    || high < x.base || x.high < base
    || (Within(x, base, high) && !(x.base == base && x.high == high))
    || (x.base <= base && high <= x.high && !(x.base == base && x.high == high))
  }

  /** A child holds its key and everything below it, and nothing below it repeats its range. */
  ghost predicate GoodChild<E>(high: Address, c: Child<E>)
    decreases c
  {
    && c.base <= high
    && WellFormed(c.below)
    && (forall x <- Items(c.below) :: Within(x, c.base, high) && !(x.base == c.base && x.high == high))
  }

  /** Every child is good, and siblings share no address. */
  ghost predicate WellFormed<E>(f: Forest<E>)
    decreases f
  {
    && (forall k <- f.children :: GoodChild(k, f.children[k]))
    && (forall k, m :: k in f.children && m in f.children && k < m ==> k < f.children[m].base)
  }

  /** Any two stored ranges are disjoint or one strictly contains the other. */
  ghost predicate Laminar<E>(items: set<Item<E>>) {
    && (forall x <- items :: x.base <= x.high)
    && (forall x <- items, y <- items :: x != y ==> Compatible(x.base, x.high, y))
  }

  lemma {:induction false} GroupWithin<E>(f: Forest<E>, k: Address)
    requires WellFormed(f) && k in f.children
    ensures forall x <- Group(k, f.children[k]) :: Within(x, f.children[k].base, k)
  {
  }

  lemma {:induction false} InGroup<E>(f: Forest<E>, k: Address, x: Item<E>)
    requires k in f.children && x in Group(k, f.children[k])
    ensures x in Items(f)
  {
  }

  ghost function GroupOf<E>(f: Forest<E>, x: Item<E>): (k: Address)
    requires x in Items(f)
    ensures k in f.children && x in Group(k, f.children[k])
  {
    var k :| k in f.children && x in Group(k, f.children[k]);
    k
  }

  lemma {:induction false} ItemIsProper<E>(f: Forest<E>, x: Item<E>)
    requires WellFormed(f) && x in Items(f)
    ensures x.base <= x.high
    decreases f
  {
    var k := GroupOf(f, x);
    if x in Items(f.children[k].below) {
      ItemIsProper(f.children[k].below, x);
    }
  }

  lemma {:induction false} ItemsAreCompatible<E>(f: Forest<E>, x: Item<E>, y: Item<E>)
    requires WellFormed(f) && x in Items(f) && y in Items(f) && x != y
    ensures Compatible(x.base, x.high, y)
    decreases f
  {
    var k, m := GroupOf(f, x), GroupOf(f, y);
    GroupWithin(f, k);
    GroupWithin(f, m);
    var below := f.children[k].below;
    if k == m && x in Items(below) && y in Items(below) {
      ItemsAreCompatible(below, x, y);
    }
  }

  lemma {:induction false} WellFormedIsLaminar<E>(f: Forest<E>)
    requires WellFormed(f)
    ensures Laminar(Items(f))
  {
    forall x | x in Items(f)
      ensures x.base <= x.high
    {
      ItemIsProper(f, x);
    }
    forall x, y | x in Items(f) && y in Items(f) && x != y
      ensures Compatible(x.base, x.high, y)
    {
      ItemsAreCompatible(f, x, y);
    }
  }

  // ----- storing

  /** A range inside child k, but not equal to it, meets conflicts only below k. */
  lemma {:induction false} DescendCompatible<E>(f: Forest<E>, k: Address, base: Address, high: Address)
    requires WellFormed(f) && k in f.children && f.children[k].base <= base <= high <= k
    ensures (forall x <- Items(f) :: Compatible(base, high, x))
       <==> !(f.children[k].base == base && k == high)
            && forall x <- Items(f.children[k].below) :: Compatible(base, high, x)
  {
    var c := f.children[k];
    InGroup(f, k, Item(c.base, k, c.entry));
    forall x | x in Items(c.below)
      ensures x in Items(f)
    {
      InGroup(f, k, x);
    }
    forall x | x in Items(f) && x !in Items(c.below)
      ensures x == Item(c.base, k, c.entry) || Compatible(base, high, x)
    {
      var m := GroupOf(f, x);
      GroupWithin(f, m);
    }
  }

  /** Replacing what is below child k by a forest with one more range. */
  lemma {:induction false} DescendItems<E>(f: Forest<E>, g: Forest<E>, k: Address, below: Forest<E>, item: Item<E>)
    requires k in f.children && g == Forest(f.children[k := f.children[k].(below := below)])
    requires Items(below) == Items(f.children[k].below) + {item}
    ensures Items(g) == Items(f) + {item}
  {
    hide Items;
    assert Group(k, g.children[k]) == Group(k, f.children[k]) + {item};
    forall x | x in Items(g)
      ensures x in Items(f) + {item}
    {
      var m := GroupOf(g, x);
      if x != item {
        InGroup(f, m, x);
      }
    }
    forall x | x in Items(f) + {item}
      ensures x in Items(g)
    {
      var m := if x == item then k else GroupOf(f, x);
      InGroup(g, m, x);
    }
  }

  lemma {:induction false} DescendWellFormed<E>(f: Forest<E>, g: Forest<E>, k: Address, below: Forest<E>, item: Item<E>)
    requires WellFormed(f) && k in f.children && WellFormed(below)
    requires g == Forest(f.children[k := f.children[k].(below := below)])
    requires Items(below) == Items(f.children[k].below) + {item}
    requires Within(item, f.children[k].base, k) && !(item.base == f.children[k].base && item.high == k)
    ensures WellFormed(g)
  {
    hide Items;
    assert GoodChild(k, f.children[k]) && GoodChild(k, g.children[k]);
    hide GoodChild;
    forall m | m in g.children
      ensures GoodChild(m, g.children[m])
    {
      assert m != k ==> g.children[m] == f.children[m];
    }
  }

  /** The children that a new range base, ..., high takes over, and the ones it leaves. */
  ghost predicate Splits<E>(f: Forest<E>, base: Address, high: Address, moved: set<Address>) {
    && moved <= f.children.Keys
    && (forall k <- moved :: base <= f.children[k].base && k <= high && !(base == f.children[k].base && k == high))
    && (forall k <- f.children :: k !in moved ==> k < base || high < f.children[k].base)
  }

  lemma {:induction false} ChildIsProper<E>(f: Forest<E>, k: Address)
    requires WellFormed(f) && k in f.children
    ensures f.children[k].base <= k && WellFormed(f.children[k].below)
  {
  }

  /** The tests on the two iterators fail only if some child overlaps the new range in part. */
  lemma {:induction false} PartialOverlap<E>(f: Forest<E>, base: Address, high: Address)
    requires WellFormed(f) && base <= high
    requires var iBase, iHigh := LowerBound(f.children.Keys, base), LowerBound(f.children.Keys, high);
      && !(iBase == iHigh && iBase.Some? && base >= f.children[iBase.value].base)
      && ((iBase.Some? && base > f.children[iBase.value].base)
          || (iHigh.Some? && high >= f.children[iHigh.value].base && high < iHigh.value))
    ensures exists x <- Items(f) :: !Compatible(base, high, x)
  {
    var iBase, iHigh := LowerBound(f.children.Keys, base), LowerBound(f.children.Keys, high);
    var k := if iBase.Some? && base > f.children[iBase.value].base then iBase.value else iHigh.value;
    ChildIsProper(f, k);
    var top := Item(f.children[k].base, k, f.children[k].entry);
    InGroup(f, k, top);
    assert !Compatible(base, high, top);
  }

  /** Otherwise the iterators delimit just the children inside the new range. */
  lemma {:induction false} IteratorsSplit<E>(f: Forest<E>, base: Address, high: Address)
    requires WellFormed(f) && base <= high
    requires var iBase, iHigh := LowerBound(f.children.Keys, base), LowerBound(f.children.Keys, high);
      && !(iBase == iHigh && iBase.Some? && base >= f.children[iBase.value].base)
      && !(iBase.Some? && base > f.children[iBase.value].base)
      && !(iHigh.Some? && high >= f.children[iHigh.value].base && high < iHigh.value)
    ensures var iBase, iHigh := LowerBound(f.children.Keys, base), LowerBound(f.children.Keys, high);
      Splits(f, base, high, KeysBetween(f.children.Keys, iBase, iHigh,
                                        iHigh.Some? && high >= f.children[iHigh.value].base))
  {
    hide GoodChild;
    forall k | k in f.children
      ensures f.children[k].base <= k
    {
      ChildIsProper(f, k);
    }
    hide Compatible, Items;
  }

  lemma {:induction false} SplitsSubset<E>(f: Forest<E>, base: Address, high: Address, moved: set<Address>)
    requires Splits(f, base, high, moved)
    ensures moved <= f.children.Keys
  {
  }

  lemma {:induction false} SplitsLeavesHigh<E>(f: Forest<E>, base: Address, high: Address, moved: set<Address>)
    requires WellFormed(f) && base <= high && Splits(f, base, high, moved)
    ensures high !in f.children.Keys - moved
  {
  }

  /** The forest with the children in `moved` handed to a new child. */
  function Collect<E>(f: Forest<E>, base: Address, high: Address, entry: E, moved: set<Address>): Forest<E>
    requires moved <= f.children.Keys
  {
    Forest((f.children - moved)[high := Child(base, entry, Forest(Restrict(f.children, moved)))])
  }

  lemma {:induction false} CollectItems<E>(f: Forest<E>, base: Address, high: Address, entry: E, moved: set<Address>)
    requires WellFormed(f) && base <= high && moved <= f.children.Keys && Splits(f, base, high, moved)
    ensures Items(Collect(f, base, high, entry, moved)) == Items(f) + {Item(base, high, entry)}
    ensures Items(Forest(Restrict(f.children, moved))) <= Items(f)
    ensures forall x <- Items(Forest(Restrict(f.children, moved))) ::
              Within(x, base, high) && !(x.base == base && x.high == high)
  {
    var g := Collect(f, base, high, entry, moved);
    var below := Forest(Restrict(f.children, moved));
    var item := Item(base, high, entry);
    hide Items;
    forall x | x in Items(below)
      ensures x in Items(f) && Within(x, base, high) && !(x.base == base && x.high == high)
    {
      var m := GroupOf(below, x);
      InGroup(f, m, x);
      GroupWithin(f, m);
    }
    forall x | x in Items(g)
      ensures x in Items(f) + {item}
    {
      var m := GroupOf(g, x);
      if m != high {
        InGroup(f, m, x);
      }
    }
    forall x | x in Items(f)
      ensures x in Items(g)
    {
      var m := GroupOf(f, x);
      if m in moved {
        InGroup(below, m, x);
        InGroup(g, high, x);
      } else {
        ChildIsProper(f, m);
        InGroup(g, m, x);
      }
    }
    InGroup(g, high, item);
  }

  lemma {:induction false} MovedWellFormed<E>(f: Forest<E>, moved: set<Address>)
    requires WellFormed(f) && moved <= f.children.Keys
    ensures WellFormed(Forest(Restrict(f.children, moved)))
  {
    hide GoodChild;
  }

  lemma {:induction false} CollectWellFormed<E>(f: Forest<E>, base: Address, high: Address, entry: E,
      moved: set<Address>)
    requires WellFormed(f) && base <= high && Splits(f, base, high, moved)
    ensures WellFormed(Collect(f, base, high, entry, moved))
  {
    var g := Collect(f, base, high, entry, moved);
    MovedWellFormed(f, moved);
    CollectItems(f, base, high, entry, moved);
    hide Items;
    assert GoodChild(high, g.children[high]);
    forall k | k in f.children
      ensures f.children[k].base <= k
    {
      ChildIsProper(f, k);
    }
    hide GoodChild;
    forall k, m | k in g.children && m in g.children && k < m
      ensures k < g.children[m].base
    {
      assert k != high ==> g.children[k] == f.children[k];
      assert m != high ==> g.children[m] == f.children[m];
    }
  }

  lemma {:induction false} CollectCompatible<E>(f: Forest<E>, base: Address, high: Address, moved: set<Address>)
    requires WellFormed(f) && base <= high && Splits(f, base, high, moved)
    ensures forall x <- Items(f) :: Compatible(base, high, x)
  {
    forall x | x in Items(f)
      ensures Compatible(base, high, x)
    {
      var m := GroupOf(f, x);
      GroupWithin(f, m);
    }
  }

  /**
   `StoreRange` is exact: it stores a range iff the range is not empty, does not wrap around, equals
   no stored range and overlaps none in part; then it adds just that range, else it changes nothing.
   */
  lemma {:induction false} StoreExact<E>(f: Forest<E>, base: Address, size: Address, entry: E)
    requires WellFormed(f)
    ensures var (g, ok) := Store(f, base, size, entry);
      && WellFormed(g)
      && (ok <==> 0 < size && base + size <= ADDRESS_SPACE
                  && forall x <- Items(f) :: Compatible(base, base + size - 1, x))
      && (ok ==> Items(g) == Items(f) + {Item(base, base + size - 1, entry)})
      && (!ok ==> g == f)
    decreases f
  {
    hide Items, WellFormed, GoodChild, KeysBetween, Splits, Compatible;
    var high := WrapSub(WrapAdd(base, size), 1);
    if size != 0 && base <= high {
      var keys := f.children.Keys;
      var iBase, iHigh := LowerBound(keys, base), LowerBound(keys, high);
      if iBase == iHigh && iBase.Some? && base >= f.children[iBase.value].base {
        var k := iBase.value;
        DescendCompatible(f, k, base, high);
        if !(f.children[k].base == base && k == high) {
          ChildIsProper(f, k);
          StoreExact(f.children[k].below, base, size, entry);
          var (below, ok) := Store(f.children[k].below, base, size, entry);
          var g := Forest(f.children[k := f.children[k].(below := below)]);
          if ok {
            DescendItems(f, g, k, below, Item(base, high, entry));
            DescendWellFormed(f, g, k, below, Item(base, high, entry));
          } else {
            assert g.children == f.children;
          }
        }
      } else {
        var containsHigh := iHigh.Some? && high >= f.children[iHigh.value].base;
        if (iBase.Some? && base > f.children[iBase.value].base) || (containsHigh && high < iHigh.value) {
          PartialOverlap(f, base, high);
        } else {
          var moved := KeysBetween(keys, iBase, iHigh, containsHigh);
          IteratorsSplit(f, base, high);
          SplitsSubset(f, base, high, moved);
          CollectCompatible(f, base, high, moved);
          CollectItems(f, base, high, entry, moved);
          CollectWellFormed(f, base, high, entry, moved);
        }
      }
    }
  }

  // ----- retrieving

  /** The smallest of the items that hold the address: it lies inside every other one that does. */
  ghost predicate Smallest<E>(items: set<Item<E>>, address: Address, x: Item<E>) {
    && x in items && Holds(x, address)
    && forall y <- items :: Holds(y, address) ==> Within(x, y.base, y.high)
  }

  /** `RetrieveRange` finds the entry of the smallest stored range holding the address, if any holds it. */
  lemma {:induction false} RetrieveSmallest<E>(f: Forest<E>, address: Address)
    requires WellFormed(f)
    ensures match Retrieve(f, address)
            case None => forall x <- Items(f) :: !Holds(x, address)
            case Some(e) => exists x <- Items(f) :: Smallest(Items(f), address, x) && x.entry == e
    decreases f
  {
    hide Items, WellFormed, GoodChild;
    var i := LowerBound(f.children.Keys, address);
    if i.None? || address < f.children[i.value].base {
      forall x | x in Items(f)
        ensures !Holds(x, address)
      {
        var m := GroupOf(f, x);
        GroupWithin(f, m);
        if i.Some? {
          SiblingsApart(f, i.value, m);
        }
      }
    } else {
      var k := i.value;
      var child := f.children[k];
      ChildIsProper(f, k);
      RetrieveSmallest(child.below, address);
      var top := Item(child.base, k, child.entry);
      GroupWithin(f, k);
      forall x | x in Items(f) && Holds(x, address)
        ensures x in Group(k, child) && Within(x, child.base, k)
      {
        var m := GroupOf(f, x);
        GroupWithin(f, m);
        SiblingsApart(f, k, m);
      }
      if Retrieve(child.below, address).Some? {
        var x :| x in Items(child.below) && Smallest(Items(child.below), address, x)
                 && x.entry == Retrieve(child.below, address).value;
        InGroup(f, k, x);
        assert Smallest(Items(f), address, x);
      } else {
        InGroup(f, k, top);
        assert Smallest(Items(f), address, top);
      }
    }
  }

  lemma {:induction false} SiblingsApart<E>(f: Forest<E>, k: Address, m: Address)
    requires WellFormed(f) && k in f.children && m in f.children
    ensures k < m ==> k < f.children[m].base
    ensures m < k ==> m < f.children[k].base
  {
  }

  /** What is retrieved depends on the set of stored ranges only, not on the shape of the forest. */
  lemma {:induction false} RetrieveDependsOnItems<E>(f: Forest<E>, g: Forest<E>, address: Address)
    requires WellFormed(f) && WellFormed(g) && Items(f) == Items(g)
    ensures Retrieve(f, address) == Retrieve(g, address)
  {
    RetrieveSmallest(f, address);
    RetrieveSmallest(g, address);
    hide Items, WellFormed, GoodChild;
    if Retrieve(f, address).Some? && Retrieve(g, address).Some? {
      var x :| x in Items(f) && Smallest(Items(f), address, x) && x.entry == Retrieve(f, address).value;
      var y :| y in Items(f) && Smallest(Items(f), address, y) && y.entry == Retrieve(g, address).value;
      if x != y {
        ItemsAreCompatible(f, x, y);
      }
    }
  }

  // ----- whole runs of stores

  datatype Request<E> = Request(base: Address, size: Address, entry: E)

  predicate Fits<E>(r: Request<E>) {
    0 < r.size && r.base + r.size <= ADDRESS_SPACE
  }

  function ItemOf<E>(r: Request<E>): (x: Item<E>)
    ensures Fits(r) ==> x.high == r.base + r.size - 1
  {
    Item(r.base, WrapSub(WrapAdd(r.base, r.size), 1), r.entry)
  }

  /** The forest after storing the ranges one after the other. */
  function StoreAll<E>(requests: seq<Request<E>>): Forest<E> {
    if requests == [] then Forest(map[])
    else
      var last := requests[|requests| - 1];
      Store(StoreAll(requests[..|requests| - 1]), last.base, last.size, last.entry).0
  }

  /** The same on a plain set of ranges: a range joins the set iff it fits and is compatible with it. */
  ghost function Accept<E>(items: set<Item<E>>, r: Request<E>): set<Item<E>> {
    if Fits(r) && forall x <- items :: Compatible(r.base, ItemOf(r).high, x) then items + {ItemOf(r)} else items
  }

  ghost function Accepted<E>(requests: seq<Request<E>>): set<Item<E>> {
    if requests == [] then {} else Accept(Accepted(requests[..|requests| - 1]), requests[|requests| - 1])
  }

  lemma {:induction false} StoreIsAccept<E>(f: Forest<E>, r: Request<E>)
    requires WellFormed(f)
    ensures var (g, ok) := Store(f, r.base, r.size, r.entry);
      WellFormed(g) && Items(g) == Accept(Items(f), r)
  {
    hide Items, WellFormed, Store, Compatible;
    StoreExact(f, r.base, r.size, r.entry);
    if Fits(r) {
      assert ItemOf(r) == Item(r.base, r.base + r.size - 1, r.entry);
    }
  }

  /** Over every run of stores the forest is well formed and refines the plain set, which is laminar. */
  lemma {:induction false} StoreAllRefinesSet<E>(requests: seq<Request<E>>)
    ensures WellFormed(StoreAll(requests))
    ensures Items(StoreAll(requests)) == Accepted(requests)
    ensures Laminar(Accepted(requests))
  {
    if requests == [] {
      assert WellFormed(StoreAll(requests)) && Items(StoreAll(requests)) == {};
    } else {
      hide Items, WellFormed, Store, Accept, Laminar;
      var before, last := requests[..|requests| - 1], requests[|requests| - 1];
      StoreAllRefinesSet(before);
      StoreIsAccept(StoreAll(before), last);
    }
    hide Items, Laminar;
    WellFormedIsLaminar(StoreAll(requests));
  }

  /** A laminar set of distinct ranges, in some order and without repetitions. */
  ghost predicate LaminarRequests<E>(requests: seq<Request<E>>) {
    && (forall r <- requests :: Fits(r) && multiset(requests)[r] == 1)
    && (forall r <- requests, t <- requests :: r != t ==> Apart(r, t))
  }

  predicate Apart<E>(r: Request<E>, t: Request<E>) {
    Fits(r) && Fits(t) && Compatible(ItemOf(t).base, ItemOf(t).high, ItemOf(r))
  }

  ghost function ItemsOf<E>(requests: seq<Request<E>>): set<Item<E>> {
    set r | r in requests :: ItemOf(r)
  }

  lemma {:induction false} ItemsOfGrow<E>(before: seq<Request<E>>, last: Request<E>)
    ensures ItemsOf(before + [last]) == ItemsOf(before) + {ItemOf(last)}
  {
    forall x
      ensures x in ItemsOf(before + [last]) <==> x in ItemsOf(before) || x == ItemOf(last)
    {
      if x in ItemsOf(before) {
        var r :| r in before && ItemOf(r) == x;
        assert r in before + [last];
      }
      assert last in before + [last];
    }
  }

  lemma {:induction false} LaminarPrefix<E>(before: seq<Request<E>>, last: Request<E>)
    requires LaminarRequests(before + [last])
    ensures LaminarRequests(before) && Fits(last)
    ensures forall r <- before :: Apart(r, last)
  {
    hide Apart, Fits;
    var requests := before + [last];
    assert last in requests;
    forall r | r in before
      ensures r in requests && multiset(before)[r] == 1 && r != last
    {
      assert r in multiset(before);
      assert multiset(requests) == multiset(before) + multiset{last};
    }
  }

  lemma {:induction false} LaminarAllAccepted<E>(requests: seq<Request<E>>)
    requires LaminarRequests(requests)
    ensures Accepted(requests) == ItemsOf(requests)
  {
    if requests != [] {
      var before, last := requests[..|requests| - 1], requests[|requests| - 1];
      assert requests == before + [last];
      LaminarPrefix(before, last);
      ItemsOfGrow(before, last);
      LaminarAllAccepted(before);
      hide LaminarRequests;
      forall x | x in Accepted(before)
        ensures Compatible(last.base, ItemOf(last).high, x)
      {
        var r :| r in before && ItemOf(r) == x;
        assert Apart(r, last);
      }
    }
  }

  lemma {:induction false} LaminarPermuted<E>(xs: seq<Request<E>>, ys: seq<Request<E>>)
    requires LaminarRequests(xs) && multiset(xs) == multiset(ys)
    ensures LaminarRequests(ys) && ItemsOf(xs) == ItemsOf(ys)
  {
    hide Apart, Fits;
    assert forall r :: r in xs <==> r in multiset(xs);
    assert forall r :: r in ys <==> r in multiset(ys);
  }

  /** Two insertion orders of the same laminar ranges give the same answer at every address. */
  lemma {:induction false} InsertionOrderIsIrrelevant<E>(xs: seq<Request<E>>, ys: seq<Request<E>>, address: Address)
    requires LaminarRequests(xs) && multiset(xs) == multiset(ys)
    ensures Retrieve(StoreAll(xs), address) == Retrieve(StoreAll(ys), address)
    ensures Items(StoreAll(xs)) == ItemsOf(xs)
  {
    hide *;
    LaminarPermuted(xs, ys);
    LaminarAllAccepted(xs);
    LaminarAllAccepted(ys);
    StoreAllRefinesSet(xs);
    StoreAllRefinesSet(ys);
    RetrieveDependsOnItems(StoreAll(xs), StoreAll(ys), address);
  }
}
