/**
 `ContainedRangeMap`: the tree of heap nodes, each with a map of child nodes keyed by high address.
 Every node carries its forest value, and every operation does to that value what the functions of
 RangeForest say.
 */
module ContainedRanges {
  import opened Words
  import opened OrderedKeys
  import opened RangeForest

  lemma {:induction false} RestrictUpdate<V>(m: map<Address, V>, k: Address, v: V)
    requires k in m
    ensures Restrict(m, m.Keys - {k})[k := v] == m[k := v]
    ensures m[k] == v ==> m[k := v] == m
  {
  }

  lemma {:induction false} RestrictRemove<V>(m: map<Address, V>, keys: set<Address>)
    ensures Restrict(m, m.Keys - keys) == m - keys
  {
  }

  lemma {:induction false} CollectParts<E>(f: Forest<E>, base: Address, high: Address, entry: E, moved: set<Address>)
    requires moved <= f.children.Keys
    ensures Collect(f, base, high, entry, moved)
         == Forest(Restrict(f.children, f.children.Keys - moved)
                   [high := Child(base, entry, Forest(Restrict(f.children, moved)))])
  {
    RestrictRemove(f.children, moved);
  }

  lemma {:induction false} AddRemove(parts: set<object>, o: object)
    requires o !in parts
    ensures parts + {o} - {o} == parts
  {
  }

  class ContainedRangeMap<E> {
    const base: Address
    const entry: E
    // the child map; a node without one and a node with an empty one behave alike
    var children: map<Address, ContainedRangeMap<E>>

    ghost var forest: Forest<E>
    ghost var Repr: set<object>

    ghost predicate Valid()
      reads this, Repr
      decreases Repr, 0
      ensures Valid() ==> this in Repr && forest.children.Keys == children.Keys
    {
      this in Repr && Linked(children, forest, Repr - {this})
    }

    /** The nodes in kids have separate representations inside parts and stand for the children of f. */
    static ghost predicate Linked(kids: map<Address, ContainedRangeMap<E>>, f: Forest<E>, parts: set<object>)
      reads parts
      decreases parts, 1
    {
      && (forall k <- kids ::
            kids[k] in parts && kids[k].Repr <= parts && kids[k].Valid())
      && (forall k, m :: k in kids && m in kids && k != m ==> kids[k].Repr !! kids[m].Repr)
      && f.children.Keys == kids.Keys
      && (forall k <- kids :: f.children[k] == Child(kids[k].base, kids[k].entry, kids[k].forest))
    }

    lemma Unpack()
      requires Valid()
      ensures this in Repr && Linked(children, forest, Repr - {this}) && forest.children.Keys == children.Keys
    {
    }

    static ghost function Parts(kids: map<Address, ContainedRangeMap<E>>): set<object>
      reads set k | k in kids :: kids[k]
    {
      set k, o: object | k in kids && o in kids[k].Repr :: o
    }

    static lemma PartsOf(kids: map<Address, ContainedRangeMap<E>>, parts: set<object>)
      requires forall k <- kids :: kids[k] in parts && kids[k].Repr <= parts && kids[k] in kids[k].Repr
      ensures Parts(kids) <= parts
      ensures forall k <- kids :: kids[k] in Parts(kids) && kids[k].Repr <= Parts(kids)
    {
    }

    static lemma LinkedSubset(kids: map<Address, ContainedRangeMap<E>>, f: Forest<E>, parts: set<object>,
        some: set<Address>)
      requires Linked(kids, f, parts) && some <= kids.Keys
      ensures var these := Restrict(kids, some);
        && Linked(these, Forest(Restrict(f.children, some)), Parts(these))
        && Parts(these) <= parts
    {
      var these := Restrict(kids, some);
      forall k <- these ensures these[k] in parts && these[k].Repr <= parts && these[k].Valid() {
        LinkedAt(kids, f, parts, k);
      }
      PartsOf(these, parts);
      hide ContainedRangeMap<E>.Valid, ContainedRangeMap<E>.Parts;
      assert Linked(these, Forest(Restrict(f.children, some)), Parts(these));
    }

    static lemma LinkedApart(kids: map<Address, ContainedRangeMap<E>>, f: Forest<E>, parts: set<object>, k: Address)
      requires Linked(kids, f, parts) && k in kids
      ensures kids[k].Repr !! Parts(Restrict(kids, kids.Keys - {k}))
    {
    }

    static lemma PartsApart(kids: map<Address, ContainedRangeMap<E>>, f: Forest<E>, parts: set<object>,
        some: set<Address>)
      requires Linked(kids, f, parts) && some <= kids.Keys
      ensures Parts(Restrict(kids, kids.Keys - some)) !! Parts(Restrict(kids, some))
    {
    }

    static lemma LinkedAt(kids: map<Address, ContainedRangeMap<E>>, f: Forest<E>, parts: set<object>, k: Address)
      requires Linked(kids, f, parts) && k in kids
      ensures kids[k] in parts && kids[k].Repr <= parts && kids[k].Valid()
      ensures k in f.children && f.children[k] == Child(kids[k].base, kids[k].entry, kids[k].forest)
    {
    }

    static lemma LinkedInsert(kids: map<Address, ContainedRangeMap<E>>, f: Forest<E>, parts: set<object>,
        k: Address, node: ContainedRangeMap<E>)
      requires Linked(kids, f, parts) && k !in kids
      requires node.Valid() && node.Repr !! parts
      ensures Linked(kids[k := node], Forest(f.children[k := Child(node.base, node.entry, node.forest)]),
                     parts + node.Repr)
    {
    }

    /** The root: its own base and entry mean nothing. */
    constructor (nothing: E)
      ensures Valid() && fresh(Repr) && forest == Forest(map[])
    {
      base, entry, children := 0, nothing, map[];
      forest, Repr := Forest(map[]), {this};
    }

    /** A new child, taking over the nodes in `children`. */
    constructor Node(base: Address, entry: E, children: map<Address, ContainedRangeMap<E>>,
        ghost below: Forest<E>, ghost parts: set<object>)
      requires Linked(children, below, parts)
      ensures Valid() && Repr == {this} + parts && fresh(this)
      ensures this.base == base && this.entry == entry && this.forest == below
    {
      this.base, this.entry, this.children := base, entry, children;
      forest, Repr := below, {this} + parts;
      new;
      assert Repr - {this} == parts;
    }

    /** Remove all descendants. */
    method Clear()
      requires Valid()
      modifies this
      ensures Valid() && forest == Forest(map[]) && Repr <= old(Repr)
    {
      children, forest, Repr := map[], Forest(map[]), {this};
    }

    method RetrieveRange(address: Address) returns (found: Option<E>)
      requires Valid()
      ensures found == Retrieve(forest, address)
      decreases Repr
    {
      var i := LowerBound(children.Keys, address);
      if i.None? || address < children[i.value].base {
        return None;
      }
      found := children[i.value].RetrieveRange(address);
      if found.None? {
        found := Some(children[i.value].entry);
      }
    }

    /** Set the child map, keeping the ghost fields in step. */
    method SetChildren(kids: map<Address, ContainedRangeMap<E>>, ghost f: Forest<E>, ghost parts: set<object>)
      requires Linked(kids, f, parts) && this !in parts
      modifies this
      ensures Valid() && children == kids && forest == f && Repr == parts + {this}
    {
      hide Linked;
      children, forest, Repr := kids, f, parts + {this};
      AddRemove(parts, this);
    }

    method StoreInChild(k: Address, base: Address, size: Address, entry: E) returns (ok: bool)
      requires Valid() && k in children && WellFormed(forest)
      modifies Repr
      ensures Valid() && fresh(Repr - old(Repr))
      ensures var (below, stored) := Store(old(forest).children[k].below, base, size, entry);
        ok == stored && forest == Forest(old(forest).children[k := old(forest).children[k].(below := below)])
      decreases Repr, 0
    {
      hide *;
      Unpack();
      LinkedAt(children, forest, Repr - {this}, k);
      var child := children[k];
      ghost var others := children.Keys - {k};
      LinkedSubset(children, forest, Repr - {this}, others);
      LinkedApart(children, forest, Repr - {this}, k);
      ghost var rest := Restrict(children, others);
      ghost var restForest := Forest(Restrict(forest.children, others));
      ghost var restParts := Parts(rest);
      ghost var f := forest;
      ChildIsProper(forest, k);
      ok := child.StoreRange(base, size, entry);
      LinkedInsert(rest, restForest, restParts, k, child);
      RestrictUpdate(children, k, child);
      RestrictUpdate(f.children, k, Child(child.base, child.entry, child.forest));
      assert f.children[k].(below := child.forest) == Child(child.base, child.entry, child.forest);
      SetChildren(children, Forest(f.children[k := f.children[k].(below := child.forest)]), restParts + child.Repr);
    }

    /** Hand the children in `moved` to a new child, and keep the new child under its high address. */
    method Adopt(base: Address, high: Address, entry: E, moved: set<Address>)
      requires Valid() && moved <= children.Keys && high !in children.Keys - moved
      modifies this
      ensures Valid() && fresh(Repr - old(Repr))
      ensures forest == Collect(old(forest), base, high, entry, moved)
    {
      hide *;
      Unpack();
      ghost var kids, f, parts := children, forest, Repr - {this};
      ghost var keptKeys := children.Keys - moved;
      LinkedSubset(kids, f, parts, moved);
      LinkedSubset(kids, f, parts, keptKeys);
      PartsApart(kids, f, parts, moved);
      RestrictRemove(kids, moved);
      CollectParts(f, base, high, entry, moved);
      var kept := children - moved;
      ghost var below := Forest(Restrict(forest.children, moved));
      var child := new ContainedRangeMap.Node(base, entry, Restrict(children, moved), below,
                                              Parts(Restrict(children, moved)));
      LinkedInsert(kept, Forest(Restrict(f.children, keptKeys)), Parts(kept), high, child);
      SetChildren(kept[high := child], Collect(f, base, high, entry, moved), Parts(kept) + child.Repr);
    }

    method StoreRange(base: Address, size: Address, entry: E) returns (ok: bool)
      requires Valid() && WellFormed(forest)
      modifies Repr
      ensures Valid() && fresh(Repr - old(Repr)) && WellFormed(forest)
      ensures (forest, ok) == Store(old(forest), base, size, entry)
      decreases Repr
    {
      hide WellFormed;
      StoreExact(forest, base, size, entry);
      var high := WrapSub(WrapAdd(base, size), 1);
      if size == 0 || high < base {
        return false;
      }
      var iBase := LowerBound(children.Keys, base);
      var iHigh := LowerBound(children.Keys, high);

      if iBase == iHigh && iBase.Some? && base >= children[iBase.value].base {
        // the new range is inside a child; it must not be that child's own range
        if children[iBase.value].base == base && iBase.value == high {
          return false;
        }
        ok := StoreInChild(iBase.value, base, size, entry);
        return;
      }

      var containsHigh := iHigh.Some? && high >= children[iHigh.value].base;
      if (iBase.Some? && base > children[iBase.value].base) || (containsHigh && high < iHigh.value) {
        return false;
      }

      var moved := KeysBetween(children.Keys, iBase, iHigh, containsHigh);
      IteratorsSplit(forest, base, high);
      SplitsLeavesHigh(forest, base, high, moved);
      Adopt(base, high, entry, moved);
      return true;
    }
  }
}
