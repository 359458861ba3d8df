/**
 `RangeMap` of range_map-inl.h with `enable_shrink_down_` false, as it is for call frame rules: an
 `std::map` of ranges, keyed by their highest address.
 */
module RangeMaps {
  import opened OrderedKeys
  import opened Words

  datatype Range<E> = Range(base: Address, entry: E)

  type Ranges<E> = map<Address, Range<E>>

  predicate Fits(base: Address, size: Address) { size > 0 && base + size <= ADDRESS_SPACE }

  function High(base: Address, size: Address): Address
    requires Fits(base, size)
  {
    base + size - 1
  }

  /** Some stored range has an address in common with the range from base to high. */
  ghost predicate Overlaps<E>(ranges: Ranges<E>, base: Address, high: Address) {
    exists h <- ranges :: ranges[h].base <= high && base <= h
  }

  ghost predicate Disjoint<E>(ranges: Ranges<E>) {
    && (forall h <- ranges :: ranges[h].base <= h)
    && (forall h <- ranges, h' <- ranges :: h < h' ==> h < ranges[h'].base)
  }

  class RangeMap<E(==, !new)> {
    var ranges: Ranges<E>

    constructor ()
      ensures ranges == map[]
    {
      ranges := map[];
    }

    /** A range is stored iff it is neither empty nor too long and overlaps no stored range. */
    method StoreRange(base: Address, size: Address, entry: E) returns (ok: bool)
      requires Disjoint(ranges)
      modifies this
      ensures Disjoint(ranges)
      ensures ok <==> Fits(base, size) && !Overlaps(old(ranges), base, High(base, size))
      ensures ranges == if ok then old(ranges)[High(base, size) := Range(base, entry)] else old(ranges)
    {
      var high := WrapAdd(base, WrapSub(size, 1));
      if size <= 0 || high < base {
        return false;
      }
      assert high == High(base, size);
      var fromBase, fromHigh := LowerBound(ranges.Keys, base), LowerBound(ranges.Keys, high);
      if fromBase != fromHigh {
        assert ranges[fromBase.value].base <= high && base <= fromBase.value;
        return false;
      }
      if fromHigh.Some? {
        if ranges[fromHigh.value].base <= high {
          assert base <= fromHigh.value;
          return false;
        }
      }
      assert forall h <- ranges :: h < base || high < ranges[h].base;
      assert high !in ranges;
      ranges := ranges[high := Range(base, entry)];
      return true;
    }

    /** The stored range that contains an address, with its base. */
    method RetrieveRange(address: Address) returns (found: Option<Range<E>>)
      requires Disjoint(ranges)
      ensures found == Retrieved(ranges, address)
    {
      var above := LowerBound(ranges.Keys, address);
      if above.None? {
        return None;
      }
      if address < ranges[above.value].base {
        return None;
      }
      return Some(ranges[above.value]);
    }
  }

  ghost predicate Contains<E>(ranges: Ranges<E>, h: Address, address: Address) {
    h in ranges && ranges[h].base <= address <= h
  }

  /** The range that contains an address; of disjoint ranges at most one does. */
  ghost function Retrieved<E>(ranges: Ranges<E>, address: Address): (r: Option<Range<E>>)
    requires Disjoint(ranges)
    ensures r.None? <==> forall h <- ranges :: !Contains(ranges, h, address)
    ensures forall h :: Contains(ranges, h, address) ==> r == Some(ranges[h])
  {
    if h :| Contains(ranges, h, address) then Some(ranges[h]) else None
  }
}
