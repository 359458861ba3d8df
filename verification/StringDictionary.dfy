/**
 `SimpleStringDictionary`: a fixed number of slots for short strings in simple_string_dictionary.h.
 Strings are what C takes for them, without the NUL behind.
 */
module StringDictionaries {
  const KEY_SIZE := 256
  const VALUE_SIZE := 256
  const NUM_ENTRIES := 64

  /** A slot; it is free if its key is empty. */
  datatype Entry = Entry(key: string, value: string)

  type Dictionary = map<string, string>

  /** What fits into a buffer of `size` characters with a NUL behind it. */
  function Truncated(s: string, size: nat): (r: string)
    requires size > 0
    ensures r <= s && |r| == if |s| < size then |s| else size - 1
  {
    if |s| < size then s else s[..size - 1]
  }

  predicate IsActive(e: Entry) { e.key != "" }

  ghost predicate AreDistinct(es: seq<Entry>) {
    && (forall e <- es :: |e.key| < KEY_SIZE)
    && (forall i, j :: 0 <= i < j < |es| && IsActive(es[i]) && IsActive(es[j]) ==> es[i].key != es[j].key)
  }

  /** The dictionary that the slots hold. */
  ghost function Held(es: seq<Entry>): (m: Dictionary)
    ensures forall k :: k in m ==> k != "" && exists e <- es :: e.key == k
    ensures forall e <- es :: IsActive(e) ==> e.key in m
  {
    if es == [] then map[]
    else if IsActive(es[0]) then Held(es[1..])[es[0].key := es[0].value] else Held(es[1..])
  }

  /** The value for a key is that of its slot. */
  lemma {:induction false} HeldAt(es: seq<Entry>, i: nat)
    requires AreDistinct(es) && i < |es| && IsActive(es[i])
    ensures es[i].key in Held(es) && Held(es)[es[i].key] == es[i].value
  {
    if i > 0 {
      RestIsDistinct(es);
      HeldAt(es[1..], i - 1);
    }
  }

  lemma {:induction false} RestIsDistinct(es: seq<Entry>)
    requires AreDistinct(es) && es != []
    ensures AreDistinct(es[1..])
  {
    forall i, j | 0 <= i < j < |es| - 1 && IsActive(es[1..][i]) && IsActive(es[1..][j])
      ensures es[1..][i].key != es[1..][j].key
    {
      assert es[1..][i] == es[i + 1] && es[1..][j] == es[j + 1];
    }
  }

  function ActiveCount(es: seq<Entry>): (n: nat)
    ensures n <= |es|
  {
    if es == [] then 0 else (if IsActive(es[0]) then 1 else 0) + ActiveCount(es[1..])
  }

  lemma {:induction false} FirstKeyIsNew(es: seq<Entry>)
    requires AreDistinct(es) && es != [] && IsActive(es[0])
    ensures es[0].key !in Held(es[1..])
  {
    forall e | e in es[1..] ensures e.key != es[0].key {
      var j :| 0 <= j < |es[1..]| && es[1..][j] == e;
      assert es[j + 1] == e;
    }
  }

  lemma {:induction false} AddedKey(m: Dictionary, key: string, value: string)
    requires key !in m
    ensures |m[key := value]| == |m| + 1
  {
    var more := m[key := value];
    assert more.Keys == m.Keys + {key};
    assert |more.Keys| == |more| && |m.Keys| == |m|;
  }

  /** There are as many keys as active slots. */
  lemma {:induction false} HeldCount(es: seq<Entry>)
    requires AreDistinct(es)
    ensures |Held(es)| == ActiveCount(es)
  {
    if es != [] {
      RestIsDistinct(es);
      HeldCount(es[1..]);
      if IsActive(es[0]) {
        FirstKeyIsNew(es);
        hide AreDistinct;
        AddedKey(Held(es[1..]), es[0].key, es[0].value);
      }
    }
  }

  lemma {:induction false} AllActive(es: seq<Entry>)
    ensures ActiveCount(es) == |es| <==> forall i :: 0 <= i < |es| ==> IsActive(es[i])
  {
    if es != [] {
      AllActive(es[1..]);
      assert forall i :: 1 <= i < |es| ==> es[i] == es[1..][i - 1];
    }
  }

  lemma {:induction false} IsFull(es: seq<Entry>)
    requires AreDistinct(es) && forall i :: 0 <= i < |es| ==> IsActive(es[i])
    ensures |Held(es)| == |es|
  {
    hide AreDistinct, Held;
    HeldCount(es);
    AllActive(es);
  }

  lemma {:induction false} HasFree(es: seq<Entry>, i: nat)
    requires AreDistinct(es) && i < |es| && !IsActive(es[i])
    ensures |Held(es)| < |es|
  {
    hide AreDistinct, Held;
    HeldCount(es);
    AllActive(es);
  }

  /** Dictionaries are equal if they hold the same slots. */
  lemma {:induction false} HeldIs(es: seq<Entry>, m: Dictionary)
    requires AreDistinct(es)
    requires forall i :: 0 <= i < |es| && IsActive(es[i]) ==> es[i].key in m && m[es[i].key] == es[i].value
    requires forall k :: k in m ==> k != "" && exists i :: 0 <= i < |es| && es[i].key == k
    ensures Held(es) == m
  {
    hide AreDistinct, Held;
    forall k ensures k in Held(es) <==> k in m
      ensures k in m ==> Held(es)[k] == m[k]
    {
      if k in m {
        var i :| 0 <= i < |es| && es[i].key == k;
        HeldAt(es, i);
      }
      if k in Held(es) {
        var e :| e in es && e.key == k;
        var i :| 0 <= i < |es| && es[i] == e;
      }
    }
  }

  // ----- what the operations do

  /** Change or add a key; without a free slot nothing is added. */
  function Put(m: Dictionary, key: string, value: string): Dictionary {
    if key in m || |m| < NUM_ENTRIES then m[key := Truncated(value, VALUE_SIZE)] else m
  }

  class SimpleStringDictionary {
    const entries: array<Entry>

    ghost predicate Valid()
      reads this, entries
    {
      entries.Length == NUM_ENTRIES && AreDistinct(entries[..])
    }

    ghost function Contents(): Dictionary
      reads this, entries
    {
      Held(entries[..])
    }

    constructor ()
      ensures Valid() && fresh(entries) && Contents() == map[]
    {
      entries := new Entry[NUM_ENTRIES](i => Entry("", ""));
      new;
      assert forall i :: 0 <= i < NUM_ENTRIES ==> entries[..][i] == Entry("", "");
      HeldIs(entries[..], map[]);
    }

    /** The slot of a key, or -1.  The empty key is that of every free slot. */
    method GetEntryForKey(key: string) returns (at: int)
      requires Valid()
      ensures -1 <= at < NUM_ENTRIES && (at >= 0 ==> entries[at].key == key)
      ensures key != "" ==> (at == -1 <==> key !in Contents()) && (at >= 0 ==> Contents()[key] == entries[at].value)
      ensures key == "" ==> (at == -1 <==> |Contents()| == NUM_ENTRIES)
    {
      hide AreDistinct, Held;
      ghost var es := entries[..];
      for i := 0 to NUM_ENTRIES
        invariant forall k :: 0 <= k < i ==> es[k].key != key
      {
        if entries[i].key == key {
          if key == "" {
            HasFree(es, i);
          } else {
            HeldAt(es, i);
          }
          return i;
        }
      }
      if key == "" {
        IsFull(es);
      } else {
        NotHeld(es, key);
      }
      return -1;
    }

    method GetValueForKey(key: string) returns (found: bool, value: string)
      requires Valid()
      ensures key != "" ==> (found <==> key in Contents()) && (found ==> value == Contents()[key])
      ensures key == "" ==> (found <==> |Contents()| < NUM_ENTRIES)
    {
      hide AreDistinct, Held;
      CountFits(entries[..]);
      var at := GetEntryForKey(key);
      if at < 0 {
        return false, "";
      }
      return true, entries[at].value;
    }

    method GetCount() returns (count: nat)
      requires Valid()
      ensures count == |Contents()|
    {
      count := 0;
      assert entries[NUM_ENTRIES..] == [];
      for i := NUM_ENTRIES downto 0
        invariant count == ActiveCount(entries[i..])
      {
        assert entries[i..][1..] == entries[i + 1..];
        if IsActive(entries[i]) {
          count := count + 1;
        }
      }
      assert entries[0..] == entries[..];
      HeldCount(entries[..]);
    }

    /** The first free slot, or -1. */
    method FindFreeSlot() returns (at: int)
      requires Valid()
      ensures -1 <= at < NUM_ENTRIES && (at == -1 <==> |Contents()| == NUM_ENTRIES)
      ensures at >= 0 ==> !IsActive(entries[at]) && |Contents()| < NUM_ENTRIES
    {
      hide AreDistinct, Held, ActiveCount, IsActive;
      ghost var es := entries[..];
      for i := 0 to NUM_ENTRIES
        invariant forall k :: 0 <= k < i ==> IsActive(es[k])
      {
        if !IsActive(entries[i]) {
          HasFree(es, i);
          return i;
        }
      }
      IsFull(es);
      return -1;
    }

    method SetKeyValue(key: string, value: string)
      requires Valid() && 0 < |key| < KEY_SIZE
      modifies entries
      ensures Valid() && Contents() == Put(old(Contents()), key, value)
    {
      hide AreDistinct, Held, IsActive, Truncated;
      var at := GetEntryForKey(key);
      if at < 0 {
        at := FindFreeSlot();
      }
      if at < 0 {
        return;
      }
      PutAt(entries[..], at, key, Truncated(value, VALUE_SIZE));
      ghost var before := entries[..];
      entries[at] := Entry(key, Truncated(value, VALUE_SIZE));
      assert entries[..] == before[at := Entry(key, Truncated(value, VALUE_SIZE))];
    }

    /** Removing the empty key clears a free slot, if there is one. */
    method RemoveKey(key: string) returns (removed: bool)
      requires Valid()
      modifies entries
      ensures Valid() && Contents() == old(Contents()) - {key}
      ensures removed <==> if key == "" then |old(Contents())| < NUM_ENTRIES else key in old(Contents())
    {
      hide AreDistinct, Held;
      CountFits(entries[..]);
      var at := GetEntryForKey(key);
      if at < 0 {
        NoEmptyKey(entries[..]);
        return false;
      }
      ghost var before := entries[..];
      RemoveAt(before, at);
      entries[at] := Entry("", "");
      assert entries[..] == before[at := Entry("", "")];
      return true;
    }
  }

  lemma {:induction false} NotHeld(es: seq<Entry>, key: string)
    requires forall i :: 0 <= i < |es| ==> es[i].key != key
    ensures key !in Held(es)
  {
    assert forall e <- es :: e.key != key;
  }

  lemma {:induction false} NoEmptyKey(es: seq<Entry>)
    ensures "" !in Held(es)
  {
  }

  lemma {:induction false} CountFits(es: seq<Entry>)
    requires AreDistinct(es)
    ensures |Held(es)| <= |es|
  {
    HeldCount(es);
  }

  /** No other slot than the one found or the free one taken has the key. */
  lemma {:induction false} OtherSlots(es: seq<Entry>, at: nat, key: string, i: nat)
    requires AreDistinct(es) && at < |es| && i < |es| && i != at && key != ""
    requires es[at].key == key || (!IsActive(es[at]) && key !in Held(es))
    ensures es[i].key != key
  {
    if es[i].key == key {
      HeldAt(es, i);
    }
  }

  lemma {:induction false} PutKeepsDistinct(es: seq<Entry>, at: nat, key: string, value: string)
    requires AreDistinct(es) && at < |es| && |key| < KEY_SIZE
    requires forall i :: 0 <= i < |es| && i != at ==> es[i].key != key
    ensures AreDistinct(es[at := Entry(key, value)])
  {
  }

  /** A slot with this key, or a free slot when no slot has it, takes a new value. */
  lemma {:induction false} PutAt(es: seq<Entry>, at: nat, key: string, value: string)
    requires AreDistinct(es) && at < |es| && 0 < |key| < KEY_SIZE
    requires es[at].key == key || (!IsActive(es[at]) && key !in Held(es))
    ensures AreDistinct(es[at := Entry(key, value)])
    ensures Held(es[at := Entry(key, value)]) == Held(es)[key := value]
  {
    hide AreDistinct, Held;
    var after, m := es[at := Entry(key, value)], Held(es)[key := value];
    forall i | 0 <= i < |es| && i != at ensures es[i].key != key {
      OtherSlots(es, at, key, i);
    }
    PutKeepsDistinct(es, at, key, value);
    forall i | 0 <= i < |es| && IsActive(after[i])
      ensures after[i].key in m && m[after[i].key] == after[i].value
    {
      if i != at {
        HeldAt(es, i);
      }
    }
    forall k | k in m ensures k != "" && exists i :: 0 <= i < |after| && after[i].key == k {
      if k == key {
        assert after[at].key == k;
      } else {
        var e :| e in es && e.key == k;
        var i :| 0 <= i < |es| && es[i] == e;
        assert after[i].key == k;
      }
    }
    HeldIs(after, m);
  }

  /** The slots in which a key is found. */
  ghost function SlotsWith(es: seq<Entry>, key: string): set<nat> {
    set i: nat | i < |es| && es[i].key == key
  }

  /**
   The sanity check at the end of SetKeyValue, that the key is now in just one slot, holds exactly for
   keys that fit.  A longer one is stored without its end, so it is in no slot and is not found again.
   */
  lemma {:induction false} KeyAppearsOnce(es: seq<Entry>, at: nat, key: string, value: string)
    requires AreDistinct(es) && at < |es| && key != ""
    requires es[at].key == key || (!IsActive(es[at]) && key !in Held(es))
    ensures var n := |SlotsWith(es[at := Entry(Truncated(key, KEY_SIZE), value)], key)|;
      (n == 1 <==> |key| < KEY_SIZE) && (n == 0 <==> |key| >= KEY_SIZE)
  {
    hide AreDistinct, Held;
    var after := es[at := Entry(Truncated(key, KEY_SIZE), value)];
    forall i | 0 <= i < |es| && i != at ensures after[i].key != key {
      OtherSlots(es, at, key, i);
    }
    assert after[at].key == key <==> |key| < KEY_SIZE;
    if |key| < KEY_SIZE {
      assert SlotsWith(after, key) == {at};
    } else {
      assert SlotsWith(after, key) == {};
    }
  }

  lemma {:induction false} RemoveKeepsDistinct(es: seq<Entry>, at: nat)
    requires AreDistinct(es) && at < |es|
    ensures AreDistinct(es[at := Entry("", "")])
  {
  }

  lemma {:induction false} OnlySlot(es: seq<Entry>, at: nat, i: nat)
    requires AreDistinct(es) && at < |es| && i < |es| && i != at && IsActive(es[i])
    ensures es[i].key != es[at].key
  {
  }

  lemma {:induction false} RemoveAt(es: seq<Entry>, at: nat)
    requires AreDistinct(es) && at < |es|
    ensures AreDistinct(es[at := Entry("", "")])
    ensures Held(es[at := Entry("", "")]) == Held(es) - {es[at].key}
  {
    RemoveKeepsDistinct(es, at);
    hide AreDistinct, Held;
    var after, m := es[at := Entry("", "")], Held(es) - {es[at].key};
    forall i | 0 <= i < |es| && IsActive(after[i]) ensures after[i].key in m && m[after[i].key] == after[i].value {
      HeldAt(es, i);
      OnlySlot(es, at, i);
    }
    forall k | k in m ensures k != "" && exists i :: 0 <= i < |after| && after[i].key == k {
      var e :| e in es && e.key == k;
      var i :| 0 <= i < |es| && es[i] == e;
      assert after[i].key == k;
    }
    HeldIs(after, m);
  }
}
