/**
 `LongStringDictionary`: values too long for a slot are cut into segments under keys with suffixes.
 For keys that do not clash with each other's suffixes it is a dictionary of longer values.
 */
module LongStringDictionaries {
  import opened OrderedKeys
  import opened StringDictionaries
  import opened Words

  /** The number of suffixes. */
  const MAX_SEGMENTS := 10

  const MAX_SUFFIX_LENGTH := 4

  /** The most characters that a slot or a segment holds. */
  const CHUNK := VALUE_SIZE - 1

  /** `kSuffixes`, from __1 to __10. */
  function Suffix(i: nat): (s: string)
    requires 1 <= i <= MAX_SEGMENTS
    ensures |s| <= MAX_SUFFIX_LENGTH
  {
    if i < 10 then ['_', '_', "0123456789"[i]] else ['_', '_', '1', '0']
  }

  function SegmentKey(key: string, i: nat): string
    requires 1 <= i <= MAX_SEGMENTS
  {
    key + Suffix(i)
  }

  /** Keys that leave room for a suffix. */
  predicate IsKey(key: string) { 0 < |key| && |key| + MAX_SUFFIX_LENGTH <= KEY_SIZE - 1 }

  /** The keys under which the value of `key` may be stored. */
  ghost predicate InFamily(key: string, k: string) {
    k == key || exists i :: 1 <= i <= MAX_SEGMENTS && k == SegmentKey(key, i)
  }

  /** One of the keys is a segment key of the other. */
  ghost predicate Clash(a: string, b: string) { InFamily(a, b) || InFamily(b, a) }

  lemma {:induction false} SuffixesDiffer(i: nat, j: nat)
    requires 1 <= i <= MAX_SEGMENTS && 1 <= j <= MAX_SEGMENTS && i != j
    ensures Suffix(i)[|Suffix(i)| - 1] != Suffix(j)[|Suffix(j)| - 1]
  {
    assert "0123456789"[i % 10] != "0123456789"[j % 10];
  }

  /** A segment key determines its number and the key it belongs to. */
  lemma {:induction false} SegmentKeyIsUnique(a: string, i: nat, b: string, j: nat)
    requires 1 <= i <= MAX_SEGMENTS && 1 <= j <= MAX_SEGMENTS
    ensures SegmentKey(a, i) == SegmentKey(b, j) <==> a == b && i == j
    ensures SegmentKey(a, i) != a
  {
    var x, y := SegmentKey(a, i), SegmentKey(b, j);
    assert |x| == |a| + |Suffix(i)|;
    if x == y {
      assert x[|x| - 1] == Suffix(i)[|Suffix(i)| - 1] && y[|y| - 1] == Suffix(j)[|Suffix(j)| - 1];
      if i != j {
        SuffixesDiffer(i, j);
      }
      assert x[..|x| - |Suffix(i)|] == a && y[..|y| - |Suffix(j)|] == b;
    }
  }

  lemma {:induction false} SegmentKeyFits(key: string, i: nat)
    requires IsKey(key) && 1 <= i <= MAX_SEGMENTS
    ensures 0 < |SegmentKey(key, i)| < KEY_SIZE && SegmentKey(key, i) != ""
  {
  }

  /** Keys that do not clash have nothing in common. */
  lemma {:induction false} FamiliesAreApart(a: string, b: string, k: string)
    requires !Clash(a, b) && InFamily(a, k)
    ensures !InFamily(b, k)
  {
    if k != a {
      var i :| 1 <= i <= MAX_SEGMENTS && k == SegmentKey(a, i);
      forall j | 1 <= j <= MAX_SEGMENTS ensures k != SegmentKey(b, j) {
        SegmentKeyIsUnique(a, i, b, j);
        assert InFamily(a, a);
      }
      assert InFamily(a, k);
    }
  }

  // ----- what the operations do

  datatype Removal = Removal(removed: bool, m: Dictionary)

  /** Remove segments from number i on up to the first that is missing. */
  function RemoveSegments(m: Dictionary, key: string, i: nat): Dictionary
    requires 1 <= i <= MAX_SEGMENTS + 1
    decreases MAX_SEGMENTS + 1 - i
  {
    if i > MAX_SEGMENTS || SegmentKey(key, i) !in m then m
    else RemoveSegments(m - {SegmentKey(key, i)}, key, i + 1)
  }

  function Remove(m: Dictionary, key: string): Removal {
    if key in m then Removal(true, m - {key})
    else Removal(SegmentKey(key, 1) in m, RemoveSegments(m, key, 1))
  }

  /** Store what remains of a value in segments from number i on. */
  function PutSegments(m: Dictionary, key: string, i: nat, remain: string): Dictionary
    requires 1 <= i <= MAX_SEGMENTS + 1
    decreases MAX_SEGMENTS + 1 - i
  {
    if i > MAX_SEGMENTS || remain == "" then m
    else
      var n := Min(|remain|, CHUNK);
      PutSegments(Put(m, SegmentKey(key, i), remain[..n]), key, i + 1, remain[n..])
  }

  function Set(m: Dictionary, key: string, value: string): Dictionary {
    var rest := Remove(m, key).m;
    if |value| <= CHUNK then Put(rest, key, value) else PutSegments(rest, key, 1, value)
  }

  /** The segments from number i on up to the first that is missing. */
  function GetSegments(m: Dictionary, key: string, i: nat): string
    requires 1 <= i <= MAX_SEGMENTS + 1
    decreases MAX_SEGMENTS + 1 - i
  {
    if i > MAX_SEGMENTS || SegmentKey(key, i) !in m then ""
    else m[SegmentKey(key, i)] + GetSegments(m, key, i + 1)
  }

  /** The value of a key; a key without one has the empty value. */
  function Get(m: Dictionary, key: string): string {
    if key in m then m[key] else GetSegments(m, key, 1)
  }

  // ----- the invariant of each key

  /** The segments of a key are the first few, and there are none beside a plain value. */
  predicate IsKept(m: Dictionary, key: string) {
    && (forall i :: 2 <= i <= MAX_SEGMENTS && SegmentKey(key, i) in m ==> SegmentKey(key, i - 1) in m)
    && (key in m ==> SegmentKey(key, 1) !in m)
  }

  /** Two dictionaries agree about a key. */
  predicate Agree(a: Dictionary, b: Dictionary, k: string) {
    (k in a <==> k in b) && (k in a ==> a[k] == b[k])
  }

  /** Two dictionaries agree about everything stored for a key. */
  ghost predicate SameFor(a: Dictionary, b: Dictionary, key: string) {
    forall k :: InFamily(key, k) ==> Agree(a, b, k)
  }

  lemma {:induction false} NoSegments(m: Dictionary, key: string, from: nat, i: nat)
    requires IsKept(m, key) && 1 <= from <= i <= MAX_SEGMENTS && SegmentKey(key, from) !in m
    ensures SegmentKey(key, i) !in m
    decreases i
  {
    if i > from {
      NoSegments(m, key, from, i - 1);
    }
  }

  /** Only keys of the family are removed. */
  lemma {:induction false} RemoveSegmentsKeeps(m: Dictionary, key: string, i: nat, k: string)
    requires 1 <= i <= MAX_SEGMENTS + 1
    requires forall j :: i <= j <= MAX_SEGMENTS ==> k != SegmentKey(key, j)
    ensures Agree(m, RemoveSegments(m, key, i), k)
    decreases MAX_SEGMENTS + 1 - i
  {
    if i <= MAX_SEGMENTS && SegmentKey(key, i) in m {
      RemoveSegmentsKeeps(m - {SegmentKey(key, i)}, key, i + 1, k);
    }
  }

  /** Of segments that are the first few, all are removed. */
  lemma {:induction false} RemoveSegmentsRemoves(m: Dictionary, key: string, i: nat, j: nat)
    requires 1 <= i <= j <= MAX_SEGMENTS
    requires forall n :: i < n <= MAX_SEGMENTS && SegmentKey(key, n) in m ==> SegmentKey(key, n - 1) in m
    ensures SegmentKey(key, j) !in RemoveSegments(m, key, i)
    decreases MAX_SEGMENTS + 1 - i
  {
    if SegmentKey(key, i) in m {
      var rest := m - {SegmentKey(key, i)};
      forall n | i < n <= MAX_SEGMENTS ensures SegmentKey(key, n) in rest <==> SegmentKey(key, n) in m {
        SegmentKeyIsUnique(key, n, key, i);
      }
      if j == i {
        forall n | i + 1 <= n <= MAX_SEGMENTS ensures SegmentKey(key, i) != SegmentKey(key, n) {
          SegmentKeyIsUnique(key, i, key, n);
        }
        RemoveSegmentsKeeps(rest, key, i + 1, SegmentKey(key, i));
      } else {
        RemoveSegmentsRemoves(rest, key, i + 1, j);
      }
    } else {
      FirstMissing(m, key, i, j);
    }
  }

  lemma {:induction false} FirstMissing(m: Dictionary, key: string, i: nat, j: nat)
    requires 1 <= i <= j <= MAX_SEGMENTS && SegmentKey(key, i) !in m
    requires forall n :: i < n <= MAX_SEGMENTS && SegmentKey(key, n) in m ==> SegmentKey(key, n - 1) in m
    ensures SegmentKey(key, j) !in m
    decreases j
  {
    if j > i {
      FirstMissing(m, key, i, j - 1);
    }
  }

  /** After a key is removed nothing is left of it, and everything else is; it was there iff removing succeeds. */
  lemma {:induction false} RemoveRemoves(m: Dictionary, key: string)
    requires IsKept(m, key)
    ensures var r := Remove(m, key);
      && (forall k :: InFamily(key, k) ==> k !in r.m)
      && (forall k :: !InFamily(key, k) ==> Agree(m, r.m, k))
      && (r.removed <==> exists k :: InFamily(key, k) && k in m)
      && |r.m| <= |m|
  {
    var r := Remove(m, key);
    assert InFamily(key, key);
    assert InFamily(key, SegmentKey(key, 1));
    forall i | 1 <= i <= MAX_SEGMENTS ensures SegmentKey(key, i) !in r.m && SegmentKey(key, i) != key {
      SegmentKeyIsUnique(key, i, key, 1);
      if key in m || SegmentKey(key, 1) !in m {
        NoSegments(m, key, 1, i);
      }
      if key !in m {
        RemoveSegmentsRemoves(m, key, 1, i);
      }
    }
    forall k | !InFamily(key, k) ensures Agree(m, r.m, k) {
      forall j | 1 <= j <= MAX_SEGMENTS ensures k != SegmentKey(key, j) {
        assert InFamily(key, SegmentKey(key, j));
      }
      RemoveSegmentsKeeps(m, key, 1, k);
    }
    forall j | 1 <= j <= MAX_SEGMENTS ensures key != SegmentKey(key, j) {
      SegmentKeyIsUnique(key, j, key, 1);
    }
    RemoveSegmentsKeeps(m, key, 1, key);
    assert r.m.Keys <= m.Keys by {
      RemoveSegmentsIsPart(m, key, 1);
    }
    SubsetCount(r.m.Keys, m.Keys);
  }

  lemma {:induction false} RemoveSegmentsIsPart(m: Dictionary, key: string, i: nat)
    requires 1 <= i <= MAX_SEGMENTS + 1
    ensures RemoveSegments(m, key, i).Keys <= m.Keys
    decreases MAX_SEGMENTS + 1 - i
  {
    if i <= MAX_SEGMENTS && SegmentKey(key, i) in m {
      RemoveSegmentsIsPart(m - {SegmentKey(key, i)}, key, i + 1);
    }
  }

  lemma {:induction false} SubsetCount(a: set<string>, b: set<string>)
    requires a <= b
    ensures |a| <= |b|
  {
    assert b == a + (b - a);
  }

  // ----- setting and getting

  lemma {:induction false} PutSegmentsKeeps(m: Dictionary, key: string, i: nat, remain: string, k: string)
    requires 1 <= i <= MAX_SEGMENTS + 1
    requires forall j :: i <= j <= MAX_SEGMENTS ==> k != SegmentKey(key, j)
    ensures Agree(m, PutSegments(m, key, i, remain), k)
    decreases MAX_SEGMENTS + 1 - i
  {
    if i <= MAX_SEGMENTS && remain != "" {
      var n := Min(|remain|, CHUNK);
      PutSegmentsKeeps(Put(m, SegmentKey(key, i), remain[..n]), key, i + 1, remain[n..], k);
    }
  }

  /** No segment from number i on is stored. */
  predicate AreMissing(m: Dictionary, key: string, i: nat)
    requires 1 <= i
  {
    forall j :: i <= j <= MAX_SEGMENTS ==> SegmentKey(key, j) !in m
  }

  lemma {:induction false} FullStays(m: Dictionary, key: string, i: nat, remain: string)
    requires 1 <= i <= MAX_SEGMENTS + 1 && |m| >= NUM_ENTRIES
    requires AreMissing(m, key, i)
    ensures PutSegments(m, key, i, remain) == m
    decreases MAX_SEGMENTS + 1 - i
  {
    if i <= MAX_SEGMENTS && remain != "" {
      FullStays(m, key, i + 1, remain[Min(|remain|, CHUNK)..]);
    }
  }

  /** The number of free slots when `count` are used. */
  function Free(count: nat): nat { if count <= NUM_ENTRIES then NUM_ENTRIES - count else 0 }

  /** How much of a value finds room in segments from number i on. */
  function Stored(remain: string, i: nat, count: nat): (r: string)
    requires 1 <= i <= MAX_SEGMENTS + 1
    ensures r <= remain
  {
    remain[..Min(|remain|, CHUNK * Min(MAX_SEGMENTS + 1 - i, Free(count)))]
  }

  lemma {:induction false} StoredMore(remain: string, i: nat, count: nat)
    requires 1 <= i <= MAX_SEGMENTS && count < NUM_ENTRIES
    ensures var n := Min(|remain|, CHUNK);
      Stored(remain, i, count) == remain[..n] + Stored(remain[n..], i + 1, count + 1)
  {
    var n := Min(|remain|, CHUNK);
    var more := Min(MAX_SEGMENTS - i, NUM_ENTRIES - count - 1);
    assert CHUNK * (more + 1) == CHUNK * more + CHUNK;
    if |remain| <= CHUNK {
      assert remain[n..] == "";
    }
  }

  lemma {:induction false} IsMissing(m: Dictionary, key: string, i: nat, j: nat)
    requires 1 <= i <= j <= MAX_SEGMENTS && AreMissing(m, key, i)
    ensures SegmentKey(key, j) !in m
  {
  }

  /** One segment more; the segments behind it are still missing. */
  lemma {:induction false} PutOne(m: Dictionary, key: string, i: nat, segment: string)
    requires 1 <= i <= MAX_SEGMENTS && |m| < NUM_ENTRIES && |segment| <= CHUNK
    requires AreMissing(m, key, i)
    ensures var next := Put(m, SegmentKey(key, i), segment);
      && next == m[SegmentKey(key, i) := segment] && |next| == |m| + 1
      && AreMissing(next, key, i + 1)
      && forall j :: i + 1 <= j <= MAX_SEGMENTS ==> SegmentKey(key, i) != SegmentKey(key, j)
  {
    hide SegmentKey;
    forall j | i + 1 <= j <= MAX_SEGMENTS ensures SegmentKey(key, i) != SegmentKey(key, j) {
      SegmentKeyIsUnique(key, i, key, j);
    }
    AddedKey(m, SegmentKey(key, i), segment);
  }

  lemma {:induction false} PutCount(m: Dictionary, key: string, i: nat, remain: string)
    requires 1 <= i <= MAX_SEGMENTS + 1 && |m| <= NUM_ENTRIES
    requires AreMissing(m, key, i)
    ensures |m| <= |PutSegments(m, key, i, remain)| <= NUM_ENTRIES
    decreases MAX_SEGMENTS + 1 - i
  {
    hide SegmentKey, Put, AreMissing;
    PutSegmentsStep(m, key, i, remain);
    hide PutSegments;
    if i <= MAX_SEGMENTS && remain != "" {
      var n := Min(|remain|, CHUNK);
      if |m| == NUM_ENTRIES {
        FullStays(m, key, i, remain);
      } else {
        PutOne(m, key, i, remain[..n]);
        PutCount(Put(m, SegmentKey(key, i), remain[..n]), key, i + 1, remain[n..]);
      }
    }
  }

  lemma {:induction false} PutFirstFew(m: Dictionary, key: string, i: nat, remain: string, j: nat)
    requires 1 <= i < j <= MAX_SEGMENTS && |m| <= NUM_ENTRIES
    requires AreMissing(m, key, i)
    ensures var r := PutSegments(m, key, i, remain); SegmentKey(key, j) in r ==> SegmentKey(key, j - 1) in r
    decreases MAX_SEGMENTS + 1 - i
  {
    hide SegmentKey, Put, AreMissing;
    PutSegmentsStep(m, key, i, remain);
    hide PutSegments;
    IsMissing(m, key, i, j);
    if remain != "" {
      var n := Min(|remain|, CHUNK);
      if |m| == NUM_ENTRIES {
        FullStays(m, key, i, remain);
      } else {
        PutOne(m, key, i, remain[..n]);
        var next := Put(m, SegmentKey(key, i), remain[..n]);
        if j == i + 1 {
          PutSegmentsKeeps(next, key, i + 1, remain[n..], SegmentKey(key, i));
        } else {
          PutFirstFew(next, key, i + 1, remain[n..], j);
        }
      }
    }
  }

  lemma {:induction false} PutGets(m: Dictionary, key: string, i: nat, remain: string)
    requires 1 <= i <= MAX_SEGMENTS + 1 && |m| <= NUM_ENTRIES
    requires AreMissing(m, key, i)
    ensures GetSegments(PutSegments(m, key, i, remain), key, i) == Stored(remain, i, |m|)
    decreases MAX_SEGMENTS + 1 - i
  {
    hide SegmentKey, Stored, Put, AreMissing;
    PutSegmentsStep(m, key, i, remain);
    GetSegmentsStep(PutSegments(m, key, i, remain), key, i);
    hide PutSegments, GetSegments;
    NothingStored(remain, i, |m|);
    if i <= MAX_SEGMENTS && remain == "" {
      IsMissing(m, key, i, i);
    }
    if i <= MAX_SEGMENTS && remain != "" {
      if |m| == NUM_ENTRIES {
        FullStays(m, key, i, remain);
        IsMissing(m, key, i, i);
      } else {
        var n, k := Min(|remain|, CHUNK), SegmentKey(key, i);
        PutOne(m, key, i, remain[..n]);
        var next := Put(m, k, remain[..n]);
        PutGets(next, key, i + 1, remain[n..]);
        PutSegmentsKeeps(next, key, i + 1, remain[n..], k);
        StoredMore(remain, i, |m|);
      }
    }
  }

  /** What was stored in segments is found again, and the segments are the first few. */
  lemma {:induction false} PutThenGet(m: Dictionary, key: string, i: nat, remain: string)
    requires 1 <= i <= MAX_SEGMENTS + 1 && |m| <= NUM_ENTRIES
    requires AreMissing(m, key, i)
    ensures var r := PutSegments(m, key, i, remain);
      && GetSegments(r, key, i) == Stored(remain, i, |m|)
      && |m| <= |r| <= NUM_ENTRIES
      && (forall j :: i < j <= MAX_SEGMENTS && SegmentKey(key, j) in r ==> SegmentKey(key, j - 1) in r)
  {
    hide SegmentKey, Stored, PutSegments, GetSegments, AreMissing;
    PutGets(m, key, i, remain);
    PutCount(m, key, i, remain);
    forall j | i < j <= MAX_SEGMENTS
      ensures var r := PutSegments(m, key, i, remain); SegmentKey(key, j) in r ==> SegmentKey(key, j - 1) in r
    {
      PutFirstFew(m, key, i, remain, j);
    }
  }

  lemma {:induction false} NothingStored(remain: string, i: nat, count: nat)
    requires 1 <= i <= MAX_SEGMENTS + 1 && count <= NUM_ENTRIES
    ensures i > MAX_SEGMENTS || remain == "" || count == NUM_ENTRIES ==> Stored(remain, i, count) == ""
  {
  }

  /**
   After a value is set for a key the key has that value, cut off where ten segments or the free slots
   end; the key's invariant holds, and nothing else is changed.
   */
  lemma {:induction false} SetThenGet(m: Dictionary, key: string, value: string)
    requires IsKept(m, key) && |m| <= NUM_ENTRIES
    ensures var r := Set(m, key, value);
      && Get(r, key) == Stored(value, 1, |Remove(m, key).m|)
      && IsKept(r, key) && |r| <= NUM_ENTRIES
      && (forall k :: !InFamily(key, k) ==> Agree(m, r, k))
  {
    hide SegmentKey, RemoveSegments, PutSegments, Stored, Put;
    RemoveRemoves(m, key);
    var rest, r := Remove(m, key).m, Set(m, key, value);
    assert InFamily(key, key);
    forall i | 1 <= i <= MAX_SEGMENTS ensures SegmentKey(key, i) !in rest && SegmentKey(key, i) != key {
      SegmentKeyIsUnique(key, i, key, 1);
      assert InFamily(key, SegmentKey(key, i));
    }
    if |value| <= CHUNK {
      PutPlain(rest, key, value);
    } else {
      PutThenGet(rest, key, 1, value);
      PutSegmentsKeeps(rest, key, 1, value, key);
      forall k | !InFamily(key, k) ensures Agree(rest, r, k) {
        forall j | 1 <= j <= MAX_SEGMENTS ensures k != SegmentKey(key, j) {
          assert InFamily(key, SegmentKey(key, j));
        }
        PutSegmentsKeeps(rest, key, 1, value, k);
      }
    }
    forall k | !InFamily(key, k) ensures Agree(m, r, k) {
      assert Agree(m, rest, k) && Agree(rest, r, k);
    }
  }

  lemma {:induction false} PutPlain(rest: Dictionary, key: string, value: string)
    requires |rest| <= NUM_ENTRIES && |value| <= CHUNK && key !in rest
    requires forall i :: 1 <= i <= MAX_SEGMENTS ==> SegmentKey(key, i) !in rest && SegmentKey(key, i) != key
    ensures var r := Put(rest, key, value);
      && Get(r, key) == Stored(value, 1, |rest|) && IsKept(r, key) && |r| <= NUM_ENTRIES
      && forall k :: k != key ==> Agree(rest, r, k)
  {
    hide SegmentKey;
    var r := Put(rest, key, value);
    assert SegmentKey(key, 1) !in rest && SegmentKey(key, 1) != key;
    if |rest| < NUM_ENTRIES {
      assert CHUNK * Min(MAX_SEGMENTS, Free(|rest|)) >= CHUNK;
      assert Stored(value, 1, |rest|) == value[..|value|] == value;
      assert r == rest[key := value];
    } else {
      NothingStored(value, 1, |rest|);
      assert r == rest;
    }
  }

  lemma {:induction false} GetDependsOnFamily(a: Dictionary, b: Dictionary, key: string)
    requires SameFor(a, b, key)
    ensures Get(a, key) == Get(b, key) && (IsKept(a, key) <==> IsKept(b, key))
  {
    hide SegmentKey;
    assert InFamily(key, key);
    forall i | 1 <= i <= MAX_SEGMENTS ensures Agree(a, b, SegmentKey(key, i)) {
      assert InFamily(key, SegmentKey(key, i));
    }
    GetSegmentsAgree(a, b, key, 1);
  }

  lemma {:induction false} GetSegmentsAgree(a: Dictionary, b: Dictionary, key: string, i: nat)
    requires 1 <= i <= MAX_SEGMENTS + 1
    requires forall j :: 1 <= j <= MAX_SEGMENTS ==> Agree(a, b, SegmentKey(key, j))
    ensures GetSegments(a, key, i) == GetSegments(b, key, i)
    decreases MAX_SEGMENTS + 1 - i
  {
    hide SegmentKey;
    if i <= MAX_SEGMENTS && SegmentKey(key, i) in a {
      GetSegmentsAgree(a, b, key, i + 1);
    }
  }

  // ----- runs

  /** Setting a value, or removing the key if there is none. */
  datatype Operation = Assign(key: string, value: string) | Erase(key: string)

  function Do(m: Dictionary, op: Operation): Dictionary {
    match op
    case Assign(key, value) => Set(m, key, value)
    case Erase(key) => Remove(m, key).m
  }

  function DoAll(m: Dictionary, ops: seq<Operation>): Dictionary
    decreases |ops|
  {
    if ops == [] then m else DoAll(Do(m, ops[0]), ops[1..])
  }

  ghost predicate AreCompatible(keys: set<string>) {
    forall a <- keys, b <- keys :: a != b ==> !Clash(a, b)
  }

  ghost predicate AllKept(m: Dictionary, keys: set<string>) {
    |m| <= NUM_ENTRIES && forall k <- keys :: IsKept(m, k)
  }

  lemma {:induction false} OperationKeeps(m: Dictionary, op: Operation, keys: set<string>)
    requires AreCompatible(keys) && AllKept(m, keys) && op.key in keys
    ensures AllKept(Do(m, op), keys)
    ensures forall k <- keys :: k != op.key ==> Get(Do(m, op), k) == Get(m, k)
  {
    hide InFamily, IsKept, Get, Set, Remove, Clash, Agree;
    RemoveRemoves(m, op.key);
    if op.Assign? {
      SetThenGet(m, op.key, op.value);
    } else {
      NothingIsKept(Do(m, op), op.key);
    }
    forall k | k in keys && k != op.key ensures IsKept(Do(m, op), k) && Get(Do(m, op), k) == Get(m, k) {
      forall x | InFamily(k, x) ensures Agree(Do(m, op), m, x) {
        FamiliesAreApart(k, op.key, x);
        AgreeBack(m, Do(m, op), x);
      }
      GetDependsOnFamily(Do(m, op), m, k);
    }
  }

  lemma {:induction false} AgreeBack(a: Dictionary, b: Dictionary, k: string)
    ensures Agree(a, b, k) ==> Agree(b, a, k)
  {
  }

  lemma {:induction false} NothingIsKept(m: Dictionary, key: string)
    requires forall k :: InFamily(key, k) ==> k !in m
    ensures IsKept(m, key) && Get(m, key) == ""
  {
    hide SegmentKey;
    assert InFamily(key, key);
    forall i | 1 <= i <= MAX_SEGMENTS ensures SegmentKey(key, i) !in m {
      assert InFamily(key, SegmentKey(key, i));
    }
  }

  /**
   In every run over keys that do not clash, each key's invariant holds, and a key keeps its value
   while it is not used.
   */
  lemma {:induction false} RunKeeps(m: Dictionary, ops: seq<Operation>, keys: set<string>)
    requires AreCompatible(keys) && AllKept(m, keys) && forall op <- ops :: op.key in keys
    ensures AllKept(DoAll(m, ops), keys)
    ensures forall k <- keys :: (forall op <- ops :: op.key != k) ==> Get(DoAll(m, ops), k) == Get(m, k)
    decreases |ops|
  {
    hide AreCompatible, AllKept, Get, Do;
    if ops != [] {
      assert ops[0] in ops;
      OperationKeeps(m, ops[0], keys);
      RunKeeps(Do(m, ops[0]), ops[1..], keys);
    }
  }

  /**
   A dictionary: after any run, a key has the value it was given last, as far as that found room, and
   the empty value if it was removed last or never used.
   */
  lemma {:induction false} LastValueIsFound(before: seq<Operation>, op: Operation, after: seq<Operation>,
      keys: set<string>)
    requires AreCompatible(keys) && op.key in keys
    requires (forall o <- before :: o.key in keys) && (forall o <- after :: o.key in keys && o.key != op.key)
    ensures var m := DoAll(map[], before);
      Get(DoAll(map[], before + [op] + after), op.key)
        == if op.Assign? then Stored(op.value, 1, |Remove(m, op.key).m|) else ""
  {
    hide AreCompatible, Get, Do, Stored, Remove, IsKept;
    NothingStoredYet(keys);
    var m := DoAll(map[], before);
    RunKeeps(map[], before, keys);
    OperationKeeps(m, op, keys);
    RunKeeps(Do(m, op), after, keys);
    DoBoth(map[], before, [op] + after);
    assert before + [op] + after == before + ([op] + after);
    assert ([op] + after)[1..] == after;
    AfterOne(m, op);
  }

  lemma {:induction false} AfterOne(m: Dictionary, op: Operation)
    requires IsKept(m, op.key) && |m| <= NUM_ENTRIES
    ensures Get(Do(m, op), op.key) == if op.Assign? then Stored(op.value, 1, |Remove(m, op.key).m|) else ""
  {
    hide Get, Set, Remove, IsKept, Stored, InFamily;
    if op.Assign? {
      SetThenGet(m, op.key, op.value);
    } else {
      RemoveRemoves(m, op.key);
      NothingIsKept(Do(m, op), op.key);
    }
  }

  lemma {:induction false} NothingStoredYet(keys: set<string>)
    ensures AllKept(map[], keys)
  {
  }

  lemma {:induction false} DoBoth(m: Dictionary, a: seq<Operation>, b: seq<Operation>)
    ensures DoAll(m, a + b) == DoAll(DoAll(m, a), b)
    decreases |a|
  {
    hide Do;
    if a == [] {
      assert a + b == b;
    } else {
      assert (a + b)[1..] == a[1..] + b;
      DoBoth(Do(m, a[0]), a[1..], b);
    }
  }

  // ----- the program

  /** The dictionary over the slots of a SimpleStringDictionary, its private base class. */
  class LongStringDictionary {
    const slots: SimpleStringDictionary

    ghost predicate Valid()
      reads this, slots, slots.entries
    {
      slots.Valid()
    }

    ghost function Contents(): Dictionary
      reads this, slots, slots.entries
    {
      slots.Contents()
    }

    constructor ()
      ensures Valid() && Contents() == map[] && fresh(slots) && fresh(slots.entries)
    {
      slots := new SimpleStringDictionary();
    }

    method SetKeyValue(key: string, value: Option<string>)
      requires Valid() && IsKey(key)
      modifies slots.entries
      ensures Valid()
      ensures Contents() == if value.None? then Remove(old(Contents()), key).m
        else Set(old(Contents()), key, value.value)
    {
      hide SimpleStringDictionary.Valid, SimpleStringDictionary.Contents, Remove, Put, PutSegments;
      var removed := RemoveKey(key);
      if value.None? {
        return;
      }
      if |value.value| <= CHUNK {
        slots.SetKeyValue(key, value.value);
        return;
      }
      var remain := value.value;
      ghost var whole := PutSegments(Contents(), key, 1, remain);
      var i := 1;
      while i <= MAX_SEGMENTS
        invariant 1 <= i <= MAX_SEGMENTS + 1 && Valid()
        invariant PutSegments(Contents(), key, i, remain) == whole
        decreases MAX_SEGMENTS - i
      {
        PutSegmentsStep(Contents(), key, i, remain);
        if remain == "" {
          return;
        }
        var n := Min(|remain|, CHUNK);
        var segment := remain[..n];
        remain := remain[n..];
        slots.SetKeyValue(SegmentKey(key, i), segment);
        i := i + 1;
      }
      PutSegmentsStep(Contents(), key, i, remain);
    }

    /** The loop of RemoveKey: remove segments up to the first that is missing. */
    method RemoveFirstSegments(key: string) returns (removed: bool)
      requires Valid() && IsKey(key)
      modifies slots.entries
      ensures Valid() && Contents() == RemoveSegments(old(Contents()), key, 1)
      ensures removed <==> SegmentKey(key, 1) in old(Contents())
    {
      hide SimpleStringDictionary.Valid, SimpleStringDictionary.Contents, RemoveSegments, SegmentKey;
      var i := 1;
      while i <= MAX_SEGMENTS
        invariant 1 <= i <= MAX_SEGMENTS + 1 && Valid()
        invariant RemoveSegments(Contents(), key, i) == RemoveSegments(old(Contents()), key, 1)
        invariant if i == 1 then Contents() == old(Contents()) else SegmentKey(key, 1) in old(Contents())
        decreases MAX_SEGMENTS - i
      {
        RemoveSegmentsStep(Contents(), key, i);
        SegmentKeyFits(key, i);
        var found := slots.RemoveKey(SegmentKey(key, i));
        if !found {
          break;
        }
        i := i + 1;
      }
      RemoveSegmentsStep(Contents(), key, i);
      return i != 1;
    }

    method RemoveKey(key: string) returns (removed: bool)
      requires Valid() && IsKey(key)
      modifies slots.entries
      ensures Valid() && Removal(removed, Contents()) == Remove(old(Contents()), key)
    {
      hide SimpleStringDictionary.Valid, SimpleStringDictionary.Contents, RemoveSegments, SegmentKey;
      removed := slots.RemoveKey(key);
      if !removed {
        assert Contents() == old(Contents());
        removed := RemoveFirstSegments(key);
      }
    }

    method GetValueForKey(key: string) returns (value: string)
      requires Valid() && IsKey(key)
      ensures value == Get(Contents(), key)
    {
      hide SimpleStringDictionary.Valid, SimpleStringDictionary.Contents, GetSegments;
      var found, plain := slots.GetValueForKey(key);
      if found {
        return plain;
      }
      value := "";
      var i := 1;
      while i <= MAX_SEGMENTS
        invariant 1 <= i <= MAX_SEGMENTS + 1
        invariant value + GetSegments(Contents(), key, i) == GetSegments(Contents(), key, 1)
        decreases MAX_SEGMENTS - i
      {
        GetSegmentsStep(Contents(), key, i);
        var segment;
        found, segment := slots.GetValueForKey(SegmentKey(key, i));
        if !found {
          break;
        }
        assert value + (segment + GetSegments(Contents(), key, i + 1))
            == value + segment + GetSegments(Contents(), key, i + 1);
        value := value + segment;
        i := i + 1;
      }
      GetSegmentsStep(Contents(), key, i);
    }
  }

  lemma {:induction false} PutSegmentsStep(m: Dictionary, key: string, i: nat, remain: string)
    requires 1 <= i <= MAX_SEGMENTS + 1
    ensures i > MAX_SEGMENTS || remain == "" ==> PutSegments(m, key, i, remain) == m
    ensures i <= MAX_SEGMENTS && remain != "" ==>
      (var n := Min(|remain|, CHUNK);
       PutSegments(m, key, i, remain) == PutSegments(Put(m, SegmentKey(key, i), remain[..n]), key, i + 1, remain[n..]))
  {
  }

  lemma {:induction false} RemoveSegmentsStep(m: Dictionary, key: string, i: nat)
    requires 1 <= i <= MAX_SEGMENTS + 1
    ensures i > MAX_SEGMENTS || SegmentKey(key, i) !in m ==> RemoveSegments(m, key, i) == m
    ensures i <= MAX_SEGMENTS && SegmentKey(key, i) in m ==>
      RemoveSegments(m, key, i) == RemoveSegments(m - {SegmentKey(key, i)}, key, i + 1)
  {
  }

  lemma {:induction false} GetSegmentsStep(m: Dictionary, key: string, i: nat)
    requires 1 <= i <= MAX_SEGMENTS + 1
    ensures i > MAX_SEGMENTS || SegmentKey(key, i) !in m ==> GetSegments(m, key, i) == ""
    ensures i <= MAX_SEGMENTS && SegmentKey(key, i) in m ==>
      GetSegments(m, key, i) == m[SegmentKey(key, i)] + GetSegments(m, key, i + 1)
  {
  }
}
