/** Weight accounting and capacity enforcement of `MemoryCacheStore`. */
module Eviction {
  import opened Basics
  import opened CachePort

  type Records = map<CacheKey, CacheRecord>

  function Weight(key: CacheKey, record: CacheRecord): nat {
    SaturatingAdd(SaturatingAdd(|key.encoded|, 64), |record.entry.response|)
  }

  /** The exact sum of all weights, whatever order the records are visited in. */
  ghost function TotalWeight(records: Records): nat
    decreases |records|
  {
    if records == map[] then 0
    else
      var key :| key in records;
      Weight(key, records[key]) + TotalWeight(records - {key})
  }

  /** What folding the weights with a saturating addition yields. */
  ghost function WeightedSize(records: Records): nat {
    Min(TotalWeight(records), U64_MAX)
  }

  lemma {:induction false} TotalWeightRemove(records: Records, key: CacheKey)
    requires key in records
    ensures TotalWeight(records) == Weight(key, records[key]) + TotalWeight(records - {key})
    decreases |records|
  {
    var pick :| pick in records && TotalWeight(records) == Weight(pick, records[pick]) + TotalWeight(records - {pick});
    if pick != key {
      TotalWeightRemove(records - {pick}, key);
      TotalWeightRemove(records - {key}, pick);
      assert records - {pick} - {key} == records - {key} - {pick};
    }
  }

  lemma {:induction false} TotalWeightMonotone(part: Records, whole: Records)
    requires forall key | key in part :: key in whole && whole[key] == part[key]
    ensures TotalWeight(part) <= TotalWeight(whole)
    decreases |part|
  {
    if part != map[] {
      var key :| key in part;
      TotalWeightRemove(part, key);
      TotalWeightRemove(whole, key);
      TotalWeightMonotone(part - {key}, whole - {key});
    }
  }

  // ---------------------------------------------------------------- eviction order

  /** The order of byte slices: the first difference decides, and a proper prefix comes first. */
  predicate LexLess(left: Bytes, right: Bytes) {
    if right == [] then false
    else if left == [] then true
    else if left[0] != right[0] then left[0] < right[0]
    else LexLess(left[1..], right[1..])
  }

  /** Eviction order: insertion instant, then version, then encoded key. */
  predicate Before(left: CacheKey, leftRecord: CacheRecord, right: CacheKey, rightRecord: CacheRecord) {
    if leftRecord.entry.insertedAt != rightRecord.entry.insertedAt then
      leftRecord.entry.insertedAt < rightRecord.entry.insertedAt
    else if leftRecord.version != rightRecord.version then leftRecord.version < rightRecord.version
    else LexLess(left.encoded, right.encoded)
  }

  predicate Precedes(records: Records, left: CacheKey, right: CacheKey)
    requires left in records && right in records
  {
    Before(left, records[left], right, records[right])
  }

  /** Every write takes a new version, so no two records share one. */
  ghost predicate VersionsDistinct(records: Records) {
    forall left, right | left in records && right in records && left != right
      :: records[left].version != records[right].version
  }

  lemma {:induction false} LexLessOrders(a: Bytes, b: Bytes, c: Bytes)
    ensures LexLess(a, b) ==> !LexLess(b, a)
    ensures !LexLess(a, b) && !LexLess(b, c) ==> !LexLess(a, c)
  {
    if a != [] && b != [] && c != [] {
      LexLessOrders(a[1..], b[1..], c[1..]);
    } else if a != [] && b != [] {
      LexLessOrders(a[1..], b[1..], []);
    }
  }

  lemma NotPrecedesIsTransitive(records: Records, left: CacheKey, middle: CacheKey, right: CacheKey)
    requires left in records && middle in records && right in records
    requires !Precedes(records, left, middle) && !Precedes(records, middle, right)
    ensures !Precedes(records, left, right)
  {
    LexLessOrders(left.encoded, middle.encoded, right.encoded);
  }

  lemma NeverPrecedesItself(records: Records, key: CacheKey)
    requires key in records
    ensures !Precedes(records, key, key)
  {
    LexLessOrders(key.encoded, key.encoded, key.encoded);
  }

  /** A record that comes out of `min_by`: no other precedes it. */
  ghost predicate IsOldest(records: Records, key: CacheKey) {
    key in records && forall other | other in records :: !Precedes(records, other, key)
  }

  lemma {:induction false} OldestExists(records: Records)
    requires records != map[]
    ensures exists key :: IsOldest(records, key)
    decreases |records|
  {
    var key :| key in records;
    NeverPrecedesItself(records, key);
    if records - {key} == map[] {
      forall other | other in records ensures other == key {
        assert other !in records - {key};
      }
      assert IsOldest(records, key);
    } else {
      OldestExists(records - {key});
      var rest :| IsOldest(records - {key}, rest);
      var first := if Precedes(records, key, rest) then key else rest;
      forall other | other in records ensures !Precedes(records, other, first) {
        if other != key {
          assert !Precedes(records - {key}, other, rest);
          LexLessOrders(key.encoded, rest.encoded, key.encoded);
          if first == key {
            NotPrecedesIsTransitive(records, other, rest, key);
          }
        }
      }
      assert IsOldest(records, first);
    }
  }

  ghost function Oldest(records: Records): (key: CacheKey)
    requires records != map[]
    ensures IsOldest(records, key)
  {
    OldestExists(records);
    var key :| IsOldest(records, key);
    key
  }

  /** With distinct versions the order is strict and total, so the oldest record precedes all others. */
  lemma OldestPrecedesOthers(records: Records, key: CacheKey, other: CacheKey)
    requires VersionsDistinct(records) && IsOldest(records, key) && other in records && other != key
    ensures Precedes(records, key, other)
  {
    assert records[key].version != records[other].version;
  }

  /** The records left by the eviction loop. */
  ghost function Evict(records: Records, limit: nat): (kept: Records)
    ensures forall key | key in kept :: key in records && kept[key] == records[key]
    ensures WeightedSize(kept) <= limit
    decreases |records|
  {
    if WeightedSize(records) <= limit then records
    else Evict(records - {Oldest(records)}, limit)
  }

  // ---------------------------------------------------------------- the evicted records are the shortest prefix

  /** `cut` takes the records from the front of the eviction order. */
  ghost predicate IsPrefix(cut: set<CacheKey>, records: Records) {
    && cut <= records.Keys
    && forall gone, kept | gone in cut && kept in records && kept !in cut :: Precedes(records, gone, kept)
  }

  /** The prefixes whose removal brings the weight within the limit. */
  ghost predicate Suffices(cut: set<CacheKey>, records: Records, limit: nat) {
    IsPrefix(cut, records) && WeightedSize(records - cut) <= limit
  }

  /** A prefix that suffices begins with the oldest record whenever the weight is over the limit. */
  lemma SufficientPrefixHasOldest(records: Records, limit: nat, cut: set<CacheKey>)
    requires VersionsDistinct(records) && WeightedSize(records) > limit && records != map[]
    requires Suffices(cut, records, limit)
    ensures Oldest(records) in cut
    ensures Suffices(cut - {Oldest(records)}, records - {Oldest(records)}, limit)
  {
    var oldest := Oldest(records);
    assert cut == {} ==> records - cut == records;
    assert records - {oldest} - (cut - {oldest}) == records - cut;
    forall gone, kept | gone in cut - {oldest} && kept in records - {oldest} && kept !in cut - {oldest}
      ensures Precedes(records - {oldest}, gone, kept)
    {
      assert Precedes(records, gone, kept);
    }
  }

  lemma PrecedesIsAsymmetric(records: Records, left: CacheKey, right: CacheKey)
    requires VersionsDistinct(records) && left in records && right in records && left != right
    requires Precedes(records, left, right)
    ensures !Precedes(records, right, left)
  {
    assert records[left].version != records[right].version;
  }

  /** The keys the eviction loop removes. */
  ghost function Evicted(records: Records, limit: nat): set<CacheKey> {
    records.Keys - Evict(records, limit).Keys
  }

  lemma EvictedStep(records: Records, limit: nat)
    requires WeightedSize(records) > limit && records != map[]
    ensures Evicted(records, limit) == {Oldest(records)} + Evicted(records - {Oldest(records)}, limit)
  {
    assert Evict(records, limit) == Evict(records - {Oldest(records)}, limit);
  }

  lemma {:induction false} EvictedIsPrefix(records: Records, limit: nat)
    requires VersionsDistinct(records)
    ensures IsPrefix(Evicted(records, limit), records)
    decreases |records|
  {
    if WeightedSize(records) > limit {
      var oldest := Oldest(records);
      var rest := records - {oldest};
      EvictedStep(records, limit);
      EvictedIsPrefix(rest, limit);
      forall gone, left | gone in Evicted(records, limit) && left in records && left !in Evicted(records, limit)
        ensures Precedes(records, gone, left)
      {
        if gone != oldest {
          assert Precedes(rest, gone, left);
        } else {
          OldestPrecedesOthers(records, oldest, left);
        }
      }
    }
  }

  lemma {:induction false} EvictedIsShortest(records: Records, limit: nat, cut: set<CacheKey>)
    requires VersionsDistinct(records) && Suffices(cut, records, limit)
    ensures Evicted(records, limit) <= cut
    decreases |records|
  {
    if WeightedSize(records) <= limit {
      assert Evicted(records, limit) == {};
    } else {
      var oldest := Oldest(records);
      EvictedStep(records, limit);
      SufficientPrefixHasOldest(records, limit, cut);
      EvictedIsShortest(records - {oldest}, limit, cut - {oldest});
    }
  }

  /** Eviction removes exactly the shortest sufficient prefix: what it removes is a prefix that suffices, and
      every prefix that suffices contains it. */
  lemma EvictsShortestPrefix(records: Records, limit: nat)
    requires VersionsDistinct(records)
    ensures Evict(records, limit) == records - Evicted(records, limit)
    ensures Suffices(Evicted(records, limit), records, limit)
    ensures forall cut | Suffices(cut, records, limit) :: Evicted(records, limit) <= cut
  {
    EvictedIsPrefix(records, limit);
    assert Evict(records, limit) == records - Evicted(records, limit);
    forall cut | Suffices(cut, records, limit) ensures Evicted(records, limit) <= cut {
      EvictedIsShortest(records, limit, cut);
    }
  }

  /** So a record is evicted before another only if it was inserted earlier, or at the same instant with a smaller
      version. */
  lemma EarlierGoFirst(records: Records, limit: nat, gone: CacheKey, kept: CacheKey)
    requires VersionsDistinct(records) && gone in Evicted(records, limit) && kept in Evict(records, limit)
    ensures var first, second := records[gone], records[kept];
            || first.entry.insertedAt < second.entry.insertedAt
            || (first.entry.insertedAt == second.entry.insertedAt && first.version < second.version)
  {
    EvictedIsPrefix(records, limit);
    assert Precedes(records, gone, kept);
    assert records[gone].version != records[kept].version;
  }

  /** A record together with all records after it in the eviction order. */
  ghost function FromHere(records: Records, key: CacheKey): Records
    requires key in records
  {
    map other | other in records && (other == key || Precedes(records, key, other)) :: records[other]
  }

  /** A record survives eviction exactly when it and all younger records fit the limit together. */
  lemma SurvivesWhenSuffixFits(records: Records, limit: nat, key: CacheKey)
    requires VersionsDistinct(records) && key in records
    ensures key in Evict(records, limit) <==> WeightedSize(FromHere(records, key)) <= limit
  {
    var kept := Evict(records, limit);
    var suffix := FromHere(records, key);
    EvictsShortestPrefix(records, limit);
    if key in kept {
      forall other | other in suffix ensures other in kept && kept[other] == suffix[other] {
        if other !in kept {
          assert Precedes(records, other, key);
          PrecedesIsAsymmetric(records, other, key);
        }
      }
      TotalWeightMonotone(suffix, kept);
    }
    if WeightedSize(suffix) <= limit {
      var cut := records.Keys - suffix.Keys;
      assert records - cut == suffix;
      forall gone, left | gone in cut && left in records && left !in cut ensures Precedes(records, gone, left) {
        OlderThanSuffix(records, key, gone, left);
      }
      assert Suffices(cut, records, limit);
    }
  }

  lemma OlderThanSuffix(records: Records, key: CacheKey, gone: CacheKey, left: CacheKey)
    requires VersionsDistinct(records) && key in records && gone in records && left in FromHere(records, key)
    requires gone !in FromHere(records, key)
    ensures Precedes(records, gone, left)
  {
    assert records[gone].version != records[key].version;
    if left != key && left != gone {
      assert records[left].version != records[key].version;
      assert records[left].version != records[gone].version;
    }
  }
}
