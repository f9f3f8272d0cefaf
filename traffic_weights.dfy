/**
 * Reading the current weighted CNAME records of one DNS name and computing
 * the candidate weights of a traffic shift, before rounding compensation.
 * Weights are integers in units of 1/PERCENT_RESOLUTION percent.
 */
module TrafficWeights {
  import opened Wrappers

  const PERCENT_RESOLUTION: int := 2
  const FULL_PERCENTAGE: int := PERCENT_RESOLUTION * 100

  type Identifier = string
  type WeightMap = map<Identifier, int>

  /** One Route53 record set as listed for the hosted zone. */
  datatype Record = Record(rtype: string, name: string, setIdentifier: Identifier,
                           weight: Option<int>, ttl: nat, values: seq<string>)

  predicate Matches(r: Record, dnsName: string)
  {
    r.rtype == "CNAME" && r.name == dnsName
  }

  /** A falsy stored weight (None or 0) reads as 0. */
  function ReadWeight(r: Record): int
  {
    match r.weight
    case None => 0
    case Some(w) => w
  }

  predicate Distinct<T(==)>(s: seq<T>)
  {
    forall i, j | 0 <= i < j < |s| :: s[i] != s[j]
  }

  /** `keys` is the insertion order of a Python dict whose content is `m`. */
  predicate KeyOrder(keys: seq<Identifier>, m: WeightMap)
  {
    && Distinct(keys)
    && (forall k | k in keys :: k in m)
    && (forall k | k in m :: k in keys)
  }

  /** Set identifiers of the records that belong to `dnsName`. */
  function MatchingIds(rr: seq<Record>, dnsName: string): set<Identifier>
  {
    set j | 0 <= j < |rr| && Matches(rr[j], dnsName) :: rr[j].setIdentifier
  }

  /** The source assumes one record per set identifier and DNS name. */
  predicate UniqueIdentifiers(rr: seq<Record>, dnsName: string)
  {
    forall i, j | 0 <= i < j < |rr| && Matches(rr[i], dnsName) && Matches(rr[j], dnsName) ::
      rr[i].setIdentifier != rr[j].setIdentifier
  }

  predicate NonNegative(m: WeightMap)
  {
    forall k | k in m :: m[k] >= 0
  }

  /** Route53 stores weights in 0..255, so no listed record reads negative. */
  predicate StoredNonNegative(rr: seq<Record>)
  {
    forall j | 0 <= j < |rr| :: ReadWeight(rr[j]) >= 0
  }

  /** Sum of the weights of `keys`. */
  function SumOf(keys: seq<Identifier>, m: WeightMap): int
    requires forall k | k in keys :: k in m
  {
    if keys == [] then 0 else SumOf(keys[..|keys| - 1], m) + m[keys[|keys| - 1]]
  }

  /** Number of `keys` other than `target` whose weight is positive. */
  function LiveCount(keys: seq<Identifier>, m: WeightMap, target: Identifier): nat
    requires forall k | k in keys :: k in m
  {
    if keys == [] then 0
    else
      var k := keys[|keys| - 1];
      LiveCount(keys[..|keys| - 1], m, target) + (if k != target && m[k] > 0 then 1 else 0)
  }

  lemma SumOfAppend(keys: seq<Identifier>, k: Identifier, m: WeightMap)
    requires forall x | x in keys + [k] :: x in m
    ensures SumOf(keys + [k], m) == SumOf(keys, m) + m[k]
    ensures LiveCount(keys + [k], m, k) == LiveCount(keys, m, k)
  {
    assert (keys + [k])[..|keys|] == keys;
  }

  lemma LiveCountAppend(keys: seq<Identifier>, k: Identifier, m: WeightMap, target: Identifier)
    requires forall x | x in keys + [k] :: x in m
    ensures LiveCount(keys + [k], m, target)
         == LiveCount(keys, m, target) + (if k != target && m[k] > 0 then 1 else 0)
  {
    assert (keys + [k])[..|keys|] == keys;
  }

  /** Changing the weight of a key outside `keys` changes neither sum nor count. */
  lemma {:induction false} SumOfFrame(keys: seq<Identifier>, m: WeightMap, k: Identifier, v: int, target: Identifier)
    requires forall x | x in keys :: x in m
    requires k !in keys
    ensures SumOf(keys, m[k := v]) == SumOf(keys, m)
    ensures LiveCount(keys, m[k := v], target) == LiveCount(keys, m, target)
  {
    if keys != [] {
      SumOfFrame(keys[..|keys| - 1], m, k, v, target);
    }
  }

  lemma LastNotInInit(keys: seq<Identifier>)
    requires Distinct(keys) && keys != []
    ensures keys[|keys| - 1] !in keys[..|keys| - 1]
  {
    var init := keys[..|keys| - 1];
    forall i | 0 <= i < |init|
      ensures init[i] != keys[|keys| - 1]
    {
      assert init[i] == keys[i];
    }
  }

  /** Changing the weight of one listed key changes the sum by the difference. */
  lemma {:induction false} SumOfUpdate(keys: seq<Identifier>, m: WeightMap, k: Identifier, v: int)
    requires forall x | x in keys :: x in m
    requires Distinct(keys) && k in keys
    ensures SumOf(keys, m[k := v]) == SumOf(keys, m) - m[k] + v
  {
    var init := keys[..|keys| - 1];
    var last := keys[|keys| - 1];
    if last == k {
      LastNotInInit(keys);
      SumOfFrame(init, m, k, v, k);
    } else {
      assert k in init by {
        var i :| 0 <= i < |keys| && keys[i] == k;
        assert init[i] == k;
      }
      SumOfUpdate(init, m, k, v);
    }
  }

  /** When no key other than `target` carries weight, the sum is the target's weight. */
  lemma {:induction false} SumOfOnlyTarget(keys: seq<Identifier>, m: WeightMap, target: Identifier)
    requires forall x | x in keys :: x in m
    requires Distinct(keys)
    requires forall x | x in keys && x != target :: m[x] == 0
    ensures SumOf(keys, m) == if target in keys then m[target] else 0
  {
    if keys != [] {
      var init := keys[..|keys| - 1];
      SumOfOnlyTarget(init, m, target);
      if keys[|keys| - 1] == target {
        LastNotInInit(keys);
      }
    }
  }

  /** With non-negative weights, the sum is at least any one listed weight. */
  lemma {:induction false} SumOfAtLeastOne(keys: seq<Identifier>, m: WeightMap, k: Identifier)
    requires forall x | x in keys :: x in m && m[x] >= 0
    requires k in keys
    ensures SumOf(keys, m) >= m[k]
  {
    var init := keys[..|keys| - 1];
    if keys[|keys| - 1] != k {
      assert k in init by {
        var i :| 0 <= i < |keys| && keys[i] == k;
        assert init[i] == k;
      }
      SumOfAtLeastOne(init, m, k);
    } else {
      SumOfNonNegative(init, m);
    }
  }

  lemma {:induction false} SumOfNonNegative(keys: seq<Identifier>, m: WeightMap)
    requires forall x | x in keys :: x in m && m[x] >= 0
    ensures SumOf(keys, m) >= 0
  {
    if keys != [] {
      SumOfNonNegative(keys[..|keys| - 1], m);
    }
  }

  /** A positive live count names a key other than `target` with positive weight. */
  lemma {:induction false} LiveWitness(keys: seq<Identifier>, m: WeightMap, target: Identifier)
    requires forall x | x in keys :: x in m
    requires LiveCount(keys, m, target) > 0
    ensures exists k :: k in keys && k != target && m[k] > 0
  {
    var init := keys[..|keys| - 1];
    var last := keys[|keys| - 1];
    if !(last != target && m[last] > 0) {
      LiveWitness(init, m, target);
      var k :| k in init && k != target && m[k] > 0;
      assert k in keys;
    }
  }

  /** A zero live count means every key other than `target` has weight <= 0. */
  lemma {:induction false} NoLiveMeansZero(keys: seq<Identifier>, m: WeightMap, target: Identifier)
    requires forall x | x in keys :: x in m
    requires LiveCount(keys, m, target) == 0
    ensures forall k | k in keys && k != target :: m[k] <= 0
  {
    if keys != [] {
      var init := keys[..|keys| - 1];
      NoLiveMeansZero(init, m, target);
      forall k | k in keys && k != target
        ensures m[k] <= 0
      {
        if k != keys[|keys| - 1] {
          var i :| 0 <= i < |keys| && keys[i] == k;
          assert init[i] == k;
        }
      }
    }
  }

  // ---------------------------------------------------------------------------
  // get_weights

  /** Result of get_weights: the weights in dict order, and the partial count and sum. */
  datatype Snapshot = Snapshot(keys: seq<Identifier>, weights: WeightMap, partialCount: nat, partialSum: nat)

  /** Dropping the last record keeps the stored weights non-negative. */
  lemma StoredPrefix(rr: seq<Record>)
    requires rr != []
    ensures StoredNonNegative(rr) ==> StoredNonNegative(rr[..|rr| - 1]) && ReadWeight(rr[|rr| - 1]) >= 0
  {
    if StoredNonNegative(rr) {
      var init := rr[..|rr| - 1];
      forall j | 0 <= j < |init| ensures ReadWeight(init[j]) >= 0 {
        assert init[j] == rr[j];
      }
    }
  }

  /** The identifiers of a name grow by the last record's one when it matches. */
  lemma MatchingIdsSnoc(rr: seq<Record>, dnsName: string)
    requires rr != []
    ensures var r := rr[|rr| - 1];
      MatchingIds(rr, dnsName)
        == MatchingIds(rr[..|rr| - 1], dnsName) + (if Matches(r, dnsName) then {r.setIdentifier} else {})
  {
    var init := rr[..|rr| - 1];
    assert forall j | 0 <= j < |init| :: init[j] == rr[j];
  }

  /** The record loop of get_weights over `rr`, in record order. */
  function ReadRecords(dnsName: string, identifier: Identifier, rr: seq<Record>): (s: Snapshot)
    ensures KeyOrder(s.keys, s.weights)
    ensures StoredNonNegative(rr) ==> NonNegative(s.weights)
    ensures s.weights.Keys == MatchingIds(rr, dnsName)
    decreases |rr|
  {
    if rr == [] then Snapshot([], map[], 0, 0)
    else
      var s := ReadRecords(dnsName, identifier, rr[..|rr| - 1]);
      var r := rr[|rr| - 1];
      MatchingIdsSnoc(rr, dnsName);
      StoredPrefix(rr);
      if !Matches(r, dnsName) then
        s
      else
        var w := ReadWeight(r);
        var live := r.setIdentifier != identifier && w > 0;
        Snapshot(if r.setIdentifier in s.weights then s.keys else s.keys + [r.setIdentifier],
                 s.weights[r.setIdentifier := w],
                 if live then s.partialCount + 1 else s.partialCount,
                 if live then s.partialSum + w else s.partialSum)
  }

  /** Each record's weight is read under its set identifier. */
  lemma {:induction false} ReadRecordsWeights(dnsName: string, identifier: Identifier, rr: seq<Record>)
    requires UniqueIdentifiers(rr, dnsName)
    ensures forall j | 0 <= j < |rr| && Matches(rr[j], dnsName) ::
      ReadRecords(dnsName, identifier, rr).weights[rr[j].setIdentifier] == ReadWeight(rr[j])
  {
    if rr != [] {
      var init := rr[..|rr| - 1];
      var r := rr[|rr| - 1];
      assert UniqueIdentifiers(init, dnsName) by {
        forall i, j | 0 <= i < j < |init| && Matches(init[i], dnsName) && Matches(init[j], dnsName)
          ensures init[i].setIdentifier != init[j].setIdentifier
        {
          assert rr[i] == init[i] && rr[j] == init[j];
        }
      }
      ReadRecordsWeights(dnsName, identifier, init);
      forall j | 0 <= j < |rr| && Matches(rr[j], dnsName)
        ensures ReadRecords(dnsName, identifier, rr).weights[rr[j].setIdentifier] == ReadWeight(rr[j])
      {
        if j < |rr| - 1 {
          assert rr[j] == init[j];
          if Matches(r, dnsName) {
            assert rr[j].setIdentifier != r.setIdentifier;
          }
        }
      }
    }
  }

  /** The partial count and sum are the live count and the weight of everyone but the target. */
  lemma {:induction false} ReadRecordsPartial(dnsName: string, identifier: Identifier, rr: seq<Record>)
    requires UniqueIdentifiers(rr, dnsName) && StoredNonNegative(rr)
    ensures var s := ReadRecords(dnsName, identifier, rr);
      && s.partialCount == LiveCount(s.keys, s.weights, identifier)
      && s.partialSum == SumOf(s.keys, s.weights) - (if identifier in s.weights then s.weights[identifier] else 0)
  {
    if rr != [] {
      var init := rr[..|rr| - 1];
      var r := rr[|rr| - 1];
      assert UniqueIdentifiers(init, dnsName) by {
        forall i, j | 0 <= i < j < |init| && Matches(init[i], dnsName) && Matches(init[j], dnsName)
          ensures init[i].setIdentifier != init[j].setIdentifier
        {
          assert rr[i] == init[i] && rr[j] == init[j];
        }
      }
      assert StoredNonNegative(init) by {
        forall j | 0 <= j < |init| ensures ReadWeight(init[j]) >= 0 {
          assert init[j] == rr[j];
        }
      }
      ReadRecordsPartial(dnsName, identifier, init);
      var s0 := ReadRecords(dnsName, identifier, init);
      if Matches(r, dnsName) {
        var k := r.setIdentifier;
        forall i | 0 <= i < |init| && Matches(init[i], dnsName)
          ensures init[i].setIdentifier != k
        {
          assert rr[i] == init[i];
        }
        assert k !in s0.weights;
        var m := s0.weights[k := ReadWeight(r)];
        SumOfFrame(s0.keys, s0.weights, k, ReadWeight(r), identifier);
        SumOfAppend(s0.keys, k, m);
        LiveCountAppend(s0.keys, k, m, identifier);
      }
    }
  }

  /** The defaulting assignment `if k not in weights: weights[k] = 0`. */
  function SetDefault(s: Snapshot, k: Identifier): (r: Snapshot)
    requires KeyOrder(s.keys, s.weights)
    ensures KeyOrder(r.keys, r.weights)
    ensures r.weights.Keys == s.weights.Keys + {k}
  {
    if k in s.weights then s
    else Snapshot(s.keys + [k], s.weights[k := 0], s.partialCount, s.partialSum)
  }

  /** Adding zero weights for unseen identifiers keeps the sum and live count. */
  lemma SetDefaultKeeps(s: Snapshot, k: Identifier, target: Identifier)
    requires KeyOrder(s.keys, s.weights)
    ensures var r := SetDefault(s, k);
      && SumOf(r.keys, r.weights) == SumOf(s.keys, s.weights)
      && LiveCount(r.keys, r.weights, target) == LiveCount(s.keys, s.weights, target)
      && forall x | x in s.weights :: r.weights[x] == s.weights[x]
  {
    if k !in s.weights {
      SumOfFrame(s.keys, s.weights, k, 0, target);
      SumOfAppend(s.keys, k, s.weights[k := 0]);
      LiveCountAppend(s.keys, k, s.weights[k := 0], target);
    }
  }

  /** The loop `for ident in all_identifiers` of get_weights. */
  function SetDefaults(s: Snapshot, ids: seq<Identifier>): (r: Snapshot)
    requires KeyOrder(s.keys, s.weights)
    ensures KeyOrder(r.keys, r.weights)
    ensures r.weights.Keys == s.weights.Keys + set i | i in ids
    decreases |ids|
  {
    if ids == [] then s else SetDefaults(SetDefault(s, ids[0]), ids[1..])
  }

  lemma {:induction false} SetDefaultsKeeps(s: Snapshot, ids: seq<Identifier>, target: Identifier)
    requires KeyOrder(s.keys, s.weights)
    ensures var r := SetDefaults(s, ids);
      && SumOf(r.keys, r.weights) == SumOf(s.keys, s.weights)
      && LiveCount(r.keys, r.weights, target) == LiveCount(s.keys, s.weights, target)
    decreases |ids|
  {
    if ids != [] {
      var s1 := SetDefault(s, ids[0]);
      assert SetDefaults(s, ids) == SetDefaults(s1, ids[1..]);
      assert SumOf(s1.keys, s1.weights) == SumOf(s.keys, s.weights)
          && LiveCount(s1.keys, s1.weights, target) == LiveCount(s.keys, s.weights, target) by {
        SetDefaultKeeps(s, ids[0], target);
      }
      SetDefaultsKeeps(s1, ids[1..], target);
    }
  }

  lemma {:induction false} SetDefaultsValues(s: Snapshot, ids: seq<Identifier>)
    requires KeyOrder(s.keys, s.weights)
    ensures var r := SetDefaults(s, ids);
      && (forall x | x in s.weights :: r.weights[x] == s.weights[x])
      && (forall x | x in r.weights && x !in s.weights :: r.weights[x] == 0)
      && r.partialCount == s.partialCount && r.partialSum == s.partialSum
    decreases |ids|
  {
    if ids != [] {
      var s1 := SetDefault(s, ids[0]);
      SetDefaultsValues(s1, ids[1..]);
    }
  }

  /** Identifiers that already have a weight are left alone. */
  lemma {:induction false} SetDefaultsPresent(s: Snapshot, ids: seq<Identifier>)
    requires KeyOrder(s.keys, s.weights)
    requires forall i | i in ids :: i in s.weights
    ensures SetDefaults(s, ids) == s
    decreases |ids|
  {
    if ids != [] {
      assert ids[0] in ids;
      SetDefaultsPresent(s, ids[1..]);
    }
  }

  /**
   * get_weights: the weights of the records of `dnsName`, completed with 0
   * for the target and every known identifier, plus the count and sum of
   * the other identifiers that currently receive traffic.
   */
  function GetWeights(dnsName: string, identifier: Identifier, rr: seq<Record>,
                      allIdentifiers: seq<Identifier>): (s: Snapshot)
    ensures KeyOrder(s.keys, s.weights)
    ensures StoredNonNegative(rr) ==> NonNegative(s.weights)
    ensures s.weights.Keys == MatchingIds(rr, dnsName) + {identifier} + (set i | i in allIdentifiers)
  {
    var s1 := SetDefault(ReadRecords(dnsName, identifier, rr), identifier);
    SetDefaultsValues(s1, allIdentifiers);
    SetDefaults(s1, allIdentifiers)
  }

  /** Matching records keep their stored weight; every added identifier reads 0. */
  lemma GetWeightsValues(dnsName: string, identifier: Identifier, rr: seq<Record>, allIdentifiers: seq<Identifier>)
    requires UniqueIdentifiers(rr, dnsName)
    ensures var s := GetWeights(dnsName, identifier, rr, allIdentifiers);
      && (forall j | 0 <= j < |rr| && Matches(rr[j], dnsName) :: s.weights[rr[j].setIdentifier] == ReadWeight(rr[j]))
      && (forall k | k in s.weights && k !in MatchingIds(rr, dnsName) :: s.weights[k] == 0)
  {
    var s0 := ReadRecords(dnsName, identifier, rr);
    var s1 := SetDefault(s0, identifier);
    var s := GetWeights(dnsName, identifier, rr, allIdentifiers);
    assert s == SetDefaults(s1, allIdentifiers);
    assert forall x | x in s0.weights :: s1.weights[x] == s0.weights[x];
    assert forall x | x in s1.weights && x !in s0.weights :: s1.weights[x] == 0;
    assert (forall x | x in s1.weights :: s.weights[x] == s1.weights[x])
        && (forall x | x in s.weights && x !in s1.weights :: s.weights[x] == 0) by {
      SetDefaultsValues(s1, allIdentifiers);
    }
    assert forall j | 0 <= j < |rr| && Matches(rr[j], dnsName) :: s0.weights[rr[j].setIdentifier] == ReadWeight(rr[j]) by {
      ReadRecordsWeights(dnsName, identifier, rr);
    }
    forall j | 0 <= j < |rr| && Matches(rr[j], dnsName)
      ensures s.weights[rr[j].setIdentifier] == ReadWeight(rr[j])
    {
      assert rr[j].setIdentifier in s0.weights;
    }
  }

  /**
   * The partial count is the number of other identifiers with positive
   * weight, and the partial sum is the weight of everyone but the target.
   */
  lemma GetWeightsPartial(dnsName: string, identifier: Identifier, rr: seq<Record>, allIdentifiers: seq<Identifier>)
    requires UniqueIdentifiers(rr, dnsName) && StoredNonNegative(rr)
    ensures var s := GetWeights(dnsName, identifier, rr, allIdentifiers);
      && s.partialCount == LiveCount(s.keys, s.weights, identifier)
      && s.partialSum == SumOf(s.keys, s.weights) - s.weights[identifier]
  {
    var s0 := ReadRecords(dnsName, identifier, rr);
    var s1 := SetDefault(s0, identifier);
    ReadRecordsPartial(dnsName, identifier, rr);
    SetDefaultKeeps(s0, identifier, identifier);
    SetDefaultsKeeps(s1, allIdentifiers, identifier);
    SetDefaultsValues(s1, allIdentifiers);
  }

  // ---------------------------------------------------------------------------
  // calculate_new_weights

  /** Python's `int(a / b)` for a positive divisor: the quotient truncated toward zero. */
  function TruncDiv(a: int, b: int): (q: int)
    requires b > 0
    ensures a >= 0 ==> 0 <= q * b <= a < q * b + b
    ensures a < 0 ==> q * b - b < a <= q * b <= 0
  {
    if a >= 0 then
      DivBounds(a, b);
      a / b
    else
      var q := (-a) / b;
      DivBounds(-a, b);
      assert (-q) * b == -(q * b);
      -q
  }

  /** Euclidean division of a natural number: the quotient times the divisor is within one divisor below it. */
  lemma DivBounds(a: nat, b: int)
    requires b > 0
    ensures 0 <= (a / b) * b <= a < (a / b) * b + b
  {
    var q, r := a / b, a % b;
    assert a == q * b + r && 0 <= r < b;
    assert q >= 0;
    assert q * b >= 0 by { MulAtLeast(q, b); }
  }

  lemma MulAtLeast(q: int, b: int)
    requires q >= 0 && b >= 1
    ensures q * b >= q
  {
    assert q * b == q * (b - 1) + q;
  }

  datatype Allocation = Allocation(weights: WeightMap, deltas: WeightMap)

  /** New weight of one identifier whose old weight is `w`. */
  function AllocatedWeight(i: Identifier, w: int, delta: int, identifier: Identifier, percentage: int): int
  {
    if i == identifier then percentage
    else if percentage == FULL_PERCENTAGE then 0
    else if w > 0 then (if w + delta > 1 then w + delta else 1)
    else 0
  }

  /**
   * calculate_new_weights: the target gets `percentage`; every other live
   * version absorbs `delta` without dropping below 1, unless the target takes
   * everything; versions without traffic stay at 0.
   */
  function CalculateNewWeights(delta: int, identifier: Identifier, weights: WeightMap, percentage: int): (a: Allocation)
    ensures a.weights.Keys == weights.Keys && a.deltas.Keys == weights.Keys
    ensures identifier in weights ==> a.weights[identifier] == percentage
    ensures forall i | i in weights && i != identifier && percentage == FULL_PERCENTAGE :: a.weights[i] == 0
    ensures forall i | i in weights && i != identifier && weights[i] <= 0 :: a.weights[i] == 0
    ensures forall i | i in weights && i != identifier && weights[i] > 0 && percentage != FULL_PERCENTAGE ::
      a.weights[i] >= 1 && a.weights[i] >= weights[i] + delta && (a.weights[i] == weights[i] + delta || a.weights[i] == 1)
    ensures forall i | i in weights :: a.deltas[i] == a.weights[i] - weights[i]
  {
    var nw := map i | i in weights :: AllocatedWeight(i, weights[i], delta, identifier, percentage);
    Allocation(nw, map i | i in weights :: nw[i] - weights[i])
  }

  /**
   * When no live version hits the floor, the allocation misses FULL_PERCENTAGE
   * only by the truncation remainder of the even split: less than one unit per
   * live version.
   */
  lemma {:induction false} AllocationRoundingError(keys: seq<Identifier>, weights: WeightMap, identifier: Identifier,
                                                   percentage: int, partialCount: nat, partialSum: int)
    requires KeyOrder(keys, weights) && NonNegative(weights) && identifier in weights
    requires partialCount == LiveCount(keys, weights, identifier) > 0
    requires partialSum == SumOf(keys, weights) - weights[identifier]
    requires percentage != FULL_PERCENTAGE
    requires var delta := TruncDiv(FULL_PERCENTAGE - percentage - partialSum, partialCount);
      forall i | i in weights && i != identifier && weights[i] > 0 :: weights[i] + delta >= 1
    ensures var delta := TruncDiv(FULL_PERCENTAGE - percentage - partialSum, partialCount);
      var error := FULL_PERCENTAGE - SumOf(keys, CalculateNewWeights(delta, identifier, weights, percentage).weights);
      -(partialCount as int) < error < partialCount
  {
    var delta := TruncDiv(FULL_PERCENTAGE - percentage - partialSum, partialCount);
    var nw := CalculateNewWeights(delta, identifier, weights, percentage).weights;
    ShiftedSum(keys, weights, nw, identifier, delta);
  }

  lemma MulSucc(d: int, n: int)
    ensures d * (n + 1) == d * n + d
  {
  }

  /** Sum after shifting every live non-target weight by `delta` and setting the target. */
  lemma {:induction false} ShiftedSum(keys: seq<Identifier>, weights: WeightMap, nw: WeightMap, identifier: Identifier, delta: int)
    requires forall x | x in keys :: x in weights && x in nw && weights[x] >= 0
    requires Distinct(keys)
    requires forall i | i in keys && i != identifier && weights[i] > 0 :: nw[i] == weights[i] + delta
    requires forall i | i in keys && i != identifier && weights[i] == 0 :: nw[i] == 0
    ensures SumOf(keys, nw) - (if identifier in keys then nw[identifier] else 0)
         == SumOf(keys, weights) - (if identifier in keys then weights[identifier] else 0)
            + delta * LiveCount(keys, weights, identifier)
  {
    if keys != [] {
      var init := keys[..|keys| - 1];
      var last := keys[|keys| - 1];
      ShiftedSum(init, weights, nw, identifier, delta);
      var n := LiveCount(init, weights, identifier);
      if last == identifier {
        LastNotInInit(keys);
      } else if weights[last] > 0 {
        MulSucc(delta, n);
      }
    }
  }
}
