/**
 * Rounding compensation: after the even split, the remaining error is
 * pushed onto the other versions, newest version label first, one fixed
 * step per version; what cannot be placed shifts the target itself.
 */
module TrafficCompensate {
  import opened LexOrder
  import opened TrafficWeights

  type VersionMap = map<Identifier, string>

  // ---------------------------------------------------------------------------
  // sorted(keys, key=identifier_versions, reverse=True)

  /** Every element comes no later than any element with a greater label. */
  predicate Descending(s: seq<Identifier>, versions: VersionMap)
    requires forall k | k in s :: k in versions
  {
    forall i, j | 0 <= i < j < |s| :: LexAtLeast(versions[s[i]], versions[s[j]])
  }

  /** Inserts `x` before the first element whose label is not above its own. */
  function InsertByVersion(x: Identifier, s: seq<Identifier>, versions: VersionMap): (r: seq<Identifier>)
    requires x in versions && forall k | k in s :: k in versions
    ensures |r| == |s| + 1
    ensures forall k | k in r :: k in versions
  {
    if s == [] then [x]
    else if LexLess(versions[x], versions[s[0]]) then
      [s[0]] + InsertByVersion(x, s[1..], versions)
    else [x] + s
  }

  /** Insertion adds `x` and keeps every element of `s`. */
  lemma {:induction false} InsertByVersionPermutes(x: Identifier, s: seq<Identifier>, versions: VersionMap)
    requires x in versions && forall k | k in s :: k in versions
    ensures multiset(InsertByVersion(x, s, versions)) == multiset(s) + multiset{x}
  {
    if s != [] {
      assert s == [s[0]] + s[1..];
      if LexLess(versions[x], versions[s[0]]) {
        InsertByVersionPermutes(x, s[1..], versions);
      }
    }
  }

  /** Dropping the first element keeps a sequence descending. */
  lemma DescendingRest(s: seq<Identifier>, versions: VersionMap)
    requires s != [] && forall k | k in s :: k in versions
    requires Descending(s, versions)
    ensures forall k | k in s[1..] :: k in versions
    ensures Descending(s[1..], versions)
  {
    var t := s[1..];
    forall i, j | 0 <= i < j < |t| ensures LexAtLeast(versions[t[i]], versions[t[j]]) {
      assert t[i] == s[i + 1] && t[j] == s[j + 1];
    }
  }

  /** An element whose label is at least every label of a descending sequence may go in front of it. */
  lemma ConsDescending(h: Identifier, t: seq<Identifier>, versions: VersionMap)
    requires h in versions && forall k | k in t :: k in versions
    requires Descending(t, versions)
    requires forall j | 0 <= j < |t| :: LexAtLeast(versions[h], versions[t[j]])
    ensures Descending([h] + t, versions)
  {
    var r := [h] + t;
    forall i, j | 0 <= i < j < |r| ensures LexAtLeast(versions[r[i]], versions[r[j]]) {
      assert r[j] == t[j - 1];
      if i > 0 {
        assert r[i] == t[i - 1];
      }
    }
  }

  lemma {:induction false} InsertByVersionDescending(x: Identifier, s: seq<Identifier>, versions: VersionMap)
    requires x in versions && forall k | k in s :: k in versions
    requires Descending(s, versions)
    ensures Descending(InsertByVersion(x, s, versions), versions)
  {
    if s != [] {
      if LexLess(versions[x], versions[s[0]]) {
        var t := s[1..];
        DescendingRest(s, versions);
        InsertByVersionDescending(x, t, versions);
        var rest := InsertByVersion(x, t, versions);
        InsertByVersionPermutes(x, t, versions);
        forall j | 0 <= j < |rest|
          ensures LexAtLeast(versions[s[0]], versions[rest[j]])
        {
          assert rest[j] in multiset(rest);
          if rest[j] == x {
            LexAsymmetric(versions[x], versions[s[0]]);
          } else {
            assert rest[j] in multiset(t);
            var m :| 0 <= m < |t| && t[m] == rest[j];
            assert s[m + 1] == rest[j];
          }
        }
        ConsDescending(s[0], rest, versions);
      } else {
        forall j | 0 <= j < |s| ensures LexAtLeast(versions[x], versions[s[j]]) {
          if j > 0 {
            LexAtLeastTransitive(versions[x], versions[s[0]], versions[s[j]]);
          }
        }
        ConsDescending(x, s, versions);
      }
    }
  }

  /**
   * The candidate order of compensate: the identifiers sorted by version
   * label, greatest first (an insertion sort; Python's sort is stable, and
   * equal labels keep their dict order here too).
   */
  function ByVersionDescending(keys: seq<Identifier>, versions: VersionMap): (r: seq<Identifier>)
    requires forall k | k in keys :: k in versions
    ensures |r| == |keys|
    ensures forall k | k in r :: k in versions
  {
    if keys == [] then []
    else InsertByVersion(keys[0], ByVersionDescending(keys[1..], versions), versions)
  }

  /** The candidate order holds the keys, each as often as they do. */
  lemma {:induction false} ByVersionDescendingPermutes(keys: seq<Identifier>, versions: VersionMap)
    requires forall k | k in keys :: k in versions
    ensures multiset(ByVersionDescending(keys, versions)) == multiset(keys)
  {
    if keys != [] {
      assert keys == [keys[0]] + keys[1..];
      ByVersionDescendingPermutes(keys[1..], versions);
      InsertByVersionPermutes(keys[0], ByVersionDescending(keys[1..], versions), versions);
    }
  }

  /** The candidate order is sorted newest version first. */
  lemma {:induction false} ByVersionDescendingSorted(keys: seq<Identifier>, versions: VersionMap)
    requires forall k | k in keys :: k in versions
    ensures Descending(ByVersionDescending(keys, versions), versions)
  {
    if keys != [] {
      ByVersionDescendingSorted(keys[1..], versions);
      InsertByVersionDescending(keys[0], ByVersionDescending(keys[1..], versions), versions);
    }
  }

  /** A sequence without repetitions stays so under permutation. */
  lemma PermutationDistinct(a: seq<Identifier>, b: seq<Identifier>)
    requires Distinct(a) && multiset(a) == multiset(b)
    ensures Distinct(b)
  {
    forall i, j | 0 <= i < j < |b|
      ensures b[i] != b[j]
    {
      if b[i] == b[j] {
        assert multiset(b)[b[i]] >= 2 by {
          var rest := b[..i] + b[i + 1..];
          assert b == b[..i] + [b[i]] + b[i + 1..];
          assert b[j] in rest by { assert rest[j - 1] == b[j]; }
        }
        DistinctCount(a, b[i]);
        assert false;
      }
    }
  }

  lemma {:induction false} DistinctCount(a: seq<Identifier>, x: Identifier)
    requires Distinct(a)
    ensures multiset(a)[x] <= 1
  {
    if a != [] {
      assert a == [a[0]] + a[1..];
      assert Distinct(a[1..]) by {
        forall i, j | 0 <= i < j < |a[1..]|
          ensures a[1..][i] != a[1..][j]
        {
          assert a[1..][i] == a[i + 1] && a[1..][j] == a[j + 1];
        }
      }
      DistinctCount(a[1..], x);
      if x == a[0] {
        forall i | 0 <= i < |a[1..]|
          ensures a[1..][i] != x
        {
          assert a[1..][i] == a[i + 1];
        }
        assert x !in a[1..];
      }
    }
  }

  /** Labels are pairwise distinct on `keys` (one stack version per label). */
  predicate DistinctLabels(keys: seq<Identifier>, versions: VersionMap)
    requires forall k | k in keys :: k in versions
  {
    forall i, j | 0 <= i < |keys| && 0 <= j < |keys| && keys[i] != keys[j] :: versions[keys[i]] != versions[keys[j]]
  }

  lemma DescendingTail(a: seq<Identifier>, versions: VersionMap)
    requires a != [] && forall k | k in a :: k in versions
    requires Descending(a, versions) && DistinctLabels(a, versions)
    ensures forall k | k in a[1..] :: k in versions
    ensures Descending(a[1..], versions) && DistinctLabels(a[1..], versions)
  {
    var t := a[1..];
    DescendingRest(a, versions);
    forall i, j | 0 <= i < |t| && 0 <= j < |t| && t[i] != t[j]
      ensures versions[t[i]] != versions[t[j]]
    {
      assert t[i] == a[i + 1] && t[j] == a[j + 1];
    }
  }

  lemma MultisetTail(a: seq<Identifier>)
    requires a != []
    ensures multiset(a[1..]) == multiset(a) - multiset{a[0]}
  {
    assert a == [a[0]] + a[1..];
  }

  /** Two descending arrangements of the same identifiers start alike. */
  lemma DescendingHead(a: seq<Identifier>, b: seq<Identifier>, versions: VersionMap)
    requires a != [] && b != []
    requires forall k | k in a :: k in versions
    requires forall k | k in b :: k in versions
    requires multiset(a) == multiset(b)
    requires DistinctLabels(a, versions)
    requires Descending(a, versions) && Descending(b, versions)
    ensures a[0] == b[0]
  {
    assert a[0] in multiset(b) && b[0] in multiset(a);
    var p :| 0 <= p < |b| && b[p] == a[0];
    var q :| 0 <= q < |a| && a[q] == b[0];
    if a[0] != b[0] {
      assert LexAtLeast(versions[b[0]], versions[b[p]]);
      assert LexAtLeast(versions[a[0]], versions[a[q]]);
      assert versions[a[0]] != versions[a[q]];
      LexTrichotomy(versions[a[0]], versions[b[0]]);
    }
  }

  /**
   * With distinct labels there is only one descending arrangement of a set
   * of identifiers, so the candidate order does not depend on the order in
   * which the weights were collected.
   */
  lemma {:induction false} DescendingUnique(a: seq<Identifier>, b: seq<Identifier>, versions: VersionMap)
    requires forall k | k in a :: k in versions
    requires forall k | k in b :: k in versions
    requires multiset(a) == multiset(b)
    requires DistinctLabels(a, versions)
    requires Descending(a, versions) && Descending(b, versions)
    ensures a == b
    decreases |a|
  {
    assert |a| == |multiset(a)| == |multiset(b)| == |b|;
    if a != [] {
      DescendingHead(a, b, versions);
      MultisetTail(a);
      MultisetTail(b);
      DescendingTail(a, versions);
      DescendingRest(b, versions);
      DescendingUnique(a[1..], b[1..], versions);
      assert a == [a[0]] + a[1..] && b == [b[0]] + b[1..];
    }
  }

  /** The candidate order is determined by the set of identifiers alone. */
  lemma CandidateOrderDeterministic(k1: seq<Identifier>, k2: seq<Identifier>, versions: VersionMap)
    requires forall k | k in k1 :: k in versions
    requires multiset(k1) == multiset(k2)
    requires DistinctLabels(k1, versions)
    ensures (forall k | k in k2 :: k in versions) &&
            ByVersionDescending(k1, versions) == ByVersionDescending(k2, versions)
  {
    forall k | k in k2 ensures k in versions {
      assert k in multiset(k2);
    }
    var a, b := ByVersionDescending(k1, versions), ByVersionDescending(k2, versions);
    ByVersionDescendingSorted(k1, versions);
    ByVersionDescendingSorted(k2, versions);
    ByVersionDescendingPermutes(k1, versions);
    ByVersionDescendingPermutes(k2, versions);
    assert DistinctLabels(a, versions) by {
      forall i, j | 0 <= i < |a| && 0 <= j < |a| && a[i] != a[j]
        ensures versions[a[i]] != versions[a[j]]
      {
        assert a[i] in multiset(k1) && a[j] in multiset(k1);
        var p :| 0 <= p < |k1| && k1[p] == a[i];
        var q :| 0 <= q < |k1| && k1[q] == a[j];
      }
    }
    DescendingUnique(a, b, versions);
  }

  // ---------------------------------------------------------------------------
  // compensate

  /**
   * The step added to each candidate: the error divided evenly and
   * truncated, but at least one unit, with the error's sign.
   */
  function CompensationStep(error: int, partialCount: int): (part: int)
    requires partialCount > 0
    ensures part != 0
    ensures error > 0 ==> 1 <= part <= error && (part == 1 || part * partialCount <= error)
    ensures error < 0 ==> error <= part <= -1 && (part == -1 || error <= part * partialCount)
    ensures error == 0 ==> part == -1
  {
    var q := TruncDiv(error, partialCount);
    if error > 0 then
      if q > 1 then
        MulAtLeast(q, partialCount);
        q
      else 1
    else
      if q < -1 then
        MulAtLeast(-q, partialCount);
        assert (-q) * partialCount == -(q * partialCount);
        q
      else -1
  }

  /** Weights, compensations and the error still to place, as the loop carries them. */
  datatype PassState = PassState(weights: WeightMap, compensations: WeightMap, error: int)

  /**
   * The single pass of compensate over `cands`: the target and candidates
   * that would drop to 0 or below are skipped; every other candidate takes
   * `part`; the pass stops as soon as the error reaches 0.
   */
  function CompensationPass(cands: seq<Identifier>, identifier: Identifier, part: int, st: PassState): (r: PassState)
    requires forall c | c in cands :: c in st.weights
    ensures forall k :: k in r.weights <==> k in st.weights
    decreases |cands|
  {
    if cands == [] then st
    else
      var i := cands[0];
      if i == identifier || st.weights[i] + part <= 0 then
        CompensationPass(cands[1..], identifier, part, st)
      else
        var next := PassState(st.weights[i := st.weights[i] + part], st.compensations[i := part], st.error - part);
        if next.error == 0 then next else CompensationPass(cands[1..], identifier, part, next)
  }

  /** What compensate leaves behind: weights, compensations and the percentage it settled on. */
  datatype Compensation = Compensation(weights: WeightMap, compensations: WeightMap, percentage: int, adjusted: bool)

  /** compensate as a function of its inputs: the pass, then the fallback onto the target. */
  function Compensated(error: int, compensations: WeightMap, identifier: Identifier, keys: seq<Identifier>,
                       weights: WeightMap, partialCount: int, percentage: int, versions: VersionMap): Compensation
    requires partialCount > 0
    requires KeyOrder(keys, weights)
    requires forall k | k in keys :: k in versions
  {
    var part := CompensationStep(error, partialCount);
    var order := ByVersionDescending(keys, versions);
    OrderCovers(keys, weights, versions);
    Fallback(CompensationPass(order, identifier, part, PassState(weights, compensations, error)), identifier, percentage)
  }

  /** After the pass: an error left over is put on the target, which changes the percentage. */
  function Fallback(st: PassState, identifier: Identifier, percentage: int): Compensation
  {
    if st.error != 0 then
      Compensation(st.weights[identifier := percentage + st.error], st.compensations[identifier := st.error],
                   percentage + st.error, true)
    else
      Compensation(st.weights, st.compensations, percentage, false)
  }

  /** The fallback moves the remaining error into the weights, all of it onto the target. */
  lemma FallbackConserves(st: PassState, keys: seq<Identifier>, identifier: Identifier, percentage: int)
    requires KeyOrder(keys, st.weights) && identifier in st.weights && st.weights[identifier] == percentage
    ensures var c := Fallback(st, identifier, percentage);
      && c.weights.Keys == st.weights.Keys
      && SumOf(keys, c.weights) == SumOf(keys, st.weights) + st.error
      && c.weights[identifier] == c.percentage
      && (c.adjusted ==> identifier in c.compensations && c.compensations[identifier] == c.percentage - percentage != 0)
      && (!c.adjusted ==> c.percentage == percentage)
  {
    if st.error != 0 {
      SumOfUpdate(keys, st.weights, identifier, percentage + st.error);
    }
  }

  /** Every candidate of the newest-first order is one of the weighted identifiers. */
  lemma OrderCovers(keys: seq<Identifier>, weights: WeightMap, versions: VersionMap)
    requires KeyOrder(keys, weights)
    requires forall k | k in keys :: k in versions
    ensures forall k | k in ByVersionDescending(keys, versions) :: k in weights
  {
    var order := ByVersionDescending(keys, versions);
    ByVersionDescendingPermutes(keys, versions);
    forall k | k in order ensures k in weights {
      assert k in multiset(order);
    }
  }

  /** A skipped candidate leaves the state as it is. */
  lemma PassSkip(cands: seq<Identifier>, identifier: Identifier, part: int, st: PassState)
    requires cands != [] && forall c | c in cands :: c in st.weights
    requires cands[0] == identifier || st.weights[cands[0]] + part <= 0
    ensures CompensationPass(cands, identifier, part, st) == CompensationPass(cands[1..], identifier, part, st)
  {
  }

  /** A candidate that takes `part` stops the pass when the error reaches 0. */
  lemma PassTake(cands: seq<Identifier>, identifier: Identifier, part: int, st: PassState)
    requires cands != [] && forall c | c in cands :: c in st.weights
    requires cands[0] != identifier && st.weights[cands[0]] + part > 0
    ensures var i := cands[0];
      var next := PassState(st.weights[i := st.weights[i] + part], st.compensations[i := part], st.error - part);
      CompensationPass(cands, identifier, part, st)
      == if next.error == 0 then next else CompensationPass(cands[1..], identifier, part, next)
  {
  }

  /** The loop of compensate over the candidate order. */
  method RunPass(order: seq<Identifier>, identifier: Identifier, part: int, st: PassState)
    returns (w: WeightMap, comp: WeightMap, err: int)
    requires forall c | c in order :: c in st.weights
    ensures PassState(w, comp, err) == CompensationPass(order, identifier, part, st)
  {
    w, comp, err := st.weights, st.compensations, st.error;
    ghost var goal := CompensationPass(order, identifier, part, st);
    var rest := order;
    while rest != []
      invariant forall c | c in rest :: c in w
      invariant CompensationPass(rest, identifier, part, PassState(w, comp, err)) == goal
      decreases |rest|
    {
      var i := rest[0];
      ghost var cur := PassState(w, comp, err);
      if i != identifier && w[i] + part > 0 {
        PassTake(rest, identifier, part, cur);
        w := w[i := w[i] + part];
        err := err - part;
        comp := comp[i := part];
        if err == 0 {
          return;
        }
        assert CompensationPass(rest[1..], identifier, part, PassState(w, comp, err)) == goal;
      } else {
        PassSkip(rest, identifier, part, cur);
      }
      rest := rest[1..];
    }
  }

  /**
   * compensate: places the rounding error `error` and returns the possibly
   * adjusted target percentage, with the updated weights and compensations
   * (the dictionaries the source updates in place).
   */
  method Compensate(error: int, compensations: WeightMap, identifier: Identifier, keys: seq<Identifier>,
                    weights: WeightMap, partialCount: int, percentage: int, versions: VersionMap)
    returns (newWeights: WeightMap, newCompensations: WeightMap, newPercentage: int, adjusted: bool)
    requires partialCount > 0
    requires KeyOrder(keys, weights) && identifier in weights
    requires forall k | k in keys :: k in versions
    ensures Compensation(newWeights, newCompensations, newPercentage, adjusted)
         == Compensated(error, compensations, identifier, keys, weights, partialCount, percentage, versions)
  {
    var part := CompensationStep(error, partialCount);
    var order := ByVersionDescending(keys, versions);
    OrderCovers(keys, weights, versions);
    var w, comp, err := RunPass(order, identifier, part, PassState(weights, compensations, error));
    assert Compensated(error, compensations, identifier, keys, weights, partialCount, percentage, versions)
        == Fallback(PassState(w, comp, err), identifier, percentage);
    if err != 0 {
      newPercentage := percentage + err;
      newCompensations := comp[identifier := err];
      newWeights := w[identifier := newPercentage];
      adjusted := true;
    } else {
      newPercentage := percentage;
      newCompensations := comp;
      newWeights := w;
      adjusted := false;
    }
  }

  // ---------------------------------------------------------------------------
  // Properties of the pass and of compensate

  /** The loop invariant of the source: weight sum plus remaining error is constant. */
  lemma {:induction false} PassConserves(cands: seq<Identifier>, keys: seq<Identifier>, identifier: Identifier,
                                         part: int, st: PassState)
    requires KeyOrder(keys, st.weights)
    requires forall c | c in cands :: c in st.weights
    ensures var r := CompensationPass(cands, identifier, part, st);
      SumOf(keys, r.weights) + r.error == SumOf(keys, st.weights) + st.error
    decreases |cands|
  {
    if cands != [] {
      var i := cands[0];
      if i == identifier || st.weights[i] + part <= 0 {
        PassConserves(cands[1..], keys, identifier, part, st);
      } else {
        var next := PassState(st.weights[i := st.weights[i] + part], st.compensations[i := part], st.error - part);
        SumOfUpdate(keys, st.weights, i, st.weights[i] + part);
        if next.error != 0 {
          PassConserves(cands[1..], keys, identifier, part, next);
        }
      }
    }
  }

  /** The pass never touches the target's weight. */
  lemma {:induction false} PassKeepsTarget(cands: seq<Identifier>, identifier: Identifier, part: int, st: PassState)
    requires forall c | c in cands :: c in st.weights
    requires identifier in st.weights
    ensures CompensationPass(cands, identifier, part, st).weights[identifier] == st.weights[identifier]
    decreases |cands|
  {
    if cands != [] {
      var i := cands[0];
      if i == identifier || st.weights[i] + part <= 0 {
        PassKeepsTarget(cands[1..], identifier, part, st);
      } else {
        var next := PassState(st.weights[i := st.weights[i] + part], st.compensations[i := part], st.error - part);
        if next.error != 0 {
          PassKeepsTarget(cands[1..], identifier, part, next);
        }
      }
    }
  }

  /**
   * Over a pass without repeated candidates, every identifier other than the
   * target either keeps its weight, or takes exactly `part`, ends positive
   * and has `part` recorded as its compensation.
   */
  lemma {:induction false} PassSteps(cands: seq<Identifier>, identifier: Identifier, part: int, st: PassState)
    requires forall c | c in cands :: c in st.weights
    requires Distinct(cands)
    ensures var r := CompensationPass(cands, identifier, part, st);
      forall i | i in st.weights ::
        || r.weights[i] == st.weights[i]
        || (i != identifier && r.weights[i] == st.weights[i] + part && r.weights[i] > 0
            && i in r.compensations && r.compensations[i] == part)
    decreases |cands|
  {
    if cands != [] {
      var i := cands[0];
      var rest := cands[1..];
      assert Distinct(rest) by {
        forall a, b | 0 <= a < b < |rest| ensures rest[a] != rest[b] {
          assert rest[a] == cands[a + 1] && rest[b] == cands[b + 1];
        }
      }
      if i == identifier || st.weights[i] + part <= 0 {
        PassSteps(rest, identifier, part, st);
      } else {
        var next := PassState(st.weights[i := st.weights[i] + part], st.compensations[i := part], st.error - part);
        if next.error != 0 {
          assert i !in rest by {
            forall a | 0 <= a < |rest| ensures rest[a] != i {
              assert rest[a] == cands[a + 1];
            }
          }
          var r := CompensationPass(rest, identifier, part, next);
          assert r == CompensationPass(cands, identifier, part, st);
          PassSteps(rest, identifier, part, next);
          PassUntouched(rest, identifier, part, next, i);
          forall j | j in st.weights
            ensures || r.weights[j] == st.weights[j]
                    || (j != identifier && r.weights[j] == st.weights[j] + part && r.weights[j] > 0
                        && j in r.compensations && r.compensations[j] == part)
          {
            if j != i {
              assert next.weights[j] == st.weights[j];
            }
          }
        }
      }
    }
  }

  /** An identifier that is not a candidate keeps its weight and compensation. */
  lemma {:induction false} PassUntouched(cands: seq<Identifier>, identifier: Identifier, part: int, st: PassState, x: Identifier)
    requires forall c | c in cands :: c in st.weights
    requires x !in cands && x in st.weights
    ensures var r := CompensationPass(cands, identifier, part, st);
      && r.weights[x] == st.weights[x]
      && (x in st.compensations ==> x in r.compensations && r.compensations[x] == st.compensations[x])
    decreases |cands|
  {
    if cands != [] {
      var i := cands[0];
      assert x !in cands[1..];
      if i == identifier || st.weights[i] + part <= 0 {
        PassUntouched(cands[1..], identifier, part, st, x);
      } else {
        var next := PassState(st.weights[i := st.weights[i] + part], st.compensations[i := part], st.error - part);
        if next.error != 0 {
          PassUntouched(cands[1..], identifier, part, next, x);
        }
      }
    }
  }

  /**
   * A pass that ends with error left has visited every candidate: each one
   * other than the target took `part` when that kept it positive and kept
   * its weight otherwise.
   */
  lemma {:induction false} PassExhausts(cands: seq<Identifier>, identifier: Identifier, part: int, st: PassState)
    requires forall c | c in cands :: c in st.weights
    requires Distinct(cands)
    ensures var r := CompensationPass(cands, identifier, part, st);
      r.error != 0 ==>
        forall i | i in cands && i != identifier ::
          if st.weights[i] + part > 0 then r.weights[i] == st.weights[i] + part else r.weights[i] == st.weights[i]
    decreases |cands|
  {
    if cands != [] {
      var i := cands[0];
      var rest := cands[1..];
      assert Distinct(rest) by {
        forall a, b | 0 <= a < b < |rest| ensures rest[a] != rest[b] {
          assert rest[a] == cands[a + 1] && rest[b] == cands[b + 1];
        }
      }
      assert i !in rest by {
        forall a | 0 <= a < |rest| ensures rest[a] != i {
          assert rest[a] == cands[a + 1];
        }
      }
      assert forall j | j in cands :: j == i || j in rest;
      if i == identifier || st.weights[i] + part <= 0 {
        PassExhausts(rest, identifier, part, st);
        PassUntouched(rest, identifier, part, st, i);
      } else {
        var next := PassState(st.weights[i := st.weights[i] + part], st.compensations[i := part], st.error - part);
        if next.error != 0 {
          PassExhausts(rest, identifier, part, next);
          PassUntouched(rest, identifier, part, next, i);
        }
      }
    }
  }

  /**
   * Compensation conserves the total: the weights then sum to the old sum
   * plus the error (so to FULL_PERCENTAGE when the error was FULL_PERCENTAGE
   * minus the old sum). The target changes only through the fallback, which
   * records the remainder as the target's compensation and returns the
   * adjusted percentage; otherwise the percentage is returned unchanged.
   */
  lemma CompensatedConserves(error: int, compensations: WeightMap, identifier: Identifier, keys: seq<Identifier>,
                             weights: WeightMap, partialCount: int, percentage: int, versions: VersionMap)
    requires partialCount > 0
    requires KeyOrder(keys, weights) && identifier in weights && weights[identifier] == percentage
    requires forall k | k in keys :: k in versions
    ensures var c := Compensated(error, compensations, identifier, keys, weights, partialCount, percentage, versions);
      && c.weights.Keys == weights.Keys
      && SumOf(keys, c.weights) == SumOf(keys, weights) + error
      && c.weights[identifier] == c.percentage
      && (c.adjusted ==> identifier in c.compensations && c.compensations[identifier] == c.percentage - percentage != 0)
      && (!c.adjusted ==> c.percentage == percentage)
  {
    var part := CompensationStep(error, partialCount);
    var order := ByVersionDescending(keys, versions);
    OrderCovers(keys, weights, versions);
    var st0 := PassState(weights, compensations, error);
    var st := CompensationPass(order, identifier, part, st0);
    assert Compensated(error, compensations, identifier, keys, weights, partialCount, percentage, versions)
        == Fallback(st, identifier, percentage);
    assert SumOf(keys, st.weights) + st.error == SumOf(keys, weights) + error by {
      PassConserves(order, keys, identifier, part, st0);
    }
    assert st.weights[identifier] == percentage by {
      PassKeepsTarget(order, identifier, part, st0);
    }
    FallbackConserves(st, keys, identifier, percentage);
  }

  /**
   * Floor: a version other than the target with weight >= 1 keeps weight
   * >= 1, and every other version changes by nothing or by exactly the step,
   * which is then its recorded compensation.
   */
  lemma CompensatedSteps(error: int, compensations: WeightMap, identifier: Identifier, keys: seq<Identifier>,
                         weights: WeightMap, partialCount: int, percentage: int, versions: VersionMap)
    requires partialCount > 0
    requires KeyOrder(keys, weights)
    requires forall k | k in keys :: k in versions
    ensures var c := Compensated(error, compensations, identifier, keys, weights, partialCount, percentage, versions);
      var part := CompensationStep(error, partialCount);
      && (forall i | i in weights && i != identifier ::
            || c.weights[i] == weights[i]
            || (c.weights[i] == weights[i] + part && c.weights[i] > 0 && i in c.compensations && c.compensations[i] == part))
      && (forall i | i in weights && i != identifier && weights[i] >= 1 :: c.weights[i] >= 1)
  {
    var part := CompensationStep(error, partialCount);
    var order := ByVersionDescending(keys, versions);
    OrderCovers(keys, weights, versions);
    var st0 := PassState(weights, compensations, error);
    ByVersionDescendingPermutes(keys, versions);
    PermutationDistinct(keys, order);
    PassSteps(order, identifier, part, st0);
  }

  /**
   * The fallback fires only after the pass has visited every candidate:
   * when the percentage is adjusted, every version other than the target
   * took the step if that kept it positive, and kept its weight otherwise.
   * It does not need every other version to be at its floor: a version
   * that took the step may still have room for more.
   */
  lemma CompensatedFallback(error: int, compensations: WeightMap, identifier: Identifier, keys: seq<Identifier>,
                            weights: WeightMap, partialCount: int, percentage: int, versions: VersionMap)
    requires partialCount > 0
    requires KeyOrder(keys, weights)
    requires forall k | k in keys :: k in versions
    ensures var c := Compensated(error, compensations, identifier, keys, weights, partialCount, percentage, versions);
      var part := CompensationStep(error, partialCount);
      c.adjusted ==>
        forall i | i in weights && i != identifier ::
          if weights[i] + part > 0 then c.weights[i] == weights[i] + part else c.weights[i] == weights[i]
  {
    var part := CompensationStep(error, partialCount);
    var order := ByVersionDescending(keys, versions);
    OrderCovers(keys, weights, versions);
    var st0 := PassState(weights, compensations, error);
    ByVersionDescendingPermutes(keys, versions);
    PermutationDistinct(keys, order);
    PassExhausts(order, identifier, part, st0);
    forall i | i in weights ensures i in order {
      assert i in multiset(keys);
    }
  }
}
