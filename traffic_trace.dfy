module TrafficTrace {
  import opened Wrappers
  import opened LexOrder
  import opened TrafficWeights
  import opened TrafficCompensate
  import opened Traffic

  const V1: Identifier := "myapp-v1"
  const V2: Identifier := "myapp-v2"
  const V3: Identifier := "myapp-v3"
  const V4: Identifier := "myapp-v4"
  const Labels: VersionMap := map[V1 := "v1", V2 := "v2", V3 := "v3", V4 := "v4"]
  const Keys: seq<Identifier> := [V1, V2, V3, V4]
  const Newest: seq<Identifier> := [V4, V3, V2, V1]

  function Weights(a: int, b: int, c: int, d: int): WeightMap
  {
    map[V1 := a, V2 := b, V3 := c, V4 := d]
  }

  lemma SumOfWeights(a: int, b: int, c: int, d: int)
    ensures SumOf(Keys, Weights(a, b, c, d)) == a + b + c + d
  {
    var m := Weights(a, b, c, d);
    assert Keys[..3] == [V1, V2, V3] && [V1, V2, V3][..2] == [V1, V2] && [V1, V2][..1] == [V1] && [V1][..0] == [];
    assert SumOf([V1], m) == a;
    assert SumOf([V1, V2], m) == a + b;
    assert SumOf([V1, V2, V3], m) == a + b + c;
  }

  lemma LabelsAscend()
    ensures LexLess("v1", "v2") && LexLess("v1", "v3") && LexLess("v1", "v4")
    ensures LexLess("v2", "v3") && LexLess("v2", "v4") && LexLess("v3", "v4")
  {
    assert "v1"[1..] == "1" && "v2"[1..] == "2" && "v3"[1..] == "3" && "v4"[1..] == "4";
  }

  lemma NewestFirstOfTwo()
    ensures ByVersionDescending([V3, V4], Labels) == [V4, V3]
  {
    LabelsAscend();
    assert [V3, V4][1..] == [V4] && [V4][1..] == [];
    assert ByVersionDescending([V4], Labels) == [V4];
    assert InsertByVersion(V3, [V4], Labels) == [V4, V3];
  }

  lemma NewestFirstOfThree()
    ensures ByVersionDescending([V2, V3, V4], Labels) == [V4, V3, V2]
  {
    LabelsAscend();
    NewestFirstOfTwo();
    assert [V2, V3, V4][1..] == [V3, V4];
    assert [V4, V3][1..] == [V3] && [V3][1..] == [];
    assert InsertByVersion(V2, [V3], Labels) == [V3, V2];
    assert InsertByVersion(V2, [V4, V3], Labels) == [V4, V3, V2];
  }

  lemma InsertOldest()
    ensures InsertByVersion(V1, [V4, V3, V2], Labels) == Newest
  {
    LabelsAscend();
    assert [V4, V3, V2][1..] == [V3, V2] && [V3, V2][1..] == [V2] && [V2][1..] == [];
    assert InsertByVersion(V1, [V2], Labels) == [V2, V1];
    assert InsertByVersion(V1, [V3, V2], Labels) == [V3, V2, V1];
  }

  lemma NewestFirst()
    ensures ByVersionDescending(Keys, Labels) == Newest
  {
    NewestFirstOfThree();
    InsertOldest();
    assert Keys[1..] == [V2, V3, V4];
  }

  lemma Pass95()
    ensures CompensationPass(Newest, V4, -2, PassState(Weights(1, 1, 15, 190), map[], -7))
         == PassState(Weights(1, 1, 13, 190), map[V3 := -2], -5)
  {
    assert Newest[1..] == [V3, V2, V1] && [V3, V2, V1][1..] == [V2, V1] && [V2, V1][1..] == [V1] && [V1][1..] == [];
    var st0 := PassState(Weights(1, 1, 15, 190), map[], -7);
    var st1 := PassState(Weights(1, 1, 13, 190), map[V3 := -2], -5);
    assert Weights(1, 1, 15, 190)[V3 := 13] == Weights(1, 1, 13, 190);
    assert CompensationPass(Newest, V4, -2, st0) == CompensationPass([V3, V2, V1], V4, -2, st0);
    assert CompensationPass([V3, V2, V1], V4, -2, st0) == CompensationPass([V2, V1], V4, -2, st1);
    assert CompensationPass([V2, V1], V4, -2, st1) == CompensationPass([V1], V4, -2, st1);
    assert CompensationPass([V1], V4, -2, st1) == CompensationPass([], V4, -2, st1);
  }

  const Domain: string := "myapp.example.org"
  const DnsName: string := "myapp.example.org."

  function Rec(id: Identifier, w: int, lb: string): Record
  {
    Record("CNAME", DnsName, id, Some(w), 20, [lb])
  }

  function Records(a: int, b: int, c: int, d: int): seq<Record>
  {
    [Rec(V1, a, "some-lb"), Rec(V2, b, "another-elb"), Rec(V3, c, "elb-3"), Rec(V4, d, "elb-4")]
  }

  lemma ReadSnoc(t: Identifier, init: seq<Record>, r: Record)
    requires Matches(r, DnsName) && r.setIdentifier !in ReadRecords(DnsName, t, init).weights
    ensures var s0 := ReadRecords(DnsName, t, init);
      var s := ReadRecords(DnsName, t, init + [r]);
      s.keys == s0.keys + [r.setIdentifier] && s.weights == s0.weights[r.setIdentifier := ReadWeight(r)]
  {
    assert (init + [r])[..|init|] == init;
  }

  lemma ReadOne(a: int, t: Identifier)
    ensures var s := ReadRecords(DnsName, t, [Rec(V1, a, "some-lb")]);
      s.keys == [V1] && s.weights == map[V1 := a]
  {
    assert ReadRecords(DnsName, t, []).weights == map[];
    ReadSnoc(t, [], Rec(V1, a, "some-lb"));
    assert [] + [Rec(V1, a, "some-lb")] == [Rec(V1, a, "some-lb")];
  }

  lemma ReadTwo(a: int, b: int, t: Identifier)
    ensures var s := ReadRecords(DnsName, t, Records(a, b, 0, 0)[..2]);
      s.keys == [V1, V2] && s.weights == map[V1 := a, V2 := b]
  {
    var rr := Records(a, b, 0, 0);
    ReadOne(a, t);
    assert rr[..1] == [Rec(V1, a, "some-lb")];
    ReadSnoc(t, rr[..1], rr[1]);
    assert rr[..1] + [rr[1]] == rr[..2];
  }

  lemma ReadThree(a: int, b: int, c: int, t: Identifier)
    ensures var s := ReadRecords(DnsName, t, Records(a, b, c, 0)[..3]);
      s.keys == [V1, V2, V3] && s.weights == map[V1 := a, V2 := b, V3 := c]
  {
    var rr := Records(a, b, c, 0);
    ReadTwo(a, b, t);
    assert rr[..2] == Records(a, b, 0, 0)[..2];
    ReadSnoc(t, rr[..2], rr[2]);
    assert rr[..2] + [rr[2]] == rr[..3];
  }

  lemma ReadFour(a: int, b: int, c: int, d: int, t: Identifier)
    ensures var s := ReadRecords(DnsName, t, Records(a, b, c, d));
      s.keys == Keys && s.weights == Weights(a, b, c, d)
  {
    var rr := Records(a, b, c, d);
    ReadThree(a, b, c, t);
    assert rr[..3] == Records(a, b, c, 0)[..3];
    ReadSnoc(t, rr[..3], rr[3]);
    assert rr[..3] + [rr[3]] == rr;
  }

  /** The snapshot get_weights takes of the four records, seen from the target `t`. */
  lemma SnapshotOf(a: int, b: int, c: int, d: int, t: Identifier)
    requires a >= 0 && b >= 0 && c >= 0 && d >= 0 && t in Keys
    ensures var s := GetWeights(DnsName, t, Records(a, b, c, d), Keys);
      && s.keys == Keys && s.weights == Weights(a, b, c, d)
      && s.partialCount == LiveCount(Keys, s.weights, t)
      && s.partialSum == SumOf(Keys, s.weights) - s.weights[t]
  {
    var rr := Records(a, b, c, d);
    ReadFour(a, b, c, d, t);
    var s0 := ReadRecords(DnsName, t, rr);
    SetDefaultsPresent(SetDefault(s0, t), Keys);
    RecordsWellFormed(a, b, c, d);
    GetWeightsPartial(DnsName, t, rr, Keys);
  }

  lemma KeysDistinct()
    ensures Distinct(Keys)
  {
    assert V1[7] == '1' && V2[7] == '2' && V3[7] == '3' && V4[7] == '4';
  }

  lemma RecordsWellFormed(a: int, b: int, c: int, d: int)
    requires a >= 0 && b >= 0 && c >= 0 && d >= 0
    ensures UniqueIdentifiers(Records(a, b, c, d), DnsName) && StoredNonNegative(Records(a, b, c, d))
  {
    var rr := Records(a, b, c, d);
    KeysDistinct();
    forall j | 0 <= j < |rr| ensures rr[j].setIdentifier == Keys[j] && ReadWeight(rr[j]) >= 0 {
    }
  }

  lemma IdsDiffer()
    ensures V1 != V2 && V1 != V3 && V1 != V4 && V2 != V3 && V2 != V4 && V3 != V4
  {
    assert V1[7] == '1' && V2[7] == '2' && V3[7] == '3' && V4[7] == '4';
  }

  function Live(i: Identifier, w: int, t: Identifier): nat
  {
    if i != t && w > 0 then 1 else 0
  }

  lemma LiveCountOf(a: int, b: int, c: int, d: int, t: Identifier)
    ensures LiveCount(Keys, Weights(a, b, c, d), t) == Live(V1, a, t) + Live(V2, b, t) + Live(V3, c, t) + Live(V4, d, t)
  {
    var m := Weights(a, b, c, d);
    assert Keys[..3] == [V1, V2, V3] && [V1, V2, V3][..2] == [V1, V2] && [V1, V2][..1] == [V1] && [V1][..0] == [];
    assert LiveCount([V1], m, t) == Live(V1, a, t);
    assert LiveCount([V1, V2], m, t) == Live(V1, a, t) + Live(V2, b, t);
    assert LiveCount([V1, V2, V3], m, t) == Live(V1, a, t) + Live(V2, b, t) + Live(V3, c, t);
  }

  /** The snapshot of the four records worked out by hand: live versions other than `t`, and the rest of the sum. */
  function Expected(a: int, b: int, c: int, d: int, t: Identifier): Snapshot
    requires a >= 0 && b >= 0 && c >= 0 && d >= 0 && t in Keys
  {
    var m := Weights(a, b, c, d);
    assert m[t] <= a + b + c + d;
    Snapshot(Keys, m, Live(V1, a, t) + Live(V2, b, t) + Live(V3, c, t) + Live(V4, d, t), a + b + c + d - m[t])
  }

  /** get_weights on the four records, as a literal snapshot. */
  lemma SnapshotLit(a: int, b: int, c: int, d: int, t: Identifier)
    requires a >= 0 && b >= 0 && c >= 0 && d >= 0 && t in Keys
    ensures GetWeights(DnsName, t, Records(a, b, c, d), Keys) == Expected(a, b, c, d, t)
  {
    var s := GetWeights(DnsName, t, Records(a, b, c, d), Keys);
    var e := Expected(a, b, c, d, t);
    var m := Weights(a, b, c, d);
    assert s.keys == Keys && s.weights == m
        && s.partialCount == LiveCount(Keys, m, t) && s.partialSum == SumOf(Keys, m) - m[t] by {
      SnapshotOf(a, b, c, d, t);
    }
    assert s.partialCount == e.partialCount by {
      LiveCountOf(a, b, c, d, t);
    }
    assert s.partialSum == e.partialSum by {
      SumOfWeights(a, b, c, d);
    }
  }

  /** calculate_new_weights on four identifiers, one at a time. */
  lemma AllocateLit(a: int, b: int, c: int, d: int, delta: int, t: Identifier, pct: int)
    ensures CalculateNewWeights(delta, t, Weights(a, b, c, d), pct).weights
         == Weights(AllocatedWeight(V1, a, delta, t, pct), AllocatedWeight(V2, b, delta, t, pct),
                    AllocatedWeight(V3, c, delta, t, pct), AllocatedWeight(V4, d, delta, t, pct))
  {
  }

  lemma LabelsCover()
    ensures forall k | k in Keys :: k in Labels
  {
  }

  /** One run of the traffic command on the four records: the weights decided for `t` at `pct`. */
  function Run(a: int, b: int, c: int, d: int, t: Identifier, pct: int): WeightMap
    requires a >= 0 && b >= 0 && c >= 0 && d >= 0 && t in Keys && 0 <= pct <= FULL_PERCENTAGE
  {
    SnapshotOf(a, b, c, d, t);
    LabelsCover();
    NewWeights(GetWeights(DnsName, t, Records(a, b, c, d), Keys), t, pct, Labels).weights
  }

  /** compensate when the candidate order and the outcome of the pass are known. */
  lemma CompensatedVia(error: int, t: Identifier, keys: seq<Identifier>, w: WeightMap, pc: int, pct: int,
                       order: seq<Identifier>, st: PassState)
    requires pc > 0 && KeyOrder(keys, w) && (forall k | k in keys :: k in Labels)
    requires ByVersionDescending(keys, Labels) == order && (forall c | c in order :: c in w)
    requires CompensationPass(order, t, CompensationStep(error, pc), PassState(w, map[], error)) == st
    ensures Compensated(error, map[], t, keys, w, pc, pct, Labels).weights
         == if st.error != 0 then st.weights[t := pct + st.error] else st.weights
  {
  }

  /** The snapshot of the four records as the decision sees it. */
  lemma RunVia(a: int, b: int, c: int, d: int, t: Identifier, pct: int, s: Snapshot)
    requires a >= 0 && b >= 0 && c >= 0 && d >= 0 && t in Keys && 0 <= pct <= FULL_PERCENTAGE
    requires s == Expected(a, b, c, d, t)
    ensures Consistent(s, t) && (forall k | k in s.keys :: k in Labels)
    ensures Run(a, b, c, d, t, pct) == NewWeights(s, t, pct, Labels).weights
  {
    SnapshotLit(a, b, c, d, t);
    SnapshotOf(a, b, c, d, t);
    RecordsWellFormed(a, b, c, d);
    LabelsCover();
  }

  /** calculate_new_weights as the decision calls it, on the four identifiers. */
  lemma AllocateAt(s: Snapshot, t: Identifier, pct: int, a: int, b: int, c: int, d: int)
    requires s.weights == Weights(a, b, c, d)
    ensures var delta, p := SplitDelta(s, pct), Promoted(s, pct);
      Allocate(s, t, pct).weights
        == Weights(AllocatedWeight(V1, a, delta, t, p), AllocatedWeight(V2, b, delta, t, p),
                   AllocatedWeight(V3, c, delta, t, p), AllocatedWeight(V4, d, delta, t, p))
  {
    AllocateLit(a, b, c, d, SplitDelta(s, pct), t, Promoted(s, pct));
  }

  /** When the allocation already sums to FULL_PERCENTAGE, it is the decision. */
  lemma DecideExact(s: Snapshot, t: Identifier, pct: int, w: WeightMap)
    requires Consistent(s, t) && (forall k | k in s.keys :: k in Labels)
    requires 0 <= pct <= FULL_PERCENTAGE && !Disables(s, pct)
    requires Allocate(s, t, pct).weights == w && SumOf(s.keys, w) == FULL_PERCENTAGE
    ensures NewWeights(s, t, pct, Labels).weights == w
  {
  }

  /** When it misses by `e`, the decision is the pass in the known order and then the fallback. */
  lemma DecideCompensated(s: Snapshot, t: Identifier, pct: int, w: WeightMap, e: int, order: seq<Identifier>, st: PassState)
    requires Consistent(s, t) && (forall k | k in s.keys :: k in Labels)
    requires 0 <= pct <= FULL_PERCENTAGE && s.partialCount > 0
    requires Allocate(s, t, pct).weights == w && SumOf(s.keys, w) == FULL_PERCENTAGE - e && e != 0
    requires ByVersionDescending(s.keys, Labels) == order && (forall c | c in order :: c in w)
    requires CompensationPass(order, t, CompensationStep(e, s.partialCount), PassState(w, map[], e)) == st
    ensures NewWeights(s, t, pct, Labels).weights == if st.error != 0 then st.weights[t := pct + st.error] else st.weights
  {
    assert Promoted(s, pct) == pct;
    assert AllocationError(s, t, pct) == e;
    ErrorBelowFull(s, t, pct);
    CompensatedVia(e, t, s.keys, w, s.partialCount, pct, order, st);
    var c := Compensated(e, map[], t, s.keys, w, s.partialCount, pct, Labels);
    assert c.weights == if st.error != 0 then st.weights[t := pct + st.error] else st.weights;
    assert NewWeights(s, t, pct, Labels).weights == c.weights;
  }

  /** The last live version switched off: every weight 0. */
  lemma DecideDisable(s: Snapshot, t: Identifier, a: int, b: int, c: int, d: int)
    requires Consistent(s, t) && (forall k | k in s.keys :: k in Labels) && Disables(s, 0)
    requires s.weights == Weights(a, b, c, d)
    ensures NewWeights(s, t, 0, Labels).weights == Weights(0, 0, 0, 0)
  {
    DisableAll(s, t, 0, Labels);
  }

  /** A traced run whose allocation is exact. */
  lemma ExactRun(a: int, b: int, c: int, d: int, t: Identifier, pct: int, s: Snapshot, w: WeightMap)
    requires a >= 0 && b >= 0 && c >= 0 && d >= 0 && t in Keys && 0 <= pct <= FULL_PERCENTAGE
    requires s == Expected(a, b, c, d, t)
    requires !Disables(s, pct) && Allocate(s, t, pct).weights == w && SumOf(Keys, w) == FULL_PERCENTAGE
    ensures Run(a, b, c, d, t, pct) == w
  {
    RunVia(a, b, c, d, t, pct, s);
    DecideExact(s, t, pct, w);
  }

  /** A traced run whose allocation misses by `e`, placed in newest-first order. */
  lemma CompensatedRun(a: int, b: int, c: int, d: int, t: Identifier, pct: int, s: Snapshot, w: WeightMap, e: int, st: PassState)
    requires a >= 0 && b >= 0 && c >= 0 && d >= 0 && t in Keys && 0 <= pct <= FULL_PERCENTAGE
    requires s == Expected(a, b, c, d, t)
    requires s.partialCount > 0 && Allocate(s, t, pct).weights == w && SumOf(Keys, w) == FULL_PERCENTAGE - e && e != 0
    requires CompensationPass(Newest, t, CompensationStep(e, s.partialCount), PassState(w, map[], e)) == st
    ensures Run(a, b, c, d, t, pct) == if st.error != 0 then st.weights[t := pct + st.error] else st.weights
  {
    RunVia(a, b, c, d, t, pct, s);
    NewestFirst();
    assert forall c | c in Newest :: c in w;
    DecideCompensated(s, t, pct, w, e, Newest, st);
  }

  lemma Pass3()
    ensures CompensationPass(Newest, V2, -1, PassState(Weights(0, 1, 20, 180), map[], -1))
         == PassState(Weights(0, 1, 20, 179), map[V4 := -1], 0)
  {
    IdsDiffer();
    assert Weights(0, 1, 20, 180)[V4 := 179] == Weights(0, 1, 20, 179);
  }

  lemma Pass4()
    ensures CompensationPass(Newest, V1, -1, PassState(Weights(2, 1, 20, 179), map[], -2))
         == PassState(Weights(2, 1, 19, 178), map[V4 := -1, V3 := -1], 0)
  {
    IdsDiffer();
    assert Newest[1..] == [V3, V2, V1];
    var st1 := PassState(Weights(2, 1, 20, 178), map[V4 := -1], -1);
    assert Weights(2, 1, 20, 179)[V4 := 178] == Weights(2, 1, 20, 178);
    assert Weights(2, 1, 20, 178)[V3 := 19] == Weights(2, 1, 19, 178);
    assert CompensationPass([V3, V2, V1], V1, -1, st1) == PassState(Weights(2, 1, 19, 178), map[V4 := -1, V3 := -1], 0);
  }

  lemma NewestUpdate(a: int, b: int, c: int, d: int, x: int)
    ensures Weights(a, b, c, d)[V4 := x] == Weights(a, b, c, x)
  {
  }

  /** `traffic v4 100` from 60/30/10/0 percent: everything to v4. */
  lemma TraceStep1()
    ensures Run(120, 60, 20, 0, V4, 200) == Weights(0, 0, 0, 200)
  {
    var s := Snapshot(Keys, Weights(120, 60, 20, 0), 3, 200);
    var w := Weights(0, 0, 0, 200);
    assert s == Expected(120, 60, 20, 0, V4) by { IdsDiffer(); }
    assert !Disables(s, 200) && Allocate(s, V4, 200).weights == w by {
      IdsDiffer();
      AllocateAt(s, V4, 200, 120, 60, 20, 0);
    }
    assert SumOf(Keys, w) == FULL_PERCENTAGE by { SumOfWeights(0, 0, 0, 200); }
    ExactRun(120, 60, 20, 0, V4, 200, s, w);
  }

  /** `traffic v3 10`: v4 gives up exactly what v3 takes. */
  lemma TraceStep2()
    ensures Run(0, 0, 0, 200, V3, 20) == Weights(0, 0, 20, 180)
  {
    var s := Snapshot(Keys, Weights(0, 0, 0, 200), 1, 200);
    var w := Weights(0, 0, 20, 180);
    assert s == Expected(0, 0, 0, 200, V3) by { IdsDiffer(); }
    assert !Disables(s, 20) && Allocate(s, V3, 20).weights == w by {
      IdsDiffer();
      assert SplitDelta(s, 20) == -20;
      AllocateAt(s, V3, 20, 0, 0, 0, 200);
    }
    assert SumOf(Keys, w) == FULL_PERCENTAGE by { SumOfWeights(0, 0, 20, 180); }
    ExactRun(0, 0, 0, 200, V3, 20, s, w);
  }

  /** `traffic v2 0.5`: the half unit v2 takes is taken back from v4, the newest. */
  lemma TraceStep3()
    ensures Run(0, 0, 20, 180, V2, 1) == Weights(0, 1, 20, 179)
  {
    var s := Snapshot(Keys, Weights(0, 0, 20, 180), 2, 200);
    var w := Weights(0, 1, 20, 180);
    assert s == Expected(0, 0, 20, 180, V2) by { IdsDiffer(); }
    assert Allocate(s, V2, 1).weights == w by {
      IdsDiffer();
      assert SplitDelta(s, 1) == 0;
      AllocateAt(s, V2, 1, 0, 0, 20, 180);
    }
    assert SumOf(Keys, w) == FULL_PERCENTAGE - -1 by { SumOfWeights(0, 1, 20, 180); }
    var st := PassState(Weights(0, 1, 20, 179), map[V4 := -1], 0);
    assert CompensationPass(Newest, V2, CompensationStep(-1, 2), PassState(w, map[], -1)) == st by {
      assert CompensationStep(-1, 2) == -1;
      Pass3();
    }
    CompensatedRun(0, 0, 20, 180, V2, 1, s, w, -1, st);
  }

  /** `traffic v1 1`: the two extra units come from v4 and then v3. */
  lemma TraceStep4()
    ensures Run(0, 1, 20, 179, V1, 2) == Weights(2, 1, 19, 178)
  {
    var s := Snapshot(Keys, Weights(0, 1, 20, 179), 3, 200);
    var w := Weights(2, 1, 20, 179);
    assert s == Expected(0, 1, 20, 179, V1) by { IdsDiffer(); }
    assert Allocate(s, V1, 2).weights == w by {
      IdsDiffer();
      assert SplitDelta(s, 2) == 0;
      AllocateAt(s, V1, 2, 0, 1, 20, 179);
    }
    assert SumOf(Keys, w) == FULL_PERCENTAGE - -2 by { SumOfWeights(2, 1, 20, 179); }
    var st := PassState(Weights(2, 1, 19, 178), map[V4 := -1, V3 := -1], 0);
    assert CompensationPass(Newest, V1, CompensationStep(-2, 3), PassState(w, map[], -2)) == st by {
      assert CompensationStep(-2, 3) == -1;
      Pass4();
    }
    CompensatedRun(0, 1, 20, 179, V1, 2, s, w, -2, st);
  }

  /**
   * `traffic v4 95`: the error of -7 units is placed two at a time; only v3
   * can give, and the remaining -5 falls back on v4, which ends at 185.
   */
  lemma TraceStep5()
    ensures Run(2, 1, 19, 178, V4, 190) == Weights(1, 1, 13, 185)
  {
    var s := Snapshot(Keys, Weights(2, 1, 19, 178), 3, 22);
    var w := Weights(1, 1, 15, 190);
    assert s == Expected(2, 1, 19, 178, V4) by { IdsDiffer(); }
    assert Allocate(s, V4, 190).weights == w by {
      IdsDiffer();
      assert SplitDelta(s, 190) == -4;
      AllocateAt(s, V4, 190, 2, 1, 19, 178);
    }
    assert SumOf(Keys, w) == FULL_PERCENTAGE - -7 by { SumOfWeights(1, 1, 15, 190); }
    var st := PassState(Weights(1, 1, 13, 190), map[V3 := -2], -5);
    assert CompensationPass(Newest, V4, CompensationStep(-7, 3), PassState(w, map[], -7)) == st by {
      assert CompensationStep(-7, 3) == -2;
      Pass95();
    }
    CompensatedRun(2, 1, 19, 178, V4, 190, s, w, -7, st);
    NewestUpdate(1, 1, 13, 190, 185);
  }

  /** `traffic v4 100` again. */
  lemma TraceStep6()
    ensures Run(1, 1, 13, 185, V4, 200) == Weights(0, 0, 0, 200)
  {
    var s := Snapshot(Keys, Weights(1, 1, 13, 185), 3, 15);
    var w := Weights(0, 0, 0, 200);
    assert s == Expected(1, 1, 13, 185, V4) by { IdsDiffer(); }
    assert !Disables(s, 200) && Allocate(s, V4, 200).weights == w by {
      IdsDiffer();
      AllocateAt(s, V4, 200, 1, 1, 13, 185);
    }
    assert SumOf(Keys, w) == FULL_PERCENTAGE by { SumOfWeights(0, 0, 0, 200); }
    ExactRun(1, 1, 13, 185, V4, 200, s, w);
  }

  /** `traffic v4 10`: v4 is the sole survivor and keeps everything. */
  lemma TraceStep7()
    ensures Run(0, 0, 0, 200, V4, 20) == Weights(0, 0, 0, 200)
  {
    var s := Snapshot(Keys, Weights(0, 0, 0, 200), 0, 0);
    var w := Weights(0, 0, 0, 200);
    assert s == Expected(0, 0, 0, 200, V4) by { IdsDiffer(); }
    assert !Disables(s, 20) && Allocate(s, V4, 20).weights == w by {
      IdsDiffer();
      AllocateAt(s, V4, 20, 0, 0, 0, 200);
    }
    assert SumOf(Keys, w) == FULL_PERCENTAGE by { SumOfWeights(0, 0, 0, 200); }
    ExactRun(0, 0, 0, 200, V4, 20, s, w);
  }

  /** `traffic v4 0`: the last live version is disabled. */
  lemma TraceStep8()
    ensures Run(0, 0, 0, 200, V4, 0) == Weights(0, 0, 0, 0)
  {
    IdsDiffer();
    var s := Snapshot(Keys, Weights(0, 0, 0, 200), 0, 0);
    RunVia(0, 0, 0, 200, V4, 0, s);
    DecideDisable(s, V4, 0, 0, 0, 200);
  }

  lemma PassRevives()
    ensures CompensationPass(Newest, V1, 1, PassState(Weights(0, 99, 100, 0), map[], 1))
         == PassState(Weights(0, 99, 100, 1), map[V4 := 1], 0)
  {
    assert Weights(0, 99, 100, 0)[V4 := 1] == Weights(0, 99, 100, 1);
  }

  /**
   * compensate can give traffic to a version that had none: moving v1 from
   * 98.5 % to 0 leaves one unit of rounding error, and the first candidate,
   * v4 at weight 0, takes it.
   */
  lemma CompensationRevives()
    ensures Run(197, 1, 2, 0, V1, 0) == Weights(0, 99, 100, 1)
  {
    var s := Snapshot(Keys, Weights(197, 1, 2, 0), 2, 3);
    var w := Weights(0, 99, 100, 0);
    assert s == Expected(197, 1, 2, 0, V1) by { IdsDiffer(); }
    assert Allocate(s, V1, 0).weights == w by {
      IdsDiffer();
      assert SplitDelta(s, 0) == 98;
      AllocateAt(s, V1, 0, 197, 1, 2, 0);
    }
    assert SumOf(Keys, w) == FULL_PERCENTAGE - 1 by { SumOfWeights(0, 99, 100, 0); }
    var st := PassState(Weights(0, 99, 100, 1), map[V4 := 1], 0);
    assert CompensationPass(Newest, V1, CompensationStep(1, 2), PassState(w, map[], 1)) == st by {
      assert CompensationStep(1, 2) == 1;
      PassRevives();
    }
    CompensatedRun(197, 1, 2, 0, V1, 0, s, w, 1, st);
  }

  lemma PassWithRoom()
    ensures CompensationPass(Newest, V4, -9, PassState(Weights(1, 1, 37, 190), map[], -29))
         == PassState(Weights(1, 1, 28, 190), map[V3 := -9], -20)
  {
    assert Newest[1..] == [V3, V2, V1] && [V3, V2, V1][1..] == [V2, V1] && [V2, V1][1..] == [V1] && [V1][1..] == [];
    var st0 := PassState(Weights(1, 1, 37, 190), map[], -29);
    var st1 := PassState(Weights(1, 1, 28, 190), map[V3 := -9], -20);
    assert Weights(1, 1, 37, 190)[V3 := 28] == Weights(1, 1, 28, 190);
    assert CompensationPass(Newest, V4, -9, st0) == CompensationPass([V3, V2, V1], V4, -9, st0);
    assert CompensationPass([V3, V2, V1], V4, -9, st0) == CompensationPass([V2, V1], V4, -9, st1);
    assert CompensationPass([V2, V1], V4, -9, st1) == CompensationPass([V1], V4, -9, st1);
    assert CompensationPass([V1], V4, -9, st1) == CompensationPass([], V4, -9, st1);
  }

  /**
   * `traffic v4 95` from 25/25/50/0 percent: the split leaves 1/1/37/190
   * and an error of -29 units, placed 9 at a time. Only v3 can give, once;
   * the remaining -20 falls back on v4, which ends at 170 (85 %) although
   * v3, at 28, could still have given more.
   */
  lemma FallbackWithRoom()
    ensures Run(50, 50, 100, 0, V4, 190) == Weights(1, 1, 28, 170)
  {
    var s := Snapshot(Keys, Weights(50, 50, 100, 0), 3, 200);
    var w := Weights(1, 1, 37, 190);
    assert s == Expected(50, 50, 100, 0, V4) by { IdsDiffer(); }
    assert Allocate(s, V4, 190).weights == w by {
      IdsDiffer();
      assert SplitDelta(s, 190) == -63;
      AllocateAt(s, V4, 190, 50, 50, 100, 0);
    }
    assert SumOf(Keys, w) == FULL_PERCENTAGE - -29 by { SumOfWeights(1, 1, 37, 190); }
    var st := PassState(Weights(1, 1, 28, 190), map[V3 := -9], -20);
    assert CompensationPass(Newest, V4, CompensationStep(-29, 3), PassState(w, map[], -29)) == st by {
      assert CompensationStep(-29, 3) == -9;
      PassWithRoom();
    }
    CompensatedRun(50, 50, 100, 0, V4, 190, s, w, -29, st);
    NewestUpdate(1, 1, 28, 190, 170);
  }
}
