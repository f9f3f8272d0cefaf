/**
 * Building the Route53 change batch that realises a weight assignment:
 * records whose new weight is 0 are deleted, records whose weight changes
 * are upserted with the new weight, and a record for the target is created
 * when it should receive traffic but has none yet.
 */
module TrafficChanges {
  import opened Wrappers
  import opened TrafficWeights

  datatype Action = Upsert | Delete

  /** One entry of the ChangeBatch: an action and the record set it carries. */
  datatype Change = Change(action: Action, record: Record)

  /** `int(None)` raises a TypeError when a stored weight is None but the new weight is not 0. */
  datatype ChangeError = WeightNotANumber(setIdentifier: Identifier)

  /** Every record of `dnsName` has a new weight (else the lookup raises a KeyError). */
  predicate Covers(rr: seq<Record>, dnsName: string, weights: WeightMap)
  {
    forall j | 0 <= j < |rr| && Matches(rr[j], dnsName) :: rr[j].setIdentifier in weights
  }

  /** The record synthesised for a target that has no record yet. */
  function NewRecord(dnsName: string, identifier: Identifier, lbDnsName: string, weight: int): (r: Record)
    ensures Matches(r, dnsName) && r.setIdentifier == identifier && r.weight == Some(weight)
  {
    Record("CNAME", dnsName, identifier, Some(weight), 20, [lbDnsName])
  }

  /** Changes collected so far and whether the target's record was met with a non-zero weight. */
  datatype ScanState = ScanState(changes: seq<Change>, didUpsert: bool)

  /** The record loop of set_new_weights over `rr`, in record order; the first failure wins. */
  function Scan(dnsName: string, identifier: Identifier, weights: WeightMap, rr: seq<Record>): Result<ScanState, ChangeError>
    requires Covers(rr, dnsName, weights)
    decreases |rr|
  {
    if rr == [] then Success(ScanState([], false))
    else
      var init := rr[..|rr| - 1];
      var r := rr[|rr| - 1];
      assert Covers(init, dnsName, weights) by {
        forall j | 0 <= j < |init| && Matches(init[j], dnsName) ensures init[j].setIdentifier in weights {
          assert init[j] == rr[j];
        }
      }
      match Scan(dnsName, identifier, weights, init)
      case Failure(e) => Failure(e)
      case Success(st) =>
        if !Matches(r, dnsName) then Success(st)
        else
          var w := weights[r.setIdentifier];
          if w != 0 then
            match r.weight
            case None => Failure(WeightNotANumber(r.setIdentifier))
            case Some(stored) =>
              Success(ScanState(if stored != w then st.changes + [Change(Upsert, r.(weight := Some(w)))] else st.changes,
                                st.didUpsert || identifier == r.setIdentifier))
          else Success(ScanState(st.changes + [Change(Delete, r)], st.didUpsert))
  }

  /** The change list of set_new_weights, or the error it raises. */
  function ChangeList(dnsName: string, identifier: Identifier, lbDnsName: string, weights: WeightMap,
                      rr: seq<Record>): Result<seq<Change>, ChangeError>
    requires Covers(rr, dnsName, weights) && identifier in weights
  {
    match Scan(dnsName, identifier, weights, rr)
    case Failure(e) => Failure(e)
    case Success(st) =>
      if weights[identifier] > 0 && !st.didUpsert then
        Success(st.changes + [Change(Upsert, NewRecord(dnsName, identifier, lbDnsName, weights[identifier]))])
      else Success(st.changes)
  }

  /** A record as it stands after the loop: its weight is overwritten when an UPSERT was emitted for it. */
  function Overwrite(r: Record, dnsName: string, weights: WeightMap): (r': Record)
    requires Matches(r, dnsName) ==> r.setIdentifier in weights
    ensures r'.rtype == r.rtype && r'.name == r.name && r'.setIdentifier == r.setIdentifier
    ensures r'.ttl == r.ttl && r'.values == r.values
    ensures r' != r <==> Matches(r, dnsName) && weights[r.setIdentifier] != 0
                         && r.weight.Some? && r.weight != Some(weights[r.setIdentifier])
    ensures r' != r ==> r'.weight == Some(weights[r.setIdentifier])
  {
    if Matches(r, dnsName) && weights[r.setIdentifier] != 0 && r.weight.Some? && r.weight.value != weights[r.setIdentifier]
    then r.(weight := Some(weights[r.setIdentifier]))
    else r
  }

  /**
   * set_new_weights, without the batch call: returns the change list and
   * overwrites the weight of every record it upserts.
   */
  method SetNewWeights(dnsName: string, identifier: Identifier, lbDnsName: string, weights: WeightMap,
                       rr: array<Record>) returns (res: Result<seq<Change>, ChangeError>)
    requires Covers(rr[..], dnsName, weights) && identifier in weights
    modifies rr
    ensures res == ChangeList(dnsName, identifier, lbDnsName, weights, old(rr[..]))
    ensures res.Success? ==> forall j | 0 <= j < rr.Length :: rr[j] == Overwrite(old(rr[j]), dnsName, weights)
  {
    ghost var orig := rr[..];
    var changes: seq<Change> := [];
    var didUpsert := false;
    var n := 0;
    while n < rr.Length
      invariant 0 <= n <= rr.Length
      invariant forall j | 0 <= j < n :: rr[j] == Overwrite(orig[j], dnsName, weights)
      invariant forall j | n <= j < rr.Length :: rr[j] == orig[j]
      invariant Covers(orig[..n], dnsName, weights)
      invariant Scan(dnsName, identifier, weights, orig[..n]) == Success(ScanState(changes, didUpsert))
    {
      var r := rr[n];
      assert orig[..n + 1][..n] == orig[..n] && orig[..n + 1][n] == r;
      if r.rtype == "CNAME" && r.name == dnsName {
        var w := weights[r.setIdentifier];
        if w != 0 {
          if r.weight.None? {
            res := Failure(WeightNotANumber(r.setIdentifier));
            ScanFailureSticks(dnsName, identifier, weights, orig, n + 1);
            return;
          }
          if r.weight.value != w {
            rr[n] := r.(weight := Some(w));
            changes := changes + [Change(Upsert, r.(weight := Some(w)))];
          }
          if identifier == r.setIdentifier {
            didUpsert := true;
          }
        } else {
          changes := changes + [Change(Delete, r)];
        }
      }
      n := n + 1;
    }
    assert orig[..n] == orig;
    if weights[identifier] > 0 && !didUpsert {
      changes := changes + [Change(Upsert, NewRecord(dnsName, identifier, lbDnsName, weights[identifier]))];
    }
    res := Success(changes);
  }

  /** Once the loop has raised, the rest of the records do not matter. */
  lemma {:induction false} ScanFailureSticks(dnsName: string, identifier: Identifier, weights: WeightMap,
                                             rr: seq<Record>, n: nat)
    requires Covers(rr, dnsName, weights) && n <= |rr|
    requires Covers(rr[..n], dnsName, weights)
    requires Scan(dnsName, identifier, weights, rr[..n]).Failure?
    ensures Scan(dnsName, identifier, weights, rr) == Scan(dnsName, identifier, weights, rr[..n])
    decreases |rr|
  {
    if n < |rr| {
      var init := rr[..|rr| - 1];
      assert init[..n] == rr[..n];
      assert Covers(init, dnsName, weights) by {
        forall j | 0 <= j < |init| && Matches(init[j], dnsName) ensures init[j].setIdentifier in weights {
          assert init[j] == rr[j];
        }
      }
      ScanFailureSticks(dnsName, identifier, weights, init, n);
    } else {
      assert rr[..n] == rr;
    }
  }

  // ---------------------------------------------------------------------------
  // Properties of the change list

  lemma CoversInit(rr: seq<Record>, dnsName: string, weights: WeightMap)
    requires rr != [] && Covers(rr, dnsName, weights)
    ensures Covers(rr[..|rr| - 1], dnsName, weights)
  {
    var init := rr[..|rr| - 1];
    forall j | 0 <= j < |init| && Matches(init[j], dnsName) ensures init[j].setIdentifier in weights {
      assert init[j] == rr[j];
    }
  }

  /** Some record of `dnsName` carries the set identifier `identifier`. */
  predicate HasRecord(rr: seq<Record>, dnsName: string, identifier: Identifier)
  {
    exists j | 0 <= j < |rr| :: Matches(rr[j], dnsName) && rr[j].setIdentifier == identifier
  }

  lemma HasRecordSnoc(rr: seq<Record>, dnsName: string, identifier: Identifier)
    requires rr != []
    ensures HasRecord(rr, dnsName, identifier)
        <==> HasRecord(rr[..|rr| - 1], dnsName, identifier)
             || (Matches(rr[|rr| - 1], dnsName) && rr[|rr| - 1].setIdentifier == identifier)
  {
    var init := rr[..|rr| - 1];
    if HasRecord(rr, dnsName, identifier) {
      var j :| 0 <= j < |rr| && Matches(rr[j], dnsName) && rr[j].setIdentifier == identifier;
      if j < |init| {
        assert init[j] == rr[j];
      }
    }
    if HasRecord(init, dnsName, identifier) {
      var j :| 0 <= j < |init| && Matches(init[j], dnsName) && init[j].setIdentifier == identifier;
      assert rr[j] == init[j];
    }
  }

  /** A record of `dnsName` whose weight is None while its new weight is not 0: `int(None)` fails on it. */
  predicate Unreadable(r: Record, dnsName: string, weights: WeightMap)
    requires Matches(r, dnsName) ==> r.setIdentifier in weights
  {
    Matches(r, dnsName) && weights[r.setIdentifier] != 0 && r.weight.None?
  }

  /** The record already holds its new weight, so it needs no change. */
  predicate InPlace(r: Record, weights: WeightMap)
    requires r.setIdentifier in weights
  {
    weights[r.setIdentifier] != 0 && r.weight == Some(weights[r.setIdentifier])
  }

  /** The change a record of `dnsName` needs when it is not in place. */
  function ChangeOf(r: Record, weights: WeightMap): (c: Change)
    requires r.setIdentifier in weights
    ensures c.action == Delete <==> weights[r.setIdentifier] == 0
    ensures c.action == Delete ==> c.record == r
    ensures c.action == Upsert ==> c.record == r.(weight := Some(weights[r.setIdentifier]))
  {
    if weights[r.setIdentifier] == 0 then Change(Delete, r) else Change(Upsert, r.(weight := Some(weights[r.setIdentifier])))
  }

  /** The loop raises exactly when some record of `dnsName` is unreadable. */
  lemma {:induction false} ScanFails(dnsName: string, identifier: Identifier, weights: WeightMap, rr: seq<Record>)
    requires Covers(rr, dnsName, weights)
    ensures Scan(dnsName, identifier, weights, rr).Failure?
        <==> exists j | 0 <= j < |rr| :: Unreadable(rr[j], dnsName, weights)
    decreases |rr|
  {
    if rr != [] {
      var init := rr[..|rr| - 1];
      CoversInit(rr, dnsName, weights);
      ScanFails(dnsName, identifier, weights, init);
      if exists j | 0 <= j < |init| :: Unreadable(init[j], dnsName, weights) {
        var j :| 0 <= j < |init| && Unreadable(init[j], dnsName, weights);
        assert rr[j] == init[j];
      }
      if exists j | 0 <= j < |rr| :: Unreadable(rr[j], dnsName, weights) {
        var j :| 0 <= j < |rr| && Unreadable(rr[j], dnsName, weights);
        if j < |init| {
          assert init[j] == rr[j];
        }
      }
    }
  }

  /**
   * The flag did_the_upsert ends true exactly when the target's record is
   * among the records of `dnsName` and the target's new weight is not 0.
   */
  lemma {:induction false} ScanDidUpsert(dnsName: string, identifier: Identifier, weights: WeightMap, rr: seq<Record>)
    requires Covers(rr, dnsName, weights) && identifier in weights
    requires Scan(dnsName, identifier, weights, rr).Success?
    ensures Scan(dnsName, identifier, weights, rr).value.didUpsert
        <==> weights[identifier] != 0 && HasRecord(rr, dnsName, identifier)
    decreases |rr|
  {
    if rr != [] {
      CoversInit(rr, dnsName, weights);
      ScanDidUpsert(dnsName, identifier, weights, rr[..|rr| - 1]);
      HasRecordSnoc(rr, dnsName, identifier);
    }
  }

  /**
   * Minimality and completeness: the loop emits a change for a record of
   * `dnsName` exactly when the record is not in place, and that change is
   * a DELETE of the record for a new weight of 0 and an UPSERT carrying the
   * new weight otherwise; it emits nothing else.
   */
  lemma {:induction false} ScanChanges(dnsName: string, identifier: Identifier, weights: WeightMap, rr: seq<Record>)
    requires Covers(rr, dnsName, weights)
    requires Scan(dnsName, identifier, weights, rr).Success?
    ensures var changes := Scan(dnsName, identifier, weights, rr).value.changes;
      forall c :: c in changes <==>
        exists j | 0 <= j < |rr| && Matches(rr[j], dnsName) && !InPlace(rr[j], weights) :: c == ChangeOf(rr[j], weights)
    decreases |rr|
  {
    if rr != [] {
      var init := rr[..|rr| - 1];
      var r := rr[|rr| - 1];
      CoversInit(rr, dnsName, weights);
      ScanChanges(dnsName, identifier, weights, init);
      var before := Scan(dnsName, identifier, weights, init).value.changes;
      var changes := Scan(dnsName, identifier, weights, rr).value.changes;
      forall c
        ensures c in changes <==>
          exists j | 0 <= j < |rr| && Matches(rr[j], dnsName) && !InPlace(rr[j], weights) :: c == ChangeOf(rr[j], weights)
      {
        if c in changes {
          if c in before {
            var j :| 0 <= j < |init| && Matches(init[j], dnsName) && !InPlace(init[j], weights) && c == ChangeOf(init[j], weights);
            assert rr[j] == init[j];
          } else {
            assert Matches(r, dnsName) && !InPlace(r, weights) && c == ChangeOf(r, weights);
            assert rr[|rr| - 1] == r;
          }
        }
        if exists j | 0 <= j < |rr| && Matches(rr[j], dnsName) && !InPlace(rr[j], weights) :: c == ChangeOf(rr[j], weights) {
          var j :| 0 <= j < |rr| && Matches(rr[j], dnsName) && !InPlace(rr[j], weights) && c == ChangeOf(rr[j], weights);
          if j < |init| {
            assert init[j] == rr[j];
            assert c in before;
          }
        }
      }
    }
  }

  /**
   * A record is created for the target exactly when its new weight is
   * positive and no record of `dnsName` carries its set identifier.
   */
  lemma NewRecordIff(dnsName: string, identifier: Identifier, lbDnsName: string, weights: WeightMap, rr: seq<Record>)
    requires Covers(rr, dnsName, weights) && identifier in weights
    requires Scan(dnsName, identifier, weights, rr).Success?
    ensures var st := Scan(dnsName, identifier, weights, rr).value;
      ChangeList(dnsName, identifier, lbDnsName, weights, rr)
        == Success(if weights[identifier] > 0 && !HasRecord(rr, dnsName, identifier)
                   then st.changes + [Change(Upsert, NewRecord(dnsName, identifier, lbDnsName, weights[identifier]))]
                   else st.changes)
  {
    ScanDidUpsert(dnsName, identifier, weights, rr);
  }

  /**
   * No batch is needed exactly when every record of `dnsName` already holds
   * its non-zero new weight and, if the target should get traffic, it has a
   * record.
   */
  lemma NoChangesIff(dnsName: string, identifier: Identifier, lbDnsName: string, weights: WeightMap, rr: seq<Record>)
    requires Covers(rr, dnsName, weights) && identifier in weights
    ensures ChangeList(dnsName, identifier, lbDnsName, weights, rr) == Success([])
        <==> (forall j | 0 <= j < |rr| && Matches(rr[j], dnsName) :: InPlace(rr[j], weights))
             && (weights[identifier] > 0 ==> HasRecord(rr, dnsName, identifier))
  {
    ScanFails(dnsName, identifier, weights, rr);
    var allInPlace := forall j | 0 <= j < |rr| && Matches(rr[j], dnsName) :: InPlace(rr[j], weights);
    if allInPlace {
      forall j | 0 <= j < |rr| ensures !Unreadable(rr[j], dnsName, weights) {
      }
    }
    var scan := Scan(dnsName, identifier, weights, rr);
    if scan.Success? {
      ScanChanges(dnsName, identifier, weights, rr);
      ScanDidUpsert(dnsName, identifier, weights, rr);
      forall j | 0 <= j < |rr| && Matches(rr[j], dnsName)
        ensures !InPlace(rr[j], weights) ==> ChangeOf(rr[j], weights) in scan.value.changes
      {
      }
      if allInPlace {
        assert scan.value.changes == [] || scan.value.changes[0] in scan.value.changes;
      }
    }
  }

  /** The records of `dnsName` as Route53 holds them after the batch: deleted, or holding their new weight. */
  function Kept(dnsName: string, weights: WeightMap, rr: seq<Record>): (kept: seq<Record>)
    requires Covers(rr, dnsName, weights)
    ensures Covers(kept, dnsName, weights)
    ensures forall j | 0 <= j < |kept| && Matches(kept[j], dnsName) :: InPlace(kept[j], weights)
    decreases |rr|
  {
    if rr == [] then []
    else
      var r := rr[|rr| - 1];
      CoversInit(rr, dnsName, weights);
      var init := Kept(dnsName, weights, rr[..|rr| - 1]);
      if !Matches(r, dnsName) then init + [r]
      else if weights[r.setIdentifier] == 0 then init
      else init + [r.(weight := Some(weights[r.setIdentifier]))]
  }

  lemma {:induction false} KeptHasRecord(dnsName: string, identifier: Identifier, weights: WeightMap, rr: seq<Record>)
    requires Covers(rr, dnsName, weights) && identifier in weights && weights[identifier] != 0
    requires HasRecord(rr, dnsName, identifier)
    ensures HasRecord(Kept(dnsName, weights, rr), dnsName, identifier)
    decreases |rr|
  {
    var r := rr[|rr| - 1];
    CoversInit(rr, dnsName, weights);
    HasRecordSnoc(rr, dnsName, identifier);
    var init := Kept(dnsName, weights, rr[..|rr| - 1]);
    var kept := Kept(dnsName, weights, rr);
    if HasRecord(rr[..|rr| - 1], dnsName, identifier) {
      KeptHasRecord(dnsName, identifier, weights, rr[..|rr| - 1]);
      var j :| 0 <= j < |init| && Matches(init[j], dnsName) && init[j].setIdentifier == identifier;
      assert kept[j] == init[j];
    } else {
      assert kept[|kept| - 1] == r.(weight := Some(weights[identifier]));
    }
  }

  /** The record set after Route53 has executed the batch. */
  function Applied(dnsName: string, identifier: Identifier, lbDnsName: string, weights: WeightMap, rr: seq<Record>): (after: seq<Record>)
    requires Covers(rr, dnsName, weights) && identifier in weights
    ensures Covers(after, dnsName, weights)
  {
    var kept := Kept(dnsName, weights, rr);
    if weights[identifier] > 0 && !HasRecord(rr, dnsName, identifier) then
      kept + [NewRecord(dnsName, identifier, lbDnsName, weights[identifier])]
    else kept
  }

  // ---------------------------------------------------------------------------
  // Executing the batch

  /** Route53 identifies a record set by its name, type and set identifier. */
  predicate SameSet(a: Record, b: Record)
  {
    a.name == b.name && a.rtype == b.rtype && a.setIdentifier == b.setIdentifier
  }

  /** Some record of `rs` is the record set `r` names. */
  predicate HasSet(rs: seq<Record>, r: Record)
  {
    exists j | 0 <= j < |rs| :: SameSet(rs[j], r)
  }

  /** `rs` without the record set `r` names. */
  function Without(rs: seq<Record>, r: Record): (out: seq<Record>)
    ensures !HasSet(out, r)
    decreases |rs|
  {
    if rs == [] then []
    else
      var rest := Without(rs[1..], r);
      if SameSet(rs[0], r) then rest
      else
        assert forall j | 0 <= j < |rest| :: ([rs[0]] + rest)[j + 1] == rest[j];
        [rs[0]] + rest
  }

  /** `rs` with the record set `r` names replaced by `r`. */
  function Replace(rs: seq<Record>, r: Record): (out: seq<Record>)
  {
    seq(|rs|, j requires 0 <= j < |rs| => if SameSet(rs[j], r) then r else rs[j])
  }

  /**
   * One change as Route53 executes it: a DELETE removes the record set the
   * record names; an UPSERT replaces it, or adds the record when there is
   * none.
   */
  function ApplyChange(rs: seq<Record>, c: Change): seq<Record>
  {
    match c.action
    case Delete => Without(rs, c.record)
    case Upsert => if HasSet(rs, c.record) then Replace(rs, c.record) else rs + [c.record]
  }

  /** The record set after Route53 has executed the changes of a batch in order. */
  function ApplyBatch(rs: seq<Record>, cs: seq<Change>): seq<Record>
    decreases |cs|
  {
    if cs == [] then rs else ApplyChange(ApplyBatch(rs, cs[..|cs| - 1]), cs[|cs| - 1])
  }

  lemma ApplyBatchSnoc(rs: seq<Record>, cs: seq<Change>, c: Change)
    ensures ApplyBatch(rs, cs + [c]) == ApplyChange(ApplyBatch(rs, cs), c)
  {
    assert (cs + [c])[..|cs|] == cs;
  }

  lemma {:induction false} WithoutAbsent(rs: seq<Record>, r: Record)
    requires !HasSet(rs, r)
    ensures Without(rs, r) == rs
    decreases |rs|
  {
    if rs != [] {
      assert !SameSet(rs[0], r);
      assert !HasSet(rs[1..], r) by {
        forall j | 0 <= j < |rs| - 1 ensures !SameSet(rs[1..][j], r) {
          assert rs[1..][j] == rs[j + 1];
        }
      }
      WithoutAbsent(rs[1..], r);
      assert rs == [rs[0]] + rs[1..];
    }
  }

  lemma {:induction false} WithoutAppend(a: seq<Record>, b: seq<Record>, r: Record)
    ensures Without(a + b, r) == Without(a, r) + Without(b, r)
    decreases |a|
  {
    if a != [] {
      assert (a + b)[1..] == a[1..] + b && (a + b)[0] == a[0];
      WithoutAppend(a[1..], b, r);
    } else {
      assert a + b == b;
    }
  }

  lemma ReplaceAt(a: seq<Record>, r: Record, b: seq<Record>, r': Record)
    requires SameSet(r, r') && !HasSet(a, r') && !HasSet(b, r')
    ensures Replace(a + [r] + b, r') == a + [r'] + b
  {
    var s := a + [r] + b;
    forall j | 0 <= j < |s| ensures Replace(s, r')[j] == (a + [r'] + b)[j] {
      if j < |a| {
        assert s[j] == a[j];
      } else if j > |a| {
        assert s[j] == b[j - |a| - 1];
      }
    }
  }

  /** Kept changes weights only, so it holds no record set the records did not hold. */
  lemma {:induction false} KeptHasSet(dnsName: string, weights: WeightMap, rr: seq<Record>, r: Record)
    requires Covers(rr, dnsName, weights) && !HasSet(rr, r)
    ensures !HasSet(Kept(dnsName, weights, rr), r)
    decreases |rr|
  {
    if rr != [] {
      var init := rr[..|rr| - 1];
      CoversInit(rr, dnsName, weights);
      assert !HasSet(init, r) by {
        forall j | 0 <= j < |init| ensures !SameSet(init[j], r) {
          assert init[j] == rr[j];
        }
      }
      KeptHasSet(dnsName, weights, init, r);
      assert !SameSet(rr[|rr| - 1], r);
    }
  }

  /** With one record per set identifier, a record of `dnsName` shares its record set with no other record. */
  lemma UniqueSet(init: seq<Record>, r: Record, post: seq<Record>, dnsName: string, r': Record)
    requires UniqueIdentifiers(init + [r] + post, dnsName) && Matches(r, dnsName) && SameSet(r, r')
    ensures !HasSet(init, r') && !HasSet(post, r')
  {
    var s := init + [r] + post;
    assert s[|init|] == r;
    forall j | 0 <= j < |init| ensures !SameSet(init[j], r') {
      assert s[j] == init[j];
    }
    forall j | 0 <= j < |post| ensures !SameSet(post[j], r') {
      assert s[|init| + 1 + j] == post[j];
    }
  }

  /** A DELETE of a record set held once removes just that record. */
  lemma DeleteStep(rs: seq<Record>, before: seq<Change>, k: seq<Record>, r: Record, post: seq<Record>)
    requires ApplyBatch(rs, before) == k + [r] + post && !HasSet(k, r) && !HasSet(post, r)
    ensures ApplyBatch(rs, before + [Change(Delete, r)]) == k + post
  {
    ApplyBatchSnoc(rs, before, Change(Delete, r));
    WithoutAppend(k + [r], post, r);
    WithoutAppend(k, [r], r);
    WithoutAbsent(k, r);
    WithoutAbsent(post, r);
    assert Without([r], r) == [];
  }

  /** An UPSERT of a record set held once replaces just that record. */
  lemma UpsertStep(rs: seq<Record>, before: seq<Change>, k: seq<Record>, r: Record, post: seq<Record>, r': Record)
    requires ApplyBatch(rs, before) == k + [r] + post && SameSet(r, r') && !HasSet(k, r') && !HasSet(post, r')
    ensures ApplyBatch(rs, before + [Change(Upsert, r')]) == k + [r'] + post
  {
    ApplyBatchSnoc(rs, before, Change(Upsert, r'));
    assert (k + [r] + post)[|k|] == r;
    ReplaceAt(k, r, post, r');
  }

  /** The change the loop emits for the last record of `pre` does to the records what Kept does. */
  lemma AppliedLast(dnsName: string, identifier: Identifier, weights: WeightMap,
                    init: seq<Record>, r: Record, post: seq<Record>)
    requires Covers(init + [r], dnsName, weights) && Covers(init, dnsName, weights)
    requires UniqueIdentifiers(init + [r] + post, dnsName)
    requires Scan(dnsName, identifier, weights, init + [r]).Success?
    requires Scan(dnsName, identifier, weights, init).Success?
    requires ApplyBatch(init + [r] + post, Scan(dnsName, identifier, weights, init).value.changes)
          == Kept(dnsName, weights, init) + [r] + post
    ensures ApplyBatch(init + [r] + post, Scan(dnsName, identifier, weights, init + [r]).value.changes)
         == Kept(dnsName, weights, init + [r]) + post
  {
    var pre := init + [r];
    assert pre[..|pre| - 1] == init && pre[|pre| - 1] == r;
    var before := Scan(dnsName, identifier, weights, init).value.changes;
    var k := Kept(dnsName, weights, init);
    if Matches(r, dnsName) {
      var w := weights[r.setIdentifier];
      var r' := if w == 0 then r else r.(weight := Some(w));
      assert SameSet(r, r');
      UniqueSet(init, r, post, dnsName, r');
      KeptHasSet(dnsName, weights, init, r');
      if w == 0 {
        assert Scan(dnsName, identifier, weights, pre).value.changes == before + [Change(Delete, r)];
        assert Kept(dnsName, weights, pre) == k;
        DeleteStep(pre + post, before, k, r, post);
      } else if r.weight != Some(w) {
        assert Scan(dnsName, identifier, weights, pre).value.changes == before + [Change(Upsert, r')];
        assert Kept(dnsName, weights, pre) == k + [r'];
        UpsertStep(pre + post, before, k, r, post, r');
      } else {
        assert r' == r;
      }
    }
  }

  /**
   * Executing the changes the loop collected over `pre` leaves those
   * records as Kept describes them and the records after them untouched.
   */
  lemma {:induction false} ScanApplied(dnsName: string, identifier: Identifier, weights: WeightMap,
                                       pre: seq<Record>, post: seq<Record>)
    requires Covers(pre, dnsName, weights) && UniqueIdentifiers(pre + post, dnsName)
    requires Scan(dnsName, identifier, weights, pre).Success?
    ensures ApplyBatch(pre + post, Scan(dnsName, identifier, weights, pre).value.changes)
         == Kept(dnsName, weights, pre) + post
    decreases |pre|
  {
    if pre == [] {
      assert pre + post == post;
    } else {
      var init := pre[..|pre| - 1];
      var r := pre[|pre| - 1];
      CoversInit(pre, dnsName, weights);
      assert pre == init + [r];
      assert pre + post == init + ([r] + post) && pre + post == init + [r] + post;
      ScanApplied(dnsName, identifier, weights, init, [r] + post);
      AppliedLast(dnsName, identifier, weights, init, r, post);
    }
  }

  /**
   * The batch does what Kept and Applied describe: executing the change
   * list on the listed records yields exactly Applied's record set.
   */
  lemma BatchApplied(dnsName: string, identifier: Identifier, lbDnsName: string, weights: WeightMap,
                     rr: seq<Record>, cs: seq<Change>)
    requires Covers(rr, dnsName, weights) && identifier in weights && UniqueIdentifiers(rr, dnsName)
    requires ChangeList(dnsName, identifier, lbDnsName, weights, rr) == Success(cs)
    ensures ApplyBatch(rr, cs) == Applied(dnsName, identifier, lbDnsName, weights, rr)
  {
    var st := Scan(dnsName, identifier, weights, rr).value;
    assert rr + [] == rr;
    ScanApplied(dnsName, identifier, weights, rr, []);
    var kept := Kept(dnsName, weights, rr);
    assert kept + [] == kept;
    ScanDidUpsert(dnsName, identifier, weights, rr);
    if weights[identifier] > 0 && !st.didUpsert {
      var n := NewRecord(dnsName, identifier, lbDnsName, weights[identifier]);
      assert !HasSet(rr, n) by {
        forall j | 0 <= j < |rr| ensures !SameSet(rr[j], n) {
          assert !(Matches(rr[j], dnsName) && rr[j].setIdentifier == identifier);
        }
      }
      KeptHasSet(dnsName, weights, rr, n);
      ApplyBatchSnoc(rr, st.changes, Change(Upsert, n));
    }
  }

  /**
   * Running set_new_weights again on the records its batch produced
   * changes nothing.
   */
  lemma Idempotent(dnsName: string, identifier: Identifier, lbDnsName: string, weights: WeightMap,
                   rr: seq<Record>, cs: seq<Change>)
    requires Covers(rr, dnsName, weights) && identifier in weights && UniqueIdentifiers(rr, dnsName)
    requires ChangeList(dnsName, identifier, lbDnsName, weights, rr) == Success(cs)
    ensures var after := ApplyBatch(rr, cs);
      after == Applied(dnsName, identifier, lbDnsName, weights, rr)
      && ChangeList(dnsName, identifier, lbDnsName, weights, after) == Success([])
  {
    BatchApplied(dnsName, identifier, lbDnsName, weights, rr, cs);
    AppliedInPlace(dnsName, identifier, lbDnsName, weights, rr);
  }

  /** Every record of `dnsName` in Applied's record set is in place, and a live target has one. */
  lemma AppliedInPlace(dnsName: string, identifier: Identifier, lbDnsName: string, weights: WeightMap, rr: seq<Record>)
    requires Covers(rr, dnsName, weights) && identifier in weights
    ensures var after := Applied(dnsName, identifier, lbDnsName, weights, rr);
      ChangeList(dnsName, identifier, lbDnsName, weights, after) == Success([])
  {
    var kept := Kept(dnsName, weights, rr);
    var after := Applied(dnsName, identifier, lbDnsName, weights, rr);
    var created := weights[identifier] > 0 && !HasRecord(rr, dnsName, identifier);
    forall j | 0 <= j < |after| && Matches(after[j], dnsName) ensures InPlace(after[j], weights) {
      if j < |kept| {
        assert after[j] == kept[j];
      }
    }
    if weights[identifier] > 0 {
      if created {
        assert after[|after| - 1] == NewRecord(dnsName, identifier, lbDnsName, weights[identifier]);
      } else {
        KeptHasRecord(dnsName, identifier, weights, rr);
        var j :| 0 <= j < |kept| && Matches(kept[j], dnsName) && kept[j].setIdentifier == identifier;
        assert after[j] == kept[j];
      }
    }
    NoChangesIff(dnsName, identifier, lbDnsName, weights, after);
  }
}
