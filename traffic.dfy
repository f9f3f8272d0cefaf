/**
 * Shifting traffic to one version of a stack: the stack versions and their
 * names, the three-way weight decision of change_version_traffic, and the
 * whole computation from the listed records to the change batch.
 */
module Traffic {
  import opened Wrappers
  import opened TrafficWeights
  import opened TrafficCompensate
  import opened TrafficChanges

  /** A deployed version of a stack, with the domain and load balancer found among its resources. */
  datatype StackVersion = StackVersion(name: string, version: string, domain: Option<string>, lbDnsName: string)
  {
    /** The set identifier of the version's weighted record: `<name>-<version>`. */
    function Identifier(): Identifier
    {
      name + "-" + version
    }

    /** The fully qualified record name: the domain with a trailing dot. */
    function DnsName(): string
      requires domain.Some?
    {
      domain.value + "."
    }
  }

  /** Within one stack, the set identifier determines the version. */
  lemma IdentifierInjective(a: StackVersion, b: StackVersion)
    requires a.name == b.name
    ensures a.Identifier() == b.Identifier() <==> a.version == b.version
  {
    if a.Identifier() == b.Identifier() {
      var n := |a.name| + 1;
      assert a.version == a.Identifier()[n..] == b.Identifier()[n..] == b.version;
    }
  }

  /**
   * Versions with different domains read and write different record
   * names, so a traffic change on one domain never matches the records of
   * another.
   */
  lemma DnsNameInjective(a: StackVersion, b: StackVersion)
    requires a.domain.Some? && b.domain.Some?
    ensures a.DnsName() == b.DnsName() <==> a.domain == b.domain
  {
    if a.DnsName() == b.DnsName() {
      var d := a.DnsName();
      assert a.domain.value == d[..|d| - 1] == b.domain.value;
    }
  }

  datatype TrafficError =
    | VersionNotFound(version: string)
    | NoDomain(name: string, version: string)
    | DomainWithoutDot(domain: string)
    | WeightNotANumber(setIdentifier: Identifier)

  /** get_version: the first stack version with the given version label. */
  function GetVersion(versions: seq<StackVersion>, version: string): (r: Result<StackVersion, TrafficError>)
    ensures r.Success? <==> exists i | 0 <= i < |versions| :: versions[i].version == version
    ensures r.Success? ==> exists i | 0 <= i < |versions| :: versions[i] == r.value && versions[i].version == version
                             && forall j | 0 <= j < i :: versions[j].version != version
    ensures r.Failure? ==> r.error == VersionNotFound(version)
  {
    if versions == [] then Failure(VersionNotFound(version))
    else if versions[0].version == version then Success(versions[0])
    else
      var r := GetVersion(versions[1..], version);
      assert forall i | 0 <= i < |versions[1..]| :: versions[1..][i] == versions[i + 1];
      r
  }

  /** identifier_versions: set identifiers in first-seen order, each mapped to its version label. */
  datatype IdentifierVersions = IdentifierVersions(keys: seq<Identifier>, labels: VersionMap)

  /** The OrderedDict built from the stack versions; a later duplicate overwrites the label. */
  function VersionIndex(versions: seq<StackVersion>): (ix: IdentifierVersions)
    ensures Distinct(ix.keys)
    ensures forall k | k in ix.keys :: k in ix.labels
    ensures forall k | k in ix.labels :: k in ix.keys
    ensures forall i | 0 <= i < |versions| :: versions[i].Identifier() in ix.labels
    decreases |versions|
  {
    if versions == [] then IdentifierVersions([], map[])
    else
      var init := versions[..|versions| - 1];
      var v := versions[|versions| - 1];
      var ix := VersionIndex(init);
      assert forall i | 0 <= i < |init| :: init[i] == versions[i];
      var keys := if v.Identifier() in ix.labels then ix.keys else ix.keys + [v.Identifier()];
      assert Distinct(keys) by {
        if v.Identifier() !in ix.labels {
          forall i, j | 0 <= i < j < |keys| ensures keys[i] != keys[j] {
            if j < |ix.keys| {
              assert keys[i] == ix.keys[i] && keys[j] == ix.keys[j];
            } else {
              assert keys[i] == ix.keys[i] && keys[i] in ix.keys;
            }
          }
        }
      }
      IdentifierVersions(keys, ix.labels[v.Identifier() := v.version])
  }

  /** Each identifier is labelled with the version of its last stack version. */
  lemma {:induction false} VersionIndexLabels(versions: seq<StackVersion>, i: nat)
    requires i < |versions|
    requires forall j | i < j < |versions| :: versions[j].Identifier() != versions[i].Identifier()
    ensures VersionIndex(versions).labels[versions[i].Identifier()] == versions[i].version
    decreases |versions|
  {
    var init := versions[..|versions| - 1];
    if i < |versions| - 1 {
      assert forall j | 0 <= j < |init| :: init[j] == versions[j];
      VersionIndexLabels(init, i);
    }
  }

  /** The part of the domain after its first dot, which names the hosted zone. */
  function ZoneDomain(domain: string): (r: Result<string, TrafficError>)
    ensures r.Success? <==> '.' in domain
    ensures r.Success? ==> exists i | 0 <= i < |domain| :: domain[i] == '.' && '.' !in domain[..i] && r.value == domain[i + 1..]
    ensures r.Failure? ==> r.error == DomainWithoutDot(domain)
  {
    if domain == [] then Failure(DomainWithoutDot(domain))
    else if domain[0] == '.' then Success(domain[1..])
    else
      match ZoneDomain(domain[1..])
      case Failure(_) =>
        assert '.' !in domain;
        Failure(DomainWithoutDot(domain))
      case Success(rest) =>
        var i :| 0 <= i < |domain[1..]| && domain[1..][i] == '.' && '.' !in domain[1..][..i] && rest == domain[1..][i + 1..];
        assert domain[..i + 1] == [domain[0]] + domain[1..][..i];
        assert domain[i + 2..] == domain[1..][i + 1..];
        Success(rest)
  }

  // ---------------------------------------------------------------------------
  // The weight decision

  /** The outcome of the decision: weights, compensations, deltas, and the percentage finally used. */
  datatype Plan = Plan(weights: WeightMap, compensations: WeightMap, deltas: WeightMap, percentage: int, adjusted: bool)

  /** Neither another version with traffic nor traffic asked for: the record is to be removed. */
  predicate Disables(s: Snapshot, percentage: int)
  {
    s.partialCount == 0 && percentage == 0
  }

  /** A request with no other live version is promoted to the full percentage. */
  function Promoted(s: Snapshot, percentage: int): int
  {
    if s.partialCount == 0 && percentage > 0 then FULL_PERCENTAGE else percentage
  }

  /** The even split of what the target leaves over the other live versions, truncated. */
  function SplitDelta(s: Snapshot, percentage: int): int
  {
    if s.partialCount > 0 then TruncDiv(FULL_PERCENTAGE - percentage - s.partialSum, s.partialCount) else 0
  }

  /** The allocation before compensation. */
  function Allocate(s: Snapshot, identifier: Identifier, percentage: int): Allocation
  {
    CalculateNewWeights(SplitDelta(s, percentage), identifier, s.weights, Promoted(s, percentage))
  }

  /** How far the allocation misses FULL_PERCENTAGE. */
  function AllocationError(s: Snapshot, identifier: Identifier, percentage: int): int
    requires KeyOrder(s.keys, s.weights)
  {
    FULL_PERCENTAGE - SumOf(s.keys, Allocate(s, identifier, percentage).weights)
  }

  /** When the target takes everything, the allocation is exact. */
  lemma FullAllocationExact(s: Snapshot, identifier: Identifier, delta: int)
    requires KeyOrder(s.keys, s.weights) && identifier in s.weights
    ensures SumOf(s.keys, CalculateNewWeights(delta, identifier, s.weights, FULL_PERCENTAGE).weights) == FULL_PERCENTAGE
  {
    var a := CalculateNewWeights(delta, identifier, s.weights, FULL_PERCENTAGE);
    SumOfOnlyTarget(s.keys, a.weights, identifier);
  }

  /**
   * The weight decision of change_version_traffic: disable the last
   * version, promote a sole survivor to FULL_PERCENTAGE, or split the
   * remainder over the other live versions and compensate the rounding.
   */
  function NewWeights(s: Snapshot, identifier: Identifier, percentage: int, labels: VersionMap): (p: Plan)
    requires KeyOrder(s.keys, s.weights) && identifier in s.weights
    requires forall k | k in s.keys :: k in labels
    requires 0 <= percentage <= FULL_PERCENTAGE
    ensures p.weights.Keys == s.weights.Keys
  {
    if Disables(s, percentage) then
      Plan(map i | i in s.weights :: 0, map[], map[], percentage, false)
    else
      var comp0: WeightMap := if s.partialCount == 0 then map[identifier := FULL_PERCENTAGE - percentage] else map[];
      var pct := Promoted(s, percentage);
      var a := Allocate(s, identifier, percentage);
      var error := AllocationError(s, identifier, percentage);
      if error != 0 && error < FULL_PERCENTAGE then
        FullAllocationExact(s, identifier, SplitDelta(s, percentage));
        CompensatedConserves(error, comp0, identifier, s.keys, a.weights, s.partialCount, pct, labels);
        var c := Compensated(error, comp0, identifier, s.keys, a.weights, s.partialCount, pct, labels);
        Plan(c.weights, c.compensations, a.deltas, c.percentage, c.adjusted)
      else
        Plan(a.weights, comp0, a.deltas, pct, false)
  }

  /** What get_weights guarantees about a snapshot of records with unique identifiers and non-negative weights. */
  predicate Consistent(s: Snapshot, identifier: Identifier)
  {
    && KeyOrder(s.keys, s.weights) && NonNegative(s.weights) && identifier in s.weights
    && s.partialCount == LiveCount(s.keys, s.weights, identifier)
    && s.partialSum == SumOf(s.keys, s.weights) - s.weights[identifier]
  }

  /** Outside the disable case the allocation sums to at least 1. */
  lemma {:induction false} AllocationPositive(s: Snapshot, identifier: Identifier, percentage: int)
    requires Consistent(s, identifier)
    requires 0 <= percentage <= FULL_PERCENTAGE && !Disables(s, percentage)
    ensures SumOf(s.keys, Allocate(s, identifier, percentage).weights) >= 1
  {
    var a := Allocate(s, identifier, percentage);
    assert forall x | x in s.keys :: x in a.weights && a.weights[x] >= 0;
    if Promoted(s, percentage) == FULL_PERCENTAGE {
      SumOfAtLeastOne(s.keys, a.weights, identifier);
    } else {
      LiveWitness(s.keys, s.weights, identifier);
      var k :| k in s.keys && k != identifier && s.weights[k] > 0;
      SumOfAtLeastOne(s.keys, a.weights, k);
    }
  }

  /**
   * The guard `calculation_error < FULL_PERCENTAGE` never fails: outside the
   * disable case a rounding error other than 0 always goes to compensate.
   */
  lemma ErrorBelowFull(s: Snapshot, identifier: Identifier, percentage: int)
    requires Consistent(s, identifier)
    requires 0 <= percentage <= FULL_PERCENTAGE && !Disables(s, percentage)
    ensures AllocationError(s, identifier, percentage) < FULL_PERCENTAGE
  {
    AllocationPositive(s, identifier, percentage);
  }

  /** Total conservation: outside the disable case the new weights sum to FULL_PERCENTAGE. */
  lemma TotalIsFull(s: Snapshot, identifier: Identifier, percentage: int, labels: VersionMap)
    requires Consistent(s, identifier)
    requires forall k | k in s.keys :: k in labels
    requires 0 <= percentage <= FULL_PERCENTAGE && !Disables(s, percentage)
    ensures SumOf(s.keys, NewWeights(s, identifier, percentage, labels).weights) == FULL_PERCENTAGE
  {
    ErrorBelowFull(s, identifier, percentage);
    var a := Allocate(s, identifier, percentage);
    var error := AllocationError(s, identifier, percentage);
    if error != 0 {
      var comp0: WeightMap := if s.partialCount == 0 then map[identifier := FULL_PERCENTAGE - percentage] else map[];
      var pct := Promoted(s, percentage);
      FullAllocationExact(s, identifier, SplitDelta(s, percentage));
      CompensatedConserves(error, comp0, identifier, s.keys, a.weights, s.partialCount, pct, labels);
      var c := Compensated(error, comp0, identifier, s.keys, a.weights, s.partialCount, pct, labels);
      assert NewWeights(s, identifier, percentage, labels).weights == c.weights;
    }
  }

  /** Disabling sets every weight to 0 and leaves the percentage at 0. */
  lemma DisableAll(s: Snapshot, identifier: Identifier, percentage: int, labels: VersionMap)
    requires KeyOrder(s.keys, s.weights) && identifier in s.weights
    requires forall k | k in s.keys :: k in labels
    requires 0 <= percentage <= FULL_PERCENTAGE && Disables(s, percentage)
    ensures var p := NewWeights(s, identifier, percentage, labels);
      SumOf(s.keys, p.weights) == 0 && (forall k | k in p.weights :: p.weights[k] == 0) && p.percentage == 0
  {
    var p := NewWeights(s, identifier, percentage, labels);
    SumOfOnlyTarget(s.keys, p.weights, identifier);
  }

  /**
   * Sole survivor: with no other version getting traffic, any positive
   * request puts the target at FULL_PERCENTAGE, every other version at 0,
   * and records the difference as the target's compensation.
   */
  lemma SoleSurvivor(s: Snapshot, identifier: Identifier, percentage: int, labels: VersionMap)
    requires KeyOrder(s.keys, s.weights) && identifier in s.weights
    requires forall k | k in s.keys :: k in labels
    requires 0 < percentage <= FULL_PERCENTAGE && s.partialCount == 0
    ensures var p := NewWeights(s, identifier, percentage, labels);
      && p.weights[identifier] == FULL_PERCENTAGE == p.percentage
      && (forall k | k in p.weights && k != identifier :: p.weights[k] == 0)
      && p.compensations == map[identifier := FULL_PERCENTAGE - percentage]
      && !p.adjusted
  {
    FullAllocationExact(s, identifier, 0);
  }

  /**
   * The target ends at the returned percentage; that is the requested one
   * unless compensate adjusted it, in which case the adjustment is the
   * target's compensation.
   */
  lemma TargetWeight(s: Snapshot, identifier: Identifier, percentage: int, labels: VersionMap)
    requires Consistent(s, identifier)
    requires forall k | k in s.keys :: k in labels
    requires 0 <= percentage <= FULL_PERCENTAGE && s.partialCount > 0
    ensures var p := NewWeights(s, identifier, percentage, labels);
      && p.weights[identifier] == p.percentage
      && (!p.adjusted ==> p.percentage == percentage)
      && (p.adjusted ==> identifier in p.compensations && p.compensations[identifier] == p.percentage - percentage != 0)
  {
    ErrorBelowFull(s, identifier, percentage);
    var a := Allocate(s, identifier, percentage);
    var error := AllocationError(s, identifier, percentage);
    if error != 0 {
      CompensatedConserves(error, map[], identifier, s.keys, a.weights, s.partialCount, percentage, labels);
      var c := Compensated(error, map[], identifier, s.keys, a.weights, s.partialCount, percentage, labels);
      assert NewWeights(s, identifier, percentage, labels) == Plan(c.weights, c.compensations, a.deltas, c.percentage, c.adjusted);
    }
  }

  /**
   * Floor: unless the target asks for everything, a version other than the
   * target that had traffic keeps a weight of at least 1.
   */
  lemma LiveVersionsKeepTraffic(s: Snapshot, identifier: Identifier, percentage: int, labels: VersionMap)
    requires Consistent(s, identifier)
    requires forall k | k in s.keys :: k in labels
    requires 0 <= percentage < FULL_PERCENTAGE
    ensures var p := NewWeights(s, identifier, percentage, labels);
      forall k | k in s.weights && k != identifier && s.weights[k] > 0 :: p.weights[k] >= 1
  {
    if s.partialCount > 0 {
      var a := Allocate(s, identifier, percentage);
      var error := AllocationError(s, identifier, percentage);
      ErrorBelowFull(s, identifier, percentage);
      if error != 0 {
        CompensatedSteps(error, map[], identifier, s.keys, a.weights, s.partialCount, percentage, labels);
      }
    } else {
      NoLiveMeansZero(s.keys, s.weights, identifier);
    }
  }

  // ---------------------------------------------------------------------------
  // change_version_traffic

  /** Every record of `dnsName` belongs to a known stack version (else sorting by label raises a KeyError). */
  predicate KnownRecords(rr: seq<Record>, dnsName: string, labels: VersionMap)
  {
    forall j | 0 <= j < |rr| && Matches(rr[j], dnsName) :: rr[j].setIdentifier in labels
  }

  /** What one traffic change computes: the snapshot read, the decision, and the change batch. */
  datatype Shift = Shift(dnsName: string, identifier: Identifier, snapshot: Snapshot, plan: Plan, changes: seq<Change>)

  /** The snapshot of a known version holds only labelled identifiers and covers every record of its name. */
  lemma SnapshotLabelled(rr: seq<Record>, v: StackVersion, versions: seq<StackVersion>)
    requires v in versions && v.domain.Some?
    requires KnownRecords(rr, v.DnsName(), VersionIndex(versions).labels)
    ensures var ix := VersionIndex(versions);
      var s := GetWeights(v.DnsName(), v.Identifier(), rr, ix.keys);
      && (forall k | k in s.keys :: k in ix.labels)
      && Covers(rr, v.DnsName(), s.weights)
  {
    var ix := VersionIndex(versions);
    var s := GetWeights(v.DnsName(), v.Identifier(), rr, ix.keys);
    forall j | 0 <= j < |rr| && Matches(rr[j], v.DnsName()) ensures rr[j].setIdentifier in s.weights {
      assert rr[j].setIdentifier in MatchingIds(rr, v.DnsName());
    }
  }

  /** change_version_traffic from the listed records to the change batch, or the error it raises. */
  function ShiftTraffic(versions: seq<StackVersion>, version: string, percentage: int, rr: seq<Record>): (r: Result<Shift, TrafficError>)
    requires 0 <= percentage <= FULL_PERCENTAGE
    requires forall v | v in versions && v.domain.Some? :: KnownRecords(rr, v.DnsName(), VersionIndex(versions).labels)
    ensures r.Success? ==>
      && KeyOrder(r.value.snapshot.keys, r.value.snapshot.weights)
      && r.value.identifier in r.value.snapshot.weights
      && r.value.plan.weights.Keys == r.value.snapshot.weights.Keys
      && Covers(rr, r.value.dnsName, r.value.plan.weights)
  {
    match GetVersion(versions, version)
    case Failure(e) => Failure(e)
    case Success(v) =>
      if v.domain.None? || v.domain.value == "" then Failure(NoDomain(v.name, v.version))
      else
        match ZoneDomain(v.domain.value)
        case Failure(e) => Failure(e)
        case Success(_) => ShiftAt(versions, v, percentage, rr)
  }

  /** The rest of change_version_traffic once the version and its hosted zone are found. */
  function ShiftAt(versions: seq<StackVersion>, v: StackVersion, percentage: int, rr: seq<Record>): (r: Result<Shift, TrafficError>)
    requires v in versions && v.domain.Some?
    requires 0 <= percentage <= FULL_PERCENTAGE
    requires KnownRecords(rr, v.DnsName(), VersionIndex(versions).labels)
    ensures r.Success? ==>
      && KeyOrder(r.value.snapshot.keys, r.value.snapshot.weights)
      && r.value.identifier in r.value.snapshot.weights
      && r.value.plan.weights.Keys == r.value.snapshot.weights.Keys
      && Covers(rr, r.value.dnsName, r.value.plan.weights)
  {
    var ix := VersionIndex(versions);
    var s := GetWeights(v.DnsName(), v.Identifier(), rr, ix.keys);
    SnapshotLabelled(rr, v, versions);
    var plan := NewWeights(s, v.Identifier(), percentage, ix.labels);
    match ChangeList(v.DnsName(), v.Identifier(), v.lbDnsName, plan.weights, rr)
    case Failure(e) => Failure(TrafficError.WeightNotANumber(e.setIdentifier))
    case Success(changes) => Success(Shift(v.DnsName(), v.Identifier(), s, plan, changes))
  }

  /** The weight decision of change_version_traffic, as the source computes it. */
  method DecideWeights(s: Snapshot, identifier: Identifier, percentage: int, labels: VersionMap) returns (plan: Plan)
    requires KeyOrder(s.keys, s.weights) && identifier in s.weights
    requires forall k | k in s.keys :: k in labels
    requires 0 <= percentage <= FULL_PERCENTAGE
    ensures plan == NewWeights(s, identifier, percentage, labels)
  {
    var newWeights: WeightMap;
    var compensations: WeightMap := map[];
    var deltas: WeightMap := map[];
    var pct := percentage;
    var adjusted := false;
    if s.partialCount == 0 && pct == 0 {
      newWeights := map i | i in s.weights :: 0;
    } else {
      var delta := 0;
      if s.partialCount > 0 {
        delta := TruncDiv(FULL_PERCENTAGE - pct - s.partialSum, s.partialCount);
      } else if pct > 0 {
        compensations := compensations[identifier := FULL_PERCENTAGE - pct];
        pct := FULL_PERCENTAGE;
      }
      assert pct == Promoted(s, percentage) && delta == SplitDelta(s, percentage);
      var a := CalculateNewWeights(delta, identifier, s.weights, pct);
      assert a == Allocate(s, identifier, percentage);
      newWeights, deltas := a.weights, a.deltas;
      var error := FULL_PERCENTAGE - SumOf(s.keys, newWeights);
      assert error == AllocationError(s, identifier, percentage);
      if error != 0 && error < FULL_PERCENTAGE {
        FullAllocationExact(s, identifier, delta);
        newWeights, compensations, pct, adjusted :=
          Compensate(error, compensations, identifier, s.keys, newWeights, s.partialCount, pct, labels);
      }
    }
    plan := Plan(newWeights, compensations, deltas, pct, adjusted);
  }

  /**
   * change_version_traffic after the stack versions and the records have
   * been listed: chooses the version, reads the weights, decides the new
   * ones, and builds the change batch, overwriting the weights of the
   * records it upserts.
   */
  method ChangeVersionTraffic(versions: seq<StackVersion>, version: string, percentage: int, rr: array<Record>)
    returns (res: Result<Shift, TrafficError>)
    requires 0 <= percentage <= FULL_PERCENTAGE
    requires forall v | v in versions && v.domain.Some? :: KnownRecords(rr[..], v.DnsName(), VersionIndex(versions).labels)
    modifies rr
    ensures res == ShiftTraffic(versions, version, percentage, old(rr[..]))
    ensures res.Success? ==>
      forall j | 0 <= j < rr.Length :: rr[j] == Overwrite(old(rr[j]), res.value.dnsName, res.value.plan.weights)
    ensures res.Failure? && !res.error.WeightNotANumber? ==> rr[..] == old(rr[..])
  {
    var found := GetVersion(versions, version);
    if found.Failure? {
      return Failure(found.error);
    }
    var v := found.value;
    if v.domain.None? || v.domain.value == "" {
      return Failure(NoDomain(v.name, v.version));
    }
    var zone := ZoneDomain(v.domain.value);
    if zone.Failure? {
      return Failure(zone.error);
    }
    var ix := VersionIndex(versions);
    var identifier := v.Identifier();
    var dnsName := v.DnsName();
    var s := GetWeights(dnsName, identifier, rr[..], ix.keys);
    SnapshotLabelled(rr[..], v, versions);

    var plan := DecideWeights(s, identifier, percentage, ix.labels);
    var changes := SetNewWeights(dnsName, identifier, v.lbDnsName, plan.weights, rr);
    if changes.Failure? {
      return Failure(TrafficError.WeightNotANumber(changes.error.setIdentifier));
    }
    return Success(Shift(dnsName, identifier, s, plan, changes.value));
  }


  /** get_weights yields a consistent snapshot when identifiers are unique and stored weights non-negative. */
  lemma SnapshotConsistent(dnsName: string, identifier: Identifier, rr: seq<Record>, allIdentifiers: seq<Identifier>)
    requires UniqueIdentifiers(rr, dnsName) && StoredNonNegative(rr)
    ensures Consistent(GetWeights(dnsName, identifier, rr, allIdentifiers), identifier)
  {
    GetWeightsPartial(dnsName, identifier, rr, allIdentifiers);
  }

  /**
   * The weight decision keeps the traffic whole: it disables everything, or
   * the new weights sum to FULL_PERCENTAGE, and below the full percentage
   * every other version that had traffic keeps some.
   */
  lemma PlanConservesTraffic(s: Snapshot, identifier: Identifier, percentage: int, labels: VersionMap)
    requires Consistent(s, identifier)
    requires forall k | k in s.keys :: k in labels
    requires 0 <= percentage <= FULL_PERCENTAGE
    ensures var p := NewWeights(s, identifier, percentage, labels);
      && (Disables(s, percentage) ==> forall k | k in p.weights :: p.weights[k] == 0)
      && (!Disables(s, percentage) ==> SumOf(s.keys, p.weights) == FULL_PERCENTAGE)
      && (percentage < FULL_PERCENTAGE ==>
            forall k | k in s.weights && k != identifier && s.weights[k] > 0 :: p.weights[k] >= 1)
  {
    if Disables(s, percentage) {
      DisableAll(s, identifier, percentage, labels);
    } else {
      TotalIsFull(s, identifier, percentage, labels);
    }
    if percentage < FULL_PERCENTAGE {
      LiveVersionsKeepTraffic(s, identifier, percentage, labels);
    }
  }

  /** The traffic laws for the version found: the success value is the decision on its snapshot. */
  lemma ShiftAtConserves(versions: seq<StackVersion>, v: StackVersion, percentage: int, rr: seq<Record>)
    requires v in versions && v.domain.Some?
    requires 0 <= percentage <= FULL_PERCENTAGE
    requires KnownRecords(rr, v.DnsName(), VersionIndex(versions).labels)
    requires UniqueIdentifiers(rr, v.DnsName()) && StoredNonNegative(rr)
    requires ShiftAt(versions, v, percentage, rr).Success?
    ensures var sh := ShiftAt(versions, v, percentage, rr).value;
      && (Disables(sh.snapshot, percentage) ==> forall k | k in sh.plan.weights :: sh.plan.weights[k] == 0)
      && (!Disables(sh.snapshot, percentage) ==> SumOf(sh.snapshot.keys, sh.plan.weights) == FULL_PERCENTAGE)
      && (percentage < FULL_PERCENTAGE ==>
            forall k | k in sh.snapshot.weights && k != sh.identifier && sh.snapshot.weights[k] > 0 :: sh.plan.weights[k] >= 1)
  {
    var ix := VersionIndex(versions);
    var s := GetWeights(v.DnsName(), v.Identifier(), rr, ix.keys);
    SnapshotLabelled(rr, v, versions);
    var sh := ShiftAt(versions, v, percentage, rr).value;
    assert sh.snapshot == s && sh.identifier == v.Identifier()
        && sh.plan == NewWeights(s, v.Identifier(), percentage, ix.labels);
    SnapshotConsistent(v.DnsName(), v.Identifier(), rr, ix.keys);
    PlanConservesTraffic(s, v.Identifier(), percentage, ix.labels);
  }

  /**
   * End to end: unless the last version is disabled, a traffic change
   * leaves weights that sum to FULL_PERCENTAGE, and every other version
   * that had traffic keeps some unless the target asked for everything.
   */
  lemma ShiftConservesTraffic(versions: seq<StackVersion>, version: string, percentage: int, rr: seq<Record>)
    requires 0 <= percentage <= FULL_PERCENTAGE
    requires forall v | v in versions && v.domain.Some? :: KnownRecords(rr, v.DnsName(), VersionIndex(versions).labels)
    requires forall v | v in versions && v.domain.Some? :: UniqueIdentifiers(rr, v.DnsName())
    requires StoredNonNegative(rr)
    requires ShiftTraffic(versions, version, percentage, rr).Success?
    ensures var sh := ShiftTraffic(versions, version, percentage, rr).value;
      && (Disables(sh.snapshot, percentage) ==> forall k | k in sh.plan.weights :: sh.plan.weights[k] == 0)
      && (!Disables(sh.snapshot, percentage) ==> SumOf(sh.snapshot.keys, sh.plan.weights) == FULL_PERCENTAGE)
      && (percentage < FULL_PERCENTAGE ==>
            forall k | k in sh.snapshot.weights && k != sh.identifier && sh.snapshot.weights[k] > 0 :: sh.plan.weights[k] >= 1)
  {
    var v := GetVersion(versions, version).value;
    assert v in versions && v.domain.Some?
        && ShiftTraffic(versions, version, percentage, rr) == ShiftAt(versions, v, percentage, rr);
    ShiftAtConserves(versions, v, percentage, rr);
  }
}
