/**
 Immediate binding for the volumes of a StatefulSet (pkg/controller/topology.go): from claim
 names to the requirements that are generated for them.
 */
module StatefulSets {
  import opened Orders
  import opened Segments
  import opened Flatten
  import opened Requirements
  import opened Spreading

  function WithSpread(args: Args, spread: nat): Args {
    args.(spread := spread)
  }

  /** The volumes of one member get the same requirement, whatever their templates are called. */
  lemma MemberPrefersOnce(
    hash: string -> nat, template: string, template': string, statefulSet: string, ordinal: string, index: nat,
    spread: nat, spread': nat, args: Args, cluster: Cluster, info: Info, aggregated: seq<Segment>)
    requires MemberSpread(spread, hash, template, statefulSet, ordinal, index)
    requires MemberSpread(spread', hash, template', statefulSet, ordinal, index)
    ensures Generate(WithSpread(args, spread), cluster, info, aggregated) ==
            Generate(WithSpread(args, spread'), cluster, info, aggregated)
  {
    MemberSpreadIs(spread, hash, template, statefulSet, ordinal, index);
    MemberSpreadIs(spread', hash, template', statefulSet, ordinal, index);
  }

  // Two claims

  /** The terms of an immediate requirement. */
  function ImmediateTerms(args: Args, info: Info, aggregated: seq<Segment>): seq<Segment> {
    if args.allowed != [] then Flattened(args.allowed) else if info.terms != [] then info.terms else aggregated
  }

  /** Two claims for which the same topologies are listed or remembered, in any order. */
  predicate SameTopologies(a: Info, inA: seq<Segment>, b: Info, inB: seq<Segment>) {
    Elements(a.terms) == Elements(b.terms) && Elements(inA) == Elements(inB)
  }

  /** Immediate binding with some topologies; the listers are asked if none are allowed or remembered. */
  predicate ImmediatelyBound(args: Args, cluster: Cluster, info: Info, aggregated: seq<Segment>) {
    && args.selectedNode == "" && (args.allowed != [] || args.immediate)
    && (args.allowed == [] && info.terms == [] ==> cluster.csiNodes.Some? && cluster.nodes.Some?)
    && ImmediateTerms(args, info, aggregated) != []
  }

  /** Immediate binding of two such claims. */
  predicate Immediate(args: Args, cluster: Cluster, a: Info, inA: seq<Segment>, b: Info, inB: seq<Segment>) {
    ImmediatelyBound(args, cluster, a, inA) && SameTopologies(a, inA, b, inB)
  }

  lemma ImmediateArranged(args: Args, cluster: Cluster, info: Info, aggregated: seq<Segment>)
    requires ImmediatelyBound(args, cluster, info, aggregated)
    ensures Requisite(ImmediateTerms(args, info, aggregated)) != []
    ensures Generate(args, cluster, info, aggregated).0 == Arranged(args, ImmediateTerms(args, info, aggregated), [])
  {
    RequisiteProperties(ImmediateTerms(args, info, aggregated));
  }

  lemma SameImmediateTerms(args: Args, a: Info, inA: seq<Segment>, b: Info, inB: seq<Segment>)
    requires SameTopologies(a, inA, b, inB)
    ensures var terms, terms' := ImmediateTerms(args, a, inA), ImmediateTerms(args, b, inB);
            Elements(terms) == Elements(terms') && (terms == [] <==> terms' == []) && (a.terms == [] <==> b.terms == [])
  {
    ElementsEmpty(a.terms);
    ElementsEmpty(b.terms);
    ElementsEmpty(inA);
    ElementsEmpty(inB);
  }

  /** The outcome is to start with one of the requisite terms. */
  predicate StartsWith(r: Outcome, requisite: seq<Segment>, spread: nat)
    requires requisite != []
  {
    r.Requirement? && r.requisite == requisite && r.preferred != [] && r.preferred[0] == requisite[spread % |requisite|]
  }

  lemma ArrangedStart(args: Args, terms: seq<Segment>)
    requires args.selectedNode == "" && terms != []
    ensures Requisite(terms) != [] && StartsWith(Arranged(args, terms, []), Requisite(terms), args.spread)
  {
    RequisiteProperties(terms);
  }

  lemma ImmediateStart(
    args: Args, spread: nat, cluster: Cluster, a: Info, inA: seq<Segment>, b: Info, inB: seq<Segment>)
    requires Immediate(args, cluster, a, inA, b, inB)
    ensures Requisite(ImmediateTerms(args, a, inA)) != []
    ensures StartsWith(Generate(WithSpread(args, spread), cluster, b, inB).0, Requisite(ImmediateTerms(args, a, inA)),
            spread)
  {
    var terms, terms' := ImmediateTerms(args, a, inA), ImmediateTerms(args, b, inB);
    SameImmediateTerms(args, a, inA, b, inB);
    ImmediateArranged(WithSpread(args, spread), cluster, b, inB);
    ArrangedOrder(WithSpread(args, spread), terms, terms', []);
    ArrangedStart(WithSpread(args, spread), terms);
  }

  /** The same requisite topologies, and different ones preferred. */
  predicate StartApart(r: Outcome, r': Outcome) {
    && r.Requirement? && r'.Requirement? && r.requisite == r'.requisite
    && r.preferred != [] && r'.preferred != [] && r.preferred[0] != r'.preferred[0]
  }

  lemma StartsApart(r: Outcome, r': Outcome, terms: seq<Segment>, spread: nat, spread': nat)
    requires Requisite(terms) != []
    requires StartsWith(r, Requisite(terms), spread) && StartsWith(r', Requisite(terms), spread')
    ensures StartApart(r, r') <==> spread % |Requisite(terms)| != spread' % |Requisite(terms)|
  {
    var n := |Requisite(terms)|;
    if spread % n != spread' % n {
      DifferentTerms(terms, spread % n, spread' % n);
    }
  }

  lemma DifferentTerms(terms: seq<Segment>, i: nat, j: nat)
    requires i < |Requisite(terms)| && j < |Requisite(terms)| && i != j
    ensures Requisite(terms)[i] != Requisite(terms)[j]
  {
    RequisiteProperties(terms);
    CompareSegmentsZero(Requisite(terms)[i], Requisite(terms)[j]);
    CompareSegmentsZero(Requisite(terms)[j], Requisite(terms)[i]);
  }

  // The claims of n consecutive members

  /** The number of topologies to choose from. */
  function Count(args: Args, info: Info, aggregated: seq<Segment>): nat {
    |Requisite(ImmediateTerms(args, info, aggregated))|
  }

  /** What is generated for the claim with the name <template>-<StatefulSet>-<ordinal>. */
  function ClaimOutcome(
    hash: string -> nat, template: string, statefulSet: string, i: nat,
    args: Args, cluster: Cluster, info: Info, aggregated: seq<Segment>): Outcome
  {
    Generate(WithSpread(args, SpreadOf(hash, ClaimName(template, statefulSet, Numeral(i)))), cluster, info,
        aggregated).0
  }

  /** What is generated for the claims of the n members from base on. */
  function ClaimOutcomes(
    hash: string -> nat, template: string, statefulSet: string, base: nat, n: nat,
    args: Args, cluster: Cluster, info: Info, aggregated: seq<Segment>): seq<Outcome>
  {
    seq(n, k requires 0 <= k < n => ClaimOutcome(hash, template, statefulSet, base +
        k, args, cluster, info, aggregated))
  }

  /** Any two members start apart; their claims have two templates. */
  predicate AllApart(rs: seq<Outcome>, rs': seq<Outcome>)
    requires |rs| == |rs'|
  {
    forall j, k | 0 <= j < k < |rs| :: StartApart(rs[j], rs'[k])
  }

  /** Each member starts with the topology for its ordinal. */
  predicate AllStart(rs: seq<Outcome>, requisite: seq<Segment>, hash: nat, base: nat)
    requires requisite != []
  {
    forall k | 0 <= k < |rs| :: StartsWith(rs[k], requisite, Sum32(hash, base + k))
  }

  lemma ClaimStart(
    hash: string -> nat, template: string, statefulSet: string, i: nat,
    args: Args, cluster: Cluster, a: Info, inA: seq<Segment>, b: Info, inB: seq<Segment>)
    requires Immediate(args, cluster, a, inA, b, inB) && '-' !in statefulSet && i < TWO_32
    ensures Requisite(ImmediateTerms(args, a, inA)) != []
    ensures StartsWith(ClaimOutcome(hash, template, statefulSet, i, args, cluster, b, inB),
                       Requisite(ImmediateTerms(args, a, inA)), Sum32(hash(statefulSet), i))
  {
    NumeralSpread(hash, template, statefulSet, i);
    ImmediateStart(args, Sum32(hash(statefulSet), i), cluster, a, inA, b, inB);
  }

  lemma ClaimsStart(
    hash: string -> nat, template: string, statefulSet: string, base: nat, n: nat,
    args: Args, cluster: Cluster, a: Info, inA: seq<Segment>, b: Info, inB: seq<Segment>)
    requires Immediate(args, cluster, a, inA, b, inB) && '-' !in statefulSet && base + n <= TWO_32
    ensures Requisite(ImmediateTerms(args, a, inA)) != []
    ensures AllStart(ClaimOutcomes(hash, template, statefulSet, base, n, args, cluster, b, inB),
                     Requisite(ImmediateTerms(args, a, inA)), hash(statefulSet), base)
  {
    var requisite := Requisite(ImmediateTerms(args, a, inA));
    RequisiteProperties(ImmediateTerms(args, a, inA));
    var rs := ClaimOutcomes(hash, template, statefulSet, base, n, args, cluster, b, inB);
    forall k | 0 <= k < |rs| ensures StartsWith(rs[k], requisite, Sum32(hash(statefulSet), base + k)) {
      assert rs[k] == ClaimOutcome(hash, template, statefulSet, base + k, args, cluster, b, inB);
      ClaimStart(hash, template, statefulSet, base + k, args, cluster, a, inA, b, inB);
    }
  }

  lemma ApartExactly(rs: seq<Outcome>, rs': seq<Outcome>, terms: seq<Segment>, hash: nat, base: nat)
    requires Requisite(terms) != [] && |rs| == |rs'| == |Requisite(terms)|
    requires AllStart(rs, Requisite(terms), hash, base) && AllStart(rs', Requisite(terms), hash, base)
    requires |rs| <= TWO_32
    ensures AllApart(rs, rs') <==> Sum32(hash, base) + |rs| <= TWO_32 || TWO_32 % |rs| == 0
  {
    var n := |rs|;
    SpreadExactly(hash, base, n);
    forall j, k | 0 <= j < k < n
      ensures StartApart(rs[j], rs'[k]) <==> StartAt(hash, base, j, n) != StartAt(hash, base, k, n)
    {
      StartsApart(rs[j], rs'[k], terms, Sum32(hash, base + j), Sum32(hash, base + k));
    }
  }

  /**
   With as many topologies as members, the claims of consecutive members start with different
   topologies exactly if the sums of hash and ordinal do not wrap, or wrap to no harm.
   */
  lemma MembersSpreadExactly(
    hash: string -> nat, template: string, template': string, statefulSet: string, base: nat, n: nat,
    args: Args, cluster: Cluster, a: Info, inA: seq<Segment>, b: Info, inB: seq<Segment>)
    requires Immediate(args, cluster, a, inA, b, inB) && n == Count(args, a, inA)
    requires '-' !in statefulSet && base + n <= TWO_32
    ensures n > 0
    ensures AllApart(ClaimOutcomes(hash, template, statefulSet, base, n, args, cluster, a, inA),
                     ClaimOutcomes(hash, template', statefulSet, base, n, args, cluster, b, inB)) <==>
            Sum32(hash(statefulSet), base) + n <= TWO_32 || TWO_32 % n == 0
  {
    ClaimsStart(hash, template, statefulSet, base, n, args, cluster, a, inA, a, inA);
    ClaimsStart(hash, template', statefulSet, base, n, args, cluster, a, inA, b, inB);
    ApartExactly(ClaimOutcomes(hash, template, statefulSet, base, n, args, cluster, a, inA),
                 ClaimOutcomes(hash, template', statefulSet, base, n, args, cluster, b, inB),
                 ImmediateTerms(args, a, inA), hash(statefulSet), base);
  }

  /** Two of n consecutive members, named with any templates and numerals. */
  lemma MembersSpread(
    hash: string -> nat, template: string, template': string, statefulSet: string, ordinal: string, ordinal': string,
    i: nat, i': nat, base: nat, args: Args, spread: nat, spread': nat,
    cluster: Cluster, a: Info, inA: seq<Segment>, b: Info, inB: seq<Segment>)
    requires MemberSpread(spread, hash, template, statefulSet, ordinal, i)
    requires MemberSpread(spread', hash, template', statefulSet, ordinal', i')
    requires Immediate(args, cluster, a, inA, b, inB) && 0 < Count(args, a, inA) <= TWO_32
    requires base <= i < i' < base + Count(args, a, inA)
    requires var n := Count(args, a, inA); Sum32(hash(statefulSet), base) + n <= TWO_32 || TWO_32 % n == 0
    ensures StartApart(Generate(WithSpread(args, spread), cluster, a, inA).0,
                       Generate(WithSpread(args, spread'), cluster, b, inB).0)
  {
    MemberSpreadIs(spread, hash, template, statefulSet, ordinal, i);
    MemberSpreadIs(spread', hash, template', statefulSet, ordinal', i');
    ImmediateStart(args, spread, cluster, a, inA, a, inA);
    ImmediateStart(args, spread', cluster, a, inA, b, inB);
    StartsApart(Generate(WithSpread(args, spread), cluster, a, inA).0,
                Generate(WithSpread(args, spread'), cluster, b, inB).0, ImmediateTerms(args, a, inA), spread, spread');
    OrdinalsSpread(hash(statefulSet), base, i, i', Count(args, a, inA));
  }

  lemma OrdinalsSpread(hash: nat, base: nat, i: nat, i': nat, n: nat)
    requires 0 < n <= TWO_32 && base <= i < i' < base + n
    requires Sum32(hash, base) + n <= TWO_32 || TWO_32 % n == 0
    ensures Start(hash, i, n) != Start(hash, i', n)
  {
    SpreadExactly(hash, base, n);
    assert StartAt(hash, base, i - base, n) != StartAt(hash, base, i' - base, n);
  }

  // A StatefulSet that is not spread

  /** The same topologies, and the same one preferred. */
  predicate StartTogether(r: Outcome, r': Outcome) {
    && r.Requirement? && r'.Requirement? && r.requisite == r'.requisite
    && r.preferred != [] && r'.preferred != [] && r.preferred[0] == r'.preferred[0]
  }

  lemma StartsTogether(r: Outcome, r': Outcome, requisite: seq<Segment>, spread: nat, spread': nat)
    requires requisite != [] && StartsWith(r, requisite, spread) && StartsWith(r', requisite, spread')
    requires spread % |requisite| == spread' % |requisite|
    ensures StartTogether(r, r')
  {
  }

  lemma ClaimsTogether(
    hash: string -> nat, template: string, statefulSet: string, i: nat, i': nat,
    args: Args, cluster: Cluster, info: Info, aggregated: seq<Segment>)
    requires Immediate(args, cluster, info, aggregated, info, aggregated)
    requires '-' !in statefulSet && i < TWO_32 && i' < TWO_32 && Count(args, info, aggregated) > 0
    requires var n := Count(args, info, aggregated); Start(hash(statefulSet), i, n) == Start(hash(statefulSet), i', n)
    ensures StartTogether(ClaimOutcome(hash, template, statefulSet, i, args, cluster, info, aggregated),
                          ClaimOutcome(hash, template, statefulSet, i', args, cluster, info, aggregated))
  {
    var h := hash(statefulSet);
    ClaimStart(hash, template, statefulSet, i, args, cluster, info, aggregated, info, aggregated);
    ClaimStart(hash, template, statefulSet, i', args, cluster, info, aggregated, info, aggregated);
    StartsTogether(ClaimOutcome(hash, template, statefulSet, i, args, cluster, info, aggregated),
                   ClaimOutcome(hash, template, statefulSet, i', args, cluster, info, aggregated),
                   Requisite(ImmediateTerms(args, info, aggregated)), Sum32(h, i), Sum32(h, i'));
  }

  const ZONES: seq<Segment> := [[Entry("zone", "a")], [Entry("zone", "b")], [Entry("zone", "c")]]

  /** A storage class for three zones. */
  const THREE_ZONES := Args("driver", 0, [[Expression("zone", ["a", "b", "c"])]], "", false, true)

  lemma ZonesIncrease()
    ensures StrictlyIncreasing(CompareSegments, ZONES)
  {
    assert CompareSegments(ZONES[0], ZONES[1]) == -1;
    assert CompareSegments(ZONES[1], ZONES[2]) == -1;
    assert CompareSegments(ZONES[0], ZONES[2]) == -1;
  }

  lemma ZonesRequisite()
    ensures Requisite(ZONES) == ZONES
  {
    CompareSegmentsIsComparator();
    CanonicalProperties(CompareSegments, ZONES);
    ZonesIncrease();
    IncreasingUnique(CompareSegments, Requisite(ZONES), ZONES);
  }

  lemma ZonesFlattened()
    ensures Flattened(THREE_ZONES.allowed) == ZONES
  {
    var values := ["a", "b", "c"];
    assert values[..2] == ["a", "b"] && ["a", "b"][..1] == ["a"];
    assert Distributed([], "zone", ["a", "b"]) == ZONES[..2];
    var term := [Expression("zone", values)];
    assert Product(term) == ZONES;
    assert Products([term]) == ZONES;
    forall i | 0 <= i < 3 ensures SortTerm(ZONES[i]) == ZONES[i] {
      assert ZONES[i][..0] == [] && ZONES[i][1..] == [];
    }
  }

  lemma ThreeZones(cluster: Cluster)
    ensures Immediate(THREE_ZONES, cluster, NOTHING, [], NOTHING, []) && Count(THREE_ZONES, NOTHING, []) == 3
  {
    ZonesFlattened();
    ZonesRequisite();
  }

  function LastHash(name: string): nat {
    TWO_32 - 1
  }

  lemma LastHashWraps()
    ensures '-' !in "db" && Start(LastHash("db"), 0, 3) == Start(LastHash("db"), 1, 3) == 0
  {
  }

  /** With three zones and the hash 2^32 - 1, the first two members start with the same zone. */
  lemma MembersCollide(cluster: Cluster)
    ensures StartTogether(ClaimOutcome(LastHash, "data", "db", 0, THREE_ZONES, cluster, NOTHING, []),
                          ClaimOutcome(LastHash, "data", "db", 1, THREE_ZONES, cluster, NOTHING, []))
  {
    ThreeZones(cluster);
    LastHashWraps();
    ClaimsTogether(LastHash, "data", "db", 0, 1, THREE_ZONES, cluster, NOTHING, []);
  }
}
