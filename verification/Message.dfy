/**
 The TopologyRequirement message that is sent with CreateVolume (section "CreateVolume" of the
 CSI specification): lists of label maps, made from the terms.
 */
module Message {
  import opened Orders
  import opened Segments
  import opened Flatten
  import opened Aggregation
  import opened Requirements
  import opened RequirementMeaning
  import opened WellFormedTerms
  import opened TermSlices
  import opened Generation

  /** Terms that are told apart by their label maps, and have some. */
  predicate Proper(terms: seq<Segment>) {
    AllUnique(terms) && [] !in terms
  }

  lemma SelectedProper(args: Args, cluster: Cluster, info: Info)
    requires WellFormed(args, cluster) && WellFormedInfo(info) && LookUp(args, cluster, info).Found?
    ensures Proper([LookUp(args, cluster, info).selected])
  {
    var keys := KeysOf(args, cluster, info);
    TermOfUnique(keys, LookUp(args, cluster, info).labels);
    TermOfElements(keys, LookUp(args, cluster, info).labels);
  }

  lemma SourceProper(
    args: Args, cluster: Cluster, info: Info, aggregated: seq<Segment>, terms: seq<Segment>, selected: Segment)
    requires WellFormed(args, cluster) && WellFormedInfo(info)
    requires args.allowed == [] && info.terms == [] && !(args.selectedNode != "" && args.strict) ==> Proper(aggregated)
    requires Source(args, cluster, info, aggregated, terms, selected)
    ensures Proper(terms)
  {
    if args.selectedNode != "" && args.strict {
      SelectedProper(args, cluster, info);
    } else {
      FlattenedUnique(args.allowed);
      FlattenedNonEmpty(args.allowed);
    }
  }

  lemma AggregatedProper(args: Args, cluster: Cluster, info: Info, aggregated: seq<Segment>)
    requires WellFormed(args, cluster) && WellFormedInfo(info)
    requires cluster.csiNodes.Some? && cluster.nodes.Some? &&
             Aggregates(args, cluster, KeysOf(args, cluster, info), aggregated)
    requires args.selectedNode != "" ==> LookUp(args, cluster, info).Found?
    ensures Proper(aggregated)
  {
    LookUpWellFormed(args, cluster, info);
    AggregatesUnique(args, cluster, KeysOf(args, cluster, info), aggregated);
  }

  /** Different proper terms become different messages, none of them empty. */
  lemma TopologiesDistinct(terms: seq<Segment>)
    requires Proper(terms) && StrictlyIncreasing(CompareSegments, terms)
    ensures |Topologies(terms)| == |terms| && Distinct(Topologies(terms)) && map[] !in Topologies(terms)
  {
    TopologiesOfNonEmpty(terms);
    var ms := Topologies(terms);
    forall i, j | 0 <= i < j < |ms| ensures ms[i] != ms[j] {
      CompareSegmentsZero(terms[i], terms[j]);
      if ms[i] == ms[j] {
        LabelMapInjective(terms[i], terms[j]);
      }
    }
    forall i | 0 <= i < |ms| ensures ms[i] != map[] {
      LabelMapKeys(terms[i]);
      assert terms[i] in terms;
      assert terms[i][0].key in Keys(terms[i]);
    }
  }

  predicate Images<S, T(==)>(f: S -> T, s: seq<S>, t: seq<T>) {
    |t| == |s| && forall i | 0 <= i < |s| :: t[i] == f(s[i])
  }

  lemma ImagesRotated<S, T>(f: S -> T, s: seq<S>, t: seq<T>, t': seq<T>, i: nat)
    requires i <= |s| && Images(f, s, t) && Images(f, s[i..] + s[..i], t')
    ensures t' == t[i..] + t[..i]
  {
  }

  lemma TopologiesRotated(terms: seq<Segment>, i: nat)
    requires [] !in terms && i <= |terms|
    ensures |Topologies(terms)| == |terms|
    ensures Topologies(Rotated(terms, i)) == Topologies(terms)[i..] + Topologies(terms)[..i]
  {
    TopologiesOfNonEmpty(terms);
    TopologiesOfNonEmpty(Rotated(terms, i));
    ImagesRotated(LabelMap, terms, Topologies(terms), Topologies(Rotated(terms, i)), i);
  }

  lemma RequisiteProper(terms: seq<Segment>)
    requires Proper(terms)
    ensures Proper(Requisite(terms))
  {
    RequisiteUnique(terms);
    RequisiteProperties(terms);
    assert [] in Requisite(terms) <==> [] in Elements(Requisite(terms));
  }

  ghost predicate RotationOf(a: seq<map<string, string>>, b: seq<map<string, string>>) {
    exists i: nat :: i < |b| && a == b[i..] + b[..i]
  }

  ghost predicate CanonicalMessage(r: Outcome)
    requires r.Requirement?
  {
    var m := AnswerOf(r);
    && |m.requisite| == |r.requisite| > 0 && Distinct(m.requisite) && map[] !in m.requisite
    && RotationOf(m.preferred, m.requisite)
  }

  lemma ArrangedCanonically(args: Args, terms: seq<Segment>, selected: Segment)
    requires Proper(terms) && terms != [] && Requisite(terms) != [] && Arranged(args, terms, selected).Requirement?
    ensures CanonicalMessage(Arranged(args, terms, selected))
  {
    var requisite := Requisite(terms);
    RequisiteProper(terms);
    RequisiteProperties(terms);
    TopologiesDistinct(requisite);
    TopologiesRotated(requisite, FirstPreferred(args, requisite, selected));
  }

  lemma ListedForAggregation(args: Args, cluster: Cluster, info: Info, aggregated: seq<Segment>)
    requires Generate(args, cluster, info, aggregated).0.Requirement?
    requires args.allowed == [] && info.terms == [] && !(args.selectedNode != "" && args.strict)
    ensures cluster.csiNodes.Some? && cluster.nodes.Some? &&
            (args.selectedNode != "" ==> LookUp(args, cluster, info).Found?)
  {
  }

  /** Whatever the terms of a requirement come from, they are told apart by their label maps. */
  lemma ProperSource(args: Args, cluster: Cluster, info: Info, aggregated: seq<Segment>)
    returns (terms: seq<Segment>, selected: Segment)
    requires WellFormed(args, cluster) && WellFormedInfo(info)
    requires cluster.csiNodes.Some? && cluster.nodes.Some? ==>
               Aggregates(args, cluster, KeysOf(args, cluster, info), aggregated)
    requires Generate(args, cluster, info, aggregated).0.Requirement?
    ensures terms != [] && Requisite(terms) != [] && Proper(terms)
    ensures Generate(args, cluster, info, aggregated).0 == Arranged(args, terms, selected)
  {
    terms, selected := RequirementSource(args, cluster, info, aggregated);
    if args.allowed == [] && info.terms == [] && !(args.selectedNode != "" && args.strict) {
      ListedForAggregation(args, cluster, info, aggregated);
      AggregatedProper(args, cluster, info, aggregated);
    }
    SourceProper(args, cluster, info, aggregated, terms, selected);
  }

  /**
   The message that is sent: as many requisite topologies as there are terms, no two of them
   equal and none empty, and preferred is a rotation of requisite.
   */
  lemma MessageCanonical(args: Args, cluster: Cluster, info: Info, aggregated: seq<Segment>)
    requires WellFormed(args, cluster) && WellFormedInfo(info)
    requires cluster.csiNodes.Some? && cluster.nodes.Some? ==>
               Aggregates(args, cluster, KeysOf(args, cluster, info), aggregated)
    requires Generate(args, cluster, info, aggregated).0.Requirement?
    ensures CanonicalMessage(Generate(args, cluster, info, aggregated).0)
  {
    var terms, selected := ProperSource(args, cluster, info, aggregated);
    ArrangedCanonically(args, terms, selected);
  }

  /** The requisite topologies of the message are exactly the eligible ones. */
  lemma MessageExactly(
    args: Args, cluster: Cluster, info: Info, aggregated: seq<Segment>, topology: map<string, string>)
    requires WellFormed(args, cluster) && WellFormedInfo(info)
    requires cluster.csiNodes.Some? && cluster.nodes.Some? ==>
               Aggregates(args, cluster, KeysOf(args, cluster, info), aggregated)
    requires Generate(args, cluster, info, aggregated).0.Requirement?
    ensures topology in AnswerOf(Generate(args, cluster, info, aggregated).0).requisite <==>
            Eligible(args, cluster, info, topology)
  {
    var terms, selected := ProperSource(args, cluster, info, aggregated);
    var requisite := Requisite(terms);
    RequisiteProper(terms);
    TopologiesMembers(requisite, topology);
    assert SomeTerm(Elements(requisite), topology) <==>
           exists t :: t in requisite && t != [] && LabelMap(t) == topology;
    RequisiteExactly(args, cluster, info, aggregated, topology);
  }
}
