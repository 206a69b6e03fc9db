/**
 Terms have sorted, unique keys, given what API validation guarantees: the expressions of a
 selector term have different keys, and so have the topology keys of a driver on a node.
 */
module WellFormedTerms {
  import opened Orders
  import opened Segments
  import opened Flatten
  import opened NodeTopology
  import opened Aggregation
  import opened Requirements

  lemma TermOfUnique(keys: seq<string>, labels: map<string, string>)
    requires Distinct(keys) && Labelled(keys, labels)
    ensures UniqueSortedKeys(TermOf(keys, labels))
  {
    SortTermUnique(SegmentOf(keys, labels));
  }

  // Aggregated topologies

  predicate DistinctRegistrations(csiNodes: seq<CSINode>, driverName: string) {
    forall n | n in csiNodes :: Distinct(TopologyKeys(n, driverName))
  }

  lemma AggregatedUnique(csiNodes: seq<CSINode>, driverName: string, nodes: seq<Node>)
    requires DistinctRegistrations(csiNodes, driverName)
    ensures forall t | t in ClusterTerms(csiNodes, driverName, nodes) :: UniqueSortedKeys(t)
    ensures forall keys, t | Distinct(keys) && t in TermsFor(csiNodes, driverName, keys, nodes) :: UniqueSortedKeys(t)
  {
    forall keys, t | Distinct(keys) && t in TermsFor(csiNodes, driverName, keys, nodes) ensures UniqueSortedKeys(t) {
      var n :| n in nodes && Reported(csiNodes, driverName, keys, n) && t == TermOf(keys, n.labels);
      TermOfUnique(keys, n.labels);
    }
    forall t | t in ClusterTerms(csiNodes, driverName, nodes) ensures UniqueSortedKeys(t) {
      var ks, n :| ks in KeySets(csiNodes, driverName) && n in nodes && Reported(csiNodes, driverName, ks, n) &&
          t == TermOf(ks, n.labels);
      var c :| c in csiNodes && TopologyKeys(c, driverName) != [] && ks == SortedKeys(TopologyKeys(c, driverName));
      CompareStringsIsComparator();
      SortByDistinct(CompareStrings, TopologyKeys(c, driverName));
      TermOfUnique(ks, n.labels);
    }
  }

  // Calls

  predicate WellFormed(args: Args, cluster: Cluster) {
    && (forall term | term in args.allowed :: DistinctKeys(term))
    && (cluster.csiNode.Some? ==> Distinct(TopologyKeys(cluster.csiNode.value, args.driverName)))
    && (cluster.csiNodes.Some? ==>
          && UniqueNames(cluster.csiNodes.value)
          && AllNulFree(cluster.csiNodes.value, args.driverName)
          && DistinctRegistrations(cluster.csiNodes.value, args.driverName))
  }

  predicate AllUnique(terms: seq<Segment>) {
    forall t | t in terms :: UniqueSortedKeys(t)
  }

  predicate WellFormedInfo(info: Info) {
    Distinct(info.keys) && AllUnique(info.terms) && [] !in info.terms
  }

  lemma AggregatesUnique(args: Args, cluster: Cluster, keys: seq<string>, aggregated: seq<Segment>)
    requires WellFormed(args, cluster) && cluster.csiNodes.Some? && cluster.nodes.Some? && Distinct(keys)
    requires Aggregates(args, cluster, keys, aggregated)
    ensures AllUnique(aggregated)
    ensures args.selectedNode == "" || keys != [] ==> [] !in aggregated
  {
    AggregatedUnique(cluster.csiNodes.value, args.driverName, cluster.nodes.value);
    assert forall t | t in aggregated :: t in Elements(aggregated);
    if args.selectedNode == "" || keys != [] {
      TermsNonEmpty(cluster.csiNodes.value, args.driverName, keys, cluster.nodes.value);
    }
  }

  lemma TermsNonEmpty(csiNodes: seq<CSINode>, driverName: string, keys: seq<string>, nodes: seq<Node>)
    ensures [] !in ClusterTerms(csiNodes, driverName, nodes)
    ensures keys != [] ==> [] !in TermsFor(csiNodes, driverName, keys, nodes)
  {
    forall ks, n | ks in KeySets(csiNodes, driverName) && n in nodes && Reported(csiNodes, driverName, ks, n)
      ensures TermOf(ks, n.labels) != []
    {
      SortedNonEmpty(csiNodes, driverName, ks);
      TermOfElements(ks, n.labels);
    }
    forall n | n in nodes && keys != [] && Reported(csiNodes, driverName, keys, n)
      ensures TermOf(keys, n.labels) != []
    {
      TermOfElements(keys, n.labels);
    }
  }

  lemma LookUpWellFormed(args: Args, cluster: Cluster, info: Info)
    requires WellFormed(args, cluster) && WellFormedInfo(info)
    ensures WellFormedInfo(LookUp(args, cluster, info).info)
    ensures LookUp(args, cluster, info).info.terms == info.terms && Distinct(KeysOf(args, cluster, info))
  {
  }

  /** What a call leaves in the store is well-formed again. */
  lemma GenerateWellFormed(args: Args, cluster: Cluster, info: Info, aggregated: seq<Segment>)
    requires WellFormed(args, cluster) && WellFormedInfo(info)
    requires cluster.csiNodes.Some? && cluster.nodes.Some? ==>
             Aggregates(args, cluster, KeysOf(args, cluster, info), aggregated)
    ensures WellFormedInfo(Generate(args, cluster, info, aggregated).1)
  {
    LookUpWellFormed(args, cluster, info);
    if cluster.csiNodes.Some? && cluster.nodes.Some? {
      AggregatesUnique(args, cluster, KeysOf(args, cluster, info), aggregated);
    }
    GenerateTerms(args, cluster, info, aggregated);
  }

  lemma GenerateTerms(args: Args, cluster: Cluster, info: Info, aggregated: seq<Segment>)
    ensures var info' := Generate(args, cluster, info, aggregated).1;
            && info'.keys == (if args.selectedNode == "" then info.keys else LookUp(args, cluster, info).info.keys)
            && (info'.terms == info.terms ||
                (&& cluster.csiNodes.Some? && cluster.nodes.Some? && info'.terms == aggregated
                 && (args.selectedNode == "" || KeysOf(args, cluster, info) != [])))
  {
  }
}
