/**
 What GenerateAccessibilityRequirements (pkg/controller/topology.go) means for its caller, in terms
 of driver entries on CSINodes, labels of nodes and selector terms: when it fails, when it sends no
 requirement, which topologies it sends, and what it remembers.
 */
module RequirementMeaning {
  import opened Orders
  import opened Segments
  import opened Flatten
  import opened NodeTopology
  import opened Aggregation
  import opened Requirements

  // The selected node

  /** The remembered keys, or those that the driver registers on the selected node. */
  ghost predicate KeysInForce(args: Args, cluster: Cluster, info: Info, keys: seq<string>) {
    && keys != []
    && if info.keys != [] then keys == info.keys
       else cluster.csiNode.Some? && Registers(cluster.csiNode.value, args.driverName, keys)
  }

  predicate RememberedSuffice(info: Info, keys: seq<string>) {
    info.labels != map[] && forall key | key in keys :: key in info.labels
  }

  /** The remembered labels if they suffice, or else those of the node; with all keys. */
  predicate LabelsInForce(cluster: Cluster, info: Info, keys: seq<string>, labels: map<string, string>) {
    && (if RememberedSuffice(info, keys) then labels == info.labels else cluster.node == Some(labels))
    && forall key | key in keys :: key in labels
  }

  /** The labels in force for the keys in force. */
  ghost predicate SelectedTopology(args: Args, cluster: Cluster, info: Info, topology: map<string, string>) {
    exists keys, labels :: KeysInForce(args, cluster, info, keys) && LabelsInForce(cluster, info, keys, labels) &&
                           topology == Restricted(labels, keys)
  }

  lemma KeysInForceExactly(args: Args, cluster: Cluster, info: Info, keys: seq<string>)
    ensures KeysInForce(args, cluster, info, keys) <==> keys != [] && LookedUpKeys(args, cluster, info) == Some(keys)
  {
    if keys != [] && cluster.csiNode.Some? {
      TopologyKeysRegistered(cluster.csiNode.value, args.driverName, keys);
    }
  }

  /** The lookup finds exactly the selected topology. */
  lemma FoundExactly(args: Args, cluster: Cluster, info: Info, topology: map<string, string>)
    ensures LookUp(args, cluster, info).Found? && LabelMap(LookUp(args, cluster, info).selected) == topology <==>
            SelectedTopology(args, cluster, info, topology)
  {
    forall keys ensures KeysInForce(args, cluster, info, keys) <==>
                        keys != [] && LookedUpKeys(args, cluster, info) == Some(keys) {
      KeysInForceExactly(args, cluster, info, keys);
    }
    var found := LookUp(args, cluster, info);
    if found.Found? {
      var keys := LookedUpKeys(args, cluster, info).value;
      TermOfLabels(keys, found.labels);
      assert LabelsInForce(cluster, info, keys, found.labels);
    }
  }

  lemma FoundSome(args: Args, cluster: Cluster, info: Info)
    ensures LookUp(args, cluster, info).Found? <==> exists topology :: SelectedTopology(args, cluster, info, topology)
  {
    if LookUp(args, cluster, info).Found? {
      FoundExactly(args, cluster, info, LabelMap(LookUp(args, cluster, info).selected));
    }
    forall topology ensures SelectedTopology(args, cluster, info, topology) ==> LookUp(args, cluster, info).Found? {
      FoundExactly(args, cluster, info, topology);
    }
  }

  /** A term is part of the selected topology if its labels are. */
  lemma SubsetMeans(args: Args, cluster: Cluster, info: Info, t: Segment)
    requires LookUp(args, cluster, info).Found?
    ensures var selected := LookUp(args, cluster, info).selected;
            SubsetOf(t, selected) <==> Contained(t, LabelMap(selected))
  {
    var keys, found := LookedUpKeys(args, cluster, info).value, LookUp(args, cluster, info);
    TermOfElements(keys, found.labels);
    TermOfLabels(keys, found.labels);
    forall e ensures e in found.selected <==> Carries(LabelMap(found.selected), e) {
    }
  }

  // Failures

  ghost predicate RegistersNothing(args: Args, csiNode: CSINode) {
    forall keys | Registers(csiNode, args.driverName, keys) :: keys == []
  }

  lemma RegistersNothingExactly(args: Args, csiNode: CSINode)
    ensures RegistersNothing(args, csiNode) <==> TopologyKeys(csiNode, args.driverName) == []
  {
    forall keys: seq<string> | keys != []
      ensures TopologyKeys(csiNode, args.driverName) == keys <==> Registers(csiNode, args.driverName, keys)
    {
      TopologyKeysRegistered(csiNode, args.driverName, keys);
    }
    if TopologyKeys(csiNode, args.driverName) != [] {
      TopologyKeysRegistered(csiNode, args.driverName, TopologyKeys(csiNode, args.driverName));
    }
  }

  ghost predicate LacksLabels(args: Args, cluster: Cluster, info: Info) {
    exists keys :: KeysInForce(args, cluster, info, keys) && forall labels ::
        !LabelsInForce(cluster, info, keys, labels)
  }

  lemma LacksLabelsExactly(args: Args, cluster: Cluster, info: Info)
    ensures LacksLabels(args, cluster, info) <==>
            LookUp(args, cluster, info).Missing? && LookUp(args, cluster, info).reason == MissingLabels
  {
    forall keys ensures KeysInForce(args, cluster, info, keys) <==>
                        keys != [] && LookedUpKeys(args, cluster, info) == Some(keys) {
      KeysInForceExactly(args, cluster, info, keys);
    }
    var keys := LookedUpKeys(args, cluster, info);
    if keys.Some? && keys.value != [] {
      var labels := LookedUpLabels(cluster, info, keys.value);
      if labels.Some? && Labelled(keys.value, labels.value) {
        assert LabelsInForce(cluster, info, keys.value, labels.value);
      }
    }
  }

  lemma LookUpFails(args: Args, cluster: Cluster, info: Info, aggregated: seq<Segment>, reason: Failure)
    requires reason in {NoCSINode, NoKeys, MissingLabels}
    ensures Generate(args, cluster, info, aggregated).0 == Failed(reason) <==>
            args.selectedNode != "" && LookUp(args, cluster, info).Missing? &&
                LookUp(args, cluster, info).reason == reason
  {
  }

  /** Why the selected node cannot be used. */
  lemma LookUpFailsExactly(args: Args, cluster: Cluster, info: Info, aggregated: seq<Segment>)
    ensures Generate(args, cluster, info, aggregated).0 == Failed(NoCSINode) <==>
            args.selectedNode != "" && info.keys == [] && cluster.csiNode.None?
    ensures Generate(args, cluster, info, aggregated).0 == Failed(NoKeys) <==>
              && args.selectedNode != "" && info.keys == [] && cluster.csiNode.Some?
              && RegistersNothing(args, cluster.csiNode.value)
    ensures Generate(args, cluster, info, aggregated).0 == Failed(MissingLabels) <==>
            args.selectedNode != "" && LacksLabels(args, cluster, info)
  {
    LookUpFails(args, cluster, info, aggregated, NoCSINode);
    LookUpFails(args, cluster, info, aggregated, NoKeys);
    LookUpFails(args, cluster, info, aggregated, MissingLabels);
    LacksLabelsExactly(args, cluster, info);
    if cluster.csiNode.Some? {
      RegistersNothingExactly(args, cluster.csiNode.value);
    }
  }

  lemma StrictlyRejected(args: Args, cluster: Cluster, info: Info, aggregated: seq<Segment>)
    ensures Generate(args, cluster, info, aggregated).0 == Failed(NotAllowed) <==>
              && args.selectedNode != "" && args.strict && args.allowed != [] && LookUp(args, cluster, info).Found?
              && forall t | t in Flattened(args.allowed) :: !SubsetOf(t, LookUp(args, cluster, info).selected)
  {
  }

  predicate Satisfied(allowed: seq<SelectorTerm>, topology: map<string, string>) {
    exists term :: term in allowed && TermAllows(Remaining(term), topology)
  }

  lemma SubsetSatisfied(args: Args, cluster: Cluster, info: Info)
    requires LookUp(args, cluster, info).Found?
    ensures var selected := LookUp(args, cluster, info).selected;
            (exists t :: t in Flattened(args.allowed) && SubsetOf(t, selected)) <==>
            Satisfied(args.allowed, LabelMap(selected))
  {
    var selected := LookUp(args, cluster, info).selected;
    FlattenedRemaining(args.allowed, LabelMap(selected));
    forall t ensures SubsetOf(t, selected) <==> Contained(t, LabelMap(selected)) {
      SubsetMeans(args, cluster, info, t);
    }
  }

  /** With strict topology, the selected topology is rejected exactly if it satisfies nothing that flatten leaves. */
  lemma NotAllowedExactly(args: Args, cluster: Cluster, info: Info, aggregated: seq<Segment>)
    ensures Generate(args, cluster, info, aggregated).0 == Failed(NotAllowed) <==>
              && args.selectedNode != "" && args.strict && args.allowed != []
              && exists topology ::
                  SelectedTopology(args, cluster, info, topology) && !Satisfied(args.allowed, topology)
  {
    StrictlyRejected(args, cluster, info, aggregated);
    forall topology ensures LookUp(args, cluster, info).Found? &&
                            LabelMap(LookUp(args, cluster, info).selected) == topology <==>
                            SelectedTopology(args, cluster, info, topology) {
      FoundExactly(args, cluster, info, topology);
    }
    if LookUp(args, cluster, info).Found? {
      SubsetSatisfied(args, cluster, info);
    }
  }

  // Aggregation

  /** A topology of the cluster; with a selected node under the keys in force. */
  ghost predicate OfferedFor(args: Args, cluster: Cluster, info: Info, topology: map<string, string>)
    requires cluster.csiNodes.Some? && cluster.nodes.Some?
  {
    if args.selectedNode == "" then
      OffersSome(cluster.csiNodes.value, args.driverName, cluster.nodes.value, topology)
    else
      exists keys :: KeysInForce(args, cluster, info, keys) &&
                     OffersUnder(cluster.csiNodes.value, args.driverName, keys, cluster.nodes.value, topology)
  }

  /** Nothing is allowed or remembered that could be used instead. */
  ghost predicate Aggregating(args: Args, cluster: Cluster, info: Info) {
    && args.allowed == [] && info.terms == []
    && if args.selectedNode == "" then args.immediate
       else !args.strict && exists topology :: SelectedTopology(args, cluster, info, topology)
  }

  lemma AggregatesExactly(
    args: Args, cluster: Cluster, info: Info, aggregated: seq<Segment>, topology: map<string, string>)
    requires cluster.csiNodes.Some? && cluster.nodes.Some?
    requires Aggregates(args, cluster, KeysOf(args, cluster, info), aggregated)
    requires args.selectedNode != "" ==> LookUp(args, cluster, info).Found?
    ensures SomeTerm(Elements(aggregated), topology) <==> OfferedFor(args, cluster, info, topology)
  {
    var csiNodes, nodes := cluster.csiNodes.value, cluster.nodes.value;
    if args.selectedNode == "" {
      ClusterTermsExactly(csiNodes, args.driverName, nodes, topology);
    } else {
      TermsForExactly(csiNodes, args.driverName, KeysOf(args, cluster, info), nodes, topology);
      forall keys ensures KeysInForce(args, cluster, info, keys) <==>
                          keys != [] && LookedUpKeys(args, cluster, info) == Some(keys) {
        KeysInForceExactly(args, cluster, info, keys);
      }
    }
  }

  ghost predicate NoneRegistered(args: Args, csiNodes: seq<CSINode>) {
    forall n | n in csiNodes :: RegistersNothing(args, n)
  }

  lemma NoKeySets(args: Args, csiNodes: seq<CSINode>)
    ensures KeySets(csiNodes, args.driverName) == {} <==> NoneRegistered(args, csiNodes)
  {
    forall n ensures RegistersNothing(args, n) <==> TopologyKeys(n, args.driverName) == [] {
      RegistersNothingExactly(args, n);
    }
    if n :| n in csiNodes && TopologyKeys(n, args.driverName) != [] {
      assert SortedKeys(TopologyKeys(n, args.driverName)) in KeySets(csiNodes, args.driverName);
    }
  }

  lemma ArrangedFailure(args: Args, terms: seq<Segment>, selected: Segment, reason: Failure)
    requires (terms != [] ==> Requisite(terms) != []) && reason != NotInRequisite
    ensures Arranged(args, terms, selected) != Failed(reason)
  {
  }

  lemma AggregatedFailure(
    args: Args, cluster: Cluster, info: Info, selected: Segment, aggregated: seq<Segment>, reason: Failure)
    requires reason != NotInRequisite
    ensures Aggregated(args, cluster, info, selected, aggregated).0 == Failed(reason) <==>
            info.terms == [] && FailureOf(args, cluster, aggregated) == Some(reason)
  {
    RequisiteProperties(info.terms);
    RequisiteProperties(aggregated);
    ArrangedFailure(args, info.terms, selected, reason);
    ArrangedFailure(args, aggregated, selected, reason);
  }

  lemma AggregatingFails(args: Args, cluster: Cluster, info: Info, aggregated: seq<Segment>, reason: Failure)
    requires reason in {ListFailed, NoTopology}
    ensures Generate(args, cluster, info, aggregated).0 == Failed(reason) <==>
            Aggregating(args, cluster, info) && FailureOf(args, cluster, aggregated) == Some(reason)
  {
    FoundSome(args, cluster, info);
    RequisiteProperties(Flattened(args.allowed));
    if args.selectedNode == "" {
      ArrangedFailure(args, Flattened(args.allowed), [], reason);
      AggregatedFailure(args, cluster, info, [], aggregated, reason);
    } else if LookUp(args, cluster, info).Found? {
      var selected := LookUp(args, cluster, info).selected;
      RequisiteProperties([selected]);
      ArrangedFailure(args, Flattened(args.allowed), selected, reason);
      ArrangedFailure(args, [selected], selected, reason);
      AggregatedFailure(args, cluster, LookUp(args, cluster, info).info, selected, aggregated, reason);
    }
  }

  lemma NothingAggregated(args: Args, cluster: Cluster, info: Info, aggregated: seq<Segment>)
    requires cluster.csiNodes.Some? && cluster.nodes.Some?
    requires Aggregates(args, cluster, KeysOf(args, cluster, info), aggregated)
    requires args.selectedNode != "" ==> LookUp(args, cluster, info).Found?
    ensures aggregated == [] <==> forall topology :: !OfferedFor(args, cluster, info, topology)
  {
    forall topology ensures SomeTerm(Elements(aggregated), topology) <==> OfferedFor(args, cluster, info, topology) {
      AggregatesExactly(args, cluster, info, aggregated, topology);
    }
    if aggregated != [] {
      assert aggregated[0] in Elements(aggregated);
      assert SomeTerm(Elements(aggregated), LabelMap(aggregated[0]));
    }
  }

  /** Listing fails, except that without any registered keys the nodes are not needed. */
  lemma ListFailedExactly(args: Args, cluster: Cluster, info: Info, aggregated: seq<Segment>)
    ensures Generate(args, cluster, info, aggregated).0 == Failed(ListFailed) <==>
              && Aggregating(args, cluster, info)
              && (|| cluster.csiNodes.None?
                  || (cluster.nodes.None? &&
                      !(args.selectedNode == "" && NoneRegistered(args, cluster.csiNodes.value))))
  {
    AggregatingFails(args, cluster, info, aggregated, ListFailed);
    if cluster.csiNodes.Some? {
      NoKeySets(args, cluster.csiNodes.value);
    }
  }

  /** The cluster offers no topology. */
  lemma NoTopologyExactly(args: Args, cluster: Cluster, info: Info, aggregated: seq<Segment>)
    requires cluster.csiNodes.Some? && cluster.nodes.Some? ==>
               Aggregates(args, cluster, KeysOf(args, cluster, info), aggregated)
    ensures Generate(args, cluster, info, aggregated).0 == Failed(NoTopology) <==>
              && Aggregating(args, cluster, info) && cluster.csiNodes.Some?
              && if cluster.nodes.None? then args.selectedNode == "" && NoneRegistered(args, cluster.csiNodes.value)
                 else forall topology :: !OfferedFor(args, cluster, info, topology)
  {
    AggregatingFails(args, cluster, info, aggregated, NoTopology);
    FoundSome(args, cluster, info);
    if cluster.csiNodes.Some? {
      NoKeySets(args, cluster.csiNodes.value);
      if cluster.nodes.Some? && Aggregating(args, cluster, info) {
        NothingAggregated(args, cluster, info, aggregated);
      }
    }
  }

  // No requirement

  /** Nothing is left of a selector term: it is empty, or its last expression has no values. */
  predicate NothingLeft(allowed: seq<SelectorTerm>) {
    forall term: SelectorTerm | term in allowed :: term == [] || term[|term| - 1].values == []
  }

  /** No requirement is sent because nothing restricts the volume, or because flatten leaves nothing. */
  ghost predicate Unrestricted(args: Args, cluster: Cluster, info: Info) {
    || (args.selectedNode == "" && args.allowed == [] && !args.immediate)
    || (&& args.allowed != [] && NothingLeft(args.allowed)
        && (args.selectedNode == "" ||
            (!args.strict && exists topology :: SelectedTopology(args, cluster, info, topology))))
  }

  lemma ArrangedUnconstrained(args: Args, terms: seq<Segment>, selected: Segment)
    requires terms != [] ==> Requisite(terms) != []
    ensures Arranged(args, terms, selected) == Unconstrained <==> terms == []
  {
  }

  lemma AggregatedConstrained(args: Args, cluster: Cluster, info: Info, selected: Segment, aggregated: seq<Segment>)
    ensures Aggregated(args, cluster, info, selected, aggregated).0 != Unconstrained
  {
  }

  lemma ImmediateUnconstrained(args: Args, cluster: Cluster, info: Info, aggregated: seq<Segment>)
    requires args.selectedNode == ""
    ensures Generate(args, cluster, info, aggregated).0 == Unconstrained <==>
            if args.allowed == [] then !args.immediate else Flattened(args.allowed) == []
    ensures Generate(args, cluster, info, aggregated).0 == Unconstrained ==>
            Generate(args, cluster, info, aggregated).1 == info
  {
    RequisiteProperties(Flattened(args.allowed));
    ArrangedUnconstrained(args, Flattened(args.allowed), []);
    AggregatedConstrained(args, cluster, info, [], aggregated);
  }

  lemma DelayedUnconstrained(args: Args, cluster: Cluster, info: Info, aggregated: seq<Segment>)
    requires args.selectedNode != ""
    ensures Generate(args, cluster, info, aggregated).0 == Unconstrained <==>
            args.allowed != [] && Flattened(args.allowed) == [] && !args.strict && LookUp(args, cluster, info).Found?
  {
    if LookUp(args, cluster, info).Found? {
      var selected, info' := LookUp(args, cluster, info).selected, LookUp(args, cluster, info).info;
      RequisiteProperties(Flattened(args.allowed));
      RequisiteProperties([selected]);
      ArrangedUnconstrained(args, Flattened(args.allowed), selected);
      ArrangedUnconstrained(args, [selected], selected);
      AggregatedConstrained(args, cluster, info', selected, aggregated);
    }
  }

  /** No requirement is sent exactly then; with immediate binding nothing is remembered in that case. */
  lemma UnconstrainedExactly(args: Args, cluster: Cluster, info: Info, aggregated: seq<Segment>)
    ensures Generate(args, cluster, info, aggregated).0 == Unconstrained <==> Unrestricted(args, cluster, info)
    ensures args.selectedNode == "" && Unrestricted(args, cluster, info) ==>
            Generate(args, cluster, info, aggregated).1 == info
  {
    FoundSome(args, cluster, info);
    FlattenedEmpty(args.allowed);
    if args.selectedNode == "" {
      ImmediateUnconstrained(args, cluster, info, aggregated);
    } else {
      DelayedUnconstrained(args, cluster, info, aggregated);
    }
  }

  lemma {:induction false} FlattenedEmpty(allowed: seq<SelectorTerm>)
    ensures Flattened(allowed) == [] <==> NothingLeft(allowed)
  {
    if allowed != [] {
      var n := |allowed| - 1;
      FlattenedEmpty(allowed[..n]);
      assert allowed == allowed[..n] + [allowed[n]];
      ProductEmpty(allowed[n]);
    }
  }

  lemma ProductEmpty(term: SelectorTerm)
    ensures Product(term) == [] <==> term == [] || term[|term| - 1].values == []
  {
    if term != [] {
      var n := |term| - 1;
      DistributedSize(Product(term[..n]), term[n].key, term[n].values);
    }
  }

  // The topologies that are sent

  /** A term that flatten makes of a selector term has one value for each key. */
  lemma ProductPick(term: SelectorTerm, t: Segment)
    requires HasValues(term) && DistinctKeys(term) && t in Product(term)
    ensures Picks(term, LabelMap(SortTerm(t)))
  {
    var s := SortTerm(t);
    var labels := LabelMap(s);
    ProductKeys(term, t);
    SortTermUnique(t);
    SortTermElements(t);
    LabelMapKeys(s);
    forall e | e in t ensures Carries(labels, e) {
      LabelMapCarries(s, e);
    }
    assert Contained(t, labels);
    ProductMeaning(term, labels);
    forall k ensures k in labels <==> k in set e | e in term :: e.key {
      if k in labels {
        var e :| e in s && e.key == k;
        assert e in t;
      }
      if k in (set e | e in term :: e.key) {
        var e :| e in term && e.key == k;
        assert Allows(e, labels);
      }
    }
  }

  lemma PickedProduct(term: SelectorTerm, labels: map<string, string>) returns (t: Segment)
    requires HasValues(term) && DistinctKeys(term) && Picks(term, labels)
    ensures t in Product(term) && LabelMap(SortTerm(t)) == labels
  {
    ProductMeaning(term, labels);
    t :| t in Product(term) && Contained(t, labels);
    var s := SortTerm(t);
    SortTermElements(t);
    LabelMapTaken(s, labels);
    ProductPick(term, t);
    LabelMapKeys(s);
  }

  lemma {:induction false} ProductsMembers(allowed: seq<SelectorTerm>, t: Segment)
    ensures t in Products(allowed) <==> exists term :: term in allowed && t in Product(term)
  {
    if allowed != [] {
      var n := |allowed| - 1;
      ProductsMembers(allowed[..n], t);
      assert allowed == allowed[..n] + [allowed[n]];
      if t in Product(allowed[n]) {
        assert allowed[n] in allowed;
      }
    }
  }

  lemma RestDistinct(term: SelectorTerm, m: nat)
    requires DistinctKeys(term) && m <= |term|
    ensures DistinctKeys(term[m..])
  {
  }

  lemma RemainingDistinct(term: SelectorTerm)
    requires DistinctKeys(term)
    ensures DistinctKeys(Remaining(term)) && HasValues(Remaining(term)) && Product(Remaining(term)) == Product(term)
  {
    if !HasValues(term) {
      ProductRestarts(term, LastEmpty(term));
      RestDistinct(term, LastEmpty(term) + 1);
    }
  }

  /** A choice of one value for each key that flatten leaves of some selector term. */
  ghost predicate Chosen(allowed: seq<SelectorTerm>, labels: map<string, string>) {
    exists term :: term in allowed && Picks(Remaining(term), labels)
  }

  /** Flattening gives exactly these choices. */
  lemma FlattenedExactly(allowed: seq<SelectorTerm>, labels: map<string, string>)
    requires forall term | term in allowed :: DistinctKeys(term)
    ensures SomeTerm(Elements(Flattened(allowed)), labels) <==> Chosen(allowed, labels)
  {
    var products, flattened := Products(allowed), Flattened(allowed);
    if SomeTerm(Elements(flattened), labels) {
      var i :| 0 <= i < |flattened| && LabelMap(flattened[i]) == labels;
      ProductsMembers(allowed, products[i]);
      var term :| term in allowed && products[i] in Product(term);
      RemainingDistinct(term);
      ProductPick(Remaining(term), products[i]);
    }
    if Chosen(allowed, labels) {
      var term :| term in allowed && Picks(Remaining(term), labels);
      RemainingDistinct(term);
      var t := PickedProduct(Remaining(term), labels);
      ProductsMembers(allowed, t);
      var i :| 0 <= i < |products| && products[i] == t;
      assert flattened[i] in Elements(flattened);
    }
  }

  /** The topologies to choose from: of the selected node, or allowed, or remembered, or of the cluster. */
  ghost predicate Eligible(args: Args, cluster: Cluster, info: Info, topology: map<string, string>) {
    if args.selectedNode != "" && args.strict then SelectedTopology(args, cluster, info, topology)
    else if args.allowed != [] then Chosen(args.allowed, topology)
    else if info.terms != [] then SomeTerm(Elements(info.terms), topology)
    else cluster.csiNodes.Some? && cluster.nodes.Some? && OfferedFor(args, cluster, info, topology)
  }

  lemma SourceExactly(
    args: Args, cluster: Cluster, info: Info, aggregated: seq<Segment>, terms: seq<Segment>, selected: Segment,
    topology: map<string, string>)
    requires forall term | term in args.allowed :: DistinctKeys(term)
    requires Source(args, cluster, info, aggregated, terms, selected)
    requires args.allowed == [] && info.terms == [] && !(args.selectedNode != "" && args.strict) ==>
               && cluster.csiNodes.Some? && cluster.nodes.Some?
               && Aggregates(args, cluster, KeysOf(args, cluster, info), aggregated)
    ensures SomeTerm(Elements(terms), topology) <==> Eligible(args, cluster, info, topology)
  {
    if args.selectedNode != "" && args.strict {
      FoundExactly(args, cluster, info, topology);
      assert Elements(terms) == {selected};
    } else if args.allowed != [] {
      FlattenedExactly(args.allowed, topology);
    } else if info.terms == [] {
      AggregatesExactly(args, cluster, info, aggregated, topology);
    }
  }

  lemma ListersAsked(args: Args, cluster: Cluster, info: Info, aggregated: seq<Segment>)
    requires Generate(args, cluster, info, aggregated).0.Requirement?
    requires args.allowed == [] && info.terms == [] && !(args.selectedNode != "" && args.strict)
    ensures cluster.csiNodes.Some? && cluster.nodes.Some?
  {
  }

  /** requisite has exactly the eligible topologies. */
  lemma RequisiteExactly(
    args: Args, cluster: Cluster, info: Info, aggregated: seq<Segment>, topology: map<string, string>)
    requires forall term | term in args.allowed :: DistinctKeys(term)
    requires cluster.csiNodes.Some? && cluster.nodes.Some? ==>
               Aggregates(args, cluster, KeysOf(args, cluster, info), aggregated)
    requires Generate(args, cluster, info, aggregated).0.Requirement?
    ensures SomeTerm(Elements(Generate(args, cluster, info, aggregated).0.requisite), topology) <==>
            Eligible(args, cluster, info, topology)
  {
    var terms, selected := RequirementSource(args, cluster, info, aggregated);
    if args.allowed == [] && info.terms == [] && !(args.selectedNode != "" && args.strict) {
      ListersAsked(args, cluster, info, aggregated);
    }
    SourceExactly(args, cluster, info, aggregated, terms, selected, topology);
    ArrangedCanonical(args, terms, selected);
  }

  // Their order

  /** Where preferred starts in requisite: by name hash, at the start, or at the first part of the selected topology. */
  ghost predicate StartsAt(args: Args, cluster: Cluster, info: Info, requisite: seq<Segment>, i: nat) {
    && i < |requisite|
    && if args.selectedNode == "" then i == args.spread % |requisite|
       else
         exists topology :: SelectedTopology(args, cluster, info, topology) &&
           if args.strict then i == 0
           else Contained(requisite[i], topology) && forall k | 0 <= k < i :: !Contained(requisite[k], topology)
  }

  lemma PreferredExactly(args: Args, cluster: Cluster, info: Info, aggregated: seq<Segment>) returns (i: nat)
    requires Generate(args, cluster, info, aggregated).0.Requirement?
    ensures var r := Generate(args, cluster, info, aggregated).0;
            StartsAt(args, cluster, info, r.requisite, i) && r.preferred == Rotated(r.requisite, i)
  {
    var terms, selected := RequirementSource(args, cluster, info, aggregated);
    var requisite := Requisite(terms);
    i := FirstPreferred(args, requisite, selected);
    if args.selectedNode != "" {
      FoundExactly(args, cluster, info, LabelMap(selected));
      forall k | 0 <= k < |requisite|
        ensures SubsetOf(requisite[k], selected) <==> Contained(requisite[k], LabelMap(selected))
      {
        SubsetMeans(args, cluster, info, requisite[k]);
      }
    }
  }

  // What is remembered

  ghost predicate RemembersKeys(args: Args, cluster: Cluster, info: Info, keys: seq<string>) {
    if args.selectedNode != "" && exists k :: KeysInForce(args, cluster, info, k)
    then KeysInForce(args, cluster, info, keys)
    else keys == info.keys
  }

  /** The labels of the node replace remembered ones that do not suffice, unless it has none. */
  ghost predicate RemembersLabels(args: Args, cluster: Cluster, info: Info, labels: map<string, string>) {
    if && args.selectedNode != "" && cluster.node.Some? && cluster.node.value != map[]
       && exists keys :: KeysInForce(args, cluster, info, keys) && !RememberedSuffice(info, keys)
    then labels == cluster.node.value
    else labels == info.labels
  }

  lemma LookUpRemembers(args: Args, cluster: Cluster, info: Info)
    requires args.selectedNode != ""
    ensures RemembersKeys(args, cluster, info, LookUp(args, cluster, info).info.keys)
    ensures RemembersLabels(args, cluster, info, LookUp(args, cluster, info).info.labels)
    ensures LookUp(args, cluster, info).info.terms == info.terms
  {
    forall keys ensures KeysInForce(args, cluster, info, keys) <==>
                        keys != [] && LookedUpKeys(args, cluster, info) == Some(keys) {
      KeysInForceExactly(args, cluster, info, keys);
    }
  }

  lemma AggregatedRemembers(args: Args, cluster: Cluster, info: Info, selected: Segment, aggregated: seq<Segment>)
    ensures var info' := Aggregated(args, cluster, info, selected, aggregated).1;
            && info'.keys == info.keys && info'.labels == info.labels
            && info'.terms == if info.terms == [] && FailureOf(args, cluster, aggregated).None? then aggregated
                              else info.terms
  {
  }

  ghost predicate RemembersTerms(
    args: Args, cluster: Cluster, info: Info, aggregated: seq<Segment>, terms: seq<Segment>)
  {
    terms == if Aggregating(args, cluster, info) && cluster.csiNodes.Some? && cluster.nodes.Some? then aggregated
             else info.terms
  }

  lemma DelayedRemembers(args: Args, cluster: Cluster, info: Info, aggregated: seq<Segment>)
    requires args.selectedNode != ""
    ensures var info', found := Generate(args, cluster, info, aggregated).1, LookUp(args, cluster, info);
            && info'.keys == found.info.keys && info'.labels == found.info.labels
            && info'.terms == if && found.Found? && !args.strict && args.allowed == [] && found.info.terms == []
                                 && FailureOf(args, cluster, aggregated).None?
                              then aggregated else found.info.terms
  {
    if LookUp(args, cluster, info).Found? {
      var selected, info' := LookUp(args, cluster, info).selected, LookUp(args, cluster, info).info;
      AggregatedRemembers(args, cluster, info', selected, aggregated);
    }
  }

  /** Keys and labels of the selected node, also if the call fails, and aggregated terms. */
  lemma RemembersExactly(args: Args, cluster: Cluster, info: Info, aggregated: seq<Segment>)
    ensures var info' := Generate(args, cluster, info, aggregated).1;
            && RemembersKeys(args, cluster, info, info'.keys) && RemembersLabels(args, cluster, info, info'.labels)
            && RemembersTerms(args, cluster, info, aggregated, info'.terms)
  {
    FoundSome(args, cluster, info);
    if args.selectedNode == "" {
      AggregatedRemembers(args, cluster, info, [], aggregated);
    } else {
      LookUpRemembers(args, cluster, info);
      DelayedRemembers(args, cluster, info, aggregated);
    }
  }
}
