/**
 Delayed binding (pkg/controller/topology.go): how the requirement relates to the labels that
 the selected node really has. Labels are remembered per claim and not per node, so they may be
 those of a node that was selected earlier.
 */
module SelectedNode {
  import opened Orders
  import opened Segments
  import opened Flatten
  import opened NodeTopology
  import opened Aggregation
  import opened Requirements

  /** The lookup takes the remembered labels instead of those of the node. */
  predicate UsesRemembered(args: Args, cluster: Cluster, info: Info) {
    info.labels != map[] && Labelled(KeysOf(args, cluster, info), info.labels)
  }

  /** Both label maps have all keys, with the same values. */
  predicate Agree(keys: set<string>, labels: map<string, string>, node: map<string, string>) {
    forall k | k in keys :: k in labels && k in node && node[k] == labels[k]
  }

  predicate AgreeOnKeys(args: Args, cluster: Cluster, info: Info, node: map<string, string>)
    requires LookUp(args, cluster, info).Found?
  {
    Agree(Elements(KeysOf(args, cluster, info)), LookUp(args, cluster, info).labels, node)
  }

  /** A requirement implies that the lookup succeeded and that something is preferred. */
  lemma RequirementFound(args: Args, cluster: Cluster, info: Info, aggregated: seq<Segment>)
    requires args.selectedNode != "" && Generate(args, cluster, info, aggregated).0.Requirement?
    ensures LookUp(args, cluster, info).Found? && Generate(args, cluster, info, aggregated).0.preferred != []
  {
    PreferredFits(args, cluster, info, aggregated);
  }

  // Labels of the node

  /** Without remembered labels the first preferred term and the allowed topologies fit the node itself. */
  lemma NodeFits(args: Args, cluster: Cluster, info: Info, aggregated: seq<Segment>)
    requires args.selectedNode != "" && Generate(args, cluster, info, aggregated).0.Requirement?
    requires !UsesRemembered(args, cluster, info)
    ensures cluster.node.Some? && Generate(args, cluster, info, aggregated).0.preferred != []
    ensures Contained(Generate(args, cluster, info, aggregated).0.preferred[0], cluster.node.value)
    ensures args.allowed != [] && FlattensSoundly(args.allowed) ==> TopologiesAllow(args.allowed, cluster.node.value)
  {
    PreferredFits(args, cluster, info, aggregated);
    assert LookUp(args, cluster, info).labels == cluster.node.value;
  }

  // Remembered labels

  /** The keys of the first preferred term, from the arguments of the call. */
  function PreferredKeys(args: Args, cluster: Cluster, info: Info, aggregated: seq<Segment>): set<string>
    requires LookUp(args, cluster, info).Found?
  {
    if args.strict then Elements(KeysOf(args, cluster, info))
    else
      var requisite := Requisite(Candidates(args, cluster, info, aggregated));
      var i := FirstSubset(requisite, LookUp(args, cluster, info).selected);
      if i < |requisite| then Keys(requisite[i]) else {}
  }

  lemma SelectedKeys(args: Args, cluster: Cluster, info: Info)
    requires LookUp(args, cluster, info).Found?
    ensures Keys(LookUp(args, cluster, info).selected) == Elements(KeysOf(args, cluster, info))
  {
    TermOfKeys(KeysOf(args, cluster, info), LookUp(args, cluster, info).labels);
  }

  lemma StrictPreferred(args: Args, cluster: Cluster, info: Info, aggregated: seq<Segment>)
    requires args.selectedNode != "" && args.strict && Generate(args, cluster, info, aggregated).0.Requirement?
    ensures LookUp(args, cluster, info).Found? && Generate(args, cluster, info, aggregated).0.preferred != []
    ensures Generate(args, cluster, info, aggregated).0.preferred[0] == LookUp(args, cluster, info).selected
  {
    var terms, selected := RequirementSource(args, cluster, info, aggregated);
    ArrangedPreferred(args, terms, selected);
  }

  lemma PreferredHasKeys(args: Args, cluster: Cluster, info: Info, aggregated: seq<Segment>)
    requires args.selectedNode != "" && Generate(args, cluster, info, aggregated).0.Requirement?
    ensures LookUp(args, cluster, info).Found? && Generate(args, cluster, info, aggregated).0.preferred != []
    ensures Keys(Generate(args, cluster, info, aggregated).0.preferred[0]) ==
            PreferredKeys(args, cluster, info, aggregated)
  {
    RequirementFound(args, cluster, info, aggregated);
    if args.strict {
      StrictPreferred(args, cluster, info, aggregated);
      SelectedKeys(args, cluster, info);
    } else {
      CandidatesArranged(args, cluster, info, aggregated);
      assert Candidates(args, cluster, info, aggregated) != [];
    }
  }

  /** A term that fits some labels fits others exactly if they agree on its keys. */
  lemma FitsBoth(t: Segment, labels: map<string, string>, node: map<string, string>)
    requires Contained(t, labels)
    ensures Contained(t, node) <==> Agree(Keys(t), labels, node)
  {
    if Agree(Keys(t), labels, node) {
      forall e | e in t ensures Carries(node, e) {
        assert Carries(labels, e) && e.key in Keys(t);
      }
    }
    if Contained(t, node) {
      forall k | k in Keys(t) ensures k in labels && k in node && node[k] == labels[k] {
        var e :| e in t && e.key == k;
        assert Carries(labels, e) && Carries(node, e);
      }
    }
  }

  /**
   The first preferred term fits a node exactly if the labels of the node agree with those that
   were looked up, on the keys of that term; with strict topology these are all topology keys.
   */
  lemma PreferredFitsNodeExactly(
    args: Args, cluster: Cluster, info: Info, aggregated: seq<Segment>, node: map<string, string>)
    requires args.selectedNode != "" && Generate(args, cluster, info, aggregated).0.Requirement?
    ensures LookUp(args, cluster, info).Found? && Generate(args, cluster, info, aggregated).0.preferred != []
    ensures Contained(Generate(args, cluster, info, aggregated).0.preferred[0], node) <==>
            Agree(PreferredKeys(args, cluster, info, aggregated), LookUp(args, cluster, info).labels, node)
  {
    PreferredFits(args, cluster, info, aggregated);
    PreferredHasKeys(args, cluster, info, aggregated);
    FitsBoth(Generate(args, cluster, info, aggregated).0.preferred[0], LookUp(args, cluster, info).labels, node);
  }

  /** If the node agrees with the labels on all topology keys, the whole requirement fits it. */
  lemma AgreeingNodeFits(args: Args, cluster: Cluster, info: Info, aggregated: seq<Segment>, node: map<string, string>)
    requires args.selectedNode != "" && Generate(args, cluster, info, aggregated).0.Requirement?
    requires LookUp(args, cluster, info).Found? && AgreeOnKeys(args, cluster, info, node)
    ensures Generate(args, cluster, info, aggregated).0.preferred != []
    ensures Contained(Generate(args, cluster, info, aggregated).0.preferred[0], node)
    ensures args.allowed != [] && FlattensSoundly(args.allowed) ==> TopologiesAllow(args.allowed, node)
  {
    var terms, selected := RequirementSource(args, cluster, info, aggregated);
    SelectedCarried(args, cluster, info);
    SelectedKeys(args, cluster, info);
    FitsBoth(selected, LookUp(args, cluster, info).labels, node);
    ArrangedPreferred(args, terms, selected);
    FlattenMeaning(args.allowed, node);
  }

  /** With terms that are aggregated anew, all topology keys count without strict topology, too. */
  lemma AggregatedFitsNodeExactly(
    args: Args, cluster: Cluster, info: Info, aggregated: seq<Segment>, node: map<string, string>)
    requires args.selectedNode != "" && args.allowed == [] && info.terms == []
    requires cluster.csiNodes.Some? && cluster.nodes.Some?
    requires Aggregates(args, cluster, KeysOf(args, cluster, info), aggregated)
    requires Generate(args, cluster, info, aggregated).0.Requirement?
    ensures LookUp(args, cluster, info).Found? && Generate(args, cluster, info, aggregated).0.preferred != []
    ensures Contained(Generate(args, cluster, info, aggregated).0.preferred[0], node) <==>
            AgreeOnKeys(args, cluster, info, node)
  {
    PreferredFitsNodeExactly(args, cluster, info, aggregated, node);
    if !args.strict {
      AggregatedKeys(args, cluster, info, aggregated);
      PreferredHasKeys(args, cluster, info, aggregated);
      CandidatesArranged(args, cluster, info, aggregated);
      ArrangedPreferred(args, aggregated, LookUp(args, cluster, info).selected);
    }
  }

  lemma AggregatedKeys(args: Args, cluster: Cluster, info: Info, aggregated: seq<Segment>)
    requires args.selectedNode != "" && cluster.csiNodes.Some? && cluster.nodes.Some?
    requires Aggregates(args, cluster, KeysOf(args, cluster, info), aggregated)
    ensures forall t | t in aggregated :: Keys(t) == Elements(KeysOf(args, cluster, info))
  {
    var keys := KeysOf(args, cluster, info);
    forall t | t in aggregated ensures Keys(t) == Elements(keys) {
      assert t in Elements(aggregated);
      var n :| n in cluster.nodes.value && Reported(cluster.csiNodes.value, args.driverName, keys, n) &&
               t == TermOf(keys, n.labels);
      TermOfKeys(keys, n.labels);
    }
  }

  lemma TermOfKeys(keys: seq<string>, labels: map<string, string>)
    requires Labelled(keys, labels)
    ensures Keys(TermOf(keys, labels)) == Elements(keys)
  {
    TermOfElements(keys, labels);
    forall k | k in keys ensures k in Keys(TermOf(keys, labels)) {
      assert Entry(k, labels[k]) in TermOf(keys, labels);
    }
  }

  // Which node is remembered

  /** Keys and labels that later calls use as they are. */
  predicate Complete(info: Info) {
    info.keys != [] && info.labels != map[] && Labelled(info.keys, info.labels)
  }

  /** The selected node of the call has labels for all topology keys. */
  predicate Completes(call: Call, info: Info) {
    var keys := KeysOf(call.args, call.cluster, info);
    && call.args.selectedNode != "" && keys != []
    && call.cluster.node.Some? && Labelled(keys, call.cluster.node.value)
  }

  /** Labels are remembered together with keys only. */
  predicate KeyedLabels(info: Info) {
    info.labels != map[] ==> info.keys != []
  }

  lemma CallCompletes(call: Call, info: Info)
    requires KeyedLabels(info) && !Complete(info)
    ensures var info' := Generate(call.args, call.cluster, info, call.aggregated).1;
            && KeyedLabels(info') && (Complete(info') <==> Completes(call, info))
            && (Complete(info') ==> info'.labels == call.cluster.node.value)
  {
    if Completes(call, info) {
      var keys := KeysOf(call.args, call.cluster, info);
      assert keys[0] in call.cluster.node.value;
    }
  }

  /** Call k of a sequence that starts with nothing has a node with all labels. */
  predicate CompletesAt(calls: seq<Call>, k: nat)
    requires k < |calls|
  {
    Completes(calls[k], After(NOTHING, calls[..k]))
  }

  lemma {:induction false} CallsIncomplete(calls: seq<Call>, n: nat)
    requires n <= |calls| && forall m | 0 <= m < n :: !CompletesAt(calls, m)
    ensures KeyedLabels(After(NOTHING, calls[..n])) && !Complete(After(NOTHING, calls[..n]))
  {
    if n > 0 {
      CallsIncomplete(calls, n - 1);
      assert !CompletesAt(calls, n - 1);
      assert calls[..n] == calls[..n - 1] + [calls[n - 1]];
      FoldSnoc(Remembering, NOTHING, calls[..n - 1], calls[n - 1]);
      CallCompletes(calls[n - 1], After(NOTHING, calls[..n - 1]));
    }
  }

  lemma CompleteAfter(calls: seq<Call>, k: nat)
    requires k < |calls| && CompletesAt(calls, k)
    requires KeyedLabels(After(NOTHING, calls[..k])) && !Complete(After(NOTHING, calls[..k]))
    ensures Complete(After(NOTHING, calls[..k + 1]))
    ensures After(NOTHING, calls[..k + 1]).labels == calls[k].cluster.node.value
  {
    assert calls[..k + 1] == calls[..k] + [calls[k]];
    FoldSnoc(Remembering, NOTHING, calls[..k], calls[k]);
    CallCompletes(calls[k], After(NOTHING, calls[..k]));
  }

  lemma CompleteLater(info: Info, calls: seq<Call>, args: Args, cluster: Cluster)
    requires Complete(info)
    ensures LookUp(args, cluster, After(info, calls)).Found?
    ensures LookUp(args, cluster, After(info, calls)).labels == info.labels
  {
    CallsKeep(info, calls);
  }

  lemma AfterSplit(calls: seq<Call>, k: nat)
    requires k <= |calls|
    ensures After(NOTHING, calls) == After(After(NOTHING, calls[..k]), calls[k..])
  {
    assert calls == calls[..k] + calls[k..];
    FoldConcat(Remembering, NOTHING, calls[..k], calls[k..]);
  }

  /**
   Starting with nothing, every delayed call after the first one whose selected node has labels
   for all topology keys uses the labels of that node, whatever node is selected now.
   */
  lemma FirstCompleteNode(calls: seq<Call>, k: nat, args: Args, cluster: Cluster)
    requires k < |calls| && CompletesAt(calls, k) && forall m | 0 <= m < k :: !CompletesAt(calls, m)
    ensures LookUp(args, cluster, After(NOTHING, calls)).Found?
    ensures calls[k].cluster.node == Some(LookUp(args, cluster, After(NOTHING, calls)).labels)
  {
    CallsIncomplete(calls, k);
    CompleteAfter(calls, k);
    AfterSplit(calls, k + 1);
    CompleteLater(After(NOTHING, calls[..k + 1]), calls[k + 1..], args, cluster);
  }

  // Allowed topologies, for remembered labels

  /** One expression per entry, with its value only. */
  function Singles(s: Segment): SelectorTerm {
    seq(|s|, i requires 0 <= i < |s| => Expression(s[i].key, [s[i].value]))
  }

  lemma SingleDistributed(prior: seq<Segment>, e: Entry)
    ensures Distributed(prior, e.key, [e.value]) == Extended(prior, e)
  {
    assert [e.value][..0] == [];
    assert Distributed(prior, e.key, []) + Extended(prior, e) == Extended(prior, e);
  }

  lemma SinglesStep(s: Segment)
    requires s != []
    ensures Product(Singles(s)) == Extended(Product(Singles(s[..|s| - 1])), s[|s| - 1])
  {
    var n := |s| - 1;
    assert Singles(s)[..n] == Singles(s[..n]);
    SingleDistributed(Product(Singles(s[..n])), s[n]);
  }

  lemma ExtendedOnce(t: Segment, e: Entry)
    ensures Extended([t], e) == [t + [e]]
  {
  }

  lemma {:induction false} SinglesProduct(s: Segment)
    ensures Product(Singles(s)) == if s == [] then [] else [s]
  {
    if s != [] {
      var n := |s| - 1;
      SinglesProduct(s[..n]);
      SinglesStep(s);
      ExtendedOnce(s[..n], s[n]);
      assert s == s[..n] + [s[n]];
      if n == 0 {
        assert s[..n] == [];
      }
    }
  }

  lemma SinglesFlattened(s: Segment)
    requires s != []
    ensures Flattened([Singles(s)]) == [SortTerm(s)]
  {
    SinglesProduct(s);
    assert Products([Singles(s)]) == [s];
  }

  /** They flatten soundly, and allow only nodes that have all entries. */
  lemma SinglesAllow(s: Segment, node: map<string, string>)
    ensures FlattensSoundly([Singles(s)])
    ensures TopologiesAllow([Singles(s)], node) ==> Contained(s, node)
  {
    ValuesFlattenSoundly([Singles(s)]);
    if TopologiesAllow([Singles(s)], node) {
      forall e | e in s ensures Carries(node, e) {
        var i :| 0 <= i < |s| && s[i] == e;
        assert Singles(s)[i] in Singles(s);
      }
    }
  }

  /** A requirement for these allowed topologies means that the node satisfies them. */
  ghost predicate AllowedFit(
    args: Args, cluster: Cluster, info: Info, aggregated: seq<Segment>,
    allowed: seq<SelectorTerm>, node: map<string, string>)
  {
    var outcome := Generate(args.(allowed := allowed), cluster, info, aggregated).0;
    allowed != [] && FlattensSoundly(allowed) && outcome.Requirement? ==> TopologiesAllow(allowed, node)
  }

  lemma SinglesAccepted(args: Args, cluster: Cluster, info: Info, aggregated: seq<Segment>)
    requires args.selectedNode != "" && LookUp(args, cluster, info).Found?
    ensures var selected := LookUp(args, cluster, info).selected;
            selected != [] && Generate(args.(allowed := [Singles(selected)]), cluster, info, aggregated).0.Requirement?
  {
    var selected := LookUp(args, cluster, info).selected;
    TermOfElements(KeysOf(args, cluster, info), LookUp(args, cluster, info).labels);
    SinglesFlattened(selected);
    SortTermElements(selected);
    assert SortTerm(selected) in Flattened([Singles(selected)]) && SubsetOf(SortTerm(selected), selected);
    assert LookUp(args.(allowed := [Singles(selected)]), cluster, info) == LookUp(args, cluster, info);
    if args.strict {
      RequisiteProperties([selected]);
    } else {
      PartArranged(args.(allowed := [Singles(selected)]), SortTerm(selected), selected);
    }
  }

  lemma PartArranged(args: Args, t: Segment, selected: Segment)
    requires args.selectedNode != "" && !args.strict && SubsetOf(t, selected)
    ensures Requisite([t]) != [] && Arranged(args, [t], selected).Requirement?
  {
    RequisiteProperties([t]);
    assert t in Elements(Requisite([t]));
    var i :| 0 <= i < |Requisite([t])| && Requisite([t])[i] == t;
  }

  /**
   A node satisfies all allowed topologies for which a requirement is generated exactly if its
   labels agree with those that were looked up, on all topology keys.
   */
  lemma AllowedFitNodeExactly(
    args: Args, cluster: Cluster, info: Info, aggregated: seq<Segment>, node: map<string, string>)
    requires args.selectedNode != "" && LookUp(args, cluster, info).Found?
    ensures (forall allowed :: AllowedFit(args, cluster, info, aggregated, allowed, node)) <==>
            AgreeOnKeys(args, cluster, info, node)
  {
    var selected := LookUp(args, cluster, info).selected;
    SelectedCarried(args, cluster, info);
    SelectedKeys(args, cluster, info);
    FitsBoth(selected, LookUp(args, cluster, info).labels, node);
    if AgreeOnKeys(args, cluster, info, node) {
      forall allowed ensures AllowedFit(args, cluster, info, aggregated, allowed, node) {
        if Generate(args.(allowed := allowed), cluster, info, aggregated).0.Requirement? {
          AgreeingNodeFits(args.(allowed := allowed), cluster, info, aggregated, node);
        }
      }
    } else {
      SinglesAccepted(args, cluster, info, aggregated);
      SinglesAllow(selected, node);
      assert !AllowedFit(args, cluster, info, aggregated, [Singles(selected)], node);
    }
  }

  // Examples

  function ZoneNode(name: string): CSINode {
    CSINode(name, [Driver("driver", Some(["zone"]))])
  }

  /** A cluster of two nodes in different zones, of which one is selected. */
  function ZoneCluster(name: string, zone: string): Cluster {
    Cluster(Some(ZoneNode(name)), Some(map["zone" := zone]), Some([ZoneNode("n1"), ZoneNode("n2")]),
            Some([Node("n1", map["zone" := "a"]), Node("n2", map["zone" := "b"])]))
  }

  function ZoneArgs(name: string, strict: bool, allowed: seq<SelectorTerm>): Args {
    Args("driver", 0, allowed, name, strict, false)
  }

  function Zone(zone: string): Segment {
    [Entry("zone", zone)]
  }

  lemma ZoneSorted(zone: string)
    ensures SortTerm(Zone(zone)) == Zone(zone)
  {
    assert Zone(zone)[1..] == [] && SortBy(CompareEntries, Zone(zone)[1..]) == [];
    assert SortTerm(Zone(zone)) == Insert(CompareEntries, Entry("zone", zone), []);
  }

  lemma ZoneTerm(labels: map<string, string>)
    requires "zone" in labels
    ensures Labelled(["zone"], labels) && TermOf(["zone"], labels) == Zone(labels["zone"])
  {
    assert SegmentOf(["zone"], labels) == Zone(labels["zone"]);
    ZoneSorted(labels["zone"]);
  }

  lemma ZoneLookUp(name: string, strict: bool, allowed: seq<SelectorTerm>, zone: string)
    ensures LookUp(ZoneArgs(name, strict, allowed), ZoneCluster(name, zone), NOTHING) ==
            Found(Zone(zone), map["zone" := zone], Info(map["zone" := zone], ["zone"], []))
  {
    ZoneTerm(map["zone" := zone]);
  }

  /**
   Two calls for one claim, the second with another node selected, with listers that agree: the
   requirement for the second node still is the topology of the first one.
   */
  lemma OtherNodeRemembered(aggregated: seq<Segment>)
    ensures Consistent(ZoneArgs("n1", true, []), ZoneCluster("n1", "a"))
    ensures Consistent(ZoneArgs("n2", true, []), ZoneCluster("n2", "b"))
    ensures var info := Generate(ZoneArgs("n1", true, []), ZoneCluster("n1", "a"), NOTHING, aggregated).1;
            var r := Generate(ZoneArgs("n2", true, []), ZoneCluster("n2", "b"), info, aggregated).0;
            r.Requirement? && r.preferred == [Zone("a")] &&
                !Contained(r.preferred[0], ZoneCluster("n2", "b").node.value)
  {
    ZoneLookUp("n1", true, [], "a");
    var info := Info(map["zone" := "a"], ["zone"], []);
    ZoneTerm(info.labels);
    assert LookUp(ZoneArgs("n2", true, []), ZoneCluster("n2", "b"), info).selected == Zone("a");
    assert Requisite([Zone("a")]) == [Zone("a")];
    assert Entry("zone", "a") in Zone("a");
  }

  /** The error that should not happen, for an allowed topology in which the selected node is not. */
  lemma NotInRequisiteHappens(aggregated: seq<Segment>)
    ensures var allowed := [[Expression("zone", ["a"])]];
            Generate(ZoneArgs("n2", false, allowed), ZoneCluster("n2", "b"), NOTHING, aggregated).0 ==
                Failed(NotInRequisite)
  {
    var allowed := [[Expression("zone", ["a"])]];
    ZoneLookUp("n2", false, allowed, "b");
    assert Singles(Zone("a")) == allowed[0];
    SinglesFlattened(Zone("a"));
    ZoneSorted("a");
    assert Flattened(allowed) == [Zone("a")];
    assert Entry("zone", "a") in Zone("a");
    NotInRequisiteExactly(ZoneArgs("n2", false, allowed), ZoneCluster("n2", "b"), NOTHING, aggregated);
  }
}
