/**
 The accessibility requirements for CreateVolume: GenerateAccessibilityRequirements in
 pkg/controller/topology.go as a function of the claim, the listers and what is remembered
 for the claim, with the properties that callers rely on.
 */
module Requirements {
  import opened Orders
  import opened Segments
  import opened Flatten
  import opened NodeTopology
  import opened Aggregation

  /** What the store remembers for a claim; an absent entry and empty fields are the same. */
  datatype Info = Info(labels: map<string, string>, keys: seq<string>, terms: seq<Segment>)

  const NOTHING := Info(map[], [], [])

  /** spread is the sum of name hash and index; selectedNode is empty for immediate binding. */
  datatype Args = Args(
    driverName: string, spread: nat, allowed: seq<SelectorTerm>,
    selectedNode: string, strict: bool, immediate: bool)

  /** What the listers return: None is an error (for csiNode and node also "not found"). */
  datatype Cluster = Cluster(
    csiNode: Option<CSINode>,                 // Get for the selected node
    node: Option<map<string, string>>,        // labels of the selected node
    csiNodes: Option<seq<CSINode>>,
    nodes: Option<seq<Node>>)

  datatype Failure = NoCSINode | NoKeys | MissingLabels | NotAllowed | ListFailed | NoTopology | NotInRequisite

  /** Unconstrained is the (nil, nil) result. */
  datatype Outcome =
    | Failed(reason: Failure)
    | Unconstrained
    | Requirement(requisite: seq<Segment>, preferred: seq<Segment>)

  // Looking up the selected node, with the cache

  function LookedUpKeys(args: Args, cluster: Cluster, info: Info): Option<seq<string>> {
    if info.keys != [] then Some(info.keys)
    else if cluster.csiNode.None? then None
    else Some(TopologyKeys(cluster.csiNode.value, args.driverName))
  }

  /** The remembered labels if they have all keys, otherwise those of the node. */
  function LookedUpLabels(cluster: Cluster, info: Info, keys: seq<string>): Option<map<string, string>> {
    if info.labels != map[] && Labelled(keys, info.labels) then Some(info.labels) else cluster.node
  }

  /** The topology of the selected node and the labels it comes from, or why there is none. */
  datatype Lookup =
    | Missing(reason: Failure, info: Info)
    | Found(selected: Segment, labels: map<string, string>, info: Info)

  /** topologyKeysLookup and getTopologyFromNodeName, with what they remember. */
  function LookUp(args: Args, cluster: Cluster, info: Info): Lookup {
    var keys := LookedUpKeys(args, cluster, info);
    if keys.None? then Missing(NoCSINode, info)
    else if keys.value == [] then Missing(NoKeys, info)
    else
      var withKeys := info.(keys := keys.value);
      var labels := LookedUpLabels(cluster, info, keys.value);
      if labels.None? then Missing(MissingLabels, withKeys)
      else
        var withLabels := if labels.value == map[] then withKeys else withKeys.(labels := labels.value);
        if Labelled(keys.value, labels.value) then Found(TermOf(keys.value, labels.value), labels.value, withLabels)
        else Missing(MissingLabels, withLabels)
  }

  // Terms

  predicate SubsetOf(t: Segment, other: Segment) {
    forall e | e in t :: e in other
  }

  /** topologyTerm.subset, with its running index; correct for sorted terms with unique keys. */
  method Subset(t: Segment, other: Segment) returns (b: bool)
    requires UniqueSortedKeys(t) && UniqueSortedKeys(other)
    ensures b <==> SubsetOf(t, other)
  {
    if |t| == 0 {
      return true;
    }
    KeysDiffer(other);
    var j := 0;
    for i := 0 to |other|
      invariant 0 <= j < |t|
      invariant forall k | 0 <= k < j :: t[k] in other
      invariant forall k | 0 <= k < i :: other[k].key != t[j].key
    {
      if t[j].key != other[i].key {
        continue;
      }
      if t[j].value != other[i].value {
        assert t[j] in t;
        assert t[j] !in other;
        return false;
      }
      j := j + 1;
      assert t[j - 1] == other[i];
      if j == |t| {
        return true;
      }
      LaterKeyDiffers(t, other, i, j);
    }
    assert t[j] !in other;
    assert t[j] in t;
    return false;
  }

  lemma LaterKeyDiffers(t: Segment, other: Segment, i: nat, j: nat)
    requires UniqueSortedKeys(t) && UniqueSortedKeys(other)
    requires i < |other| && 0 < j < |t| && t[j - 1].key == other[i].key
    ensures forall k | 0 <= k <= i :: other[k].key != t[j].key
  {
    forall k | 0 <= k <= i ensures other[k].key != t[j].key {
      assert CompareStrings(t[j - 1].key, t[j].key) < 0;
      if other[k].key == t[j].key {
        assert k == i || CompareStrings(other[k].key, other[i].key) < 0;
        LexSwap(CompareChars, t[j - 1].key, t[j].key);
      }
    }
  }

  /** append(terms[i:], terms[:i]...) */
  function Rotated(terms: seq<Segment>, i: nat): seq<Segment>
    requires i <= |terms|
  {
    terms[i..] + terms[..i]
  }

  /** The first term that is part of the selected topology, or the number of terms. */
  function FirstSubset(terms: seq<Segment>, selected: Segment): (i: nat)
    ensures i <= |terms|
    ensures i < |terms| ==> SubsetOf(terms[i], selected)
    ensures forall k | 0 <= k < i :: !SubsetOf(terms[k], selected)
  {
    if terms == [] || SubsetOf(terms[0], selected) then 0 else 1 + FirstSubset(terms[1..], selected)
  }

  function Requisite(terms: seq<Segment>): seq<Segment> {
    Canonical(CompareSegments, terms)
  }

  /** The index of the first preferred term; the number of terms if there is none. */
  function FirstPreferred(args: Args, requisite: seq<Segment>, selected: Segment): (i: nat)
    requires requisite != []
    ensures i <= |requisite|
  {
    if args.selectedNode == "" then args.spread % |requisite|
    else if args.strict then 0
    else FirstSubset(requisite, selected)
  }

  /** Step 3: rotate, so that the chosen term comes first. */
  function Preferring(args: Args, requisite: seq<Segment>, selected: Segment): Outcome
    requires requisite != []
  {
    var i := FirstPreferred(args, requisite, selected);
    if i == |requisite| then Failed(NotInRequisite) else Requirement(requisite, Rotated(requisite, i))
  }

  /** From the end of step 2 on: sort, compact and rotate. */
  function Arranged(args: Args, terms: seq<Segment>, selected: Segment): Outcome
    requires terms != [] ==> Requisite(terms) != []
  {
    if terms == [] then Unconstrained else Preferring(args, Requisite(terms), selected)
  }

  lemma RequisiteProperties(terms: seq<Segment>)
    ensures StrictlyIncreasing(CompareSegments, Requisite(terms))
    ensures Elements(Requisite(terms)) == Elements(terms)
    ensures terms == [] <==> Requisite(terms) == []
  {
    CompareSegmentsIsComparator();
    CanonicalProperties(CompareSegments, terms);
  }

  // Aggregation, with the cache

  /** A list that the aggregation may return for these listers; the order is that of the listers. */
  ghost predicate Aggregates(args: Args, cluster: Cluster, keys: seq<string>, aggregated: seq<Segment>)
    requires cluster.csiNodes.Some? && cluster.nodes.Some?
  {
    Elements(aggregated) ==
    if args.selectedNode == "" then ClusterTerms(cluster.csiNodes.value, args.driverName, cluster.nodes.value)
    else TermsFor(cluster.csiNodes.value, args.driverName, keys, cluster.nodes.value)
  }

  /** Why aggregation fails, if it does. Without any registered keys the nodes are not listed. */
  function FailureOf(args: Args, cluster: Cluster, aggregated: seq<Segment>): Option<Failure> {
    if cluster.csiNodes.None? then Some(ListFailed)
    else if cluster.nodes.None? then
      var keySets := KeySets(cluster.csiNodes.value, args.driverName);
      Some(if args.selectedNode == "" && keySets == {} then NoTopology else ListFailed)
    else if aggregated == [] then Some(NoTopology)
    else None
  }

  /** aggregateTopologies and what follows it. */
  function Aggregated(args: Args, cluster: Cluster, info: Info, selected: Segment, aggregated: seq<Segment>)
    : (Outcome, Info)
  {
    RequisiteProperties(info.terms);
    RequisiteProperties(aggregated);
    if info.terms != [] then (Arranged(args, info.terms, selected), info)
    else
      match FailureOf(args, cluster, aggregated)
      case Some(reason) => (Failed(reason), info)
      case None => (Arranged(args, aggregated, selected), info.(terms := aggregated))
  }

  function Generate(args: Args, cluster: Cluster, info: Info, aggregated: seq<Segment>): (Outcome, Info) {
    RequisiteProperties(Flattened(args.allowed));
    if args.selectedNode == "" then
      if args.allowed != [] then (Arranged(args, Flattened(args.allowed), []), info)
      else if !args.immediate then (Unconstrained, info)
      else Aggregated(args, cluster, info, [], aggregated)
    else
      match LookUp(args, cluster, info)
      case Missing(reason, info') => (Failed(reason), info')
      case Found(selected, _, info') => GenerateSelected(args, cluster, info', selected, aggregated)
  }

  /** Delayed binding, once the topology of the selected node is known. */
  function GenerateSelected(
    args: Args, cluster: Cluster, info: Info, selected: Segment, aggregated: seq<Segment>)
    : (Outcome, Info)
  {
    RequisiteProperties([selected]);
    RequisiteProperties(Flattened(args.allowed));
    if args.strict then
      if args.allowed != [] && (forall t | t in Flattened(args.allowed) :: !SubsetOf(t, selected)) then
        (Failed(NotAllowed), info)
      else (Arranged(args, [selected], selected), info)
    else if args.allowed != [] then (Arranged(args, Flattened(args.allowed), selected), info)
    else Aggregated(args, cluster, info, selected, aggregated)
  }

  // Canonical form

  /** Where the terms of a requirement come from. */
  ghost predicate Source(
    args: Args, cluster: Cluster, info: Info, aggregated: seq<Segment>, terms: seq<Segment>, selected: Segment)
  {
    && (args.selectedNode != "" ==>
        LookUp(args, cluster, info).Found? && selected == LookUp(args, cluster, info).selected)
    && if args.selectedNode != "" && args.strict then
         terms == [selected] &&
             (args.allowed == [] || exists t :: t in Flattened(args.allowed) && SubsetOf(t, selected))
       else if args.allowed != [] then terms == Flattened(args.allowed)
       else terms == if info.terms != [] then info.terms else aggregated
  }

  lemma ImmediateSource(args: Args, cluster: Cluster, info: Info, aggregated: seq<Segment>)
    returns (terms: seq<Segment>, selected: Segment)
    requires args.selectedNode == "" && Generate(args, cluster, info, aggregated).0.Requirement?
    ensures terms != [] && Requisite(terms) != []
    ensures Generate(args, cluster, info, aggregated).0 == Arranged(args, terms, selected)
    ensures Source(args, cluster, info, aggregated, terms, selected)
  {
    selected := [];
    terms := if args.allowed != [] then Flattened(args.allowed)
             else if info.terms != [] then info.terms
             else aggregated;
    RequisiteProperties(terms);
  }

  lemma DelayedSource(args: Args, cluster: Cluster, info: Info, aggregated: seq<Segment>)
    returns (terms: seq<Segment>, selected: Segment)
    requires args.selectedNode != "" && Generate(args, cluster, info, aggregated).0.Requirement?
    ensures terms != [] && Requisite(terms) != []
    ensures Generate(args, cluster, info, aggregated).0 == Arranged(args, terms, selected)
    ensures Source(args, cluster, info, aggregated, terms, selected)
  {
    selected := LookUp(args, cluster, info).selected;
    terms := if args.strict then [selected]
             else if args.allowed != [] then Flattened(args.allowed)
             else if info.terms != [] then info.terms
             else aggregated;
    RequisiteProperties(terms);
  }

  /** A requirement is always the arrangement of some terms. */
  lemma RequirementSource(args: Args, cluster: Cluster, info: Info, aggregated: seq<Segment>)
    returns (terms: seq<Segment>, selected: Segment)
    requires Generate(args, cluster, info, aggregated).0.Requirement?
    ensures terms != [] && Requisite(terms) != []
    ensures Generate(args, cluster, info, aggregated).0 == Arranged(args, terms, selected)
    ensures Source(args, cluster, info, aggregated, terms, selected)
  {
    if args.selectedNode == "" {
      terms, selected := ImmediateSource(args, cluster, info, aggregated);
    } else {
      terms, selected := DelayedSource(args, cluster, info, aggregated);
    }
    RequisiteProperties(terms);
  }

  lemma ArrangedCanonical(args: Args, terms: seq<Segment>, selected: Segment)
    requires terms != [] && Requisite(terms) != [] && Arranged(args, terms, selected).Requirement?
    ensures var r := Arranged(args, terms, selected);
            && r.requisite != [] && StrictlyIncreasing(CompareSegments, r.requisite) &&
                Elements(r.requisite) == Elements(terms)
            && exists i: nat :: i < |r.requisite| && r.preferred == Rotated(r.requisite, i)
  {
    RequisiteProperties(terms);
    var r := Arranged(args, terms, selected);
    assert Rotated(r.requisite, 0) == r.requisite;
  }

  /** requisite is strictly increasing, and preferred is a rotation of it. */
  lemma CanonicalOutcome(args: Args, cluster: Cluster, info: Info, aggregated: seq<Segment>)
    requires Generate(args, cluster, info, aggregated).0.Requirement?
    ensures var r := Generate(args, cluster, info, aggregated).0;
            && r.requisite != [] && StrictlyIncreasing(CompareSegments, r.requisite)
            && exists i: nat :: i < |r.requisite| && r.preferred == Rotated(r.requisite, i)
  {
    var terms, selected := RequirementSource(args, cluster, info, aggregated);
    ArrangedCanonical(args, terms, selected);
  }

  lemma ArrangedOrder(args: Args, a: seq<Segment>, b: seq<Segment>, selected: Segment)
    requires Elements(a) == Elements(b)
    ensures (a != [] ==> Requisite(a) != []) && (b != [] ==> Requisite(b) != [])
    ensures Arranged(args, a, selected) == Arranged(args, b, selected)
  {
    RequisiteProperties(a);
    RequisiteProperties(b);
    CompareSegmentsIsComparator();
    CanonicalOfSameElements(CompareSegments, a, b);
    ElementsEmpty(a);
    ElementsEmpty(b);
  }

  lemma AggregatedOrder(
    args: Args, a: Cluster, b: Cluster, info: Info, selected: Segment, inA: seq<Segment>, inB: seq<Segment>)
    requires a.csiNodes.Some? && a.nodes.Some? && b.csiNodes.Some? && b.nodes.Some? && Elements(inA) == Elements(inB)
    ensures Aggregated(args, a, info, selected, inA).0 == Aggregated(args, b, info, selected, inB).0
  {
    ArrangedOrder(args, inA, inB, selected);
    ElementsEmpty(inA);
    ElementsEmpty(inB);
  }

  function KeysOf(args: Args, cluster: Cluster, info: Info): seq<string> {
    var keys := LookedUpKeys(args, cluster, info);
    if keys.Some? then keys.value else []
  }

  /** The result does not depend on the order in which nodes and CSINodes are listed. */
  lemma OrderIndependent(args: Args, a: Cluster, b: Cluster, info: Info, inA: seq<Segment>, inB: seq<Segment>)
    requires a.csiNode == b.csiNode && a.node == b.node
    requires a.csiNodes.Some? && a.nodes.Some? && b.csiNodes.Some? && b.nodes.Some?
    requires Elements(a.csiNodes.value) == Elements(b.csiNodes.value) &&
             Elements(a.nodes.value) == Elements(b.nodes.value)
    requires Aggregates(args, a, KeysOf(args, a, info), inA) && Aggregates(args, b, KeysOf(args, b, info), inB)
    ensures Generate(args, a, info, inA).0 == Generate(args, b, info, inB).0
  {
    TermsOrder(a.csiNodes.value, b.csiNodes.value, args.driverName, a.nodes.value, b.nodes.value);
    assert LookUp(args, a, info) == LookUp(args, b, info);
    if args.selectedNode == "" {
      AggregatedOrder(args, a, b, info, [], inA, inB);
    } else if LookUp(args, a, info).Found? {
      AggregatedOrder(args, a, b, LookUp(args, a, info).info, LookUp(args, a, info).selected, inA, inB);
    }
  }

  // Delayed binding

  lemma SelectedCarried(args: Args, cluster: Cluster, info: Info)
    requires LookUp(args, cluster, info).Found?
    ensures Contained(LookUp(args, cluster, info).selected, LookUp(args, cluster, info).labels)
  {
    TermOfElements(LookedUpKeys(args, cluster, info).value, LookUp(args, cluster, info).labels);
  }

  lemma ArrangedPreferred(args: Args, terms: seq<Segment>, selected: Segment)
    requires args.selectedNode != "" && terms != [] && Requisite(terms) != [] &&
             Arranged(args, terms, selected).Requirement?
    ensures var r := Arranged(args, terms, selected);
            r.preferred != [] && r.preferred[0] in terms && (!args.strict ==> SubsetOf(r.preferred[0], selected))
  {
    RequisiteProperties(terms);
    var r := Arranged(args, terms, selected);
    assert r.preferred[0] in Elements(r.requisite);
  }

  /**
   With a selected node the first preferred term is satisfied by the labels used for that
   node, and so are the allowed topologies, in strict and in non-strict mode.
   */
  lemma PreferredFits(args: Args, cluster: Cluster, info: Info, aggregated: seq<Segment>)
    requires args.selectedNode != "" && Generate(args, cluster, info, aggregated).0.Requirement?
    ensures LookUp(args, cluster, info).Found?
    ensures var r := Generate(args, cluster, info, aggregated).0;
            var labels := LookUp(args, cluster, info).labels;
            && r.preferred != [] && Contained(r.preferred[0], labels)
            && (args.allowed != [] && FlattensSoundly(args.allowed) ==> TopologiesAllow(args.allowed, labels))
  {
    var terms, selected := RequirementSource(args, cluster, info, aggregated);
    var labels := LookUp(args, cluster, info).labels;
    SelectedCarried(args, cluster, info);
    ArrangedPreferred(args, terms, selected);
    FlattenMeaning(args.allowed, labels);
  }

  /** The terms from which a delayed, non-strict requirement is made; none if there is nothing to choose from. */
  function Candidates(args: Args, cluster: Cluster, info: Info, aggregated: seq<Segment>): seq<Segment> {
    if args.allowed != [] then Flattened(args.allowed)
    else if info.terms != [] then info.terms
    else if cluster.csiNodes.Some? && cluster.nodes.Some? then aggregated
    else []
  }

  lemma ArrangedNotInRequisite(args: Args, terms: seq<Segment>, selected: Segment)
    requires args.selectedNode != "" && !args.strict && (terms != [] ==> Requisite(terms) != [])
    ensures Arranged(args, terms, selected) == Failed(NotInRequisite) <==>
            terms != [] && forall t | t in terms :: !SubsetOf(t, selected)
  {
    RequisiteProperties(terms);
    if terms != [] {
      assert forall t :: t in terms <==> t in Elements(Requisite(terms));
      var i := FirstSubset(Requisite(terms), selected);
      if i < |Requisite(terms)| {
        assert Requisite(terms)[i] in terms;
      }
    }
  }

  lemma CandidatesArranged(args: Args, cluster: Cluster, info: Info, aggregated: seq<Segment>)
    requires args.selectedNode != "" && !args.strict && LookUp(args, cluster, info).Found?
    ensures var terms := Candidates(args, cluster, info, aggregated);
            var outcome := Generate(args, cluster, info, aggregated).0;
            if terms == [] then outcome != Failed(NotInRequisite)
            else Requisite(terms) != [] && outcome == Arranged(args, terms, LookUp(args, cluster, info).selected)
  {
    RequisiteProperties(Candidates(args, cluster, info, aggregated));
  }

  lemma StrictNotInRequisite(args: Args, cluster: Cluster, info: Info, aggregated: seq<Segment>)
    requires args.selectedNode != "" && (args.strict || LookUp(args, cluster, info).Missing?)
    ensures Generate(args, cluster, info, aggregated).0 != Failed(NotInRequisite)
  {
    if LookUp(args, cluster, info).Found? {
      RequisiteProperties([LookUp(args, cluster, info).selected]);
    }
  }

  /** The error that should not happen: exactly when none of the candidates is part of the selected topology. */
  lemma NotInRequisiteExactly(args: Args, cluster: Cluster, info: Info, aggregated: seq<Segment>)
    requires args.selectedNode != ""
    ensures Generate(args, cluster, info, aggregated).0 == Failed(NotInRequisite) <==>
              && !args.strict && LookUp(args, cluster, info).Found?
              && var terms := Candidates(args, cluster, info, aggregated);
                 terms != [] && forall t | t in terms :: !SubsetOf(t, LookUp(args, cluster, info).selected)
  {
    if LookUp(args, cluster, info).Found? && !args.strict {
      CandidatesArranged(args, cluster, info, aggregated);
      ArrangedNotInRequisite(args, Candidates(args, cluster, info, aggregated), LookUp(args, cluster, info).selected);
    } else {
      StrictNotInRequisite(args, cluster, info, aggregated);
    }
  }

  /** The listers agree: what Get returns for the selected node is also listed. */
  predicate Consistent(args: Args, cluster: Cluster) {
    && cluster.csiNode.Some? && cluster.node.Some? && cluster.csiNodes.Some? && cluster.nodes.Some?
    && cluster.csiNode.value.name == args.selectedNode
    && cluster.csiNode.value in cluster.csiNodes.value
    && Node(args.selectedNode, cluster.node.value) in cluster.nodes.value
  }

  /** Aggregating afresh with consistent listers always contains the selected node's topology. */
  lemma NotInRequisiteUnreachable(args: Args, cluster: Cluster, aggregated: seq<Segment>)
    requires args.selectedNode != "" && args.allowed == [] && Consistent(args, cluster)
    requires Aggregates(args, cluster, KeysOf(args, cluster, NOTHING), aggregated)
    ensures Generate(args, cluster, NOTHING, aggregated).0 != Failed(NotInRequisite)
  {
    var found := LookUp(args, cluster, NOTHING);
    if args.strict {
      StrictNotInRequisite(args, cluster, NOTHING, aggregated);
    } else if found.Found? {
      var keys := KeysOf(args, cluster, NOTHING);
      var node := Node(args.selectedNode, cluster.node.value);
      assert Covers(cluster.csiNodes.value, args.driverName, node.name, keys);
      assert Reported(cluster.csiNodes.value, args.driverName, keys, node);
      assert found.selected in TermsFor(cluster.csiNodes.value, args.driverName, keys, cluster.nodes.value);
      assert found.selected in Elements(aggregated);
      ArrangedFinds(args, aggregated, found.selected);
    }
  }

  lemma ArrangedFinds(args: Args, terms: seq<Segment>, selected: Segment)
    requires selected in terms
    ensures Requisite(terms) != [] && Arranged(args, terms, selected).Requirement?
  {
    RequisiteProperties(terms);
    assert selected in Elements(Requisite(terms));
    var i :| 0 <= i < |Requisite(terms)| && Requisite(terms)[i] == selected;
    assert SubsetOf(selected, selected);
  }

  // Retries

  /** One call: its arguments, what the listers said, and the list that aggregation gave. */
  datatype Call = Call(args: Args, cluster: Cluster, aggregated: seq<Segment>)

  function Remembering(info: Info, call: Call): Info {
    Generate(call.args, call.cluster, info, call.aggregated).1
  }

  /** What is remembered after a sequence of calls. */
  function After(info: Info, calls: seq<Call>): Info {
    Fold(Remembering, info, calls)
  }

  /** Remembered fields that are complete are not overwritten. */
  predicate Keeps(info: Info, info': Info) {
    && (info.terms != [] ==> info'.terms == info.terms)
    && (info.keys != [] ==> info'.keys == info.keys)
    && (info.keys != [] && info.labels != map[] && Labelled(info.keys, info.labels) ==> info'.labels == info.labels)
  }

  lemma GenerateKeeps(args: Args, cluster: Cluster, info: Info, aggregated: seq<Segment>)
    ensures Keeps(info, Generate(args, cluster, info, aggregated).1)
  {
  }

  lemma {:induction false} CallsKeep(info: Info, calls: seq<Call>)
    ensures Keeps(info, After(info, calls))
  {
    if calls != [] {
      var n := |calls| - 1;
      CallsKeep(info, calls[..n]);
      GenerateKeeps(calls[n].args, calls[n].cluster, After(info, calls[..n]), calls[n].aggregated);
    }
  }

  /** With the keys and labels of a successful lookup remembered, any later lookup finds the same. */
  lemma LookUpRepeats(args: Args, first: Cluster, second: Cluster, info: Info, info': Info)
    requires LookUp(args, first, info).Found?
    requires info'.keys == LookUp(args, first, info).info.keys && info'.labels == LookUp(args, first, info).info.labels
    ensures LookUp(args, second, info') == LookUp(args, first, info).(info := info')
  {
    var found := LookUp(args, first, info);
    assert found.info.keys != [] && found.info.keys[0] in found.labels;
  }

  lemma KeptLookUp(args: Args, cluster: Cluster, info: Info, aggregated: seq<Segment>, info': Info)
    requires args.selectedNode != "" && LookUp(args, cluster, info).Found?
    requires Keeps(Generate(args, cluster, info, aggregated).1, info')
    ensures info'.keys == LookUp(args, cluster, info).info.keys &&
            info'.labels == LookUp(args, cluster, info).info.labels
  {
    var found := LookUp(args, cluster, info);
    assert found.info.keys != [] && found.info.keys[0] in found.labels;
  }

  /** What a call leaves behind that did not fail is enough to answer the same call again. */
  lemma SameAnswer(
    args: Args, first: Cluster, second: Cluster, info: Info, info': Info, inFirst: seq<Segment>, inSecond: seq<Segment>)
    requires !Generate(args, first, info, inFirst).0.Failed?
    requires Keeps(Generate(args, first, info, inFirst).1, info')
    ensures Generate(args, second, info', inSecond).0 == Generate(args, first, info, inFirst).0
  {
    if args.selectedNode != "" {
      KeptLookUp(args, first, info, inFirst, info');
      LookUpRepeats(args, first, second, info, info');
    }
  }

  /**
   After one call that did not fail, the same call has the same outcome, for any listers and
   after any other calls for that claim, as long as the entry is not deleted.
   */
  lemma RetriesRepeat(
    args: Args, first: Cluster, info: Info, inFirst: seq<Segment>, calls: seq<Call>, second: Cluster,
    inSecond: seq<Segment>)
    requires !Generate(args, first, info, inFirst).0.Failed?
    ensures var info' := After(Generate(args, first, info, inFirst).1, calls);
            Generate(args, second, info', inSecond).0 == Generate(args, first, info, inFirst).0
  {
    var info1 := Generate(args, first, info, inFirst).1;
    CallsKeep(info1, calls);
    SameAnswer(args, first, second, info, After(info1, calls), inFirst, inSecond);
  }
}
