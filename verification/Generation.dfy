/**
 GenerateAccessibilityRequirements as it runs (pkg/controller/topology.go): on the store, and
 with a slice of terms that it sorts, compacts and rotates in place.
 */
module Generation {
  import opened Orders
  import opened Segments
  import opened Flatten
  import opened NodeTopology
  import opened Aggregation
  import opened Requirements
  import opened RequirementMeaning
  import opened TermSlices
  import opened TopologyStore
  import opened WellFormedTerms

  /** The result as it is sent to the CSI driver. */
  datatype Answer =
    | Error(reason: Failure)
    | NoRequirement
    | CSIRequirement(requisite: seq<map<string, string>>, preferred: seq<map<string, string>>)

  function AnswerOf(outcome: Outcome): Answer {
    match outcome
    case Failed(reason) => Error(reason)
    case Unconstrained => NoRequirement
    case Requirement(requisite, preferred) => CSIRequirement(Topologies(requisite), Topologies(preferred))
  }

  // Arranging the terms

  lemma FirstSubsetUnique(terms: seq<Segment>, selected: Segment, i: nat)
    requires i <= |terms|
    requires i < |terms| ==> SubsetOf(terms[i], selected)
    requires forall k | 0 <= k < i :: !SubsetOf(terms[k], selected)
    ensures FirstSubset(terms, selected) == i
  {
    assert !(i < FirstSubset(terms, selected));
    assert !(FirstSubset(terms, selected) < i);
  }

  method FindFirstSubset(a: array<array<Entry>>, n: nat, selected: Segment) returns (i: nat)
    requires n <= a.Length && AllUnique(Terms(a[..n])) && UniqueSortedKeys(selected)
    ensures i <= n && i == FirstSubset(old(Terms(a[..n])), selected)
  {
    ghost var c := Terms(a[..n]);
    i := 0;
    while i < n
      invariant i <= n && forall k | 0 <= k < i :: !SubsetOf(c[k], selected)
    {
      assert c[i] in c && a[i][..] == c[i];
      var b := Subset(a[i][..], selected);
      if b {
        break;
      }
      i := i + 1;
    }
    FirstSubsetUnique(c, selected, i);
  }

  lemma RequisiteUnique(terms: seq<Segment>)
    requires AllUnique(terms)
    ensures AllUnique(Requisite(terms))
  {
    RequisiteProperties(terms);
    forall t | t in Requisite(terms) ensures UniqueSortedKeys(t) {
      assert t in Elements(Requisite(terms));
    }
  }

  method ChooseFirst(args: Args, a: array<array<Entry>>, k: nat, selected: Segment) returns (i: nat)
    requires 0 < k <= a.Length && AllUnique(Terms(a[..k])) && UniqueSortedKeys(selected)
    ensures i == FirstPreferred(args, old(Terms(a[..k])), selected)
  {
    if args.selectedNode == "" {
      i := args.spread % k;
    } else if args.strict {
      i := 0;
    } else {
      i := FindFirstSubset(a, k, selected);
    }
  }

  /** Rotation happens after the requisite terms have been converted. */
  method Convert(a: array<array<Entry>>, k: nat, i: nat)
    returns (requisite: seq<map<string, string>>, preferred: seq<map<string, string>>)
    requires i < k <= a.Length
    modifies a
    ensures requisite == Topologies(old(Terms(a[..k])))
    ensures preferred == Topologies(Rotated(old(Terms(a[..k])), i))
  {
    requisite := ToCSITopology(a, 0, k);
    assert Terms(a[..k]) == old(Terms(a[..k]));
    var b, lo := Rotate(a, k, i);
    preferred := ToCSITopology(b, lo, k);
  }

  /** From sorting on: everything happens in the array of the slice. */
  method Arrange(args: Args, a: array<array<Entry>>, n: nat, selected: Segment) returns (answer: Answer)
    requires n <= a.Length && AllUnique(Terms(a[..n])) && UniqueSortedKeys(selected)
    modifies a
    ensures old(Terms(a[..n])) != [] ==> Requisite(old(Terms(a[..n]))) != []
    ensures answer == AnswerOf(Arranged(args, old(Terms(a[..n])), selected))
  {
    if n == 0 {
      return NoRequirement;
    }
    ghost var terms := Terms(a[..n]);
    RequisiteUnique(terms);
    RequisiteProperties(terms);
    var k := CanonicalTerms(a, n);
    ghost var requisite := Terms(a[..k]);
    assert requisite == Requisite(terms);
    answer := Answered(args, a, k, selected);
  }

  method Answered(args: Args, a: array<array<Entry>>, k: nat, selected: Segment) returns (answer: Answer)
    requires 0 < k <= a.Length && AllUnique(Terms(a[..k])) && UniqueSortedKeys(selected)
    modifies a
    ensures answer == AnswerOf(Preferring(args, old(Terms(a[..k])), selected))
  {
    ghost var requisite := Terms(a[..k]);
    var i := ChooseFirst(args, a, k, selected);
    if i == k {
      return Error(NotInRequisite);
    }
    assert Terms(a[..k]) == requisite;
    var requisiteOut, preferredOut := Convert(a, k, i);
    return CSIRequirement(requisiteOut, preferredOut);
  }

  // Looking up the selected node

  /** extractTopologyTerm */
  method ExtractTopologyTerm(labels: map<string, string>, keys: seq<string>) returns (term: Option<Segment>)
    ensures term == if Labelled(keys, labels) then Some(TermOf(keys, labels)) else None
  {
    var entries: Segment := [];
    for i := 0 to |keys|
      invariant Labelled(keys[..i], labels) && entries == SegmentOf(keys[..i], labels)
    {
      assert keys[..i + 1] == keys[..i] + [keys[i]];
      if keys[i] !in labels {
        assert keys[i] in keys;
        return None;
      }
      entries := entries + [Entry(keys[i], labels[keys[i]])];
    }
    assert keys[..|keys|] == keys;
    return Some(SortTerm(entries));
  }

  /** What an operation on one claim does to the store besides changing its entry. */
  twostate predicate EntryOnly(store: InMemoryStore, uid: string)
    requires old(store.Valid())
    reads store, store.Repr
  {
    && store.Valid() && old(store.Repr) <= store.Repr && fresh(store.Repr - old(store.Repr))
    && forall u | u != uid :: store.Remembered(u) == old(store.Remembered(u))
  }

  /** getTopologyKeysFromCache; a missing entry is like one without keys. */
  method CachedKeys(uid: string, store: InMemoryStore) returns (keys: seq<string>)
    requires store.Valid()
    ensures EntryOnly(store, uid) && store.Remembered(uid) == old(store.Remembered(uid))
    ensures keys == old(store.Remembered(uid)).keys
  {
    var copy := store.GetByPvcUID(uid);
    return if copy == null || copy.keys == null then [] else copy.keys[..];
  }

  /** getNodeLabelsFromCache */
  method CachedLabels(uid: string, store: InMemoryStore) returns (labels: map<string, string>)
    requires store.Valid()
    ensures EntryOnly(store, uid) && store.Remembered(uid) == old(store.Remembered(uid))
    ensures labels == old(store.Remembered(uid)).labels
  {
    var copy := store.GetByPvcUID(uid);
    return if copy == null || copy.labels == null then map[] else copy.labels.entries;
  }

  /** getRequisiteTermsFromCache: the slice is the caller's. */
  method CachedTerms(uid: string, store: InMemoryStore) returns (terms: array<array<Entry>>)
    requires store.Valid()
    ensures EntryOnly(store, uid) && store.Remembered(uid) == old(store.Remembered(uid))
    ensures fresh(terms) && Terms(terms[..]) == old(store.Remembered(uid)).terms
  {
    var copy := store.GetByPvcUID(uid);
    if copy == null || copy.terms == null {
      terms := new array<Entry>[0];
    } else {
      terms := copy.terms;
    }
  }

  /** topologyKeysLookup */
  method TopologyKeysLookup(args: Args, cluster: Cluster, uid: string, store: InMemoryStore)
    returns (keys: Option<seq<string>>)
    requires store.Valid()
    modifies store.Repr
    ensures EntryOnly(store, uid)
    ensures keys == LookedUpKeys(args, cluster, old(store.Remembered(uid)))
    ensures store.Remembered(uid) ==
              if keys.None? || keys.value == [] then old(store.Remembered(uid))
              else old(store.Remembered(uid)).(keys := keys.value)
  {
    var cached := CachedKeys(uid, store);
    if |cached| > 0 {
      return Some(cached);
    }
    if cluster.csiNode.None? {
      return None;
    }
    var registered := TopologyKeys(cluster.csiNode.value, args.driverName);
    if |registered| > 0 {
      var slice := new string[|registered|](i requires 0 <= i < |registered| => registered[i]);
      assert slice[..] == registered;
      store.UpdateTopologyKeys(uid, slice);
    }
    return Some(registered);
  }

  method RememberLabels(nodeLabels: map<string, string>, uid: string, store: InMemoryStore)
    requires store.Valid()
    modifies store.Repr
    ensures EntryOnly(store, uid)
    ensures store.Remembered(uid) ==
              if nodeLabels == map[] then old(store.Remembered(uid))
              else old(store.Remembered(uid)).(labels := nodeLabels)
  {
    if |nodeLabels| > 0 {
      var labels := new Labels(nodeLabels);
      store.UpdateNodeLabels(uid, labels);
    }
  }

  /** The topology from the remembered labels, if they have all keys. */
  method CachedTopology(keys: seq<string>, uid: string, store: InMemoryStore) returns (term: Option<Segment>)
    requires store.Valid()
    ensures EntryOnly(store, uid) && store.Remembered(uid) == old(store.Remembered(uid))
    ensures var labels := old(store.Remembered(uid)).labels;
            term == if labels != map[] && Labelled(keys, labels) then Some(TermOf(keys, labels)) else None
  {
    var cached := CachedLabels(uid, store);
    if |cached| == 0 {
      return None;
    }
    term := ExtractTopologyTerm(cached, keys);
  }

  /** getTopologyFromNodeName */
  method TopologyFromNodeName(cluster: Cluster, keys: seq<string>, uid: string, store: InMemoryStore)
    returns (term: Option<Segment>)
    requires store.Valid()
    modifies store.Repr
    ensures EntryOnly(store, uid)
    ensures var labels := LookedUpLabels(cluster, old(store.Remembered(uid)), keys);
            && term == (if labels.Some? && Labelled(keys, labels.value) then Some(TermOf(keys, labels.value)) else None)
            && store.Remembered(uid) ==
                 if labels.None? || labels.value == map[] then old(store.Remembered(uid))
                 else old(store.Remembered(uid)).(labels := labels.value)
  {
    term := CachedTopology(keys, uid, store);
    if term.Some? {
      return;
    }
    if cluster.node.None? {
      return None;
    }
    RememberLabels(cluster.node.value, uid, store);
    term := ExtractTopologyTerm(cluster.node.value, keys);
  }

  // Aggregating, with the cache

  ghost function Listing(s: set<Segment>): (r: seq<Segment>)
    ensures Elements(r) == s
  {
    if s == {} then [] else
      var t :| t in s;
      assert s == {t} + (s - {t});
      [t] + Listing(s - {t})
  }

  ghost function AnyAggregation(args: Args, cluster: Cluster, keys: seq<string>): (r: seq<Segment>)
    ensures cluster.csiNodes.Some? && cluster.nodes.Some? ==> Aggregates(args, cluster, keys, r)
  {
    if cluster.csiNodes.None? || cluster.nodes.None? then []
    else Listing(
      if args.selectedNode == "" then ClusterTerms(cluster.csiNodes.value, args.driverName, cluster.nodes.value)
      else TermsFor(cluster.csiNodes.value, args.driverName, keys, cluster.nodes.value))
  }

  /** Aggregation without the cache. */
  method AggregateAfresh(args: Args, cluster: Cluster, keys: seq<string>)
    returns (terms: seq<Segment>, failure: Option<Failure>)
    requires WellFormed(args, cluster) && (args.selectedNode != "" ==> keys != [])
    ensures failure == FailureOf(args, cluster, terms)
    ensures cluster.csiNodes.Some? && cluster.nodes.Some? ==> Aggregates(args, cluster, keys, terms)
  {
    if cluster.csiNodes.None? {
      return [], Some(ListFailed);
    }
    var csiNodes := cluster.csiNodes.value;
    if args.selectedNode == "" {
      var keySets := DistinctTopologyKeySets(csiNodes, args.driverName);
      ElementsEmpty(keySets);
      if |keySets| == 0 {
        return [], Some(NoTopology);
      }
      if cluster.nodes.None? {
        return [], Some(ListFailed);
      }
      terms := AggregateImmediate(csiNodes, args.driverName, cluster.nodes.value, keySets);
    } else {
      if cluster.nodes.None? {
        return [], Some(ListFailed);
      }
      var registered := RegisteredTopologyKeys(csiNodes, args.driverName);
      terms := AggregateTopologiesForKeys(keys, cluster.nodes.value, registered, csiNodes, args.driverName);
    }
    failure := if |terms| == 0 then Some(NoTopology) else None;
  }

  method RememberTerms(terms: array<array<Entry>>, n: nat, uid: string, store: InMemoryStore)
    requires store.Valid() && n <= terms.Length
    requires terms !in store.Repr && forall i | 0 <= i < n :: terms[i] !in store.Repr
    modifies store.Repr
    ensures EntryOnly(store, uid) && Terms(terms[..n]) == old(Terms(terms[..n]))
    ensures store.Remembered(uid) == old(store.Remembered(uid)).(terms := old(Terms(terms[..n])))
  {
    store.UpdateRequisiteTerms(uid, terms, n);
  }

  /** Aggregates and remembers the result. */
  method AggregateAndRemember(args: Args, cluster: Cluster, keys: seq<string>, uid: string, store: InMemoryStore)
    returns (terms: array<array<Entry>>, n: nat, failure: Option<Failure>, ghost aggregated: seq<Segment>)
    requires store.Valid() && WellFormed(args, cluster) && (args.selectedNode != "" ==> keys != [])
    modifies store.Repr
    ensures EntryOnly(store, uid) && fresh(terms) && terms !in store.Repr && n <= terms.Length
    ensures cluster.csiNodes.Some? && cluster.nodes.Some? ==> Aggregates(args, cluster, keys, aggregated)
    ensures failure == FailureOf(args, cluster, aggregated)
    ensures failure.None? ==> Terms(terms[..n]) == aggregated
    ensures store.Remembered(uid) ==
            if failure.None? then old(store.Remembered(uid)).(terms := aggregated) else old(store.Remembered(uid))
  {
    var found;
    found, failure := AggregateAfresh(args, cluster, keys);
    aggregated := found;
    terms := NewTerms(found);
    n := |found|;
    if failure.None? {
      RememberTerms(terms, n, uid, store);
    }
  }

  /** aggregateTopologies: a slice of the caller's own, or why there is none. */
  method AggregateTopologies(args: Args, cluster: Cluster, keys: seq<string>, uid: string, store: InMemoryStore)
    returns (terms: array<array<Entry>>, n: nat, failure: Option<Failure>, ghost aggregated: seq<Segment>)
    requires store.Valid() && WellFormed(args, cluster) && (args.selectedNode != "" ==> keys != [])
    modifies store.Repr
    ensures EntryOnly(store, uid) && fresh(terms) && terms !in store.Repr && n <= terms.Length
    ensures cluster.csiNodes.Some? && cluster.nodes.Some? ==> Aggregates(args, cluster, keys, aggregated)
    ensures var info := old(store.Remembered(uid));
            if info.terms != [] then failure.None? && Terms(terms[..n]) == info.terms && store.Remembered(uid) == info
            else
              && failure == FailureOf(args, cluster, aggregated)
              && (failure.None? ==>
                  Terms(terms[..n]) == aggregated && store.Remembered(uid) == info.(terms := aggregated))
              && (failure.Some? ==> store.Remembered(uid) == info)
  {
    terms := CachedTerms(uid, store);
    n := terms.Length;
    if n > 0 {
      aggregated := AnyAggregation(args, cluster, keys);
      return terms, n, None, aggregated;
    }
    terms, n, failure, aggregated := AggregateAndRemember(args, cluster, keys, uid, store);
  }

  // The whole

  /** Flattens the allowed topologies and arranges the result. */
  method AnswerAllowed(args: Args, selected: Segment) returns (answer: Answer)
    requires (forall term | term in args.allowed :: DistinctKeys(term)) && UniqueSortedKeys(selected)
    ensures Flattened(args.allowed) != [] ==> Requisite(Flattened(args.allowed)) != []
    ensures answer == AnswerOf(Arranged(args, Flattened(args.allowed), selected))
  {
    var flattened := Flatten.Flatten(args.allowed);
    FlattenedUnique(args.allowed);
    var terms := NewTerms(flattened);
    answer := Arrange(args, terms, |flattened|, selected);
  }

  /** Aggregates, or takes what is remembered, and arranges the result. */
  method AnswerAggregated(
    args: Args, cluster: Cluster, keys: seq<string>, selected: Segment, uid: string, store: InMemoryStore)
    returns (answer: Answer, ghost aggregated: seq<Segment>)
    requires store.Valid() && WellFormed(args, cluster) && WellFormedInfo(store.Remembered(uid))
    requires Distinct(keys) && (args.selectedNode != "" ==> keys != []) && UniqueSortedKeys(selected)
    modifies store.Repr
    ensures EntryOnly(store, uid)
    ensures cluster.csiNodes.Some? && cluster.nodes.Some? ==> Aggregates(args, cluster, keys, aggregated)
    ensures var r := Aggregated(args, cluster, old(store.Remembered(uid)), selected, aggregated);
            answer == AnswerOf(r.0) && store.Remembered(uid) == r.1
  {
    ghost var info := store.Remembered(uid);
    var terms, n, failure;
    terms, n, failure, aggregated := AggregateTopologies(args, cluster, keys, uid, store);
    if failure.Some? {
      return Error(failure.value), aggregated;
    }
    label Aggregated:
    if info.terms == [] {
      AggregatesUnique(args, cluster, keys, aggregated);
    }
    answer := Arrange(args, terms, n, selected);
    Isolated@Aggregated(store);
  }

  /** The check of strict topology: some allowed term is part of the selected topology. */
  method SomeAllowed(args: Args, selected: Segment) returns (found: bool)
    requires (forall term | term in args.allowed :: DistinctKeys(term)) && UniqueSortedKeys(selected)
    ensures found <==> exists t :: t in Flattened(args.allowed) && SubsetOf(t, selected)
  {
    var flattened := Flatten.Flatten(args.allowed);
    FlattenedUnique(args.allowed);
    for i := 0 to |flattened|
      invariant forall k | 0 <= k < i :: !SubsetOf(flattened[k], selected)
    {
      found := Subset(flattened[i], selected);
      if found {
        return;
      }
    }
    return false;
  }

  /** Strict topology: only the topology of the selected node. */
  method AnswerStrict(args: Args, selected: Segment) returns (answer: Answer)
    requires args.selectedNode != "" && args.strict
    requires (forall term | term in args.allowed :: DistinctKeys(term)) && UniqueSortedKeys(selected)
    ensures forall cluster, info, aggregated ::
              && answer == AnswerOf(GenerateSelected(args, cluster, info, selected, aggregated).0)
              && GenerateSelected(args, cluster, info, selected, aggregated).1 == info
  {
    if |args.allowed| != 0 {
      var found := SomeAllowed(args, selected);
      if !found {
        return Error(NotAllowed);
      }
    }
    var terms := NewTerms([selected]);
    answer := Arrange(args, terms, 1, selected);
  }

  /** Delayed binding, once the topology of the selected node is known. */
  method AnswerSelected(
    args: Args, cluster: Cluster, keys: seq<string>, selected: Segment, uid: string, store: InMemoryStore)
    returns (answer: Answer, ghost aggregated: seq<Segment>)
    requires store.Valid() && WellFormed(args, cluster) && WellFormedInfo(store.Remembered(uid))
    requires Distinct(keys) && args.selectedNode != "" && keys != [] && UniqueSortedKeys(selected)
    modifies store.Repr
    ensures EntryOnly(store, uid)
    ensures cluster.csiNodes.Some? && cluster.nodes.Some? ==> Aggregates(args, cluster, keys, aggregated)
    ensures var r := GenerateSelected(args, cluster, old(store.Remembered(uid)), selected, aggregated);
            answer == AnswerOf(r.0) && store.Remembered(uid) == r.1
  {
    aggregated := AnyAggregation(args, cluster, keys);
    if args.strict {
      answer := AnswerStrict(args, selected);
    } else if |args.allowed| != 0 {
      answer := AnswerAllowed(args, selected);
    } else {
      answer, aggregated := AnswerAggregated(args, cluster, keys, selected, uid, store);
    }
  }

  /** Immediate binding. */
  method AnswerImmediate(args: Args, cluster: Cluster, uid: string, store: InMemoryStore)
    returns (answer: Answer, ghost aggregated: seq<Segment>)
    requires store.Valid() && WellFormed(args, cluster) && WellFormedInfo(store.Remembered(uid)) &&
             args.selectedNode == ""
    modifies store.Repr
    ensures EntryOnly(store, uid)
    ensures forall keys | cluster.csiNodes.Some? && cluster.nodes.Some? :: Aggregates(args, cluster, keys, aggregated)
    ensures var r := Generate(args, cluster, old(store.Remembered(uid)), aggregated);
            answer == AnswerOf(r.0) && store.Remembered(uid) == r.1
  {
    aggregated := AnyAggregation(args, cluster, []);
    if |args.allowed| != 0 {
      answer := AnswerAllowed(args, []);
    } else if !args.immediate {
      answer := NoRequirement;
    } else {
      answer, aggregated := AnswerAggregated(args, cluster, [], [], uid, store);
    }
  }

  /** Steps 1 of delayed binding: keys and labels of the selected node. */
  method LookUpSelected(args: Args, cluster: Cluster, uid: string, store: InMemoryStore)
    returns (keys: seq<string>, selected: Segment, failure: Option<Failure>)
    requires store.Valid()
    modifies store.Repr
    ensures EntryOnly(store, uid)
    ensures var r := LookUp(args, cluster, old(store.Remembered(uid)));
            && store.Remembered(uid) == r.info
            && (failure.Some? <==> r.Missing?)
            && (failure.Some? ==> failure.value == r.reason)
            && (failure.None? ==>
                keys == KeysOf(args, cluster, old(store.Remembered(uid))) && keys != [] && selected == r.selected)
  {
    keys, selected := [], [];
    var found := TopologyKeysLookup(args, cluster, uid, store);
    if found.None? {
      return [], [], Some(NoCSINode);
    }
    keys := found.value;
    if |keys| == 0 {
      return [], [], Some(NoKeys);
    }
    var term := TopologyFromNodeName(cluster, keys, uid, store);
    if term.None? {
      return [], [], Some(MissingLabels);
    }
    return keys, term.value, None;
  }

  /** Delayed binding. */
  method AnswerDelayed(args: Args, cluster: Cluster, uid: string, store: InMemoryStore)
    returns (answer: Answer, ghost aggregated: seq<Segment>)
    requires store.Valid() && WellFormed(args, cluster) && WellFormedInfo(store.Remembered(uid)) &&
             args.selectedNode != ""
    modifies store.Repr
    ensures EntryOnly(store, uid)
    ensures cluster.csiNodes.Some? && cluster.nodes.Some? ==>
              Aggregates(args, cluster, KeysOf(args, cluster, old(store.Remembered(uid))), aggregated)
    ensures var r := Generate(args, cluster, old(store.Remembered(uid)), aggregated);
            answer == AnswerOf(r.0) && store.Remembered(uid) == r.1
  {
    ghost var info := store.Remembered(uid);
    LookUpWellFormed(args, cluster, info);
    aggregated := AnyAggregation(args, cluster, KeysOf(args, cluster, info));
    var keys, selected, failure := LookUpSelected(args, cluster, uid, store);
    if failure.Some? {
      answer := Error(failure.value);
    } else {
      TermOfUnique(keys, LookUp(args, cluster, info).labels);
      answer, aggregated := AnswerSelected(args, cluster, keys, selected, uid, store);
    }
  }

  /**
   GenerateAccessibilityRequirements: the answer and the new entry of the claim are those of
   Generate, and no other entry changes.
   */
  method GenerateAccessibilityRequirements(args: Args, cluster: Cluster, uid: string, store: InMemoryStore)
    returns (answer: Answer, ghost aggregated: seq<Segment>)
    requires store.Valid() && WellFormed(args, cluster) && WellFormedInfo(store.Remembered(uid))
    modifies store.Repr
    ensures EntryOnly(store, uid) && WellFormedInfo(store.Remembered(uid))
    ensures cluster.csiNodes.Some? && cluster.nodes.Some? ==>
              Aggregates(args, cluster, KeysOf(args, cluster, old(store.Remembered(uid))), aggregated)
    ensures var r := Generate(args, cluster, old(store.Remembered(uid)), aggregated);
            answer == AnswerOf(r.0) && store.Remembered(uid) == r.1
    ensures answer == NoRequirement <==> Unrestricted(args, cluster, old(store.Remembered(uid)))
  {
    ghost var info := store.Remembered(uid);
    if |args.selectedNode| == 0 {
      answer, aggregated := AnswerImmediate(args, cluster, uid, store);
    } else {
      answer, aggregated := AnswerDelayed(args, cluster, uid, store);
    }
    GenerateWellFormed(args, cluster, info, aggregated);
    UnconstrainedExactly(args, cluster, info, aggregated);
  }
}
