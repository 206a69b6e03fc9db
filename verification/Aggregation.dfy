/**
 Aggregation of the topologies that the nodes of a cluster report for a driver
 (pkg/controller/topology.go).
 */
module Aggregation {
  import opened Orders
  import opened Segments
  import opened Flatten
  import opened NodeTopology

  datatype Node = Node(name: string, labels: map<string, string>)

  /** getTopologyKeys: no entry and no keys are the same here. */
  function TopologyKeys(csiNode: CSINode, driverName: string): seq<string> {
    var keys := DriverTopologyKeys(csiNode.drivers, driverName);
    if keys.Some? then keys.value else []
  }

  // Key sets

  function SortedKeys(keys: seq<string>): seq<string> {
    SortBy(CompareStrings, keys)
  }

  /** The distinct key sets that the driver registered, each as a sorted list. */
  function KeySets(csiNodes: seq<CSINode>, driverName: string): set<seq<string>> {
    set n | n in csiNodes && TopologyKeys(n, driverName) != [] :: SortedKeys(TopologyKeys(n, driverName))
  }

  const NUL := '\U{0000}'

  /** strings.Join(keys, "\\x00") */
  function Join(keys: seq<string>): string {
    if keys == [] then "" else if |keys| == 1 then keys[0] else keys[0] + [NUL] + Join(keys[1..])
  }

  predicate NulFree(keys: seq<string>) {
    forall key | key in keys :: NUL !in key
  }

  lemma SplitUnique(a: string, b: string, x: string, y: string)
    requires NUL !in a && NUL !in b && a + [NUL] + x == b + [NUL] + y
    ensures a == b && x == y
  {
    var s := a + [NUL] + x;
    assert s[|a|] == NUL && s[|b|] == NUL;
    assert a == s[..|a|] && b == s[..|b|];
    assert x == s[|a| + 1..] && y == s[|b| + 1..];
  }

  lemma NoSplit(a: string, b: string, y: string)
    requires NUL !in a
    ensures a != b + [NUL] + y
  {
    assert (b + [NUL] + y)[|b|] == NUL;
  }

  /** The joined id tells key lists apart as long as no key contains NUL. */
  lemma {:induction false} JoinInjective(a: seq<string>, b: seq<string>)
    requires a != [] && b != [] && NulFree(a) && NulFree(b) && Join(a) == Join(b)
    ensures a == b
  {
    assert a[0] in a && b[0] in b;
    assert a == [a[0]] + a[1..] && b == [b[0]] + b[1..];
    if |a| == 1 && |b| > 1 {
      NoSplit(a[0], b[0], Join(b[1..]));
    } else if |a| > 1 && |b| == 1 {
      NoSplit(b[0], a[0], Join(a[1..]));
    } else if |a| > 1 {
      SplitUnique(a[0], b[0], Join(a[1..]), Join(b[1..]));
      JoinInjective(a[1..], b[1..]);
    }
  }

  function CompareKeys(a: seq<string>, b: seq<string>): int {
    Lex(CompareStrings, a, b)
  }

  lemma CompareKeysIsComparator()
    ensures Comparator(CompareKeys)
  {
    CompareStringsIsComparator();
    forall a, b
      ensures CompareKeys(a, b) == 0 <==> a == b
      ensures CompareKeys(a, b) < 0 <==> CompareKeys(b, a) > 0
    {
      LexZero(CompareStrings, a, b);
      LexSwap(CompareStrings, a, b);
    }
    forall a, b, c | CompareKeys(a, b) <= 0 && CompareKeys(b, c) <= 0
      ensures CompareKeys(a, c) <= 0
    {
      LexTransitive(CompareStrings, a, b, c);
    }
  }

  lemma SortedKeysProperties(keys: seq<string>)
    ensures Elements(SortedKeys(keys)) == Elements(keys)
    ensures NulFree(keys) ==> NulFree(SortedKeys(keys))
    ensures keys == [] <==> SortedKeys(keys) == []
  {
    SortByPermutes(CompareStrings, keys);
    forall key | key in SortedKeys(keys) ensures key in keys {
      assert key in Elements(SortedKeys(keys));
    }
  }

  predicate AllNulFree(csiNodes: seq<CSINode>, driverName: string) {
    forall n | n in csiNodes :: NulFree(TopologyKeys(n, driverName))
  }

  /** distinctTopologyKeySets: every registered key set once, in increasing order. */
  method DistinctTopologyKeySets(csiNodes: seq<CSINode>, driverName: string) returns (keySets: seq<seq<string>>)
    requires AllNulFree(csiNodes, driverName)
    ensures Elements(keySets) == KeySets(csiNodes, driverName)
    ensures StrictlyIncreasing(CompareKeys, keySets)
  {
    var seen: set<string> := {};
    keySets := [];
    for k := 0 to |csiNodes|
      invariant Elements(keySets) == KeySets(csiNodes[..k], driverName)
      invariant forall ks | ks in keySets :: ks != [] && NulFree(ks)
      invariant seen == set ks | ks in keySets :: Join(ks)
      invariant Distinct(keySets)
    {
      assert csiNodes[..k + 1] == csiNodes[..k] + [csiNodes[k]];
      assert csiNodes[k] in csiNodes;
      var keys := TopologyKeys(csiNodes[k], driverName);
      if |keys| == 0 {
        continue;
      }
      var sortedKeys := SortedKeys(keys);
      SortedKeysProperties(keys);
      assert KeySets(csiNodes[..k + 1], driverName) == KeySets(csiNodes[..k], driverName) + {sortedKeys};
      var id := Join(sortedKeys);
      if id in seen {
        var ks :| ks in keySets && Join(ks) == id;
        JoinInjective(ks, sortedKeys);
        continue;
      }
      assert sortedKeys !in keySets;
      seen := seen + {id};
      keySets := keySets + [sortedKeys];
    }
    assert csiNodes[..|csiNodes|] == csiNodes;
    CompareKeysIsComparator();
    SortByDistinct(CompareKeys, keySets);
    SortByPermutes(CompareKeys, keySets);
    keySets := SortBy(CompareKeys, keySets);
  }

  // Registration

  /** CSINodes are unique by name. */
  predicate UniqueNames(csiNodes: seq<CSINode>) {
    DistinctBy((n: CSINode) => n.name, csiNodes)
  }

  /** The keys that the driver registered on the node with that name. */
  predicate Covers(csiNodes: seq<CSINode>, driverName: string, name: string, keys: seq<string>) {
    exists n :: n in csiNodes && n.name == name && TopologyKeys(n, driverName) != [] &&
                forall key | key in keys :: key in TopologyKeys(n, driverName)
  }

  /** registeredTopologyKeys */
  method RegisteredTopologyKeys(csiNodes: seq<CSINode>, driverName: string)
    returns (registered: map<string, set<string>>)
    requires UniqueNames(csiNodes)
    ensures forall name, keys: seq<string> ::
              (name in registered && Elements(keys) <= registered[name]) <==> Covers(csiNodes, driverName, name, keys)
  {
    registered := map[];
    for k := 0 to |csiNodes|
      invariant forall n | n in csiNodes[..k] && TopologyKeys(n, driverName) != [] ::
                  n.name in registered && registered[n.name] == Elements(TopologyKeys(n, driverName))
      invariant forall name | name in registered ::
                  exists n :: n in csiNodes[..k] && n.name == name && TopologyKeys(n, driverName) != []
    {
      assert csiNodes[..k + 1] == csiNodes[..k] + [csiNodes[k]];
      var csiNode := csiNodes[k];
      forall n | n in csiNodes[..k] ensures n.name != csiNode.name {
      }
      var keys := TopologyKeys(csiNode, driverName);
      if |keys| == 0 {
        continue;
      }
      registered := registered[csiNode.name := Elements(keys)];
      assert csiNode in csiNodes[..k + 1];
    }
    assert csiNodes[..|csiNodes|] == csiNodes;
    RegisteredCovers(csiNodes, driverName, registered);
  }

  lemma RegisteredCovers(csiNodes: seq<CSINode>, driverName: string, registered: map<string, set<string>>)
    requires forall n | n in csiNodes && TopologyKeys(n, driverName) != [] ::
               n.name in registered && registered[n.name] == Elements(TopologyKeys(n, driverName))
    requires forall name | name in registered ::
               exists n :: n in csiNodes && n.name == name && TopologyKeys(n, driverName) != []
    ensures forall name, keys: seq<string> ::
              (name in registered && Elements(keys) <= registered[name]) <==> Covers(csiNodes, driverName, name, keys)
  {
    forall name, keys: seq<string>
      ensures (name in registered && Elements(keys) <= registered[name]) <==> Covers(csiNodes, driverName, name, keys)
    {
      if name in registered && Elements(keys) <= registered[name] {
        var n :| n in csiNodes && n.name == name && TopologyKeys(n, driverName) != [];
        forall key | key in keys ensures key in TopologyKeys(n, driverName) {
          assert key in Elements(keys);
        }
      }
    }
  }

  // Terms

  /** getTopologyFromNode */
  function TermOf(keys: seq<string>, labels: map<string, string>): Segment
    requires Labelled(keys, labels)
  {
    SortTerm(SegmentOf(keys, labels))
  }

  lemma TermOfElements(keys: seq<string>, labels: map<string, string>)
    requires Labelled(keys, labels)
    ensures forall e :: e in TermOf(keys, labels) <==> e.key in keys && labels[e.key] == e.value
    ensures keys != [] ==> TermOf(keys, labels) != []
  {
    var s := SegmentOf(keys, labels);
    SortTermElements(s);
    forall e: Entry | e.key in keys && labels[e.key] == e.value ensures e in s {
      var i :| 0 <= i < |keys| && keys[i] == e.key;
      assert s[i] == e;
    }
    SortByPermutes(CompareEntries, s);
  }

  /** The node is reported under the keys: it carries their labels and its driver registered them. */
  predicate Reported(csiNodes: seq<CSINode>, driverName: string, keys: seq<string>, node: Node) {
    Labelled(keys, node.labels) && Covers(csiNodes, driverName, node.name, keys)
  }

  function TermsFor(csiNodes: seq<CSINode>, driverName: string, keys: seq<string>, nodes: seq<Node>): set<Segment> {
    set n | n in nodes && Reported(csiNodes, driverName, keys, n) :: TermOf(keys, n.labels)
  }

  /** aggregateTopologiesForKeys: one term per reported node. */
  method AggregateTopologiesForKeys(keys: seq<string>, nodes: seq<Node>, registered: map<string, set<string>>,
                                    ghost csiNodes: seq<CSINode>, ghost driverName: string)
    returns (terms: seq<Segment>)
    requires keys != []
    requires forall name, ks: seq<string> ::
               (name in registered && Elements(ks) <= registered[name]) <==> Covers(csiNodes, driverName, name, ks)
    ensures Elements(terms) == TermsFor(csiNodes, driverName, keys, nodes)
    ensures |terms| <= |nodes|
  {
    terms := [];
    for k := 0 to |nodes|
      invariant Elements(terms) == TermsFor(csiNodes, driverName, keys, nodes[..k]) && |terms| <= k
    {
      assert nodes[..k + 1] == nodes[..k] + [nodes[k]];
      var node := nodes[k];
      assert (node.name in registered && Elements(keys) <= registered[node.name]) <==>
          Covers(csiNodes, driverName, node.name, keys);
      if !Labelled(keys, node.labels) || node.name !in registered || !(Elements(keys) <= registered[node.name]) {
        assert TermsFor(csiNodes, driverName, keys, nodes[..k + 1]) == TermsFor(csiNodes, driverName, keys, nodes[..k]);
        continue;
      }
      var term := TermOf(keys, node.labels);
      TermOfElements(keys, node.labels);
      assert TermsFor(csiNodes, driverName, keys, nodes[..k + 1]) ==
          TermsFor(csiNodes, driverName, keys, nodes[..k]) + {term};
      terms := terms + [term];
    }
    assert nodes[..|nodes|] == nodes;
  }

  /** All terms of the cluster: those of each registered key set. */
  function ClusterTerms(csiNodes: seq<CSINode>, driverName: string, nodes: seq<Node>): set<Segment> {
    set ks, n | ks in KeySets(csiNodes, driverName) && n in nodes && Reported(csiNodes, driverName, ks, n) ::
        TermOf(ks, n.labels)
  }

  /** The immediate-binding part of aggregateTopologies, without the cache: one pass per key set. */
  method AggregateImmediate(csiNodes: seq<CSINode>, driverName: string, nodes: seq<Node>, keySets: seq<seq<string>>)
    returns (terms: seq<Segment>)
    requires UniqueNames(csiNodes) && Elements(keySets) == KeySets(csiNodes, driverName)
    ensures Elements(terms) == ClusterTerms(csiNodes, driverName, nodes)
  {
    terms := [];
    var registered := RegisteredTopologyKeys(csiNodes, driverName);
    for k := 0 to |keySets|
      invariant forall t :: t in terms <==>
                  exists ks, n :: ks in keySets[..k] && n in nodes && Reported(csiNodes, driverName, ks, n) &&
                      t == TermOf(ks, n.labels)
    {
      assert keySets[..k + 1] == keySets[..k] + [keySets[k]];
      assert keySets[k] in Elements(keySets);
      SortedNonEmpty(csiNodes, driverName, keySets[k]);
      var keyTerms := AggregateTopologiesForKeys(keySets[k], nodes, registered, csiNodes, driverName);
      assert forall t :: t in keyTerms <==> t in Elements(keyTerms);
      terms := terms + keyTerms;
    }
    assert keySets[..|keySets|] == keySets;
    assert forall ks :: ks in keySets <==> ks in KeySets(csiNodes, driverName) by {
      assert forall ks :: ks in keySets <==> ks in Elements(keySets);
    }
  }

  lemma SortedNonEmpty(csiNodes: seq<CSINode>, driverName: string, ks: seq<string>)
    requires ks in KeySets(csiNodes, driverName)
    ensures ks != []
  {
    var n :| n in csiNodes && TopologyKeys(n, driverName) != [] && SortedKeys(TopologyKeys(n, driverName)) == ks;
    SortedKeysProperties(TopologyKeys(n, driverName));
  }

  /** Every node with all labels of the keys it registered appears under its own key set. */
  lemma AggregationComplete(csiNodes: seq<CSINode>, driverName: string, nodes: seq<Node>, csiNode: CSINode, node: Node)
    requires csiNode in csiNodes && node in nodes && csiNode.name == node.name
    requires TopologyKeys(csiNode, driverName) != [] && Labelled(TopologyKeys(csiNode, driverName), node.labels)
    ensures Labelled(SortedKeys(TopologyKeys(csiNode, driverName)), node.labels)
    ensures var term := TermOf(SortedKeys(TopologyKeys(csiNode, driverName)), node.labels);
            term in ClusterTerms(csiNodes, driverName, nodes)
  {
    var keys := TopologyKeys(csiNode, driverName);
    var ks := SortedKeys(keys);
    SortedKeysProperties(keys);
    forall key | key in ks ensures key in keys {
      assert key in Elements(ks);
    }
    assert ks in KeySets(csiNodes, driverName);
    assert Reported(csiNodes, driverName, ks, node);
  }

  /** Every term describes a node that carries it and whose driver registered all its keys. */
  lemma AggregationSound(csiNodes: seq<CSINode>, driverName: string, nodes: seq<Node>, t: Segment)
    returns (csiNode: CSINode, node: Node)
    requires t in ClusterTerms(csiNodes, driverName, nodes)
    ensures csiNode in csiNodes && node in nodes && csiNode.name == node.name && t != []
    ensures forall e | e in t :: Carries(node.labels, e) && e.key in TopologyKeys(csiNode, driverName)
  {
    var ks, n :| ks in KeySets(csiNodes, driverName) && n in nodes && Reported(csiNodes, driverName, ks, n) &&
        t == TermOf(ks, n.labels);
    node := n;
    csiNode :| csiNode in csiNodes && csiNode.name == n.name && TopologyKeys(csiNode, driverName) != [] &&
               forall key | key in ks :: key in TopologyKeys(csiNode, driverName);
    SortedNonEmpty(csiNodes, driverName, ks);
    TermOfElements(ks, n.labels);
  }

  lemma CoversOrder(a: seq<CSINode>, b: seq<CSINode>, driverName: string, name: string, keys: seq<string>)
    requires Elements(a) == Elements(b)
    ensures Covers(a, driverName, name, keys) <==> Covers(b, driverName, name, keys)
  {
    assert forall n :: n in a <==> n in Elements(a);
    assert forall n :: n in b <==> n in Elements(b);
  }

  /** The terms do not depend on the order in which CSINodes and nodes are listed. */
  lemma TermsOrder(a: seq<CSINode>, b: seq<CSINode>, driverName: string, m: seq<Node>, n: seq<Node>)
    requires Elements(a) == Elements(b) && Elements(m) == Elements(n)
    ensures ClusterTerms(a, driverName, m) == ClusterTerms(b, driverName, n)
    ensures forall keys :: TermsFor(a, driverName, keys, m) == TermsFor(b, driverName, keys, n)
  {
    assert forall x :: x in a <==> x in Elements(a);
    assert forall x :: x in b <==> x in Elements(b);
    assert forall x :: x in m <==> x in Elements(m);
    assert forall x :: x in n <==> x in Elements(n);
    assert KeySets(a, driverName) == KeySets(b, driverName);
    forall keys, node ensures Reported(a, driverName, keys, node) <==> Reported(b, driverName, keys, node) {
      CoversOrder(a, b, driverName, node.name, keys);
    }
    forall keys ensures TermsFor(a, driverName, keys, m) == TermsFor(b, driverName, keys, n) {
    }
  }

  // What that means for driver entries and labels

  /** The driver registers these keys, and some, on the node with that name. */
  ghost predicate RegistersOn(csiNodes: seq<CSINode>, driverName: string, name: string, keys: seq<string>) {
    keys != [] && exists n :: n in csiNodes && n.name == name && Registers(n, driverName, keys)
  }

  lemma TopologyKeysRegistered(csiNode: CSINode, driverName: string, keys: seq<string>)
    requires keys != []
    ensures TopologyKeys(csiNode, driverName) == keys <==> Registers(csiNode, driverName, keys)
  {
    RegistersExactly(csiNode, driverName, keys);
  }

  /** The labels of a node for these keys; the driver registers them there, among others maybe. */
  ghost predicate OffersUnder(
    csiNodes: seq<CSINode>, driverName: string, keys: seq<string>, nodes: seq<Node>, labels: map<string, string>)
  {
    exists node, all :: node in nodes && RegistersOn(csiNodes, driverName, node.name, all) &&
        (forall key | key in keys :: key in all && key in node.labels) && labels == Restricted(node.labels, keys)
  }

  lemma TermOfLabels(keys: seq<string>, labels: map<string, string>)
    requires Labelled(keys, labels)
    ensures LabelMap(TermOf(keys, labels)) == Restricted(labels, keys)
  {
    var t := TermOf(keys, labels);
    TermOfElements(keys, labels);
    forall k ensures k in Keys(t) <==> k in keys {
      if k in keys {
        assert Entry(k, labels[k]) in t;
      }
    }
    LabelMapTaken(t, labels);
  }

  lemma CoversRegistered(csiNodes: seq<CSINode>, driverName: string, name: string, keys: seq<string>)
    ensures Covers(csiNodes, driverName, name, keys) <==>
            exists all :: RegistersOn(csiNodes, driverName, name, all) && forall key | key in keys :: key in all
  {
    forall n, all: seq<string> | all != []
      ensures TopologyKeys(n, driverName) == all <==> Registers(n, driverName, all)
    {
      TopologyKeysRegistered(n, driverName, all);
    }
    if Covers(csiNodes, driverName, name, keys) {
      var n :| n in csiNodes && n.name == name && TopologyKeys(n, driverName) != [] &&
               forall key | key in keys :: key in TopologyKeys(n, driverName);
      assert RegistersOn(csiNodes, driverName, name, TopologyKeys(n, driverName));
    }
  }

  predicate SomeTerm(terms: set<Segment>, labels: map<string, string>) {
    exists t :: t in terms && LabelMap(t) == labels
  }

  lemma ReportedOffers(csiNodes: seq<CSINode>, driverName: string, keys: seq<string>, nodes: seq<Node>, node: Node)
    requires node in nodes && Reported(csiNodes, driverName, keys, node)
    ensures OffersUnder(csiNodes, driverName, keys, nodes, Restricted(node.labels, keys))
  {
    CoversRegistered(csiNodes, driverName, node.name, keys);
  }

  /** The terms for some keys are exactly the topologies that the nodes offer under these keys. */
  lemma TermsForExactly(
    csiNodes: seq<CSINode>, driverName: string, keys: seq<string>, nodes: seq<Node>, labels: map<string, string>)
    ensures SomeTerm(TermsFor(csiNodes, driverName, keys, nodes), labels) <==>
            OffersUnder(csiNodes, driverName, keys, nodes, labels)
  {
    if SomeTerm(TermsFor(csiNodes, driverName, keys, nodes), labels) {
      var t :| t in TermsFor(csiNodes, driverName, keys, nodes) && LabelMap(t) == labels;
      var n :| n in nodes && Reported(csiNodes, driverName, keys, n) && t == TermOf(keys, n.labels);
      TermOfLabels(keys, n.labels);
      ReportedOffers(csiNodes, driverName, keys, nodes, n);
    }
    if OffersUnder(csiNodes, driverName, keys, nodes, labels) {
      var node, all :| node in nodes && RegistersOn(csiNodes, driverName, node.name, all) &&
          (forall key | key in keys :: key in all && key in node.labels) && labels == Restricted(node.labels, keys);
      CoversRegistered(csiNodes, driverName, node.name, keys);
      TermOfLabels(keys, node.labels);
      assert TermOf(keys, node.labels) in TermsFor(csiNodes, driverName, keys, nodes);
    }
  }

  /** The topologies of the cluster: for each node under each key set that the driver registers anywhere. */
  ghost predicate OffersSome(
    csiNodes: seq<CSINode>, driverName: string, nodes: seq<Node>, labels: map<string, string>)
  {
    exists name, keys :: RegistersOn(csiNodes, driverName, name, keys) &&
                         OffersUnder(csiNodes, driverName, keys, nodes, labels)
  }

  lemma OffersUnderSame(
    csiNodes: seq<CSINode>, driverName: string, keys: seq<string>, keys': seq<string>, nodes: seq<Node>,
    labels: map<string, string>)
    requires forall key :: key in keys <==> key in keys'
    requires OffersUnder(csiNodes, driverName, keys, nodes, labels)
    ensures OffersUnder(csiNodes, driverName, keys', nodes, labels)
  {
    var node, all :| node in nodes && RegistersOn(csiNodes, driverName, node.name, all) &&
        (forall key | key in keys :: key in all && key in node.labels) && labels == Restricted(node.labels, keys);
    assert Restricted(node.labels, keys) == Restricted(node.labels, keys');
  }

  lemma KeySetsRegistered(csiNodes: seq<CSINode>, driverName: string, ks: seq<string>)
    returns (name: string, keys: seq<string>)
    requires ks in KeySets(csiNodes, driverName)
    ensures RegistersOn(csiNodes, driverName, name, keys) && ks == SortedKeys(keys)
    ensures forall key :: key in keys <==> key in ks
  {
    var n :| n in csiNodes && TopologyKeys(n, driverName) != [] && ks == SortedKeys(TopologyKeys(n, driverName));
    name, keys := n.name, TopologyKeys(n, driverName);
    TopologyKeysRegistered(n, driverName, keys);
    SortedKeysProperties(keys);
    forall key ensures key in keys <==> key in ks {
      assert key in Elements(keys) <==> key in Elements(ks);
    }
  }

  lemma RegisteredKeySets(csiNodes: seq<CSINode>, driverName: string, name: string, keys: seq<string>)
    requires RegistersOn(csiNodes, driverName, name, keys)
    ensures SortedKeys(keys) in KeySets(csiNodes, driverName) && forall key :: key in keys <==> key in SortedKeys(keys)
  {
    var n :| n in csiNodes && n.name == name && Registers(n, driverName, keys);
    TopologyKeysRegistered(n, driverName, keys);
    SortedKeysProperties(keys);
    forall key ensures key in keys <==> key in SortedKeys(keys) {
      assert key in Elements(keys) <==> key in Elements(SortedKeys(keys));
    }
  }

  lemma ClusterTermsByKeys(csiNodes: seq<CSINode>, driverName: string, nodes: seq<Node>)
    ensures forall t :: t in ClusterTerms(csiNodes, driverName, nodes) <==>
              exists ks :: ks in KeySets(csiNodes, driverName) && t in TermsFor(csiNodes, driverName, ks, nodes)
  {
  }

  /** The terms of the cluster are exactly the topologies that its nodes offer. */
  lemma ClusterTermsExactly(csiNodes: seq<CSINode>, driverName: string, nodes: seq<Node>, labels: map<string, string>)
    ensures SomeTerm(ClusterTerms(csiNodes, driverName, nodes), labels) <==>
            OffersSome(csiNodes, driverName, nodes, labels)
  {
    ClusterTermsByKeys(csiNodes, driverName, nodes);
    if SomeTerm(ClusterTerms(csiNodes, driverName, nodes), labels) {
      var t :| t in ClusterTerms(csiNodes, driverName, nodes) && LabelMap(t) == labels;
      var ks :| ks in KeySets(csiNodes, driverName) && t in TermsFor(csiNodes, driverName, ks, nodes);
      TermsForExactly(csiNodes, driverName, ks, nodes, labels);
      var name, keys := KeySetsRegistered(csiNodes, driverName, ks);
      OffersUnderSame(csiNodes, driverName, ks, keys, nodes, labels);
    }
    if OffersSome(csiNodes, driverName, nodes, labels) {
      var name, keys :| RegistersOn(csiNodes, driverName, name, keys) &&
                        OffersUnder(csiNodes, driverName, keys, nodes, labels);
      RegisteredKeySets(csiNodes, driverName, name, keys);
      OffersUnderSame(csiNodes, driverName, keys, SortedKeys(keys), nodes, labels);
      TermsForExactly(csiNodes, driverName, SortedKeys(keys), nodes, labels);
      var t :| t in TermsFor(csiNodes, driverName, SortedKeys(keys), nodes) && LabelMap(t) == labels;
    }
  }
}
