/**
 The topology informer (pkg/capacity/topology/nodes.go): segments synthesized from the nodes
 on which the driver is registered, with addresses that stay the same as long as the content does.
 */
module NodeTopology {
  import opened Orders
  import opened Segments

  datatype Driver = Driver(name: string, topologyKeys: Option<seq<string>>)

  datatype CSINode = CSINode(name: string, drivers: seq<Driver>)

  /** Result of looking up a node; a node that is not in the lister is not found. */
  datatype NodeLookup = Labels(labels: map<string, string>) | LookupFailed

  /** The keys of the first driver entry with that name; no keys count as an empty list. */
  function DriverTopologyKeys(drivers: seq<Driver>, driverName: string): Option<seq<string>> {
    if drivers == [] then None
    else if drivers[0].name == driverName then
      Some(if drivers[0].topologyKeys.Some? then drivers[0].topologyKeys.value else [])
    else DriverTopologyKeys(drivers[1..], driverName)
  }

  /** The first entry of the driver on a node, and the keys it registers; no keys count as an empty list. */
  predicate FirstEntry(drivers: seq<Driver>, driverName: string, i: nat, keys: seq<string>) {
    && i < |drivers| && drivers[i].name == driverName && (forall j | 0 <= j < i :: drivers[j].name != driverName)
    && (drivers[i].topologyKeys == Some(keys) || (drivers[i].topologyKeys.None? && keys == []))
  }

  /** The driver runs on the node and registers these keys. */
  ghost predicate Registers(csiNode: CSINode, driverName: string, keys: seq<string>) {
    exists i :: FirstEntry(csiNode.drivers, driverName, i, keys)
  }

  lemma {:induction false} FirstEntryKeys(drivers: seq<Driver>, driverName: string, i: nat, keys: seq<string>)
    requires FirstEntry(drivers, driverName, i, keys)
    ensures DriverTopologyKeys(drivers, driverName) == Some(keys)
  {
    if i > 0 {
      assert drivers[0].name != driverName;
      FirstEntryKeys(drivers[1..], driverName, i - 1, keys);
    }
  }

  lemma {:induction false} KeysFirstEntry(drivers: seq<Driver>, driverName: string) returns (i: nat)
    requires DriverTopologyKeys(drivers, driverName).Some?
    ensures FirstEntry(drivers, driverName, i, DriverTopologyKeys(drivers, driverName).value)
  {
    if drivers[0].name == driverName {
      i := 0;
    } else {
      var k := KeysFirstEntry(drivers[1..], driverName);
      i := k + 1;
      forall j | 0 <= j < i ensures drivers[j].name != driverName {
        assert j == 0 || drivers[1..][j - 1] == drivers[j];
      }
    }
  }

  /** The search over the driver entries finds the keys of the first entry with the name. */
  lemma RegistersExactly(csiNode: CSINode, driverName: string, keys: seq<string>)
    ensures DriverTopologyKeys(csiNode.drivers, driverName) == Some(keys) <==> Registers(csiNode, driverName, keys)
  {
    if Registers(csiNode, driverName, keys) {
      var i :| FirstEntry(csiNode.drivers, driverName, i, keys);
      FirstEntryKeys(csiNode.drivers, driverName, i, keys);
    } else if DriverTopologyKeys(csiNode.drivers, driverName).Some? {
      var i := KeysFirstEntry(csiNode.drivers, driverName);
    }
  }

  /** It finds nothing if the driver has no entry. */
  lemma {:induction false} NotRunning(drivers: seq<Driver>, driverName: string)
    ensures DriverTopologyKeys(drivers, driverName).None? <==> forall d | d in drivers :: d.name != driverName
  {
    if drivers != [] {
      NotRunning(drivers[1..], driverName);
      assert drivers == [drivers[0]] + drivers[1..];
    }
  }

  // What the cluster offers

  predicate Labelled(keys: seq<string>, labels: map<string, string>) {
    forall key | key in keys :: key in labels
  }

  function SegmentOf(keys: seq<string>, labels: map<string, string>): Segment
    requires Labelled(keys, labels)
  {
    seq(|keys|, k requires 0 <= k < |keys| => Entry(keys[k], labels[keys[k]]))
  }

  /** The content that a CSINode contributes: its sorted keys with the node's labels, if it has them all. */
  function Content(driverName: string, csiNode: CSINode, nodes: map<string, NodeLookup>): Option<Segment> {
    var keys := DriverTopologyKeys(csiNode.drivers, driverName);
    if keys.None? || csiNode.name !in nodes || nodes[csiNode.name].LookupFailed? then None
    else
      var sorted := SortBy(CompareStrings, keys.value);
      var labels := nodes[csiNode.name].labels;
      if Labelled(sorted, labels) then Some(SegmentOf(sorted, labels)) else None
  }

  /** The lookup error that makes sync give up. */
  predicate GivesUp(driverName: string, csiNode: CSINode, nodes: map<string, NodeLookup>) {
    && DriverTopologyKeys(csiNode.drivers, driverName).Some?
    && csiNode.name in nodes && nodes[csiNode.name].LookupFailed?
  }

  function Contents(driverName: string, csiNodes: seq<CSINode>, nodes: map<string, NodeLookup>): set<Segment> {
    set n | n in csiNodes && Content(driverName, n, nodes).Some? :: Content(driverName, n, nodes).value
  }

  function ContentsOf(segments: set<SegmentPtr>): set<Segment> {
    set p | p in segments :: p.entries
  }

  /** Distinct addresses have distinct content. */
  predicate Unique(segments: set<SegmentPtr>) {
    forall p, q | p in segments && q in segments && p.entries == q.entries :: p == q
  }

  /**
   What one sync does to the set of known segments: it ends up with exactly the wanted
   contents, keeps the address of every content it already had, and reports the difference.
   */
  ghost predicate Synced(
    before: set<SegmentPtr>, wanted: set<Segment>, after: set<SegmentPtr>, added: set<SegmentPtr>,
    removed: set<SegmentPtr>)
  {
    && Unique(after) && ContentsOf(after) == wanted
    && (forall p | p in before && p.entries in wanted :: p in after)
    && (forall p | p in after && p.entries in ContentsOf(before) :: p in before)
    && added == after - before && removed == before - after
  }

  // What that means for nodes and their labels

  /** The node of a CSINode has labels for all keys that the driver registers there, and these are they. */
  ghost predicate Offers(
    driverName: string, csiNode: CSINode, nodes: map<string, NodeLookup>, labels: map<string, string>)
  {
    && csiNode.name in nodes && nodes[csiNode.name].Labels?
    && exists keys :: Registers(csiNode, driverName, keys) && Labelled(keys, nodes[csiNode.name].labels) &&
           labels == Restricted(nodes[csiNode.name].labels, keys)
  }

  lemma SegmentOfLabels(keys: seq<string>, sorted: seq<string>, labels: map<string, string>)
    requires Elements(keys) == Elements(sorted) && Labelled(sorted, labels)
    ensures LabelMap(SegmentOf(sorted, labels)) == Restricted(labels, keys)
  {
    var s := SegmentOf(sorted, labels);
    forall k ensures k in Keys(s) <==> k in keys {
      assert k in keys <==> k in Elements(keys);
      assert k in sorted <==> k in Elements(sorted);
      if k in sorted {
        var i :| 0 <= i < |sorted| && sorted[i] == k;
        assert s[i] in s;
      }
    }
    LabelMapTaken(s, labels);
  }

  lemma SortedLabelled(keys: seq<string>, labels: map<string, string>)
    ensures Elements(SortBy(CompareStrings, keys)) == Elements(keys)
    ensures Labelled(SortBy(CompareStrings, keys), labels) <==> Labelled(keys, labels)
  {
    SortByPermutes(CompareStrings, keys);
    forall k ensures k in SortBy(CompareStrings, keys) <==> k in keys {
      assert k in Elements(SortBy(CompareStrings, keys)) <==> k in Elements(keys);
    }
  }

  predicate Yields(driverName: string, csiNode: CSINode, nodes: map<string, NodeLookup>, labels: map<string, string>) {
    Content(driverName, csiNode, nodes).Some? && LabelMap(Content(driverName, csiNode, nodes).value) == labels
  }

  /** The content of a CSINode has exactly the labels that the node offers. */
  lemma ContentOffers(driverName: string, csiNode: CSINode, nodes: map<string, NodeLookup>, labels: map<string, string>)
    ensures Yields(driverName, csiNode, nodes, labels) <==> Offers(driverName, csiNode, nodes, labels)
  {
    var keys := DriverTopologyKeys(csiNode.drivers, driverName);
    forall ks ensures keys == Some(ks) <==> Registers(csiNode, driverName, ks) {
      RegistersExactly(csiNode, driverName, ks);
    }
    if keys.Some? && csiNode.name in nodes && nodes[csiNode.name].Labels? {
      var all := nodes[csiNode.name].labels;
      SortedLabelled(keys.value, all);
      if Labelled(keys.value, all) {
        SegmentOfLabels(keys.value, SortBy(CompareStrings, keys.value), all);
      }
    }
  }

  /** Sync gives up exactly if the lookup of a node on which the driver runs fails. */
  lemma GivesUpExactly(driverName: string, csiNode: CSINode, nodes: map<string, NodeLookup>)
    ensures GivesUp(driverName, csiNode, nodes) <==>
              && (exists d :: d in csiNode.drivers && d.name == driverName)
              && csiNode.name in nodes && nodes[csiNode.name].LookupFailed?
  {
    NotRunning(csiNode.drivers, driverName);
  }

  predicate Shown(segments: set<SegmentPtr>, labels: map<string, string>) {
    exists p :: p in segments && LabelMap(p.entries) == labels
  }

  ghost predicate Offered(
    driverName: string, csiNodes: seq<CSINode>, nodes: map<string, NodeLookup>, labels: map<string, string>)
  {
    exists n :: n in csiNodes && Offers(driverName, n, nodes, labels)
  }

  /** The segments are exactly the topologies of the nodes on which the driver runs. */
  ghost predicate ShowsCluster(
    segments: set<SegmentPtr>, driverName: string, csiNodes: seq<CSINode>, nodes: map<string, NodeLookup>)
  {
    forall labels :: Shown(segments, labels) <==> Offered(driverName, csiNodes, nodes, labels)
  }

  lemma ContentsShown(
    segments: set<SegmentPtr>, driverName: string, csiNodes: seq<CSINode>, nodes: map<string, NodeLookup>)
    requires ContentsOf(segments) == Contents(driverName, csiNodes, nodes)
    ensures ShowsCluster(segments, driverName, csiNodes, nodes)
  {
    forall labels ensures Shown(segments, labels) <==> Offered(driverName, csiNodes, nodes, labels) {
      forall n ensures Yields(driverName, n, nodes, labels) <==> Offers(driverName, n, nodes, labels) {
        ContentOffers(driverName, n, nodes, labels);
      }
      if Shown(segments, labels) {
        var p :| p in segments && LabelMap(p.entries) == labels;
        assert p.entries in ContentsOf(segments);
        var n :| n in csiNodes && Content(driverName, n, nodes) == Some(p.entries);
      }
      if Offered(driverName, csiNodes, nodes, labels) {
        var n :| n in csiNodes && Offers(driverName, n, nodes, labels);
        assert Content(driverName, n, nodes).value in ContentsOf(segments);
        var p :| p in segments && p.entries == Content(driverName, n, nodes).value;
      }
    }
  }

  class NodeTopology {
    const driverName: string
    var segments: seq<SegmentPtr>

    constructor (driverName: string)
      ensures this.driverName == driverName && segments == []
    {
      this.driverName := driverName;
      segments := [];
    }

    /**
     sync: csiNodes is None when listing fails. changed tells whether the callbacks run,
     with the added segments and the removed ones (whose order is arbitrary).
     */
    method Sync(csiNodes: Option<seq<CSINode>>, nodes: map<string, NodeLookup>)
      returns (changed: bool, added: seq<SegmentPtr>, removed: set<SegmentPtr>)
      requires Unique(Elements(segments))
      modifies this`segments
      ensures csiNodes.None? || (exists n :: n in csiNodes.value && GivesUp(driverName, n, nodes)) ==>
                segments == old(segments) && !changed
      ensures csiNodes.Some? && (forall n | n in csiNodes.value :: !GivesUp(driverName, n, nodes)) ==>
                && Synced(Elements(old(segments)), Contents(driverName, csiNodes.value, nodes),
                          Elements(segments), Elements(added), removed)
                && (changed <==> Elements(segments) != Elements(old(segments)))
                && ShowsCluster(Elements(segments), driverName, csiNodes.value, nodes)
      ensures fresh(Elements(added))
    {
      changed, added, removed := false, [], {};
      var known := segments;
      var removalCandidates := Elements(known);
      if csiNodes.None? {
        return;
      }
      var existing: seq<SegmentPtr> := [];
      var list := csiNodes.value;
      for k := 0 to |list|
        invariant segments == known == old(segments)
        invariant forall n | n in list[..k] :: !GivesUp(driverName, n, nodes)
        invariant fresh(Elements(added))
        invariant Collected(Elements(known), removalCandidates, Elements(existing), Elements(added),
                  Contents(driverName, list[..k], nodes))
      {
        ContentsSnoc(driverName, list, k, nodes);
        assert list[..k + 1] == list[..k] + [list[k]];
        if GivesUp(driverName, list[k], nodes) {
          assert list[k] in list;
          added := [];
          return;
        }
        var newSegment := NodeSegment(driverName, list[k], nodes);
        if newSegment.None? {
          continue;
        }
        var found := Find(known, newSegment.value);
        if found.Some? {
          var ptr := found.value;
          CollectKnown(Elements(known), removalCandidates, Elements(existing), Elements(added),
              Contents(driverName, list[..k], nodes), ptr);
          ElementsSnoc(existing, ptr);
          removalCandidates := removalCandidates - {ptr};
          existing := existing + [ptr];
          continue;
        }
        var foundNew := Find(added, newSegment.value);
        if foundNew.Some? {
          CollectAgain(Elements(known), removalCandidates, Elements(existing), Elements(added),
              Contents(driverName, list[..k], nodes), foundNew.value);
          continue;
        }
        var p := new SegmentPtr(newSegment.value);
        CollectNew(Elements(known), removalCandidates, Elements(existing), Elements(added),
            Contents(driverName, list[..k], nodes), p);
        ElementsSnoc(added, p);
        ElementsSnoc(existing, p);
        added := added + [p];
        existing := existing + [p];
      }
      assert list[..|list|] == list;
      segments := existing;
      removed := removalCandidates;
      changed := added != [] || removed != {};
      ElementsEmpty(added);
      ContentsShown(Elements(segments), driverName, list, nodes);
    }
  }

  /** The first segment in the list with that content. */
  method Find(list: seq<SegmentPtr>, content: Segment) returns (found: Option<SegmentPtr>)
    ensures found.Some? ==> found.value in list && found.value.entries == content
    ensures found.None? ==> forall q | q in list :: q.entries != content
  {
    CompareSegmentsIsComparator();
    for k := 0 to |list|
      invariant forall q | q in list[..k] :: q.entries != content
    {
      if CompareSegments(content, list[k].entries) == 0 {
        return Some(list[k]);
      }
    }
    return None;
  }

  lemma ContentsSnoc(driverName: string, csiNodes: seq<CSINode>, k: nat, nodes: map<string, NodeLookup>)
    requires k < |csiNodes|
    ensures var c := Content(driverName, csiNodes[k], nodes);
            Contents(driverName, csiNodes[..k + 1], nodes) ==
            if c.Some? then Contents(driverName, csiNodes[..k], nodes) + {c.value}
            else Contents(driverName, csiNodes[..k], nodes)
  {
    assert csiNodes[..k + 1] == csiNodes[..k] + [csiNodes[k]];
  }

  /** The inner loop of sync: the sorted keys with their labels, unless one is missing. */
  method NodeSegment(driverName: string, csiNode: CSINode, nodes: map<string, NodeLookup>)
    returns (content: Option<Segment>)
    requires !GivesUp(driverName, csiNode, nodes)
    ensures content == Content(driverName, csiNode, nodes)
  {
    var topologyKeys := DriverTopologyKeys(csiNode.drivers, driverName);
    if topologyKeys.None? || csiNode.name !in nodes {
      return None;
    }
    var labels := nodes[csiNode.name].labels;
    var keys := SortBy(CompareStrings, topologyKeys.value);
    var newSegment: Segment := [];
    for j := 0 to |keys|
      invariant Labelled(keys[..j], labels) && newSegment == SegmentOf(keys[..j], labels)
    {
      if keys[j] !in labels {
        return None;
      }
      newSegment := newSegment + [Entry(keys[j], labels[keys[j]])];
    }
    assert keys[..|keys|] == keys;
    return Some(newSegment);
  }

  /** Half-way through a sync: the contents found so far, at old addresses where there are any. */
  ghost predicate Collected(
    known: set<SegmentPtr>, candidates: set<SegmentPtr>, existing: set<SegmentPtr>, added: set<SegmentPtr>,
    contents: set<Segment>)
  {
    && candidates <= known && added !! known
    && existing == (known - candidates) + added
    && Unique(known + added)
    && ContentsOf(existing) == contents
  }

  lemma ElementsSnoc<T>(s: seq<T>, x: T)
    ensures Elements(s + [x]) == Elements(s) + {x}
  {
  }

  lemma CollectKnown(
    known: set<SegmentPtr>, candidates: set<SegmentPtr>, existing: set<SegmentPtr>, added: set<SegmentPtr>,
    contents: set<Segment>, p: SegmentPtr)
    requires Collected(known, candidates, existing, added, contents) && p in known
    ensures Collected(known, candidates - {p}, existing + {p}, added, contents + {p.entries})
  {
    assert ContentsOf(existing + {p}) == ContentsOf(existing) + {p.entries};
  }

  lemma CollectAgain(
    known: set<SegmentPtr>, candidates: set<SegmentPtr>, existing: set<SegmentPtr>, added: set<SegmentPtr>,
    contents: set<Segment>, p: SegmentPtr)
    requires Collected(known, candidates, existing, added, contents) && p in added
    ensures Collected(known, candidates, existing, added, contents + {p.entries})
  {
    assert p.entries in ContentsOf(existing);
    assert contents + {p.entries} == contents;
  }

  lemma CollectNew(
    known: set<SegmentPtr>, candidates: set<SegmentPtr>, existing: set<SegmentPtr>, added: set<SegmentPtr>,
    contents: set<Segment>, p: SegmentPtr)
    requires Collected(known, candidates, existing, added, contents) && p !in known
    requires forall q | q in known + added :: q.entries != p.entries
    ensures Collected(known, candidates, existing + {p}, added + {p}, contents + {p.entries})
  {
    assert ContentsOf(existing + {p}) == ContentsOf(existing) + {p.entries};
  }

  // Over whole runs

  /** One completed sync of a run, with the deltas passed to the callbacks. */
  datatype Round = Round(wanted: set<Segment>, after: set<SegmentPtr>, added: set<SegmentPtr>, removed: set<SegmentPtr>)

  function Before(rounds: seq<Round>, k: nat): set<SegmentPtr>
    requires k <= |rounds|
  {
    if k == 0 then {} else rounds[k - 1].after
  }

  ghost predicate RoundOk(rounds: seq<Round>, k: nat)
    requires k < |rounds|
  {
    Synced(Before(rounds, k), rounds[k].wanted, rounds[k].after, rounds[k].added, rounds[k].removed)
  }

  ghost predicate Rounds(rounds: seq<Round>) {
    forall k {:trigger RoundOk(rounds, k)} | 0 <= k < |rounds| :: RoundOk(rounds, k)
  }

  /** A consumer that only follows the callbacks. */
  function Followed(rounds: seq<Round>, k: nat): set<SegmentPtr>
    requires k <= |rounds|
  {
    if k == 0 then {} else Followed(rounds, k - 1) + rounds[k - 1].added - rounds[k - 1].removed
  }

  /**
   After every sync of a run the known segments are unique and have exactly the contents of
   the cluster, and following the deltas gives the same set; added and removed are disjoint.
   */
  lemma {:induction false} RoundsFollowed(rounds: seq<Round>, k: nat)
    requires Rounds(rounds) && k <= |rounds|
    ensures Followed(rounds, k) == Before(rounds, k) && Unique(Before(rounds, k))
    ensures k > 0 ==>
            ContentsOf(Before(rounds, k)) == rounds[k - 1].wanted && rounds[k - 1].added !! rounds[k - 1].removed
  {
    if k > 0 {
      RoundsFollowed(rounds, k - 1);
      assert RoundOk(rounds, k - 1);
    }
  }

  /** While a content stays wanted its address stays the same. */
  lemma {:induction false} AddressStable(rounds: seq<Round>, j: nat, k: nat, p: SegmentPtr, q: SegmentPtr)
    requires Rounds(rounds) && j <= k <= |rounds|
    requires p in Before(rounds, j) && q in Before(rounds, k) && p.entries == q.entries
    requires forall m | j <= m < k :: p.entries in rounds[m].wanted
    ensures p == q
    decreases k - j
  {
    if j == k {
      RoundsFollowed(rounds, k);
    } else {
      StaysKnown(rounds, j, p);
      AddressStable(rounds, j + 1, k, p, q);
    }
  }

  lemma StaysKnown(rounds: seq<Round>, j: nat, p: SegmentPtr)
    requires Rounds(rounds) && j < |rounds| && p in Before(rounds, j) && p.entries in rounds[j].wanted
    ensures p in Before(rounds, j + 1)
  {
    assert RoundOk(rounds, j);
  }

  /** With sorted, unique keys, distinct addresses also have distinct label maps. */
  lemma UniqueLabelMaps(segments: set<SegmentPtr>, p: SegmentPtr, q: SegmentPtr)
    requires Unique(segments) && p in segments && q in segments
    requires UniqueSortedKeys(p.entries) && UniqueSortedKeys(q.entries) && LabelMap(p.entries) == LabelMap(q.entries)
    ensures p == q
  {
    LabelMapInjective(p.entries, q.entries);
  }

  /** Contents have sorted keys, each once if the driver does not register a key twice. */
  lemma ContentSorted(driverName: string, csiNode: CSINode, nodes: map<string, NodeLookup>)
    requires Content(driverName, csiNode, nodes).Some?
    requires Distinct(DriverTopologyKeys(csiNode.drivers, driverName).value)
    ensures UniqueSortedKeys(Content(driverName, csiNode, nodes).value)
  {
    var keys := DriverTopologyKeys(csiNode.drivers, driverName).value;
    CompareStringsIsComparator();
    SortByDistinct(CompareStrings, keys);
  }
}
