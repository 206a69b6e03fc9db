/**
 The topology informer feeds the capacity controller: what a sync reports is a change that the
 controller's handler is ready for (pkg/capacity/topology/nodes.go, pkg/capacity/capacity.go).
 */
module TopologyFeed {
  import opened Orders
  import opened Segments
  import opened NodeTopology
  import opened CapacityModel
  import CapacityController
  import CapacityRuns

  /** The driver registers no key twice on a node. */
  predicate DistinctKeysOf(csiNodes: seq<CSINode>, driverName: string) {
    forall n | n in csiNodes && DriverTopologyKeys(n.drivers, driverName).Some? ::
      Distinct(DriverTopologyKeys(n.drivers, driverName).value)
  }

  lemma WantedSorted(driverName: string, csiNodes: seq<CSINode>, nodes: map<string, NodeLookup>)
    requires DistinctKeysOf(csiNodes, driverName)
    ensures forall c | c in Contents(driverName, csiNodes, nodes) :: UniqueSortedKeys(c)
  {
    forall c | c in Contents(driverName, csiNodes, nodes) ensures UniqueSortedKeys(c) {
      var n :| n in csiNodes && Content(driverName, n, nodes) == Some(c);
      ContentSorted(driverName, n, nodes);
    }
  }

  /** After a sync the segments are told apart by their labels, and the reported changes lead there. */
  lemma SyncedChange(
    driverName: string, csiNodes: seq<CSINode>, nodes: map<string, NodeLookup>,
    before: set<SegmentPtr>, after: set<SegmentPtr>, added: set<SegmentPtr>, removed: set<SegmentPtr>)
    requires DistinctKeysOf(csiNodes, driverName)
    requires Synced(before, Contents(driverName, csiNodes, nodes), after, added, removed)
    ensures CapacityRuns.DistinctContents(after)
    ensures added !! before && removed <= before && after == before + added - removed
  {
    WantedSorted(driverName, csiNodes, nodes);
    forall p, q | p in after && q in after && LabelMap(p.entries) == LabelMap(q.entries) ensures p == q {
      assert p.entries in ContentsOf(after) && q.entries in ContentsOf(after);
      UniqueLabelMaps(after, p, q);
    }
  }

  /** What the class lister returns for the classes that exist, in any order. */
  predicate Listed(classes: map<string, StorageClass>, list: seq<StorageClass>) {
    && (forall n | n in classes :: classes[n].name == n && classes[n] in list)
    && (forall sc | sc in list :: sc.name in classes && classes[sc.name] == sc)
  }

  lemma SameNames(cfg: Config, classes: map<string, StorageClass>, list: seq<StorageClass>)
    requires Listed(classes, list)
    ensures CapacityController.RelevantNames(cfg, list) == CapacityRuns.ClassNames(cfg, classes)
  {
  }

  /** A completed sync and the handler for its report are a step of the controller. */
  lemma SyncIsStep(
    cfg: Config, s: CapacityRuns.State, driverName: string, csiNodes: seq<CSINode>, nodes: map<string, NodeLookup>,
    after: set<SegmentPtr>, added: set<SegmentPtr>, removed: set<SegmentPtr>, list: seq<StorageClass>)
    requires DistinctKeysOf(csiNodes, driverName) && Listed(s.classes, list)
    requires Synced(s.segments, Contents(driverName, csiNodes, nodes), after, added, removed)
    ensures var names := CapacityController.RelevantNames(cfg, list);
            var s' := s.(segments := after, control := CapacityController.Changed(s.control, added, removed, names));
            CapacityRuns.Next(cfg, s, CapacityRuns.TopologyChange(added, removed), s')
  {
    SyncedChange(driverName, csiNodes, nodes, s.segments, after, added, removed);
    SameNames(cfg, s.classes, list);
  }
}
