# Verified model of the external-provisioner

The external-provisioner is a Kubernetes sidecar that turns PersistentVolumeClaims into CreateVolume calls for a CSI
driver. This project models the parts of it in which the interleaving of many actors or a chain of transformations
decides about correctness, and proves what callers and operators rely on. `dafny verify dfyconfig.toml` checks all of
it.

- **Capacity controller** (`CapacityModel`, `CapacityController`, `CapacityClasses`, `CapacityRuns`, `CapacityDrain`,
  `CapacityRefresh`). The handlers are methods of a class that update its map and queue; each is proved equal to a
  function on the state. Together with the API server, the informers, the workers and everybody else who edits objects
  they form a step system. In every run the invariant holds, everything is settled whenever nothing is left to do, and
  without outside interference the controller comes to rest: each step decreases a weight, and there is a next step
  until all is settled. A poll at any time ends with every object reporting what the driver answered, unless an edit
  of an object is still on its way to the informer.
- **Topology informer** (`NodeTopology`, `Segments`, `TopologyFeed`). `Sync` as a method with its nested loops, and
  what any sequence of syncs tells its consumers: stable addresses, distinct contents, deltas that add up, and each a
  step that the capacity controller is ready for.
- **Accessibility requirements** (`Flatten`, `Aggregation`, `Requirements`, `RequirementMeaning`, `SelectedNode`,
  `Spreading`, `StatefulSets`, `WellFormedTerms`, `TermSlices`, `TopologyStore`, `Generation`, `Message`).
  `Requirements.Generate` is one call as a function of the claim, the listers and what is remembered for the claim;
  the properties are proved about it. `RequirementMeaning` says when each of its outcomes occurs, and with which
  topologies, in terms of driver entries, node labels and selector terms alone. `Generation` runs the code on a store
  of references and on slices that are sorted, compacted and rotated in place, and is proved to compute that function
  and to leave the entries of all other claims alone.
- **Volume affinity** (`VolumeAffinity`). From accessible topologies to node affinity and back to capacity objects.
- **Distributed ownership** (`Ownership`). Any number of instances with arbitrarily stale caches race for one claim.
- **Finalizers** (`Finalizers`, `CloneProtection`, `SnapshotProtection`). Clone sources under lagging caches, and the
  sweep over snapshots.
- **Provisioning** (`Provisioning`). How a Provision call ends: a created volume is never abandoned, and retries
  repeat the same requirement.
- **Orders**. Comparators, sorting, compaction and the canonical form that they give to a list.

Five claims that one might expect are false of the code. Each has a concrete input and the exact condition:

- A queued deletion is not taken back when its object is relabelled as not managed
  (`CapacityRuns.RelabelledObjectIsDeleted`, `CapacityRuns.StrayExactlyWhen`).
- `flatten` forgets an expression without values if another expression follows it, and then allows more than the
  selector term does (`Flatten.RestartMatches`, `Flatten.FlattenTermExactly`, `Flatten.FlattenExactly`). What is
  allowed never gets lost (`Flatten.FlattenMeaning`).
- With delayed binding the requirement need not fit the selected node: labels are remembered per claim and not per
  node, so after another node was selected the topology of the first one is still used
  (`SelectedNode.OtherNodeRemembered`, `SelectedNode.PreferredFitsNodeExactly`, `SelectedNode.AllowedFitNodeExactly`,
  `SelectedNode.AggregatedFitsNodeExactly`). Which node's labels are remembered is `SelectedNode.FirstCompleteNode`.
- A comment in the interface of the store (pkg/controller/cache.go:21) says that the entry is deleted when
  provisioning succeeds or returns a final error. Some final errors keep it (`Provisioning.FinalKeepsEntry`,
  `Provisioning.FinalForgetsExactly`).
- Consecutive members of a StatefulSet can start with the same topology when the sum of hash and ordinal wraps at 2^32
  (`StatefulSets.MembersCollide`, `StatefulSets.MembersSpreadExactly`).

A poll of the capacity controller need not refresh everything: with an undelivered edit there is a run after which an
object does not report what the driver answered (`CapacityRefresh.PollMissesEdit`). Everything is refreshed if all
versions on their way are up to date, in particular if there are none (`CapacityRefresh.RefreshReports`).

A comment in `GenerateAccessibilityRequirements` says that the error about a topology that is not in requisite is
never hit. That holds for listers that agree with each other and no remembered terms
(`Requirements.NotInRequisiteUnreachable`); in general it happens exactly under the condition of
`Requirements.NotInRequisiteExactly`, for example as in `SelectedNode.NotInRequisiteHappens`.

What the model takes for granted, because the API server or the informers guarantee it:

- An informer change and its handler are one step; events of one object arrive in order and none is skipped. Topology
  and class of a capacity object and the fields of a storage class do not change, and UIDs are not reused.
- Segments are not empty: the API server drops an empty label map, which the code then would not recognize as equal.
- Topology keys of a driver on a node are distinct and contain no NUL, CSINode names are unique, and the expressions
  of a selector term have different keys.
- Claims that are not pending do not become pending again, names of claims are not reused, nobody else takes the
  cloning finalizer away, and namespaces contain no slash.

Loops over Go maps choose the next key freely, so that everything holds for every iteration order. Library calls are
modelled by what they compute: sorting has only one possible result for a total order, and `append` writes behind the
slice if the capacity allows it.

## Model

| member | source | states |
|---|---|---|
| CapacityController.Controller.AddWorkItem | pkg/capacity/capacity.go:470-485 | a known item keeps its object, a new one has none, the item is queued, nothing else changes |
| CapacityController.Controller.RemoveWorkItem | pkg/capacity/capacity.go:489-513 | the item is forgotten and the object it held, if any, is queued for deletion |
| CapacityController.Controller.OnSCAddOrUpdate | pkg/capacity/capacity.go:371-388 | for a class of this driver, with immediate binding only if that is wanted, exactly the items of all segments with that class are added, otherwise nothing happens |
| CapacityController.Controller.OnSCDelete | pkg/capacity/capacity.go:391-404 | exactly the items of all segments with that class are removed |
| CapacityController.Controller.OnTopologyChanges | pkg/capacity/capacity.go:341-367 | adds the items of the added segments for all relevant classes and removes those of the removed segments, as if at once |
| CapacityController.Controller.OnCAddOrUpdate | pkg/capacity/capacity.go:688-727 | a managed object goes to an item that knows it or waits for one like it, for any iteration order, or is queued for deletion; an object that is not managed is dropped by all holders, which are queued |
| CapacityController.Controller.OnCDelete | pkg/capacity/capacity.go:729-742 | one holder loses the object and is queued; without holder nothing changes |
| CapacityController.Controller.Refresh | pkg/capacity/capacity.go:456-524 | queues exactly the known items, all of them or those of one class |
| CapacityController.Controller.ObjectsCurrent | pkg/capacity/capacity.go:780-788 | counts the items that hold an object |
| CapacityController.Controller.ObjectsObsolete | pkg/capacity/capacity.go:793-818 | counts the listed managed objects that match no item |
| CapacityController.ChangedTwice | pkg/capacity/capacity.go:341-367 | handling a topology change class by class is the same as for all classes at once |
| CapacityClasses.RunItems | pkg/capacity/capacity.go:341-404 | in every run, a segment and a class are an item exactly if the segment is known and the class exists, is of this driver, and does not bind immediately or that is wanted |
| CapacityClasses.RestObjectsExactly | pkg/capacity/capacity.go:341-404 | in every run at rest, a managed object for a class and a topology exists exactly under these conditions |
| CapacityClasses.ImmediateAdds | pkg/capacity/capacity.go:357-377 | for the same segments and classes, the flag for immediate binding adds exactly the items of the driver's classes with immediate binding |
| CapacityRuns.NextInv | pkg/capacity/capacity.go:341-742 | every step of the system keeps the invariant: items are segments times relevant classes, held objects are the delivered version and match, delivered managed objects are held or queued for deletion, items without object are queued, in progress or expect one |
| CapacityRuns.RunInv | pkg/capacity/capacity.go:341-742 | the invariant holds in every state of every run |
| CapacityRuns.HeldOnce | pkg/capacity/capacity.go:688-727 | no object is held by two items |
| CapacityRuns.CreateSyncInv | pkg/capacity/capacity.go:565-647 | creating an object for an item keeps the invariant, also when another object for it appeared meanwhile |
| CapacityRuns.UpdateSyncInv | pkg/capacity/capacity.go:648-672 | updating the version that was read keeps the invariant |
| CapacityRuns.FinishRemoveInv | pkg/capacity/capacity.go:675-682 | deleting an obsolete object keeps the invariant, also if it is gone already |
| CapacityRuns.QuiescentSettled | pkg/capacity/capacity.go:532-742 | with nothing queued, in progress or undelivered, managed objects and desired items are in bijection |
| CapacityRuns.RunSettles | pkg/capacity/capacity.go:532-742 | that holds in every run, after failures, foreign edits, deletions and duplicate creations |
| CapacityRuns.RunCounters | pkg/capacity/capacity.go:773-818 | at rest the current count equals the goal and no listed object is obsolete |
| CapacityRuns.QueuedForManaged | pkg/capacity/capacity.go:489-727 | a deletion gets queued only for the version last delivered, and only if that is managed |
| CapacityRuns.StrayExactlyWhen | pkg/capacity/capacity.go:688-727 | a queued deletion concerns an object last delivered as not managed exactly from the delivery of the relabelled object on |
| CapacityRuns.RelabelledObjectIsDeleted | pkg/capacity/capacity.go:532-742 | a run in which an object is deleted after it was delivered as not managed |
| CapacityDrain.DrainDecreases | pkg/capacity/capacity.go:532-742 | without outside interference every step of workers and informer decreases the weight of the state |
| CapacityDrain.DrainProgress | pkg/capacity/capacity.go:532-742 | unless all is at rest there is such a step, whatever capacity the driver reports |
| CapacityDrain.DrainBounded | pkg/capacity/capacity.go:532-742 | a drain takes at most as many steps as the state weighs |
| CapacityDrain.DrainSettles | pkg/capacity/capacity.go:532-742 | a drain after any run is bounded by the weight, and when it cannot go on, whatever the driver answers, everything is settled |
| CapacityRefresh.StepAdvances | pkg/capacity/capacity.go:532-742 | every drain step keeps each item queued, without object, in progress with the object it holds, or with an object that is up to date, and undelivered versions up to date |
| CapacityRefresh.RefreshReports | pkg/capacity/capacity.go:516-672 | in every run, at any time: if undelivered versions are up to date, a poll and a drain that cannot go on leave everything settled, each object with the capacity and maximum that the driver answers for its class and topology |
| CapacityRefresh.UpdatesOnlyChanges | pkg/capacity/capacity.go:648-672 | in every run, a worker updates an object only if capacity, maximum or owner are not as they should be, and afterwards they are; no other object changes |
| CapacityRefresh.PollMissesEdit | pkg/capacity/capacity.go:688-704 | a run with an undelivered edit: the worker keeps the version it read, the handler of the edit does not queue the item, and the object ends with another capacity than the driver's |
| CapacityDrain.LossesMonotone | pkg/capacity/capacity.go:688-742 | fewer reasons to lose an object never raise the bound on how often it is lost |
| Segments.CompareSegmentsIsComparator | pkg/capacity/topology/topology.go:53-94 | the order of segments is total and transitive, and zero means equal content |
| Segments.SegmentOrder | pkg/capacity/topology/topology.go:53-94 | shorter segments come first; otherwise the first entry that differs decides, by key and then by value |
| Segments.GetLabelMap | pkg/capacity/topology/topology.go:106-115 | the loop fills the label map, later entries overwriting earlier ones |
| Segments.LabelMapLast | pkg/capacity/topology/topology.go:106-115 | of entries with the same key the last one counts |
| Segments.LabelMapCarries | pkg/capacity/topology/topology.go:106-115 | with unique keys the label map holds exactly the entries |
| Segments.LabelMapInjective | pkg/capacity/capacity.go:110-113 | segments with the same label map are the same, so that matching by labels is matching by segment |
| NodeTopology.NodeTopology.Sync | pkg/capacity/topology/nodes.go:245-341 | afterwards the label maps of the segments are exactly those of nodes that have labels for all keys of the first entry of the driver; survivors keep their address, the differences are reported; after an error nothing changes |
| NodeTopology.NodeSegment | pkg/capacity/topology/nodes.go:265-290 | the content a CSINode contributes: sorted keys with the labels of its node, if the node has them all |
| NodeTopology.RegistersExactly | pkg/capacity/topology/nodes.go:175-185 | the search over the driver entries finds exactly the keys of the first entry with the name, wherever it is; no keys count as an empty list |
| NodeTopology.NotRunning | pkg/capacity/topology/nodes.go:175-185 | it finds nothing exactly if no entry has the name |
| NodeTopology.ContentOffers | pkg/capacity/topology/nodes.go:265-290 | a CSINode contributes a label map exactly if it is that of its node for the keys of that entry, with all of them |
| NodeTopology.GivesUpExactly | pkg/capacity/topology/nodes.go:262-277 | a sync gives up exactly if looking up a node on which the driver has an entry fails |
| NodeTopology.RoundsFollowed | pkg/capacity/topology/nodes.go:245-341 | folding the reported changes of any sequence of syncs gives the current segments |
| NodeTopology.AddressStable | pkg/capacity/topology/nodes.go:295-304 | a content that is present throughout keeps its address |
| NodeTopology.UniqueLabelMaps | pkg/capacity/topology/nodes.go:245-341 | different addresses have different label maps, as the capacity controller needs |
| NodeTopology.ContentSorted | pkg/capacity/topology/nodes.go:175-185 | the content of a node has sorted, unique keys if the registered keys are distinct |
| TopologyFeed.SyncedChange | pkg/capacity/topology/nodes.go:245-341 | after a sync no two segments have the same label map, added segments are new, removed ones were known, and together they are the change |
| TopologyFeed.SyncIsStep | pkg/capacity/capacity.go:341-367 | a completed sync and the handler for its report are a topology step of the controller, for any order of the class lister |
| Flatten.Flatten | pkg/controller/topology.go:570-605 | the nested loops compute the product of the values per selector term, sorted, one term after the other |
| Flatten.FlattenMeaning | pkg/controller/topology.go:534-605 | for every list and label map: what is allowed contains some flattened term, and the other way round if whatever picks one value each of the expressions after the last one without values is allowed |
| Flatten.FlattenExactly | pkg/controller/topology.go:534-605 | that condition, which is about the list alone, is exact: the list keeps its meaning for all label maps if and only if it holds |
| Flatten.FlattenSize | pkg/controller/topology.go:570-605 | the number of terms is the sum over non-empty selector terms of the product of their value counts |
| Flatten.RestartMatches | pkg/controller/topology.go:579-601 | labels that a flattened term allows although the selector term does not, if an expression without values is followed by another |
| Flatten.FlattenTermExactly | pkg/controller/topology.go:575-598 | the loops over one selector term keep its meaning exactly if all expressions have values or the last one has none |
| Flatten.FlattenedNonEmpty | pkg/controller/topology.go:570-605 | no flattened term is empty |
| Aggregation.JoinInjective | pkg/controller/topology.go:349-370 | the joined id tells key lists without NUL apart |
| Aggregation.DistinctTopologyKeySets | pkg/controller/topology.go:349-370 | every registered key set once, in increasing order |
| Aggregation.RegisteredTopologyKeys | pkg/controller/topology.go:378-388 | a node is registered for keys exactly if its CSINode has the driver with all of them |
| Aggregation.AggregateTopologiesForKeys | pkg/controller/topology.go:399-420 | exactly the terms of the nodes that carry all keys and whose driver registered them |
| Aggregation.AggregateImmediate | pkg/controller/topology.go:432-483 | exactly the terms of all registered key sets |
| Aggregation.AggregationComplete | pkg/controller/topology.go:432-483 | every fully labelled registered node appears under its own key set |
| Aggregation.AggregationSound | pkg/controller/topology.go:432-483 | every term is carried by a node whose driver registered all its keys |
| Aggregation.TermsForExactly | pkg/controller/topology.go:399-420 | the terms for some keys are exactly the labels of the nodes that have these keys and whose first entry of the driver has them, too |
| Aggregation.ClusterTermsExactly | pkg/controller/topology.go:432-483 | the terms for immediate binding are exactly these for each non-empty list of keys in the first entry of the driver on any CSINode |
| Aggregation.TermsOrder | pkg/controller/topology.go:399-483 | the terms do not depend on the order of nodes and CSINodes |
| Requirements.Subset | pkg/controller/topology.go:759-779 | the single pass with a running index decides inclusion of sorted terms |
| Requirements.CanonicalOutcome | pkg/controller/topology.go:277-305 | requisite is strictly increasing and preferred is a rotation of it |
| Requirements.OrderIndependent | pkg/controller/topology.go:177-318 | requirement and errors do not depend on the order in which nodes and CSINodes are listed |
| RequirementMeaning.LookUpFailsExactly | pkg/controller/topology.go:199-221 | when the CSINode, its keys or the labels are missing: each error exactly for its reason, in terms of what is remembered, driver entries and labels |
| RequirementMeaning.NotAllowedExactly | pkg/controller/topology.go:223-240 | with strict topology the error occurs exactly if the selected topology satisfies nothing that flatten leaves of the allowed ones |
| RequirementMeaning.ListFailedExactly | pkg/controller/topology.go:424-532 | errors of listing matter exactly if nothing is allowed or remembered; without registered keys the nodes do not matter |
| RequirementMeaning.NoTopologyExactly | pkg/controller/topology.go:257-270 | the error occurs exactly if the cluster has to be asked and offers no topology |
| RequirementMeaning.UnconstrainedExactly | pkg/controller/topology.go:250-275 | no requirement is sent exactly if nothing is selected or allowed and immediate topology is off, or if something is allowed and flatten leaves nothing of it; with immediate binding nothing is remembered then |
| RequirementMeaning.FlattenedExactly | pkg/controller/topology.go:570-605 | the label maps of the flattened terms are exactly the choices of one value per key in what flatten leaves of a selector term |
| RequirementMeaning.RequisiteExactly | pkg/controller/topology.go:177-283 | requisite has exactly the topology of the selected node, or the allowed, the remembered or the offered ones, whichever applies |
| RequirementMeaning.PreferredExactly | pkg/controller/topology.go:283-317 | preferred starts at hash plus index modulo the number of terms, with strict topology at the start, otherwise at the first term that is part of the selected topology |
| RequirementMeaning.RemembersExactly | pkg/controller/topology.go:109-134 | keys, labels and terms after a call: what was complete stays, otherwise keys of the first entry, labels of the node if it has any, aggregated terms |
| Requirements.PreferredFits | pkg/controller/topology.go:199-318 | with a selected node the first preferred term and soundly flattened allowed topologies are satisfied by the labels that the lookup used, strict or not |
| SelectedNode.NodeFits | pkg/controller/topology.go:674-692 | if the remembered labels are not used, both are satisfied by the labels of the selected node itself |
| SelectedNode.OtherNodeRemembered | pkg/controller/topology.go:116-118 | two calls for one claim with agreeing listers: for the second node the first one's topology is required |
| SelectedNode.PreferredFitsNodeExactly | pkg/controller/topology.go:662-693 | the first preferred term fits a node exactly if its labels agree with the looked up ones on the keys of that term, with strict topology on all topology keys |
| SelectedNode.AgreeingNodeFits | pkg/controller/topology.go:199-318 | a node that agrees on all topology keys fits the preferred term and the allowed topologies |
| SelectedNode.AllowedFitNodeExactly | pkg/controller/topology.go:214-248 | a node satisfies all soundly flattened allowed topologies that are accepted exactly if it agrees on all topology keys |
| SelectedNode.AggregatedFitsNodeExactly | pkg/controller/topology.go:253-318 | without allowed topologies and remembered terms, a node fits the first preferred term exactly if it agrees with the looked up labels on all topology keys, strict or not |
| SelectedNode.FirstCompleteNode | pkg/controller/topology.go:609-693 | starting with nothing remembered, every delayed call after the first one whose selected node has labels for all topology keys uses the labels of that node, whatever node is selected then |
| SelectedNode.NotInRequisiteHappens | pkg/controller/topology.go:306-314 | the error for a selected node outside of the allowed topologies |
| Requirements.NotInRequisiteUnreachable | pkg/controller/topology.go:296-314 | with listers that agree and nothing remembered or allowed, the selected topology is in requisite |
| Requirements.NotInRequisiteExactly | pkg/controller/topology.go:296-314 | the error occurs exactly if there are candidates and none is part of the selected topology |
| Requirements.GenerateKeeps | pkg/controller/topology.go:109-134 | a call does not overwrite what is completely remembered |
| Requirements.SameAnswer | pkg/controller/topology.go:177-318 | what a call that did not fail leaves in the store suffices to answer the same call again |
| Requirements.RetriesRepeat | pkg/controller/topology.go:177-318 | after a call that did not fail, the same call gives the same outcome for any listers, after any other calls for the claim |
| Spreading.StatefulSetMembers | pkg/controller/topology.go:798-844 | claims of one StatefulSet member have the same hash and index, whatever the template is called |
| Spreading.PlainMembers | pkg/controller/topology.go:798-844 | without a second dash the hash is that of all before the ordinal |
| Spreading.OtherNames | pkg/controller/topology.go:798-844 | a name that does not end in a dash and a 32-bit numeral is hashed as a whole, with index 0 |
| Spreading.SpreadNecessary | pkg/controller/topology.go:285-292 | if the sums wrap and n does not divide 2^32, two of n ordinals start at the same term |
| Spreading.SpreadExactly | pkg/controller/topology.go:285-292 | n consecutive ordinals start at n different terms exactly if the sums do not wrap or n divides 2^32 |
| StatefulSets.MemberPrefersOnce | pkg/controller/topology.go:285-292 | claims of one StatefulSet member get the same requirement, whatever their templates are called |
| StatefulSets.MembersSpread | pkg/controller/topology.go:177-292 | for claim names of two of n consecutive members, any templates, and n requisite terms: the same requisite and different first preferred topologies, if the sums do not wrap or n divides 2^32 |
| StatefulSets.MembersSpreadExactly | pkg/controller/topology.go:177-292 | with n requisite terms, the claims of any two of n consecutive members get the same requisite and different first preferred topologies if and only if the sums do not wrap or n divides 2^32 |
| StatefulSets.MembersCollide | pkg/controller/topology.go:288-292 | with three allowed zones and the hash 2^32 - 1, the claims data-db-0 and data-db-1 prefer the same zone |
| Flatten.FlattenedUnique | pkg/controller/topology.go:570-605 | flattened terms have sorted, unique keys |
| WellFormedTerms.AggregatedUnique | pkg/controller/topology.go:399-483 | aggregated terms have sorted, unique keys |
| WellFormedTerms.GenerateWellFormed | pkg/controller/topology.go:177-318 | what a call leaves in the store is well-formed again |
| TermSlices.SortTerms | pkg/controller/topology.go:277 | sorts the slice in place by exchanging references, and nothing behind it |
| TermSlices.CompactTerms | pkg/controller/topology.go:278 | moves distinct terms to the front, clears the rest of the slice, and nothing behind it |
| TermSlices.Rotate | pkg/controller/topology.go:285-305 | the result is the rotation and the slice stays as it is, with enough capacity or without |
| TermSlices.ToCSITopology | pkg/controller/topology.go:781-794 | one label map per term that is not empty, in order |
| TermSlices.TopologiesOfNonEmpty | pkg/controller/topology.go:781-794 | without empty terms the conversion is one to one |
| TermSlices.TopologiesMembers | pkg/controller/topology.go:781-794 | a label map is in the result exactly if it is that of a term that is not empty |
| TopologyStore.InMemoryStore.constructor | pkg/controller/cache.go:40-44 | nothing is remembered for any claim |
| TopologyStore.InMemoryStore.Delete | pkg/controller/cache.go:48-58 | nothing is remembered for the claim, all other entries stay |
| TopologyStore.InMemoryStore.GetByPvcUID | pkg/controller/cache.go:61-96 | a copy of the remembered value that consists of new objects only |
| TopologyStore.InMemoryStore.UpdateNodeLabels | pkg/controller/cache.go:99-117 | replaces the labels of the claim by a copy, all else stays |
| TopologyStore.InMemoryStore.UpdateTopologyKeys | pkg/controller/cache.go:120-136 | replaces the keys of the claim by a copy, all else stays |
| TopologyStore.InMemoryStore.UpdateRequisiteTerms | pkg/controller/cache.go:139-162 | replaces the terms of the claim by a deep copy, all else stays |
| TopologyStore.MutationsInvisible | pkg/controller/cache.go:61-162 | whatever is done to maps and slices that were passed in and to a copy that was read, the next read returns what was stored |
| Generation.TopologyKeysLookup | pkg/controller/topology.go:109-134 | remembered keys first, then those of the CSINode, which are remembered if there are any |
| Generation.TopologyFromNodeName | pkg/controller/topology.go:662-693 | remembered labels if they have all keys, otherwise those of the node, which replace them |
| Generation.AggregateTopologies | pkg/controller/topology.go:424-532 | remembered terms or a fresh aggregation that is then remembered, in a slice that shares nothing with the store |
| Generation.Arrange | pkg/controller/topology.go:275-317 | sorting, compacting and rotating in place gives the canonical requisite and its rotation |
| Generation.GenerateAccessibilityRequirements | pkg/controller/topology.go:177-318 | answer and new entry are those of the specification function, no other entry changes, and no requirement is sent exactly if nothing restricts the volume or flatten leaves nothing |
| Message.TopologiesDistinct | pkg/controller/topology.go:781-794 | different proper terms become different, non-empty label maps |
| Message.MessageCanonical | pkg/controller/topology.go:277-317 | the message that is sent has one requisite topology per term, no two equal and none empty, and preferred is a rotation of requisite |
| Message.MessageExactly | pkg/controller/topology.go:177-317 | the requisite topologies of the message are exactly the eligible ones |
| VolumeAffinity.GenerateVolumeNodeAffinity | pkg/controller/topology.go:54-83 | one term per non-empty topology with one expression per pair, for every iteration order; nil exactly without topologies |
| VolumeAffinity.AffinityMeaning | pkg/controller/topology.go:54-101 | a node matches the generated terms exactly if it has the labels of one of the non-empty topologies |
| VolumeAffinity.TermToSegment | pkg/capacity/capacity.go:434-452 | fails exactly for terms with fields, other operators or not exactly one value; otherwise the sorted entries |
| VolumeAffinity.RoundTrip | pkg/capacity/capacity.go:434-452 | parsing a term that describes a topology gives the segment with exactly these labels |
| VolumeAffinity.RefreshTopology | pkg/capacity/capacity.go:410-432 | queues exactly the known items that some term selects; malformed terms are skipped |
| VolumeAffinity.RefreshForVolume | pkg/capacity/capacity.go:410-452 | generate, parse and compare: queues exactly the known items whose segment is one of the non-empty topologies |
| VolumeAffinity.AfterProvision | pkg/capacity/provision.go:42-77 | the wrapper queues the items in the topologies of a new volume, or those of the class if there are none or provisioning changed something without success, and nothing else |
| Ownership.NextInv | pkg/controller/controller.go:1606-1856 | every step keeps versions, phases and passed checks consistent with the log of accepted versions |
| Ownership.WriteTakesFree | pkg/controller/controller.go:1749-1856 | whatever an instance writes sets the annotation from empty to its node, for the claim it was asked about, and nothing else |
| Ownership.OneOwner | pkg/controller/controller.go:1606-1690 | if nobody clears or changes a selection, at most one instance ever passes for a claim |
| Ownership.PassesExactly | pkg/controller/controller.go:1606-1690 | in every run, an instance passes exactly when it receives the claim with its own name |
| Ownership.PollExactly | pkg/controller/controller.go:1749-1806 | a poll gives up exactly if the claim is gone, another one or taken, and goes on to the update exactly if not and the delay is over |
| Ownership.WriteExactly | pkg/controller/controller.go:1826-1853 | a write succeeds exactly if the version read is current and free; after a conflict the instance waits again |
| Ownership.FreeClaimStarts | pkg/controller/controller.go:1606-1690 | an idle instance that sees a free claim may start to become its owner |
| Ownership.WaitingCanWin | pkg/controller/controller.go:1749-1856 | in every run, while the claim is free, each waiting instance can become its owner and pass by three steps of its own |
| Finalizers.RemoveFinalizer | pkg/controller/clone_controller.go:203-210 | the finalizer is gone, all others stay as often as they were |
| Finalizers.WithoutKeepsOrder | pkg/controller/snapshot_finalizer_controller.go:180-186 | other finalizers keep their order |
| CloneProtection.SyncClaimUpdate | pkg/controller/clone_controller.go:178-212 | an update exactly if the claim carries the finalizer and every listed clone of it is past pending; it takes only the finalizer off |
| CloneProtection.NextInv | pkg/controller/clone_controller.go:135-223 | the finalizer only goes away if a listing without pending clone was made after the claim was being deleted |
| CloneProtection.SourceProtected | pkg/controller/controller.go:698-711 | in every run and for all cache lags, while a clone that passed setCloneFinalizer is pending its source carries the finalizer |
| CloneProtection.ReleasedExactly | pkg/controller/clone_controller.go:178-223 | in every run, the finalizer goes away exactly by a sync that read the current claim with it and listed no pending clone |
| CloneProtection.CleanSyncExactly | pkg/controller/clone_controller.go:178-223 | in every run, with up-to-date caches, a sync of a claim that is being deleted takes the finalizer off exactly if no clone is pending; the claim is gone then unless it has other finalizers |
| CloneProtection.ProtectSucceeds | pkg/controller/controller.go:1054-1068 | in every run, with up-to-date caches, setting the finalizer on a usable source succeeds and changes nothing else |
| CloneProtection.PassedSource | pkg/controller/controller.go:1198-1210 | in every run, a clone passed only for a source that was bound and not being deleted when checked, and carried the finalizer later |
| CloneProtection.ProtectInv | pkg/controller/controller.go:1054-1068 | setting the finalizer on the version read, or seeing it there, keeps the invariant |
| SnapshotProtection.KeyInjective | pkg/controller/snapshot_finalizer_controller.go:139-168 | the index key tells snapshots apart, given namespaces without slash |
| SnapshotProtection.BuildPendingSnapshotIndex | pkg/controller/snapshot_finalizer_controller.go:152-171 | the string index contains a snapshot exactly if some unfinished claim refers to it |
| SnapshotProtection.Sweep | pkg/controller/snapshot_finalizer_controller.go:123-203 | updates exactly the orphaned snapshots, in order, up to the cancellation, taking off only its own finalizer |
| SnapshotProtection.UpdatesExactly | pkg/controller/snapshot_finalizer_controller.go:123-147 | a snapshot is updated if and only if it carries the finalizer and nobody needs it |
| SnapshotProtection.UpdatesMembers | pkg/controller/snapshot_finalizer_controller.go:123-203 | the updates are exactly the orphaned snapshots, with the finalizer taken off and nothing else changed |
| SnapshotProtection.OrphanedExactly | pkg/controller/snapshot_finalizer_controller.go:123-171 | a snapshot is orphaned exactly if it has the finalizer and each claim that is restored from it is past pending, in terms of kind, group, name and namespace of both data source fields |
| SnapshotProtection.ProtectedIsListed | pkg/controller/controller.go:2096-2142 | the snapshot that provisioning protects for a claim is the one the sweep finds for it |
| SnapshotProtection.OtherNamespaceGranted | pkg/controller/util.go:12-55 | a data source in another namespace needs the feature and a grant there from claims in the claim's namespace to the group, kind and name of the resolved source |
| SnapshotProtection.ProtectedExactly | pkg/controller/controller.go:2096-2142 | which snapshot is protected for a claim: that of spec.dataSource, or else that of spec.dataSourceRef in the own namespace or in one that grants it |
| SnapshotProtection.SweepKeepsProtected | pkg/controller/controller.go:613-718 | no sweep updates a snapshot that is protected for a claim it knows to be unfinished |
| Provisioning.CleanupVolume | pkg/controller/controller.go:2074-2086 | at most five calls until the first success; succeeds exactly if one of them does, and then the volume is gone |
| Provisioning.Delete | pkg/controller/controller.go:1390-1455 | success exactly if nothing refuses, and then the volume is gone; no other volume is deleted |
| Provisioning.Conclude | pkg/controller/controller.go:880-1052 | a PV is returned exactly for a created volume that is big enough or of unknown size, has the requested content and could be translated; it has the right capacity and affinity; an unsuitable volume is cleaned up, and no volume is abandoned in a final state |
| Provisioning.CheckNode | pkg/controller/controller.go:1638-1664 | the requirements generated while looking for an owner change the entry of the claim like any other call, and no other entry |
| Provisioning.Provision | pkg/controller/controller.go:838-1052 | the same for the whole call; state, request and entry are those of the specification function, and no other volume or entry is touched |
| Provisioning.ReachesExactly | pkg/controller/controller.go:838-880 | CreateVolume is called exactly if driver, owner and preparation are right, with the generated requirement |
| Provisioning.RescheduleExactly | pkg/controller/controller.go:734-910 | rescheduling is requested exactly if the CSINode is gone without remembered keys, resources are exhausted with a selected node, or the preparation says so |
| Provisioning.InBackgroundExactly | pkg/controller/controller.go:881-1036 | provisioning goes on exactly if CreateVolume failed with one of five codes, or left a volume that is unsuitable or could be neither translated nor deleted |
| Provisioning.NoChangeExactly | pkg/controller/controller.go:838-880 | nothing changed exactly if another instance owns the claim or the preparation failed for another reason |
| Provisioning.ReturnedExactly | pkg/controller/controller.go:881-1041 | when a PV is returned, and when the entry of the claim is dropped |
| Provisioning.EntryUntouched | pkg/controller/controller.go:838-880 | a call that stops before the requirements leaves the entry alone |
| Provisioning.EntryRemembers | pkg/controller/controller.go:720-741 | otherwise it leaves what the generated requirements remember, also those generated while looking for an owner |
| Provisioning.FinalForgetsExactly | pkg/controller/controller.go:881-1041 | a final state leaves nothing remembered exactly if nothing was remembered anyway, or the call reached CreateVolume and did not fail in translating the PV |
| Provisioning.FinalKeepsEntry | pkg/controller/controller.go:1022-1036 | two calls with a final state that keep the entry: a failed translation and a late failure of the preparation |
| Provisioning.SurvivesFailureExactly | pkg/controller/controller.go:2037-2072 | what is remembered survives a failed CreateVolume exactly if that may still be running |
| Provisioning.RunningCallRepeats | pkg/controller/controller.go:2037-2072 | after a failure that may leave CreateVolume running, every further call with the same arguments carries the same requirement, until a call drops what is remembered |
| Provisioning.UnsettledKeeps | pkg/controller/controller.go:881-910 | a call that ends in background or without change keeps what is remembered |
| Provisioning.RequestsRepeat | pkg/controller/controller.go:720-741 | as long as no call drops what is remembered, every further CreateVolume with the same arguments carries the same requirement, or none if the first had none |

## Left out

- Flags, informer wiring, leader election, metrics, logging, events and HTTP serving in cmd/csi-provisioner.
- The initial listing of the capacity controller, which may see objects in another order than later events, and the retry delays of its queue; the order of the queue is abstracted to a set.
- A create call of the capacity controller that fails although the object was stored is two steps: a foreign creation and a failed sync.
- Watch events that are skipped: without polling the bijection at rest would not hold then.
- CapacityDrain.DrainSettles: failing calls other than updates of superseded versions are not part of a drain, because a call that always fails is repeated forever.
- CapacityRefresh.RefreshReports: that undelivered versions are up to date is sufficient and not necessary; an object with a wrong version on its way may be deleted or lost and found again.
- Selectors and quantities of capacity objects are modelled as label maps and integers; errors while building a selector do not occur.
- Sorting the key slice of a cached CSINode in place; the informer model sorts a copy.
- Real time in becomeOwner: sleeping and ticking are free choices, giving up may happen at any time.
- The answers of GetCapacity before becoming owner are free choices; that these checks generate requirements, and what they remember, is modelled.
- Spreading.StatefulSetMembers: claims with an empty name get a random hash and are not modelled; the FNV hash is any function.
- Generation.GenerateAccessibilityRequirements: the mutex of the store, so that concurrent calls for one claim are not interleaved; terms are slices with arrays of their own, while key lists and labels from listers are values.
- Snapshots that several claims restore at the same time: a finished restore takes the finalizer off for all of them.
- SnapshotProtection.BuildPendingSnapshotIndex: a failing listing of claims gives an empty index, which is not modelled.
- Clone sources in other namespaces, which the cloning finalizer does not protect.
- Provisioning.Provision: secrets, parameters, access modes and attributes of the PV, and the removal of the snapshot finalizer at the end; failures of the preparation are free choices. A CreateVolume answer without volume makes the code panic and is not modelled.
- Provisioning.Conclude: a translator that takes a CSI volume for an in-tree volume is assumed to keep its handle.
- In-tree migration itself, volume names, owner references and the rate limiter.
