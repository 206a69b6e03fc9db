/**
 The data of the capacity controller (pkg/capacity/capacity.go) and what each event handler
 does to it, as functions and relations on values.
 */
module CapacityModel {
  import opened Orders
  import opened Segments

  /** A segment is identified by its address, see SegmentPtr. */
  datatype WorkItem = WorkItem(segment: SegmentPtr, className: string)

  /** The UID of an API object with the fields that never change for that UID. */
  datatype Identity = Identity(uid: nat, className: string, nodeTopology: map<string, string>)

  datatype Info = Info(capacity: int, maximumVolumeSize: Option<int>, owned: bool)

  /** One version of a CSIStorageCapacity object; managed stands for the two labels of isManaged. */
  datatype Object = Object(id: Identity, version: nat, managed: bool, info: Info)

  datatype BindingMode = Immediate | WaitForFirstConsumer

  datatype StorageClass = StorageClass(name: string, provisioner: string, bindingMode: Option<BindingMode>)

  datatype Config = Config(driverName: string, immediateBinding: bool, hasOwner: bool)

  /**
   The desired items with the object known for each, and the queued keys. Queue keys are
   either work items to refresh or object versions to delete.
   */
  datatype Control = Control(
    capacities: map<WorkItem, Option<Object>>,
    refresh: set<WorkItem>,
    obsolete: set<Object>)

  predicate Relevant(cfg: Config, sc: StorageClass) {
    sc.provisioner == cfg.driverName && (cfg.immediateBinding || sc.bindingMode != Some(Immediate))
  }

  /** WorkItem.equals */
  predicate Matches(item: WorkItem, o: Object) {
    item.className == o.id.className && LabelMap(item.segment.entries) == o.id.nodeTopology
  }

  predicate Holds(capacities: map<WorkItem, Option<Object>>, item: WorkItem, x: Identity) {
    item in capacities && capacities[item].Some? && capacities[item].value.id == x
  }

  function Items(segments: set<SegmentPtr>, classes: set<string>): set<WorkItem> {
    set p, c | p in segments && c in classes :: WorkItem(p, c)
  }

  /** addWorkItem for each item */
  function Added(c: Control, items: set<WorkItem>): Control {
    Control(
      c.capacities + map i | i in items - c.capacities.Keys :: None,
      c.refresh + items,
      c.obsolete)
  }

  function HeldObjects(c: Control, items: set<WorkItem>): set<Object> {
    set i | i in items && i in c.capacities && c.capacities[i].Some? :: c.capacities[i].value
  }

  /** removeWorkItem for each item */
  function Removed(c: Control, items: set<WorkItem>): Control {
    Control(c.capacities - items, c.refresh, c.obsolete + HeldObjects(c, items))
  }

  /** The item that onCAddOrUpdate settles for: it knows the object already or waits for one like it. */
  predicate Accepts(c: Control, item: WorkItem, o: Object) {
    item in c.capacities &&
    (Holds(c.capacities, item, o.id) || (c.capacities[item].None? && Matches(item, o)))
  }

  /** onCAddOrUpdate for a managed object; the item depends on the iteration order of the map. */
  ghost predicate ManagedSeen(c: Control, o: Object, c': Control) {
    if exists i :: i in c.capacities && Accepts(c, i, o) then
      exists i :: i in c.capacities && Accepts(c, i, o) &&
                  c' == c.(capacities := c.capacities[i := Some(o)])
    else
      c' == c.(obsolete := c.obsolete + {o})
  }

  function Holders(c: Control, x: Identity): set<WorkItem> {
    set i | i in c.capacities && Holds(c.capacities, i, x)
  }

  /** onCAddOrUpdate for an object that is not managed (any more) */
  function UnmanagedSeen(c: Control, x: Identity): Control {
    c.(capacities := map i | i in c.capacities :: if Holds(c.capacities, i, x) then None else c.capacities[i],
       refresh := c.refresh + Holders(c, x))
  }

  /** onCDelete */
  ghost predicate DeletionSeen(c: Control, x: Identity, c': Control) {
    if Holders(c, x) == {} then c' == c
    else exists i :: i in Holders(c, x) &&
                     c' == c.(capacities := c.capacities[i := None], refresh := c.refresh + {i})
  }

  /** The fields that syncCapacity writes, given the driver's answer. */
  function Refreshed(cfg: Config, info: Info, capacity: int, maximum: Option<int>): Info {
    Info(capacity, maximum, info.owned || cfg.hasOwner)
  }

  /** A managed object that no desired item is for. */
  ghost predicate IsObsolete(capacities: map<WorkItem, Option<Object>>, o: Object) {
    o.managed && !exists i :: i in capacities && Matches(i, o)
  }
}
