/**
 The capacity controller together with the API server, the informers and everybody else who
 edits CSIStorageCapacity objects, as a step system. Informer changes and their handlers are
 one step; object events are delivered per object in order; workers read their item under
 the lock and act on it later.
 */
module CapacityRuns {
  import opened Orders
  import opened Segments
  import opened CapacityModel

  datatype Event = Upsert(o: Object) | Gone

  /** The API server and what the informer has passed on of it. */
  datatype World = World(
    api: map<Identity, Object>,           // objects that exist
    pending: map<Identity, seq<Event>>,   // undelivered events, oldest first
    delivered: map<Identity, Object>,     // last delivered version, i.e. the object lister
    known: seq<Identity>,                 // all identities so far, by UID
    clock: nat)                           // next resource version

  datatype State = State(
    segments: set<SegmentPtr>,              // topology informer
    classes: map<string, StorageClass>,     // storage class lister
    control: Control,
    syncing: map<WorkItem, Option<Object>>, // items being processed, with the object read for them
    removing: set<Object>,                  // deletions being processed
    world: World)

  datatype Step =
    // from outside
    | TopologyChange(added: set<SegmentPtr>, removed: set<SegmentPtr>)
    | ClassSet(sc: StorageClass)
    | ClassDelete(name: string)
    | Refresh(items: set<WorkItem>)
    | ForeignCreate(className: string, nodeTopology: map<string, string>, managed: bool, info: Info)
    | ForeignEdit(x: Identity, managed: bool, info: Info)
    | ForeignDelete(x: Identity)
    | Resync(x: Identity)
    // workers; SkipSync is a storage class that is gone, FailSync and FailRemove are failed calls
    | StartSync(item: WorkItem)
    | SkipSync(item: WorkItem)
    | CreateSync(item: WorkItem, capacity: int, maximum: Option<int>)
    | KeepSync(item: WorkItem, capacity: int, maximum: Option<int>)
    | UpdateSync(item: WorkItem, capacity: int, maximum: Option<int>)
    | FailSync(item: WorkItem)
    | StartRemove(o: Object)
    | FinishRemove(o: Object)
    | FailRemove(o: Object)
    // informer
    | Deliver(x: Identity)

  function ClassNames(cfg: Config, classes: map<string, StorageClass>): set<string> {
    set n | n in classes && Relevant(cfg, classes[n])
  }

  predicate DistinctContents(segments: set<SegmentPtr>) {
    forall p, q | p in segments && q in segments ::
      LabelMap(p.entries) == LabelMap(q.entries) ==> p == q
  }

  // Writes on the API server

  function Created(w: World, className: string, nodeTopology: map<string, string>, managed: bool, info: Info): World {
    var x := Identity(|w.known|, className, nodeTopology);
    var o := Object(x, w.clock, managed, info);
    w.(api := w.api[x := o], pending := w.pending[x := [Upsert(o)]], known := w.known + [x], clock := w.clock + 1)
  }

  function Edited(w: World, x: Identity, managed: bool, info: Info): World
    requires x in w.pending
  {
    var o := Object(x, w.clock, managed, info);
    w.(api := w.api[x := o], pending := w.pending[x := w.pending[x] + [Upsert(o)]], clock := w.clock + 1)
  }

  function Deleted(w: World, x: Identity): World
    requires x in w.pending
  {
    w.(api := w.api - {x}, pending := w.pending[x := w.pending[x] + [Gone]])
  }

  /** The informer passes on the oldest event of x. */
  function Passed(w: World, x: Identity): World
    requires x in w.pending && w.pending[x] != []
  {
    w.(pending := w.pending[x := w.pending[x][1..]],
       delivered := match w.pending[x][0] case Upsert(o) => w.delivered[x := o] case Gone => w.delivered - {x})
  }

  /** Optimistic concurrency: an update is accepted for the version on the API server only. */
  predicate Current(w: World, o: Object) {
    o.id in w.pending && o.id in w.api && w.api[o.id].version == o.version
  }

  // Handlers

  ghost predicate Seen(c: Control, o: Object, c': Control) {
    if o.managed then ManagedSeen(c, o, c') else c' == UnmanagedSeen(c, o.id)
  }

  ghost predicate Handled(c: Control, x: Identity, ev: Event, c': Control) {
    match ev
    case Upsert(o) => Seen(c, o, c')
    case Gone => DeletionSeen(c, x, c')
  }

  // Worker steps

  function Started(s: State, item: WorkItem): State {
    var t := s.(control := s.control.(refresh := s.control.refresh - {item}));
    if item in s.control.capacities then t.(syncing := s.syncing[item := s.control.capacities[item]]) else t
  }

  function Done(s: State, item: WorkItem): State {
    s.(syncing := s.syncing - {item})
  }

  function Requeued(s: State, item: WorkItem): State {
    Done(s, item).(control := s.control.(refresh := s.control.refresh + {item}))
  }

  function RemoveDone(s: State, o: Object): State {
    s.(removing := s.removing - {o},
       world := if o.id in s.world.api && o.id in s.world.pending then Deleted(s.world, o.id) else s.world)
  }

  ghost predicate Next(cfg: Config, s: State, step: Step, s': State) {
    match step
    case TopologyChange(added, removed) =>
      && added !! s.segments && removed <= s.segments
      && DistinctContents(s.segments + added - removed)
      && s' == s.(segments := s.segments + added - removed,
                  control := Removed(Added(s.control, Items(added, ClassNames(cfg, s.classes))),
                                     Items(removed, ClassNames(cfg, s.classes))))
    case ClassSet(sc) =>
      && (sc.name in s.classes ==> s.classes[sc.name] == sc)
      && s' == s.(classes := s.classes[sc.name := sc],
                  control := if Relevant(cfg, sc) then Added(s.control, Items(s.segments, {sc.name})) else s.control)
    case ClassDelete(name) =>
      && name in s.classes
      && s' == s.(classes := s.classes - {name},
                  control := if s.classes[name].provisioner == cfg.driverName
                             then Removed(s.control, Items(s.segments, {name})) else s.control)
    case Refresh(items) =>
      && items <= s.control.capacities.Keys
      && s' == s.(control := s.control.(refresh := s.control.refresh + items))
    case ForeignCreate(className, nodeTopology, managed, info) =>
      s' == s.(world := Created(s.world, className, nodeTopology, managed, info))
    case ForeignEdit(x, managed, info) =>
      x in s.world.api && x in s.world.pending && s' == s.(world := Edited(s.world, x, managed, info))
    case ForeignDelete(x) =>
      x in s.world.api && x in s.world.pending && s' == s.(world := Deleted(s.world, x))
    case Resync(x) =>
      && x in s.world.delivered
      && Seen(s.control, s.world.delivered[x], s'.control)
      && s' == s.(control := s'.control)
    case StartSync(item) =>
      item in s.control.refresh && item !in s.syncing && s' == Started(s, item)
    case SkipSync(item) =>
      item in s.syncing && item.className !in s.classes && s' == Done(s, item)
    case CreateSync(item, capacity, maximum) =>
      && item in s.syncing && s.syncing[item].None?
      && s' == Done(s, item).(world := Created(s.world, item.className, LabelMap(item.segment.entries), true,
                                               Info(capacity, maximum, cfg.hasOwner)))
    case KeepSync(item, capacity, maximum) =>
      && item in s.syncing && s.syncing[item].Some?
      && Refreshed(cfg, s.syncing[item].value.info, capacity, maximum) == s.syncing[item].value.info
      && s' == Done(s, item)
    case UpdateSync(item, capacity, maximum) =>
      && item in s.syncing && s.syncing[item].Some?
      && var o := s.syncing[item].value;
         && Current(s.world, o)
         && Refreshed(cfg, o.info, capacity, maximum) != o.info
         && s' == Done(s, item).(world := Edited(s.world, o.id, o.managed, Refreshed(cfg, o.info, capacity, maximum)))
    case FailSync(item) =>
      item in s.syncing && s' == Requeued(s, item)
    case StartRemove(o) =>
      && o in s.control.obsolete && o !in s.removing
      && s' == s.(control := s.control.(obsolete := s.control.obsolete - {o}), removing := s.removing + {o})
    case FinishRemove(o) =>
      o in s.removing && s' == RemoveDone(s, o)
    case FailRemove(o) =>
      && o in s.removing
      && s' == s.(removing := s.removing - {o}, control := s.control.(obsolete := s.control.obsolete + {o}))
    case Deliver(x) =>
      && x in s.world.pending && s.world.pending[x] != []
      && Handled(s.control, x, s.world.pending[x][0], s'.control)
      && s' == s.(control := s'.control, world := Passed(s.world, x))
  }

  /** Objects may exist before the controller starts; it has seen nothing yet. */
  ghost predicate Init(s: State) {
    && s.segments == {} && s.classes == map[] && s.control == Control(map[], {}, {})
    && s.syncing == map[] && s.removing == {} && s.world.delivered == map[]
    && WellNamed(s.world)
    && forall x | x in s.world.pending ::
         x in s.world.api && s.world.pending[x] == [Upsert(s.world.api[x])] && s.world.api[x].version < s.world.clock
  }

  ghost predicate Run(cfg: Config, states: seq<State>, steps: seq<Step>) {
    && |states| == |steps| + 1
    && Init(states[0])
    && forall k | 0 <= k < |steps| :: Next(cfg, states[k], steps[k], states[k + 1])
  }

  // The invariant, part by part

  ghost predicate WellNamed(w: World) {
    && (forall k | 0 <= k < |w.known| :: w.known[k].uid == k && w.known[k] in w.pending)
    && (forall x | x in w.pending :: x.uid < |w.known| && w.known[x.uid] == x)
    && (forall x | x in w.api :: x in w.pending && w.api[x].id == x)
    && (forall x | x in w.delivered :: x in w.pending && w.delivered[x].id == x)
  }

  function Lookup<K, V>(m: map<K, V>, k: K): Option<V> {
    if k in m then Some(m[k]) else None
  }

  /** What the informer will have delivered once these events are through. */
  function Latest(delivered: Option<Object>, events: seq<Event>): Option<Object> {
    if events == [] then delivered
    else match events[|events| - 1] case Upsert(o) => Some(o) case Gone => None
  }

  /** Undelivered events of x: newer than what was delivered, in order, and deletion comes last. */
  ghost predicate Stream(x: Identity, delivered: Option<Object>, events: seq<Event>, clock: nat) {
    && (delivered.Some? ==> delivered.value.version < clock)
    && (forall k | 0 <= k < |events| && events[k].Upsert? ::
          && events[k].o.id == x && events[k].o.version < clock
          && (delivered.Some? ==> delivered.value.version < events[k].o.version))
    && (forall k | 0 <= k < |events| - 1 :: events[k].Upsert?)
    && (forall j, k | 0 <= j < k < |events| && events[j].Upsert? && events[k].Upsert? ::
          events[j].o.version < events[k].o.version)
  }

  ghost predicate ChannelOk(w: World, x: Identity)
    requires x in w.pending
  {
    && Stream(x, Lookup(w.delivered, x), w.pending[x], w.clock)
    && Latest(Lookup(w.delivered, x), w.pending[x]) == Lookup(w.api, x)
  }

  ghost predicate WorldOk(w: World) {
    WellNamed(w) && forall x | x in w.pending :: ChannelOk(w, x)
  }

  ghost predicate Desired(
    cfg: Config, segments: set<SegmentPtr>, classes: map<string, StorageClass>, items: set<WorkItem>)
  {
    items == Items(segments, ClassNames(cfg, classes)) && DistinctContents(segments)
  }

  /** A held object is the last delivered version, managed, and fits its item. */
  ghost predicate HeldOk(capacities: map<WorkItem, Option<Object>>, delivered: map<Identity, Object>) {
    forall i | i in capacities && capacities[i].Some? ::
      var o := capacities[i].value;
      o.id in delivered && delivered[o.id] == o && o.managed && Matches(i, o)
  }

  function HeldIds(capacities: map<WorkItem, Option<Object>>): set<Identity> {
    set i | i in capacities && capacities[i].Some? :: capacities[i].value.id
  }

  function Ids(objects: set<Object>): set<Identity> {
    set o | o in objects :: o.id
  }

  /** Every delivered managed object that still exists is held or about to be deleted. */
  ghost predicate Accounted(w: World, held: set<Identity>, doomed: set<Identity>) {
    && doomed <= w.pending.Keys
    && forall x | x in w.delivered && x in w.api && w.delivered[x].managed :: x in held || x in doomed
  }

  /** The next event of x is a managed object for the item. */
  ghost predicate Incoming(pending: map<Identity, seq<Event>>, i: WorkItem, x: Identity) {
    x in pending && pending[x] != [] && pending[x][0].Upsert? &&
    pending[x][0].o.managed && Matches(i, pending[x][0].o)
  }

  ghost predicate HasIncoming(pending: map<Identity, seq<Event>>, i: WorkItem) {
    exists x :: x in pending && Incoming(pending, i, x)
  }

  /** Every item without object is queued, being created, or has its object on the way. */
  ghost predicate Attended(c: Control, syncing: map<WorkItem, Option<Object>>, pending: map<Identity, seq<Event>>) {
    forall i | i in c.capacities && c.capacities[i].None? ::
      i in c.refresh || (i in syncing && syncing[i].None?) || HasIncoming(pending, i)
  }

  /** Objects read by workers are old: never newer than delivered, and gone if no longer listed. */
  ghost predicate WasDelivered(w: World, o: Object) {
    && o.id in w.pending && o.managed
    && (if o.id in w.delivered
        then o.version <= w.delivered[o.id].version &&
            (o.version == w.delivered[o.id].version ==> o == w.delivered[o.id])
        else o.id !in w.api && w.pending[o.id] == [])
  }

  ghost predicate ReadsOk(syncing: map<WorkItem, Option<Object>>, w: World) {
    forall i | i in syncing && syncing[i].Some? :: WasDelivered(w, syncing[i].value)
  }

  ghost predicate Inv(cfg: Config, s: State) {
    && WorldOk(s.world)
    && Desired(cfg, s.segments, s.classes, s.control.capacities.Keys)
    && HeldOk(s.control.capacities, s.world.delivered)
    && Accounted(s.world, HeldIds(s.control.capacities), Ids(s.control.obsolete + s.removing))
    && Attended(s.control, s.syncing, s.world.pending)
    && ReadsOk(s.syncing, s.world)
  }

  lemma InitInv(cfg: Config, s: State)
    requires Init(s)
    ensures Inv(cfg, s)
  {
    assert Ids(s.control.obsolete + s.removing) == {};
  }

  // Writes on the API server

  lemma StreamAppend(x: Identity, delivered: Option<Object>, events: seq<Event>, clock: nat, ev: Event)
    requires Stream(x, delivered, events, clock) && Latest(delivered, events).Some?
    requires ev.Upsert? ==> ev.o.id == x && ev.o.version == clock
    ensures Stream(x, delivered, events + [ev], clock + 1)
    ensures ev.Gone? ==> Stream(x, delivered, events + [ev], clock)
    ensures Latest(delivered, events + [ev]) == match ev case Upsert(o) => Some(o) case Gone => None
  {
    assert forall k | 0 <= k < |events| :: events[k].Upsert? by {
      assert events != [] ==> events[|events| - 1].Upsert?;
    }
  }

  lemma StreamLater(x: Identity, delivered: Option<Object>, events: seq<Event>, clock: nat)
    requires Stream(x, delivered, events, clock)
    ensures Stream(x, delivered, events, clock + 1)
  {
  }

  lemma StreamTail(x: Identity, delivered: Option<Object>, events: seq<Event>, clock: nat)
    requires Stream(x, delivered, events, clock) && events != []
    ensures var delivered' := match events[0] case Upsert(o) => Some(o) case Gone => None;
            Stream(x, delivered', events[1..], clock) && Latest(delivered', events[1..]) == Latest(delivered, events)
  {
  }

  function Fresh(w: World, className: string, nodeTopology: map<string, string>): Identity {
    Identity(|w.known|, className, nodeTopology)
  }

  lemma CreatedNames(w: World, className: string, nodeTopology: map<string, string>, managed: bool, info: Info)
    requires WellNamed(w)
    ensures WellNamed(Created(w, className, nodeTopology, managed, info))
    ensures var x := Fresh(w, className, nodeTopology); x !in w.pending && x !in w.delivered && x !in w.api
  {
  }

  lemma CreatedChannel(
    w: World, className: string, nodeTopology: map<string, string>, managed: bool, info: Info, x: Identity)
    requires x in w.pending && ChannelOk(w, x) && x != Fresh(w, className, nodeTopology)
    ensures ChannelOk(Created(w, className, nodeTopology, managed, info), x)
  {
    StreamLater(x, Lookup(w.delivered, x), w.pending[x], w.clock);
  }

  lemma CreatedFresh(w: World, className: string, nodeTopology: map<string, string>, managed: bool, info: Info)
    requires Fresh(w, className, nodeTopology) !in w.delivered
    ensures ChannelOk(Created(w, className, nodeTopology, managed, info), Fresh(w, className, nodeTopology))
  {
  }

  lemma CreatedInv(w: World, className: string, nodeTopology: map<string, string>, managed: bool, info: Info)
    requires WorldOk(w)
    ensures WorldOk(Created(w, className, nodeTopology, managed, info))
    ensures var x := Fresh(w, className, nodeTopology); x !in w.pending && x !in w.delivered && x !in w.api
  {
    CreatedNames(w, className, nodeTopology, managed, info);
    CreatedFresh(w, className, nodeTopology, managed, info);
    forall x | x in w.pending ensures ChannelOk(Created(w, className, nodeTopology, managed, info), x) {
      CreatedChannel(w, className, nodeTopology, managed, info, x);
    }
  }

  lemma EditedChannel(w: World, x: Identity, managed: bool, info: Info, y: Identity)
    requires x in w.pending && x in w.api && y in w.pending && ChannelOk(w, y)
    ensures ChannelOk(Edited(w, x, managed, info), y)
  {
    if y == x {
      StreamAppend(x, Lookup(w.delivered, x), w.pending[x], w.clock, Upsert(Object(x, w.clock, managed, info)));
    } else {
      StreamLater(y, Lookup(w.delivered, y), w.pending[y], w.clock);
    }
  }

  lemma EditedInv(w: World, x: Identity, managed: bool, info: Info)
    requires WorldOk(w) && x in w.api
    ensures WorldOk(Edited(w, x, managed, info))
  {
    EditedNames(w, x, managed, info);
    forall y | y in w.pending ensures ChannelOk(Edited(w, x, managed, info), y) {
      EditedChannel(w, x, managed, info, y);
    }
  }

  lemma EditedNames(w: World, x: Identity, managed: bool, info: Info)
    requires WellNamed(w) && x in w.api
    ensures WellNamed(Edited(w, x, managed, info))
  {
  }

  lemma DeletedInv(w: World, x: Identity)
    requires WorldOk(w) && x in w.api
    ensures WorldOk(Deleted(w, x))
  {
    var w' := Deleted(w, x);
    forall y | y in w'.pending ensures ChannelOk(w', y) {
      assert ChannelOk(w, y);
      if y == x {
        StreamAppend(x, Lookup(w.delivered, x), w.pending[x], w.clock, Gone);
      }
    }
  }

  lemma PassedNames(w: World, x: Identity)
    requires WellNamed(w) && x in w.pending && w.pending[x] != [] && ChannelOk(w, x)
    ensures WellNamed(Passed(w, x))
  {
  }

  lemma PassedChannel(w: World, x: Identity, y: Identity)
    requires x in w.pending && w.pending[x] != [] && y in w.pending && ChannelOk(w, y)
    ensures ChannelOk(Passed(w, x), y)
  {
    if y == x {
      StreamTail(x, Lookup(w.delivered, x), w.pending[x], w.clock);
    }
  }

  lemma PassedInv(w: World, x: Identity)
    requires WorldOk(w) && x in w.pending && w.pending[x] != []
    ensures WorldOk(Passed(w, x))
  {
    PassedNames(w, x);
    forall y | y in w.pending ensures ChannelOk(Passed(w, x), y) {
      PassedChannel(w, x, y);
    }
  }

  // What the writes leave alone

  ghost predicate Appends(pending: map<Identity, seq<Event>>, pending': map<Identity, seq<Event>>) {
    forall x | x in pending :: x in pending' && pending[x] <= pending'[x]
  }

  lemma AttendedKept(
    c: Control, syncing: map<WorkItem, Option<Object>>, pending: map<Identity, seq<Event>>,
    pending': map<Identity, seq<Event>>)
    requires Attended(c, syncing, pending) && Appends(pending, pending')
    ensures Attended(c, syncing, pending')
  {
    forall i | HasIncoming(pending, i) ensures HasIncoming(pending', i) {
      var x :| x in pending && Incoming(pending, i, x);
      assert pending[x] <= pending'[x];
      assert Incoming(pending', i, x);
    }
  }

  /** A write adds events, creates nothing that was known before and does not touch what is gone. */
  ghost predicate Writes(w: World, w': World) {
    && w'.delivered == w.delivered && Appends(w.pending, w'.pending)
    && (forall x | x in w.delivered && x in w'.api :: x in w.api)
    && (forall x | x in w.pending && x !in w.api :: x !in w'.api && w'.pending[x] == w.pending[x])
  }

  /** A write by anybody keeps the invariant. */
  lemma WriteInv(cfg: Config, s: State, w': World)
    requires Inv(cfg, s) && WorldOk(w') && Writes(s.world, w')
    ensures Inv(cfg, s.(world := w'))
  {
    AttendedKept(s.control, s.syncing, s.world.pending, w'.pending);
  }

  lemma CreateInv(
    cfg: Config, s: State, className: string, nodeTopology: map<string, string>, managed: bool, info: Info)
    requires Inv(cfg, s)
    ensures Inv(cfg, s.(world := Created(s.world, className, nodeTopology, managed, info)))
  {
    CreatedInv(s.world, className, nodeTopology, managed, info);
    WriteInv(cfg, s, Created(s.world, className, nodeTopology, managed, info));
  }

  lemma EditInv(cfg: Config, s: State, x: Identity, managed: bool, info: Info)
    requires Inv(cfg, s) && x in s.world.api
    ensures Inv(cfg, s.(world := Edited(s.world, x, managed, info)))
  {
    EditedInv(s.world, x, managed, info);
    WriteInv(cfg, s, Edited(s.world, x, managed, info));
  }

  lemma DeletedWrites(w: World, x: Identity)
    requires WellNamed(w) && x in w.api
    ensures Writes(w, Deleted(w, x))
  {
  }

  lemma DeleteInv(cfg: Config, s: State, x: Identity)
    requires Inv(cfg, s) && x in s.world.api
    ensures Inv(cfg, s.(world := Deleted(s.world, x)))
  {
    DeletedInv(s.world, x);
    DeletedWrites(s.world, x);
    WriteInv(cfg, s, Deleted(s.world, x));
  }

  // Items come and go

  lemma AddedInv(s: State, items: set<WorkItem>)
    requires HeldOk(s.control.capacities, s.world.delivered)
    requires Accounted(s.world, HeldIds(s.control.capacities), Ids(s.control.obsolete + s.removing))
    requires Attended(s.control, s.syncing, s.world.pending)
    ensures var c := Added(s.control, items);
            && HeldOk(c.capacities, s.world.delivered)
            && Accounted(s.world, HeldIds(c.capacities), Ids(c.obsolete + s.removing))
            && Attended(c, s.syncing, s.world.pending)
            && c.capacities.Keys == s.control.capacities.Keys + items
  {
    assert HeldIds(Added(s.control, items).capacities) == HeldIds(s.control.capacities);
  }

  lemma RemovedIds(c: Control, items: set<WorkItem>)
    ensures HeldIds(c.capacities) == HeldIds(Removed(c, items).capacities) + Ids(HeldObjects(c, items))
  {
    var c' := Removed(c, items);
    forall x | x in HeldIds(c.capacities)
      ensures x in HeldIds(c'.capacities) + Ids(HeldObjects(c, items))
    {
      var i :| i in c.capacities && c.capacities[i].Some? && c.capacities[i].value.id == x;
      if i in items {
        assert c.capacities[i].value in HeldObjects(c, items);
      } else {
        assert i in c'.capacities && c'.capacities[i] == c.capacities[i];
      }
    }
  }

  lemma RemovedInv(s: State, items: set<WorkItem>)
    requires WellNamed(s.world) && HeldOk(s.control.capacities, s.world.delivered)
    requires Accounted(s.world, HeldIds(s.control.capacities), Ids(s.control.obsolete + s.removing))
    requires Attended(s.control, s.syncing, s.world.pending)
    ensures var c := Removed(s.control, items);
            && HeldOk(c.capacities, s.world.delivered)
            && Accounted(s.world, HeldIds(c.capacities), Ids(c.obsolete + s.removing))
            && Attended(c, s.syncing, s.world.pending)
            && c.capacities.Keys == s.control.capacities.Keys - items
  {
    var c := Removed(s.control, items);
    RemovedIds(s.control, items);
    assert Ids(c.obsolete + s.removing) == Ids(s.control.obsolete + s.removing) + Ids(HeldObjects(s.control, items));
    assert HeldIds(s.control.capacities) <= s.world.pending.Keys;
  }

  lemma TopologyChangeInv(cfg: Config, s: State, step: Step, s': State)
    requires Inv(cfg, s) && step.TopologyChange? && Next(cfg, s, step, s')
    ensures Inv(cfg, s')
  {
    var names := ClassNames(cfg, s.classes);
    AddedInv(s, Items(step.added, names));
    RemovedInv(s.(control := Added(s.control, Items(step.added, names))), Items(step.removed, names));
    assert Items(s.segments + step.added - step.removed, names) ==
           Items(s.segments, names) + Items(step.added, names) - Items(step.removed, names);
  }

  lemma ClassInv(cfg: Config, s: State, step: Step, s': State)
    requires Inv(cfg, s) && (step.ClassSet? || step.ClassDelete?) && Next(cfg, s, step, s')
    ensures Inv(cfg, s')
  {
    var names := ClassNames(cfg, s.classes);
    var names' := ClassNames(cfg, s'.classes);
    if step.ClassSet? {
      AddedInv(s, Items(s.segments, {step.sc.name}));
      assert names' == if Relevant(cfg, step.sc) then names + {step.sc.name} else names;
      assert Items(s.segments, names + {step.sc.name}) == Items(s.segments, names) + Items(s.segments, {step.sc.name});
    } else {
      RemovedInv(s, Items(s.segments, {step.name}));
      assert names' == names - {step.name};
      assert Items(s.segments, names - {step.name}) == Items(s.segments, names) - Items(s.segments, {step.name});
      assert s.classes[step.name].provisioner != cfg.driverName ==> names' == names;
    }
  }

  // Workers

  lemma WorkerInv(cfg: Config, s: State, step: Step, s': State)
    requires Inv(cfg, s) && Next(cfg, s, step, s')
    requires step.Refresh? || step.StartSync? || step.SkipSync? || step.KeepSync? || step.FailSync?
    ensures Inv(cfg, s')
  {
  }

  lemma RemovalInv(cfg: Config, s: State, step: Step, s': State)
    requires Inv(cfg, s) && Next(cfg, s, step, s')
    requires step.StartRemove? || step.FailRemove?
    ensures Inv(cfg, s')
  {
    assert s'.control.obsolete + s'.removing == s.control.obsolete + s.removing;
  }

  lemma DoneInv(cfg: Config, s: State, item: WorkItem)
    requires Inv(cfg, s) && item in s.syncing
    requires s.syncing[item].Some? || HasIncoming(s.world.pending, item)
    ensures Inv(cfg, Done(s, item))
  {
  }

  lemma CreateSyncInv(cfg: Config, s: State, step: Step, s': State)
    requires Inv(cfg, s) && step.CreateSync? && Next(cfg, s, step, s')
    ensures Inv(cfg, s')
  {
    var nodeTopology := LabelMap(step.item.segment.entries);
    var info := Info(step.capacity, step.maximum, cfg.hasOwner);
    CreateInv(cfg, s, step.item.className, nodeTopology, true, info);
    var t := s.(world := s'.world);
    assert Incoming(t.world.pending, step.item, Fresh(s.world, step.item.className, nodeTopology));
    DoneInv(cfg, t, step.item);
  }

  lemma UpdateSyncInv(cfg: Config, s: State, step: Step, s': State)
    requires Inv(cfg, s) && step.UpdateSync? && Next(cfg, s, step, s')
    ensures Inv(cfg, s')
  {
    var o := s.syncing[step.item].value;
    EditInv(cfg, s, o.id, o.managed, Refreshed(cfg, o.info, step.capacity, step.maximum));
    DoneInv(cfg, s.(world := s'.world), step.item);
  }

  lemma FinishRemoveInv(cfg: Config, s: State, o: Object)
    requires Inv(cfg, s) && o in s.removing
    ensures Inv(cfg, RemoveDone(s, o))
  {
    var s' := RemoveDone(s, o);
    if o.id in s.world.api {
      DeleteInv(cfg, s, o.id);
    }
    forall x | x in Ids(s.control.obsolete + s.removing) && x != o.id
      ensures x in Ids(s'.control.obsolete + s'.removing)
    {
      var p :| p in s.control.obsolete + s.removing && p.id == x;
      assert p in s'.control.obsolete + s'.removing;
    }
  }

  // Deliveries

  /** Items are told apart by what they match. */
  lemma SameItem(cfg: Config, s: State, i: WorkItem, j: WorkItem, o: Object, p: Object)
    requires Desired(cfg, s.segments, s.classes, s.control.capacities.Keys)
    requires i in s.control.capacities && j in s.control.capacities
    requires Matches(i, o) && Matches(j, p) && o.id == p.id
    ensures i == j
  {
    assert i.segment in s.segments && j.segment in s.segments;
  }

  /** No object is held by two items. */
  lemma HeldOnce(cfg: Config, s: State, i: WorkItem, j: WorkItem, x: Identity)
    requires Inv(cfg, s) && Holds(s.control.capacities, i, x) && Holds(s.control.capacities, j, x)
    ensures i == j
  {
    SameItem(cfg, s, i, j, s.control.capacities[i].value, s.control.capacities[j].value);
  }

  /** The informer's view of x becomes ev: it is delivered now, or was and is repeated. */
  ghost predicate Shown(w: World, x: Identity, ev: Event, w': World) {
    && x in w.pending && (ev.Upsert? ==> ev.o.id == x)
    && ((w.pending[x] != [] && w.pending[x][0] == ev && w' == Passed(w, x)) ||
        (ev.Upsert? && x in w.delivered && w.delivered[x] == ev.o && w' == w))
  }

  /** What every delivery has to establish, given the new state of the controller. */
  ghost predicate ControlOk(s: State, c: Control, w: World) {
    && c.capacities.Keys == s.control.capacities.Keys
    && HeldOk(c.capacities, w.delivered)
    && Accounted(w, HeldIds(c.capacities), Ids(c.obsolete + s.removing))
    && Attended(c, s.syncing, w.pending)
  }

  lemma ShownIncoming(w: World, x: Identity, ev: Event, w': World, i: WorkItem)
    requires Shown(w, x, ev, w') && HasIncoming(w.pending, i)
    ensures HasIncoming(w'.pending, i) || (ev.Upsert? && ev.o.managed && Matches(i, ev.o))
  {
    var y :| y in w.pending && Incoming(w.pending, i, y);
    if y != x || w' == w {
      assert Incoming(w'.pending, i, y);
    }
  }

  lemma HeldIdsUpdated(capacities: map<WorkItem, Option<Object>>, i: WorkItem, o: Object)
    requires i in capacities && (capacities[i].Some? ==> capacities[i].value.id == o.id)
    ensures HeldIds(capacities[i := Some(o)]) == HeldIds(capacities) + {o.id}
  {
    var capacities' := capacities[i := Some(o)];
    forall x | x in HeldIds(capacities) ensures x in HeldIds(capacities') {
      var j :| j in capacities && capacities[j].Some? && capacities[j].value.id == x;
      assert j in capacities' && capacities'[j].Some? && capacities'[j].value.id == x;
    }
    assert i in capacities' && capacities'[i].Some? && capacities'[i].value.id == o.id;
  }

  lemma AcceptedHeld(cfg: Config, s: State, o: Object, i: WorkItem, w': World)
    requires Desired(cfg, s.segments, s.classes, s.control.capacities.Keys)
    requires HeldOk(s.control.capacities, s.world.delivered)
    requires w'.delivered == s.world.delivered[o.id := o] && o.managed
    requires i in s.control.capacities && Matches(i, o)
    ensures HeldOk(s.control.capacities[i := Some(o)], w'.delivered)
  {
    forall j | j in s.control.capacities && s.control.capacities[j].Some? && s.control.capacities[j].value.id == o.id
      ensures j == i
    {
      SameItem(cfg, s, i, j, o, s.control.capacities[j].value);
    }
  }

  lemma AcceptedAttended(cfg: Config, s: State, o: Object, i: WorkItem, w': World)
    requires Desired(cfg, s.segments, s.classes, s.control.capacities.Keys)
    requires Attended(s.control, s.syncing, s.world.pending)
    requires Shown(s.world, o.id, Upsert(o), w')
    requires i in s.control.capacities && Matches(i, o)
    ensures Attended(s.control.(capacities := s.control.capacities[i := Some(o)]), s.syncing, w'.pending)
  {
    forall j | j in s.control.capacities && j != i && HasIncoming(s.world.pending, j)
      ensures HasIncoming(w'.pending, j)
    {
      ShownIncoming(s.world, o.id, Upsert(o), w', j);
      if Matches(j, o) {
        SameItem(cfg, s, i, j, o, o);
      }
    }
  }

  lemma ShownDelivered(w: World, x: Identity, ev: Event, w': World)
    requires Shown(w, x, ev, w')
    ensures w'.api == w.api && w'.pending.Keys == w.pending.Keys
    ensures w'.delivered == match ev case Upsert(o) => w.delivered[x := o] case Gone => w.delivered - {x}
  {
  }

  /** A managed object that some item takes. */
  lemma AcceptedInv(cfg: Config, s: State, o: Object, i: WorkItem, w': World)
    requires Desired(cfg, s.segments, s.classes, s.control.capacities.Keys)
    requires HeldOk(s.control.capacities, s.world.delivered)
    requires Accounted(s.world, HeldIds(s.control.capacities), Ids(s.control.obsolete + s.removing))
    requires Attended(s.control, s.syncing, s.world.pending)
    requires Shown(s.world, o.id, Upsert(o), w') && o.managed && Accepts(s.control, i, o)
    ensures ControlOk(s, s.control.(capacities := s.control.capacities[i := Some(o)]), w')
  {
    ShownDelivered(s.world, o.id, Upsert(o), w');
    assert Matches(i, o);
    HeldIdsUpdated(s.control.capacities, i, o);
    AcceptedHeld(cfg, s, o, i, w');
    AcceptedAttended(cfg, s, o, i, w');
  }

  lemma ObsoleteHeld(c: Control, o: Object, w: World, w': World)
    requires HeldOk(c.capacities, w.delivered) && w'.delivered == w.delivered[o.id := o]
    requires forall i | i in c.capacities :: !Accepts(c, i, o)
    ensures HeldOk(c.capacities, w'.delivered)
  {
    forall i | i in c.capacities && c.capacities[i].Some? ensures c.capacities[i].value.id != o.id {
      assert !Accepts(c, i, o);
    }
  }

  lemma ObsoleteAttended(s: State, o: Object, w': World)
    requires Attended(s.control, s.syncing, s.world.pending) && Shown(s.world, o.id, Upsert(o), w')
    requires forall i | i in s.control.capacities :: !Accepts(s.control, i, o)
    ensures Attended(s.control.(obsolete := s.control.obsolete + {o}), s.syncing, w'.pending)
  {
    forall j | j in s.control.capacities && s.control.capacities[j].None? && HasIncoming(s.world.pending, j)
      ensures HasIncoming(w'.pending, j)
    {
      ShownIncoming(s.world, o.id, Upsert(o), w', j);
      assert !Accepts(s.control, j, o);
    }
  }

  /** A managed object that no item takes: it is queued for deletion. */
  lemma ObsoleteInv(s: State, o: Object, w': World)
    requires HeldOk(s.control.capacities, s.world.delivered)
    requires Accounted(s.world, HeldIds(s.control.capacities), Ids(s.control.obsolete + s.removing))
    requires Attended(s.control, s.syncing, s.world.pending)
    requires Shown(s.world, o.id, Upsert(o), w') && o.managed
    requires forall i | i in s.control.capacities :: !Accepts(s.control, i, o)
    ensures ControlOk(s, s.control.(obsolete := s.control.obsolete + {o}), w')
  {
    var c' := s.control.(obsolete := s.control.obsolete + {o});
    assert Ids(c'.obsolete + s.removing) == Ids(s.control.obsolete + s.removing) + {o.id};
    ShownDelivered(s.world, o.id, Upsert(o), w');
    ObsoleteHeld(s.control, o, s.world, w');
    ObsoleteAttended(s, o, w');
  }

  /** c' is c without x: the items that held it go without and are queued. */
  ghost predicate Dropped(c: Control, x: Identity, c': Control) {
    && c'.capacities.Keys == c.capacities.Keys && c'.obsolete == c.obsolete && c.refresh <= c'.refresh
    && forall i | i in c.capacities ::
         if Holds(c.capacities, i, x) then c'.capacities[i].None? && i in c'.refresh
         else c'.capacities[i] == c.capacities[i]
  }

  lemma DroppedIds(c: Control, x: Identity, c': Control)
    requires Dropped(c, x, c')
    ensures HeldIds(c.capacities) - {x} <= HeldIds(c'.capacities)
  {
    forall y | y in HeldIds(c.capacities) && y != x ensures y in HeldIds(c'.capacities) {
      var j :| j in c.capacities && c.capacities[j].Some? && c.capacities[j].value.id == y;
      assert j in c'.capacities && c'.capacities[j] == c.capacities[j];
    }
  }

  lemma DroppedHeld(
    c: Control, x: Identity, c': Control, delivered: map<Identity, Object>, delivered': map<Identity, Object>)
    requires HeldOk(c.capacities, delivered) && Dropped(c, x, c')
    requires forall y | y in delivered && y != x :: y in delivered' && delivered'[y] == delivered[y]
    ensures HeldOk(c'.capacities, delivered')
  {
    forall i | i in c'.capacities && c'.capacities[i].Some?
      ensures c'.capacities[i] == c.capacities[i] && c.capacities[i].value.id != x
    {
      assert !Holds(c.capacities, i, x);
    }
  }

  lemma DroppedAttended(s: State, x: Identity, ev: Event, c': Control, w': World)
    requires Attended(s.control, s.syncing, s.world.pending)
    requires Shown(s.world, x, ev, w') && (ev.Gone? || !ev.o.managed) && Dropped(s.control, x, c')
    ensures Attended(c', s.syncing, w'.pending)
  {
    forall j | HasIncoming(s.world.pending, j) ensures HasIncoming(w'.pending, j) {
      ShownIncoming(s.world, x, ev, w', j);
    }
  }

  /** An object that is lost to the controller. */
  lemma LostInv(s: State, x: Identity, ev: Event, c': Control, w': World)
    requires HeldOk(s.control.capacities, s.world.delivered)
    requires Accounted(s.world, HeldIds(s.control.capacities), Ids(s.control.obsolete + s.removing))
    requires Attended(s.control, s.syncing, s.world.pending)
    requires Shown(s.world, x, ev, w') && (ev.Gone? || !ev.o.managed)
    requires Dropped(s.control, x, c')
    ensures ControlOk(s, c', w')
  {
    ShownDelivered(s.world, x, ev, w');
    DroppedIds(s.control, x, c');
    DroppedHeld(s.control, x, c', s.world.delivered, w'.delivered);
    DroppedAttended(s, x, ev, c', w');
  }

  lemma DeletionDropped(cfg: Config, s: State, x: Identity, c': Control)
    requires Inv(cfg, s) && DeletionSeen(s.control, x, c')
    ensures Dropped(s.control, x, c')
  {
    forall i, j | i in Holders(s.control, x) && j in Holders(s.control, x) ensures i == j {
      HeldOnce(cfg, s, i, j, x);
    }
    assert forall j | j in s.control.capacities :: Holds(s.control.capacities, j, x) <==> j in Holders(s.control, x);
  }

  lemma UnmanagedDropped(c: Control, x: Identity)
    ensures Dropped(c, x, UnmanagedSeen(c, x))
  {
  }

  lemma HandledInv(cfg: Config, s: State, x: Identity, ev: Event, c': Control, w': World)
    requires Inv(cfg, s) && Shown(s.world, x, ev, w') && Handled(s.control, x, ev, c')
    ensures ControlOk(s, c', w')
  {
    if ev.Gone? {
      DeletionDropped(cfg, s, x, c');
      LostInv(s, x, ev, c', w');
    } else if !ev.o.managed {
      UnmanagedDropped(s.control, x);
      LostInv(s, x, ev, c', w');
    } else if exists i :: i in s.control.capacities && Accepts(s.control, i, ev.o) {
      var i :| i in s.control.capacities && Accepts(s.control, i, ev.o) &&
               c' == s.control.(capacities := s.control.capacities[i := Some(ev.o)]);
      AcceptedInv(cfg, s, ev.o, i, w');
    } else {
      ObsoleteInv(s, ev.o, w');
    }
  }

  lemma PassedRead(w: World, x: Identity, o: Object)
    requires x in w.pending && w.pending[x] != [] && ChannelOk(w, x) && WasDelivered(w, o)
    ensures WasDelivered(Passed(w, x), o)
  {
  }

  lemma PassedReads(s: State, x: Identity)
    requires WorldOk(s.world) && ReadsOk(s.syncing, s.world) && x in s.world.pending && s.world.pending[x] != []
    ensures ReadsOk(s.syncing, Passed(s.world, x))
  {
    assert ChannelOk(s.world, x);
    forall i | i in s.syncing && s.syncing[i].Some? ensures WasDelivered(Passed(s.world, x), s.syncing[i].value) {
      PassedRead(s.world, x, s.syncing[i].value);
    }
  }

  lemma DeliveryInv(cfg: Config, s: State, step: Step, s': State)
    requires Inv(cfg, s) && (step.Deliver? || step.Resync?) && Next(cfg, s, step, s')
    ensures Inv(cfg, s')
  {
    var x := step.x;
    if step.Deliver? {
      assert ChannelOk(s.world, x);
      PassedInv(s.world, x);
      PassedReads(s, x);
      HandledInv(cfg, s, x, s.world.pending[x][0], s'.control, s'.world);
    } else {
      HandledInv(cfg, s, x, Upsert(s.world.delivered[x]), s'.control, s'.world);
    }
  }

  /** Every step keeps the invariant. */
  lemma NextInv(cfg: Config, s: State, step: Step, s': State)
    requires Inv(cfg, s) && Next(cfg, s, step, s')
    ensures Inv(cfg, s')
  {
    match step
    case TopologyChange(_, _) => TopologyChangeInv(cfg, s, step, s');
    case ClassSet(_) => ClassInv(cfg, s, step, s');
    case ClassDelete(_) => ClassInv(cfg, s, step, s');
    case ForeignCreate(className, nodeTopology, managed, info) =>
      CreateInv(cfg, s, className, nodeTopology, managed, info);
    case ForeignEdit(x, managed, info) => EditInv(cfg, s, x, managed, info);
    case ForeignDelete(x) => DeleteInv(cfg, s, x);
    case CreateSync(_, _, _) => CreateSyncInv(cfg, s, step, s');
    case UpdateSync(_, _, _) => UpdateSyncInv(cfg, s, step, s');
    case StartRemove(_) => RemovalInv(cfg, s, step, s');
    case FailRemove(_) => RemovalInv(cfg, s, step, s');
    case FinishRemove(o) => FinishRemoveInv(cfg, s, o);
    case Deliver(_) => DeliveryInv(cfg, s, step, s');
    case Resync(_) => DeliveryInv(cfg, s, step, s');
    case _ => WorkerInv(cfg, s, step, s');
  }

  lemma {:induction false} RunInv(cfg: Config, states: seq<State>, steps: seq<Step>, k: nat)
    requires Run(cfg, states, steps) && k < |states|
    ensures Inv(cfg, states[k])
  {
    if k == 0 {
      InitInv(cfg, states[0]);
    } else {
      RunInv(cfg, states, steps, k - 1);
      assert Next(cfg, states[k - 1], steps[k - 1], states[k - 1 + 1]);
      NextInv(cfg, states[k - 1], steps[k - 1], states[k]);
    }
  }

  // At rest

  ghost predicate Quiescent(s: State) {
    && s.control.refresh == {} && s.control.obsolete == {} && s.syncing == map[] && s.removing == {}
    && forall x | x in s.world.pending :: s.world.pending[x] == []
  }

  /** The object that the API server has for an item. */
  ghost predicate ServedBy(s: State, i: WorkItem, o: Object) {
    o.id in s.world.api && s.world.api[o.id] == o && o.managed && Matches(i, o)
  }

  /**
   Managed objects and desired items are in bijection: each item is served by exactly one
   object, and each managed object serves exactly one item.
   */
  ghost predicate Settled(cfg: Config, s: State) {
    && s.control.capacities.Keys == Items(s.segments, ClassNames(cfg, s.classes))
    && (forall i | i in s.control.capacities ::
          && s.control.capacities[i].Some? && ServedBy(s, i, s.control.capacities[i].value)
          && forall x | x in s.world.api && ServedBy(s, i, s.world.api[x]) ::
               s.world.api[x] == s.control.capacities[i].value)
    && (forall x | x in s.world.api && s.world.api[x].managed ::
          exists i :: i in s.control.capacities && s.control.capacities[i] == Some(s.world.api[x]))
    && (forall i, j, o | i in s.control.capacities && j in s.control.capacities ::
          ServedBy(s, i, o) && ServedBy(s, j, o) ==> i == j)
  }

  lemma QuiescentView(w: World, x: Identity)
    requires WorldOk(w) && x in w.pending && w.pending[x] == []
    ensures Lookup(w.delivered, x) == Lookup(w.api, x)
  {
    assert ChannelOk(w, x);
  }

  lemma QuiescentItem(cfg: Config, s: State, i: WorkItem)
    requires Inv(cfg, s) && Quiescent(s) && i in s.control.capacities
    ensures s.control.capacities[i].Some? && ServedBy(s, i, s.control.capacities[i].value)
  {
    assert !HasIncoming(s.world.pending, i);
    QuiescentView(s.world, s.control.capacities[i].value.id);
  }

  lemma QuiescentObject(cfg: Config, s: State, x: Identity) returns (i: WorkItem)
    requires Inv(cfg, s) && Quiescent(s) && x in s.world.api && s.world.api[x].managed
    ensures i in s.control.capacities && s.control.capacities[i] == Some(s.world.api[x])
  {
    QuiescentView(s.world, x);
    assert Ids(s.control.obsolete + s.removing) == {};
    assert x in HeldIds(s.control.capacities);
    i :| i in s.control.capacities && s.control.capacities[i].Some? && s.control.capacities[i].value.id == x;
  }

  lemma QuiescentUnique(cfg: Config, s: State, i: WorkItem, x: Identity)
    requires Inv(cfg, s) && Quiescent(s) && i in s.control.capacities && x in s.world.api
    requires ServedBy(s, i, s.world.api[x])
    ensures s.control.capacities[i] == Some(s.world.api[x])
  {
    var j := QuiescentObject(cfg, s, x);
    SameItem(cfg, s, i, j, s.world.api[x], s.world.api[x]);
  }

  lemma QuiescentSettled(cfg: Config, s: State)
    requires Inv(cfg, s) && Quiescent(s)
    ensures Settled(cfg, s)
  {
    forall i | i in s.control.capacities
      ensures s.control.capacities[i].Some? && ServedBy(s, i, s.control.capacities[i].value)
    {
      QuiescentItem(cfg, s, i);
    }
    forall x | x in s.world.api && s.world.api[x].managed
      ensures exists i :: i in s.control.capacities && s.control.capacities[i] == Some(s.world.api[x])
    {
      var i := QuiescentObject(cfg, s, x);
    }
    forall i, x | i in s.control.capacities && x in s.world.api && ServedBy(s, i, s.world.api[x])
      ensures s.world.api[x] == s.control.capacities[i].value
    {
      QuiescentUnique(cfg, s, i, x);
    }
    forall i, j, o | i in s.control.capacities && j in s.control.capacities && ServedBy(s, i, o) && ServedBy(s, j, o)
      ensures i == j
    {
      SameItem(cfg, s, i, j, o, o);
    }
  }

  /** In every run, whenever nothing is queued, in progress or undelivered, all is settled. */
  lemma RunSettles(cfg: Config, states: seq<State>, steps: seq<Step>, k: nat)
    requires Run(cfg, states, steps) && k < |states| && Quiescent(states[k])
    ensures Settled(cfg, states[k])
  {
    RunInv(cfg, states, steps, k);
    QuiescentSettled(cfg, states[k]);
  }

  /** At rest the counters agree: current equals goal, and no listed object is obsolete. */
  lemma RunCounters(cfg: Config, states: seq<State>, steps: seq<Step>, k: nat)
    requires Run(cfg, states, steps) && k < |states| && Quiescent(states[k])
    ensures var s := states[k];
            && (set i | i in s.control.capacities && s.control.capacities[i].Some?) == s.control.capacities.Keys
            && forall x | x in s.world.delivered :: !IsObsolete(s.control.capacities, s.world.delivered[x])
  {
    var s := states[k];
    RunInv(cfg, states, steps, k);
    forall i | i in s.control.capacities ensures s.control.capacities[i].Some? {
      QuiescentItem(cfg, s, i);
    }
    forall x | x in s.world.delivered && s.world.delivered[x].managed
      ensures exists i :: i in s.control.capacities && Matches(i, s.world.delivered[x])
    {
      QuiescentView(s.world, x);
      var i := QuiescentObject(cfg, s, x);
      QuiescentItem(cfg, s, i);
    }
  }

  // Deletions of objects that are not managed any more

  /** A deletion is queued or in progress for an object that was last delivered as unmanaged. */
  predicate Stray(s: State, o: Object) {
    o in s.control.obsolete + s.removing && o.id in s.world.delivered && !s.world.delivered[o.id].managed
  }

  lemma RemovedHeld(c: Control, items: set<WorkItem>, delivered: map<Identity, Object>, o: Object)
    requires HeldOk(c.capacities, delivered) && o in Removed(c, items).obsolete && o !in c.obsolete
    ensures o.managed && o.id in delivered && delivered[o.id] == o
  {
    assert o in HeldObjects(c, items);
  }

  lemma QueuedByRemoval(cfg: Config, s: State, step: Step, s': State, o: Object)
    requires HeldOk(s.control.capacities, s.world.delivered) && (step.TopologyChange? || step.ClassDelete?) &&
             Next(cfg, s, step, s')
    requires o in s'.control.obsolete && o !in s.control.obsolete
    ensures o.managed && o.id in s'.world.delivered && s'.world.delivered[o.id] == o
  {
    if step.TopologyChange? {
      var names := ClassNames(cfg, s.classes);
      RemovedHeld(Added(s.control, Items(step.added, names)), Items(step.removed, names), s.world.delivered, o);
    } else {
      RemovedHeld(s.control, Items(s.segments, {step.name}), s.world.delivered, o);
    }
  }

  lemma QueuedByEvent(c: Control, x: Identity, ev: Event, c': Control, o: Object)
    requires Handled(c, x, ev, c') && o in c'.obsolete && o !in c.obsolete
    ensures ev == Upsert(o) && o.managed
  {
  }

  lemma QueuedByDelivery(cfg: Config, s: State, step: Step, s': State, o: Object)
    requires WorldOk(s.world) && (step.Deliver? || step.Resync?) && Next(cfg, s, step, s')
    requires o in s'.control.obsolete && o !in s.control.obsolete
    ensures o.managed && o.id in s'.world.delivered && s'.world.delivered[o.id] == o
  {
    if step.Deliver? {
      QueuedByEvent(s.control, step.x, s.world.pending[step.x][0], s'.control, o);
      assert ChannelOk(s.world, step.x);
    } else {
      QueuedByEvent(s.control, step.x, Upsert(s.world.delivered[step.x]), s'.control, o);
    }
  }

  /** Deletions are queued for the version last delivered, and only if that is managed. */
  lemma QueuedForManaged(cfg: Config, s: State, step: Step, s': State, o: Object)
    requires Inv(cfg, s) && Next(cfg, s, step, s')
    requires o in s'.control.obsolete + s'.removing && o !in s.control.obsolete + s.removing
    ensures o.managed && o.id in s'.world.delivered && s'.world.delivered[o.id] == o
  {
    match step {
      case TopologyChange(_, _) => QueuedByRemoval(cfg, s, step, s', o);
      case ClassDelete(_) => QueuedByRemoval(cfg, s, step, s', o);
      case Deliver(_) => QueuedByDelivery(cfg, s, step, s', o);
      case Resync(_) => QueuedByDelivery(cfg, s, step, s', o);
      case _ =>
    }
  }

  /**
   A deletion becomes stray exactly when the relabelled object is delivered while the
   deletion is queued or in progress: the handler does not take it back.
   */
  lemma StrayExactlyWhen(cfg: Config, s: State, step: Step, s': State, o: Object)
    requires Inv(cfg, s) && Next(cfg, s, step, s') && !Stray(s, o)
    ensures Stray(s', o) <==>
              && step == Deliver(o.id) && o in s.control.obsolete + s.removing
              && s.world.pending[o.id][0].Upsert? && !s.world.pending[o.id][0].o.managed
  {
    if o in s'.control.obsolete + s'.removing && o !in s.control.obsolete + s.removing {
      QueuedForManaged(cfg, s, step, s', o);
    }
    if step == Deliver(o.id) {
      assert ChannelOk(s.world, o.id);
    }
  }

  // A run in which that happens: an object of no item is queued for deletion and then relabelled.

  const RELABELLED := Identity(0, "sc", map[])

  function Version(n: nat): Object {
    Object(RELABELLED, n, n == 0, Info(1, None, false))
  }

  function RelabelState(obsolete: set<Object>, removing: set<Object>, w: World): State {
    State({}, map[], Control(map[], {}, obsolete), map[], removing, w)
  }

  function RelabelRun(): seq<State> {
    var x := RELABELLED;
    var w0 := World(map[x := Version(0)], map[x := [Upsert(Version(0))]], map[], [x], 1);
    var w1 := World(map[x := Version(0)], map[x := []], map[x := Version(0)], [x], 1);
    var w2 := World(map[x := Version(1)], map[x := [Upsert(Version(1))]], map[x := Version(0)], [x], 2);
    var w3 := World(map[x := Version(1)], map[x := []], map[x := Version(1)], [x], 2);
    var w5 := World(map[], map[x := [Gone]], map[x := Version(1)], [x], 2);
    [RelabelState({}, {}, w0), RelabelState({Version(0)}, {}, w1), RelabelState({Version(0)}, {}, w2),
     RelabelState({Version(0)}, {}, w3), RelabelState({}, {Version(0)}, w3), RelabelState({}, {}, w5)]
  }

  lemma RelabelSteps(cfg: Config)
    ensures Next(cfg, RelabelRun()[0], Deliver(RELABELLED), RelabelRun()[1])
    ensures Next(cfg, RelabelRun()[1], ForeignEdit(RELABELLED, false, Info(1, None, false)), RelabelRun()[2])
    ensures Next(cfg, RelabelRun()[3], StartRemove(Version(0)), RelabelRun()[4])
  {
    var x := RELABELLED;
    var r := RelabelRun();
    assert Passed(r[0].world, x) == r[1].world;
    assert r[1].world.pending[x] + [Upsert(Version(1))] == [Upsert(Version(1))];
    assert Edited(r[1].world, x, false, Info(1, None, false)).pending == r[2].world.pending;
  }

  lemma RelabelSteps'(cfg: Config)
    ensures Next(cfg, RelabelRun()[2], Deliver(RELABELLED), RelabelRun()[3])
    ensures Next(cfg, RelabelRun()[4], FinishRemove(Version(0)), RelabelRun()[5])
  {
    var x := RELABELLED;
    var r := RelabelRun();
    assert Passed(r[2].world, x) == r[3].world;
    assert UnmanagedSeen(r[2].control, x) == r[3].control;
    assert r[4].world.pending[x] + [Gone] == [Gone];
    assert Deleted(r[4].world, x).pending == r[5].world.pending;
    assert Deleted(r[4].world, x).api == r[5].world.api;
  }

  /** So a run can delete an object after the informer has told that it is not managed. */
  lemma RelabelledObjectIsDeleted(cfg: Config) returns (states: seq<State>, steps: seq<Step>, o: Object)
    ensures Run(cfg, states, steps) && |steps| == 5
    ensures Stray(states[4], o) && o.id in states[4].world.api && steps[4] == FinishRemove(o)
    ensures o.id !in states[5].world.api
  {
    states, o := RelabelRun(), Version(0);
    steps := [Deliver(RELABELLED), ForeignEdit(RELABELLED, false, Info(1, None, false)), Deliver(RELABELLED),
              StartRemove(o), FinishRemove(o)];
    RelabelSteps(cfg);
    RelabelSteps'(cfg);
    forall k | 0 <= k < 5 ensures Next(cfg, states[k], steps[k], states[k + 1]) {
      if k == 0 {} else if k == 1 {} else if k == 2 {} else if k == 3 {} else {}
    }
  }
}
