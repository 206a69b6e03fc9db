/**
 Why the capacity controller comes to rest: when nobody else interferes, each step of the
 workers and the informer decreases a weight, and there is a next step until all is settled.
 */
module CapacityDrain {
  import opened Orders
  import opened Segments
  import opened CapacityModel
  import opened CapacityRuns

  /** The worker's read is out of date and the informer has already said so. */
  predicate Superseded(s: State, item: WorkItem) {
    && item in s.syncing && s.syncing[item].Some?
    && (item !in s.control.capacities || s.control.capacities[item] != s.syncing[item])
  }

  /**
   Steps without outside interference. The only calls that fail are updates by workers whose
   read is superseded, which cannot succeed in general.
   */
  predicate DrainStep(s: State, step: Step) {
    match step
    case StartSync(_) => true
    case SkipSync(_) => true
    case CreateSync(_, _, _) => true
    case KeepSync(_, _, _) => true
    case UpdateSync(_, _, _) => true
    case FailSync(item) => Superseded(s, item)
    case StartRemove(_) => true
    case FinishRemove(_) => true
    case Deliver(_) => true
    case _ => false
  }

  // How often an object can still be lost by its item

  /**
   The most often that an object can go from held to not held, given its undelivered events.
   doomed: a deletion of it is queued or in progress. again: a worker can still update it.
   */
  function Losses(held: bool, events: seq<Event>, doomed: bool, again: bool): nat
    decreases |events|
  {
    if events == [] then (if (held || again) && doomed then 1 else 0)
    else match events[0]
         case Gone => if held then 1 else 0
         case Upsert(o) =>
           if !o.managed then (if held then 1 else 0) + Losses(false, events[1..], doomed, again)
           else if held then Losses(true, events[1..], doomed, again)
           else Max(Losses(true, events[1..], doomed, again), Losses(false, events[1..], true, again))
  }

  function Max(a: nat, b: nat): nat {
    if a < b then b else a
  }

  lemma {:induction false} LossesMonotone(
    held: bool, events: seq<Event>, doomed: bool, again: bool, doomed': bool, again': bool)
    requires (doomed' ==> doomed) && (again' ==> again)
    ensures Losses(held, events, doomed', again') <= Losses(held, events, doomed, again)
    decreases |events|
  {
    if events != [] {
      LossesMonotone(true, events[1..], doomed, again, doomed', again');
      LossesMonotone(false, events[1..], doomed, again, doomed', again');
      LossesMonotone(false, events[1..], true, again, true, again');
    }
  }

  lemma {:induction false} LossesGone(held: bool, events: seq<Event>, doomed: bool, again: bool, again': bool)
    requires forall k | 0 <= k < |events| :: events[k].Upsert?
    ensures Losses(held, events + [Gone], doomed, again') <= Losses(held, events, true, again)
    decreases |events|
  {
    if events != [] {
      assert (events + [Gone])[1..] == events[1..] + [Gone];
      LossesGone(true, events[1..], doomed, again, again');
      LossesGone(false, events[1..], doomed, again, again');
      LossesGone(false, events[1..], true, again, again');
    }
  }

  // The weight

  function Weigh(held: bool, events: seq<Event>, doomed: bool, again: bool, live: bool): nat {
    12 * Losses(held, events, doomed, again) + 5 * |events| + if live then 5 else 0
  }

  predicate Doomed(s: State, x: Identity) {
    x in s.world.api && x in Ids(s.control.obsolete + s.removing)
  }

  /** Objects that some worker can still update. */
  function AgainIds(syncing: map<WorkItem, Option<Object>>, w: World): set<Identity> {
    set i | i in syncing && syncing[i].Some? && Current(w, syncing[i].value) :: syncing[i].value.id
  }

  function Weight(s: State, x: Identity): nat
    requires x in s.world.pending
  {
    var again := x in AgainIds(s.syncing, s.world);
    Weigh(x in HeldIds(s.control.capacities), s.world.pending[x], Doomed(s, x), again, x in s.world.api)
  }

  ghost function Weights(s: State): seq<nat>
    requires WellNamed(s.world)
  {
    seq(|s.world.known|, k requires 0 <= k < |s.world.known| => Weight(s, s.world.known[k]))
  }

  function Sum(ws: seq<nat>): nat {
    if ws == [] then 0 else Sum(ws[..|ws| - 1]) + ws[|ws| - 1]
  }

  function SupersededItems(s: State): set<WorkItem> {
    set i | i in s.syncing && Superseded(s, i)
  }

  function QueueWeight(s: State): nat {
    12 * |s.control.refresh| + 11 * |s.syncing| + 2 * |SupersededItems(s)| + 2 * |s.control.obsolete| + |s.removing|
  }

  ghost function Measure(s: State): nat
    requires WellNamed(s.world)
  {
    Sum(Weights(s)) + QueueWeight(s)
  }

  lemma {:induction false} SumChange(a: seq<nat>, b: seq<nat>, j: nat, delta: int)
    requires |a| == |b| && (j < |a| ==> b[j] <= a[j] + delta)
    requires forall k | 0 <= k < |a| && k != j :: b[k] <= a[k]
    ensures Sum(b) <= Sum(a) + if j < |a| then delta else 0
  {
    if a != [] {
      SumChange(a[..|a| - 1], b[..|b| - 1], j, delta);
    }
  }

  /** Only x changes its weight, by at most delta. */
  lemma WeightsChange(s: State, s': State, x: Identity, delta: int)
    requires WellNamed(s.world) && WellNamed(s'.world) && s'.world.known == s.world.known && x in s.world.pending
    requires Weight(s', x) <= Weight(s, x) + delta
    requires forall y | y in s.world.pending && y != x :: Weight(s', y) <= Weight(s, y)
    ensures Sum(Weights(s')) <= Sum(Weights(s)) + delta
  {
    SumChange(Weights(s), Weights(s'), x.uid, delta);
  }

  /** No object gains weight. */
  lemma WeightsShrink(s: State, s': State)
    requires WellNamed(s.world) && WellNamed(s'.world) && s'.world.known == s.world.known
    requires forall y | y in s.world.pending :: Weight(s', y) <= Weight(s, y)
    ensures Sum(Weights(s')) <= Sum(Weights(s))
  {
    SumChange(Weights(s), Weights(s'), |s.world.known|, 0);
  }

  lemma SameWeight(s: State, s': State, y: Identity)
    requires y in s.world.pending && y in s'.world.pending && s'.world.pending[y] == s.world.pending[y]
    requires y in s'.world.api <==> y in s.world.api
    requires y in HeldIds(s'.control.capacities) <==> y in HeldIds(s.control.capacities)
    requires (Doomed(s', y) ==> Doomed(s, y)) &&
             (y in AgainIds(s'.syncing, s'.world) ==> y in AgainIds(s.syncing, s.world))
    ensures Weight(s', y) <= Weight(s, y)
  {
    var again, again' := y in AgainIds(s.syncing, s.world), y in AgainIds(s'.syncing, s'.world);
    LossesMonotone(y in HeldIds(s.control.capacities), s.world.pending[y], Doomed(s, y), again, Doomed(s', y), again');
  }

  /** A read that is current is the delivered version, and nothing is undelivered. */
  lemma CurrentRead(w: World, o: Object)
    requires WorldOk(w) && WasDelivered(w, o) && Current(w, o)
    ensures w.pending[o.id] == [] && o.id in w.delivered && w.delivered[o.id] == o && w.api[o.id] == o
  {
    assert ChannelOk(w, o.id);
  }

  lemma AgainShrinks(
    syncing: map<WorkItem, Option<Object>>, w: World, syncing': map<WorkItem, Option<Object>>, w': World, y: Identity)
    requires forall i | i in syncing' :: i in syncing && syncing'[i] == syncing[i]
    requires y in w'.pending ==> y in w.pending
    requires y in w'.api ==> y in w.api && w'.api[y].version == w.api[y].version
    ensures y in AgainIds(syncing', w') ==> y in AgainIds(syncing, w)
  {
    if y in AgainIds(syncing', w') {
      var i :| i in syncing' && syncing'[i].Some? && Current(w', syncing'[i].value) && syncing'[i].value.id == y;
      assert Current(w, syncing[i].value);
    }
  }

  // Starting and finishing an item

  /** A worker that starts can update an object only if its item holds that object. */
  lemma StartSyncAgain(s: State, item: WorkItem, y: Identity)
    requires item !in s.syncing && y in AgainIds(Started(s, item).syncing, s.world) &&
             y !in AgainIds(s.syncing, s.world)
    ensures Holds(s.control.capacities, item, y) && Current(s.world, s.control.capacities[item].value)
  {
    var s' := Started(s, item);
    var i :| i in s'.syncing && s'.syncing[i].Some? && Current(s.world, s'.syncing[i].value) &&
        s'.syncing[i].value.id == y;
    assert i == item;
  }

  lemma StartSyncHeld(s: State, item: WorkItem, y: Identity)
    requires WorldOk(s.world) && y in s.world.pending && s.world.pending[y] == []
    requires Holds(s.control.capacities, item, y)
    ensures Weight(Started(s, item), y) <= Weight(s, y)
  {
    assert y in HeldIds(s.control.capacities);
  }

  lemma StartSyncWeight(s: State, item: WorkItem, y: Identity)
    requires WorldOk(s.world) && HeldOk(s.control.capacities, s.world.delivered)
    requires item !in s.syncing && y in s.world.pending
    ensures Weight(Started(s, item), y) <= Weight(s, y)
  {
    if y in AgainIds(Started(s, item).syncing, s.world) && y !in AgainIds(s.syncing, s.world) {
      StartSyncAgain(s, item, y);
      CurrentRead(s.world, s.control.capacities[item].value);
      StartSyncHeld(s, item, y);
    } else {
      SameWeight(s, Started(s, item), y);
    }
  }

  lemma StartSyncQueue(s: State, item: WorkItem)
    requires item in s.control.refresh && item !in s.syncing
    ensures QueueWeight(Started(s, item)) < QueueWeight(s)
  {
    var s' := Started(s, item);
    if item in s.control.capacities {
      assert s'.syncing.Keys == s.syncing.Keys + {item};
      assert |s'.syncing| == |s'.syncing.Keys| && |s.syncing| == |s.syncing.Keys|;
    }
    assert SupersededItems(s') == SupersededItems(s);
  }

  lemma StartSyncDecreases(cfg: Config, s: State, item: WorkItem)
    requires Inv(cfg, s) && item in s.control.refresh && item !in s.syncing
    ensures Measure(Started(s, item)) < Measure(s)
  {
    forall y | y in s.world.pending ensures Weight(Started(s, item), y) <= Weight(s, y) {
      StartSyncWeight(s, item, y);
    }
    WeightsShrink(s, Started(s, item));
    StartSyncQueue(s, item);
  }

  lemma DoneWeight(s: State, item: WorkItem, y: Identity)
    requires y in s.world.pending
    ensures Weight(Done(s, item), y) <= Weight(s, y)
  {
    AgainShrinks(s.syncing, s.world, Done(s, item).syncing, s.world, y);
    SameWeight(s, Done(s, item), y);
  }

  lemma DoneQueue(s: State, item: WorkItem)
    requires item in s.syncing
    ensures QueueWeight(Done(s, item)) <= QueueWeight(s) - 11
    ensures Superseded(s, item) ==> QueueWeight(Done(s, item)) <= QueueWeight(s) - 13
    ensures QueueWeight(Requeued(s, item)) <= QueueWeight(Done(s, item)) + 12
  {
    var s' := Done(s, item);
    assert s'.syncing.Keys == s.syncing.Keys - {item};
    assert |s'.syncing| == |s'.syncing.Keys| && |s.syncing| == |s.syncing.Keys|;
    assert SupersededItems(s') == SupersededItems(s) - {item};
    assert SupersededItems(Requeued(s, item)) == SupersededItems(s');
  }

  lemma DoneDecreases(s: State, item: WorkItem)
    requires WellNamed(s.world) && item in s.syncing
    ensures Measure(Done(s, item)) <= Measure(s) - 11
    ensures Superseded(s, item) ==> Measure(Requeued(s, item)) < Measure(s)
  {
    forall y | y in s.world.pending ensures Weight(Done(s, item), y) <= Weight(s, y) {
      DoneWeight(s, item, y);
    }
    WeightsShrink(s, Done(s, item));
    DoneQueue(s, item);
    assert Weights(Requeued(s, item)) == Weights(Done(s, item));
  }

  // Creating and updating

  lemma FreshWeight(s: State, className: string, nodeTopology: map<string, string>, info: Info)
    requires WorldOk(s.world) && HeldOk(s.control.capacities, s.world.delivered) && ReadsOk(s.syncing, s.world)
    requires Ids(s.control.obsolete + s.removing) <= s.world.pending.Keys
    ensures var s' := s.(world := Created(s.world, className, nodeTopology, true, info));
            Weight(s', Fresh(s.world, className, nodeTopology)) == 10
  {
    var s' := s.(world := Created(s.world, className, nodeTopology, true, info));
    var x := Fresh(s.world, className, nodeTopology);
    CreatedInv(s.world, className, nodeTopology, true, info);
    assert x !in HeldIds(s.control.capacities);
    assert x !in AgainIds(s.syncing, s'.world);
    assert s'.world.pending[x][1..] == [];
    assert Losses(false, s'.world.pending[x], false, false) == 0;
  }

  lemma CreatedOtherWeight(s: State, className: string, nodeTopology: map<string, string>, info: Info, y: Identity)
    requires WorldOk(s.world) && y in s.world.pending
    ensures Weight(s.(world := Created(s.world, className, nodeTopology, true, info)), y) <= Weight(s, y)
  {
    var s' := s.(world := Created(s.world, className, nodeTopology, true, info));
    CreatedInv(s.world, className, nodeTopology, true, info);
    AgainShrinks(s.syncing, s.world, s.syncing, s'.world, y);
    SameWeight(s, s', y);
  }

  lemma CreateDecreases(s: State, className: string, nodeTopology: map<string, string>, info: Info)
    requires WorldOk(s.world) && HeldOk(s.control.capacities, s.world.delivered) && ReadsOk(s.syncing, s.world)
    requires Ids(s.control.obsolete + s.removing) <= s.world.pending.Keys
    ensures var s' := s.(world := Created(s.world, className, nodeTopology, true, info));
            WellNamed(s'.world) && Measure(s') <= Measure(s) + 10
  {
    var s' := s.(world := Created(s.world, className, nodeTopology, true, info));
    var x := Fresh(s.world, className, nodeTopology);
    CreatedInv(s.world, className, nodeTopology, true, info);
    forall y | y in s.world.pending ensures Weight(s', y) <= Weight(s, y) {
      CreatedOtherWeight(s, className, nodeTopology, info, y);
    }
    FreshWeight(s, className, nodeTopology, info);
    CreatedSum(s, s', x);
    SameQueue(s, s'.world);
  }

  lemma CreatedSum(s: State, s': State, x: Identity)
    requires WellNamed(s.world) && WellNamed(s'.world) && s'.world.known == s.world.known + [x]
    requires x in s'.world.pending && Weight(s', x) == 10
    requires forall y | y in s.world.pending :: y in s'.world.pending && Weight(s', y) <= Weight(s, y)
    ensures Sum(Weights(s')) <= Sum(Weights(s)) + 10
  {
    var n := |s.world.known|;
    forall k | 0 <= k < n ensures Weights(s')[..n][k] <= Weights(s)[k] {
      assert s'.world.known[k] == s.world.known[k];
    }
    SumChange(Weights(s), Weights(s')[..n], n, 0);
  }

  /** After an update no worker has the current version. */
  lemma UpdatedNotAgain(s: State, x: Identity, managed: bool, info: Info)
    requires WorldOk(s.world) && ReadsOk(s.syncing, s.world) && x in s.world.api
    ensures x !in AgainIds(s.syncing, Edited(s.world, x, managed, info))
  {
    assert ChannelOk(s.world, x);
    forall i | i in s.syncing && s.syncing[i].Some? && s.syncing[i].value.id == x
      ensures !Current(Edited(s.world, x, managed, info), s.syncing[i].value)
    {
      assert WasDelivered(s.world, s.syncing[i].value);
    }
  }

  lemma UpdatedWeight(s: State, item: WorkItem, info: Info)
    requires WorldOk(s.world) && ReadsOk(s.syncing, s.world)
    requires item in s.syncing && s.syncing[item].Some? && Current(s.world, s.syncing[item].value)
    ensures var o := s.syncing[item].value;
            Weight(Done(s, item).(world := Edited(s.world, o.id, o.managed, info)), o.id) <= Weight(s, o.id) + 5
  {
    var o := s.syncing[item].value;
    var s' := Done(s, item).(world := Edited(s.world, o.id, o.managed, info));
    CurrentRead(s.world, o);
    UpdatedNotAgain(Done(s, item), o.id, o.managed, info);
    assert o.id in AgainIds(s.syncing, s.world);
    UpdatedLosses(o.id in HeldIds(s.control.capacities), s'.world.pending[o.id], Doomed(s, o.id));
  }

  lemma UpdatedLosses(held: bool, events: seq<Event>, doomed: bool)
    requires |events| == 1 && events[0].Upsert? && events[0].o.managed
    ensures Losses(held, events, doomed, false) <= Losses(held, [], doomed, true)
  {
    assert events[1..] == [];
  }

  lemma UpdatedOtherWeight(s: State, item: WorkItem, x: Identity, managed: bool, info: Info, y: Identity)
    requires x in s.world.api && x in s.world.pending && y in s.world.pending && y != x
    ensures Weight(Done(s, item).(world := Edited(s.world, x, managed, info)), y) <= Weight(s, y)
  {
    var s' := Done(s, item).(world := Edited(s.world, x, managed, info));
    AgainShrinks(s.syncing, s.world, s'.syncing, s'.world, y);
    SameWeight(s, s', y);
  }

  lemma UpdatedSum(s: State, item: WorkItem, info: Info)
    requires WorldOk(s.world) && ReadsOk(s.syncing, s.world)
    requires item in s.syncing && s.syncing[item].Some? && Current(s.world, s.syncing[item].value)
    ensures var o := s.syncing[item].value;
            var s' := Done(s, item).(world := Edited(s.world, o.id, o.managed, info));
            WellNamed(s'.world) && Sum(Weights(s')) <= Sum(Weights(s)) + 5
  {
    var o := s.syncing[item].value;
    var s' := Done(s, item).(world := Edited(s.world, o.id, o.managed, info));
    EditedInv(s.world, o.id, o.managed, info);
    UpdatedWeight(s, item, info);
    forall y | y in s.world.pending && y != o.id ensures Weight(s', y) <= Weight(s, y) {
      UpdatedOtherWeight(s, item, o.id, o.managed, info, y);
    }
    WeightsChange(s, s', o.id, 5);
  }

  lemma UpdateDecreases(s: State, item: WorkItem, info: Info)
    requires WorldOk(s.world) && ReadsOk(s.syncing, s.world)
    requires item in s.syncing && s.syncing[item].Some? && Current(s.world, s.syncing[item].value)
    ensures var o := s.syncing[item].value;
            var s' := Done(s, item).(world := Edited(s.world, o.id, o.managed, info));
            WellNamed(s'.world) && Measure(s') < Measure(s)
  {
    UpdatedSum(s, item, info);
    DoneQueue(s, item);
    var o := s.syncing[item].value;
    SameQueue(Done(s, item), Edited(s.world, o.id, o.managed, info));
  }

  lemma SameQueue(s: State, w: World)
    ensures QueueWeight(s.(world := w)) == QueueWeight(s)
  {
    assert SupersededItems(s.(world := w)) == SupersededItems(s);
  }

  // Deleting

  lemma StartRemoveDecreases(s: State, o: Object, s': State)
    requires WellNamed(s.world) && o in s.control.obsolete && o !in s.removing
    requires s' == s.(control := s.control.(obsolete := s.control.obsolete - {o}), removing := s.removing + {o})
    ensures Measure(s') < Measure(s)
  {
    assert s'.control.obsolete + s'.removing == s.control.obsolete + s.removing;
    assert Weights(s') == Weights(s);
    assert SupersededItems(s') == SupersededItems(s);
  }

  lemma ExistingUpserts(w: World, x: Identity)
    requires x in w.pending && ChannelOk(w, x) && x in w.api
    ensures forall k | 0 <= k < |w.pending[x]| :: w.pending[x][k].Upsert?
  {
    var events := w.pending[x];
    assert events != [] ==> events[|events| - 1].Upsert?;
  }

  lemma RemovedWeight(s: State, o: Object)
    requires WorldOk(s.world) && o in s.removing && o.id in s.world.api
    ensures Weight(RemoveDone(s, o), o.id) <= Weight(s, o.id)
  {
    var s' := RemoveDone(s, o);
    assert o.id in Ids(s.control.obsolete + s.removing);
    assert ChannelOk(s.world, o.id);
    ExistingUpserts(s.world, o.id);
    LossesGone(o.id in HeldIds(s.control.capacities), s.world.pending[o.id], Doomed(s', o.id),
               o.id in AgainIds(s.syncing, s.world), o.id in AgainIds(s'.syncing, s'.world));
  }

  lemma RemovedOtherWeight(s: State, o: Object, y: Identity)
    requires y in s.world.pending && (y != o.id || y !in s.world.api)
    ensures Weight(RemoveDone(s, o), y) <= Weight(s, y)
  {
    var s' := RemoveDone(s, o);
    AgainShrinks(s.syncing, s.world, s'.syncing, s'.world, y);
    SameWeight(s, s', y);
  }

  lemma RemovedSum(s: State, o: Object)
    requires WorldOk(s.world) && o in s.removing && WellNamed(RemoveDone(s, o).world)
    ensures Sum(Weights(RemoveDone(s, o))) <= Sum(Weights(s))
  {
    var s' := RemoveDone(s, o);
    forall y | y in s.world.pending ensures Weight(s', y) <= Weight(s, y) {
      if y == o.id && y in s.world.api {
        RemovedWeight(s, o);
      } else {
        RemovedOtherWeight(s, o, y);
      }
    }
    WeightsShrink(s, s');
  }

  lemma FinishRemoveDecreases(cfg: Config, s: State, o: Object)
    requires Inv(cfg, s) && o in s.removing
    ensures WellNamed(RemoveDone(s, o).world) && Measure(RemoveDone(s, o)) < Measure(s)
  {
    FinishRemoveInv(cfg, s, o);
    RemovedSum(s, o);
    assert SupersededItems(RemoveDone(s, o)) == SupersededItems(s);
  }

  // Delivering

  /** The events of x move on, and with it what the controller knows of x only. */
  lemma PassedOtherWeight(s: State, x: Identity, c': Control, y: Identity)
    requires x in s.world.pending && s.world.pending[x] != [] && y in s.world.pending && y != x
    requires y in HeldIds(c'.capacities) <==> y in HeldIds(s.control.capacities)
    requires y in Ids(c'.obsolete + s.removing) ==> y in Ids(s.control.obsolete + s.removing)
    ensures Weight(s.(control := c', world := Passed(s.world, x)), y) <= Weight(s, y)
  {
    var s' := s.(control := c', world := Passed(s.world, x));
    AgainShrinks(s.syncing, s.world, s'.syncing, s'.world, y);
    SameWeight(s, s', y);
  }

  /** Reads are older than what is still undelivered. */
  lemma NotAgain(s: State, x: Identity)
    requires WorldOk(s.world) && ReadsOk(s.syncing, s.world) && x in s.world.pending && s.world.pending[x] != []
    ensures x !in AgainIds(s.syncing, s.world) && x !in AgainIds(s.syncing, Passed(s.world, x))
  {
    assert ChannelOk(s.world, x);
    forall i | i in s.syncing && s.syncing[i].Some? && s.syncing[i].value.id == x
      ensures !Current(s.world, s.syncing[i].value)
    {
      if Current(s.world, s.syncing[i].value) {
        CurrentRead(s.world, s.syncing[i].value);
      }
    }
  }

  lemma PassedSum(s: State, x: Identity, c': Control, delta: int)
    requires WorldOk(s.world) && x in s.world.pending && s.world.pending[x] != []
    requires HeldIds(c'.capacities) - {x} == HeldIds(s.control.capacities) - {x}
    requires Ids(c'.obsolete + s.removing) - {x} == Ids(s.control.obsolete + s.removing) - {x}
    requires Weight(s.(control := c', world := Passed(s.world, x)), x) <= Weight(s, x) + delta
    ensures var s' := s.(control := c', world := Passed(s.world, x));
            WellNamed(s'.world) && Sum(Weights(s')) <= Sum(Weights(s)) + delta
  {
    var s' := s.(control := c', world := Passed(s.world, x));
    PassedInv(s.world, x);
    forall y | y in s.world.pending && y != x ensures Weight(s', y) <= Weight(s, y) {
      assert y in HeldIds(c'.capacities) <==> y in HeldIds(c'.capacities) - {x};
      assert y in HeldIds(s.control.capacities) <==> y in HeldIds(s.control.capacities) - {x};
      assert y in Ids(c'.obsolete + s.removing) ==> y in Ids(c'.obsolete + s.removing) - {x};
      PassedOtherWeight(s, x, c', y);
    }
    WeightsChange(s, s', x, delta);
  }

  /** At most the given items become superseded. */
  lemma SupersededGrows(s: State, c': Control, w': World, items: set<WorkItem>)
    requires forall i | i in s.control.capacities && i !in items ::
             i in c'.capacities && c'.capacities[i] == s.control.capacities[i]
    requires |items| <= 1
    ensures |SupersededItems(s.(control := c', world := w'))| <= |SupersededItems(s)| + 1
  {
    var s' := s.(control := c', world := w');
    assert SupersededItems(s') <= SupersededItems(s) + items;
    Subset(SupersededItems(s'), SupersededItems(s) + items);
    assert |SupersededItems(s) + items| <= |SupersededItems(s)| + |items|;
  }

  lemma {:induction false} Subset<T>(a: set<T>, b: set<T>)
    requires a <= b
    ensures |a| <= |b|
  {
    if a != {} {
      var x :| x in a;
      Subset(a - {x}, b - {x});
    }
  }

  lemma AcceptedWeight(s: State, o: Object, c': Control)
    requires WorldOk(s.world) && ReadsOk(s.syncing, s.world)
    requires o.id in s.world.pending && s.world.pending[o.id] != [] && s.world.pending[o.id][0] == Upsert(o) &&
             o.managed
    requires c'.obsolete == s.control.obsolete && o.id in HeldIds(c'.capacities)
    ensures Weight(s.(control := c', world := Passed(s.world, o.id)), o.id) <= Weight(s, o.id) - 5
  {
    NotAgain(s, o.id);
  }

  lemma ObsoleteWeight(s: State, o: Object, c': Control)
    requires WorldOk(s.world) && ReadsOk(s.syncing, s.world)
    requires o.id in s.world.pending && s.world.pending[o.id] != [] && s.world.pending[o.id][0] == Upsert(o) &&
             o.managed
    requires c'.capacities == s.control.capacities && o.id !in HeldIds(c'.capacities)
    ensures Weight(s.(control := c', world := Passed(s.world, o.id)), o.id) <= Weight(s, o.id) - 5
  {
    NotAgain(s, o.id);
    var s' := s.(control := c', world := Passed(s.world, o.id));
    LossesMonotone(false, s'.world.pending[o.id], true, false, Doomed(s', o.id), false);
  }

  lemma LostWeight(s: State, x: Identity, c': Control)
    requires WorldOk(s.world) && ReadsOk(s.syncing, s.world)
    requires x in s.world.pending && s.world.pending[x] != []
    requires s.world.pending[x][0].Gone? || !s.world.pending[x][0].o.managed
    requires c'.obsolete == s.control.obsolete && x !in HeldIds(c'.capacities)
    ensures var delta := if x in HeldIds(s.control.capacities) then 17 else 5;
            Weight(s.(control := c', world := Passed(s.world, x)), x) <= Weight(s, x) - delta
  {
    NotAgain(s, x);
    assert ChannelOk(s.world, x);
    var events := s.world.pending[x];
    if events[0].Gone? {
      assert events[1..] == [];
    }
  }

  lemma AcceptedSum(s: State, o: Object, i: WorkItem)
    requires WorldOk(s.world) && ReadsOk(s.syncing, s.world)
    requires o.id in s.world.pending && s.world.pending[o.id] != [] && s.world.pending[o.id][0] == Upsert(o) &&
             o.managed
    requires Accepts(s.control, i, o)
    ensures var c' := s.control.(capacities := s.control.capacities[i := Some(o)]);
            var s' := s.(control := c', world := Passed(s.world, o.id));
            WellNamed(s'.world) && Sum(Weights(s')) <= Sum(Weights(s)) - 5
  {
    var c' := s.control.(capacities := s.control.capacities[i := Some(o)]);
    HeldIdsUpdated(s.control.capacities, i, o);
    AcceptedWeight(s, o, c');
    PassedSum(s, o.id, c', -5);
  }

  lemma AcceptedDecreases(s: State, o: Object, i: WorkItem)
    requires WorldOk(s.world) && ReadsOk(s.syncing, s.world)
    requires o.id in s.world.pending && s.world.pending[o.id] != [] && s.world.pending[o.id][0] == Upsert(o) &&
             o.managed
    requires Accepts(s.control, i, o)
    ensures var c' := s.control.(capacities := s.control.capacities[i := Some(o)]);
            var s' := s.(control := c', world := Passed(s.world, o.id));
            WellNamed(s'.world) && Measure(s') < Measure(s)
  {
    AcceptedSum(s, o, i);
    var c' := s.control.(capacities := s.control.capacities[i := Some(o)]);
    SupersededGrows(s, c', Passed(s.world, o.id), {i});
  }

  lemma ObsoleteSum(s: State, o: Object)
    requires WorldOk(s.world) && ReadsOk(s.syncing, s.world)
    requires o.id in s.world.pending && s.world.pending[o.id] != [] && s.world.pending[o.id][0] == Upsert(o) &&
             o.managed
    requires o.id !in HeldIds(s.control.capacities)
    ensures var s' := s.(control := s.control.(obsolete := s.control.obsolete + {o}), world := Passed(s.world, o.id));
            WellNamed(s'.world) && Sum(Weights(s')) <= Sum(Weights(s)) - 5
  {
    var c' := s.control.(obsolete := s.control.obsolete + {o});
    assert Ids(c'.obsolete + s.removing) == Ids(s.control.obsolete + s.removing) + {o.id};
    ObsoleteWeight(s, o, c');
    PassedSum(s, o.id, c', -5);
  }

  lemma ObsoleteQueue(s: State, o: Object, w': World)
    ensures var s' := s.(control := s.control.(obsolete := s.control.obsolete + {o}), world := w');
            QueueWeight(s') <= QueueWeight(s) + 2
  {
    var s' := s.(control := s.control.(obsolete := s.control.obsolete + {o}), world := w');
    assert SupersededItems(s') == SupersededItems(s);
  }

  lemma NotHeld(c: Control, o: Object)
    requires forall i | i in c.capacities :: !Accepts(c, i, o)
    ensures o.id !in HeldIds(c.capacities)
  {
    forall i | i in c.capacities ensures !Holds(c.capacities, i, o.id) {
      assert !Accepts(c, i, o);
    }
  }

  lemma ObsoleteDecreases(s: State, o: Object)
    requires WorldOk(s.world) && ReadsOk(s.syncing, s.world)
    requires o.id in s.world.pending && s.world.pending[o.id] != [] && s.world.pending[o.id][0] == Upsert(o) &&
             o.managed
    requires o.id !in HeldIds(s.control.capacities)
    ensures var s' := s.(control := s.control.(obsolete := s.control.obsolete + {o}), world := Passed(s.world, o.id));
            WellNamed(s'.world) && Measure(s') < Measure(s)
  {
    ObsoleteSum(s, o);
    ObsoleteQueue(s, o, Passed(s.world, o.id));
  }

  lemma DroppedIdsExactly(c: Control, x: Identity, c': Control)
    requires Dropped(c, x, c')
    ensures HeldIds(c'.capacities) == HeldIds(c.capacities) - {x}
    ensures x in HeldIds(c.capacities) <==> Holders(c, x) != {}
  {
    DroppedIds(c, x, c');
    forall y | y in HeldIds(c'.capacities) ensures y in HeldIds(c.capacities) && y != x {
      var j :| j in c'.capacities && c'.capacities[j].Some? && c'.capacities[j].value.id == y;
      assert j in c.capacities && !Holds(c.capacities, j, x) && c.capacities[j] == c'.capacities[j];
    }
    if x in HeldIds(c.capacities) {
      var j :| j in c.capacities && c.capacities[j].Some? && c.capacities[j].value.id == x;
      assert j in Holders(c, x);
    }
  }

  lemma HoldersAtMostOne(cfg: Config, s: State, x: Identity)
    requires Inv(cfg, s)
    ensures |Holders(s.control, x)| <= 1
  {
    var hs := Holders(s.control, x);
    if hs != {} {
      var i :| i in hs;
      forall j | j in hs ensures j == i {
        HeldOnce(cfg, s, i, j, x);
      }
      assert hs == {i};
    }
  }

  lemma LostSum(s: State, x: Identity, c': Control)
    requires WorldOk(s.world) && ReadsOk(s.syncing, s.world)
    requires x in s.world.pending && s.world.pending[x] != []
    requires s.world.pending[x][0].Gone? || !s.world.pending[x][0].o.managed
    requires Dropped(s.control, x, c')
    ensures var s' := s.(control := c', world := Passed(s.world, x));
            WellNamed(s'.world) && Sum(Weights(s')) <= Sum(Weights(s)) - if Holders(s.control, x) != {} then 17 else 5
  {
    DroppedIdsExactly(s.control, x, c');
    LostWeight(s, x, c');
    PassedSum(s, x, c', if x in HeldIds(s.control.capacities) then -17 else -5);
  }

  lemma LostQueue(s: State, x: Identity, c': Control, w': World)
    requires Dropped(s.control, x, c') && c'.refresh == s.control.refresh + Holders(s.control, x)
    requires |Holders(s.control, x)| <= 1
    ensures QueueWeight(s.(control := c', world := w')) <= QueueWeight(s) + 12 * |Holders(s.control, x)| + 2
  {
    SupersededGrows(s, c', w', Holders(s.control, x));
    assert |c'.refresh| <= |s.control.refresh| + |Holders(s.control, x)|;
  }

  lemma LostDecreases(s: State, x: Identity, c': Control)
    requires WorldOk(s.world) && ReadsOk(s.syncing, s.world)
    requires x in s.world.pending && s.world.pending[x] != []
    requires s.world.pending[x][0].Gone? || !s.world.pending[x][0].o.managed
    requires Dropped(s.control, x, c') && c'.refresh == s.control.refresh + Holders(s.control, x)
    requires |Holders(s.control, x)| <= 1
    ensures var s' := s.(control := c', world := Passed(s.world, x));
            WellNamed(s'.world) && Measure(s') < Measure(s)
  {
    LostSum(s, x, c');
    LostQueue(s, x, c', Passed(s.world, x));
  }

  lemma DeletionRefresh(c: Control, x: Identity, c': Control)
    requires |Holders(c, x)| <= 1 && DeletionSeen(c, x, c')
    ensures c'.refresh == c.refresh + Holders(c, x)
  {
    var hs := Holders(c, x);
    if hs != {} {
      var i :| i in hs && c' == c.(capacities := c.capacities[i := None], refresh := c.refresh + {i});
      Subset({i}, hs);
      assert |hs - {i}| == 0;
      assert hs == {i};
    }
  }

  lemma ManagedDecreases(s: State, o: Object, c': Control)
    requires WorldOk(s.world) && ReadsOk(s.syncing, s.world)
    requires o.id in s.world.pending && s.world.pending[o.id] != [] && s.world.pending[o.id][0] == Upsert(o) &&
             o.managed
    requires ManagedSeen(s.control, o, c')
    ensures var s' := s.(control := c', world := Passed(s.world, o.id));
            WellNamed(s'.world) && Measure(s') < Measure(s)
  {
    if exists i :: i in s.control.capacities && Accepts(s.control, i, o) {
      var i :| i in s.control.capacities && Accepts(s.control, i, o) &&
               c' == s.control.(capacities := s.control.capacities[i := Some(o)]);
      AcceptedDecreases(s, o, i);
    } else {
      NotHeld(s.control, o);
      ObsoleteDecreases(s, o);
    }
  }

  lemma DeliverDecreases(cfg: Config, s: State, step: Step, s': State)
    requires Inv(cfg, s) && step.Deliver? && Next(cfg, s, step, s')
    ensures WellNamed(s'.world) && Measure(s') < Measure(s)
  {
    var x := step.x;
    var ev := s.world.pending[x][0];
    assert ChannelOk(s.world, x);
    if ev.Upsert? && ev.o.managed {
      ManagedDecreases(s, ev.o, s'.control);
    } else {
      HoldersAtMostOne(cfg, s, x);
      if ev.Gone? {
        DeletionDropped(cfg, s, x, s'.control);
        DeletionRefresh(s.control, x, s'.control);
      } else {
        UnmanagedDropped(s.control, x);
      }
      LostDecreases(s, x, s'.control);
    }
  }

  /** Each step without outside interference decreases the measure. */
  lemma DrainDecreases(cfg: Config, s: State, step: Step, s': State)
    requires Inv(cfg, s) && DrainStep(s, step) && Next(cfg, s, step, s')
    ensures WellNamed(s'.world) && Measure(s') < Measure(s)
  {
    match step
    case StartSync(item) => StartSyncDecreases(cfg, s, item);
    case SkipSync(item) => DoneDecreases(s, item);
    case KeepSync(item, _, _) => DoneDecreases(s, item);
    case FailSync(item) => DoneDecreases(s, item);
    case CreateSync(item, capacity, maximum) =>
      DoneDecreases(s, item);
      CreateSyncDecreases(cfg, s, step, s');
    case UpdateSync(item, capacity, maximum) =>
      UpdateDecreases(s, item, Refreshed(cfg, s.syncing[item].value.info, capacity, maximum));
    case StartRemove(o) => StartRemoveDecreases(s, o, s');
    case FinishRemove(o) => FinishRemoveDecreases(cfg, s, o);
    case Deliver(_) => DeliverDecreases(cfg, s, step, s');
  }

  lemma CreateSyncDecreases(cfg: Config, s: State, step: Step, s': State)
    requires Inv(cfg, s) && step.CreateSync? && Next(cfg, s, step, s')
    ensures WellNamed(s'.world) && Measure(s') < Measure(s)
  {
    var nodeTopology := LabelMap(step.item.segment.entries);
    var info := Info(step.capacity, step.maximum, cfg.hasOwner);
    CreateDecreases(s, step.item.className, nodeTopology, info);
    CreateSyncInv(cfg, s, step, s');
    DoneDecreases(s.(world := s'.world), step.item);
  }

  // A next step

  /** What the driver answers to GetCapacity. */
  datatype Answer = Answer(capacity: int, maximum: Option<int>)

  ghost predicate AnswersBy(step: Step, driver: WorkItem -> Answer) {
    match step
    case CreateSync(item, capacity, maximum) => Answer(capacity, maximum) == driver(item)
    case KeepSync(item, capacity, maximum) => Answer(capacity, maximum) == driver(item)
    case UpdateSync(item, capacity, maximum) => Answer(capacity, maximum) == driver(item)
    case _ => true
  }

  lemma HandlerExists(c: Control, x: Identity, ev: Event) returns (c': Control)
    ensures Handled(c, x, ev, c')
  {
    if ev.Gone? {
      if Holders(c, x) == {} {
        c' := c;
      } else {
        var i :| i in Holders(c, x);
        c' := c.(capacities := c.capacities[i := None], refresh := c.refresh + {i});
      }
    } else if !ev.o.managed {
      c' := UnmanagedSeen(c, ev.o.id);
    } else if exists i :: i in c.capacities && Accepts(c, i, ev.o) {
      var i :| i in c.capacities && Accepts(c, i, ev.o);
      c' := c.(capacities := c.capacities[i := Some(ev.o)]);
    } else {
      c' := c.(obsolete := c.obsolete + {ev.o});
    }
  }

  lemma DeliverStep(cfg: Config, s: State, x: Identity) returns (s': State)
    requires x in s.world.pending && s.world.pending[x] != []
    ensures Next(cfg, s, Deliver(x), s')
  {
    var c' := HandlerExists(s.control, x, s.world.pending[x][0]);
    s' := s.(control := c', world := Passed(s.world, x));
  }

  /** A read that is neither superseded nor current has an event on the way. */
  lemma StaleRead(cfg: Config, s: State, item: WorkItem)
    requires Inv(cfg, s) && item in s.syncing && s.syncing[item].Some?
    requires !Superseded(s, item) && !Current(s.world, s.syncing[item].value)
    ensures var x := s.syncing[item].value.id; x in s.world.pending && s.world.pending[x] != []
  {
    assert ChannelOk(s.world, s.syncing[item].value.id);
  }

  lemma SyncStep(cfg: Config, s: State, driver: WorkItem -> Answer, item: WorkItem) returns (step: Step, s': State)
    requires Inv(cfg, s) && item in s.syncing
    ensures DrainStep(s, step) && Next(cfg, s, step, s') && AnswersBy(step, driver)
  {
    var answer := driver(item);
    if s.syncing[item].None? {
      step := CreateSync(item, answer.capacity, answer.maximum);
      s' := Done(s, item).(world := Created(s.world, item.className, LabelMap(item.segment.entries), true,
                                            Info(answer.capacity, answer.maximum, cfg.hasOwner)));
      return;
    }
    var o := s.syncing[item].value;
    var info := Refreshed(cfg, o.info, answer.capacity, answer.maximum);
    if info == o.info {
      step, s' := KeepSync(item, answer.capacity, answer.maximum), Done(s, item);
    } else if Current(s.world, o) {
      step := UpdateSync(item, answer.capacity, answer.maximum);
      s' := Done(s, item).(world := Edited(s.world, o.id, o.managed, info));
    } else if Superseded(s, item) {
      step, s' := FailSync(item), Requeued(s, item);
    } else {
      StaleRead(cfg, s, item);
      step := Deliver(o.id);
      s' := DeliverStep(cfg, s, o.id);
    }
  }

  /** Unless all is at rest there is a next step, whatever the driver answers. */
  lemma DrainProgress(cfg: Config, s: State, driver: WorkItem -> Answer) returns (step: Step, s': State)
    requires Inv(cfg, s) && !Quiescent(s)
    ensures DrainStep(s, step) && Next(cfg, s, step, s') && AnswersBy(step, driver)
  {
    if item :| item in s.syncing {
      step, s' := SyncStep(cfg, s, driver, item);
    } else if item :| item in s.control.refresh {
      step, s' := StartSync(item), Started(s, item);
    } else if o :| o in s.removing {
      step, s' := FinishRemove(o), RemoveDone(s, o);
    } else if o :| o in s.control.obsolete {
      step := StartRemove(o);
      s' := s.(control := s.control.(obsolete := s.control.obsolete - {o}), removing := s.removing + {o});
    } else {
      assert s.syncing == map[];
      var x :| x in s.world.pending && s.world.pending[x] != [];
      step := Deliver(x);
      s' := DeliverStep(cfg, s, x);
    }
  }

  ghost predicate DrainRun(cfg: Config, states: seq<State>, steps: seq<Step>) {
    && |states| == |steps| + 1
    && forall k | 0 <= k < |steps| :: DrainStep(states[k], steps[k]) && Next(cfg, states[k], steps[k], states[k + 1])
  }

  /** No drain from a reachable state takes more steps than the measure says. */
  lemma {:induction false} DrainBounded(cfg: Config, states: seq<State>, steps: seq<Step>, k: nat)
    requires DrainRun(cfg, states, steps) && Inv(cfg, states[0]) && k < |states|
    ensures Inv(cfg, states[k]) && Measure(states[k]) + k <= Measure(states[0])
  {
    if k > 0 {
      DrainBounded(cfg, states, steps, k - 1);
      assert Next(cfg, states[k - 1], steps[k - 1], states[k - 1 + 1]) && DrainStep(states[k - 1], steps[k - 1]);
      DrainDecreases(cfg, states[k - 1], steps[k - 1], states[k]);
      NextInv(cfg, states[k - 1], steps[k - 1], states[k]);
    }
  }

  /**
   From every reachable state, draining ends after a bounded number of steps, and where it
   cannot go on the managed objects are exactly the desired ones.
   */
  lemma DrainSettles(
    cfg: Config, states: seq<State>, steps: seq<Step>, drained: seq<State>, drains: seq<Step>,
    driver: WorkItem -> Answer)
    requires Run(cfg, states, steps) && DrainRun(cfg, drained, drains) && drained[0] == states[|steps|]
    ensures WellNamed(drained[0].world) && |drains| <= Measure(drained[0])
    ensures (forall step, s' :: !(DrainStep(drained[|drains|], step) && AnswersBy(step, driver) &&
                                  Next(cfg, drained[|drains|], step, s')))
            ==> Settled(cfg, drained[|drains|])
  {
    RunInv(cfg, states, steps, |steps|);
    DrainBounded(cfg, drained, drains, |drains|);
    var s := drained[|drains|];
    if Quiescent(s) {
      QuiescentSettled(cfg, s);
    } else {
      var step, s' := DrainProgress(cfg, s, driver);
    }
  }
}
