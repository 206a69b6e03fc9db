/**
 The event handlers of the capacity controller, with the loops over lists and over the map
 as they run under the lock.
 */
module CapacityController {
  import opened Orders
  import opened Segments
  import opened CapacityModel

  class Controller {
    const cfg: Config
    var capacities: map<WorkItem, Option<Object>>
    var refresh: set<WorkItem>
    var obsolete: set<Object>

    function State(): Control
      reads this
    {
      Control(capacities, refresh, obsolete)
    }

    constructor (cfg: Config)
      ensures this.cfg == cfg && State() == Control(map[], {}, {})
    {
      this.cfg := cfg;
      capacities, refresh, obsolete := map[], {}, {};
    }

    method AddWorkItem(segment: SegmentPtr, className: string)
      modifies this
      ensures State() == Added(old(State()), {WorkItem(segment, className)})
      ensures var item := WorkItem(segment, className);
              && capacities == (if item in old(capacities) then old(capacities) else old(capacities)[item := None])
              && refresh == old(refresh) + {item} && obsolete == old(obsolete)
    {
      var item := WorkItem(segment, className);
      if item !in capacities {
        capacities := capacities[item := None];
      }
      refresh := refresh + {item};
    }

    method RemoveWorkItem(segment: SegmentPtr, className: string)
      modifies this
      ensures State() == Removed(old(State()), {WorkItem(segment, className)})
      ensures var item := WorkItem(segment, className);
              && capacities == old(capacities) - {item} && refresh == old(refresh)
              && obsolete == old(obsolete) +
                   if item in old(capacities) && old(capacities)[item].Some? then {old(capacities)[item].value} else {}
    {
      var item := WorkItem(segment, className);
      ghost var before := State();
      if item !in capacities {
        assert HeldObjects(before, {item}) == {};
        return;
      }
      var capacity := capacities[item];
      capacities := capacities - {item};
      if capacity.Some? {
        assert HeldObjects(before, {item}) == {capacity.value};
        obsolete := obsolete + {capacity.value};
      } else {
        assert HeldObjects(before, {item}) == {};
      }
    }

    /** onSCAddOrUpdate: segments is what the topology informer lists. */
    method OnSCAddOrUpdate(sc: StorageClass, segments: seq<SegmentPtr>)
      modifies this
      ensures State() == if && sc.provisioner == cfg.driverName
                            && (sc.bindingMode == Some(Immediate) ==> cfg.immediateBinding)
                         then Added(old(State()), Items(Elements(segments), {sc.name}))
                         else old(State())
    {
      if !Relevant(cfg, sc) {
        return;
      }
      ghost var before := State();
      AddedNothing(before);
      assert Items(Elements(segments[..0]), {sc.name}) == {};
      for k := 0 to |segments|
        invariant State() == Added(before, Items(Elements(segments[..k]), {sc.name}))
      {
        AddWorkItem(segments[k], sc.name);
        AddedTwice(before, Items(Elements(segments[..k]), {sc.name}), {WorkItem(segments[k], sc.name)});
        ItemsSnoc(segments, k, sc.name);
      }
      assert segments[..|segments|] == segments;
    }

    /** onSCDelete */
    method OnSCDelete(sc: StorageClass, segments: seq<SegmentPtr>)
      modifies this
      ensures State() == if sc.provisioner == cfg.driverName
                         then Removed(old(State()), Items(Elements(segments), {sc.name}))
                         else old(State())
    {
      if sc.provisioner != cfg.driverName {
        return;
      }
      ghost var before := State();
      RemovedNothing(before);
      assert Items(Elements(segments[..0]), {sc.name}) == {};
      for k := 0 to |segments|
        invariant State() == Removed(before, Items(Elements(segments[..k]), {sc.name}))
      {
        RemoveWorkItem(segments[k], sc.name);
        RemovedTwice(before, Items(Elements(segments[..k]), {sc.name}), {WorkItem(segments[k], sc.name)});
        ItemsSnoc(segments, k, sc.name);
      }
      assert segments[..|segments|] == segments;
    }

    method ChangeForClass(added: seq<SegmentPtr>, removed: seq<SegmentPtr>, sc: StorageClass)
      requires Relevant(cfg, sc)
      modifies this
      ensures State() == Changed(old(State()), Elements(added), Elements(removed), {sc.name})
    {
      OnSCAddOrUpdate(sc, added);
      OnSCDelete(sc, removed);
    }

    /** onTopologyChanges: storageClasses is what the class lister returns. */
    method OnTopologyChanges(added: seq<SegmentPtr>, removed: seq<SegmentPtr>, storageClasses: seq<StorageClass>)
      requires Elements(added) !! Elements(removed)
      modifies this
      ensures State() ==
              Changed(old(State()), Elements(added), Elements(removed), RelevantNames(cfg, storageClasses))
    {
      ghost var before := State();
      assert RelevantNames(cfg, storageClasses[..0]) == {};
      ChangedNothing(before, Elements(added), Elements(removed));
      for k := 0 to |storageClasses|
        invariant State() ==
                  Changed(before, Elements(added), Elements(removed), RelevantNames(cfg, storageClasses[..k]))
      {
        ghost var names := RelevantNames(cfg, storageClasses[..k]);
        var sc := storageClasses[k];
        RelevantNamesSnoc(cfg, storageClasses, k);
        if Relevant(cfg, sc) {
          ChangeForClass(added, removed, sc);
          ChangedTwice(before, Elements(added), Elements(removed), names, {sc.name});
        }
      }
      assert storageClasses[..|storageClasses|] == storageClasses;
    }

    /** onCAddOrUpdate */
    method OnCAddOrUpdate(capacity: Object)
      modifies this
      ensures if capacity.managed then ManagedSeen(old(State()), capacity, State())
              else State() == UnmanagedSeen(old(State()), capacity.id)
    {
      ghost var before := State();
      var todo := capacities.Keys;
      if !capacity.managed {
        while todo != {}
          invariant todo <= capacities.Keys == before.capacities.Keys
          invariant forall i | i in todo :: capacities[i] == before.capacities[i]
          invariant forall i | i in capacities.Keys - todo ::
                      capacities[i] == UnmanagedSeen(before, capacity.id).capacities[i]
          invariant refresh == before.refresh + (Holders(before, capacity.id) - todo)
          invariant obsolete == before.obsolete
          decreases todo
        {
          var item :| item in todo;
          if capacities[item].Some? && capacities[item].value.id == capacity.id {
            assert item in Holders(before, capacity.id);
            capacities := capacities[item := None];
            refresh := refresh + {item};
          }
          todo := todo - {item};
        }
        assert capacities == UnmanagedSeen(before, capacity.id).capacities;
        return;
      }
      while todo != {}
        invariant todo <= capacities.Keys
        invariant State() == before
        invariant forall i | i in capacities.Keys - todo :: !Accepts(before, i, capacity)
        decreases todo
      {
        var item :| item in todo;
        if capacities[item].Some? && capacities[item].value.id == capacity.id {
          assert Accepts(before, item, capacity);
          capacities := capacities[item := Some(capacity)];
          return;
        }
        if capacities[item].None? && Matches(item, capacity) {
          assert Accepts(before, item, capacity);
          capacities := capacities[item := Some(capacity)];
          return;
        }
        todo := todo - {item};
      }
      obsolete := obsolete + {capacity};
    }

    /** onCDelete */
    method OnCDelete(capacity: Object)
      modifies this
      ensures DeletionSeen(old(State()), capacity.id, State())
    {
      ghost var before := State();
      var todo := capacities.Keys;
      while todo != {}
        invariant todo <= capacities.Keys
        invariant State() == before
        invariant forall i | i in capacities.Keys - todo :: !Holds(before.capacities, i, capacity.id)
        decreases todo
      {
        var item :| item in todo;
        if capacities[item].Some? && capacities[item].value.id == capacity.id {
          assert item in Holders(before, capacity.id);
          capacities := capacities[item := None];
          refresh := refresh + {item};
          return;
        }
        todo := todo - {item};
      }
      assert Holders(before, capacity.id) == {};
    }

    /** pollCapacities and refreshSC: enqueue the known items that a condition selects. */
    method Refresh(className: Option<string>)
      modifies this`refresh
      ensures refresh == old(refresh) + set i | i in capacities && (className.None? || i.className == className.value)
    {
      var todo := capacities.Keys;
      while todo != {}
        invariant todo <= capacities.Keys
        invariant refresh ==
                  old(refresh) + set i | i in capacities.Keys - todo &&
                      (className.None? || i.className == className.value)
        decreases todo
      {
        var item :| item in todo;
        if className.None? || item.className == className.value {
          refresh := refresh + {item};
        }
        todo := todo - {item};
      }
    }

    /** getObjectsCurrent */
    method ObjectsCurrent() returns (current: nat)
      ensures current == |set i | i in capacities && capacities[i].Some?|
    {
      var todo := capacities.Keys;
      current := 0;
      while todo != {}
        invariant todo <= capacities.Keys
        invariant current == |set i | i in capacities.Keys - todo && capacities[i].Some?|
        decreases todo
      {
        var item :| item in todo;
        ghost var counted := set i | i in capacities.Keys - todo && capacities[i].Some?;
        todo := todo - {item};
        ghost var counted' := set i | i in capacities.Keys - todo && capacities[i].Some?;
        if capacities[item].Some? {
          current := current + 1;
          assert counted' == counted + {item} && item !in counted;
        } else {
          assert counted' == counted;
        }
      }
      assert (set i | i in capacities.Keys - todo && capacities[i].Some?) ==
             set i | i in capacities && capacities[i].Some?;
    }

    /** getObjectsObsolete with isObsolete; listed is the object lister's content. */
    method ObjectsObsolete(listed: seq<Object>) returns (count: nat)
      ensures count == |set k: nat | k < |listed| && IsObsolete(capacities, listed[k])|
    {
      count := 0;
      for k := 0 to |listed|
        invariant count == |set j: nat | j < k && IsObsolete(capacities, listed[j])|
      {
        ghost var seen := set j: nat | j < k && IsObsolete(capacities, listed[j]);
        ghost var seen' := set j: nat | j < k + 1 && IsObsolete(capacities, listed[j]);
        var found := !listed[k].managed;
        var todo := capacities.Keys;
        while todo != {} && !found
          invariant todo <= capacities.Keys
          invariant found <==> !listed[k].managed || exists i :: i in capacities.Keys - todo && Matches(i, listed[k])
          decreases todo
        {
          var item :| item in todo;
          found := Matches(item, listed[k]);
          todo := todo - {item};
          assert item in capacities.Keys - todo;
        }
        if !found {
          count := count + 1;
          assert seen' == seen + {k};
        } else {
          assert seen' == seen;
        }
      }
    }
  }

  function RelevantNames(cfg: Config, storageClasses: seq<StorageClass>): set<string> {
    set sc | sc in storageClasses && Relevant(cfg, sc) :: sc.name
  }

  ghost function Changed(c: Control, added: set<SegmentPtr>, removed: set<SegmentPtr>, names: set<string>): Control {
    Removed(Added(c, Items(added, names)), Items(removed, names))
  }

  lemma AddedNothing(c: Control)
    ensures Added(c, {}) == c
  {
    assert Added(c, {}).capacities == c.capacities;
  }

  lemma RemovedNothing(c: Control)
    ensures Removed(c, {}) == c
  {
    assert HeldObjects(c, {}) == {};
    assert c.capacities - {} == c.capacities;
  }

  lemma AddedTwice(c: Control, a: set<WorkItem>, b: set<WorkItem>)
    ensures Added(Added(c, a), b) == Added(c, a + b)
  {
    assert Added(Added(c, a), b).capacities == Added(c, a + b).capacities;
    assert Added(Added(c, a), b).refresh == Added(c, a + b).refresh;
  }

  lemma RemovedTwice(c: Control, a: set<WorkItem>, b: set<WorkItem>)
    ensures Removed(Removed(c, a), b) == Removed(c, a + b)
  {
    assert Removed(Removed(c, a), b).capacities == Removed(c, a + b).capacities;
    assert HeldObjects(c, a + b) == HeldObjects(c, a) + HeldObjects(Removed(c, a), b);
  }

  lemma RemovedAdded(c: Control, a: set<WorkItem>, b: set<WorkItem>)
    requires a !! b
    ensures Added(Removed(c, a), b) == Removed(Added(c, b), a)
  {
    assert Added(Removed(c, a), b).capacities == Removed(Added(c, b), a).capacities;
    assert HeldObjects(c, a) == HeldObjects(Added(c, b), a);
  }

  lemma ChangedNothing(c: Control, added: set<SegmentPtr>, removed: set<SegmentPtr>)
    ensures Changed(c, added, removed, {}) == c
  {
    assert Items(added, {}) == {} && Items(removed, {}) == {};
    AddedNothing(c);
    RemovedNothing(c);
  }

  lemma ChangedTwice(c: Control, added: set<SegmentPtr>, removed: set<SegmentPtr>, m: set<string>, n: set<string>)
    requires added !! removed
    ensures Changed(Changed(c, added, removed, m), added, removed, n) == Changed(c, added, removed, m + n)
  {
    var c1 := Added(c, Items(added, m));
    assert Items(removed, m) !! Items(added, n);
    RemovedAdded(c1, Items(removed, m), Items(added, n));
    AddedTwice(c, Items(added, m), Items(added, n));
    RemovedTwice(Added(c1, Items(added, n)), Items(removed, m), Items(removed, n));
    assert Items(added, m) + Items(added, n) == Items(added, m + n);
    assert Items(removed, m) + Items(removed, n) == Items(removed, m + n);
  }

  lemma ItemsSnoc(segments: seq<SegmentPtr>, k: nat, name: string)
    requires k < |segments|
    ensures Items(Elements(segments[..k + 1]), {name}) ==
            Items(Elements(segments[..k]), {name}) + {WorkItem(segments[k], name)}
  {
    assert segments[..k + 1] == segments[..k] + [segments[k]];
  }

  lemma RelevantNamesSnoc(cfg: Config, storageClasses: seq<StorageClass>, k: nat)
    requires k < |storageClasses|
    ensures RelevantNames(cfg, storageClasses[..k + 1]) ==
            if Relevant(cfg, storageClasses[k])
            then RelevantNames(cfg, storageClasses[..k]) + {storageClasses[k].name}
            else RelevantNames(cfg, storageClasses[..k])
  {
    assert storageClasses[..k + 1] == storageClasses[..k] + [storageClasses[k]];
  }
}
