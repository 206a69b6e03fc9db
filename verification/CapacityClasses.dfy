/**
 Which storage classes the capacity controller creates objects for (pkg/capacity/capacity.go):
 those of its driver, with immediate binding only if it was told so.
 */
module CapacityClasses {
  import opened Orders
  import opened Segments
  import opened CapacityModel
  import opened CapacityRuns

  /** In every run, whatever order segments and classes came in: the items are those of the served classes. */
  lemma RunItems(cfg: Config, states: seq<State>, steps: seq<Step>, k: nat, p: SegmentPtr, name: string)
    requires Run(cfg, states, steps) && k < |states|
    ensures var s := states[k];
            WorkItem(p, name) in s.control.capacities <==>
              && p in s.segments && name in s.classes && s.classes[name].provisioner == cfg.driverName
              && (s.classes[name].bindingMode == Some(Immediate) ==> cfg.immediateBinding)
  {
    RunInv(cfg, states, steps, k);
    assert WorkItem(p, name) in states[k].control.capacities <==>
        WorkItem(p, name) in states[k].control.capacities.Keys;
  }

  /** Some managed object is for that class and topology. */
  ghost predicate HasObject(s: State, name: string, topology: map<string, string>) {
    exists x :: x in s.world.api && s.world.api[x].managed && x.className == name && x.nodeTopology == topology
  }

  lemma ObjectOfItem(cfg: Config, s: State, p: SegmentPtr, name: string)
    requires Inv(cfg, s) && Quiescent(s) && WorkItem(p, name) in s.control.capacities
    ensures HasObject(s, name, LabelMap(p.entries))
  {
    QuiescentItem(cfg, s, WorkItem(p, name));
    assert s.control.capacities[WorkItem(p, name)].value.id in s.world.api;
  }

  lemma ItemOfObject(cfg: Config, s: State, x: Identity) returns (p: SegmentPtr)
    requires Inv(cfg, s) && Quiescent(s) && x in s.world.api && s.world.api[x].managed
    ensures WorkItem(p, x.className) in s.control.capacities && LabelMap(p.entries) == x.nodeTopology
  {
    var i := QuiescentObject(cfg, s, x);
    QuiescentItem(cfg, s, i);
    p := i.segment;
  }

  /**
   In every run at rest there is an object for a class and a topology exactly if some segment has that
   topology and the class is of this driver and does not bind immediately, unless that is wanted.
   */
  lemma RestObjectsExactly(
    cfg: Config, states: seq<State>, steps: seq<Step>, k: nat, name: string, topology: map<string, string>)
    requires Run(cfg, states, steps) && k < |states| && Quiescent(states[k])
    ensures var s := states[k];
            HasObject(s, name, topology) <==>
              && (exists p :: p in s.segments && LabelMap(p.entries) == topology)
              && name in s.classes && s.classes[name].provisioner == cfg.driverName
              && (s.classes[name].bindingMode == Some(Immediate) ==> cfg.immediateBinding)
  {
    var s := states[k];
    RunInv(cfg, states, steps, k);
    if HasObject(s, name, topology) {
      var x :| x in s.world.api && s.world.api[x].managed && x.className == name && x.nodeTopology == topology;
      var p := ItemOfObject(cfg, s, x);
      RunItems(cfg, states, steps, k, p, name);
    }
    if p :| p in s.segments && LabelMap(p.entries) == topology {
      RunItems(cfg, states, steps, k, p, name);
      if WorkItem(p, name) in s.control.capacities {
        ObjectOfItem(cfg, s, p, name);
      }
    }
  }

  /** The driver's classes with immediate binding. */
  function ImmediateNames(cfg: Config, classes: map<string, StorageClass>): set<string> {
    set n | n in classes && classes[n].provisioner == cfg.driverName && classes[n].bindingMode == Some(Immediate)
  }

  /** For the same segments and classes, the flag adds exactly the items of classes with immediate binding. */
  lemma ImmediateAdds(
    cfg: Config, states: seq<State>, steps: seq<Step>, k: nat, states': seq<State>, steps': seq<Step>, k': nat)
    requires !cfg.immediateBinding && Run(cfg, states, steps) && k < |states|
    requires Run(cfg.(immediateBinding := true), states', steps') && k' < |states'|
    requires states[k].segments == states'[k'].segments && states[k].classes == states'[k'].classes
    ensures var items, items' := states[k].control.capacities.Keys, states'[k'].control.capacities.Keys;
            var immediate := Items(states[k].segments, ImmediateNames(cfg, states[k].classes));
            items' == items + immediate && items !! immediate
  {
    var items, items' := states[k].control.capacities.Keys, states'[k'].control.capacities.Keys;
    var immediate := Items(states[k].segments, ImmediateNames(cfg, states[k].classes));
    forall i ensures (i in items' <==> i in items || i in immediate) && !(i in items && i in immediate) {
      RunItems(cfg, states, steps, k, i.segment, i.className);
      RunItems(cfg.(immediateBinding := true), states', steps', k', i.segment, i.className);
    }
  }
}
