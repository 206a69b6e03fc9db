/**
 What a periodic refresh of the capacity controller achieves (pkg/capacity/capacity.go): after
 polling all items and draining, every object reports what the driver answered, unless an
 edit of an object was not delivered yet when the poll began.
 */
module CapacityRefresh {
  import opened Orders
  import opened Segments
  import opened CapacityModel
  import opened CapacityRuns
  import opened CapacityDrain

  /** GetCapacity gets the parameters of the storage class and the labels of the segment. */
  type Capacities = (string, map<string, string>) -> Answer

  function DriverOf(answers: Capacities): WorkItem -> Answer {
    (i: WorkItem) => answers(i.className, LabelMap(i.segment.entries))
  }

  /** The object needs no update for that answer, including its owner. */
  predicate UpToDate(cfg: Config, info: Info, answer: Answer) {
    info.capacity == answer.capacity && info.maximumVolumeSize == answer.maximum && (cfg.hasOwner ==> info.owned)
  }

  predicate Right(cfg: Config, o: Object, answers: Capacities) {
    UpToDate(cfg, o.info, answers(o.id.className, o.id.nodeTopology))
  }

  /** An object that exists and is managed is right. */
  ghost predicate RightIfManaged(cfg: Config, w: World, answers: Capacities, x: Identity) {
    x in w.api && w.api[x].managed ==> Right(cfg, w.api[x], answers)
  }

  /** Versions on the way are right in the end; in particular if none are on the way. */
  ghost predicate PendingRight(cfg: Config, w: World, answers: Capacities) {
    forall x | x in w.pending && w.pending[x] != [] :: RightIfManaged(cfg, w, answers, x)
  }

  /** The item waits for its turn, or is being processed with the object it holds, or its object is right. */
  ghost predicate Advancing(cfg: Config, s: State, answers: Capacities, i: WorkItem)
    requires i in s.control.capacities
  {
    || i in s.control.refresh || s.control.capacities[i].None?
    || (i in s.syncing && s.syncing[i] == s.control.capacities[i])
    || RightIfManaged(cfg, s.world, answers, s.control.capacities[i].value.id)
  }

  /** Workers read objects of their items. */
  ghost predicate ReadsMatch(syncing: map<WorkItem, Option<Object>>) {
    forall i | i in syncing && syncing[i].Some? :: Matches(i, syncing[i].value)
  }

  ghost predicate Refreshing(cfg: Config, s: State, answers: Capacities) {
    && ReadsMatch(s.syncing) && PendingRight(cfg, s.world, answers)
    && forall i | i in s.control.capacities :: Advancing(cfg, s, answers, i)
  }

  /** pollCapacities */
  function Polled(s: State): State {
    s.(control := s.control.(refresh := s.control.refresh + s.control.capacities.Keys))
  }

  // Reads, in every run

  lemma NextReadsMatch(cfg: Config, s: State, step: Step, s': State)
    requires HeldOk(s.control.capacities, s.world.delivered) && ReadsMatch(s.syncing) && Next(cfg, s, step, s')
    ensures ReadsMatch(s'.syncing)
  {
  }

  lemma StepReadsMatch(cfg: Config, states: seq<State>, steps: seq<Step>, k: nat)
    requires Run(cfg, states, steps) && k < |steps|
    requires HeldOk(states[k].control.capacities, states[k].world.delivered) && ReadsMatch(states[k].syncing)
    ensures ReadsMatch(states[k + 1].syncing)
  {
    NextReadsMatch(cfg, states[k], steps[k], states[k + 1]);
  }

  lemma {:induction false} RunReadsMatch(cfg: Config, states: seq<State>, steps: seq<Step>, k: nat)
    requires Run(cfg, states, steps) && k < |states|
    ensures ReadsMatch(states[k].syncing)
  {
    if k > 0 {
      RunReadsMatch(cfg, states, steps, k - 1);
      RunInv(cfg, states, steps, k - 1);
      StepReadsMatch(cfg, states, steps, k - 1);
    }
  }

  // One step

  /** An object that a worker found up to date is right, or a right one is on the way. */
  lemma KeptIsRight(cfg: Config, s: State, answers: Capacities, item: WorkItem)
    requires Inv(cfg, s) && PendingRight(cfg, s.world, answers)
    requires item in s.control.capacities && s.control.capacities[item].Some?
    requires UpToDate(cfg, s.control.capacities[item].value.info, DriverOf(answers)(item))
    ensures RightIfManaged(cfg, s.world, answers, s.control.capacities[item].value.id)
  {
    var o := s.control.capacities[item].value;
    if s.world.pending[o.id] == [] {
      QuiescentView(s.world, o.id);
    }
  }

  lemma KeepAdvances(cfg: Config, s: State, answers: Capacities, item: WorkItem)
    requires Inv(cfg, s) && Refreshing(cfg, s, answers) && item in s.syncing && s.syncing[item].Some?
    requires UpToDate(cfg, s.syncing[item].value.info, DriverOf(answers)(item))
    ensures Refreshing(cfg, Done(s, item), answers)
  {
    forall i | i in s.control.capacities ensures Advancing(cfg, Done(s, item), answers, i) {
      assert Advancing(cfg, s, answers, i);
      if i == item && s.syncing[item] == s.control.capacities[i] {
        KeptIsRight(cfg, s, answers, item);
      }
    }
  }

  /** A write to one object. */
  ghost predicate OnlyWritten(w: World, x: Identity, w': World) {
    && (forall y | y != x && y in w'.api :: y in w.api && w'.api[y] == w.api[y])
    && (forall y | y != x && y in w'.pending :: y in w.pending && w'.pending[y] == w.pending[y])
  }

  lemma WrittenRight(cfg: Config, w: World, answers: Capacities, x: Identity, w': World)
    requires PendingRight(cfg, w, answers) && OnlyWritten(w, x, w') && RightIfManaged(cfg, w', answers, x)
    ensures PendingRight(cfg, w', answers)
  {
    forall y | y in w'.pending && w'.pending[y] != [] ensures RightIfManaged(cfg, w', answers, y) {
      assert y != x ==> RightIfManaged(cfg, w, answers, y);
    }
  }

  /** A worker leaves a new object, or a new version, that is right. */
  lemma WriteAdvances(cfg: Config, s: State, answers: Capacities, item: WorkItem, x: Identity, w': World)
    requires Refreshing(cfg, s, answers)
    requires item in s.syncing && (s.syncing[item].Some? ==> s.syncing[item].value.id == x)
    requires OnlyWritten(s.world, x, w') && RightIfManaged(cfg, w', answers, x)
    ensures Refreshing(cfg, Done(s, item).(world := w'), answers)
  {
    WrittenRight(cfg, s.world, answers, x, w');
    forall i | i in s.control.capacities ensures Advancing(cfg, Done(s, item).(world := w'), answers, i) {
      assert Advancing(cfg, s, answers, i);
    }
  }

  lemma CreateAdvances(cfg: Config, s: State, answers: Capacities, step: Step, s': State)
    requires Inv(cfg, s) && Refreshing(cfg, s, answers)
    requires step.CreateSync? && AnswersBy(step, DriverOf(answers)) && Next(cfg, s, step, s')
    ensures Refreshing(cfg, s', answers)
  {
    var x := Fresh(s.world, step.item.className, LabelMap(step.item.segment.entries));
    WriteAdvances(cfg, s, answers, step.item, x, s'.world);
  }

  lemma EditedRight(
    cfg: Config, w: World, answers: Capacities, item: WorkItem, o: Object, capacity: int, maximum: Option<int>)
    requires Matches(item, o) && Answer(capacity, maximum) == DriverOf(answers)(item) && o.id in w.pending
    ensures var w' := Edited(w, o.id, o.managed, Refreshed(cfg, o.info, capacity, maximum));
            OnlyWritten(w, o.id, w') && RightIfManaged(cfg, w', answers, o.id)
  {
  }

  lemma UpdateAdvances(
    cfg: Config, s: State, answers: Capacities, item: WorkItem, o: Object, capacity: int, maximum: Option<int>)
    requires Refreshing(cfg, s, answers) && item in s.syncing && s.syncing[item] == Some(o)
    requires Answer(capacity, maximum) == DriverOf(answers)(item) && o.id in s.world.pending
    ensures var w' := Edited(s.world, o.id, o.managed, Refreshed(cfg, o.info, capacity, maximum));
            Refreshing(cfg, Done(s, item).(world := w'), answers)
  {
    EditedRight(cfg, s.world, answers, item, o, capacity, maximum);
    var w' := Edited(s.world, o.id, o.managed, Refreshed(cfg, o.info, capacity, maximum));
    WriteAdvances(cfg, s, answers, item, o.id, w');
  }

  lemma RemoveAdvances(cfg: Config, s: State, answers: Capacities, o: Object)
    requires Refreshing(cfg, s, answers)
    ensures Refreshing(cfg, RemoveDone(s, o), answers)
  {
    forall i | i in s.control.capacities ensures Advancing(cfg, RemoveDone(s, o), answers, i) {
      assert Advancing(cfg, s, answers, i);
    }
  }

  /** An event of x leaves each item as it was, or with x, or without an object. */
  lemma HandledItem(c: Control, x: Identity, ev: Event, c': Control, i: WorkItem)
    requires Handled(c, x, ev, c') && (ev.Upsert? ==> ev.o.id == x) && i in c'.capacities
    ensures i in c.capacities && c.refresh <= c'.refresh
    ensures c'.capacities[i] == c.capacities[i] || c'.capacities[i].None? || c'.capacities[i].value.id == x
  {
    if ev.Upsert? && ev.o.managed && exists j :: j in c.capacities && Accepts(c, j, ev.o) {
      var j :| j in c.capacities && Accepts(c, j, ev.o) && c' == c.(capacities := c.capacities[j := Some(ev.o)]);
    }
  }

  lemma HandledAdvances(cfg: Config, s: State, answers: Capacities, x: Identity, c': Control, i: WorkItem)
    requires i in s.control.capacities && i in c'.capacities && s.control.refresh <= c'.refresh
    requires Advancing(cfg, s, answers, i) && RightIfManaged(cfg, s.world, answers, x)
    requires c'.capacities[i] == s.control.capacities[i] || c'.capacities[i].None? || c'.capacities[i].value.id == x
    ensures Advancing(cfg, s.(control := c'), answers, i)
  {
  }

  lemma PassedRight(cfg: Config, w: World, answers: Capacities, x: Identity)
    requires PendingRight(cfg, w, answers) && x in w.pending && w.pending[x] != []
    ensures PendingRight(cfg, Passed(w, x), answers)
  {
    forall y | y in w.pending && w.pending[y] != [] ensures RightIfManaged(cfg, Passed(w, x), answers, y) {
      assert RightIfManaged(cfg, w, answers, y);
    }
  }

  lemma DeliverAdvances(cfg: Config, s: State, answers: Capacities, x: Identity, s': State)
    requires Inv(cfg, s) && Refreshing(cfg, s, answers) && Next(cfg, s, Deliver(x), s')
    ensures Refreshing(cfg, s', answers)
  {
    assert ChannelOk(s.world, x);
    PassedRight(cfg, s.world, answers, x);
    forall i | i in s'.control.capacities ensures Advancing(cfg, s', answers, i) {
      HandledItem(s.control, x, s.world.pending[x][0], s'.control, i);
      HandledAdvances(cfg, s, answers, x, s'.control, i);
    }
  }

  /** Workers only skip items whose class is gone; those are not desired. */
  lemma ClassGone(cfg: Config, s: State, item: WorkItem)
    requires Desired(cfg, s.segments, s.classes, s.control.capacities.Keys) && item.className !in s.classes
    ensures item !in s.control.capacities
  {
  }

  lemma SkipAdvances(cfg: Config, s: State, answers: Capacities, item: WorkItem)
    requires Refreshing(cfg, s, answers) && item !in s.control.capacities
    ensures Refreshing(cfg, Done(s, item), answers)
  {
    forall i | i in s.control.capacities ensures Advancing(cfg, Done(s, item), answers, i) {
      assert Advancing(cfg, s, answers, i);
    }
  }

  /** Starting an item, or starting it over, or starting a deletion. */
  lemma QueueAdvances(cfg: Config, s: State, answers: Capacities, step: Step, s': State)
    requires HeldOk(s.control.capacities, s.world.delivered)
    requires Refreshing(cfg, s, answers) && Next(cfg, s, step, s')
    requires step.StartSync? || step.FailSync? || step.StartRemove?
    ensures Refreshing(cfg, s', answers)
  {
    NextReadsMatch(cfg, s, step, s');
    forall i | i in s'.control.capacities ensures Advancing(cfg, s', answers, i) {
      assert Advancing(cfg, s, answers, i);
    }
  }

  lemma StepAdvances(cfg: Config, s: State, answers: Capacities, step: Step, s': State)
    requires Inv(cfg, s) && Refreshing(cfg, s, answers)
    requires DrainStep(s, step) && AnswersBy(step, DriverOf(answers)) && Next(cfg, s, step, s')
    ensures Refreshing(cfg, s', answers)
  {
    match step
    case SkipSync(item) =>
      ClassGone(cfg, s, item);
      SkipAdvances(cfg, s, answers, item);
    case CreateSync(_, _, _) => CreateAdvances(cfg, s, answers, step, s');
    case KeepSync(item, _, _) => KeepAdvances(cfg, s, answers, item);
    case UpdateSync(item, capacity, maximum) =>
      UpdateAdvances(cfg, s, answers, item, s.syncing[item].value, capacity, maximum);
    case FinishRemove(o) => RemoveAdvances(cfg, s, answers, o);
    case Deliver(x) => DeliverAdvances(cfg, s, answers, x, s');
    case _ => QueueAdvances(cfg, s, answers, step, s');
  }

  // A whole drain

  lemma {:induction false} DrainAdvances(
    cfg: Config, states: seq<State>, steps: seq<Step>, answers: Capacities, k: nat)
    requires DrainRun(cfg, states, steps) && Inv(cfg, states[0]) && Refreshing(cfg, states[0], answers)
    requires (forall m | 0 <= m < |steps| :: AnswersBy(steps[m], DriverOf(answers))) && k < |states|
    ensures Inv(cfg, states[k]) && Refreshing(cfg, states[k], answers)
  {
    if k > 0 {
      DrainAdvances(cfg, states, steps, answers, k - 1);
      assert Next(cfg, states[k - 1], steps[k - 1], states[k - 1 + 1]) && DrainStep(states[k - 1], steps[k - 1]);
      assert AnswersBy(steps[k - 1], DriverOf(answers));
      StepAdvances(cfg, states[k - 1], answers, steps[k - 1], states[k]);
      NextInv(cfg, states[k - 1], steps[k - 1], states[k]);
    }
  }

  /** Every object that serves an item reports what the driver answers for the item. */
  ghost predicate Reported(cfg: Config, s: State, driver: WorkItem -> Answer) {
    forall i | i in s.control.capacities ::
      && s.control.capacities[i].Some? && ServedBy(s, i, s.control.capacities[i].value)
      && UpToDate(cfg, s.control.capacities[i].value.info, driver(i))
  }

  lemma ItemReported(cfg: Config, s: State, answers: Capacities, i: WorkItem, o: Object)
    requires i in s.control.capacities && s.control.capacities[i] == Some(o) && ServedBy(s, i, o)
    requires Advancing(cfg, s, answers, i) && i !in s.control.refresh && i !in s.syncing
    ensures UpToDate(cfg, o.info, DriverOf(answers)(i))
  {
  }

  lemma RestReported(cfg: Config, s: State, answers: Capacities)
    requires Inv(cfg, s) && Refreshing(cfg, s, answers) && Quiescent(s)
    ensures Reported(cfg, s, DriverOf(answers))
  {
    forall i | i in s.control.capacities
      ensures s.control.capacities[i].Some? && ServedBy(s, i, s.control.capacities[i].value)
      ensures UpToDate(cfg, s.control.capacities[i].value.info, DriverOf(answers)(i))
    {
      QuiescentItem(cfg, s, i);
      ItemReported(cfg, s, answers, i, s.control.capacities[i].value);
    }
  }

  /**
   In every run: when the controller polls, whatever is queued or in progress, then whatever drain
   follows, once it cannot go on all is settled and every object reports the answer of the driver.
   Versions that are on the way when the controller polls must be right already.
   */
  lemma RefreshReports(
    cfg: Config, states: seq<State>, steps: seq<Step>, drained: seq<State>, drains: seq<Step>, answers: Capacities)
    requires Run(cfg, states, steps) && PendingRight(cfg, states[|steps|].world, answers)
    requires DrainRun(cfg, drained, drains) && drained[0] == Polled(states[|steps|])
    requires forall m | 0 <= m < |drains| :: AnswersBy(drains[m], DriverOf(answers))
    ensures (forall step, s' :: !(DrainStep(drained[|drains|], step) && AnswersBy(step, DriverOf(answers)) &&
                                  Next(cfg, drained[|drains|], step, s')))
            ==> Settled(cfg, drained[|drains|]) && Reported(cfg, drained[|drains|], DriverOf(answers))
  {
    var s := states[|steps|];
    RunInv(cfg, states, steps, |steps|);
    RunReadsMatch(cfg, states, steps, |steps|);
    NextInv(cfg, s, Refresh(s.control.capacities.Keys), drained[0]);
    DrainAdvances(cfg, drained, drains, answers, |drains|);
    var last := drained[|drains|];
    if Quiescent(last) {
      QuiescentSettled(cfg, last);
      RestReported(cfg, last, answers);
    } else {
      var step, s' := DrainProgress(cfg, last, DriverOf(answers));
    }
  }

  /** In every run, a worker writes to an object only if that is not up to date, and leaves it up to date. */
  lemma UpdatesOnlyChanges(cfg: Config, states: seq<State>, steps: seq<Step>, k: nat)
    requires Run(cfg, states, steps) && k < |steps| && steps[k].UpdateSync?
    ensures steps[k].item in states[k].syncing && states[k].syncing[steps[k].item].Some?
    ensures var o := states[k].syncing[steps[k].item].value;
            var answer := Answer(steps[k].capacity, steps[k].maximum);
            && o.id in states[k].world.api && states[k].world.api[o.id] == o && !UpToDate(cfg, o.info, answer)
            && o.id in states[k + 1].world.api && states[k + 1].world.api[o.id].managed
            && UpToDate(cfg, states[k + 1].world.api[o.id].info, answer)
            && forall x | x != o.id ::
                 Lookup(states[k + 1].world.api, x) == Lookup(states[k].world.api, x)
  {
    var s := states[k];
    RunInv(cfg, states, steps, k);
    assert Next(cfg, s, steps[k], states[k + 1]);
    CurrentRead(s.world, s.syncing[steps[k].item].value);
  }

  // A poll that does not help: a foreign edit is on its way to the informer. The worker finds the
  // version that it read up to date, and the handler of the edit does not queue the item.

  const CLASS_NAME := "sc"

  function WaitingClass(cfg: Config): StorageClass {
    StorageClass(CLASS_NAME, cfg.driverName, Some(WaitForFirstConsumer))
  }

  /** The answer is always 1. */
  function One(className: string, labels: map<string, string>): Answer {
    Answer(1, None)
  }

  function TheId(p: SegmentPtr): Identity {
    Identity(0, CLASS_NAME, LabelMap(p.entries))
  }

  /** Version 0 reports 1, and version 1, by somebody else, reports 2. */
  function Reports(cfg: Config, p: SegmentPtr, version: nat): Object {
    Object(TheId(p), version, true, Info(version + 1, None, cfg.hasOwner))
  }

  function ReportsWorld(cfg: Config, p: SegmentPtr, version: nat, pending: bool, seen: Option<nat>): World {
    var x := TheId(p);
    World(
      map[x := Reports(cfg, p, version)],
      map[x := if pending then [Upsert(Reports(cfg, p, version))] else []],
      if seen.Some? then map[x := Reports(cfg, p, seen.value)] else map[],
      [x], version + 1)
  }

  function EditState(
    cfg: Config, p: SegmentPtr, held: Option<Object>, queued: bool, syncing: map<WorkItem, Option<Object>>, w: World)
    : State
  {
    var i := WorkItem(p, CLASS_NAME);
    State({p}, map[CLASS_NAME := WaitingClass(cfg)], Control(map[i := held], if queued then {i} else {}, {}),
          syncing, {}, w)
  }

  /** Until the poll. */
  function EditRun(cfg: Config, p: SegmentPtr): seq<State> {
    var w0 := ReportsWorld(cfg, p, 0, true, None);
    [State({}, map[], Control(map[], {}, {}), map[], {}, w0),
     State({}, map[CLASS_NAME := WaitingClass(cfg)], Control(map[], {}, {}), map[], {}, w0),
     EditState(cfg, p, None, true, map[], w0),
     EditState(cfg, p, Some(Reports(cfg, p, 0)), true, map[], ReportsWorld(cfg, p, 0, false, Some(0))),
     EditState(cfg, p, Some(Reports(cfg, p, 0)), true, map[], ReportsWorld(cfg, p, 1, true, Some(0)))]
  }

  function EditSteps(cfg: Config, p: SegmentPtr): seq<Step> {
    [ClassSet(WaitingClass(cfg)), TopologyChange({p}, {}), Deliver(TheId(p)),
     ForeignEdit(TheId(p), true, Info(2, None, cfg.hasOwner))]
  }

  /** From the poll on. */
  function EditDrain(cfg: Config, p: SegmentPtr): seq<State> {
    var i := WorkItem(p, CLASS_NAME);
    var held := Some(Reports(cfg, p, 0));
    var w := ReportsWorld(cfg, p, 1, true, Some(0));
    [EditState(cfg, p, held, true, map[], w),
     EditState(cfg, p, held, false, map[i := held], w),
     EditState(cfg, p, held, false, map[], w),
     EditState(cfg, p, Some(Reports(cfg, p, 1)), false, map[], ReportsWorld(cfg, p, 1, false, Some(1)))]
  }

  function EditDrains(p: SegmentPtr): seq<Step> {
    var i := WorkItem(p, CLASS_NAME);
    [StartSync(i), KeepSync(i, 1, None), Deliver(TheId(p))]
  }

  lemma ClassIsSet(cfg: Config, p: SegmentPtr)
    ensures Next(cfg, EditRun(cfg, p)[0], EditSteps(cfg, p)[0], EditRun(cfg, p)[1])
  {
    assert Items({}, {CLASS_NAME}) == {};
  }

  lemma SegmentAppears(cfg: Config, p: SegmentPtr)
    ensures Next(cfg, EditRun(cfg, p)[1], EditSteps(cfg, p)[1], EditRun(cfg, p)[2])
  {
    var classes := map[CLASS_NAME := WaitingClass(cfg)];
    assert ClassNames(cfg, classes) == {CLASS_NAME};
    assert Items({p}, {CLASS_NAME}) == {WorkItem(p, CLASS_NAME)};
    assert Items({}, {CLASS_NAME}) == {};
  }

  lemma AcceptedSeen(c: Control, i: WorkItem, o: Object)
    requires o.managed && i in c.capacities && Accepts(c, i, o)
    ensures Handled(c, o.id, Upsert(o), c.(capacities := c.capacities[i := Some(o)]))
  {
  }

  lemma ReportArrives(cfg: Config, p: SegmentPtr, s: State, version: nat, seen: Option<nat>, s': State)
    requires s.world == ReportsWorld(cfg, p, version, true, seen)
    requires WorkItem(p, CLASS_NAME) in s.control.capacities
    requires Accepts(s.control, WorkItem(p, CLASS_NAME), Reports(cfg, p, version))
    requires var held := s.control.capacities[WorkItem(p, CLASS_NAME) := Some(Reports(cfg, p, version))];
             s' == s.(control := s.control.(capacities := held),
                      world := ReportsWorld(cfg, p, version, false, Some(version)))
    ensures Next(cfg, s, Deliver(TheId(p)), s')
  {
    AcceptedSeen(s.control, WorkItem(p, CLASS_NAME), Reports(cfg, p, version));
    assert Passed(s.world, TheId(p)) == s'.world;
  }

  lemma FirstReportArrives(cfg: Config, p: SegmentPtr)
    ensures Next(cfg, EditRun(cfg, p)[2], EditSteps(cfg, p)[2], EditRun(cfg, p)[3])
  {
    ReportArrives(cfg, p, EditRun(cfg, p)[2], 0, None, EditRun(cfg, p)[3]);
  }

  lemma SomebodyEdits(cfg: Config, p: SegmentPtr)
    ensures Next(cfg, EditRun(cfg, p)[3], EditSteps(cfg, p)[3], EditRun(cfg, p)[4])
  {
    var w := EditRun(cfg, p)[3].world;
    assert w.pending[TheId(p)] + [Upsert(Reports(cfg, p, 1))] == [Upsert(Reports(cfg, p, 1))];
    assert Edited(w, TheId(p), true, Info(2, None, cfg.hasOwner)) == EditRun(cfg, p)[4].world;
  }

  lemma WorkerKeeps(cfg: Config, p: SegmentPtr)
    ensures Next(cfg, EditDrain(cfg, p)[0], EditDrains(p)[0], EditDrain(cfg, p)[1])
    ensures Next(cfg, EditDrain(cfg, p)[1], EditDrains(p)[1], EditDrain(cfg, p)[2])
  {
  }

  lemma EditArrives(cfg: Config, p: SegmentPtr)
    ensures Next(cfg, EditDrain(cfg, p)[2], EditDrains(p)[2], EditDrain(cfg, p)[3])
  {
    ReportArrives(cfg, p, EditDrain(cfg, p)[2], 1, Some(0), EditDrain(cfg, p)[3]);
  }

  lemma EditStep(cfg: Config, p: SegmentPtr, k: nat)
    requires k < 4
    ensures Next(cfg, EditRun(cfg, p)[k], EditSteps(cfg, p)[k], EditRun(cfg, p)[k + 1])
  {
    if k == 0 {
      ClassIsSet(cfg, p);
    } else if k == 1 {
      SegmentAppears(cfg, p);
    } else if k == 2 {
      FirstReportArrives(cfg, p);
    } else {
      SomebodyEdits(cfg, p);
    }
  }

  lemma EditBegins(cfg: Config, p: SegmentPtr)
    ensures Init(EditRun(cfg, p)[0])
  {
  }

  lemma EditRuns(cfg: Config, p: SegmentPtr)
    ensures Run(cfg, EditRun(cfg, p), EditSteps(cfg, p))
  {
    var states, steps := EditRun(cfg, p), EditSteps(cfg, p);
    EditBegins(cfg, p);
    forall k | 0 <= k < |steps| ensures Next(cfg, states[k], steps[k], states[k + 1]) {
      EditStep(cfg, p, k);
    }
  }

  lemma EditDrained(cfg: Config, p: SegmentPtr)
    ensures DrainRun(cfg, EditDrain(cfg, p), EditDrains(p))
  {
    var states, steps := EditDrain(cfg, p), EditDrains(p);
    WorkerKeeps(cfg, p);
    EditArrives(cfg, p);
    forall k | 0 <= k < 3 ensures DrainStep(states[k], steps[k]) && Next(cfg, states[k], steps[k], states[k + 1]) {
      if k == 0 {} else if k == 1 {} else {}
    }
  }

  lemma EditAnswers(p: SegmentPtr)
    ensures DriverOf(One)(WorkItem(p, CLASS_NAME)) == Answer(1, None)
    ensures forall m | 0 <= m < |EditDrains(p)| :: AnswersBy(EditDrains(p)[m], DriverOf(One))
  {
    assert DriverOf(One)(WorkItem(p, CLASS_NAME)) == One(CLASS_NAME, LabelMap(p.entries));
  }

  lemma EditUnreported(cfg: Config, p: SegmentPtr)
    ensures var s := EditDrain(cfg, p)[3]; Quiescent(s) && !Reported(cfg, s, DriverOf(One))
  {
    EditAnswers(p);
    assert WorkItem(p, CLASS_NAME) in EditDrain(cfg, p)[3].control.capacities;
  }

  /** So a poll during the delivery of an edit may leave an object that does not report the answer. */
  lemma PollMissesEdit(cfg: Config, p: SegmentPtr)
    returns (states: seq<State>, steps: seq<Step>, drained: seq<State>, drains: seq<Step>)
    ensures Run(cfg, states, steps) && DrainRun(cfg, drained, drains) && drained[0] == Polled(states[|steps|])
    ensures forall m | 0 <= m < |drains| :: AnswersBy(drains[m], DriverOf(One))
    ensures Quiescent(drained[|drains|]) && !Reported(cfg, drained[|drains|], DriverOf(One))
  {
    states, steps := EditRun(cfg, p), EditSteps(cfg, p);
    drained, drains := EditDrain(cfg, p), EditDrains(p);
    EditRuns(cfg, p);
    EditDrained(cfg, p);
    EditAnswers(p);
    EditUnreported(cfg, p);
  }
}
