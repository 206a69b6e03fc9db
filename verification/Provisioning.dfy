/**
 How a Provision call ends (pkg/controller/controller.go): what happens to a volume that
 CreateVolume returned, which state is reported, and when the remembered topology is dropped.
 */
module Provisioning {
  import opened Orders
  import opened Segments
  import opened Requirements
  import opened RequirementMeaning
  import opened SelectedNode
  import opened WellFormedTerms
  import opened TopologyStore
  import opened Generation
  import opened VolumeAffinity

  const DELETE_VOLUME_RETRY_COUNT := 5

  datatype State = Finished | InBackground | NoChange | Reschedule

  /** The gRPC codes that are told apart; NotGRPC is any other error. */
  datatype Code = NotGRPC | ResourceExhausted | Canceled | DeadlineExceeded | Unavailable | Aborted | OtherCode

  datatype Volume = Volume(id: string, capacity: nat, contentSource: bool, topology: seq<map<string, string>>)

  datatype CreateAnswer = CreateFailed(code: Code) | Created(volume: Volume)

  /** A failed call may have deleted the volume nevertheless. */
  datatype DeleteAnswer = Deleted | DeleteFailed(gone: bool)

  /** handle is that of the CSI source; None for an in-tree volume. */
  datatype PersistentVolume = PersistentVolume(handle: Option<string>, capacity: nat, affinity: Option<Affinity>)

  /** TranslateCSIPVToInTree; on failure it returns nil or its input. */
  datatype Translation = Translated(pv: PersistentVolume) | FailedWithNil | FailedWithInput

  /** What Delete meets: an in-tree volume is translated first, and several checks may refuse. */
  datatype Deletion = Deletion(migratable: bool, toCSI: Option<PersistentVolume>, refused: bool, answer: DeleteAnswer)

  /** What one Provision call meets. */
  datatype Env = Env(
    rightDriver: bool,
    owned: bool,                        // checkNode; an error counts as not owned
    earlyFailure: Option<State>,        // of prepareProvision, before the requirements
    supportsTopology: bool,
    csiNodeNotFound: bool,
    lateFailure: Option<State>,         // of prepareProvision, after the requirements
    requestedBytes: nat,
    sourceExpected: bool,
    create: CreateAnswer,
    cleanup: seq<DeleteAnswer>,
    migrated: bool,
    translation: Translation,
    deletion: Deletion)

  // Errors

  /** gRPC and CSI leave open whether the driver still executes the call. */
  predicate MayBeRunning(code: Code) {
    code == NotGRPC || code == Canceled || code == DeadlineExceeded || code == Unavailable || code == Aborted
  }

  /** checkError */
  function CheckError(code: Code, mayReschedule: bool): State {
    match code
    case NotGRPC => InBackground
    case ResourceExhausted => if mayReschedule then Reschedule else Finished
    case Canceled => InBackground
    case DeadlineExceeded => InBackground
    case Unavailable => InBackground
    case Aborted => InBackground
    case OtherCode => Finished
  }

  // The end of a call, as a function of what it met

  predicate TooSmall(env: Env, volume: Volume) {
    volume.capacity != 0 && volume.capacity < env.requestedBytes
  }

  predicate SourceMissing(env: Env, volume: Volume) {
    env.sourceExpected && !volume.contentSource
  }

  /** Delete succeeds for the CSI volume that could not be translated. */
  predicate DeleteSucceeds(env: Env) {
    && env.translation.FailedWithInput?
    && (env.deletion.migratable ==> env.deletion.toCSI.Some? && env.deletion.toCSI.value.handle.Some?)
    && !env.deletion.refused && env.deletion.answer.Deleted?
  }

  /** returned: with a PV and without error; forgets: the remembered topology is dropped. */
  datatype End = End(state: State, returned: bool, forgets: bool)

  function Concluded(env: Env, mayReschedule: bool): End {
    match env.create
    case CreateFailed(code) =>
      var s := CheckError(code, mayReschedule);
      End(s, false, env.supportsTopology && (s == Finished || s == Reschedule))
    case Created(volume) =>
      if TooSmall(env, volume) || SourceMissing(env, volume) then End(InBackground, false, false)
      else if env.migrated && !env.translation.Translated? then
        End(if DeleteSucceeds(env) then Finished else InBackground, false, false)
      else End(Finished, true, env.supportsTopology)
  }

  datatype Preparation = Stopped(state: State) | Ready(requirement: Outcome)

  /** checks: the requirements that checkNode generates while it looks for an owner. */
  datatype Attempt = Attempt(call: Call, checks: seq<Call>, env: Env)

  /** Everything before CreateVolume, and what is remembered afterwards. */
  function Prepared(a: Attempt, info: Info): (Preparation, Info) {
    var env := a.env;
    if !env.rightDriver then (Stopped(Finished), info)
    else if !env.owned then (Stopped(NoChange), if env.supportsTopology then After(info, a.checks) else info)
    else if env.earlyFailure.Some? then (Stopped(env.earlyFailure.value), info)
    else if !env.supportsTopology then
      (if env.lateFailure.Some? then Stopped(env.lateFailure.value) else Ready(Unconstrained), info)
    else
      var (outcome, info') := Generate(a.call.args, a.call.cluster, info, a.call.aggregated);
      (if outcome.Failed? then
          Stopped(if outcome.reason == NoCSINode && env.csiNodeNotFound then Reschedule else NoChange)
       else if env.lateFailure.Some? then Stopped(env.lateFailure.value)
       else Ready(outcome),
       info')
  }

  predicate MayReschedule(a: Attempt) {
    a.env.supportsTopology && a.call.args.selectedNode != ""
  }

  function Ended(a: Attempt, info: Info): (End, Info) {
    var (preparation, info') := Prepared(a, info);
    if preparation.Stopped? then (End(preparation.state, false, false), info')
    else
      var end := Concluded(a.env, MayReschedule(a));
      (end, if end.forgets then NOTHING else info')
  }

  // The driver

  class Driver {
    var volumes: set<string>

    constructor ()
      ensures volumes == {}
    {
      volumes := {};
    }

    method CreateVolume(answer: CreateAnswer)
      modifies this
      ensures volumes == if answer.Created? then old(volumes) + {answer.volume.id} else old(volumes)
    {
      if answer.Created? {
        volumes := volumes + {answer.volume.id};
      }
    }

    method DeleteVolume(id: string, answer: DeleteAnswer) returns (ok: bool)
      modifies this
      ensures ok <==> answer.Deleted?
      ensures volumes == if answer.Deleted? || answer.gone then old(volumes) - {id} else old(volumes)
    {
      ok := answer.Deleted?;
      if ok || answer.gone {
        volumes := volumes - {id};
      }
    }
  }

  /** cleanupVolume: tries until the first success, at most five times. */
  method CleanupVolume(driver: Driver, id: string, answers: seq<DeleteAnswer>) returns (ok: bool, calls: nat)
    requires |answers| == DELETE_VOLUME_RETRY_COUNT
    modifies driver
    ensures ok <==> Deleted in answers
    ensures 0 < calls <= DELETE_VOLUME_RETRY_COUNT && (forall k | 0 <= k < calls - 1 :: answers[k] != Deleted)
    ensures ok ==> answers[calls - 1] == Deleted && driver.volumes == old(driver.volumes) - {id}
    ensures old(driver.volumes) - {id} <= driver.volumes <= old(driver.volumes)
    ensures !ok ==> calls == DELETE_VOLUME_RETRY_COUNT
  {
    ok, calls := false, 0;
    while calls < DELETE_VOLUME_RETRY_COUNT
      invariant calls <= DELETE_VOLUME_RETRY_COUNT && !ok
      invariant forall k | 0 <= k < calls :: answers[k] != Deleted
      invariant old(driver.volumes) - {id} <= driver.volumes <= old(driver.volumes)
    {
      ok := driver.DeleteVolume(id, answers[calls]);
      calls := calls + 1;
      if ok {
        assert answers[calls - 1] == Deleted;
        return;
      }
    }
  }

  /** The volume that Delete works on. */
  function CSIVolume(pv: Option<PersistentVolume>, d: Deletion): Option<PersistentVolume> {
    if pv.Some? && d.migratable then d.toCSI else pv
  }

  /** Delete: an error, or the volume is gone. */
  method Delete(driver: Driver, pv: Option<PersistentVolume>, d: Deletion) returns (ok: bool)
    modifies driver
    ensures ok <==> CSIVolume(pv, d).Some? && CSIVolume(pv, d).value.handle.Some? && !d.refused && d.answer.Deleted?
    ensures ok ==> CSIVolume(pv, d).value.handle.value !in driver.volumes
    ensures driver.volumes <= old(driver.volumes)
    ensures forall v | v in old(driver.volumes) && v !in driver.volumes ::
            CSIVolume(pv, d).Some? && CSIVolume(pv, d).value.handle == Some(v)
  {
    if pv.None? {
      return false;
    }
    var volume := pv.value;
    if d.migratable {
      if d.toCSI.None? {
        return false;
      }
      volume := d.toCSI.value;
    }
    if volume.handle.None? {
      return false;
    }
    if d.refused {
      return false;
    }
    ok := driver.DeleteVolume(volume.handle.value, d.answer);
  }

  // After CreateVolume

  /** If a CSI volume can be taken for an in-tree volume at all, translating it back keeps the handle. */
  predicate HandleKept(env: Env) {
    var toCSI := env.deletion.toCSI;
    env.create.Created? && env.deletion.migratable && toCSI.Some? && toCSI.value.handle.Some? ==>
      toCSI.value.handle.value == env.create.volume.id
  }

  /** The affinity describes where the driver says the volume is. */
  predicate RightAffinity(affinity: Option<Affinity>, supportsTopology: bool, topology: seq<map<string, string>>) {
    if !supportsTopology || topology == [] then affinity == None
    else affinity.Some? && Generated(topology, if affinity.value.Some? then affinity.value.value else [])
  }

  /** Big enough or of unknown size, and with the content that was asked for. */
  predicate Suitable(env: Env, volume: Volume) {
    && (volume.capacity == 0 || volume.capacity >= env.requestedBytes)
    && (env.sourceExpected ==> volume.contentSource)
  }

  /** The driver created a suitable volume, which could be translated if that was needed. */
  predicate Acceptable(env: Env) {
    env.create.Created? && Suitable(env, env.create.volume) && (env.migrated ==> env.translation.Translated?)
  }

  predicate RightVolume(pv: PersistentVolume, env: Env)
    requires env.create.Created?
  {
    var volume := env.create.volume;
    if env.migrated then env.translation == Translated(pv)
    else
      && pv.handle == Some(volume.id)
      && pv.capacity == (if volume.capacity == 0 then env.requestedBytes else volume.capacity)
      && pv.capacity >= env.requestedBytes
      && RightAffinity(pv.affinity, env.supportsTopology, volume.topology)
  }

  /** A volume that is not suitable is cleaned up, if some attempt to do so succeeds. */
  predicate CleanedUp(env: Env, volumes: set<string>) {
    env.create.Created? && !Suitable(env, env.create.volume) && Deleted in env.cleanup ==>
      env.create.volume.id !in volumes
  }

  /** A created volume becomes a PV, or it is deleted, or provisioning goes on. */
  method Conclude(env: Env, mayReschedule: bool, driver: Driver) returns (pv: Option<PersistentVolume>, end: End)
    requires |env.cleanup| == DELETE_VOLUME_RETRY_COUNT && HandleKept(env)
    modifies driver
    ensures end == Concluded(env, mayReschedule) && (pv.Some? <==> end.returned)
    ensures (pv.Some? <==> Acceptable(env)) && CleanedUp(env, driver.volumes)
    ensures env.create.Created? && pv.None? && end.state != InBackground ==> env.create.volume.id !in driver.volumes
    ensures pv.Some? ==> env.create.Created? && env.create.volume.id in driver.volumes && RightVolume(pv.value, env)
    ensures forall v | v in old(driver.volumes) && !(env.create.Created? && v == env.create.volume.id) ::
            v in driver.volumes
  {
    driver.CreateVolume(env.create);
    if env.create.CreateFailed? {
      var state := CheckError(env.create.code, mayReschedule);
      return None, End(state, false, env.supportsTopology && (state == Finished || state == Reschedule));
    }
    var volume := env.create.volume;
    var capacity := volume.capacity;
    if capacity == 0 {
      capacity := env.requestedBytes;
    } else if capacity < env.requestedBytes {
      var ok, calls := CleanupVolume(driver, volume.id, env.cleanup);
      return None, End(InBackground, false, false);
    }
    if env.sourceExpected && !volume.contentSource {
      var ok, calls := CleanupVolume(driver, volume.id, env.cleanup);
      return None, End(InBackground, false, false);
    }
    var affinity: Option<Affinity> := None;
    if env.supportsTopology {
      affinity := GenerateVolumeNodeAffinity(volume.topology);
    }
    var created := PersistentVolume(Some(volume.id), capacity, affinity);
    if env.migrated {
      if !env.translation.Translated? {
        var deleted := Delete(driver, if env.translation.FailedWithNil? then None else Some(created), env.deletion);
        return None, End(if deleted then Finished else InBackground, false, false);
      }
      created := env.translation.pv;
    }
    return Some(created), End(Finished, true, env.supportsTopology);
  }

  // The whole call

  /** The arguments of one more generation of requirements. */
  datatype Check = Check(args: Args, cluster: Cluster)

  predicate CheckedBy(checks: seq<Check>, calls: seq<Call>) {
    && |calls| == |checks|
    && forall i | 0 <= i < |checks| :: calls[i].args == checks[i].args && calls[i].cluster == checks[i].cluster
  }

  lemma CheckedOneMore(checks: seq<Check>, i: nat, calls: seq<Call>, call: Call)
    requires i < |checks| && CheckedBy(checks[..i], calls)
    requires call.args == checks[i].args && call.cluster == checks[i].cluster
    ensures CheckedBy(checks[..i + 1], calls + [call])
  {
    assert checks[..i + 1] == checks[..i] + [checks[i]];
  }

  /** One more generation of requirements. */
  method CheckOnce(check: Check, uid: string, store: InMemoryStore) returns (ghost call: Call)
    requires store.Valid() && WellFormedInfo(store.Remembered(uid)) && WellFormed(check.args, check.cluster)
    modifies store.Repr
    ensures EntryOnly(store, uid) && WellFormedInfo(store.Remembered(uid))
    ensures call.args == check.args && call.cluster == check.cluster
    ensures store.Remembered(uid) == Remembering(old(store.Remembered(uid)), call)
  {
    var answer;
    ghost var aggregated;
    answer, aggregated := GenerateAccessibilityRequirements(check.args, check.cluster, uid, store);
    call := Call(check.args, check.cluster, aggregated);
  }

  /** What checkNode does to the entry of the claim: for allowed topologies and when checking capacity. */
  method CheckNode(checks: seq<Check>, uid: string, store: InMemoryStore) returns (ghost calls: seq<Call>)
    requires store.Valid() && WellFormedInfo(store.Remembered(uid))
    requires forall c | c in checks :: WellFormed(c.args, c.cluster)
    modifies store.Repr
    ensures EntryOnly(store, uid) && WellFormedInfo(store.Remembered(uid))
    ensures CheckedBy(checks, calls) && store.Remembered(uid) == After(old(store.Remembered(uid)), calls)
  {
    calls := [];
    for i := 0 to |checks|
      invariant EntryOnly(store, uid) && WellFormedInfo(store.Remembered(uid))
      invariant CheckedBy(checks[..i], calls) && store.Remembered(uid) == After(old(store.Remembered(uid)), calls)
    {
      ghost var call := CheckOnce(checks[i], uid, store);
      CheckedOneMore(checks, i, calls, call);
      FoldSnoc(Remembering, old(store.Remembered(uid)), calls, call);
      calls := calls + [call];
    }
    assert checks[..|checks|] == checks;
  }

  /** The listings of the call are those that were made, if any. */
  ghost predicate Lists(args: Args, cluster: Cluster, info: Info, aggregated: seq<Segment>) {
    cluster.csiNodes.Some? && cluster.nodes.Some? ==> Aggregates(args, cluster, KeysOf(args, cluster, info), aggregated)
  }

  /** prepareProvision and the checks before it. */
  method Prepare(args: Args, cluster: Cluster, checks: seq<Check>, env: Env, uid: string, store: InMemoryStore)
    returns (stopped: Option<State>, answer: Answer, ghost attempt: Attempt)
    requires store.Valid() && WellFormed(args, cluster) && WellFormedInfo(store.Remembered(uid))
    requires forall c | c in checks :: WellFormed(c.args, c.cluster)
    modifies store.Repr
    ensures EntryOnly(store, uid) && WellFormedInfo(store.Remembered(uid))
    ensures attempt.env == env && attempt.call.args == args && attempt.call.cluster == cluster
    ensures Lists(args, cluster, old(store.Remembered(uid)), attempt.call.aggregated)
    ensures env.rightDriver && !env.owned && env.supportsTopology ==> CheckedBy(checks, attempt.checks)
    ensures var p := Prepared(attempt, old(store.Remembered(uid)));
            && store.Remembered(uid) == p.1
            && stopped == (if p.0.Stopped? then Some(p.0.state) else None)
            && (p.0.Ready? ==> answer == AnswerOf(p.0.requirement))
  {
    answer := NoRequirement;
    attempt := Attempt(
      Call(args, cluster, AnyAggregation(args, cluster, KeysOf(args, cluster, store.Remembered(uid)))), [], env);
    if !env.rightDriver {
      return Some(Finished), answer, attempt;
    }
    if !env.owned {
      if env.supportsTopology {
        ghost var calls := CheckNode(checks, uid, store);
        attempt := attempt.(checks := calls);
      }
      return Some(NoChange), answer, attempt;
    }
    if env.earlyFailure.Some? {
      return env.earlyFailure, answer, attempt;
    }
    if env.supportsTopology {
      ghost var aggregated;
      answer, aggregated := GenerateAccessibilityRequirements(args, cluster, uid, store);
      attempt := attempt.(call := Call(args, cluster, aggregated));
      if answer.Error? {
        var notFound := answer.reason == NoCSINode && env.csiNodeNotFound;
        return Some(if notFound then Reschedule else NoChange), answer, attempt;
      }
    }
    return env.lateFailure, answer, attempt;
  }

  /** Provision: the volume it creates, if any, is never abandoned, and no other volume is touched. */
  method Provision(
    args: Args, cluster: Cluster, checks: seq<Check>, env: Env, uid: string, store: InMemoryStore, driver: Driver)
    returns (pv: Option<PersistentVolume>, state: State, request: Option<Answer>, ghost attempt: Attempt)
    requires store.Valid() && WellFormed(args, cluster) && WellFormedInfo(store.Remembered(uid))
    requires (forall c | c in checks :: WellFormed(c.args, c.cluster)) && driver !in store.Repr
    requires |env.cleanup| == DELETE_VOLUME_RETRY_COUNT && HandleKept(env)
    modifies store.Repr, driver
    ensures EntryOnly(store, uid) && WellFormedInfo(store.Remembered(uid))
    ensures attempt.env == env && attempt.call.args == args && attempt.call.cluster == cluster
    ensures Lists(args, cluster, old(store.Remembered(uid)), attempt.call.aggregated)
    ensures env.rightDriver && !env.owned && env.supportsTopology ==> CheckedBy(checks, attempt.checks)
    ensures var p := Prepared(attempt, old(store.Remembered(uid))).0;
            var (end, info) := Ended(attempt, old(store.Remembered(uid)));
            && state == end.state && (pv.Some? <==> end.returned) && store.Remembered(uid) == info
            && request == if p.Ready? then Some(AnswerOf(p.requirement)) else None
    ensures (pv.Some? <==> request.Some? && Acceptable(env)) && (request.Some? ==> CleanedUp(env, driver.volumes))
    ensures request.Some? && env.create.Created? && pv.None? && state != InBackground ==>
              env.create.volume.id !in driver.volumes
    ensures pv.Some? ==>
              && request.Some? && env.create.Created? && env.create.volume.id in driver.volumes
              && RightVolume(pv.value, env)
    ensures forall v | v in old(driver.volumes) && !(env.create.Created? && v == env.create.volume.id) ::
              v in driver.volumes
  {
    var stopped, answer;
    stopped, answer, attempt := Prepare(args, cluster, checks, env, uid, store);
    if stopped.Some? {
      return None, stopped.value, None, attempt;
    }
    request := Some(answer);
    var end;
    label Requested:
    pv, end := Conclude(env, env.supportsTopology && args.selectedNode != "", driver);
    Isolated@Requested(store);
    state := end.state;
    if end.forgets {
      store.Delete(uid);
    }
  }

  // How a call ends, in terms of what it met

  /** Everything up to CreateVolume goes well. */
  predicate Reaches(a: Attempt, info: Info) {
    && a.env.rightDriver && a.env.owned && a.env.earlyFailure.None? && a.env.lateFailure.None?
    && (a.env.supportsTopology ==> !Generate(a.call.args, a.call.cluster, info, a.call.aggregated).0.Failed?)
  }

  /** CreateVolume is called exactly then, and with the generated requirement if there is topology. */
  lemma ReachesExactly(a: Attempt, info: Info)
    ensures Prepared(a, info).0.Ready? <==> Reaches(a, info)
    ensures var requirement := if a.env.supportsTopology
                               then Generate(a.call.args, a.call.cluster, info, a.call.aggregated).0
                               else Unconstrained;
            Reaches(a, info) ==> Prepared(a, info).0.requirement == requirement
  {
  }

  /** The requirements are generated, for this claim by this driver. */
  predicate Generates(a: Attempt) {
    a.env.rightDriver && a.env.owned && a.env.earlyFailure.None? && a.env.supportsTopology
  }

  /** The preparation fails with that state before or after the requirements. */
  predicate FailsWith(a: Attempt, info: Info, state: State) {
    && a.env.rightDriver && a.env.owned
    && if a.env.earlyFailure.Some? then a.env.earlyFailure.value == state
       else
         && a.env.lateFailure == Some(state)
         && (Generates(a) ==> !Generate(a.call.args, a.call.cluster, info, a.call.aggregated).0.Failed?)
  }

  /** The selected node has no CSINode object and its topology keys are not remembered either. */
  predicate NodeGone(a: Attempt, info: Info) {
    && Generates(a) && a.env.csiNodeNotFound
    && a.call.args.selectedNode != "" && info.keys == [] && a.call.cluster.csiNode.None?
  }

  lemma NodeGoneExactly(a: Attempt, info: Info)
    ensures NodeGone(a, info) <==>
              && Generates(a) && a.env.csiNodeNotFound
              && Generate(a.call.args, a.call.cluster, info, a.call.aggregated).0 == Failed(NoCSINode)
  {
    LookUpFailsExactly(a.call.args, a.call.cluster, info, a.call.aggregated);
  }

  /** The scheduler is asked for another node if the node is gone or its resources are exhausted. */
  lemma RescheduleExactly(a: Attempt, info: Info)
    ensures Ended(a, info).0.state == Reschedule <==>
              || NodeGone(a, info) || FailsWith(a, info, Reschedule)
              || (&& Reaches(a, info) && a.env.create == CreateFailed(ResourceExhausted)
                  && a.env.supportsTopology && a.call.args.selectedNode != "")
  {
    NodeGoneExactly(a, info);
  }

  /** CreateVolume failed and may be running, or left a volume that is not wanted and may still exist. */
  lemma InBackgroundExactly(a: Attempt, info: Info)
    ensures Ended(a, info).0.state == InBackground <==>
              || FailsWith(a, info, InBackground)
              || (&& Reaches(a, info)
                  && match a.env.create
                     case CreateFailed(code) => code in {NotGRPC, Canceled, DeadlineExceeded, Unavailable, Aborted}
                     case Created(volume) => !Suitable(a.env, volume) || (!Acceptable(a.env) && !DeleteSucceeds(a.env)))
  {
  }

  /** Nothing changed if another instance is responsible or the preparation failed. */
  lemma NoChangeExactly(a: Attempt, info: Info)
    ensures Ended(a, info).0.state == NoChange <==>
              || (a.env.rightDriver && !a.env.owned) || FailsWith(a, info, NoChange)
              || (&& Generates(a) && !NodeGone(a, info)
                  && Generate(a.call.args, a.call.cluster, info, a.call.aggregated).0.Failed?)
  {
    NodeGoneExactly(a, info);
  }

  /** A PV is returned exactly for an acceptable volume, and the entry is dropped then or after a final failure. */
  lemma ReturnedExactly(a: Attempt, info: Info)
    ensures Ended(a, info).0.returned <==> Reaches(a, info) && Acceptable(a.env)
    ensures Ended(a, info).0.forgets <==>
              && Reaches(a, info) && a.env.supportsTopology
              && (Acceptable(a.env) || (a.env.create.CreateFailed? && Ended(a, info).0.state != InBackground))
  {
  }

  /** A call that does not get as far as the requirements leaves the entry alone, unless it looks for an owner. */
  lemma EntryUntouched(a: Attempt, info: Info)
    requires !Generates(a) && !(a.env.rightDriver && !a.env.owned && a.env.supportsTopology)
    ensures Ended(a, info).1 == info
  {
  }

  /** Otherwise it remembers what the generated requirements do, unless the entry is dropped. */
  lemma EntryRemembers(a: Attempt, info: Info)
    ensures Generates(a) && !Ended(a, info).0.forgets ==>
            Ended(a, info).1 == Generate(a.call.args, a.call.cluster, info, a.call.aggregated).1
    ensures a.env.rightDriver && !a.env.owned && a.env.supportsTopology ==> Ended(a, info).1 == After(info, a.checks)
  {
  }

  // Retries

  function AfterAttempts(info: Info, attempts: seq<Attempt>): Info {
    if attempts == [] then info
    else
      var n := |attempts| - 1;
      Ended(attempts[n], AfterAttempts(info, attempts[..n])).1
  }

  predicate Retains(a: Attempt, info: Info) {
    !Ended(a, info).0.forgets
  }

  /** No attempt drops what is remembered. */
  predicate AllRetain(info: Info, attempts: seq<Attempt>) {
    forall k | 0 <= k < |attempts| :: Retains(attempts[k], AfterAttempts(info, attempts[..k]))
  }

  lemma RetainedKeeps(a: Attempt, info: Info)
    requires Retains(a, info)
    ensures Keeps(info, Ended(a, info).1)
  {
    GenerateKeeps(a.call.args, a.call.cluster, info, a.call.aggregated);
    CallsKeep(info, a.checks);
  }

  /** A call that told its caller that provisioning may be going on, or that nothing changed, drops nothing. */
  lemma UnsettledKeeps(a: Attempt, info: Info)
    requires Ended(a, info).0.state == InBackground || Ended(a, info).0.state == NoChange
    ensures Retains(a, info) && Keeps(info, Ended(a, info).1)
  {
    RetainedKeeps(a, info);
  }

  lemma {:induction false} AttemptsKeep(info: Info, attempts: seq<Attempt>)
    requires AllRetain(info, attempts)
    ensures Keeps(info, AfterAttempts(info, attempts))
  {
    if attempts != [] {
      var n := |attempts| - 1;
      forall k | 0 <= k < n ensures Retains(attempts[..n][k], AfterAttempts(info, attempts[..n][..k])) {
        assert attempts[..n][..k] == attempts[..k];
        assert Retains(attempts[k], AfterAttempts(info, attempts[..k]));
      }
      AttemptsKeep(info, attempts[..n]);
      assert Retains(attempts[n], AfterAttempts(info, attempts[..n]));
      RetainedKeeps(attempts[n], AfterAttempts(info, attempts[..n]));
    }
  }

  /**
   As long as no call drops what is remembered for a claim, every further CreateVolume call with
   the same arguments carries the same requirement, whatever happened to nodes and CSINodes.
   */
  lemma RequestsRepeat(first: Attempt, info: Info, between: seq<Attempt>, last: Attempt)
    requires first.env.supportsTopology && Prepared(first, info).0.Ready?
    requires Retains(first, info) && AllRetain(Ended(first, info).1, between)
    requires last.env.supportsTopology && last.call.args == first.call.args
    requires Prepared(last, AfterAttempts(Ended(first, info).1, between)).0.Ready?
    ensures Prepared(last, AfterAttempts(Ended(first, info).1, between)).0 == Prepared(first, info).0
  {
    var info1 := Ended(first, info).1;
    AttemptsKeep(info1, between);
    SameAnswer(first.call.args, first.call.cluster, last.call.cluster, info, AfterAttempts(info1, between),
               first.call.aggregated, last.call.aggregated);
  }

  /**
   If CreateVolume failed and may still be running, every further CreateVolume call with the same
   arguments carries the same requirement, until a call drops what is remembered.
   */
  lemma RunningCallRepeats(first: Attempt, info: Info, between: seq<Attempt>, last: Attempt)
    requires first.env.supportsTopology && Prepared(first, info).0.Ready?
    requires first.env.create.CreateFailed? && MayBeRunning(first.env.create.code)
    requires AllRetain(Ended(first, info).1, between)
    requires last.env.supportsTopology && last.call.args == first.call.args
    requires Prepared(last, AfterAttempts(Ended(first, info).1, between)).0.Ready?
    ensures Prepared(last, AfterAttempts(Ended(first, info).1, between)).0 == Prepared(first, info).0
  {
    RequestsRepeat(first, info, between, last);
  }

  /** What is remembered survives a failed CreateVolume call exactly if that may still be running. */
  lemma SurvivesFailureExactly(a: Attempt, info: Info)
    requires a.env.supportsTopology && Prepared(a, info).0.Ready? && Prepared(a, info).1 != NOTHING
    requires a.env.create.CreateFailed?
    ensures Ended(a, info).1 == Prepared(a, info).1 <==> MayBeRunning(a.env.create.code)
  {
  }

  // Final states

  predicate Final(state: State) {
    state == Finished || state == Reschedule
  }

  /** The PV could not be translated to an in-tree one. */
  predicate TranslationFailed(env: Env) {
    env.create.Created? && env.migrated && !env.translation.Translated?
  }

  /**
   A final state leaves nothing remembered exactly if nothing was remembered anyway, or the call
   came as far as CreateVolume and did not fail in the translation of the PV.
   */
  lemma FinalForgetsExactly(a: Attempt, info: Info)
    requires Final(Ended(a, info).0.state)
    ensures Ended(a, info).1 == NOTHING <==>
            || Prepared(a, info).1 == NOTHING
            || (Prepared(a, info).0.Ready? && a.env.supportsTopology && !TranslationFailed(a.env))
  {
  }

  // A claim with a remembered topology that a final state does not drop

  const VOLUME := Volume("volume", 1, false, [])

  /** A volume that is created, cannot be translated, and is deleted again. */
  const UNTRANSLATED := Env(
    true, true, None, true, false, None, 1, false, Created(VOLUME),
    [Deleted, Deleted, Deleted, Deleted, Deleted], true, FailedWithInput,
    Deletion(false, None, false, Deleted))

  function ZoneAttempt(env: Env): Attempt {
    Attempt(Call(ZoneArgs("n1", true, []), ZoneCluster("n1", "a"), []), [], env)
  }

  /** Two calls with a final state that leave the topology of the selected node behind. */
  lemma FinalKeepsEntry()
    ensures |UNTRANSLATED.cleanup| == DELETE_VOLUME_RETRY_COUNT && HandleKept(UNTRANSLATED)
    ensures var a := ZoneAttempt(UNTRANSLATED);
            Prepared(a, NOTHING).0.Ready? && Ended(a, NOTHING).0.state == Finished && Ended(a, NOTHING).1 != NOTHING
    ensures var a := ZoneAttempt(UNTRANSLATED.(lateFailure := Some(Finished)));
            Ended(a, NOTHING).0.state == Finished && Ended(a, NOTHING).1 != NOTHING
  {
    ZoneLookUp("n1", true, [], "a");
    RequisiteProperties([Zone("a")]);
  }
}
