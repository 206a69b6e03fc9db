/**
 Protection of clone sources: setCloneFinalizer (pkg/controller/controller.go) puts the
 cloning finalizer on the source claim, syncClaim (pkg/controller/clone_controller.go) takes it
 off again. Both read claims from informer caches. The claims of a namespace are written in
 one order; a cache is the state after some prefix of the writes.
 */
module CloneProtection {
  import opened Orders
  import opened Finalizers

  const CLONE_FINALIZER := "provisioner.storage.kubernetes.io/cloning-protection"

  datatype Phase = Pending | Bound | Lost

  /** dataSource is the name in spec.dataSource if that is of kind PersistentVolumeClaim. */
  datatype Pvc = Pvc(dataSource: Option<string>, phase: Phase, deleting: bool, finalizers: seq<string>, version: nat)

  type Store = map<string, Pvc>

  /**
   history[k] is the namespace after k writes, the last one is what the API server has.
   passed maps a claim to the states in which its provisioner checked the source and in
   which the source carried the finalizer.
   */
  datatype State = State(history: seq<Store>, passed: map<string, (nat, nat)>)

  datatype Step =
    | ForeignWrite(name: string, pvc: Pvc)
    | ForeignRemove(name: string)
    | SyncClaim(name: string, got: nat, listed: nat)
    | Protect(claim: string, checked: nat, got: nat)

  predicate Carries(store: Store, name: string) {
    name in store && CLONE_FINALIZER in store[name].finalizers
  }

  predicate PendingClone(store: Store, claim: string, source: string) {
    claim in store && store[claim].dataSource == Some(source) && store[claim].phase == Pending
  }

  // The API server

  function Now(s: State): Store
    requires s.history != []
  {
    s.history[|s.history| - 1]
  }

  function Put(s: State, store: Store): State {
    s.(history := s.history + [store])
  }

  /** A write of a claim that is being deleted and has no finalizers left removes it. */
  function Stored(s: State, name: string, pvc: Pvc): State
    requires s.history != []
  {
    if pvc.deleting && pvc.finalizers == [] then Put(s, Now(s) - {name})
    else Put(s, Now(s)[name := pvc.(version := |s.history|)])
  }

  /** Accepted only for the current version. */
  predicate Current(s: State, name: string, pvc: Pvc)
    requires s.history != []
  {
    name in Now(s) && Now(s)[name].version == pvc.version
  }

  /**
   What others may do: names are not reused, a claim that is not pending does not become
   pending again, deletion is not taken back, the source is immutable, and nobody else
   takes the cloning finalizer away.
   */
  ghost predicate Allowed(s: State, name: string, pvc: Pvc)
    requires s.history != []
  {
    if name in Now(s) then
      var was := Now(s)[name];
      && pvc.dataSource == was.dataSource && (was.deleting ==> pvc.deleting)
      && (pvc.phase == Pending ==> was.phase == Pending)
      && (CLONE_FINALIZER in was.finalizers ==> CLONE_FINALIZER in pvc.finalizers)
    else forall k | 0 <= k < |s.history| :: name !in s.history[k]
  }

  // The two protocols

  /** Every clone of the claim is through. */
  predicate NoneCloning(listed: Store, source: string) {
    forall c | c in listed && listed[c].dataSource == Some(source) :: listed[c].phase != Pending
  }

  /** The update that syncClaim sends for a claim, given the listed ones; None if it leaves the claim alone. */
  function Update(name: string, claim: Pvc, listed: Store): Option<Pvc> {
    if CLONE_FINALIZER !in claim.finalizers || exists c :: c in listed && PendingClone(listed, c, name) then None
    else Some(claim.(finalizers := Without(claim.finalizers, CLONE_FINALIZER)))
  }

  /** syncClaim, up to the update call. */
  method SyncClaimUpdate(name: string, claim: Pvc, listed: Store) returns (update: Option<Pvc>)
    ensures update == Update(name, claim, listed)
    ensures update.Some? <==> CLONE_FINALIZER in claim.finalizers && NoneCloning(listed, name)
    ensures update.Some? ==> update.value == claim.(finalizers := update.value.finalizers)
    ensures update.Some? ==> forall f ::
              multiset(update.value.finalizers)[f] == if f == CLONE_FINALIZER then 0 else multiset(claim.finalizers)[f]
  {
    if CLONE_FINALIZER !in claim.finalizers {
      return None;
    }
    var todo := listed.Keys;
    while todo != {}
      invariant todo <= listed.Keys
      invariant forall c | c in listed.Keys - todo :: !PendingClone(listed, c, name)
      decreases todo
    {
      var c :| c in todo;
      if listed[c].dataSource == Some(name) && listed[c].phase == Pending {
        assert PendingClone(listed, c, name);
        return None;
      }
      todo := todo - {c};
    }
    var finalizers := RemoveFinalizer(claim.finalizers, CLONE_FINALIZER);
    return Some(claim.(finalizers := finalizers));
  }

  /** syncClaim for a claim read in one state, with the other claims listed in a later one. */
  function Synced(s: State, name: string, got: nat, listed: nat): State
    requires s.history != [] && got <= listed < |s.history| && name in s.history[got]
  {
    var claim := s.history[got][name];
    var update := Update(name, claim, s.history[listed]);
    if update.None? || !Current(s, name, claim) then s else Stored(s, name, update.value)
  }

  /** The checks in getPVCSource that matter here. */
  predicate UsableSource(store: Store, source: string) {
    source in store && store[source].phase == Bound && !store[source].deleting
  }

  /** setCloneFinalizer, after getPVCSource accepted the source in an earlier state. */
  function Protected(s: State, claim: string, source: string, checked: nat, got: nat): State
    requires s.history != [] && checked <= got < |s.history| && source in s.history[got]
  {
    var pvc := s.history[got][source];
    if CLONE_FINALIZER in pvc.finalizers then s.(passed := s.passed[claim := (checked, got)])
    else if !Current(s, source, pvc) then s
    else
      var stored := Stored(s, source, pvc.(finalizers := pvc.finalizers + [CLONE_FINALIZER]));
      stored.(passed := s.passed[claim := (checked, |s.history|)])
  }

  ghost predicate Next(s: State, step: Step, s': State)
    requires s.history != []
  {
    match step
    case ForeignWrite(name, pvc) =>
      Allowed(s, name, pvc) && s' == Stored(s, name, pvc)
    case ForeignRemove(name) =>
      name in Now(s) && !Carries(Now(s), name) && s' == Put(s, Now(s) - {name})
    case SyncClaim(name, got, listed) =>
      // only claims with a deletion timestamp get into the queue
      && got <= listed < |s.history| && name in s.history[got] && s.history[got][name].deleting
      && s' == Synced(s, name, got, listed)
    case Protect(claim, checked, got) =>
      && checked <= got < |s.history|
      && claim in s.history[checked] && s.history[checked][claim].dataSource.Some?
      && var source := s.history[checked][claim].dataSource.value;
         && UsableSource(s.history[checked], source) && source in s.history[got]
         && s' == Protected(s, claim, source, checked, got)
  }

  ghost predicate Run(states: seq<State>, steps: seq<Step>) {
    && |states| == |steps| + 1
    && states[0] == State([map[]], map[])
    && forall k | 0 <= k < |steps| :: states[k].history != [] && Next(states[k], steps[k], states[k + 1])
  }

  // What holds along the history

  /** The history of one claim between two states in which it exists. */
  ghost predicate Evolves(history: seq<Store>, j: nat, k: nat, name: string)
    requires j <= k < |history|
  {
    name in history[j] && name in history[k] ==>
      && history[k][name].dataSource == history[j][name].dataSource
      && (history[j][name].deleting ==> history[k][name].deleting)
      && (history[k][name].phase == Pending ==> history[j][name].phase == Pending)
      && (history[k][name].version == history[j][name].version ==> history[k][name] == history[j][name])
      && forall m | j <= m <= k :: name in history[m]
  }

  ghost predicate Tidy(history: seq<Store>) {
    && (forall k, n | 0 <= k < |history| && n in history[k] :: history[k][n].version <= k)
    && (forall j, k, n {:trigger Evolves(history, j, k, n)} | 0 <= j <= k < |history| :: Evolves(history, j, k, n))
  }

  /** The claim was deleting in one state, and a later listed one had no pending clone of it. */
  ghost predicate Reason(history: seq<Store>, t: nat, name: string, got: nat, listed: nat)
    requires t < |history|
  {
    && got <= listed <= t && name in history[got] && history[got][name].deleting
    && forall c | c in history[listed] :: !PendingClone(history[listed], c, name)
  }

  ghost predicate Justified(history: seq<Store>, t: nat, name: string)
    requires t < |history|
  {
    exists got, listed :: Reason(history, t, name, got, listed)
  }

  /** The finalizer only ever went away for a reason. */
  ghost predicate Careful(history: seq<Store>) {
    forall t, n {:trigger Justified(history, t, n)}
      | 0 <= t < |history| - 1 && Carries(history[t], n) && !Carries(history[t + 1], n) :: Justified(history, t, n)
  }

  ghost predicate PassedOk(s: State, claim: string)
    requires claim in s.passed
  {
    var (checked, carried) := s.passed[claim];
    && checked <= carried < |s.history|
    && claim in s.history[checked] && s.history[checked][claim].dataSource.Some?
    && var source := s.history[checked][claim].dataSource.value;
       UsableSource(s.history[checked], source) && Carries(s.history[carried], source)
  }

  ghost predicate Inv(s: State) {
    && s.history != [] && Tidy(s.history) && Careful(s.history)
    && forall c | c in s.passed :: PassedOk(s, c)
  }

  /**
   While a clone exists and is pending, its source keeps the finalizer from the state in
   which it was seen with it.
   */
  lemma {:induction false} FinalizerStays(
    history: seq<Store>, claim: string, source: string, checked: nat, carried: nat, t: nat, now: nat)
    requires Tidy(history) && Careful(history)
    requires checked <= carried <= t <= now < |history|
    requires claim in history[checked] && UsableSource(history[checked], source) && Carries(history[carried], source)
    requires PendingClone(history[now], claim, source)
    ensures Carries(history[t], source)
    decreases t
  {
    if t > carried {
      FinalizerStays(history, claim, source, checked, carried, t - 1, now);
      NotRemoved(history, claim, source, checked, t - 1, now);
    }
  }

  lemma NotRemoved(history: seq<Store>, claim: string, source: string, checked: nat, t: nat, now: nat)
    requires Tidy(history) && Careful(history) && checked <= t < now < |history|
    requires claim in history[checked] && UsableSource(history[checked], source) && Carries(history[t], source)
    requires PendingClone(history[now], claim, source)
    ensures Carries(history[t + 1], source)
  {
    if !Carries(history[t + 1], source) {
      assert Justified(history, t, source);
      var got, listed :| Reason(history, t, source, got, listed);
      DeletingLater(history, source, checked, got);
      PendingBefore(history, claim, source, checked, listed, now);
    }
  }

  lemma DeletingLater(history: seq<Store>, source: string, checked: nat, got: nat)
    requires Tidy(history) && checked < |history| && got < |history|
    requires UsableSource(history[checked], source) && source in history[got] && history[got][source].deleting
    ensures checked < got
  {
    assert checked < got || Evolves(history, got, checked, source);
  }

  lemma PendingBefore(history: seq<Store>, claim: string, source: string, checked: nat, listed: nat, now: nat)
    requires Tidy(history) && checked <= listed <= now < |history|
    requires claim in history[checked] && PendingClone(history[now], claim, source)
    ensures PendingClone(history[listed], claim, source)
  {
    assert Evolves(history, checked, now, claim);
    assert Evolves(history, listed, now, claim);
  }

  // Every step keeps it

  /** A new state in which one claim changes the way it may. */
  ghost predicate Extends(history: seq<Store>, store: Store, name: string) {
    && history != []
    && var now := history[|history| - 1];
       && (forall n | n != name :: (n in store <==> n in now) && (n in store ==> store[n] == now[n]))
       && (name in store ==>
             && store[name].version == |history|
             && if name in now then
                  && store[name].dataSource == now[name].dataSource && (now[name].deleting ==> store[name].deleting)
                  && (store[name].phase == Pending ==> now[name].phase == Pending)
                else forall k | 0 <= k < |history| :: name !in history[k])
  }

  lemma ExtendsEvolves(history: seq<Store>, store: Store, name: string, j: nat, n: string)
    requires Tidy(history) && Extends(history, store, name) && j < |history|
    ensures Evolves(history + [store], j, |history|, n)
  {
    var h := history + [store];
    if n in h[j] && n in store {
      var last := |history| - 1;
      assert Evolves(history, j, last, n);
      assert history[j][n].version <= j;
      forall m | j <= m <= |history| ensures n in h[m] {
        assert m == |history| || h[m] == history[m];
      }
    }
  }

  lemma ExtendsTidy(history: seq<Store>, store: Store, name: string)
    requires Tidy(history) && Extends(history, store, name)
    ensures Tidy(history + [store])
  {
    var h := history + [store];
    forall j, k, n | 0 <= j <= k < |h| ensures Evolves(h, j, k, n) {
      if k < |history| {
        assert Evolves(history, j, k, n);
      } else if j < |history| {
        ExtendsEvolves(history, store, name, j, n);
      }
    }
    forall k, n | 0 <= k < |h| && n in h[k] ensures h[k][n].version <= k {
      if k == |history| && n != name {
        assert n in history[k - 1];
      }
    }
  }

  lemma JustifiedLater(history: seq<Store>, store: Store, t: nat, n: string)
    requires t < |history| && Justified(history, t, n)
    ensures Justified(history + [store], t, n)
  {
    var got, listed :| Reason(history, t, n, got, listed);
    assert Reason(history + [store], t, n, got, listed);
  }

  lemma ExtendsCareful(history: seq<Store>, store: Store)
    requires history != [] && Careful(history)
    requires forall n | Carries(history[|history| - 1], n) && !Carries(store, n) :: Justified(history, |history| - 1, n)
    ensures Careful(history + [store])
  {
    var h := history + [store];
    forall t, n | 0 <= t < |h| - 1 && Carries(h[t], n) && !Carries(h[t + 1], n) ensures Justified(h, t, n) {
      if t < |history| - 1 {
        assert Justified(history, t, n);
      }
      JustifiedLater(history, store, t, n);
    }
  }

  lemma PassedLater(s: State, store: Store, claim: string)
    requires claim in s.passed && PassedOk(s, claim)
    ensures PassedOk(Put(s, store), claim)
  {
  }

  /** Appending a legal state keeps the invariant. */
  lemma PutInv(s: State, store: Store, name: string)
    requires Inv(s) && Extends(s.history, store, name)
    requires Carries(Now(s), name) && !Carries(store, name) ==> Justified(s.history, |s.history| - 1, name)
    ensures Inv(Put(s, store))
  {
    ExtendsTidy(s.history, store, name);
    forall n | Carries(Now(s), n) && !Carries(store, n) ensures Justified(s.history, |s.history| - 1, n) {
      assert n == name;
    }
    ExtendsCareful(s.history, store);
    forall c | c in s.passed ensures PassedOk(Put(s, store), c) {
      PassedLater(s, store, c);
    }
  }

  lemma CurrentIsNow(s: State, name: string, got: nat)
    requires Inv(s) && got < |s.history| && name in s.history[got] && Current(s, name, s.history[got][name])
    ensures s.history[got][name] == Now(s)[name]
  {
    assert Evolves(s.history, got, |s.history| - 1, name);
  }

  lemma SyncInv(s: State, name: string, got: nat, listed: nat)
    requires Inv(s) && got <= listed < |s.history| && name in s.history[got] && s.history[got][name].deleting
    ensures Inv(Synced(s, name, got, listed))
  {
    var s' := Synced(s, name, got, listed);
    if s' != s {
      CurrentIsNow(s, name, got);
      assert Reason(s.history, |s.history| - 1, name, got, listed);
      PutInv(s, s'.history[|s.history|], name);
    }
  }

  lemma ProtectInv(s: State, step: Step, s': State)
    requires Inv(s) && step.Protect? && Next(s, step, s')
    ensures Inv(s')
  {
    var source := s.history[step.checked][step.claim].dataSource.value;
    var pvc := s.history[step.got][source];
    if CLONE_FINALIZER !in pvc.finalizers && Current(s, source, pvc) {
      CurrentIsNow(s, source, step.got);
      var stored := Stored(s, source, pvc.(finalizers := pvc.finalizers + [CLONE_FINALIZER]));
      PutInv(s, stored.history[|s.history|], source);
      assert Carries(s'.history[|s.history|], source);
    }
  }

  lemma NextInv(s: State, step: Step, s': State)
    requires Inv(s) && Next(s, step, s')
    ensures Inv(s')
  {
    match step
    case ForeignWrite(name, pvc) => PutInv(s, s'.history[|s.history|], name);
    case ForeignRemove(name) => PutInv(s, s'.history[|s.history|], name);
    case SyncClaim(name, got, listed) => SyncInv(s, name, got, listed);
    case Protect(_, _, _) => ProtectInv(s, step, s');
  }

  lemma {:induction false} RunInv(states: seq<State>, steps: seq<Step>, k: nat)
    requires Run(states, steps) && k < |states|
    ensures Inv(states[k])
  {
    if k > 0 {
      RunInv(states, steps, k - 1);
      assert Next(states[k - 1], steps[k - 1], states[k - 1 + 1]);
      NextInv(states[k - 1], steps[k - 1], states[k]);
    }
  }

  /**
   In every run, whatever the caches: while a clone that has passed setCloneFinalizer exists
   and is pending, its source exists and carries the finalizer.
   */
  lemma SourceProtected(states: seq<State>, steps: seq<Step>, k: nat, claim: string, source: string)
    requires Run(states, steps) && k < |states| && states[k].history != []
    requires claim in states[k].passed && PendingClone(Now(states[k]), claim, source)
    ensures Carries(Now(states[k]), source)
  {
    RunInv(states, steps, k);
    var s := states[k];
    var (checked, carried) := s.passed[claim];
    var now := |s.history| - 1;
    assert PassedOk(s, claim);
    assert Evolves(s.history, checked, now, claim);
    FinalizerStays(s.history, claim, source, checked, carried, now, now);
  }

  // When the finalizer goes away

  /** What the update needs: the finalizer, no clone that is still pending in the listing, and a current read. */
  predicate Releases(s: State, step: Step, name: string)
    requires s.history != []
  {
    && step.SyncClaim? && step.name == name && step.got < |s.history| && step.listed < |s.history|
    && Carries(s.history[step.got], name) && Current(s, name, s.history[step.got][name])
    && NoneCloning(s.history[step.listed], name)
  }

  lemma SyncReleases(s: State, step: Step, s': State, name: string)
    requires Inv(s) && step.SyncClaim? && Next(s, step, s') && s'.history != []
    ensures Carries(Now(s), name) && !Carries(Now(s'), name) <==> Releases(s, step, name)
  {
    var claim := s.history[step.got][step.name];
    WithoutElements(claim.finalizers, CLONE_FINALIZER);
    if Current(s, step.name, claim) {
      CurrentIsNow(s, step.name, step.got);
    }
  }

  /** In every run, the finalizer is taken off a claim exactly by such a call of syncClaim. */
  lemma ReleasedExactly(states: seq<State>, steps: seq<Step>, k: nat, name: string)
    requires Run(states, steps) && k < |steps| && states[k].history != [] && states[k + 1].history != []
    ensures Carries(Now(states[k]), name) && !Carries(Now(states[k + 1]), name) <==> Releases(states[k], steps[k], name)
  {
    RunInv(states, steps, k);
    assert Next(states[k], steps[k], states[k + 1]);
    if steps[k].SyncClaim? {
      SyncReleases(states[k], steps[k], states[k + 1], name);
    } else if steps[k].Protect? && Carries(Now(states[k]), name) {
      ProtectKeeps(states[k], steps[k], states[k + 1], name);
    }
  }

  lemma ProtectKeeps(s: State, step: Step, s': State, name: string)
    requires Inv(s) && step.Protect? && Next(s, step, s') && s'.history != [] && Carries(Now(s), name)
    ensures Carries(Now(s'), name)
  {
  }

  /**
   In every run: with up-to-date caches, syncClaim takes the finalizer off a claim that is being
   deleted exactly if no clone of it is pending. The claim is gone then, unless it has other finalizers.
   */
  lemma CleanSyncExactly(states: seq<State>, steps: seq<Step>, k: nat, name: string)
    requires Run(states, steps) && k < |states| && states[k].history != []
    requires Carries(Now(states[k]), name) && Now(states[k])[name].deleting
    ensures var s, now := states[k], |states[k].history| - 1;
            var s' := Synced(s, name, now, now);
            && Next(s, SyncClaim(name, now, now), s') && s'.history != []
            && (!Carries(Now(s'), name) <==> NoneCloning(Now(s), name))
            && (!Carries(Now(s'), name) ==>
                (name in Now(s') <==> exists f :: f in Now(s)[name].finalizers && f != CLONE_FINALIZER))
  {
    var s, now := states[k], |states[k].history| - 1;
    RunInv(states, steps, k);
    var step, s' := SyncClaim(name, now, now), Synced(s, name, now, now);
    SyncReleases(s, step, s', name);
    WithoutElements(Now(s)[name].finalizers, CLONE_FINALIZER);
    NoneLeft(Without(Now(s)[name].finalizers, CLONE_FINALIZER));
  }

  lemma NoneLeft(finalizers: seq<string>)
    ensures finalizers == [] <==> forall f :: f !in finalizers
  {
    if finalizers != [] {
      assert finalizers[0] in finalizers;
    }
  }

  // When it is put on

  /** With up-to-date caches, setCloneFinalizer succeeds and only adds the finalizer to the source. */
  lemma ProtectSucceeds(states: seq<State>, steps: seq<Step>, k: nat, claim: string, source: string)
    requires Run(states, steps) && k < |states| && states[k].history != []
    requires claim in Now(states[k]) && Now(states[k])[claim].dataSource == Some(source)
    requires source in Now(states[k]) && Now(states[k])[source].phase == Bound && !Now(states[k])[source].deleting
    ensures var s, now := states[k], |states[k].history| - 1;
            var s' := Protected(s, claim, source, now, now);
            && Next(s, Protect(claim, now, now), s') && s'.history != []
            && claim in s'.passed && Carries(Now(s'), source)
            && Now(s').Keys == Now(s).Keys
            && (forall n | n in Now(s) && n != source :: Now(s')[n] == Now(s)[n])
            && Now(s')[source].finalizers == Now(s)[source].finalizers +
                 if Carries(Now(s), source) then [] else [CLONE_FINALIZER]
  {
  }

  /** A claim only passes for a source that was bound and not being deleted when it was checked. */
  lemma PassedSource(states: seq<State>, steps: seq<Step>, k: nat, claim: string)
    returns (source: string, checked: nat, carried: nat)
    requires Run(states, steps) && k < |states| && claim in states[k].passed
    ensures var h := states[k].history;
            && checked <= carried < |h|
            && claim in h[checked] && h[checked][claim].dataSource == Some(source)
            && source in h[checked] && h[checked][source].phase == Bound && !h[checked][source].deleting
            && source in h[carried] && CLONE_FINALIZER in h[carried][source].finalizers
  {
    RunInv(states, steps, k);
    assert PassedOk(states[k], claim);
    checked, carried := states[k].passed[claim].0, states[k].passed[claim].1;
    source := states[k].history[checked][claim].dataSource.value;
  }
}
