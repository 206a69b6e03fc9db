/**
 The sweep that takes the source-protection finalizer off snapshots
 (pkg/controller/snapshot_finalizer_controller.go), and the snapshots that provisioning
 protects with it (pkg/controller/controller.go).
 */
module SnapshotProtection {
  import opened Orders
  import opened Finalizers

  const SNAPSHOT_FINALIZER := "provisioner.storage.kubernetes.io/volumesnapshot-as-source-protection"
  const SNAPSHOT_KIND := "VolumeSnapshot"
  const SNAPSHOT_API_GROUP := "snapshot.storage.k8s.io"
  const PVC_KIND := "PersistentVolumeClaim"

  /** spec.dataSource has no namespace. */
  datatype Source = Source(kind: string, name: string, apiGroup: Option<string>)

  datatype SourceRef = SourceRef(kind: string, name: string, apiGroup: Option<string>, namespace: Option<string>)

  datatype Claim = Claim(
    namespace: string, name: string, phase: string,
    dataSource: Option<Source>, dataSourceRef: Option<SourceRef>)

  datatype Snapshot = Snapshot(namespace: string, name: string, finalizers: seq<string>, version: nat)

  datatype Location = Location(namespace: string, name: string)

  // What the sweep looks at

  predicate SnapshotGroup(apiGroup: Option<string>) {
    apiGroup.None? || apiGroup.value == SNAPSHOT_API_GROUP
  }

  predicate SnapshotSource(source: Option<Source>) {
    source.Some? && source.value.kind == SNAPSHOT_KIND && SnapshotGroup(source.value.apiGroup)
  }

  predicate SnapshotRef(ref: Option<SourceRef>) {
    ref.Some? && ref.value.kind == SNAPSHOT_KIND && SnapshotGroup(ref.value.apiGroup)
  }

  /** isSnapshotSourcePVC */
  predicate IsSnapshotSource(claim: Claim) {
    SnapshotSource(claim.dataSource) || SnapshotRef(claim.dataSourceRef)
  }

  /** snapshotNameFromPVC */
  function SnapshotOf(claim: Claim): Location {
    if SnapshotSource(claim.dataSource) then Location(claim.namespace, claim.dataSource.value.name)
    else if SnapshotRef(claim.dataSourceRef) then
      var ref := claim.dataSourceRef.value;
      var namespace := if ref.namespace.Some? && ref.namespace.value != "" then ref.namespace.value
      else claim.namespace;
      Location(namespace, ref.name)
    else Location("", "")
  }

  predicate Unfinished(claim: Claim) {
    claim.phase == "Pending" || claim.phase == ""
  }

  /** The claim still needs the snapshot. */
  predicate Needs(claim: Claim, at: Location) {
    Unfinished(claim) && IsSnapshotSource(claim) && SnapshotOf(claim) == at
  }

  predicate Needed(claims: seq<Claim>, at: Location) {
    exists c :: c in claims && Needs(c, at)
  }

  function At(snapshot: Snapshot): Location {
    Location(snapshot.namespace, snapshot.name)
  }

  predicate Orphaned(snapshot: Snapshot, claims: seq<Claim>) {
    SNAPSHOT_FINALIZER in snapshot.finalizers && !Needed(claims, At(snapshot))
  }

  /** The updates that a sweep over these snapshots sends, in order. */
  function Updates(snapshots: seq<Snapshot>, claims: seq<Claim>): seq<Snapshot> {
    if snapshots == [] then []
    else
      var n := |snapshots| - 1;
      var last := snapshots[n];
      Updates(snapshots[..n], claims) +
      if Orphaned(last, claims) then [last.(finalizers := Without(last.finalizers, SNAPSHOT_FINALIZER))] else []
  }

  // The string index

  function Key(at: Location): string {
    at.namespace + "/" + at.name
  }

  predicate SlashFree(s: string) {
    '/' !in s
  }

  /** Keys tell locations apart, given that namespaces contain no slash. */
  lemma KeyInjective(a: Location, b: Location)
    requires SlashFree(a.namespace) && SlashFree(b.namespace) && Key(a) == Key(b)
    ensures a == b
  {
    assert Key(a)[|a.namespace|] == '/' && Key(b)[|b.namespace|] == '/';
    assert |a.namespace| == |b.namespace|;
    assert a.namespace == Key(a)[..|a.namespace|] && b.namespace == Key(b)[..|b.namespace|];
    assert a.name == Key(a)[|a.namespace| + 1..] && b.name == Key(b)[|b.namespace| + 1..];
  }

  predicate NamespacesSlashFree(claims: seq<Claim>) {
    forall c | c in claims :: SlashFree(SnapshotOf(c).namespace)
  }

  /** buildPendingSnapshotIndex, for a listing that succeeds. */
  method BuildPendingSnapshotIndex(claims: seq<Claim>) returns (pending: set<string>)
    requires NamespacesSlashFree(claims)
    ensures forall at: Location | SlashFree(at.namespace) :: Key(at) in pending <==> Needed(claims, at)
  {
    pending := {};
    for i := 0 to |claims|
      invariant pending == set c | c in claims[..i] && Unfinished(c) && IsSnapshotSource(c) :: Key(SnapshotOf(c))
    {
      assert claims[..i + 1] == claims[..i] + [claims[i]];
      if !Unfinished(claims[i]) {
        continue;
      }
      if !IsSnapshotSource(claims[i]) {
        continue;
      }
      pending := pending + {Key(SnapshotOf(claims[i]))};
    }
    assert claims[..|claims|] == claims;
    forall at: Location | SlashFree(at.namespace) ensures Key(at) in pending <==> Needed(claims, at) {
      if Key(at) in pending {
        var c :| c in claims && Unfinished(c) && IsSnapshotSource(c) && Key(SnapshotOf(c)) == Key(at);
        KeyInjective(SnapshotOf(c), at);
      }
    }
  }

  /**
   sweepOrphanedFinalizers: updates exactly the snapshots that carry the finalizer and that no
   unfinished claim refers to. The context is cancelled before the snapshot with that index,
   or not at all if there is none.
   */
  method Sweep(snapshots: seq<Snapshot>, claims: seq<Claim>, cancelled: nat) returns (updates: seq<Snapshot>)
    requires NamespacesSlashFree(claims) && forall s | s in snapshots :: SlashFree(s.namespace)
    ensures updates == Updates(if cancelled <= |snapshots| then snapshots[..cancelled] else snapshots, claims)
  {
    var pending := BuildPendingSnapshotIndex(claims);
    updates := [];
    for i := 0 to |snapshots|
      invariant i <= cancelled && updates == Updates(snapshots[..i], claims)
    {
      if i == cancelled {
        return;
      }
      var snapshot := snapshots[i];
      assert snapshot in snapshots;
      assert snapshots[..i + 1][..i] == snapshots[..i];
      if SNAPSHOT_FINALIZER !in snapshot.finalizers {
        continue;
      }
      if Key(At(snapshot)) in pending {
        continue;
      }
      var finalizers := RemoveFinalizer(snapshot.finalizers, SNAPSHOT_FINALIZER);
      updates := updates + [snapshot.(finalizers := finalizers)];
    }
    assert snapshots[..|snapshots|] == snapshots;
  }

  /** The update for an orphaned snapshot takes nothing but the finalizer away. */
  lemma {:induction false} UpdatesMembers(snapshots: seq<Snapshot>, claims: seq<Claim>, u: Snapshot)
    ensures u in Updates(snapshots, claims) <==>
            exists s :: s in snapshots && Orphaned(s, claims) &&
                        u == s.(finalizers := Without(s.finalizers, SNAPSHOT_FINALIZER))
  {
    if snapshots != [] {
      var n := |snapshots| - 1;
      UpdatesMembers(snapshots[..n], claims, u);
      assert snapshots == snapshots[..n] + [snapshots[n]];
      assert snapshots[n] in snapshots;
    }
  }

  /** A data source or reference that names a snapshot: of the right kind, in the right group or in none. */
  predicate NamesSnapshot(kind: string, apiGroup: Option<string>) {
    kind == "VolumeSnapshot" && (apiGroup == None || apiGroup == Some("snapshot.storage.k8s.io"))
  }

  /** The claim is to be restored from that snapshot; spec.dataSource goes before spec.dataSourceRef. */
  predicate RestoresFrom(claim: Claim, namespace: string, name: string) {
    if claim.dataSource.Some? && NamesSnapshot(claim.dataSource.value.kind, claim.dataSource.value.apiGroup) then
      namespace == claim.namespace && name == claim.dataSource.value.name
    else
      && claim.dataSourceRef.Some?
      && NamesSnapshot(claim.dataSourceRef.value.kind, claim.dataSourceRef.value.apiGroup)
      && name == claim.dataSourceRef.value.name
      && if claim.dataSourceRef.value.namespace in {None, Some("")} then namespace == claim.namespace
         else claim.dataSourceRef.value.namespace == Some(namespace)
  }

  lemma NeedsExactly(claim: Claim, at: Location)
    ensures Needs(claim, at) <==>
            (claim.phase == "Pending" || claim.phase == "") && RestoresFrom(claim, at.namespace, at.name)
  {
  }

  /** A sweep updates a snapshot exactly if it has the finalizer and no pending or new claim is restored from it. */
  lemma OrphanedExactly(snapshot: Snapshot, claims: seq<Claim>)
    ensures Orphaned(snapshot, claims) <==>
              && SNAPSHOT_FINALIZER in snapshot.finalizers
              && forall c | c in claims && RestoresFrom(c, snapshot.namespace, snapshot.name) ::
                   c.phase != "Pending" && c.phase != ""
  {
    forall c
      ensures Needs(c, At(snapshot)) <==>
              (c.phase == "Pending" || c.phase == "") && RestoresFrom(c, snapshot.namespace, snapshot.name)
    {
      NeedsExactly(c, At(snapshot));
    }
  }

  /** A snapshot is updated if and only if it is orphaned. */
  lemma {:induction false} UpdatesExactly(snapshots: seq<Snapshot>, claims: seq<Claim>, s: Snapshot)
    requires s in snapshots
    requires DistinctBy(At, snapshots)
    ensures Orphaned(s, claims) <==> exists u :: u in Updates(snapshots, claims) && At(u) == At(s)
  {
    var n := |snapshots| - 1;
    var last := snapshots[n];
    UpdatesListed(snapshots[..n], claims);
    if s == last {
      if Orphaned(s, claims) {
        assert Updates(snapshots, claims)[|Updates(snapshots[..n], claims)|] in Updates(snapshots, claims);
      }
      forall u | u in Updates(snapshots[..n], claims) ensures At(u) != At(s) {
        var i :| 0 <= i < n && At(snapshots[i]) == At(u);
      }
    } else {
      UpdatesExactly(snapshots[..n], claims, s);
      var i :| 0 <= i < n && snapshots[i] == s;
      assert At(s) != At(last);
    }
  }

  lemma {:induction false} UpdatesListed(snapshots: seq<Snapshot>, claims: seq<Claim>)
    ensures forall u | u in Updates(snapshots, claims) :: exists i :: 0 <= i < |snapshots| && At(snapshots[i]) == At(u)
  {
    if snapshots != [] {
      var n := |snapshots| - 1;
      UpdatesListed(snapshots[..n], claims);
      forall u | u in Updates(snapshots, claims) ensures exists i :: 0 <= i < |snapshots| && At(snapshots[i]) == At(u) {
        if u in Updates(snapshots[..n], claims) {
          var i :| 0 <= i < n && At(snapshots[..n][i]) == At(u);
          assert At(snapshots[i]) == At(u);
        } else {
          assert At(snapshots[n]) == At(u);
        }
      }
    }
  }

  // What provisioning protects

  datatype GrantFrom = GrantFrom(group: string, kind: string, namespace: string)

  datatype GrantTo = GrantTo(group: string, kind: string, name: Option<string>)

  datatype Grant = Grant(namespace: string, from: seq<GrantFrom>, to: seq<GrantTo>)

  predicate FromAllows(grant: Grant, claim: Claim) {
    exists f :: f in grant.from && f.group == "" && f.kind == PVC_KIND && f.namespace == claim.namespace
  }

  predicate ToAllows(grant: Grant, ref: SourceRef) {
    exists t :: t in grant.to
      && (if ref.apiGroup.Some? then t.group == ref.apiGroup.value else t.group == "")
      && t.kind == ref.kind
      && (t.name.None? || t.name.value == "" || t.name.value == ref.name)
  }

  /** IsGranted; it is only asked about claims with dataSourceRef.namespace. */
  predicate IsGranted(claim: Claim, ref: SourceRef, grants: seq<Grant>)
    requires ref.namespace.Some?
  {
    exists g :: g in grants && g.namespace == ref.namespace.value && FromAllows(g, claim) && ToAllows(g, ref)
  }

  /** The object reference that dataSource resolves to: kind, group and location. */
  datatype Reference = Reference(kind: string, apiGroup: string, at: Location)

  function GroupOf(apiGroup: Option<string>): string {
    if apiGroup.Some? then apiGroup.value else ""
  }

  /** dataSource; None for its errors and for claims without a source. */
  function DataSource(claim: Claim, crossNamespace: bool, grants: seq<Grant>): Option<Reference> {
    if claim.dataSource.Some? then
      var source := claim.dataSource.value;
      Some(Reference(source.kind, GroupOf(source.apiGroup), Location(claim.namespace, source.name)))
    else if claim.dataSourceRef.None? then None
    else
      var ref := claim.dataSourceRef.value;
      if !crossNamespace && ref.namespace.Some? && ref.namespace.value != "" then None
      else
        var namespace := if ref.namespace.Some? then ref.namespace.value else claim.namespace;
        if namespace != claim.namespace && !IsGranted(claim, ref, grants) then None
        else Some(Reference(ref.kind, GroupOf(ref.apiGroup), Location(namespace, ref.name)))
  }

  /** The snapshot that prepareProvision puts the finalizer on: after the checks of name, kind and group. */
  function ProtectedFor(claim: Claim, crossNamespace: bool, grants: seq<Grant>): Option<Location> {
    var r := DataSource(claim, crossNamespace, grants);
    if && r.Some? && r.value.at.name != ""
       && r.value.kind == SNAPSHOT_KIND && r.value.apiGroup == SNAPSHOT_API_GROUP
    then Some(r.value.at)
    else None
  }

  /**
   The snapshot that is protected for a claim is the one that the sweep finds for it, because
   a grant cannot be in the namespace with the empty name.
   */
  lemma ProtectedIsListed(claim: Claim, crossNamespace: bool, grants: seq<Grant>)
    requires forall g | g in grants :: g.namespace != ""
    requires ProtectedFor(claim, crossNamespace, grants).Some?
    ensures IsSnapshotSource(claim) && SnapshotOf(claim) == ProtectedFor(claim, crossNamespace, grants).value
  {
    if claim.dataSource.None? {
      var ref := claim.dataSourceRef.value;
      assert !(ref.namespace == Some("") && claim.namespace != "");
    }
  }

  /**
   A source in another namespace needs the feature and a grant in that namespace, from claims in
   the claim's own namespace to the group and kind of the source and to its name or any name.
   */
  lemma OtherNamespaceGranted(claim: Claim, crossNamespace: bool, grants: seq<Grant>)
    returns (g: Grant, from: GrantFrom, to: GrantTo)
    requires forall g | g in grants :: g.namespace != ""
    requires DataSource(claim, crossNamespace, grants).Some?
    requires DataSource(claim, crossNamespace, grants).value.at.namespace != claim.namespace
    ensures crossNamespace && claim.dataSource.None?
    ensures g in grants && g.namespace == DataSource(claim, crossNamespace, grants).value.at.namespace
    ensures from in g.from && from == GrantFrom("", PVC_KIND, claim.namespace)
    ensures var r := DataSource(claim, crossNamespace, grants).value;
            && to in g.to && to.group == r.apiGroup && to.kind == r.kind
            && (to.name.None? || to.name.value == "" || to.name.value == r.at.name)
  {
    var ref := claim.dataSourceRef.value;
    g :| g in grants && g.namespace == ref.namespace.value && FromAllows(g, claim) && ToAllows(g, ref);
    from :| from in g.from && from.group == "" && from.kind == PVC_KIND && from.namespace == claim.namespace;
    to :| to in g.to
      && (if ref.apiGroup.Some? then to.group == ref.apiGroup.value else to.group == "")
      && to.kind == ref.kind
      && (to.name.None? || to.name.value == "" || to.name.value == ref.name);
  }

  /** Some grant in the namespace allows claims of this namespace to use the source. */
  ghost predicate GrantedBy(claim: Claim, ref: SourceRef, namespace: string, grants: seq<Grant>) {
    exists g, f, t ::
      && g in grants && g.namespace == namespace
      && f in g.from && f == GrantFrom("", "PersistentVolumeClaim", claim.namespace)
      && t in g.to && t.group == GroupOf(ref.apiGroup) && t.kind == ref.kind &&
          t.name in {None, Some(""), Some(ref.name)}
  }

  lemma GrantedExactly(claim: Claim, ref: SourceRef, grants: seq<Grant>)
    requires ref.namespace.Some?
    ensures IsGranted(claim, ref, grants) <==> GrantedBy(claim, ref, ref.namespace.value, grants)
  {
    if GrantedBy(claim, ref, ref.namespace.value, grants) {
      var g, f, t :|
        && g in grants && g.namespace == ref.namespace.value
        && f in g.from && f == GrantFrom("", "PersistentVolumeClaim", claim.namespace)
        && t in g.to && t.group == GroupOf(ref.apiGroup) && t.kind == ref.kind &&
            t.name in {None, Some(""), Some(ref.name)};
      assert FromAllows(g, claim) && ToAllows(g, ref);
    }
    if IsGranted(claim, ref, grants) {
      var g :| g in grants && g.namespace == ref.namespace.value && FromAllows(g, claim) && ToAllows(g, ref);
      var f :| f in g.from && f.group == "" && f.kind == PVC_KIND && f.namespace == claim.namespace;
      var t :| t in g.to
        && (if ref.apiGroup.Some? then t.group == ref.apiGroup.value else t.group == "")
        && t.kind == ref.kind
        && (t.name.None? || t.name.value == "" || t.name.value == ref.name);
      assert f == GrantFrom("", "PersistentVolumeClaim", claim.namespace);
    }
  }

  /**
   Which snapshot gets the finalizer: the one in spec.dataSource, or without that the one in
   spec.dataSourceRef if it is in the claim's namespace, or in another one that grants it.
   */
  lemma ProtectedExactly(claim: Claim, crossNamespace: bool, grants: seq<Grant>, at: Location)
    ensures ProtectedFor(claim, crossNamespace, grants) == Some(at) <==>
              && at.name != ""
              && if claim.dataSource.Some? then
                   && claim.dataSource.value.kind == "VolumeSnapshot"
                   && claim.dataSource.value.apiGroup == Some("snapshot.storage.k8s.io")
                   && at == Location(claim.namespace, claim.dataSource.value.name)
                 else
                   && claim.dataSourceRef.Some?
                   && var ref := claim.dataSourceRef.value;
                      && ref.kind == "VolumeSnapshot" && ref.apiGroup == Some("snapshot.storage.k8s.io")
                      && at.name == ref.name
                      && if ref.namespace.None? then at.namespace == claim.namespace
                         else
                           && ref.namespace == Some(at.namespace) && (crossNamespace || at.namespace == "")
                           && (at.namespace == claim.namespace || GrantedBy(claim, ref, at.namespace, grants))
  {
    if claim.dataSourceRef.Some? && claim.dataSourceRef.value.namespace.Some? {
      GrantedExactly(claim, claim.dataSourceRef.value, grants);
    }
  }

  /** No sweep takes the finalizer off a snapshot that is protected for a claim it knows to be unfinished. */
  lemma {:induction false} SweepKeepsProtected(
    snapshots: seq<Snapshot>, claims: seq<Claim>, claim: Claim, crossNamespace: bool, grants: seq<Grant>)
    requires forall g | g in grants :: g.namespace != ""
    requires claim in claims && Unfinished(claim) && ProtectedFor(claim, crossNamespace, grants).Some?
    ensures forall u | u in Updates(snapshots, claims) :: At(u) != ProtectedFor(claim, crossNamespace, grants).value
  {
    ProtectedIsListed(claim, crossNamespace, grants);
    NeededNotUpdated(snapshots, claims, SnapshotOf(claim));
  }

  lemma {:induction false} NeededNotUpdated(snapshots: seq<Snapshot>, claims: seq<Claim>, at: Location)
    requires Needed(claims, at)
    ensures forall u | u in Updates(snapshots, claims) :: At(u) != at
  {
    if snapshots != [] {
      NeededNotUpdated(snapshots[..|snapshots| - 1], claims, at);
    }
  }
}
