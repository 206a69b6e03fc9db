/**
 Distributed provisioning with immediate binding (checkNode and becomeOwner in
 pkg/controller/controller.go): one instance per node, all racing to put their own name into
 the selected-node annotation of a claim. Instances see the claim through caches that may lag
 by any amount; the API server accepts an update only for the current resource version.
 */
module Ownership {
  import opened Orders

  /** One version of the claim; content stands for everything but the annotation. */
  datatype Claim = Claim(uid: nat, version: nat, selected: string, content: nat)

  /** becomeOwner has three places where other instances can interfere. */
  datatype Phase =
    | Idle
    | Waiting(claim: Claim)                // sleeping and polling the cache
    | Ready(claim: Claim, current: Claim)  // about to update the version it read

  datatype State = State(
    log: seq<Claim>,            // all versions ever accepted, also of deleted claims with that name
    live: Option<Claim>,
    instances: map<string, Phase>,
    passed: set<(string, nat)>) // node and claim UID for which checkNode returned true

  datatype Step =
    | Receive(node: string, claim: Claim)
    | Poll(node: string, current: Option<Claim>, slept: bool)
    | GiveUp(node: string)
    | Write(node: string)
    | ForeignWrite(claim: Claim)
    | ForeignDelete

  function Become(s: State, node: string, phase: Phase): State {
    s.(instances := s.instances[node := phase])
  }

  /** checkNode: pass, start becoming the owner, or ignore. */
  ghost predicate Received(s: State, node: string, claim: Claim, s': State) {
    if claim.selected == "" then s' == s || s' == Become(s, node, Waiting(claim))
    else if claim.selected == node then s' == s.(passed := s.passed + {(node, claim.uid)})
    else s' == s
  }

  /** One iteration of the wait loop with the closure check(). */
  function Polled(s: State, node: string, claim: Claim, current: Option<Claim>, slept: bool): State {
    if current.None? || current.value.uid != claim.uid then Become(s, node, Idle)
    else if current.value.selected != "" && current.value.selected != node then Become(s, node, Idle)
    else if slept then Become(s, node, Ready(claim, current.value))
    else s
  }

  function Append(s: State, claim: Claim): State {
    s.(log := s.log + [claim], live := Some(claim))
  }

  /** The update at the end of becomeOwner; a conflict starts over. */
  function Written(s: State, node: string, claim: Claim, current: Claim): State {
    if current.selected == node || s.live.None? then Become(s, node, Idle)
    else if s.live.value.version == current.version then
      Append(Become(s, node, Idle), current.(selected := node, version := |s.log|))
    else Become(s, node, Waiting(claim))
  }

  ghost predicate Next(s: State, step: Step, s': State) {
    match step
    case Receive(node, claim) =>
      node != "" && node in s.instances && s.instances[node].Idle? && claim in s.log && Received(s, node, claim, s')
    case Poll(node, current, slept) =>
      && node in s.instances && s.instances[node].Waiting?
      && (current.Some? ==> current.value in s.log)
      && s' == Polled(s, node, s.instances[node].claim, current, slept)
    case GiveUp(node) =>
      node in s.instances && s' == Become(s, node, Idle)
    case Write(node) =>
      && node in s.instances && s.instances[node].Ready?
      && s' == Written(s, node, s.instances[node].claim, s.instances[node].current)
    case ForeignWrite(claim) =>
      && claim.version == |s.log|
      && (if s.live.Some? then claim.uid == s.live.value.uid else forall c | c in s.log :: claim.uid != c.uid)
      && s' == Append(s, claim)
    case ForeignDelete =>
      s' == s.(live := None)
  }

  /** Somebody else clears or changes a selection that was made. */
  predicate Reassigns(s: State, step: Step) {
    step.ForeignWrite? && s.live.Some? && s.live.value.selected != "" && step.claim.selected != s.live.value.selected
  }

  ghost predicate Run(states: seq<State>, steps: seq<Step>) {
    && |states| == |steps| + 1
    && states[0].log == [] && states[0].live.None? && states[0].passed == {}
    && (forall n | n in states[0].instances :: states[0].instances[n].Idle?)
    && forall k | 0 <= k < |steps| :: Next(states[k], steps[k], states[k + 1])
  }

  ghost predicate PhaseOk(s: State, node: string, phase: Phase) {
    match phase
    case Idle => true
    case Waiting(claim) => node != "" && claim in s.log
    case Ready(claim, current) =>
      node != "" && claim in s.log && current in s.log && current.uid == claim.uid &&
      (current.selected == "" || current.selected == node)
  }

  ghost predicate Inv(s: State) {
    && (forall k | 0 <= k < |s.log| :: s.log[k].version == k)
    && (s.live.Some? ==> s.log != [] && s.live.value == s.log[|s.log| - 1])
    && (forall n | n in s.instances :: PhaseOk(s, n, s.instances[n]))
    && (forall node, uid | (node, uid) in s.passed :: SelectedBefore(s.log, node, uid))
  }

  /** Some accepted version of the claim selected the node. */
  ghost predicate SelectedBefore(log: seq<Claim>, node: string, uid: nat) {
    node != "" && exists i :: 0 <= i < |log| && log[i].selected == node && log[i].uid == uid
  }

  lemma NextInv(s: State, step: Step, s': State)
    requires Inv(s) && Next(s, step, s')
    ensures Inv(s') && s.log <= s'.log
  {
    assert s.log <= s'.log;
    forall node, uid | SelectedBefore(s.log, node, uid) ensures SelectedBefore(s'.log, node, uid) {
      var i :| 0 <= i < |s.log| && s.log[i].selected == node && s.log[i].uid == uid;
      assert s'.log[i] == s.log[i];
    }
    forall n | n in s.instances && PhaseOk(s, n, s.instances[n]) ensures PhaseOk(s', n, s.instances[n]) {
    }
  }

  lemma {:induction false} RunInv(states: seq<State>, steps: seq<Step>, k: nat)
    requires Run(states, steps) && k < |states|
    ensures Inv(states[k])
  {
    if k > 0 {
      RunInv(states, steps, k - 1);
      assert Next(states[k - 1], steps[k - 1], states[k - 1 + 1]);
      NextInv(states[k - 1], steps[k - 1], states[k]);
    }
  }

  /**
   In every run, whatever an instance writes to the claim sets the annotation from empty to
   its own node, for the claim it was asked about, and changes nothing else.
   */
  lemma WriteTakesFree(states: seq<State>, steps: seq<Step>, k: nat)
    requires Run(states, steps) && k < |steps| && !steps[k].ForeignWrite? && states[k + 1].log != states[k].log
    ensures steps[k].Write?
    ensures var node := steps[k].node;
            && states[k].live.Some? && states[k].live.value.selected == "" && node != ""
            && states[k].instances[node].Ready? && states[k].instances[node].claim.uid == states[k].live.value.uid
            && states[k + 1].live == Some(states[k].live.value.(selected := node, version := |states[k].log|))
  {
    RunInv(states, steps, k);
    assert Next(states[k], steps[k], states[k + 1]);
  }

  // Who passes checkNode

  /** Along the log a selection, once made for a claim, stays. */
  ghost predicate Steady(log: seq<Claim>) {
    forall i, j | 0 <= i < j < |log| && log[i].uid == log[j].uid && log[i].selected != "" ::
      log[j].selected == log[i].selected
  }

  lemma SteadyAppend(log: seq<Claim>, c: Claim)
    requires Steady(log)
    requires (forall d | d in log :: d.uid != c.uid) ||
             (log != [] && log[|log| - 1].uid == c.uid &&
                 (log[|log| - 1].selected == "" || log[|log| - 1].selected == c.selected))
    ensures Steady(log + [c])
  {
    var n := |log|;
    forall i | 0 <= i < n && log[i].uid == c.uid && log[i].selected != "" ensures c.selected == log[i].selected {
      assert log[i] in log;
      assert i == n - 1 || log[n - 1].selected == log[i].selected;
    }
  }

  lemma NextSteady(s: State, step: Step, s': State)
    requires Inv(s) && Steady(s.log) && Next(s, step, s') && !Reassigns(s, step)
    ensures Steady(s'.log)
  {
    if step.ForeignWrite? {
      SteadyAppend(s.log, step.claim);
    } else if s'.log != s.log {
      SteadyAppend(s.log, s'.log[|s.log|]);
    }
  }

  lemma {:induction false} RunSteady(states: seq<State>, steps: seq<Step>, k: nat)
    requires Run(states, steps) && k < |states|
    requires forall j | 0 <= j < k :: !Reassigns(states[j], steps[j])
    ensures Steady(states[k].log)
  {
    if k > 0 {
      RunSteady(states, steps, k - 1);
      RunInv(states, steps, k - 1);
      assert Next(states[k - 1], steps[k - 1], states[k - 1 + 1]);
      NextSteady(states[k - 1], steps[k - 1], states[k]);
    }
  }

  lemma SteadySelects(log: seq<Claim>, node: string, node': string, uid: nat)
    requires Steady(log) && SelectedBefore(log, node, uid) && SelectedBefore(log, node', uid)
    ensures node == node'
  {
    var i :| 0 <= i < |log| && log[i].selected == node && log[i].uid == uid;
    var j :| 0 <= j < |log| && log[j].selected == node' && log[j].uid == uid;
    assert i < j || j < i || i == j;
  }

  /** If nobody clears or changes a selection, at most one instance ever passes for a claim. */
  lemma OneOwner(states: seq<State>, steps: seq<Step>, k: nat, node: string, node': string, uid: nat)
    requires Run(states, steps) && k < |states|
    requires forall j | 0 <= j < k :: !Reassigns(states[j], steps[j])
    requires (node, uid) in states[k].passed && (node', uid) in states[k].passed
    ensures node == node'
  {
    RunInv(states, steps, k);
    RunSteady(states, steps, k);
    SteadySelects(states[k].log, node, node', uid);
  }

  // Somebody becomes the owner

  /** An idle instance that sees a free claim may start to wait for it. */
  lemma FreeClaimStarts(s: State, node: string, claim: Claim)
    requires node != "" && node in s.instances && s.instances[node].Idle? && claim in s.log && claim.selected == ""
    ensures Next(s, Receive(node, claim), Become(s, node, Waiting(claim)))
  {
  }

  /** In every run, exactly the instance whose name the claim carries passes. */
  lemma PassesExactly(states: seq<State>, steps: seq<Step>, k: nat, node: string, uid: nat)
    requires Run(states, steps) && k < |steps| && (node, uid) !in states[k].passed
    ensures (node, uid) in states[k + 1].passed <==>
              && steps[k].Receive? && steps[k].node == node
              && steps[k].claim.selected == node && steps[k].claim.uid == uid
  {
    RunInv(states, steps, k);
    assert Next(states[k], steps[k], states[k + 1]);
  }

  /** A poll ends the attempt if the claim is gone or taken, and the wait if it is over and the claim still free. */
  lemma PollExactly(states: seq<State>, steps: seq<Step>, k: nat)
    requires Run(states, steps) && k < |steps| && steps[k].Poll?
    ensures steps[k].node in states[k].instances && states[k].instances[steps[k].node].Waiting?
    ensures steps[k].node in states[k + 1].instances
    ensures var node, seen := steps[k].node, steps[k].current;
            var phase, phase' := states[k].instances[node], states[k + 1].instances[node];
            && (phase'.Idle? <==>
                  || seen.None? || seen.value.uid != phase.claim.uid
                  || (seen.value.selected != "" && seen.value.selected != node))
            && (phase'.Ready? <==> !phase'.Idle? && steps[k].slept)
            && (phase'.Ready? ==> phase' == Ready(phase.claim, seen.value))
            && (phase'.Waiting? ==> phase' == phase)
  {
    assert Next(states[k], steps[k], states[k + 1]);
  }

  /**
   A write takes the claim exactly if the version that was read is current and free. After a
   conflict the instance waits again; it stops only if the claim is gone or its own already.
   */
  lemma WriteExactly(states: seq<State>, steps: seq<Step>, k: nat)
    requires Run(states, steps) && k < |steps| && steps[k].Write?
    ensures steps[k].node in states[k].instances && states[k].instances[steps[k].node].Ready?
    ensures steps[k].node in states[k + 1].instances
    ensures var s, s', node := states[k], states[k + 1], steps[k].node;
            var claim, current := s.instances[node].claim, s.instances[node].current;
            && (s'.log != s.log <==> s.live == Some(current) && current.selected == "")
            && (s'.log != s.log ==> s'.live.Some? && s'.live.value.selected == node && s'.instances[node].Idle?)
            && (s'.log == s.log ==> s'.instances[node] ==
                                      if s.live.None? || current.selected == node then Idle else Waiting(claim))
  {
    RunInv(states, steps, k);
    assert Next(states[k], steps[k], states[k + 1]);
    if states[k].live.Some? {
      CurrentVersion(states[k], steps[k].node);
    }
  }

  /** The version tells whether the claim that was read is the live one. */
  lemma CurrentVersion(s: State, node: string)
    requires Inv(s) && node in s.instances && s.instances[node].Ready? && s.live.Some?
    ensures s.live.value.version == s.instances[node].current.version <==> s.live.value == s.instances[node].current
  {
    assert PhaseOk(s, node, s.instances[node]);
    var current := s.instances[node].current;
    var i :| 0 <= i < |s.log| && s.log[i] == current;
  }

  /**
   In every run: as long as a claim is free, every instance that waits for it can still become its
   owner, by three steps of its own with an up-to-date cache.
   */
  lemma WaitingCanWin(states: seq<State>, steps: seq<Step>, k: nat, node: string)
    returns (polled: State, written: State, passed: State)
    requires Run(states, steps) && k < |states|
    requires var s := states[k];
             && node in s.instances && s.instances[node].Waiting? && s.live.Some?
             && s.live.value.uid == s.instances[node].claim.uid && s.live.value.selected == ""
    ensures var s := states[k];
            && Next(s, Poll(node, s.live, true), polled) && Next(polled, Write(node), written)
            && written.live == Some(s.live.value.(selected := node, version := |s.log|))
            && Next(written, Receive(node, written.live.value), passed)
            && (node, s.live.value.uid) in passed.passed
  {
    RunInv(states, steps, k);
    var s := states[k];
    assert PhaseOk(s, node, s.instances[node]);
    polled := Polled(s, node, s.instances[node].claim, s.live, true);
    written := Written(polled, node, s.instances[node].claim, s.live.value);
    passed := written.(passed := written.passed + {(node, s.live.value.uid)});
    assert written.log[|s.log|] == written.live.value;
  }
}
