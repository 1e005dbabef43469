/** The VM's durable transaction (proxmox/vm_nfs_transition.py), one durable write at a time. */
module VmTransaction {
  import opened Wrappers

  datatype Phase = Absent | Prepared | Quiesced | Reconciled | CommitDecided | RolledBack

  /** A durable phase, the deployment it belongs to, and which release the VM mounts now and
      mounted before. */
  datatype Vm = Vm(phase: Phase, deployment: nat, mounted: Option<nat>, previous: Option<nat>)

  /** Each write's effect, or none when the helper refuses. Actions that change the mount write
      their phase last, and only once they find the mount as they want it. */
  function Prepare(vm: Vm, d: nat): Option<Vm> {
    if vm.phase != Absent then None else Some(Vm(Prepared, d, vm.mounted, vm.mounted))
  }

  function Unmount(vm: Vm): Option<Vm> {
    if vm.phase == Absent then None else Some(vm.(mounted := None))
  }

  function MarkQuiesced(vm: Vm): Option<Vm> {
    if vm.phase == Absent || vm.mounted.Some? then None else Some(vm.(phase := Quiesced))
  }

  function Mount(vm: Vm): Option<Vm> {
    if vm.phase == Absent then None else Some(vm.(mounted := Some(vm.deployment)))
  }

  function MarkReconciled(vm: Vm): Option<Vm> {
    if vm.phase == Absent || vm.mounted != Some(vm.deployment) then None else Some(vm.(phase := Reconciled))
  }

  function Decide(vm: Vm): Option<Vm> {
    if vm.phase != Reconciled then None else Some(vm.(phase := CommitDecided))
  }

  function Restore(vm: Vm): Option<Vm> {
    if vm.phase == Absent then None else Some(vm.(mounted := vm.previous))
  }

  function MarkRolledBack(vm: Vm): Option<Vm> {
    if vm.phase == Absent || vm.mounted != vm.previous then None else Some(vm.(phase := RolledBack))
  }

  function Commit(vm: Vm): Option<Vm> {
    if vm.phase == Absent then None else Some(vm.(phase := Absent))
  }

  /** `recover` has to undo this transaction before dropping it. */
  predicate MustRollBack(vm: Vm) {
    vm.phase != Absent && vm.phase != CommitDecided && vm.phase != RolledBack
  }

  /** An action returned, raised, or its caller was killed in it. Only the first promises anything
      beyond the writes that happened. */
  datatype Answer = Done | Raised | Killed

  /** The helper, which may be interrupted between any two of its writes. */
  class Transition {
    var vm: Vm
    /** Writes that were not reported as done. */
    ghost var faults: nat

    constructor (release: Option<nat>)
      ensures vm.phase == Absent && vm.mounted == release && faults == 0
    {
      vm, faults := Vm(Absent, 0, release, release), 0;
    }

    /** One durable write. */
    method Write(effect: Option<Vm>) returns (answer: Answer)
      modifies this
      ensures vm == old(vm) || effect == Some(vm)
      ensures answer.Done? ==> effect == Some(vm)
      ensures faults == old(faults) + if answer.Done? then 0 else 1
    {
      var reached: bool := *;
      answer := *;
      if effect.Some? && (reached || answer.Done?) {
        vm := effect.value;
      } else if answer.Done? {
        answer := Raised;
      }
      faults := faults + if answer.Done? then 0 else 1;
    }

    method QuiesceTransaction() returns (answer: Answer)
      modifies this
      ensures faults == old(faults) + if answer.Done? then 0 else 1
      ensures answer.Done? ==> vm == old(vm).(phase := Quiesced, mounted := None) && old(vm).phase != Absent
      ensures vm.deployment == old(vm).deployment && vm.previous == old(vm).previous
      ensures vm.phase == old(vm).phase || (vm.phase == Quiesced && old(vm).phase != Absent)
      ensures old(vm).phase == Absent ==> vm == old(vm)
    {
      answer := Write(Unmount(vm));
      if answer.Done? {
        answer := Write(MarkQuiesced(vm));
      }
    }

    method ReconcileTransaction() returns (answer: Answer)
      modifies this
      ensures faults == old(faults) + if answer.Done? then 0 else 1
      ensures answer.Done? ==>
                vm == old(vm).(phase := Reconciled, mounted := Some(vm.deployment)) && old(vm).phase != Absent
      ensures vm.deployment == old(vm).deployment && vm.previous == old(vm).previous
      ensures vm.phase == old(vm).phase || (vm.phase == Reconciled && old(vm).phase != Absent)
      ensures old(vm).phase == Absent ==> vm == old(vm)
    {
      answer := Write(Mount(vm));
      if answer.Done? {
        answer := Write(MarkReconciled(vm));
      }
    }

    /** Wherever it is interrupted, the phase says rolled back only once the old mount is back. */
    method RollbackTransaction() returns (answer: Answer)
      modifies this
      ensures faults == old(faults) + if answer.Done? then 0 else 1
      ensures answer.Done? ==> vm.phase == RolledBack
      ensures vm.phase == RolledBack && old(vm).phase != RolledBack ==> vm.mounted == old(vm).previous
      ensures vm.deployment == old(vm).deployment && vm.previous == old(vm).previous
      ensures vm.phase == old(vm).phase || vm.phase == RolledBack
      ensures vm.mounted == old(vm).mounted || vm.mounted == old(vm).previous
      ensures old(vm).phase == Absent ==> vm == old(vm) && !answer.Done?
    {
      answer := Write(Restore(vm));
      if answer.Done? {
        answer := Write(MarkRolledBack(vm));
      }
    }

    /** A decided transaction is dropped as it stands, any other only after it was undone. */
    method Recover() returns (answer: Answer)
      modifies this
      ensures faults == old(faults) + if answer.Done? then 0 else 1
      ensures answer.Done? ==> vm.phase == Absent
      ensures vm.phase == Absent && old(vm).phase != Absent ==>
                vm.mounted == if MustRollBack(old(vm)) then old(vm).previous else old(vm).mounted
      ensures vm.deployment == old(vm).deployment && vm.previous == old(vm).previous
      ensures vm.phase == old(vm).phase || vm.phase == Absent || (vm.phase == RolledBack && MustRollBack(old(vm)))
      ensures vm.phase == RolledBack && MustRollBack(old(vm)) ==> vm.mounted == old(vm).previous
      ensures !MustRollBack(old(vm)) ==> vm == old(vm) || vm == old(vm).(phase := Absent)
    {
      if vm.phase == Absent {
        return Done;
      }
      if vm.phase != CommitDecided && vm.phase != RolledBack {
        answer := RollbackTransaction();
        if !answer.Done? {
          return;
        }
      }
      answer := Write(Commit(vm));
    }
  }
}

/** Deploy attempts, each of which may fail or be killed at any point, over a VM and a host
    (proxmox/deploy.py). */
module DeployCommit {
  import opened Wrappers
  import opened VmTransaction

  /** `live` is the finalised release, `pending` one activated but not final; `limited` is whether it
      was activated for maintenance only and not promoted yet. */
  datatype Host = Host(live: Option<nat>, pending: Option<nat>, limited: bool)

  /** What the coordinator, or the helper it called, is about to write. */
  datatype Action =
    | ReadStatus
    | FinishHost | FinishVm
    | RecoverHost | RecoverVm | RecoverMark | RecoverDrop
    | PrepareVm | QuiesceVm | QuiesceMark | ActivateHost | ReconcileVm | ReconcileMark
    | QuiesceAgain | QuiesceAgainMark | PromoteHost | ReconcileAgain | ReconcileAgainMark
    | DecideVm | CommitHost | CommitVm
    | RollbackHost | RollbackVm | RollbackMark | DropVm

  datatype Attempt = Attempt(
    next: Action, deployment: nat, bootstrap: bool, prepared: bool, hostActivated: bool, decisionAttempted: bool)

  datatype State = State(vm: Vm, host: Host, attempt: Option<Attempt>)

  /** A write succeeds, or is reported as failed before or after its effect, or the coordinator
      is killed before or after it. */
  datatype Step =
    | Start(deployment: nat, bootstrap: bool)
    | Succeed
    | Fail(effect: bool)
    | Kill(effect: bool)

  // ------------------------------------------------------------------ effects

  datatype World = World(vm: Vm, host: Host)

  function OnVm(w: World, vm: Option<Vm>): Option<World> {
    if vm.Some? then Some(w.(vm := vm.value)) else None
  }

  /** The write's effect, or none when the other side refuses it. */
  function Effect(w: World, a: Attempt): Option<World> {
    match a.next
    case ReadStatus =>
      if w.vm.phase == CommitDecided && w.vm.deployment != a.deployment then None else Some(w)
    case FinishHost => Some(w.(host := Finalised(w.host)))
    case CommitHost => Some(w.(host := Finalised(w.host)))
    case FinishVm => OnVm(w, Commit(w.vm))
    case CommitVm => OnVm(w, Commit(w.vm))
    case DropVm => OnVm(w, Commit(w.vm))
    case RecoverHost => Some(w.(host := Undone(w.host)))
    case RollbackHost => Some(w.(host := Undone(w.host)))
    case RecoverVm => if MustRollBack(w.vm) then OnVm(w, Restore(w.vm)) else Some(w)
    case RecoverMark => if MustRollBack(w.vm) then OnVm(w, MarkRolledBack(w.vm)) else Some(w)
    case RecoverDrop => if w.vm.phase == Absent then Some(w) else OnVm(w, Commit(w.vm))
    case PrepareVm => OnVm(w, Prepare(w.vm, a.deployment))
    case QuiesceVm => OnVm(w, Unmount(w.vm))
    case QuiesceAgain => OnVm(w, Unmount(w.vm))
    case QuiesceMark => OnVm(w, MarkQuiesced(w.vm))
    case QuiesceAgainMark => OnVm(w, MarkQuiesced(w.vm))
    case ActivateHost => Some(w.(host := w.host.(pending := Some(a.deployment), limited := a.bootstrap)))
    case PromoteHost => Some(w.(host := w.host.(limited := false)))
    case ReconcileVm => OnVm(w, Mount(w.vm))
    case ReconcileAgain => OnVm(w, Mount(w.vm))
    case ReconcileMark => OnVm(w, MarkReconciled(w.vm))
    case ReconcileAgainMark => OnVm(w, MarkReconciled(w.vm))
    case DecideVm => OnVm(w, Decide(w.vm))
    case RollbackVm => OnVm(w, Restore(w.vm))
    case RollbackMark => OnVm(w, MarkRolledBack(w.vm))
  }

  function Undone(h: Host): Host {
    h.(pending := None, limited := false)
  }

  /** Finalising is repeatable. */
  function Finalised(h: Host): Host {
    if h.pending.Some? then Host(h.pending, None, h.limited) else h
  }

  /** Where a successful write leads. None ends the attempt. */
  function Onward(a: Attempt, vm: Vm): Option<Attempt> {
    match a.next
    case ReadStatus => Some(a.(next := if vm.phase == CommitDecided then FinishHost else RecoverHost))
    case FinishHost => Some(a.(next := FinishVm))
    case FinishVm => None
    case RecoverHost => Some(a.(next := RecoverVm))
    case RecoverVm => Some(a.(next := RecoverMark))
    case RecoverMark => Some(a.(next := RecoverDrop))
    case RecoverDrop => Some(a.(next := PrepareVm))
    case PrepareVm => Some(a.(next := QuiesceVm, prepared := true))
    case QuiesceVm => Some(a.(next := QuiesceMark))
    case QuiesceMark => Some(a.(next := ActivateHost))
    case ActivateHost => Some(a.(next := ReconcileVm, hostActivated := true))
    case ReconcileVm => Some(a.(next := ReconcileMark))
    case ReconcileMark =>
      if a.bootstrap then Some(a.(next := QuiesceAgain)) else Some(a.(next := DecideVm, decisionAttempted := true))
    case QuiesceAgain => Some(a.(next := QuiesceAgainMark))
    case QuiesceAgainMark => Some(a.(next := PromoteHost))
    case PromoteHost => Some(a.(next := ReconcileAgain))
    case ReconcileAgain => Some(a.(next := ReconcileAgainMark))
    case ReconcileAgainMark => Some(a.(next := DecideVm, decisionAttempted := true))
    case DecideVm => Some(a.(next := CommitHost))
    case CommitHost => Some(a.(next := CommitVm, hostActivated := false))
    case CommitVm => None
    case RollbackHost => Some(a.(next := RollbackVm, hostActivated := false))
    case RollbackVm => Some(a.(next := RollbackMark))
    case RollbackMark => Some(a.(next := DropVm))
    case DropVm => None
  }

  predicate Handling(action: Action) {
    action.RollbackHost? || action.RollbackVm? || action.RollbackMark? || action.DropVm?
  }

  /** The exception handler: nothing once a decision may have been made; otherwise the host
      first, then the VM. A failure of the handler itself ends the attempt. */
  function Handled(a: Attempt): Option<Attempt> {
    if Handling(a.next) || a.decisionAttempted || !a.prepared then None
    else Some(a.(next := if a.hostActivated then RollbackHost else RollbackVm))
  }

  predicate Enabled(s: State, step: Step) {
    match step
    case Start(_, _) => s.attempt.None?
    case Succeed => s.attempt.Some? && Effect(World(s.vm, s.host), s.attempt.value).Some?
    case Fail(effect) => s.attempt.Some? && (effect ==> Effect(World(s.vm, s.host), s.attempt.value).Some?)
    case Kill(effect) => s.attempt.Some? && (effect ==> Effect(World(s.vm, s.host), s.attempt.value).Some?)
  }

  function Affected(s: State, effect: bool): World
    requires s.attempt.Some? && (effect ==> Effect(World(s.vm, s.host), s.attempt.value).Some?)
  {
    if effect then Effect(World(s.vm, s.host), s.attempt.value).value else World(s.vm, s.host)
  }

  function Next(s: State, step: Step): State
    requires Enabled(s, step)
  {
    match step
    case Start(d, bootstrap) => s.(attempt := Some(Attempt(ReadStatus, d, bootstrap, false, false, false)))
    case Succeed =>
      var w := Affected(s, true);
      State(w.vm, w.host, Onward(s.attempt.value, s.vm))
    case Fail(effect) =>
      var w := Affected(s, effect);
      State(w.vm, w.host, Handled(s.attempt.value))
    case Kill(effect) =>
      var w := Affected(s, effect);
      State(w.vm, w.host, None)
  }

  ghost predicate Run(states: seq<State>, steps: seq<Step>) {
    && |states| == |steps| + 1
    && (exists r :: states[0] == State(Vm(Absent, 0, r, r), Host(r, None, false), None))
    && forall i :: 0 <= i < |steps| ==> Enabled(states[i], steps[i]) && states[i + 1] == Next(states[i], steps[i])
  }

  // ------------------------------------------------------------------ invariants

  /** Undoing an undecided transaction would return the VM to the release that is live, whatever
      it mounts meanwhile; a decided one can only go forward. */
  predicate WorldInv(vm: Vm, host: Host) {
    (host.pending.None? ==> !host.limited) && match vm.phase
    case Absent => vm.mounted == host.live
    case CommitDecided => vm.mounted == Some(vm.deployment) && Forward(vm, host)
    case RolledBack => vm.mounted == vm.previous == host.live
    case _ => vm.previous == host.live
  }

  /** Finalising the host makes the decided release live. */
  predicate Forward(vm: Vm, host: Host) {
    !host.limited && (host.pending == Some(vm.deployment) || host == Host(Some(vm.deployment), None, false))
  }

  predicate Unstarted(a: Attempt) {
    !a.prepared && !a.hostActivated && !a.decisionAttempted
  }

  predicate Owned(vm: Vm, a: Attempt) {
    a.prepared && !a.decisionAttempted && vm.deployment == a.deployment
  }

  predicate Decided(vm: Vm, a: Attempt) {
    vm.phase == CommitDecided && vm.deployment == a.deployment
  }

  /** The attempt owns an undecided transaction with the host activated, in this phase. */
  predicate Activated(vm: Vm, host: Host, a: Attempt, phase: Phase) {
    Owned(vm, a) && vm.phase == phase && a.hostActivated && host.pending == Some(a.deployment)
  }

  predicate Undecided(vm: Vm) {
    vm.phase != CommitDecided && vm.phase != Absent
  }

  /** What the coordinator knows at each point. */
  predicate AttemptInv(vm: Vm, host: Host, a: Attempt) {
    match a.next
    case ReadStatus => Unstarted(a)
    case FinishHost => Unstarted(a) && Decided(vm, a)
    case FinishVm => Unstarted(a) && Decided(vm, a) && host == Host(Some(a.deployment), None, false)
    case RecoverHost => Unstarted(a) && vm.phase != CommitDecided
    case RecoverVm => Unstarted(a) && vm.phase != CommitDecided && host.pending.None?
    case RecoverMark =>
      && Unstarted(a) && vm.phase != CommitDecided && host.pending.None?
      && (MustRollBack(vm) ==> vm.mounted == vm.previous)
    case RecoverDrop => Unstarted(a) && (vm.phase == Absent || vm.phase == RolledBack) && host.pending.None?
    case PrepareVm => Unstarted(a) && vm.phase == Absent && host.pending.None?
    case QuiesceVm => Owned(vm, a) && vm.phase == Prepared && !a.hostActivated && host.pending.None?
    case QuiesceMark =>
      Owned(vm, a) && vm.phase == Prepared && !a.hostActivated && host.pending.None? && vm.mounted.None?
    case ActivateHost => Owned(vm, a) && vm.phase == Quiesced && !a.hostActivated && host.pending.None?
    case ReconcileVm => Activated(vm, host, a, Quiesced) && (host.limited ==> a.bootstrap)
    case ReconcileMark =>
      Activated(vm, host, a, Quiesced) && vm.mounted == Some(a.deployment) && (host.limited ==> a.bootstrap)
    case QuiesceAgain => Activated(vm, host, a, Reconciled)
    case QuiesceAgainMark => Activated(vm, host, a, Reconciled) && vm.mounted.None?
    case PromoteHost => Activated(vm, host, a, Quiesced)
    case ReconcileAgain => Activated(vm, host, a, Quiesced) && !host.limited
    case ReconcileAgainMark =>
      Activated(vm, host, a, Quiesced) && vm.mounted == Some(a.deployment) && !host.limited
    case DecideVm =>
      vm.deployment == a.deployment && vm.phase == Reconciled && vm.mounted == Some(a.deployment)
      && a.decisionAttempted && host.pending == Some(a.deployment) && !host.limited
    case CommitHost => Decided(vm, a) && a.decisionAttempted
    case CommitVm => Decided(vm, a) && a.decisionAttempted && host == Host(Some(a.deployment), None, false)
    case RollbackHost => Owned(vm, a) && Undecided(vm)
    case RollbackVm => Owned(vm, a) && Undecided(vm) && !a.hostActivated
    case RollbackMark => Owned(vm, a) && Undecided(vm) && !a.hostActivated && vm.mounted == vm.previous
    case DropVm => Owned(vm, a) && vm.phase == RolledBack && !a.hostActivated
  }

  ghost predicate Inv(s: State) {
    WorldInv(s.vm, s.host) && (s.attempt.Some? ==> AttemptInv(s.vm, s.host, s.attempt.value))
  }

  lemma EffectKeepsWorld(vm: Vm, host: Host, a: Attempt)
    requires WorldInv(vm, host) && AttemptInv(vm, host, a) && Effect(World(vm, host), a).Some?
    ensures WorldInv(Effect(World(vm, host), a).value.vm, Effect(World(vm, host), a).value.host)
  {
  }

  predicate Recovering(action: Action) {
    || action.ReadStatus? || action.FinishHost? || action.RecoverHost? || action.RecoverVm? || action.RecoverMark?
    || action.RecoverDrop?
  }

  predicate Advancing(action: Action) {
    || action.PrepareVm? || action.QuiesceVm? || action.QuiesceMark? || action.ActivateHost? || action.ReconcileVm?
    || action.ReconcileMark?
  }

  lemma RecoveringKeepsAttempt(s: State)
    requires Inv(s) && Enabled(s, Succeed) && Recovering(s.attempt.value.next)
    ensures Next(s, Succeed).attempt.Some?
    ensures AttemptInv(Next(s, Succeed).vm, Next(s, Succeed).host, Next(s, Succeed).attempt.value)
  {
  }

  lemma AdvancingKeepsAttempt(s: State)
    requires Inv(s) && Enabled(s, Succeed) && Advancing(s.attempt.value.next)
    ensures Next(s, Succeed).attempt.Some?
    ensures AttemptInv(Next(s, Succeed).vm, Next(s, Succeed).host, Next(s, Succeed).attempt.value)
  {
  }

  predicate Promoting(action: Action) {
    || action.QuiesceAgain? || action.QuiesceAgainMark? || action.PromoteHost? || action.ReconcileAgain?
    || action.ReconcileAgainMark?
  }

  lemma PromotingKeepsAttempt(s: State)
    requires Inv(s) && Enabled(s, Succeed) && Promoting(s.attempt.value.next)
    ensures Next(s, Succeed).attempt.Some?
    ensures AttemptInv(Next(s, Succeed).vm, Next(s, Succeed).host, Next(s, Succeed).attempt.value)
  {
  }

  lemma HandlingKeepsAttempt(s: State)
    requires Inv(s) && Enabled(s, Succeed) && Handling(s.attempt.value.next) && Next(s, Succeed).attempt.Some?
    ensures AttemptInv(Next(s, Succeed).vm, Next(s, Succeed).host, Next(s, Succeed).attempt.value)
  {
  }

  lemma DecidingKeepsAttempt(s: State)
    requires Inv(s) && Enabled(s, Succeed)
    requires var a := s.attempt.value.next; !Recovering(a) && !Advancing(a) && !Promoting(a) && !Handling(a)
    requires Next(s, Succeed).attempt.Some?
    ensures AttemptInv(Next(s, Succeed).vm, Next(s, Succeed).host, Next(s, Succeed).attempt.value)
  {
  }

  lemma SucceedKeepsAttempt(s: State)
    requires Inv(s) && Enabled(s, Succeed) && Next(s, Succeed).attempt.Some?
    ensures AttemptInv(Next(s, Succeed).vm, Next(s, Succeed).host, Next(s, Succeed).attempt.value)
  {
    hide Next, AttemptInv, WorldInv;
    if Recovering(s.attempt.value.next) {
      RecoveringKeepsAttempt(s);
    } else if Advancing(s.attempt.value.next) {
      AdvancingKeepsAttempt(s);
    } else if Promoting(s.attempt.value.next) {
      PromotingKeepsAttempt(s);
    } else if Handling(s.attempt.value.next) {
      HandlingKeepsAttempt(s);
    } else {
      DecidingKeepsAttempt(s);
    }
  }

  lemma FailKeepsAttempt(s: State, effect: bool)
    requires Inv(s) && Enabled(s, Fail(effect)) && Next(s, Fail(effect)).attempt.Some?
    ensures AttemptInv(Next(s, Fail(effect)).vm, Next(s, Fail(effect)).host, Next(s, Fail(effect)).attempt.value)
  {
  }

  lemma StepKeepsInv(s: State, step: Step)
    requires Inv(s) && Enabled(s, step)
    ensures Inv(Next(s, step))
  {
    hide Effect, Onward, AttemptInv, WorldInv;
    if s.attempt.Some? && Effect(World(s.vm, s.host), s.attempt.value).Some? {
      EffectKeepsWorld(s.vm, s.host, s.attempt.value);
    }
    if step.Start? {
      StartKeepsInv(s, step);
    }
    if step.Succeed? && Next(s, step).attempt.Some? {
      SucceedKeepsAttempt(s);
    }
    if step.Fail? && Next(s, step).attempt.Some? {
      FailKeepsAttempt(s, step.effect);
    }
  }

  lemma StartKeepsInv(s: State, step: Step)
    requires Inv(s) && Enabled(s, step) && step.Start?
    ensures Inv(Next(s, step))
  {
  }

  lemma {:induction false} RunKeepsInv(states: seq<State>, steps: seq<Step>, i: nat)
    requires Run(states, steps) && i < |states|
    ensures Inv(states[i])
  {
    if i > 0 {
      RunKeepsInv(states, steps, i - 1);
      hide Next, Enabled, Inv;
      StepKeepsInv(states[i - 1], steps[i - 1]);
    }
  }

  // ------------------------------------------------------------------ main results

  predicate Issues(s: State, action: Action) {
    s.attempt.Some? && s.attempt.value.next == action
  }

  /** An attempt is about to begin undoing the VM's transaction, by itself or through recovery. */
  predicate UndoesVm(s: State) {
    Issues(s, RollbackVm) || (Issues(s, RecoverVm) && MustRollBack(s.vm))
  }

  /** The host is finalised only while the VM has durably decided for that same deployment. */
  lemma FinaliseOnlyAfterDecision(states: seq<State>, steps: seq<Step>, i: nat)
    requires Run(states, steps) && i < |states| && (Issues(states[i], CommitHost) || Issues(states[i], FinishHost))
    ensures states[i].vm.phase == CommitDecided && states[i].vm.deployment == states[i].attempt.value.deployment
  {
    RunKeepsInv(states, steps, i);
  }

  predicate Undoing(action: Action) {
    || Handling(action) || action.RecoverHost? || action.RecoverVm? || action.RecoverMark? || action.RecoverDrop?
  }

  /** Once decided, no attempt, of this or any deployment, undoes, recovers or discards either side. */
  lemma NoRollbackAfterDecision(states: seq<State>, steps: seq<Step>, i: nat)
    requires Run(states, steps) && i < |states| && states[i].vm.phase == CommitDecided
    ensures states[i].attempt.Some? ==> !Undoing(states[i].attempt.value.next)
  {
    RunKeepsInv(states, steps, i);
  }

  /** A decision stays until that deployment finishes it. */
  lemma DecisionIsDurable(states: seq<State>, steps: seq<Step>, i: nat)
    requires Run(states, steps) && i < |steps| && states[i].vm.phase == CommitDecided
    ensures var s, v := states[i], states[i + 1];
            || (v.vm == s.vm)
            || (v.vm == s.vm.(phase := Absent) && (Issues(s, CommitVm) || Issues(s, FinishVm))
                && s.attempt.value.deployment == s.vm.deployment && v.host == Host(Some(s.vm.deployment), None, false))
  {
    RunKeepsInv(states, steps, i);
  }

  /** Activation took effect and was reported to the attempt as failed. */
  predicate LosesActivation(s: State, step: Step) {
    Issues(s, ActivateHost) && step == Fail(true)
  }

  lemma UndoFollows(s: State, step: Step)
    requires Inv(s) && Enabled(s, step) && UndoesVm(Next(s, step))
    ensures Next(s, step).host.pending.Some? <==> LosesActivation(s, step)
  {
  }

  /** When an attempt begins to undo the VM, the host has an activation outstanding if and only if
      the step before was an activation that took effect and was reported as failed. */
  lemma HostIsCompensatedFirst(states: seq<State>, steps: seq<Step>, i: nat)
    requires Run(states, steps) && i < |states| && UndoesVm(states[i])
    ensures i > 0 && (states[i].host.pending.Some? <==> LosesActivation(states[i - 1], steps[i - 1]))
    ensures !states[i].attempt.value.hostActivated
  {
    assert i > 0;
    RunKeepsInv(states, steps, i);
    RunKeepsInv(states, steps, i - 1);
    UndoFollows(states[i - 1], steps[i - 1]);
  }

  // ------------------------------------------------------------------ what a failure leads to

  /** A write that fails between preparing and deciding is compensated: the host first if it is known
      to be activated, else the VM at once. Once a decision may be durable nothing is undone. */
  lemma FailureIsCompensated(states: seq<State>, steps: seq<Step>, i: nat)
    requires Run(states, steps) && i < |steps| && steps[i].Fail?
    ensures var a, next := states[i].attempt.value, states[i + 1].attempt;
            if a.prepared && !a.decisionAttempted && !Handling(a.next)
            then next.Some? && next.value.next == (if a.hostActivated then RollbackHost else RollbackVm)
            else next.None?
    ensures var a := states[i].attempt.value;
            a.prepared && !a.decisionAttempted && !Handling(a.next) && states[i].host.pending.Some? ==> a.hostActivated
  {
    RunKeepsInv(states, steps, i);
  }

  /** How many more writes an attempt makes if all succeed. */
  function Left(a: Attempt): nat {
    match a.next
    case ReadStatus => 21
    case RecoverHost => 20
    case RecoverVm => 19
    case RecoverMark => 18
    case RecoverDrop => 17
    case PrepareVm => 16
    case QuiesceVm => 15
    case QuiesceMark => 14
    case ActivateHost => 13
    case ReconcileVm => 12
    case ReconcileMark => 11
    case QuiesceAgain => 10
    case QuiesceAgainMark => 9
    case PromoteHost => 8
    case ReconcileAgain => 7
    case ReconcileAgainMark => 6
    case DecideVm => 5
    case CommitHost => 4
    case CommitVm => 3
    case FinishHost => 2
    case FinishVm => 1
    case RollbackHost => 4
    case RollbackVm => 3
    case RollbackMark => 2
    case DropVm => 1
  }

  /** No write is refused, but for an attempt that finds another deployment's decision; and every one
      that succeeds brings the attempt nearer to its end. */
  lemma NothingIsRefused(s: State)
    requires Inv(s) && s.attempt.Some?
    ensures Enabled(s, Succeed) <==>
            !(Issues(s, ReadStatus) && s.vm.phase == CommitDecided && s.vm.deployment != s.attempt.value.deployment)
    ensures Enabled(s, Succeed) && Next(s, Succeed).attempt.Some? ==>
              Left(Next(s, Succeed).attempt.value) < Left(s.attempt.value)
  {
    hide Inv, Effect, Onward, Left;
    var a := s.attempt.value;
    WritesRunOut(a, s.vm);
    if Recovering(a.next) || Advancing(a.next) || Promoting(a.next) {
      EarlyIsNotRefused(s);
    } else {
      LateIsNotRefused(s);
    }
  }

  lemma WritesRunOut(a: Attempt, vm: Vm)
    ensures Onward(a, vm).Some? ==> Left(Onward(a, vm).value) < Left(a)
  {
    hide Onward, Left;
    if Recovering(a.next) {
      RecoveryRunsOut(a, vm);
    } else if Advancing(a.next) {
      AdvanceRunsOut(a, vm);
    } else if Promoting(a.next) {
      PromotionRunsOut(a, vm);
    } else {
      RestRunsOut(a, vm);
    }
  }

  lemma RecoveryRunsOut(a: Attempt, vm: Vm)
    requires Recovering(a.next)
    ensures Onward(a, vm).Some? ==> Left(Onward(a, vm).value) < Left(a)
  {
  }

  lemma AdvanceRunsOut(a: Attempt, vm: Vm)
    requires Advancing(a.next)
    ensures Onward(a, vm).Some? ==> Left(Onward(a, vm).value) < Left(a)
  {
  }

  lemma PromotionRunsOut(a: Attempt, vm: Vm)
    requires Promoting(a.next)
    ensures Onward(a, vm).Some? ==> Left(Onward(a, vm).value) < Left(a)
  {
  }

  lemma RestRunsOut(a: Attempt, vm: Vm)
    requires !Recovering(a.next) && !Advancing(a.next) && !Promoting(a.next)
    ensures Onward(a, vm).Some? ==> Left(Onward(a, vm).value) < Left(a)
  {
  }

  lemma EarlyIsNotRefused(s: State)
    requires Inv(s) && s.attempt.Some?
    requires var a := s.attempt.value.next; Recovering(a) || Advancing(a) || Promoting(a)
    ensures Effect(World(s.vm, s.host), s.attempt.value).Some? <==>
            !(Issues(s, ReadStatus) && s.vm.phase == CommitDecided && s.vm.deployment != s.attempt.value.deployment)
  {
  }

  lemma LateIsNotRefused(s: State)
    requires Inv(s) && s.attempt.Some?
    requires var a := s.attempt.value.next; !Recovering(a) && !Advancing(a) && !Promoting(a)
    ensures Effect(World(s.vm, s.host), s.attempt.value).Some?
  {
  }

  /** Where an attempt ends by a successful write, it has moved both sides to its release, or, if it
      was compensating, left both where they were with nothing under way. */
  lemma AttemptEnds(states: seq<State>, steps: seq<Step>, i: nat)
    requires Run(states, steps) && i < |steps| && steps[i].Succeed? && states[i + 1].attempt.None?
    ensures var a, v := states[i].attempt.value, states[i + 1];
            && v.vm.phase == Absent && v.vm.mounted == v.host.live
            && (if Handling(a.next) then v.host == states[i].host && v.vm.mounted == states[i].vm.previous
                else v.host == Host(Some(a.deployment), None, false))
  {
    RunKeepsInv(states, steps, i);
  }

  /** One write of a compensation that succeeds. */
  lemma Compensates(s: State)
    requires Inv(s) && s.attempt.Some? && Handling(s.attempt.value.next) && Enabled(s, Succeed)
    ensures var v := Next(s, Succeed);
            && v.host == (if Issues(s, RollbackHost) then Undone(s.host) else s.host)
            && (if Issues(s, DropVm) then v.attempt.None? && v.vm.phase == Absent && v.vm.mounted == v.host.live
                else v.attempt.Some? && Handling(v.attempt.value.next)
                     && Left(v.attempt.value) == Left(s.attempt.value) - 1)
  {
  }

  /** A compensation whose writes all succeed, from whatever write it has got to, takes as many as it
      has left, and leaves nothing under way. */
  lemma {:induction false} CompensationRestores(states: seq<State>, steps: seq<Step>, k: nat)
    requires Run(states, steps) && k < |states| && states[k].attempt.Some? && Handling(states[k].attempt.value.next)
    requires k + Left(states[k].attempt.value) < |states|
    requires forall m :: k <= m < k + Left(states[k].attempt.value) ==> steps[m].Succeed?
    ensures var v := states[k + Left(states[k].attempt.value)];
            && v.attempt.None? && v.vm.phase == Absent && v.vm.mounted == v.host.live
            && v.host == if Issues(states[k], RollbackHost) then Undone(states[k].host) else states[k].host
    decreases Left(states[k].attempt.value)
  {
    hide Next, Enabled, Inv, Handling;
    RunKeepsInv(states, steps, k);
    assert steps[k].Succeed? by { LeftIsPositive(states[k].attempt.value); }
    Compensates(states[k]);
    if !Issues(states[k], DropVm) {
      NextIsNotHost(states[k]);
      CompensationRestores(states, steps, k + 1);
    }
  }

  lemma LeftIsPositive(a: Attempt)
    ensures Left(a) > 0
    ensures a.next.DropVm? ==> Left(a) == 1
  {
  }

  lemma NextIsNotHost(s: State)
    requires s.attempt.Some? && Handling(s.attempt.value.next) && Enabled(s, Succeed)
    ensures !Issues(Next(s, Succeed), RollbackHost)
  {
  }

  /** An attempt's states up to an activation that took effect and was reported as failed. */
  function LostActivationRun(): (seq<State>, seq<Step>) {
    var r := Some(7);
    var host, vm := Host(r, None, false), Vm(Absent, 0, r, r);
    var a := Attempt(ReadStatus, 8, false, false, false, false);
    var b := a.(prepared := true);
    var mine := Vm(Prepared, 8, r, r);
    ([State(vm, host, None),
      State(vm, host, Some(a)),
      State(vm, host, Some(a.(next := RecoverHost))),
      State(vm, host, Some(a.(next := RecoverVm))),
      State(vm, host, Some(a.(next := RecoverMark))),
      State(vm, host, Some(a.(next := RecoverDrop))),
      State(vm, host, Some(a.(next := PrepareVm))),
      State(mine, host, Some(b.(next := QuiesceVm))),
      State(mine.(mounted := None), host, Some(b.(next := QuiesceMark))),
      State(mine.(mounted := None, phase := Quiesced), host, Some(b.(next := ActivateHost))),
      State(mine.(mounted := None, phase := Quiesced), Host(r, Some(8), false), Some(b.(next := RollbackVm)))],
     [Start(8, false), Succeed, Succeed, Succeed, Succeed, Succeed, Succeed, Succeed, Succeed, Fail(true)])
  }

  lemma LostActivationStarts()
    ensures var (states, steps) := LostActivationRun();
            |states| == 11 && |steps| == 10
            && forall i :: 0 <= i < 5 ==> Enabled(states[i], steps[i]) && states[i + 1] == Next(states[i], steps[i])
  {
  }

  lemma LostActivationEnds()
    ensures var (states, steps) := LostActivationRun();
            |states| == 11 && |steps| == 10
            && forall i :: 5 <= i < 10 ==> Enabled(states[i], steps[i]) && states[i + 1] == Next(states[i], steps[i])
  {
  }

  /** That does happen: the coordinator then undoes the VM while the host is activated. */
  lemma LostActivationHappens()
    ensures var (states, steps) := LostActivationRun();
            Run(states, steps) && UndoesVm(states[10]) && states[10].host.pending.Some?
  {
    hide Next, Enabled;
    LostActivationStarts();
    LostActivationEnds();
    var (states, steps) := LostActivationRun();
    assert states[0] == State(Vm(Absent, 0, Some(7), Some(7)), Host(Some(7), None, false), None);
  }

  /** A release is decided on, and made final, only as a whole: one activated for maintenance was promoted
      first. */
  lemma DecidedIsPromoted(states: seq<State>, steps: seq<Step>, i: nat)
    requires Run(states, steps) && i < |states|
    ensures states[i].vm.phase == CommitDecided || Issues(states[i], DecideVm) || states[i].host.pending.None? ==>
              !states[i].host.limited
    ensures i < |steps| && steps[i].Succeed? && Issues(states[i], ActivateHost) ==>
              var a := states[i].attempt.value;
              states[i + 1].host == Host(states[i].host.live, Some(a.deployment), a.bootstrap)
  {
    RunKeepsInv(states, steps, i);
    assert i < |steps| ==> Enabled(states[i], steps[i]);
  }

  /** Between transactions both sides serve the same release, however many attempts died on
      the way; and undoing an undecided transaction brings them back together. */
  lemma DeploymentIsAtomic(states: seq<State>, steps: seq<Step>, i: nat)
    requires Run(states, steps) && i < |states|
    ensures states[i].vm.phase == Absent || states[i].vm.phase == RolledBack ==>
              states[i].vm.mounted == states[i].host.live
    ensures MustRollBack(states[i].vm) ==> states[i].vm.previous == states[i].host.live
    ensures states[i].vm.phase == CommitDecided ==>
              states[i].vm.mounted == Some(states[i].vm.deployment) == Finalised(states[i].host).live
  {
    RunKeepsInv(states, steps, i);
  }
}

/** One deploy attempt in its own form (proxmox/deploy.py), against the same invariant. */
module DeployAttempt {
  import opened Wrappers
  import opened VmTransaction
  import opened DeployCommit

  class Coordinator {
    const side: Transition
    var host: Host
    /** Writes to the host that were not reported as done. */
    ghost var faults: nat

    /** Failures of either side so far. */
    ghost function Faults(): nat
      reads this, side
    {
      faults + side.faults
    }

    ghost predicate Valid()
      reads this, side
    {
      WorldInv(side.vm, host)
    }

    /** A coordinator for a VM and a host that serve the same release, with nothing under way. */
    constructor (vm: Transition, serving: Host)
      requires vm.vm.phase == Absent && vm.vm.mounted == serving.live && (serving.limited ==> serving.pending.Some?)
      ensures Valid() && side == vm && host == serving
    {
      side, host, faults := vm, serving, 0;
    }

    method OnHost(effect: Host) returns (answer: Answer)
      modifies this`host, this`faults
      ensures host == old(host) || host == effect
      ensures answer.Done? ==> host == effect
      ensures faults == old(faults) + if answer.Done? then 0 else 1
    {
      var reached: bool := *;
      answer := *;
      if reached || answer.Done? {
        host := effect;
      }
      faults := faults + if answer.Done? then 0 else 1;
    }

    /** Finalise the host: demanded only under a durable decision for this deployment. */
    method FinaliseHost(d: nat) returns (answer: Answer)
      requires side.vm.phase == CommitDecided && side.vm.deployment == d && Valid()
      modifies this`host, this`faults
      ensures Valid()
      ensures answer.Done? ==> host == Host(Some(d), None, false)
      ensures faults == old(faults) + if answer.Done? then 0 else 1
    {
      answer := OnHost(Finalised(host));
    }

    /** Undo or recover the host: never after a decision. */
    method UndoHost() returns (answer: Answer)
      requires side.vm.phase != CommitDecided && Valid()
      modifies this`host, this`faults
      ensures faults == old(faults) + if answer.Done? then 0 else 1
      ensures Valid() && (host == old(host) || host == Undone(old(host)))
      ensures answer.Done? ==> host.pending.None?
    {
      answer := OnHost(Undone(host));
    }

    /** Finish a decision, this attempt's or an earlier one's. */
    method FinishDecision(d: nat) returns (completed: bool)
      requires side.vm.phase == CommitDecided && side.vm.deployment == d && Valid()
      modifies this`host, this`faults, side
      ensures Valid()
      ensures completed <==> Faults() == old(Faults())
      ensures Faults() >= old(Faults())
      ensures completed ==> side.vm.phase == Absent && side.vm.mounted == Some(d) && host == Host(Some(d), None, false)
      ensures side.vm == old(side.vm)
              || (side.vm == old(side.vm).(phase := Absent) && host == Host(Some(d), None, false))
    {
      var answer := FinaliseHost(d);
      if !answer.Done? {
        return false;
      }
      answer := side.Write(Commit(side.vm));
      return answer.Done?;
    }

    /** The exception handler of an attempt that prepared and did not try to decide. The VM is
        touched only once a host known to be activated has been undone, and the transaction is
        dropped only once it was undone. */
    method Compensate(hostActivated: bool)
      requires side.vm.phase != CommitDecided && side.vm.phase != Absent && Valid()
      modifies this`host, this`faults, side
      ensures Valid() && side.vm.phase != CommitDecided
      ensures hostActivated && side.vm != old(side.vm) ==> host.pending.None?
      ensures !hostActivated ==> host == old(host)
      ensures side.vm.phase == Absent ==> side.vm.mounted == old(side.vm).previous
      ensures Faults() == old(Faults()) ==> side.vm.phase == Absent && (hostActivated ==> host.pending.None?)
      ensures Faults() >= old(Faults())
    {
      if hostActivated {
        var undone := UndoHost();
        if !undone.Done? {
          return;
        }
      }
      var answer := side.RollbackTransaction();
      if answer.Done? {
        answer := side.Write(Commit(side.vm));
      }
    }

    /** The prepared part, up to the decision. `lost`: the activation reached the host though it
        did not return. */
    method BringUp(d: nat, bootstrap: bool) returns (answer: Answer, hostActivated: bool, ghost lost: bool)
      requires side.vm.phase == Prepared && side.vm.deployment == d && Valid() && host.pending.None?
      modifies this`host, this`faults, side
      ensures Valid() && side.vm.phase != CommitDecided && side.vm.phase != Absent && side.vm.phase != RolledBack
      ensures side.vm.deployment == d
      ensures answer.Done? ==> side.vm.phase == Reconciled && side.vm.mounted == Some(d) && host.pending == Some(d)
      ensures answer.Done? ==> !host.limited
      ensures lost <==> !hostActivated && host.pending.Some?
      ensures Faults() == old(Faults()) + if answer.Done? then 0 else 1
    {
      hostActivated, lost := false, false;
      answer := side.QuiesceTransaction();
      if !answer.Done? {
        return;
      }
      answer := OnHost(host.(pending := Some(d), limited := bootstrap));
      if !answer.Done? {
        lost := host.pending.Some?;
        return;
      }
      hostActivated := true;
      answer := side.ReconcileTransaction();
      if answer.Done? && bootstrap {
        answer := side.QuiesceTransaction();
        if !answer.Done? {
          return;
        }
        answer := OnHost(host.(limited := false));
        if !answer.Done? {
          return;
        }
        answer := side.ReconcileTransaction();
      }
    }

    /** One attempt. Whatever raises and wherever it is killed, both sides stay able to come back
        together, an attempt that completes moved both, and one that dropped or undid a transaction
        left no activation behind unless its report was lost. It completes exactly if nothing fails,
        and if one thing `raised` between preparing and deciding and the handler fares well, nothing
        is left under way. */
    method RunTransaction(d: nat, bootstrap: bool) returns (completed: bool, ghost lost: bool, ghost raised: bool)
      requires Valid()
      modifies this`host, this`faults, side
      ensures Valid()
      ensures completed ==> side.vm.phase == Absent && side.vm.mounted == host.live == Some(d) && host.pending.None?
      ensures old(side.vm).phase == CommitDecided ==>
                side.vm == old(side.vm)
                || (d == side.vm.deployment && side.vm == old(side.vm).(phase := Absent)
                    && host == Host(Some(d), None, false))
      ensures side.vm != old(side.vm) && (side.vm.phase == Absent || side.vm.phase == RolledBack) && !lost ==>
                host.pending.None?
      ensures completed <==> Faults() == old(Faults())
                             && !(old(side.vm).phase == CommitDecided && old(side.vm).deployment != d)
      ensures raised && Faults() == old(Faults()) + 1 ==> side.vm.phase == Absent && (!lost ==> host.pending.None?)
    {
      lost, raised := false, false;
      if side.vm.phase == CommitDecided {
        if side.vm.deployment != d {
          return false, false, false;
        }
        completed := FinishDecision(d);
        return;
      }
      var answer := UndoHost();
      if !answer.Done? {
        return false, false, false;
      }
      answer := side.Recover();
      if !answer.Done? {
        return false, false, false;
      }
      answer := side.Write(Prepare(side.vm, d));
      if !answer.Done? {
        return false, false, false;
      }
      var hostActivated;
      answer, hostActivated, lost := BringUp(d, bootstrap);
      raised := answer.Raised?;
      if answer.Raised? {
        Compensate(hostActivated);
      }
      if !answer.Done? {
        return false, lost, raised;
      }
      // From here a decision may be durable, so nothing is undone.
      answer := side.Write(Decide(side.vm));
      if !answer.Done? {
        return false, false, false;
      }
      completed := FinishDecision(d);
    }
  }
}
