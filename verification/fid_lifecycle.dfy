/** Every interleaving of rebinds, walks, clunks, allocations, growth, replay and
    connection replacements over the fid registry. */
module FidLifecycle {
  import opened Wrappers
  import opened Tables
  import opened LockTableSpec
  import opened FidRegistrySpec
  import opened ReplaySpec

  /** `held` are the references of rebinds in progress, `issued` the numbers callers own. While
      not `connected`, `epoch` is that of the next connection. */
  datatype State = State(
    reg: Registry,
    held: multiset<nat>,
    issued: set<nat>,
    epoch: nat,
    connected: bool,
    dead: bool)

  datatype Step =
    | InternIdentity(id: Identity)
    | GrowCredentials(length: nat)
    | GrowRecords(length: nat)
    | AllocateNumber
    | RecordRebind(fid: nat, record: FidRecord, answering: nat)
    | AbandonRebind(credential: nat)
    | RecordWalk(source: nat, newfid: nat, inode: Option<nat>, open: Option<nat>, answering: nat)
    | Clunk(fid: nat, answeredOn: Option<nat>, pushed: bool)
    | PruneGone(fid: nat)
    | Retire
    | Install
    | Die

  /** An answer comes from a connection that was installed once. */
  predicate Heard(s: State, answering: nat) {
    answering < s.epoch || (answering == s.epoch && s.connected)
  }

  /** A caller records and clunks only numbers it owns, and each once. A clunk carries the
      connection that answered it, or none if the fid was found stale instead. */
  predicate Enabled(s: State, step: Step) {
    match step
    case InternIdentity(_) => !s.dead
    case AllocateNumber => !s.dead
    case RecordRebind(fid, record, answering) =>
      fid in s.issued && record.credential in s.held && Heard(s, answering)
    case AbandonRebind(credential) => credential in s.held
    case RecordWalk(_, newfid, _, _, answering) => newfid in s.issued && Heard(s, answering)
    case Clunk(fid, answeredOn, _) => fid in s.issued && (answeredOn.Some? ==> Heard(s, answeredOn.value))
    case PruneGone(fid) => IsLive(s.reg, fid) && !HasLock(s.reg.locks, fid) && !s.connected
    case Retire => s.connected
    case Install => !s.connected && !s.dead
    case _ => true
  }

  function Next(s: State, step: Step): State
    requires Enabled(s, step)
  {
    match step
    case InternIdentity(id) =>
      var (creds, k) := Intern(s.reg.credentials, id);
      s.(reg := s.reg.(credentials := creds), held := if k.Some? then s.held + multiset{k.value} else s.held)
    case GrowCredentials(length) => s.(reg := s.reg.(credentials := Padded(s.reg.credentials, length, None)))
    case GrowRecords(length) => s.(reg := s.reg.(records := Padded(s.reg.records, length, Vacant)))
    case AllocateNumber =>
      var (reg, allocation) := Allocate(s.reg);
      s.(reg := reg, issued := if allocation.Allocated? then s.issued + {allocation.fid} else s.issued)
    case RecordRebind(fid, record, answering) =>
      if answering != s.epoch then s
      else s.(reg := InstallRecord(s.reg, fid, record), held := s.held - multiset{record.credential})
    case AbandonRebind(credential) =>
      s.(reg := s.reg.(credentials := Release(s.reg.credentials, credential)), held := s.held - multiset{credential})
    case RecordWalk(source, newfid, inode, open, answering) =>
      if answering != s.epoch then s else s.(reg := RecordDerived(s.reg, source, newfid, inode, open).0)
    case Clunk(fid, answering, pushed) =>
      if answering.Some? && answering.value != s.epoch then s
      else s.(reg := RetireClunked(s.reg, fid, s.dead, pushed), issued := s.issued - {fid})
    case PruneGone(fid) => s.(reg := Prune(s.reg, fid, s.reg.records[fid].record.open))
    case Retire => s.(epoch := s.epoch + 1, connected := false)
    case Install => s.(connected := true)
    case Die => s.(epoch := s.epoch + 1, connected := false, dead := true)
  }

  /** A session whose root has been recorded. */
  ghost predicate Initial(s: State) {
    && (exists id :: s.reg == Registry([Vacant, Live(FidRecord(ROOT_INODE, 0, 0, false))],
                                       [Some(CredentialSlot(id, 1))], ROOT_FID + 1, [], []))
    && s.held == multiset{} && s.issued == {} && s.connected && !s.dead
  }

  ghost predicate Run(states: seq<State>, steps: seq<Step>) {
    && |states| == |steps| + 1
    && Initial(states[0])
    && forall i :: 0 <= i < |steps| ==> Enabled(states[i], steps[i]) && states[i + 1] == Next(states[i], steps[i])
  }

  // ------------------------------------------------------------------ numbers

  /** Numbers are issued or recycled but never both, each once, and all covered by a record. */
  ghost predicate NumbersInv(s: State) {
    && ROOT_FID < s.reg.nextFid <= U32_MAX && s.reg.nextFid <= |s.reg.records|
    && (forall f :: f in s.issued ==> ROOT_FID < f < s.reg.nextFid)
    && (forall i :: 0 <= i < |s.reg.recycled| ==>
          ROOT_FID < s.reg.recycled[i] < s.reg.nextFid && s.reg.recycled[i] !in s.issued)
    && (forall i, j :: 0 <= i < j < |s.reg.recycled| ==> s.reg.recycled[i] != s.reg.recycled[j])
    && (forall f :: 0 <= f < |s.reg.records| && s.reg.records[f] != Vacant ==> f == ROOT_FID || f in s.issued)
  }

  /** Steps that leave the numbers alone and write at most one owned slot. */
  lemma OwnedWriteKeepsNumbers(s: State, v: State, fid: nat)
    requires NumbersInv(s) && (fid in s.issued || fid == ROOT_FID)
    requires v.issued == s.issued && v.reg.nextFid == s.reg.nextFid && v.reg.recycled == s.reg.recycled
    requires |v.reg.records| >= |s.reg.records|
    requires forall f :: 0 <= f < |v.reg.records| && f != fid ==>
               v.reg.records[f] == if f < |s.reg.records| then s.reg.records[f] else Vacant
    ensures NumbersInv(v)
  {
  }

  lemma AllocateKeepsNumbers(s: State)
    requires NumbersInv(s) && Enabled(s, AllocateNumber)
    ensures NumbersInv(Next(s, AllocateNumber))
  {
  }

  lemma ClunkKeepsNumbers(s: State, step: Step)
    requires NumbersInv(s) && Enabled(s, step) && step.Clunk?
    ensures NumbersInv(Next(s, step))
  {
  }

  lemma RecordKeepsNumbers(s: State, step: Step)
    requires NumbersInv(s) && Enabled(s, step) && (step.RecordRebind? || step.RecordWalk? || step.PruneGone?)
    ensures NumbersInv(Next(s, step))
  {
    var v := Next(s, step);
    match step {
      case RecordRebind(fid, _, _) => OwnedWriteKeepsNumbers(s, v, fid);
      case RecordWalk(_, newfid, _, _, _) => OwnedWriteKeepsNumbers(s, v, newfid);
      case PruneGone(fid) => OwnedWriteKeepsNumbers(s, v, fid);
    }
  }

  lemma StepKeepsNumbers(s: State, step: Step)
    requires NumbersInv(s) && Enabled(s, step)
    ensures NumbersInv(Next(s, step))
  {
    if step.AllocateNumber? {
      AllocateKeepsNumbers(s);
    } else if step.Clunk? {
      hide Next, Enabled, NumbersInv;
      ClunkKeepsNumbers(s, step);
    } else if step.RecordRebind? || step.RecordWalk? || step.PruneGone? {
      hide Next, Enabled, NumbersInv;
      RecordKeepsNumbers(s, step);
    } else {
      OwnedWriteKeepsNumbers(s, Next(s, step), ROOT_FID);
    }
  }

  // ------------------------------------------------------------------ references

  lemma InternKeepsCounted(s: State, id: Identity)
    requires Counted(s.reg, s.held) && Enabled(s, InternIdentity(id))
    ensures Counted(Next(s, InternIdentity(id)).reg, Next(s, InternIdentity(id)).held)
  {
    InternCounts(s.reg.credentials, id);
  }

  lemma StepKeepsCounted(s: State, step: Step)
    requires Counted(s.reg, s.held) && Enabled(s, step)
    ensures Counted(Next(s, step).reg, Next(s, step).held)
  {
    match step {
      case InternIdentity(id) => InternKeepsCounted(s, id);
      case GrowRecords(length) =>
        forall c: nat
          ensures LiveCount(Padded(s.reg.records, length, Vacant), c) == LiveCount(s.reg.records, c)
        {
          LiveCountPadded(s.reg.records, length, c);
        }
      case RecordRebind(fid, record, _) => InstallCounts(s.reg, s.held, fid, record);
      case AbandonRebind(credential) => ReleaseCounts(s.reg.credentials, credential);
      case RecordWalk(source, newfid, inode, open, _) => DerivedCounts(s.reg, s.held, source, newfid, inode, open);
      case Clunk(fid, _, pushed) => RetireCounts(s.reg, s.held, fid, s.dead, pushed);
      case PruneGone(fid) => PruneCounts(s.reg, s.held, fid, s.reg.records[fid].record.open);
      case _ =>
    }
  }

  lemma InitialCounted(s: State)
    requires Initial(s)
    ensures Counted(s.reg, s.held) && NumbersInv(s)
  {
    forall c: nat
      ensures LiveCount(s.reg.records, c) == if c == 0 then 1 else 0
    {
      assert s.reg.records[..1] == [Vacant];
      assert LiveCount([Vacant], c) == 0;
    }
  }

  lemma {:induction false} RunKeepsInv(states: seq<State>, steps: seq<Step>, i: nat)
    requires Run(states, steps) && i < |states|
    ensures Counted(states[i].reg, states[i].held) && NumbersInv(states[i])
  {
    if i == 0 {
      InitialCounted(states[0]);
    } else {
      RunKeepsInv(states, steps, i - 1);
      StepKeepsCounted(states[i - 1], steps[i - 1]);
      StepKeepsNumbers(states[i - 1], steps[i - 1]);
    }
  }

  // ------------------------------------------------------------------ main results

  /** In every run each credential slot counts exactly the live records naming it and the
      references rebinds hold, and every live record finds its identity. */
  lemma IdentitiesStayInterned(states: seq<State>, steps: seq<Step>, i: nat)
    requires Run(states, steps) && i < |states|
    ensures forall c: nat ::
              References(states[i].reg.credentials, c) == LiveCount(states[i].reg.records, c) + states[i].held[c]
    ensures forall f :: 0 <= f < |states[i].reg.records| && states[i].reg.records[f].Live? ==>
              IdentityOf(states[i].reg, f).Some?
  {
    RunKeepsInv(states, steps, i);
    forall f | 0 <= f < |states[i].reg.records| && states[i].reg.records[f].Live?
      ensures IdentityOf(states[i].reg, f).Some?
    {
      LiveIsInterned(states[i].reg, states[i].held, f);
    }
  }

  /** The identity under which `c` is interned. */
  function InternedAs(creds: Credentials, c: nat): Option<Identity> {
    if c < |creds| && creds[c].Some? then Some(creds[c].value.identity) else None
  }

  /** `after` says of slot `c` what `before` did, or one of them says nothing. */
  predicate Agree(before: Credentials, after: Credentials, c: nat) {
    InternedAs(before, c).Some? && InternedAs(after, c).Some? ==> InternedAs(after, c) == InternedAs(before, c)
  }

  lemma InternAgrees(creds: Credentials, id: Identity, c: nat)
    ensures Agree(creds, Intern(creds, id).0, c)
  {
  }

  lemma InstallAgrees(reg: Registry, fid: nat, record: FidRecord, c: nat)
    ensures Agree(reg.credentials, InstallRecord(reg, fid, record).credentials, c)
  {
  }

  lemma DerivedAgrees(reg: Registry, source: nat, newfid: nat, inode: Option<nat>, open: Option<nat>, c: nat)
    ensures Agree(reg.credentials, RecordDerived(reg, source, newfid, inode, open).0.credentials, c)
  {
    if source < |reg.records| && reg.records[source].Live? {
      var parent := reg.records[source].record;
      var kept := reg.(credentials := Retain(reg.credentials, parent.credential));
      assert InternedAs(kept.credentials, c) == InternedAs(reg.credentials, c);
      InstallAgrees(kept, newfid, FidRecord(
          if inode.Some? then inode.value else parent.inode, parent.credential,
          if open.Some? then open.value else 0, open.Some?), c);
    }
  }

  /** A slot in use both before and after a step stands for the same identity. */
  lemma CredentialsAreStable(s: State, step: Step, c: nat)
    requires Enabled(s, step)
    ensures Agree(s.reg.credentials, Next(s, step).reg.credentials, c)
  {
    match step {
      case InternIdentity(id) => InternAgrees(s.reg.credentials, id, c);
      case RecordRebind(fid, record, _) => InstallAgrees(s.reg, fid, record, c);
      case RecordWalk(source, newfid, inode, open, _) => DerivedAgrees(s.reg, source, newfid, inode, open, c);
      case _ =>
    }
  }

  /** The credential slot the record of `fid` was taken from by this step. */
  function Origin(s: State, step: Step, fid: nat): Option<nat> {
    if step.RecordRebind? && step.fid == fid && step.answering == s.epoch then Some(step.record.credential)
    else
      var f := if step.RecordWalk? && step.newfid == fid && step.answering == s.epoch then step.source else fid;
      if f < |s.reg.records| && s.reg.records[f].Live? then Some(s.reg.records[f].record.credential) else None
  }

  lemma WalkComesFromOrigin(s: State, step: Step, fid: nat)
    requires Enabled(s, step) && step.RecordWalk?
    requires fid < |Next(s, step).reg.records| && Next(s, step).reg.records[fid].Live?
    ensures Origin(s, step, fid) == Some(Next(s, step).reg.records[fid].record.credential)
  {
  }

  /** The other steps that write a record write it empty. */
  lemma OtherStepsKeepRecords(s: State, step: Step, fid: nat)
    requires Enabled(s, step) && !step.RecordWalk? && !(step.RecordRebind? && step.fid == fid)
    requires fid < |Next(s, step).reg.records| && Next(s, step).reg.records[fid].Live?
    ensures fid < |s.reg.records| && s.reg.records[fid] == Next(s, step).reg.records[fid]
  {
    match step {
      case Clunk(_, _, _) =>
      case _ =>
    }
  }

  lemma ComesFromOrigin(s: State, step: Step, fid: nat)
    requires Enabled(s, step) && fid < |Next(s, step).reg.records| && Next(s, step).reg.records[fid].Live?
    ensures Origin(s, step, fid) == Some(Next(s, step).reg.records[fid].record.credential)
  {
    if step.RecordWalk? {
      WalkComesFromOrigin(s, step, fid);
    } else if !(step.RecordRebind? && step.fid == fid) {
      OtherStepsKeepRecords(s, step, fid);
    }
  }

  lemma OriginIsReferenced(s: State, step: Step, fid: nat)
    requires Counted(s.reg, s.held) && Enabled(s, step) && Origin(s, step, fid).Some?
    ensures References(s.reg.credentials, Origin(s, step, fid).value) > 0
  {
    var c := Origin(s, step, fid).value;
    if step.RecordRebind? && step.fid == fid && step.answering == s.epoch {
      assert s.held[c] > 0;
    } else {
      var f := if step.RecordWalk? && step.newfid == fid && step.answering == s.epoch then step.source else fid;
      LiveCountUpdate(s.reg.records, f, Vacant, c);
    }
  }

  /** A live fid keeps the identity it was created under whatever else happens; a rebind
      gives it the identity the rebind interned, a walk that of its source. */
  lemma FidsKeepTheirIdentity(states: seq<State>, steps: seq<Step>, i: nat, fid: nat)
    requires Run(states, steps) && i < |steps|
    requires fid < |states[i + 1].reg.records| && states[i + 1].reg.records[fid].Live?
    ensures Origin(states[i], steps[i], fid).Some?
    ensures IdentityOf(states[i + 1].reg, fid) ==
            InternedAs(states[i].reg.credentials, Origin(states[i], steps[i], fid).value)
    ensures IdentityOf(states[i + 1].reg, fid).Some?
  {
    var s, v := states[i], states[i + 1];
    RunKeepsInv(states, steps, i);
    RunKeepsInv(states, steps, i + 1);
    LiveIsInterned(v.reg, v.held, fid);
    ComesFromOrigin(s, steps[i], fid);
    OriginIsReferenced(s, steps[i], fid);
    CredentialsAreStable(s, steps[i], v.reg.records[fid].record.credential);
  }

  /** A number handed out is nobody else's, is not the root's, is covered by the record
      table, and carries neither a record nor a tombstone of its previous owner. */
  lemma IssuedNumbersAreExclusive(states: seq<State>, steps: seq<Step>, i: nat)
    requires Run(states, steps) && i < |steps| && steps[i].AllocateNumber? && Allocate(states[i].reg).1.Allocated?
    ensures var s, v, fid := states[i], states[i + 1], Allocate(states[i].reg).1.fid;
            && fid !in s.issued && fid in v.issued && fid !in v.reg.recycled
            && ROOT_FID < fid < U32_MAX && fid < |s.reg.records| && s.reg.records[fid] == Vacant
  {
    RunKeepsInv(states, steps, i);
    RunKeepsInv(states, steps, i + 1);
  }

  /** A rebind that comes to nothing gives its identity back: after interning and abandoning, the
      identities are as they were. */
  lemma AbandonedRebindRestores(s: State, id: Identity)
    requires Counted(s.reg, s.held) && !s.dead && Intern(s.reg.credentials, id).1.Some?
    ensures var c := Intern(s.reg.credentials, id).1.value;
            var u := Next(s, InternIdentity(id));
            && Enabled(s, InternIdentity(id)) && Enabled(u, AbandonRebind(c))
            && Next(u, AbandonRebind(c)) == s
  {
    InternCounts(s.reg.credentials, id);
    var c := Intern(s.reg.credentials, id).1.value;
    var u := Next(s, InternIdentity(id));
    assert u.held - multiset{c} == s.held;
    assert Next(u, AbandonRebind(c)).reg.credentials == s.reg.credentials;
  }

  /** A session that ended stays so: nothing is allocated, interned or installed any more. */
  lemma {:induction false} EndedStaysEnded(states: seq<State>, steps: seq<Step>, i: nat, j: nat)
    requires Run(states, steps) && i < j < |states| && steps[i].Die?
    ensures states[j].dead && !states[j].connected && states[i].epoch < states[j].epoch
    ensures j < |steps| ==> !steps[j].AllocateNumber? && !steps[j].InternIdentity? && !steps[j].Install?
    decreases j
  {
    if j > i + 1 {
      EndedStaysEnded(states, steps, i, j - 1);
    }
    assert Enabled(states[j - 1], steps[j - 1]);
    assert j < |steps| ==> Enabled(states[j], steps[j]);
  }

  /** Growth keeps what is there, and afterwards the next identity finds a slot and the numbers below the
      new length are covered. */
  lemma GrowthMakesRoom(states: seq<State>, steps: seq<Step>, i: nat, id: Identity)
    requires Run(states, steps) && i < |steps|
    ensures var reg, grown := states[i].reg, states[i + 1].reg;
            && (steps[i].GrowCredentials? ==>
                  && reg.credentials <= grown.credentials && grown.records == reg.records
                  && (|reg.credentials| < steps[i].length ==> Intern(grown.credentials, id).1.Some?))
            && (steps[i].GrowRecords? ==>
                  && reg.records <= grown.records && grown.credentials == reg.credentials
                  && steps[i].length <= |grown.records|
                  && forall f :: |reg.records| <= f < |grown.records| ==> grown.records[f].Vacant?)
  {
    assert Enabled(states[i], steps[i]);
    if steps[i].GrowCredentials? && |states[i].reg.credentials| < steps[i].length {
      var grown := states[i + 1].reg.credentials;
      assert grown[|states[i].reg.credentials|].None?;
      assert FirstVacancy(grown, 0) < |grown|;
    }
  }

  /** The connection comes and goes by its own steps alone, and each loss is a new epoch. */
  lemma ConnectionsAlternate(states: seq<State>, steps: seq<Step>, i: nat)
    requires Run(states, steps) && i < |steps|
    ensures states[i + 1].connected == if steps[i].Install? then true
                                       else states[i].connected && !steps[i].Retire? && !steps[i].Die?
    ensures states[i + 1].epoch == states[i].epoch + if steps[i].Retire? || steps[i].Die? then 1 else 0
  {
    assert Enabled(states[i], steps[i]);
  }

  // ------------------------------------------------------------------ what a record says

  /** `step` records `fid`: a rebind or a walk answered on the current connection, from a live source. */
  predicate RecordsFid(s: State, step: Step, fid: nat) {
    || (step.RecordRebind? && step.fid == fid && step.answering == s.epoch)
    || (step.RecordWalk? && step.newfid == fid && step.answering == s.epoch && IsLive(s.reg, step.source))
  }

  /** `record` is what `step` was told: for a rebind the record it carries, for a walk the inode it
      reached, or its source's, and the open state it was answered with. */
  predicate AsTold(s: State, step: Step, record: FidRecord) {
    if step.RecordRebind? then record == step.record
    else
      && step.RecordWalk? && IsLive(s.reg, step.source)
      && record.inode == (if step.inode.Some? then step.inode.value else s.reg.records[step.source].record.inode)
      && (record.open <==> step.open.Some?) && (step.open.Some? ==> record.openFlags == step.open.value)
  }

  lemma RecordStep(s: State, step: Step, fid: nat)
    requires Enabled(s, step) && IsLive(Next(s, step).reg, fid)
    ensures if RecordsFid(s, step, fid) then AsTold(s, step, Next(s, step).reg.records[fid].record)
            else IsLive(s.reg, fid) && s.reg.records[fid] == Next(s, step).reg.records[fid]
  {
    if !step.RecordWalk? && !step.RecordRebind? {
      OtherStepsKeepRecords(s, step, fid);
    }
  }

  /** In every run a live fid's inode and open state are those of the step that recorded it, which no
      later step recorded again; only the root's come from the start. */
  lemma {:induction false} RecordIsAsTold(states: seq<State>, steps: seq<Step>, i: nat, fid: nat)
    returns (j: Option<nat>)
    requires Run(states, steps) && i < |states| && IsLive(states[i].reg, fid)
    ensures j.Some? ==> j.value < i && RecordsFid(states[j.value], steps[j.value], fid)
                        && AsTold(states[j.value], steps[j.value], states[i].reg.records[fid].record)
    ensures j.None? ==> IsLive(states[0].reg, fid) && states[i].reg.records[fid] == states[0].reg.records[fid]
    ensures forall k :: (if j.Some? then j.value + 1 else 0) <= k < i ==> !RecordsFid(states[k], steps[k], fid)
  {
    hide Next, Enabled, AsTold, RecordsFid;
    if i == 0 {
      j := None;
    } else {
      RecordStep(states[i - 1], steps[i - 1], fid);
      if RecordsFid(states[i - 1], steps[i - 1], fid) {
        j := Some(i - 1);
      } else {
        j := RecordIsAsTold(states, steps, i - 1, fid);
      }
    }
  }

  // ------------------------------------------------------------------ while a replay may run

  /** What a replay would put on a candidate. */
  datatype Image = Image(fids: map<nat, ServerFid>, locks: Table)

  function ImageOf(reg: Registry): Image {
    Image(Rebuilt(reg, LiveFids(reg)), reg.locks)
  }

  /** `step` moves the image of a disconnected session: the replay's own commit, or a clunk that
      found its fid stale and so names no connection. */
  predicate Moves(s: State, step: Step) {
    || step.PruneGone?
    || (step.Clunk? && step.answeredOn.None? && (IsLive(s.reg, step.fid) || HasLock(s.reg.locks, step.fid)))
  }

  /** A record that no step writes keeps its identity too. */
  lemma SameRecordsSameImage(s: State, step: Step)
    requires Counted(s.reg, s.held) && Enabled(s, step)
    requires Counted(Next(s, step).reg, Next(s, step).held) && Next(s, step).reg.locks == s.reg.locks
    requires forall f: nat :: IsLive(Next(s, step).reg, f) <==> IsLive(s.reg, f)
    requires forall f: nat :: IsLive(s.reg, f) ==> Next(s, step).reg.records[f] == s.reg.records[f]
    ensures ImageOf(Next(s, step).reg) == ImageOf(s.reg)
  {
    var v := Next(s, step);
    hide Next, Enabled, Counted;
    assert LiveFids(v.reg) == LiveFids(s.reg);
    forall f: nat | IsLive(s.reg, f)
      ensures Recreated(v.reg, f) == Recreated(s.reg, f)
    {
      LiveIsInterned(s.reg, s.held, f);
      LiveIsInterned(v.reg, v.held, f);
      CredentialsAreStable(s, step, s.reg.records[f].record.credential);
    }
  }

  lemma ForgetNothing(t: Table, fid: nat)
    ensures Forget(t, fid) == t <==> !HasLock(t, fid)
  {
    if i :| 0 <= i < |t| && Owned(t[i], fid) {
      assert Forget(t, fid)[i] != t[i];
    } else {
      assert Forget(t, fid) == t;
    }
  }

  lemma StaleClunkMoves(s: State, step: Step)
    requires Counted(s.reg, s.held) && Enabled(s, step) && step.Clunk? && step.answeredOn.None?
    ensures ImageOf(Next(s, step).reg) != ImageOf(s.reg) <==> Moves(s, step)
  {
    var v := Next(s, step);
    ForgetNothing(s.reg.locks, step.fid);
    if IsLive(s.reg, step.fid) {
      assert step.fid in LiveFids(s.reg) && step.fid !in LiveFids(v.reg);
      assert step.fid in ImageOf(s.reg).fids && step.fid !in ImageOf(v.reg).fids;
    } else if !HasLock(s.reg.locks, step.fid) {
      StepKeepsCounted(s, step);
      SameRecordsSameImage(s, step);
    }
  }

  lemma PruneMoves(s: State, step: Step)
    requires Enabled(s, step) && step.PruneGone?
    ensures ImageOf(Next(s, step).reg) != ImageOf(s.reg)
  {
    assert step.fid in LiveFids(s.reg) && step.fid !in LiveFids(Next(s, step).reg);
    assert step.fid in ImageOf(s.reg).fids && step.fid !in ImageOf(Next(s, step).reg).fids;
  }

  /** While disconnected, the image moves exactly by those two steps. */
  lemma ImageMovesExactly(s: State, step: Step)
    requires Counted(s.reg, s.held) && Enabled(s, step) && !s.connected
    ensures ImageOf(Next(s, step).reg) != ImageOf(s.reg) <==> Moves(s, step)
  {
    if step.Clunk? && step.answeredOn.None? {
      StaleClunkMoves(s, step);
    } else if step.PruneGone? {
      PruneMoves(s, step);
    } else {
      StepKeepsCounted(s, step);
      SameRecordsSameImage(s, step);
    }
  }

  /** From a retirement to the next installation the records and locks a replay reads stand still,
      but for what the replay commits itself and for clunks that found their fid stale. */
  lemma {:induction false} RecordsStandStill(states: seq<State>, steps: seq<Step>, i: nat, j: nat)
    requires Run(states, steps) && i <= j < |states|
    requires forall k :: i <= k < j ==> !states[k].connected && !Moves(states[k], steps[k])
    ensures ImageOf(states[j].reg) == ImageOf(states[i].reg)
    decreases j - i
  {
    hide Next, Enabled, Counted;
    if i < j {
      RecordsStandStill(states, steps, i, j - 1);
      RunKeepsInv(states, steps, j - 1);
      ImageMovesExactly(states[j - 1], steps[j - 1]);
    }
  }

  /** A clunk answered as stale, whose caller gets round to it only after the connection was
      retired, takes a live record away from under a replay. */
  lemma StaleClunkMovesRecords(id: Identity) returns (states: seq<State>, steps: seq<Step>)
    ensures Run(states, steps) && |steps| == 5 && steps[3] == Retire && steps[4] == Clunk(2, None, true)
    ensures !states[4].connected && ImageOf(states[5].reg) != ImageOf(states[4].reg)
  {
    var root := Registry([Vacant, Live(FidRecord(ROOT_INODE, 0, 0, false))], [Some(CredentialSlot(id, 1))],
                         ROOT_FID + 1, [], []);
    var s0 := State(root, multiset{}, {}, 0, true, false);
    steps := [GrowRecords(3), AllocateNumber, RecordWalk(ROOT_FID, 2, None, None, 0), Retire, Clunk(2, None, true)];
    var s1 := Next(s0, steps[0]);
    var s2 := Next(s1, steps[1]);
    var s3 := Next(s2, steps[2]);
    var s4 := Next(s3, steps[3]);
    states := [s0, s1, s2, s3, s4, Next(s4, steps[4])];
    RunKeepsInv(states, steps, 4);
    StaleClunkMoves(s4, steps[4]);
  }
}
