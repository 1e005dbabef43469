/** The tag table of one session as a state machine over its critical sections
    (kernel/client/slots.rs, session.rs, reply.rs, flush.rs, receive.rs).

    One step is one hold of the session mutex, one hold of a tag shard, or one
    event of the server. Retiring a connection is several steps: the epoch is
    bumped, then published, then each shard is swept, all under the session
    mutex, while the receiver, which takes only shards, runs in between. */
module TagTable {
  import opened Wrappers
  import opened TagSpace

  datatype SlotState = Vacant | Reserved | Sent | Completed | Consuming | Failed

  /** Reply credit and whether a control reply may exceed the limit with it. */
  datatype Charge = Charge(credit: nat, emergency: bool)

  /** Where a read reply may be put; every registration has its own `iter`. */
  datatype Destination = Destination(iter: nat, inUse: bool, delivered: bool)

  /** `looked` is what the owner remembers: it found its request unanswered. The rest is history:
      the request the tag was last reserved for, the connection it was sent on, the tag a Tflush
      names, and whether the whole frame got to the server. */
  datatype Slot = Slot(
    state: SlotState,
    charge: Charge,
    dest: Option<Destination>,
    rid: nat,
    epoch: nat,
    cancels: Option<nat>,
    whole: bool,
    looked: bool)

  const VACANT: Slot := Slot(Vacant, Charge(0, false), None, 0, 0, None, false, false)

  /** A request on the wire, and also the reply it elicits. */
  datatype Req = Req(rid: nat, tag: nat, cancels: Option<nat>)

  /** What the server still has to answer, and answers not read yet, in stream order. */
  datatype Conn = Conn(pending: set<Req>, replies: seq<Req>)

  datatype Status = Connected | Lost | Dead

  /** Progress of a retirement: epoch bumped, then published, then shards below `k` swept. */
  datatype Sweep = Settled | Bumped | At(k: nat)

  /** The receiver: nothing in hand, a frame read off connection `e`, or that frame with
      its tag's shard locked and the epoch check passed. */
  datatype Rx = Idle | Hand(e: nat, req: Req) | Hold(e: nat, req: Req)

  /** A caller giving up on cancelling the request on `target`, with the control tag it got. */
  datatype Owner = Owner(flush: Option<nat>, target: nat)

  /** What such a caller saw of its request when it retired the connection. It keeps the session
      mutex from that look until it has vacated its tags. */
  datatype Note = Note(owner: Owner, ready: bool)

  /** Why a slot is released: its request never went out or has failed; its owner waited too
      long; the probe's own send broke; the connection was gone before a control tag was got; or
      the connection a flush belonged to is gone. */
  datatype Cause = Unsent | Late | Broken | BandLost | FlushLost

  /** `sent` is the advisory count of requests in flight; while `owed`, the receiver has stored a
      reply and not yet counted it down. `lent` is history: tags whose owner has taken its reply or
      dropped its destination, and not yet released the tag. */
  datatype State = State(
    status: Status,
    epoch: nat,
    active: nat,
    sweep: Sweep,
    slots: seq<Slot>,
    busy: set<nat>,
    resident: nat,
    cursor: nat,
    used: nat,
    limit: nat,
    carried: seq<Charge>,
    conns: map<nat, Conn>,
    link: Option<nat>,
    rx: Rx,
    claim: Option<(nat, nat)>,
    dropped: set<nat>,
    nextRid: nat,
    nextIter: nat,
    holder: Option<Note>,
    sent: nat,
    owed: bool,
    lent: set<nat>)

  datatype Step =
    | Reserve(charge: Charge, register: bool)
    | Grow
    | Send(tag: nat, delivered: bool)
    | ServerReply(e: nat, req: Req)
    | ServerFlush(e: nat, req: Req)
    | RxBegin
    | RxRead
    | RxCheck
    | RxDrop
    | RxClaim
    | RxComplete
    | RxCount
    | RxUnclaim
    | TakeReply(tag: nat)
    | ReleaseIdle(tag: nat)
    | ReleaseCarried(i: nat)
    | Look(tag: nat)
    | ReleaseSlot(tag: nat, cause: Cause)
    | DropDestination(tag: nat)
    | ReserveFlush(tag: nat, target: nat, credit: nat)
    | TakeFlush(tag: nat)
    | FinishFlush(tag: nat)
    | VacateFlush(tag: nat)
    | VacateOriginal(target: nat)
    | Retire(terminal: bool, owner: Option<Owner>)
    | PublishEpoch
    | SweepShard
    | Install

  // ------------------------------------------------------------------ guards

  predicate IsFlushTag(tag: nat) {
    tag < FIRST_NORMAL_TAG
  }

  /** Nobody holds this tag's shard across a step. */
  predicate ShardFree(s: State, tag: nat) {
    s.rx.Hold? ==> s.rx.req.tag % SLOT_SHARDS != tag % SLOT_SHARDS
  }

  /** A Tflush for this tag is under way; its owner is then inside the cancellation path. */
  predicate Cancelling(s: State, tag: nat) {
    exists f :: 0 <= f < FLUSH_SLOTS && f < |s.slots| && s.slots[f].state != Vacant && s.slots[f].cancels == Some(tag)
  }

  /** An Rflush has arrived and its owner is not done with it. */
  predicate FlushReplyPending(s: State) {
    exists f :: 0 <= f < FLUSH_SLOTS && f < |s.slots|
                && (s.slots[f].state == Completed || s.slots[f].state == Consuming)
  }

  /** A control tag in use, with the tag its Tflush names. */
  predicate FlushOwned(s: State, tag: nat) {
    && IsFlushTag(tag) && tag < |s.slots| && s.slots[tag].state != Vacant
    && s.slots[tag].cancels.Some? && s.slots[tag].cancels.value < |s.slots|
  }

  /** The caller may speak for this request: it is in use, and cancelled by its own flush or none. */
  predicate OwnerOk(s: State, o: Owner) {
    && !IsFlushTag(o.target) && o.target < |s.slots| && s.slots[o.target].state != Vacant
    && (if o.flush.Some? then FlushOwned(s, o.flush.value) && s.slots[o.flush.value].cancels == Some(o.target)
        else !Cancelling(s, o.target))
  }

  /** Whether giving up on this request keeps it: as its owner saw it before retiring the
      connection itself, or as it is, when somebody else had retired it. */
  predicate Keeps(s: State, target: nat)
    requires target < |s.slots|
  {
    if s.holder.Some? then s.holder.value.ready else s.slots[target].state == Completed
  }

  /** No retirement is under way and nobody holds the session mutex across steps. */
  predicate Unlocked(s: State) {
    s.sweep == Settled && s.holder.None?
  }

  /** This caller may take, or still has, the session mutex. */
  predicate MayVacate(s: State, o: Owner) {
    s.sweep == Settled && OwnerOk(s, o) && (s.holder.Some? ==> s.holder.value.owner == o)
    && ShardFree(s, o.target) && s.slots[o.target].epoch < s.epoch && s.slots[o.target].state != Reserved
  }

  function FreeIndex(s: State): Option<nat> {
    NextFreeResidentTag(s.resident, s.cursor, s.busy)
  }

  /** The state in which each caller of the release finds its slot. */
  predicate Released(s: State, tag: nat, cause: Cause)
    requires tag < |s.slots|
  {
    var slot := s.slots[tag];
    match cause
    case Unsent => !IsFlushTag(tag) && (slot.state == Reserved || slot.state == Failed)
    case Late => Outlived(s, tag) && slot.looked
    case Broken => Outlived(s, tag) && !slot.whole
    case BandLost => Outlived(s, tag)
    case FlushLost => FlushOwned(s, tag) && s.slots[slot.cancels.value].epoch < s.epoch
  }

  /** An ordinary request that was sent on a connection retired since. */
  predicate Outlived(s: State, tag: nat)
    requires tag < |s.slots|
  {
    !IsFlushTag(tag) && s.slots[tag].state != Reserved && s.slots[tag].epoch < s.epoch
  }

  /** The frame in hand still belongs to the published connection and its tag awaits it. */
  predicate Expected(s: State, e: nat, req: Req) {
    s.active == e && req.tag < |s.slots| && s.slots[req.tag].state == Sent
  }

  /** The receiver is between frames. */
  predicate ReceiveFree(s: State) {
    s.rx.Idle? && s.claim.None? && !s.owed
  }

  predicate Enabled(s: State, step: Step) {
    match step
    case Reserve(charge, register) =>
      Unlocked(s) && !s.status.Dead? && charge.credit <= s.limit
      && (charge.emergency || s.used + charge.credit <= s.limit)
      && FreeIndex(s).Some? && ShardFree(s, FreeIndex(s).value + FIRST_NORMAL_TAG)
    case Grow => Unlocked(s) && s.resident < NORMAL_TAG_COUNT && !s.rx.Hold?
    case Send(tag, delivered) =>
      Unlocked(s) && s.status.Connected? && s.epoch in s.conns && tag < |s.slots| && ShardFree(s, tag)
      && s.slots[tag].state == Reserved
    case ServerReply(e, req) => e in s.conns && req in s.conns[e].pending && req.cancels.None?
    case ServerFlush(e, req) => e in s.conns && req in s.conns[e].pending && req.cancels.Some?
    case RxBegin =>
      Unlocked(s) && s.status.Connected? && ReceiveFree(s) && s.link.None? && !FlushReplyPending(s)
    case RxRead =>
      ReceiveFree(s) && s.link.Some? && s.link.value in s.conns && s.conns[s.link.value].replies != []
    case RxCheck => s.rx.Hand? && Expected(s, s.rx.e, s.rx.req)
    case RxDrop => s.rx.Hand?
    case RxClaim =>
      s.rx.Hand? && s.claim.None? && Expected(s, s.rx.e, s.rx.req) && !IsFlushTag(s.rx.req.tag)
      && s.slots[s.rx.req.tag].dest.Some?
      && !s.slots[s.rx.req.tag].dest.value.inUse && !s.slots[s.rx.req.tag].dest.value.delivered
    case RxComplete => s.rx.Hold? && s.rx.req.tag < |s.slots|
    case RxCount => s.owed
    case RxUnclaim => s.rx.Idle? && s.claim.Some? && s.claim.value.0 < |s.slots|
    case TakeReply(tag) =>
      !IsFlushTag(tag) && tag < |s.slots| && ShardFree(s, tag) && s.slots[tag].state == Completed && !Cancelling(s, tag)
      && !(s.holder.Some? && s.holder.value.owner.target == tag)
    case Look(tag) =>
      !IsFlushTag(tag) && tag < |s.slots| && ShardFree(s, tag)
      && s.slots[tag].state != Vacant && s.slots[tag].state != Completed
    case ReleaseIdle(tag) => Unlocked(s) && !IsFlushTag(tag) && tag < |s.slots| && ShardFree(s, tag)
    case ReleaseCarried(i) => Unlocked(s) && i < |s.carried|
    case ReleaseSlot(tag, cause) =>
      Unlocked(s) && tag < |s.slots| && ShardFree(s, tag) && s.slots[tag].state != Vacant && !Cancelling(s, tag)
      && Released(s, tag, cause)
    case DropDestination(tag) =>
      tag < |s.slots| && ShardFree(s, tag) && s.slots[tag].dest.Some? && !s.slots[tag].dest.value.inUse
    case ReserveFlush(tag, target, credit) =>
      Unlocked(s) && !s.status.Dead? && IsFlushTag(tag) && tag < |s.slots| && s.slots[tag].state == Vacant
      && ShardFree(s, tag) && !IsFlushTag(target) && target < |s.slots| && ShardFree(s, target)
      && s.slots[target].state == Sent && s.slots[target].epoch == s.epoch && !Cancelling(s, target)
    case TakeFlush(tag) =>
      Unlocked(s) && IsFlushTag(tag) && tag < |s.slots| && ShardFree(s, tag) && s.slots[tag].state == Completed
    case FinishFlush(tag) =>
      Unlocked(s) && FlushOwned(s, tag) && ShardFree(s, tag) && s.slots[tag].state == Consuming
      && ShardFree(s, s.slots[tag].cancels.value)
    case VacateFlush(tag) =>
      FlushOwned(s, tag) && ShardFree(s, tag) && MayVacate(s, Owner(Some(tag), s.slots[tag].cancels.value))
    case VacateOriginal(target) => MayVacate(s, Owner(None, target))
    case Retire(terminal, owner) =>
      Unlocked(s) && (s.status.Connected? || (terminal && s.status.Lost?)) && (owner.Some? ==> OwnerOk(s, owner.value))
    case PublishEpoch => s.sweep.Bumped?
    case SweepShard =>
      s.sweep.At? && s.sweep.k < SLOT_SHARDS && (s.rx.Hold? ==> s.rx.req.tag % SLOT_SHARDS != s.sweep.k)
    case Install =>
      Unlocked(s) && s.status.Lost? && ReceiveFree(s) && s.link.None? && !FlushReplyPending(s)
  }

  // ------------------------------------------------------------------ effects

  function WithSlot(s: State, tag: nat, slot: Slot): State
    requires tag < |s.slots|
  {
    s.(slots := s.slots[tag := slot])
  }

  /** A slot given up: everything but its destination and its history is cleared. */
  function Vacated(slot: Slot): Slot {
    slot.(state := Vacant, charge := Charge(0, false), cancels := None)
  }

  /** `clear_normal_tag_if_idle`. */
  function ClearIfIdle(s: State, tag: nat): State
    requires tag < |s.slots|
  {
    if !IsFlushTag(tag) && s.slots[tag].state == Vacant && s.slots[tag].dest.None?
    then s.(busy := s.busy - {tag - FIRST_NORMAL_TAG}) else s
  }

  /** `vacate_tag_locked` followed by the credit refund its callers make. */
  function VacateTag(s: State, tag: nat): State
    requires tag < |s.slots|
  {
    ClearIfIdle(WithSlot(s, tag, Vacated(s.slots[tag])), tag)
    .(used := Monus(s.used, s.slots[tag].charge.credit))
  }

  function Swept(slot: Slot): Slot {
    if slot.state == Reserved || slot.state == Sent then slot.(state := Failed) else slot
  }

  /** One shard of the sweep. */
  function SweepOf(slots: seq<Slot>, shard: nat): seq<Slot> {
    seq(|slots|, t requires 0 <= t < |slots| => if t % SLOT_SHARDS == shard then Swept(slots[t]) else slots[t])
  }

  function Reserving(s: State, charge: Charge, register: bool): State
    requires Enabled(s, Reserve(charge, register))
  {
    var index := FreeIndex(s).value;
    var tag := index + FIRST_NORMAL_TAG;
    // A clear bit over a slot in use changes nothing; no run reaches it.
    if tag >= |s.slots| || s.slots[tag].state != Vacant || s.slots[tag].dest.Some? then s
    else
      var dest := if register then Some(Destination(s.nextIter, false, false)) else None;
      WithSlot(s, tag, Slot(Reserved, charge, dest, s.nextRid, 0, None, false, false))
      .(busy := s.busy + {index}, used := s.used + charge.credit, cursor := NextNormalIndex(index, s.resident),
        nextRid := s.nextRid + 1, nextIter := if register then s.nextIter + 1 else s.nextIter)
  }

  function Sending(s: State, tag: nat, delivered: bool): State
    requires Enabled(s, Send(tag, delivered))
  {
    var slot := s.slots[tag];
    var conn := s.conns[s.epoch];
    var req := Req(slot.rid, tag, slot.cancels);
    var wire := if delivered then conn.(pending := conn.pending + {req}) else conn;
    WithSlot(s, tag, slot.(state := Sent, epoch := s.epoch, whole := delivered))
    .(conns := s.conns[s.epoch := wire], sent := s.sent + 1)
  }

  /** flush(5): the pending request named by the flush is discarded, and the Rflush
      follows every reply already given. */
  function FlushAnswered(conn: Conn, req: Req): Conn
    requires req in conn.pending && req.cancels.Some?
  {
    var target := req.cancels.value;
    var left := set p | p in conn.pending && p != req && !(p.cancels.None? && p.tag == target && p.rid < req.rid);
    Conn(left, conn.replies + [req])
  }

  function Completing(s: State): State
    requires Enabled(s, RxComplete)
  {
    var tag := s.rx.req.tag;
    var slot := s.slots[tag];
    var dest := if s.claim.Some? && s.claim.value.0 == tag && slot.dest.Some?
                then Some(slot.dest.value.(delivered := true)) else slot.dest;
    WithSlot(s, tag, slot.(state := Completed, dest := dest))
    .(rx := Idle, link := if IsFlushTag(tag) then None else s.link, owed := true)
  }

  function FinishingFlush(s: State, tag: nat): State
    requires Enabled(s, FinishFlush(tag))
  {
    var target := s.slots[tag].cancels.value;
    var flushed := VacateTag(s, tag);
    match s.slots[target].state
    case Completed => flushed
    case Sent => if s.sent == 0 then s else VacateTag(flushed, target).(sent := s.sent - 1)
    case Failed => VacateTag(flushed, target)
    case _ => s
  }

  function Next(s: State, step: Step): State
    requires Enabled(s, step)
  {
    match step
    case Reserve(charge, register) => Reserving(s, charge, register)
    case Grow =>
      var resident := NextResidentCount(s.resident);
      s.(slots := s.slots + seq(Monus(FIRST_NORMAL_TAG + resident, |s.slots|), _ => VACANT), resident := resident)
    case Send(tag, delivered) => Sending(s, tag, delivered)
    case ServerReply(e, req) =>
      s.(conns := s.conns[e := Conn(s.conns[e].pending - {req}, s.conns[e].replies + [req])])
    case ServerFlush(e, req) => s.(conns := s.conns[e := FlushAnswered(s.conns[e], req)])
    case RxBegin => s.(link := Some(s.epoch))
    case RxRead =>
      var e := s.link.value;
      s.(rx := Hand(e, s.conns[e].replies[0]), conns := s.conns[e := s.conns[e].(replies := s.conns[e].replies[1..])])
    case RxCheck => s.(rx := Hold(s.rx.e, s.rx.req))
    case RxDrop => s.(rx := Idle, link := None)
    case RxClaim =>
      var tag := s.rx.req.tag;
      var dest := s.slots[tag].dest.value;
      WithSlot(s, tag, s.slots[tag].(dest := Some(dest.(inUse := true)))).(claim := Some((tag, dest.iter)))
    case RxComplete => Completing(s)
    case RxCount => s.(sent := Monus(s.sent, 1), owed := false)
    case RxUnclaim =>
      var tag := s.claim.value.0;
      var slot := s.slots[tag];
      var dest := if slot.dest.Some? then Some(slot.dest.value.(inUse := false)) else None;
      WithSlot(s, tag, slot.(dest := dest)).(claim := None)
    case TakeReply(tag) =>
      WithSlot(s, tag, Vacated(s.slots[tag]))
      .(carried := s.carried + [s.slots[tag].charge], lent := s.lent + {tag})
    case ReleaseIdle(tag) => ClearIfIdle(s, tag).(lent := s.lent - {tag})
    case ReleaseCarried(i) =>
      s.(carried := s.carried[..i] + s.carried[i + 1..], used := Monus(s.used, s.carried[i].credit))
    case Look(tag) => WithSlot(s, tag, s.slots[tag].(looked := true))
    case ReleaseSlot(tag, _) => VacateTag(s, tag)
    case DropDestination(tag) =>
      WithSlot(s, tag, s.slots[tag].(dest := None))
      .(dropped := s.dropped + {s.slots[tag].dest.value.iter}, lent := s.lent + {tag})
    case ReserveFlush(tag, target, credit) =>
      var slot := Slot(Reserved, Charge(credit, true), s.slots[tag].dest, s.nextRid, 0, Some(target), false, false);
      WithSlot(s, tag, slot).(used := s.used + credit, nextRid := s.nextRid + 1)
    case TakeFlush(tag) => WithSlot(s, tag, s.slots[tag].(state := Consuming))
    case FinishFlush(tag) => FinishingFlush(s, tag)
    case VacateFlush(tag) =>
      var target := s.slots[tag].cancels.value;
      var flushed := VacateTag(s, tag);
      (if Keeps(s, target) then flushed else VacateTag(flushed, target)).(holder := None)
    case VacateOriginal(target) => (if Keeps(s, target) then s else VacateTag(s, target)).(holder := None)
    case Retire(terminal, owner) =>
      var holder := if owner.None? then None
                    else Some(Note(owner.value, s.slots[owner.value.target].state == Completed));
      s.(status := if terminal then Dead else Lost, epoch := s.epoch + 1, sweep := Bumped, holder := holder)
    // The count is cleared in the same hold, before the first shard is swept.
    case PublishEpoch => s.(active := s.epoch, sweep := At(0), sent := 0)
    case SweepShard =>
      s.(slots := SweepOf(s.slots, s.sweep.k),
         sweep := if s.sweep.k + 1 == SLOT_SHARDS then Settled else At(s.sweep.k + 1))
    case Install => s.(status := Connected, conns := s.conns[s.epoch := Conn({}, [])], cursor := 0)
  }

  /** A session just connected: every resident slot vacant, nothing charged. */
  ghost predicate Initial(s: State) {
    && s.status == Connected && s.epoch == s.active == 0 && s.sweep == Settled
    && |s.slots| == FIRST_NORMAL_TAG + INITIAL_PENDING_TAGS && (forall t :: 0 <= t < |s.slots| ==> s.slots[t] == VACANT)
    && s.busy == {} && s.resident == INITIAL_PENDING_TAGS && s.cursor == 0
    && s.used == 0 && s.carried == []
    && s.conns == map[0 := Conn({}, [])] && s.link.None? && s.rx == Idle && s.claim.None? && s.dropped == {}
    && s.holder.None? && s.sent == 0 && !s.owed && s.lent == {}
  }

  ghost predicate Run(states: seq<State>, steps: seq<Step>) {
    && |states| == |steps| + 1
    && Initial(states[0])
    && forall i :: 0 <= i < |steps| ==> Enabled(states[i], steps[i]) && states[i + 1] == Next(states[i], steps[i])
  }
}
