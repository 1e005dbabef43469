/** No reply is ever matched to another request: what the session, the receiver and a
    9P server that honours flush(5) keep between them. */
module TagSafety {
  import opened Wrappers
  import opened TagSpace
  import opened TagTable
  import opened TagAccounting

  // ------------------------------------------------------------------ the live wire

  /** What the published connection still owes, in stream order, and the frame the
      receiver holds from it. */
  datatype Wire = Wire(pending: set<Req>, replies: seq<Req>, hand: Option<Req>)

  function WireOf(s: State): Wire {
    var conn := if s.active in s.conns then s.conns[s.active] else Conn({}, []);
    Wire(conn.pending, conn.replies, if !s.rx.Idle? && s.rx.e == s.active then Some(s.rx.req) else None)
  }

  predicate Carries(w: Wire, r: Req) {
    r in w.pending || r in w.replies || w.hand == Some(r)
  }

  /** A request the published connection still owes an answer for, or whose answer the
      receiver has not dealt with. */
  predicate Awaited(s: State, r: Req) {
    Carries(WireOf(s), r)
  }

  /** An ordinary request using this tag is awaited. */
  ghost predicate TagAwaited(s: State, tag: nat) {
    exists r :: Awaited(s, r) && r.tag == tag && r.cancels.None?
  }

  // ------------------------------------------------------------------ invariants

  /** The epoch counter, the published epoch and the connections made so far. */
  ghost predicate EpochInv(s: State) {
    && s.active == (if s.sweep.Bumped? then s.epoch - 1 else s.epoch)
    && (s.sweep.At? ==> s.sweep.k < SLOT_SHARDS)
    && (s.status.Connected? <==> s.epoch in s.conns)
    && (s.status.Connected? ==> s.sweep.Settled?)
    && (forall e :: e in s.conns ==> e <= s.epoch)
    && (s.link.Some? ==> s.link.value in s.conns)
    && (!s.rx.Idle? ==> s.rx.e in s.conns)
  }

  /** Every awaited request owns its tag's slot. */
  ghost predicate OwnedInv(s: State) {
    forall r :: Awaited(s, r) ==> Owns(s, r)
  }

  ghost predicate Owns(s: State, r: Req) {
    && r.tag < |s.slots| && s.slots[r.tag].state == Sent && s.slots[r.tag].rid == r.rid
    && s.slots[r.tag].epoch == s.active && s.slots[r.tag].cancels == r.cancels && s.slots[r.tag].whole
  }

  /** No request is in two places at once. */
  ghost predicate Once(w: Wire) {
    && (forall i, j :: 0 <= i < j < |w.replies| ==> w.replies[i] != w.replies[j])
    && (forall i :: 0 <= i < |w.replies| ==> w.replies[i] !in w.pending && w.hand != Some(w.replies[i]))
    && (w.hand.Some? ==> w.hand.value !in w.pending)
  }

  /** The receiver keeps the slot it checked. */
  ghost predicate HoldInv(s: State) {
    s.rx.Hold? ==> && s.rx.req.tag < |s.slots| && s.slots[s.rx.req.tag].state == Sent
                   && s.slots[s.rx.req.tag].rid == s.rx.req.rid && s.slots[s.rx.req.tag].epoch == s.rx.e
                   && s.slots[s.rx.req.tag].cancels == s.rx.req.cancels && s.slots[s.rx.req.tag].whole
  }

  /** The epoch reservations made before a retirement belong to. */
  function Base(s: State): int {
    if s.sweep.Settled? then s.epoch else s.epoch - 1
  }

  /** A busy control tag names an ordinary request that cannot leave its slot meanwhile. */
  ghost predicate FlushInv(s: State) {
    && FIRST_NORMAL_TAG <= |s.slots|
    && (forall t :: FIRST_NORMAL_TAG <= t < |s.slots| ==> s.slots[t].cancels.None?)
    && (forall t :: 0 <= t < |s.slots| && s.slots[t].state != Vacant ==> s.slots[t].rid < s.nextRid)
    && (forall f :: 0 <= f < FLUSH_SLOTS && s.slots[f].state != Vacant ==> Bound(s, f))
    && (forall f, g :: 0 <= f < g < FLUSH_SLOTS && s.slots[f].state != Vacant && s.slots[g].state != Vacant ==>
          s.slots[f].cancels != s.slots[g].cancels)
  }

  ghost predicate Bound(s: State, f: nat)
    requires FIRST_NORMAL_TAG <= |s.slots| && f < FLUSH_SLOTS
  {
    var slot := s.slots[f];
    && slot.cancels.Some? && FIRST_NORMAL_TAG <= slot.cancels.value < |s.slots|
    && var target := s.slots[slot.cancels.value];
       && (target.state == Sent || target.state == Completed || target.state == Failed)
       && target.rid < slot.rid
       && (slot.state == Reserved ==> target.epoch == Base(s) && (s.sweep.At? ==> s.sweep.k <= f))
       && (slot.state != Reserved && slot.state != Failed ==> slot.epoch == target.epoch)
  }

  /** An Rflush is behind every answer to the request it cancels. */
  ghost predicate Ordered(w: Wire) {
    && (forall i, j :: 0 <= i < j < |w.replies| ==> !Answers(w.replies[j], w.replies[i]))
    && (forall i, p :: 0 <= i < |w.replies| && p in w.pending ==> !Answers(p, w.replies[i]))
    && (w.hand.Some? ==> forall r :: r in w.pending || r in w.replies ==> !Answers(r, w.hand.value))
  }

  /** `r` is the ordinary request that the flush `f` cancels. */
  predicate Answers(r: Req, f: Req) {
    f.cancels == Some(r.tag) && r.cancels.None?
  }

  /** An arrived Rflush leaves nothing owed for the request it cancelled. */
  ghost predicate SettledInv(s: State) {
    forall f :: 0 <= f < FLUSH_SLOTS && f < |s.slots| && Answered(s.slots[f], s.active) ==>
      !TagAwaited(s, s.slots[f].cancels.value)
  }

  /** The Rflush for this control slot has arrived on connection `epoch`. */
  predicate Answered(slot: Slot, epoch: nat) {
    (slot.state == Completed || slot.state == Consuming) && slot.epoch == epoch && slot.cancels.Some?
  }

  ghost predicate WireInv(s: State) {
    EpochInv(s) && OwnedInv(s) && Once(WireOf(s)) && Ordered(WireOf(s)) && HoldInv(s)
  }

  ghost predicate Safe(s: State) {
    LayoutInv(s) && WireInv(s) && FlushInv(s) && SettledInv(s)
  }

  lemma InitialSafe(s: State)
    requires Initial(s)
    ensures Safe(s)
  {
  }

  /** With no published connection nothing is awaited. */
  lemma NothingAwaited(s: State)
    requires EpochInv(s) && s.active !in s.conns
    ensures forall r :: !Awaited(s, r)
  {
  }

  // ------------------------------------------------------------------ steps on slots

  ghost predicate SameWire(s: State, v: State) {
    && v.active == s.active && v.conns == s.conns && v.rx == s.rx && v.epoch == s.epoch && v.status == s.status
    && v.link == s.link && v.sweep == s.sweep
  }

  predicate SameRequest(a: Slot, b: Slot) {
    a.state == b.state && a.rid == b.rid && a.epoch == b.epoch && a.cancels == b.cancels && a.whole == b.whole
  }

  /** Only the slot `tag` changed hands; new slots are vacant. */
  ghost predicate OnlySlot(s: State, v: State, tag: nat) {
    && |s.slots| <= |v.slots| && s.nextRid <= v.nextRid
    && (forall t :: 0 <= t < |s.slots| && t != tag ==> SameRequest(s.slots[t], v.slots[t]))
    && (forall t :: |s.slots| <= t < |v.slots| ==> v.slots[t].state == Vacant && v.slots[t].cancels.None?)
  }

  ghost predicate Unawaited(s: State, tag: nat) {
    forall r :: Awaited(s, r) ==> r.tag != tag
  }

  lemma NotSent(s: State, tag: nat)
    requires WireInv(s) && tag < |s.slots|
    requires s.slots[tag].state != Sent || s.slots[tag].epoch != s.active
    ensures Unawaited(s, tag)
  {
  }

  lemma SlotKeepsWire(s: State, v: State, tag: nat)
    requires WireInv(s) && SameWire(s, v) && OnlySlot(s, v, tag) && Unawaited(s, tag) && ShardFree(s, tag)
    ensures WireInv(v)
  {
    assert WireOf(v) == WireOf(s);
    forall r | Awaited(v, r)
      ensures Owns(v, r)
    {
      assert Awaited(s, r) && Owns(s, r);
    }
  }

  /** No step on a slot makes an Rflush arrive. */
  lemma SlotKeepsSettled(s: State, v: State)
    requires SettledInv(s) && SameWire(s, v) && |s.slots| <= |v.slots|
    requires forall f :: 0 <= f < FLUSH_SLOTS && f < |v.slots| && Answered(v.slots[f], s.active) ==>
               f < |s.slots| && Answered(s.slots[f], s.active) && s.slots[f].cancels == v.slots[f].cancels
    ensures SettledInv(v)
  {
    assert WireOf(v) == WireOf(s);
  }

  /** A slot that no busy control tag names may change freely. */
  lemma SlotKeepsFlush(s: State, v: State, tag: nat)
    requires FlushInv(s) && SameWire(s, v) && OnlySlot(s, v, tag) && FIRST_NORMAL_TAG <= tag && !Cancelling(s, tag)
    requires tag < |v.slots| ==>
               v.slots[tag].cancels.None? && (v.slots[tag].state == Vacant || v.slots[tag].rid < v.nextRid)
    ensures FlushInv(v)
  {
    forall f | 0 <= f < FLUSH_SLOTS && v.slots[f].state != Vacant
      ensures Bound(v, f)
    {
      assert SameRequest(s.slots[f], v.slots[f]);
      assert Bound(s, f);
    }
  }

  lemma VacateControlKeepsFlush(s: State, v: State, tag: nat)
    requires FlushInv(s) && SameWire(s, v) && OnlySlot(s, v, tag) && tag < FLUSH_SLOTS
    requires v.slots[tag].state == Vacant
    ensures FlushInv(v)
  {
    forall f | 0 <= f < FLUSH_SLOTS && v.slots[f].state != Vacant
      ensures Bound(v, f)
    {
      assert SameRequest(s.slots[f], v.slots[f]);
      assert Bound(s, f);
    }
  }

  lemma ReserveSafe(s: State, step: Step)
    requires Safe(s) && Enabled(s, step) && step.Reserve?
    ensures Safe(Next(s, step))
    ensures Unawaited(s, FreeIndex(s).value + FIRST_NORMAL_TAG)
  {
    hide WireInv, SettledInv;
    var v := Next(s, step);
    var tag := FreeIndex(s).value + FIRST_NORMAL_TAG;
    ReserveKeepsLayout(s, step.charge, step.register);
    NotSent(s, tag);
    SlotKeepsWire(s, v, tag);
    SlotKeepsSettled(s, v);
    SlotKeepsFlush(s, v, tag);
  }

  /** A vacant slot is named by no busy control tag. */
  lemma VacateNormalSafe(s: State, tag: nat)
    requires Safe(s) && FIRST_NORMAL_TAG <= tag < |s.slots|
    requires !Cancelling(s, tag) && Unawaited(s, tag) && ShardFree(s, tag)
    ensures Safe(VacateTag(s, tag))
  {
    hide WireInv, SettledInv;
    var v := VacateTag(s, tag);
    VacateKeepsLayout(s, tag);
    SlotKeepsWire(s, v, tag);
    SlotKeepsSettled(s, v);
    SlotKeepsFlush(s, v, tag);
  }

  lemma VacateControlSafe(s: State, tag: nat)
    requires Safe(s) && tag < FLUSH_SLOTS && Unawaited(s, tag) && ShardFree(s, tag)
    ensures Safe(VacateTag(s, tag))
  {
    hide WireInv, SettledInv;
    var v := VacateTag(s, tag);
    VacateKeepsLayout(s, tag);
    SlotKeepsWire(s, v, tag);
    SlotKeepsSettled(s, v);
    VacateControlKeepsFlush(s, v, tag);
  }

  /** An ordinary tag is freed only when nothing is owed on it. */
  lemma ReleaseSafe(s: State, step: Step)
    requires Safe(s) && Enabled(s, step) && step.ReleaseSlot?
    ensures Safe(Next(s, step))
    ensures Unawaited(s, step.tag)
  {
    hide SettledInv;
    NotSent(s, step.tag);
    if IsFlushTag(step.tag) {
      VacateControlSafe(s, step.tag);
    } else {
      VacateNormalSafe(s, step.tag);
    }
  }

  /** Neither the session mutex nor the count of requests in flight matters to these promises. */
  lemma AsideSafe(s: State, holder: Option<Note>, sent: nat)
    requires Safe(s)
    ensures Safe(s.(holder := holder, sent := sent))
  {
    var v := s.(holder := holder, sent := sent);
    assert WireOf(v) == WireOf(s);
    forall r | Awaited(v, r)
      ensures Owns(v, r)
    {
      assert Awaited(s, r) && Owns(s, r);
    }
    forall f | 0 <= f < FLUSH_SLOTS && v.slots[f].state != Vacant
      ensures Bound(v, f)
    {
      assert Bound(s, f);
    }
  }

  lemma VacateOriginalSafe(s: State, target: nat)
    requires Safe(s) && Enabled(s, VacateOriginal(target))
    ensures Safe(Next(s, VacateOriginal(target)))
    ensures Unawaited(s, target)
  {
    hide SettledInv;
    NotSent(s, target);
    VacateNormalSafe(s, target);
    AsideSafe(if Keeps(s, target) then s else VacateTag(s, target), None, s.sent);
  }

  lemma TakeReplySafe(s: State, tag: nat)
    requires Safe(s) && Enabled(s, TakeReply(tag))
    ensures Safe(Next(s, TakeReply(tag)))
  {
    hide WireInv, SettledInv;
    var v := Next(s, TakeReply(tag));
    NotSent(s, tag);
    SlotKeepsWire(s, v, tag);
    SlotKeepsSettled(s, v);
    SlotKeepsFlush(s, v, tag);
  }

  /** Vacating a control tag and then the request it cancels. */
  lemma VacatePairSafe(s: State, tag: nat)
    requires Safe(s) && tag < FLUSH_SLOTS && s.slots[tag].state != Vacant
    requires Unawaited(s, tag) && ShardFree(s, tag)
    requires Unawaited(s, s.slots[tag].cancels.value) && ShardFree(s, s.slots[tag].cancels.value)
    ensures Safe(VacateTag(s, tag)) && Safe(VacateTag(VacateTag(s, tag), s.slots[tag].cancels.value))
  {
    hide WireInv, SettledInv, LayoutInv;
    VacateControlSafe(s, tag);
    var v := VacateTag(s, tag);
    assert WireOf(v) == WireOf(s);
    assert Bound(s, tag);
    VacateNormalSafe(v, s.slots[tag].cancels.value);
  }

  /** The owner of an answered flush finds its original completed, failed or still sent;
      in the last two cases the server will never answer it, so the tag may be freed. */
  lemma FlushedIsUnawaited(s: State, tag: nat)
    requires WireInv(s) && FlushInv(s) && SettledInv(s) && tag < FLUSH_SLOTS && s.slots[tag].state == Consuming
    ensures Bound(s, tag) && Unawaited(s, s.slots[tag].cancels.value)
  {
    assert Bound(s, tag);
    var target := s.slots[tag].cancels.value;
    if s.slots[tag].epoch == s.active {
      assert Answered(s.slots[tag], s.active);
      assert !TagAwaited(s, target);
      forall r | Awaited(s, r)
        ensures r.tag != target
      {
        assert Owns(s, r);
      }
    } else {
      NotSent(s, target);
    }
  }

  lemma FinishFlushSafe(s: State, tag: nat)
    requires Safe(s) && Enabled(s, FinishFlush(tag))
    ensures Safe(Next(s, FinishFlush(tag)))
    ensures Unawaited(s, s.slots[tag].cancels.value)
  {
    hide WireInv, SettledInv, LayoutInv;
    FlushedIsUnawaited(s, tag);
    NotSent(s, tag);
    VacatePairSafe(s, tag);
    var both := VacateTag(VacateTag(s, tag), s.slots[tag].cancels.value);
    AsideSafe(both, s.holder, Monus(s.sent, 1));
  }

  lemma VacateFlushSafe(s: State, tag: nat)
    requires Safe(s) && Enabled(s, VacateFlush(tag))
    ensures Safe(Next(s, VacateFlush(tag)))
  {
    hide SettledInv;
    assert Bound(s, tag);
    NotSent(s, tag);
    NotSent(s, s.slots[tag].cancels.value);
    VacatePairSafe(s, tag);
    var flushed := VacateTag(s, tag);
    var target := s.slots[tag].cancels.value;
    AsideSafe(if Keeps(s, target) then flushed else VacateTag(flushed, target), None, s.sent);
  }

  lemma ReserveFlushSafe(s: State, step: Step)
    requires Safe(s) && Enabled(s, step) && step.ReserveFlush?
    ensures Safe(Next(s, step))
    ensures Unawaited(s, step.tag)
  {
    hide WireInv, SettledInv;
    var v := Next(s, step);
    NotSent(s, step.tag);
    SlotKeepsWire(s, v, step.tag);
    SlotKeepsSettled(s, v);
    forall f | 0 <= f < FLUSH_SLOTS && v.slots[f].state != Vacant
      ensures Bound(v, f)
    {
      if f != step.tag {
        assert Bound(s, f);
      }
    }
  }

  lemma TakeFlushSafe(s: State, tag: nat)
    requires Safe(s) && Enabled(s, TakeFlush(tag))
    ensures Safe(Next(s, TakeFlush(tag)))
  {
    hide WireInv, SettledInv;
    var v := Next(s, TakeFlush(tag));
    NotSent(s, tag);
    SlotKeepsWire(s, v, tag);
    SlotKeepsSettled(s, v);
    forall f | 0 <= f < FLUSH_SLOTS && v.slots[f].state != Vacant
      ensures Bound(v, f)
    {
      assert Bound(s, f);
    }
  }

  /** Steps that change no slot's request: the registered destination, the bitmap, the
      carried replies, the number of resident slots or what an owner has seen. */
  predicate Quiet(step: Step) {
    || step.Grow? || step.RxClaim? || step.RxUnclaim? || step.ReleaseIdle? || step.ReleaseCarried?
    || step.DropDestination? || step.Look? || step.RxCount?
  }

  lemma QuietFrame(s: State, step: Step)
    requires Enabled(s, step) && Quiet(step) && FIRST_NORMAL_TAG <= |s.slots|
    ensures var v := Next(s, step);
            && SameWire(s, v) && OnlySlot(s, v, |v.slots|)
            && (forall f :: 0 <= f < FLUSH_SLOTS ==> SameRequest(s.slots[f], v.slots[f]))
  {
    if step.Grow? || step.ReleaseIdle? {
      TableFrame(s, step);
    }
  }

  lemma TableFrame(s: State, step: Step)
    requires Enabled(s, step) && (step.Grow? || step.ReleaseIdle?) && FIRST_NORMAL_TAG <= |s.slots|
    ensures var v := Next(s, step);
            && SameWire(s, v) && OnlySlot(s, v, |v.slots|)
            && (forall f :: 0 <= f < FLUSH_SLOTS ==> SameRequest(s.slots[f], v.slots[f]))
  {
  }

  lemma QuietSafe(s: State, step: Step)
    requires Safe(s) && Enabled(s, step) && Quiet(step) && LayoutInv(Next(s, step))
    ensures Safe(Next(s, step))
  {
    hide Next, Enabled, WireInv, SettledInv;
    var v := Next(s, step);
    var tag := |v.slots|;
    QuietFrame(s, step);
    QuietKeepsWire(s, v, tag);
    SlotKeepsSettled(s, v);
    assert !Cancelling(s, tag) by {
      forall f | 0 <= f < FLUSH_SLOTS && s.slots[f].state != Vacant
        ensures s.slots[f].cancels != Some(tag)
      {
        assert Bound(s, f);
      }
    }
    SlotKeepsFlush(s, v, tag);
  }

  lemma QuietKeepsWire(s: State, v: State, tag: nat)
    requires WireInv(s) && SameWire(s, v) && OnlySlot(s, v, tag) && |v.slots| <= tag
    ensures WireInv(v)
  {
    assert WireOf(v) == WireOf(s);
    forall r | Awaited(v, r)
      ensures Owns(v, r)
    {
      assert Awaited(s, r) && Owns(s, r);
    }
  }

  // ------------------------------------------------------------------ steps on the wire

  /** Slots, epochs and retirement are untouched; the wire only loses or moves requests. */
  lemma WireOnlySafe(s: State, v: State)
    requires Safe(s)
    requires v.slots == s.slots && v.nextRid == s.nextRid && v.resident == s.resident && v.busy == s.busy
    requires v.epoch == s.epoch && v.active == s.active && v.sweep == s.sweep
    requires EpochInv(v) && HoldInv(v) && Once(WireOf(v)) && Ordered(WireOf(v))
    requires forall r :: Awaited(v, r) ==> Awaited(s, r)
    ensures Safe(v)
  {
    forall r | Awaited(v, r)
      ensures Owns(v, r)
    {
      assert Awaited(s, r) && Owns(s, r);
    }
    forall f | 0 <= f < FLUSH_SLOTS && v.slots[f].state != Vacant
      ensures Bound(v, f)
    {
      assert Bound(s, f);
    }
  }

  lemma ServerReplySafe(s: State, e: nat, req: Req)
    requires Safe(s) && Enabled(s, ServerReply(e, req))
    ensures Safe(Next(s, ServerReply(e, req)))
  {
    hide FlushInv, SettledInv, LayoutInv, OwnedInv;
    var v := Next(s, ServerReply(e, req));
    var w, u := WireOf(s), WireOf(v);
    if e == s.active {
      assert u == Wire(w.pending - {req}, w.replies + [req], w.hand);
    } else {
      assert u == w;
    }
    WireOnlySafe(s, v);
  }

  /** flush(5) at the server: by ownership every pending request on the cancelled tag is
      older than the flush, so none survives it. */
  lemma ServerFlushSafe(s: State, e: nat, req: Req)
    requires Safe(s) && Enabled(s, ServerFlush(e, req))
    ensures Safe(Next(s, ServerFlush(e, req)))
  {
    hide SettledInv, LayoutInv;
    var v := Next(s, ServerFlush(e, req));
    var w, u := WireOf(s), WireOf(v);
    if e == s.active {
      assert u.pending == FlushAnswered(s.conns[e], req).pending && u.replies == w.replies + [req] && u.hand == w.hand;
      assert Awaited(s, req) && Owns(s, req);
      assert Bound(s, req.tag);
      forall p | p in u.pending
        ensures !Answers(p, req)
      {
        assert Awaited(s, p) && Owns(s, p);
      }
    } else {
      assert u == w;
    }
    WireOnlySafe(s, v);
  }

  lemma RxReadSafe(s: State)
    requires Safe(s) && Enabled(s, RxRead)
    ensures Safe(Next(s, RxRead))
  {
    var v := Next(s, RxRead);
    var w, u := WireOf(s), WireOf(v);
    if s.link.value == s.active {
      assert u == Wire(w.pending, w.replies[1..], Some(w.replies[0]));
      assert w.replies[0] in w.replies;
    } else {
      assert u == w;
    }
    WireOnlySafe(s, v);
  }

  lemma RxCheckSafe(s: State)
    requires Safe(s) && Enabled(s, RxCheck)
    ensures Safe(Next(s, RxCheck))
  {
    var v := Next(s, RxCheck);
    assert WireOf(v) == WireOf(s);
    assert Awaited(s, s.rx.req) && Owns(s, s.rx.req);
    WireOnlySafe(s, v);
  }

  lemma RxDropSafe(s: State)
    requires Safe(s) && Enabled(s, RxDrop)
    ensures Safe(Next(s, RxDrop))
  {
    var v := Next(s, RxDrop);
    assert WireOf(v) == WireOf(s).(hand := None);
    WireOnlySafe(s, v);
  }

  lemma RxBeginSafe(s: State)
    requires Safe(s) && Enabled(s, RxBegin)
    ensures Safe(Next(s, RxBegin))
  {
    var v := Next(s, RxBegin);
    assert WireOf(v) == WireOf(s);
    WireOnlySafe(s, v);
  }

  // ------------------------------------------------------------------ sending and completing

  /** Nothing that could answer the request being sent is on the wire already. */
  lemma SendIsUnanswered(s: State, step: Step, f: Req)
    requires OwnedInv(s) && FlushInv(s) && Enabled(s, step) && step.Send? && Awaited(s, f)
    ensures !Answers(Req(s.slots[step.tag].rid, step.tag, s.slots[step.tag].cancels), f)
  {
    assert Owns(s, f);
    assert f.cancels.Some? ==> Bound(s, f.tag);
  }

  lemma SendKeepsOrder(s: State, step: Step)
    requires Safe(s) && Enabled(s, step) && step.Send?
    ensures Once(WireOf(Next(s, step))) && Ordered(WireOf(Next(s, step)))
  {
    var slot := s.slots[step.tag];
    var req := Req(slot.rid, step.tag, slot.cancels);
    var w, u := WireOf(s), WireOf(Next(s, step));
    NotSent(s, step.tag);
    assert u == if step.delivered then w.(pending := w.pending + {req}) else w;
    forall f | f in w.replies || w.hand == Some(f)
      ensures !Answers(req, f) && f != req
    {
      assert Awaited(s, f);
      SendIsUnanswered(s, step, f);
    }
  }

  lemma SendKeepsWire(s: State, step: Step)
    requires Safe(s) && Enabled(s, step) && step.Send?
    ensures WireInv(Next(s, step))
  {
    hide Once, Ordered, FlushInv, SettledInv, LayoutInv;
    var v := Next(s, step);
    var slot := s.slots[step.tag];
    var req := Req(slot.rid, step.tag, slot.cancels);
    SendKeepsOrder(s, step);
    NotSent(s, step.tag);
    assert WireOf(v) == if step.delivered then WireOf(s).(pending := WireOf(s).pending + {req}) else WireOf(s);
    forall r | Awaited(v, r)
      ensures Owns(v, r)
    {
      assert (step.delivered && r == req) || (Awaited(s, r) && Owns(s, r));
    }
  }

  lemma SendKeepsFlush(s: State, step: Step)
    requires FlushInv(s) && EpochInv(s) && Enabled(s, step) && step.Send?
    ensures FlushInv(Next(s, step))
  {
    var v := Next(s, step);
    forall f | 0 <= f < FLUSH_SLOTS && v.slots[f].state != Vacant
      ensures Bound(v, f)
    {
      assert Bound(s, f);
    }
  }

  /** An arrived Rflush keeps its request's tag out of use, so nothing new is sent on it. */
  lemma SendKeepsSettled(s: State, step: Step)
    requires FlushInv(s) && SettledInv(s) && EpochInv(s) && Enabled(s, step) && step.Send?
    ensures SettledInv(Next(s, step))
  {
    var v := Next(s, step);
    var slot := s.slots[step.tag];
    var req := Req(slot.rid, step.tag, slot.cancels);
    assert WireOf(v) == if step.delivered then WireOf(s).(pending := WireOf(s).pending + {req}) else WireOf(s);
    forall f | 0 <= f < FLUSH_SLOTS && Answered(v.slots[f], v.active)
      ensures !TagAwaited(v, v.slots[f].cancels.value)
    {
      assert Bound(s, f) && !TagAwaited(s, v.slots[f].cancels.value);
      forall r | Awaited(v, r) && r.cancels.None?
        ensures r.tag != v.slots[f].cancels.value
      {
        assert r == req || Awaited(s, r);
      }
    }
  }

  lemma SendKeepsLayout(s: State, step: Step)
    requires LayoutInv(s) && Enabled(s, step) && step.Send?
    ensures LayoutInv(Next(s, step))
  {
    WriteKeepsLayout(s, Next(s, step), step.tag);
  }

  lemma SendSafe(s: State, step: Step)
    requires Safe(s) && Enabled(s, step) && step.Send?
    ensures Safe(Next(s, step))
  {
    hide Next, Enabled, LayoutInv, OwnedInv, Once, Ordered, HoldInv, EpochInv, FlushInv, SettledInv;
    SendKeepsLayout(s, step);
    SendKeepsWire(s, step);
    SendKeepsFlush(s, step);
    SendKeepsSettled(s, step);
  }

  lemma CompleteKeepsWire(s: State)
    requires Safe(s) && Enabled(s, RxComplete)
    ensures WireInv(Next(s, RxComplete))
  {
    var v := Next(s, RxComplete);
    var req := s.rx.req;
    assert WireOf(v) == WireOf(s).(hand := None);
    forall r | Awaited(v, r)
      ensures Owns(v, r)
    {
      assert Awaited(s, r) && Owns(s, r);
      assert r.tag == req.tag ==> r == req;
    }
  }

  lemma CompleteKeepsFlush(s: State)
    requires FlushInv(s) && HoldInv(s) && Enabled(s, RxComplete)
    ensures FlushInv(Next(s, RxComplete))
  {
    var v := Next(s, RxComplete);
    forall f | 0 <= f < FLUSH_SLOTS && v.slots[f].state != Vacant
      ensures Bound(v, f)
    {
      assert Bound(s, f);
    }
  }

  /** When an Rflush is delivered, nothing is owed any more for what it cancelled. */
  lemma CompleteKeepsSettled(s: State)
    requires WireInv(s) && SettledInv(s) && Enabled(s, RxComplete)
    ensures SettledInv(Next(s, RxComplete))
  {
    var v := Next(s, RxComplete);
    var req := s.rx.req;
    assert WireOf(v) == WireOf(s).(hand := None);
    forall f | 0 <= f < FLUSH_SLOTS && f < |v.slots| && Answered(v.slots[f], v.active)
      ensures !TagAwaited(v, v.slots[f].cancels.value)
    {
      forall r | Awaited(v, r) && r.cancels.None?
        ensures r.tag != v.slots[f].cancels.value
      {
        assert Awaited(s, r);
        if f == req.tag {
          assert WireOf(s).hand == Some(req);
          assert !Answers(r, req);
        } else {
          assert Answered(s.slots[f], s.active) && !TagAwaited(s, s.slots[f].cancels.value);
        }
      }
    }
  }

  lemma CompleteKeepsLayout(s: State)
    requires LayoutInv(s) && HoldInv(s) && Enabled(s, RxComplete)
    ensures LayoutInv(Next(s, RxComplete))
  {
    WriteKeepsLayout(s, Next(s, RxComplete), s.rx.req.tag);
  }

  lemma CompleteSafe(s: State)
    requires Safe(s) && Enabled(s, RxComplete)
    ensures Safe(Next(s, RxComplete))
  {
    hide Next, Enabled, LayoutInv, OwnedInv, Once, Ordered, HoldInv, EpochInv, FlushInv, SettledInv;
    CompleteKeepsLayout(s);
    CompleteKeepsWire(s);
    CompleteKeepsFlush(s);
    CompleteKeepsSettled(s);
  }

  // ------------------------------------------------------------------ retirement

  lemma RetireSafe(s: State, step: Step)
    requires Safe(s) && Enabled(s, step) && step.Retire?
    ensures Safe(Next(s, step))
  {
    var v := Next(s, step);
    assert WireOf(v) == WireOf(s);
    forall r | Awaited(v, r)
      ensures Owns(v, r)
    {
      assert Awaited(s, r) && Owns(s, r);
    }
    forall f | 0 <= f < FLUSH_SLOTS && v.slots[f].state != Vacant
      ensures Bound(v, f)
    {
      assert Bound(s, f);
    }
  }

  lemma PublishSafe(s: State)
    requires Safe(s) && Enabled(s, PublishEpoch)
    ensures Safe(Next(s, PublishEpoch))
  {
    var v := Next(s, PublishEpoch);
    NothingAwaited(v);
    forall f | 0 <= f < FLUSH_SLOTS && v.slots[f].state != Vacant
      ensures Bound(v, f)
    {
      assert Bound(s, f);
    }
  }

  lemma SweepKeepsBound(s: State, f: nat)
    requires FIRST_NORMAL_TAG <= |s.slots| && f < FLUSH_SLOTS && Bound(s, f) && Enabled(s, SweepShard)
    requires s.slots[f].state != Vacant
    ensures FIRST_NORMAL_TAG <= |Next(s, SweepShard).slots| && Bound(Next(s, SweepShard), f)
  {
    assert f % SLOT_SHARDS == f;
  }

  lemma SweepKeepsFlush(s: State)
    requires FlushInv(s) && Enabled(s, SweepShard)
    ensures FlushInv(Next(s, SweepShard))
  {
    var v := Next(s, SweepShard);
    hide Bound;
    forall f | 0 <= f < FLUSH_SLOTS && v.slots[f].state != Vacant
      ensures Bound(v, f)
    {
      SweepKeepsBound(s, f);
    }
  }

  lemma SweepKeepsWire(s: State)
    requires WireInv(s) && Enabled(s, SweepShard)
    ensures WireInv(Next(s, SweepShard)) && SettledInv(Next(s, SweepShard))
  {
    var v := Next(s, SweepShard);
    NothingAwaited(s);
    NothingAwaited(v);
    assert WireOf(v) == WireOf(s);
  }

  lemma SweepSafe(s: State)
    requires Safe(s) && Enabled(s, SweepShard)
    ensures Safe(Next(s, SweepShard))
  {
    hide Next, Enabled, LayoutInv, WireInv, FlushInv, SettledInv;
    SweepKeepsLayout(s);
    SweepKeepsWire(s);
    SweepKeepsFlush(s);
  }

  lemma InstallSafe(s: State)
    requires Safe(s) && Enabled(s, Install)
    ensures Safe(Next(s, Install))
  {
    var v := Next(s, Install);
    assert WireOf(v) == Wire({}, [], None);
    forall f | 0 <= f < FLUSH_SLOTS && v.slots[f].state != Vacant
      ensures Bound(v, f)
    {
      assert Bound(s, f);
    }
  }
}
