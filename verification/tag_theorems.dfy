/** The promises of the tag table over every run. */
module TagTheorems {
  import opened Wrappers
  import opened TagSpace
  import opened TagTable
  import opened TagAccounting
  import opened TagSafety

  predicate OnWire(step: Step) {
    || step.Send? || step.ServerReply? || step.ServerFlush? || step.RxBegin? || step.RxRead? || step.RxCheck?
    || step.RxDrop? || step.RxComplete?
  }

  predicate OnSession(step: Step) {
    step.Retire? || step.PublishEpoch? || step.SweepShard? || step.Install?
  }

  lemma WireStepSafe(s: State, step: Step)
    requires Safe(s) && Enabled(s, step) && OnWire(step)
    ensures Safe(Next(s, step))
  {
    hide Next, Enabled, Safe;
    if step.Send? {
      SendSafe(s, step);
    } else if step.ServerReply? {
      ServerReplySafe(s, step.e, step.req);
    } else if step.ServerFlush? {
      ServerFlushSafe(s, step.e, step.req);
    } else if step.RxBegin? {
      RxBeginSafe(s);
    } else if step.RxRead? {
      RxReadSafe(s);
    } else if step.RxCheck? {
      RxCheckSafe(s);
    } else if step.RxDrop? {
      RxDropSafe(s);
    } else {
      CompleteSafe(s);
    }
  }

  lemma SessionStepSafe(s: State, step: Step)
    requires Safe(s) && Enabled(s, step) && OnSession(step)
    ensures Safe(Next(s, step))
  {
    hide Next, Enabled, Safe;
    if step.Retire? {
      RetireSafe(s, step);
    } else if step.PublishEpoch? {
      PublishSafe(s);
    } else if step.SweepShard? {
      SweepSafe(s);
    } else {
      InstallSafe(s);
    }
  }

  lemma SlotStepSafe(s: State, step: Step)
    requires Safe(s) && Enabled(s, step) && !OnWire(step) && !OnSession(step) && LayoutInv(Next(s, step))
    ensures Safe(Next(s, step))
  {
    hide Next, Enabled, Safe, LayoutInv;
    if step.Reserve? {
      ReserveSafe(s, step);
    } else if step.TakeReply? {
      TakeReplySafe(s, step.tag);
    } else if step.ReleaseSlot? {
      ReleaseSafe(s, step);
    } else if step.ReserveFlush? {
      ReserveFlushSafe(s, step);
    } else if step.TakeFlush? {
      TakeFlushSafe(s, step.tag);
    } else if step.FinishFlush? {
      FinishFlushSafe(s, step.tag);
    } else if step.VacateFlush? {
      VacateFlushSafe(s, step.tag);
    } else if step.VacateOriginal? {
      VacateOriginalSafe(s, step.target);
    } else {
      QuietSafe(s, step);
    }
  }

  lemma StepSafe(s: State, step: Step)
    requires Books(s) && Safe(s) && Enabled(s, step)
    ensures Safe(Next(s, step))
  {
    hide Next, Enabled, Safe, LayoutInv, CreditInv, DestInv, HeldIsSent;
    if OnWire(step) {
      WireStepSafe(s, step);
    } else if OnSession(step) {
      SessionStepSafe(s, step);
    } else {
      StepKeepsLayout(s, step);
      SlotStepSafe(s, step);
    }
  }

  lemma {:induction false} RunIsSafe(states: seq<State>, steps: seq<Step>, i: nat)
    requires Run(states, steps) && i < |states|
    ensures Safe(states[i]) && Books(states[i])
  {
    hide Next, Enabled, Safe, Books;
    RunKeepsBooks(states, steps, i);
    if i == 0 {
      InitialSafe(states[0]);
    } else {
      RunIsSafe(states, steps, i - 1);
      StepSafe(states[i - 1], steps[i - 1]);
    }
  }

  // ------------------------------------------------------------------ every frame was sent

  /** `step` put `r` on connection `e` for the request that owned the tag then. */
  predicate PutsOn(s: State, step: Step, e: nat, r: Req) {
    && step == Send(r.tag, true) && s.epoch == e && r.tag < |s.slots|
    && s.slots[r.tag].rid == r.rid && s.slots[r.tag].cancels == r.cancels && s.slots[r.tag].state == Reserved
  }

  /** `r` is on connection `e`, or the receiver read it from there. */
  predicate OnConnection(s: State, e: nat, r: Req) {
    || (e in s.conns && (r in s.conns[e].pending || r in s.conns[e].replies))
    || (!s.rx.Idle? && s.rx.e == e && s.rx.req == r)
  }

  /** Steps off the wire put nothing on it. */
  lemma OffTheWire(s: State, step: Step, e: nat, r: Req)
    requires Enabled(s, step) && !OnWire(step) && OnConnection(Next(s, step), e, r)
    ensures OnConnection(s, e, r)
  {
    if !step.Install? {
      OthersKeepWire(s, step);
    }
  }

  lemma OthersKeepWire(s: State, step: Step)
    requires Enabled(s, step) && !OnWire(step) && !step.Install?
    ensures Next(s, step).conns == s.conns && Next(s, step).rx == s.rx
  {
    if step.FinishFlush? || step.VacateFlush? {
      hide Next, Enabled;
      FlushEnds(s, step);
    }
  }

  lemma OnTheWire(s: State, step: Step, e: nat, r: Req)
    requires Enabled(s, step) && OnWire(step) && OnConnection(Next(s, step), e, r)
    ensures OnConnection(s, e, r) || PutsOn(s, step, e, r)
  {
  }

  lemma FramesComeFromSends(s: State, step: Step, e: nat, r: Req)
    requires Enabled(s, step) && OnConnection(Next(s, step), e, r)
    ensures OnConnection(s, e, r) || PutsOn(s, step, e, r)
  {
    hide Next, Enabled, OnConnection, PutsOn;
    if OnWire(step) {
      OnTheWire(s, step, e, r);
    } else {
      OffTheWire(s, step, e, r);
    }
  }

  lemma {:induction false} EveryFrameWasSent(states: seq<State>, steps: seq<Step>, i: nat, e: nat, r: Req)
    returns (j: nat)
    requires Run(states, steps) && i < |states| && OnConnection(states[i], e, r)
    ensures j < i && PutsOn(states[j], steps[j], e, r)
  {
    hide Next, Enabled, PutsOn;
    assert i != 0 by {
      assert states[0].conns == map[0 := Conn({}, [])];
    }
    FramesComeFromSends(states[i - 1], steps[i - 1], e, r);
    if OnConnection(states[i - 1], e, r) {
      j := EveryFrameWasSent(states, steps, i - 1, e, r);
    } else {
      j := i - 1;
    }
  }

  // ------------------------------------------------------------------ one answer each

  /** The reservation `rid` is over: no slot awaits an answer for it, and none will. */
  ghost predicate Over(s: State, rid: nat) {
    && rid < s.nextRid
    && forall t :: 0 <= t < |s.slots| && (s.slots[t].state == Reserved || s.slots[t].state == Sent) ==>
         s.slots[t].rid != rid
  }

  ghost predicate DistinctInv(s: State) {
    forall t, u :: 0 <= t < u < |s.slots| && s.slots[t].state != Vacant && s.slots[u].state != Vacant ==>
      s.slots[t].rid != s.slots[u].rid
  }

  /** `step` reserves the slot `t`. */
  predicate Reserves(s: State, step: Step, t: nat) {
    || (step.Reserve? && FreeIndex(s).Some? && t == FreeIndex(s).value + FIRST_NORMAL_TAG)
    || (step.ReserveFlush? && t == step.tag)
  }

  /** `slot` is `before` further along: the same request, not brought back to an earlier state. */
  predicate Continues(before: Slot, slot: Slot) {
    && before.state != Vacant && before.rid == slot.rid
    && (slot.state == Reserved ==> before.state == Reserved)
    && (slot.state == Sent ==> before.state == Reserved || before.state == Sent)
    && (Delivered(slot) ==> slot.whole == before.whole && (Delivered(before) || before.whole))
  }

  /** A reply has been stored in this slot. */
  predicate Delivered(slot: Slot) {
    slot.state == Completed || slot.state == Consuming
  }

  predicate Frees(step: Step) {
    || step.ReleaseSlot? || step.TakeReply? || step.FinishFlush? || step.VacateFlush? || step.VacateOriginal?
    || step.ReleaseIdle? || step.ReleaseCarried?
  }

  lemma VacateSlots(s: State, tag: nat)
    requires tag < |s.slots|
    ensures VacateTag(s, tag).slots == s.slots[tag := Vacated(s.slots[tag])]
  {
  }

  /** The slots after a step that frees some: each is as it was or vacated. */
  lemma FreeingVacates(s: State, step: Step, t: nat)
    requires Enabled(s, step) && Frees(step)
    ensures |Next(s, step).slots| == |s.slots|
    ensures t < |s.slots| ==> Next(s, step).slots[t] == s.slots[t] || Next(s, step).slots[t] == Vacated(s.slots[t])
  {
    if step.FinishFlush? || step.VacateFlush? {
      hide Next, Enabled, VacateTag;
      FlushEnds(s, step);
      var flushed, target := VacateTag(s, step.tag), s.slots[step.tag].cancels.value;
      VacateSlots(s, step.tag);
      VacateSlots(flushed, target);
    } else if step.VacateOriginal? {
      assert Next(s, step).slots == s.slots || Next(s, step).slots == VacateTag(s, step.target).slots;
      hide Next, Enabled, VacateTag;
      VacateSlots(s, step.target);
    }
  }

  /** The reservation `step` begins has the slot `t` afterwards, or the request there goes on. */
  ghost predicate BeginsOrContinues(s: State, step: Step, t: nat)
    requires Enabled(s, step) && t < |Next(s, step).slots|
  {
    var v := Next(s, step);
    || (v.slots[t].rid == s.nextRid && v.nextRid == s.nextRid + 1 && Reserves(s, step, t))
    || (t < |s.slots| && Continues(s.slots[t], v.slots[t]))
  }

  lemma RxContinues(s: State, step: Step, t: nat)
    requires HoldInv(s) && Enabled(s, step)
    requires step.RxComplete? || step.RxClaim? || step.RxUnclaim? || step.SweepShard?
    requires t < |Next(s, step).slots| && Next(s, step).slots[t].state != Vacant
    ensures BeginsOrContinues(s, step, t)
  {
  }

  lemma WritingContinues(s: State, step: Step, t: nat)
    requires HoldInv(s) && Enabled(s, step) && !Frees(step) && !Unwritten(step)
    requires t < |Next(s, step).slots| && Next(s, step).slots[t].state != Vacant
    ensures BeginsOrContinues(s, step, t)
  {
    if step.RxComplete? || step.RxClaim? || step.RxUnclaim? || step.SweepShard? {
      hide Next, Enabled, HoldInv, BeginsOrContinues;
      RxContinues(s, step, t);
    }
  }

  /** Only a reservation gives a slot a new identity or brings it back to life. */
  lemma OnlyReservationsBegin(s: State, step: Step, t: nat)
    requires HoldInv(s) && Enabled(s, step) && t < |Next(s, step).slots| && Next(s, step).slots[t].state != Vacant
    ensures BeginsOrContinues(s, step, t)
  {
    hide Next, Enabled, HoldInv;
    if Frees(step) {
      FreeingVacates(s, step, t);
    } else if Unwritten(step) {
      UnwrittenFrame(s, step);
    } else {
      WritingContinues(s, step, t);
    }
  }

  lemma RidsGrow(s: State, step: Step)
    requires Enabled(s, step)
    ensures s.nextRid <= Next(s, step).nextRid
  {
    if Unwritten(step) {
      hide Next, Enabled;
      UnwrittenFrame(s, step);
    } else if Frees(step) {
      assert Next(s, step).nextRid == s.nextRid;
    }
  }

  lemma StepKeepsDistinct(s: State, step: Step)
    requires Safe(s) && DistinctInv(s) && Enabled(s, step)
    ensures DistinctInv(Next(s, step))
  {
    hide Next, Enabled;
    var v := Next(s, step);
    forall t, u | 0 <= t < u < |v.slots| && v.slots[t].state != Vacant && v.slots[u].state != Vacant
      ensures v.slots[t].rid != v.slots[u].rid
    {
      OnlyReservationsBegin(s, step, t);
      OnlyReservationsBegin(s, step, u);
    }
  }

  lemma StepKeepsOver(s: State, step: Step, rid: nat)
    requires Safe(s) && Over(s, rid) && Enabled(s, step)
    ensures Over(Next(s, step), rid)
  {
    hide Next, Enabled;
    var v := Next(s, step);
    RidsGrow(s, step);
    forall t | 0 <= t < |v.slots| && (v.slots[t].state == Reserved || v.slots[t].state == Sent)
      ensures v.slots[t].rid != rid
    {
      OnlyReservationsBegin(s, step, t);
    }
  }

  lemma {:induction false} RunKeepsDistinct(states: seq<State>, steps: seq<Step>, i: nat)
    requires Run(states, steps) && i < |states|
    ensures DistinctInv(states[i])
  {
    hide Next, Enabled, Safe, Books;
    if i > 0 {
      RunKeepsDistinct(states, steps, i - 1);
      RunIsSafe(states, steps, i - 1);
      StepKeepsDistinct(states[i - 1], steps[i - 1]);
    }
  }

  lemma {:induction false} StaysOver(states: seq<State>, steps: seq<Step>, i: nat, j: nat, rid: nat)
    requires Run(states, steps) && i <= j < |states| && Over(states[i], rid)
    ensures Over(states[j], rid)
    decreases j - i
  {
    hide Next, Enabled, Safe, Books, Over;
    if i < j {
      StaysOver(states, steps, i, j - 1, rid);
      RunIsSafe(states, steps, j - 1);
      StepKeepsOver(states[j - 1], steps[j - 1], rid);
    }
  }

  // ------------------------------------------------------------------ main results

  /** What completing the held frame does. */
  lemma CompletionMatches(s: State)
    requires HoldInv(s) && Enabled(s, RxComplete)
    ensures s.rx.Hold?
    ensures var v, req := Next(s, RxComplete), s.rx.req;
            && req.tag < |s.slots| && s.slots[req.tag].state == Sent && s.slots[req.tag].rid == req.rid
            && s.slots[req.tag].epoch == s.rx.e && OnConnection(s, s.rx.e, req)
            && v.slots[req.tag].state == Completed && v.slots[req.tag].rid == req.rid && v.nextRid == s.nextRid
            && |v.slots| == |s.slots| && (forall t :: 0 <= t < |s.slots| && t != req.tag ==> v.slots[t] == s.slots[t])
  {
  }

  /** Whatever the interleaving of sends, retirements, sweeps and flushes, a frame that
      completes a slot answers the very request that slot was reserved for: that request
      was sent earlier, on the connection the frame was read from, under the same tag. */
  lemma ReplyReachesItsRequest(states: seq<State>, steps: seq<Step>, i: nat) returns (j: nat)
    requires Run(states, steps) && i < |steps| && steps[i].RxComplete?
    ensures var s, v, req := states[i], states[i + 1], states[i].rx.req;
            && req.tag < |s.slots| && s.slots[req.tag].state == Sent && s.slots[req.tag].rid == req.rid
            && s.slots[req.tag].epoch == s.rx.e
            && v.slots[req.tag].state == Completed && v.slots[req.tag].rid == req.rid
            && (forall t :: 0 <= t < |s.slots| && t != req.tag ==> v.slots[t] == s.slots[t])
    ensures j < i && PutsOn(states[j], steps[j], states[i].rx.e, states[i].rx.req)
  {
    hide Next, Enabled, Books, LayoutInv, FlushInv, SettledInv;
    RunIsSafe(states, steps, i);
    CompletionMatches(states[i]);
    j := EveryFrameWasSent(states, steps, i, states[i].rx.e, states[i].rx.req);
  }

  /** No request is answered twice. */
  lemma AnsweredAtMostOnce(states: seq<State>, steps: seq<Step>, i: nat, j: nat)
    requires Run(states, steps) && i < j < |steps| && steps[i].RxComplete? && steps[j].RxComplete?
    ensures states[i].rx.req.rid != states[j].rx.req.rid
  {
    hide Next, Enabled, Books, LayoutInv, SettledInv;
    RunIsSafe(states, steps, i);
    RunKeepsDistinct(states, steps, i);
    CompletionMatches(states[i]);
    var rid := states[i].rx.req.rid;
    assert Over(states[i + 1], rid);
    StaysOver(states, steps, i + 1, j, rid);
    RunIsSafe(states, steps, j);
    CompletionMatches(states[j]);
  }

  /** The tag this step hands out or frees. */
  function Recycles(s: State, step: Step): Option<nat>
    requires Enabled(s, step)
  {
    match step
    case Reserve(_, _) => Some(FreeIndex(s).value + FIRST_NORMAL_TAG)
    case ReserveFlush(tag, _, _) => Some(tag)
    case ReleaseSlot(tag, _) => Some(tag)
    case VacateOriginal(target) => Some(target)
    case VacateFlush(tag) => Some(s.slots[tag].cancels.value)
    case _ => None
  }

  lemma RecycledIsUnawaited(s: State, step: Step)
    requires Safe(s) && Enabled(s, step) && Recycles(s, step).Some?
    ensures Unawaited(s, Recycles(s, step).value)
  {
    hide Next;
    match step {
      case Reserve(_, _) => ReserveSafe(s, step);
      case ReserveFlush(_, _, _) => ReserveFlushSafe(s, step);
      case ReleaseSlot(_, _) => ReleaseSafe(s, step);
      case VacateOriginal(target) => VacateOriginalSafe(s, target);
      case VacateFlush(tag) => NotSent(s, s.slots[tag].cancels.value);
    }
  }

  /** No tag, ordinary or control, is handed out or freed while the published connection may
      still answer the request that had it. */
  lemma TagsAreNotReusedEarly(states: seq<State>, steps: seq<Step>, i: nat)
    requires Run(states, steps) && i < |steps| && Recycles(states[i], steps[i]).Some?
    ensures Unawaited(states[i], Recycles(states[i], steps[i]).value)
  {
    hide Next, Enabled, Safe, Books, Recycles;
    RunIsSafe(states, steps, i);
    RecycledIsUnawaited(states[i], steps[i]);
  }

  /** The flush's own tag is freed; its original keeps a reply it has, and is freed otherwise. */
  ghost predicate Resolved(s: State, v: State, tag: nat) {
    && tag < |s.slots| == |v.slots| && s.slots[tag].cancels.Some? && s.slots[tag].cancels.value < |s.slots|
    && var target := s.slots[tag].cancels.value;
       && v.slots[tag].state == Vacant
       && (if s.slots[target].state == Completed then v.slots[target] == s.slots[target]
           else (s.slots[target].state == Sent || s.slots[target].state == Failed) && v.slots[target].state == Vacant)
  }

  /** While nothing is being retired a sent slot is counted. */
  lemma SentIsCounted(s: State, t: nat)
    requires CountInv(s) && s.sweep.Settled? && t < |s.slots| && s.slots[t].state == Sent
    ensures s.status.Connected? && s.sent > 0
  {
    assert t in SentTags(s.slots);
  }

  lemma FinishResolves(s: State, tag: nat)
    requires FlushInv(s) && CountInv(s) && Enabled(s, FinishFlush(tag))
    ensures Resolved(s, Next(s, FinishFlush(tag)), tag)
    ensures s.slots[s.slots[tag].cancels.value].state == Sent ==> s.sent > 0
  {
    assert Bound(s, tag);
    var target := s.slots[tag].cancels.value;
    if s.slots[target].state == Sent {
      SentIsCounted(s, target);
    }
    hide CountInv;
  }

  /** In every run, while connected, the count of requests in flight covers every sent slot and the
      reply the receiver has stored but not counted down, so neither countdown saturates. */
  lemma SentIsCovered(states: seq<State>, steps: seq<Step>, i: nat)
    requires Run(states, steps) && i < |states| && states[i].status.Connected?
    ensures |SentTags(states[i].slots)| + (if states[i].owed then 1 else 0) <= states[i].sent
  {
    RunKeepsBooks(states, steps, i);
  }

  /** An accepted Rflush finds its original completed, sent and counted, or failed, never
      anything else, and with no answer left on the way: a completed one keeps its reply, the
      others are freed. No disjunct of the test that would end the session can hold. */
  lemma FlushSettlesItsRequest(states: seq<State>, steps: seq<Step>, i: nat)
    requires Run(states, steps) && i < |steps| && steps[i].FinishFlush?
    ensures Resolved(states[i], states[i + 1], steps[i].tag)
    ensures states[i].slots[states[i].slots[steps[i].tag].cancels.value].state == Sent ==> states[i].sent > 0
    ensures Unawaited(states[i], states[i].slots[steps[i].tag].cancels.value)
  {
    hide Next, Enabled, LayoutInv, CreditInv, DestInv, HeldIsSent, CountInv, WireInv, FlushInv, SettledInv;
    RunIsSafe(states, steps, i);
    FinishFlushSafe(states[i], steps[i].tag);
    FinishResolves(states[i], steps[i].tag);
  }

  /** Credit a finished or abandoned flush gives back: its own, and its original's if freed. */
  function FlushRefund(s: State, step: Step): nat
    requires Enabled(s, step) && (step.FinishFlush? || step.VacateFlush?)
  {
    var target := s.slots[step.tag].cancels.value;
    var kept := if step.VacateFlush? then Keeps(s, target) else s.slots[target].state == Completed;
    s.slots[step.tag].charge.credit + if kept then 0 else s.slots[target].charge.credit
  }

  lemma FlushRefundFits(s: State, step: Step)
    requires CreditInv(s) && FlushInv(s) && Enabled(s, step) && (step.FinishFlush? || step.VacateFlush?)
    ensures FlushRefund(s, step) <= s.used
  {
    hide Next;
    assert Bound(s, step.tag);
    var target := s.slots[step.tag].cancels.value;
    VacateCredit(s, step.tag);
    var flushed := VacateTag(s, step.tag);
    assert flushed.slots[target] == s.slots[target];
    VacateCredit(flushed, target);
  }

  /** Nor does the combined refund of a flush and its original ever saturate. */
  lemma FlushRefundNeverSaturates(states: seq<State>, steps: seq<Step>, i: nat)
    requires Run(states, steps) && i < |steps| && (steps[i].FinishFlush? || steps[i].VacateFlush?)
    ensures FlushRefund(states[i], steps[i]) <= states[i].used
  {
    hide Next, Enabled, LayoutInv, CreditInv, DestInv, HeldIsSent, WireInv, FlushInv, SettledInv, FlushRefund;
    RunIsSafe(states, steps, i);
    FlushRefundFits(states[i], steps[i]);
  }
}
