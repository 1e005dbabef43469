/** What the receiver, growth and the end of a session do over every run. */
module TagSession {
  import opened Wrappers
  import opened TagSpace
  import opened TagTable
  import opened TagAccounting
  import opened TagSafety
  import opened TagTheorems

  // ------------------------------------------------------------------ the receive loop

  /** `step` ends the receive loop on the connection it reads: a frame it could not place, or an Rflush. */
  predicate Breaks(s: State, step: Step) {
    step.RxDrop? || (step.RxComplete? && s.rx.Hold? && IsFlushTag(s.rx.req.tag))
  }

  lemma LinkStep(s: State, step: Step)
    requires Enabled(s, step) && Next(s, step).link.Some?
    ensures if step.RxBegin? then Next(s, step).link == Some(s.epoch)
            else Next(s, step).link == s.link && !Breaks(s, step)
  {
    if step.FinishFlush? || step.VacateFlush? {
      hide Next, Enabled;
      FlushEnds(s, step);
    }
  }

  /** The receiver reads from the connection that was live when its loop began, and the loop has met
      neither an Rflush nor a frame it could not place since. */
  lemma {:induction false} LinkBegan(states: seq<State>, steps: seq<Step>, i: nat) returns (b: nat)
    requires Run(states, steps) && i < |states| && states[i].link.Some?
    ensures b < i && steps[b].RxBegin? && states[i].link == Some(states[b].epoch)
    ensures forall k :: b < k < i ==> !Breaks(states[k], steps[k])
  {
    hide Next, Enabled, Breaks;
    assert i > 0;
    LinkStep(states[i - 1], steps[i - 1]);
    if steps[i - 1].RxBegin? {
      b := i - 1;
    } else {
      b := LinkBegan(states, steps, i - 1);
    }
  }

  /** While an Rflush waits for its owner the receiver neither reads nor holds a frame. */
  ghost predicate BarrierInv(s: State) {
    FlushReplyPending(s) ==> s.link.None? && s.rx.Idle?
  }

  ghost predicate LinkInv(s: State) {
    !s.rx.Idle? ==> s.link.Some?
  }

  lemma PendingStep(s: State, step: Step, f: nat)
    requires Enabled(s, step) && !step.RxComplete? && f < FLUSH_SLOTS && f < |Next(s, step).slots|
    requires Delivered(Next(s, step).slots[f]) && FIRST_NORMAL_TAG <= |s.slots|
    ensures Delivered(s.slots[f])
  {
    if Frees(step) {
      hide Next, Enabled;
      FreeingVacates(s, step, f);
    } else if Unwritten(step) {
      hide Next, Enabled;
      UnwrittenFrame(s, step);
    } else {
      PendingWrite(s, step, f);
    }
  }

  lemma PendingWrite(s: State, step: Step, f: nat)
    requires Enabled(s, step) && !step.RxComplete? && !Frees(step) && !Unwritten(step)
    requires f < FLUSH_SLOTS && f < |Next(s, step).slots| && FIRST_NORMAL_TAG <= |s.slots|
    requires Delivered(Next(s, step).slots[f])
    ensures Delivered(s.slots[f])
  {
  }

  /** Steps that change the receiver's connection or its frame. */
  predicate OnReceiver(step: Step) {
    step.RxBegin? || step.RxRead? || step.RxCheck? || step.RxDrop? || step.RxComplete?
  }

  lemma OthersKeepLink(s: State, step: Step)
    requires Enabled(s, step) && !OnReceiver(step)
    ensures Next(s, step).link == s.link && Next(s, step).rx == s.rx
  {
    if step.FinishFlush? || step.VacateFlush? {
      hide Next, Enabled;
      FlushEnds(s, step);
    }
  }

  lemma ReceiverKeepsBarrier(s: State, step: Step)
    requires BarrierInv(s) && LinkInv(s) && HoldInv(s) && Enabled(s, step) && OnReceiver(step)
    ensures BarrierInv(Next(s, step)) && LinkInv(Next(s, step))
  {
    if step.RxComplete? {
      var v := Next(s, step);
      assert FlushReplyPending(v) ==> IsFlushTag(s.rx.req.tag) || FlushReplyPending(s);
    } else {
      assert Next(s, step).slots == s.slots;
      assert FlushReplyPending(Next(s, step)) == FlushReplyPending(s);
    }
  }

  lemma StepKeepsBarrier(s: State, step: Step)
    requires BarrierInv(s) && LinkInv(s) && HoldInv(s) && FIRST_NORMAL_TAG <= |s.slots| && Enabled(s, step)
    ensures BarrierInv(Next(s, step)) && LinkInv(Next(s, step))
  {
    hide Next, Enabled, HoldInv;
    if OnReceiver(step) {
      ReceiverKeepsBarrier(s, step);
    } else {
      OthersKeepLink(s, step);
      var v := Next(s, step);
      if FlushReplyPending(v) {
        var f :| 0 <= f < FLUSH_SLOTS && f < |v.slots|
                 && (v.slots[f].state == Completed || v.slots[f].state == Consuming);
        PendingStep(s, step, f);
        assert FlushReplyPending(s);
      }
    }
  }

  lemma {:induction false} RunKeepsBarrier(states: seq<State>, steps: seq<Step>, i: nat)
    requires Run(states, steps) && i < |states|
    ensures BarrierInv(states[i]) && LinkInv(states[i])
  {
    hide Next, Enabled, Books, LayoutInv, OwnedInv, Once, Ordered, EpochInv, SettledInv, Bound;
    if i > 0 {
      RunKeepsBarrier(states, steps, i - 1);
      RunIsSafe(states, steps, i - 1);
      StepKeepsBarrier(states[i - 1], steps[i - 1]);
    }
  }

  /** No frame is read, checked, claimed for or stored, and no connection installed, while an Rflush waits
      for its owner. */
  lemma NothingPassesAnRflush(states: seq<State>, steps: seq<Step>, i: nat)
    requires Run(states, steps) && i < |steps|
    requires || steps[i].RxBegin? || steps[i].RxRead? || steps[i].RxCheck? || steps[i].RxClaim?
             || steps[i].RxComplete? || steps[i].Install?
    ensures !FlushReplyPending(states[i])
  {
    RunKeepsBarrier(states, steps, i);
  }

  // ------------------------------------------------------------------ direct delivery

  /** A destination filled and still claimed: the receiver is done with the frame that filled it. */
  ghost predicate FilledInv(s: State) {
    forall t :: 0 <= t < |s.slots| && Filled(s.slots[t]) ==> s.rx.Idle?
  }

  predicate Filled(slot: Slot) {
    slot.dest.Some? && slot.dest.value.inUse && slot.dest.value.delivered
  }

  lemma FilledStep(s: State, step: Step, t: nat)
    requires Enabled(s, step) && !step.RxComplete? && t < |Next(s, step).slots| && Filled(Next(s, step).slots[t])
    ensures t < |s.slots| && Filled(s.slots[t])
  {
    if Frees(step) {
      hide Next, Enabled;
      FreeingVacates(s, step, t);
    } else if Unwritten(step) {
      hide Next, Enabled;
      UnwrittenFrame(s, step);
    } else {
      FilledWrite(s, step, t);
    }
  }

  lemma FilledWrite(s: State, step: Step, t: nat)
    requires Enabled(s, step) && !step.RxComplete? && !Frees(step) && !Unwritten(step)
    requires t < |Next(s, step).slots| && Filled(Next(s, step).slots[t])
    ensures t < |s.slots| && Filled(s.slots[t])
  {
  }

  lemma StepKeepsFilled(s: State, step: Step)
    requires FilledInv(s) && DestInv(s) && Enabled(s, step)
    ensures FilledInv(Next(s, step))
  {
    var v := Next(s, step);
    forall t | 0 <= t < |v.slots| && Filled(v.slots[t])
      ensures v.rx.Idle?
    {
      if !step.RxComplete? {
        if !OnReceiver(step) {
          OthersKeepLink(s, step);
        }
        hide Next;
        FilledStep(s, step, t);
        assert s.claim.Some?;
      }
    }
  }

  lemma {:induction false} RunKeepsFilled(states: seq<State>, steps: seq<Step>, i: nat)
    requires Run(states, steps) && i < |states|
    ensures FilledInv(states[i])
  {
    hide Next, Enabled, CreditInv, LayoutInv, CountInv, DestInv;
    if i > 0 {
      RunKeepsFilled(states, steps, i - 1);
      RunKeepsBooks(states, steps, i - 1);
      StepKeepsFilled(states[i - 1], steps[i - 1]);
    }
  }

  /** A completion marks its destination delivered exactly if the receiver holds the claim on it, fills none
      a second time and touches no other destination. */
  lemma DeliveredExactly(states: seq<State>, steps: seq<Step>, i: nat)
    requires Run(states, steps) && i < |steps| && steps[i].RxComplete?
    ensures var s, v, t := states[i], states[i + 1], states[i].rx.req.tag;
            && t < |s.slots| == |v.slots| && v.slots[t].dest.Some? == s.slots[t].dest.Some?
            && (forall u :: 0 <= u < |s.slots| && u != t ==> v.slots[u].dest == s.slots[u].dest)
            && (s.slots[t].dest.Some? ==>
                  v.slots[t].dest.value ==
                  s.slots[t].dest.value.(delivered := s.slots[t].dest.value.delivered || s.slots[t].dest.value.inUse))
            && !Filled(s.slots[t])
  {
    RunKeepsFilled(states, steps, i);
    RunKeepsBooks(states, steps, i);
    var s, t := states[i], states[i].rx.req.tag;
    hide CreditInv, LayoutInv, CountInv;
    assert s.slots[t].dest.Some? ==> (s.slots[t].dest.value.inUse <==> s.claim.Some? && s.claim.value.0 == t);
  }

  // ------------------------------------------------------------------ growth

  /** Growing a full table makes room, at its end, and keeps every slot. */
  lemma GrowthMakesRoom(states: seq<State>, steps: seq<Step>, i: nat)
    requires Run(states, steps) && i < |steps| && steps[i].Grow?
    ensures var s, v := states[i], states[i + 1];
            && s.slots <= v.slots && |v.slots| == FIRST_NORMAL_TAG + v.resident && v.busy == s.busy
            && s.resident < v.resident && (2 * s.resident <= v.resident || v.resident == NORMAL_TAG_COUNT)
            && (forall t :: |s.slots| <= t < |v.slots| ==> v.slots[t] == VACANT)
            && FreeIndex(v).Some?
  {
    RunKeepsBooks(states, steps, i);
    RunKeepsBooks(states, steps, i + 1);
    var v := states[i + 1];
    assert states[i].resident !in v.busy;
    SearchIsExact(v.resident, v.cursor, v.busy);
  }

  /** The next search starts just behind the tag handed out last. */
  lemma SearchGoesRound(states: seq<State>, steps: seq<Step>, i: nat)
    requires Run(states, steps) && i < |steps| && steps[i].Reserve?
    ensures var s, v := states[i], states[i + 1];
            v.cursor == if FreeIndex(s).value + 1 == s.resident then 0 else FreeIndex(s).value + 1
  {
    RunKeepsBooks(states, steps, i);
    ReserveKeepsLayout(states[i], steps[i].charge, steps[i].register);
    SearchIsExact(states[i].resident, states[i].cursor, states[i].busy);
  }

  // ------------------------------------------------------------------ the end

  lemma DeadStays(s: State, step: Step)
    requires Enabled(s, step) && (s.status.Dead? || (step.Retire? && step.terminal))
    ensures Next(s, step).status.Dead?
  {
    if step.FinishFlush? || step.VacateFlush? {
      hide Next, Enabled;
      FlushEnds(s, step);
    }
  }

  /** A session ended is never connected again: nothing is reserved, sent or installed any more. */
  lemma {:induction false} EndedStaysEnded(states: seq<State>, steps: seq<Step>, i: nat, j: nat)
    requires Run(states, steps) && i < j < |states| && steps[i].Retire? && steps[i].terminal
    ensures states[j].status.Dead?
    ensures j < |steps| ==> !steps[j].Reserve? && !steps[j].Send? && !steps[j].ReserveFlush? && !steps[j].Install?
    decreases j
  {
    if j == i + 1 {
      DeadStays(states[i], steps[i]);
    } else {
      EndedStaysEnded(states, steps, i, j - 1);
      DeadStays(states[j - 1], steps[j - 1]);
    }
    assert j < |steps| ==> Enabled(states[j], steps[j]);
  }
}
