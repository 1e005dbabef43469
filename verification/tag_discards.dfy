/** When a reply that has arrived is thrown away by the caller that was waiting for it. */
module TagDiscards {
  import opened Wrappers
  import opened TagTable
  import opened TagAccounting
  import opened TagSafety
  import opened TagTheorems

  /** The ordinary slot `t` has a reply in it. */
  predicate Arrived(s: State, t: nat) {
    !IsFlushTag(t) && t < |s.slots| && s.slots[t].state == Completed
  }

  /** `step` frees the slot `t` with a reply in it that nobody takes. */
  predicate Discards(s: State, step: Step, t: nat)
    requires Enabled(s, step)
  {
    && Arrived(s, t) && step != TakeReply(t)
    && t < |Next(s, step).slots| && Next(s, step).slots[t].state == Vacant
  }

  /** `step` is this caller giving up its tags. */
  predicate Vacates(s: State, step: Step, o: Owner) {
    if o.flush.None? then step == VacateOriginal(o.target)
    else step == VacateFlush(o.flush.value) && FlushOwned(s, step.tag) && s.slots[step.tag].cancels == Some(o.target)
  }

  predicate Abandons(s: State, step: Step, t: nat) {
    (step.VacateFlush? && FlushOwned(s, step.tag) && s.slots[step.tag].cancels == Some(t)) || step == VacateOriginal(t)
  }

  // ------------------------------------------------------------------ one step

  /** A reply is stored only for a request whose frame went out whole. */
  ghost predicate WholeInv(s: State) {
    forall t :: 0 <= t < |s.slots| && Delivered(s.slots[t]) ==> s.slots[t].whole
  }

  lemma StepKeepsWhole(s: State, step: Step)
    requires HoldInv(s) && WholeInv(s) && Enabled(s, step)
    ensures WholeInv(Next(s, step))
  {
    var v := Next(s, step);
    hide Next, Enabled, HoldInv;
    forall t | 0 <= t < |v.slots| && Delivered(v.slots[t])
      ensures v.slots[t].whole
    {
      OnlyReservationsBegin(s, step, t);
      if t >= |s.slots| || !Continues(s.slots[t], v.slots[t]) {
        ReservedIsUndelivered(s, step, t);
      }
    }
  }

  lemma ReservedIsUndelivered(s: State, step: Step, t: nat)
    requires Enabled(s, step) && Reserves(s, step, t) && Next(s, step).nextRid == s.nextRid + 1
    requires t < |Next(s, step).slots| && Next(s, step).slots[t].rid == s.nextRid
    ensures !Delivered(Next(s, step).slots[t])
  {
  }

  lemma {:induction false} RunKeepsWhole(states: seq<State>, steps: seq<Step>, i: nat)
    requires Run(states, steps) && i < |states|
    ensures WholeInv(states[i])
  {
    hide Next, Enabled, Safe, Books;
    if i > 0 {
      RunKeepsWhole(states, steps, i - 1);
      RunIsSafe(states, steps, i - 1);
      assert HoldInv(states[i - 1]) by { SafeHolds(states[i - 1]); }
      StepKeepsWhole(states[i - 1], steps[i - 1]);
    }
  }

  lemma SafeHolds(s: State)
    requires Safe(s)
    ensures HoldInv(s) && FlushInv(s)
  {
  }

  lemma ReleaseDiscards(s: State, step: Step, t: nat)
    requires WholeInv(s) && Enabled(s, step) && step.ReleaseSlot? && Arrived(s, t)
    ensures Discards(s, step, t) <==> step == ReleaseSlot(t, BandLost) || step == ReleaseSlot(t, Late)
  {
    assert Delivered(s.slots[t]);
  }

  lemma AbandonDiscards(s: State, tag: nat, t: nat)
    requires FlushInv(s) && Enabled(s, VacateFlush(tag)) && Arrived(s, t)
    ensures var step := VacateFlush(tag);
            Discards(s, step, t) <==> Abandons(s, step, t) && s.holder.Some? && !s.holder.value.ready
  {
    assert Bound(s, tag);
    var flushed, target := VacateTag(s, tag), s.slots[tag].cancels.value;
    assert Next(s, VacateFlush(tag)).slots ==
           if Keeps(s, target) then flushed.slots else VacateTag(flushed, target).slots;
    VacateSlots(s, tag);
    VacateSlots(flushed, target);
    hide VacateTag, FlushInv, Next;
  }

  lemma FinishKeepsReply(s: State, tag: nat, t: nat)
    requires FlushInv(s) && Enabled(s, FinishFlush(tag)) && Arrived(s, t)
    ensures !Discards(s, FinishFlush(tag), t)
  {
    assert Bound(s, tag);
  }

  lemma OriginalDiscards(s: State, target: nat, t: nat)
    requires Enabled(s, VacateOriginal(target)) && Arrived(s, t)
    ensures Discards(s, VacateOriginal(target), t) <==> target == t && s.holder.Some? && !s.holder.value.ready
  {
  }

  lemma OthersKeepReplies(s: State, step: Step, t: nat)
    requires Enabled(s, step) && Arrived(s, t)
    requires !step.ReleaseSlot? && !step.VacateFlush? && !step.VacateOriginal? && !step.FinishFlush?
    ensures !Discards(s, step, t)
  {
    if Unwritten(step) {
      hide Next, Enabled;
      UnwrittenFrame(s, step);
    }
  }

  /** The guards under which a stored reply is lost, step by step. */
  lemma DiscardGuards(s: State, step: Step, t: nat)
    requires FlushInv(s) && WholeInv(s) && Enabled(s, step) && Arrived(s, t)
    ensures Discards(s, step, t) <==>
            || step == ReleaseSlot(t, BandLost) || step == ReleaseSlot(t, Late)
            || (Abandons(s, step, t) && s.holder.Some? && !s.holder.value.ready)
  {
    hide Next, Enabled, FlushInv, WholeInv, Discards, FlushOwned;
    if step.ReleaseSlot? {
      ReleaseDiscards(s, step, t);
    } else if step.VacateFlush? {
      AbandonDiscards(s, step.tag, t);
    } else if step.FinishFlush? {
      FinishKeepsReply(s, step.tag, t);
    } else if step.VacateOriginal? {
      OriginalDiscards(s, step.target, t);
    } else {
      OthersKeepReplies(s, step, t);
    }
  }

  // ------------------------------------------------------------------ what the owner saw

  lemma WritingRemembers(s: State, step: Step, t: nat)
    requires Enabled(s, step) && !Frees(step) && !Unwritten(step)
    requires t < |Next(s, step).slots| && Next(s, step).slots[t].looked
    ensures t < |s.slots| && Next(s, step).slots[t].rid == s.slots[t].rid && (s.slots[t].looked || step == Look(t))
  {
  }

  /** An owner remembers only what it saw of this very request. */
  lemma LookStep(s: State, step: Step, t: nat)
    requires Enabled(s, step) && t < |Next(s, step).slots| && Next(s, step).slots[t].looked
    ensures t < |s.slots| && Next(s, step).slots[t].rid == s.slots[t].rid && (s.slots[t].looked || step == Look(t))
  {
    hide Next, Enabled;
    if Unwritten(step) {
      UnwrittenFrame(s, step);
    } else if Frees(step) {
      FreeingVacates(s, step, t);
    } else {
      WritingRemembers(s, step, t);
    }
  }

  lemma LookSees(s: State, t: nat)
    requires Enabled(s, Look(t))
    ensures t < |s.slots| && s.slots[t].state != Completed
  {
  }

  lemma {:induction false} LookedBefore(states: seq<State>, steps: seq<Step>, i: nat, t: nat) returns (j: nat)
    requires Run(states, steps) && i < |states| && t < |states[i].slots| && states[i].slots[t].looked
    ensures j < i && steps[j] == Look(t) && t < |states[j].slots| && states[j].slots[t].state != Completed
    ensures states[j].slots[t].rid == states[i].slots[t].rid
  {
    hide Next, Enabled;
    assert i != 0;
    LookStep(states[i - 1], steps[i - 1], t);
    if steps[i - 1] == Look(t) {
      LookSees(states[i - 1], t);
      j := i - 1;
    } else {
      j := LookedBefore(states, steps, i - 1, t);
    }
  }

  /** While one caller holds the session mutex no other writes down what it saw, and no tag
      is handed out. */
  lemma HolderStep(s: State, step: Step)
    requires Enabled(s, step) && Next(s, step).holder.Some?
    ensures if s.holder.Some? then Next(s, step).holder == s.holder
            else step.Retire? && step.owner == Some(Next(s, step).holder.value.owner)
    ensures |Next(s, step).slots| == |s.slots|
    ensures forall t :: 0 <= t < |s.slots| ==> Next(s, step).slots[t].rid == s.slots[t].rid
  {
    if Unwritten(step) {
      UnwrittenFrame(s, step);
    }
  }

  lemma RetireSees(s: State, step: Step)
    requires Enabled(s, step) && step.Retire? && step.owner.Some?
    ensures var o := step.owner.value;
            && Next(s, step).holder == Some(Note(o, s.slots[o.target].state == Completed))
            && s.holder.None? && OwnerOk(s, o)
  {
  }

  /** The caller that has the mutex took it by retiring the connection and has kept it since. */
  ghost predicate HeldSince(states: seq<State>, steps: seq<Step>, j: nat, i: nat, o: Owner) {
    && j < i < |states| && |states| == |steps| + 1 && steps[j].Retire? && steps[j].owner == Some(o)
    && forall m :: j < m <= i ==> states[m].holder.Some?
  }

  lemma {:induction false} HolderRetired(states: seq<State>, steps: seq<Step>, i: nat) returns (j: nat)
    requires Run(states, steps) && i < |states| && states[i].holder.Some?
    ensures var note := states[i].holder.value;
            && HeldSince(states, steps, j, i, note.owner) && OwnerOk(states[j], note.owner)
            && (note.ready <==> states[j].slots[note.owner.target].state == Completed)
            && |states[i].slots| == |states[j].slots|
            && states[j].slots[note.owner.target].rid == states[i].slots[note.owner.target].rid
  {
    hide Next, Enabled, OwnerOk;
    assert i != 0;
    HolderStep(states[i - 1], steps[i - 1]);
    if states[i - 1].holder.Some? {
      j := HolderRetired(states, steps, i - 1);
      OwnerInRange(states[j], states[i].holder.value.owner);
    } else {
      RetireSees(states[i - 1], steps[i - 1]);
      OwnerInRange(states[i - 1], steps[i - 1].owner.value);
      j := i - 1;
    }
  }

  lemma OwnerInRange(s: State, o: Owner)
    requires OwnerOk(s, o)
    ensures o.target < |s.slots|
  {
  }

  lemma {:induction false} HolderStays(states: seq<State>, steps: seq<Step>, j: nat, i: nat, o: Owner)
    requires Run(states, steps) && HeldSince(states, steps, j, i, o)
    ensures OwnerOk(states[j], o)
    ensures states[i].holder == Some(Note(o, states[j].slots[o.target].state == Completed))
    decreases i - j
  {
    hide Next, Enabled, OwnerOk;
    if i == j + 1 {
      RetireSees(states[j], steps[j]);
      OwnerInRange(states[j], o);
    } else {
      HolderStays(states, steps, j, i - 1, o);
      OwnerInRange(states[j], o);
      assert states[i].holder.Some? && states[i] == Next(states[i - 1], steps[i - 1]);
      HolderStep(states[i - 1], steps[i - 1]);
    }
  }

  // ------------------------------------------------------------------ main result

  /** Step `i` acts on what its caller saw at step `j`, when the same request on `t` was
      unanswered: a look under the shard lock, or the look of a caller that then retired the
      connection and has held the session mutex ever since. */
  ghost predicate ActsOnUnready(states: seq<State>, steps: seq<Step>, i: nat, t: nat, j: nat)
    requires i < |steps| && |states| == |steps| + 1 && t < |states[i].slots|
  {
    && j < i && t < |states[j].slots| && states[j].slots[t].state != Completed
    && states[j].slots[t].rid == states[i].slots[t].rid
    && (|| (steps[i] == ReleaseSlot(t, Late) && steps[j] == Look(t))
        || (exists o: Owner :: o.target == t && Vacates(states[i], steps[i], o) && HeldSince(states, steps, j, i, o)))
  }

  lemma AbandonedByHolder(s: State, step: Step, t: nat)
    requires Enabled(s, step) && Abandons(s, step, t) && s.holder.Some?
    ensures s.holder.value.owner.target == t && Vacates(s, step, s.holder.value.owner)
  {
  }

  lemma DiscardActsOnLook(states: seq<State>, steps: seq<Step>, i: nat, t: nat) returns (j: nat)
    requires Run(states, steps) && i < |steps| && Arrived(states[i], t)
    requires Discards(states[i], steps[i], t) && steps[i] != ReleaseSlot(t, BandLost)
    ensures ActsOnUnready(states, steps, i, t, j)
  {
    hide Next, Enabled, Books, LayoutInv, WireInv, FlushInv, SettledInv, Discards, OwnerOk, FlushOwned, Vacates;
    RunIsSafe(states, steps, i);
    RunKeepsWhole(states, steps, i);
    DiscardGuards(states[i], steps[i], t);
    if steps[i] == ReleaseSlot(t, Late) {
      LateLooked(states[i], t);
      j := LookedBefore(states, steps, i, t);
    } else {
      AbandonedByHolder(states[i], steps[i], t);
      j := HolderRetired(states, steps, i);
      OwnerInRange(states[j], states[i].holder.value.owner);
    }
  }

  lemma LateLooked(s: State, t: nat)
    requires Enabled(s, ReleaseSlot(t, Late))
    ensures t < |s.slots| && s.slots[t].looked
  {
  }

  lemma ActingDiscards(states: seq<State>, steps: seq<Step>, i: nat, t: nat, j: nat)
    requires Run(states, steps) && i < |steps| && Arrived(states[i], t)
    requires ActsOnUnready(states, steps, i, t, j)
    ensures Discards(states[i], steps[i], t)
  {
    hide Next, Enabled, Books, LayoutInv, WireInv, FlushInv, SettledInv, Discards, OwnerOk, FlushOwned;
    RunIsSafe(states, steps, i);
    RunKeepsWhole(states, steps, i);
    DiscardGuards(states[i], steps[i], t);
    if steps[i] != ReleaseSlot(t, Late) {
      var o: Owner :| o.target == t && Vacates(states[i], steps[i], o) && HeldSince(states, steps, j, i, o);
      HolderStays(states, steps, j, i, o);
    }
  }

  /** In every run a reply that has arrived is thrown away exactly when the connection was
      found gone before a control tag had been got, or when its owner acts on a look of its own
      that found the request unanswered. A reply its owner has seen is never lost. */
  lemma ReplyIsDiscardedExactly(states: seq<State>, steps: seq<Step>, i: nat, t: nat)
    requires Run(states, steps) && i < |steps| && Arrived(states[i], t)
    ensures Discards(states[i], steps[i], t) <==>
            steps[i] == ReleaseSlot(t, BandLost) || exists j: nat :: ActsOnUnready(states, steps, i, t, j)
  {
    hide Next, Enabled, Discards, ActsOnUnready;
    if Discards(states[i], steps[i], t) {
      if steps[i] != ReleaseSlot(t, BandLost) {
        var j := DiscardActsOnLook(states, steps, i, t);
      }
    } else {
      forall j: nat
        ensures !ActsOnUnready(states, steps, i, t, j)
      {
        if ActsOnUnready(states, steps, i, t, j) {
          ActingDiscards(states, steps, i, t, j);
        }
      }
      BandLostDiscards(states, steps, i, t);
    }
  }

  lemma BandLostDiscards(states: seq<State>, steps: seq<Step>, i: nat, t: nat)
    requires Run(states, steps) && i < |steps| && Arrived(states[i], t)
    ensures steps[i] == ReleaseSlot(t, BandLost) ==> Discards(states[i], steps[i], t)
  {
    hide Next, Enabled, Books, LayoutInv, WireInv, FlushInv, SettledInv, Discards, OwnerOk, FlushOwned;
    RunIsSafe(states, steps, i);
    RunKeepsWhole(states, steps, i);
    DiscardGuards(states[i], steps[i], t);
  }

  /** What is kept is kept whole, and what is not is freed. */
  lemma AbandonedFlush(s: State, tag: nat)
    requires FlushInv(s) && Enabled(s, VacateFlush(tag))
    ensures var v, target := Next(s, VacateFlush(tag)), s.slots[tag].cancels.value;
            && v.slots[tag].state == Vacant
            && (if Keeps(s, target) then v.slots[target] == s.slots[target] else v.slots[target].state == Vacant)
  {
    assert Bound(s, tag);
  }
}
