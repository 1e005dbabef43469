/** What every step keeps of the tag table's books: the bitmap against the slots, the
    reply credit, and the registered read destinations. */
module TagAccounting {
  import opened Wrappers
  import opened TagSpace
  import opened TagTable

  // ------------------------------------------------------------------ bitmap

  /** A clear bit is a resident, addressable, vacant slot with no destination. */
  ghost predicate LayoutInv(s: State) {
    && s.resident <= NORMAL_TAG_COUNT
    && |s.slots| == FIRST_NORMAL_TAG + s.resident
    && (forall i :: i in s.busy ==> i < s.resident)
    && (forall t :: FIRST_NORMAL_TAG <= t < |s.slots| && t - FIRST_NORMAL_TAG !in s.busy ==>
          s.slots[t].state == Vacant && s.slots[t].dest.None?)
  }

  lemma ReserveKeepsLayout(s: State, charge: Charge, register: bool)
    requires LayoutInv(s) && Enabled(s, Reserve(charge, register))
    ensures LayoutInv(Next(s, Reserve(charge, register)))
    ensures var tag := FreeIndex(s).value + FIRST_NORMAL_TAG;
            tag < |s.slots| && s.slots[tag].state == Vacant && s.slots[tag].dest.None?
  {
    SearchIsExact(s.resident, s.cursor, s.busy);
  }

  lemma VacateKeepsLayout(s: State, tag: nat)
    requires LayoutInv(s) && tag < |s.slots|
    ensures LayoutInv(VacateTag(s, tag))
  {
  }

  /** Ending a flush frees nothing, its own tag, or that and then the request it names. */
  lemma FlushEnds(s: State, step: Step)
    requires Enabled(s, step) && (step.FinishFlush? || step.VacateFlush?)
    ensures FlushOwned(s, step.tag) && |VacateTag(s, step.tag).slots| == |s.slots|
    ensures var v, flushed := Next(s, step).(holder := s.holder, sent := s.sent), VacateTag(s, step.tag);
            v == s || v == flushed || v == VacateTag(flushed, s.slots[step.tag].cancels.value)
  {
    if step.FinishFlush? {
      FinishEnds(s, step.tag);
    } else {
      AbandonEnds(s, step.tag);
    }
    hide Next, Enabled;
  }

  lemma FinishEnds(s: State, tag: nat)
    requires Enabled(s, FinishFlush(tag))
    ensures var v, flushed := Next(s, FinishFlush(tag)).(holder := s.holder, sent := s.sent), VacateTag(s, tag);
            v == s || v == flushed || v == VacateTag(flushed, s.slots[tag].cancels.value)
  {
  }

  lemma AbandonEnds(s: State, tag: nat)
    requires Enabled(s, VacateFlush(tag))
    ensures var v, flushed := Next(s, VacateFlush(tag)).(holder := s.holder, sent := s.sent), VacateTag(s, tag);
            v == flushed || v == VacateTag(flushed, s.slots[tag].cancels.value)
  {
  }

  /** Releasing a slot, or giving up a request without a flush, frees that slot or nothing. */
  lemma ReleaseEnds(s: State, step: Step)
    requires Enabled(s, step) && (step.ReleaseSlot? || step.VacateOriginal?)
    ensures var v, tag := Next(s, step).(holder := s.holder), if step.ReleaseSlot? then step.tag else step.target;
            tag < |s.slots| && (v == s || v == VacateTag(s, tag))
  {
  }

  lemma VacateFlushKeepsLayout(s: State, step: Step)
    requires LayoutInv(s) && Enabled(s, step) && (step.FinishFlush? || step.VacateFlush?)
    ensures LayoutInv(Next(s, step))
  {
    hide Next, Enabled, VacateTag;
    FlushEnds(s, step);
    VacateKeepsLayout(s, step.tag);
    VacateKeepsLayout(VacateTag(s, step.tag), s.slots[step.tag].cancels.value);
  }

  lemma SweepKeepsLayout(s: State)
    requires LayoutInv(s) && Enabled(s, SweepShard)
    ensures LayoutInv(Next(s, SweepShard))
  {
  }

  lemma GrowKeepsLayout(s: State)
    requires LayoutInv(s) && Enabled(s, Grow)
    ensures LayoutInv(Next(s, Grow))
  {
  }

  /** A slot in use, or a vacant slot losing its destination, changes nothing here. */
  lemma WriteKeepsLayout(s: State, v: State, tag: nat)
    requires LayoutInv(s) && tag < |s.slots| == |v.slots| && v.slots == s.slots[tag := v.slots[tag]]
    requires v.busy == s.busy && v.resident == s.resident
    requires s.slots[tag].state == Vacant && s.slots[tag].dest.None? ==>
               FIRST_NORMAL_TAG > tag || (v.slots[tag].state == Vacant && v.slots[tag].dest.None?)
    ensures LayoutInv(v)
  {
  }

  /** Steps that write one slot and leave the bitmap alone. */
  predicate WritesSlot(step: Step) {
    || step.RxClaim? || step.RxComplete? || step.RxUnclaim? || step.Send? || step.TakeReply? || step.DropDestination?
    || step.ReserveFlush? || step.TakeFlush? || step.Look?
  }

  lemma SlotWriteKeepsLayout(s: State, step: Step)
    requires LayoutInv(s) && HeldIsSent(s) && DestInv(s) && Enabled(s, step) && WritesSlot(step)
    ensures LayoutInv(Next(s, step))
  {
    var v := Next(s, step);
    match step {
      case RxClaim => WriteKeepsLayout(s, v, s.rx.req.tag);
      case RxComplete => WriteKeepsLayout(s, v, s.rx.req.tag);
      case RxUnclaim => WriteKeepsLayout(s, v, s.claim.value.0);
      case Send(tag, _) => WriteKeepsLayout(s, v, tag);
      case TakeReply(tag) => WriteKeepsLayout(s, v, tag);
      case DropDestination(tag) => WriteKeepsLayout(s, v, tag);
      case ReserveFlush(tag, _, _) => WriteKeepsLayout(s, v, tag);
      case TakeFlush(tag) => WriteKeepsLayout(s, v, tag);
      case Look(tag) => WriteKeepsLayout(s, v, tag);
    }
  }

  lemma ReleaseKeepsLayout(s: State, step: Step)
    requires LayoutInv(s) && Enabled(s, step) && (step.ReleaseSlot? || step.VacateOriginal? || step.ReleaseIdle?)
    ensures LayoutInv(Next(s, step))
  {
    if step.ReleaseSlot? {
      VacateKeepsLayout(s, step.tag);
    } else if step.VacateOriginal? {
      VacateKeepsLayout(s, step.target);
    }
  }

  /** What steps on the wire and on the session leave alone. */
  lemma UnwrittenFrame(s: State, step: Step)
    requires Enabled(s, step) && Unwritten(step)
    ensures var v := Next(s, step);
            && v.slots == s.slots && v.busy == s.busy && v.resident == s.resident
            && v.used == s.used && v.limit == s.limit && v.carried == s.carried
            && v.claim == s.claim && v.dropped == s.dropped && v.nextIter == s.nextIter && v.nextRid == s.nextRid
            && v.lent == s.lent
  {
  }

  lemma UnwrittenKeepsLayout(s: State, step: Step)
    requires LayoutInv(s) && Enabled(s, step) && (Unwritten(step) || step.ReleaseCarried?)
    ensures LayoutInv(Next(s, step))
  {
    if Unwritten(step) {
      hide Next, Enabled;
      UnwrittenFrame(s, step);
    }
  }

  lemma StepKeepsLayout(s: State, step: Step)
    requires LayoutInv(s) && HeldIsSent(s) && DestInv(s) && Enabled(s, step)
    ensures LayoutInv(Next(s, step))
  {
    hide Next, Enabled, LayoutInv, HeldIsSent, DestInv;
    if step.Reserve? {
      ReserveKeepsLayout(s, step.charge, step.register);
    } else if step.FinishFlush? || step.VacateFlush? {
      VacateFlushKeepsLayout(s, step);
    } else if step.SweepShard? {
      SweepKeepsLayout(s);
    } else if step.Grow? {
      GrowKeepsLayout(s);
    } else if WritesSlot(step) {
      SlotWriteKeepsLayout(s, step);
    } else if step.ReleaseSlot? || step.VacateOriginal? || step.ReleaseIdle? {
      ReleaseKeepsLayout(s, step);
    } else {
      UnwrittenKeepsLayout(s, step);
    }
  }

  // ------------------------------------------------------------------ credit

  function Weight(c: Charge, ordinary: bool): nat {
    if ordinary && c.emergency then 0 else c.credit
  }

  function Total(charges: seq<Charge>, ordinary: bool): nat {
    if charges == [] then 0
    else Total(charges[..|charges| - 1], ordinary) + Weight(charges[|charges| - 1], ordinary)
  }

  function Charges(slots: seq<Slot>): seq<Charge> {
    seq(|slots|, t requires 0 <= t < |slots| => slots[t].charge)
  }

  lemma {:induction false} TotalUpdate(charges: seq<Charge>, i: nat, c: Charge, ordinary: bool)
    requires i < |charges|
    ensures Total(charges[i := c], ordinary) ==
            Total(charges, ordinary) - Weight(charges[i], ordinary) + Weight(c, ordinary)
    ensures Weight(charges[i], ordinary) <= Total(charges, ordinary)
  {
    var n := |charges| - 1;
    if i == n {
      assert charges[i := c][..n] == charges[..n];
    } else {
      assert charges[i := c][..n] == charges[..n][i := c];
      TotalUpdate(charges[..n], i, c, ordinary);
    }
  }

  lemma {:induction false} TotalAppend(a: seq<Charge>, b: seq<Charge>, ordinary: bool)
    ensures Total(a + b, ordinary) == Total(a, ordinary) + Total(b, ordinary)
  {
    if b == [] {
      assert a + b == a;
    } else {
      var n := |b| - 1;
      assert (a + b)[..|a| + n] == a + b[..n];
      TotalAppend(a, b[..n], ordinary);
    }
  }

  lemma {:induction false} TotalZero(charges: seq<Charge>, ordinary: bool)
    requires forall i :: 0 <= i < |charges| ==> charges[i].credit == 0
    ensures Total(charges, ordinary) == 0
  {
    if charges != [] {
      TotalZero(charges[..|charges| - 1], ordinary);
    }
  }

  lemma {:induction false} TotalOrdinary(charges: seq<Charge>)
    ensures Total(charges, true) <= Total(charges, false)
  {
    if charges != [] {
      TotalOrdinary(charges[..|charges| - 1]);
    }
  }

  /** Credit of the slots and of the replies carried away from them. */
  function Outstanding(s: State, ordinary: bool): nat {
    Total(Charges(s.slots), ordinary) + Total(s.carried, ordinary)
  }

  ghost predicate CreditInv(s: State) {
    && s.used == Outstanding(s, false)
    && Outstanding(s, true) <= s.limit
    && (forall t :: 0 <= t < |s.slots| && s.slots[t].state == Vacant ==> s.slots[t].charge.credit == 0)
  }

  /** Changing one slot changes the outstanding credit by the difference of its charges. */
  lemma SlotCredit(s: State, tag: nat, slot: Slot, ordinary: bool)
    requires tag < |s.slots|
    ensures Outstanding(WithSlot(s, tag, slot), ordinary) ==
            Outstanding(s, ordinary) - Weight(s.slots[tag].charge, ordinary) + Weight(slot.charge, ordinary)
    ensures Weight(s.slots[tag].charge, ordinary) <= Outstanding(s, ordinary)
  {
    assert Charges(s.slots[tag := slot]) == Charges(s.slots)[tag := slot.charge];
    TotalUpdate(Charges(s.slots), tag, slot.charge, ordinary);
  }

  /** One slot changed, but not its charge. */
  lemma SameCharge(s: State, v: State, tag: nat)
    requires CreditInv(s) && tag < |s.slots| == |v.slots|
    requires v.slots == s.slots[tag := v.slots[tag]] && v.slots[tag].charge == s.slots[tag].charge
    requires v.slots[tag].state == Vacant ==> s.slots[tag].state == Vacant
    requires v.carried == s.carried && v.used == s.used && v.limit == s.limit
    ensures CreditInv(v)
  {
    assert Charges(v.slots) == Charges(s.slots);
  }

  lemma VacateCredit(s: State, tag: nat)
    requires CreditInv(s) && tag < |s.slots|
    ensures CreditInv(VacateTag(s, tag))
    ensures s.slots[tag].charge.credit <= s.used
  {
    var v := VacateTag(s, tag);
    var w := WithSlot(s, tag, Vacated(s.slots[tag]));
    SlotCredit(s, tag, Vacated(s.slots[tag]), false);
    SlotCredit(s, tag, Vacated(s.slots[tag]), true);
    assert v.slots == w.slots && v.carried == w.carried;
  }

  /** What a reservation does to the slot it finds, and what it was admitted under. */
  lemma ReserveShape(s: State, charge: Charge, register: bool)
    requires LayoutInv(s) && Enabled(s, Reserve(charge, register))
    ensures FreeIndex(s).Some? && FreeIndex(s).value + FIRST_NORMAL_TAG < |s.slots|
    ensures charge.emergency || s.used + charge.credit <= s.limit
    ensures var v, tag := Next(s, Reserve(charge, register)), FreeIndex(s).value + FIRST_NORMAL_TAG;
            && |v.slots| == |s.slots| && v.slots == s.slots[tag := v.slots[tag]] && s.slots[tag].state == Vacant
            && v.slots[tag].state == Reserved && v.slots[tag].charge == charge
            && v.used == s.used + charge.credit && v.limit == s.limit && v.carried == s.carried
            && s.slots[tag].dest.None? && v.claim == s.claim && v.dropped == s.dropped
            && v.slots[tag].dest == (if register then Some(Destination(s.nextIter, false, false)) else None)
            && v.nextIter == (if register then s.nextIter + 1 else s.nextIter)
  {
    ReserveKeepsLayout(s, charge, register);
  }

  lemma ReserveCredit(s: State, charge: Charge, register: bool)
    requires LayoutInv(s) && CreditInv(s) && Enabled(s, Reserve(charge, register))
    ensures CreditInv(Next(s, Reserve(charge, register)))
  {
    hide Next, Enabled, LayoutInv, FreeIndex;
    ReserveShape(s, charge, register);
    var v := Next(s, Reserve(charge, register));
    var tag := FreeIndex(s).value + FIRST_NORMAL_TAG;
    SlotCredit(s, tag, v.slots[tag], false);
    SlotCredit(s, tag, v.slots[tag], true);
    TotalOrdinary(Charges(s.slots));
    TotalOrdinary(s.carried);
    assert v.slots == WithSlot(s, tag, v.slots[tag]).slots;
  }

  lemma ChargesAppend(a: seq<Slot>, b: seq<Slot>)
    ensures Charges(a + b) == Charges(a) + Charges(b)
  {
  }

  /** Vacant slots are free. */
  lemma VacantTotal(slots: seq<Slot>, n: nat, ordinary: bool)
    ensures Total(Charges(slots + seq(n, _ => VACANT)), ordinary) == Total(Charges(slots), ordinary)
  {
    var more := seq(n, _ => VACANT);
    ChargesAppend(slots, more);
    TotalAppend(Charges(slots), Charges(more), ordinary);
    TotalZero(Charges(more), ordinary);
  }

  lemma GrowCredit(s: State)
    requires CreditInv(s) && Enabled(s, Grow)
    ensures CreditInv(Next(s, Grow))
  {
    var n := Monus(FIRST_NORMAL_TAG + NextResidentCount(s.resident), |s.slots|);
    VacantTotal(s.slots, n, false);
    VacantTotal(s.slots, n, true);
  }

  lemma TotalPush(charges: seq<Charge>, c: Charge, ordinary: bool)
    ensures Total(charges + [c], ordinary) == Total(charges, ordinary) + Weight(c, ordinary)
  {
    assert (charges + [c])[..|charges|] == charges;
  }

  lemma TakeReplyCredit(s: State, tag: nat)
    requires CreditInv(s) && Enabled(s, TakeReply(tag))
    ensures CreditInv(Next(s, TakeReply(tag)))
  {
    SlotCredit(s, tag, Vacated(s.slots[tag]), false);
    SlotCredit(s, tag, Vacated(s.slots[tag]), true);
    TotalPush(s.carried, s.slots[tag].charge, false);
    TotalPush(s.carried, s.slots[tag].charge, true);
  }

  lemma ReleaseCarriedCredit(s: State, i: nat)
    requires CreditInv(s) && Enabled(s, ReleaseCarried(i))
    ensures CreditInv(Next(s, ReleaseCarried(i)))
    ensures s.carried[i].credit <= s.used
  {
    var one := [s.carried[i]];
    assert s.carried == s.carried[..i] + (one + s.carried[i + 1..]);
    assert one[..0] == [];
    forall ordinary: bool
      ensures Total(s.carried, ordinary) ==
              Total(s.carried[..i] + s.carried[i + 1..], ordinary) + Weight(s.carried[i], ordinary)
    {
      TotalAppend(s.carried[..i], one + s.carried[i + 1..], ordinary);
      TotalAppend(one, s.carried[i + 1..], ordinary);
      TotalAppend(s.carried[..i], s.carried[i + 1..], ordinary);
    }
  }

  lemma ReserveFlushCredit(s: State, tag: nat, target: nat, credit: nat)
    requires CreditInv(s) && Enabled(s, ReserveFlush(tag, target, credit))
    ensures CreditInv(Next(s, ReserveFlush(tag, target, credit)))
  {
    var v := Next(s, ReserveFlush(tag, target, credit));
    SlotCredit(s, tag, v.slots[tag], false);
    SlotCredit(s, tag, v.slots[tag], true);
    assert v.slots == WithSlot(s, tag, v.slots[tag]).slots;
  }

  lemma SweepCredit(s: State)
    requires CreditInv(s) && Enabled(s, SweepShard)
    ensures CreditInv(Next(s, SweepShard))
  {
    assert Charges(Next(s, SweepShard).slots) == Charges(s.slots);
  }

  /** Steps that write one slot and keep what it is charged. */
  predicate KeepsCharge(step: Step) {
    || step.Send? || step.RxClaim? || step.RxComplete? || step.RxUnclaim? || step.DropDestination? || step.TakeFlush?
    || step.Look?
  }

  lemma WriteCredit(s: State, step: Step)
    requires CreditInv(s) && Enabled(s, step) && KeepsCharge(step)
    ensures CreditInv(Next(s, step))
  {
    var v := Next(s, step);
    match step {
      case RxClaim => SameCharge(s, v, s.rx.req.tag);
      case RxComplete => SameCharge(s, v, s.rx.req.tag);
      case RxUnclaim => SameCharge(s, v, s.claim.value.0);
      case Send(tag, _) => SameCharge(s, v, tag);
      case DropDestination(tag) => SameCharge(s, v, tag);
      case TakeFlush(tag) => SameCharge(s, v, tag);
      case Look(tag) => SameCharge(s, v, tag);
    }
  }

  lemma FlushCredit(s: State, step: Step)
    requires CreditInv(s) && Enabled(s, step) && (step.FinishFlush? || step.VacateFlush?)
    ensures CreditInv(Next(s, step))
  {
    hide Next, Enabled, VacateTag, Total;
    FlushEnds(s, step);
    VacateCredit(s, step.tag);
    VacateCredit(VacateTag(s, step.tag), s.slots[step.tag].cancels.value);
  }

  lemma ReleaseCredit(s: State, step: Step)
    requires CreditInv(s) && Enabled(s, step) && (step.ReleaseSlot? || step.VacateOriginal?)
    ensures CreditInv(Next(s, step))
  {
    hide Next, Enabled, VacateTag, Total;
    ReleaseEnds(s, step);
    VacateCredit(s, if step.ReleaseSlot? then step.tag else step.target);
  }

  lemma StepKeepsCredit(s: State, step: Step)
    requires LayoutInv(s) && CreditInv(s) && Enabled(s, step)
    ensures CreditInv(Next(s, step))
  {
    hide Next, Enabled, CreditInv, LayoutInv;
    if step.Reserve? {
      ReserveCredit(s, step.charge, step.register);
    } else if step.Grow? {
      GrowCredit(s);
    } else if step.TakeReply? {
      TakeReplyCredit(s, step.tag);
    } else if step.ReleaseCarried? {
      ReleaseCarriedCredit(s, step.i);
    } else if step.ReserveFlush? {
      ReserveFlushCredit(s, step.tag, step.target, step.credit);
    } else if step.SweepShard? {
      SweepCredit(s);
    } else if step.FinishFlush? || step.VacateFlush? {
      FlushCredit(s, step);
    } else if step.ReleaseSlot? || step.VacateOriginal? {
      ReleaseCredit(s, step);
    } else if KeepsCharge(step) {
      WriteCredit(s, step);
    } else {
      UnwrittenCredit(s, step);
    }
  }

  lemma UnwrittenCredit(s: State, step: Step)
    requires CreditInv(s) && Enabled(s, step) && (Unwritten(step) || step.ReleaseIdle?)
    ensures CreditInv(Next(s, step))
  {
    if Unwritten(step) {
      hide Next, Enabled;
      UnwrittenFrame(s, step);
    }
  }

  /** Steps that write no slot and move no credit. */
  predicate Unwritten(step: Step) {
    || step.ServerReply? || step.ServerFlush? || step.RxBegin? || step.RxRead? || step.RxCheck? || step.RxDrop?
    || step.Retire? || step.PublishEpoch? || step.Install? || step.RxCount?
  }

  // ------------------------------------------------------------------ read destinations

  /** Every registration still in a slot is fresh, live and claimed by at most the one receiver. */
  ghost predicate DestInv(s: State) {
    && (forall t :: 0 <= t < |s.slots| && s.slots[t].dest.Some? ==>
          s.slots[t].dest.value.iter < s.nextIter && s.slots[t].dest.value.iter !in s.dropped)
    && (forall t, u :: 0 <= t < u < |s.slots| && s.slots[t].dest.Some? && s.slots[u].dest.Some? ==>
          s.slots[t].dest.value.iter != s.slots[u].dest.value.iter)
    && (forall t :: 0 <= t < |s.slots| && s.slots[t].dest.Some? && s.slots[t].dest.value.inUse ==>
          s.claim == Some((t, s.slots[t].dest.value.iter)))
    && (s.claim.Some? ==> s.claim.value.0 < |s.slots| && s.slots[s.claim.value.0].dest.Some?
                          && s.slots[s.claim.value.0].dest.value.inUse
                          && s.slots[s.claim.value.0].dest.value.iter == s.claim.value.1)
    && (forall i :: i in s.dropped ==> i < s.nextIter)
  }

  /** Destinations did not move. */
  lemma SameDestinations(s: State, v: State)
    requires DestInv(s) && |s.slots| <= |v.slots|
    requires forall t :: 0 <= t < |s.slots| ==> v.slots[t].dest == s.slots[t].dest
    requires forall t :: |s.slots| <= t < |v.slots| ==> v.slots[t].dest.None?
    requires v.claim == s.claim && v.dropped == s.dropped && v.nextIter == s.nextIter
    ensures DestInv(v)
  {
  }

  /** One slot's destination is replaced by the same registration with other flags. */
  lemma SameRegistration(s: State, v: State, tag: nat)
    requires DestInv(s) && |v.slots| == |s.slots| && tag < |s.slots|
    requires forall t :: 0 <= t < |s.slots| && t != tag ==> v.slots[t].dest == s.slots[t].dest
    requires s.slots[tag].dest.Some? && v.slots[tag].dest.Some?
    requires v.slots[tag].dest.value.iter == s.slots[tag].dest.value.iter
    requires s.claim.None? || s.claim.value.0 == tag
    requires v.claim == if v.slots[tag].dest.value.inUse then Some((tag, v.slots[tag].dest.value.iter)) else None
    requires v.dropped == s.dropped && v.nextIter == s.nextIter
    ensures DestInv(v)
  {
  }

  lemma ReserveKeepsDestinations(s: State, charge: Charge, register: bool)
    requires LayoutInv(s) && DestInv(s) && Enabled(s, Reserve(charge, register))
    ensures DestInv(Next(s, Reserve(charge, register)))
  {
    hide Next, Enabled, LayoutInv, FreeIndex;
    ReserveShape(s, charge, register);
  }

  lemma DropKeepsDestinations(s: State, tag: nat)
    requires DestInv(s) && Enabled(s, DropDestination(tag))
    ensures DestInv(Next(s, DropDestination(tag)))
  {
  }

  lemma ClaimKeepsDestinations(s: State)
    requires DestInv(s) && Enabled(s, RxClaim)
    ensures DestInv(Next(s, RxClaim))
  {
    SameRegistration(s, Next(s, RxClaim), s.rx.req.tag);
  }

  lemma UnclaimKeepsDestinations(s: State)
    requires DestInv(s) && Enabled(s, RxUnclaim)
    ensures DestInv(Next(s, RxUnclaim))
  {
    SameRegistration(s, Next(s, RxUnclaim), s.claim.value.0);
  }

  lemma CompleteKeepsDestinations(s: State)
    requires DestInv(s) && Enabled(s, RxComplete)
    ensures DestInv(Next(s, RxComplete))
  {
    var tag := s.rx.req.tag;
    if s.claim.Some? && s.claim.value.0 == tag {
      SameRegistration(s, Next(s, RxComplete), tag);
    } else {
      SameDestinations(s, Next(s, RxComplete));
    }
  }

  lemma GrowKeepsDestinations(s: State)
    requires DestInv(s) && Enabled(s, Grow)
    ensures DestInv(Next(s, Grow))
  {
    SameDestinations(s, Next(s, Grow));
  }

  lemma WriteKeepsDestinations(s: State, step: Step)
    requires DestInv(s) && Enabled(s, step)
    requires step.Send? || step.TakeReply? || step.ReserveFlush? || step.TakeFlush? || step.SweepShard? || step.Look?
    ensures DestInv(Next(s, step))
  {
    SameDestinations(s, Next(s, step));
  }

  /** Vacating a tag leaves its registration for its owner to drop. */
  lemma VacateKeepsDestinations(s: State, tag: nat)
    requires DestInv(s) && tag < |s.slots|
    ensures DestInv(VacateTag(s, tag))
  {
    SameDestinations(s, VacateTag(s, tag));
  }

  lemma FlushKeepsDestinations(s: State, step: Step)
    requires DestInv(s) && Enabled(s, step) && (step.FinishFlush? || step.VacateFlush?)
    ensures DestInv(Next(s, step))
  {
    hide Next, Enabled, VacateTag;
    FlushEnds(s, step);
    VacateKeepsDestinations(s, step.tag);
    VacateKeepsDestinations(VacateTag(s, step.tag), s.slots[step.tag].cancels.value);
  }

  lemma UnwrittenKeepsDestinations(s: State, step: Step)
    requires DestInv(s) && Enabled(s, step) && (Unwritten(step) || step.ReleaseIdle? || step.ReleaseCarried?)
    ensures DestInv(Next(s, step))
  {
    if Unwritten(step) {
      hide Next, Enabled;
      UnwrittenFrame(s, step);
      SameDestinations(s, Next(s, step));
    } else {
      SameDestinations(s, Next(s, step));
    }
  }

  lemma ReleaseKeepsDestinations(s: State, step: Step)
    requires DestInv(s) && Enabled(s, step) && (step.ReleaseSlot? || step.VacateOriginal?)
    ensures DestInv(Next(s, step))
  {
    hide Next, Enabled, VacateTag;
    ReleaseEnds(s, step);
    VacateKeepsDestinations(s, if step.ReleaseSlot? then step.tag else step.target);
  }

  lemma StepKeepsDestinations(s: State, step: Step)
    requires LayoutInv(s) && DestInv(s) && Enabled(s, step)
    ensures DestInv(Next(s, step))
  {
    hide Next, Enabled, LayoutInv, DestInv;
    if step.Reserve? {
      ReserveKeepsDestinations(s, step.charge, step.register);
    } else if step.RxClaim? {
      ClaimKeepsDestinations(s);
    } else if step.RxComplete? {
      CompleteKeepsDestinations(s);
    } else if step.RxUnclaim? {
      UnclaimKeepsDestinations(s);
    } else if step.DropDestination? {
      DropKeepsDestinations(s, step.tag);
    } else if step.FinishFlush? || step.VacateFlush? {
      FlushKeepsDestinations(s, step);
    } else if step.ReleaseSlot? || step.VacateOriginal? {
      ReleaseKeepsDestinations(s, step);
    } else if step.Grow? {
      GrowKeepsDestinations(s);
    } else if step.Send? || step.TakeReply? || step.ReserveFlush? || step.TakeFlush? || step.SweepShard? || step.Look? {
      WriteKeepsDestinations(s, step);
    } else {
      UnwrittenKeepsDestinations(s, step);
    }
  }

  // ------------------------------------------------------------------ runs

  /** The frame being completed, or claimed for, still finds its slot sent. */
  ghost predicate HeldIsSent(s: State) {
    s.rx.Hold? ==> s.rx.req.tag < |s.slots| && s.slots[s.rx.req.tag].state == Sent
  }

  /** The slot a frame is held for changes only by that frame: every other step needs its shard. */
  lemma HeldSlotIsUntouched(s: State, step: Step)
    requires s.rx.Hold? && s.rx.req.tag < |s.slots| && s.slots[s.rx.req.tag].state == Sent
    requires LayoutInv(s) && Enabled(s, step) && !step.RxComplete? && !step.FinishFlush? && !step.VacateFlush?
    ensures |s.slots| <= |Next(s, step).slots| && Next(s, step).slots[s.rx.req.tag].state == Sent
  {
    if step.Reserve? {
      ReserveKeepsLayout(s, step.charge, step.register);
    }
  }

  lemma HeldSlotSurvivesFlush(s: State, step: Step)
    requires HeldIsSent(s) && Enabled(s, step) && (step.FinishFlush? || step.VacateFlush?)
    ensures HeldIsSent(Next(s, step))
  {
    FlushNeedsShards(s, step);
    hide Next, Enabled;
    FlushEnds(s, step);
  }

  lemma FlushNeedsShards(s: State, step: Step)
    requires Enabled(s, step) && (step.FinishFlush? || step.VacateFlush?)
    ensures FlushOwned(s, step.tag) && ShardFree(s, step.tag) && ShardFree(s, s.slots[step.tag].cancels.value)
  {
  }

  lemma HoldsOnlyByCheck(s: State, step: Step)
    requires Enabled(s, step) && Next(s, step).rx.Hold?
    ensures (s.rx.Hold? && Next(s, step).rx == s.rx && !step.RxComplete?)
            || (step.RxCheck? && Next(s, step).slots == s.slots && Expected(s, s.rx.e, s.rx.req)
                && Next(s, step).rx == Hold(s.rx.e, s.rx.req))
  {
    if step.RxCheck? || step.RxComplete? || step.RxDrop? || step.RxRead? {
    } else {
      OthersKeepReceiver(s, step);
    }
  }

  lemma OthersKeepReceiver(s: State, step: Step)
    requires Enabled(s, step) && !step.RxCheck? && !step.RxComplete? && !step.RxDrop? && !step.RxRead?
    ensures Next(s, step).rx == s.rx
  {
    if step.FinishFlush? || step.VacateFlush? {
      hide Next, Enabled;
      FlushEnds(s, step);
    }
  }

  lemma StepKeepsHeld(s: State, step: Step)
    requires HeldIsSent(s) && LayoutInv(s) && Enabled(s, step)
    ensures HeldIsSent(Next(s, step))
  {
    hide Next, Enabled, LayoutInv;
    if step.FinishFlush? || step.VacateFlush? {
      HeldSlotSurvivesFlush(s, step);
    } else if Next(s, step).rx.Hold? {
      HoldsOnlyByCheck(s, step);
      if s.rx.Hold? && !step.RxComplete? {
        HeldSlotIsUntouched(s, step);
      }
    }
  }

  // ------------------------------------------------------------------ requests in flight

  function SentTags(slots: seq<Slot>): set<nat> {
    set t | 0 <= t < |slots| && slots[t].state == Sent
  }

  /** While connected the count is no less than the sent slots and the reply still to be counted
      down. A retirement sets it to zero too early, but leaves no sent slot behind. */
  ghost predicate CountInv(s: State) {
    && (s.status.Connected? ==>
          s.sweep.Settled? && |SentTags(s.slots)| + (if s.owed then 1 else 0) <= s.sent)
    && (!s.status.Connected? && s.sweep.Settled? ==> SentTags(s.slots) == {})
    && (s.sweep.At? ==> s.sweep.k < SLOT_SHARDS && forall t :: t in SentTags(s.slots) ==> t % SLOT_SHARDS >= s.sweep.k)
  }

  lemma FewerTags(a: set<nat>, b: set<nat>)
    requires a <= b
    ensures |a| <= |b|
  {
    assert b == a + (b - a);
  }

  /** Steps that send nothing, count nothing down and leave the session as it is. */
  lemma FewerSentKeepsCount(s: State, v: State)
    requires CountInv(s) && SentTags(v.slots) <= SentTags(s.slots)
    requires v.status == s.status && v.sweep == s.sweep && v.sent == s.sent && v.owed == s.owed
    ensures CountInv(v)
  {
    FewerTags(SentTags(v.slots), SentTags(s.slots));
  }

  lemma SendKeepsCount(s: State, step: Step)
    requires CountInv(s) && Enabled(s, step) && step.Send?
    ensures CountInv(Next(s, step))
  {
    assert SentTags(Next(s, step).slots) == SentTags(s.slots) + {step.tag};
  }

  lemma CompleteKeepsCount(s: State)
    requires CountInv(s) && HeldIsSent(s) && Enabled(s, RxComplete) && !s.owed
    ensures CountInv(Next(s, RxComplete))
  {
    var tag := s.rx.req.tag;
    assert tag in SentTags(s.slots);
    assert SentTags(Next(s, RxComplete).slots) == SentTags(s.slots) - {tag};
  }

  /** Freeing a sent slot without counting it down leaves the count too high, never too low. */
  lemma VacateSent(s: State, tag: nat)
    requires tag < |s.slots|
    ensures SentTags(VacateTag(s, tag).slots) == SentTags(s.slots) - {tag}
    ensures var v := VacateTag(s, tag);
            v.status == s.status && v.sweep == s.sweep && v.owed == s.owed && v.sent == s.sent
  {
  }

  lemma FlushKeepsCount(s: State, step: Step)
    requires CountInv(s) && Enabled(s, step) && (step.FinishFlush? || step.VacateFlush?)
    ensures CountInv(Next(s, step))
  {
    hide Next, Enabled, VacateTag, CountInv, SentTags;
    FlushEnds(s, step);
    var flushed, target := VacateTag(s, step.tag), s.slots[step.tag].cancels.value;
    VacateSent(s, step.tag);
    VacateSent(flushed, target);
    if Next(s, step).sent == s.sent {
      FewerSentKeepsCount(s, Next(s, step));
    } else {
      OnlyFinishCounts(s, step);
      FinishCounts(s, step.tag);
    }
  }

  lemma OnlyFinishCounts(s: State, step: Step)
    requires Enabled(s, step) && (step.FinishFlush? || step.VacateFlush?) && Next(s, step).sent != s.sent
    ensures step.FinishFlush?
  {
  }

  lemma FinishCounts(s: State, tag: nat)
    requires CountInv(s) && Enabled(s, FinishFlush(tag)) && Next(s, FinishFlush(tag)).sent != s.sent
    ensures CountInv(Next(s, FinishFlush(tag)))
  {
    var v, flushed, target := Next(s, FinishFlush(tag)), VacateTag(s, tag), s.slots[tag].cancels.value;
    assert v == VacateTag(flushed, target).(sent := s.sent - 1) && s.slots[target].state == Sent;
    hide Next, Enabled, VacateTag;
    VacateSent(s, tag);
    VacateSent(flushed, target);
    assert target in SentTags(s.slots);
    FewerTags(SentTags(v.slots), SentTags(s.slots) - {target});
  }

  lemma SweepKeepsCount(s: State)
    requires CountInv(s) && Enabled(s, SweepShard)
    ensures CountInv(Next(s, SweepShard))
  {
    var v := Next(s, SweepShard);
    forall t | t in SentTags(v.slots)
      ensures t % SLOT_SHARDS >= s.sweep.k + 1
    {
      assert t in SentTags(s.slots);
    }
    assert v.sweep.Settled? ==> forall t :: t !in SentTags(v.slots);
  }

  /** Steps that touch the count, or the session it belongs to. */
  predicate Counts(step: Step) {
    step.Send? || step.RxComplete? || step.FinishFlush? || step.VacateFlush? || step.SweepShard? || Unwritten(step)
  }

  lemma ReleaseKeepsCount(s: State, step: Step)
    requires CountInv(s) && Enabled(s, step) && (step.ReleaseSlot? || step.VacateOriginal?)
    ensures CountInv(Next(s, step))
  {
    hide Next, Enabled, VacateTag, CountInv, SentTags;
    var tag := if step.ReleaseSlot? then step.tag else step.target;
    ReleaseEnds(s, step);
    VacateSent(s, tag);
    FewerSentKeepsCount(s, Next(s, step));
  }

  lemma OthersKeepSession(s: State, step: Step)
    requires Enabled(s, step) && !Counts(step) && !step.ReleaseSlot? && !step.VacateOriginal?
    ensures var v := Next(s, step);
            v.status == s.status && v.sweep == s.sweep && v.sent == s.sent && v.owed == s.owed
  {
  }

  lemma OthersSendNothing(s: State, step: Step, t: nat)
    requires Enabled(s, step) && !Counts(step) && !step.ReleaseSlot? && !step.VacateOriginal?
    requires t < |Next(s, step).slots| && Next(s, step).slots[t].state == Sent
    ensures t < |s.slots| && s.slots[t].state == Sent
  {
  }

  /** The receiver owes nothing while it has a frame. */
  ghost predicate OwedInv(s: State) {
    s.owed ==> s.rx.Idle?
  }

  lemma StepKeepsOwed(s: State, step: Step)
    requires OwedInv(s) && Enabled(s, step)
    ensures OwedInv(Next(s, step))
  {
    if step.FinishFlush? || step.VacateFlush? {
      hide Next, Enabled;
      FlushEnds(s, step);
    }
  }

  lemma SessionKeepsCount(s: State, step: Step)
    requires CountInv(s) && Enabled(s, step) && Unwritten(step)
    ensures CountInv(Next(s, step))
  {
  }

  lemma StepKeepsCount(s: State, step: Step)
    requires CountInv(s) && HeldIsSent(s) && OwedInv(s) && Enabled(s, step)
    ensures CountInv(Next(s, step))
  {
    if step.Send? {
      hide Next, Enabled, CountInv;
      SendKeepsCount(s, step);
    } else if step.RxComplete? {
      CompleteKeepsCount(s);
    } else if step.FinishFlush? || step.VacateFlush? {
      hide Next, Enabled, CountInv;
      FlushKeepsCount(s, step);
    } else if step.SweepShard? {
      hide Next, Enabled, CountInv;
      SweepKeepsCount(s);
    } else if Unwritten(step) {
      hide Next, Enabled, CountInv;
      SessionKeepsCount(s, step);
    } else if step.ReleaseSlot? || step.VacateOriginal? {
      hide Next, Enabled, CountInv;
      ReleaseKeepsCount(s, step);
    } else {
      hide Next, Enabled, CountInv;
      OthersKeepSession(s, step);
      forall t | t in SentTags(Next(s, step).slots)
        ensures t in SentTags(s.slots)
      {
        OthersSendNothing(s, step, t);
      }
      FewerSentKeepsCount(s, Next(s, step));
    }
  }

  ghost predicate Books(s: State) {
    LayoutInv(s) && CreditInv(s) && DestInv(s) && HeldIsSent(s) && OwedInv(s) && CountInv(s)
  }

  lemma InitialBooks(s: State)
    requires Initial(s)
    ensures Books(s)
  {
    TotalZero(Charges(s.slots), false);
    TotalZero(Charges(s.slots), true);
    assert SentTags(s.slots) == {};
  }

  lemma StepKeepsBooks(s: State, step: Step)
    requires Books(s) && Enabled(s, step)
    ensures Books(Next(s, step))
  {
    hide Next, Enabled, LayoutInv, CreditInv, DestInv, HeldIsSent, OwedInv, CountInv;
    StepKeepsLayout(s, step);
    StepKeepsCredit(s, step);
    StepKeepsDestinations(s, step);
    StepKeepsHeld(s, step);
    StepKeepsOwed(s, step);
    StepKeepsCount(s, step);
  }

  lemma {:induction false} RunKeepsBooks(states: seq<State>, steps: seq<Step>, i: nat)
    requires Run(states, steps) && i < |states|
    ensures Books(states[i])
  {
    hide Next, Enabled;
    if i == 0 {
      InitialBooks(states[0]);
    } else {
      RunKeepsBooks(states, steps, i - 1);
      StepKeepsBooks(states[i - 1], steps[i - 1]);
    }
  }

  /** In every run a clear bit is an allocatable slot, so a reservation that finds one
      always succeeds: the fail-closed branch is unreachable. And a reservation with
      credit waits for a tag only when every resident tag is taken. */
  lemma ReservationNeverFailsClosed(states: seq<State>, steps: seq<Step>, i: nat)
    requires Run(states, steps) && i < |steps| && steps[i].Reserve?
    ensures var s, v := states[i], states[i + 1];
            var tag := FreeIndex(s).value + FIRST_NORMAL_TAG;
            && tag < |s.slots| && s.slots[tag].state == Vacant && s.slots[tag].dest.None?
            && v.slots[tag].state == Reserved && v.slots[tag].rid == s.nextRid && v.nextRid == s.nextRid + 1
            && tag - FIRST_NORMAL_TAG in v.busy
  {
    RunKeepsBooks(states, steps, i);
    ReserveKeepsLayout(states[i], steps[i].charge, steps[i].register);
  }

  lemma TagsRunOutOnlyWhenBusy(states: seq<State>, steps: seq<Step>, i: nat)
    requires Run(states, steps) && i < |states|
    ensures FreeIndex(states[i]).None? <==> forall j :: 0 <= j < states[i].resident ==> j in states[i].busy
  {
    RunKeepsBooks(states, steps, i);
    SearchIsExact(states[i].resident, states[i].cursor, states[i].busy);
  }

  /** The credit a step hands back, if it does. */
  function Refund(s: State, step: Step): nat
    requires Enabled(s, step)
  {
    match step
    case ReleaseCarried(i) => s.carried[i].credit
    case ReleaseSlot(tag, _) => s.slots[tag].charge.credit
    case VacateOriginal(target) => if Keeps(s, target) then 0 else s.slots[target].charge.credit
    case _ => 0
  }

  lemma RefundIsCovered(s: State, step: Step)
    requires CreditInv(s) && Enabled(s, step)
    ensures Refund(s, step) <= s.used
  {
    hide Next;
    match step {
      case ReleaseCarried(k) => ReleaseCarriedCredit(s, k);
      case ReleaseSlot(tag, _) => VacateCredit(s, tag);
      case VacateOriginal(target) => VacateCredit(s, target);
      case _ =>
    }
  }

  /** Reply credit is conserved over every run: what is used is exactly what non-vacant
      slots and carried replies hold, no refund saturates, and ordinary replies never
      hold more than the limit. */
  lemma CreditIsConserved(states: seq<State>, steps: seq<Step>, i: nat)
    requires Run(states, steps) && i < |states|
    ensures states[i].used == Outstanding(states[i], false)
    ensures Outstanding(states[i], true) <= states[i].limit
    ensures forall t :: 0 <= t < |states[i].slots| && states[i].slots[t].charge.credit > 0 ==>
              states[i].slots[t].state != Vacant
    ensures i < |steps| ==> Refund(states[i], steps[i]) <= states[i].used
  {
    hide Next, Enabled, Refund, LayoutInv, DestInv;
    RunKeepsBooks(states, steps, i);
    if i < |steps| {
      RefundIsCovered(states[i], steps[i]);
    }
  }

  lemma StepGrowsDropped(s: State, step: Step)
    requires Enabled(s, step)
    ensures s.dropped <= Next(s, step).dropped
  {
    if step.FinishFlush? || step.VacateFlush? {
      hide Next, Enabled;
      FlushEnds(s, step);
    }
  }

  lemma {:induction false} DroppedGrows(states: seq<State>, steps: seq<Step>, i: nat, j: nat)
    requires Run(states, steps) && i <= j < |states|
    ensures states[i].dropped <= states[j].dropped
    decreases j - i
  {
    hide Next, Enabled;
    if i < j {
      DroppedGrows(states, steps, i, j - 1);
      StepGrowsDropped(states[j - 1], steps[j - 1]);
    }
  }

  /** Once a destination guard has finished dropping, no receiver holds a claim on that
      iterator, no slot registers it, and neither ever happens again, whatever vacated
      the slot in between. */
  lemma DroppedIsNeverClaimed(states: seq<State>, steps: seq<Step>, i: nat, j: nat, iter: nat)
    requires Run(states, steps) && i <= j < |states| && iter in states[i].dropped
    ensures states[j].claim.Some? ==> states[j].claim.value.1 != iter
    ensures forall t :: 0 <= t < |states[j].slots| && states[j].slots[t].dest.Some? ==>
              states[j].slots[t].dest.value.iter != iter
  {
    hide Next, Enabled;
    DroppedGrows(states, steps, i, j);
    RunKeepsBooks(states, steps, j);
  }
}
