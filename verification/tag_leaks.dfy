/** The bitmap read the other way: a set bit is a tag somebody still has. */
module TagLeaks {
  import opened Wrappers
  import opened TagSpace
  import opened TagTable
  import opened TagAccounting

  /** Somebody has this tag: a request, a registered destination, or an owner about to release it. */
  predicate InUse(s: State, t: nat)
    requires t < |s.slots|
  {
    s.slots[t].state != Vacant || s.slots[t].dest.Some? || t in s.lent
  }

  ghost predicate BusyInv(s: State) {
    forall i :: i in s.busy ==> i + FIRST_NORMAL_TAG < |s.slots| && InUse(s, i + FIRST_NORMAL_TAG)
  }

  lemma VacateKeepsBusy(s: State, tag: nat)
    requires BusyInv(s) && tag < |s.slots|
    ensures BusyInv(VacateTag(s, tag))
  {
  }

  lemma FlushKeepsBusy(s: State, step: Step)
    requires BusyInv(s) && Enabled(s, step) && (step.FinishFlush? || step.VacateFlush?)
    ensures BusyInv(Next(s, step))
  {
    hide Next, Enabled, VacateTag;
    FlushEnds(s, step);
    VacateKeepsBusy(s, step.tag);
    VacateKeepsBusy(VacateTag(s, step.tag), s.slots[step.tag].cancels.value);
  }

  lemma ReleaseKeepsBusy(s: State, step: Step)
    requires BusyInv(s) && Enabled(s, step) && (step.ReleaseSlot? || step.VacateOriginal?)
    ensures BusyInv(Next(s, step))
  {
    hide Next, Enabled, VacateTag;
    ReleaseEnds(s, step);
    VacateKeepsBusy(s, if step.ReleaseSlot? then step.tag else step.target);
  }

  /** Steps that neither free a slot nor touch the bitmap keep every slot as much in use as it was. */
  lemma WriteKeepsBusy(s: State, step: Step)
    requires BusyInv(s) && HeldIsSent(s) && Enabled(s, step) && (WritesSlot(step) || step.Grow? || step.SweepShard?)
    ensures BusyInv(Next(s, step))
  {
    var v := Next(s, step);
    assert v.busy == s.busy && |s.slots| <= |v.slots|;
    forall t | FIRST_NORMAL_TAG <= t < |s.slots| && InUse(s, t)
      ensures InUse(v, t)
    {
      WriteKeepsUse(s, step, t);
    }
  }

  lemma WriteKeepsUse(s: State, step: Step, t: nat)
    requires HeldIsSent(s) && Enabled(s, step) && (WritesSlot(step) || step.Grow? || step.SweepShard?)
    requires t < |s.slots| && InUse(s, t)
    ensures t < |Next(s, step).slots| && InUse(Next(s, step), t)
  {
    if step.RxClaim? || step.RxComplete? || step.RxUnclaim? || step.SweepShard? {
      hide Next, Enabled, HeldIsSent;
      RxKeepsUse(s, step, t);
    }
  }

  lemma RxKeepsUse(s: State, step: Step, t: nat)
    requires HeldIsSent(s) && Enabled(s, step)
    requires step.RxClaim? || step.RxComplete? || step.RxUnclaim? || step.SweepShard?
    requires t < |s.slots| && InUse(s, t)
    ensures t < |Next(s, step).slots| && InUse(Next(s, step), t)
  {
  }

  lemma BitmapKeepsBusy(s: State, step: Step)
    requires BusyInv(s) && LayoutInv(s) && Enabled(s, step)
    requires step.Reserve? || step.ReleaseIdle? || step.ReleaseCarried?
    ensures BusyInv(Next(s, step))
  {
    if step.Reserve? {
      ReserveKeepsLayout(s, step.charge, step.register);
    }
  }

  lemma StepKeepsBusy(s: State, step: Step)
    requires Books(s) && BusyInv(s) && Enabled(s, step)
    ensures BusyInv(Next(s, step))
  {
    hide Next, Enabled, LayoutInv, CreditInv, DestInv, HeldIsSent, OwedInv, CountInv;
    if step.FinishFlush? || step.VacateFlush? {
      FlushKeepsBusy(s, step);
    } else if step.ReleaseSlot? || step.VacateOriginal? {
      ReleaseKeepsBusy(s, step);
    } else if WritesSlot(step) || step.Grow? || step.SweepShard? {
      WriteKeepsBusy(s, step);
    } else if Unwritten(step) {
      UnwrittenFrame(s, step);
    } else {
      BitmapKeepsBusy(s, step);
    }
  }

  lemma {:induction false} RunKeepsBusy(states: seq<State>, steps: seq<Step>, i: nat)
    requires Run(states, steps) && i < |states|
    ensures BusyInv(states[i])
  {
    hide Next, Enabled, Books;
    if i > 0 {
      RunKeepsBusy(states, steps, i - 1);
      RunKeepsBooks(states, steps, i - 1);
      StepKeepsBusy(states[i - 1], steps[i - 1]);
    }
  }

  // ------------------------------------------------------------------ main results

  /** In every run a bit is set only for a tag that is in use or about to be released, and it is set
      for every tag that is in use. */
  lemma BitsAreExact(states: seq<State>, steps: seq<Step>, i: nat, t: nat)
    requires Run(states, steps) && i < |states| && FIRST_NORMAL_TAG <= t < |states[i].slots|
    ensures t - FIRST_NORMAL_TAG in states[i].busy ==> InUse(states[i], t)
    ensures states[i].slots[t].state != Vacant || states[i].slots[t].dest.Some? ==>
              t - FIRST_NORMAL_TAG in states[i].busy
  {
    RunKeepsBusy(states, steps, i);
    RunKeepsBooks(states, steps, i);
  }

  /** Releasing an idle tag makes it free, and touches no other. */
  lemma ReleasedTagIsFree(states: seq<State>, steps: seq<Step>, i: nat)
    requires Run(states, steps) && i < |steps| && steps[i].ReleaseIdle?
    requires var slot := states[i].slots[steps[i].tag]; slot.state == Vacant && slot.dest.None?
    ensures steps[i].tag - FIRST_NORMAL_TAG !in states[i + 1].busy
    ensures forall j :: j != steps[i].tag - FIRST_NORMAL_TAG ==> (j in states[i + 1].busy <==> j in states[i].busy)
  {
  }

  /** Once every request is over and every owner has let go, every tag is free again. */
  lemma NoTagLeaks(states: seq<State>, steps: seq<Step>, i: nat)
    requires Run(states, steps) && i < |states| && states[i].lent == {}
    requires forall t :: FIRST_NORMAL_TAG <= t < |states[i].slots| ==>
               states[i].slots[t].state == Vacant && states[i].slots[t].dest.None?
    ensures states[i].busy == {}
    ensures FreeIndex(states[i]).Some?
  {
    RunKeepsBusy(states, steps, i);
    RunKeepsBooks(states, steps, i);
    assert forall j :: j !in states[i].busy;
    ResidentGrows(states, steps, i);
    TagsRunOutOnlyWhenBusy(states, steps, i);
    assert 0 !in states[i].busy;
  }

  lemma {:induction false} ResidentGrows(states: seq<State>, steps: seq<Step>, i: nat)
    requires Run(states, steps) && i < |states|
    ensures states[i].resident > 0
  {
    hide Next, Enabled;
    if i > 0 {
      ResidentGrows(states, steps, i - 1);
      StepKeepsResident(states[i - 1], steps[i - 1]);
    }
  }

  lemma StepKeepsResident(s: State, step: Step)
    requires Enabled(s, step)
    ensures s.resident <= Next(s, step).resident
  {
    if step.FinishFlush? || step.VacateFlush? {
      hide Next, Enabled;
      FlushEnds(s, step);
    }
  }
}
