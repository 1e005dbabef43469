/** Runs in which a reply that has arrived is thrown away, one for each way it can happen. */
module TagWitness {
  import opened Wrappers
  import opened TagSpace
  import opened TagTable
  import opened TagAccounting
  import opened TagDiscards
  import TagRoundTrip

  ghost predicate RunTo(states: seq<State>, steps: seq<Step>, s: State) {
    Run(states, steps) && states[|steps|] == s
  }

  lemma Extend(states: seq<State>, steps: seq<Step>, s: State, step: Step)
    requires RunTo(states, steps, s) && Enabled(s, step)
    ensures RunTo(states + [Next(s, step)], steps + [step], Next(s, step))
  {
    hide Next, Enabled, Initial;
    var more, with := states + [Next(s, step)], steps + [step];
    forall i | 0 <= i < |with|
      ensures Enabled(more[i], with[i]) && more[i + 1] == Next(more[i], with[i])
    {
      if i < |steps| {
        assert Enabled(states[i], steps[i]) && states[i + 1] == Next(states[i], steps[i]);
      }
    }
  }

  function Start(): State {
    var slots := seq(FIRST_NORMAL_TAG + INITIAL_PENDING_TAGS, _ => VACANT);
    State(Connected, 0, 0, Settled, slots, {}, INITIAL_PENDING_TAGS, 0, 0, 0, [],
          map[0 := Conn({}, [])], None, Idle, None, {}, 0, 0, None, 0, false, {})
  }

  /** Connected on the first connection, no flush under way, and the request on `t` sent whole. */
  ghost predicate Asked(s: State, t: nat) {
    && s.status == Connected && s.epoch == s.active == 0 && Unlocked(s) && s.claim.None? && !s.owed && 0 in s.conns
    && FIRST_NORMAL_TAG <= t < |s.slots| && s.slots[t].state == Sent && s.slots[t].epoch == 0 && s.slots[t].whole
    && (forall f :: 0 <= f < FLUSH_SLOTS ==> s.slots[f].state == Vacant)
  }

  lemma AskedHappens() returns (states: seq<State>, steps: seq<Step>, t: nat)
    ensures Run(states, steps)
    ensures var s := states[|steps|];
            && Asked(s, t) && s.link.None? && s.rx == Idle && s.slots[t].cancels.None?
            && Req(s.slots[t].rid, t, None) in s.conns[0].pending && s.conns[0].replies == []
  {
    hide Next, Enabled, Initial, NextFreeResidentTag, Start, LayoutInv;
    var s := Start();
    StartsInitial();
    Opens(s);
    t := TagRoundTrip.NextTag(s);
    steps := TagRoundTrip.Asking(s, Charge(0, false), false);
    states := TagRoundTrip.RunGoesOn([s], [], steps, TagRoundTrip.Asked(s, Charge(0, false), false));
    assert [] + steps == steps;
  }

  lemma StartsInitial()
    ensures Initial(Start()) && Run([Start()], [])
  {
    hide Next, Enabled;
  }

  /** A session just connected is at rest and admits a request. */
  lemma Opens(s: State)
    requires Initial(s)
    ensures LayoutInv(s) && TagRoundTrip.AtRest(s) && TagRoundTrip.Admits(s, Charge(0, false)) && s.epoch == 0
    ensures FIRST_NORMAL_TAG <= |s.slots| && (forall f :: 0 <= f < FLUSH_SLOTS ==> s.slots[f].state == Vacant)
  {
    SearchIsExact(s.resident, s.cursor, s.busy);
    hide NextFreeResidentTag;
    assert 0 !in s.busy;
  }

  /** The reply to the request on `t` has been read and not yet checked. */
  ghost predicate InHand(s: State, t: nat) {
    Asked(s, t) && s.rx == Hand(0, Req(s.slots[t].rid, t, None))
  }

  lemma InHandHappens() returns (states: seq<State>, steps: seq<Step>, t: nat)
    ensures Run(states, steps) && InHand(states[|steps|], t)
  {
    states, steps, t := AskedHappens();
    var s := states[|steps|];
    var reply := ServerReply(0, Req(s.slots[t].rid, t, None));
    Extend(states, steps, s, reply);
    states, steps, s := states + [Next(s, reply)], steps + [reply], Next(s, reply);
    Extend(states, steps, s, RxBegin);
    states, steps, s := states + [Next(s, RxBegin)], steps + [RxBegin], Next(s, RxBegin);
    Extend(states, steps, s, RxRead);
    states, steps, s := states + [Next(s, RxRead)], steps + [RxRead], Next(s, RxRead);
  }

  /** The reply in hand for `t` is checked against its slot and stored there. */
  lemma Delivering(states: seq<State>, steps: seq<Step>, t: nat) returns (more: seq<State>, with: seq<Step>)
    requires Run(states, steps)
    requires var s := states[|steps|];
             && FIRST_NORMAL_TAG <= t < |s.slots| && s.rx.Hand? && s.rx.req.tag == t && Expected(s, s.rx.e, s.rx.req)
    ensures Run(more, with)
    ensures var s, v := states[|steps|], more[|with|];
            && |v.slots| == |s.slots| && v.slots == s.slots[t := v.slots[t]]
            && v == s.(slots := v.slots, rx := Idle, owed := true)
            && v.slots[t] == s.slots[t].(state := Completed, dest := v.slots[t].dest)
  {
    var s := states[|steps|];
    Extend(states, steps, s, RxCheck);
    more, with := states + [Next(s, RxCheck)], steps + [RxCheck];
    s := Next(s, RxCheck);
    Extend(more, with, s, RxComplete);
    more, with := more + [Next(s, RxComplete)], with + [RxComplete];
  }

  /** A retirement that has begun sweeping comes to its end. */
  lemma {:induction false} Sweeping(states: seq<State>, steps: seq<Step>) returns (more: seq<State>, with: seq<Step>)
    requires Run(states, steps)
    requires var s := states[|steps|]; s.sweep.At? && s.sweep.k < SLOT_SHARDS && s.rx == Idle
    ensures Run(more, with)
    ensures var s, v := states[|steps|], more[|with|];
            && v == s.(slots := v.slots, sweep := Settled) && |v.slots| == |s.slots|
            && (forall u :: 0 <= u < |s.slots| ==> v.slots[u] == s.slots[u] || v.slots[u] == Swept(s.slots[u]))
    decreases SLOT_SHARDS - states[|steps|].sweep.k
  {
    var s := states[|steps|];
    Extend(states, steps, s, SweepShard);
    more, with := states + [Next(s, SweepShard)], steps + [SweepShard];
    if Next(s, SweepShard).sweep.At? {
      more, with := Sweeping(more, with);
    }
  }

  /** The connection is retired behind a stored reply, which the sweep leaves alone. */
  lemma Retiring(states: seq<State>, steps: seq<Step>, t: nat) returns (more: seq<State>, with: seq<Step>)
    requires Run(states, steps)
    requires var s := states[|steps|]; t < |s.slots| && s.slots[t].state == Completed && s.sweep.Bumped? && s.rx == Idle
    ensures Run(more, with)
    ensures var s, v := states[|steps|], more[|with|];
            && v == s.(slots := v.slots, sweep := Settled, active := s.epoch, sent := 0) && |v.slots| == |s.slots|
            && v.slots[t] == s.slots[t]
            && (forall u :: 0 <= u < |s.slots| ==> v.slots[u] == s.slots[u] || v.slots[u] == Swept(s.slots[u]))
  {
    var s := states[|steps|];
    Extend(states, steps, s, PublishEpoch);
    more, with := states + [Next(s, PublishEpoch)], steps + [PublishEpoch];
    more, with := Sweeping(more, with);
  }

  /** The reply arrives, another caller retires the connection, and the owner, on its way to a
      control tag, finds it gone and frees its tag without looking. */
  lemma BandLostDiscardHappens() returns (states: seq<State>, steps: seq<Step>, t: nat)
    ensures Run(states, steps) && |steps| > 0 && steps[|steps| - 1] == ReleaseSlot(t, BandLost)
    ensures Discards(states[|steps| - 1], steps[|steps| - 1], t)
  {
    states, steps, t := InHandHappens();
    states, steps := Delivering(states, steps, t);
    states, steps := Losing(states, steps, t);
    Freeing(states, steps, t, BandLost);
    var s := states[|steps|];
    var last := ReleaseSlot(t, BandLost);
    states, steps := states + [Next(s, last)], steps + [last];
  }

  /** The owner looks in vain, the reply arrives, and the owner retires the connection and frees
      its tag as too late. */
  lemma LateDiscardHappens() returns (states: seq<State>, steps: seq<Step>, t: nat)
    ensures Run(states, steps) && |steps| > 0 && steps[|steps| - 1] == ReleaseSlot(t, Late)
    ensures Discards(states[|steps| - 1], steps[|steps| - 1], t)
  {
    states, steps, t := InHandHappens();
    var s := states[|steps|];
    Extend(states, steps, s, Look(t));
    states, steps := states + [Next(s, Look(t))], steps + [Look(t)];
    states, steps := Delivering(states, steps, t);
    states, steps := Losing(states, steps, t);
    Freeing(states, steps, t, Late);
    s := states[|steps|];
    var last := ReleaseSlot(t, Late);
    states, steps := states + [Next(s, last)], steps + [last];
  }

  /** A caller with no flush of its own retires the connection. */
  lemma Losing(states: seq<State>, steps: seq<Step>, t: nat) returns (more: seq<State>, with: seq<Step>)
    requires Run(states, steps)
    requires var s := states[|steps|];
             t < |s.slots| && s.slots[t].state == Completed && s.rx == Idle && Unlocked(s) && s.status.Connected?
    ensures Run(more, with)
    ensures var s, v := states[|steps|], more[|with|];
            && |v.slots| == |s.slots| && v.slots[t] == s.slots[t]
            && v.epoch == s.epoch + 1 && Unlocked(v) && v.rx == Idle
            && (forall u :: 0 <= u < |s.slots| && s.slots[u].state == Vacant ==> v.slots[u].state == Vacant)
  {
    var s := states[|steps|];
    var retire := Retire(false, None);
    Extend(states, steps, s, retire);
    more, with := states + [Next(s, retire)], steps + [retire];
    more, with := Retiring(more, with, t);
  }

  lemma Freeing(states: seq<State>, steps: seq<Step>, t: nat, cause: Cause)
    requires Run(states, steps) && (cause == BandLost || cause == Late)
    requires var s := states[|steps|];
             && FIRST_NORMAL_TAG <= t < |s.slots| && s.slots[t].state == Completed && s.slots[t].epoch < s.epoch
             && Unlocked(s) && s.rx == Idle && (cause == Late ==> s.slots[t].looked)
             && (forall f :: 0 <= f < FLUSH_SLOTS ==> s.slots[f].state == Vacant)
    ensures var s, step := states[|steps|], ReleaseSlot(t, cause);
            Enabled(s, step) && Discards(s, step, t) && Run(states + [Next(s, step)], steps + [step])
  {
    Extend(states, steps, states[|steps|], ReleaseSlot(t, cause));
  }

  /** The owner of a flush looks at its request while the receiver has the answer in hand,
      retires the connection, and frees the reply the receiver has stored meanwhile. */
  lemma FlushDiscardHappens() returns (states: seq<State>, steps: seq<Step>, t: nat)
    ensures Run(states, steps) && |steps| > 0 && steps[|steps| - 1].VacateFlush?
    ensures Discards(states[|steps| - 1], steps[|steps| - 1], t)
  {
    states, steps, t := Abandoning();
    states, steps := Delivering(states, steps, t);
    states, steps := Retiring(states, steps, t);
    AbandonedReply(states[|steps|], t);
    hide Next, Enabled;
    var s := states[|steps|];
    var last := VacateFlush(0);
    Extend(states, steps, s, last);
    states, steps := states + [Next(s, last)], steps + [last];
  }

  lemma AbandonedReply(s: State, t: nat)
    requires FIRST_NORMAL_TAG <= t < |s.slots| && s.slots[t].state == Completed && s.slots[t].epoch < s.epoch
    requires s.slots[0].state != Vacant && s.slots[0].cancels == Some(t)
    requires s.sweep == Settled && s.rx == Idle && s.holder == Some(Note(Owner(Some(0), t), false))
    ensures Enabled(s, VacateFlush(0)) && Discards(s, VacateFlush(0), t)
  {
  }

  lemma Abandoning() returns (states: seq<State>, steps: seq<Step>, t: nat)
    ensures Run(states, steps)
    ensures var s := states[|steps|];
            && s.epoch == 1 && s.active == 0 && s.sweep.Bumped? && s.holder == Some(Note(Owner(Some(0), t), false))
            && FIRST_NORMAL_TAG <= t < |s.slots| && s.slots[t].state == Sent && s.slots[t].epoch == 0
            && s.slots[0].state == Reserved && s.slots[0].cancels == Some(t)
            && s.rx == Hand(0, Req(s.slots[t].rid, t, None))
  {
    states, steps, t := InHandHappens();
    var s := states[|steps|];
    var flush := ReserveFlush(0, t, 0);
    Extend(states, steps, s, flush);
    states, steps, s := states + [Next(s, flush)], steps + [flush], Next(s, flush);
    var retire := Retire(false, Some(Owner(Some(0), t)));
    Extend(states, steps, s, retire);
    states, steps := states + [Next(s, retire)], steps + [retire];
  }

  /** A caller without a control tag has given up, with its answer in the receiver's hand. */
  lemma Forsaking() returns (states: seq<State>, steps: seq<Step>, t: nat)
    ensures Run(states, steps)
    ensures var s := states[|steps|];
            && s.epoch == 1 && s.active == 0 && s.sweep.Bumped? && s.holder == Some(Note(Owner(None, t), false))
            && FIRST_NORMAL_TAG <= t < |s.slots| && s.slots[t].state == Sent && s.slots[t].epoch == 0
            && (forall f :: 0 <= f < FLUSH_SLOTS ==> s.slots[f].state == Vacant)
            && s.rx == Hand(0, Req(s.slots[t].rid, t, None))
  {
    states, steps, t := InHandHappens();
    var s := states[|steps|];
    var retire := Retire(false, Some(Owner(None, t)));
    Extend(states, steps, s, retire);
    states, steps := states + [Next(s, retire)], steps + [retire];
  }

  lemma ForsakenReply(s: State, t: nat)
    requires FIRST_NORMAL_TAG <= t < |s.slots| && s.slots[t].state == Completed && s.slots[t].epoch < s.epoch
    requires forall f :: 0 <= f < FLUSH_SLOTS ==> s.slots[f].state == Vacant
    requires s.sweep == Settled && s.rx == Idle && s.holder == Some(Note(Owner(None, t), false))
    ensures Enabled(s, VacateOriginal(t)) && Discards(s, VacateOriginal(t), t)
  {
  }

  /** The same race for a caller that gives up before it has a control tag. */
  lemma OriginalDiscardHappens() returns (states: seq<State>, steps: seq<Step>, t: nat)
    ensures Run(states, steps) && |steps| > 0 && steps[|steps| - 1] == VacateOriginal(t)
    ensures Discards(states[|steps| - 1], steps[|steps| - 1], t)
  {
    states, steps, t := Forsaking();
    states, steps := Delivering(states, steps, t);
    states, steps := Retiring(states, steps, t);
    ForsakenReply(states[|steps|], t);
    hide Next, Enabled;
    var s := states[|steps|];
    var last := VacateOriginal(t);
    Extend(states, steps, s, last);
    states, steps := states + [Next(s, last)], steps + [last];
  }
}
