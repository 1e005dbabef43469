/** What a session at rest can do, and that it then is at rest again: a request answered, a request
    cancelled, and a connection replaced. */
module TagRoundTrip {
  import opened Wrappers
  import opened TagSpace
  import opened TagTable
  import opened TagAccounting

  /** The steps can be taken one after another from `s`, and lead to `v`. */
  ghost predicate Leads(s: State, steps: seq<Step>, v: State)
    decreases |steps|
  {
    if steps == [] then v == s else Enabled(s, steps[0]) && Leads(Next(s, steps[0]), steps[1..], v)
  }

  lemma {:induction false} Then(s: State, steps: seq<Step>, u: State, step: Step)
    requires Leads(s, steps, u) && Enabled(u, step)
    ensures Leads(s, steps + [step], Next(u, step))
    decreases |steps|
  {
    hide Next, Enabled;
    if steps == [] {
      assert [step][1..] == [];
    } else {
      Then(Next(s, steps[0]), steps[1..], u, step);
      assert (steps + [step])[1..] == steps[1..] + [step];
    }
  }

  lemma Two(s: State, p: Step, q: Step)
    requires Enabled(s, p) && Enabled(Next(s, p), q)
    ensures Leads(s, [p, q], Next(Next(s, p), q))
  {
    hide Next, Enabled;
    assert [p, q][1..] == [q] && [q][1..] == [];
    assert Leads(Next(Next(s, p), q), [], Next(Next(s, p), q));
    assert Leads(Next(s, p), [q], Next(Next(s, p), q));
  }

  /** What a reachable state leads to is reachable. */
  lemma {:induction false} RunGoesOn(states: seq<State>, steps: seq<Step>, more: seq<Step>, v: State)
    returns (longer: seq<State>)
    requires Run(states, steps) && Leads(states[|steps|], more, v)
    ensures Run(longer, steps + more) && longer[|steps + more|] == v && states <= longer
    decreases |more|
  {
    hide Next, Enabled, Initial;
    if more == [] {
      assert steps + more == steps;
      longer := states;
    } else {
      var s := states[|steps|];
      var one := states + [Next(s, more[0])];
      forall i | 0 <= i < |steps| + 1
        ensures Enabled(one[i], (steps + [more[0]])[i]) && one[i + 1] == Next(one[i], (steps + [more[0]])[i])
      {
        if i < |steps| {
          assert Enabled(states[i], steps[i]) && states[i + 1] == Next(states[i], steps[i]);
        }
      }
      longer := RunGoesOn(one, steps + [more[0]], more[1..], v);
      assert steps + [more[0]] + more[1..] == steps + more;
    }
  }

  /** Connected, nobody in a critical section, the receiver between frames with none to read. */
  predicate AtRest(s: State) {
    && s.status.Connected? && Unlocked(s) && ReceiveFree(s) && s.link.None? && !FlushReplyPending(s)
    && s.epoch == s.active && s.epoch in s.conns && s.conns[s.epoch].replies == []
    && !(s.rx.Hold?)
  }

  /** A request with this charge would be admitted and find a tag. */
  predicate Admits(s: State, charge: Charge) {
    charge.credit <= s.limit && (charge.emergency || s.used + charge.credit <= s.limit) && FreeIndex(s).Some?
  }

  function NextTag(s: State): nat
    requires FreeIndex(s).Some?
  {
    FreeIndex(s).value + FIRST_NORMAL_TAG
  }

  /** Only the slot `t` and history differ, and `t` is idle. */
  predicate Restored(s: State, v: State, t: nat) {
    && v.status == s.status && v.epoch == s.epoch && v.active == s.active && v.sweep == s.sweep
    && |v.slots| == |s.slots| && (forall u :: 0 <= u < |s.slots| && u != t ==> v.slots[u] == s.slots[u])
    && t < |v.slots| && v.slots[t].state == Vacant && v.slots[t].dest.None? && v.slots[t].charge.credit == 0
    && v.busy == s.busy && v.resident == s.resident && v.used == s.used && v.limit == s.limit && v.carried == s.carried
    && v.conns == s.conns && v.rx == s.rx && v.claim == s.claim && v.holder == s.holder && v.sent == s.sent
    && v.owed == s.owed && v.lent == s.lent - {t}
  }

  // ------------------------------------------------------------------ a request answered

  function AskedSlot(s: State, charge: Charge, register: bool): Slot {
    Slot(Sent, charge, if register then Some(Destination(s.nextIter, false, false)) else None, s.nextRid, s.epoch, None,
         true, false)
  }

  /** After a reservation and its send. */
  function Asked(s: State, charge: Charge, register: bool): State
    requires FreeIndex(s).Some? && NextTag(s) < |s.slots| && s.epoch in s.conns
  {
    var t := NextTag(s);
    var conn := s.conns[s.epoch];
    s.(slots := s.slots[t := AskedSlot(s, charge, register)], busy := s.busy + {t - FIRST_NORMAL_TAG},
       used := s.used + charge.credit, cursor := NextNormalIndex(t - FIRST_NORMAL_TAG, s.resident),
       nextRid := s.nextRid + 1, nextIter := if register then s.nextIter + 1 else s.nextIter,
       conns := s.conns[s.epoch := conn.(pending := conn.pending + {Req(s.nextRid, t, None)})], sent := s.sent + 1)
  }

  lemma Asking(s: State, charge: Charge, register: bool) returns (steps: seq<Step>)
    requires LayoutInv(s) && AtRest(s) && Admits(s, charge)
    ensures NextTag(s) < |s.slots| && s.slots[NextTag(s)].state == Vacant && s.slots[NextTag(s)].dest.None?
    ensures NextTag(s) - FIRST_NORMAL_TAG !in s.busy
    ensures Leads(s, steps, Asked(s, charge, register)) && |steps| == 2
  {
    var ask := Reserve(charge, register);
    ReserveKeepsLayout(s, charge, register);
    SearchIsExact(s.resident, s.cursor, s.busy);
    var u := Next(s, ask);
    Then(s, [], s, ask);
    SendsNext(s, u, charge, register);
    Then(s, [ask], u, Send(NextTag(s), true));
    steps := [ask, Send(NextTag(s), true)];
    assert [] + [ask] == [ask] && [ask] + [Send(NextTag(s), true)] == steps;
  }

  lemma SendsNext(s: State, u: State, charge: Charge, register: bool)
    requires LayoutInv(s) && AtRest(s) && Admits(s, charge) && Enabled(s, Reserve(charge, register))
    requires u == Next(s, Reserve(charge, register)) && NextTag(s) < |s.slots|
    requires s.slots[NextTag(s)].state == Vacant && s.slots[NextTag(s)].dest.None?
    ensures Enabled(u, Send(NextTag(s), true)) && Next(u, Send(NextTag(s), true)) == Asked(s, charge, register)
  {
    var t := NextTag(s);
    assert u.slots[t] == Slot(Reserved, charge, AskedSlot(s, charge, register).dest, s.nextRid, 0, None, false, false);
    assert Next(u, Send(t, true)).slots == Asked(s, charge, register).slots;
  }

  /** The answer to the one request on the wire arrives, is put into its slot, and is counted. */
  function Replied(s: State, t: nat): State
    requires t < |s.slots| && s.epoch in s.conns
  {
    var slot := s.slots[t];
    var dest := if slot.dest.Some? then Some(slot.dest.value.(delivered := true)) else None;
    var conn := s.conns[s.epoch];
    s.(slots := s.slots[t := slot.(state := Completed, dest := dest)], link := Some(s.epoch), sent := Monus(s.sent, 1),
       conns := s.conns[s.epoch := conn.(pending := conn.pending - {Req(slot.rid, t, None)})])
  }

  /** An ordinary request is sent and on the wire, its destination registered and untouched. */
  predicate Outstanding(s: State, t: nat) {
    && AtRest(s) && !IsFlushTag(t) && t < |s.slots| && s.slots[t].state == Sent && s.slots[t].cancels.None?
    && Req(s.slots[t].rid, t, None) in s.conns[s.epoch].pending
    && s.slots[t].dest.Some? && !s.slots[t].dest.value.inUse && !s.slots[t].dest.value.delivered
  }

  /** The reply has been read into the receiver's hand. */
  function Read(s: State, t: nat): State
    requires t < |s.slots| && s.epoch in s.conns
  {
    var req := Req(s.slots[t].rid, t, None);
    s.(link := Some(s.epoch), rx := Hand(s.epoch, req),
       conns := s.conns[s.epoch := s.conns[s.epoch].(pending := s.conns[s.epoch].pending - {req})])
  }

  lemma Reading(s: State, t: nat) returns (steps: seq<Step>)
    requires Outstanding(s, t)
    ensures Leads(s, steps, Read(s, t)) && |steps| == 3
  {
    var reply := ServerReply(s.epoch, Req(s.slots[t].rid, t, None));
    var a := Next(s, reply);
    var b := Next(a, RxBegin);
    var req := Req(s.slots[t].rid, t, None);
    assert [] + [req] == [req] && [req][1..] == [];
    assert b.conns[s.epoch] == Conn(s.conns[s.epoch].pending - {req}, [req]);
    assert Next(b, RxRead).conns == Read(s, t).conns;
    Then(s, [], s, reply);
    Then(s, [reply], a, RxBegin);
    Then(s, [reply, RxBegin], b, RxRead);
    steps := [reply, RxBegin, RxRead];
    assert [] + [reply] == [reply] && [reply] + [RxBegin] == [reply, RxBegin] && [reply, RxBegin] + [RxRead] == steps;
  }

  /** The frame in hand is claimed for, checked and stored. */
  function StoredFrame(s: State, t: nat): State
    requires t < |s.slots| && s.slots[t].dest.Some?
  {
    var dest := s.slots[t].dest.value;
    s.(slots := s.slots[t := s.slots[t].(state := Completed, dest := Some(dest.(inUse := true, delivered := true)))],
       rx := Idle, claim := Some((t, dest.iter)), owed := true)
  }

  lemma Storing(s: State, t: nat)
    requires s.rx.Hand? && s.rx.req.tag == t && !IsFlushTag(t) && Expected(s, s.rx.e, s.rx.req) && s.claim.None?
    requires s.slots[t].dest.Some? && !s.slots[t].dest.value.inUse && !s.slots[t].dest.value.delivered
    ensures Leads(s, [RxClaim, RxCheck, RxComplete], StoredFrame(s, t))
  {
    var a := Next(s, RxClaim);
    var b := Next(a, RxCheck);
    var c := Next(b, RxComplete);
    assert c.slots == StoredFrame(s, t).slots;
    Then(s, [], s, RxClaim);
    Then(s, [RxClaim], a, RxCheck);
    Then(s, [RxClaim, RxCheck], b, RxComplete);
    assert [] + [RxClaim] == [RxClaim] && [RxClaim] + [RxCheck] == [RxClaim, RxCheck]
           && [RxClaim, RxCheck] + [RxComplete] == [RxClaim, RxCheck, RxComplete];
  }

  lemma Counting(s: State, t: nat)
    requires s.owed && s.rx == Idle && t < |s.slots| && s.slots[t].dest.Some?
    requires s.claim == Some((t, s.slots[t].dest.value.iter))
    ensures Leads(s, [RxCount, RxUnclaim],
                  s.(slots := s.slots[t := s.slots[t].(dest := Some(s.slots[t].dest.value.(inUse := false)))],
                     claim := None, owed := false, sent := Monus(s.sent, 1)))
  {
    Two(s, RxCount, RxUnclaim);
    hide Leads;
  }

  lemma {:induction false} Join(s: State, first: seq<Step>, u: State, second: seq<Step>, v: State)
    requires Leads(s, first, u) && Leads(u, second, v)
    ensures Leads(s, first + second, v)
    decreases |first|
  {
    hide Next, Enabled;
    if first == [] {
      assert first + second == second;
    } else {
      Join(Next(s, first[0]), first[1..], u, second, v);
      assert (first + second)[1..] == first[1..] + second;
    }
  }

  lemma Answering(s: State, t: nat) returns (steps: seq<Step>)
    requires Outstanding(s, t)
    ensures Leads(s, steps, Replied(s, t)) && |steps| == 8
  {
    hide Leads, Next, Enabled;
    var first := Reading(s, t);
    var u := Read(s, t);
    Storing(u, t);
    var w := StoredFrame(u, t);
    Join(s, first, u, [RxClaim, RxCheck, RxComplete], w);
    Counting(w, t);
    var v := w.(slots := w.slots[t := w.slots[t].(dest := Some(w.slots[t].dest.value.(inUse := false)))],
                claim := None, owed := false, sent := Monus(w.sent, 1));
    Join(s, first + [RxClaim, RxCheck, RxComplete], w, [RxCount, RxUnclaim], v);
    steps := first + [RxClaim, RxCheck, RxComplete] + [RxCount, RxUnclaim];
    assert v.slots == Replied(s, t).slots;
  }

  /** The owner takes the reply and drops its destination ... */
  function Taken(s: State, t: nat): State
    requires t < |s.slots| && s.slots[t].dest.Some?
  {
    s.(slots := s.slots[t := Vacated(s.slots[t]).(dest := None)], carried := s.carried + [s.slots[t].charge],
       dropped := s.dropped + {s.slots[t].dest.value.iter}, lent := s.lent + {t})
  }

  lemma Taking(s: State, t: nat)
    requires Unlocked(s) && !IsFlushTag(t) && t < |s.slots| && s.slots[t].state == Completed && !Cancelling(s, t)
    requires s.rx == Idle && s.slots[t].dest.Some? && !s.slots[t].dest.value.inUse
    ensures Leads(s, [TakeReply(t), DropDestination(t)], Taken(s, t))
  {
    var a := Next(s, TakeReply(t));
    var b := Next(a, DropDestination(t));
    assert b.slots == Taken(s, t).slots;
    assert b.lent == Taken(s, t).lent;
    Then(s, [], s, TakeReply(t));
    Then(s, [TakeReply(t)], a, DropDestination(t));
    assert [] + [TakeReply(t)] == [TakeReply(t)];
    assert [TakeReply(t)] + [DropDestination(t)] == [TakeReply(t), DropDestination(t)];
  }

  /** ... then releases the tag and gives back the last credit carried away. */
  function Released(s: State, t: nat): State
    requires !IsFlushTag(t) && s.carried != []
  {
    var n := |s.carried| - 1;
    s.(busy := s.busy - {t - FIRST_NORMAL_TAG}, carried := s.carried[..n], used := Monus(s.used, s.carried[n].credit),
       lent := s.lent - {t})
  }

  lemma ReleasesIdle(s: State, t: nat)
    requires Unlocked(s) && !IsFlushTag(t) && t < |s.slots| && s.rx == Idle
    requires s.slots[t].state == Vacant && s.slots[t].dest.None?
    ensures Enabled(s, ReleaseIdle(t))
    ensures Next(s, ReleaseIdle(t)) == s.(busy := s.busy - {t - FIRST_NORMAL_TAG}, lent := s.lent - {t})
  {
  }

  lemma ReleasesLast(s: State)
    requires Unlocked(s) && s.carried != []
    ensures var n := |s.carried| - 1;
            && Enabled(s, ReleaseCarried(n))
            && Next(s, ReleaseCarried(n)) == s.(carried := s.carried[..n], used := Monus(s.used, s.carried[n].credit))
  {
    assert s.carried[..|s.carried| - 1] + s.carried[|s.carried|..] == s.carried[..|s.carried| - 1];
  }

  lemma Releasing(s: State, t: nat)
    requires Unlocked(s) && !IsFlushTag(t) && t < |s.slots| && s.rx == Idle && s.carried != []
    requires s.slots[t].state == Vacant && s.slots[t].dest.None?
    ensures Leads(s, [ReleaseIdle(t), ReleaseCarried(|s.carried| - 1)], Released(s, t))
  {
    hide Next, Enabled;
    var give := ReleaseCarried(|s.carried| - 1);
    ReleasesIdle(s, t);
    var a := Next(s, ReleaseIdle(t));
    ReleasesLast(a);
    Then(s, [], s, ReleaseIdle(t));
    Then(s, [ReleaseIdle(t)], a, give);
    assert [] + [ReleaseIdle(t)] == [ReleaseIdle(t)] && [ReleaseIdle(t)] + [give] == [ReleaseIdle(t), give];
  }

  /** From any state at rest that admits it, a request with a read destination can be reserved, sent,
      answered into its destination, taken and released in fourteen steps, and then tags, credit,
      counts, connection and every other slot are as they were. */
  lemma AnsweredRequestRestores(s: State, charge: Charge) returns (steps: seq<Step>, v: State)
    requires LayoutInv(s) && AtRest(s) && Admits(s, charge)
    requires Req(s.nextRid, NextTag(s), None) !in s.conns[s.epoch].pending && !Cancelling(s, NextTag(s))
    ensures Leads(s, steps, v) && |steps| == 14 && Restored(s, v, NextTag(s))
  {
    hide Leads, Next, Enabled;
    var t := NextTag(s);
    var first := Asking(s, charge, true);
    var u := Asked(s, charge, true);
    StillAtRest(s, charge);
    var second := Answering(u, t);
    var w := Replied(u, t);
    Join(s, first, u, second, w);
    StillUncancelled(s, w, t);
    Taking(w, t);
    var x := Taken(w, t);
    Join(s, first + second, w, [TakeReply(t), DropDestination(t)], x);
    Releasing(x, t);
    v := Released(x, t);
    var last := [ReleaseIdle(t), ReleaseCarried(|x.carried| - 1)];
    Join(s, first + second + [TakeReply(t), DropDestination(t)], x, last, v);
    steps := first + second + [TakeReply(t), DropDestination(t)] + last;
    assert x.carried[..|s.carried|] == s.carried;
    var conn := s.conns[s.epoch];
    assert conn.pending + {Req(s.nextRid, t, None)} - {Req(s.nextRid, t, None)} == conn.pending;
    assert v.conns == s.conns;
    assert s.busy + {t - FIRST_NORMAL_TAG} - {t - FIRST_NORMAL_TAG} == s.busy;
  }

  lemma StillAtRest(s: State, charge: Charge)
    requires LayoutInv(s) && AtRest(s) && Admits(s, charge) && NextTag(s) < |s.slots|
    ensures Outstanding(Asked(s, charge, true), NextTag(s))
  {
    var u := Asked(s, charge, true);
    assert FIRST_NORMAL_TAG <= NextTag(s);
    assert forall f :: 0 <= f < FLUSH_SLOTS && f < |s.slots| ==> u.slots[f] == s.slots[f];
    assert !FlushReplyPending(u);
  }

  lemma StillUncancelled(s: State, w: State, t: nat)
    requires !Cancelling(s, t) && FIRST_NORMAL_TAG <= t && |w.slots| == |s.slots|
    requires forall u :: 0 <= u < |s.slots| && u != t ==> w.slots[u] == s.slots[u]
    ensures !Cancelling(w, t)
  {
  }

  // ------------------------------------------------------------------ a request cancelled

  /** A sent ordinary request without a destination, alone on its tag, and a free control tag. */
  predicate Cancellable(s: State, t: nat, f: nat) {
    && AtRest(s) && IsFlushTag(f) && !IsFlushTag(t) && t < |s.slots| && f < |s.slots|
    && s.slots[f].state == Vacant && !Cancelling(s, t)
    && s.slots[t].state == Sent && s.slots[t].epoch == s.epoch && s.slots[t].cancels.None? && s.slots[t].dest.None?
    && s.slots[t].rid < s.nextRid && s.sent > 0
    && Req(s.slots[t].rid, t, None) in s.conns[s.epoch].pending
    && (forall p :: p in s.conns[s.epoch].pending && p.tag == t ==> p == Req(s.slots[t].rid, t, None))
    && (forall p :: p in s.conns[s.epoch].pending ==> p.rid < s.nextRid)
  }

  function FlushReq(s: State, t: nat, f: nat): Req {
    Req(s.nextRid, f, Some(t))
  }

  /** After the control tag was reserved and its Tflush sent. */
  function Flushing(s: State, t: nat, f: nat, credit: nat): State
    requires f < |s.slots| && s.epoch in s.conns
  {
    var slot := Slot(Sent, Charge(credit, true), s.slots[f].dest, s.nextRid, s.epoch, Some(t), true, false);
    var conn := s.conns[s.epoch];
    s.(slots := s.slots[f := slot], used := s.used + credit, nextRid := s.nextRid + 1,
       conns := s.conns[s.epoch := conn.(pending := conn.pending + {FlushReq(s, t, f)})], sent := s.sent + 1)
  }

  lemma ReservesFlush(s: State, t: nat, f: nat, credit: nat)
    requires Cancellable(s, t, f)
    ensures Enabled(s, ReserveFlush(f, t, credit))
    ensures var slot := Slot(Reserved, Charge(credit, true), s.slots[f].dest, s.nextRid, 0, Some(t), false, false);
            Next(s, ReserveFlush(f, t, credit)) ==
            s.(slots := s.slots[f := slot], used := s.used + credit, nextRid := s.nextRid + 1)
  {
  }

  lemma SendsWhole(s: State, f: nat)
    requires AtRest(s) && f < |s.slots| && s.slots[f].state == Reserved
    ensures Enabled(s, Send(f, true))
    ensures var conn := s.conns[s.epoch];
            Next(s, Send(f, true)) ==
            s.(slots := s.slots[f := s.slots[f].(state := Sent, epoch := s.epoch, whole := true)], sent := s.sent + 1,
               conns := s.conns[s.epoch :=
                 conn.(pending := conn.pending + {Req(s.slots[f].rid, f, s.slots[f].cancels)})])
  {
  }

  lemma SendsFlush(s: State, t: nat, f: nat, credit: nat)
    requires Cancellable(s, t, f)
    ensures Leads(s, [ReserveFlush(f, t, credit), Send(f, true)], Flushing(s, t, f, credit))
  {
    hide Next, Enabled, Leads;
    ReservesFlush(s, t, f, credit);
    var a := Next(s, ReserveFlush(f, t, credit));
    assert forall g :: 0 <= g < FLUSH_SLOTS && g < |s.slots| && g != f ==> a.slots[g] == s.slots[g];
    SendsWhole(a, f);
    Two(s, ReserveFlush(f, t, credit), Send(f, true));
    assert Next(a, Send(f, true)).slots == Flushing(s, t, f, credit).slots;
  }

  /** The server discards the request and answers the flush, and the receiver reads that. */
  function FlushRead(s: State, t: nat, f: nat): State
    requires f < |s.slots| && s.epoch in s.conns && t < |s.slots|
  {
    var conn := s.conns[s.epoch];
    var flush := Req(s.slots[f].rid, f, Some(t));
    s.(link := Some(s.epoch), rx := Hand(s.epoch, flush),
       conns := s.conns[s.epoch := conn.(pending := conn.pending - {flush, Req(s.slots[t].rid, t, None)})])
  }

  /** A Tflush for `t` is on the wire under `f`, and `t` is answered by nothing else. */
  predicate FlushSent(s: State, t: nat, f: nat) {
    && AtRest(s) && IsFlushTag(f) && !IsFlushTag(t) && t < |s.slots| && f < |s.slots|
    && s.slots[t].rid < s.slots[f].rid
    && Req(s.slots[f].rid, f, Some(t)) in s.conns[s.epoch].pending
    && (forall p :: p in s.conns[s.epoch].pending && p.tag == t ==> p == Req(s.slots[t].rid, t, None))
  }

  lemma FlushReading(s: State, t: nat, f: nat) returns (steps: seq<Step>)
    requires FlushSent(s, t, f)
    ensures Leads(s, steps, FlushRead(s, t, f)) && |steps| == 3
  {
    var flush := Req(s.slots[f].rid, f, Some(t));
    var answer := ServerFlush(s.epoch, flush);
    var a := Next(s, answer);
    var b := Next(a, RxBegin);
    assert [] + [flush] == [flush] && [flush][1..] == [];
    FlushLeaves(s.conns[s.epoch], flush, s.slots[t].rid, t);
    assert Next(b, RxRead).conns == FlushRead(s, t, f).conns;
    Then(s, [], s, answer);
    Then(s, [answer], a, RxBegin);
    Then(s, [answer, RxBegin], b, RxRead);
    steps := [answer, RxBegin, RxRead];
    assert [] + [answer] == [answer] && [answer] + [RxBegin] == [answer, RxBegin];
    assert [answer, RxBegin] + [RxRead] == steps;
  }

  lemma FlushLeaves(conn: Conn, flush: Req, rid: nat, t: nat)
    requires flush in conn.pending && flush.cancels == Some(t) && rid < flush.rid && conn.replies == []
    requires forall p :: p in conn.pending && p.tag == t ==> p == Req(rid, t, None)
    ensures FlushAnswered(conn, flush) == Conn(conn.pending - {flush, Req(rid, t, None)}, [flush])
  {
    assert FlushAnswered(conn, flush).pending == conn.pending - {flush, Req(rid, t, None)};
  }

  /** The Rflush is stored and counted, and its owner finishes: both tags are free again. */
  lemma FlushEnding(s: State, t: nat, f: nat) returns (v: State)
    requires IsFlushTag(f) && !IsFlushTag(t) && f < |s.slots| && t < |s.slots|
    requires Unlocked(s) && s.claim.None? && !s.owed
    requires s.rx == Hand(s.active, Req(s.slots[f].rid, f, Some(t))) && s.slots[f].state == Sent
    requires s.slots[f].cancels == Some(t) && s.slots[t].state == Sent && s.slots[t].dest.None? && s.sent > 1
    ensures Leads(s, [RxCheck, RxComplete, RxCount, TakeFlush(f), FinishFlush(f)], v)
    ensures v == VacateTag(VacateTag(s, f), t).(rx := Idle, link := None, sent := s.sent - 2)
  {
    hide Leads;
    FlushStored(s, f);
    var slot := s.slots[f].(state := Consuming);
    var u := WithSlot(s, f, slot).(rx := Idle, link := None, sent := s.sent - 1);
    FlushFinished(u, t, f);
    v := Next(u, FinishFlush(f));
    Then(s, [RxCheck, RxComplete, RxCount, TakeFlush(f)], u, FinishFlush(f));
    assert [RxCheck, RxComplete, RxCount, TakeFlush(f)] + [FinishFlush(f)] ==
           [RxCheck, RxComplete, RxCount, TakeFlush(f), FinishFlush(f)];
    VacatesAlike(s, u, t, f);
  }

  lemma FlushStored(s: State, f: nat)
    requires IsFlushTag(f) && f < |s.slots| && Unlocked(s) && s.claim.None? && !s.owed && s.sent > 1
    requires s.rx.Hand? && s.rx.e == s.active && s.rx.req.tag == f && s.slots[f].state == Sent
    ensures Leads(s, [RxCheck, RxComplete, RxCount, TakeFlush(f)],
                  WithSlot(s, f, s.slots[f].(state := Consuming)).(rx := Idle, link := None, sent := s.sent - 1))
  {
    hide Leads;
    FlushCompleted(s, f);
    var b := WithSlot(s, f, s.slots[f].(state := Completed)).(rx := Idle, link := None, owed := true);
    FlushTaken(b, f);
    Join(s, [RxCheck, RxComplete], b, [RxCount, TakeFlush(f)],
         WithSlot(b, f, b.slots[f].(state := Consuming)).(owed := false, sent := b.sent - 1));
    assert [RxCheck, RxComplete] + [RxCount, TakeFlush(f)] == [RxCheck, RxComplete, RxCount, TakeFlush(f)];
    assert b.slots[f := b.slots[f].(state := Consuming)] == s.slots[f := s.slots[f].(state := Consuming)];
  }

  lemma FlushCompleted(s: State, f: nat)
    requires IsFlushTag(f) && f < |s.slots| && s.claim.None?
    requires s.rx.Hand? && s.rx.e == s.active && s.rx.req.tag == f && s.slots[f].state == Sent
    ensures Leads(s, [RxCheck, RxComplete],
                  WithSlot(s, f, s.slots[f].(state := Completed)).(rx := Idle, link := None, owed := true))
  {
    Two(s, RxCheck, RxComplete);
    hide Leads;
  }

  lemma FlushTaken(s: State, f: nat)
    requires IsFlushTag(f) && f < |s.slots| && Unlocked(s) && s.owed && s.rx == Idle && s.slots[f].state == Completed
    requires s.sent > 0
    ensures Leads(s, [RxCount, TakeFlush(f)],
                  WithSlot(s, f, s.slots[f].(state := Consuming)).(owed := false, sent := s.sent - 1))
  {
    Two(s, RxCount, TakeFlush(f));
    hide Leads;
  }

  lemma FlushFinished(s: State, t: nat, f: nat)
    requires IsFlushTag(f) && !IsFlushTag(t) && f < |s.slots| && t < |s.slots|
    requires Unlocked(s) && s.rx == Idle && s.sent > 0
    requires s.slots[f].state == Consuming && s.slots[f].cancels == Some(t) && s.slots[t].state == Sent
    ensures Enabled(s, FinishFlush(f))
    ensures Next(s, FinishFlush(f)) == VacateTag(VacateTag(s, f), t).(sent := s.sent - 1)
  {
  }

  lemma VacatesAlike(s: State, u: State, t: nat, f: nat)
    requires IsFlushTag(f) && !IsFlushTag(t) && f < |s.slots| && t < |s.slots| && s.sent > 1
    requires u == WithSlot(s, f, s.slots[f].(state := Consuming)).(rx := Idle, link := None, sent := s.sent - 1)
    ensures VacateTag(VacateTag(u, f), t).(sent := u.sent - 1) ==
            VacateTag(VacateTag(s, f), t).(rx := Idle, link := None, sent := s.sent - 2)
  {
    assert VacateTag(u, f).slots == VacateTag(s, f).slots;
  }

  /** What is left of a session whose request was cancelled: both slots idle, all else as it was. */
  predicate BothFree(s: State, v: State, t: nat, f: nat) {
    && v.status == s.status && v.epoch == s.epoch && v.active == s.active && v.sweep == s.sweep
    && |v.slots| == |s.slots| && (forall u :: 0 <= u < |s.slots| && u != t && u != f ==> v.slots[u] == s.slots[u])
    && t < |v.slots| && v.slots[t].state == Vacant && v.slots[t].dest.None? && v.slots[t].charge.credit == 0
    && f < |v.slots| && v.slots[f].state == Vacant && v.slots[f].charge.credit == 0
    && v.busy == s.busy && v.resident == s.resident && v.used == s.used && v.carried == s.carried
    && v.conns == s.conns && v.rx == s.rx && v.link == s.link && v.sent == s.sent && v.owed == s.owed
    && v.lent == s.lent
  }

  /** From any state at rest that admits it, a request can be sent, cancelled by a Tflush and settled
      by its Rflush in twelve steps, and then both tags, credit, counts and connection are as before. */
  lemma CancelledRequestRestores(s: State, charge: Charge, f: nat, credit: nat) returns (steps: seq<Step>, v: State)
    requires LayoutInv(s) && AtRest(s) && Admits(s, charge) && !Cancelling(s, NextTag(s))
    requires IsFlushTag(f) && f < |s.slots| && s.slots[f].state == Vacant
    requires forall p :: p in s.conns[s.epoch].pending ==> p.rid < s.nextRid && p.tag != NextTag(s)
    ensures Leads(s, steps, v) && |steps| == 12 && BothFree(s, v, NextTag(s), f)
  {
    hide Leads, Next, Enabled;
    var t := NextTag(s);
    var first := Asking(s, charge, false);
    var u := Asked(s, charge, false);
    AskedIsCancellable(s, charge, f);
    SendsFlush(u, t, f, credit);
    var w := Flushing(u, t, f, credit);
    Join(s, first, u, [ReserveFlush(f, t, credit), Send(f, true)], w);
    FlushIsSent(u, t, f, credit);
    var third := FlushReading(w, t, f);
    var x := FlushRead(w, t, f);
    Join(s, first + [ReserveFlush(f, t, credit), Send(f, true)], w, third, x);
    var last := [RxCheck, RxComplete, RxCount, TakeFlush(f), FinishFlush(f)];
    v := FlushEnding(x, t, f);
    Join(s, first + [ReserveFlush(f, t, credit), Send(f, true)] + third, x, last, v);
    steps := first + [ReserveFlush(f, t, credit), Send(f, true)] + third + last;
    EndsBothFree(s, x, v, charge, credit, t, f);
  }

  lemma AskedIsCancellable(s: State, charge: Charge, f: nat)
    requires LayoutInv(s) && AtRest(s) && Admits(s, charge) && !Cancelling(s, NextTag(s)) && NextTag(s) < |s.slots|
    requires IsFlushTag(f) && f < |s.slots| && s.slots[f].state == Vacant
    requires forall p :: p in s.conns[s.epoch].pending ==> p.rid < s.nextRid && p.tag != NextTag(s)
    ensures Cancellable(Asked(s, charge, false), NextTag(s), f)
  {
    var u := Asked(s, charge, false);
    assert forall g :: 0 <= g < FLUSH_SLOTS && g < |s.slots| ==> u.slots[g] == s.slots[g];
    assert !FlushReplyPending(u) && !Cancelling(u, NextTag(s));
  }

  lemma FlushIsSent(s: State, t: nat, f: nat, credit: nat)
    requires Cancellable(s, t, f)
    ensures FlushSent(Flushing(s, t, f, credit), t, f)
  {
    var w := Flushing(s, t, f, credit);
    assert forall g :: 0 <= g < FLUSH_SLOTS && g < |s.slots| && g != f ==> w.slots[g] == s.slots[g];
    assert !FlushReplyPending(w);
  }

  lemma EndsBothFree(s: State, x: State, v: State, charge: Charge, credit: nat, t: nat, f: nat)
    requires LayoutInv(s) && AtRest(s) && Admits(s, charge) && t == NextTag(s) && t < |s.slots|
    requires IsFlushTag(f) && f < |s.slots| && s.slots[f].state == Vacant && t - FIRST_NORMAL_TAG !in s.busy
    requires forall p :: p in s.conns[s.epoch].pending ==> p.rid < s.nextRid && p.tag != t
    requires x == FlushRead(Flushing(Asked(s, charge, false), t, f, credit), t, f)
    requires v == VacateTag(VacateTag(x, f), t).(rx := Idle, link := None, sent := x.sent - 2)
    ensures BothFree(s, v, t, f)
  {
    var pending := s.conns[s.epoch].pending;
    var ask, flush := Req(s.nextRid, t, None), Req(s.nextRid + 1, f, Some(t));
    assert pending + {ask} + {flush} - {flush, ask} == pending;
    assert x.conns == s.conns;
    assert v.slots == x.slots[f := Vacated(x.slots[f])][t := Vacated(x.slots[t])];
    assert s.busy + {t - FIRST_NORMAL_TAG} - {t - FIRST_NORMAL_TAG} == s.busy;
  }

  // ------------------------------------------------------------------ a connection replaced

  /** Every slot is as the sweep leaves it, and a new connection is up with nothing on it. */
  predicate Reconnected(s: State, v: State) {
    && v.status == Connected && v.epoch == v.active == s.epoch + 1 && v.sweep == Settled && v.holder.None?
    && |v.slots| == |s.slots| && (forall u :: 0 <= u < |s.slots| ==> v.slots[u] == Swept(s.slots[u]))
    && v.conns == s.conns[s.epoch + 1 := Conn({}, [])] && v.sent == 0 && v.cursor == 0
    && v.busy == s.busy && v.used == s.used && v.carried == s.carried && v.rx == s.rx && v.link == s.link
  }

  lemma {:induction false} SweepingOn(s: State) returns (steps: seq<Step>, v: State)
    requires s.sweep.At? && s.sweep.k < SLOT_SHARDS && s.rx == Idle
    ensures Leads(s, steps, v) && v == s.(slots := v.slots, sweep := Settled) && |v.slots| == |s.slots|
    ensures forall u :: 0 <= u < |s.slots| ==>
              v.slots[u] == if u % SLOT_SHARDS >= s.sweep.k then Swept(s.slots[u]) else s.slots[u]
    decreases SLOT_SHARDS - s.sweep.k
  {
    var u := Next(s, SweepShard);
    if u.sweep.At? {
      steps, v := SweepingOn(u);
      steps := [SweepShard] + steps;
      assert steps[1..] == steps[1..];
    } else {
      steps, v := [SweepShard], u;
      assert steps[1..] == [];
    }
  }

  /** A session at rest survives the loss of its connection: retired, swept and connected again it is
      at rest, and its requests in flight have failed. */
  lemma ReconnectRestores(s: State) returns (steps: seq<Step>, v: State)
    requires AtRest(s) && (forall e :: e in s.conns ==> e <= s.epoch)
    ensures Leads(s, steps, v) && Reconnected(s, v) && AtRest(v)
  {
    hide Next, Enabled, Leads;
    var retire := Retire(false, None);
    Retires(s);
    Two(s, retire, PublishEpoch);
    var b := Next(Next(s, retire), PublishEpoch);
    var sweep, c := SweepingOn(b);
    Join(s, [retire, PublishEpoch], b, sweep, c);
    ComesBack(s, c);
    v := Next(c, Install);
    Then(s, [retire, PublishEpoch] + sweep, c, Install);
    steps := [retire, PublishEpoch] + sweep + [Install];
  }

  lemma Retires(s: State)
    requires AtRest(s)
    ensures Enabled(s, Retire(false, None)) && Enabled(Next(s, Retire(false, None)), PublishEpoch)
    ensures Next(Next(s, Retire(false, None)), PublishEpoch) ==
            s.(status := Lost, epoch := s.epoch + 1, active := s.epoch + 1, sweep := At(0), sent := 0)
  {
  }

  lemma ComesBack(s: State, c: State)
    requires AtRest(s) && |c.slots| == |s.slots| && (forall u :: 0 <= u < |s.slots| ==> c.slots[u] == Swept(s.slots[u]))
    requires c == s.(status := Lost, epoch := s.epoch + 1, active := s.epoch + 1, slots := c.slots, sent := 0)
    ensures Enabled(c, Install) && Reconnected(s, Next(c, Install)) && AtRest(Next(c, Install))
  {
    assert !FlushReplyPending(c);
    assert !FlushReplyPending(Next(c, Install));
  }
}
