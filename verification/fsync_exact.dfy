/** The other direction: an fsync fails, and an obligation stays, only for a reason.

    `FsyncProtocol` rules out a false success. This module rules out a false ESTALE by the token,
    and says what each critical section leaves in the table over every run. */
module FsyncExact {
  import opened Wrappers
  import opened Durability
  import opened FsyncProtocol

  // ------------------------------------------------------------------ the token test

  /** Every obligation in the ledger is owed to a lineage that has been live by now. */
  ghost predicate OwedInv(w: World) {
    && (forall i :: 0 <= i < |w.ledger.unsynced| ==> 0 < w.ledger.unsynced[i].oldest <= w.lineage)
    && (w.ledger.orphan.oldest.Some? ==> 0 < w.ledger.orphan.oldest.value <= w.lineage)
  }

  lemma NoteKeepsOwed(w: World, named: Option<nat>, connection: nat)
    requires LineageInv(w) && OwedInv(w) && Enabled(w, Note(named, connection))
    ensures OwedInv(Next(w, Note(named, connection)))
  {
  }

  lemma DischargeKeepsOwed(w: World, c: nat)
    requires OwedInv(w) && Enabled(w, Discharge(c))
    ensures OwedInv(Next(w, Discharge(c)))
  {
    var v := Next(w, Discharge(c));
    forall i | 0 <= i < |v.ledger.unsynced|
      ensures 0 < v.ledger.unsynced[i].oldest <= v.lineage
    {
      assert v.ledger.unsynced[i] in w.ledger.unsynced;
    }
  }

  lemma StepKeepsOwed(w: World, step: Step)
    requires LineageInv(w) && OwedInv(w) && Enabled(w, step)
    ensures OwedInv(Next(w, step))
  {
    if step.Note? {
      NoteKeepsOwed(w, step.named, step.connection);
    } else if step.Discharge? {
      DischargeKeepsOwed(w, step.c);
    }
  }

  lemma {:induction false} RunKeepsOwed(worlds: seq<World>, steps: seq<Step>, i: nat)
    requires Run(worlds, steps) && i < |worlds|
    ensures OwedInv(worlds[i])
  {
    hide Next, Enabled, OwedInv, TableInv, NewestInv, AccountedInv, BarrierInv, CallersInv, LineageInv;
    if i == 0 {
      assert OwedInv(worlds[0]) by {
        InitialOwed(worlds[0]);
      }
    } else {
      RunKeepsOwed(worlds, steps, i - 1);
      RunKeepsInv(worlds, steps, i - 1);
      StepKeepsOwed(worlds[i - 1], steps[i - 1]);
    }
  }

  lemma InitialOwed(w: World)
    requires Initial(w)
    ensures OwedInv(w)
  {
  }

  /** Lineages never fall. */
  lemma {:induction false} LineageGrows(worlds: seq<World>, steps: seq<Step>, i: nat, j: nat)
    requires Run(worlds, steps) && i <= j < |worlds|
    ensures worlds[i].lineage <= worlds[j].lineage
    decreases j - i
  {
    if i < j {
      LineageGrows(worlds, steps, i, j - 1);
      assert Enabled(worlds[j - 1], steps[j - 1]);
    }
  }

  /** The fsync a caller is in the middle of began at step `j`. */
  ghost predicate BeganAt(worlds: seq<World>, steps: seq<Step>, j: nat, i: nat, c: nat) {
    && j < i < |worlds| && |worlds| == |steps| + 1 && !Phase(worlds[i], c).Errored?
    && steps[j] == Begin(c, Phase(worlds[i], c).q.scope) && Phase(worlds[i], c).q == Snapshot(worlds[j], steps[j].scope)
    && forall k :: j < k < i ==> !(steps[k].Begin? && steps[k].c == c)
  }

  lemma RequestStep(w: World, step: Step, c: nat)
    requires Enabled(w, step) && !Phase(Next(w, step), c).Errored?
    ensures if step.Begin? && step.c == c then Phase(Next(w, step), c).q == Snapshot(w, step.scope)
            else !Phase(w, c).Errored? && Phase(Next(w, step), c).q == Phase(w, c).q
  {
  }

  lemma {:induction false} RequestBegan(worlds: seq<World>, steps: seq<Step>, i: nat, c: nat) returns (j: nat)
    requires Run(worlds, steps) && i < |worlds| && !Phase(worlds[i], c).Errored?
    ensures BeganAt(worlds, steps, j, i, c)
  {
    hide Next, Enabled, Snapshot;
    assert i > 0;
    RequestStep(worlds[i - 1], steps[i - 1], c);
    if steps[i - 1].Begin? && steps[i - 1].c == c {
      j := i - 1;
      assert Phase(worlds[i], c).q.scope == steps[j].scope by { SnapshotScope(worlds[j], steps[j].scope); }
    } else {
      j := RequestBegan(worlds, steps, i - 1, c);
    }
  }

  lemma SnapshotScope(w: World, scope: Scope)
    ensures Snapshot(w, scope).scope == scope
  {
  }

  /** When the fsync that began at `j` was owed only this lineage. */
  ghost predicate OwedOnly(w: World, scope: Scope, lineage: nat) {
    forall owed :: Owes(w.ledger.unsynced, w.ledger.orphan, scope, owed) ==> owed == lineage
  }

  /** The token answers for everything owed: it passes the test against a lineage that nothing owed
      is newer than exactly if only that lineage is owed. */
  lemma TokenTestIsExact(w: World, scope: Scope, lineage: nat)
    requires OwedInv(w) && w.lineage <= lineage
    ensures SnapshotToken(w.ledger, scope) == 0 || SnapshotToken(w.ledger, scope) == lineage <==>
            OwedOnly(w, scope, lineage)
  {
    var token := SnapshotToken(w.ledger, scope);
    TokenIsLeastOwed(w.ledger, scope);
    hide SnapshotToken;
    forall owed: nat | Owes(w.ledger.unsynced, w.ledger.orphan, scope, owed)
      ensures 0 < owed <= lineage
    {
    }
    if OwedOnly(w, scope, lineage) && token != 0 {
      var owed :| Owes(w.ledger.unsynced, w.ledger.orphan, scope, owed);
      assert Owes(w.ledger.unsynced, w.ledger.orphan, scope, token);
    }
  }

  /** An fsync that finds a barrier to adopt fails as stale if and only if, when it began, it was
      owed something under another lineage than that barrier's. */
  lemma AdoptedStaleIsExact(worlds: seq<World>, steps: seq<Step>, i: nat) returns (j: nat)
    requires Run(worlds, steps) && i < |steps| && steps[i].TryClaim? && !steps[i].expired
    requires DoneCovers(worlds[i].ledger, Phase(worlds[i], steps[i].c).epoch, Phase(worlds[i], steps[i].c).q.snapshot)
    ensures BeganAt(worlds, steps, j, i, steps[i].c)
    ensures var lineage := worlds[i].ledger.done.value.lineage;
            Phase(worlds[i + 1], steps[i].c).Reporting? <==> !OwedOnly(worlds[j], steps[j].scope, lineage)
  {
    var c := steps[i].c;
    var w := worlds[i];
    j := RequestBegan(worlds, steps, i, c);
    RunKeepsInv(worlds, steps, i);
    RunKeepsOwed(worlds, steps, j);
    BoundAfterBegin(worlds, steps, j, i, c);
    assert CallerInv(w, w.callers[c]);
    TokenTestIsExact(worlds[j], steps[j].scope, w.ledger.done.value.lineage);
  }

  /** A flush is granted, by a server that answers as trusted, if and only if the fsync was owed
      nothing under another lineage than the flush's when it began. */
  lemma GrantIsExact(worlds: seq<World>, steps: seq<Step>, i: nat, c: nat) returns (j: nat)
    requires Run(worlds, steps) && i < |worlds| && Phase(worlds[i], c).Sent?
    ensures BeganAt(worlds, steps, j, i, c)
    ensures Enabled(worlds[i], Grant(c)) <==>
            OwedOnly(worlds[j], steps[j].scope, Phase(worlds[i], c).flush.lineage)
  {
    j := RequestBegan(worlds, steps, i, c);
    RunKeepsOwed(worlds, steps, j);
    BoundAfterBegin(worlds, steps, j, i, c);
    TokenTestIsExact(worlds[j], steps[j].scope, Phase(worlds[i], c).flush.lineage);
  }

  /** The lineage a caller is bound to, or flushed under, is no older than the one it began under. */
  predicate NoOlder(caller: Caller, lineage: nat) {
    && (caller.Bound? || caller.Issuing? || caller.Sent? ==> lineage <= caller.lineage)
    && (caller.Sent? ==> lineage <= caller.flush.lineage)
  }

  lemma NoOlderStep(w: World, step: Step, c: nat, lineage: nat)
    requires Enabled(w, step) && lineage <= w.lineage && !(step.Begin? && step.c == c)
    requires !Phase(w, c).Errored? ==> NoOlder(Phase(w, c), lineage)
    ensures !Phase(Next(w, step), c).Errored? ==> NoOlder(Phase(Next(w, step), c), lineage)
  {
  }

  lemma {:induction false} BoundAfterBegin(worlds: seq<World>, steps: seq<Step>, j: nat, i: nat, c: nat)
    requires Run(worlds, steps) && j < i < |worlds| && steps[j].Begin? && steps[j].c == c
    requires forall k :: j < k < i ==> !(steps[k].Begin? && steps[k].c == c)
    ensures !Phase(worlds[i], c).Errored? ==> NoOlder(Phase(worlds[i], c), worlds[j].lineage)
    decreases i - j
  {
    if i == j + 1 {
      assert Phase(worlds[i], c).Snapped?;
    } else {
      hide Next, Enabled;
      BoundAfterBegin(worlds, steps, j, i - 1, c);
      LineageGrows(worlds, steps, j, i - 1);
      NoOlderStep(worlds[i - 1], steps[i - 1], c, worlds[j].lineage);
    }
  }

  // ------------------------------------------------------------------ what the sections leave

  /** A mutation is filed under its inode, or folded into the mount's obligation when it has none or
      the table is full; nothing else moves. */
  lemma NoteIsExact(worlds: seq<World>, steps: seq<Step>, i: nat)
    requires Run(worlds, steps) && i < |steps| && steps[i].Note?
    ensures var l, m, named, token := worlds[i].ledger, worlds[i + 1].ledger, steps[i].named,
                                      worlds[i].lineages[steps[i].connection];
            && m.inFlight == l.inFlight && m.done == l.done
            && if named.Some? && (|l.unsynced| < UNSYNCED_CAPACITY || Files(l.unsynced, named.value))
               then m.orphan == l.orphan && FiledUnder(l.unsynced, m.unsynced, named.value, token, m.stamp)
               else m.unsynced == l.unsynced && FoldedInto(l.orphan, m.orphan, token, m.stamp)
  {
    var l, m, named, token := worlds[i].ledger, worlds[i + 1].ledger, steps[i].named,
                              worlds[i].lineages[steps[i].connection];
    if named.Some? {
      var k := IndexOf(l.unsynced, named.value);
      if k < |l.unsynced| {
        assert l.unsynced[k] in l.unsynced;
      }
      if !Orphaned(l.unsynced, named) {
        assert FiledAt(l.unsynced, m.unsynced, named.value, token, m.stamp, k);
      }
    }
  }

  /** A successful fsync leaves no covered obligation of its window, and takes no other. */
  lemma DischargeIsExact(worlds: seq<World>, steps: seq<Step>, i: nat)
    requires Run(worlds, steps) && i < |steps| && steps[i].Discharge? && !worlds[i].ledger.exhausted
    ensures Phase(worlds[i], steps[i].c).Discharging?
    ensures var l, m, q := worlds[i].ledger, worlds[i + 1].ledger, Phase(worlds[i], steps[i].c).q;
            && (forall e :: e in m.unsynced <==>
                  e in l.unsynced && !(Reaches(q.scope, e.inode) && e.generation <= q.snapshot))
            && m.orphan.oldest == if l.orphan.generation <= q.snapshot then None else l.orphan.oldest
  {
    assert Enabled(worlds[i], steps[i]);
  }

  /** A reported loss is marked on exactly the covered obligations of the window, and removes none. */
  lemma ReportIsExact(worlds: seq<World>, steps: seq<Step>, i: nat)
    requires Run(worlds, steps) && i < |steps| && steps[i].Report? && !worlds[i].ledger.exhausted
    ensures Phase(worlds[i], steps[i].c).Reporting?
    ensures var l, m, q := worlds[i].ledger, worlds[i + 1].ledger, Phase(worlds[i], steps[i].c).q;
            && |m.unsynced| == |l.unsynced| && m.orphan.oldest == l.orphan.oldest
            && (forall k :: 0 <= k < |l.unsynced| ==>
                  m.unsynced[k] == l.unsynced[k].(reported := l.unsynced[k].reported
                    || (Reaches(q.scope, l.unsynced[k].inode) && l.unsynced[k].generation <= q.snapshot)))
  {
    assert Enabled(worlds[i], steps[i]);
  }

  /** A request that may no longer wait issues its own barrier. Otherwise it adopts a finished one, waits
      for one in flight, or issues, by whether that one is of its connection and reaches its snapshot. */
  lemma ClaimIsExact(worlds: seq<World>, steps: seq<Step>, i: nat)
    requires Run(worlds, steps) && i < |steps| && steps[i].TryClaim?
    ensures var l, m := worlds[i].ledger, worlds[i + 1].ledger;
            var was, now := Phase(worlds[i], steps[i].c), Phase(worlds[i + 1], steps[i].c);
            && was.Bound?
            && if !steps[i].expired && l.done.Some? && l.done.value.epoch == was.epoch
                  && was.q.snapshot <= l.done.value.stamp then
                 m == l && (now.Reporting? || now == Discharging(was.q, l.done.value.lineage, true))
               else if !steps[i].expired && l.inFlight.Some? && l.inFlight.value.0 == was.epoch
                       && was.q.snapshot <= l.inFlight.value.1 then
                 worlds[i + 1] == worlds[i]
               else
                 now == Issuing(was.q, was.epoch, was.lineage)
                 && m == l.(inFlight := Some((was.epoch, was.q.snapshot)))
  {
    assert Enabled(worlds[i], steps[i]);
  }

  /** A session ended stays so: no fsync begins, binds, claims or sends any more, and no connection is
      installed. */
  lemma {:induction false} EndedStaysEnded(worlds: seq<World>, steps: seq<Step>, i: nat, j: nat)
    requires Run(worlds, steps) && i < j < |worlds| && steps[i].Retire? && steps[i].terminal
    ensures worlds[j].status.Dead?
    ensures j < |steps| ==> !steps[j].Begin? && !steps[j].Bind? && !steps[j].TryClaim? && !steps[j].Send?
                            && !steps[j].Install?
    decreases j
  {
    if j > i + 1 {
      EndedStaysEnded(worlds, steps, i, j - 1);
    }
    assert Enabled(worlds[j - 1], steps[j - 1]);
    assert j < |steps| ==> Enabled(worlds[j], steps[j]);
  }

  /** What a barrier's answer leads to: a grant to the discharge, ESTALE to the report, any other failure
      and an interruption to an error; and none of these touches an obligation. */
  lemma AnswerIsExact(worlds: seq<World>, steps: seq<Step>, i: nat)
    requires Run(worlds, steps) && i < |steps| && (steps[i].Refuse? || steps[i].Finish? || steps[i].Interrupt?)
    ensures var was, now := Phase(worlds[i], steps[i].c), Phase(worlds[i + 1], steps[i].c);
            if steps[i].Interrupt? then now.Errored?
            else if steps[i].Refuse? then
              (was.Issuing? || was.Sent?) && now == Failed(was.q, was.epoch, steps[i].stale)
            else if was.Answered? then now == Discharging(was.q, was.flush.lineage, false)
            else was.Failed? && if was.stale then now == Reporting(was.q) else now.Errored?
    ensures var l, m := worlds[i].ledger, worlds[i + 1].ledger;
            m.unsynced == l.unsynced && m.orphan == l.orphan && m.stamp == l.stamp
  {
    assert Enabled(worlds[i], steps[i]);
  }

  /** An inode whose loss was reported can report durable again: the next mutation of it replaces the
      lineage, and an fsync that begins then is owed that lineage for it. */
  lemma ReportedIsReplaced(worlds: seq<World>, steps: seq<Step>, i: nat, e: Entry)
    requires Run(worlds, steps) && i < |steps| && steps[i].Note? && steps[i].named == Some(e.inode)
    requires e in worlds[i].ledger.unsynced && e.reported
    ensures exists f :: f in worlds[i + 1].ledger.unsynced && f.inode == e.inode
                        && f.oldest == worlds[i].lineages[steps[i].connection] && !f.reported
    ensures e !in worlds[i + 1].ledger.unsynced
  {
    var l, m := worlds[i].ledger, worlds[i + 1].ledger;
    RunKeepsInv(worlds, steps, i);
    NoteIsExact(worlds, steps, i);
    var token := worlds[i].lineages[steps[i].connection];
    var k :| 0 <= k < |m.unsynced| && FiledAt(l.unsynced, m.unsynced, e.inode, token, m.stamp, k);
    var n :| 0 <= n < |l.unsynced| && l.unsynced[n] == e;
    assert n == k;
    assert m.unsynced[k] in m.unsynced;
  }
}
