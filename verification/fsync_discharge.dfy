/** How an obligation may leave the table.

    `FsyncProtocol` says a successful fsync is honest. This module follows the
    obligations themselves: over every run, an entry or the mount-wide orphan
    leaves only when a covering fsync discharges it, and then its lineage is
    exactly the lineage that fsync's flush was granted under. */
module FsyncDischarge {
  import opened Wrappers
  import opened Durability
  import opened FsyncProtocol

  /** Obligations inside a caller's window are no older than the token it sends. */
  ghost predicate Window(l: Ledger, q: Request) {
    && (forall i :: 0 <= i < |l.unsynced| && l.unsynced[i].AnsweredBy(q.scope, q.snapshot) ==>
          0 < q.token <= l.unsynced[i].oldest)
    && (l.orphan.oldest.Some? && l.orphan.generation <= q.snapshot ==> 0 < q.token <= l.orphan.oldest.value)
  }

  /** An obligation's lineage is that of a mutation folded into it. */
  ghost predicate Recorded(w: World, oldest: nat, generation: nat) {
    exists k :: 0 < k <= |w.history| && k <= generation && Nth(w.history, k).token == oldest
  }

  ghost predicate ProvenanceInv(w: World) {
    && (forall i :: 0 <= i < |w.ledger.unsynced| ==>
          Recorded(w, w.ledger.unsynced[i].oldest, w.ledger.unsynced[i].generation))
    && (w.ledger.orphan.oldest.Some? ==> Recorded(w, w.ledger.orphan.oldest.value, w.ledger.orphan.generation))
  }

  /** A granted flush at least as new as the snapshot stands behind the verdict. */
  ghost predicate Backed(w: World, q: Request, verdict: nat) {
    && (q.token == 0 || q.token == verdict)
    && NoNewer(w, q.snapshot, verdict)
    && exists f :: f in w.flushes && f.lineage == verdict && q.snapshot <= f.issued
  }

  predicate Open(caller: Caller) {
    !caller.Errored? && !caller.Succeeded? && !caller.Reporting?
  }

  ghost predicate WindowsInv(w: World) {
    forall c :: c in w.callers && Open(w.callers[c]) ==>
      && w.callers[c].q.snapshot <= w.ledger.stamp
      && Window(w.ledger, w.callers[c].q)
      && (w.callers[c].Discharging? ==> Backed(w, w.callers[c].q, w.callers[c].verdict))
  }

  ghost predicate Inv2(w: World) {
    Core(w) && (w.ledger.exhausted || (ProvenanceInv(w) && WindowsInv(w)))
  }

  // ------------------------------------------------------------------ stability

  /** Obligations a step leaves at or below the old stamp were there before, unchanged but for the flag. */
  ghost predicate OnlyOld(l: Ledger, m: Ledger) {
    && l.stamp <= m.stamp
    && (forall j :: 0 <= j < |m.unsynced| && m.unsynced[j].generation <= l.stamp ==>
          m.unsynced[j].(reported := false) in l.unsynced || m.unsynced[j].(reported := true) in l.unsynced)
    && (m.orphan.oldest.Some? && m.orphan.generation <= l.stamp ==>
          m.orphan.oldest == l.orphan.oldest && m.orphan.generation == l.orphan.generation)
  }

  lemma WindowStable(l: Ledger, m: Ledger, q: Request)
    requires OnlyOld(l, m) && Window(l, q) && q.snapshot <= l.stamp
    ensures Window(m, q)
  {
    forall j | 0 <= j < |m.unsynced| && m.unsynced[j].AnsweredBy(q.scope, q.snapshot)
      ensures 0 < q.token <= m.unsynced[j].oldest
    {
      var flag :| m.unsynced[j].(reported := flag) in l.unsynced;
      var i :| 0 <= i < |l.unsynced| && l.unsynced[i] == m.unsynced[j].(reported := flag);
      assert l.unsynced[i].AnsweredBy(q.scope, q.snapshot);
    }
  }

  lemma StepOnlyOld(w: World, step: Step)
    requires Core(w) && Enabled(w, step) && !w.ledger.exhausted
    ensures OnlyOld(w.ledger, Next(w, step).ledger) || Next(w, step).ledger.exhausted
  {
    hide AccountedInv, NewestInv, LineageInv, BarrierInv, CallersInv;
    var l := w.ledger;
    var m := Next(w, step).ledger;
    if m.exhausted {
      return;
    }
    forall j | 0 <= j < |m.unsynced| && m.unsynced[j].generation <= l.stamp
      ensures m.unsynced[j].(reported := false) in l.unsynced || m.unsynced[j].(reported := true) in l.unsynced
    {
      assert m.unsynced[j] in m.unsynced;
      if step.Report? {
        assert l.unsynced[j] in l.unsynced;
        assert m.unsynced[j] == l.unsynced[j].(reported := m.unsynced[j].reported);
      } else {
        assert m.unsynced[j] in l.unsynced;
        assert m.unsynced[j] == m.unsynced[j].(reported := m.unsynced[j].reported);
      }
    }
  }

  lemma BackedGrows(w: World, v: World, q: Request, verdict: nat)
    requires Grows(w, v) && Backed(w, q, verdict)
    ensures Backed(v, q, verdict)
  {
    assert forall k :: 0 < k <= |w.history| ==> Nth(v.history, k) == Nth(w.history, k);
  }

  /** The snapshot's own token opens the window. */
  lemma SnapshotWindow(w: World, scope: Scope)
    requires Core(w)
    ensures Window(w.ledger, Snapshot(w, scope))
  {
  }

  lemma StepGrows(w: World, step: Step)
    requires Core(w) && Enabled(w, step)
    ensures Grows(w, Next(w, step))
  {
  }

  /** The one caller a step moves keeps its request, or takes a fresh snapshot. */
  lemma StepRequest(w: World, step: Step, c: nat)
    requires Core(w) && Enabled(w, step) && !step.Begin?
    requires c in Next(w, step).callers && Open(Next(w, step).callers[c])
    ensures c in w.callers && Open(w.callers[c]) && w.callers[c].q == Next(w, step).callers[c].q
  {
  }

  lemma StepBacked(w: World, step: Step, c: nat)
    requires Core(w) && WindowsInv(w) && Enabled(w, step)
    requires c in Next(w, step).callers && Next(w, step).callers[c].Discharging?
    ensures Backed(Next(w, step), Next(w, step).callers[c].q, Next(w, step).callers[c].verdict)
  {
    hide AccountedInv, TableInv, NewestInv, LineageInv;
    var v := Next(w, step);
    StepGrows(w, step);
    assert c in w.callers;
    assert CallerInv(w, w.callers[c]);
    var q := v.callers[c].q;
    if w.callers[c].Discharging? {
      BackedGrows(w, v, q, v.callers[c].verdict);
    } else if w.callers[c].Answered? {
      assert Backed(w, q, w.callers[c].flush.lineage);
      BackedGrows(w, v, q, v.callers[c].verdict);
    } else {
      var d := w.ledger.done.value;
      var f :| f in w.flushes && f.lineage == d.lineage && d.stamp <= f.issued;
      assert Backed(w, q, d.lineage);
      BackedGrows(w, v, q, v.callers[c].verdict);
    }
  }

  lemma StepWindows(w: World, step: Step)
    requires Core(w) && WindowsInv(w) && Enabled(w, step) && !w.ledger.exhausted
    requires !Next(w, step).ledger.exhausted && Core(Next(w, step))
    ensures WindowsInv(Next(w, step))
  {
    var v := Next(w, step);
    StepOnlyOld(w, step);
    forall c | c in v.callers && Open(v.callers[c])
      ensures v.callers[c].q.snapshot <= v.ledger.stamp && Window(v.ledger, v.callers[c].q)
      ensures v.callers[c].Discharging? ==> Backed(v, v.callers[c].q, v.callers[c].verdict)
    {
      if step.Begin? && step.c == c {
        SnapshotWindow(w, step.scope);
      } else if step.Begin? {
        assert v.callers[c] == w.callers[c];
        WindowStable(w.ledger, v.ledger, v.callers[c].q);
      } else {
        StepRequest(w, step, c);
        WindowStable(w.ledger, v.ledger, v.callers[c].q);
      }
      if v.callers[c].Discharging? {
        StepBacked(w, step, c);
      }
    }
  }

  lemma RecordedGrows(w: World, v: World, oldest: nat, generation: nat)
    requires Grows(w, v) && Recorded(w, oldest, generation)
    ensures Recorded(v, oldest, generation)
  {
    var k :| 0 < k <= |w.history| && k <= generation && Nth(w.history, k).token == oldest;
    assert Nth(v.history, k).token == oldest;
  }

  lemma NoteProvenance(w: World, named: Option<nat>, connection: nat)
    requires Core(w) && ProvenanceInv(w) && Enabled(w, Note(named, connection)) && w.ledger.stamp < STAMP_MAX
    ensures ProvenanceInv(Next(w, Note(named, connection)))
  {
    var v := Next(w, Note(named, connection));
    StepGrows(w, Note(named, connection));
    var newest := |v.history|;
    assert Nth(v.history, newest).token == w.lineages[connection];
    forall i | 0 <= i < |w.ledger.unsynced|
      ensures forall g :: w.ledger.unsynced[i].generation <= g ==> Recorded(v, w.ledger.unsynced[i].oldest, g)
    {
      RecordedGrows(w, v, w.ledger.unsynced[i].oldest, w.ledger.unsynced[i].generation);
    }
    if w.ledger.orphan.oldest.Some? {
      RecordedGrows(w, v, w.ledger.orphan.oldest.value, w.ledger.orphan.generation);
    }
    assert Recorded(v, w.lineages[connection], newest);
  }

  lemma ReportProvenance(w: World, c: nat)
    requires ProvenanceInv(w) && Enabled(w, Report(c))
    ensures ProvenanceInv(Next(w, Report(c)))
  {
    var v := Next(w, Report(c));
    assert forall o, g :: Recorded(w, o, g) ==> Recorded(v, o, g);
    forall i | 0 <= i < |v.ledger.unsynced|
      ensures Recorded(v, v.ledger.unsynced[i].oldest, v.ledger.unsynced[i].generation)
    {
      assert Recorded(w, w.ledger.unsynced[i].oldest, w.ledger.unsynced[i].generation);
    }
  }

  lemma OldProvenance(w: World, step: Step)
    requires ProvenanceInv(w) && Enabled(w, step) && !step.Note? && !step.Report?
    ensures ProvenanceInv(Next(w, step))
  {
    var v := Next(w, step);
    assert forall o, g :: Recorded(w, o, g) ==> Recorded(v, o, g);
    forall i | 0 <= i < |v.ledger.unsynced|
      ensures Recorded(v, v.ledger.unsynced[i].oldest, v.ledger.unsynced[i].generation)
    {
      assert v.ledger.unsynced[i] in v.ledger.unsynced;
      var j :| 0 <= j < |w.ledger.unsynced| && w.ledger.unsynced[j] == v.ledger.unsynced[i];
    }
  }

  lemma StepProvenance(w: World, step: Step)
    requires Core(w) && ProvenanceInv(w) && Enabled(w, step) && !w.ledger.exhausted
    requires !Next(w, step).ledger.exhausted
    ensures ProvenanceInv(Next(w, step))
  {
    if step.Note? {
      NoteProvenance(w, step.named, step.connection);
    } else {
      hide Next, Enabled, Core, ProvenanceInv;
      if step.Report? {
        ReportProvenance(w, step.c);
      } else {
        OldProvenance(w, step);
      }
    }
  }

  lemma {:induction false} RunKeepsInv2(worlds: seq<World>, steps: seq<Step>, i: nat)
    requires Run(worlds, steps) && i < |worlds|
    ensures Inv2(worlds[i])
  {
    if i > 0 {
      RunKeepsInv2(worlds, steps, i - 1);
      var w, step := worlds[i - 1], steps[i - 1];
      StepKeepsInv(w, step);
      if !worlds[i].ledger.exhausted {
        if w.ledger.exhausted {
          StepGrows(w, step);
        } else {
          StepProvenance(w, step);
          StepWindows(w, step);
        }
      }
    }
  }

  /** True past exhaustion too: a saturated stamp is still the largest. */
  ghost predicate GenerationsBounded(l: Ledger) {
    forall e :: e in l.unsynced ==> e.generation <= l.stamp
  }

  lemma StepKeepsGenerations(w: World, step: Step)
    requires Enabled(w, step) && GenerationsBounded(w.ledger)
    ensures GenerationsBounded(Next(w, step).ledger)
  {
    var v := Next(w, step);
    forall e | e in v.ledger.unsynced
      ensures e.generation <= v.ledger.stamp
    {
      var j :| 0 <= j < |v.ledger.unsynced| && v.ledger.unsynced[j] == e;
      if step.Report? {
        assert w.ledger.unsynced[j] in w.ledger.unsynced;
      }
    }
  }

  lemma {:induction false} RunKeepsGenerations(worlds: seq<World>, steps: seq<Step>, i: nat)
    requires Run(worlds, steps) && i < |worlds|
    ensures GenerationsBounded(worlds[i].ledger)
  {
    if i > 0 {
      hide Next, Enabled, GenerationsBounded;
      RunKeepsGenerations(worlds, steps, i - 1);
      StepKeepsGenerations(worlds[i - 1], steps[i - 1]);
    }
  }

  // ------------------------------------------------------------------ results

  /** The obligation is still in the table, no newer than it was unless its failure was reported. */
  ghost predicate Survives(e: Entry, l: Ledger) {
    exists f :: f in l.unsynced && f.inode == e.inode && e.generation <= f.generation
                && (e.reported || f.oldest <= e.oldest)
  }

  ghost predicate OrphanSurvives(o: Orphan, l: Ledger) {
    l.orphan.oldest.Some? && o.generation <= l.orphan.generation
    && (o.reported || (o.oldest.Some? ==> l.orphan.oldest.value <= o.oldest.value))
  }

  /** The step discharges obligations with this lineage and generation: its caller's
      flush ran under exactly that lineage and was sent no earlier than the
      obligation's newest mutation was acknowledged. */
  ghost predicate Discharged(w: World, step: Step, oldest: nat, generation: nat) {
    && step.Discharge? && Phase(w, step.c).Discharging?
    && !w.ledger.exhausted
    && generation <= w.callers[step.c].q.snapshot
    && oldest == w.callers[step.c].verdict
    && exists f :: f in w.flushes && f.lineage == oldest && generation <= f.issued
  }

  /** In every run an inode's obligation survives each step, unless a covering,
      granted barrier at least as new discharges it. Table overflow removes
      nothing, and after exhaustion nothing is ever removed. */
  lemma ObligationLeavesOnlyWhenProven(worlds: seq<World>, steps: seq<Step>, i: nat, e: Entry)
    requires Run(worlds, steps) && i < |steps| && e in worlds[i].ledger.unsynced
    ensures Survives(e, worlds[i + 1].ledger)
            || (Discharged(worlds[i], steps[i], e.oldest, e.generation)
                && worlds[i].callers[steps[i].c].q.scope.Covers(e.inode))
  {
    var w, step, v := worlds[i], steps[i], worlds[i + 1];
    RunKeepsInv2(worlds, steps, i);
    RunKeepsGenerations(worlds, steps, i);
    if step.Note? {
      NoteSurvives(w, step.named, step.connection, e);
    } else if step.Report? {
      ReportSurvives(w, step.c, e);
    } else if step.Discharge? && !w.ledger.exhausted && e !in v.ledger.unsynced {
      DischargeProven(w, step.c, e);
    } else {
      assert e in v.ledger.unsynced;
    }
  }

  lemma NoteSurvives(w: World, named: Option<nat>, connection: nat, e: Entry)
    requires Enabled(w, Note(named, connection)) && e in w.ledger.unsynced
    requires GenerationsBounded(w.ledger)
    ensures Survives(e, Next(w, Note(named, connection)).ledger)
  {
    var v := Next(w, Note(named, connection));
    var i :| 0 <= i < |w.ledger.unsynced| && w.ledger.unsynced[i] == e;
    assert v.ledger.unsynced[i] in v.ledger.unsynced;
  }

  lemma ReportSurvives(w: World, c: nat, e: Entry)
    requires Enabled(w, Report(c)) && e in w.ledger.unsynced
    ensures Survives(e, Next(w, Report(c)).ledger)
  {
    var v := Next(w, Report(c));
    var i :| 0 <= i < |w.ledger.unsynced| && w.ledger.unsynced[i] == e;
    assert v.ledger.unsynced[i] in v.ledger.unsynced;
  }

  lemma DischargeProven(w: World, c: nat, e: Entry)
    requires Core(w) && ProvenanceInv(w) && WindowsInv(w) && Enabled(w, Discharge(c)) && !w.ledger.exhausted
    requires e in w.ledger.unsynced && e !in Next(w, Discharge(c)).ledger.unsynced
    ensures Discharged(w, Discharge(c), e.oldest, e.generation)
    ensures w.callers[c].q.scope.Covers(e.inode)
  {
    var q := w.callers[c].q;
    assert e.AnsweredBy(q.scope, q.snapshot);
    var i :| 0 <= i < |w.ledger.unsynced| && w.ledger.unsynced[i] == e;
    assert Recorded(w, w.ledger.unsynced[i].oldest, w.ledger.unsynced[i].generation);
    assert Backed(w, q, w.callers[c].verdict);
  }

  lemma OrphanStep(w: World, step: Step)
    requires Inv2(w) && Enabled(w, step) && w.ledger.orphan.oldest.Some?
    ensures OrphanSurvives(w.ledger.orphan, Next(w, step).ledger)
            || Discharged(w, step, w.ledger.orphan.oldest.value, w.ledger.orphan.generation)
  {
    hide AccountedInv, NewestInv, LineageInv, BarrierInv, CallersInv;
    if step.Discharge? && !w.ledger.exhausted && w.ledger.orphan.generation <= w.callers[step.c].q.snapshot {
      assert Backed(w, w.callers[step.c].q, w.callers[step.c].verdict);
    }
  }

  /** The same for the mount-wide obligation, which every scope covers. */
  lemma OrphanLeavesOnlyWhenProven(worlds: seq<World>, steps: seq<Step>, i: nat)
    requires Run(worlds, steps) && i < |steps| && worlds[i].ledger.orphan.oldest.Some?
    ensures OrphanSurvives(worlds[i].ledger.orphan, worlds[i + 1].ledger)
            || Discharged(worlds[i], steps[i], worlds[i].ledger.orphan.oldest.value, worlds[i].ledger.orphan.generation)
  {
    hide Next, Enabled, Inv2;
    RunKeepsInv2(worlds, steps, i);
    OrphanStep(worlds[i], steps[i]);
  }

  // ------------------------------------------------------------------ behind the live lineage

  /** The caller's last bind or send before step `i`: where its verdict's lineage comes from. */
  function LastUse(steps: seq<Step>, i: nat, c: nat): (j: Option<nat>)
    requires i <= |steps|
    ensures j.Some? ==> j.value < i && (steps[j.value] == Send(c) || steps[j.value] == Bind(c))
    ensures forall k :: (if j.Some? then j.value + 1 else 0) <= k < i ==> steps[k] != Send(c) && steps[k] != Bind(c)
  {
    if i == 0 then None
    else if steps[i - 1] == Send(c) || steps[i - 1] == Bind(c) then Some(i - 1)
    else LastUse(steps, i - 1, c)
  }

  /** The lineage a caller's verdict is, or will be, given under. */
  function VerdictLineage(caller: Caller): Option<nat> {
    match caller
    case Bound(_, _, lineage) => Some(lineage)
    case Issuing(_, _, lineage) => Some(lineage)
    case Sent(_, _, _, _, flush) => Some(flush.lineage)
    case Answered(_, _, _, _, flush) => Some(flush.lineage)
    case Discharging(_, verdict, _) => Some(verdict)
    case _ => None
  }

  lemma StepKeepsVerdict(w: World, step: Step, c: nat)
    requires Core(w) && Enabled(w, step) && VerdictLineage(Phase(Next(w, step), c)).Some?
    ensures VerdictLineage(Phase(Next(w, step), c)) ==
            if step == Send(c) || step == Bind(c) then Some(w.lineage) else VerdictLineage(Phase(w, c))
  {
    hide AccountedInv, TableInv, NewestInv;
    if step.TryClaim? && step.c == c {
      assert CallerInv(w, w.callers[c]);
    }
  }

  /** Whatever a caller sends or adopts, its verdict is that of the lineage live at its last use. */
  lemma {:induction false} VerdictIsLastUse(worlds: seq<World>, steps: seq<Step>, i: nat, c: nat)
    requires Run(worlds, steps) && i < |worlds| && VerdictLineage(Phase(worlds[i], c)).Some?
    ensures LastUse(steps, i, c).Some?
    ensures VerdictLineage(Phase(worlds[i], c)).value == worlds[LastUse(steps, i, c).value].lineage
  {
    hide Next, Enabled, Core;
    assert i > 0;
    RunKeepsInv(worlds, steps, i - 1);
    StepKeepsVerdict(worlds[i - 1], steps[i - 1], c);
    if steps[i - 1] != Send(c) && steps[i - 1] != Bind(c) {
      VerdictIsLastUse(worlds, steps, i - 1, c);
    }
  }

  /** A connection of a lineage above `lineage` was installed in steps j..i. */
  ghost predicate Overtaken(steps: seq<Step>, j: nat, i: nat, lineage: nat)
    requires j <= i <= |steps|
  {
    exists k :: j <= k < i && steps[k].Install? && steps[k].token > lineage
  }

  lemma OnlyInstallsMove(w: World, step: Step)
    requires Enabled(w, step)
    ensures Next(w, step).lineage == if step.Install? then step.token else w.lineage
    ensures w.lineage <= Next(w, step).lineage
  {
  }

  lemma {:induction false} LineageMovesByInstall(worlds: seq<World>, steps: seq<Step>, j: nat, i: nat, lineage: nat)
    requires Run(worlds, steps) && j <= i < |worlds| && worlds[j].lineage <= lineage
    ensures worlds[i].lineage > lineage <==> Overtaken(steps, j, i, lineage)
    decreases i
  {
    hide Next, Enabled;
    if j < i {
      LineageMovesByInstall(worlds, steps, j, i - 1, lineage);
      OnlyInstallsMove(worlds[i - 1], steps[i - 1]);
      if Overtaken(steps, j, i - 1, lineage) {
        var k :| j <= k < i - 1 && steps[k].Install? && steps[k].token > lineage;
        assert Overtaken(steps, j, i, lineage);
      } else if worlds[i].lineage > lineage {
        assert steps[i - 1].Install? && steps[i - 1].token > lineage;
      }
    }
  }

  /** A discharged obligation is older than the live lineage if and only if a newer lineage was
      installed after its caller last bound or sent, whether before the grant or after it. */
  lemma DischargedBehindLive(worlds: seq<World>, steps: seq<Step>, i: nat, e: Entry)
    requires Run(worlds, steps) && i < |steps| && e in worlds[i].ledger.unsynced
    requires steps[i].Discharge? && e !in worlds[i + 1].ledger.unsynced
    ensures LastUse(steps, i, steps[i].c).Some?
    ensures e.oldest < worlds[i].lineage <==> Overtaken(steps, LastUse(steps, i, steps[i].c).value, i, e.oldest)
    ensures e.oldest == worlds[LastUse(steps, i, steps[i].c).value].lineage
  {
    var c := steps[i].c;
    RunKeepsInv2(worlds, steps, i);
    DischargeProven(worlds[i], c, e);
    VerdictIsLastUse(worlds, steps, i, c);
    LineageMovesByInstall(worlds, steps, LastUse(steps, i, c).value, i, e.oldest);
  }

  /** The mount-wide obligation is discharged behind the live lineage in the same case and no other. */
  lemma OrphanDischargedBehindLive(worlds: seq<World>, steps: seq<Step>, i: nat)
    requires Run(worlds, steps) && i < |steps| && worlds[i].ledger.orphan.oldest.Some?
    requires steps[i].Discharge? && !OrphanSurvives(worlds[i].ledger.orphan, worlds[i + 1].ledger)
    ensures LastUse(steps, i, steps[i].c).Some?
    ensures var oldest := worlds[i].ledger.orphan.oldest.value;
            && (oldest < worlds[i].lineage <==> Overtaken(steps, LastUse(steps, i, steps[i].c).value, i, oldest))
            && oldest == worlds[LastUse(steps, i, steps[i].c).value].lineage
  {
    var c := steps[i].c;
    RunKeepsInv2(worlds, steps, i);
    OrphanStep(worlds[i], steps[i]);
    VerdictIsLastUse(worlds, steps, i, c);
    LineageMovesByInstall(worlds, steps, LastUse(steps, i, c).value, i, worlds[i].ledger.orphan.oldest.value);
  }

  lemma Extend(worlds: seq<World>, steps: seq<Step>, step: Step) returns (w: World, more: seq<World>)
    requires Run(worlds, steps) && Enabled(worlds[|steps|], step)
    ensures w == Next(worlds[|steps|], step)
    ensures more == worlds + [w] && Run(more, steps + [step])
  {
    w := Next(worlds[|steps|], step);
    more := worlds + [w];
  }

  /** One mutation under lineage 1 ... */
  lemma NotedPrefix() returns (worlds: seq<World>, steps: seq<Step>)
    ensures |steps| == 1 && Run(worlds, steps)
    ensures var w := worlds[1];
            && w.ledger == Ledger(1, false, [Entry(7, 1, 1, false)], Orphan(None, 0, false), None, None)
            && w.status == Connected && w.epoch == 0 && w.lineage == 1 && w.callers == map[]
  {
    var w0 := World(EMPTY, Connected, 0, 1, map[0 := 1], map[], [], {}, {});
    worlds, steps := [w0], [];
    var w;
    w, worlds := Extend(worlds, steps, Note(Some(7), 0));
    steps := steps + [Note(Some(7), 0)];
    assert w.ledger.unsynced == [Entry(7, 1, 1, false)];
  }

  /** ... an fsync that has taken its snapshot ... */
  lemma SnapshotPrefix() returns (worlds: seq<World>, steps: seq<Step>)
    ensures |steps| == 2 && Run(worlds, steps)
    ensures var w := worlds[2];
            && w.ledger == Ledger(1, false, [Entry(7, 1, 1, false)], Orphan(None, 0, false), None, None)
            && w.status == Connected && w.epoch == 0 && w.lineage == 1
            && w.callers == map[0 := Snapped(Request(Inode(7), 1, 1, 1))]
  {
    worlds, steps := NotedPrefix();
    assert OldestCovered([Entry(7, 1, 1, false)], Inode(7)) == Some(1);
    var w;
    w, worlds := Extend(worlds, steps, Begin(0, Inode(7)));
    steps := steps + [Begin(0, Inode(7))];
  }

  /** ... that fsync has sent its flush ... */
  lemma SentPrefix() returns (worlds: seq<World>, steps: seq<Step>)
    ensures |steps| == 5 && Run(worlds, steps)
    ensures var w := worlds[5];
            && w.ledger.unsynced == [Entry(7, 1, 1, false)] && !w.ledger.exhausted
            && w.status == Connected && w.epoch == 0 && w.lineage == 1
            && Phase(w, 0) == Sent(Request(Inode(7), 1, 1, 1), 0, 1, 0, Flush(1, |w.history|))
  {
    worlds, steps := SnapshotPrefix();
    var w;
    w, worlds := Extend(worlds, steps, Bind(0));
    steps := steps + [Bind(0)];
    w, worlds := Extend(worlds, steps, TryClaim(0, false));
    steps := steps + [TryClaim(0, false)];
    w, worlds := Extend(worlds, steps, Send(0));
    steps := steps + [Send(0)];
  }

  /** ... and got its grant. */
  lemma VerdictPrefix() returns (worlds: seq<World>, steps: seq<Step>)
    ensures |steps| == 7 && Run(worlds, steps)
    ensures var w := worlds[7];
            && w.ledger.unsynced == [Entry(7, 1, 1, false)] && !w.ledger.exhausted
            && w.status == Connected && w.lineage == 1
            && Phase(w, 0) == Discharging(Request(Inode(7), 1, 1, 1), 1, false)
  {
    worlds, steps := SentPrefix();
    var w;
    w, worlds := Extend(worlds, steps, Grant(0));
    steps := steps + [Grant(0)];
    w, worlds := Extend(worlds, steps, Finish(0));
    steps := steps + [Finish(0)];
  }

  /** One run that shows it: a mutation under lineage 1, its fsync granted, and a failover to
      lineage 2 before the discharge. */
  lemma DischargedBehindLiveHappens() returns (worlds: seq<World>, steps: seq<Step>)
    ensures |steps| == 10 && Run(worlds, steps) && steps[9] == Discharge(0)
    ensures Entry(7, 1, 1, false) in worlds[9].ledger.unsynced
    ensures Entry(7, 1, 1, false) !in worlds[10].ledger.unsynced
    ensures worlds[9].lineage == 2
  {
    worlds, steps := VerdictPrefix();
    var w;
    w, worlds := Extend(worlds, steps, Retire(false));
    steps := steps + [Retire(false)];
    w, worlds := Extend(worlds, steps, Install(2));
    steps := steps + [Install(2)];
    w, worlds := Extend(worlds, steps, Discharge(0));
    steps := steps + [Discharge(0)];
    assert Entry(7, 1, 1, false).AnsweredBy(Inode(7), 1);
  }

  /** ... that fsync sent its flush and then lost its connection to a failover ... */
  lemma ReplacedPrefix() returns (worlds: seq<World>, steps: seq<Step>)
    ensures |steps| == 7 && Run(worlds, steps)
    ensures var w := worlds[7];
            && w.ledger.unsynced == [Entry(7, 1, 1, false)] && !w.ledger.exhausted && w.lineage == 2
            && Phase(w, 0) == Sent(Request(Inode(7), 1, 1, 1), 0, 1, 0, Flush(1, |w.history|))
  {
    worlds, steps := SentPrefix();
    var w;
    w, worlds := Extend(worlds, steps, Retire(false));
    steps := steps + [Retire(false)];
    w, worlds := Extend(worlds, steps, Install(2));
    steps := steps + [Install(2)];
  }

  /** Another, with the failover before the grant of a flush already sent. */
  lemma ReplacedBeforeGrantHappens() returns (worlds: seq<World>, steps: seq<Step>)
    ensures |steps| == 10 && Run(worlds, steps) && steps[7] == Grant(0) && steps[9] == Discharge(0)
    ensures worlds[7].lineage == worlds[9].lineage == 2
    ensures Entry(7, 1, 1, false) in worlds[9].ledger.unsynced
    ensures Entry(7, 1, 1, false) !in worlds[10].ledger.unsynced
  {
    worlds, steps := ReplacedPrefix();
    var w;
    w, worlds := Extend(worlds, steps, Grant(0));
    steps := steps + [Grant(0)];
    w, worlds := Extend(worlds, steps, Finish(0));
    steps := steps + [Finish(0)];
    w, worlds := Extend(worlds, steps, Discharge(0));
    steps := steps + [Discharge(0)];
    assert Entry(7, 1, 1, false).AnsweredBy(Inode(7), 1);
  }
}
