/** Every interleaving of mutations, fsyncs and failovers on one session.

    A `World` is the durability ledger, the live connection's epoch and lineage
    and the progress of every fsync caller, together with three history
    variables no code reads: the acknowledged mutations in stamp order, the
    server-wide flushes that succeeded, and the stamps a returned ESTALE
    already answered for. A step is one critical section of
    kernel/client/durability.rs or kernel/client/session.rs, or one event of
    the server. */
module FsyncProtocol {
  import opened Wrappers
  import opened Durability

  datatype Status = Connected | Lost | Dead

  /** One acknowledged mutation; its stamp is its position in the history, from one. */
  datatype Mutation = Mutation(inode: Option<nat>, token: nat, orphaned: bool)

  /** One flush: the lineage it ran under and how many mutations were acknowledged when it was sent. */
  datatype Flush = Flush(lineage: nat, issued: nat)

  /** What `fsync_snapshot` gave one caller; `begun` counts the mutations acknowledged by then. */
  datatype Request = Request(scope: Scope, token: nat, snapshot: nat, begun: nat)

  datatype Caller =
    | Snapped(q: Request)
    | Bound(q: Request, epoch: nat, lineage: nat)
    | Issuing(q: Request, epoch: nat, lineage: nat)
    | Sent(q: Request, epoch: nat, lineage: nat, sentEpoch: nat, flush: Flush)
    | Answered(q: Request, epoch: nat, lineage: nat, sentEpoch: nat, flush: Flush)
    | Failed(q: Request, epoch: nat, stale: bool)
    | Discharging(q: Request, verdict: nat, adopted: bool)
    | Reporting(q: Request)
    | Succeeded(q: Request, adopted: bool)
    | Errored

  datatype World = World(
    ledger: Ledger,
    status: Status,
    epoch: nat,
    lineage: nat,
    lineages: map<nat, nat>,
    callers: map<nat, Caller>,
    history: seq<Mutation>,
    flushes: set<Flush>,
    answered: set<nat>)

  datatype Step =
    | Retire(terminal: bool)
    | Install(token: nat)
    | Note(named: Option<nat>, connection: nat)
    | Begin(c: nat, scope: Scope)
    | Bind(c: nat)
    | TryClaim(c: nat, expired: bool)
    | Interrupt(c: nat)
    | Send(c: nat)
    | Grant(c: nat)
    | Refuse(c: nat, stale: bool)
    | Finish(c: nat)
    | Discharge(c: nat)
    | Report(c: nat)

  // ------------------------------------------------------------------ steps

  /** The mutation that took this stamp. */
  function Nth(history: seq<Mutation>, stamp: nat): Mutation
    requires 0 < stamp <= |history|
  {
    history[stamp - 1]
  }

  predicate CoversMutation(scope: Scope, m: Mutation) {
    m.orphaned || m.inode.None? || scope.Covers(m.inode.value)
  }

  /** The stamps an fsync with this snapshot speaks for. */
  function CoveredStamps(history: seq<Mutation>, q: Request): set<nat> {
    set k | 0 < k <= |history| && k <= q.snapshot && CoversMutation(q.scope, Nth(history, k))
  }

  function Snapshot(w: World, scope: Scope): Request {
    Request(scope, SnapshotToken(w.ledger, scope), w.ledger.stamp, |w.history|)
  }

  function With(w: World, c: nat, caller: Caller): World {
    w.(callers := w.callers[c := caller])
  }

  /** A caller that has not begun is like one whose last fsync returned. */
  function Phase(w: World, c: nat): Caller {
    if c in w.callers then w.callers[c] else Errored
  }

  /** When a step may be taken. The last three lines of `Install` and `Note` and
      the verdict in `Grant` are what the server is trusted for: lineage tokens
      are nonzero and never decrease, a reply comes from a connection that was
      installed, and a flush is granted only to a token that is zero or the
      connection's own lineage. */
  predicate Enabled(w: World, step: Step) {
    match step
    case Retire(terminal) => w.status.Connected? || (terminal && w.status.Lost?)
    case Install(token) => w.status.Lost? && 0 < token && w.lineage <= token
    case Note(named, connection) => connection in w.lineages
    case Begin(c, scope) =>
      !w.status.Dead? && (Phase(w, c).Succeeded? || Phase(w, c).Errored?)
    case Bind(c) => Phase(w, c).Snapped? && w.status.Connected?
    case TryClaim(c, expired) => Phase(w, c).Bound? && !w.status.Dead?
    case Interrupt(c) => (Phase(w, c).Snapped? || Phase(w, c).Bound?)
    case Send(c) => (Phase(w, c).Issuing? || Phase(w, c).Sent?) && w.status.Connected?
    case Grant(c) =>
      var x := Phase(w, c);
      x.Sent? && (x.q.token == 0 || x.q.token == x.flush.lineage)
    case Refuse(c, stale) => (Phase(w, c).Issuing? || Phase(w, c).Sent?)
    case Finish(c) => (Phase(w, c).Answered? || Phase(w, c).Failed?)
    case Discharge(c) => Phase(w, c).Discharging?
    case Report(c) => Phase(w, c).Reporting?
  }

  function Claimed(w: World, c: nat, expired: bool): World
    requires Enabled(w, TryClaim(c, expired))
  {
    var b := w.callers[c];
    match (if expired then Issue else ClaimPass(w.ledger, b.epoch, b.q.snapshot))
    case Wait => w
    case Issue =>
      With(w, c, Issuing(b.q, b.epoch, b.lineage)).(ledger := StartBarrier(w.ledger, b.epoch, b.q.snapshot))
    case Adopt(lineage) =>
      With(w, c, if b.q.token != 0 && b.q.token != lineage then Reporting(b.q) else Discharging(b.q, lineage, true))
  }

  function Finished(w: World, c: nat): World
    requires Enabled(w, Finish(c))
  {
    match w.callers[c]
    case Answered(q, epoch, lineage, _, flush) =>
      With(w, c, Discharging(q, flush.lineage, false))
      .(ledger := FinishBarrier(w.ledger, w.epoch, epoch, q.snapshot, Some(lineage)))
    case Failed(q, epoch, stale) =>
      With(w, c, if stale then Reporting(q) else Errored)
      .(ledger := FinishBarrier(w.ledger, w.epoch, epoch, q.snapshot, None))
  }

  function Next(w: World, step: Step): World
    requires Enabled(w, step)
  {
    match step
    case Retire(terminal) => w.(status := if terminal then Dead else Lost, epoch := w.epoch + 1)
    case Install(token) =>
      w.(status := Connected, lineage := token, lineages := w.lineages[w.epoch := token])
    case Note(named, connection) =>
      var token := w.lineages[connection];
      w.(ledger := NoteUnsynced(w.ledger, named, token),
         history := w.history + [Mutation(named, token, Orphaned(w.ledger.unsynced, named))])
    case Begin(c, scope) =>
      With(w, c, Snapped(Snapshot(w, scope)))
    case Bind(c) => With(w, c, Bound(w.callers[c].q, w.epoch, w.lineage))
    case TryClaim(c, expired) => Claimed(w, c, expired)
    case Interrupt(c) => With(w, c, Errored)
    case Send(c) =>
      var b := w.callers[c];
      With(w, c, Sent(b.q, b.epoch, b.lineage, w.epoch, Flush(w.lineage, |w.history|)))
    case Grant(c) =>
      var b := w.callers[c];
      With(w, c, Answered(b.q, b.epoch, b.lineage, b.sentEpoch, b.flush))
      .(flushes := w.flushes + {b.flush})
    case Refuse(c, stale) => With(w, c, Failed(w.callers[c].q, w.callers[c].epoch, stale))
    case Finish(c) => Finished(w, c)
    case Discharge(c) =>
      var q := w.callers[c].q;
      With(w, c, Succeeded(q, w.callers[c].adopted)).(ledger := ClearUnsynced(w.ledger, q.scope, q.snapshot))
    case Report(c) =>
      var q := w.callers[c].q;
      With(w, c, Errored)
      .(ledger := ReportUnsynced(w.ledger, q.scope, q.snapshot),
        answered := w.answered + CoveredStamps(w.history, q))
  }

  /** A session just connected under lineage `token`. */
  predicate Initial(w: World) {
    0 < w.lineage && w == World(EMPTY, Connected, 0, w.lineage, map[0 := w.lineage], map[], [], {}, {})
  }

  /** A run: an initial world and any finite interleaving of enabled steps. */
  ghost predicate Run(worlds: seq<World>, steps: seq<Step>) {
    && |worlds| == |steps| + 1
    && Initial(worlds[0])
    && forall i :: 0 <= i < |steps| ==> Enabled(worlds[i], steps[i]) && worlds[i + 1] == Next(worlds[i], steps[i])
  }

  // ------------------------------------------------------------------ what must hold

  /** A successful flush under the mutation's own lineage was sent after its acknowledgement. */
  ghost predicate Verified(w: World, stamp: nat)
    requires 0 < stamp <= |w.history|
  {
    exists f :: f in w.flushes && f.lineage == Nth(w.history, stamp).token && stamp <= f.issued
  }

  ghost predicate Settled(w: World, stamp: nat)
    requires 0 < stamp <= |w.history|
  {
    stamp in w.answered || Verified(w, stamp)
  }

  /** The k-th mutation is inside an obligation of this generation. Past exhaustion generations no
      longer tell, and nothing is discharged by them. */
  predicate Within(l: Ledger, k: nat, generation: nat) {
    k <= generation || l.exhausted
  }

  /** An obligation in the table still answers for the mutation. */
  ghost predicate Held(l: Ledger, m: Mutation, k: nat) {
    if m.orphaned || m.inode.None? then
      l.orphan.oldest.Some? && l.orphan.oldest.value <= m.token && Within(l, k, l.orphan.generation)
    else
      exists i :: 0 <= i < |l.unsynced| && HeldAt(l, i, m, k)
  }

  predicate HeldAt(l: Ledger, i: nat, m: Mutation, k: nat)
    requires i < |l.unsynced|
  {
    Some(l.unsynced[i].inode) == m.inode && l.unsynced[i].oldest <= m.token && Within(l, k, l.unsynced[i].generation)
  }

  /** The mutation is filed under this entry. */
  predicate FiledHere(e: Entry, m: Mutation) {
    !m.orphaned && m.inode == Some(e.inode)
  }

  /** The mutation is folded into this entry, and the entry's failure was reported. */
  predicate ReportedHere(l: Ledger, e: Entry, m: Mutation, k: nat) {
    e.reported && Within(l, k, e.generation) && FiledHere(e, m)
  }

  /** The stamp counts the mutations until it runs out. */
  ghost predicate TableInv(w: World) {
    var l := w.ledger;
    && l.stamp == Min(|w.history|, STAMP_MAX) && (l.exhausted <==> |w.history| > STAMP_MAX)
    && Distinct(l.unsynced)
    && |l.unsynced| <= UNSYNCED_CAPACITY
    && (forall i :: 0 <= i < |l.unsynced| ==> 0 < l.unsynced[i].oldest && l.unsynced[i].generation <= l.stamp)
    && l.orphan.generation <= l.stamp
    && (l.orphan.oldest.Some? ==> 0 < l.orphan.oldest.value)
    && (forall k :: 0 <= k < |w.history| ==> w.history[k].inode.None? ==> w.history[k].orphaned)
  }

  /** Until then an obligation's generation is that of its newest mutation. */
  ghost predicate NewestInv(w: World) {
    !w.ledger.exhausted ==>
      && (forall i, k | 0 <= i < |w.ledger.unsynced| && 0 < k <= |w.history| ::
            FiledHere(w.ledger.unsynced[i], Nth(w.history, k)) ==> k <= w.ledger.unsynced[i].generation)
      && (forall k | 0 < k <= |w.history| :: Nth(w.history, k).orphaned ==> k <= w.ledger.orphan.generation)
  }

  ghost predicate LineageInv(w: World) {
    && (w.status.Connected? ==> w.epoch in w.lineages && w.lineages[w.epoch] == w.lineage)
    && (w.status.Lost? ==> w.epoch !in w.lineages)
    && (forall e :: e in w.lineages ==> e <= w.epoch && 0 < w.lineages[e] <= w.lineage)
    && (forall e, f :: e in w.lineages && f in w.lineages && e <= f ==> w.lineages[e] <= w.lineages[f])
    && (forall k :: 0 <= k < |w.history| ==> 0 < w.history[k].token <= w.lineage)
  }

  /** Every mutation is settled or still held, and a reported obligation holds only settled ones. */
  ghost predicate AccountedInv(w: World) {
    && (forall k :: 0 < k <= |w.history| ==> Settled(w, k) || Held(w.ledger, Nth(w.history, k), k))
    && (forall i, k | 0 <= i < |w.ledger.unsynced| && 0 < k <= |w.history| ::
          ReportedHere(w.ledger, w.ledger.unsynced[i], Nth(w.history, k), k) ==> Settled(w, k))
    && (w.ledger.orphan.reported ==> forall k | 0 < k <= |w.history| ::
          Nth(w.history, k).orphaned && Within(w.ledger, k, w.ledger.orphan.generation) ==> Settled(w, k))
  }

  ghost predicate BarrierInv(w: World) {
    w.ledger.done.Some? ==>
      var d := w.ledger.done.value;
      && d.epoch in w.lineages && w.lineages[d.epoch] == d.lineage
      && exists f :: f in w.flushes && f.lineage == d.lineage && d.stamp <= f.issued
  }

  /** The window of an fsync is the mutations acknowledged before it began. Its snapshot is
      exactly that, unless stamps had run out. */
  ghost predicate Opened(w: World, q: Request) {
    q.snapshot <= q.begun <= |w.history| && (q.snapshot < q.begun ==> w.ledger.exhausted)
  }

  /** Every covered mutation in the window is settled, or no older than the token sent. */
  ghost predicate Promise(w: World, q: Request) {
    && Opened(w, q)
    && forall k :: 0 < k <= q.begun && CoversMutation(q.scope, Nth(w.history, k)) ==>
         Settled(w, k) || (0 < q.token <= Nth(w.history, k).token)
  }

  ghost predicate AllSettled(w: World, q: Request) {
    && q.begun <= |w.history|
    && forall k :: 0 < k <= q.begun && CoversMutation(q.scope, Nth(w.history, k)) ==> Settled(w, k)
  }

  /** The first `n` mutations were acknowledged under a lineage no newer than `lineage`. */
  ghost predicate NoNewer(w: World, n: nat, lineage: nat) {
    && n <= |w.history|
    && forall k :: 0 < k <= n ==> Nth(w.history, k).token <= lineage
  }

  ghost predicate OnConnection(w: World, q: Request, epoch: nat, lineage: nat) {
    epoch in w.lineages && w.lineages[epoch] == lineage && NoNewer(w, q.begun, lineage)
  }

  /** A success vouches for its window: always by its own barrier, by an adopted one only if its
      snapshot tells the window apart from what came later. */
  predicate Vouches(q: Request, adopted: bool) {
    !adopted || q.snapshot == q.begun
  }

  ghost predicate CallerInv(w: World, caller: Caller) {
    match caller
    case Snapped(q) => Promise(w, q)
    case Bound(q, epoch, lineage) => Promise(w, q) && OnConnection(w, q, epoch, lineage)
    case Issuing(q, epoch, lineage) => Promise(w, q) && OnConnection(w, q, epoch, lineage)
    case Sent(q, epoch, lineage, sentEpoch, flush) =>
      Promise(w, q) && OnConnection(w, q, epoch, lineage)
      && OnConnection(w, q, sentEpoch, flush.lineage) && epoch <= sentEpoch && q.begun <= flush.issued
    case Answered(q, epoch, lineage, sentEpoch, flush) =>
      Promise(w, q) && OnConnection(w, q, epoch, lineage)
      && OnConnection(w, q, sentEpoch, flush.lineage) && epoch <= sentEpoch && q.begun <= flush.issued
      && flush in w.flushes && (q.token == 0 || q.token == flush.lineage)
    case Failed(q, epoch, stale) => Promise(w, q)
    case Discharging(q, verdict, adopted) => Opened(w, q) && (Vouches(q, adopted) ==> AllSettled(w, q))
    case Reporting(q) => Opened(w, q)
    case Succeeded(q, adopted) => Opened(w, q) && (Vouches(q, adopted) ==> AllSettled(w, q))
    case Errored => true
  }

  ghost predicate CallersInv(w: World) {
    forall c :: c in w.callers ==> CallerInv(w, w.callers[c])
  }

  ghost predicate Core(w: World) {
    TableInv(w) && NewestInv(w) && LineageInv(w) && AccountedInv(w) && BarrierInv(w) && CallersInv(w)
  }

  // ------------------------------------------------------------------ stability

  /** What one step may do to the history variables: they only grow. */
  ghost predicate Grows(w: World, v: World) {
    && w.history <= v.history
    && w.flushes <= v.flushes
    && w.answered <= v.answered
    && (w.ledger.exhausted ==> v.ledger.exhausted)
    && (forall e :: e in w.lineages ==> e in v.lineages && v.lineages[e] == w.lineages[e])
  }

  lemma SettledGrows(w: World, v: World, stamp: nat)
    requires Grows(w, v) && 0 < stamp <= |w.history| && Settled(w, stamp)
    ensures Settled(v, stamp)
  {
    assert Nth(v.history, stamp) == Nth(w.history, stamp);
  }

  lemma CallerGrows(w: World, v: World, caller: Caller)
    requires Grows(w, v) && CallerInv(w, caller)
    ensures CallerInv(v, caller)
  {
    assert forall k :: 0 < k <= |w.history| ==> Nth(v.history, k) == Nth(w.history, k);
    forall k | 0 < k <= |w.history| && Settled(w, k) ensures Settled(v, k) {
      SettledGrows(w, v, k);
    }
  }

  /** If only caller `c` moved and its new phase is justified, every phase is. */
  lemma CallersGrow(w: World, v: World, c: nat)
    requires Grows(w, v) && CallersInv(w)
    requires forall d :: d in v.callers && d != c ==> d in w.callers && v.callers[d] == w.callers[d]
    requires c in v.callers ==> CallerInv(v, v.callers[c])
    ensures CallersInv(v)
  {
    forall d | d in v.callers ensures CallerInv(v, v.callers[d]) {
      if d != c {
        CallerGrows(w, v, w.callers[d]);
      }
    }
  }

  /** Nobody's phase changed. */
  lemma SameCallers(w: World, v: World)
    requires Grows(w, v) && CallersInv(w) && v.callers == w.callers
    ensures CallersInv(v)
  {
    forall d | d in v.callers ensures CallerInv(v, v.callers[d]) {
      CallerGrows(w, v, w.callers[d]);
    }
  }

  /** The same ledger accounts for the same history under more flushes and answers. */
  lemma AccountedGrows(w: World, v: World)
    requires Grows(w, v) && v.history == w.history && AccountedInv(w)
    requires v.ledger.unsynced == w.ledger.unsynced && v.ledger.orphan == w.ledger.orphan
    requires v.ledger.exhausted == w.ledger.exhausted
    ensures AccountedInv(v)
  {
    forall k | 0 < k <= |w.history| && Settled(w, k) ensures Settled(v, k) {
      SettledGrows(w, v, k);
    }
    forall k | 0 < k <= |v.history| ensures Settled(v, k) || Held(v.ledger, Nth(v.history, k), k) {
      if !Settled(w, k) {
        SameHeld(w.ledger, v.ledger, Nth(w.history, k), k);
      }
    }
  }

  lemma SameTable(w: World, v: World)
    requires TableInv(w) && NewestInv(w) && v.history == w.history && v.ledger.unsynced == w.ledger.unsynced
    requires v.ledger.orphan == w.ledger.orphan && v.ledger.stamp == w.ledger.stamp
    requires v.ledger.exhausted == w.ledger.exhausted
    ensures TableInv(v) && NewestInv(v)
  {
  }

  lemma SameHeld(l: Ledger, n: Ledger, m: Mutation, k: nat)
    requires Held(l, m, k) && n.unsynced == l.unsynced && n.orphan == l.orphan && n.exhausted == l.exhausted
    ensures Held(n, m, k)
  {
    if !(m.orphaned || m.inode.None?) {
      var i :| 0 <= i < |l.unsynced| && HeldAt(l, i, m, k);
      assert HeldAt(n, i, m, k);
    }
  }

  lemma BarrierGrows(w: World, v: World)
    requires Grows(w, v) && BarrierInv(w) && v.ledger.done == w.ledger.done
    ensures BarrierInv(v)
  {
  }

  // ------------------------------------------------------------------ steps that keep the ledger's table

  lemma RetireStep(w: World, terminal: bool)
    requires Core(w) && Enabled(w, Retire(terminal))
    ensures Core(Next(w, Retire(terminal)))
  {
    var v := Next(w, Retire(terminal));
    SameCallers(w, v);
    AccountedGrows(w, v);
    BarrierGrows(w, v);
  }

  lemma InstallStep(w: World, token: nat)
    requires Core(w) && Enabled(w, Install(token))
    ensures Core(Next(w, Install(token)))
  {
    var v := Next(w, Install(token));
    SameCallers(w, v);
    AccountedGrows(w, v);
    BarrierGrows(w, v);
  }

  /** A caller's move that leaves ledger and history alone. */
  lemma CallerStep(w: World, c: nat, caller: Caller)
    requires Core(w) && CallerInv(w, caller)
    ensures Core(With(w, c, caller))
  {
    var v := With(w, c, caller);
    AccountedGrows(w, v);
    BarrierGrows(w, v);
    CallerGrows(w, v, caller);
    CallersGrow(w, v, c);
  }

  /** The token covers every mutation the snapshot answers for. */
  lemma SnapshotPromises(w: World, scope: Scope)
    requires Core(w)
    ensures Promise(w, Snapshot(w, scope))
  {
    var token := SnapshotToken(w.ledger, scope);
    forall k | 0 < k <= |w.history| && CoversMutation(scope, Nth(w.history, k))
      ensures Settled(w, k) || (0 < token <= Nth(w.history, k).token)
    {
      if !Settled(w, k) {
        assert Held(w.ledger, Nth(w.history, k), k);
        if !Nth(w.history, k).orphaned {
          var i :| 0 <= i < |w.ledger.unsynced| && HeldAt(w.ledger, i, Nth(w.history, k), k);
          assert scope.Covers(w.ledger.unsynced[i].inode);
        }
      }
    }
  }

  lemma SendStep(w: World, c: nat)
    requires Core(w) && Enabled(w, Send(c))
    ensures Core(Next(w, Send(c)))
  {
    var b := w.callers[c];
    assert CallerInv(w, b);
    CallerStep(w, c, Sent(b.q, b.epoch, b.lineage, w.epoch, Flush(w.lineage, |w.history|)));
  }

  lemma GrantStep(w: World, c: nat)
    requires Core(w) && Enabled(w, Grant(c))
    ensures Core(Next(w, Grant(c)))
  {
    var v := Next(w, Grant(c));
    AccountedGrows(w, v);
    BarrierGrows(w, v);
    CallerGrows(w, v, w.callers[c]);
    CallersGrow(w, v, c);
  }

  /** A verdict that matched the token settles everything the snapshot covers. */
  lemma VerdictSettles(w: World, q: Request, f: Flush)
    requires Promise(w, q) && NoNewer(w, q.begun, f.lineage)
    requires f in w.flushes && q.begun <= f.issued
    requires q.token == 0 || q.token == f.lineage
    ensures AllSettled(w, q)
  {
    forall k | 0 < k <= q.begun && CoversMutation(q.scope, Nth(w.history, k)) ensures Settled(w, k) {
      if Nth(w.history, k).token == f.lineage {
        assert Verified(w, k);
      }
    }
  }

  lemma ClaimStep(w: World, c: nat, expired: bool)
    requires Core(w) && Enabled(w, TryClaim(c, expired))
    ensures Core(Next(w, TryClaim(c, expired)))
  {
    hide TableInv, NewestInv;
    var b := w.callers[c];
    assert CallerInv(w, b);
    match (if expired then Issue else ClaimPass(w.ledger, b.epoch, b.q.snapshot)) {
      case Wait =>
      case Issue =>
        CallerStep(w, c, Issuing(b.q, b.epoch, b.lineage));
        var mid := With(w, c, Issuing(b.q, b.epoch, b.lineage));
        var v := Next(w, TryClaim(c, expired));
        SameTable(mid, v);
        AccountedGrows(mid, v);
        BarrierGrows(mid, v);
        SameCallers(mid, v);
      case Adopt(lineage) =>
        var f :| f in w.flushes && f.lineage == lineage && w.ledger.done.value.stamp <= f.issued;
        if b.q.token == 0 || b.q.token == lineage {
          if b.q.snapshot == b.q.begun {
            VerdictSettles(w, b.q, f);
          }
          CallerStep(w, c, Discharging(b.q, lineage, true));
        } else {
          CallerStep(w, c, Reporting(b.q));
        }
    }
  }

  /** Publishing keeps what a recorded barrier vouches for. */
  lemma FinishKeepsBarrier(w: World, c: nat)
    requires LineageInv(w) && BarrierInv(w) && Enabled(w, Finish(c)) && CallerInv(w, w.callers[c])
    ensures BarrierInv(Next(w, Finish(c)))
  {
    var v := Next(w, Finish(c));
    var b := w.callers[c];
    if v.ledger.done == w.ledger.done {
      BarrierGrows(w, v);
    } else {
      assert b.sentEpoch == b.epoch == w.epoch;
      assert b.flush in v.flushes && b.flush.lineage == b.lineage;
    }
  }

  lemma FinishStep(w: World, c: nat)
    requires Core(w) && Enabled(w, Finish(c))
    ensures Core(Next(w, Finish(c)))
  {
    hide TableInv, NewestInv, BarrierInv;
    var v := Next(w, Finish(c));
    var b := w.callers[c];
    assert CallerInv(w, b);
    SameTable(w, v);
    FinishKeepsBarrier(w, c);
    AccountedGrows(w, v);
    if b.Answered? {
      VerdictSettles(w, b.q, b.flush);
    }
    assert CallerInv(w, v.callers[c]);
    CallerGrows(w, v, v.callers[c]);
    CallersGrow(w, v, c);
  }

  // ------------------------------------------------------------------ steps that change the table

  lemma DischargeTable(w: World, c: nat)
    requires Core(w) && !w.ledger.exhausted && Enabled(w, Discharge(c))
    ensures TableInv(Next(w, Discharge(c))) && NewestInv(Next(w, Discharge(c)))
  {
    var q := w.callers[c].q;
    var l := w.ledger;
    var v := Next(w, Discharge(c));
    RetainedDistinct(l.unsynced, q.scope, q.snapshot);
    forall i | 0 <= i < |v.ledger.unsynced|
      ensures 0 < v.ledger.unsynced[i].oldest && v.ledger.unsynced[i].generation <= l.stamp
      ensures exists j :: 0 <= j < |l.unsynced| && l.unsynced[j] == v.ledger.unsynced[i]
    {
      assert v.ledger.unsynced[i] in v.ledger.unsynced;
      assert v.ledger.unsynced[i] in l.unsynced;
    }
  }

  lemma DischargeAccounted(w: World, c: nat)
    requires Core(w) && !w.ledger.exhausted && Enabled(w, Discharge(c))
    ensures AccountedInv(Next(w, Discharge(c)))
  {
    var q := w.callers[c].q;
    var v := Next(w, Discharge(c));
    assert CallerInv(w, w.callers[c]);
    forall k | 0 < k <= |w.history| ensures Settled(v, k) <==> Settled(w, k) {
    }
    forall k | 0 < k <= |w.history| && !Settled(w, k) ensures Held(v.ledger, Nth(w.history, k), k) {
      var m := Nth(w.history, k);
      assert Held(w.ledger, m, k);
      if !(m.orphaned || m.inode.None?) {
        var i :| 0 <= i < |w.ledger.unsynced| && HeldAt(w.ledger, i, m, k);
        var e := w.ledger.unsynced[i];
        assert !e.AnsweredBy(q.scope, q.snapshot);
        assert e in v.ledger.unsynced;
        var j :| 0 <= j < |v.ledger.unsynced| && v.ledger.unsynced[j] == e;
        assert HeldAt(v.ledger, j, m, k);
      }
    }
    forall i, k | 0 <= i < |v.ledger.unsynced| && 0 < k <= |v.history|
                  && ReportedHere(v.ledger, v.ledger.unsynced[i], Nth(v.history, k), k)
      ensures Settled(v, k)
    {
      assert v.ledger.unsynced[i] in v.ledger.unsynced;
      var j :| 0 <= j < |w.ledger.unsynced| && w.ledger.unsynced[j] == v.ledger.unsynced[i];
      assert Settled(w, k);
    }
  }

  lemma DischargeStep(w: World, c: nat)
    requires Core(w) && Enabled(w, Discharge(c))
    ensures Core(Next(w, Discharge(c)))
  {
    var v := Next(w, Discharge(c));
    assert CallerInv(w, w.callers[c]);
    if w.ledger.exhausted {
      AccountedGrows(w, v);
    } else {
      DischargeTable(w, c);
      DischargeAccounted(w, c);
    }
    BarrierGrows(w, v);
    CallerGrows(w, v, v.callers[c]);
    CallersGrow(w, v, c);
  }

  lemma ReportAccounted(w: World, c: nat)
    requires Core(w) && !w.ledger.exhausted && Enabled(w, Report(c))
    ensures AccountedInv(Next(w, Report(c)))
  {
    var q := w.callers[c].q;
    var v := Next(w, Report(c));
    assert Grows(w, v);
    forall k | 0 < k <= |w.history| && Settled(w, k) ensures Settled(v, k) {
      SettledGrows(w, v, k);
    }
    forall k | 0 < k <= |w.history| && !Settled(w, k) ensures Held(v.ledger, Nth(w.history, k), k) {
      var m := Nth(w.history, k);
      assert Held(w.ledger, m, k);
      if !(m.orphaned || m.inode.None?) {
        var i :| 0 <= i < |w.ledger.unsynced| && HeldAt(w.ledger, i, m, k);
        assert HeldAt(v.ledger, i, m, k);
      }
    }
    forall i, k | 0 <= i < |v.ledger.unsynced| && 0 < k <= |v.history|
                  && ReportedHere(v.ledger, v.ledger.unsynced[i], Nth(v.history, k), k)
      ensures Settled(v, k)
    {
      if w.ledger.unsynced[i].reported {
        assert ReportedHere(w.ledger, w.ledger.unsynced[i], Nth(w.history, k), k);
      } else {
        assert k in CoveredStamps(w.history, q);
      }
    }
    if v.ledger.orphan.reported {
      forall k | 0 < k <= |v.history| && k <= v.ledger.orphan.generation && Nth(v.history, k).orphaned
        ensures Settled(v, k)
      {
        if w.ledger.orphan.reported {
          assert Settled(w, k);
        } else {
          assert k in CoveredStamps(w.history, q);
        }
      }
    }
  }

  lemma ReportTable(w: World, c: nat)
    requires Core(w) && Enabled(w, Report(c))
    ensures TableInv(Next(w, Report(c))) && NewestInv(Next(w, Report(c)))
  {
    var v := Next(w, Report(c));
    assert forall i :: 0 <= i < |v.ledger.unsynced| ==>
        v.ledger.unsynced[i] == w.ledger.unsynced[i].(reported := v.ledger.unsynced[i].reported);
  }

  lemma ReportStep(w: World, c: nat)
    requires Core(w) && Enabled(w, Report(c))
    ensures Core(Next(w, Report(c)))
  {
    var v := Next(w, Report(c));
    if w.ledger.exhausted {
      AccountedGrows(w, v);
    } else {
      ReportAccounted(w, c);
    }
    ReportTable(w, c);
    BarrierGrows(w, v);
    CallersGrow(w, v, c);
  }

  lemma NoteTable(w: World, named: Option<nat>, connection: nat)
    requires Core(w) && Enabled(w, Note(named, connection))
    ensures TableInv(Next(w, Note(named, connection)))
  {
  }

  lemma NoteNewest(w: World, named: Option<nat>, connection: nat)
    requires Core(w) && Enabled(w, Note(named, connection))
    ensures NewestInv(Next(w, Note(named, connection)))
  {
    var v := Next(w, Note(named, connection));
    if !v.ledger.exhausted {
      forall k | 0 < k <= |w.history| ensures Nth(v.history, k) == Nth(w.history, k) {
      }
      forall i, k | 0 <= i < |v.ledger.unsynced| && 0 < k <= |v.history|
                    && FiledHere(v.ledger.unsynced[i], Nth(v.history, k))
        ensures k <= v.ledger.unsynced[i].generation
      {
        if k <= |w.history| && i < |w.ledger.unsynced| {
          assert FiledHere(w.ledger.unsynced[i], Nth(w.history, k));
        }
      }
    }
  }

  /** Wherever a mutation is filed, it is held there and older ones stay held. */
  lemma NoteHeld(w: World, named: Option<nat>, connection: nat, k: nat)
    requires Core(w) && Enabled(w, Note(named, connection))
    requires 0 < k <= |w.history| + 1
    ensures var v := Next(w, Note(named, connection));
            (k <= |w.history| && Settled(w, k)) || Held(v.ledger, Nth(v.history, k), k)
  {
    var v := Next(w, Note(named, connection));
    var m := Nth(v.history, k);
    if k == |w.history| + 1 {
      if !m.orphaned {
        var i := IndexOf(w.ledger.unsynced, named.value);
        assert HeldAt(v.ledger, i, m, k);
      }
    } else if !Settled(w, k) {
      assert m == Nth(w.history, k);
      assert Held(w.ledger, m, k);
      if !(m.orphaned || m.inode.None?) {
        var i :| 0 <= i < |w.ledger.unsynced| && HeldAt(w.ledger, i, m, k);
        assert !ReportedHere(w.ledger, w.ledger.unsynced[i], m, k);
        assert HeldAt(v.ledger, i, m, k);
      } else {
        assert !w.ledger.orphan.reported;
      }
    }
  }

  /** An entry still reported after a mutation was filed elsewhere held only settled ones. */
  lemma NoteReported(w: World, named: Option<nat>, connection: nat, i: nat, k: nat)
    requires Core(w) && Enabled(w, Note(named, connection))
    requires var v := Next(w, Note(named, connection));
             i < |v.ledger.unsynced| && 0 < k <= |v.history|
             && ReportedHere(v.ledger, v.ledger.unsynced[i], Nth(v.history, k), k)
    ensures k <= |w.history| && Settled(w, k)
  {
    var v := Next(w, Note(named, connection));
    assert i < |w.ledger.unsynced| && v.ledger.unsynced[i] == w.ledger.unsynced[i];
    assert k <= |w.history| && Nth(v.history, k) == Nth(w.history, k);
    assert FiledHere(w.ledger.unsynced[i], Nth(w.history, k));
    assert ReportedHere(w.ledger, w.ledger.unsynced[i], Nth(w.history, k), k);
  }

  lemma NoteAccounted(w: World, named: Option<nat>, connection: nat)
    requires Core(w) && Enabled(w, Note(named, connection))
    ensures AccountedInv(Next(w, Note(named, connection)))
  {
    var v := Next(w, Note(named, connection));
    assert Grows(w, v);
    forall k | 0 < k <= |w.history| && Settled(w, k) ensures Settled(v, k) {
      SettledGrows(w, v, k);
    }
    forall k | 0 < k <= |v.history| ensures Settled(v, k) || Held(v.ledger, Nth(v.history, k), k) {
      NoteHeld(w, named, connection, k);
    }
    forall i, k | 0 <= i < |v.ledger.unsynced| && 0 < k <= |v.history|
                  && ReportedHere(v.ledger, v.ledger.unsynced[i], Nth(v.history, k), k)
      ensures Settled(v, k)
    {
      NoteReported(w, named, connection, i, k);
    }
    if v.ledger.orphan.reported {
      forall k | 0 < k <= |v.history| && Within(v.ledger, k, v.ledger.orphan.generation) && Nth(v.history, k).orphaned
        ensures Settled(v, k)
      {
        assert k <= |w.history| && Nth(v.history, k) == Nth(w.history, k);
        assert Settled(w, k);
      }
    }
  }

  lemma NoteStep(w: World, named: Option<nat>, connection: nat)
    requires Core(w) && Enabled(w, Note(named, connection))
    ensures Core(Next(w, Note(named, connection)))
  {
    var v := Next(w, Note(named, connection));
    NoteTable(w, named, connection);
    NoteNewest(w, named, connection);
    NoteAccounted(w, named, connection);
    BarrierGrows(w, v);
    SameCallers(w, v);
  }

  // ------------------------------------------------------------------ runs

  lemma StepKeepsInv(w: World, step: Step)
    requires Core(w) && Enabled(w, step)
    ensures Core(Next(w, step))
  {
    match step {
      case Retire(terminal) => RetireStep(w, terminal);
      case Install(token) => InstallStep(w, token);
      case Note(named, connection) => NoteStep(w, named, connection);
      case Begin(c, scope) =>
        SnapshotPromises(w, scope);
        CallerStep(w, c, Snapped(Snapshot(w, scope)));
      case Bind(c) =>
        assert CallerInv(w, w.callers[c]);
        CallerStep(w, c, Bound(w.callers[c].q, w.epoch, w.lineage));
      case TryClaim(c, expired) => ClaimStep(w, c, expired);
      case Interrupt(c) => CallerStep(w, c, Errored);
      case Send(c) => SendStep(w, c);
      case Grant(c) => GrantStep(w, c);
      case Refuse(c, stale) =>
        assert CallerInv(w, w.callers[c]);
        CallerStep(w, c, Failed(w.callers[c].q, w.callers[c].epoch, stale));
      case Finish(c) => FinishStep(w, c);
      case Discharge(c) => DischargeStep(w, c);
      case Report(c) => ReportStep(w, c);
    }
  }

  lemma {:induction false} RunKeepsInv(worlds: seq<World>, steps: seq<Step>, i: nat)
    requires Run(worlds, steps) && i < |worlds|
    ensures Core(worlds[i])
  {
    if i > 0 {
      RunKeepsInv(worlds, steps, i - 1);
      hide Next, Enabled, Core;
      StepKeepsInv(worlds[i - 1], steps[i - 1]);
    }
  }

  /** When an fsync begins, its window is every mutation acknowledged so far, and its snapshot tells
      that window from what follows if and only if stamps have not run out. */
  lemma SnapshotIsEverything(worlds: seq<World>, steps: seq<Step>, i: nat)
    requires Run(worlds, steps) && i < |steps| && steps[i].Begin?
    ensures Phase(worlds[i + 1], steps[i].c).Snapped?
    ensures var q := Phase(worlds[i + 1], steps[i].c).q;
            q.begun == |worlds[i].history| && (q.snapshot == q.begun <==> !worlds[i].ledger.exhausted)
  {
    RunKeepsInv(worlds, steps, i);
  }

  /** Fsync honesty. Whenever an fsync has returned success, by its own barrier, or by adopting one
      when stamps had not run out as it began, every covered mutation acknowledged before it began
      was either answered by an ESTALE already, or some successful flush under that mutation's own
      lineage was sent after it was acknowledged. */
  lemma FsyncIsHonest(worlds: seq<World>, steps: seq<Step>, i: nat, c: nat, k: nat)
    requires Run(worlds, steps) && i < |worlds|
    requires c in worlds[i].callers && worlds[i].callers[c].Succeeded?
    requires Vouches(worlds[i].callers[c].q, worlds[i].callers[c].adopted)
    requires 0 < k <= worlds[i].callers[c].q.begun <= |worlds[i].history|
    requires CoversMutation(worlds[i].callers[c].q.scope, Nth(worlds[i].history, k))
    ensures k in worlds[i].answered ||
            exists f :: f in worlds[i].flushes && f.lineage == Nth(worlds[i].history, k).token && k <= f.issued
  {
    RunKeepsInv(worlds, steps, i);
    assert CallerInv(worlds[i], worlds[i].callers[c]);
    assert Settled(worlds[i], k);
  }
}
