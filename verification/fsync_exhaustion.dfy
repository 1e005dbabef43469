/** Why fsync honesty leaves out barriers adopted once stamps have run out
    (kernel/client/durability.rs). */
module FsyncExhaustion {
  import opened Wrappers
  import opened Durability
  import opened FsyncProtocol
  import opened FsyncDischarge

  /** A session on its first connection that has only ever acknowledged mutations with no
      inode, `n` of them. */
  ghost predicate OnlyNotes(w: World, n: nat) {
    && w.ledger == Ledger(Min(n, STAMP_MAX), n > STAMP_MAX, [],
                          Orphan(if n > 0 then Some(1) else None, Min(n, STAMP_MAX), false), None, None)
    && w.status == Connected && w.epoch == 0 && w.lineage == 1 && w.lineages == map[0 := 1]
    && w.callers == map[] && |w.history| == n && w.flushes == {} && w.answered == {}
  }

  lemma {:induction false} NotesRun(n: nat) returns (worlds: seq<World>, steps: seq<Step>)
    ensures |steps| == n && Run(worlds, steps) && OnlyNotes(worlds[n], n)
  {
    if n == 0 {
      worlds, steps := [World(EMPTY, Connected, 0, 1, map[0 := 1], map[], [], {}, {})], [];
    } else {
      worlds, steps := NotesRun(n - 1);
      var w;
      w, worlds := Extend(worlds, steps, Note(None, 0));
      steps := steps + [Note(None, 0)];
    }
  }

  /** What stays put after the stamps ran out: the stamp, and the mount-wide obligation. */
  ghost predicate Spent(w: World) {
    && w.ledger.stamp == STAMP_MAX && w.ledger.exhausted && w.ledger.unsynced == []
    && w.ledger.orphan == Orphan(Some(1), STAMP_MAX, false) && w.ledger.inFlight.None?
    && w.status == Connected && w.epoch == 0 && w.lineage == 1 && w.lineages == map[0 := 1] && w.answered == {}
  }

  function Snap(): Request {
    Request(All, 1, STAMP_MAX, STAMP_MAX + 1)
  }

  /** The first fsync of such a session sends its flush ... */
  lemma FirstFsyncSends() returns (worlds: seq<World>, steps: seq<Step>)
    ensures var n := STAMP_MAX + 5;
            && |steps| == n && Run(worlds, steps) && |worlds[n].history| == STAMP_MAX + 1 && worlds[n].flushes == {}
            && Spent(worlds[n].(ledger := worlds[n].ledger.(inFlight := None))) && worlds[n].ledger.done.None?
            && worlds[n].ledger.inFlight == Some((0, STAMP_MAX))
            && worlds[n].callers == map[0 := Sent(Snap(), 0, 1, 0, Flush(1, STAMP_MAX + 1))]
  {
    worlds, steps := NotesRun(STAMP_MAX + 1);
    var w;
    w, worlds := Extend(worlds, steps, Begin(0, All));
    steps := steps + [Begin(0, All)];
    w, worlds := Extend(worlds, steps, Bind(0));
    steps := steps + [Bind(0)];
    w, worlds := Extend(worlds, steps, TryClaim(0, false));
    steps := steps + [TryClaim(0, false)];
    w, worlds := Extend(worlds, steps, Send(0));
    steps := steps + [Send(0)];
  }

  /** ... succeeds and publishes its barrier; then one more mutation is acknowledged. */
  lemma ThenOneMoreMutation() returns (worlds: seq<World>, steps: seq<Step>)
    ensures var n := STAMP_MAX + 8;
            && |steps| == n && Run(worlds, steps) && |worlds[n].history| == STAMP_MAX + 2
            && worlds[n].flushes == {Flush(1, STAMP_MAX + 1)} && Spent(worlds[n])
            && worlds[n].ledger.done == Some(Barrier(0, STAMP_MAX, 1)) && 1 !in worlds[n].callers
  {
    worlds, steps := FirstFsyncSends();
    var w;
    w, worlds := Extend(worlds, steps, Grant(0));
    steps := steps + [Grant(0)];
    w, worlds := Extend(worlds, steps, Finish(0));
    steps := steps + [Finish(0)];
    w, worlds := Extend(worlds, steps, Note(None, 0));
    steps := steps + [Note(None, 0)];
  }

  /** Past exhaustion honesty fails: adoption does not consult the flag, so an fsync begun
      after the last mutation succeeds on a barrier whose flush was sent before it. */
  lemma ExhaustedFsyncCanMislead() returns (worlds: seq<World>, steps: seq<Step>, begun: nat)
    ensures Run(worlds, steps) && begun < |steps| && steps[begun] == Begin(1, All)
    ensures var last := worlds[|steps|];
            && Phase(last, 1).Succeeded? && Phase(last, 1).adopted && worlds[begun].ledger.exhausted
            && last.answered == {} && |worlds[begun].history| == |last.history|
            && forall f :: f in last.flushes ==> f.issued < |worlds[begun].history|
  {
    worlds, steps := ThenOneMoreMutation();
    begun := |steps|;
    var w;
    w, worlds := Extend(worlds, steps, Begin(1, All));
    steps := steps + [Begin(1, All)];
    w, worlds := Extend(worlds, steps, Bind(1));
    steps := steps + [Bind(1)];
    w, worlds := Extend(worlds, steps, TryClaim(1, false));
    steps := steps + [TryClaim(1, false)];
    w, worlds := Extend(worlds, steps, Discharge(1));
    steps := steps + [Discharge(1)];
  }
}
