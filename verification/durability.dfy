/** Durability obligations of one session (kernel/client/durability.rs).

    `Ledger` is the part of the session state the durability code owns. The
    functions below are its critical sections as values; `ObligationTable` is
    the same code in its own imperative form, proved equal to them. What the
    sections guarantee over whole runs is in the module `FsyncProtocol`. */
module Durability {
  import opened Wrappers

  /** Length past which `unsynced` does not grow; further inodes go to the orphan. */
  const UNSYNCED_CAPACITY: nat := 256

  /** Largest value of the 64-bit mutation stamp. */
  const STAMP_MAX: nat := 0xFFFF_FFFF_FFFF_FFFF

  datatype Scope = Inode(target: nat) | All {
    predicate Covers(inode: nat) {
      match this
      case Inode(i) => i == inode
      case All => true
    }
  }

  datatype Entry = Entry(inode: nat, oldest: nat, generation: nat, reported: bool) {
    /** A barrier over `scope` that covers stamps up to `snapshot` leaves nothing of this entry unflushed. */
    predicate AnsweredBy(scope: Scope, snapshot: nat) {
      scope.Covers(inode) && generation <= snapshot
    }
  }

  datatype Orphan = Orphan(oldest: Option<nat>, generation: nat, reported: bool)

  datatype Barrier = Barrier(epoch: nat, stamp: nat, lineage: nat)

  datatype Ledger = Ledger(
    stamp: nat,
    exhausted: bool,
    unsynced: seq<Entry>,
    orphan: Orphan,
    inFlight: Option<(nat, nat)>,
    done: Option<Barrier>)

  /** What one pass of `claim_barrier` decides. */
  datatype Claim = Adopt(lineage: nat) | Issue | Wait

  const EMPTY: Ledger := Ledger(0, false, [], Orphan(None, 0, false), None, None)

  // ---------------------------------------------------------------- lookup

  /** First entry filed under `inode`, or the table's length. */
  function IndexOf(table: seq<Entry>, inode: nat): (k: nat)
    ensures k <= |table|
    ensures k < |table| ==> table[k].inode == inode
    ensures forall j :: 0 <= j < k ==> table[j].inode != inode
  {
    if table == [] then 0
    else if table[0].inode == inode then 0
    else
      var rest := IndexOf(table[1..], inode);
      assert forall j :: 0 <= j < |table| - 1 ==> table[1..][j] == table[j + 1];
      assert forall j :: 1 <= j < rest + 1 ==> table[j] == table[1..][j - 1];
      rest + 1
  }

  /** One entry per inode. */
  ghost predicate Distinct(table: seq<Entry>) {
    forall i, j :: 0 <= i < j < |table| ==> table[i].inode != table[j].inode
  }

  // -------------------------------------------------------------- note_unsynced

  function Stamped(l: Ledger): Ledger {
    if l.stamp < STAMP_MAX then l.(stamp := l.stamp + 1) else l.(exhausted := true)
  }

  function FoldOrphan(o: Orphan, token: nat, stamp: nat): Orphan {
    var oldest := if o.oldest.Some? && !o.reported then Min(o.oldest.value, token) else token;
    Orphan(Some(oldest), Max(o.generation, stamp), false)
  }

  function MergeEntry(e: Entry, token: nat, stamp: nat): Entry {
    Entry(e.inode, if e.reported then token else Min(e.oldest, token), stamp, false)
  }

  /** Whether a mutation on `named` cannot be filed under its inode. */
  predicate Orphaned(table: seq<Entry>, named: Option<nat>) {
    named.None? || (IndexOf(table, named.value) == |table| && |table| >= UNSYNCED_CAPACITY)
  }

  function NoteUnsynced(l: Ledger, named: Option<nat>, token: nat): Ledger {
    var s := Stamped(l);
    if Orphaned(l.unsynced, named) then
      s.(orphan := FoldOrphan(l.orphan, token, s.stamp))
    else
      var k := IndexOf(l.unsynced, named.value);
      if k < |l.unsynced| then
        s.(unsynced := l.unsynced[k := MergeEntry(l.unsynced[k], token, s.stamp)])
      else
        s.(unsynced := l.unsynced + [Entry(named.value, token, s.stamp, false)])
  }

  // -------------------------------------------------------------- fsync_snapshot

  function LeastOption(a: Option<nat>, b: Option<nat>): Option<nat> {
    if a.None? then b else if b.None? then a else Some(Min(a.value, b.value))
  }

  /** Smallest lineage among the covered per-inode obligations. */
  function OldestCovered(table: seq<Entry>, scope: Scope): (r: Option<nat>)
    ensures forall i :: 0 <= i < |table| && scope.Covers(table[i].inode) ==> r.Some? && r.value <= table[i].oldest
    ensures r.Some? ==> exists i :: 0 <= i < |table| && scope.Covers(table[i].inode) && r.value == table[i].oldest
  {
    if table == [] then None
    else
      var last := table[|table| - 1];
      var init := table[..|table| - 1];
      var rest := OldestCovered(init, scope);
      assert forall i :: 0 <= i < |init| ==> init[i] == table[i];
      if scope.Covers(last.inode) then LeastOption(rest, Some(last.oldest)) else rest
  }

  /** The token an fsync sends: zero when nothing covered is outstanding. */
  function SnapshotToken(l: Ledger, scope: Scope): nat {
    var least := LeastOption(l.orphan.oldest, OldestCovered(l.unsynced, scope));
    if least.Some? then least.value else 0
  }

  // -------------------------------------------------------------- barriers

  predicate DoneCovers(l: Ledger, epoch: nat, stamp: nat) {
    l.done.Some? && l.done.value.epoch == epoch && l.done.value.stamp >= stamp
  }

  function ClaimPass(l: Ledger, epoch: nat, stamp: nat): Claim {
    if DoneCovers(l, epoch, stamp) then Adopt(l.done.value.lineage)
    else if l.inFlight.Some? && l.inFlight.value.0 == epoch && l.inFlight.value.1 >= stamp then Wait
    else Issue
  }

  function StartBarrier(l: Ledger, epoch: nat, stamp: nat): Ledger {
    l.(inFlight := Some((epoch, stamp)))
  }

  function FinishBarrier(l: Ledger, live: nat, epoch: nat, stamp: nat, lineage: Option<nat>): Ledger {
    var flight := if l.inFlight == Some((epoch, stamp)) then None else l.inFlight;
    var newer := l.done.None? || l.done.value.epoch != epoch || l.done.value.stamp < stamp;
    var done := if lineage.Some? && live == epoch && newer
                then Some(Barrier(epoch, stamp, lineage.value)) else l.done;
    l.(inFlight := flight, done := done)
  }

  // -------------------------------------------------------------- clear and report

  function Retained(table: seq<Entry>, scope: Scope, snapshot: nat): (r: seq<Entry>)
    ensures forall e :: e in r <==> e in table && !e.AnsweredBy(scope, snapshot)
  {
    if table == [] then []
    else
      var init := table[..|table| - 1];
      var last := table[|table| - 1];
      assert forall e :: e in table <==> e in init || e == last;
      Retained(init, scope, snapshot) + if last.AnsweredBy(scope, snapshot) then [] else [last]
  }

  function ClearUnsynced(l: Ledger, scope: Scope, snapshot: nat): Ledger {
    if l.exhausted then l
    else
      var orphan := if l.orphan.generation <= snapshot
                    then Orphan(None, l.orphan.generation, false) else l.orphan;
      l.(unsynced := Retained(l.unsynced, scope, snapshot), orphan := orphan)
  }

  function Marked(e: Entry, scope: Scope, snapshot: nat): Entry {
    if e.AnsweredBy(scope, snapshot) then e.(reported := true) else e
  }

  function ReportUnsynced(l: Ledger, scope: Scope, snapshot: nat): Ledger {
    if l.exhausted then l
    else
      var orphan := if l.orphan.oldest.Some? && l.orphan.generation <= snapshot
                    then l.orphan.(reported := true) else l.orphan;
      l.(unsynced := seq(|l.unsynced|, i requires 0 <= i < |l.unsynced| => Marked(l.unsynced[i], scope, snapshot)),
         orphan := orphan)
  }

  // -------------------------------------------------------------- what the sections do, in other words

  /** An fsync of this scope speaks for mutations of this inode. */
  predicate Reaches(scope: Scope, inode: nat) {
    scope.All? || scope.target == inode
  }

  /** A covered obligation, of an inode or of the mount, is outstanding under this lineage. */
  ghost predicate Owes(table: seq<Entry>, orphan: Orphan, scope: Scope, lineage: nat) {
    || orphan.oldest == Some(lineage)
    || exists i :: 0 <= i < |table| && Reaches(scope, table[i].inode) && table[i].oldest == lineage
  }

  /** The token is the least lineage owed, or zero where nothing is. */
  ghost predicate LeastOwed(table: seq<Entry>, orphan: Orphan, scope: Scope, token: nat) {
    && (forall lineage :: Owes(table, orphan, scope, lineage) ==> Owes(table, orphan, scope, token) && token <= lineage)
    && ((forall lineage :: !Owes(table, orphan, scope, lineage)) ==> token == 0)
  }

  lemma TokenIsLeastOwed(l: Ledger, scope: Scope)
    ensures LeastOwed(l.unsynced, l.orphan, scope, SnapshotToken(l, scope))
  {
    var r := OldestCovered(l.unsynced, scope);
    var token := SnapshotToken(l, scope);
    assert forall inode :: scope.Covers(inode) == Reaches(scope, inode);
    if r.Some? {
      var i :| 0 <= i < |l.unsynced| && scope.Covers(l.unsynced[i].inode) && r.value == l.unsynced[i].oldest;
      assert Reaches(scope, l.unsynced[i].inode);
      assert Owes(l.unsynced, l.orphan, scope, r.value);
    }
    if l.orphan.oldest.Some? {
      assert Owes(l.unsynced, l.orphan, scope, l.orphan.oldest.value);
    }
  }

  predicate Files(table: seq<Entry>, inode: nat) {
    exists e :: e in table && e.inode == inode
  }

  /** A mutation filed under its inode: the entry it joins or opens is the newest and unreported, and
      keeps the older lineage unless that one's loss was reported. Every other entry stays put. */
  ghost predicate FiledUnder(before: seq<Entry>, after: seq<Entry>, inode: nat, token: nat, stamp: nat) {
    exists k :: 0 <= k < |after| && FiledAt(before, after, inode, token, stamp, k)
  }

  ghost predicate FiledAt(before: seq<Entry>, after: seq<Entry>, inode: nat, token: nat, stamp: nat, k: nat)
    requires k < |after|
  {
    && |before| <= |after| && (forall i :: 0 <= i < |before| && i != k ==> after[i] == before[i])
    && after[k].inode == inode && after[k].generation == stamp && !after[k].reported
    && if k < |before| then
         && |after| == |before| && before[k].inode == inode
         && after[k].oldest == if before[k].reported || token < before[k].oldest then token else before[k].oldest
       else
         && |after| == |before| + 1 && k == |before| && after[k].oldest == token
         && (forall i :: 0 <= i < |before| ==> before[i].inode != inode)
  }

  /** The same for the mount-wide obligation. */
  predicate FoldedInto(before: Orphan, after: Orphan, token: nat, stamp: nat) {
    && !after.reported && after.generation == (if before.generation < stamp then stamp else before.generation)
    && after.oldest == if before.oldest.Some? && !before.reported && before.oldest.value <= token then before.oldest
                       else Some(token)
  }

  // -------------------------------------------------------------- table facts

  /** `retain` keeps one entry per inode. */
  lemma {:induction false} RetainedDistinct(table: seq<Entry>, scope: Scope, snapshot: nat)
    requires Distinct(table)
    ensures Distinct(Retained(table, scope, snapshot))
    ensures |Retained(table, scope, snapshot)| <= |table|
  {
    if table != [] {
      var init := table[..|table| - 1];
      var last := table[|table| - 1];
      RetainedDistinct(init, scope, snapshot);
      var r := Retained(init, scope, snapshot);
      forall i | 0 <= i < |r| ensures r[i].inode != last.inode {
        assert r[i] in r;
        assert r[i] in init;
      }
    }
  }

  /** The obligation table in its own form: fields changed in place. */
  class ObligationTable {
    var stamp: nat
    var exhausted: bool
    var unsynced: seq<Entry>
    var orphan: Orphan
    var inFlight: Option<(nat, nat)>
    var done: Option<Barrier>

    function Value(): Ledger
      reads this
    {
      Ledger(stamp, exhausted, unsynced, orphan, inFlight, done)
    }

    constructor ()
      ensures Value() == EMPTY
    {
      stamp, exhausted, unsynced := 0, false, [];
      orphan, inFlight, done := Orphan(None, 0, false), None, None;
    }

    /** Position of the entry `note_unsynced` merges into, found by scanning. */
    method Find(inode: nat) returns (k: nat)
      ensures k == IndexOf(unsynced, inode)
    {
      k := 0;
      while k < |unsynced| && unsynced[k].inode != inode
        invariant k <= |unsynced|
        invariant forall j :: 0 <= j < k ==> unsynced[j].inode != inode
      {
        k := k + 1;
      }
    }

    method Fold(token: nat, generation: nat)
      modifies this`orphan
      ensures orphan == FoldOrphan(old(orphan), token, generation)
      ensures FoldedInto(old(orphan), orphan, token, generation)
    {
      if orphan.oldest.Some? && !orphan.reported {
        orphan := orphan.(oldest := Some(Min(orphan.oldest.value, token)));
      } else {
        orphan := orphan.(oldest := Some(token), reported := false);
      }
      orphan := orphan.(generation := Max(orphan.generation, generation));
    }

    method Note(named: Option<nat>, token: nat)
      modifies this
      ensures Value() == NoteUnsynced(old(Value()), named, token)
      ensures if old(stamp) < STAMP_MAX then stamp == old(stamp) + 1 && exhausted == old(exhausted)
              else stamp == old(stamp) && exhausted
      ensures if named.Some? && (|old(unsynced)| < UNSYNCED_CAPACITY || Files(old(unsynced), named.value))
              then orphan == old(orphan) && FiledUnder(old(unsynced), unsynced, named.value, token, stamp)
              else unsynced == old(unsynced) && FoldedInto(old(orphan), orphan, token, stamp)
      ensures inFlight == old(inFlight) && done == old(done)
    {
      if stamp < STAMP_MAX {
        stamp := stamp + 1;
      } else {
        exhausted := true;
      }
      if named.None? {
        Fold(token, stamp);
        return;
      }
      var k := Find(named.value);
      if k < |unsynced| {
        var entry := unsynced[k];
        if entry.reported {
          entry := entry.(oldest := token, reported := false);
        } else {
          entry := entry.(oldest := Min(entry.oldest, token));
        }
        assert unsynced[k] in unsynced;
        unsynced := unsynced[k := entry.(generation := stamp)];
        assert FiledAt(old(unsynced), unsynced, named.value, token, stamp, k);
        return;
      }
      if |unsynced| < UNSYNCED_CAPACITY {
        unsynced := unsynced + [Entry(named.value, token, stamp, false)];
        assert FiledAt(old(unsynced), unsynced, named.value, token, stamp, k);
      } else {
        Fold(token, stamp);
      }
    }

    method Snapshot(scope: Scope) returns (token: nat, snapshot: nat)
      ensures token == SnapshotToken(Value(), scope) && snapshot == stamp
      ensures LeastOwed(unsynced, orphan, scope, token)
    {
      var least := None;
      for i := 0 to |unsynced|
        invariant least == OldestCovered(unsynced[..i], scope)
      {
        assert unsynced[..i + 1][..i] == unsynced[..i];
        if scope.Covers(unsynced[i].inode) {
          least := LeastOption(least, Some(unsynced[i].oldest));
        }
      }
      assert unsynced[..|unsynced|] == unsynced;
      least := LeastOption(orphan.oldest, least);
      token := if least.Some? then least.value else 0;
      snapshot := stamp;
      TokenIsLeastOwed(Value(), scope);
    }

    /** One locked pass of `claim_barrier`; `expired` is the wait that timed out. */
    method ClaimBarrier(epoch: nat, snapshot: nat, expired: bool) returns (claim: Claim)
      modifies this`inFlight
      ensures claim == if expired then Issue else ClaimPass(old(Value()), epoch, snapshot)
      ensures Value() == if claim.Issue? then StartBarrier(old(Value()), epoch, snapshot) else old(Value())
      ensures claim.Adopt? <==> !expired && done.Some? && done.value.epoch == epoch && done.value.stamp >= snapshot
      ensures claim.Adopt? ==> claim.lineage == done.value.lineage
      ensures claim.Wait? <==> !expired && !claim.Adopt? && old(inFlight).Some? && old(inFlight).value.0 == epoch
                               && old(inFlight).value.1 >= snapshot
      ensures inFlight == if claim.Issue? then Some((epoch, snapshot)) else old(inFlight)
    {
      if !expired {
        if done.Some? && done.value.epoch == epoch && done.value.stamp >= snapshot {
          return Adopt(done.value.lineage);
        }
        if inFlight.Some? && inFlight.value.0 == epoch && inFlight.value.1 >= snapshot {
          return Wait;
        }
      }
      inFlight := Some((epoch, snapshot));
      return Issue;
    }

    method Finish(live: nat, epoch: nat, snapshot: nat, lineage: Option<nat>)
      modifies this`inFlight, this`done
      ensures Value() == FinishBarrier(old(Value()), live, epoch, snapshot, lineage)
      ensures inFlight == if old(inFlight) == Some((epoch, snapshot)) then None else old(inFlight)
      ensures done != old(done) ==>
                live == epoch && lineage.Some? && done == Some(Barrier(epoch, snapshot, lineage.value))
      ensures live == epoch && lineage.Some? ==> done.Some? && done.value.epoch == epoch && done.value.stamp >= snapshot
      ensures old(done).Some? && done.Some? && old(done).value.epoch == epoch ==>
                old(done).value.stamp <= done.value.stamp
    {
      if inFlight == Some((epoch, snapshot)) {
        inFlight := None;
      }
      if lineage.Some? && live == epoch {
        if done.None? || done.value.epoch != epoch || done.value.stamp < snapshot {
          done := Some(Barrier(epoch, snapshot, lineage.value));
        }
      }
    }

    method Clear(scope: Scope, snapshot: nat)
      modifies this`unsynced, this`orphan
      ensures Value() == ClearUnsynced(old(Value()), scope, snapshot)
      ensures exhausted ==> Value() == old(Value())
      ensures !exhausted ==>
                && (forall e :: e in unsynced <==>
                      e in old(unsynced) && !(Reaches(scope, e.inode) && e.generation <= snapshot))
                && (if orphan.generation <= snapshot then orphan.oldest.None? && !orphan.reported
                    else orphan == old(orphan))
      ensures orphan.generation == old(orphan).generation
    {
      if exhausted {
        return;
      }
      var kept: seq<Entry> := [];
      for i := 0 to |unsynced|
        invariant kept == Retained(unsynced[..i], scope, snapshot)
      {
        assert unsynced[..i + 1][..i] == unsynced[..i];
        if !unsynced[i].AnsweredBy(scope, snapshot) {
          kept := kept + [unsynced[i]];
        }
      }
      assert unsynced[..|unsynced|] == unsynced;
      unsynced := kept;
      if orphan.generation <= snapshot {
        orphan := orphan.(oldest := None, reported := false);
      }
    }

    method Report(scope: Scope, snapshot: nat)
      modifies this`unsynced, this`orphan
      ensures Value() == ReportUnsynced(old(Value()), scope, snapshot)
      ensures |unsynced| == |old(unsynced)|
      ensures forall i :: 0 <= i < |unsynced| ==>
                && unsynced[i].(reported := false) == old(unsynced)[i].(reported := false)
                && (unsynced[i].reported <==>
                      || old(unsynced)[i].reported
                      || (!exhausted && Reaches(scope, unsynced[i].inode) && unsynced[i].generation <= snapshot))
      ensures orphan.oldest == old(orphan).oldest && orphan.generation == old(orphan).generation
      ensures orphan.reported <==>
                || old(orphan).reported || (!exhausted && orphan.oldest.Some? && orphan.generation <= snapshot)
    {
      if exhausted {
        return;
      }
      var i := 0;
      while i < |unsynced|
        invariant i <= |unsynced| == |old(unsynced)|
        invariant forall j :: 0 <= j < i ==> unsynced[j] == Marked(old(unsynced)[j], scope, snapshot)
        invariant forall j :: i <= j < |unsynced| ==> unsynced[j] == old(unsynced)[j]
        invariant orphan == old(orphan) && exhausted == old(exhausted)
      {
        if unsynced[i].AnsweredBy(scope, snapshot) {
          unsynced := unsynced[i := unsynced[i].(reported := true)];
        }
        i := i + 1;
      }
      if orphan.oldest.Some? && orphan.generation <= snapshot {
        orphan := orphan.(reported := true);
      }
      assert unsynced == ReportUnsynced(old(Value()), scope, snapshot).unsynced;
    }
  }
}
