/** Replay records of granted byte-range locks (kernel/client/registry.rs).

    The table is a slot array. What it means is which bytes each fid holds and
    how; the functions are the critical sections as values, `LockTable` is the
    code in its own form. */
module LockTableSpec {
  import opened Wrappers
  import opened Tables
  import opened LockRanges

  const MAX_LOCK_RECORDS: nat := 1024

  /** `LOCK_TYPE_UNLCK`. */
  const UNLOCK: nat := 2

  /** How a byte is held. */
  datatype Holding = Holding(lockType: nat, procId: nat, flock: bool)

  datatype LockRecord = LockRecord(fid: nat, range: Range, how: Holding)

  type Table = seq<Option<LockRecord>>

  predicate Owned(slot: Option<LockRecord>, fid: nat) {
    slot.Some? && slot.value.fid == fid
  }

  /** The records say `fid` holds byte `b` this way. */
  ghost predicate Holds(t: Table, fid: nat, b: u64, how: Holding) {
    exists i :: 0 <= i < |t| && Owned(t[i], fid) && t[i].value.range.Has(b) && t[i].value.how == how
  }

  /** One fid's records share no byte. */
  ghost predicate Disjoint(t: Table) {
    forall i, j :: 0 <= i < j < |t| && t[i].Some? && t[j].Some? && t[i].value.fid == t[j].value.fid ==>
      Apart(t[i].value.range, t[j].value.range)
  }

  /** Disjoint records make the byte map single-valued. */
  lemma HoldsOneWay(t: Table, fid: nat, b: u64, how: Holding, other: Holding)
    requires Disjoint(t) && Holds(t, fid, b, how) && Holds(t, fid, b, other)
    ensures how == other
  {
    var i :| 0 <= i < |t| && Owned(t[i], fid) && t[i].value.range.Has(b) && t[i].value.how == how;
    var j :| 0 <= j < |t| && Owned(t[j], fid) && t[j].value.range.Has(b) && t[j].value.how == other;
    if i != j {
      ApartIsDisjoint(t[i].value.range, t[j].value.range);
    }
  }

  // ------------------------------------------------------------------ operations

  function FreeSlots(t: Table): nat {
    if t == [] then 0 else FreeSlots(t[..|t| - 1]) + if t[|t| - 1].None? then 1 else 0
  }

  function FirstFree(t: Table): nat {
    FirstVacancy(t, 0)
  }

  /** `install_lock_locked`: store in a free slot, or report that none exists. */
  function Install(t: Table, r: LockRecord): (Table, bool) {
    var k := FirstFree(t);
    if k < |t| then (t[k := Some(r)], true) else (t, false)
  }

  function Fragment(f: Option<Range>, held: LockRecord): Option<LockRecord> {
    if f.Some? then Some(held.(range := f.value)) else None
  }

  /** One pass of the walk: keep the left fragment in place, install the right one. */
  function SplitSlot(t: Table, i: nat, fid: nat, removed: Range): (r: (Table, bool))
    requires i < |t|
    ensures |r.0| == |t|
  {
    if !Owned(t[i], fid) then (t, true)
    else
      var held := t[i].value;
      var f := Subtract(held.range, removed);
      var kept := t[i := Fragment(f.left, held)];
      if f.right.Some? then Install(kept, held.(range := f.right.value)) else (kept, true)
  }

  /** `unlock_recorded_range_locked` from slot `i` on. */
  function UnlockFrom(t: Table, i: nat, fid: nat, removed: Range): (r: (Table, bool))
    requires i <= |t|
    ensures |r.0| == |t|
    decreases |t| - i
  {
    if i == |t| then (t, true)
    else
      var (next, stored) := SplitSlot(t, i, fid, removed);
      var (rest, all) := UnlockFrom(next, i + 1, fid, removed);
      (rest, stored && all)
  }

  /** Take the range out of the fid's records, then add it as a record unless it is an unlock. */
  function Record(t: Table, r: LockRecord): (Table, bool) {
    var (cleared, stored) := UnlockFrom(t, 0, r.fid, r.range);
    if r.how.lockType == UNLOCK then (cleared, stored)
    else
      var (full, installed) := Install(cleared, r);
      (full, stored && installed)
  }

  function Forget(t: Table, fid: nat): Table {
    seq(|t|, i requires 0 <= i < |t| => if Owned(t[i], fid) then None else t[i])
  }

  // ------------------------------------------------------------------ counting free slots

  lemma {:induction false} FreeSlotsUpdate(t: Table, i: nat, slot: Option<LockRecord>)
    requires i < |t|
    ensures FreeSlots(t[i := slot]) ==
            FreeSlots(t) - (if t[i].None? then 1 else 0) + (if slot.None? then 1 else 0)
  {
    var u := t[i := slot];
    var n := |t| - 1;
    if i == n {
      assert u[..n] == t[..n];
    } else {
      assert u[..n] == t[..n][i := slot];
      FreeSlotsUpdate(t[..n], i, slot);
    }
  }

  lemma {:induction false} FreeSlotsPositive(t: Table)
    ensures FreeSlots(t) > 0 <==> FirstFree(t) < |t|
  {
    if t != [] {
      var init := t[..|t| - 1];
      FreeSlotsPositive(init);
      assert FirstFree(init) < |init| ==> t[FirstFree(init)].None?;
      assert FirstFree(t) < |init| ==> init[FirstFree(t)].None?;
    }
  }

  lemma {:induction false} FreeSlotsAppend(t: Table, u: Table)
    ensures FreeSlots(t + u) == FreeSlots(t) + FreeSlots(u)
  {
    if u == [] {
      assert t + u == t;
    } else {
      var n := |u| - 1;
      assert (t + u)[..|t| + n] == t + u[..n];
      FreeSlotsAppend(t, u[..n]);
    }
  }

  lemma {:induction false} FreeSlotsGrow(t: Table, u: Table)
    requires |t| == |u| && forall i :: 0 <= i < |t| && t[i].None? ==> u[i].None?
    ensures FreeSlots(t) <= FreeSlots(u)
  {
    if t != [] {
      FreeSlotsGrow(t[..|t| - 1], u[..|u| - 1]);
    }
  }

  // ------------------------------------------------------------------ one pass of the walk

  /** The slots below `i` hold nothing of the removed range for `fid`. */
  ghost predicate Cleared(t: Table, i: nat, fid: nat, removed: Range)
    requires i <= |t|
  {
    forall j :: 0 <= j < i && Owned(t[j], fid) ==> Apart(t[j].value.range, removed)
  }

  /** The record at `i` surrounds the removed range and would split. */
  predicate Splits(t: Table, i: nat, fid: nat, removed: Range)
    requires i < |t|
  {
    Owned(t[i], fid) && Subtract(t[i].value.range, removed).left.Some?
    && Subtract(t[i].value.range, removed).right.Some?
  }

  ghost predicate SplitAhead(t: Table, i: nat, fid: nat, removed: Range)
    requires i <= |t|
  {
    exists j :: i <= j < |t| && Splits(t, j, fid, removed)
  }

  /** Free slots a walk from `i` needs. */
  ghost function Needs(t: Table, i: nat, fid: nat, removed: Range): nat
    requires i <= |t|
  {
    if SplitAhead(t, i, fid, removed) then 1 else 0
  }

  /** A pass over a record of `fid` writes its left fragment at `i` and its right
      one at `k`, which was free or is `i` itself. */
  ghost predicate SplitInto(t: Table, i: nat, fid: nat, removed: Range, k: nat)
    requires i < |t| && Owned(t[i], fid)
  {
    var held := t[i].value;
    var f := Subtract(held.range, removed);
    && k < |t| && (k == i || t[k].None?)
    && (f.right.None? ==> k == i)
    && (f.right.Some? && k == i ==> f.left.None?)
    && SplitSlot(t, i, fid, removed).0 ==
       (if f.right.Some? then t[i := Fragment(f.left, held)][k := Some(held.(range := f.right.value))]
        else t[i := Fragment(f.left, held)])
  }

  lemma SplitSlotShape(t: Table, i: nat, fid: nat, removed: Range) returns (k: nat)
    requires i < |t| && Owned(t[i], fid)
    requires Splits(t, i, fid, removed) ==> FreeSlots(t) > 0
    ensures SplitSlot(t, i, fid, removed).1
    ensures SplitInto(t, i, fid, removed, k)
  {
    var held := t[i].value;
    var f := Subtract(held.range, removed);
    k := i;
    if f.right.Some? {
      var kept := t[i := Fragment(f.left, held)];
      FreeSlotsUpdate(t, i, Fragment(f.left, held));
      FreeSlotsPositive(kept);
      k := FirstFree(kept);
    }
  }

  /** A pass removes exactly the range's bytes from the record it visits. */
  lemma SplitSlotHolds(t: Table, i: nat, fid: nat, removed: Range, g: nat, b: u64, how: Holding)
    requires i < |t| && (Splits(t, i, fid, removed) ==> FreeSlots(t) > 0)
    ensures Holds(SplitSlot(t, i, fid, removed).0, g, b, how) ==> Holds(t, g, b, how)
    ensures Holds(t, g, b, how) && !(g == fid && removed.Has(b)) ==> Holds(SplitSlot(t, i, fid, removed).0, g, b, how)
  {
    if Owned(t[i], fid) {
      var k := SplitSlotShape(t, i, fid, removed);
      var held := t[i].value;
      SubtractIsDifference(held.range, removed);
      var f := Subtract(held.range, removed);
      var u := SplitSlot(t, i, fid, removed).0;
      if Holds(u, g, b, how) {
        var j :| 0 <= j < |u| && Owned(u[j], g) && u[j].value.range.Has(b) && u[j].value.how == how;
        if j == i || j == k {
          assert FragmentHas(f.left, b) || FragmentHas(f.right, b);
          assert held.range.Has(b);
          assert Owned(t[i], g);
        } else {
          assert t[j] == u[j];
        }
      }
      if Holds(t, g, b, how) && !(g == fid && removed.Has(b)) {
        var j :| 0 <= j < |t| && Owned(t[j], g) && t[j].value.range.Has(b) && t[j].value.how == how;
        if j == i {
          assert FragmentHas(f.left, b) || FragmentHas(f.right, b);
          if FragmentHas(f.left, b) {
            assert Owned(u[i], g);
          } else {
            assert Owned(u[k], g);
          }
        } else {
          assert u[j] == t[j];
        }
      }
    }
  }

  lemma SplitSlotKeeps(t: Table, i: nat, fid: nat, removed: Range)
    requires i < |t| && Disjoint(t) && Cleared(t, i, fid, removed)
    requires Needs(t, i, fid, removed) <= FreeSlots(t)
    ensures var u := SplitSlot(t, i, fid, removed).0;
            && SplitSlot(t, i, fid, removed).1
            && Disjoint(u)
            && Cleared(u, i + 1, fid, removed)
            && FreeSlots(t) - Needs(t, i, fid, removed) <= FreeSlots(u) - Needs(u, i + 1, fid, removed)
  {
    var u := SplitSlot(t, i, fid, removed).0;
    if !Owned(t[i], fid) {
      assert SplitAhead(u, i + 1, fid, removed) ==> SplitAhead(t, i, fid, removed);
      return;
    }
    assert Splits(t, i, fid, removed) ==> SplitAhead(t, i, fid, removed);
    var held := t[i].value;
    var f := Subtract(held.range, removed);
    var k := SplitSlotShape(t, i, fid, removed);
    SubtractIsDifference(held.range, removed);
    SplitSlotDisjoint(t, i, fid, removed, k);
    SplitSlotFree(t, i, fid, removed, k);
    forall j | 0 <= j < i + 1 && Owned(u[j], fid) ensures Apart(u[j].value.range, removed) {
    }
  }

  lemma SplitSlotDisjoint(t: Table, i: nat, fid: nat, removed: Range, k: nat)
    requires i < |t| && Disjoint(t) && Owned(t[i], fid) && SplitInto(t, i, fid, removed, k)
    ensures Disjoint(SplitSlot(t, i, fid, removed).0)
  {
    var u := SplitSlot(t, i, fid, removed).0;
    var held := t[i].value;
    SubtractIsDifference(held.range, removed);
    var f := Subtract(held.range, removed);
    // Every slot is a part of one old record; only i and k share theirs.
    forall a, b | 0 <= a < b < |u| && u[a].Some? && u[b].Some? && u[a].value.fid == u[b].value.fid
      ensures Apart(u[a].value.range, u[b].value.range)
    {
      var a', b' := if a == k then i else a, if b == k then i else b;
      if a' == b' {
        assert {a, b} == {i, k};
      } else if f.right.Some? || (a != k && b != k) || k == i {
        assert t[a'].Some? && t[b'].Some?;
        WithinApart(u[a].value.range, t[a'].value.range, u[b].value.range, t[b'].value.range);
      }
    }
  }

  /** Parts of ranges that share no byte share none. */
  lemma WithinApart(x: Range, xs: Range, y: Range, ys: Range)
    requires Apart(xs, ys)
    requires x.start >= xs.start && x.End() <= xs.End() && y.start >= ys.start && y.End() <= ys.End()
    ensures Apart(x, y)
  {
  }

  /** A pass consumes a free slot only when it splits. */
  lemma SplitCount(t: Table, i: nat, fid: nat, removed: Range, k: nat)
    requires i < |t| && Owned(t[i], fid) && SplitInto(t, i, fid, removed, k)
    ensures FreeSlots(t) - (if Splits(t, i, fid, removed) then 1 else 0) <=
            FreeSlots(SplitSlot(t, i, fid, removed).0)
  {
    var held := t[i].value;
    var f := Subtract(held.range, removed);
    FreeSlotsUpdate(t, i, Fragment(f.left, held));
    if f.right.Some? {
      FreeSlotsUpdate(t[i := Fragment(f.left, held)], k, Some(held.(range := f.right.value)));
    }
  }

  lemma SplitSlotFree(t: Table, i: nat, fid: nat, removed: Range, k: nat)
    requires i < |t| && Disjoint(t) && Owned(t[i], fid) && SplitInto(t, i, fid, removed, k)
    ensures var u := SplitSlot(t, i, fid, removed).0;
            FreeSlots(t) - Needs(t, i, fid, removed) <= FreeSlots(u) - Needs(u, i + 1, fid, removed)
  {
    SplitCount(t, i, fid, removed, k);
    SplitOnce(t, i, fid, removed, k);
    assert Splits(t, i, fid, removed) ==> SplitAhead(t, i, fid, removed);
  }

  /** Two disjoint records cannot both surround the removed range, so a walk splits at most once. */
  lemma SplitOnce(t: Table, i: nat, fid: nat, removed: Range, k: nat)
    requires i < |t| && Disjoint(t) && Owned(t[i], fid) && SplitInto(t, i, fid, removed, k)
    ensures SplitAhead(SplitSlot(t, i, fid, removed).0, i + 1, fid, removed) ==>
              SplitAhead(t, i, fid, removed) && !Splits(t, i, fid, removed)
  {
    var u := SplitSlot(t, i, fid, removed).0;
    var held := t[i].value;
    if SplitAhead(u, i + 1, fid, removed) {
      var j :| i + 1 <= j < |u| && Splits(u, j, fid, removed);
      SplitSurrounds(u[j].value.range, removed);
      SubtractIsDifference(held.range, removed);
      assert j != k;
      assert u[j] == t[j];
      assert Splits(t, j, fid, removed);
      assert Apart(t[i].value.range, t[j].value.range);
      if Splits(t, i, fid, removed) {
        SplitSurrounds(held.range, removed);
        assert false;
      }
    }
  }

  // ------------------------------------------------------------------ the whole walk

  /** Needed slots reserved, the walk stores every fragment, keeps the records
      disjoint, clears the range and consumes at most one free slot. */
  lemma {:induction false} UnlockFromKeeps(t: Table, i: nat, fid: nat, removed: Range)
    requires i <= |t| && Disjoint(t) && Cleared(t, i, fid, removed)
    requires Needs(t, i, fid, removed) <= FreeSlots(t)
    ensures var (u, stored) := UnlockFrom(t, i, fid, removed);
            && stored
            && Disjoint(u)
            && Cleared(u, |u|, fid, removed)
            && FreeSlots(t) - Needs(t, i, fid, removed) <= FreeSlots(u)
    decreases |t| - i
  {
    if i < |t| {
      SplitSlotKeeps(t, i, fid, removed);
      var next := SplitSlot(t, i, fid, removed).0;
      UnlockFromKeeps(next, i + 1, fid, removed);
    }
  }

  lemma {:induction false} UnlockFromHolds(t: Table, i: nat, fid: nat, removed: Range, g: nat, b: u64, how: Holding)
    requires i <= |t| && Disjoint(t) && Cleared(t, i, fid, removed)
    requires Needs(t, i, fid, removed) <= FreeSlots(t)
    ensures var u := UnlockFrom(t, i, fid, removed).0;
            && (Holds(u, g, b, how) ==> Holds(t, g, b, how))
            && (Holds(t, g, b, how) && !(g == fid && removed.Has(b)) ==> Holds(u, g, b, how))
    decreases |t| - i
  {
    if i < |t| {
      assert Splits(t, i, fid, removed) ==> SplitAhead(t, i, fid, removed);
      SplitSlotKeeps(t, i, fid, removed);
      SplitSlotHolds(t, i, fid, removed, g, b, how);
      UnlockFromHolds(SplitSlot(t, i, fid, removed).0, i + 1, fid, removed, g, b, how);
    }
  }

  /** A cleared table holds no byte of the range for that fid. */
  lemma ClearedHoldsNothing(t: Table, fid: nat, removed: Range, b: u64, how: Holding)
    requires Cleared(t, |t|, fid, removed) && removed.Has(b)
    ensures !Holds(t, fid, b, how)
  {
    if Holds(t, fid, b, how) {
      var i :| 0 <= i < |t| && Owned(t[i], fid) && t[i].value.range.Has(b) && t[i].value.how == how;
      ApartIsDisjoint(t[i].value.range, removed);
    }
  }

  /** Free slots one record may consume. */
  function Cost(r: LockRecord): nat {
    if r.how.lockType == UNLOCK then 1 else 2
  }

  /** With its slots reserved, recording a granted lock or unlock always stores,
      consumes no more than it reserved and keeps every fid's records disjoint. */
  lemma RecordStores(t: Table, r: LockRecord)
    requires Disjoint(t) && Cost(r) <= FreeSlots(t)
    ensures Record(t, r).1
    ensures |Record(t, r).0| == |t|
    ensures Disjoint(Record(t, r).0)
    ensures FreeSlots(t) - Cost(r) <= FreeSlots(Record(t, r).0)
  {
    UnlockFromKeeps(t, 0, r.fid, r.range);
    var cleared := UnlockFrom(t, 0, r.fid, r.range).0;
    if r.how.lockType != UNLOCK {
      FreeSlotsPositive(cleared);
      var k := FirstFree(cleared);
      FreeSlotsUpdate(cleared, k, Some(r));
    }
  }

  /** Recording refines overwriting, or removing, one range of one fid's byte map:
      every other byte of that fid and every other fid are held exactly as before. */
  lemma RecordRefinesByteMap(t: Table, r: LockRecord, g: nat, b: u64, how: Holding)
    requires Disjoint(t) && Cost(r) <= FreeSlots(t)
    ensures Holds(Record(t, r).0, g, b, how) <==>
            if g == r.fid && r.range.Has(b) then r.how.lockType != UNLOCK && how == r.how
            else Holds(t, g, b, how)
  {
    UnlockFromKeeps(t, 0, r.fid, r.range);
    UnlockFromHolds(t, 0, r.fid, r.range, g, b, how);
    var cleared := UnlockFrom(t, 0, r.fid, r.range).0;
    if g == r.fid && r.range.Has(b) {
      ClearedHoldsNothing(cleared, g, r.range, b, how);
    }
    if r.how.lockType != UNLOCK {
      FreeSlotsPositive(cleared);
      InstallHolds(cleared, r, g, b, how);
    }
  }

  lemma InstallHolds(t: Table, r: LockRecord, g: nat, b: u64, how: Holding)
    requires FirstFree(t) < |t|
    ensures Holds(Install(t, r).0, g, b, how) <==>
            Holds(t, g, b, how) || (g == r.fid && r.range.Has(b) && how == r.how)
  {
    var k := FirstFree(t);
    var u := t[k := Some(r)];
    if Holds(t, g, b, how) {
      var i :| 0 <= i < |t| && Owned(t[i], g) && t[i].value.range.Has(b) && t[i].value.how == how;
      assert u[i] == t[i];
    }
    if g == r.fid && r.range.Has(b) && how == r.how {
      assert Owned(u[k], g);
    }
    if Holds(u, g, b, how) {
      var i :| 0 <= i < |u| && Owned(u[i], g) && u[i].value.range.Has(b) && u[i].value.how == how;
      assert i != k ==> t[i] == u[i];
    }
  }

  /** Forgetting a fid frees its slots and leaves every other fid's bytes alone. */
  lemma ForgetHolds(t: Table, fid: nat, g: nat, b: u64, how: Holding)
    ensures Holds(Forget(t, fid), g, b, how) <==> g != fid && Holds(t, g, b, how)
    ensures FreeSlots(t) <= FreeSlots(Forget(t, fid))
  {
    var u := Forget(t, fid);
    FreeSlotsGrow(t, u);
    if g != fid && Holds(t, g, b, how) {
      var i :| 0 <= i < |t| && Owned(t[i], g) && t[i].value.range.Has(b) && t[i].value.how == how;
      assert u[i] == t[i];
    }
    if Holds(u, g, b, how) {
      var i :| 0 <= i < |u| && Owned(u[i], g) && u[i].value.range.Has(b) && u[i].value.how == how;
      assert t[i] == u[i];
    }
  }
}
