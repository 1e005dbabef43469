/** The lock table in its own form: slots, claims and the connection epoch
    changed in place (kernel/client/registry.rs). */
module LockRegistry {
  import opened Wrappers
  import opened Tables
  import opened LockRanges
  import opened LockTableSpec

  datatype Recorded = Installed | Superseded | Unrecorded

  /** What one locked pass of `reserve_lock_slots` found. */
  datatype Reservation = Claimed | MustCover(length: nat, minimum: nat)

  class LockTable {
    var locks: Table
    var claimed: nat
    var epoch: nat

    constructor ()
      ensures locks == [] && claimed == 0 && epoch == 0
    {
      locks, claimed, epoch := [], 0, 0;
    }

    method InstallLock(r: LockRecord) returns (stored: bool)
      modifies this`locks
      ensures (locks, stored) == Install(old(locks), r)
    {
      var k := 0;
      while k < |locks|
        invariant k <= |locks| && locks == old(locks)
        invariant forall j :: 0 <= j < k ==> locks[j].Some?
      {
        if locks[k].None? {
          locks := locks[k := Some(r)];
          return true;
        }
        k := k + 1;
      }
      return false;
    }

    method UnlockRecordedRange(fid: nat, removed: Range) returns (stored: bool)
      modifies this`locks
      ensures (locks, stored) == UnlockFrom(old(locks), 0, fid, removed)
    {
      stored := true;
      var index := 0;
      while index < |locks|
        invariant index <= |locks| == |old(locks)|
        invariant var rest := UnlockFrom(locks, index, fid, removed);
                  UnlockFrom(old(locks), 0, fid, removed) == (rest.0, stored && rest.1)
      {
        if locks[index].Some? && locks[index].value.fid == fid {
          var held := locks[index].value;
          var f := Subtract(held.range, removed);
          locks := locks[index := Fragment(f.left, held)];
          if f.right.Some? {
            var found := InstallLock(held.(range := f.right.value));
            stored := stored && found;
          }
        }
        index := index + 1;
      }
    }

    /** A grant from a connection that has been replaced changes nothing. */
    method RecordLock(slots: nat, r: LockRecord, answering: nat) returns (outcome: Recorded, left: nat)
      modifies this`locks, this`claimed
      ensures outcome.Superseded? <==> answering != epoch
      ensures outcome.Superseded? ==> locks == old(locks)
      ensures !outcome.Superseded? ==> (locks, outcome.Installed?) == Record(old(locks), r)
      ensures outcome.Installed? ==> left == 0 && claimed == (if slots <= old(claimed) then old(claimed) - slots else 0)
      ensures !outcome.Installed? ==> left == slots && claimed == old(claimed)
    {
      left := slots;
      if answering != epoch {
        return Superseded, slots;
      }
      var stored := UnlockRecordedRange(r.fid, r.range);
      if r.how.lockType != UNLOCK {
        var found := InstallLock(r);
        stored := stored && found;
      }
      if !stored {
        return Unrecorded, slots;
      }
      claimed := if slots <= claimed then claimed - slots else 0;
      return Installed, 0;
    }

    /** One locked pass of `reserve_lock_slots`. */
    method TryReserve(needed: nat) returns (r: Reservation)
      modifies this`claimed
      ensures FreeSlots(locks) >= old(claimed) + needed ==> r.Claimed? && claimed == old(claimed) + needed
      ensures FreeSlots(locks) < old(claimed) + needed ==>
                claimed == old(claimed)
                && r == MustCover(|locks|, |locks| + old(claimed) + needed - FreeSlots(locks))
    {
      var free := 0;
      for i := 0 to |locks|
        invariant free == FreeSlots(locks[..i])
      {
        assert locks[..i + 1][..i] == locks[..i];
        if locks[i].None? {
          free := free + 1;
        }
      }
      assert locks[..|locks|] == locks;
      if free >= claimed + needed {
        claimed := claimed + needed;
        return Claimed;
      }
      return MustCover(|locks|, |locks| + claimed + needed - free);
    }

    /** Adopt a replacement of this length allocated outside the lock. */
    method Adopt(length: nat)
      modifies this`locks
      ensures locks == Padded(old(locks), length, None)
    {
      if length <= |locks| {
        return;
      }
      var replacement: Table := seq(length, _ => None);
      for i := 0 to |locks|
        invariant |replacement| == length
        invariant forall j :: 0 <= j < i ==> replacement[j] == locks[j]
        invariant forall j :: i <= j < length ==> replacement[j] == None
      {
        replacement := replacement[i := locks[i]];
      }
      locks := replacement;
    }
  }
}

/** Every interleaving of lock reservations, growth, stores, clunks and
    connection replacements. */
module LockReservations {
  import opened Wrappers
  import opened Tables
  import opened LockRanges
  import opened LockTableSpec

  /** `claims[id]` is the number of slots claim `id` still holds; zero once settled or dropped. */
  datatype State = State(table: Table, claims: seq<nat>, claimed: nat, epoch: nat, connected: bool)

  datatype Step =
    | Reserve(needed: nat)
    | Grow(observed: nat, minimum: nat)
    | Store(id: nat, r: LockRecord, answering: nat)
    | Drop(id: nat)
    | Clunk(fid: nat, answeredOn: Option<nat>)
    | Retire
    | Install

  /** An unlock reserves one slot and any other lock two, before its request is
      sent; the length a growth starts from may be stale by the time it lands. An answer comes
      from a connection that was installed; a clunk may also find its fid stale and name none. */
  predicate Enabled(s: State, step: Step) {
    match step
    case Reserve(needed) => 1 <= needed <= 2 && FreeSlots(s.table) >= s.claimed + needed
    case Grow(observed, minimum) => minimum <= MAX_LOCK_RECORDS && GrownLength(observed, minimum).Some?
    case Store(id, r, answering) => id < |s.claims| && s.claims[id] == Cost(r) && Heard(s, answering)
    case Drop(id) => id < |s.claims|
    case Clunk(_, answeredOn) => answeredOn.Some? ==> Heard(s, answeredOn.value)
    case Retire => s.connected
    case Install => !s.connected
  }

  predicate Heard(s: State, answering: nat) {
    answering < s.epoch || (answering == s.epoch && s.connected)
  }

  /** This step clunks the fid: on the current connection, or found stale. */
  predicate Clunks(s: State, step: Step, fid: nat) {
    step.Clunk? && step.fid == fid && (step.answeredOn.None? || step.answeredOn.value == s.epoch)
  }

  function Next(s: State, step: Step): State
    requires Enabled(s, step)
  {
    match step
    case Reserve(needed) => s.(claims := s.claims + [needed], claimed := s.claimed + needed)
    case Grow(observed, minimum) =>
      s.(table := Padded(s.table, Min(GrownLength(observed, minimum).value, MAX_LOCK_RECORDS), None))
    case Store(id, r, answering) =>
      if answering != s.epoch then s
      else
        var (table, stored) := Record(s.table, r);
        if stored then s.(table := table, claims := s.claims[id := 0], claimed := Monus(s.claimed, s.claims[id]))
        else s.(table := table)
    case Drop(id) => s.(claims := s.claims[id := 0], claimed := Monus(s.claimed, s.claims[id]))
    case Clunk(fid, _) => if Clunks(s, step, fid) then s.(table := Forget(s.table, fid)) else s
    case Retire => s.(epoch := s.epoch + 1, connected := false)
    case Install => s.(connected := true)
  }

  ghost predicate Run(states: seq<State>, steps: seq<Step>) {
    && |states| == |steps| + 1
    && states[0] == State([], [], 0, states[0].epoch, true)
    && forall i :: 0 <= i < |steps| ==> Enabled(states[i], steps[i]) && states[i + 1] == Next(states[i], steps[i])
  }

  function Sum(claims: seq<nat>): nat {
    if claims == [] then 0 else Sum(claims[..|claims| - 1]) + claims[|claims| - 1]
  }

  lemma {:induction false} SumUpdate(claims: seq<nat>, id: nat, n: nat)
    requires id < |claims|
    ensures Sum(claims[id := n]) == Sum(claims) - claims[id] + n
    ensures claims[id] <= Sum(claims)
  {
    var last := |claims| - 1;
    if id == last {
      assert claims[id := n][..last] == claims[..last];
    } else {
      assert claims[id := n][..last] == claims[..last][id := n];
      SumUpdate(claims[..last], id, n);
    }
  }

  /** Free slots never fall below the outstanding promises. */
  ghost predicate Inv(s: State) {
    && s.claimed == Sum(s.claims) <= FreeSlots(s.table)
    && Disjoint(s.table)
    && |s.table| <= MAX_LOCK_RECORDS
  }

  lemma GrowKeepsInv(s: State, length: nat)
    requires Inv(s) && length <= MAX_LOCK_RECORDS
    ensures Inv(s.(table := Padded(s.table, length, None)))
  {
    var t := Padded(s.table, length, None);
    assert t == s.table + t[|s.table|..];
    FreeSlotsAppend(s.table, t[|s.table|..]);
  }

  lemma StepKeepsInv(s: State, step: Step)
    requires Inv(s) && Enabled(s, step)
    ensures Inv(Next(s, step))
  {
    match step {
      case Reserve(needed) =>
        assert (s.claims + [needed])[..|s.claims|] == s.claims;
      case Grow(observed, minimum) =>
        GrowKeepsInv(s, Min(GrownLength(observed, minimum).value, MAX_LOCK_RECORDS));
      case Store(id, r, answering) =>
        SumUpdate(s.claims, id, 0);
        RecordStores(s.table, r);
      case Drop(id) =>
        SumUpdate(s.claims, id, 0);
      case Clunk(fid, _) =>
        FreeSlotsGrow(s.table, Forget(s.table, fid));
      case Retire =>
      case Install =>
    }
  }

  lemma {:induction false} RunKeepsInv(states: seq<State>, steps: seq<Step>, i: nat)
    requires Run(states, steps) && i < |states|
    ensures Inv(states[i])
  {
    if i > 0 {
      RunKeepsInv(states, steps, i - 1);
      StepKeepsInv(states[i - 1], steps[i - 1]);
    }
  }

  /** In every run a lock or unlock granted on the current connection finds its
      slots, so the outcome `Unrecorded` is unreachable; the table stays within
      its bound and the claim count never saturates. */
  lemma GrantedLocksAreAlwaysRecorded(states: seq<State>, steps: seq<Step>, i: nat)
    requires Run(states, steps) && i < |steps|
    ensures steps[i].Store? && steps[i].answering == states[i].epoch ==> Record(states[i].table, steps[i].r).1
    ensures steps[i].Store? || steps[i].Drop? ==> states[i].claims[steps[i].id] <= states[i].claimed
    ensures |states[i + 1].table| <= MAX_LOCK_RECORDS
    ensures states[i + 1].claimed <= FreeSlots(states[i + 1].table)
  {
    RunKeepsInv(states, steps, i);
    RunKeepsInv(states, steps, i + 1);
    if steps[i].Store? {
      SumUpdate(states[i].claims, steps[i].id, 0);
      RecordStores(states[i].table, steps[i].r);
    } else if steps[i].Drop? {
      SumUpdate(states[i].claims, steps[i].id, 0);
    }
  }

  /** A promise is counted until it is settled by a store on the current connection or dropped, and then
      its slots are free to promise again. */
  lemma PromisesAreReturned(states: seq<State>, steps: seq<Step>, i: nat)
    requires Run(states, steps) && i < |steps|
    ensures var s, v, step := states[i], states[i + 1], steps[i];
            match step
            case Reserve(needed) => v.claims == s.claims + [needed] && v.claimed == s.claimed + needed
            case Store(id, _, answering) =>
              v.claims == (if answering == s.epoch then s.claims[id := 0] else s.claims)
              && v.claimed + s.claims[id] == s.claimed + v.claims[id]
            case Drop(id) => v.claims == s.claims[id := 0] && v.claimed + s.claims[id] == s.claimed
            case _ => v.claims == s.claims && v.claimed == s.claimed
  {
    RunKeepsInv(states, steps, i);
    assert Enabled(states[i], steps[i]);
    if steps[i].Store? {
      SumUpdate(states[i].claims, steps[i].id, 0);
      RecordStores(states[i].table, steps[i].r);
    } else if steps[i].Drop? {
      SumUpdate(states[i].claims, steps[i].id, 0);
    }
  }

  /** The connection comes and goes by its own steps alone, and each loss is a new epoch. */
  lemma ConnectionsAlternate(states: seq<State>, steps: seq<Step>, i: nat)
    requires Run(states, steps) && i < |steps|
    ensures states[i + 1].connected == (steps[i].Install? || (states[i].connected && !steps[i].Retire?))
    ensures states[i + 1].epoch == states[i].epoch + if steps[i].Retire? then 1 else 0
  {
    assert Enabled(states[i], steps[i]);
  }

  /** A growth that started from the table as it is makes room for what it was asked for. */
  lemma GrowthMakesRoom(states: seq<State>, steps: seq<Step>, i: nat)
    requires Run(states, steps) && i < |steps| && steps[i].Grow?
    ensures states[i].table <= states[i + 1].table
    ensures var was, now := states[i].table, states[i + 1].table;
            forall k :: |was| <= k < |now| ==> now[k].None?
    ensures steps[i].minimum <= |states[i + 1].table|
    ensures steps[i].observed == |states[i].table| < MAX_LOCK_RECORDS ==> |states[i].table| < |states[i + 1].table|
  {
    assert Enabled(states[i], steps[i]);
  }

  /** From any state that can promise the slots, a lock can be reserved, granted and stored: its bytes are
      then held as asked and the promise is gone. */
  lemma LockRoundTrip(s: State, r: LockRecord, b: u64)
    requires Inv(s) && s.connected && FreeSlots(s.table) >= s.claimed + Cost(r)
    ensures Enabled(s, Reserve(Cost(r)))
    ensures var id, u := |s.claims|, Next(s, Reserve(Cost(r)));
            && Enabled(u, Store(id, r, s.epoch))
            && var v := Next(u, Store(id, r, s.epoch));
               && v.claimed == s.claimed && v.claims == s.claims + [0]
               && (r.range.Has(b) ==> (Holds(v.table, r.fid, b, r.how) <==> r.how.lockType != UNLOCK))
  {
    var u := Next(s, Reserve(Cost(r)));
    StepKeepsInv(s, Reserve(Cost(r)));
    SumUpdate(u.claims, |s.claims|, 0);
    RecordStores(u.table, r);
    RecordRefinesByteMap(u.table, r, r.fid, b, r.how);
    assert u.claims[|s.claims| := 0] == s.claims + [0];
  }

  /** What the recorded bytes of every fid become at each step of a run: a store on
      the current connection overwrites or removes its range, a clunk drops one
      fid, and nothing else, not even a store from a replaced connection, moves a byte. */
  lemma StepMovesOnlyItsBytes(states: seq<State>, steps: seq<Step>, i: nat, g: nat, b: u64, how: Holding)
    requires Run(states, steps) && i < |steps|
    ensures var t, u, step := states[i].table, states[i + 1].table, steps[i];
            Holds(u, g, b, how) <==>
              if step.Store? && step.answering == states[i].epoch && g == step.r.fid && step.r.range.Has(b)
              then step.r.how.lockType != UNLOCK && how == step.r.how
              else Holds(t, g, b, how) && !Clunks(states[i], step, g)
  {
    RunKeepsInv(states, steps, i);
    var t, step := states[i].table, steps[i];
    match step {
      case Store(id, r, answering) =>
        SumUpdate(states[i].claims, id, 0);
        if answering == states[i].epoch {
          RecordStores(t, r);
          RecordRefinesByteMap(t, r, g, b, how);
        }
      case Clunk(fid, _) => ForgetHolds(t, fid, g, b, how);
      case Grow(observed, minimum) =>
        var u := states[i + 1].table;
        assert forall j :: 0 <= j < |t| ==> u[j] == t[j];
        if Holds(u, g, b, how) {
          var j :| 0 <= j < |u| && Owned(u[j], g) && u[j].value.range.Has(b) && u[j].value.how == how;
          assert j < |t|;
        }
        if Holds(t, g, b, how) {
          var j :| 0 <= j < |t| && Owned(t[j], g) && t[j].value.range.Has(b) && t[j].value.how == how;
          assert Owned(u[j], g);
        }
      case Reserve(_) =>
      case Drop(_) =>
      case Retire =>
      case Install =>
    }
  }

  /** From a retirement to the next installation no recorded byte of a fid moves, unless a clunk
      found that fid stale. */
  lemma {:induction false} LocksStandStill(
      states: seq<State>, steps: seq<Step>, i: nat, j: nat, g: nat, b: u64, how: Holding)
    requires Run(states, steps) && i <= j < |states|
    requires forall k :: i <= k < j ==> !states[k].connected && steps[k] != Clunk(g, None)
    ensures Holds(states[j].table, g, b, how) <==> Holds(states[i].table, g, b, how)
    decreases j - i
  {
    if i < j {
      LocksStandStill(states, steps, i, j - 1, g, b, how);
      StepMovesOnlyItsBytes(states, steps, j - 1, g, b, how);
    }
  }
}
