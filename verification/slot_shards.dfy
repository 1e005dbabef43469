/** The sharded slot table as the session mutates it (kernel/client/slots.rs,
    kernel/client/session.rs), proved against the flat table of the state machine. */
module SlotShards {
  import opened Wrappers
  import opened TagSpace
  import opened TagTable

  /** The tags of an interleaved table, in wire order. */
  function Flatten(shards: seq<seq<Slot>>, total: nat): (flat: seq<Slot>)
    requires Shaped(shards, total)
    ensures |flat| == total
  {
    seq(total, t requires 0 <= t < total => ResidentIsAddressable(total, t); shards[t % SLOT_SHARDS][t / SLOT_SHARDS])
  }

  predicate Shaped(shards: seq<seq<Slot>>, total: nat) {
    |shards| == SLOT_SHARDS && forall i :: 0 <= i < SLOT_SHARDS ==> |shards[i]| == ShardLength(total, i)
  }

  /** The whole table swept. */
  function SweptAll(slots: seq<Slot>): seq<Slot> {
    seq(|slots|, t requires 0 <= t < |slots| => Swept(slots[t]))
  }

  /** The table after the machine has swept the shards below `k`. */
  function SweptBelow(slots: seq<Slot>, k: nat): seq<Slot> {
    if k == 0 then slots else SweepOf(SweptBelow(slots, k - 1), k - 1)
  }

  lemma {:induction false} SweptBelowAt(slots: seq<Slot>, k: nat)
    ensures |SweptBelow(slots, k)| == |slots|
    ensures forall t :: 0 <= t < |slots| ==>
              SweptBelow(slots, k)[t] == if t % SLOT_SHARDS < k then Swept(slots[t]) else slots[t]
  {
    if k > 0 {
      SweptBelowAt(slots, k - 1);
    }
  }

  /** The shard-by-shard steps of a retirement add up to one sweep of the table. */
  lemma ShardStepsSweepAll(slots: seq<Slot>)
    ensures SweptBelow(slots, SLOT_SHARDS) == SweptAll(slots)
  {
    SweptBelowAt(slots, SLOT_SHARDS);
  }

  function Vacancies(n: nat): seq<Slot> {
    seq(n, _ => VACANT)
  }

  predicate Grew(before: seq<Slot>, after: seq<Slot>, length: nat) {
    before <= after && |after| == length && forall j :: |before| <= j < length ==> after[j] == VACANT
  }

  /** Longer shards with the old ones as prefixes flatten to the old table and vacancies. */
  lemma FlattenGrown(before: seq<seq<Slot>>, after: seq<seq<Slot>>, total: nat, more: nat)
    requires Shaped(before, total) && Shaped(after, total + more)
    requires forall i :: 0 <= i < SLOT_SHARDS ==> Grew(before[i], after[i], ShardLength(total + more, i))
    ensures Flatten(after, total + more) == Flatten(before, total) + Vacancies(more)
  {
    forall t | 0 <= t < total + more
      ensures Flatten(after, total + more)[t] == (Flatten(before, total) + Vacancies(more))[t]
    {
      ResidentIsAddressable(total, t);
      ResidentIsAddressable(total + more, t);
    }
  }

  /** Writing one slot through its shard writes one tag of the flat table. */
  lemma FlattenUpdate(shards: seq<seq<Slot>>, total: nat, tag: nat, slot: Slot)
    requires Shaped(shards, total) && tag < total
    requires tag / SLOT_SHARDS < |shards[tag % SLOT_SHARDS]|
    ensures var i := tag % SLOT_SHARDS;
            var after := shards[i := shards[i][tag / SLOT_SHARDS := slot]];
            Shaped(after, total) && Flatten(after, total) == Flatten(shards, total)[tag := slot]
  {
    var i := tag % SLOT_SHARDS;
    var after := shards[i := shards[i][tag / SLOT_SHARDS := slot]];
    forall t | 0 <= t < total
      ensures Flatten(after, total)[t] == Flatten(shards, total)[tag := slot][t]
    {
      ResidentIsAddressable(total, t);
    }
  }

  lemma ShardLengthGrows(total: nat, more: nat, index: nat)
    ensures ShardLength(total, index) <= ShardLength(total + more, index)
  {
  }

  /** A clear bit is an idle slot. */
  ghost predicate ClearIsIdle(slots: seq<Slot>, busy: set<nat>) {
    forall t :: FIRST_NORMAL_TAG <= t < |slots| && t - FIRST_NORMAL_TAG !in busy ==>
      slots[t].state == Vacant && slots[t].dest.None?
  }

  /** `after` is `before` with its idle slot `tag` reserved. */
  predicate Taken(before: seq<Slot>, after: seq<Slot>, tag: nat, charge: Charge, dest: Option<Destination>, rid: nat) {
    && FIRST_NORMAL_TAG <= tag < |before| && before[tag].state == Vacant && before[tag].dest.None?
    && after == before[tag := Slot(Reserved, charge, dest, rid, 0, None, false, false)]
  }

  lemma SearchResult(resident: nat, cursor: nat, busy: set<nat>)
    requires resident <= NORMAL_TAG_COUNT
    ensures var r := NextFreeResidentTag(resident, cursor, busy);
            if r.Some? then r.value < resident && r.value !in busy else forall j :: 0 <= j < resident ==> j in busy
  {
    SearchIsExact(resident, cursor, busy);
  }

  lemma TakenIsIdle(before: seq<Slot>, after: seq<Slot>, busy: set<nat>, tag: nat, slot: Slot)
    requires ClearIsIdle(before, busy) && FIRST_NORMAL_TAG <= tag < |before| && after == before[tag := slot]
    ensures ClearIsIdle(after, busy + {tag - FIRST_NORMAL_TAG})
  {
  }

  class SlotTable {
    var shards: seq<seq<Slot>>
    var resident: nat
    var busy: set<nat>
    var cursor: nat
    var used: nat
    const limit: nat

    predicate Formed()
      reads this
    {
      resident <= NORMAL_TAG_COUNT && Shaped(shards, FIRST_NORMAL_TAG + resident)
    }

    function Slots(): seq<Slot>
      requires Formed()
      reads this
    {
      Flatten(shards, FIRST_NORMAL_TAG + resident)
    }

    ghost predicate Valid()
      reads this
    {
      Formed() && (forall i :: i in busy ==> i < resident) && ClearIsIdle(Slots(), busy)
    }

    /** `vacant_slot_shards` over the initial tags. */
    constructor (creditLimit: nat)
      ensures Valid() && Slots() == Vacancies(FIRST_NORMAL_TAG + INITIAL_PENDING_TAGS)
      ensures busy == {} && cursor == 0 && used == 0 && limit == creditLimit && resident == INITIAL_PENDING_TAGS
    {
      var total := FIRST_NORMAL_TAG + INITIAL_PENDING_TAGS;
      var made: seq<seq<Slot>> := [];
      for index := 0 to SLOT_SHARDS
        invariant |made| == index
        invariant forall i :: 0 <= i < index ==> made[i] == Vacancies(ShardLength(total, i))
      {
        var count := ShardLength(total, index);
        var slots: seq<Slot> := [];
        for local := 0 to count
          invariant slots == Vacancies(local)
        {
          slots := slots + [VACANT];
        }
        made := made + [slots];
      }
      shards := made;
      resident, busy, cursor, used, limit := INITIAL_PENDING_TAGS, {}, 0, 0, creditLimit;
      new;
      forall t | 0 <= t < total
        ensures Slots()[t] == VACANT
      {
        ResidentIsAddressable(total, t);
      }
    }

    /** `grow_resident_slots`: capacity first, then the slots, then the mark. */
    method Grow() returns (grown: bool)
      requires Valid()
      modifies this`shards, this`resident
      ensures Valid()
      ensures !grown ==> shards == old(shards) && resident == old(resident)
      ensures grown ==> old(resident) < resident == NextResidentCount(old(resident))
      ensures Slots() == old(Slots()) + Vacancies(resident - old(resident))
    {
      if resident >= NORMAL_TAG_COUNT {
        return false;
      }
      var newest := NextResidentCount(resident);
      grown := ReserveCapacity(FIRST_NORMAL_TAG + newest);
      if grown {
        PushVacancies(newest);
      }
    }

    /** Growth's first pass may give up, and changes nothing. */
    method ReserveCapacity(total: nat) returns (ok: bool)
      requires Formed()
    {
      for index := 0 to SLOT_SHARDS {
        var reserved: bool := *;
        if |shards[index]| < ShardLength(total, index) && !reserved {
          return false;
        }
      }
      return true;
    }

    /** Growth's second pass, then the new high-water mark. */
    method PushVacancies(newest: nat)
      requires Formed() && resident <= newest <= NORMAL_TAG_COUNT
      modifies this`shards, this`resident
      ensures resident == newest && Formed() && Slots() == old(Slots()) + Vacancies(newest - old(resident))
    {
      var total := FIRST_NORMAL_TAG + newest;
      for index := 0 to SLOT_SHARDS
        invariant resident == old(resident) && |shards| == SLOT_SHARDS
        invariant forall i :: 0 <= i < index ==> Grew(old(shards)[i], shards[i], ShardLength(total, i))
        invariant forall i :: index <= i < SLOT_SHARDS ==> shards[i] == old(shards)[i]
      {
        ShardLengthGrows(FIRST_NORMAL_TAG + resident, newest - resident, index);
        var grownShard := Extended(shards[index], ShardLength(total, index));
        shards := shards[index := grownShard];
      }
      FlattenGrown(old(shards), shards, FIRST_NORMAL_TAG + resident, newest - resident);
      resident := newest;
    }

    /** `retire_locked`'s sweep: every request in flight fails, whatever its shard. */
    method Sweep()
      requires Valid()
      modifies this`shards
      ensures Valid() && Slots() == SweptAll(old(Slots()))
      ensures forall t :: 0 <= t < |Slots()| ==>
                var was := old(Slots())[t];
                Slots()[t] == if was.state in {Reserved, Sent} then was.(state := Failed) else was
    {
      var total := FIRST_NORMAL_TAG + resident;
      for index := 0 to SLOT_SHARDS
        invariant Shaped(shards, total)
        invariant forall i :: 0 <= i < index ==> shards[i] == SweptAll(old(shards)[i])
        invariant forall i :: index <= i < SLOT_SHARDS ==> shards[i] == old(shards)[i]
      {
        var slots := shards[index];
        for local := 0 to |slots|
          invariant |slots| == |shards[index]|
          invariant forall j :: 0 <= j < local ==> slots[j] == Swept(shards[index][j])
          invariant forall j :: local <= j < |slots| ==> slots[j] == shards[index][j]
        {
          if slots[local].state == Reserved || slots[local].state == Sent {
            slots := slots[local := slots[local].(state := Failed)];
          }
        }
        shards := shards[index := slots];
      }
      forall t | 0 <= t < total
        ensures Slots()[t] == Swept(old(Slots())[t])
      {
        ResidentIsAddressable(total, t);
      }
    }

    /** The tag a request may use: the first free one in cyclic order, growing the table
        while every resident tag is taken. None: the caller has to wait. */
    method Reserve(charge: Charge, dest: Option<Destination>, rid: nat) returns (tag: Option<nat>)
      requires Valid()
      modifies this
      ensures Valid() && old(resident) <= resident
      ensures var table := old(Slots()) + Vacancies(resident - old(resident));
              match tag
              case None =>
                && Slots() == table && busy == old(busy) && used == old(used) && cursor == old(cursor)
                && ((!charge.emergency && used + charge.credit > limit) || forall j :: 0 <= j < resident ==> j in busy)
              case Some(t) =>
                && Taken(table, Slots(), t, charge, dest, rid)
                && NextFreeResidentTag(resident, old(cursor), old(busy)) == Some(t - FIRST_NORMAL_TAG)
                && cursor == NextNormalIndex(t - FIRST_NORMAL_TAG, resident)
                && busy == old(busy) + {t - FIRST_NORMAL_TAG} && used == old(used) + charge.credit
                && (charge.emergency || used <= limit)
    {
      hide Flatten, Shaped, ClearIsIdle, NextFreeResidentTag;
      if !charge.emergency && used + charge.credit > limit {
        return None;
      }
      tag := Take(charge, dest, rid);
      while tag.None?
        invariant Valid() && old(resident) <= resident
        invariant tag.None? ==> busy == old(busy) && used == old(used) && cursor == old(cursor)
        invariant tag.None? ==> forall j :: 0 <= j < resident ==> j in busy
        invariant tag.None? ==> Slots() == old(Slots()) + Vacancies(resident - old(resident))
        invariant tag.Some? ==>
                    && Taken(old(Slots()) + Vacancies(resident - old(resident)), Slots(), tag.value, charge, dest, rid)
                    && busy == old(busy) + {tag.value - FIRST_NORMAL_TAG} && used == old(used) + charge.credit
                    && NextFreeResidentTag(resident, old(cursor), old(busy)) == Some(tag.value - FIRST_NORMAL_TAG)
                    && cursor == NextNormalIndex(tag.value - FIRST_NORMAL_TAG, resident)
        decreases tag.None?, NORMAL_TAG_COUNT - resident
      {
        var grown := Grow();
        if !grown {
          return None;
        }
        tag := Take(charge, dest, rid);
      }
    }

    /** One pass over the bitmap. */
    method Take(charge: Charge, dest: Option<Destination>, rid: nat) returns (tag: Option<nat>)
      requires Valid()
      modifies this
      ensures Valid() && resident == old(resident)
      ensures tag.None? ==> Slots() == old(Slots()) && busy == old(busy) && used == old(used) && cursor == old(cursor)
      ensures tag.None? ==> forall j :: 0 <= j < resident ==> j in old(busy)
      ensures tag.Some? ==>
                && Taken(old(Slots()), Slots(), tag.value, charge, dest, rid)
                && busy == old(busy) + {tag.value - FIRST_NORMAL_TAG} && used == old(used) + charge.credit
                && NextFreeResidentTag(resident, old(cursor), old(busy)) == Some(tag.value - FIRST_NORMAL_TAG)
                && cursor == NextNormalIndex(tag.value - FIRST_NORMAL_TAG, resident)
    {
      hide NextFreeResidentTag, Flatten, Shaped;
      SearchResult(resident, cursor, busy);
      var index := NextFreeResidentTag(resident, cursor, busy);
      if index.None? {
        return None;
      }
      var t := index.value + FIRST_NORMAL_TAG;
      var slot := Slot(Reserved, charge, dest, rid, 0, None, false, false);
      Write(t, slot);
      TakenIsIdle(old(Slots()), Slots(), busy, t, slot);
      busy := busy + {index.value};
      used := used + charge.credit;
      cursor := NextNormalIndex(index.value, resident);
      return Some(t);
    }

    /** `vacate_tag_locked` and the refund: the destination stays, and keeps the tag taken. */
    method Vacate(tag: nat)
      requires Valid() && tag < FIRST_NORMAL_TAG + resident
      modifies this`shards, this`busy, this`used
      ensures Valid() && Slots() == old(Slots())[tag := Vacated(old(Slots())[tag])]
      ensures Slots()[tag].state == Vacant && Slots()[tag].charge == Charge(0, false) && Slots()[tag].cancels.None?
      ensures Slots()[tag].dest == old(Slots())[tag].dest
      ensures used == Monus(old(used), old(Slots())[tag].charge.credit)
      ensures busy == if !IsFlushTag(tag) && old(Slots())[tag].dest.None?
                      then old(busy) - {tag - FIRST_NORMAL_TAG} else old(busy)
    {
      hide Flatten, Shaped;
      var slot := Read(tag);
      Write(tag, Vacated(slot));
      if !IsFlushTag(tag) && slot.dest.None? {
        busy := busy - {tag - FIRST_NORMAL_TAG};
      }
      used := Monus(used, slot.charge.credit);
    }

    method Read(tag: nat) returns (slot: Slot)
      requires Formed() && tag < FIRST_NORMAL_TAG + resident
      ensures slot == Slots()[tag]
    {
      ResidentIsAddressable(FIRST_NORMAL_TAG + resident, tag);
      slot := shards[tag % SLOT_SHARDS][tag / SLOT_SHARDS];
    }

    method Write(tag: nat, slot: Slot)
      requires Formed() && tag < FIRST_NORMAL_TAG + resident
      modifies this`shards
      ensures Formed() && Slots() == old(Slots())[tag := slot]
    {
      ResidentIsAddressable(FIRST_NORMAL_TAG + resident, tag);
      FlattenUpdate(shards, FIRST_NORMAL_TAG + resident, tag, slot);
      var i := tag % SLOT_SHARDS;
      shards := shards[i := shards[i][tag / SLOT_SHARDS := slot]];
    }
  }

  /** The pushing loop of growth, one shard. */
  method Extended(shard: seq<Slot>, desired: nat) returns (slots: seq<Slot>)
    requires |shard| <= desired
    ensures Grew(shard, slots, desired)
  {
    slots := shard;
    while |slots| < desired
      invariant |slots| <= desired && Grew(shard, slots, |slots|)
    {
      slots := slots + [VACANT];
    }
  }
}
