/** Wire-tag layout, the cyclic free-tag search and the interleaved shards
    (kernel/client/tag_space.rs, kernel/client/slots.rs, kernel/client/session.rs). */
module TagSpace {
  import opened Wrappers

  const FLUSH_SLOTS: nat := 4
  const FIRST_NORMAL_TAG: nat := FLUSH_SLOTS
  const NOTAG: nat := 65535
  const NORMAL_TAG_COUNT: nat := NOTAG - FLUSH_SLOTS
  const INITIAL_PENDING_TAGS: nat := 1024
  const SLOT_SHARDS: nat := 64

  function NextNormalIndex(index: nat, resident: nat): nat {
    if index + 1 < resident then index + 1 else 0
  }

  /** The least index from `start` on that is not busy. */
  function NextZero(busy: set<nat>, start: nat): (r: Option<nat>)
    ensures r.Some? ==> start <= r.value < NORMAL_TAG_COUNT && r.value !in busy
    ensures r.Some? ==> forall j :: start <= j < r.value ==> j in busy
    ensures r.None? ==> forall j :: start <= j < NORMAL_TAG_COUNT ==> j in busy
    decreases NORMAL_TAG_COUNT - start
  {
    if start >= NORMAL_TAG_COUNT then None
    else if start !in busy then Some(start)
    else NextZero(busy, start + 1)
  }

  /** The least clear index of [start, n), or else of [0, start), where `start` is the clamped cursor. */
  function NextFreeResidentTag(resident: nat, cursor: nat, busy: set<nat>): Option<nat> {
    var n := Min(resident, NORMAL_TAG_COUNT);
    if n == 0 then None
    else
      var start := Min(cursor, n - 1);
      var ahead := NextZero(busy, start);
      if ahead.Some? && ahead.value < n then ahead
      else if start != 0 then
        var wrapped := NextZero(busy, 0);
        if wrapped.Some? && wrapped.value < start then wrapped else None
      else None
  }

  /** Index `j` comes before `k` in the cyclic order that starts at `start`. */
  predicate Before(start: nat, j: nat, k: nat) {
    if start <= k then start <= j < k else start <= j || j < k
  }

  /** The search succeeds exactly when a resident tag is free, and returns the first
      free one in cyclic order. */
  lemma SearchIsExact(resident: nat, cursor: nat, busy: set<nat>)
    ensures var n := Min(resident, NORMAL_TAG_COUNT);
            var r := NextFreeResidentTag(resident, cursor, busy);
            && (r.Some? <==> exists j :: 0 <= j < n && j !in busy)
            && (r.Some? ==> r.value < n && r.value !in busy
                            && forall j :: 0 <= j < n && Before(Min(cursor, n - 1), j, r.value) ==> j in busy)
  {
    var n := Min(resident, NORMAL_TAG_COUNT);
    var r := NextFreeResidentTag(resident, cursor, busy);
    if r.Some? {
      assert r.value < n && r.value !in busy;
    } else if n > 0 {
      var start := Min(cursor, n - 1);
      assert forall j :: start <= j < n ==> j in busy;
      assert forall j :: 0 <= j < start ==> j in busy;
    }
  }

  /** Geometric growth of the resident prefix, capped by the whole namespace. */
  function NextResidentCount(current: nat): (r: nat)
    ensures current < NORMAL_TAG_COUNT ==> current < r <= NORMAL_TAG_COUNT
    ensures current >= NORMAL_TAG_COUNT ==> r == NORMAL_TAG_COUNT
    ensures 2 * current <= r || r == NORMAL_TAG_COUNT
  {
    if current >= NORMAL_TAG_COUNT then NORMAL_TAG_COUNT
    else Min(Max(current * 2, current + 1), NORMAL_TAG_COUNT)
  }

  /** Slots shard `index` holds when `total` tags are resident: `div_ceil` of what is left after `index`. */
  function ShardLength(total: nat, index: nat): nat {
    if index < total then (total - index + SLOT_SHARDS - 1) / SLOT_SHARDS else 0
  }

  /** A tag has an element in its shard exactly when it is below the resident total. */
  lemma ResidentIsAddressable(total: nat, tag: nat)
    ensures tag / SLOT_SHARDS < ShardLength(total, tag % SLOT_SHARDS) <==> tag < total
  {
    var q, r := tag / SLOT_SHARDS, tag % SLOT_SHARDS;
    assert tag == SLOT_SHARDS * q + r;
    if tag < total {
      var x := total - r + SLOT_SHARDS - 1;
      assert SLOT_SHARDS * (q + 1) <= x;
      assert q + 1 <= x / SLOT_SHARDS;
    } else if r < total {
      var x := total - r + SLOT_SHARDS - 1;
      assert x < SLOT_SHARDS * (q + 1);
    }
  }
}
