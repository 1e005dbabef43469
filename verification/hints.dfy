/** The bounded-probe table of readdir hints (kernel/vfs.rs). */
module HintTable {
  import opened Wrappers

  const CAPACITY: nat := 512
  const PROBES: nat := 8
  const REVALIDATE_NS: nat := 1_000_000_000
  const U64: nat := 0x1_0000_0000_0000_0000

  /** A directory entry as one identity saw it. */
  datatype Key = Key(parent: nat, name: seq<nat>, identity: seq<nat>)

  /** What a readdir record said of it. `generation` is the fence generation the reply was
      asked under, `attributeGeneration` the order of its attributes. */
  datatype Hint = Hint(
    key: Key, hash: nat, inode: nat, attributes: nat, observedNs: nat, attributeGeneration: nat, generation: nat)

  type Slots = seq<Option<Hint>>

  type Hash = (nat, seq<nat>) -> nat

  function SlotOf(hash: nat, probe: nat): (i: nat)
    ensures i < CAPACITY
  {
    (hash + probe) % CAPACITY
  }

  /** The slots a hash may use. */
  predicate InNeighbourhood(hash: nat, i: nat) {
    exists probe :: 0 <= probe < PROBES && i == SlotOf(hash, probe)
  }

  function Contents(s: Slots): set<Hint> {
    set i | 0 <= i < |s| && s[i].Some? :: s[i].value
  }

  predicate Expired(h: Hint, nowNs: nat) {
    (nowNs - h.observedNs) % U64 >= REVALIDATE_NS
  }

  /** A hint is good for one second from its observation, on a clock that has not gone round. */
  lemma GoodForASecond(h: Hint, nowNs: nat)
    requires h.observedNs <= nowNs < h.observedNs + U64
    ensures Expired(h, nowNs) <==> h.observedNs + 1_000_000_000 <= nowNs
  {
  }

  // ------------------------------------------------------------------ what the table means

  /** Every hint is where its key hashes to, and no key has two. */
  ghost predicate WellFormed(s: Slots, hash: Hash) {
    && |s| == CAPACITY
    && (forall i :: 0 <= i < CAPACITY && s[i].Some? ==>
          s[i].value.hash == hash(s[i].value.key.parent, s[i].value.key.name) && InNeighbourhood(s[i].value.hash, i))
    && (forall i, j :: 0 <= i < j < CAPACITY && s[i].Some? && s[j].Some? ==> s[i].value.key != s[j].value.key)
  }

  /** A set of hints is a partial map from keys. */
  ghost predicate Functional(hints: set<Hint>) {
    forall a, b :: a in hints && b in hints && a.key == b.key ==> a == b
  }

  lemma ContentsFunctional(s: Slots, hash: Hash)
    requires WellFormed(s, hash)
    ensures Functional(Contents(s))
  {
  }

  /** Writing one slot swaps its hint for the new one. */
  lemma ContentsUpdate(s: Slots, hash: Hash, i: nat, x: Option<Hint>)
    requires WellFormed(s, hash) && i < CAPACITY
    ensures Contents(s[i := x]) ==
            Contents(s) - (if s[i].Some? then {s[i].value} else {}) + (if x.Some? then {x.value} else {})
  {
    var after := s[i := x];
    forall h | h in Contents(s) && !(s[i].Some? && h == s[i].value)
      ensures h in Contents(after)
    {
      var j :| 0 <= j < |s| && s[j].Some? && s[j].value == h;
      assert after[j] == s[j];
    }
    if x.Some? {
      assert after[i].value == x.value;
    }
    forall h | h in Contents(after)
      ensures h in Contents(s) - (if s[i].Some? then {s[i].value} else {}) + (if x.Some? then {x.value} else {})
    {
      var j :| 0 <= j < |after| && after[j].Some? && after[j].value == h;
      if j != i {
        assert s[j].value == h;
      }
    }
  }

  /** Storing a hint adds it; a newer one of the same key replaces an older; when its
      neighbourhood is full it may cost one other hint. */
  ghost predicate Stores(before: set<Hint>, after: set<Hint>, hint: Hint) {
    || (exists h :: h in before && h.key == hint.key && hint.attributeGeneration <= h.attributeGeneration
                    && after == before)
    || (exists h :: h in before && h.key == hint.key && hint.attributeGeneration > h.attributeGeneration
                    && after == before - {h} + {hint})
    || ((forall h :: h in before ==> h.key != hint.key) && after == before + {hint})
    || ((forall h :: h in before ==> h.key != hint.key) && exists h :: h in before && after == before - {h} + {hint})
  }

  lemma StoresKeepsFunctional(before: set<Hint>, after: set<Hint>, hint: Hint)
    requires Functional(before) && Stores(before, after, hint)
    ensures Functional(after)
  {
  }

  /** Looking a key up takes its hint out, unless it expired, and may discard expired ones. */
  ghost predicate Takes(before: set<Hint>, after: set<Hint>, key: Key, nowNs: nat, found: Option<Hint>) {
    && after <= before
    && (forall h :: h in before - after ==> Expired(h, nowNs) || found == Some(h))
    && (found.Some? ==> found.value in before && found.value.key == key && !Expired(found.value, nowNs)
                        && found.value !in after)
    && (forall h :: h in after ==> h.key != key)
  }

  /** Every hint in this neighbourhood is of this fence generation. */
  ghost predicate AllOf(s: Slots, hash: nat, generation: nat)
    requires |s| == CAPACITY
  {
    forall p :: 0 <= p < PROBES && s[SlotOf(hash, p)].Some? ==> s[SlotOf(hash, p)].value.generation == generation
  }

  class HintCache {
    const entries: array<Option<Hint>>
    const hash: Hash
    var nextReplacement: nat

    ghost predicate Valid()
      reads this, entries
    {
      WellFormed(entries[..], hash)
    }

    ghost function Hints(): set<Hint>
      reads this, entries
    {
      Contents(entries[..])
    }

    constructor (hashing: Hash)
      ensures Valid() && Hints() == {} && hash == hashing && fresh(entries)
    {
      entries := new Option<Hint>[CAPACITY](_ => None);
      hash := hashing;
      nextReplacement := 0;
    }

    method Write(i: nat, x: Option<Hint>)
      requires Valid() && i < CAPACITY
      requires x.Some? ==> x.value.hash == hash(x.value.key.parent, x.value.key.name)
      requires x.Some? ==> InNeighbourhood(x.value.hash, i)
      requires x.Some? ==> forall j :: 0 <= j < CAPACITY && j != i && entries[j].Some? ==>
                             entries[j].value.key != x.value.key
      modifies entries
      ensures Valid() && entries[..] == old(entries[..])[i := x]
      ensures Hints() == old(Hints()) - (if old(entries[i]).Some? then {old(entries[i]).value} else {})
                         + (if x.Some? then {x.value} else {})
    {
      ContentsUpdate(entries[..], hash, i, x);
      entries[i] := x;
      assert entries[..] == old(entries[..])[i := x];
    }

    /** The slot already holding this key, else the first empty one, else the first of an
        older fence generation. */
    method Probe(hint: Hint) returns (same: Option<nat>, empty: Option<nat>, recyclable: Option<nat>)
      requires Valid() && hint.hash == hash(hint.key.parent, hint.key.name)
      ensures same.Some? ==> same.value < CAPACITY && InNeighbourhood(hint.hash, same.value)
                             && entries[same.value].Some? && entries[same.value].value.key == hint.key
      ensures same.None? ==> forall h :: h in Hints() ==> h.key != hint.key
      ensures empty.Some? ==> empty.value < CAPACITY && InNeighbourhood(hint.hash, empty.value)
                              && entries[empty.value].None?
      ensures same.None? && empty.None? ==> forall p :: 0 <= p < PROBES ==> entries[SlotOf(hint.hash, p)].Some?
      ensures same.None? && recyclable.None? ==> AllOf(entries[..], hint.hash, hint.generation)
      ensures recyclable.Some? ==> recyclable.value < CAPACITY && InNeighbourhood(hint.hash, recyclable.value)
                                   && entries[recyclable.value].Some?
                                   && entries[recyclable.value].value.generation != hint.generation
    {
      same, empty, recyclable := None, None, None;
      for probe := 0 to PROBES
        invariant forall p :: 0 <= p < probe && entries[SlotOf(hint.hash, p)].Some? ==>
                    entries[SlotOf(hint.hash, p)].value.key != hint.key
        invariant empty.Some? ==> empty.value < CAPACITY && InNeighbourhood(hint.hash, empty.value)
                                  && entries[empty.value].None?
        invariant empty.None? ==> forall p :: 0 <= p < probe ==> entries[SlotOf(hint.hash, p)].Some?
        invariant recyclable.None? ==> forall p :: 0 <= p < probe && entries[SlotOf(hint.hash, p)].Some? ==>
                    entries[SlotOf(hint.hash, p)].value.generation == hint.generation
        invariant recyclable.Some? ==> recyclable.value < CAPACITY && InNeighbourhood(hint.hash, recyclable.value)
                                       && entries[recyclable.value].Some?
                                       && entries[recyclable.value].value.generation != hint.generation
      {
        var index := SlotOf(hint.hash, probe);
        assert InNeighbourhood(hint.hash, index);
        match entries[index] {
          case Some(existing) =>
            if existing.hash == hint.hash && existing.key == hint.key {
              return Some(index), empty, recyclable;
            }
            if existing.generation != hint.generation && recyclable.None? {
              recyclable := Some(index);
            }
          case None =>
            if empty.None? {
              empty := Some(index);
            }
        }
      }
    }

    method Insert(hint: Hint)
      requires Valid() && hint.hash == hash(hint.key.parent, hint.key.name)
      modifies this`nextReplacement, entries
      ensures Valid() && Stores(old(Hints()), Hints(), hint)
      ensures (exists p :: 0 <= p < PROBES && old(entries[SlotOf(hint.hash, p)]).None?) ==>
                old(Hints()) <= Hints() || exists h :: h in old(Hints()) && h.key == hint.key
      ensures forall h :: h in old(Hints()) - Hints() && h.key != hint.key ==>
                h.generation != hint.generation || AllOf(old(entries[..]), hint.hash, hint.generation)
      ensures (forall h :: h in old(Hints()) ==> h.key != hint.key)
              && AllOf(old(entries[..]), hint.hash, hint.generation)
              && (forall p :: 0 <= p < PROBES ==> old(entries[SlotOf(hint.hash, p)]).Some?) ==>
                entries[SlotOf(hint.hash, old(nextReplacement) % PROBES)] == Some(hint)
      ensures nextReplacement ==
              old(nextReplacement) + if exists h :: h in old(Hints()) && h.key == hint.key then 0 else 1
    {
      var same, empty, recyclable := Probe(hint);
      if same.Some? {
        var existing := entries[same.value].value;
        assert existing in Hints() by {
          assert entries[..][same.value].value == existing;
        }
        if hint.attributeGeneration > existing.attributeGeneration {
          Write(same.value, Some(hint));
        }
        return;
      }
      var spare := SlotOf(hint.hash, nextReplacement % PROBES);
      var replacement := if empty.Some? then empty.value else if recyclable.Some? then recyclable.value else spare;
      assert forall j :: 0 <= j < CAPACITY && entries[j].Some? ==> entries[..][j].value in Hints();
      Write(replacement, Some(hint));
      nextReplacement := nextReplacement + 1;
    }

    /** Take the hint for one key, discarding expired hints met on the way. */
    method Take(key: Key, nowNs: nat) returns (found: Option<Hint>)
      requires Valid()
      modifies entries
      ensures Valid() && Takes(old(Hints()), Hints(), key, nowNs, found)
    {
      var keyHash := hash(key.parent, key.name);
      for probe := 0 to PROBES
        invariant Valid() && Hints() <= old(Hints())
        invariant forall h :: h in old(Hints()) - Hints() ==> Expired(h, nowNs)
        invariant forall p :: 0 <= p < probe && entries[SlotOf(keyHash, p)].Some? ==>
                    entries[SlotOf(keyHash, p)].value.key != key
      {
        var index := SlotOf(keyHash, probe);
        assert entries[index].Some? ==> entries[..][index].value in Hints();
        if entries[index].Some? && Expired(entries[index].value, nowNs) {
          Write(index, None);
        } else if entries[index].Some? && entries[index].value.hash == keyHash && entries[index].value.key == key {
          found := entries[index];
          ContentsFunctional(entries[..], hash);
          Write(index, None);
          return;
        }
      }
      found := None;
      AbsentOutsideNeighbourhood(key);
    }

    /** What is not in its neighbourhood is not in the table. */
    lemma AbsentOutsideNeighbourhood(key: Key)
      requires Valid()
      requires forall p :: 0 <= p < PROBES && entries[SlotOf(hash(key.parent, key.name), p)].Some? ==>
                 entries[SlotOf(hash(key.parent, key.name), p)].value.key != key
      ensures forall h :: h in Hints() ==> h.key != key
    {
    }

    /** Whoever recorded them, hints about this name in this parent go and all others stay. */
    method DropEntry(parent: nat, name: seq<nat>)
      requires Valid()
      modifies entries
      ensures Valid()
      ensures Hints() == set h | h in old(Hints()) && !(h.key.parent == parent && h.key.name == name)
    {
      var keyHash := hash(parent, name);
      for probe := 0 to PROBES
        invariant Valid() && Hints() <= old(Hints())
        invariant forall h :: h in old(Hints()) - Hints() ==> h.key.parent == parent && h.key.name == name
        invariant forall p :: 0 <= p < probe && entries[SlotOf(keyHash, p)].Some? ==>
                    !(entries[SlotOf(keyHash, p)].value.key.parent == parent
                      && entries[SlotOf(keyHash, p)].value.key.name == name)
      {
        var index := SlotOf(keyHash, probe);
        if entries[index].Some? && entries[index].value.key.parent == parent && entries[index].value.key.name == name {
          Write(index, None);
        }
      }
    }

    /** Hints whose `inode` is in `objects` go, under whatever name, and all others stay. */
    method DropObjects(objects: set<nat>)
      requires Valid()
      modifies entries
      ensures Valid()
      ensures Hints() == set h | h in old(Hints()) && h.inode !in objects
    {
      for i := 0 to CAPACITY
        invariant Valid() && Hints() <= old(Hints())
        invariant forall h :: h in old(Hints()) - Hints() ==> h.inode in objects
        invariant forall j :: 0 <= j < i && entries[j].Some? ==> entries[j].value.inode !in objects
      {
        if entries[i].Some? && entries[i].value.inode in objects {
          Write(i, None);
        }
      }
      forall h | h in Hints()
        ensures h.inode !in objects
      {
        var j :| 0 <= j < CAPACITY && entries[..][j].Some? && entries[..][j].value == h;
      }
    }
  }
}

/** Readdir replies in flight against mutations that fence and then drop. */
module HintFence {
  import opened Wrappers
  import opened HintTable

  /** What a mutation makes stale: one directory entry, or one object's attributes. */
  datatype Target = OfEntry(parent: nat, name: seq<nat>) | OfObject(inode: nat)

  /** `captured` are the generations readdirs read before their request went out; `lock` is the
      hint a reply is about to store, its generation already rechecked. */
  datatype State = State(hints: set<Hint>, generation: nat, captured: set<nat>, lock: Option<Hint>)

  datatype Step =
    | BeginReaddir
    | Recheck(hint: Hint)
    | Store(after: set<Hint>)
    | Fence
    | Drop(target: Target)
    | Lookup(key: Key, nowNs: nat, found: Option<Hint>, after: set<Hint>)

  predicate About(h: Hint, target: Target) {
    match target
    case OfEntry(parent, name) => h.key.parent == parent && h.key.name == name
    case OfObject(inode) => h.inode == inode
  }

  /** The generation counter is an atomic outside the table's mutex, so a fence may fall
      between the recheck and the store. */
  ghost predicate Enabled(s: State, step: Step) {
    match step
    case BeginReaddir => true
    case Recheck(hint) => s.lock.None? && hint.generation in s.captured && hint.generation == s.generation
    case Store(after) => s.lock.Some? && Stores(s.hints, after, s.lock.value)
    case Fence => true
    case Drop(_) => s.lock.None?
    case Lookup(key, nowNs, found, after) => s.lock.None? && Takes(s.hints, after, key, nowNs, found)
  }

  ghost function Next(s: State, step: Step): State
    requires Enabled(s, step)
  {
    match step
    case BeginReaddir => s.(captured := s.captured + {s.generation})
    case Recheck(hint) => s.(lock := Some(hint))
    case Store(after) => s.(hints := after, lock := None)
    case Fence => s.(generation := s.generation + 1)
    case Drop(target) =>
      var left := set h | h in s.hints && !About(h, target);
      s.(hints := left)
    case Lookup(_, _, _, after) => s.(hints := after)
  }

  ghost predicate Run(states: seq<State>, steps: seq<Step>) {
    && |states| == |steps| + 1
    && states[0] == State({}, 0, {}, None)
    && forall i :: 0 <= i < |steps| ==> Enabled(states[i], steps[i]) && states[i + 1] == Next(states[i], steps[i])
  }

  predicate Present(s: State, h: Hint) {
    h in s.hints || s.lock == Some(h)
  }

  /** A hint comes into the table only through a reply that captured its generation. */
  ghost predicate Inv(s: State) {
    Functional(s.hints) && forall h :: Present(s, h) ==> h.generation in s.captured
  }

  lemma StepKeepsInv(s: State, step: Step)
    requires Inv(s) && Enabled(s, step)
    ensures Inv(Next(s, step))
  {
    if step.Store? {
      StoresKeepsFunctional(s.hints, step.after, s.lock.value);
      assert forall h :: h in step.after ==> Present(s, h);
    }
  }

  lemma {:induction false} RunKeepsInv(states: seq<State>, steps: seq<Step>, i: nat)
    requires Run(states, steps) && i < |states|
    ensures Inv(states[i])
  {
    if i > 0 {
      RunKeepsInv(states, steps, i - 1);
      StepKeepsInv(states[i - 1], steps[i - 1]);
    }
  }

  /** No fence in steps j..i. */
  predicate Unfenced(steps: seq<Step>, j: nat, i: nat)
    requires j <= i <= |steps|
  {
    forall m :: j <= m < i ==> !steps[m].Fence?
  }

  /** The generation stands still exactly where nothing fences. */
  lemma {:induction false} GenerationCountsFences(states: seq<State>, steps: seq<Step>, i: nat, j: nat)
    requires Run(states, steps) && i <= j < |states|
    ensures states[i].generation <= states[j].generation
    ensures states[i].generation == states[j].generation <==> Unfenced(steps, i, j)
    decreases j - i
  {
    if i < j {
      GenerationCountsFences(states, steps, i, j - 1);
      assert Enabled(states[j - 1], steps[j - 1]);
    }
  }

  /** Every captured generation was read by some readdir that began then. */
  lemma {:induction false} CapturedBegan(states: seq<State>, steps: seq<Step>, i: nat, g: nat) returns (b: nat)
    requires Run(states, steps) && i < |states| && g in states[i].captured
    ensures b < i && steps[b].BeginReaddir? && states[b].generation == g
  {
    if g in states[i - 1].captured {
      b := CapturedBegan(states, steps, i - 1, g);
    } else {
      b := i - 1;
    }
  }

  /** What is there at `j` was rechecked once since the last step `i` at which it was not. */
  lemma {:induction false} RecheckedSince(states: seq<State>, steps: seq<Step>, i: nat, j: nat, h: Hint)
    returns (recheck: nat)
    requires Run(states, steps) && i <= j < |states| && !Present(states[i], h) && Present(states[j], h)
    ensures i <= recheck < j && steps[recheck] == Recheck(h)
    decreases j
  {
    if Present(states[j - 1], h) {
      recheck := RecheckedSince(states, steps, i, j - 1, h);
    } else {
      recheck := j - 1;
    }
  }

  /** A hint a lookup returns about something dropped earlier was rechecked after the drop, and
      whichever readdir captured its generation, nothing fenced from then to the recheck. So a
      capture that is older than the drop is returned only where no fence came in between. */
  lemma HintOutlivesDropUnfenced(states: seq<State>, steps: seq<Step>, drop: nat, lookup: nat)
    returns (began: nat, recheck: nat)
    requires Run(states, steps) && drop < lookup < |steps|
    requires steps[drop].Drop? && steps[lookup].Lookup? && steps[lookup].found.Some?
    requires About(steps[lookup].found.value, steps[drop].target)
    ensures drop < recheck < lookup && steps[recheck] == Recheck(steps[lookup].found.value)
    ensures began < recheck && steps[began].BeginReaddir?
    ensures states[began].generation == steps[lookup].found.value.generation
    ensures forall b :: 0 <= b < recheck && states[b].generation == steps[lookup].found.value.generation ==>
              Unfenced(steps, b, recheck)
  {
    var h := steps[lookup].found.value;
    assert Present(states[lookup], h) && !Present(states[drop + 1], h);
    recheck := RecheckedSince(states, steps, drop + 1, lookup, h);
    assert Enabled(states[recheck], steps[recheck]);
    began := CapturedBegan(states, steps, recheck, h.generation);
    forall b | 0 <= b < recheck && states[b].generation == h.generation
      ensures Unfenced(steps, b, recheck)
    {
      GenerationCountsFences(states, steps, b, recheck);
    }
  }

  /** A reply to a readdir begun at `b` may be stored at `r` exactly if nothing has fenced since,
      dropped or not. */
  lemma RecheckIsExact(states: seq<State>, steps: seq<Step>, b: nat, r: nat, h: Hint)
    requires Run(states, steps) && b < r < |states| && steps[b].BeginReaddir? && h.generation == states[b].generation
    requires states[r].lock.None?
    ensures Enabled(states[r], Recheck(h)) <==> Unfenced(steps, b, r)
  {
    GenerationCountsFences(states, steps, b, r);
    CapturedStays(states, steps, b + 1, r, h.generation);
  }

  lemma {:induction false} CapturedStays(states: seq<State>, steps: seq<Step>, i: nat, j: nat, g: nat)
    requires Run(states, steps) && i <= j < |states| && g in states[i].captured
    ensures g in states[j].captured
    decreases j - i
  {
    if i < j {
      CapturedStays(states, steps, i, j - 1, g);
      assert Enabled(states[j - 1], steps[j - 1]);
    }
  }

  /** A hint is given out once: whatever a lookup returns is gone, and so is every hint for its key. */
  lemma TakenIsGone(states: seq<State>, steps: seq<Step>, i: nat)
    requires Run(states, steps) && i < |steps| && steps[i].Lookup?
    ensures forall h :: Present(states[i + 1], h) ==> h.key != steps[i].key
    ensures steps[i].found.Some? ==>
              steps[i].found.value in states[i].hints && !Expired(steps[i].found.value, steps[i].nowNs)
    ensures forall h :: Present(states[i], h) && !Present(states[i + 1], h) ==>
              h.key == steps[i].key || Expired(h, steps[i].nowNs)
  {
    assert Enabled(states[i], steps[i]);
  }

  /** A drop without a fence: the readdir begun before it puts its hint back, and a lookup gets it. */
  lemma UnfencedDropHappens() returns (h: Hint, states: seq<State>, steps: seq<Step>)
    ensures Run(states, steps) && |steps| == 5
    ensures steps[0] == BeginReaddir && steps[1] == Drop(OfObject(h.inode)) && steps[2] == Recheck(h)
    ensures steps[4].Lookup? && steps[4].found == Some(h)
  {
    h := Hint(Key(1, [], []), 0, 2, 0, 0, 0, 0);
    GoodForASecond(h, 0);
    var s0 := State({}, 0, {}, None);
    steps := [BeginReaddir, Drop(OfObject(h.inode)), Recheck(h), Store({h}), Lookup(h.key, 0, Some(h), {})];
    var s1 := Next(s0, steps[0]);
    var s2 := Next(s1, steps[1]);
    assert s2.hints == {};
    var s3 := Next(s2, steps[2]);
    assert Stores(s3.hints, {h}, h);
    var s4 := Next(s3, steps[3]);
    assert Takes(s4.hints, {}, h.key, 0, Some(h));
    states := [s0, s1, s2, s3, s4, Next(s4, steps[4])];
  }

  /** After a mutation has fenced and then dropped an entry or an object, a lookup returns for it
      only a hint from a readdir that began after the fence, even if the fence fell between a
      reply's recheck and its store. */
  lemma NoStaleHintAfterFence(states: seq<State>, steps: seq<Step>, fence: nat, drop: nat, lookup: nat)
    returns (began: nat)
    requires Run(states, steps) && fence < drop < lookup < |steps|
    requires steps[fence].Fence? && steps[drop].Drop? && steps[lookup].Lookup? && steps[lookup].found.Some?
    requires About(steps[lookup].found.value, steps[drop].target)
    ensures steps[lookup].found.value.key == steps[lookup].key
    ensures fence < began < lookup && steps[began].BeginReaddir?
    ensures states[began].generation == steps[lookup].found.value.generation
  {
    var recheck;
    began, recheck := HintOutlivesDropUnfenced(states, steps, drop, lookup);
    assert Unfenced(steps, began, recheck);
  }
}
