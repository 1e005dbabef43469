/** The lockless dentry freshness record (kernel/vfs.rs), one step per atomic access.

    Writers serialise on a spinlock and bump the sequence around their stores; path-walk
    readers take no lock and retry at most four times. */
module DentrySeqlock {
  import opened Wrappers

  const REVALIDATE_NS: nat := 1_000_000_000
  const U64: nat := 0x1_0000_0000_0000_0000
  const TRIES: nat := 4

  /** The identity is stored one word at a time. */
  datatype Record = Record(length: nat, words: seq<nat>, observedNs: nat, observed: nat, invalidated: nat)

  datatype Writer =
    | NoWriter
    | Recording(from: nat, target: Record, stored: nat)
    | Invalidating(from: nat, generation: nat, done: bool)

  /** What a reader has copied so far: `at` counts the fields, then the words, it has loaded. */
  datatype Reader =
    | Resting
    | Trying(tries: nat, asked: Query)
    | Reading(tries: nat, asked: Query, before: nat, at: nat, copy: Record, matched: bool)

  datatype Query = Query(length: nat, words: seq<nat>, nowNs: nat)

  datatype State = State(sequence: nat, mem: Record, writer: Writer, readers: seq<Reader>, width: nat)

  datatype Step =
    | BeginRecord(length: nat, words: seq<nat>, observedNs: nat, generation: nat)
    | StoreField
    | BeginInvalidate(generation: nat)
    | StoreInvalidated
    | EndWrite
    | BeginLookup(r: nat, query: Query)
    | LoadSequence(r: nat)
    | LoadField(r: nat)
    | FinishTry(r: nat)

  // ------------------------------------------------------------------ writers

  /** Fields in store order: the words, the length, the time, the generation. */
  function Stored(mem: Record, target: Record, at: nat): Record {
    if at < |mem.words| then (if at < |target.words| then mem.(words := mem.words[at := target.words[at]]) else mem)
    else if at == |mem.words| then mem.(length := target.length)
    else if at == |mem.words| + 1 then mem.(observedNs := target.observedNs)
    else mem.(observed := target.observed)
  }

  /** `record` ignores an observation no newer than the last, or older than an invalidation. */
  predicate Refused(mem: Record, generation: nat) {
    generation <= mem.observed || generation < mem.invalidated
  }

  // ------------------------------------------------------------------ readers

  /** What a lookup's answer means. */
  predicate Fresh(mem: Record, q: Query) {
    && mem.length == q.length && mem.words == q.words && mem.observedNs != 0 && mem.observed >= mem.invalidated
    && (q.nowNs - mem.observedNs) % U64 < REVALIDATE_NS
  }

  /** Fields in load order: length, time, both generations, then words until one differs. */
  function Loaded(rd: Reader, mem: Record): Reader
    requires rd.Reading?
  {
    match rd.at
    case 0 => rd.(at := 1, copy := rd.copy.(length := mem.length), matched := mem.length == rd.asked.length)
    case 1 => rd.(at := 2, copy := rd.copy.(observedNs := mem.observedNs))
    case 2 => rd.(at := 3, copy := rd.copy.(observed := mem.observed))
    case 3 => rd.(at := 4, copy := rd.copy.(invalidated := mem.invalidated))
    case _ =>
      var k := rd.at - 4;
      if !rd.matched || k >= |mem.words| || k >= |rd.asked.words| then rd
      else rd.(at := rd.at + 1, copy := rd.copy.(words := rd.copy.words + [mem.words[k]]),
               matched := mem.words[k] == rd.asked.words[k])
  }

  /** The reader has everything it needs: all words compared, or a mismatch. */
  predicate Copied(rd: Reader, width: nat) {
    rd.Reading? && rd.at >= 4 && (!rd.matched || rd.at == 4 + width)
  }

  /** The verdict a reader reaches from its own copy. */
  predicate Verdict(rd: Reader) {
    && rd.Reading? && rd.matched && rd.copy.observedNs != 0 && rd.copy.observed >= rd.copy.invalidated
    && (rd.asked.nowNs - rd.copy.observedNs) % U64 < REVALIDATE_NS
  }

  /** This step makes a lookup answer true. */
  predicate SaysFresh(s: State, step: Step) {
    step.FinishTry? && step.r < |s.readers| && Verdict(s.readers[step.r]) && s.readers[step.r].before == s.sequence
  }

  predicate Enabled(s: State, step: Step) {
    match step
    case BeginRecord(_, words, _, _) => s.writer.NoWriter? && |words| == s.width
    case StoreField => s.writer.Recording? && s.writer.stored < s.width + 3
    case BeginInvalidate(_) => s.writer.NoWriter?
    case StoreInvalidated => s.writer.Invalidating? && !s.writer.done
    case EndWrite =>
      (s.writer.Recording? && s.writer.stored == s.width + 3) || (s.writer.Invalidating? && s.writer.done)
    case BeginLookup(r, query) => r < |s.readers| && s.readers[r].Resting? && |query.words| == s.width
    case LoadSequence(r) => r < |s.readers| && s.readers[r].Trying?
    case LoadField(r) => r < |s.readers| && s.readers[r].Reading? && !Copied(s.readers[r], s.width)
    case FinishTry(r) => r < |s.readers| && Copied(s.readers[r], s.width)
  }

  function Retrying(tries: nat, asked: Query): Reader {
    if tries == 0 then Resting else Trying(tries, asked)
  }

  const BLANK: Record := Record(0, [], 0, 0, 0)

  function Next(s: State, step: Step): State
    requires Enabled(s, step)
  {
    match step
    case BeginRecord(length, words, observedNs, generation) =>
      if Refused(s.mem, generation) then s
      else s.(sequence := s.sequence + 1,
              writer := Recording(s.sequence, Record(length, words, observedNs, generation, s.mem.invalidated), 0))
    case StoreField =>
      s.(mem := Stored(s.mem, s.writer.target, s.writer.stored), writer := s.writer.(stored := s.writer.stored + 1))
    case BeginInvalidate(generation) =>
      if generation <= s.mem.invalidated then s
      else s.(sequence := s.sequence + 1, writer := Invalidating(s.sequence, generation, false))
    case StoreInvalidated => s.(mem := s.mem.(invalidated := s.writer.generation), writer := s.writer.(done := true))
    case EndWrite => s.(sequence := s.writer.from + 2, writer := NoWriter)
    case BeginLookup(r, query) => s.(readers := s.readers[r := Trying(TRIES, query)])
    case LoadSequence(r) =>
      var rd := s.readers[r];
      var seen := if s.sequence % 2 != 0 then Retrying(if rd.tries > 0 then rd.tries - 1 else 0, rd.asked)
                  else Reading(rd.tries, rd.asked, s.sequence, 0, BLANK, false);
      s.(readers := s.readers[r := seen])
    case LoadField(r) => s.(readers := s.readers[r := Loaded(s.readers[r], s.mem)])
    case FinishTry(r) =>
      var rd := s.readers[r];
      var next := if rd.before == s.sequence then Resting
                  else Retrying(if rd.tries > 0 then rd.tries - 1 else 0, rd.asked);
      s.(readers := s.readers[r := next])
  }

  ghost predicate Initial(s: State) {
    && s.sequence == 0 && s.writer.NoWriter? && s.mem == Record(0, seq(s.width, _ => 0), 0, 0, 0)
    && forall r :: 0 <= r < |s.readers| ==> s.readers[r].Resting?
  }

  ghost predicate Run(states: seq<State>, steps: seq<Step>) {
    && |states| == |steps| + 1
    && Initial(states[0])
    && forall i :: 0 <= i < |steps| ==> Enabled(states[i], steps[i]) && states[i + 1] == Next(states[i], steps[i])
  }

  // ------------------------------------------------------------------ invariants

  /** The sequence is odd exactly while a writer is between its two bumps. */
  ghost predicate WriterInv(s: State) {
    && |s.mem.words| == s.width
    && match s.writer
       case NoWriter => s.sequence % 2 == 0
       case Recording(from, target, stored) =>
         from % 2 == 0 && s.sequence == from + 1 && |target.words| == s.width && stored <= s.width + 3
         && target.invalidated == s.mem.invalidated && Written(s.mem, target, stored)
         && target.observed >= s.mem.observed && target.observed >= s.mem.invalidated
       case Invalidating(from, generation, done) =>
         from % 2 == 0 && s.sequence == from + 1 && generation >= s.mem.invalidated
         && (done ==> s.mem.invalidated == generation)
  }

  /** The first `stored` fields of the target, in store order, are in memory. */
  ghost predicate Written(mem: Record, target: Record, stored: nat) {
    && |mem.words| == |target.words|
    && (forall k :: 0 <= k < |mem.words| && k < stored ==> mem.words[k] == target.words[k])
    && (stored > |mem.words| ==> mem.length == target.length)
    && (stored > |mem.words| + 1 ==> mem.observedNs == target.observedNs)
    && (stored > |mem.words| + 2 ==> mem.observed == target.observed)
  }

  /** What a reader copied is what memory holds, as long as the sequence has not moved. */
  ghost predicate Faithful(rd: Reader, mem: Record, width: nat) {
    rd.Reading? ==>
      && |rd.asked.words| == width && |mem.words| == width
      && (rd.at >= 1 ==> rd.copy.length == mem.length)
      && (rd.at >= 2 ==> rd.copy.observedNs == mem.observedNs)
      && (rd.at >= 3 ==> rd.copy.observed == mem.observed)
      && (rd.at >= 4 ==> rd.copy.invalidated == mem.invalidated && rd.at <= 4 + width)
      && (rd.at >= 1 && rd.matched ==> mem.length == rd.asked.length)
      && (rd.at >= 1 && !rd.matched ==> mem.length != rd.asked.length || mem.words != rd.asked.words)
      && (forall k :: 0 <= k < rd.at - 4 && rd.matched ==> mem.words[k] == rd.asked.words[k])
  }

  ghost predicate ReaderInv(s: State, rd: Reader) {
    && (rd.Reading? ==> rd.before % 2 == 0 && rd.before <= s.sequence)
    && (rd.Reading? || rd.Trying? ==> |rd.asked.words| == s.width)
    && (rd.Reading? && rd.before == s.sequence ==> Faithful(rd, s.mem, s.width))
  }

  ghost predicate Inv(s: State) {
    WriterInv(s) && forall r :: 0 <= r < |s.readers| ==> ReaderInv(s, s.readers[r])
  }

  /** A writer's stores happen while the sequence differs from every even value read. */
  lemma WriterStepKeepsReaders(s: State, step: Step, r: nat)
    requires WriterInv(s) && r < |s.readers| && ReaderInv(s, s.readers[r]) && Enabled(s, step)
    requires step.BeginRecord? || step.StoreField? || step.BeginInvalidate? || step.StoreInvalidated? || step.EndWrite?
    ensures Next(s, step).readers == s.readers && ReaderInv(Next(s, step), s.readers[r])
  {
  }

  lemma LoadKeepsFaithful(rd: Reader, mem: Record, width: nat)
    requires rd.Reading? && Faithful(rd, mem, width) && |mem.words| == width && |rd.asked.words| == width
    ensures Faithful(Loaded(rd, mem), mem, width)
  {
  }

  lemma StepKeepsWriter(s: State, step: Step)
    requires WriterInv(s) && Enabled(s, step)
    ensures WriterInv(Next(s, step))
    ensures s.mem.invalidated <= Next(s, step).mem.invalidated
    ensures Next(s, step).width == s.width
  {
  }

  lemma StepKeepsInv(s: State, step: Step)
    requires Inv(s) && Enabled(s, step)
    ensures Inv(Next(s, step))
  {
    var v := Next(s, step);
    StepKeepsWriter(s, step);
    forall r | 0 <= r < |v.readers|
      ensures ReaderInv(v, v.readers[r])
    {
      match step {
        case BeginLookup(q, _) => assert r != q ==> v.readers[r] == s.readers[r];
        case LoadSequence(q) => assert r != q ==> v.readers[r] == s.readers[r];
        case FinishTry(q) => assert r != q ==> v.readers[r] == s.readers[r];
        case LoadField(q) =>
          assert r != q ==> v.readers[r] == s.readers[r];
          if r == q && s.readers[q].before == s.sequence {
            LoadKeepsFaithful(s.readers[q], s.mem, s.width);
          }
        case _ => WriterStepKeepsReaders(s, step, r);
      }
    }
  }

  lemma {:induction false} RunKeepsInv(states: seq<State>, steps: seq<Step>, i: nat)
    requires Run(states, steps) && i < |states|
    ensures Inv(states[i])
  {
    if i > 0 {
      RunKeepsInv(states, steps, i - 1);
      StepKeepsInv(states[i - 1], steps[i - 1]);
    }
  }

  lemma {:induction false} InvalidatedGrows(states: seq<State>, steps: seq<Step>, i: nat, j: nat)
    requires Run(states, steps) && i <= j < |states|
    ensures states[i].mem.invalidated <= states[j].mem.invalidated
    decreases j - i
  {
    if i < j {
      InvalidatedGrows(states, steps, i, j - 1);
      RunKeepsInv(states, steps, j - 1);
      StepKeepsWriter(states[j - 1], steps[j - 1]);
    }
  }

  // ------------------------------------------------------------------ main results

  /** Whatever writers do in between, a lookup that answers true at its last load describes
      the record as it stands at that instant: identity, time and both generations together. */
  lemma FreshIsASnapshot(states: seq<State>, steps: seq<Step>, i: nat)
    requires Run(states, steps) && i < |steps| && SaysFresh(states[i], steps[i])
    ensures Fresh(states[i].mem, states[i].readers[steps[i].r].asked) && states[i].writer.NoWriter?
  {
    RunKeepsInv(states, steps, i);
    var s := states[i];
    var rd := s.readers[steps[i].r];
    assert Faithful(rd, s.mem, s.width);
    assert s.mem.words == rd.asked.words;
  }

  /** Once an invalidation at `g` has been stored, or found already covered, a lookup answers
      true only for an observation at least that new. */
  lemma InvalidationIsRespected(states: seq<State>, steps: seq<Step>, i: nat, j: nat, g: nat)
    requires Run(states, steps) && i < j < |steps| && SaysFresh(states[j], steps[j])
    requires (steps[i].StoreInvalidated? && states[i].writer.generation == g)
             || (steps[i] == BeginInvalidate(g) && g <= states[i].mem.invalidated)
    ensures states[j].mem.observed >= g
  {
    FreshIsASnapshot(states, steps, j);
    InvalidatedGrows(states, steps, i + 1, j);
  }

  /** An invalidation that is not already covered is in progress until its writer ends, and then stored. */
  lemma {:induction false} InvalidationTakesHold(states: seq<State>, steps: seq<Step>, i: nat, j: nat, g: nat)
    requires Run(states, steps) && i < j < |states| && steps[i] == BeginInvalidate(g) && g > states[i].mem.invalidated
    requires forall k :: i < k < j ==> !steps[k].EndWrite?
    ensures states[j].writer.Invalidating? && states[j].writer.generation == g
    ensures j < |steps| && steps[j].EndWrite? ==> states[j + 1].mem.invalidated == g && states[j + 1].writer.NoWriter?
    decreases j
  {
    RunKeepsInv(states, steps, j - 1);
    RunKeepsInv(states, steps, j);
    if j > i + 1 {
      InvalidationTakesHold(states, steps, i, j - 1, g);
    }
    assert Enabled(states[j - 1], steps[j - 1]);
    assert j < |steps| ==> Enabled(states[j], steps[j]);
  }

  /** A lookup whose copy no writer disturbed answers exactly whether the record is fresh. */
  lemma UndisturbedIsExact(states: seq<State>, steps: seq<Step>, i: nat)
    requires Run(states, steps) && i < |steps| && steps[i].FinishTry?
    requires states[i].readers[steps[i].r].before == states[i].sequence
    ensures SaysFresh(states[i], steps[i]) <==> Fresh(states[i].mem, states[i].readers[steps[i].r].asked)
  {
    RunKeepsInv(states, steps, i);
    if SaysFresh(states[i], steps[i]) {
      FreshIsASnapshot(states, steps, i);
    }
  }

  // ------------------------------------------------------------------ what memory holds

  /** This step is a record that was not refused. */
  predicate Records(s: State, step: Step) {
    step.BeginRecord? && step.generation > s.mem.observed && step.generation >= s.mem.invalidated
  }

  /** The last record begun before `i`. */
  ghost function LastRecord(states: seq<State>, steps: seq<Step>, i: nat): (b: Option<nat>)
    requires i <= |steps| && |states| == |steps| + 1
    ensures b.Some? ==> b.value < i && Records(states[b.value], steps[b.value])
    ensures forall k :: (if b.Some? then b.value + 1 else 0) <= k < i ==> !Records(states[k], steps[k])
  {
    if i == 0 then None
    else if Records(states[i - 1], steps[i - 1]) then Some(i - 1)
    else LastRecord(states, steps, i - 1)
  }

  /** `record` has the identity, time and generation this step was given. */
  predicate Holds(record: Record, step: Step) {
    && step.BeginRecord? && record.length == step.length && record.words == step.words
    && record.observedNs == step.observedNs && record.observed == step.generation
  }

  /** A record in progress is the last one begun, and without one memory is the last one begun, or
      still blank. */
  lemma {:induction false} MemoryIsLastRecord(states: seq<State>, steps: seq<Step>, i: nat)
    requires Run(states, steps) && i < |states|
    ensures var b := LastRecord(states, steps, i);
            && (states[i].writer.Recording? ==> b.Some? && Holds(states[i].writer.target, steps[b.value]))
            && (!states[i].writer.Recording? && b.Some? ==> Holds(states[i].mem, steps[b.value]))
            && (b.None? ==> states[i].mem.observedNs == 0 && states[i].mem.observed == 0)
  {
    if i > 0 {
      MemoryIsLastRecord(states, steps, i - 1);
      RunKeepsInv(states, steps, i - 1);
      var s, step := states[i - 1], steps[i - 1];
      if step.EndWrite? && s.writer.Recording? {
        assert s.mem.words == s.writer.target.words;
      }
    }
  }

  /** A writer that has finished recording has stored everything it was given. */
  lemma FinishedRecordIsStored(states: seq<State>, steps: seq<Step>, i: nat)
    requires Run(states, steps) && i < |steps| && steps[i].EndWrite? && states[i].writer.Recording?
    ensures LastRecord(states, steps, i).Some?
    ensures Holds(states[i + 1].mem, steps[LastRecord(states, steps, i).value])
  {
    MemoryIsLastRecord(states, steps, i);
    MemoryIsLastRecord(states, steps, i + 1);
  }

  /** A lookup that answers true was asked about the very identity given to the last record, which is
      complete, and judged that record's time and generation. */
  lemma FreshIsTheLastRecord(states: seq<State>, steps: seq<Step>, i: nat)
    requires Run(states, steps) && i < |steps| && SaysFresh(states[i], steps[i])
    ensures LastRecord(states, steps, i).Some?
    ensures var step, asked := steps[LastRecord(states, steps, i).value], states[i].readers[steps[i].r].asked;
            && step.BeginRecord? && step.length == asked.length && step.words == asked.words
            && step.observedNs != 0 && (asked.nowNs - step.observedNs) % U64 < REVALIDATE_NS
            && step.generation >= states[i].mem.invalidated
  {
    FreshIsASnapshot(states, steps, i);
    MemoryIsLastRecord(states, steps, i);
  }

  // ------------------------------------------------------------------ retries

  /** This step spoils one try of reader `r`: it finds a writer active, or one has moved the sequence. */
  predicate Disturbs(s: State, step: Step, r: nat) {
    && r < |s.readers|
    && (|| (step == LoadSequence(r) && s.sequence % 2 != 0)
        || (step == FinishTry(r) && s.readers[r].Reading? && s.readers[r].before != s.sequence))
  }

  ghost function Disturbances(states: seq<State>, steps: seq<Step>, b: nat, i: nat, r: nat): nat
    requires b <= i <= |steps| && |states| == |steps| + 1
    decreases i - b
  {
    if b == i then 0
    else Disturbances(states, steps, b, i - 1, r) + if Disturbs(states[i - 1], steps[i - 1], r) then 1 else 0
  }

  /** Since its lookup began, a reader still at it has been disturbed as often as it has spent tries. */
  lemma {:induction false} TriesAreSpent(states: seq<State>, steps: seq<Step>, b: nat, i: nat, r: nat)
    requires Run(states, steps) && b < i < |states| && steps[b].BeginLookup? && steps[b].r == r
    requires forall k :: b < k <= i ==> r < |states[k].readers| && !states[k].readers[r].Resting?
    ensures 0 < states[i].readers[r].tries == TRIES - Disturbances(states, steps, b + 1, i, r)
    ensures states[i].readers[r].asked == steps[b].query
    decreases i - b
  {
    if i == b + 1 {
      assert states[i] == Next(states[b], steps[b]);
    } else {
      hide Next, Enabled, Disturbs;
      TriesAreSpent(states, steps, b, i - 1, r);
      assert states[i] == Next(states[i - 1], steps[i - 1]) && !states[i].readers[r].Resting?;
      TryStep(states[i - 1], steps[i - 1], r);
    }
  }

  lemma TryStep(s: State, step: Step, r: nat)
    requires Enabled(s, step) && r < |s.readers| && !s.readers[r].Resting? && s.readers[r].tries > 0
    requires r < |Next(s, step).readers| && !Next(s, step).readers[r].Resting?
    ensures Next(s, step).readers[r].asked == s.readers[r].asked
    ensures 0 < Next(s, step).readers[r].tries == s.readers[r].tries - if Disturbs(s, step, r) then 1 else 0
  {
  }

  /** A lookup stops without an undisturbed copy only after four disturbed tries. */
  lemma GivesUpAfterFour(states: seq<State>, steps: seq<Step>, b: nat, i: nat, r: nat)
    requires Run(states, steps) && b < i < |steps| && steps[b].BeginLookup? && steps[b].r == r
    requires forall k :: b < k <= i ==> r < |states[k].readers| && !states[k].readers[r].Resting?
    requires r < |states[i + 1].readers| && states[i + 1].readers[r].Resting? && Disturbs(states[i], steps[i], r)
    ensures Disturbances(states, steps, b + 1, i + 1, r) == 4
  {
    TriesAreSpent(states, steps, b, i, r);
  }
}
