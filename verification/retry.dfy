/** Identity and retry marking of one operation across resends (kernel/client/retry.rs). */
module Retry {
  import opened Wrappers

  /** The identity of a request that carries none. */
  const NO_OP_ID: nat := 0

  const NS_PER_MS: nat := 1_000_000

  /** What a mutation frame says about the operation it belongs to. */
  datatype Envelope = Envelope(opId: nat, retry: bool, originEpoch: nat)

  const NO_ENVELOPE: Envelope := Envelope(NO_OP_ID, false, 0)

  /** What became of a frame that went out. Only the server decides. */
  datatype Outcome =
    | Answered            // the operation has its reply
    | Interrupted         // a signal ended the wait for it
    | LostConnection      // no answer will come
    | NotLeader           // refused, possibly after dispatch
    | NotLeaderClean      // refused, provably before dispatch

  /** One frame on the wire: the connection's writer epoch, when its attempt passed the budget
      check, when it was noted as dispatched, and what became of it. */
  datatype Frame = Frame(envelope: Envelope, writer: nat, admittedAt: nat, sentAt: nat, outcome: Outcome)

  /** Nothing rules out that this frame was executed. */
  predicate Suspect(f: Frame) {
    !f.outcome.NotLeaderClean?
  }

  /** The least index of a suspect frame. */
  function FirstSuspect(trace: seq<Frame>): (k: Option<nat>)
    ensures k.Some? ==> k.value < |trace| && Suspect(trace[k.value])
                        && forall j :: 0 <= j < k.value ==> !Suspect(trace[j])
    ensures k.None? ==> forall j :: 0 <= j < |trace| ==> !Suspect(trace[j])
  {
    if trace == [] then None
    else
      var earlier := FirstSuspect(trace[..|trace| - 1]);
      if earlier.Some? then earlier else if Suspect(trace[|trace| - 1]) then Some(|trace| - 1) else None
  }

  function ElapsedMs(since: nat, now: nat): nat {
    if since <= now then (now - since) / NS_PER_MS else 0
  }

  /** What every frame of one mutation promises the server about the frames before it. */
  predicate Honest(trace: seq<Frame>, k: nat, opId: nat, horizonMs: nat)
    requires k < |trace|
  {
    var f := trace[k];
    var first := FirstSuspect(trace[..k]);
    && f.envelope.opId == opId
    && (f.envelope.retry <==> first.Some?)
    && f.envelope.originEpoch == (if first.Some? then trace[first.value].writer else f.writer)
    && (first.Some? ==> f.admittedAt - trace[first.value].sentAt < horizonMs * NS_PER_MS)
  }

  ghost predicate History(trace: seq<Frame>, opId: nat, horizonMs: nat) {
    forall k :: 0 <= k < |trace| ==> Honest(trace, k, opId, horizonMs)
  }

  /** Sent frames come one after another. */
  ghost predicate Timely(trace: seq<Frame>, clock: nat) {
    forall k :: 0 <= k < |trace| ==> trace[k].sentAt <= clock
  }

  lemma HistoryAppend(trace: seq<Frame>, f: Frame, opId: nat, horizonMs: nat)
    requires History(trace, opId, horizonMs) && Honest(trace + [f], |trace|, opId, horizonMs)
    ensures History(trace + [f], opId, horizonMs)
  {
    var longer := trace + [f];
    forall k | 0 <= k < |trace|
      ensures Honest(longer, k, opId, horizonMs)
    {
      assert longer[..k] == trace[..k];
      assert Honest(trace, k, opId, horizonMs);
    }
  }

  lemma {:induction false} FirstSuspectStays(trace: seq<Frame>, j: nat, k: nat)
    requires j <= k <= |trace| && FirstSuspect(trace[..j]).Some?
    ensures FirstSuspect(trace[..k]) == FirstSuspect(trace[..j])
    decreases k - j
  {
    if j < k {
      FirstSuspectStays(trace, j, k - 1);
      assert trace[..k][..k - 1] == trace[..k - 1];
    }
  }

  /** Once a frame is a retry all later ones are, and all name the same origin. */
  lemma RetriesShareOneOrigin(trace: seq<Frame>, j: nat, k: nat, opId: nat, horizonMs: nat)
    requires History(trace, opId, horizonMs) && j < k < |trace| && trace[j].envelope.retry
    ensures trace[k].envelope == trace[j].envelope
  {
    assert Honest(trace, j, opId, horizonMs) && Honest(trace, k, opId, horizonMs);
    FirstSuspectStays(trace, j, k);
  }

  /** Of two frames the server may both have executed, the later is a retry naming the
      writer epoch of the earliest such frame. */
  lemma SecondExecutionIsMarked(trace: seq<Frame>, j: nat, k: nat, opId: nat, horizonMs: nat)
    requires History(trace, opId, horizonMs) && j < k < |trace| && Suspect(trace[j]) && Suspect(trace[k])
    ensures trace[k].envelope.retry && trace[k].envelope.opId == trace[j].envelope.opId
    ensures trace[k].envelope.originEpoch == trace[FirstSuspect(trace).value].writer
  {
    assert Honest(trace, j, opId, horizonMs) && Honest(trace, k, opId, horizonMs);
    assert trace[..k][j] == trace[j];
    assert FirstSuspect(trace[..k]).Some?;
    FirstSuspectStays(trace, k, |trace|);
    assert trace[..|trace|] == trace;
  }

  datatype Budget = Wait(ms: nat) | AmbiguousDisconnect | TimedOut

  datatype Verdict = Reply | Failure | Driving

  /** What becomes of a pass before anything is sent: it may send, a local error ends the operation,
      or the connection was replaced since it was chosen. */
  datatype Gate = Open | Refused | Stale

  /** Passes among the first `n` that may send. */
  ghost function Opens(gates: nat -> Gate, n: nat): nat {
    if n == 0 then 0 else Opens(gates, n - 1) + if gates(n - 1).Open? then 1 else 0
  }

  /** The other side of every attempt. What becomes of the n-th frame, and the writer epoch of the
      connection that carries it, are given in advance and arbitrary; nobody but `Exchange` logs. */
  class Wire {
    const answers: nat -> Outcome
    const writers: nat -> nat
    var frames: seq<Frame>

    constructor (outcomes: nat -> Outcome, epochs: nat -> nat)
      ensures frames == [] && answers == outcomes && writers == epochs
    {
      frames, answers, writers := [], outcomes, epochs;
    }

    /** The log says what the server and the connections did, whatever the client believes. */
    ghost predicate Truthful()
      reads this
    {
      forall k :: 0 <= k < |frames| ==> frames[k].outcome == answers(k) && frames[k].writer == writers(k)
    }

    method Exchange(envelope: Envelope, admittedAt: nat, sentAt: nat) returns (outcome: Outcome)
      requires Truthful()
      modifies this
      ensures Truthful() && outcome == answers(|old(frames)|)
      ensures frames == old(frames) + [Frame(envelope, writers(|old(frames)|), admittedAt, sentAt, outcome)]
    {
      outcome := answers(|frames|);
      frames := frames + [Frame(envelope, writers(|frames|), admittedAt, sentAt, outcome)];
    }
  }

  class OpAttempt {
    const opId: nat
    const enteredNs: nat
    const horizonMs: nat
    const wire: Wire
    var originEpoch: Option<nat>
    var startedNs: Option<nat>
    var clock: nat

    /** The fields are exactly the earliest frame still in doubt. */
    ghost predicate Valid()
      reads this, wire
    {
      && wire.Truthful()
      && if opId == NO_OP_ID then originEpoch.None? && startedNs.None?
         else
           && History(wire.frames, opId, horizonMs) && Timely(wire.frames, clock)
           && InDoubt(FirstSuspect(wire.frames))
    }

    ghost predicate InDoubt(first: Option<nat>)
      reads this, wire
    {
      match first
      case None => originEpoch.None? && startedNs.None?
      case Some(k) =>
        k < |wire.frames| && originEpoch == Some(wire.frames[k].writer) && startedNs == Some(wire.frames[k].sentAt)
    }

    constructor (id: nat, horizon: nat, now: nat, other: Wire)
      requires other.frames == []
      ensures Valid() && opId == id && horizonMs == horizon && wire == other
    {
      opId, enteredNs, horizonMs, wire := id, now, horizon, other;
      originEpoch, startedNs, clock := None, None, now;
    }

    /** The monotonic clock. */
    method Now() returns (now: nat)
      modifies this`clock
      ensures old(clock) <= now == clock
    {
      now :| clock <= now;
      clock := now;
    }

    function EnvelopeFor(writer: nat): Envelope
      reads this
    {
      if opId == NO_OP_ID then NO_ENVELOPE
      else Envelope(opId, originEpoch.Some?, if originEpoch.Some? then originEpoch.value else writer)
    }

    method NoteDispatched(envelope: Envelope) returns (now: nat)
      modifies this`originEpoch, this`startedNs, this`clock
      ensures old(clock) <= now == clock
      ensures opId == NO_OP_ID ==> originEpoch == old(originEpoch) && startedNs == old(startedNs)
      ensures opId != NO_OP_ID ==>
                originEpoch == (if old(originEpoch).Some? then old(originEpoch) else Some(envelope.originEpoch))
                && startedNs == (if old(startedNs).Some? then old(startedNs) else Some(now))
    {
      now := Now();
      if opId == NO_OP_ID {
        return;
      }
      if originEpoch.None? {
        originEpoch := Some(envelope.originEpoch);
      }
      if startedNs.None? {
        startedNs := Some(now);
      }
    }

    method ProvenPredispatch(envelope: Envelope)
      modifies this`originEpoch, this`startedNs
      ensures envelope.retry ==> originEpoch == old(originEpoch) && startedNs == old(startedNs)
      ensures !envelope.retry ==> originEpoch.None? && startedNs.None?
    {
      if !envelope.retry {
        originEpoch := None;
        startedNs := None;
      }
    }

    /** Past the horizon of the first suspect frame is worse news than past the grace; a wait fits
        into what is left of both. */
    method ResendBudget(graceMs: nat) returns (budget: Budget)
      modifies this`clock
      ensures old(clock) <= clock
      ensures budget.AmbiguousDisconnect? <==> startedNs.Some? && ElapsedMs(startedNs.value, clock) >= horizonMs
      ensures budget.TimedOut? <==> !budget.AmbiguousDisconnect? && ElapsedMs(enteredNs, clock) >= graceMs
      ensures budget.Wait? ==> 0 < budget.ms <= graceMs - ElapsedMs(enteredNs, clock)
                               && (startedNs.Some? ==> budget.ms <= horizonMs - ElapsedMs(startedNs.value, clock))
    {
      var now := Now();
      if startedNs.Some? && ElapsedMs(startedNs.value, now) >= horizonMs {
        return AmbiguousDisconnect;
      }
      if ElapsedMs(enteredNs, now) >= graceMs {
        return TimedOut;
      }
      var remaining := graceMs - ElapsedMs(enteredNs, now);
      if startedNs.Some? {
        var horizon := horizonMs - ElapsedMs(startedNs.value, now);
        return Wait(if horizon < remaining then horizon else remaining);
      }
      return Wait(remaining);
    }

    /** The grace is over, or the horizon of the first suspect frame. */
    predicate TooLate(graceMs: nat)
      reads this
    {
      ElapsedMs(enteredNs, clock) >= graceMs || (startedNs.Some? && ElapsedMs(startedNs.value, clock) >= horizonMs)
    }

    /** Two budget checks, with a wait of any length between them. */
    method Admit(graceMs: nat) returns (admitted: bool)
      requires Valid()
      modifies this`clock
      ensures Valid() && old(clock) <= clock
      ensures admitted && startedNs.Some? ==> ElapsedMs(startedNs.value, clock) < horizonMs
      ensures admitted ==> ElapsedMs(enteredNs, clock) < graceMs
      ensures !admitted ==> TooLate(graceMs)
    {
      hide Honest, FirstSuspect;
      var gate := ResendBudget(graceMs);
      if !gate.Wait? {
        return false;
      }
      var admission := ResendBudget(graceMs);
      return admission.Wait?;
    }

    /** One frame goes out on the next connection, admitted at `admittedAt`, and its outcome is
        taken in: a clean rejection clears the doubt if the frame was not itself a retry. */
    method Attempt(admittedAt: nat) returns (outcome: Outcome)
      requires Valid() && admittedAt <= clock
      requires startedNs.Some? ==> ElapsedMs(startedNs.value, admittedAt) < horizonMs
      modifies this, wire
      ensures Valid() && outcome == wire.answers(|old(wire.frames)|)
      ensures |wire.frames| == |old(wire.frames)| + 1 && old(wire.frames) <= wire.frames
      ensures wire.frames[|old(wire.frames)|].envelope == old(EnvelopeFor(wire.writers(|wire.frames|)))
    {
      ghost var before := wire.frames;
      var envelope := EnvelopeFor(wire.writers(|wire.frames|));
      var now := NoteDispatched(envelope);
      outcome := wire.Exchange(envelope, admittedAt, now);
      assert wire.frames[..|before|] == before;
      if opId != NO_OP_ID {
        HistoryAppend(before, wire.frames[|before|], opId, horizonMs);
      }
      if outcome.NotLeaderClean? {
        ProvenPredispatch(envelope);
      }
    }

    /** The resend loop, seen after any number of `passes`: it is over, or still `Driving`.
        Whatever the connections, the clock and the servers do, every frame it ever put on the
        wire is honest about the suspect ones before it, and another frame follows only an outcome
        that is neither the answer nor a signal. */
    method DriveAttempts(graceMs: nat, passes: nat, gates: nat -> Gate) returns (verdict: Verdict, ghost done: nat)
      requires Valid()
      modifies this, wire
      ensures done <= passes && |wire.frames| == |old(wire.frames)| + Opens(gates, done)
      ensures verdict.Driving? ==> done == passes
      ensures verdict.Failure? ==>
                || TooLate(graceMs)
                || (done < passes && gates(done).Refused?)
                || (|old(wire.frames)| < |wire.frames| && wire.answers(|wire.frames| - 1).Interrupted?)
      ensures Valid() && old(wire.frames) <= wire.frames && wire.Truthful()
      ensures opId != NO_OP_ID ==> History(wire.frames, opId, horizonMs)
      ensures forall k :: |old(wire.frames)| <= k < |wire.frames| - 1 ==> Resent(wire.answers(k))
      ensures verdict.Reply? <==>
                |old(wire.frames)| < |wire.frames| && wire.answers(|wire.frames| - 1).Answered?
      ensures verdict.Driving? ==>
                forall k :: |old(wire.frames)| <= k < |wire.frames| ==> Resent(wire.answers(k))
    {
      hide Honest, FirstSuspect, History, Timely, InDoubt;
      done := 0;
      for pass := 0 to passes
        invariant done == pass && |wire.frames| == |old(wire.frames)| + Opens(gates, done)
        invariant Valid() && old(wire.frames) <= wire.frames
        invariant forall k :: |old(wire.frames)| <= k < |wire.frames| ==> Resent(wire.answers(k))
      {
        var admitted := Admit(graceMs);
        if !admitted {
          return Failure, done;
        }
        if gates(pass).Refused? {
          return Failure, done;
        }
        done := done + 1;
        // A connection replaced meanwhile costs nothing but another pass.
        if gates(pass).Open? {
          var outcome := Attempt(clock);
          if outcome.Answered? {
            return Reply, done;
          }
          if outcome.Interrupted? {
            return Failure, done;
          }
        }
      }
      return Driving, done;
    }
  }

  predicate Resent(outcome: Outcome) {
    !outcome.Answered? && !outcome.Interrupted?
  }
}
