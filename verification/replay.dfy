/** Rebuilding a session on a replacement connection (kernel/client/reconnect.rs).

    The candidate server is part of the model: every request may succeed, be refused or
    lose its answer, and its fid and lock tables change as the protocol says. */
module ReplaySpec {
  import opened Wrappers
  import opened LockRanges
  import opened LockTableSpec
  import opened FidRegistrySpec

  /** A fid as the server holds it. */
  datatype ServerFid = ServerFid(inode: nat, identity: Option<Identity>, open: Option<nat>)

  /** One byte held through one fid; the flavour of the lock is not on the wire. */
  datatype Grip = Grip(fid: nat, byte: u64, lockType: nat, procId: nat)

  /** `order` is the sequence of fids rebound, oldest first. */
  datatype Server = Server(fids: map<nat, ServerFid>, held: iset<Grip>, order: seq<nat>)

  const FRESH: Server := Server(map[], iset{}, [])

  // ------------------------------------------------------------------ what the records mean

  function Recreated(reg: Registry, fid: nat): ServerFid
    requires fid < |reg.records| && reg.records[fid].Live?
  {
    var record := reg.records[fid].record;
    ServerFid(record.inode, IdentityOf(reg, fid), if record.open then Some(record.openFlags) else None)
  }

  predicate IsLive(reg: Registry, fid: nat) {
    fid < |reg.records| && reg.records[fid].Live?
  }

  /** The fid table a server holding these fids would have. */
  function Rebuilt(reg: Registry, fids: set<nat>): map<nat, ServerFid> {
    map f | f in fids && IsLive(reg, f) :: Recreated(reg, f)
  }

  function LiveFids(reg: Registry): set<nat> {
    set f | 0 <= f < |reg.records| && IsLive(reg, f)
  }

  predicate IsRoot(reg: Registry, fid: nat) {
    IsLive(reg, fid) && reg.records[fid].record.inode == ROOT_INODE
  }

  predicate HasLock(t: Table, fid: nat) {
    exists i :: 0 <= i < |t| && Owned(t[i], fid)
  }

  ghost predicate Gripped(r: LockRecord, g: Grip) {
    g.fid == r.fid && r.range.Has(g.byte) && g.lockType == r.how.lockType && g.procId == r.how.procId
  }

  ghost predicate RecordedBelow(t: Table, n: nat, g: Grip)
    requires n <= |t|
  {
    exists i :: 0 <= i < n && t[i].Some? && Gripped(t[i].value, g)
  }

  /** The bytes recorded in the first `n` slots. */
  ghost function LockImage(t: Table, n: nat): iset<Grip>
    requires n <= |t|
  {
    iset g: Grip | RecordedBelow(t, n, g)
  }

  /** What an unlock and a lock do to the bytes a server holds for a fid. */
  ghost function Unlocked(held: iset<Grip>, r: LockRecord): iset<Grip> {
    iset g: Grip | g in held && !(g.fid == r.fid && r.range.Has(g.byte))
  }

  ghost function Locked(held: iset<Grip>, r: LockRecord): iset<Grip> {
    Unlocked(held, r) + iset g: Grip | Gripped(r, g)
  }

  /** Locking a recorded range on top of the earlier ones adds exactly its bytes. */
  lemma LockExtendsImage(t: Table, i: nat)
    requires Disjoint(t) && i < |t| && t[i].Some?
    ensures Locked(LockImage(t, i), t[i].value) == LockImage(t, i + 1)
  {
    RecordsDoNotOverlap(t, i);
  }

  /** Unlocking the last recorded range of a prefix undoes that, and nothing else. */
  lemma UnlockShrinksImage(t: Table, i: nat)
    requires Disjoint(t) && i < |t| && t[i].Some?
    ensures Unlocked(LockImage(t, i + 1), t[i].value) == LockImage(t, i)
  {
    RecordsDoNotOverlap(t, i);
  }

  lemma RecordsDoNotOverlap(t: Table, i: nat)
    requires Disjoint(t) && i < |t| && t[i].Some?
    ensures forall g: Grip :: g in LockImage(t, i) ==> !(g.fid == t[i].value.fid && t[i].value.range.Has(g.byte))
  {
    forall g: Grip | g in LockImage(t, i)
      ensures !(g.fid == t[i].value.fid && t[i].value.range.Has(g.byte))
    {
      var j :| 0 <= j < i && t[j].Some? && Gripped(t[j].value, g);
      if g.fid == t[i].value.fid {
        ApartIsDisjoint(t[j].value.range, t[i].value.range);
      }
    }
  }

  /** Holes add nothing. */
  lemma HolesHoldNothing(t: Table, m: nat, n: nat)
    requires m <= n <= |t| && forall i :: m <= i < n ==> t[i].None?
    ensures LockImage(t, n) == LockImage(t, m)
  {
  }

  // ------------------------------------------------------------------ committing what is gone

  datatype Gone = Gone(fid: nat, open: bool)

  function PruneAll(reg: Registry, gone: seq<Gone>): Registry {
    if gone == [] then reg
    else Prune(PruneAll(reg, gone[..|gone| - 1]), gone[|gone| - 1].fid, gone[|gone| - 1].open)
  }

  /** The gone fids are live, agree with their records, and hold no lock. */
  ghost predicate Expendable(reg: Registry, gone: seq<Gone>) {
    forall k :: 0 <= k < |gone| ==>
      && IsLive(reg, gone[k].fid) && reg.records[gone[k].fid].record.open == gone[k].open
      && !HasLock(reg.locks, gone[k].fid)
  }

  function GoneFids(gone: seq<Gone>): set<nat> {
    set k | 0 <= k < |gone| :: gone[k].fid
  }

  lemma GoneAppend(gone: seq<Gone>, g: Gone)
    ensures GoneFids(gone + [g]) == GoneFids(gone) + {g.fid}
  {
    var longer := gone + [g];
    assert longer[|gone|] == g;
    forall f | f in GoneFids(gone)
      ensures f in GoneFids(longer)
    {
      var k :| 0 <= k < |gone| && gone[k].fid == f;
      assert longer[k].fid == f;
    }
  }

  /** The live fids one pass has dealt with: roots first, then the others, by number. */
  function Visited(reg: Registry, roots: bool, from: nat): set<nat> {
    set f | 0 <= f < |reg.records| && IsLive(reg, f)
            && (if IsRoot(reg, f) then !roots || f < from else !roots && f < from)
  }

  lemma VisitNext(reg: Registry, roots: bool, from: nat, f: nat)
    requires from <= f && IsLive(reg, f) && IsRoot(reg, f) == roots
    requires forall g :: from <= g < f ==> !(IsLive(reg, g) && IsRoot(reg, g) == roots)
    ensures f !in Visited(reg, roots, from) && Visited(reg, roots, f + 1) == Visited(reg, roots, from) + {f}
  {
  }

  lemma VisitRest(reg: Registry, roots: bool, from: nat)
    requires forall g :: from <= g < |reg.records| ==> !(IsLive(reg, g) && IsRoot(reg, g) == roots)
    ensures Visited(reg, roots, from) == if roots then Visited(reg, false, 0) else LiveFids(reg)
  {
  }

  /** Every live fid visited is on the server or gone, and not both. */
  ghost predicate Accounted(reg: Registry, fids: map<nat, ServerFid>, gone: seq<Gone>, visited: set<nat>) {
    && Expendable(reg, gone) && GoneFids(gone) <= visited
    && fids == Rebuilt(reg, visited - GoneFids(gone))
  }

  lemma AccountRestored(reg: Registry, fids: map<nat, ServerFid>, gone: seq<Gone>, visited: set<nat>, f: nat)
    requires Accounted(reg, fids, gone, visited) && f !in visited && IsLive(reg, f)
    ensures Accounted(reg, fids[f := Recreated(reg, f)], gone, visited + {f})
  {
  }

  lemma NotRebuiltYet(reg: Registry, fids: map<nat, ServerFid>, gone: seq<Gone>, visited: set<nat>, f: nat)
    requires Accounted(reg, fids, gone, visited) && f !in visited
    ensures f !in fids
  {
  }

  lemma AccountGone(reg: Registry, fids: map<nat, ServerFid>, gone: seq<Gone>, visited: set<nat>, g: Gone)
    requires Accounted(reg, fids, gone, visited) && g.fid !in visited && IsLive(reg, g.fid)
    requires reg.records[g.fid].record.open == g.open && !HasLock(reg.locks, g.fid)
    ensures Accounted(reg, fids, gone + [g], visited + {g.fid})
  {
    GoneAppend(gone, g);
    assert visited + {g.fid} - GoneFids(gone + [g]) == visited - GoneFids(gone);
  }

  /** No root is rebound after a fid that resolves against one. */
  ghost predicate RootsFirst(reg: Registry, order: seq<nat>) {
    forall i, j :: 0 <= i < j < |order| && IsRoot(reg, order[j]) ==> IsRoot(reg, order[i])
  }

  /** What is left of a slot after the commit. */
  function Remains(slot: FidSlot): FidSlot {
    if slot.Live? then (if slot.record.open then Stale else FidSlot.Vacant) else slot
  }

  /** After the commit the live records are the others, under the same identities, and no
      lock record was lost. */
  lemma {:induction false} PruneAllKeeps(reg: Registry, gone: seq<Gone>, held: multiset<nat>)
    requires Counted(reg, held) && Expendable(reg, gone)
    ensures Counted(PruneAll(reg, gone), held) && Pruned(reg, PruneAll(reg, gone), GoneFids(gone))
  {
    if gone != [] {
      var init := gone[..|gone| - 1];
      var last := gone[|gone| - 1];
      PruneAllKeeps(reg, init, held);
      assert init + [last] == gone;
      GoneAppend(init, last);
      PruneCounts(PruneAll(reg, init), held, last.fid, last.open);
      PruneOne(reg, PruneAll(reg, init), GoneFids(init), last, held);
    }
  }

  /** `after` is `reg` without the fids in `gone`. */
  ghost predicate Pruned(reg: Registry, after: Registry, gone: set<nat>) {
    && after.locks == reg.locks && |after.records| == |reg.records|
    && (forall f :: 0 <= f < |reg.records| ==>
          after.records[f] == if f in gone then Remains(reg.records[f]) else reg.records[f])
    && (forall f :: 0 <= f < |reg.records| && IsLive(after, f) ==> IdentityOf(after, f) == IdentityOf(reg, f))
  }

  lemma PruneOne(reg: Registry, before: Registry, gone: set<nat>, last: Gone, held: multiset<nat>)
    requires Counted(before, held) && Pruned(reg, before, gone)
    requires IsLive(reg, last.fid) && reg.records[last.fid].record.open == last.open && !HasLock(reg.locks, last.fid)
    ensures Pruned(reg, Prune(before, last.fid, last.open), gone + {last.fid})
  {
    hide Counted;
    PruneKeepsIdentities(before, held, last.fid, last.open);
    assert Forget(before.locks, last.fid) == before.locks;
  }

  /** With exact counts every live record finds its identity, so replay never ends for want of one. */
  lemma AllInterned(reg: Registry, held: multiset<nat>)
    requires Counted(reg, held)
    ensures forall f: nat :: IsLive(reg, f) ==> IdentityOf(reg, f).Some?
  {
    forall f: nat | IsLive(reg, f)
      ensures IdentityOf(reg, f).Some?
    {
      LiveIsInterned(reg, held, f);
    }
  }

  lemma PruneKeepsIdentities(reg: Registry, held: multiset<nat>, fid: nat, open: bool)
    requires Counted(reg, held) && fid < |reg.records|
    ensures forall f :: 0 <= f < |reg.records| && IsLive(Prune(reg, fid, open), f) ==>
              IdentityOf(Prune(reg, fid, open), f) == IdentityOf(reg, f)
  {
    var after := Prune(reg, fid, open);
    PruneCounts(reg, held, fid, open);
    forall f | 0 <= f < |reg.records| && IsLive(after, f)
      ensures IdentityOf(after, f) == IdentityOf(reg, f)
    {
      LiveIsInterned(after, held, f);
      LiveIsInterned(reg, held, f);
    }
  }

  /** So what a server rebuilt for the fids that survived is the image of the new records. */
  lemma CommitMatchesServer(reg: Registry, fids: map<nat, ServerFid>, gone: seq<Gone>, held: multiset<nat>)
    requires Counted(reg, held) && Accounted(reg, fids, gone, LiveFids(reg))
    ensures var after := PruneAll(reg, gone);
            fids == Rebuilt(after, LiveFids(after))
  {
    PruneAllKeeps(reg, gone, held);
    var after := PruneAll(reg, gone);
    assert LiveFids(after) == LiveFids(reg) - GoneFids(gone);
  }
}

/** The reconnect task's replay, request by request. */
module Replay {
  import opened Wrappers
  import opened LockTableSpec
  import opened FidRegistrySpec
  import opened ReplaySpec

  /** One round trip: served, refused as a vanished object, or failed some other way. */
  datatype Answer = Served | Missing | Failed

  datatype LockAnswer = Acquired | Conflict | Refused | Broken

  /** Why a session ended: a fid holding a lock is gone, a recorded lock was refused, a record had
      no identity, or somebody terminated it. */
  datatype Loss = LockedFidGone | LockRefused | IdentityLost | Terminated

  /** Replayed; the session ended; try another candidate; or still waiting out a lock conflict. */
  datatype Outcome = Replayed | Ended(why: Loss) | Retry | Waiting

  class Session {
    var reg: Registry
    var dead: bool
    var live: bool
    ghost var server: Server
    /** What the candidate answered: fids it no longer resolves, a recorded lock it refused, how many
        it found in conflict, and whether an exchange with it failed. */
    ghost var vanished: set<nat>
    ghost var refused: bool
    ghost var conflicted: nat
    ghost var broken: bool
    /** The candidate was asked to start over. */
    ghost var discarded: bool

    /** Nothing has been asked of the candidate yet. */
    ghost predicate Untried()
      reads this
    {
      server == FRESH && vanished == {} && !refused && conflicted == 0 && !broken && !discarded
    }

    // ---------------------------------------------------------------- round trips

    /** Note what became of a request about a fid. */
    ghost method Learn(fid: nat, answer: Answer)
      modifies this`vanished, this`broken
      ensures vanished == old(vanished) + if answer.Missing? then {fid} else {}
      ensures broken == (old(broken) || answer.Failed?)
    {
      if answer.Missing? {
        vanished := vanished + {fid};
      }
      broken := broken || answer.Failed?;
    }

    method Rebind(fid: nat, inode: nat, identity: Identity) returns (answer: Answer)
      modifies this`server, this`vanished, this`broken
      ensures vanished == old(vanished) + if answer.Missing? then {fid} else {}
      ensures broken == (old(broken) || answer.Failed?)
      ensures server.order == old(server.order) + [fid]
      ensures answer.Served? ==> server.fids == old(server.fids)[fid := ServerFid(inode, Some(identity), None)]
      ensures answer.Missing? ==> server.fids == old(server.fids)
      ensures !answer.Failed? ==> server.held == old(server.held)
    {
      ghost var lost: map<nat, ServerFid> := *;
      answer := *;
      match answer {
        case Served => server := server.(fids := server.fids[fid := ServerFid(inode, Some(identity), None)]);
        case Missing =>
        case Failed => server := server.(fids := lost);
      }
      server := server.(order := server.order + [fid]);
      Learn(fid, answer);
    }

    /** Tlopenat with newfid equal to fid: reopen in place. */
    method Reopen(fid: nat, flags: nat) returns (answer: Answer)
      requires fid in server.fids
      modifies this`server, this`vanished, this`broken
      ensures vanished == old(vanished) + if answer.Missing? then {fid} else {}
      ensures broken == (old(broken) || answer.Failed?)
      ensures server.order == old(server.order)
      ensures answer.Served? ==> server.fids == old(server.fids)[fid := old(server.fids)[fid].(open := Some(flags))]
      ensures answer.Missing? ==> server.fids == old(server.fids)
      ensures !answer.Failed? ==> server.held == old(server.held)
    {
      ghost var lost: map<nat, ServerFid> := *;
      answer := *;
      match answer {
        case Served => server := server.(fids := server.fids[fid := server.fids[fid].(open := Some(flags))]);
        case Missing =>
        case Failed => server := server.(fids := lost);
      }
      Learn(fid, answer);
    }

    method Clunk(fid: nat) returns (ok: bool)
      modifies this`server, this`broken
      ensures broken == (old(broken) || !ok)
      ensures server.order == old(server.order)
      ensures ok ==> server.fids == old(server.fids) - {fid} && server.held == old(server.held)
    {
      ghost var lost: map<nat, ServerFid> := *;
      ok := *;
      server := server.(fids := if ok then server.fids - {fid} else lost);
      broken := broken || !ok;
    }

    /** A non-blocking Tlock. Only a broken exchange leaves its effect unknown. */
    method Lock(r: LockRecord) returns (answer: LockAnswer)
      modifies this`server, this`refused, this`conflicted, this`broken
      ensures conflicted == old(conflicted) + if answer.Conflict? then 1 else 0
      ensures refused == (old(refused) || answer.Refused?) && broken == (old(broken) || answer.Broken?)
      ensures server.fids == old(server.fids) && server.order == old(server.order)
      ensures answer.Acquired? ==> server.held == Locked(old(server.held), r)
      ensures answer.Conflict? || answer.Refused? ==> server.held == old(server.held)
    {
      ghost var lost: iset<Grip> := *;
      answer := *;
      match answer {
        case Acquired => server := server.(held := Locked(server.held, r));
        case Broken => server := server.(held := lost);
        case _ =>
      }
      refused, broken := refused || answer.Refused?, broken || answer.Broken?;
      conflicted := conflicted + if answer.Conflict? then 1 else 0;
    }

    /** An unlock. Without an acknowledgement anything may be held afterwards. */
    method Unlock(r: LockRecord) returns (acknowledged: bool)
      modifies this`server, this`broken
      ensures broken == (old(broken) || !acknowledged)
      ensures server.fids == old(server.fids) && server.order == old(server.order)
      ensures acknowledged ==> server.held == Unlocked(old(server.held), r)
    {
      ghost var lost: iset<Grip> := *;
      acknowledged := *;
      server := server.(held := if acknowledged then Unlocked(server.held, r) else lost);
      broken := broken || !acknowledged;
    }

    // ---------------------------------------------------------------- fids

    method NextRecord(from: nat, roots: bool) returns (index: Option<nat>)
      ensures index.Some? ==> from <= index.value && IsLive(reg, index.value) && IsRoot(reg, index.value) == roots
      ensures forall f :: from <= f < (if index.Some? then index.value else |reg.records|) ==>
                !(IsLive(reg, f) && IsRoot(reg, f) == roots)
    {
      var i := from;
      while i < |reg.records|
        invariant from <= i
        invariant forall f :: from <= f < i ==> !(IsLive(reg, f) && IsRoot(reg, f) == roots)
      {
        if reg.records[i].Live? && (reg.records[i].record.inode == ROOT_INODE) == roots {
          return Some(i);
        }
        i := i + 1;
      }
      return None;
    }

    /** One fid of the records, put on the candidate as it was: bound, and open if it was. */
    method ReplayFid(fid: nat, record: FidRecord, identity: Identity) returns (answer: Answer)
      requires fid !in server.fids
      modifies this`server, this`vanished, this`broken
      ensures answer.Failed? ==> broken
      ensures !answer.Failed? ==> broken == old(broken)
      ensures old(vanished) <= vanished <= old(vanished) + {fid}
      ensures answer.Missing? ==> fid in vanished
      ensures answer.Served? ==> vanished == old(vanished)
      ensures server.order == old(server.order) + [fid]
      ensures answer.Served? ==>
                server.fids == old(server.fids)[fid := ServerFid(record.inode, Some(identity),
                                                                 if record.open then Some(record.openFlags) else None)]
      ensures answer.Missing? ==> server.fids == old(server.fids)
      ensures !answer.Failed? ==> server.held == old(server.held)
    {
      answer := Rebind(fid, record.inode, identity);
      if !answer.Served? || !record.open {
        return;
      }
      answer := Reopen(fid, record.openFlags);
      if answer.Missing? {
        // Bound but not open: not a state the records describe.
        var ok := Clunk(fid);
        if !ok {
          return Failed;
        }
      }
    }

    method FidHasLock(fid: nat) returns (locked: bool)
      ensures locked <==> HasLock(reg.locks, fid)
    {
      for i := 0 to |reg.locks|
        invariant forall j :: 0 <= j < i ==> !Owned(reg.locks[j], fid)
      {
        if Owned(reg.locks[i], fid) {
          return true;
        }
      }
      return false;
    }

    // ---------------------------------------------------------------- locks

    method NextLock(from: nat) returns (index: Option<nat>)
      ensures index.Some? ==> from <= index.value < |reg.locks| && reg.locks[index.value].Some?
      ensures forall i :: from <= i < (if index.Some? then index.value else |reg.locks|) ==> reg.locks[i].None?
    {
      var i := from;
      while i < |reg.locks|
        invariant from <= i
        invariant forall j :: from <= j < i && j < |reg.locks| ==> reg.locks[j].None?
      {
        if reg.locks[i].Some? {
          return Some(i);
        }
        i := i + 1;
      }
      return None;
    }

    method PreviousLock(before: nat) returns (index: Option<nat>)
      requires before <= |reg.locks|
      ensures index.Some? ==> index.value < before && reg.locks[index.value].Some?
      ensures forall i :: (if index.Some? then index.value + 1 else 0) <= i < before ==> reg.locks[i].None?
    {
      var i: nat := before;
      while i > 0
        invariant i <= before
        invariant forall j :: i <= j < before ==> reg.locks[j].None?
      {
        i := i - 1;
        if reg.locks[i].Some? {
          return Some(i);
        }
      }
      return None;
    }

    /** Release the recorded prefix one attempt installed, last first. */
    method Rollback(acquired: nat) returns (acknowledged: bool)
      requires acquired <= |reg.locks| && Disjoint(reg.locks)
      modifies this`server, this`broken
      ensures broken == (old(broken) || !acknowledged)
      ensures server.fids == old(server.fids) && server.order == old(server.order)
      ensures acknowledged && old(server.held) == LockImage(reg.locks, acquired) ==> server.held == iset{}
    {
      acknowledged := true;
      ghost var known := server.held == LockImage(reg.locks, acquired);
      var before: nat := acquired;
      var index: Option<nat> := PreviousLock(before);
      while index.Some?
        invariant before <= |reg.locks|
        invariant index.Some? ==> index.value < before && reg.locks[index.value].Some?
        invariant forall i :: (if index.Some? then index.value + 1 else 0) <= i < before ==> reg.locks[i].None?
        invariant server.fids == old(server.fids) && server.order == old(server.order)
        invariant acknowledged && known ==> server.held == LockImage(reg.locks, before)
        invariant broken == (old(broken) || !acknowledged)
        decreases before
      {
        HolesHoldNothing(reg.locks, index.value + 1, before);
        UnlockShrinksImage(reg.locks, index.value);
        before := index.value;
        var released := Unlock(reg.locks[before].value);
        if !released {
          acknowledged := false;
        }
        index := PreviousLock(before);
      }
      HolesHoldNothing(reg.locks, 0, before);
    }

    /** One attempt at the whole set. */
    method TryLocks() returns (answer: LockAnswer, clean: bool)
      requires Disjoint(reg.locks) && server.held == iset{}
      modifies this`server, this`refused, this`conflicted, this`broken
      ensures conflicted == old(conflicted) + if answer.Conflict? then 1 else 0
      ensures refused == (old(refused) || answer.Refused?)
      ensures answer.Broken? || !clean ==> broken
      ensures !answer.Broken? && clean ==> broken == old(broken)
      ensures answer.Acquired? ==> clean
      ensures server.fids == old(server.fids) && server.order == old(server.order)
      ensures answer.Acquired? ==> server.held == LockImage(reg.locks, |reg.locks|)
      ensures answer.Conflict? && clean ==> server.held == iset{}
    {
      var from: nat, acquired: nat := 0, 0;
      var index: Option<nat> := NextLock(from);
      while index.Some?
        invariant acquired <= from <= |reg.locks|
        invariant index.Some? ==> from <= index.value < |reg.locks| && reg.locks[index.value].Some?
        invariant forall i :: from <= i < (if index.Some? then index.value else |reg.locks|) ==> reg.locks[i].None?
        invariant forall i :: acquired <= i < from ==> reg.locks[i].None?
        invariant server.fids == old(server.fids) && server.order == old(server.order)
        invariant server.held == LockImage(reg.locks, acquired)
        invariant refused == old(refused) && broken == old(broken) && conflicted == old(conflicted)
        decreases |reg.locks| - from
      {
        from := index.value + 1;
        answer := Lock(reg.locks[index.value].value);
        match answer {
          case Acquired =>
            HolesHoldNothing(reg.locks, acquired, index.value);
            LockExtendsImage(reg.locks, index.value);
            acquired := from;
          case _ =>
            clean := Rollback(acquired);
            return;
        }
        index := NextLock(from);
      }
      HolesHoldNothing(reg.locks, acquired, |reg.locks|);
      return Acquired, true;
    }

    /** The retry loop, seen after any number of conflicts: it has ended, or it is `Waiting` with
        nothing held and has met all of them. Only termination from outside or a refused lock ends
        the session. */
    method ReplayLocks(conflicts: nat) returns (outcome: Outcome)
      requires Disjoint(reg.locks) && server.held == iset{} && !dead && !broken && !refused
      modifies this`server, this`dead, this`refused, this`conflicted, this`broken
      ensures outcome.Waiting? ==> conflicted == old(conflicted) + conflicts
      ensures outcome == Ended(Terminated) ==> conflicted > old(conflicted)
      ensures outcome.Replayed? || outcome.Waiting? ==> !broken && !refused
      ensures outcome.Retry? ==> broken && !refused
      ensures outcome == Ended(LockRefused) <==> refused
      ensures server.fids == old(server.fids) && server.order == old(server.order)
      ensures outcome.Replayed? ==> server.held == LockImage(reg.locks, |reg.locks|)
      ensures outcome.Waiting? ==> server.held == iset{}
      ensures outcome.Ended? <==> dead
      ensures outcome.Ended? ==> outcome.why.LockRefused? || outcome.why.Terminated?
    {
      for seen := 0 to conflicts
        invariant server.fids == old(server.fids) && server.order == old(server.order) && !dead
        invariant server.held == iset{} && !broken && !refused && conflicted == old(conflicted) + seen
      {
        var answer, clean := TryLocks();
        match answer {
          case Acquired => return Replayed;
          case Refused => dead := true; return Ended(LockRefused);
          case Broken => return Retry;
          case Conflict =>
            if !clean {
              return Retry;
            }
            var terminated: bool := *;
            if terminated {
              dead := true;
              return Ended(Terminated);
            }
        }
      }
      return Waiting;
    }

    // ---------------------------------------------------------------- the session

    /** One pass over the recorded fids: the attach roots, or everything below them. */
    method ReplayPass(roots: bool, before: seq<Gone>) returns (outcome: Outcome, gone: seq<Gone>)
      requires Accounted(reg, server.fids, before, Visited(reg, roots, 0)) && !dead
      requires !broken && (forall g :: g in before ==> g.fid in vanished)
      modifies this`server, this`dead, this`vanished, this`broken
      ensures outcome.Retry? <==> broken
      ensures forall g :: g in gone ==> g.fid in vanished
      ensures forall f: nat :: IsLive(reg, f) && HasLock(reg.locks, f) && f in vanished - old(vanished) ==>
                !outcome.Replayed?
      ensures outcome.Replayed? ==>
                && !dead && server.held == old(server.held)
                && Accounted(reg, server.fids, gone, if roots then Visited(reg, false, 0) else LiveFids(reg))
                && old(server.order) <= server.order
                && forall k :: |old(server.order)| <= k < |server.order| ==> IsRoot(reg, server.order[k]) == roots
      ensures (outcome.Ended? <==> dead) && !outcome.Waiting?
      ensures outcome == Ended(IdentityLost) ==> exists f: nat :: IsLive(reg, f) && IdentityOf(reg, f).None?
      ensures outcome == Ended(LockedFidGone) ==>
                exists f: nat :: IsLive(reg, f) && HasLock(reg.locks, f) && f in vanished
      ensures outcome.Ended? ==> outcome.why.IdentityLost? || outcome.why.LockedFidGone?
    {
      hide Accounted;
      gone := before;
      var from: nat := 0;
      var index: Option<nat> := NextRecord(from, roots);
      while index.Some?
        invariant !dead && server.held == old(server.held) && !broken
        invariant forall g :: g in gone ==> g.fid in vanished
        invariant forall f :: f in vanished - old(vanished) ==> !HasLock(reg.locks, f)
        invariant index.Some? ==> from <= index.value && IsLive(reg, index.value) && IsRoot(reg, index.value) == roots
        invariant forall f :: from <= f < (if index.Some? then index.value else |reg.records|) ==>
                    !(IsLive(reg, f) && IsRoot(reg, f) == roots)
        invariant Accounted(reg, server.fids, gone, Visited(reg, roots, from))
        invariant old(server.order) <= server.order
        invariant forall k :: |old(server.order)| <= k < |server.order| ==> IsRoot(reg, server.order[k]) == roots
        decreases |reg.records| - from
      {
        var fid: nat := index.value;
        var record := reg.records[fid].record;
        var identity := IdentityOf(reg, fid);
        if identity.None? {
          dead := true;
          assert IsLive(reg, fid) && IdentityOf(reg, fid).None?;
          return Ended(IdentityLost), gone;
        }
        VisitNext(reg, roots, from, fid);
        ghost var fids := server.fids;
        NotRebuiltYet(reg, fids, gone, Visited(reg, roots, from), fid);
        var answer := ReplayFid(fid, record, identity.value);
        if answer.Failed? {
          return Retry, gone;
        }
        if answer.Served? {
          AccountRestored(reg, fids, gone, Visited(reg, roots, from), fid);
        } else {
          var locked := FidHasLock(fid);
          if locked {
            dead := true;
            assert IsLive(reg, fid) && HasLock(reg.locks, fid) && fid in vanished;
            return Ended(LockedFidGone), gone;
          }
          AccountGone(reg, fids, gone, Visited(reg, roots, from), Gone(fid, record.open));
          gone := gone + [Gone(fid, record.open)];
        }
        from := fid + 1;
        index := NextRecord(from, roots);
      }
      VisitRest(reg, roots, from);
      return Replayed, gone;
    }

    /** Commit the fids that no longer resolve. */
    method CommitGone(gone: seq<Gone>)
      modifies this`reg
      ensures reg == PruneAll(old(reg), gone)
    {
      for k := 0 to |gone|
        invariant reg == PruneAll(old(reg), gone[..k])
      {
        assert gone[..k + 1][..k] == gone[..k];
        reg := Prune(reg, gone[k].fid, gone[k].open);
      }
      assert gone[..|gone|] == gone;
    }

    /** A whole replay. If it succeeds, `server.fids` is the image of the live records and
        `server.held` that of the lock records, and what left `reg` is `gone`: fids the server no
        longer resolves and through which nothing was locked. */
    method ReplaySession(conflicts: nat, ghost held: multiset<nat>) returns (outcome: Outcome, gone: seq<Gone>)
      requires Untried() && !dead && Counted(reg, held) && Disjoint(reg.locks)
      modifies this`reg, this`dead, this`server, this`vanished, this`refused, this`conflicted, this`broken
      ensures outcome.Waiting? ==> conflicted == conflicts
      ensures outcome.Retry? ==> broken
      ensures outcome.Replayed? || outcome.Waiting? ==> !broken && !refused
      ensures outcome == Ended(LockRefused) <==> refused
      ensures outcome == Ended(LockedFidGone) ==>
                exists f: nat :: IsLive(old(reg), f) && HasLock(reg.locks, f) && f in vanished
      ensures forall g :: g in gone ==> g.fid in vanished
      ensures outcome.Replayed? ==>
                && server.fids == Rebuilt(reg, LiveFids(reg))
                && server.held == LockImage(reg.locks, |reg.locks|)
                && RootsFirst(old(reg), server.order) && !dead
      ensures outcome.Waiting? ==> server.held == iset{}
      ensures outcome.Ended? <==> dead
      ensures outcome != Ended(IdentityLost)
      ensures Expendable(old(reg), gone) && reg == PruneAll(old(reg), gone)
      ensures Counted(reg, held) && reg.locks == old(reg.locks)
    {
      AllInterned(reg, held);
      outcome, gone := ReplayPass(true, []);
      if !outcome.Replayed? {
        return outcome, [];
      }
      outcome, gone := ReplayPass(false, gone);
      if !outcome.Replayed? {
        return outcome, [];
      }
      PruneAllKeeps(reg, gone, held);
      CommitMatchesServer(reg, server.fids, gone, held);
      CommitGone(gone);
      outcome := ReplayLocks(conflicts);
    }

    /** A version exchange empties the server; unanswered, it may be in any state. */
    method DiscardCandidate() returns (acknowledged: bool)
      modifies this`server, this`discarded
      ensures discarded && (acknowledged ==> server == FRESH)
    {
      ghost var lost: Server := *;
      discarded := true;
      acknowledged := *;
      server := if acknowledged then FRESH else lost;
    }

    /** The candidate goes live unless its socket cannot be `prepared`, the session ended
        meanwhile, or an interrupted caller still owns a flush reply. */
    method InstallConnection(prepared: bool, flushReplyPending: bool) returns (installed: bool)
      modifies this`live
      ensures installed <==> prepared && !dead && !flushReplyPending
      ensures live == (old(live) || installed)
    {
      if !prepared || dead || flushReplyPending {
        return false;
      }
      live := true;
      return true;
    }

    /** Replay a candidate and go live on it, or reset it before closing. */
    method ReconnectOnce(conflicts: nat, prepared: bool, flushReplyPending: bool, ghost held: multiset<nat>)
      returns (outcome: Outcome, reset: bool)
      requires Untried() && !dead && !live && Counted(reg, held) && Disjoint(reg.locks)
      modifies this
      ensures live <==> outcome.Replayed?
      ensures live ==> prepared && !flushReplyPending
      ensures live ==> server.fids == Rebuilt(reg, LiveFids(reg)) && server.held == LockImage(reg.locks, |reg.locks|)
      ensures (discarded <==> outcome.Ended? || outcome.Retry?) && (reset ==> server == FRESH && discarded)
      ensures outcome.Waiting? ==> !reset && server.held == iset{} && conflicted == conflicts
      ensures outcome.Ended? <==> dead
      ensures outcome.Retry? ==> broken || !prepared || flushReplyPending
      ensures Counted(reg, held) && reg.locks == old(reg.locks)
    {
      var gone;
      outcome, gone := ReplaySession(conflicts, held);
      reset := false;
      if outcome.Replayed? {
        var installed := InstallConnection(prepared, flushReplyPending);
        if !installed {
          outcome := Retry;
        }
      }
      if outcome.Ended? || outcome.Retry? {
        reset := DiscardCandidate();
      }
    }
  }
}
