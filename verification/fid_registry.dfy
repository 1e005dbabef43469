/** Fid records, interned identities and fid numbers (kernel/client/registry.rs), as values. */
module FidRegistrySpec {
  import opened Wrappers
  import opened Tables
  import opened LockTableSpec

  const ROOT_FID: nat := 1
  const ROOT_INODE: nat := 0
  const U32_MAX: nat := 0xFFFF_FFFF

  /** A filesystem identity, compared exactly. */
  type Identity = seq<nat>

  datatype CredentialSlot = CredentialSlot(identity: Identity, references: nat)

  type Credentials = seq<Option<CredentialSlot>>

  datatype FidRecord = FidRecord(inode: nat, credential: nat, openFlags: nat, open: bool)

  datatype FidSlot = Vacant | Live(record: FidRecord) | Stale

  datatype Registry = Registry(
    records: seq<FidSlot>,
    credentials: Credentials,
    nextFid: nat,
    recycled: seq<nat>,
    locks: Table)

  // ------------------------------------------------------------------ credentials

  /** First slot interning `id` from `i` on, or the table's length. */
  function FindIdentity(creds: Credentials, id: Identity, i: nat): (k: nat)
    requires i <= |creds|
    ensures i <= k <= |creds|
    ensures k < |creds| ==> creds[k].Some? && creds[k].value.identity == id
    ensures forall j :: i <= j < k ==> creds[j].None? || creds[j].value.identity != id
    decreases |creds| - i
  {
    if i == |creds| || (creds[i].Some? && creds[i].value.identity == id) then i else FindIdentity(creds, id, i + 1)
  }

  /** `intern_credential_locked`: none when no slot is free. */
  function Intern(creds: Credentials, id: Identity): (Credentials, Option<nat>) {
    var k := FindIdentity(creds, id, 0);
    if k < |creds| then
      (creds[k := Some(creds[k].value.(references := creds[k].value.references + 1))], Some(k))
    else
      var v := FirstVacancy(creds, 0);
      if v < |creds| then (creds[v := Some(CredentialSlot(id, 1))], Some(v)) else (creds, None)
  }

  function Retain(creds: Credentials, c: nat): Credentials {
    if c < |creds| && creds[c].Some? then creds[c := Some(creds[c].value.(references := creds[c].value.references + 1))]
    else creds
  }

  function Release(creds: Credentials, c: nat): Credentials {
    if c < |creds| && creds[c].Some? then
      var left := if creds[c].value.references > 0 then creds[c].value.references - 1 else 0;
      creds[c := if left == 0 then None else Some(creds[c].value.(references := left))]
    else creds
  }

  // ------------------------------------------------------------------ records

  function ReleaseDisplaced(creds: Credentials, displaced: FidSlot): Credentials {
    if displaced.Live? then Release(creds, displaced.record.credential) else creds
  }

  /** `install_record_locked`, which consumes the reference `record` carries. */
  function InstallRecord(reg: Registry, fid: nat, record: FidRecord): Registry {
    if fid < |reg.records| then
      reg.(records := reg.records[fid := Live(record)],
           credentials := ReleaseDisplaced(reg.credentials, reg.records[fid]))
    else
      reg.(credentials := Release(reg.credentials, record.credential))
  }

  function Tombstone(reg: Registry, fid: nat): Registry {
    (if fid < |reg.records| then
       reg.(records := reg.records[fid := Stale], credentials := ReleaseDisplaced(reg.credentials, reg.records[fid]))
     else reg).(locks := Forget(reg.locks, fid))
  }

  /** `record_derived_fid` on the current connection; false when the fid became a tombstone. */
  function RecordDerived(reg: Registry, source: nat, newfid: nat, inode: Option<nat>, open: Option<nat>)
    : (Registry, bool)
  {
    if source < |reg.records| && reg.records[source].Live? then
      var parent := reg.records[source].record;
      var record := FidRecord(
                      if inode.Some? then inode.value else parent.inode,
                      parent.credential,
                      if open.Some? then open.value else 0,
                      open.Some?);
      (InstallRecord(reg.(credentials := Retain(reg.credentials, record.credential)), newfid, record), true)
    else
      (Tombstone(reg, newfid), false)
  }

  /** `retire_clunked_fid` on the current connection. */
  function RetireClunked(reg: Registry, fid: nat, dead: bool, pushed: bool): Registry {
    var dropped :=
      if fid < |reg.records| then
        reg.(records := reg.records[fid := Vacant], credentials := ReleaseDisplaced(reg.credentials, reg.records[fid]))
      else reg;
    var quiet := dropped.(locks := Forget(reg.locks, fid));
    if fid <= ROOT_FID || fid == U32_MAX || dead || fid >= reg.nextFid || !pushed then quiet
    else quiet.(recycled := reg.recycled + [fid])
  }

  /** One gone fid committed by replay: an open handle stays as a tombstone. */
  function Prune(reg: Registry, fid: nat, open: bool): Registry {
    if fid < |reg.records| then
      reg.(records := reg.records[fid := if open then Stale else Vacant],
           credentials := ReleaseDisplaced(reg.credentials, reg.records[fid]),
           locks := Forget(reg.locks, fid))
    else reg
  }

  datatype Allocation = Allocated(fid: nat) | NeedsRecord(fid: nat) | Exhausted

  /** One pass of `allocate_session_fid` on a session that is not dead. */
  function Allocate(reg: Registry): (Registry, Allocation) {
    if reg.recycled != [] then
      var last := |reg.recycled| - 1;
      (reg.(recycled := reg.recycled[..last]), Allocated(reg.recycled[last]))
    else if reg.nextFid > U32_MAX - 1 then (reg, Exhausted)
    else if |reg.records| <= reg.nextFid then (reg, NeedsRecord(reg.nextFid))
    else (reg.(nextFid := reg.nextFid + 1), Allocated(reg.nextFid))
  }

  // ------------------------------------------------------------------ reference counts

  predicate Names(slot: FidSlot, c: nat) {
    slot.Live? && slot.record.credential == c
  }

  /** Live records naming credential slot `c`. */
  function LiveCount(records: seq<FidSlot>, c: nat): nat {
    if records == [] then 0
    else LiveCount(records[..|records| - 1], c) + if Names(records[|records| - 1], c) then 1 else 0
  }

  function References(creds: Credentials, c: nat): nat {
    if c < |creds| && creds[c].Some? then creds[c].value.references else 0
  }

  /** Counts are exact: Live records plus references still in the hands of rebinds. */
  ghost predicate Counted(reg: Registry, held: multiset<nat>) {
    && (forall c: nat :: References(reg.credentials, c) == LiveCount(reg.records, c) + held[c])
    && Interned(reg.credentials)
  }

  /** No empty slot is kept, and no identity has two. */
  ghost predicate Interned(creds: Credentials) {
    && (forall c :: 0 <= c < |creds| && creds[c].Some? ==> creds[c].value.references > 0)
    && (forall c, d :: 0 <= c < d < |creds| && creds[c].Some? && creds[d].Some? ==>
          creds[c].value.identity != creds[d].value.identity)
  }

  /** The identity a fid was recorded under, if it is live. */
  function IdentityOf(reg: Registry, fid: nat): Option<Identity> {
    if fid < |reg.records| && reg.records[fid].Live? then
      var c := reg.records[fid].record.credential;
      if c < |reg.credentials| && reg.credentials[c].Some? then Some(reg.credentials[c].value.identity) else None
    else None
  }

  lemma {:induction false} LiveCountUpdate(records: seq<FidSlot>, fid: nat, slot: FidSlot, c: nat)
    requires fid < |records|
    ensures LiveCount(records[fid := slot], c) ==
            LiveCount(records, c) - (if Names(records[fid], c) then 1 else 0) + (if Names(slot, c) then 1 else 0)
    ensures Names(records[fid], c) ==> LiveCount(records, c) > 0
  {
    var n := |records| - 1;
    if fid == n {
      assert records[fid := slot][..n] == records[..n];
    } else {
      assert records[fid := slot][..n] == records[..n][fid := slot];
      LiveCountUpdate(records[..n], fid, slot, c);
    }
  }

  lemma {:induction false} LiveCountPadded(records: seq<FidSlot>, length: nat, c: nat)
    ensures LiveCount(Padded(records, length, Vacant), c) == LiveCount(records, c)
    decreases length
  {
    if length > |records| {
      var p := Padded(records, length, Vacant);
      assert p[..|p| - 1] == Padded(records, length - 1, Vacant);
      LiveCountPadded(records, length - 1, c);
    }
  }

  lemma {:induction false} LiveCountNone(records: seq<FidSlot>, c: nat)
    requires forall i :: 0 <= i < |records| ==> !Names(records[i], c)
    ensures LiveCount(records, c) == 0
  {
    if records != [] {
      LiveCountNone(records[..|records| - 1], c);
    }
  }

  /** Exact counts put a credential slot behind every live record. */
  lemma LiveIsInterned(reg: Registry, held: multiset<nat>, fid: nat)
    requires Counted(reg, held) && fid < |reg.records| && reg.records[fid].Live?
    ensures IdentityOf(reg, fid).Some?
  {
    var c := reg.records[fid].record.credential;
    LiveCountUpdate(reg.records, fid, Vacant, c);
    assert References(reg.credentials, c) > 0;
  }

  lemma RetainCounts(creds: Credentials, c: nat)
    requires Interned(creds) && References(creds, c) > 0
    ensures Interned(Retain(creds, c))
    ensures forall d: nat :: References(Retain(creds, c), d) == References(creds, d) + if d == c then 1 else 0
  {
  }

  lemma ReleaseCounts(creds: Credentials, c: nat)
    requires Interned(creds) && References(creds, c) > 0
    ensures Interned(Release(creds, c))
    ensures forall d: nat :: References(Release(creds, c), d) == References(creds, d) - if d == c then 1 else 0
    ensures forall d :: 0 <= d < |creds| && References(Release(creds, c), d) > 0 ==>
              Release(creds, c)[d].Some? && Release(creds, c)[d].value.identity == creds[d].value.identity
  {
  }

  /** Interning adds exactly one reference, to the slot of that very identity. */
  lemma InternCounts(creds: Credentials, id: Identity)
    requires Interned(creds)
    ensures var (after, k) := Intern(creds, id);
            && Interned(after) && |after| == |creds|
            && (k.None? ==> after == creds && forall c :: 0 <= c < |creds| ==> creds[c].Some?)
            && (k.Some? ==> k.value < |creds| && after[k.value].Some? && after[k.value].value.identity == id)
            && (forall d: nat :: References(after, d) == References(creds, d) + if k == Some(d) then 1 else 0)
            && (forall d :: 0 <= d < |creds| && creds[d].Some? ==>
                  after[d].Some? && after[d].value.identity == creds[d].value.identity)
  {
  }

  // ------------------------------------------------------------------ operations keep the counts

  /** Displacing a slot gives back the reference its record held. */
  lemma DisplaceCounts(reg: Registry, held: multiset<nat>, fid: nat, slot: FidSlot)
    requires Counted(reg, held) && fid < |reg.records| && !slot.Live?
    ensures Counted(reg.(records := reg.records[fid := slot],
                         credentials := ReleaseDisplaced(reg.credentials, reg.records[fid])), held)
  {
    forall c: nat
      ensures LiveCount(reg.records[fid := slot], c) ==
              LiveCount(reg.records, c) - if Names(reg.records[fid], c) then 1 else 0
      ensures Names(reg.records[fid], c) ==> LiveCount(reg.records, c) > 0
    {
      LiveCountUpdate(reg.records, fid, slot, c);
    }
    if reg.records[fid].Live? {
      ReleaseCounts(reg.credentials, reg.records[fid].record.credential);
    }
  }

  /** Installing a record moves one held reference into the table. */
  lemma InstallCounts(reg: Registry, held: multiset<nat>, fid: nat, record: FidRecord)
    requires Counted(reg, held) && record.credential in held
    ensures Counted(InstallRecord(reg, fid, record), held - multiset{record.credential})
  {
    if fid < |reg.records| {
      forall c: nat
        ensures LiveCount(reg.records[fid := Live(record)], c) ==
                LiveCount(reg.records, c) - (if Names(reg.records[fid], c) then 1 else 0)
                + (if record.credential == c then 1 else 0)
        ensures Names(reg.records[fid], c) ==> LiveCount(reg.records, c) > 0
      {
        LiveCountUpdate(reg.records, fid, Live(record), c);
      }
      if reg.records[fid].Live? {
        ReleaseCounts(reg.credentials, reg.records[fid].record.credential);
      }
    } else {
      ReleaseCounts(reg.credentials, record.credential);
    }
  }

  lemma DerivedCounts(reg: Registry, held: multiset<nat>, source: nat, newfid: nat, inode: Option<nat>,
                      open: Option<nat>)
    requires Counted(reg, held)
    ensures Counted(RecordDerived(reg, source, newfid, inode, open).0, held)
  {
    if source < |reg.records| && reg.records[source].Live? {
      var c := reg.records[source].record.credential;
      LiveIsInterned(reg, held, source);
      RetainCounts(reg.credentials, c);
      var kept := reg.(credentials := Retain(reg.credentials, c));
      assert Counted(kept, held + multiset{c});
      assert held + multiset{c} - multiset{c} == held;
      InstallCounts(kept, held + multiset{c}, newfid, FidRecord(
          if inode.Some? then inode.value else reg.records[source].record.inode, c,
          if open.Some? then open.value else 0, open.Some?));
    } else if newfid < |reg.records| {
      DisplaceCounts(reg, held, newfid, Stale);
    }
  }

  lemma RetireCounts(reg: Registry, held: multiset<nat>, fid: nat, dead: bool, pushed: bool)
    requires Counted(reg, held)
    ensures Counted(RetireClunked(reg, fid, dead, pushed), held)
  {
    if fid < |reg.records| {
      DisplaceCounts(reg, held, fid, Vacant);
    }
  }

  lemma PruneCounts(reg: Registry, held: multiset<nat>, fid: nat, open: bool)
    requires Counted(reg, held)
    ensures Counted(Prune(reg, fid, open), held)
  {
    if fid < |reg.records| {
      DisplaceCounts(reg, held, fid, if open then Stale else Vacant);
    }
  }
}

/** The registry in its own form, changed in place under the session mutex. */
module FidRegistry {
  import opened Wrappers
  import opened Tables
  import opened LockTableSpec
  import opened FidRegistrySpec

  datatype Recorded = Installed | Superseded | Tombstoned

  /** Only the slot of `fid` differs. */
  predicate OnlyFid(before: seq<FidSlot>, after: seq<FidSlot>, fid: nat) {
    |after| == |before| && forall f :: 0 <= f < |before| && f != fid ==> after[f] == before[f]
  }

  /** The locks of `fid` are gone and all others are where they were. */
  predicate OnlyFidsLocks(before: Table, after: Table, fid: nat) {
    && |after| == |before|
    && forall i :: 0 <= i < |before| ==> after[i] == if Owned(before[i], fid) then None else before[i]
  }

  class FidTable {
    var records: seq<FidSlot>
    var credentials: Credentials
    var nextFid: nat
    var recycled: seq<nat>
    var locks: Table
    var epoch: nat
    var dead: bool

    function Value(): Registry
      reads this
    {
      Registry(records, credentials, nextFid, recycled, locks)
    }

    constructor ()
      ensures Value() == Registry([], [], ROOT_FID + 1, [], []) && epoch == 0 && !dead
    {
      records, credentials, nextFid, recycled, locks, epoch, dead := [], [], ROOT_FID + 1, [], [], 0, false;
    }

    /** One locked pass over the identities: a match wins, else the first vacancy. */
    method TryIntern(id: Identity) returns (found: Option<nat>)
      modifies this`credentials
      ensures (credentials, found) == Intern(old(credentials), id)
    {
      var free: Option<nat> := None;
      var index := 0;
      while index < |credentials|
        invariant index <= |credentials| && credentials == old(credentials)
        invariant FindIdentity(credentials, id, 0) == FindIdentity(credentials, id, index)
        invariant free.None? ==> FirstVacancy(credentials, 0) == FirstVacancy(credentials, index)
        invariant free.Some? ==> free.value < |credentials| && FirstVacancy(credentials, 0) == free.value
      {
        match credentials[index] {
          case Some(slot) =>
            if slot.identity == id {
              credentials := credentials[index := Some(slot.(references := slot.references + 1))];
              return Some(index);
            }
          case None =>
            if free.None? {
              free := Some(index);
            }
        }
        index := index + 1;
      }
      if free.Some? {
        credentials := credentials[free.value := Some(CredentialSlot(id, 1))];
      }
      return free;
    }

    method ReleaseCredential(c: nat)
      modifies this`credentials
      ensures credentials == Release(old(credentials), c)
    {
      if c >= |credentials| || credentials[c].None? {
        return;
      }
      var slot := credentials[c].value;
      var left := if slot.references > 0 then slot.references - 1 else 0;
      if left == 0 {
        credentials := credentials[c := None];
      } else {
        credentials := credentials[c := Some(slot.(references := left))];
      }
    }

    /** `replace_slot_locked` and `release_displaced_locked`; false when the number is not covered. */
    method Replace(fid: nat, slot: FidSlot) returns (covered: bool)
      modifies this`records, this`credentials
      ensures covered <==> fid < |old(records)|
      ensures covered ==> records == old(records)[fid := slot]
                          && credentials == ReleaseDisplaced(old(credentials), old(records)[fid])
      ensures !covered ==> records == old(records) && credentials == old(credentials)
    {
      if fid >= |records| {
        return false;
      }
      var displaced := records[fid];
      records := records[fid := slot];
      if displaced.Live? {
        ReleaseCredential(displaced.record.credential);
      }
      return true;
    }

    method ForgetLocks(fid: nat)
      modifies this`locks
      ensures locks == Forget(old(locks), fid)
    {
      for i := 0 to |locks|
        invariant |locks| == |old(locks)|
        invariant forall j :: 0 <= j < i ==> locks[j] == Forget(old(locks), fid)[j]
        invariant forall j :: i <= j < |locks| ==> locks[j] == old(locks)[j]
      {
        if Owned(locks[i], fid) {
          locks := locks[i := None];
        }
      }
    }

    method Install(fid: nat, record: FidRecord)
      modifies this`records, this`credentials
      ensures Value() == InstallRecord(old(Value()), fid, record)
    {
      var covered := Replace(fid, Live(record));
      if !covered {
        ReleaseCredential(record.credential);
      }
    }

    /** Nothing changes unless `answering` is still the epoch. */
    method RecordFid(fid: nat, record: FidRecord, answering: nat) returns (outcome: Recorded)
      modifies this`records, this`credentials
      ensures outcome == if answering == epoch then Installed else Superseded
      ensures Value() == if outcome.Installed? then InstallRecord(old(Value()), fid, record) else old(Value())
      ensures OnlyFid(old(records), records, fid)
      ensures outcome.Installed? && fid < |records| ==> records[fid] == Live(record)
      ensures outcome.Superseded? ==> records == old(records)
    {
      if answering != epoch {
        return Superseded;
      }
      Install(fid, record);
      return Installed;
    }

    method RecordDerivedFid(source: nat, newfid: nat, inode: Option<nat>, open: Option<nat>, answering: nat)
      returns (outcome: Recorded)
      modifies this`records, this`credentials, this`locks
      ensures outcome.Superseded? <==> answering != epoch
      ensures outcome.Superseded? ==> Value() == old(Value())
      ensures !outcome.Superseded? ==>
                (Value(), outcome.Installed?) == RecordDerived(old(Value()), source, newfid, inode, open)
      ensures outcome.Installed? <==> answering == epoch && source < |old(records)| && old(records)[source].Live?
      ensures OnlyFid(old(records), records, newfid)
      ensures outcome.Installed? ==> locks == old(locks)
      ensures outcome.Installed? && newfid < |records| ==>
                && records[newfid].Live?
                && var r, parent := records[newfid].record, old(records)[source].record;
                   && r.inode == (if inode.Some? then inode.value else parent.inode)
                   && r.credential == parent.credential
                   && (r.open <==> open.Some?) && (open.Some? ==> r.openFlags == open.value)
      ensures outcome.Tombstoned? ==> (newfid < |records| ==> records[newfid].Stale?)
                                      && OnlyFidsLocks(old(locks), locks, newfid)
    {
      if answering != epoch {
        return Superseded;
      }
      if source >= |records| || !records[source].Live? {
        var covered := Replace(newfid, Stale);
        ForgetLocks(newfid);
        return Tombstoned;
      }
      var parent := records[source].record;
      var record := FidRecord(
        if inode.Some? then inode.value else parent.inode,
        parent.credential,
        if open.Some? then open.value else 0,
        open.Some?);
      if record.credential < |credentials| && credentials[record.credential].Some? {
        var slot := credentials[record.credential].value;
        credentials := credentials[record.credential := Some(slot.(references := slot.references + 1))];
      }
      Install(newfid, record);
      return Installed;
    }

    /** Drop a clunked fid's record and recycle its number; `pushed` is whether the pool had room. */
    method RetireClunkedFid(fid: nat, answering: Option<nat>, pushed: bool) returns (dropped: bool)
      modifies this`records, this`credentials, this`locks, this`recycled
      ensures dropped <==> answering.None? || answering.value == epoch
      ensures Value() == if dropped then RetireClunked(old(Value()), fid, dead, pushed) else old(Value())
      ensures OnlyFid(old(records), records, fid)
      ensures dropped ==> (fid < |records| ==> records[fid].Vacant?) && OnlyFidsLocks(old(locks), locks, fid)
      ensures recycled == if dropped && pushed && !dead && ROOT_FID < fid < nextFid && fid != U32_MAX
                          then old(recycled) + [fid] else old(recycled)
    {
      if answering.Some? && answering.value != epoch {
        return false;
      }
      var covered := Replace(fid, Vacant);
      ForgetLocks(fid);
      if fid <= ROOT_FID || fid == U32_MAX {
        return true;
      }
      if dead || fid >= nextFid {
        return true;
      }
      if pushed {
        recycled := recycled + [fid];
      }
      return true;
    }

    /** One locked pass of the allocator. */
    method TryAllocate() returns (allocation: Allocation)
      requires !dead
      modifies this`nextFid, this`recycled
      ensures (Value(), allocation) == Allocate(old(Value()))
    {
      if recycled != [] {
        var fid := recycled[|recycled| - 1];
        recycled := recycled[..|recycled| - 1];
        return Allocated(fid);
      }
      if nextFid > U32_MAX - 1 {
        return Exhausted;
      }
      if |records| <= nextFid {
        return NeedsRecord(nextFid);
      }
      nextFid := nextFid + 1;
      return Allocated(nextFid - 1);
    }

    /** Vacant slots are added until `fid` indexes the table. */
    method ReserveRecords(fid: nat)
      modifies this`records
      ensures |records| > fid && old(records) <= records
      ensures forall i :: |old(records)| <= i < |records| ==> records[i] == Vacant
    {
      while |records| <= fid
        invariant old(records) <= records
        invariant forall i :: |old(records)| <= i < |records| ==> records[i] == Vacant
        decreases fid + 1 - |records|
      {
        var length := GrownLength(|records|, fid + 1);
        records := Padded(records, length.value, Vacant);
      }
    }

    /** `allocate_fid`: a number is issued only once the table covers it. */
    method AllocateFid() returns (fid: Option<nat>)
      requires !dead
      modifies this`nextFid, this`recycled, this`records
      ensures old(records) <= records && forall i :: |old(records)| <= i < |records| ==> records[i] == Vacant
      ensures fid.Some? ==> Allocate(old(Value()).(records := records)) == (Value(), Allocated(fid.value))
      ensures fid.Some? ==> fid.value < |records| || old(recycled) != []
      ensures fid.Some? ==> if old(recycled) != []
                            then recycled + [fid.value] == old(recycled) && nextFid == old(nextFid)
                            else fid.value == old(nextFid) && nextFid == old(nextFid) + 1 && recycled == []
      ensures fid.None? ==> old(recycled) == [] && old(nextFid) > U32_MAX - 1 && Value() == old(Value())
    {
      var allocation := TryAllocate();
      if allocation.NeedsRecord? {
        ReserveRecords(allocation.fid);
        allocation := TryAllocate();
      }
      return if allocation.Allocated? then Some(allocation.fid) else None;
    }
  }
}
