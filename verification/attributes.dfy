/** A value whose writers are ordered by generation rather than by arrival. */
module GenerationRegister {
  /** What reaches the register: a reply's value, an expiry, or a loss of confidence that
      has no generation of its own. */
  datatype Op<V> =
    | Offer(generation: nat, value: V, acceptEqual: bool)
    | Expire(generation: nat)
    | Distrust

  datatype Register<V> = Register(generation: nat, valid: bool, value: V)

  predicate Accepts<V>(r: Register<V>, op: Op<V>) {
    match op
    case Offer(g, _, acceptEqual) => g > r.generation || (acceptEqual && g == r.generation)
    case Expire(g) => g >= r.generation
    case Distrust => true
  }

  function Apply<V>(r: Register<V>, op: Op<V>): Register<V> {
    if !Accepts(r, op) then r
    else
      match op
      case Offer(g, v, _) => Register(g, true, v)
      case Expire(g) => Register(g, false, r.value)
      case Distrust => r.(valid := false)
  }

  /** The register after a log of operations; the first is the inode's creation. */
  function After<V>(start: Register<V>, log: seq<Op<V>>): Register<V> {
    if log == [] then start else Apply(After(start, log[..|log| - 1]), log[|log| - 1])
  }

  function GenerationOf<V>(op: Op<V>, otherwise: nat): nat {
    if op.Distrust? then otherwise else op.generation
  }

  /** Whatever was accepted or refused, the register ends at the highest generation seen. */
  lemma {:induction false} GenerationIsHighest<V>(start: Register<V>, log: seq<Op<V>>)
    ensures start.generation <= After(start, log).generation
    ensures forall k :: 0 <= k < |log| ==> GenerationOf(log[k], 0) <= After(start, log).generation
    ensures After(start, log).generation == start.generation
            || exists k :: 0 <= k < |log| && !log[k].Distrust? && log[k].generation == After(start, log).generation
  {
    if log != [] {
      var init := log[..|log| - 1];
      GenerationIsHighest(start, init);
      if After(start, log).generation == After(start, init).generation
         && After(start, init).generation != start.generation {
        var k :| 0 <= k < |init| && !init[k].Distrust? && init[k].generation == After(start, init).generation;
        assert !log[k].Distrust? && log[k].generation == After(start, log).generation;
      }
    }
  }

  /** No operation after position `k` displaces an offer made there. */
  predicate Undisturbed<V>(log: seq<Op<V>>, k: nat, generation: nat) {
    forall j :: k < j < |log| ==>
      match log[j]
      case Offer(g, _, acceptEqual) => g < generation || (g == generation && !acceptEqual)
      case Expire(g) => g < generation
      case Distrust => false
  }

  /** A valid register holds the very value offered at its generation; since that offer
      nothing expired it, and no expiry seen before was newer. */
  lemma {:induction false} ValidIsTheOffer<V>(start: Register<V>, log: seq<Op<V>>) returns (k: nat)
    requires !start.valid && After(start, log).valid
    ensures k < |log| && log[k].Offer?
    ensures log[k].generation == After(start, log).generation && log[k].value == After(start, log).value
    ensures Undisturbed(log, k, After(start, log).generation)
    ensures forall j :: 0 <= j < |log| && log[j].Expire? ==>
              log[j].generation <= log[k].generation && (j > k ==> log[j].generation < log[k].generation)
  {
    GenerationIsHighest(start, log);
    var init := log[..|log| - 1];
    var last := log[|log| - 1];
    if last.Offer? && Accepts(After(start, init), last) {
      k := |log| - 1;
    } else {
      k := ValidIsTheOffer(start, init);
      assert log[k] == init[k];
      assert forall j :: 0 <= j < |init| ==> log[j] == init[j];
    }
  }
}

/** The per-inode attribute cache (kernel/vfs/attributes.rs, kernel/vfs/file.rs). */
module AttributeCache {
  import opened Wrappers
  import opened GenerationRegister

  const NSEC_PER_SEC: nat := 1_000_000_000
  const REVALIDATE_NS: nat := NSEC_PER_SEC
  const U64: nat := 0x1_0000_0000_0000_0000

  /** A file mode, with the two set-id bits apart. */
  datatype FileMode = FileMode(setUid: bool, setGid: bool, rest: nat)

  /** The permission half of a stat. */
  datatype Metadata = Metadata(mode: FileMode, uid: nat, gid: nat, gen: nat)

  /** The data half. */
  datatype Data = Data(
    version: nat, size: nat, blksize: nat, blocks: nat,
    atimeSec: nat, atimeNsec: nat, mtimeSec: nat, mtimeNsec: nat, ctimeSec: nat, ctimeNsec: nat)

  /** The link count is ordered with neither half. */
  datatype Stat = Stat(metadata: Metadata, nlink: nat, data: Data)

  datatype Baseline = Baseline(size: nat, mtimeSec: nat, mtimeNsec: nat, ctimeSec: nat, ctimeNsec: nat)

  datatype Observation = Observation(generation: nat, observedNs: nat)

  datatype Mode = Mutation(contentChanged: bool) | MetadataOnly(acceptEqual: bool)

  function BaselineOf(s: Stat): Baseline {
    Baseline(s.data.size, s.data.mtimeSec, s.data.mtimeNsec, s.data.ctimeSec, s.data.ctimeNsec)
  }

  predicate Matches(b: Baseline, localSize: int, remote: Stat) {
    b == BaselineOf(remote) && localSize == remote.data.size
  }

  /** The pages were reconciled with a file of this size and these times, and the local size is that
      size: none of what would show a change of content differs. */
  predicate SameContent(b: Baseline, localSize: int, d: Data) {
    && localSize == b.size == d.size
    && b.mtimeSec == d.mtimeSec && b.mtimeNsec == d.mtimeNsec
    && b.ctimeSec == d.ctimeSec && b.ctimeNsec == d.ctimeNsec
  }

  /** Set-id bits a write took away; nothing is ever added. */
  function Killpriv(mode: FileMode, remote: FileMode): FileMode {
    mode.(setUid := mode.setUid && remote.setUid, setGid := mode.setGid && remote.setGid)
  }

  /** `wrapping_sub` on 64-bit nanoseconds. */
  function Since(earlier: nat, now: nat): nat {
    (now - earlier) % U64
  }

  /** On a clock that has not gone round, the window of a cached value is one second. */
  lemma WindowIsASecond(observedNs: nat, nowNs: nat)
    requires observedNs <= nowNs < observedNs + U64
    ensures Since(observedNs, nowNs) < REVALIDATE_NS <==> nowNs < observedNs + 1_000_000_000
  {
  }

  /** What a half with this log is, for an inode never published before it. */
  function Published<V>(zero: V, log: seq<Op<V>>): Register<V> {
    After(Register(0, false, zero), log)
  }

  lemma PublishedAppend<V>(zero: V, log: seq<Op<V>>, op: Op<V>)
    ensures Published(zero, log + [op]) == Apply(Published(zero, log), op)
  {
    assert (log + [op])[..|log|] == log;
  }

  /** A half of the cache agrees with its log. */
  ghost predicate Agrees<V>(zero: V, log: seq<Op<V>>, generation: nat, valid: bool, value: V) {
    var r := Published(zero, log);
    r.generation == generation && r.valid == valid && (valid ==> r.value == value)
  }

  /** Some reply in the log has this generation and value, undisturbed since, and no expiry
      is newer. */
  ghost predicate Backed<V(!new)>(log: seq<Op<V>>, generation: nat, value: V) {
    && (exists k :: 0 <= k < |log| && log[k].Offer? && log[k].generation == generation && log[k].value == value
                    && Undisturbed(log, k, generation))
    && forall j :: 0 <= j < |log| && log[j].Expire? ==> log[j].generation <= generation
  }

  lemma ValidIsBacked<V(!new)>(zero: V, log: seq<Op<V>>, generation: nat, value: V)
    requires Agrees(zero, log, generation, true, value)
    ensures Backed(log, generation, value)
  {
    var k := ValidIsTheOffer(Register(0, false, zero), log);
  }

  class InodeCache {
    const regular: bool
    const zero: Stat
    var stat: Stat
    var baseline: Baseline
    var metadataObservedNs: nat
    var dataObservedNs: nat
    var metadataGeneration: nat
    var dataGeneration: nat
    var mappingGeneration: nat
    var contentGeneration: nat
    var metadataValid: bool
    var dataValid: bool
    var metadataFreshNs: nat
    var lastDataRevalidateNs: int
    ghost var metadataLog: seq<Op<Metadata>>
    ghost var dataLog: seq<Op<Data>>

    ghost predicate MetadataOk()
      reads this
    {
      && Agrees(zero.metadata, metadataLog, metadataGeneration, metadataValid, stat.metadata)
      && (metadataFreshNs != 0 ==> metadataValid)
    }

    ghost predicate DataOk()
      reads this
    {
      Agrees(zero.data, dataLog, dataGeneration, dataValid, stat.data)
    }

    /** Each half is the register its log describes, and no claim about cached bytes is newer
        than the data half. */
    ghost predicate Valid()
      reads this
    {
      MetadataOk() && DataOk() && mappingGeneration <= dataGeneration && contentGeneration <= dataGeneration
    }

    /** No generation went back. */
    twostate predicate Advanced()
      reads this
    {
      && old(metadataGeneration) <= metadataGeneration && old(dataGeneration) <= dataGeneration
      && old(mappingGeneration) <= mappingGeneration && old(contentGeneration) <= contentGeneration
    }

    /** A new inode, populated from the stat that created it. */
    constructor (isRegular: bool, attributes: Stat, observation: Observation)
      requires observation.generation > 0
      ensures Valid() && regular == isRegular && stat == attributes && metadataValid && dataValid
      ensures metadataLog == [Offer(observation.generation, attributes.metadata, true)]
      ensures dataLog == [Offer(observation.generation, attributes.data, true)]
      ensures SameContent(baseline, attributes.data.size, attributes.data)
      ensures mappingGeneration == contentGeneration == metadataGeneration == dataGeneration == observation.generation
      ensures metadataObservedNs == dataObservedNs == metadataFreshNs == observation.observedNs
      ensures lastDataRevalidateNs == observation.observedNs
    {
      regular, zero, stat, baseline := isRegular, attributes, attributes, BaselineOf(attributes);
      metadataObservedNs, dataObservedNs := observation.observedNs, observation.observedNs;
      metadataGeneration, dataGeneration := observation.generation, observation.generation;
      mappingGeneration, contentGeneration := observation.generation, observation.generation;
      metadataValid, dataValid := true, true;
      metadataFreshNs, lastDataRevalidateNs := observation.observedNs, observation.observedNs;
      metadataLog := [Offer(observation.generation, attributes.metadata, true)];
      dataLog := [Offer(observation.generation, attributes.data, true)];
      new;
      PublishedAppend(zero.metadata, [], Offer(observation.generation, attributes.metadata, true));
      PublishedAppend(zero.data, [], Offer(observation.generation, attributes.data, true));
    }

    // ---------------------------------------------------------------- one half at a time

    /** Publish the permission half if its generation wins. */
    method OfferMetadata(attributes: Stat, observation: Observation, acceptEqual: bool, refreshLinkCount: bool)
      returns (accepted: bool)
      requires MetadataOk()
      modifies this`stat, this`metadataObservedNs, this`metadataGeneration, this`metadataValid, this`metadataFreshNs,
               this`metadataLog
      ensures MetadataOk() && stat.data == old(stat).data
      ensures metadataLog == old(metadataLog) + [Offer(observation.generation, attributes.metadata, acceptEqual)]
      ensures accepted <==> observation.generation > old(metadataGeneration)
                            || (acceptEqual && observation.generation == old(metadataGeneration))
      ensures metadataGeneration == if accepted then observation.generation else old(metadataGeneration)
      ensures accepted ==> metadataObservedNs == metadataFreshNs == observation.observedNs && metadataValid
                           && stat.nlink == if refreshLinkCount then attributes.nlink else old(stat).nlink
      ensures !accepted ==> stat == old(stat)
      ensures MetadataSeen(attributes, observation, acceptEqual, refreshLinkCount)
    {
      ghost var offer := Offer(observation.generation, attributes.metadata, acceptEqual);
      PublishedAppend(zero.metadata, metadataLog, offer);
      metadataLog := metadataLog + [offer];
      accepted := observation.generation > metadataGeneration
      || (acceptEqual && observation.generation == metadataGeneration);
      if accepted {
        stat := stat.(metadata := attributes.metadata);
        if refreshLinkCount {
          stat := stat.(nlink := attributes.nlink);
        }
        metadataObservedNs := observation.observedNs;
        metadataGeneration := observation.generation;
        metadataValid := true;
        metadataFreshNs := observation.observedNs;
      }
    }

    /** Publish the data half if its generation wins. */
    method OfferData(attributes: Stat, observation: Observation, acceptEqual: bool) returns (accepted: bool)
      requires DataOk()
      modifies this`stat, this`dataObservedNs, this`dataGeneration, this`dataValid, this`dataLog
      ensures DataOk() && stat.metadata == old(stat).metadata && stat.nlink == old(stat).nlink
      ensures dataLog == old(dataLog) + [Offer(observation.generation, attributes.data, acceptEqual)]
      ensures accepted <==> observation.generation > old(dataGeneration)
                            || (acceptEqual && observation.generation == old(dataGeneration))
      ensures dataGeneration == if accepted then observation.generation else old(dataGeneration)
      ensures accepted ==> dataObservedNs == observation.observedNs && dataValid
      ensures !accepted ==> stat == old(stat)
      ensures DataSeen(attributes, observation, acceptEqual)
    {
      ghost var offer := Offer(observation.generation, attributes.data, acceptEqual);
      PublishedAppend(zero.data, dataLog, offer);
      dataLog := dataLog + [offer];
      accepted := observation.generation > dataGeneration || (acceptEqual && observation.generation == dataGeneration);
      if accepted {
        stat := stat.(data := attributes.data);
        dataObservedNs := observation.observedNs;
        dataGeneration := observation.generation;
        dataValid := true;
      }
    }

    method ExpireMetadata(generation: nat)
      requires MetadataOk()
      modifies this`metadataGeneration, this`metadataValid, this`metadataFreshNs, this`metadataLog
      ensures MetadataOk() && metadataLog == old(metadataLog) + [Expire(generation)]
      ensures metadataGeneration == Max(old(metadataGeneration), generation)
      ensures generation >= old(metadataGeneration) ==> !metadataValid && metadataFreshNs == 0
      ensures generation < old(metadataGeneration) ==>
                metadataValid == old(metadataValid) && metadataFreshNs == old(metadataFreshNs)
    {
      PublishedAppend(zero.metadata, metadataLog, Expire(generation));
      metadataLog := metadataLog + [Expire(generation)];
      if generation >= metadataGeneration {
        metadataGeneration := generation;
        metadataValid := false;
        metadataFreshNs := 0;
      }
    }

    method ExpireData(generation: nat)
      requires DataOk()
      modifies this`dataGeneration, this`dataValid, this`dataLog
      ensures DataOk() && dataLog == old(dataLog) + [Expire(generation)]
      ensures dataGeneration == Max(old(dataGeneration), generation)
      ensures dataValid == (old(dataValid) && generation < old(dataGeneration))
    {
      PublishedAppend(zero.data, dataLog, Expire(generation));
      dataLog := dataLog + [Expire(generation)];
      if generation >= dataGeneration {
        dataGeneration := generation;
        dataValid := false;
      }
    }

    method DistrustData()
      requires DataOk()
      modifies this`dataValid, this`dataLog
      ensures DataOk() && dataLog == old(dataLog) + [Distrust] && !dataValid
    {
      PublishedAppend(zero.data, dataLog, Distrust);
      dataLog := dataLog + [Distrust];
      dataValid := false;
    }

    // ---------------------------------------------------------------- publishing

    /** What a reply does to the permission half: everything if its generation wins, else nothing. */
    twostate predicate MetadataSeen(attributes: Stat, observation: Observation, acceptEqual: bool, links: bool)
      reads this
    {
      var g := old(metadataGeneration);
      if observation.generation > g || (acceptEqual && observation.generation == g) then
        && stat.metadata == attributes.metadata && stat.nlink == (if links then attributes.nlink else old(stat).nlink)
        && metadataValid && metadataGeneration == observation.generation
        && metadataObservedNs == metadataFreshNs == observation.observedNs
      else
        && stat.metadata == old(stat).metadata && stat.nlink == old(stat).nlink
        && metadataValid == old(metadataValid) && metadataGeneration == g
        && metadataObservedNs == old(metadataObservedNs) && metadataFreshNs == old(metadataFreshNs)
    }

    twostate predicate DataSeen(attributes: Stat, observation: Observation, acceptEqual: bool)
      reads this
    {
      var g := old(dataGeneration);
      if observation.generation > g || (acceptEqual && observation.generation == g) then
        && stat.data == attributes.data && dataValid && dataGeneration == observation.generation
        && dataObservedNs == observation.observedNs
      else
        && stat.data == old(stat).data && dataValid == old(dataValid) && dataGeneration == g
        && dataObservedNs == old(dataObservedNs)
    }

    /** A reply for one inode, from a mutation or from a path walk. Each half is published
        only when its own generation wins. */
    method PublishAttributes(matchesInode: bool, attributes: Stat, observation: Observation, mode: Mode)
      returns (published: bool)
      requires Valid()
      modifies this
      ensures Valid() && Advanced() && mappingGeneration == old(mappingGeneration)
      ensures baseline == old(baseline) && lastDataRevalidateNs == old(lastDataRevalidateNs)
      ensures !matchesInode ==>
                !published && metadataLog == old(metadataLog) && dataLog == old(dataLog) && stat == old(stat)
      ensures matchesInode ==>
                var acceptEqual := mode.Mutation? || mode.acceptEqual;
                && MetadataSeen(attributes, observation, acceptEqual, true)
                && (mode.Mutation? || !regular ==> DataSeen(attributes, observation, acceptEqual))
                && (mode.MetadataOnly? && regular ==> stat.data == old(stat).data && dataValid == old(dataValid))
                && metadataLog == old(metadataLog) + [Offer(observation.generation, attributes.metadata, acceptEqual)]
                && dataLog == (if mode.Mutation? || !regular
                               then old(dataLog) + [Offer(observation.generation, attributes.data, acceptEqual)]
                               else old(dataLog))
                && (mode.Mutation? ==> published == (observation.generation >= old(dataGeneration)))
                && (mode.MetadataOnly? ==>
                      published == (|| observation.generation > old(metadataGeneration)
                                    || (acceptEqual && observation.generation == old(metadataGeneration))))
      ensures contentGeneration == if mode.Mutation? && mode.contentChanged && published then observation.generation
                                   else old(contentGeneration)
    {
      hide Agrees;
      if !matchesInode {
        return false;
      }
      var acceptEqual := mode.Mutation? || mode.acceptEqual;
      // Both modes end up refreshing the cached link count.
      var publishMetadata := OfferMetadata(attributes, observation, acceptEqual, true);
      var publishData := false;
      if mode.Mutation? || !regular {
        publishData := OfferData(attributes, observation, acceptEqual);
        if publishData && mode.Mutation? && mode.contentChanged {
          contentGeneration := observation.generation;
        }
      }
      return if mode.Mutation? then publishData else publishMetadata;
    }

    /** A getattr reply: both halves, but neither mapping nor baseline. */
    method CacheGetattr(matchesInode: bool, attributes: Stat, observation: Observation, localSize: int)
      returns (both: bool)
      requires Valid()
      modifies this
      ensures Valid() && Advanced() && baseline == old(baseline) && mappingGeneration == old(mappingGeneration)
      ensures !matchesInode ==> !both && metadataLog == old(metadataLog) && dataLog == old(dataLog) && stat == old(stat)
      ensures matchesInode ==>
                && MetadataSeen(attributes, observation, false, true) && DataSeen(attributes, observation, false)
                && metadataLog == old(metadataLog) + [Offer(observation.generation, attributes.metadata, false)]
                && dataLog == old(dataLog) + [Offer(observation.generation, attributes.data, false)]
                && both == (observation.generation > old(metadataGeneration)
                            && observation.generation > old(dataGeneration))
      ensures contentGeneration == if matchesInode && observation.generation > old(dataGeneration)
                                      && !SameContent(baseline, localSize, attributes.data)
                                   then observation.generation else old(contentGeneration)
      ensures lastDataRevalidateNs == if matchesInode && observation.generation > old(dataGeneration)
                                         && !SameContent(baseline, localSize, attributes.data)
                                      then observation.observedNs - REVALIDATE_NS else old(lastDataRevalidateNs)
    {
      hide Agrees;
      if !matchesInode {
        return false;
      }
      var publishMetadata := OfferMetadata(attributes, observation, false, true);
      var publishData := OfferData(attributes, observation, false);
      if publishData && !Matches(baseline, localSize, attributes) {
        contentGeneration := observation.generation;
        lastDataRevalidateNs := observation.observedNs - REVALIDATE_NS;
      }
      return publishMetadata && publishData;
    }

    /** A stat published under mapping exclusion, at the end of either barriered refresh. */
    method PublishMapped(attributes: Stat, observation: Observation, linkCount: bool, contentChanged: bool)
      requires Valid() && observation.generation > dataGeneration
      modifies this
      ensures Valid() && Advanced()
      ensures metadataLog == old(metadataLog) + [Offer(observation.generation, attributes.metadata, false)]
      ensures dataLog == old(dataLog) + [Offer(observation.generation, attributes.data, false)]
      ensures mappingGeneration == dataGeneration == observation.generation
      ensures SameContent(baseline, attributes.data.size, attributes.data)
      ensures MetadataSeen(attributes, observation, false, linkCount) && DataSeen(attributes, observation, false)
      ensures lastDataRevalidateNs == dataObservedNs == observation.observedNs && dataValid
      ensures contentGeneration == if contentChanged then observation.generation else old(contentGeneration)
      ensures stat.nlink == if linkCount && observation.generation > old(metadataGeneration) then attributes.nlink
                            else old(stat).nlink
    {
      hide Agrees;
      var publishMetadata := OfferMetadata(attributes, observation, false, linkCount);
      if contentChanged {
        contentGeneration := observation.generation;
      }
      var publishData := OfferData(attributes, observation, false);
      baseline := BaselineOf(attributes);
      lastDataRevalidateNs := observation.observedNs;
      mappingGeneration := observation.generation;
    }

    /** The cache as a refused publication leaves it. */
    twostate predicate Untouched()
      reads this
    {
      && metadataLog == old(metadataLog) && dataLog == old(dataLog) && stat == old(stat) && baseline == old(baseline)
      && mappingGeneration == old(mappingGeneration) && contentGeneration == old(contentGeneration)
    }

    /** The full refresh: the content changed if the reply no longer matches what the cached pages
        were reconciled with. `sizeSet` is whether the size update succeeded. */
    method PublishCoherent(matchesInode: bool, attributes: Stat, observation: Observation, localSize: int,
                           sizeSet: bool)
      returns (published: bool)
      requires Valid()
      modifies this
      ensures Valid() && Advanced()
      ensures published <==> matchesInode && observation.generation > old(dataGeneration) && sizeSet
      ensures !published ==> Untouched()
      ensures published ==>
                && metadataLog == old(metadataLog) + [Offer(observation.generation, attributes.metadata, false)]
                && dataLog == old(dataLog) + [Offer(observation.generation, attributes.data, false)]
                && mappingGeneration == dataGeneration == observation.generation
                && SameContent(baseline, attributes.data.size, attributes.data)
                && MetadataSeen(attributes, observation, false, true) && DataSeen(attributes, observation, false)
                && lastDataRevalidateNs == observation.observedNs
                && contentGeneration == if SameContent(old(baseline), localSize, attributes.data)
                                        then old(contentGeneration) else observation.generation
    {
      if !matchesInode || observation.generation <= dataGeneration {
        return false;
      }
      var contentChanged := !Matches(baseline, localSize, attributes);
      if !sizeSet {
        return false;
      }
      PublishMapped(attributes, observation, true, contentChanged);
      return true;
    }

    /** The mmap-safe refresh: only a refresh of the size says the content changed, and the link
        count is left to local namespace operations. */
    method PublishMmap(matchesInode: bool, attributes: Stat, observation: Observation, refreshSize: bool, sizeSet: bool)
      returns (published: bool)
      requires Valid()
      modifies this
      ensures Valid() && Advanced() && stat.nlink == old(stat).nlink
      ensures published <==> matchesInode && observation.generation > old(dataGeneration) && (refreshSize ==> sizeSet)
      ensures !published ==> Untouched()
      ensures published ==>
                && metadataLog == old(metadataLog) + [Offer(observation.generation, attributes.metadata, false)]
                && dataLog == old(dataLog) + [Offer(observation.generation, attributes.data, false)]
                && mappingGeneration == dataGeneration == observation.generation
                && SameContent(baseline, attributes.data.size, attributes.data)
                && MetadataSeen(attributes, observation, false, false) && DataSeen(attributes, observation, false)
                && lastDataRevalidateNs == observation.observedNs
                && contentGeneration == if refreshSize then observation.generation else old(contentGeneration)
    {
      if !matchesInode || observation.generation <= dataGeneration || (refreshSize && !sizeSet) {
        return false;
      }
      PublishMapped(attributes, observation, false, refreshSize);
      return true;
    }

    // ---------------------------------------------------------------- invalidating

    /** A write took set-id bits away: they go from the cached mode, and the permission half expires,
        unless it already holds something newer. */
    method ApplyKillpriv(attributes: Stat, generation: nat)
      requires Valid()
      modifies this
      ensures Valid() && Advanced() && metadataLog == old(metadataLog) + [Expire(generation)] && dataLog == old(dataLog)
      ensures mappingGeneration == old(mappingGeneration) && contentGeneration == old(contentGeneration)
      ensures generation < old(metadataGeneration) ==> stat == old(stat)
      ensures generation >= old(metadataGeneration) ==>
                && !metadataValid && metadataFreshNs == 0
                && var kept, mode := old(stat).metadata.mode, stat.metadata.mode;
                   && (mode.setUid <==> kept.setUid && attributes.metadata.mode.setUid)
                   && (mode.setGid <==> kept.setGid && attributes.metadata.mode.setGid)
                   && stat == old(stat).(metadata := old(stat).metadata.(mode :=
                                kept.(setUid := mode.setUid, setGid := mode.setGid)))
    {
      var wins := generation >= metadataGeneration;
      ExpireMetadata(generation);
      if wins {
        stat := stat.(metadata := stat.metadata.(mode := Killpriv(stat.metadata.mode, attributes.metadata.mode)));
      }
    }

    /** Both halves expire at `generation`; a content change also invalidates the mapping,
        and with it confidence in the data half. */
    method Invalidate(generation: nat, content: bool, revalidateNs: Option<int>)
      requires Valid()
      modifies this
      ensures Valid() && Advanced() && stat == old(stat)
      ensures metadataLog == old(metadataLog) + [Expire(generation)]
      ensures dataLog == old(dataLog) + [Expire(generation)]
                         + if content && generation > old(mappingGeneration) then [Distrust] else []
      ensures mappingGeneration == if content then Max(old(mappingGeneration), generation) else old(mappingGeneration)
      ensures contentGeneration == if content then Max(old(contentGeneration), generation) else old(contentGeneration)
      ensures dataGeneration == Max(old(dataGeneration), generation)
      ensures metadataGeneration == Max(old(metadataGeneration), generation)
      ensures metadataValid == (old(metadataValid) && generation < old(metadataGeneration))
      ensures metadataFreshNs == if generation < old(metadataGeneration) then old(metadataFreshNs) else 0
      ensures dataValid == (old(dataValid) && generation < old(dataGeneration)
                            && !(content && generation > old(mappingGeneration)))
      ensures lastDataRevalidateNs == if content && generation > old(mappingGeneration) && revalidateNs.Some?
                                      then revalidateNs.value else old(lastDataRevalidateNs)
    {
      hide Agrees;
      ExpireMetadata(generation);
      ExpireData(generation);
      if content && generation > mappingGeneration {
        mappingGeneration := generation;
        DistrustData();
        if revalidateNs.Some? {
          lastDataRevalidateNs := revalidateNs.value;
        }
      }
      if content {
        contentGeneration := Max(contentGeneration, generation);
      }
    }

    /** A local write: both halves expire at `generation`, the content's own rises to it, the mapping's stays. */
    method RecordLocalContentChange(generation: nat)
      requires Valid()
      modifies this
      ensures Valid() && Advanced() && mappingGeneration == old(mappingGeneration)
      ensures contentGeneration == Max(old(contentGeneration), generation)
      ensures metadataLog == old(metadataLog) + [Expire(generation)] && dataLog == old(dataLog) + [Expire(generation)]
      ensures stat == old(stat) && lastDataRevalidateNs == old(lastDataRevalidateNs)
      ensures metadataValid == (old(metadataValid) && generation < old(metadataGeneration))
      ensures dataValid == (old(dataValid) && generation < old(dataGeneration))
    {
      hide Agrees;
      Invalidate(generation, false, None);
      contentGeneration := Max(contentGeneration, generation);
    }

    // ---------------------------------------------------------------- reading

    /** Neither half is invalid, unobserved or past its window. */
    predicate Fresh(nowNs: nat)
      reads this
    {
      && metadataValid && dataValid && metadataObservedNs != 0 && dataObservedNs != 0
      && Since(metadataObservedNs, nowNs) < REVALIDATE_NS && Since(dataObservedNs, nowNs) < REVALIDATE_NS
    }

    /** A stat call is answered exactly while both halves are fresh, or when the caller takes what
        there is. When fresh, each half is the value of one reply and no invalidation recorded for it
        is newer than that reply. */
    method CachedStat(nowNs: nat, allowExpired: bool) returns (r: Option<Stat>)
      requires Valid()
      ensures r == if allowExpired || Fresh(nowNs) then Some(stat) else None
      ensures Fresh(nowNs) ==>
                Backed(metadataLog, metadataGeneration, stat.metadata) && Backed(dataLog, dataGeneration, stat.data)
    {
      if metadataValid && dataValid {
        ValidIsBacked(zero.metadata, metadataLog, metadataGeneration, stat.metadata);
        ValidIsBacked(zero.data, dataLog, dataGeneration, stat.data);
      }
      if !allowExpired
         && (!metadataValid || !dataValid || metadataObservedNs == 0 || dataObservedNs == 0
             || Since(metadataObservedNs, nowNs) >= REVALIDATE_NS || Since(dataObservedNs, nowNs) >= REVALIDATE_NS) {
        return None;
      }
      return Some(stat);
    }
  }
}
