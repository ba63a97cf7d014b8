/**
 Runs from an empty cache, without a single failing call, that show which promises
 cannot be kept: the capacity bound is reached, and an eviction that overtakes a hit
 leaves the index listing an adapter that is gone.
 */
module CacheWitness {
  import opened Common
  import opened Lru
  import opened Staging
  import opened Disk
  import opened CacheMachine
  import opened CacheInvariants
  import opened CacheAgreement
  import opened CacheSizes
  import opened CacheCapacity

  // ---------------------------------------------------------------------
  // Runs that satisfy the premises of the capacity bound
  // ---------------------------------------------------------------------

  /** The steps lead from `s` to `t`, no call fails, and the quotas of the capacity bound are kept. */
  ghost predicate Fair(c: Config, s: State, steps: seq<Step>, t: State, k: nat, size: nat)
    decreases |steps|
  {
    && AtMost(s, k, size)
    && if steps == [] then t == s
       else Enabled(c, s, steps[0]) && Smooth(c, s, steps[0]) && Counted(s, steps[0]) && Fair(c, Next(c, s, steps[0]), steps[1..], t, k, size)
  }

  lemma {:induction false} FairOne(c: Config, s: State, step: Step, k: nat, size: nat)
    requires Enabled(c, s, step) && Smooth(c, s, step) && Counted(s, step) && AtMost(s, k, size) && AtMost(Next(c, s, step), k, size)
    ensures Fair(c, s, [step], Next(c, s, step), k, size)
  {
    hide Enabled, Next, Smooth, AtMost, Counted;
    assert Fair(c, Next(c, s, step), [step][1..], Next(c, s, step), k, size);
  }

  lemma {:induction false} FairOn(c: Config, s: State, first: seq<Step>, m: State, rest: seq<Step>, t: State, k: nat, size: nat)
    requires Fair(c, s, first, m, k, size) && Fair(c, m, rest, t, k, size)
    ensures Fair(c, s, first + rest, t, k, size)
    decreases |first|
  {
    hide Enabled, Next, Smooth, AtMost, Counted;
    if first == [] {
      assert first + rest == rest;
    } else {
      assert (first + rest)[1..] == first[1..] + rest;
      FairOn(c, Next(c, s, first[0]), first[1..], m, rest, t, k, size);
    }
  }

  lemma {:induction false} FairLeads(c: Config, s: State, steps: seq<Step>, t: State, k: nat, size: nat)
    requires Fair(c, s, steps, t, k, size)
    ensures Leads(c, s, steps, t)
    decreases |steps|
  {
    hide Enabled, Next, Smooth, AtMost, Counted;
    if steps != [] {
      FairLeads(c, Next(c, s, steps[0]), steps[1..], t, k, size);
    }
  }

  lemma {:induction false} FairIsRun(c: Config, s: State, steps: seq<Step>, t: State, k: nat, size: nat) returns (ss: seq<State>)
    requires Fair(c, s, steps, t, k, size)
    ensures IsRun(c, ss, steps) && ss[0] == s && ss[|steps|] == t
    ensures forall j :: 0 <= j < |steps| ==> Smooth(c, ss[j], steps[j]) && Counted(ss[j], steps[j])
    ensures forall j :: 0 <= j <= |steps| ==> AtMost(ss[j], k, size)
    decreases |steps|
  {
    hide Enabled, Next, Smooth, AtMost, Counted;
    if steps == [] {
      ss := [s];
    } else {
      var rest := FairIsRun(c, Next(c, s, steps[0]), steps[1..], t, k, size);
      ss := [s] + rest;
      assert forall j :: 0 < j < |steps| ==> ss[j] == rest[j - 1] && ss[j + 1] == rest[j] && steps[j] == steps[1..][j - 1];
    }
  }

  /** A flight that reserves nothing and measures nothing larger keeps the quotas. */
  lemma {:induction false} QuotaKept(s: State, t: State, id: AdapterId, p: Phase, k: nat, size: nat)
    requires AtMost(s, k, size) && t.flights == s.flights[id := p] && !Reserving(p) && (p.Measured? ==> p.size <= size)
    ensures AtMost(t, k, size)
  {
    ReservedLess(s, t, id, p);
    hide Reserved;
    SmallerMap(Reserved(t), Reserved(s));
  }

  lemma {:induction false} ReservedLess(s: State, t: State, id: AdapterId, p: Phase)
    requires t.flights == s.flights[id := p] && !Reserving(p)
    ensures Reserved(t) == Reserved(s) - {id}
  {
  }

  lemma {:induction false} QuotaEnded(s: State, t: State, id: AdapterId, k: nat, size: nat)
    requires AtMost(s, k, size) && t.flights == s.flights - {id}
    ensures AtMost(t, k, size)
  {
    assert Reserved(t) == Reserved(s) - {id};
    SmallerMap(Reserved(t), Reserved(s));
  }

  /** One more reservation, where there is room for it. */
  lemma {:induction false} QuotaReserved(s: State, t: State, id: AdapterId, p: Phase, k: nat, size: nat)
    requires AtMost(s, k, size) && t.flights == s.flights[id := p] && Reserving(p) && p.size <= size
    requires |Reserved(s)| < k && id !in Reserved(s)
    ensures AtMost(t, k, size) && Reserved(t) == Reserved(s)[id := p.size]
  {
    assert Reserved(t) == Reserved(s)[id := p.size];
    assert |Reserved(s)[id := p.size]| == |Reserved(s)| + 1;
  }

  lemma {:induction false} SmallerMap(m: map<AdapterId, nat>, n: map<AdapterId, nat>)
    requires m.Keys <= n.Keys
    ensures |m| <= |n|
  {
    SubsetSize(m.Keys, n.Keys);
    assert |m| == |m.Keys| && |n| == |n.Keys|;
  }

  lemma {:induction false} SubsetSize(a: set<AdapterId>, b: set<AdapterId>)
    requires a <= b
    ensures |a| <= |b|
  {
    assert b == a + (b - a);
  }

  // ---------------------------------------------------------------------
  // One fetch
  // ---------------------------------------------------------------------

  /** What a fetch of `bytes` bytes, `meta` of them metadata, leaves in its directory. */
  function Copy(bytes: nat, meta: nat): Dir
    requires meta <= bytes
  {
    map[CONFIG := File(bytes - meta, 0, Payload(0)), META := File(meta, 0, Payload(1))]
  }

  lemma {:induction false} CopySize(bytes: nat, meta: nat)
    requires meta <= bytes
    ensures DirSize(Copy(bytes, meta)) == bytes
  {
    var one: map<string, nat> := map[CONFIG := bytes - meta];
    SumInsert(map[], CONFIG, bytes - meta);
    SumInsert(one, META, meta);
    assert map[][CONFIG := bytes - meta] == one;
    assert Sizes(Copy(bytes, meta)) == one[META := meta];
  }

  /** The adapter has no trace in the cache. */
  ghost predicate Fresh(c: Config, s: State, id: AdapterId) {
    && id in c.ids && id !in s.flights && id !in s.hits && id !in s.evicting && id !in Ids(s.lru)
    && id !in s.disk && TmpPath(id) !in s.disk
  }

  lemma {:induction false} RemoveNothing(c: Config, d: Tree, p: string)
    requires GoodIds(c.ids) && d.Keys <= Paths(c.ids) && p in Paths(c.ids) && p !in d
    ensures RemoveAll(d, p, map[]) == d && Leftover(d, p, map[])
  {
    RemoveAllFrame(c, d, p, map[]);
  }

  /** The state in which the fetch has measured its download; everything else is as before. */
  ghost predicate Loaded(s: State, t: State, id: AdapterId, bytes: nat, meta: nat)
    requires meta <= bytes
  {
    && t.lru == s.lru && t.hits == s.hits && t.evicting == s.evicting
    && t.flights == s.flights[id := Measured(bytes)]
    && t.disk == s.disk[TmpPath(id) := Copy(bytes, meta)]
  }

  function Downloading(id: AdapterId, bytes: nat, meta: nat): seq<Step>
    requires meta <= bytes
  {
    [Begin(id), SweepStaging(id, map[]), MakeStaging(id, true), Deliver(id, map[CONFIG := File(bytes - meta, 0, Payload(0))], true),
     WriteMeta(id, Some(File(meta, 0, Payload(1))), true), Measure(id)]
  }

  /** One step that only moves a flight between phases without a reservation. */
  lemma {:induction false} FlightStep(c: Config, s: State, step: Step, p: Phase, k: nat, size: nat)
    requires Enabled(c, s, step) && Smooth(c, s, step) && !step.Crash? && !step.TouchHit? && AtMost(s, k, size)
    requires Next(c, s, step).flights == s.flights[step.id := p] && !Reserving(p) && (p.Measured? ==> p.size <= size)
    ensures Fair(c, s, [step], Next(c, s, step), k, size) && AtMost(Next(c, s, step), k, size)
  {
    hide Enabled, Next, Smooth, AtMost, Fair, Reserved;
    QuotaKept(s, Next(c, s, step), step.id, p, k, size);
    FairOne(c, s, step, k, size);
  }

  lemma {:induction false} Begins(c: Config, s: State, id: AdapterId, k: nat, size: nat)
    requires Fresh(c, s, id) && AtMost(s, k, size)
    ensures var t := s.(flights := s.flights[id := Starting]);
            Fair(c, s, [Begin(id)], t, k, size) && AtMost(t, k, size)
  {
    hide Fair, AtMost;
    FlightStep(c, s, Begin(id), Starting, k, size);
  }

  lemma {:induction false} Sweeps(c: Config, s: State, id: AdapterId, k: nat, size: nat)
    requires InPhase(s, id, Starting) && RemoveAll(s.disk, TmpPath(id), map[]) == s.disk && AtMost(s, k, size)
    ensures var t := s.(flights := s.flights[id := Swept]);
            Fair(c, s, [SweepStaging(id, map[])], t, k, size) && AtMost(t, k, size)
  {
    hide Fair, AtMost, RemoveAll;
    FlightStep(c, s, SweepStaging(id, map[]), Swept, k, size);
  }

  lemma {:induction false} MakesStaging(c: Config, s: State, id: AdapterId, k: nat, size: nat)
    requires InPhase(s, id, Swept) && TmpPath(id) !in s.disk && AtMost(s, k, size)
    ensures var t := s.(flights := s.flights[id := Fetching], disk := s.disk[TmpPath(id) := map[]]);
            Fair(c, s, [MakeStaging(id, true)], t, k, size) && AtMost(t, k, size)
  {
    hide Fair, AtMost;
    FlightStep(c, s, MakeStaging(id, true), Fetching, k, size);
  }

  lemma {:induction false} BeginsSwept(c: Config, s: State, id: AdapterId, k: nat, size: nat)
    requires Fresh(c, s, id) && RemoveAll(s.disk, TmpPath(id), map[]) == s.disk && AtMost(s, k, size)
    ensures var t := s.(flights := s.flights[id := Swept]);
            Fair(c, s, [Begin(id)] + [SweepStaging(id, map[])], t, k, size) && AtMost(t, k, size)
  {
    hide Fair, AtMost, RemoveAll, Enabled, Next, Fresh, TmpPath;
    var a := s.(flights := s.flights[id := Starting]);
    var b := s.(flights := s.flights[id := Swept]);
    assert a.flights[id := Swept] == b.flights;
    Begins(c, s, id, k, size);
    Sweeps(c, a, id, k, size);
    FairOn(c, s, [Begin(id)], a, [SweepStaging(id, map[])], b, k, size);
  }

  lemma {:induction false} Prepares(c: Config, s: State, id: AdapterId, k: nat, size: nat) returns (t: State)
    requires Fresh(c, s, id) && RemoveAll(s.disk, TmpPath(id), map[]) == s.disk && AtMost(s, k, size)
    ensures Fair(c, s, [Begin(id), SweepStaging(id, map[]), MakeStaging(id, true)], t, k, size) && AtMost(t, k, size)
    ensures t == s.(flights := s.flights[id := Fetching], disk := s.disk[TmpPath(id) := map[]])
  {
    assert TmpPath(id) !in s.disk;
    hide Fair, AtMost, RemoveAll, Enabled, Next, Fresh, TmpPath;
    var b := s.(flights := s.flights[id := Swept]);
    t := s.(flights := s.flights[id := Fetching], disk := s.disk[TmpPath(id) := map[]]);
    assert b.flights[id := Fetching] == t.flights;
    BeginsSwept(c, s, id, k, size);
    MakesStaging(c, b, id, k, size);
    FairOn(c, s, [Begin(id)] + [SweepStaging(id, map[])], b, [MakeStaging(id, true)], t, k, size);
    assert [Begin(id)] + [SweepStaging(id, map[])] + [MakeStaging(id, true)] == [Begin(id), SweepStaging(id, map[]), MakeStaging(id, true)];
  }

  lemma {:induction false} Delivers(c: Config, s: State, id: AdapterId, files: Dir, k: nat, size: nat) returns (t: State)
    requires InPhase(s, id, Fetching) && TmpPath(id) in s.disk && s.disk[TmpPath(id)] == map[] && CONFIG in files && AtMost(s, k, size)
    ensures Fair(c, s, [Deliver(id, files, true)], t, k, size) && AtMost(t, k, size)
    ensures t.lru == s.lru && t.hits == s.hits && t.evicting == s.evicting
    ensures t.flights == s.flights[id := Phase.Fetched] && t.disk == s.disk[TmpPath(id) := files]
  {
    hide Fair, AtMost;
    t := Next(c, s, Deliver(id, files, true));
    assert map[] + files == files;
    FlightStep(c, s, Deliver(id, files, true), Phase.Fetched, k, size);
  }

  lemma {:induction false} Stamps(c: Config, s: State, id: AdapterId, stamp: File, k: nat, size: nat)
    requires InPhase(s, id, Phase.Fetched) && TmpPath(id) in s.disk && AtMost(s, k, size)
    ensures var t := s.(flights := s.flights[id := Stamped], disk := s.disk[TmpPath(id) := s.disk[TmpPath(id)][META := stamp]]);
            Fair(c, s, [WriteMeta(id, Some(stamp), true)], t, k, size) && AtMost(t, k, size)
  {
    hide Fair, AtMost;
    FlightStep(c, s, WriteMeta(id, Some(stamp), true), Stamped, k, size);
  }

  lemma {:induction false} Measures(c: Config, s: State, id: AdapterId, bytes: nat, k: nat, size: nat)
    requires InPhase(s, id, Stamped) && TmpPath(id) in s.disk && DirSize(s.disk[TmpPath(id)]) == bytes <= size && AtMost(s, k, size)
    ensures var t := s.(flights := s.flights[id := Measured(bytes)]);
            Fair(c, s, [Measure(id)], t, k, size) && AtMost(t, k, size)
  {
    hide Fair, AtMost, DirSize;
    FlightStep(c, s, Measure(id), Measured(bytes), k, size);
  }

  lemma {:induction false} Downloads(c: Config, s: State, id: AdapterId, bytes: nat, meta: nat, k: nat, size: nat) returns (t: State)
    requires meta <= bytes <= size && InPhase(s, id, Fetching) && TmpPath(id) in s.disk && s.disk[TmpPath(id)] == map[] && AtMost(s, k, size)
    ensures Fair(c, s, Downloading(id, bytes, meta)[3..], t, k, size) && Loaded(s, t, id, bytes, meta) && AtMost(t, k, size)
  {
    hide Fair, AtMost, Reserved, DirSize, Enabled, Next;
    var files: Dir := map[CONFIG := File(bytes - meta, 0, Payload(0))];
    var stamp, tmp := File(meta, 0, Payload(1)), TmpPath(id);
    CopySize(bytes, meta);
    var a := Delivers(c, s, id, files, k, size);
    Stamps(c, a, id, stamp, k, size);
    var b := a.(flights := a.flights[id := Stamped], disk := a.disk[tmp := a.disk[tmp][META := stamp]]);
    assert b.disk[tmp] == Copy(bytes, meta);
    Measures(c, b, id, bytes, k, size);
    t := b.(flights := b.flights[id := Measured(bytes)]);
    assert t.flights == s.flights[id := Measured(bytes)] && t.disk == s.disk[tmp := Copy(bytes, meta)];
    FairOn(c, s, [Deliver(id, files, true)], a, [WriteMeta(id, Some(stamp), true)], b, k, size);
    FairOn(c, s, [Deliver(id, files, true)] + [WriteMeta(id, Some(stamp), true)], b, [Measure(id)], t, k, size);
    assert [Deliver(id, files, true)] + [WriteMeta(id, Some(stamp), true)] + [Measure(id)] == Downloading(id, bytes, meta)[3..];
  }

  lemma {:induction false} Loads(c: Config, s: State, id: AdapterId, bytes: nat, meta: nat, k: nat, size: nat) returns (t: State)
    requires Fresh(c, s, id) && RemoveAll(s.disk, TmpPath(id), map[]) == s.disk && meta <= bytes <= size && AtMost(s, k, size)
    ensures Fair(c, s, Downloading(id, bytes, meta), t, k, size) && Loaded(s, t, id, bytes, meta) && AtMost(t, k, size)
  {
    hide Fair, RemoveAll, Fresh, AtMost, TmpPath, Reserved;
    var first := [Begin(id), SweepStaging(id, map[]), MakeStaging(id, true)];
    var m := Prepares(c, s, id, k, size);
    t := Downloads(c, m, id, bytes, meta, k, size);
    FairOn(c, s, first, m, Downloading(id, bytes, meta)[3..], t, k, size);
    assert first + Downloading(id, bytes, meta)[3..] == Downloading(id, bytes, meta);
    LoadedFrom(s, m, t, id, bytes, meta);
  }

  lemma {:induction false} LoadedFrom(s: State, m: State, t: State, id: AdapterId, bytes: nat, meta: nat)
    requires meta <= bytes && Loaded(m, t, id, bytes, meta)
    requires m == s.(flights := s.flights[id := Fetching], disk := s.disk[TmpPath(id) := map[]])
    ensures Loaded(s, t, id, bytes, meta)
  {
    assert m.flights[id := Measured(bytes)] == s.flights[id := Measured(bytes)];
    assert m.disk[TmpPath(id) := Copy(bytes, meta)] == s.disk[TmpPath(id) := Copy(bytes, meta)];
  }

  // ---------------------------------------------------------------------
  // Room for it, without a victim
  // ---------------------------------------------------------------------

  lemma {:induction false} FitsWithoutVictims(c: Config, s: State, bytes: nat)
    requires Total(s.lru) + bytes <= c.maxSize
    ensures Kept(s.lru, bytes, c.maxSize) == |s.lru| && s.lru[..|s.lru|] == s.lru && Victims(c, s, bytes) == []
  {
  }

  /** While everything indexed and the newcomer fit together, reservations of others do not make anybody wait. */
  lemma {:induction false} MakesFreeRoom(c: Config, s: State, id: AdapterId, bytes: nat, k: nat, size: nat) returns (t: State)
    requires InPhase(s, id, Measured(bytes)) && Total(s.lru) + bytes <= c.maxSize && bytes <= size && AtMost(s, k, size)
    requires |Reserved(s)| < k
    ensures Fair(c, s, [MakeRoom(id)], t, k, size) && AtMost(t, k, size)
    ensures t == s.(flights := s.flights[id := Evacuating(bytes, [])])
    ensures id !in Reserved(s) && Reserved(t) == Reserved(s)[id := bytes] && Load(t) == Load(s) + bytes
  {
    hide Fair, SumOf, Total, Kept;
    FitsWithoutVictims(c, s, bytes);
    t := Next(c, s, MakeRoom(id));
    assert t == s.(flights := s.flights[id := Evacuating(bytes, [])]);
    QuotaReserved(s, t, id, Evacuating(bytes, []), k, size);
    FairOne(c, s, MakeRoom(id), k, size);
    SumInsert(Reserved(s), id, bytes);
  }

  /** Moving on between reserving phases keeps the quotas. */
  lemma {:induction false} ReservedStep(c: Config, s: State, step: Step, p: Phase, k: nat, size: nat)
    requires Enabled(c, s, step) && Smooth(c, s, step) && !step.Crash? && !step.TouchHit? && AtMost(s, k, size)
    requires step.id in s.flights && Reserving(s.flights[step.id]) && Reserving(p) && p.size == s.flights[step.id].size
    requires Next(c, s, step).flights == s.flights[step.id := p]
    ensures Fair(c, s, [step], Next(c, s, step), k, size) && AtMost(Next(c, s, step), k, size)
  {
    hide Enabled, Next, Smooth, Fair;
    QuotaMoved(s, Next(c, s, step), step.id, p, k, size);
    FairOne(c, s, step, k, size);
  }

  lemma {:induction false} QuotaMoved(s: State, t: State, id: AdapterId, p: Phase, k: nat, size: nat)
    requires AtMost(s, k, size) && t.flights == s.flights[id := p]
    requires id in s.flights && Reserving(s.flights[id]) && Reserving(p) && p.size == s.flights[id].size
    ensures AtMost(t, k, size)
  {
    assert Reserved(t) == Reserved(s);
  }

  lemma {:induction false} Clears(c: Config, s: State, id: AdapterId, bytes: nat, k: nat, size: nat)
    requires InPhase(s, id, Evacuating(bytes, [])) && RemoveAll(s.disk, id, map[]) == s.disk && AtMost(s, k, size)
    ensures var t := s.(flights := s.flights[id := Cleared(bytes)]);
            Fair(c, s, [ClearTarget(id, map[])], t, k, size) && AtMost(t, k, size)
  {
    hide Fair, AtMost, RemoveAll;
    ReservedStep(c, s, ClearTarget(id, map[]), Cleared(bytes), k, size);
  }

  lemma {:induction false} Renames(c: Config, s: State, id: AdapterId, bytes: nat, k: nat, size: nat)
    requires InPhase(s, id, Cleared(bytes)) && CanRename(s.disk, TmpPath(id), id) && AtMost(s, k, size)
    ensures var t := s.(flights := s.flights[id := Renamed(bytes)], disk := (s.disk - {TmpPath(id)})[id := s.disk[TmpPath(id)]]);
            Fair(c, s, [Install(id)], t, k, size) && AtMost(t, k, size)
  {
    hide Fair, AtMost, CanRename;
    ReservedStep(c, s, Install(id), Renamed(bytes), k, size);
  }

  lemma {:induction false} NothingBelow(c: Config, d: Tree, id: AdapterId)
    requires GoodIds(c.ids) && d.Keys <= Paths(c.ids) && id in c.ids && id !in d
    ensures forall k :: k in d ==> !Under(id, k)
  {
    forall k | k in d ensures !Under(id, k) {
      PathsApart(c.ids, id, k);
    }
  }

  /** From room made to the copy in place. */
  lemma {:induction false} Installs(c: Config, s: State, id: AdapterId, bytes: nat, k: nat, size: nat) returns (t: State)
    requires InPhase(s, id, Evacuating(bytes, [])) && AtMost(s, k, size)
    requires RemoveAll(s.disk, id, map[]) == s.disk && CanRename(s.disk, TmpPath(id), id)
    ensures Fair(c, s, [ClearTarget(id, map[]), Install(id)], t, k, size) && AtMost(t, k, size)
    ensures t == s.(flights := s.flights[id := Renamed(bytes)], disk := (s.disk - {TmpPath(id)})[id := s.disk[TmpPath(id)]])
  {
    assert TmpPath(id) in s.disk;
    hide Fair, AtMost, RemoveAll, CanRename, Enabled, Next, TmpPath;
    var a := s.(flights := s.flights[id := Cleared(bytes)]);
    t := s.(flights := s.flights[id := Renamed(bytes)], disk := (s.disk - {TmpPath(id)})[id := s.disk[TmpPath(id)]]);
    assert a.flights[id := Renamed(bytes)] == t.flights;
    Clears(c, s, id, bytes, k, size);
    Renames(c, a, id, bytes, k, size);
    FairOn(c, s, [ClearTarget(id, map[])], a, [Install(id)], t, k, size);
    assert [ClearTarget(id, map[])] + [Install(id)] == [ClearTarget(id, map[]), Install(id)];
  }

  lemma {:induction false} Scans(c: Config, s: State, id: AdapterId, bytes: nat, k: nat, size: nat)
    requires InPhase(s, id, Renamed(bytes)) && id in s.disk && DirSize(s.disk[id]) == bytes && AtMost(s, k, size)
    ensures var t := s.(flights := s.flights[id := Scanned(bytes, bytes)]);
            Fair(c, s, [ScanInstalled(id)], t, k, size) && AtMost(t, k, size)
  {
    hide Fair, AtMost, DirSize;
    ReservedStep(c, s, ScanInstalled(id), Scanned(bytes, bytes), k, size);
  }

  lemma {:induction false} EntersIndex(c: Config, s: State, id: AdapterId, bytes: nat, k: nat, size: nat)
    requires InPhase(s, id, Scanned(bytes, bytes)) && id !in Ids(s.lru) && AtMost(s, k, size)
    ensures var t := s.(flights := s.flights[id := Ended], lru := [Entry(id, bytes)] + s.lru);
            Fair(c, s, [Index(id)], t, k, size) && AtMost(t, k, size)
  {
    hide Fair, AtMost, Touched;
    TouchedAbsent(s.lru, id, bytes);
    FlightStep(c, s, Index(id), Ended, k, size);
  }

  lemma {:induction false} Leaves(c: Config, s: State, id: AdapterId, k: nat, size: nat)
    requires InPhase(s, id, Ended) && RemoveAll(s.disk, TmpPath(id), map[]) == s.disk && AtMost(s, k, size)
    ensures var t := s.(flights := s.flights - {id});
            Fair(c, s, [Cleanup(id, map[])], t, k, size) && AtMost(t, k, size)
  {
    hide Fair, AtMost, RemoveAll;
    var t := s.(flights := s.flights - {id});
    QuotaEnded(s, t, id, k, size);
    FairOne(c, s, Cleanup(id, map[]), k, size);
  }

  /** From the copy in place to the index. */
  lemma {:induction false} Indexes(c: Config, s: State, id: AdapterId, bytes: nat, k: nat, size: nat) returns (t: State)
    requires InPhase(s, id, Renamed(bytes)) && AtMost(s, k, size) && id !in Ids(s.lru)
    requires id in s.disk && DirSize(s.disk[id]) == bytes && RemoveAll(s.disk, TmpPath(id), map[]) == s.disk
    ensures Fair(c, s, [ScanInstalled(id), Index(id), Cleanup(id, map[])], t, k, size) && AtMost(t, k, size)
    ensures t == s.(flights := s.flights - {id}, lru := [Entry(id, bytes)] + s.lru)
  {
    hide Fair, AtMost, DirSize, RemoveAll, Enabled, Next, Ids, TmpPath;
    var a := s.(flights := s.flights[id := Scanned(bytes, bytes)]);
    var b := s.(flights := s.flights[id := Ended], lru := [Entry(id, bytes)] + s.lru);
    t := s.(flights := s.flights - {id}, lru := [Entry(id, bytes)] + s.lru);
    assert a.flights[id := Ended] == b.flights && b.flights - {id} == t.flights;
    Scans(c, s, id, bytes, k, size);
    EntersIndex(c, a, id, bytes, k, size);
    Leaves(c, b, id, k, size);
    FairOn(c, s, [ScanInstalled(id)], a, [Index(id)], b, k, size);
    FairOn(c, s, [ScanInstalled(id)] + [Index(id)], b, [Cleanup(id, map[])], t, k, size);
    assert [ScanInstalled(id)] + [Index(id)] + [Cleanup(id, map[])] == [ScanInstalled(id), Index(id), Cleanup(id, map[])];
  }

  // ---------------------------------------------------------------------
  // A filled cache
  // ---------------------------------------------------------------------

  /** Exactly the entries of `fill` are cached, and nothing is going on. */
  ghost predicate Shelved(s: State, fill: seq<Entry>) {
    s.lru == fill && s.flights == map[] && s.hits == map[] && s.evicting == multiset{} && s.disk.Keys == Ids(fill)
  }

  lemma {:induction false} ShelvedFresh(c: Config, s: State, fill: seq<Entry>, id: AdapterId)
    requires GoodIds(c.ids) && Shelved(s, fill) && Ids(fill) <= c.ids && id in c.ids && id !in Ids(fill)
    ensures Fresh(c, s, id) && RemoveAll(s.disk, TmpPath(id), map[]) == s.disk
  {
    forall v | v in c.ids ensures v != TmpPath(id) { TmpNotId(c.ids, id, v); }
    RemoveNothing(c, s.disk, TmpPath(id));
  }

  lemma {:induction false} LoadedClears(c: Config, s: State, d: Tree, id: AdapterId)
    requires GoodIds(c.ids) && s.disk.Keys <= Paths(c.ids) && id in c.ids && id !in s.disk && TmpPath(id) in s.disk
    requires d == (s.disk - {TmpPath(id)})[id := s.disk[TmpPath(id)]]
    ensures RemoveAll(s.disk, id, map[]) == s.disk && CanRename(s.disk, TmpPath(id), id)
    ensures TmpPath(id) != id && TmpPath(id) !in d && RemoveAll(d, TmpPath(id), map[]) == d
  {
    TmpNotId(c.ids, id, id);
    RemoveNothing(c, s.disk, id);
    NothingBelow(c, s.disk, id);
    RemoveNothing(c, d, TmpPath(id));
  }

  lemma {:induction false} NothingReserved(s: State, k: nat, size: nat)
    requires s.flights == map[]
    ensures Reserved(s) == map[] && AtMost(s, k, size)
  {
  }

  lemma {:induction false} LoadedReserves(s: State, t: State, id: AdapterId, bytes: nat)
    requires s.flights == map[] && t.flights == s.flights[id := Measured(bytes)]
    ensures Reserved(t) == map[]
  {
  }

  /** One fetch that fits, up to the room it makes. */
  lemma {:induction false} FetchesRoom(c: Config, s: State, fill: seq<Entry>, id: AdapterId, bytes: nat, meta: nat, k: nat, size: nat) returns (t: State)
    requires GoodIds(c.ids) && Shelved(s, fill) && Ids(fill) <= c.ids && id in c.ids && id !in Ids(fill)
    requires meta <= bytes <= size && Total(fill) + bytes <= c.maxSize && k >= 1
    ensures Fair(c, s, Downloading(id, bytes, meta) + [MakeRoom(id)], t, k, size) && AtMost(t, k, size)
    ensures t.lru == fill && t.hits == map[] && t.evicting == multiset{} && t.flights == map[id := Evacuating(bytes, [])]
    ensures t.disk == s.disk[TmpPath(id) := Copy(bytes, meta)]
  {
    ShelvedFresh(c, s, fill, id);
    NothingReserved(s, k, size);
    hide Fair, RemoveAll, Fresh, Copy, TmpPath, GoodIds, Ids, AtMost, Reserved, Total;
    var a := Loads(c, s, id, bytes, meta, k, size);
    LoadedReserves(s, a, id, bytes);
    t := MakesFreeRoom(c, a, id, bytes, k, size);
    assert t.flights == map[id := Evacuating(bytes, [])];
    FairOn(c, s, Downloading(id, bytes, meta), a, [MakeRoom(id)], t, k, size);
  }

  /** And from there to the index. */
  lemma {:induction false} FetchesIn(c: Config, s: State, id: AdapterId, bytes: nat, k: nat, size: nat) returns (t: State)
    requires GoodIds(c.ids) && s.disk.Keys <= Paths(c.ids) && id in c.ids && id !in s.disk && TmpPath(id) in s.disk
    requires s.flights == map[id := Evacuating(bytes, [])] && id !in Ids(s.lru) && AtMost(s, k, size)
    requires DirSize(s.disk[TmpPath(id)]) == bytes
    ensures Fair(c, s, [ClearTarget(id, map[]), Install(id)] + [ScanInstalled(id), Index(id), Cleanup(id, map[])], t, k, size)
    ensures t == s.(flights := map[], lru := [Entry(id, bytes)] + s.lru, disk := (s.disk - {TmpPath(id)})[id := s.disk[TmpPath(id)]])
  {
    hide Fair, AtMost, RemoveAll, CanRename, DirSize, TmpPath, GoodIds, Paths, Ids;
    LoadedClears(c, s, (s.disk - {TmpPath(id)})[id := s.disk[TmpPath(id)]], id);
    var d := Installs(c, s, id, bytes, k, size);
    t := Indexes(c, d, id, bytes, k, size);
    assert d.flights - {id} == map[];
    FairOn(c, s, [ClearTarget(id, map[]), Install(id)], d, [ScanInstalled(id), Index(id), Cleanup(id, map[])], t, k, size);
  }

  /** One fetch that fits, from start to end. */
  lemma {:induction false} Fetches(c: Config, s: State, fill: seq<Entry>, e: Entry, meta: nat, k: nat, size: nat) returns (steps: seq<Step>, t: State)
    requires GoodIds(c.ids) && Shelved(s, fill) && Ids(fill) <= c.ids && e.id in c.ids && e.id !in Ids(fill)
    requires meta <= e.size <= size && Total(fill) + e.size <= c.maxSize && k >= 1
    ensures Fair(c, s, steps, t, k, size) && Shelved(t, [e] + fill) && Has(t.disk, e.id)
  {
    hide *;
    steps, t := FetchesCopy(c, s, fill, e, meta, k, size);
  }

  lemma {:induction false} FetchesCopy(c: Config, s: State, fill: seq<Entry>, e: Entry, meta: nat, k: nat, size: nat) returns (steps: seq<Step>, t: State)
    requires GoodIds(c.ids) && Shelved(s, fill) && Ids(fill) <= c.ids && e.id in c.ids && e.id !in Ids(fill)
    requires meta <= e.size <= size && Total(fill) + e.size <= c.maxSize && k >= 1
    ensures Fair(c, s, steps, t, k, size) && Shelved(t, [e] + fill) && Has(t.disk, e.id) && t.disk[e.id] == Copy(e.size, meta)
  {
    var id, bytes, tmp := e.id, e.size, TmpPath(e.id);
    var first, last := Downloading(id, bytes, meta) + [MakeRoom(id)], [ClearTarget(id, map[]), Install(id)] + [ScanInstalled(id), Index(id), Cleanup(id, map[])];
    FetchedKeys(c, s, fill, id, Copy(bytes, meta));
    CopySize(bytes, meta);
    assert CONFIG in Copy(bytes, meta);
    IdsOfPush(e, fill);
    hide Fair, AtMost, GoodIds, Copy, DirSize, TmpPath, Ids, Paths;
    var b := FetchesRoom(c, s, fill, id, bytes, meta, k, size);
    t := FetchesIn(c, b, id, bytes, k, size);
    FairOn(c, s, first, b, last, t, k, size);
    steps := first + last;
  }

  lemma {:induction false} FetchedKeys(c: Config, s: State, fill: seq<Entry>, id: AdapterId, dir: Dir)
    requires GoodIds(c.ids) && Shelved(s, fill) && Ids(fill) <= c.ids && id in c.ids && id !in Ids(fill)
    ensures var d := s.disk[TmpPath(id) := dir];
            && d.Keys <= Paths(c.ids) && id !in d && TmpPath(id) in d
            && (d - {TmpPath(id)})[id := d[TmpPath(id)]].Keys == Ids(fill) + {id}
  {
    forall v | v in c.ids ensures v != TmpPath(id) { TmpNotId(c.ids, id, v); }
  }

  lemma {:induction false} IdsOfPush(e: Entry, fill: seq<Entry>)
    ensures Ids([e] + fill) == Ids(fill) + {e.id}
  {
    assert forall x :: x in [e] + fill <==> x == e || x in fill;
  }

  /** Fetching the entries one after the other fills the cache with them. */
  lemma {:induction false} Fills(c: Config, fill: seq<Entry>, meta: nat, k: nat, size: nat) returns (steps: seq<Step>, t: State)
    requires GoodIds(c.ids) && Unique(fill) && Ids(fill) <= c.ids && Total(fill) <= c.maxSize && k >= 1
    requires forall e :: e in fill ==> meta <= e.size <= size
    ensures Fair(c, State(map[], [], map[], map[], multiset{}, {}, {}), steps, t, k, size) && Shelved(t, fill)
    decreases |fill|
  {
    if fill == [] {
      steps, t := [], State(map[], [], map[], map[], multiset{}, {}, {});
      assert Reserved(t) == map[];
    } else {
      var rest := fill[1..];
      assert fill == [fill[0]] + rest;
      IdsOfPush(fill[0], rest);
      assert forall i :: 0 <= i < |rest| ==> rest[i] == fill[i + 1];
      assert fill[0].id !in Ids(rest);
      var before, s := Fills(c, rest, meta, k, size);
      var more;
      more, t := Fetches(c, s, rest, fill[0], meta, k, size);
      FairOn(c, State(map[], [], map[], map[], multiset{}, {}, {}), before, s, more, t, k, size);
      steps := before + more;
    }
  }

  // ---------------------------------------------------------------------
  // Overlapping fetches
  // ---------------------------------------------------------------------

  /** The cache holds `fill`, and the adapters `ids` have just been measured. */
  ghost predicate Waiting(s: State, fill: seq<Entry>, ids: seq<AdapterId>, size: nat) {
    && s.lru == fill && s.hits == map[] && s.evicting == multiset{}
    && s.flights == (map id | id in Elements(ids) :: Measured(size))
    && s.disk.Keys == Ids(fill) + set id | id in Elements(ids) :: TmpPath(id)
  }

  lemma {:induction false} WaitingFresh(c: Config, s: State, fill: seq<Entry>, ids: seq<AdapterId>, size: nat, id: AdapterId)
    requires GoodIds(c.ids) && Waiting(s, fill, ids, size) && Ids(fill) <= c.ids && Elements(ids) <= c.ids
    requires id in c.ids && id !in Ids(fill) && id !in ids
    ensures Fresh(c, s, id) && RemoveAll(s.disk, TmpPath(id), map[]) == s.disk
  {
    forall v | v in c.ids ensures v != TmpPath(id) && TmpPath(v) != id { TmpNotId(c.ids, id, v); TmpNotId(c.ids, v, id); }
    RemoveNothing(c, s.disk, TmpPath(id));
  }

  lemma {:induction false} WaitingReserves(s: State, fill: seq<Entry>, ids: seq<AdapterId>, size: nat)
    requires Waiting(s, fill, ids, size)
    ensures Reserved(s) == map[]
  {
  }

  lemma {:induction false} WaitingMore(s: State, t: State, fill: seq<Entry>, ids: seq<AdapterId>, id: AdapterId, size: nat, meta: nat)
    requires Waiting(s, fill, ids, size) && meta <= size && Loaded(s, t, id, size, meta)
    ensures Waiting(t, fill, [id] + ids, size)
  {
    hide Copy, TmpPath;
    assert Elements([id] + ids) == Elements(ids) + {id};
  }

  /** All of `ids` download at the same time. */
  lemma {:induction false} LoadsAll(c: Config, s: State, fill: seq<Entry>, ids: seq<AdapterId>, meta: nat, k: nat, size: nat) returns (steps: seq<Step>, t: State)
    requires GoodIds(c.ids) && Shelved(s, fill) && Ids(fill) <= c.ids && Distinct(ids) && Elements(ids) <= c.ids && Ids(fill) !! Elements(ids)
    requires meta <= size && AtMost(s, k, size)
    ensures Fair(c, s, steps, t, k, size) && Waiting(t, fill, ids, size) && AtMost(t, k, size)
    decreases |ids|
  {
    if ids == [] {
      steps, t := [], s;
      assert s.flights == (map id | id in Elements(ids) :: Measured(size));
    } else {
      var rest := ids[1..];
      assert ids == [ids[0]] + rest;
      assert forall x :: x in rest ==> x in ids;
      assert forall i :: 0 <= i < |rest| ==> rest[i] == ids[i + 1];
      assert ids[0] in Elements(ids) && ids[0] !in rest;
      var before, m := LoadsAll(c, s, fill, rest, meta, k, size);
      WaitingFresh(c, m, fill, rest, size, ids[0]);
      t := Loads(c, m, ids[0], size, meta, k, size);
      WaitingMore(m, t, fill, rest, ids[0], size, meta);
      FairOn(c, s, before, m, Downloading(ids[0], size, meta), t, k, size);
      steps := before + Downloading(ids[0], size, meta);
    }
  }

  /**
   While the index leaves room for one of them, each of any number of overlapping fetches
   finds that room for itself: before any is indexed they hold `|ids| * size` bytes.
   */
  lemma {:induction false} OverlappingFetchesAddUp(c: Config, s: State, ids: seq<AdapterId>, k: nat, size: nat) returns (steps: seq<Step>, t: State)
    requires Total(s.lru) + size <= c.maxSize && Distinct(ids) && AtMost(s, k, size) && |Reserved(s)| + |ids| <= k
    requires forall id :: id in ids ==> InPhase(s, id, Measured(size))
    ensures Fair(c, s, steps, t, k, size)
    ensures Load(t) == Load(s) + Times(|ids|, size)
    decreases |ids|
  {
    if ids == [] {
      steps, t := [], s;
    } else {
      var id, rest := ids[0], ids[1..];
      assert id in ids;
      hide Load, Total, Fair, AtMost, Reserved;
      var m := MakesFreeRoom(c, s, id, size, k, size);
      assert |Reserved(s)[id := size]| == |Reserved(s)| + 1;
      StillMeasured(s, m, ids, size);
      var more;
      more, t := OverlappingFetchesAddUp(c, m, rest, k, size);
      FairOn(c, s, [MakeRoom(id)], m, more, t, k, size);
      steps := [MakeRoom(id)] + more;
    }
  }

  lemma {:induction false} StillMeasured(s: State, m: State, ids: seq<AdapterId>, size: nat)
    requires Distinct(ids) && ids != [] && (forall id :: id in ids ==> InPhase(s, id, Measured(size)))
    requires m.flights == s.flights[ids[0] := Evacuating(size, [])]
    ensures Distinct(ids[1..]) && forall id :: id in ids[1..] ==> InPhase(m, id, Measured(size))
  {
    var rest := ids[1..];
    assert forall i :: 0 <= i < |rest| ==> rest[i] == ids[i + 1];
    forall id | id in rest ensures InPhase(m, id, Measured(size)) {
      assert id in ids && id != ids[0];
    }
  }

  /**
   The capacity bound is reached. For every limit, every number of overlapping fetches,
   every adapter size and every filling that leaves room for one of them, some run from
   an empty cache keeps all premises of `CapacityBound`, has no failing call, and ends
   with `maxSize + (k - 1) * size` bytes.
   */
  lemma {:induction false} CapacityBoundIsReached(c: Config, fill: seq<Entry>, ids: seq<AdapterId>, size: nat, meta: nat)
    returns (ss: seq<State>, steps: seq<Step>)
    requires GoodIds(c.ids) && Unique(fill) && Ids(fill) <= c.ids && Distinct(ids) && Elements(ids) <= c.ids && Ids(fill) !! Elements(ids)
    requires ids != [] && Total(fill) + size == c.maxSize && meta <= size && forall e :: e in fill ==> meta <= e.size <= size
    ensures IsRun(c, ss, steps) && Init(c, ss[0])
    ensures forall j :: 0 <= j < |steps| ==> Smooth(c, ss[j], steps[j]) && Counted(ss[j], steps[j])
    ensures forall j :: 0 <= j <= |steps| ==> AtMost(ss[j], |ids|, size)
    ensures Load(ss[|steps|]) == c.maxSize + (|ids| - 1) * size
  {
    var k, s0 := |ids|, State(map[], [], map[], map[], multiset{}, {}, {});
    var filling, a := Fills(c, fill, meta, k, size);
    assert Reserved(a) == map[];
    var loading, b := LoadsAll(c, a, fill, ids, meta, k, size);
    WaitingReserves(b, fill, ids, size);
    assert forall id :: id in ids ==> InPhase(b, id, Measured(size));
    var rooming, t := OverlappingFetchesAddUp(c, b, ids, k, size);
    assert Load(b) == Total(fill) by { assert SumOf(map[]) == 0; }
    hide Fair, Waiting, Shelved, AtMost, Load;
    FairOn(c, s0, filling, a, loading, b, k, size);
    FairOn(c, s0, filling + loading, b, rooming, t, k, size);
    steps := filling + loading + rooming;
    ss := FairIsRun(c, s0, steps, t, k, size);
    TimesIsProduct(k, size);
    TimesIsProduct(k - 1, size);
  }

  // ---------------------------------------------------------------------
  // An eviction that overtakes a hit
  // ---------------------------------------------------------------------

  /**
   The agreement of index and disk is not kept by all interleavings: for every adapter
   that fits, some run from an empty cache, with no failing call, ends with the adapter
   in the index and not on disk.
   */
  lemma {:induction false} AgreementCanBreak(c: Config, e: Entry) returns (ss: seq<State>, steps: seq<Step>)
    requires GoodIds(c.ids) && e.id in c.ids && e.size <= c.maxSize
    ensures IsRun(c, ss, steps) && Init(c, ss[0])
    ensures forall j :: 0 <= j < |steps| ==> Smooth(c, ss[j], steps[j]) && !steps[j].Crash?
    ensures e.id in Ids(ss[|steps|].lru) && !Has(ss[|steps|].disk, e.id)
  {
    var s0, overtaking := State(map[], [], map[], map[], multiset{}, {}, {}), Overtaking(e.id);
    var fetching, s := Fetches(c, s0, [], e, 0, 1, e.size);
    FetchedBounded(c, s0, fetching, s, e.size);
    hide Fair, Shelved, GoodIds, Bounded, Leads, Smooth;
    FairLeads(c, s0, fetching, s, 1, e.size);
    var t := EvictionOvertakesHit(c, s, e.id);
    LeadsOn(c, s0, fetching, s, overtaking, t);
    steps := fetching + overtaking;
    ss := LeadsIsRun(c, s0, steps, t);
    NoCrashOn(fetching, overtaking);
  }

  lemma {:induction false} NoCrashOn(first: seq<Step>, rest: seq<Step>)
    requires (forall j :: 0 <= j < |first| ==> !first[j].Crash?) && (forall j :: 0 <= j < |rest| ==> !rest[j].Crash?)
    ensures forall j :: 0 <= j < |first + rest| ==> !(first + rest)[j].Crash?
  {
  }

  lemma {:induction false} FetchedBounded(c: Config, s0: State, steps: seq<Step>, t: State, size: nat)
    requires Init(c, s0) && Fair(c, s0, steps, t, 1, size)
    ensures Bounded(c, t) && forall j :: 0 <= j < |steps| ==> !steps[j].Crash?
  {
    hide Fair, Next, Enabled, Smooth, AtMost;
    var ss := FairIsRun(c, s0, steps, t, 1, size);
    InitInv(c, s0);
    RunInv(c, ss, steps, |steps|);
  }

  function Overtaking(id: AdapterId): seq<Step> {
    [CheckHit(id), WeighHit(id), Forget(id), DeleteEvicted(id, map[]), TouchHit(id)]
  }

  // ---------------------------------------------------------------------
  // A revalidation that overtakes a hit
  // ---------------------------------------------------------------------

  /** A revalidation drops the only adapter there is, while a hit of it waits to touch the index. */
  lemma {:induction false} Drops(c: Config, s: State, e: Entry, scan: nat) returns (t: State)
    requires GoodIds(c.ids) && Shelved(s, [e] + []) && e.id in c.ids && Has(s.disk, e.id)
    ensures Leads(c, s.(hits := map[e.id := Weighed(scan)]), [Drop(e.id)] + [DropOld(e.id, map[])], t)
    ensures t == s.(lru := [], disk := map[], flights := map[e.id := Starting], hits := map[e.id := Weighed(scan)])
  {
    var id, looked := e.id, s.(hits := map[e.id := Weighed(scan)]);
    DropsAll(c, s, e);
    hide Leads, Without, RemoveAll, Shelved, Leftover;
    assert s.flights[id := Dropping] == map[id := Dropping] && map[id := Dropping][id := Starting] == map[id := Starting];
    var m := looked.(lru := [], flights := map[id := Dropping]);
    t := looked.(lru := [], disk := map[], flights := map[id := Starting]);
    LeadsOne(c, looked, Drop(id));
    LeadsStep(c, looked, [Drop(id)], m, DropOld(id, map[]));
  }

  lemma {:induction false} DropsAll(c: Config, s: State, e: Entry)
    requires GoodIds(c.ids) && Shelved(s, [e] + []) && e.id in c.ids
    ensures Without(s.lru, e.id) == [] && RemoveAll(s.disk, e.id, map[]) == map[] && s.flights == map[]
  {
    IdsOfPush(e, []);
    assert Ids([]) == {};
    RemoveAllFrame(c, s.disk, e.id, map[]);
  }

  /** The refetch, up to the download. */
  lemma {:induction false} DownloadsAgain(c: Config, s: State, id: AdapterId, bytes: nat) returns (t: State)
    requires GoodIds(c.ids) && id in c.ids && s.disk == map[] && s.flights == map[id := Starting]
    ensures Fair(c, s, [SweepStaging(id, map[])] + [MakeStaging(id, true)] + Downloading(id, bytes, 0)[3..], t, 1, bytes) && AtMost(t, 1, bytes)
    ensures t.lru == s.lru && t.hits == s.hits && t.evicting == s.evicting
    ensures t.flights == map[id := Measured(bytes)] && t.disk == map[TmpPath(id) := Copy(bytes, 0)]
  {
    var tmp := TmpPath(id);
    RemoveNothing(c, s.disk, tmp);
    assert AtMost(s, 1, bytes) by { assert Reserved(s) == map[]; }
    hide Fair, AtMost, RemoveAll, Copy, GoodIds, TmpPath, Downloading, Leftover;
    var a := s.(flights := map[id := Swept]);
    var b := s.(flights := map[id := Fetching], disk := map[tmp := map[]]);
    assert s.flights[id := Swept] == a.flights && a.flights[id := Fetching] == b.flights && b.flights[id := Measured(bytes)] == map[id := Measured(bytes)];
    assert s.disk[tmp := map[]] == b.disk && b.disk[tmp := Copy(bytes, 0)] == map[tmp := Copy(bytes, 0)];
    Sweeps(c, s, id, 1, bytes);
    MakesStaging(c, a, id, 1, bytes);
    t := Downloads(c, b, id, bytes, 0, 1, bytes);
    FairOn(c, s, [SweepStaging(id, map[])], a, [MakeStaging(id, true)], b, 1, bytes);
    FairOn(c, s, [SweepStaging(id, map[])] + [MakeStaging(id, true)], b, Downloading(id, bytes, 0)[3..], t, 1, bytes);
  }

  lemma {:induction false} OnlyStaged(c: Config, id: AdapterId, dir: Dir)
    requires GoodIds(c.ids) && id in c.ids
    ensures var d: Tree := map[TmpPath(id) := dir];
            RemoveAll(d, id, map[]) == d && CanRename(d, TmpPath(id), id) && (d - {TmpPath(id)})[id := dir] == map[id := dir]
  {
    var d: Tree := map[TmpPath(id) := dir];
    TmpNotId(c.ids, id, id);
    RemoveNothing(c, d, id);
    NothingBelow(c, d, id);
    assert d - {TmpPath(id)} == map[];
  }

  lemma {:induction false} MeasuredOnly(s: State, id: AdapterId, bytes: nat)
    requires s.lru == [] && s.flights == map[id := Measured(bytes)]
    ensures Reserved(s) == map[] && Total(s.lru) == 0
  {
  }

  /** From there to the new copy in place. */
  lemma {:induction false} InstallsAgain(c: Config, s: State, id: AdapterId, bytes: nat) returns (t: State)
    requires GoodIds(c.ids) && id in c.ids && s.lru == [] && bytes <= c.maxSize && AtMost(s, 1, bytes)
    requires s.flights == map[id := Measured(bytes)] && s.disk == map[TmpPath(id) := Copy(bytes, 0)]
    ensures Fair(c, s, [MakeRoom(id)] + [ClearTarget(id, map[]), Install(id)], t, 1, bytes)
    ensures t.lru == s.lru && t.hits == s.hits && t.evicting == s.evicting
    ensures t.flights == map[id := Renamed(bytes)] && t.disk == map[id := Copy(bytes, 0)]
  {
    hide Fair, AtMost, RemoveAll, CanRename, Copy, GoodIds, Paths, TmpPath, Reserved, Total;
    OnlyStaged(c, id, Copy(bytes, 0));
    MeasuredOnly(s, id, bytes);
    assert s.flights[id := Evacuating(bytes, [])] == map[id := Evacuating(bytes, [])];
    var b := MakesFreeRoom(c, s, id, bytes, 1, bytes);
    t := Installs(c, b, id, bytes, 1, bytes);
    FairOn(c, s, [MakeRoom(id)], b, [ClearTarget(id, map[]), Install(id)], t, 1, bytes);
  }

  /** The refetch, up to the new copy in place. */
  lemma {:induction false} Refetches(c: Config, s: State, id: AdapterId, bytes: nat) returns (steps: seq<Step>, t: State)
    requires GoodIds(c.ids) && id in c.ids && bytes <= c.maxSize
    requires s.lru == [] && s.disk == map[] && s.flights == map[id := Starting]
    ensures Leads(c, s, steps, t) && t.lru == [] && t.hits == s.hits && t.evicting == s.evicting
    ensures t.flights == map[id := Renamed(bytes)] && t.disk == map[id := Copy(bytes, 0)]
  {
    hide Fair, AtMost, Copy, GoodIds, TmpPath, Leads;
    var first, last := [SweepStaging(id, map[])] + [MakeStaging(id, true)] + Downloading(id, bytes, 0)[3..], [MakeRoom(id)] + [ClearTarget(id, map[]), Install(id)];
    var d := DownloadsAgain(c, s, id, bytes);
    t := InstallsAgain(c, d, id, bytes);
    FairOn(c, s, first, d, last, t, 1, bytes);
    steps := first + last;
    FairLeads(c, s, steps, t, 1, bytes);
  }

  /**
   The recorded size is not kept true by all interleavings: for any two sizes that fit,
   some run from an empty cache, with no failing call and a quiet end, leaves an adapter
   of the second size on disk that the index records with the first.
   */
  lemma {:induction false} SizesCanBreak(c: Config, e: Entry, bytes: nat) returns (ss: seq<State>, steps: seq<Step>)
    requires GoodIds(c.ids) && e.id in c.ids && e.size <= c.maxSize && bytes <= c.maxSize
    ensures IsRun(c, ss, steps) && Init(c, ss[0])
    ensures forall j :: 0 <= j < |steps| ==> Smooth(c, ss[j], steps[j])
    ensures var t := ss[|steps|]; t.lru == [e] && t.disk == map[e.id := Copy(bytes, 0)] && DirSize(t.disk[e.id]) == bytes && IndexOnDisk(t)
  {
    var id, s0 := e.id, State(map[], [], map[], map[], multiset{}, {}, {});
    var fetching, s := FetchesCopy(c, s0, [], e, 0, 1, e.size);
    CopySize(e.size, 0);
    CopySize(bytes, 0);
    FairLeads(c, s0, fetching, s, 1, e.size);
    HitLooks(c, s, id);
    hide Fair, Leads, GoodIds, DirSize, Smooth;
    var looked := s.(hits := s.hits[id := Weighed(e.size)]);
    LeadsOn(c, s0, fetching, s, [CheckHit(id), WeighHit(id)], looked);
    var dropped := Drops(c, s, e, e.size);
    var head := fetching + [CheckHit(id), WeighHit(id)];
    LeadsOn(c, s0, head, looked, [Drop(id)] + [DropOld(id, map[])], dropped);
    var t;
    steps, t := ReturnsStale(c, s0, head + ([Drop(id)] + [DropOld(id, map[])]), dropped, e, bytes);
    ss := LeadsIsRun(c, s0, steps, t);
  }

  lemma {:induction false} ReturnsStale(c: Config, s0: State, head: seq<Step>, s: State, e: Entry, bytes: nat) returns (steps: seq<Step>, t: State)
    requires GoodIds(c.ids) && e.id in c.ids && bytes <= c.maxSize && Leads(c, s0, head, s)
    requires s.lru == [] && s.disk == map[] && s.flights == map[e.id := Starting] && s.hits == map[e.id := Weighed(e.size)] && s.evicting == multiset{}
    ensures Leads(c, s0, steps, t) && t.lru == [e] && t.disk == map[e.id := Copy(bytes, 0)] && IndexOnDisk(t)
  {
    var id := e.id;
    var fetching, m := Refetches(c, s, id, bytes);
    assert Has(m.disk, id) && !Doomed(m, id) && Ids(m.lru) == {} && Covered(m);
    StaleSizeIndexed(c, m, id, bytes, e.size);
    t := m.(lru := [Entry(id, e.size)] + m.lru, hits := m.hits - {id}, flights := m.flights[id := Ended]);
    assert t.lru == [e];
    hide Leads, GoodIds, Doomed, Covered;
    LeadsOn(c, s0, head, s, fetching, m);
    LeadsOn(c, s0, head + fetching, m, [TouchHit(id), ScanInstalled(id), Index(id)], t);
    steps := head + fetching + [TouchHit(id), ScanInstalled(id), Index(id)];
  }
}
