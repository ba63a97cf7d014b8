/**
 The states of the cache machine that calls made one at a time can reach, and what
 each machine step does to such a state, spelled out.
 */
module CacheReached {
  import opened Common
  import opened Lru
  import opened Staging
  import opened Disk
  import opened CacheMachine
  import opened CacheInvariants
  import opened CacheAgreement
  import opened CacheTheorems
  import opened CacheSizes

  /** A run from an empty cache in which every index insertion lands and brings an accurate size. */
  ghost predicate GoodRun(c: Config, ss: seq<State>, steps: seq<Step>) {
    && IsRun(c, ss, steps) && Init(c, ss[0])
    && forall k :: 0 <= k < |steps| ==> Lands(ss[k], steps[k]) && Accurate(c, ss[k], steps[k])
  }

  /** Some such run ends here. */
  ghost predicate Reached(c: Config, s: State) {
    exists ss, steps :: GoodRun(c, ss, steps) && s == ss[|steps|]
  }

  /** The same, without a failing call on an adapter's directory. */
  ghost predicate ReachedSmoothly(c: Config, s: State) {
    exists ss, steps :: GoodRun(c, ss, steps) && s == ss[|steps|] && SmoothRun(c, ss, steps)
  }

  ghost predicate SmoothRun(c: Config, ss: seq<State>, steps: seq<Step>)
    requires IsRun(c, ss, steps)
  {
    forall k :: 0 <= k < |steps| ==> Smooth(c, ss[k], steps[k])
  }

  /** One step of a good run, and where it leads. */
  ghost predicate Takes(c: Config, s: State, step: Step, t: State) {
    Enabled(c, s, step) && Lands(s, step) && Accurate(c, s, step) && t == Next(c, s, step)
  }

  ghost predicate SmoothStep(c: Config, s: State, step: Step) {
    Enabled(c, s, step) && Smooth(c, s, step)
  }

  /** An empty cache is where every run starts. */
  lemma {:induction false} InitReached(c: Config, s: State)
    requires Init(c, s)
    ensures Reached(c, s) && ReachedSmoothly(c, s)
  {
    var none: seq<Step> := [];
    assert GoodRun(c, [s], none) && SmoothRun(c, [s], none);
    assert [s][|none|] == s;
  }

  lemma {:induction false} RunExtends(c: Config, ss: seq<State>, steps: seq<Step>, step: Step)
    requires GoodRun(c, ss, steps) && Enabled(c, ss[|steps|], step) && Lands(ss[|steps|], step) && Accurate(c, ss[|steps|], step)
    ensures GoodRun(c, ss + [Next(c, ss[|steps|], step)], steps + [step])
    ensures SmoothRun(c, ss, steps) && Smooth(c, ss[|steps|], step) ==>
              SmoothRun(c, ss + [Next(c, ss[|steps|], step)], steps + [step])
  {
    hide Next, Enabled, Smooth, Init, Lands, Accurate;
  }

  lemma {:induction false} ReachedStep(c: Config, s: State, step: Step, t: State)
    requires Reached(c, s) && Takes(c, s, step, t)
    ensures Reached(c, t)
  {
    hide Next, Enabled, Lands, Accurate, Init;
    var ss, steps :| GoodRun(c, ss, steps) && s == ss[|steps|];
    RunExtends(c, ss, steps, step);
    var ss', steps' := ss + [t], steps + [step];
    assert ss'[|steps'|] == t;
  }

  lemma {:induction false} ReachedSmoothlyStep(c: Config, s: State, step: Step, t: State)
    requires ReachedSmoothly(c, s) && Takes(c, s, step, t) && SmoothStep(c, s, step)
    ensures ReachedSmoothly(c, t)
  {
    hide Next, Enabled, Lands, Accurate, Smooth, Init;
    var ss, steps :| GoodRun(c, ss, steps) && s == ss[|steps|] && SmoothRun(c, ss, steps);
    RunExtends(c, ss, steps, step);
    var ss', steps' := ss + [t], steps + [step];
    assert ss'[|steps'|] == t;
  }

  /**
   In every state that calls made one at a time can reach, restarts and failures included,
   the index lists only adapters that are on disk and not about to be deleted, and its
   entries cover their bytes on disk.
   */
  lemma {:induction false} ReachedInv(c: Config, s: State)
    requires Reached(c, s)
    ensures Inv(c, s) && Aligned(s) && IndexOnDisk(s) && Covered(s)
    ensures IndexedBytes(s.disk, s.lru) <= Total(s.lru)
  {
    var ss, steps :| GoodRun(c, ss, steps) && s == ss[|steps|];
    InitInv(c, ss[0]);
    IndexAgreesWithDisk(c, ss, steps, |steps|);
    CoveredIffInsertionsAccurate(c, ss, steps, |steps|);
    CounterBoundsDisk(s.disk, s.lru);
  }

  /** What smooth reachability means for a quiet cache: index and disk hold the same adapters. */
  lemma {:induction false} ReachedSmoothlyAgrees(c: Config, s: State)
    requires ReachedSmoothly(c, s)
    ensures Inv(c, s) && AllComplete(c, s) && Tracked(c, s) && Aligned(s)
    ensures Quiet(s) ==> forall id :: id in c.ids ==> (id in Ids(s.lru) <==> Has(s.disk, id))
  {
    var ss, steps :| GoodRun(c, ss, steps) && s == ss[|steps|] && SmoothRun(c, ss, steps);
    InitInv(c, ss[0]);
    assert Aligned(ss[0]) && AllComplete(c, ss[0]) && Tracked(c, ss[0]);
    IndexAgreesWithDisk(c, ss, steps, |steps|);
  }

  /** A restart, whatever was going on before it, is where calls can go on from: a rebuilt index over the disk as it was left. */
  lemma {:induction false} RestartReached(c: Config, s: State, index: seq<Entry>)
    requires Reached(c, s) && Rebuilt(s.disk, index)
    ensures var t := s.(lru := index, flights := map[], hits := map[], evicting := multiset{});
            Reached(c, t) && (ReachedSmoothly(c, s) ==> ReachedSmoothly(c, t)) && Calm(t)
  {
    var t := s.(lru := index, flights := map[], hits := map[], evicting := multiset{});
    assert Takes(c, s, Crash(index), t) && SmoothStep(c, s, Crash(index));
    hide Reached, ReachedSmoothly, Takes, SmoothStep, Rebuilt;
    ReachedStep(c, s, Crash(index), t);
    if ReachedSmoothly(c, s) {
      ReachedSmoothlyStep(c, s, Crash(index), t);
    }
  }

  /** Calls made one at a time leave no delete pending between them. */
  ghost predicate Calm(s: State) {
    s.evicting == multiset{} && forall f :: f in s.flights && s.flights[f].Evacuating? ==> s.flights[f].victims == []
  }

  lemma {:induction false} CalmKept(s: State, t: State, id: AdapterId, p: Phase)
    requires Calm(s) && t.evicting == s.evicting && t.flights == s.flights[id := p] && (p.Evacuating? ==> p.victims == [])
    ensures Calm(t)
  {
  }

  /** A present adapter that nobody is about to delete may enter the index. */
  lemma {:induction false} CalmLands(s: State, id: AdapterId)
    requires Calm(s) && Has(s.disk, id) && (id in s.flights ==> !PreInstall(s.flights[id]))
    ensures !Doomed(s, id)
  {
  }

  ghost predicate SameAt(d: Tree, e: Tree, k: string) {
    (k in d <==> k in e) && (k in d ==> d[k] == e[k])
  }

  // ---------------------------------------------------------------------
  // Fetching
  // ---------------------------------------------------------------------

  lemma {:induction false} TakesBegin(c: Config, s: State, id: AdapterId)
    requires id in c.ids && id !in s.flights && id !in s.hits && !Has(s.disk, id)
    ensures Takes(c, s, Begin(id), s.(flights := s.flights[id := Starting])) && SmoothStep(c, s, Begin(id))
  {
  }

  lemma {:induction false} TakesDrop(c: Config, s: State, id: AdapterId)
    requires id in c.ids && id !in s.flights
    ensures Takes(c, s, Drop(id), s.(lru := Without(s.lru, id), flights := s.flights[id := Dropping])) && SmoothStep(c, s, Drop(id))
  {
    hide Without;
  }

  lemma {:induction false} TakesDropOld(c: Config, s: State, id: AdapterId, left: Tree)
    requires InPhase(s, id, Dropping) && Leftover(s.disk, id, left)
    ensures Takes(c, s, DropOld(id, left), s.(disk := RemoveAll(s.disk, id, left), flights := s.flights[id := Starting]))
    ensures left == map[] ==> SmoothStep(c, s, DropOld(id, left))
  {
    hide RemoveAll, Leftover;
  }

  lemma {:induction false} TakesSweep(c: Config, s: State, id: AdapterId, left: Tree)
    requires InPhase(s, id, Starting) && Leftover(s.disk, TmpPath(id), left)
    ensures Takes(c, s, SweepStaging(id, left), s.(disk := RemoveAll(s.disk, TmpPath(id), left), flights := s.flights[id := Swept]))
    ensures SmoothStep(c, s, SweepStaging(id, left))
  {
    hide RemoveAll, Leftover;
  }

  lemma {:induction false} TakesMakeStaging(c: Config, s: State, id: AdapterId, ok: bool)
    requires InPhase(s, id, Swept)
    ensures Takes(c, s, MakeStaging(id, ok), if ok then s.(disk := Mkdir(s.disk, TmpPath(id)), flights := s.flights[id := Fetching])
                                             else s.(flights := s.flights - {id}))
    ensures SmoothStep(c, s, MakeStaging(id, ok))
  {
  }

  lemma {:induction false} TakesDeliver(c: Config, s: State, id: AdapterId, files: Dir, complete: bool) returns (t: State)
    requires InPhase(s, id, Fetching) && TmpPath(id) in s.disk && (complete ==> CONFIG in files)
    ensures Takes(c, s, Deliver(id, files, complete), t) && SmoothStep(c, s, Deliver(id, files, complete))
    ensures t.lru == s.lru && t.hits == s.hits && t.evicting == s.evicting && t.disk == s.disk[TmpPath(id) := s.disk[TmpPath(id)] + files]
    ensures t.flights == s.flights[id := if complete then Phase.Fetched else Fetching]
  {
    t := Next(c, s, Deliver(id, files, complete));
  }

  lemma {:induction false} TakesWriteMeta(c: Config, s: State, id: AdapterId, meta: Option<File>, ok: bool)
    requires InPhase(s, id, Fetched) && TmpPath(id) in s.disk && (ok ==> meta.Some?)
    ensures Takes(c, s, WriteMeta(id, meta, ok),
                  s.(disk := if meta.Some? then s.disk[TmpPath(id) := s.disk[TmpPath(id)][META := meta.value]] else s.disk,
                     flights := s.flights[id := if ok then Stamped else Ended]))
    ensures SmoothStep(c, s, WriteMeta(id, meta, ok))
  {
  }

  lemma {:induction false} TakesMeasure(c: Config, s: State, id: AdapterId)
    requires InPhase(s, id, Stamped) && TmpPath(id) in s.disk
    ensures Takes(c, s, Measure(id), s.(flights := s.flights[id := Measured(DirSize(s.disk[TmpPath(id)]))])) && SmoothStep(c, s, Measure(id))
  {
    hide DirSize;
  }

  lemma {:induction false} TakesMakeRoom(c: Config, s: State, id: AdapterId, size: nat)
    requires InPhase(s, id, Measured(size))
    ensures Takes(c, s, MakeRoom(id), s.(lru := s.lru[..Kept(s.lru, size, c.maxSize)],
                                         flights := s.flights[id := Evacuating(size, Victims(c, s, size))]))
    ensures SmoothStep(c, s, MakeRoom(id))
  {
    hide Kept, Victims;
  }

  lemma {:induction false} TakesDeleteVictim(c: Config, s: State, id: AdapterId, size: nat, victims: seq<AdapterId>, left: Tree)
    requires InPhase(s, id, Evacuating(size, victims)) && victims != [] && Leftover(s.disk, victims[0], left)
    ensures Takes(c, s, DeleteVictim(id, left), s.(disk := RemoveAll(s.disk, victims[0], left),
                                                   flights := s.flights[id := if left == map[] then Evacuating(size, victims[1..]) else Ended]))
    ensures left == map[] ==> SmoothStep(c, s, DeleteVictim(id, left))
  {
    hide RemoveAll, Leftover;
  }

  lemma {:induction false} ClearFrame(c: Config, s: State, id: AdapterId, left: Tree)
    requires Reached(c, s) && id in s.flights && Holding(s.flights[id]) && Leftover(s.disk, id, left)
    ensures var e := RemoveAll(s.disk, id, left);
            && SameAt(s.disk, e, TmpPath(id)) && SameBut(s.disk, e, {id}) && e.Keys <= s.disk.Keys
            && (CanRename(e, TmpPath(id), id) <==> !LeavesFile(left, id))
  {
    ReachedInv(c, s);
    RemoveAllFrame(c, s.disk, id, left);
    HoldingApart(c, s, id);
    hide RemoveAll, Aligned, StagingComplete, OwnFilesOnly;
    var e := RemoveAll(s.disk, id, left);
    forall k | k in e && Under(id, k) ensures k == id {
      PathsApart(c.ids, id, k);
    }
  }

  lemma {:induction false} TakesClear(c: Config, s: State, id: AdapterId, size: nat, left: Tree)
    requires InPhase(s, id, Evacuating(size, [])) && Leftover(s.disk, id, left)
    ensures Takes(c, s, ClearTarget(id, left), s.(disk := RemoveAll(s.disk, id, left), flights := s.flights[id := Cleared(size)]))
    ensures left == map[] ==> SmoothStep(c, s, ClearTarget(id, left))
  {
    hide RemoveAll, Leftover;
  }

  lemma {:induction false} InstalledHas(c: Config, s: State, id: AdapterId)
    requires Reached(c, s) && id in s.flights && s.flights[id].Cleared? && CanRename(s.disk, TmpPath(id), id)
    ensures Has(Rename(s.disk, TmpPath(id), id), id)
  {
    ReachedInv(c, s);
    InstallFlight(c, s, Install(id));
  }

  lemma {:induction false} TakesInstall(c: Config, s: State, id: AdapterId, size: nat)
    requires InPhase(s, id, Cleared(size)) && CanRename(s.disk, TmpPath(id), id)
    ensures Takes(c, s, Install(id), s.(disk := Rename(s.disk, TmpPath(id), id), flights := s.flights[id := Renamed(size)]))
    ensures SmoothStep(c, s, Install(id))
  {
    hide CanRename;
  }

  lemma {:induction false} TakesScan(c: Config, s: State, id: AdapterId, size: nat)
    requires InPhase(s, id, Renamed(size)) && id in s.disk
    ensures Takes(c, s, ScanInstalled(id), s.(flights := s.flights[id := Scanned(size, DirSize(s.disk[id]))])) && SmoothStep(c, s, ScanInstalled(id))
  {
    hide DirSize;
  }

  lemma {:induction false} TakesIndex(c: Config, s: State, id: AdapterId, size: nat, scan: nat)
    requires InPhase(s, id, Scanned(size, scan)) && Has(s.disk, id) && !Doomed(s, id) && scan == DirSize(s.disk[id])
    ensures Takes(c, s, Index(id), s.(lru := Touched(s.lru, id, scan), flights := s.flights[id := Ended])) && SmoothStep(c, s, Index(id))
  {
    BytesWithin(s.disk[id]);
    hide Touched, Doomed, DirSize, Bytes;
  }

  lemma {:induction false} TakesAbort(c: Config, s: State, id: AdapterId)
    requires id in s.flights && (s.flights[id].Fetching? || s.flights[id].Stamped? || s.flights[id].Cleared? || s.flights[id].Renamed?)
    ensures Takes(c, s, Abort(id), s.(flights := s.flights[id := Ended]))
    ensures (s.flights[id].Renamed? ==> id !in s.disk) ==> SmoothStep(c, s, Abort(id))
  {
  }

  lemma {:induction false} StagingFrame(c: Config, s: State, id: AdapterId, left: Tree)
    requires Reached(c, s) && id in s.flights && Leftover(s.disk, TmpPath(id), left)
    ensures var e := RemoveAll(s.disk, TmpPath(id), left);
            SameBut(s.disk, e, {TmpPath(id)}) && e.Keys <= s.disk.Keys && (left == map[] ==> TmpPath(id) !in e)
  {
    ReachedInv(c, s);
    RemoveAllFrame(c, s.disk, TmpPath(id), left);
  }

  lemma {:induction false} TakesCleanup(c: Config, s: State, id: AdapterId, left: Tree)
    requires InPhase(s, id, Ended) && Leftover(s.disk, TmpPath(id), left)
    ensures Takes(c, s, Cleanup(id, left), s.(disk := RemoveAll(s.disk, TmpPath(id), left), flights := s.flights - {id}))
    ensures SmoothStep(c, s, Cleanup(id, left))
  {
    hide RemoveAll, Leftover;
  }

  lemma {:induction false} HoldingApart(c: Config, s: State, id: AdapterId)
    requires Reached(c, s) && id in s.flights && (s.flights[id].Fetching? || Holding(s.flights[id]))
    ensures id in c.ids && TmpPath(id) in s.disk && TmpPath(id) != id && id !in Ids(s.lru)
  {
    ReachedInv(c, s);
    TmpNotId(c.ids, id, id);
  }

  // ---------------------------------------------------------------------
  // Hits, evictions, refreshes
  // ---------------------------------------------------------------------

  lemma {:induction false} TakesCheck(c: Config, s: State, id: AdapterId)
    requires id in c.ids && id !in s.flights && id !in s.hits && Has(s.disk, id)
    ensures Takes(c, s, CheckHit(id), s.(hits := s.hits[id := Found])) && SmoothStep(c, s, CheckHit(id))
  {
  }

  lemma {:induction false} TakesWeigh(c: Config, s: State, id: AdapterId)
    requires id in s.hits && s.hits[id] == Found && id in s.disk
    ensures Takes(c, s, WeighHit(id), s.(hits := s.hits[id := Weighed(DirSize(s.disk[id]))])) && SmoothStep(c, s, WeighHit(id))
  {
    hide DirSize;
  }

  lemma {:induction false} TakesTouch(c: Config, s: State, id: AdapterId, scan: nat)
    requires id in s.hits && s.hits[id] == Weighed(scan) && Has(s.disk, id) && !Doomed(s, id) && scan == DirSize(s.disk[id])
    ensures Takes(c, s, TouchHit(id), s.(lru := Touched(s.lru, id, scan), hits := s.hits - {id})) && SmoothStep(c, s, TouchHit(id))
  {
    BytesWithin(s.disk[id]);
    hide Touched, Doomed, DirSize, Bytes;
  }

  lemma {:induction false} TakesForget(c: Config, s: State, id: AdapterId)
    requires id in c.ids
    ensures Takes(c, s, Forget(id), s.(lru := Without(s.lru, id), evicting := s.evicting + multiset{id})) && SmoothStep(c, s, Forget(id))
  {
    hide Without;
  }

  lemma {:induction false} TakesDeleteEvicted(c: Config, s: State, id: AdapterId, left: Tree)
    requires id in s.evicting && Leftover(s.disk, id, left)
    ensures Takes(c, s, DeleteEvicted(id, left), s.(disk := RemoveAll(s.disk, id, left), evicting := s.evicting - multiset{id}))
    ensures left == map[] ==> SmoothStep(c, s, DeleteEvicted(id, left))
  {
    hide RemoveAll, Leftover;
  }

  lemma {:induction false} TakesRefresh(c: Config, s: State, id: AdapterId, stamp: File)
    requires id in c.ids && id !in s.flights && id in s.disk
    ensures Takes(c, s, RefreshMeta(id, stamp), s.(disk := s.disk[id := s.disk[id][META := stamp]])) && SmoothStep(c, s, RefreshMeta(id, stamp))
  {
  }

  /** Forgetting and deleting an adapter. */
  lemma {:induction false} RemovedFrame(c: Config, s: State, id: AdapterId, left: Tree)
    requires Reached(c, s) && id in c.ids && Leftover(s.disk, id, left)
    ensures id !in Ids(Without(s.lru, id))
    ensures left == map[] ==> id !in RemoveAll(s.disk, id, left)
    ensures var e := RemoveAll(s.disk, id, left);
            SameBut(s.disk, e, {id}) && (id in e ==> id in s.disk && Within(e[id], s.disk[id]))
  {
    ReachedInv(c, s);
    WithoutIds(s.lru, id);
    RemoveAllFrame(c, s.disk, id, left);
  }

  // ---------------------------------------------------------------------
  // The deletes of a room-making
  // ---------------------------------------------------------------------

  lemma {:induction false} VictimsKnown(c: Config, s: State, size: nat, lefts: map<string, Tree>)
    requires Reached(c, s) && forall v :: v in lefts ==> Leftover(s.disk, v, lefts[v])
    ensures var victims := Victims(c, s, size);
            Distinct(victims) && forall v :: v in victims ==> v in c.ids && Leftover(s.disk, v, LeftOf(lefts, v))
  {
    ReachedInv(c, s);
    VictimsLeave(c, s, size);
    var victims := Victims(c, s, size);
    forall v | v in victims ensures v in c.ids && Leftover(s.disk, v, LeftOf(lefts, v)) {
      assert v in Elements(victims);
    }
  }

  /** After the first delete the leftovers still fit the disk. */
  lemma {:induction false} VictimsRest(c: Config, s: State, victims: seq<AdapterId>, lefts: map<string, Tree>)
    requires Reached(c, s) && victims != [] && Distinct(victims)
    requires forall v :: v in victims ==> v in c.ids && Leftover(s.disk, v, LeftOf(lefts, v))
    ensures Distinct(victims[1..])
    ensures LeftOf(lefts, victims[0]) == map[] ==>
              forall v :: v in victims[1..] ==> v in c.ids && Leftover(RemoveAll(s.disk, victims[0], map[]), v, LeftOf(lefts, v))
  {
    ReachedInv(c, s);
    assert forall i :: 0 <= i < |victims[1..]| ==> victims[1..][i] == victims[i + 1];
    assert victims[0] in victims;
    forall v | v in victims[1..] ensures v in c.ids && Leftover(RemoveAll(s.disk, victims[0], map[]), v, LeftOf(lefts, v)) {
      assert v in victims && v != victims[0];
      SweepLeftover(c, s.disk, victims[0], v, LeftOf(lefts, v));
    }
  }

  lemma {:induction false} CleanRest(victims: seq<AdapterId>, lefts: map<string, Tree>)
    requires victims != []
    ensures Clean(victims, lefts) <==> LeftOf(lefts, victims[0]) == map[] && Clean(victims[1..], lefts)
  {
    assert forall v :: v in victims <==> v == victims[0] || v in victims[1..];
  }

  /** The deletes one after the other are a run of the machine; it ends where the sweep ends. */
  lemma {:induction false} VictimsDeleted(c: Config, s: State, id: AdapterId, size: nat, victims: seq<AdapterId>, lefts: map<string, Tree>)
    requires Reached(c, s) && InPhase(s, id, Evacuating(size, victims)) && Distinct(victims)
    requires forall v :: v in victims ==> v in c.ids && Leftover(s.disk, v, LeftOf(lefts, v))
    ensures var t := s.(disk := Sweep(s.disk, victims, lefts),
                        flights := s.flights[id := if Clean(victims, lefts) then Evacuating(size, []) else Ended]);
            Reached(c, t) && (ReachedSmoothly(c, s) && Clean(victims, lefts) ==> ReachedSmoothly(c, t))
    decreases |victims|
  {
    hide Reached, ReachedSmoothly, Takes, SmoothStep, Leftover, RemoveAll, Clean;
    if victims == [] {
      assert Clean(victims, lefts) by { EmptyClean(lefts); }
      assert s.flights[id := Evacuating(size, [])] == s.flights;
    } else {
      var left := LeftOf(lefts, victims[0]);
      assert victims[0] in victims;
      VictimsRest(c, s, victims, lefts);
      CleanRest(victims, lefts);
      TakesDeleteVictim(c, s, id, size, victims, left);
      var m := s.(disk := RemoveAll(s.disk, victims[0], left),
                  flights := s.flights[id := if left == map[] then Evacuating(size, victims[1..]) else Ended]);
      ReachedStep(c, s, DeleteVictim(id, left), m);
      if left == map[] {
        if ReachedSmoothly(c, s) {
          ReachedSmoothlyStep(c, s, DeleteVictim(id, left), m);
        }
        VictimsDeleted(c, m, id, size, victims[1..], lefts);
        var p := if Clean(victims, lefts) then Evacuating(size, []) else Ended;
        assert m.flights[id := p] == s.flights[id := p];
      }
    }
  }

  lemma {:induction false} EmptyClean(lefts: map<string, Tree>)
    ensures Clean([], lefts)
  {
  }

  // ---------------------------------------------------------------------
  // Several steps of one call
  // ---------------------------------------------------------------------

  /** `t` is reached if `s` is, and without failing calls if `s` is and `smooth` says so. */
  ghost predicate Follows(c: Config, s: State, t: State, smooth: bool) {
    (Reached(c, s) ==> Reached(c, t)) && (ReachedSmoothly(c, s) && smooth ==> ReachedSmoothly(c, t))
  }

  lemma {:induction false} FollowsStep(c: Config, s: State, step: Step, t: State)
    requires Takes(c, s, step, t)
    ensures Follows(c, s, t, SmoothStep(c, s, step))
  {
    hide Reached, ReachedSmoothly, Takes, SmoothStep;
    if Reached(c, s) {
      ReachedStep(c, s, step, t);
    }
    if ReachedSmoothly(c, s) && SmoothStep(c, s, step) {
      ReachedSmoothlyStep(c, s, step, t);
    }
  }

  /** A hit whose scan succeeds and that nothing overtakes. */
  lemma {:induction false} HitFollows(c: Config, s: State, id: AdapterId, n: nat)
    requires Calm(s) && id in c.ids && id !in s.flights && id !in s.hits && Has(s.disk, id) && n == DirSize(s.disk[id])
    ensures Follows(c, s, s.(lru := Touched(s.lru, id, n)), true)
  {
    hide Reached, ReachedSmoothly, Takes, SmoothStep, DirSize, Touched, Has;
    var a := s.(hits := s.hits[id := Found]);
    var b := s.(hits := s.hits[id := Weighed(n)]);
    assert a.hits[id := Weighed(n)] == b.hits && b.hits - {id} == s.hits;
    TakesCheck(c, s, id);
    FollowsStep(c, s, CheckHit(id), a);
    assert id in a.disk by { HasIsThere(a.disk, id); }
    TakesWeigh(c, a, id);
    FollowsStep(c, a, WeighHit(id), b);
    CalmLands(b, id);
    TakesTouch(c, b, id, n);
    FollowsStep(c, b, TouchHit(id), s.(lru := Touched(s.lru, id, n)));
  }

  lemma {:induction false} HasIsThere(d: Tree, id: AdapterId)
    requires Has(d, id)
    ensures id in d
  {
  }

  /** Scanning and indexing what was just installed. */
  lemma {:induction false} IndexFollows(c: Config, s: State, id: AdapterId, size: nat, n: nat)
    requires Calm(s) && InPhase(s, id, Renamed(size)) && Has(s.disk, id) && n == DirSize(s.disk[id])
    ensures Follows(c, s, s.(lru := Touched(s.lru, id, n), flights := s.flights[id := Ended]), true)
  {
    hide Reached, ReachedSmoothly, Takes, SmoothStep, DirSize, Touched;
    var a := s.(flights := s.flights[id := Scanned(size, n)]);
    assert a.flights[id := Ended] == s.flights[id := Ended];
    TakesScan(c, s, id, size);
    FollowsStep(c, s, ScanInstalled(id), a);
    CalmLands(a, id);
    TakesIndex(c, a, id, size, n);
    FollowsStep(c, a, Index(id), s.(lru := Touched(s.lru, id, n), flights := s.flights[id := Ended]));
  }

  /** An eviction. */
  lemma {:induction false} EvictFollows(c: Config, s: State, id: AdapterId, left: Tree)
    requires Calm(s) && id in c.ids && Leftover(s.disk, id, left)
    ensures Follows(c, s, s.(lru := Without(s.lru, id), disk := RemoveAll(s.disk, id, left)), left == map[])
  {
    hide Reached, ReachedSmoothly, Takes, SmoothStep, Without, RemoveAll, Leftover;
    var a := s.(lru := Without(s.lru, id), evicting := s.evicting + multiset{id});
    assert a.evicting - multiset{id} == s.evicting;
    TakesForget(c, s, id);
    FollowsStep(c, s, Forget(id), a);
    TakesDeleteEvicted(c, a, id, left);
    FollowsStep(c, a, DeleteEvicted(id, left), s.(lru := Without(s.lru, id), disk := RemoveAll(s.disk, id, left)));
  }

  /** A revalidation dropping the old copy. */
  lemma {:induction false} DropFollows(c: Config, s: State, id: AdapterId, left: Tree)
    requires id in c.ids && id !in s.flights && Leftover(s.disk, id, left)
    ensures Follows(c, s, s.(lru := Without(s.lru, id), disk := RemoveAll(s.disk, id, left), flights := s.flights[id := Starting]), left == map[])
  {
    hide Reached, ReachedSmoothly, Takes, SmoothStep, Without, RemoveAll, Leftover;
    var a := s.(lru := Without(s.lru, id), flights := s.flights[id := Dropping]);
    assert a.flights[id := Starting] == s.flights[id := Starting];
    TakesDrop(c, s, id);
    FollowsStep(c, s, Drop(id), a);
    TakesDropOld(c, a, id, left);
    FollowsStep(c, a, DropOld(id, left), a.(disk := RemoveAll(s.disk, id, left), flights := s.flights[id := Starting]));
  }

  /** Room-making, deletes included. */
  lemma {:induction false} RoomFollows(c: Config, s: State, id: AdapterId, size: nat, lefts: map<string, Tree>)
    requires Reached(c, s) && InPhase(s, id, Measured(size)) && forall v :: v in lefts ==> Leftover(s.disk, v, lefts[v])
    ensures var victims := Victims(c, s, size);
            Follows(c, s, s.(lru := s.lru[..Kept(s.lru, size, c.maxSize)], disk := Sweep(s.disk, victims, lefts),
                             flights := s.flights[id := if Clean(victims, lefts) then Evacuating(size, []) else Ended]),
                    Clean(victims, lefts))
  {
    var victims := Victims(c, s, size);
    VictimsKnown(c, s, size, lefts);
    hide Reached, ReachedSmoothly, Takes, SmoothStep, Kept, Leftover, Sweep, Clean, Victims;
    var a := s.(lru := s.lru[..Kept(s.lru, size, c.maxSize)], flights := s.flights[id := Evacuating(size, victims)]);
    var p := if Clean(victims, lefts) then Evacuating(size, []) else Ended;
    assert a.flights[id := p] == s.flights[id := p];
    TakesMakeRoom(c, s, id, size);
    FollowsStep(c, s, MakeRoom(id), a);
    VictimsDeleted(c, a, id, size, victims, lefts);
  }
}
