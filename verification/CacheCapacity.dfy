/**
 How many bytes the cache can hold while fetches overlap
 (internal/cache/manager.go, store.go, lru.go).
 */
module CacheCapacity {
  import opened Lru
  import opened Staging
  import opened Disk
  import opened CacheMachine
  import opened CacheInvariants
  import opened CacheAgreement
  import opened CacheTheorems

  /** Room was made for the adapter, and the index does not count it yet. */
  ghost predicate Reserving(p: Phase) {
    p.Evacuating? || p.Cleared? || p.Renamed? || p.Scanned?
  }

  ghost function Reserved(s: State): map<AdapterId, nat> {
    map id | id in s.flights && Reserving(s.flights[id]) :: s.flights[id].size
  }

  /** Indexed bytes plus bytes in flight between making room and indexing. */
  ghost function Load(s: State): nat {
    Total(s.lru) + SumOf(Reserved(s))
  }

  /**
   A measured size is the size of the staging directory; what is installed can only
   shrink until it is indexed, when a failing delete takes part of it away.
   */
  ghost predicate SizesTrue(s: State) {
    forall id :: id in s.flights ==> SizeTrue(s, id, s.flights[id])
  }

  ghost predicate SizeTrue(s: State, id: AdapterId, p: Phase) {
    && (p.Measured? || p.Evacuating? || p.Cleared? ==> TmpPath(id) in s.disk && DirSize(s.disk[TmpPath(id)]) == p.size)
    && (p.Renamed? && id in s.disk ==> DirSize(s.disk[id]) <= p.size)
    && (p.Scanned? ==> p.scan <= p.size)
  }

  /** At most `k` adapters are between making room and indexing, and none being fetched is larger than `size`. */
  ghost predicate AtMost(s: State, k: nat, size: nat) {
    && |Reserved(s)| <= k
    && forall id :: id in s.flights && (s.flights[id].Measured? || Reserving(s.flights[id])) ==> s.flights[id].size <= size
  }

  /** The runs the bound is about: no crash, and a hit only re-touches an adapter the index knows. */
  ghost predicate Counted(s: State, step: Step) {
    !step.Crash? && (step.TouchHit? ==> step.id in Ids(s.lru))
  }

  // ---------------------------------------------------------------------
  // Sizes
  // ---------------------------------------------------------------------

  lemma {:induction false} WithinSize(part: Dir, whole: Dir)
    requires Within(part, whole)
    ensures DirSize(part) <= DirSize(whole)
  {
    SumMonotone(Sizes(part), Sizes(whole));
  }

  /** An installed adapter that awaits its indexing can only lose files. */
  lemma {:induction false} InstalledShrinks(c: Config, s: State, step: Step, id: AdapterId)
    requires Bounded(c, s) && Enabled(c, s, step) && !step.Crash? && id in s.flights && s.flights[id].Renamed?
    requires id in Next(c, s, step).disk
    ensures id in s.disk && Within(Next(c, s, step).disk[id], s.disk[id])
  {
    if Deletes(step) {
      DeleteEffect(c, s, step);
      hide Next, Enabled, Bounded, RemoveAll, Leftover;
      if id != Target(c, s, step) {
        SameThere(s.disk, Next(c, s, step).disk, {Target(c, s, step)}, id);
      }
    } else {
      StepActor(c, s, step);
      TmpNotId(c.ids, step.id, id);
      StepDisk(c, s, step);
      NotTouched(c, s, step, id);
      hide Next, Enabled, Touches, SameBut, Bounded;
      SameThere(s.disk, Next(c, s, step).disk, Touches(c, s, step), id);
    }
  }

  lemma {:induction false} NotTouched(c: Config, s: State, step: Step, id: AdapterId)
    requires Enabled(c, s, step) && !step.Crash? && id in s.flights && s.flights[id].Renamed? && !Deletes(step) && TmpPath(step.id) != id
    ensures id !in Touches(c, s, step)
  {
    hide Has, Leftover, Rebuilt, CanRename;
  }

  lemma {:induction false} SameThere(d: Tree, e: Tree, ps: set<string>, id: string)
    requires SameBut(d, e, ps) && id !in ps && id in e
    ensures id in d && Within(e[id], d[id])
  {
  }

  /** A flight that the step leaves in its phase keeps its size true. */
  lemma {:induction false} SizeFramed(c: Config, s: State, step: Step, id: AdapterId)
    requires Bounded(c, s) && Enabled(c, s, step) && !step.Crash? && id in s.flights && id in Next(c, s, step).flights
    requires Next(c, s, step).flights[id] == s.flights[id] && SizeTrue(s, id, s.flights[id])
    requires TmpPath(id) !in Touches(c, s, step)
    ensures SizeTrue(Next(c, s, step), id, s.flights[id])
  {
    StepDisk(c, s, step);
    var t := Next(c, s, step);
    if s.flights[id].Renamed? && id in t.disk {
      InstalledShrinks(c, s, step, id);
      WithinSize(t.disk[id], s.disk[id]);
    }
    hide Next, Enabled, Touches, Bounded;
  }

  lemma {:induction false} InstalledSize(c: Config, s: State, step: Step)
    requires Inv(c, s) && Enabled(c, s, step) && step.Install? && SizeTrue(s, step.id, s.flights[step.id])
    ensures SizeTrue(Next(c, s, step), step.id, Next(c, s, step).flights[step.id])
  {
    TmpNotId(c.ids, step.id, step.id);
  }

  lemma {:induction false} ScannedSize(c: Config, s: State, step: Step)
    requires Enabled(c, s, step) && step.ScanInstalled? && SizeTrue(s, step.id, s.flights[step.id])
    ensures SizeTrue(Next(c, s, step), step.id, Next(c, s, step).flights[step.id])
  {
  }

  lemma {:induction false} EvacuatedSize(c: Config, s: State, step: Step)
    requires Inv(c, s) && Enabled(c, s, step) && (step.MakeRoom? || step.DeleteVictim? || step.ClearTarget?)
    requires SizeTrue(s, step.id, s.flights[step.id])
    ensures SizeTrue(Next(c, s, step), step.id, Next(c, s, step).flights[step.id])
  {
    hide SizeTrue, Touches, Leftover, RemoveAll, Kept, Victims, StagingComplete, OwnFilesOnly;
    StagingSpared(c, s, step, step.id);
    StepDisk(c, s, step);
    EvacuatedPhase(c, s, step);
    SizeCarries(s, Next(c, s, step), step.id, s.flights[step.id], Next(c, s, step).flights[step.id], Touches(c, s, step));
  }

  lemma {:induction false} SizeCarries(s: State, t: State, id: AdapterId, q: Phase, p: Phase, ps: set<string>)
    requires SizeTrue(s, id, q) && (q.Measured? || q.Evacuating?) && SameBut(s.disk, t.disk, ps) && TmpPath(id) !in ps
    requires p.Ended? || ((p.Evacuating? || p.Cleared?) && p.size == q.size)
    ensures SizeTrue(t, id, p)
  {
  }

  lemma {:induction false} EvacuatedPhase(c: Config, s: State, step: Step)
    requires Enabled(c, s, step) && (step.MakeRoom? || step.DeleteVictim? || step.ClearTarget?)
    ensures var q, p := s.flights[step.id], Next(c, s, step).flights[step.id];
            && (q.Measured? || q.Evacuating?)
            && (p.Ended? || ((p.Evacuating? || p.Cleared?) && p.size == q.size))
  {
  }

  /** The steps of its own flight that change a phase with a size. */
  ghost predicate Sizing(step: Step) {
    step.Install? || step.ScanInstalled? || step.MakeRoom? || step.DeleteVictim? || step.ClearTarget?
  }

  lemma {:induction false} SizelessOrSame(c: Config, s: State, step: Step)
    requires Bounded(c, s) && Enabled(c, s, step) && !step.Crash? && step.id in Next(c, s, step).flights && !Sizing(step) && !step.Measure?
    ensures var p := Next(c, s, step).flights[step.id];
            (!p.Measured? && !p.Evacuating? && !p.Cleared? && !p.Renamed? && !p.Scanned?)
            || (step.id in s.flights && s.flights[step.id] == p && !Stages(step))
  {
    hide Bounded, Has, Leftover, Rebuilt, CanRename, RemoveAll, Touched, Without, Kept, Victims, Tagged;
  }

  lemma {:induction false} OwnSize(c: Config, s: State, step: Step)
    requires Inv(c, s) && Enabled(c, s, step) && !step.Crash? && SizesTrue(s) && step.id in Next(c, s, step).flights
    ensures SizeTrue(Next(c, s, step), step.id, Next(c, s, step).flights[step.id])
  {
    if Sizing(step) {
      assert SizeTrue(s, step.id, s.flights[step.id]);
      if step.Install? {
        InstalledSize(c, s, step);
      } else if step.ScanInstalled? {
        ScannedSize(c, s, step);
      } else {
        EvacuatedSize(c, s, step);
      }
    } else if step.Measure? {
    } else {
      StepActor(c, s, step);
      SizelessOrSame(c, s, step);
      if step.id in s.flights && s.flights[step.id] == Next(c, s, step).flights[step.id] && !Stages(step) {
        StagingSpared(c, s, step, step.id);
        SizeFramed(c, s, step, step.id);
      }
      hide Next, Enabled, Inv;
    }
  }

  lemma {:induction false} StepSizes(c: Config, s: State, step: Step)
    requires Inv(c, s) && Enabled(c, s, step) && !step.Crash? && SizesTrue(s)
    ensures SizesTrue(Next(c, s, step))
  {
    var t := Next(c, s, step);
    StepBounded(c, s, step);
    forall id | id in t.flights ensures SizeTrue(t, id, t.flights[id]) {
      if id == step.id {
        OwnSize(c, s, step);
      } else {
        StepOthers(c, s, step, id);
        SizeFramed(c, s, step, id);
      }
    }
  }

  // ---------------------------------------------------------------------
  // The bound
  // ---------------------------------------------------------------------

  lemma {:induction false} RoomReserves(c: Config, s: State, id: AdapterId)
    requires Enabled(c, s, MakeRoom(id))
    ensures Reserved(Next(c, s, MakeRoom(id))) == Reserved(s)[id := s.flights[id].size] && id !in Reserved(s)
  {
  }

  lemma {:induction false} RoomFits(s: seq<Entry>, n: nat, maxSize: int)
    requires n <= maxSize
    ensures Total(s[..Kept(s, n, maxSize)]) + n <= maxSize
  {
    KeptIsLongestFit(s, n, maxSize);
  }

  /** Making room counts the newcomer only once it fits beside the index. */
  lemma {:induction false} RoomLoad(c: Config, s: State, id: AdapterId, k: nat, size: nat)
    requires Enabled(c, s, MakeRoom(id))
    requires AtMost(s, k + 1, size) && AtMost(Next(c, s, MakeRoom(id)), k + 1, size) && size <= c.maxSize
    ensures Load(Next(c, s, MakeRoom(id))) <= c.maxSize + Times(k, size)
  {
    var n, before := s.flights[id].size, Reserved(s);
    RoomFits(s.lru, n, c.maxSize);
    RoomReserves(c, s, id);
    SumInsert(before, id, n);
    assert |before[id := n]| == |before| + 1;
    assert forall id :: id in before ==> before[id] <= size;
    SumBound(before, k, size);
  }

  lemma {:induction false} IndexReleases(c: Config, s: State, id: AdapterId)
    requires Enabled(c, s, Index(id))
    ensures Reserved(Next(c, s, Index(id))) == Reserved(s) - {id}
    ensures id in Reserved(s) && Reserved(s)[id] == s.flights[id].size
  {
  }

  /** Indexing moves bytes from the reservation to the index. */
  lemma {:induction false} IndexLoad(c: Config, s: State, id: AdapterId)
    requires Inv(c, s) && Enabled(c, s, Index(id)) && SizesTrue(s)
    ensures Load(Next(c, s, Index(id))) <= Load(s)
  {
    assert SizeTrue(s, id, s.flights[id]);
    TouchedTotal(s.lru, id, s.flights[id].scan);
    IndexReleases(c, s, id);
    SumRemove(Reserved(s), id);
  }

  lemma {:induction false} IndexShrinks(c: Config, s: State, step: Step)
    requires Inv(c, s) && Enabled(c, s, step) && Counted(s, step) && !step.Index?
    ensures Total(Next(c, s, step).lru) <= Total(s.lru)
  {
    if step.Forget? || step.Drop? {
      WithoutTotal(s.lru, step.id);
    } else if step.TouchHit? {
      TouchedSpec(s.lru, step.id, s.hits[step.id].scan);
    } else if step.MakeRoom? {
      var k := Kept(s.lru, s.flights[step.id].size, c.maxSize);
      TotalPrefix(s.lru, k, |s.lru|);
      assert s.lru[..|s.lru|] == s.lru;
    }
  }

  lemma {:induction false} ReservationWasThere(c: Config, s: State, step: Step)
    requires Enabled(c, s, step) && !step.Crash? && !step.MakeRoom?
    ensures var t := Next(c, s, step);
            step.id in t.flights && Reserving(t.flights[step.id]) ==>
              step.id in s.flights && Reserving(s.flights[step.id]) && t.flights[step.id].size == s.flights[step.id].size
  {
    hide Has, Leftover, Rebuilt, CanRename, RemoveAll, Touched, Without, Tagged, Victims, Kept, DirSize;
  }

  lemma {:induction false} ReservationsShrink(c: Config, s: State, step: Step)
    requires Bounded(c, s) && Enabled(c, s, step) && !step.Crash? && !step.MakeRoom?
    ensures SumOf(Reserved(Next(c, s, step))) <= SumOf(Reserved(s))
  {
    var t := Next(c, s, step);
    forall id | id in Reserved(t) ensures id in Reserved(s) && Reserved(t)[id] <= Reserved(s)[id] {
      if id == step.id {
        ReservationWasThere(c, s, step);
      } else {
        StepBounded(c, s, step);
        StepOthers(c, s, step, id);
      }
    }
    hide Next, Enabled, Bounded;
    SumMonotone(Reserved(t), Reserved(s));
  }

  lemma {:induction false} StepLoad(c: Config, s: State, step: Step, k: nat, size: nat)
    requires Inv(c, s) && Enabled(c, s, step) && Counted(s, step) && SizesTrue(s)
    requires AtMost(s, k + 1, size) && AtMost(Next(c, s, step), k + 1, size) && size <= c.maxSize
    ensures Load(Next(c, s, step)) <= Load(s) || Load(Next(c, s, step)) <= c.maxSize + Times(k, size)
  {
    if step.MakeRoom? {
      RoomLoad(c, s, step.id, k, size);
    } else if step.Index? {
      IndexLoad(c, s, step.id);
    } else {
      IndexShrinks(c, s, step);
      ReservationsShrink(c, s, step);
    }
  }

  lemma {:induction false} LoadOverRun(c: Config, ss: seq<State>, steps: seq<Step>, k: nat, size: nat, i: nat)
    requires IsRun(c, ss, steps) && Inv(c, ss[0]) && SizesTrue(ss[0]) && i < |ss| && size <= c.maxSize
    requires Load(ss[0]) <= c.maxSize
    requires forall j :: 0 <= j <= i ==> AtMost(ss[j], k + 1, size)
    requires forall j :: 0 <= j < i ==> Counted(ss[j], steps[j])
    ensures SizesTrue(ss[i]) && Load(ss[i]) <= c.maxSize + Times(k, size)
  {
    hide Next, Enabled, Inv, AtMost, SizesTrue, Load, Times;
    if i > 0 {
      var s, step := ss[i - 1], steps[i - 1];
      LoadOverRun(c, ss, steps, k, size, i - 1);
      RunInv(c, ss, steps, i - 1);
      assert Enabled(c, s, step) && Counted(s, step) && ss[i] == Next(c, s, step);
      assert AtMost(s, k + 1, size) && AtMost(ss[i], k + 1, size);
      StepSizes(c, s, step);
      StepLoad(c, s, step, k, size);
    }
  }

  /**
   Capacity. With at most `k` fetches of at most `size <= maxSize` bytes between making
   room and indexing at once, indexed plus in-flight bytes never exceed
   `maxSize + (k - 1) * size` in any run, whatever fails and whatever interleaves;
   with one at a time that is `maxSize`.
   */
  lemma {:induction false} CapacityBound(c: Config, ss: seq<State>, steps: seq<Step>, k: nat, size: nat, i: nat)
    requires IsRun(c, ss, steps) && Inv(c, ss[0]) && SizesTrue(ss[0]) && i < |ss| && k >= 1 && size <= c.maxSize
    requires Load(ss[0]) <= c.maxSize
    requires forall j :: 0 <= j <= i ==> AtMost(ss[j], k, size)
    requires forall j :: 0 <= j < i ==> Counted(ss[j], steps[j])
    ensures Load(ss[i]) <= c.maxSize + (k - 1) * size
  {
    hide *;
    LoadOverRun(c, ss, steps, k - 1, size, i);
    TimesIsProduct(k - 1, size);
  }

  // ---------------------------------------------------------------------
  // Its premises
  // ---------------------------------------------------------------------

  /** The premise on hits, exactly: a hit grows the load if and only if its adapter has left the index meanwhile. */
  lemma {:induction false} HitGrowsLoadIff(c: Config, s: State, id: AdapterId)
    requires Inv(c, s) && Enabled(c, s, TouchHit(id))
    ensures Load(Next(c, s, TouchHit(id))) > Load(s) <==> id !in Ids(s.lru) && s.hits[id].scan > 0
  {
    TouchedTotal(s.lru, id, s.hits[id].scan);
    assert Reserved(Next(c, s, TouchHit(id))) == Reserved(s);
  }

  /**
   In crash-free runs where no call on an adapter's directory fails, a hit that nothing
   overtakes between its look at the disk and its index insertion satisfies the premise.
   */
  lemma {:induction false} UndisturbedHitsAreCounted(c: Config, ss: seq<State>, steps: seq<Step>, i: nat, k: nat, id: AdapterId)
    requires IsRun(c, ss, steps) && Inv(c, ss[0]) && AllComplete(c, ss[0]) && Tracked(c, ss[0]) && i < k < |steps|
    requires steps[i] == CheckHit(id) && steps[k] == TouchHit(id) && Undisturbed(c, ss, steps, i + 1, k, id)
    requires forall j :: 0 <= j < k ==> Smooth(c, ss[j], steps[j]) && !steps[j].Crash?
    ensures Counted(ss[k], steps[k])
  {
    RunInv(c, ss, steps, i);
    HitFound(c, ss[i], id);
    SmoothRunTracked(c, ss, steps, k);
    hide Next, Enabled, Undisturbed, Inv, Smooth, Doomed, Has, AllComplete;
    NoFetchWhileSafe(c, ss, steps, i + 1, k, id);
    TrackedSafeIndexed(c, ss[k], id);
  }

  lemma {:induction false} HitFound(c: Config, s: State, id: AdapterId)
    requires Inv(c, s) && Enabled(c, s, CheckHit(id))
    ensures id in c.ids && Has(Next(c, s, CheckHit(id)).disk, id) && id !in Next(c, s, CheckHit(id)).flights
  {
  }

  lemma {:induction false} TrackedSafeIndexed(c: Config, s: State, id: AdapterId)
    requires Tracked(c, s) && id in c.ids && Has(s.disk, id) && !Doomed(s, id) && id !in s.flights
    ensures id in Ids(s.lru)
  {
    assert TrackedAt(s, id);
  }

  /** As long as nothing dooms a present adapter, no fetch of it starts. */
  lemma {:induction false} NoFetchWhileSafe(c: Config, ss: seq<State>, steps: seq<Step>, i: nat, k: nat, id: AdapterId)
    requires IsRun(c, ss, steps) && Inv(c, ss[0]) && i <= k < |ss| && id in c.ids
    requires Has(ss[i].disk, id) && id !in ss[i].flights && Undisturbed(c, ss, steps, i, k, id)
    requires forall j :: i <= j < k ==> !steps[j].Crash?
    ensures id !in ss[k].flights && Has(ss[k].disk, id) && !Doomed(ss[k], id)
  {
    hide Next, Enabled, Undisturbed, Inv, Doomed, Has, Dooms;
    UndisturbedStays(c, ss, steps, i, k, id);
    if i < k {
      UndisturbedStep(c, ss, steps, i, k, id);
      NoFetchWhileSafe(c, ss, steps, i, k - 1, id);
      NoFetchStarts(c, ss[k - 1], steps[k - 1], id);
    }
  }

  lemma {:induction false} NoFetchStarts(c: Config, s: State, step: Step, id: AdapterId)
    requires Enabled(c, s, step) && !Dooms(c, s, step, id) && id !in s.flights && Has(s.disk, id)
    ensures id !in Next(c, s, step).flights
  {
    hide Leftover, Rebuilt, CanRename, RemoveAll, Touched, Without, Victims, Tagged;
  }

  // ---------------------------------------------------------------------
  // Exactly when the limit holds
  // ---------------------------------------------------------------------

  lemma {:induction false} KeptMoreIff(s: seq<Entry>, n: nat, r: nat, maxSize: int)
    ensures Total(s[..Kept(s, n, maxSize)]) + n + r <= maxSize <==> n + r <= maxSize && Kept(s, n, maxSize) == Kept(s, n + r, maxSize)
  {
    KeptIsLongestFit(s, n, maxSize);
    KeptIsLongestFit(s, n + r, maxSize);
    var j, k := Kept(s, n + r, maxSize), Kept(s, n, maxSize);
    hide Kept;
    if j == 0 {
      assert s[..j] == [];
    }
  }

  /**
   A room-making leaves the load within the limit if and only if the newcomer and all
   reservations of others fit together, and making room for all of them would not have
   taken more out of the index than making room for the newcomer does.
   */
  lemma {:induction false} RoomWithinIff(c: Config, s: State, id: AdapterId)
    requires Enabled(c, s, MakeRoom(id))
    ensures Load(Next(c, s, MakeRoom(id))) <= c.maxSize <==> Fits(c, s, MakeRoom(id))
  {
    var n := s.flights[id].size;
    RoomReserves(c, s, id);
    SumInsert(Reserved(s), id, n);
    KeptMoreIff(s.lru, n, SumOf(Reserved(s)), c.maxSize);
  }

  /** Alone, it does if and only if the adapter by itself fits. */
  lemma {:induction false} LoneFetchFitsIff(c: Config, s: State, id: AdapterId)
    requires Enabled(c, s, MakeRoom(id)) && Reserved(s) == map[]
    ensures Load(Next(c, s, MakeRoom(id))) <= c.maxSize <==> s.flights[id].size <= c.maxSize
  {
    RoomWithinIff(c, s, id);
    assert SumOf(Reserved(s)) == 0;
  }

  /**
   What each step must meet: a room-making as above; a hit re-touches an indexed adapter or
   finds room for what it scanned; a restart finds no more on disk than fits.
   */
  ghost predicate Fits(c: Config, s: State, step: Step)
    requires Enabled(c, s, step)
  {
    match step
    case MakeRoom(id) =>
      var n, r := s.flights[id].size, SumOf(Reserved(s));
      n + r <= c.maxSize && Kept(s.lru, n, c.maxSize) == Kept(s.lru, n + r, c.maxSize)
    case TouchHit(id) => id in Ids(s.lru) || Load(s) + s.hits[id].scan <= c.maxSize
    case Crash(index) => Total(index) <= c.maxSize
    case _ => true
  }

  lemma {:induction false} HitWithinIff(c: Config, s: State, id: AdapterId)
    requires Inv(c, s) && Enabled(c, s, TouchHit(id)) && Load(s) <= c.maxSize
    ensures Load(Next(c, s, TouchHit(id))) <= c.maxSize <==> Fits(c, s, TouchHit(id))
  {
    TouchedTotal(s.lru, id, s.hits[id].scan);
    assert Reserved(Next(c, s, TouchHit(id))) == Reserved(s);
  }

  lemma {:induction false} CrashWithinIff(c: Config, s: State, step: Step)
    requires Enabled(c, s, step) && step.Crash?
    ensures Load(Next(c, s, step)) <= c.maxSize <==> Fits(c, s, step)
    ensures SizesTrue(Next(c, s, step))
  {
    assert Reserved(Next(c, s, step)) == map[];
  }

  /** From a state within the limit a step stays within it if and only if it meets its condition. */
  lemma {:induction false} StepWithinIff(c: Config, s: State, step: Step)
    requires Inv(c, s) && Enabled(c, s, step) && SizesTrue(s) && WithinLimit(c, s)
    ensures WithinLimit(c, Next(c, s, step)) <==> Fits(c, s, step)
    ensures SizesTrue(Next(c, s, step))
  {
    if step.Crash? {
      CrashWithinIff(c, s, step);
    } else {
      StepSizes(c, s, step);
      if step.MakeRoom? {
        RoomWithinIff(c, s, step.id);
      } else if step.TouchHit? {
        HitWithinIff(c, s, step.id);
      } else if step.Index? {
        IndexLoad(c, s, step.id);
      } else {
        IndexShrinks(c, s, step);
        ReservationsShrink(c, s, step);
        hide Next, Enabled, Inv;
      }
    }
  }

  ghost predicate WithinLimit(c: Config, s: State) {
    Load(s) <= c.maxSize
  }

  /** The first `n` steps meet their conditions. */
  ghost predicate AllFit(c: Config, ss: seq<State>, steps: seq<Step>, n: nat)
    requires IsRun(c, ss, steps) && n <= |steps|
  {
    forall k :: 0 <= k < n ==> Fits(c, ss[k], steps[k])
  }

  /** All states up to the `n`-th are within the limit. */
  ghost predicate AllWithin(c: Config, ss: seq<State>, n: nat)
    requires n < |ss|
  {
    forall i :: 0 <= i <= n ==> WithinLimit(c, ss[i])
  }

  lemma {:induction false} AllFitOn(c: Config, ss: seq<State>, steps: seq<Step>, n: nat)
    requires IsRun(c, ss, steps) && 0 < n <= |steps|
    ensures AllFit(c, ss, steps, n) <==> AllFit(c, ss, steps, n - 1) && Fits(c, ss[n - 1], steps[n - 1])
  {
    hide Fits, Next, Enabled;
  }

  lemma {:induction false} AllWithinOn(c: Config, ss: seq<State>, n: nat)
    requires 0 < n < |ss|
    ensures AllWithin(c, ss, n) <==> AllWithin(c, ss, n - 1) && WithinLimit(c, ss[n])
    ensures AllWithin(c, ss, n - 1) ==> WithinLimit(c, ss[n - 1])
  {
    hide WithinLimit;
  }

  /**
   The limit, exactly. In any run, whatever overlaps, fails or crashes, indexed plus
   in-flight bytes are within the limit in every state if and only if every room-making,
   every hit and every restart meets its condition.
   */
  lemma {:induction false} WithinLimitIff(c: Config, ss: seq<State>, steps: seq<Step>, n: nat)
    requires IsRun(c, ss, steps) && Inv(c, ss[0]) && SizesTrue(ss[0]) && WithinLimit(c, ss[0]) && n <= |steps|
    ensures AllWithin(c, ss, n) <==> AllFit(c, ss, steps, n)
  {
    hide AllWithin, AllFit, WithinLimit, Fits, Next, Enabled, Inv, SizesTrue;
    if n == 0 {
      AllWithinHere(c, ss, steps);
    } else {
      WithinLimitIff(c, ss, steps, n - 1);
      AllFitOn(c, ss, steps, n);
      AllWithinOn(c, ss, n);
      RunInv(c, ss, steps, n - 1);
      SizesOverRun(c, ss, steps, n - 1);
      if WithinLimit(c, ss[n - 1]) {
        StepWithinIff(c, ss[n - 1], steps[n - 1]);
      }
    }
  }

  lemma {:induction false} AllWithinHere(c: Config, ss: seq<State>, steps: seq<Step>)
    requires IsRun(c, ss, steps) && WithinLimit(c, ss[0])
    ensures AllWithin(c, ss, 0) && AllFit(c, ss, steps, 0)
  {
    hide WithinLimit, Fits;
  }

  lemma {:induction false} SizesOverRun(c: Config, ss: seq<State>, steps: seq<Step>, n: nat)
    requires IsRun(c, ss, steps) && Inv(c, ss[0]) && SizesTrue(ss[0]) && n < |ss|
    ensures SizesTrue(ss[n])
  {
    hide Next, Enabled, Inv, SizesTrue;
    if n > 0 {
      SizesOverRun(c, ss, steps, n - 1);
      RunInv(c, ss, steps, n - 1);
      if steps[n - 1].Crash? {
        CrashWithinIff(c, ss[n - 1], steps[n - 1]);
      } else {
        StepSizes(c, ss[n - 1], steps[n - 1]);
      }
    }
  }
}
