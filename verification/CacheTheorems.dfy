/**
 Theorems over whole runs of the cache machine: index and disk hold the same adapters
 when nothing fails and nothing overtakes, and a crash at any point is recovered from.
 */
module CacheTheorems {
  import opened Lru
  import opened Staging
  import opened Disk
  import opened CacheMachine
  import opened CacheInvariants
  import opened CacheAgreement

  // ---------------------------------------------------------------------
  // Complete copies
  // ---------------------------------------------------------------------

  /** Every delete of an adapter directory either succeeds or changes nothing. */
  ghost predicate Atomic(c: Config, s: State, step: Step)
    requires Enabled(c, s, step)
  {
    Deletes(step) && !Stages(step) ==> AllOrNothing(s.disk, Target(c, s, step), step.left)
  }

  /** Every adapter directory is a complete copy of one successful download of that adapter. */
  ghost predicate AllComplete(c: Config, s: State) {
    forall id :: id in c.ids && id in s.disk ==> Complete(s, id, s.disk[id])
  }

  lemma {:induction false} CompleteHas(s: State, id: AdapterId)
    requires id in s.disk && Complete(s, id, s.disk[id])
    ensures Has(s.disk, id)
  {
    var files :| (id, files) in s.delivered && CopyOf(s.disk[id], id, files);
  }

  /** `e` keeps all files of `d`, metadata aside. */
  ghost predicate KeepsFiles(d: Dir, e: Dir) {
    forall n :: n in d && n != META ==> n in e && e[n] == d[n]
  }

  lemma {:induction false} AtomicDelete(c: Config, s: State, step: Step, id: AdapterId)
    requires Bounded(c, s) && Enabled(c, s, step) && Atomic(c, s, step) && Deletes(step) && id in c.ids && id in Next(c, s, step).disk
    ensures id in s.disk && s.disk[id] == Next(c, s, step).disk[id]
  {
    DeleteEffect(c, s, step);
    if Stages(step) {
      TmpNotId(c.ids, step.id, id);
    }
    hide Next, Enabled, RemoveAll, Leftover;
  }

  /** Directories an atomic step leaves in place keep their files; only an install brings a new one. */
  lemma {:induction false} AtomicDisk(c: Config, s: State, step: Step, id: AdapterId)
    requires Bounded(c, s) && Enabled(c, s, step) && Atomic(c, s, step) && id in c.ids && id in Next(c, s, step).disk
    requires step != Install(id)
    ensures id in s.disk && KeepsFiles(s.disk[id], Next(c, s, step).disk[id])
  {
    if Deletes(step) {
      AtomicDelete(c, s, step, id);
    } else if !step.Crash? {
      StepActor(c, s, step);
      TmpNotId(c.ids, step.id, id);
      OtherDisk(c, s, step, id);
    }
    hide Next, Enabled, Bounded, Atomic, Deletes;
  }

  lemma {:induction false} OtherDisk(c: Config, s: State, step: Step, id: AdapterId)
    requires Enabled(c, s, step) && !step.Crash? && !Deletes(step) && TmpPath(step.id) != id && step != Install(id)
    requires id in Next(c, s, step).disk
    ensures id in s.disk && KeepsFiles(s.disk[id], Next(c, s, step).disk[id])
  {
    if step.Install? || step.Deliver? || step.WriteMeta? || step.MakeStaging? || step.RefreshMeta? {
      hide Has, Leftover, Rebuilt, CanRename, Touched, Without, Kept, Victims, Tagged, RemoveAll, DirSize;
    } else {
      QuietDisk(c, s, step);
      hide Next, Enabled;
    }
  }

  lemma {:induction false} QuietDisk(c: Config, s: State, step: Step)
    requires Enabled(c, s, step) && !Deletes(step) && !step.Install? && !step.Deliver? && !step.WriteMeta? && !step.MakeStaging? && !step.RefreshMeta?
    ensures Next(c, s, step).disk == s.disk
  {
    hide Has, Leftover, Rebuilt, CanRename, Touched, Without, Kept, Victims, Tagged, RemoveAll, DirSize, Mkdir, Rename, OldestFirst;
  }

  lemma {:induction false} StepComplete(c: Config, s: State, step: Step)
    requires Inv(c, s) && Enabled(c, s, step) && Atomic(c, s, step) && AllComplete(c, s)
    ensures AllComplete(c, Next(c, s, step))
  {
    var t := Next(c, s, step);
    forall id | id in c.ids && id in t.disk ensures Complete(t, id, t.disk[id]) {
      if step == Install(id) {
        InstallFlight(c, s, step);
      } else {
        AtomicDisk(c, s, step, id);
        DeliveredGrows(c, s, step);
        CompleteKept(s, t, id, s.disk[id], t.disk[id]);
      }
    }
  }

  lemma {:induction false} DeliveredGrows(c: Config, s: State, step: Step)
    requires Enabled(c, s, step)
    ensures s.delivered <= Next(c, s, step).delivered
  {
  }

  lemma {:induction false} RunComplete(c: Config, ss: seq<State>, steps: seq<Step>, i: nat)
    requires IsRun(c, ss, steps) && Inv(c, ss[0]) && AllComplete(c, ss[0]) && i < |ss|
    requires forall k :: 0 <= k < i ==> Atomic(c, ss[k], steps[k])
    ensures Inv(c, ss[i]) && AllComplete(c, ss[i])
  {
    RunInv(c, ss, steps, i);
    if i > 0 {
      RunComplete(c, ss, steps, i - 1);
      StepComplete(c, ss[i - 1], steps[i - 1]);
    }
  }

  // ---------------------------------------------------------------------
  // Index and disk hold the same adapters
  // ---------------------------------------------------------------------

  /** Every adapter on disk is indexed, just about to be, or about to be deleted. */
  ghost predicate Tracked(c: Config, s: State) {
    forall id :: id in c.ids && id in s.disk ==> TrackedAt(s, id)
  }

  ghost predicate TrackedAt(s: State, id: AdapterId) {
    || id in Ids(s.lru)
    || (id in s.flights && (s.flights[id].Renamed? || s.flights[id].Scanned?))
    || Pending(s, id)
  }

  lemma {:induction false} SmoothIsAtomic(c: Config, s: State, step: Step)
    requires Enabled(c, s, step) && Smooth(c, s, step)
    ensures Atomic(c, s, step)
  {
  }

  /** An adapter that stays on disk and is about to be deleted stays so while deletes work. */
  lemma {:induction false} PendingTracked(c: Config, s: State, step: Step, id: AdapterId)
    requires Inv(c, s) && Enabled(c, s, step) && !step.Crash? && Smooth(c, s, step) && id in c.ids
    requires Pending(s, id) && step != Install(id) && Has(Next(c, s, step).disk, id)
    ensures Pending(Next(c, s, step), id)
  {
    assert Going(s, id);
    GoingStays(c, s, step, id);
  }

  /** An adapter on disk that leaves the index is about to be deleted. */
  lemma {:induction false} IndexedTracked(c: Config, s: State, step: Step, id: AdapterId)
    requires Bounded(c, s) && Enabled(c, s, step) && !step.Crash? && id in Ids(s.lru)
    ensures TrackedAt(Next(c, s, step), id)
  {
    StepIndex(c, s, step);
    hide Ids, Unique;
    if Dooms(c, s, step, id) && step.MakeRoom? {
      assert IsVictim(Next(c, s, step), id) by { assert step.id in Next(c, s, step).flights; }
    }
  }

  lemma {:induction false} FlightTracked(c: Config, s: State, step: Step, id: AdapterId)
    requires Bounded(c, s) && Enabled(c, s, step) && !step.Crash? && Smooth(c, s, step) && id in c.ids
    requires id in s.flights && (s.flights[id].Renamed? || s.flights[id].Scanned?) && id in Next(c, s, step).disk
    ensures TrackedAt(Next(c, s, step), id)
  {
    if step == Index(id) {
      StepIndex(c, s, step);
    } else if step.id != id {
      StepOthers(c, s, step, id);
    } else {
      hide Ids, Pending, Has, Leftover, Rebuilt, CanRename, RemoveAll, Touched, Without, Kept, Victims, Tagged;
    }
  }

  lemma {:induction false} StepTracked(c: Config, s: State, step: Step)
    requires Inv(c, s) && Enabled(c, s, step) && Smooth(c, s, step) && AllComplete(c, s) && Tracked(c, s)
    ensures Tracked(c, Next(c, s, step))
  {
    var t := Next(c, s, step);
    SmoothIsAtomic(c, s, step);
    StepComplete(c, s, step);
    StepIndex(c, s, step);
    forall id | id in c.ids && id in t.disk ensures TrackedAt(t, id) {
      CompleteHas(t, id);
      if step != Install(id) && !step.Crash? {
        AtomicDisk(c, s, step, id);
        OneTracked(c, s, step, id);
      } else {
        InstalledTracked(c, s, step, id);
      }
    }
  }

  lemma {:induction false} InstalledTracked(c: Config, s: State, step: Step, id: AdapterId)
    requires Bounded(c, s) && Enabled(c, s, step) && (step == Install(id) || step.Crash?) && id in c.ids && Has(Next(c, s, step).disk, id)
    ensures TrackedAt(Next(c, s, step), id)
  {
  }

  lemma {:induction false} OneTracked(c: Config, s: State, step: Step, id: AdapterId)
    requires Inv(c, s) && Enabled(c, s, step) && Smooth(c, s, step) && TrackedAt(s, id) && id in c.ids
    requires step != Install(id) && !step.Crash? && Has(Next(c, s, step).disk, id)
    ensures TrackedAt(Next(c, s, step), id)
  {
    hide Next, Enabled, Pending, Ids, Inv, Smooth;
    if id in Ids(s.lru) {
      assert Bounded(c, s) by { InvBounded(c, s); }
      IndexedTracked(c, s, step, id);
    } else if Pending(s, id) {
      PendingTracked(c, s, step, id);
    } else {
      assert Bounded(c, s) by { InvBounded(c, s); }
      FlightTracked(c, s, step, id);
    }
  }

  lemma {:induction false} InvBounded(c: Config, s: State)
    requires Inv(c, s)
    ensures Bounded(c, s)
  {
  }

  /** Nothing is being fetched or deleted. */
  ghost predicate Quiet(s: State) {
    s.flights == map[] && s.evicting == multiset{}
  }

  /**
   Agreement. In every run in which every index insertion lands, whatever fails, each
   indexed adapter is present on disk; if moreover no filesystem call on an adapter's
   directory fails, then whenever nothing is being fetched or deleted, exactly the
   adapters on disk are indexed.
   */
  lemma {:induction false} IndexAgreesWithDisk(c: Config, ss: seq<State>, steps: seq<Step>, i: nat)
    requires IsRun(c, ss, steps) && Inv(c, ss[0]) && Aligned(ss[0]) && i < |ss|
    requires forall k :: 0 <= k < i ==> Lands(ss[k], steps[k])
    ensures Inv(c, ss[i]) && Aligned(ss[i]) && IndexOnDisk(ss[i])
    ensures AllComplete(c, ss[0]) && Tracked(c, ss[0]) && (forall k :: 0 <= k < i ==> Smooth(c, ss[k], steps[k])) ==>
              && AllComplete(c, ss[i]) && Tracked(c, ss[i])
              && (Quiet(ss[i]) ==> forall id :: id in c.ids ==> (id in Ids(ss[i].lru) <==> Has(ss[i].disk, id)))
  {
    RunInv(c, ss, steps, i);
    AlignedIffInsertionsLand(c, ss, steps, i);
    if AllComplete(c, ss[0]) && Tracked(c, ss[0]) && (forall k :: 0 <= k < i ==> Smooth(c, ss[k], steps[k])) {
      SmoothRunTracked(c, ss, steps, i);
      if Quiet(ss[i]) {
        QuietAgrees(c, ss[i]);
      }
    }
  }

  lemma {:induction false} QuietAgrees(c: Config, s: State)
    requires Aligned(s) && Tracked(c, s) && Quiet(s)
    ensures forall id :: id in c.ids ==> (id in Ids(s.lru) <==> Has(s.disk, id))
  {
  }

  lemma {:induction false} SmoothRunTracked(c: Config, ss: seq<State>, steps: seq<Step>, i: nat)
    requires IsRun(c, ss, steps) && Inv(c, ss[0]) && AllComplete(c, ss[0]) && Tracked(c, ss[0]) && i < |ss|
    requires forall k :: 0 <= k < i ==> Smooth(c, ss[k], steps[k])
    ensures AllComplete(c, ss[i]) && Tracked(c, ss[i])
  {
    hide Next, Enabled, Smooth, AllComplete, Tracked;
    if i > 0 {
      SmoothRunTracked(c, ss, steps, i - 1);
      RunInv(c, ss, steps, i - 1);
      StepTracked(c, ss[i - 1], steps[i - 1]);
      SmoothIsAtomic(c, ss[i - 1], steps[i - 1]);
      StepComplete(c, ss[i - 1], steps[i - 1]);
    }
  }

  /** The index and the disk right after an eviction of `a` that succeeds. */
  ghost function AfterEviction(s: State, a: AdapterId): State {
    s.(lru := Without(s.lru, a), disk := RemoveAll(s.disk, a, map[]))
  }

  /**
   Whatever the IDs: an eviction keeps every indexed adapter on disk if and only if no
   other indexed ID lies below the evicted one.
   */
  lemma {:induction false} EvictionKeepsAgreementIff(s: State, a: AdapterId)
    requires IndexOnDisk(s)
    ensures IndexOnDisk(AfterEviction(s, a)) <==> forall id :: id in Ids(s.lru) && Under(a, id) ==> id == a
  {
    WithoutIds(s.lru, a);
    var t := AfterEviction(s, a);
    forall id | id in Ids(s.lru) && id != a ensures Has(t.disk, id) <==> !Under(a, id) {
      assert id in Ids(t.lru);
    }
    if exists id :: id in Ids(s.lru) && Under(a, id) && id != a {
      var id :| id in Ids(s.lru) && Under(a, id) && id != a;
      assert id in Ids(t.lru) && !Has(t.disk, id);
    }
  }

  /** IDs that nest break the agreement: evicting "a" deletes "a/b" behind the index's back. */
  lemma {:induction false} NestedIdsBreakAgreement(f: File)
    ensures var s := State(map["a/b" := map[CONFIG := f]], [Entry("a/b", 1)], map[], map[], multiset{}, {}, {});
            && Leads(Config({"a", "a/b"}, 10), s, [Forget("a"), DeleteEvicted("a", map[])], AfterEviction(s, "a"))
            && IndexOnDisk(s) && !IndexOnDisk(AfterEviction(s, "a"))
  {
    var s := State(map["a/b" := map[CONFIG := f]], [Entry("a/b", 1)], map[], map[], multiset{}, {}, {});
    Evicts(Config({"a", "a/b"}, 10), s, "a");
    assert "a" + "/" <= "a/b";
    assert s.lru[0].id in Ids(s.lru);
    EvictionKeepsAgreementIff(s, "a");
  }

  // ---------------------------------------------------------------------
  // Crash recovery
  // ---------------------------------------------------------------------

  /** The index lists exactly the adapters with a configuration file, once each, newest first; every file in their directories was fetched for them, and none is a staging directory. */
  ghost predicate Relists(c: Config, s: State, index: seq<Entry>) {
    && Unique(index)
    && (forall id :: id in Ids(index) <==> id in c.ids && Has(s.disk, id))
    && (forall id :: id in Ids(index) ==> id in s.disk && WrittenFor(s, id, s.disk[id]))
    && (forall a :: a in c.ids ==> TmpPath(a) !in Ids(index))
    && (forall j, k :: 0 <= j < k < |index| ==> ModTime(s.disk, index[j].id) >= ModTime(s.disk, index[k].id))
  }

  /** What is on disk is listed, and each is a complete copy of one download of it. */
  ghost predicate ListsComplete(c: Config, s: State, index: seq<Entry>) {
    && Ids(index) == c.ids * s.disk.Keys
    && forall id :: id in Ids(index) ==> id in s.disk && Complete(s, id, s.disk[id])
  }

  lemma {:induction false} RebuiltRelists(c: Config, s: State, index: seq<Entry>)
    requires Inv(c, s) && Rebuilt(s.disk, index)
    ensures Relists(c, s, index)
  {
    forall id ensures id in Installed(s.disk) <==> id in c.ids && Has(s.disk, id) {
      if id in Installed(s.disk) {
        InstalledIsAdapter(c, s, id);
      }
    }
    forall a | a in c.ids ensures TmpPath(a) !in Installed(s.disk) { assert ".tmp" <= TmpPath(a); }
    hide Unique, ModTime, Has;
  }

  lemma {:induction false} RebuiltGoesOn(c: Config, s: State, index: seq<Entry>)
    requires Inv(c, s) && Rebuilt(s.disk, index)
    ensures Inv(c, Next(c, s, Crash(index))) && Aligned(Next(c, s, Crash(index)))
  {
    StepInv(c, s, Crash(index));
    hide Inv, Unique;
    assert Ids(index) == Installed(s.disk);
  }

  lemma {:induction false} CompleteListed(c: Config, s: State, index: seq<Entry>)
    requires AllComplete(c, s) && Relists(c, s, index)
    ensures ListsComplete(c, s, index)
  {
    forall id | id in c.ids && id in s.disk ensures Has(s.disk, id) {
      CompleteHas(s, id);
    }
    hide Unique, ModTime, Complete;
    assert forall id :: id in Ids(index) <==> id in c.ids * s.disk.Keys;
  }

  /**
   Crash recovery. Cut any run, earlier crashes included and whatever fails, between any
   two steps and rebuild: the index lists exactly the adapters that have a configuration
   file, each once, newest first, with nobody else's files; leftover staging directories
   are ignored, and the cache goes on from a good, aligned state, even if the index was
   wrong before. As long as each delete of an adapter succeeds or changes nothing, these
   are all adapters on disk, each a complete copy of one download.
   */
  lemma {:induction false} CrashRecovery(c: Config, ss: seq<State>, steps: seq<Step>, i: nat, index: seq<Entry>)
    requires IsRun(c, ss, steps) && Inv(c, ss[0]) && AllComplete(c, ss[0]) && i < |ss|
    requires Rebuilt(ss[i].disk, index)
    ensures Relists(c, ss[i], index)
    ensures Inv(c, Next(c, ss[i], Crash(index))) && Aligned(Next(c, ss[i], Crash(index)))
    ensures (forall k :: 0 <= k < i ==> Atomic(c, ss[k], steps[k])) ==> ListsComplete(c, ss[i], index)
  {
    RunInv(c, ss, steps, i);
    RebuiltRelists(c, ss[i], index);
    RebuiltGoesOn(c, ss[i], index);
    hide Inv, Atomic, AllComplete, ListsComplete, Relists, Next, Enabled, Aligned, Rebuilt;
    if forall k :: 0 <= k < i ==> Atomic(c, ss[k], steps[k]) {
      RunComplete(c, ss, steps, i);
      CompleteListed(c, ss[i], index);
    }
  }

  /**
   A delete that fails halfway, exactly: a restart relists what it left if and only if the
   configuration file is among it, and that is still a complete copy of the download if
   and only if no file of the download but the metadata is missing.
   */
  lemma {:induction false} HalfDeletedRelistedIff(c: Config, s: State, id: AdapterId, left: Tree, files: Dir)
    requires Bounded(c, s) && id in c.ids && id in s.disk && CopyOf(s.disk[id], id, files) && Leftover(s.disk, id, left)
    ensures id in Installed(RemoveAll(s.disk, id, left)) <==> id in left && CONFIG in left[id]
    ensures id in left ==> (CopyOf(left[id], id, files) <==> files.Keys - {META} <= left[id].Keys)
  {
    RemoveOnly(c.ids, s.disk, id, left);
    hide GoodIds, Paths, RemoveAll;
  }

  /** Such a leftover: the configuration file without the weights, relisted though incomplete. */
  lemma {:induction false} HalfDeletedIsRelisted(id: AdapterId, config: File, weights: File)
    requires !(".tmp" <= id)
    ensures var files: Dir := map[CONFIG := config, "weights" := weights];
            var left: Tree := map[id := map[CONFIG := config]];
            var s := State(map[id := files], [], map[], map[], multiset{id}, {(id, files)}, {});
            && Enabled(Config({id}, 0), s, DeleteEvicted(id, left))
            && id in Installed(Next(Config({id}, 0), s, DeleteEvicted(id, left)).disk)
            && Complete(s, id, s.disk[id]) && !Complete(s, id, left[id])
  {
    var files: Dir := map[CONFIG := config, "weights" := weights];
    assert CopyOf(files, id, files);
    assert "weights" in files && "weights" != META;
  }
}
