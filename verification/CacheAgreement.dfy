/**
 When the index lists only adapters that are on disk (internal/cache/manager.go,
 store.go). Looking at the disk and marking an adapter in the index are separate
 steps that no lock covers together, so the answer depends on what falls in between.
 */
module CacheAgreement {
  import opened Common
  import opened Lru
  import opened Disk
  import opened CacheMachine
  import opened CacheInvariants

  /** Every indexed adapter is present on disk. */
  ghost predicate IndexOnDisk(s: State) {
    forall id :: id in Ids(s.lru) ==> Has(s.disk, id)
  }

  /** Some fetch made room by taking the adapter out of the index and has not deleted it yet. */
  ghost predicate IsVictim(s: State, id: AdapterId) {
    exists f :: f in s.flights && s.flights[f].Evacuating? && id in s.flights[f].victims
  }

  /** The adapter has left the index, and the delete that follows is still to come. */
  ghost predicate Pending(s: State, id: AdapterId) {
    id in s.evicting || InPhase(s, id, Dropping) || IsVictim(s, id)
  }

  /** Somebody is about to delete the adapter's directory. */
  ghost predicate Doomed(s: State, id: AdapterId) {
    Pending(s, id) || (id in s.flights && PreInstall(s.flights[id]))
  }

  /** The index lists only adapters that are on disk and that nobody is about to delete. */
  ghost predicate Aligned(s: State) {
    forall id :: id in Ids(s.lru) ==> Has(s.disk, id) && !Doomed(s, id)
  }

  /** An index insertion finds its adapter on disk and not about to be deleted. */
  ghost predicate Lands(s: State, step: Step) {
    Inserts(step) ==> Has(s.disk, step.id) && !Doomed(s, step.id)
  }

  /** The step takes the adapter out of the index in order to delete it. */
  ghost predicate Dooms(c: Config, s: State, step: Step, id: AdapterId)
    requires Enabled(c, s, step)
  {
    || ((step.Forget? || step.Drop?) && step.id == id)
    || (step.MakeRoom? && id in Victims(c, s, s.flights[step.id].size))
  }

  // ---------------------------------------------------------------------
  // One step
  // ---------------------------------------------------------------------

  /** Deletes only ever hit doomed adapters. */
  lemma {:induction false} PresentKept(c: Config, s: State, step: Step, id: AdapterId)
    requires Bounded(c, s) && Enabled(c, s, step) && !step.Crash? && id in c.ids
    requires Has(s.disk, id) && !Doomed(s, id)
    ensures Has(Next(c, s, step).disk, id)
  {
    StepActor(c, s, step);
    TmpNotId(c.ids, step.id, id);
    StepDisk(c, s, step);
    if id in Touches(c, s, step) && step.DeleteVictim? {
      assert IsVictim(s, id);
    }
  }

  /** The flights of the next state that have victims had them before, but for the one that just made room. */
  lemma {:induction false} VictimBefore(c: Config, s: State, step: Step, id: AdapterId)
    requires Enabled(c, s, step) && IsVictim(Next(c, s, step), id)
    ensures IsVictim(s, id) || (step.MakeRoom? && id in Victims(c, s, s.flights[step.id].size))
  {
    var t := Next(c, s, step);
    var f :| f in t.flights && t.flights[f].Evacuating? && id in t.flights[f].victims;
    if step.DeleteVictim? && f == step.id {
      assert id in s.flights[f].victims[1..];
      assert id in s.flights[f].victims;
    } else if !(step.MakeRoom? && f == step.id) {
      assert f in s.flights && s.flights[f] == t.flights[f];
    }
  }

  lemma {:induction false} StaysSafe(c: Config, s: State, step: Step, id: AdapterId)
    requires Bounded(c, s) && Enabled(c, s, step) && !Dooms(c, s, step, id) && !(step.Begin? && step.id == id)
    requires !Doomed(s, id)
    ensures !Doomed(Next(c, s, step), id)
  {
    if IsVictim(Next(c, s, step), id) {
      VictimBefore(c, s, step, id);
    }
    if id in Next(c, s, step).flights && PreInstall(Next(c, s, step).flights[id]) {
      FlightBefore(c, s, step, id);
    }
    if id in Next(c, s, step).evicting {
      EvictingBefore(c, s, step, id);
    }
    hide Next, Enabled, IsVictim, Bounded;
  }

  lemma {:induction false} FlightBefore(c: Config, s: State, step: Step, id: AdapterId)
    requires Enabled(c, s, step) && !((step.Begin? || step.Drop?) && step.id == id)
    requires id in Next(c, s, step).flights && PreInstall(Next(c, s, step).flights[id])
    ensures id in s.flights && PreInstall(s.flights[id])
  {
    hide Has, Leftover, Rebuilt, CanRename, RemoveAll, Touched, Without, Tagged, Victims, Kept, DirSize;
  }

  lemma {:induction false} EvictingBefore(c: Config, s: State, step: Step, id: AdapterId)
    requires Enabled(c, s, step) && !(step.Forget? && step.id == id) && id in Next(c, s, step).evicting
    ensures id in s.evicting
  {
    hide Has, Leftover, Rebuilt, CanRename, RemoveAll, Touched, Without, Tagged, Victims, Kept, DirSize;
  }

  /** An adapter that is present and safe stays so until some step dooms it. */
  lemma {:induction false} SafeStep(c: Config, s: State, step: Step, id: AdapterId)
    requires Bounded(c, s) && Enabled(c, s, step) && !step.Crash? && !Dooms(c, s, step, id) && id in c.ids
    requires Has(s.disk, id) && !Doomed(s, id)
    ensures Has(Next(c, s, step).disk, id) && !Doomed(Next(c, s, step), id)
  {
    PresentKept(c, s, step, id);
    StaysSafe(c, s, step, id);
  }

  lemma {:induction false} DoomedLeaves(c: Config, s: State, step: Step, id: AdapterId)
    requires Bounded(c, s) && Enabled(c, s, step) && Dooms(c, s, step, id)
    ensures id !in Ids(Next(c, s, step).lru)
  {
    StepIndex(c, s, step);
  }

  /** No step but an insertion can break the alignment. */
  lemma {:induction false} StepKeepsAligned(c: Config, s: State, step: Step)
    requires Bounded(c, s) && Enabled(c, s, step) && Aligned(s) && Lands(s, step)
    ensures Aligned(Next(c, s, step))
  {
    var t := Next(c, s, step);
    if step.Crash? {
      CrashAligns(c, s, step);
    } else {
      StepIndex(c, s, step);
      StepActor(c, s, step);
      hide Next, Enabled, Has, Doomed, Ids, Dooms;
      forall id | id in Ids(t.lru) ensures Has(t.disk, id) && !Doomed(t, id) {
        if Dooms(c, s, step, id) {
          DoomedLeaves(c, s, step, id);
        }
        SafeStep(c, s, step, id);
      }
    }
  }

  lemma {:induction false} CrashAligns(c: Config, s: State, step: Step)
    requires Enabled(c, s, step) && step.Crash?
    ensures Aligned(Next(c, s, step))
  {
    hide Unique, ModTime, DirSize;
    assert Ids(step.index) == Installed(s.disk);
  }

  /** And an insertion breaks it if and only if it does not land. */
  lemma {:induction false} StepAlignedIff(c: Config, s: State, step: Step)
    requires Bounded(c, s) && Enabled(c, s, step) && Aligned(s)
    ensures Aligned(Next(c, s, step)) <==> Lands(s, step)
  {
    if Lands(s, step) {
      StepKeepsAligned(c, s, step);
    } else {
      StepIndex(c, s, step);
      var t, id := Next(c, s, step), step.id;
      assert id in Ids(t.lru);
      if Has(t.disk, id) {
        InsertionDooms(c, s, step);
      }
    }
  }

  lemma {:induction false} InsertionDooms(c: Config, s: State, step: Step)
    requires Enabled(c, s, step) && Inserts(step) && Doomed(s, step.id)
    ensures Doomed(Next(c, s, step), step.id)
  {
    var t, id := Next(c, s, step), step.id;
    if IsVictim(s, id) {
      var f :| f in s.flights && s.flights[f].Evacuating? && id in s.flights[f].victims;
      assert f in t.flights && t.flights[f] == s.flights[f];
    }
  }

  // ---------------------------------------------------------------------
  // Whole runs
  // ---------------------------------------------------------------------

  /**
   Agreement, exactly. In any run, whatever interleaves and whatever fails, the index
   lists only adapters that are on disk and not about to be deleted in every state if
   and only if every insertion found its adapter like that.
   */
  lemma {:induction false} AlignedIffInsertionsLand(c: Config, ss: seq<State>, steps: seq<Step>, n: nat)
    requires IsRun(c, ss, steps) && Inv(c, ss[0]) && Aligned(ss[0]) && n <= |steps|
    ensures (forall i :: 0 <= i <= n ==> Aligned(ss[i])) <==> (forall k :: 0 <= k < n ==> Lands(ss[k], steps[k]))
  {
    hide Aligned, Lands, Next, Enabled;
    if n > 0 {
      AlignedIffInsertionsLand(c, ss, steps, n - 1);
      RunInv(c, ss, steps, n - 1);
      if Aligned(ss[n - 1]) {
        StepAlignedIff(c, ss[n - 1], steps[n - 1]);
      }
      assert (forall k :: 0 <= k < n ==> Lands(ss[k], steps[k])) <==>
             (forall k :: 0 <= k < n - 1 ==> Lands(ss[k], steps[k])) && Lands(ss[n - 1], steps[n - 1]);
      assert (forall i :: 0 <= i <= n ==> Aligned(ss[i])) <==>
             (forall i :: 0 <= i <= n - 1 ==> Aligned(ss[i])) && Aligned(ss[n]);
    }
  }

  /** From state `i` on nobody was about to delete the adapter, and no step before state `k` took it out of the index to delete it. */
  ghost predicate Undisturbed(c: Config, ss: seq<State>, steps: seq<Step>, i: nat, k: nat, id: AdapterId)
    requires IsRun(c, ss, steps) && i <= k < |ss|
  {
    !Doomed(ss[i], id) && forall j :: i <= j < k ==> !Dooms(c, ss[j], steps[j], id)
  }

  lemma {:induction false} UndisturbedStays(c: Config, ss: seq<State>, steps: seq<Step>, i: nat, k: nat, id: AdapterId)
    requires IsRun(c, ss, steps) && Inv(c, ss[0]) && i <= k < |ss| && id in c.ids
    requires Has(ss[i].disk, id) && Undisturbed(c, ss, steps, i, k, id) && forall j :: i <= j < k ==> !steps[j].Crash?
    ensures Has(ss[k].disk, id) && !Doomed(ss[k], id)
  {
    hide Next, Enabled, Doomed, Dooms, Has;
    if i < k {
      UndisturbedStays(c, ss, steps, i, k - 1, id);
      RunInv(c, ss, steps, k - 1);
      SafeStep(c, ss[k - 1], steps[k - 1], id);
    }
  }

  /** Deletes of adapter directories succeed. */
  ghost predicate DeletesWork(step: Step) {
    step.DropOld? || step.DeleteVictim? || step.ClearTarget? || step.DeleteEvicted? ==> step.left == map[]
  }

  /** Gone, or about to be. */
  ghost predicate Going(s: State, id: AdapterId) {
    !Has(s.disk, id) || Pending(s, id)
  }

  lemma {:induction false} AbsentStays(c: Config, s: State, step: Step, id: AdapterId)
    requires Bounded(c, s) && Enabled(c, s, step) && id in c.ids && step != Install(id) && !Has(s.disk, id)
    ensures !Has(Next(c, s, step).disk, id)
  {
    if step.Deliver? || step.Install? {
      TmpNotId(c.ids, step.id, id);
    } else {
      StepInherits(c, s, step);
    }
  }

  /** Only its own deletes move an evacuating flight on. */
  lemma {:induction false} EvacuatingStays(c: Config, s: State, step: Step, f: AdapterId)
    requires Enabled(c, s, step) && !step.Crash? && f in s.flights && s.flights[f].Evacuating? && s.flights[f].victims != []
    requires !(step.DeleteVictim? && step.id == f)
    ensures f in Next(c, s, step).flights && Next(c, s, step).flights[f] == s.flights[f]
  {
    hide Leftover, Has, Rebuilt, CanRename, RemoveAll, Rename, Touched, Without, Kept, OldestFirst, Tagged, Mkdir, DirSize, Victims;
  }

  lemma {:induction false} VictimGoes(c: Config, s: State, step: Step, id: AdapterId)
    requires Bounded(c, s) && Enabled(c, s, step) && !step.Crash? && DeletesWork(step) && IsVictim(s, id)
    ensures Going(Next(c, s, step), id)
  {
    var f :| f in s.flights && s.flights[f].Evacuating? && id in s.flights[f].victims;
    if step.DeleteVictim? && step.id == f {
      DeleteEffect(c, s, step);
      VictimDeleted(c, s, step, id);
    } else {
      EvacuatingStays(c, s, step, f);
      hide Next, Enabled, Bounded, Has;
      assert IsVictim(Next(c, s, step), id);
    }
  }

  lemma {:induction false} VictimDeleted(c: Config, s: State, step: Step, id: AdapterId)
    requires Enabled(c, s, step) && step.DeleteVictim? && step.left == map[] && id in s.flights[step.id].victims
    requires s.flights[step.id].victims[0] !in Next(c, s, step).disk
    ensures Going(Next(c, s, step), id)
  {
    var vs, t := s.flights[step.id].victims, Next(c, s, step);
    if id != vs[0] {
      assert id in vs[1..];
      assert step.id in t.flights && t.flights[step.id].victims == vs[1..];
      assert IsVictim(t, id);
    }
  }

  lemma {:induction false} EvictingGoes(c: Config, s: State, step: Step, id: AdapterId)
    requires Bounded(c, s) && Enabled(c, s, step) && !step.Crash? && DeletesWork(step) && id in s.evicting
    ensures Going(Next(c, s, step), id)
  {
    hide IsVictim, Has, Leftover, RemoveAll, Rebuilt, CanRename, Victims, Touched, Without, Kept;
    if step == DeleteEvicted(id, map[]) {
      DeleteEffect(c, s, step);
      AbsentLacks(Next(c, s, step).disk, id);
    } else {
      assert id in Next(c, s, step).evicting;
    }
  }

  lemma {:induction false} AbsentLacks(d: Tree, id: AdapterId)
    requires id !in d
    ensures !Has(d, id)
  {
  }

  lemma {:induction false} DroppingStays(c: Config, s: State, step: Step, id: AdapterId)
    requires Enabled(c, s, step) && !step.Crash? && InPhase(s, id, Dropping) && !(step.DropOld? && step.id == id)
    ensures InPhase(Next(c, s, step), id, Dropping)
  {
    hide Leftover, Has, Rebuilt, CanRename, RemoveAll, Rename, Touched, Without, Kept, OldestFirst, Tagged, Mkdir, DirSize, Victims;
  }

  lemma {:induction false} DroppingGoes(c: Config, s: State, step: Step, id: AdapterId)
    requires Bounded(c, s) && Enabled(c, s, step) && !step.Crash? && DeletesWork(step) && InPhase(s, id, Dropping)
    ensures Going(Next(c, s, step), id)
  {
    if step.DropOld? && step.id == id {
      DeleteEffect(c, s, step);
      AbsentLacks(Next(c, s, step).disk, id);
    } else {
      DroppingStays(c, s, step, id);
    }
    hide Next, Enabled, Bounded, IsVictim, Has;
  }

  lemma {:induction false} GoingStays(c: Config, s: State, step: Step, id: AdapterId)
    requires Bounded(c, s) && Enabled(c, s, step) && !step.Crash? && DeletesWork(step)
    requires id in c.ids && step != Install(id) && Going(s, id)
    ensures Going(Next(c, s, step), id)
  {
    hide Next, Enabled, Bounded, Has, IsVictim, DeletesWork;
    if !Has(s.disk, id) {
      AbsentStays(c, s, step, id);
    } else if IsVictim(s, id) {
      VictimGoes(c, s, step, id);
    } else if id in s.evicting {
      EvictingGoes(c, s, step, id);
    } else {
      DroppingGoes(c, s, step, id);
    }
  }

  lemma {:induction false} DoomedGoes(c: Config, s: State, step: Step, id: AdapterId)
    requires Enabled(c, s, step) && Dooms(c, s, step, id)
    ensures Going(Next(c, s, step), id)
  {
    if step.MakeRoom? {
      assert IsVictim(Next(c, s, step), id) by { assert step.id in Next(c, s, step).flights; }
    }
  }

  lemma {:induction false} UndisturbedStep(c: Config, ss: seq<State>, steps: seq<Step>, i: nat, k: nat, id: AdapterId)
    requires IsRun(c, ss, steps) && i < k < |ss|
    ensures Undisturbed(c, ss, steps, i, k, id) <==> Undisturbed(c, ss, steps, i, k - 1, id) && !Dooms(c, ss[k - 1], steps[k - 1], id)
  {
    hide Next, Enabled, Dooms, Doomed;
  }

  lemma {:induction false} DisturbedGoes(c: Config, ss: seq<State>, steps: seq<Step>, i: nat, k: nat, id: AdapterId)
    requires IsRun(c, ss, steps) && Inv(c, ss[0]) && i <= k < |ss| && id in c.ids
    requires id in ss[i].flights ==> !PreInstall(ss[i].flights[id])
    requires forall j :: i <= j < k ==> !steps[j].Crash? && DeletesWork(steps[j]) && steps[j] != Install(id)
    requires !Undisturbed(c, ss, steps, i, k, id)
    ensures Going(ss[k], id)
  {
    hide Next, Enabled, Dooms, Doomed, Going, DeletesWork, Undisturbed, PreInstall;
    if i < k {
      RunInv(c, ss, steps, k - 1);
      UndisturbedStep(c, ss, steps, i, k, id);
      if Dooms(c, ss[k - 1], steps[k - 1], id) {
        DoomedGoes(c, ss[k - 1], steps[k - 1], id);
      } else {
        DisturbedGoes(c, ss, steps, i, k - 1, id);
        GoingStays(c, ss[k - 1], steps[k - 1], id);
      }
    } else {
      UndisturbedNow(c, ss, steps, i, id);
      DoomedUninstalled(ss[i], id);
    }
  }

  lemma {:induction false} UndisturbedNow(c: Config, ss: seq<State>, steps: seq<Step>, i: nat, id: AdapterId)
    requires IsRun(c, ss, steps) && i < |ss|
    ensures Undisturbed(c, ss, steps, i, i, id) <==> !Doomed(ss[i], id)
  {
    hide Next, Enabled, Doomed;
  }

  lemma {:induction false} DoomedUninstalled(s: State, id: AdapterId)
    requires Doomed(s, id) && (id in s.flights ==> !PreInstall(s.flights[id]))
    ensures Going(s, id)
  {
  }

  /**
   The condition in terms of what happens in between: an insertion whose adapter was
   found (by a hit) or put (by an install) on disk at step `i` lands if nothing took the
   adapter out of the index to delete it from then on; and, as long as deletes work,
   only if.
   */
  lemma {:induction false} LandsIffUndisturbed(c: Config, ss: seq<State>, steps: seq<Step>, i: nat, k: nat, id: AdapterId)
    requires IsRun(c, ss, steps) && Inv(c, ss[0]) && i < k < |steps|
    requires (steps[i] == CheckHit(id) || steps[i] == Install(id)) && (steps[k] == TouchHit(id) || steps[k] == Index(id))
    requires forall j :: i < j < k ==> !steps[j].Crash?
    ensures Undisturbed(c, ss, steps, i + 1, k, id) ==> Lands(ss[k], steps[k])
    ensures (forall j :: i < j < k ==> DeletesWork(steps[j]) && steps[j] != Install(id)) ==>
              (Lands(ss[k], steps[k]) <==> Undisturbed(c, ss, steps, i + 1, k, id))
  {
    RunInv(c, ss, steps, i);
    StepActor(c, ss[i], steps[i]);
    if steps[i].Install? {
      InstallFlight(c, ss[i], steps[i]);
    }
    if Undisturbed(c, ss, steps, i + 1, k, id) {
      UndisturbedStays(c, ss, steps, i + 1, k, id);
    } else if forall j :: i < j < k ==> DeletesWork(steps[j]) && steps[j] != Install(id) {
      DisturbedGoes(c, ss, steps, i + 1, k, id);
    }
  }

  /** Every insertion of the first `n` steps was preceded by its look at the disk, undisturbed since. */
  ghost predicate InsertionsUndisturbed(c: Config, ss: seq<State>, steps: seq<Step>, n: nat)
    requires IsRun(c, ss, steps) && n <= |steps|
  {
    forall k :: 0 <= k < n && Inserts(steps[k]) ==> exists i :: Looked(c, ss, steps, i, k)
  }

  ghost predicate Looked(c: Config, ss: seq<State>, steps: seq<Step>, i: int, k: nat)
    requires IsRun(c, ss, steps) && k < |steps| && Inserts(steps[k])
  {
    && 0 <= i < k && (steps[i] == CheckHit(steps[k].id) || steps[i] == Install(steps[k].id))
    && (forall j :: i < j < k ==> !steps[j].Crash?)
    && Undisturbed(c, ss, steps, i + 1, k, steps[k].id)
  }

  /**
   So the index lists only adapters on disk, in every run in which no eviction, no
   revalidation and no room-making picks an adapter between somebody's look at the disk
   and the index insertion that follows it.
   */
  lemma {:induction false} UndisturbedRunsAgree(c: Config, ss: seq<State>, steps: seq<Step>, n: nat)
    requires IsRun(c, ss, steps) && Inv(c, ss[0]) && Aligned(ss[0]) && n <= |steps| && InsertionsUndisturbed(c, ss, steps, n)
    ensures forall i :: 0 <= i <= n ==> Aligned(ss[i]) && IndexOnDisk(ss[i])
  {
    forall k | 0 <= k < n ensures Lands(ss[k], steps[k]) {
      if Inserts(steps[k]) {
        var i :| Looked(c, ss, steps, i, k);
        LandsIffUndisturbed(c, ss, steps, i, k, steps[k].id);
      }
    }
    AlignedIffInsertionsLand(c, ss, steps, n);
  }

  // ---------------------------------------------------------------------
  // What happens otherwise
  // ---------------------------------------------------------------------

  /** No filesystem call on an adapter's directory fails. */
  ghost predicate Smooth(c: Config, s: State, step: Step)
    requires Enabled(c, s, step)
  {
    && DeletesWork(step)
    && (step.Abort? && s.flights[step.id].Renamed? ==> step.id !in s.disk)
    && (step.DropHit? ==> step.id !in s.disk)
  }

  /** The steps lead from `s` to `t`, and no call on an adapter's directory fails on the way. */
  ghost predicate Leads(c: Config, s: State, steps: seq<Step>, t: State)
    decreases |steps|
  {
    if steps == [] then t == s
    else Enabled(c, s, steps[0]) && Smooth(c, s, steps[0]) && Leads(c, Next(c, s, steps[0]), steps[1..], t)
  }

  /** The same as a run. */
  lemma {:induction false} LeadsIsRun(c: Config, s: State, steps: seq<Step>, t: State) returns (ss: seq<State>)
    requires Leads(c, s, steps, t)
    ensures IsRun(c, ss, steps) && ss[0] == s && ss[|steps|] == t
    ensures forall k :: 0 <= k < |steps| ==> Smooth(c, ss[k], steps[k])
    decreases |steps|
  {
    hide Enabled, Next, Smooth;
    if steps == [] {
      ss := [s];
    } else {
      var rest := LeadsIsRun(c, Next(c, s, steps[0]), steps[1..], t);
      ss := [s] + rest;
      assert forall k :: 0 < k < |steps| ==> ss[k] == rest[k - 1] && ss[k + 1] == rest[k] && steps[k] == steps[1..][k - 1];
    }
  }

  lemma {:induction false} LeadsOne(c: Config, s: State, step: Step)
    requires Enabled(c, s, step) && Smooth(c, s, step)
    ensures Leads(c, s, [step], Next(c, s, step))
  {
    hide Enabled, Next, Smooth;
    assert Leads(c, Next(c, s, step), [step][1..], Next(c, s, step));
  }

  lemma {:induction false} LeadsOn(c: Config, s: State, first: seq<Step>, m: State, rest: seq<Step>, t: State)
    requires Leads(c, s, first, m) && Leads(c, m, rest, t)
    ensures Leads(c, s, first + rest, t)
    decreases |first|
  {
    hide Enabled, Next, Smooth;
    if first == [] {
      assert first + rest == rest;
    } else {
      assert (first + rest)[1..] == first[1..] + rest;
      LeadsOn(c, Next(c, s, first[0]), first[1..], m, rest, t);
    }
  }

  lemma {:induction false} LeadsStep(c: Config, s: State, first: seq<Step>, m: State, step: Step)
    requires Leads(c, s, first, m) && Enabled(c, m, step) && Smooth(c, m, step)
    ensures Leads(c, s, first + [step], Next(c, m, step))
  {
    hide Enabled, Next, Leads, Smooth;
    LeadsOne(c, m, step);
    LeadsOn(c, s, first, m, [step], Next(c, m, step));
  }

  /** A hit up to its directory scan. */
  lemma {:induction false} HitLooks(c: Config, s: State, id: AdapterId)
    requires id in c.ids && Has(s.disk, id) && id !in s.flights && id !in s.hits
    ensures Leads(c, s, [CheckHit(id), WeighHit(id)], s.(hits := s.hits[id := Weighed(DirSize(s.disk[id]))]))
  {
    hide Leads, DirSize;
    var m := s.(hits := s.hits[id := Found]);
    LeadsOne(c, s, CheckHit(id));
    assert m.hits[id := Weighed(DirSize(s.disk[id]))] == s.hits[id := Weighed(DirSize(s.disk[id]))];
    LeadsStep(c, s, [CheckHit(id)], m, WeighHit(id));
    assert [CheckHit(id)] + [WeighHit(id)] == [CheckHit(id), WeighHit(id)];
  }

  /** An eviction whose delete succeeds. */
  lemma {:induction false} Evicts(c: Config, s: State, id: AdapterId)
    requires id in c.ids
    ensures Leads(c, s, [Forget(id), DeleteEvicted(id, map[])], s.(lru := Without(s.lru, id), disk := RemoveAll(s.disk, id, map[])))
  {
    hide Leads, Without, RemoveAll;
    var m := s.(lru := Without(s.lru, id), evicting := s.evicting + multiset{id});
    LeadsOne(c, s, Forget(id));
    assert m.evicting - multiset{id} == s.evicting;
    LeadsStep(c, s, [Forget(id)], m, DeleteEvicted(id, map[]));
    assert [Forget(id)] + [DeleteEvicted(id, map[])] == [Forget(id), DeleteEvicted(id, map[])];
  }

  /** Room-making up to its first delete. */
  lemma {:induction false} MakesRoom(c: Config, s: State, other: AdapterId, size: nat)
    requires other in s.flights && s.flights[other] == Measured(size) && Victims(c, s, size) != []
    ensures var victims := Victims(c, s, size);
            Leads(c, s, [MakeRoom(other), DeleteVictim(other, map[])],
                  s.(lru := s.lru[..Kept(s.lru, size, c.maxSize)], disk := RemoveAll(s.disk, victims[0], map[]),
                     flights := s.flights[other := Evacuating(size, victims[1..])]))
  {
    hide Leads, Kept, OldestFirst, RemoveAll;
    var victims := Victims(c, s, size);
    var m := s.(lru := s.lru[..Kept(s.lru, size, c.maxSize)], flights := s.flights[other := Evacuating(size, victims)]);
    LeadsOne(c, s, MakeRoom(other));
    assert m.flights[other := Evacuating(size, victims[1..])] == s.flights[other := Evacuating(size, victims[1..])];
    LeadsStep(c, s, [MakeRoom(other)], m, DeleteVictim(other, map[]));
    assert [MakeRoom(other)] + [DeleteVictim(other, map[])] == [MakeRoom(other), DeleteVictim(other, map[])];
  }

  /** Looking, something else, touching. */
  lemma {:induction false} TouchesLate(c: Config, s: State, id: AdapterId, between: seq<Step>, m: State) returns (t: State)
    requires id in c.ids && Has(s.disk, id) && id !in s.flights && id !in s.hits
    requires Leads(c, s.(hits := s.hits[id := Weighed(DirSize(s.disk[id]))]), between, m)
    requires m.hits == s.hits[id := Weighed(DirSize(s.disk[id]))]
    ensures Leads(c, s, [CheckHit(id), WeighHit(id)] + between + [TouchHit(id)], t)
    ensures t.disk == m.disk && t.lru == Touched(m.lru, id, DirSize(s.disk[id]))
  {
    hide Leads, DirSize, Touched;
    var looked := s.(hits := s.hits[id := Weighed(DirSize(s.disk[id]))]);
    HitLooks(c, s, id);
    LeadsOn(c, s, [CheckHit(id), WeighHit(id)], looked, between, m);
    LeadsStep(c, s, [CheckHit(id), WeighHit(id)] + between, m, TouchHit(id));
    t := Next(c, m, TouchHit(id));
  }

  /** Whenever an adapter is on disk, the interleaving leaves it indexed and without a directory, though no call fails. */
  lemma {:induction false} EvictionOvertakesHit(c: Config, s: State, id: AdapterId) returns (t: State)
    requires Bounded(c, s) && id in c.ids && Has(s.disk, id) && id !in s.flights && id !in s.hits
    ensures Leads(c, s, [CheckHit(id), WeighHit(id), Forget(id), DeleteEvicted(id, map[]), TouchHit(id)], t)
    ensures id in Ids(t.lru) && !Has(t.disk, id)
  {
    hide Leads;
    var looked := s.(hits := s.hits[id := Weighed(DirSize(s.disk[id]))]);
    var between, m := [Forget(id), DeleteEvicted(id, map[])], looked.(lru := Without(s.lru, id), disk := RemoveAll(s.disk, id, map[]));
    Evicts(c, looked, id);
    t := TouchesLate(c, s, id, between, m);
    assert [CheckHit(id), WeighHit(id)] + between + [TouchHit(id)] ==
           [CheckHit(id), WeighHit(id), Forget(id), DeleteEvicted(id, map[]), TouchHit(id)];
    TouchedIds(m.lru, id, DirSize(s.disk[id]));
    RemoveAllFrame(c, s.disk, id, map[]);
  }

  lemma {:induction false} ReturnsToIndex(c: Config, s: State, id: AdapterId, size: nat)
    requires Unique(s.lru) && id in s.disk && Victims(c, s, size) != [] && Victims(c, s, size)[0] == id
    ensures var rest, n := s.lru[..Kept(s.lru, size, c.maxSize)], DirSize(s.disk[id]);
            id in Ids(Touched(rest, id, n)) && Total(Touched(rest, id, n)) == Total(rest) + n
  {
    var victims, rest := Victims(c, s, size), s.lru[..Kept(s.lru, size, c.maxSize)];
    VictimsLeave(c, s, size);
    assert victims[0] in Elements(victims);
    TouchedSpec(rest, id, DirSize(s.disk[id]));
    hide Touched, Kept, OldestFirst, DirSize, Total, Ids, Unique;
  }

  /** And so does another fetch that makes room with it; then the index also counts bytes that nobody made room for. */
  lemma {:induction false} RoomOvertakesHit(c: Config, s: State, id: AdapterId, other: AdapterId, size: nat) returns (t: State)
    requires Bounded(c, s) && id in c.ids && Has(s.disk, id) && id !in s.flights && id !in s.hits
    requires InPhase(s, other, Measured(size)) && Victims(c, s, size) != [] && Victims(c, s, size)[0] == id
    ensures Leads(c, s, [CheckHit(id), WeighHit(id), MakeRoom(other), DeleteVictim(other, map[]), TouchHit(id)], t)
    ensures id in Ids(t.lru) && !Has(t.disk, id)
    ensures Total(t.lru) == Total(s.lru[..Kept(s.lru, size, c.maxSize)]) + DirSize(s.disk[id])
  {
    hide Leads;
    var victims, rest := Victims(c, s, size), s.lru[..Kept(s.lru, size, c.maxSize)];
    var looked := s.(hits := s.hits[id := Weighed(DirSize(s.disk[id]))]);
    var between := [MakeRoom(other), DeleteVictim(other, map[])];
    var m := looked.(lru := rest, disk := RemoveAll(s.disk, id, map[]), flights := s.flights[other := Evacuating(size, victims[1..])]);
    MakesRoom(c, looked, other, size);
    t := TouchesLate(c, s, id, between, m);
    assert [CheckHit(id), WeighHit(id)] + between + [TouchHit(id)] ==
           [CheckHit(id), WeighHit(id), MakeRoom(other), DeleteVictim(other, map[]), TouchHit(id)];
    RemoveAllFrame(c, s.disk, id, map[]);
    ReturnsToIndex(c, s, id, size);
    hide Bounded, RemoveAll, Touched, Kept, OldestFirst, DirSize, Total, Ids, Enabled, Next;
  }
}
