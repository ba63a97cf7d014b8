/**
 What every step of the cache machine keeps, whatever interleaves and whatever
 filesystem call fails.
 */
module CacheInvariants {
  import opened Common
  import opened Lru
  import opened Staging
  import opened Disk
  import opened CacheMachine

  /** The phases in which the staging directory holds a finished download. */
  ghost predicate Holding(p: Phase) {
    p.Fetched? || p.Stamped? || p.Measured? || p.Evacuating? || p.Cleared?
  }

  /** `dir` holds every file of one successful download of `id`; the metadata file is the cache's own. */
  ghost predicate CopyOf(dir: Dir, id: AdapterId, files: Dir) {
    CONFIG in files && forall n :: n in files && n != META ==> n in dir && dir[n] == files[n]
  }

  ghost predicate Complete(s: State, id: AdapterId, dir: Dir) {
    exists files :: (id, files) in s.delivered && CopyOf(dir, id, files)
  }

  ghost predicate StagingComplete(s: State) {
    forall id :: id in s.flights ==> FlightOk(s, id)
  }

  /** What `StagingComplete` says of one flight. */
  ghost predicate FlightOk(s: State, id: AdapterId) {
    id in s.flights ==>
      && (s.flights[id].Fetching? || Holding(s.flights[id]) ==> TmpPath(id) in s.disk)
      && (Holding(s.flights[id]) ==> Complete(s, id, s.disk[TmpPath(id)]))
  }

  /** Everything in `dir` but the metadata file was written by fetches of `id`. */
  ghost predicate WrittenFor(s: State, id: AdapterId, dir: Dir) {
    forall n :: n in dir && n != META ==> (id, n, dir[n]) in s.written
  }

  ghost predicate OwnFilesOnly(c: Config, s: State) {
    forall id :: id in c.ids ==>
      && (id in s.disk ==> WrittenFor(s, id, s.disk[id]))
      && (TmpPath(id) in s.disk ==> WrittenFor(s, id, s.disk[TmpPath(id)]))
  }

  ghost predicate Inv(c: Config, s: State) {
    Bounded(c, s) && StagingComplete(s) && OwnFilesOnly(c, s)
  }

  /** A fresh cache over an empty directory. */
  ghost predicate Init(c: Config, s: State) {
    GoodIds(c.ids) && s == State(map[], [], map[], map[], multiset{}, {}, {})
  }

  lemma {:induction false} InitInv(c: Config, s: State)
    requires Init(c, s)
    ensures Inv(c, s)
  {
  }

  // ---------------------------------------------------------------------
  // Step by step
  // ---------------------------------------------------------------------

  /** The step is one `os.RemoveAll`. */
  ghost predicate Deletes(step: Step) {
    step.DropOld? || step.SweepStaging? || step.DeleteVictim? || step.ClearTarget? || step.Cleanup? || step.DeleteEvicted?
  }

  /** What it deletes. */
  ghost function Target(c: Config, s: State, step: Step): string
    requires Enabled(c, s, step) && Deletes(step)
  {
    match step
    case DeleteVictim(id, _) => s.flights[id].victims[0]
    case SweepStaging(id, _) => TmpPath(id)
    case Cleanup(id, _) => TmpPath(id)
    case _ => step.id
  }

  lemma {:induction false} DeleteEffect(c: Config, s: State, step: Step)
    requires Bounded(c, s) && Enabled(c, s, step) && Deletes(step)
    ensures var p, t := Target(c, s, step), Next(c, s, step);
            && p in Paths(c.ids) && Leftover(s.disk, p, step.left) && t.disk == RemoveAll(s.disk, p, step.left)
            && t.lru == s.lru && SameBut(s.disk, t.disk, {p}) && t.disk.Keys <= s.disk.Keys
            && (p in t.disk ==> p in s.disk && Within(t.disk[p], s.disk[p]))
            && (step.left == map[] ==> p !in t.disk)
  {
    var p := Target(c, s, step);
    if step.DeleteVictim? {
      assert p in s.flights[step.id].victims;
    }
    RemoveAllFrame(c, s.disk, p, step.left);
  }

  /** The directories a step may change. */
  ghost function Touches(c: Config, s: State, step: Step): set<string>
    requires Enabled(c, s, step)
  {
    if Deletes(step) then {Target(c, s, step)} else
      match step
      case MakeStaging(id, _) => {TmpPath(id)}
      case Deliver(id, _, _) => {TmpPath(id)}
      case WriteMeta(id, _, _) => {TmpPath(id)}
      case RefreshMeta(id, _) => {id}
      case Install(id) => {id, TmpPath(id)}
      case _ => {}
  }

  lemma {:induction false} WritesDisk(c: Config, s: State, step: Step)
    requires Enabled(c, s, step) && !Deletes(step)
    ensures SameBut(s.disk, Next(c, s, step).disk, Touches(c, s, step))
    ensures Next(c, s, step).disk.Keys <= s.disk.Keys + Touches(c, s, step)
  {
    hide Has, Leftover, Rebuilt, CanRename, Touched, Without, Kept, Victims, Tagged, RemoveAll, DirSize;
  }

  lemma {:induction false} StepDisk(c: Config, s: State, step: Step)
    requires Bounded(c, s) && Enabled(c, s, step)
    ensures SameBut(s.disk, Next(c, s, step).disk, Touches(c, s, step))
    ensures Touches(c, s, step) <= Paths(c.ids)
    ensures Next(c, s, step).disk.Keys <= Paths(c.ids)
  {
    if Deletes(step) {
      DeleteEffect(c, s, step);
    } else {
      WritesDisk(c, s, step);
      if !step.Crash? {
        StepActor(c, s, step);
      }
    }
    hide Next, Enabled;
  }

  /** The steps that write below the flight's own staging directory. */
  ghost predicate Stages(step: Step) {
    step.SweepStaging? || step.MakeStaging? || step.Deliver? || step.WriteMeta? || step.Install? || step.Cleanup?
  }

  lemma {:induction false} TouchesKind(c: Config, s: State, step: Step)
    requires Bounded(c, s) && Enabled(c, s, step) && !step.Crash?
    ensures Touches(c, s, step) <= c.ids + (if Stages(step) then {TmpPath(step.id)} else {})
  {
    StepActor(c, s, step);
    if step.DeleteVictim? {
      assert s.flights[step.id].victims[0] in s.flights[step.id].victims;
    }
  }

  lemma {:induction false} StagingSpared(c: Config, s: State, step: Step, id: AdapterId)
    requires Bounded(c, s) && Enabled(c, s, step) && !step.Crash? && id in c.ids && (id != step.id || !Stages(step))
    ensures TmpPath(id) !in Touches(c, s, step)
  {
    StepActor(c, s, step);
    TouchesKind(c, s, step);
    hide Touches, Enabled, Stages, Paths;
    if TmpPath(id) in c.ids {
      TmpNotId(c.ids, id, TmpPath(id));
    }
  }

  /** The index operations of the machine. */
  ghost predicate Inserts(step: Step) {
    step.Index? || step.TouchHit?
  }

  lemma {:induction false} InsertIndex(c: Config, s: State, step: Step)
    requires Bounded(c, s) && Enabled(c, s, step) && Inserts(step)
    ensures Unique(Next(c, s, step).lru) && Ids(Next(c, s, step).lru) == Ids(s.lru) + {step.id}
  {
    TouchedSpec(s.lru, step.id, if step.Index? then s.flights[step.id].scan else s.hits[step.id].scan);
    hide Touched, Unique, Ids;
  }

  lemma {:induction false} ForgetIndex(c: Config, s: State, step: Step)
    requires Bounded(c, s) && Enabled(c, s, step) && (step.Drop? || step.Forget?)
    ensures Unique(Next(c, s, step).lru) && Ids(Next(c, s, step).lru) == Ids(s.lru) - {step.id}
  {
    WithoutUnique(s.lru, step.id);
    WithoutIds(s.lru, step.id);
    hide Without, Unique, Ids;
  }

  lemma {:induction false} StepIndex(c: Config, s: State, step: Step)
    requires Bounded(c, s) && Enabled(c, s, step)
    ensures Unique(Next(c, s, step).lru)
    ensures step.Crash? ==> Ids(Next(c, s, step).lru) == Installed(s.disk)
    ensures step.Drop? || step.Forget? ==> Ids(Next(c, s, step).lru) == Ids(s.lru) - {step.id}
    ensures Inserts(step) ==> Ids(Next(c, s, step).lru) == Ids(s.lru) + {step.id}
    ensures step.MakeRoom? ==> Ids(Next(c, s, step).lru) == Ids(s.lru) - Elements(Victims(c, s, s.flights[step.id].size))
    ensures !step.Crash? && !Inserts(step) ==> Ids(Next(c, s, step).lru) <= Ids(s.lru)
    ensures !step.Crash? && !Inserts(step) && !step.Drop? && !step.Forget? && !step.MakeRoom? ==> Next(c, s, step).lru == s.lru
  {
    hide Touched, Without, Unique, Ids, Kept, OldestFirst;
    if Inserts(step) {
      InsertIndex(c, s, step);
    } else if step.Drop? || step.Forget? {
      ForgetIndex(c, s, step);
    } else if step.MakeRoom? {
      VictimsLeave(c, s, s.flights[step.id].size);
    }
  }

  lemma {:induction false} InstalledIsAdapter(c: Config, s: State, k: string)
    requires Bounded(c, s) && k in s.disk && !(".tmp" <= k)
    ensures k in c.ids
  {
    forall a | a in c.ids ensures k != TmpPath(a) { assert ".tmp" <= TmpPath(a); }
  }

  lemma {:induction false} StepActor(c: Config, s: State, step: Step)
    requires Bounded(c, s) && Enabled(c, s, step) && !step.Crash?
    ensures step.id in c.ids
    ensures s.delivered <= Next(c, s, step).delivered && s.written <= Next(c, s, step).written
  {
  }

  lemma {:induction false} StepVictims(c: Config, s: State, step: Step, f: AdapterId, v: AdapterId)
    requires Bounded(c, s) && Enabled(c, s, step)
    requires var t := Next(c, s, step); f in t.flights && t.flights[f].Evacuating? && v in t.flights[f].victims
    ensures v in c.ids
  {
    if step.MakeRoom? && step.id == f {
      VictimsLeave(c, s, s.flights[f].size);
      assert v in Elements(Victims(c, s, s.flights[f].size));
    } else if step.DeleteVictim? && step.id == f {
      assert v in s.flights[f].victims[1..];
    } else {
      assert f in s.flights && s.flights[f] == Next(c, s, step).flights[f];
    }
  }

  lemma {:induction false} StepBounded(c: Config, s: State, step: Step)
    requires Bounded(c, s) && Enabled(c, s, step)
    ensures Bounded(c, Next(c, s, step))
  {
    StepDisk(c, s, step);
    StepIndex(c, s, step);
    var t := Next(c, s, step);
    forall f, v | f in t.flights && t.flights[f].Evacuating? && v in t.flights[f].victims ensures v in c.ids {
      StepVictims(c, s, step, f, v);
    }
    if step.Crash? {
      forall k | k in Installed(s.disk) ensures k in c.ids { InstalledIsAdapter(c, s, k); }
    } else {
      StepActor(c, s, step);
    }
  }

  /** Another adapter's staging directory and flight are out of a step's reach. */
  lemma {:induction false} StepOthers(c: Config, s: State, step: Step, id: AdapterId)
    requires Bounded(c, s) && Enabled(c, s, step) && !step.Crash? && id in c.ids && id != step.id
    ensures TmpPath(id) !in Touches(c, s, step)
    ensures id in Next(c, s, step).flights <==> id in s.flights
    ensures id in s.flights ==> Next(c, s, step).flights[id] == s.flights[id]
  {
    StagingSpared(c, s, step, id);
    FlightsElsewhere(c, s, step);
    hide Touches, Bounded, Enabled, Next;
  }

  /** The steps that put a flight, or put it into another phase. */
  ghost predicate Moves(step: Step) {
    || step.Begin? || step.Drop? || step.DropOld? || step.SweepStaging? || (step.MakeStaging? && step.ok) || step.Deliver?
    || step.WriteMeta? || step.Measure? || step.MakeRoom? || step.DeleteVictim? || step.ClearTarget? || step.Install?
    || step.ScanInstalled? || step.Index? || step.Abort?
  }

  lemma {:induction false} MovesOwn(c: Config, s: State, step: Step)
    requires Enabled(c, s, step) && Moves(step)
    ensures var f := Next(c, s, step).flights; step.id in f && f == s.flights[step.id := f[step.id]]
  {
    hide Enabled, RemoveAll, Touched, Without, Tagged, Victims, Kept, DirSize, OldestFirst, Mkdir, Rename;
  }

  lemma {:induction false} LeavesOthers(c: Config, s: State, step: Step)
    requires Enabled(c, s, step) && !step.Crash? && !Moves(step)
    ensures Next(c, s, step).flights == s.flights || Next(c, s, step).flights == s.flights - {step.id}
  {
    hide Enabled, RemoveAll, Touched, Without, Tagged, Victims, Kept, DirSize, OldestFirst, Mkdir, Rename;
  }

  /** A step moves only its own flight. */
  lemma {:induction false} FlightsElsewhere(c: Config, s: State, step: Step)
    requires Enabled(c, s, step) && !step.Crash?
    ensures var f := Next(c, s, step).flights;
            f == s.flights || f == s.flights - {step.id} || (step.id in f && f == s.flights[step.id := f[step.id]])
  {
    hide Enabled, Next;
    if Moves(step) {
      MovesOwn(c, s, step);
    } else {
      LeavesOthers(c, s, step);
    }
  }

  // ---------------------------------------------------------------------
  // Staging directories hold complete downloads
  // ---------------------------------------------------------------------

  lemma {:induction false} CompleteKept(s: State, t: State, id: AdapterId, dir: Dir, dir': Dir)
    requires Complete(s, id, dir) && s.delivered <= t.delivered
    requires forall n :: n in dir && n != META ==> n in dir' && dir'[n] == dir[n]
    ensures Complete(t, id, dir')
  {
    var files :| (id, files) in s.delivered && CopyOf(dir, id, files);
    assert CopyOf(dir', id, files);
  }

  lemma {:induction false} FlightFramed(s: State, t: State, id: AdapterId, ps: set<string>)
    requires FlightOk(s, id) && id in s.flights && id in t.flights && (Holding(t.flights[id]) ==> Holding(s.flights[id]))
    requires t.flights[id].Fetching? ==> s.flights[id].Fetching?
    requires s.delivered <= t.delivered && SameBut(s.disk, t.disk, ps) && TmpPath(id) !in ps
    ensures FlightOk(t, id)
  {
    if Holding(t.flights[id]) {
      CompleteKept(s, t, id, s.disk[TmpPath(id)], t.disk[TmpPath(id)]);
    }
  }

  lemma {:induction false} DeliverFlight(c: Config, s: State, step: Step)
    requires Inv(c, s) && step.Deliver? && Enabled(c, s, step)
    ensures FlightOk(Next(c, s, step), step.id)
  {
    var t := Next(c, s, step);
    if step.complete {
      assert (step.id, step.files) in t.delivered && CopyOf(t.disk[TmpPath(step.id)], step.id, step.files);
    }
  }

  /** An install puts a complete copy in place. */
  lemma {:induction false} InstallFlight(c: Config, s: State, step: Step)
    requires Inv(c, s) && step.Install? && Enabled(c, s, step)
    ensures var t := Next(c, s, step); Has(t.disk, step.id) && Complete(t, step.id, t.disk[step.id])
  {
    var t := Next(c, s, step);
    CompleteKept(s, t, step.id, s.disk[TmpPath(step.id)], t.disk[step.id]);
    var files :| (step.id, files) in t.delivered && CopyOf(t.disk[step.id], step.id, files);
  }

  lemma {:induction false} WriteMetaFlight(c: Config, s: State, step: Step)
    requires Inv(c, s) && step.WriteMeta? && Enabled(c, s, step)
    ensures FlightOk(Next(c, s, step), step.id)
  {
    var t, id := Next(c, s, step), step.id;
    CompleteKept(s, t, id, s.disk[TmpPath(id)], t.disk[TmpPath(id)]);
  }

  /** The remaining steps of a flight leave its finished download in place. */
  lemma {:induction false} OwnFlight(c: Config, s: State, step: Step)
    requires Inv(c, s) && Enabled(c, s, step) && !step.Crash? && step.id in Next(c, s, step).flights
    ensures FlightOk(Next(c, s, step), step.id)
  {
    var t, id := Next(c, s, step), step.id;
    if step.Deliver? {
      DeliverFlight(c, s, step);
    } else if step.WriteMeta? {
      WriteMetaFlight(c, s, step);
    } else if Holding(t.flights[id]) || (t.flights[id].Fetching? && !step.MakeStaging?) {
      OwnUntouched(c, s, step);
      StepDisk(c, s, step);
      FlightFramed(s, t, id, Touches(c, s, step));
    }
  }

  lemma {:induction false} OwnUntouched(c: Config, s: State, step: Step)
    requires Bounded(c, s) && Enabled(c, s, step) && !step.Crash? && step.id in Next(c, s, step).flights
    requires !step.Deliver? && !step.WriteMeta? && !step.MakeStaging?
    requires var p := Next(c, s, step).flights[step.id]; Holding(p) || p.Fetching?
    ensures TmpPath(step.id) !in Touches(c, s, step) && step.id in s.flights && s.delivered == Next(c, s, step).delivered
    ensures Holding(Next(c, s, step).flights[step.id]) ==> Holding(s.flights[step.id])
    ensures Next(c, s, step).flights[step.id].Fetching? ==> s.flights[step.id].Fetching?
  {
    StepActor(c, s, step);
    OwnHolds(c, s, step);
    StagingSpared(c, s, step, step.id);
    hide Touches, Bounded, Enabled, Next;
  }

  lemma {:induction false} OwnHolds(c: Config, s: State, step: Step)
    requires Enabled(c, s, step) && !step.Crash? && step.id in Next(c, s, step).flights
    requires !step.Deliver? && !step.WriteMeta? && !step.MakeStaging?
    requires var p := Next(c, s, step).flights[step.id]; Holding(p) || p.Fetching?
    ensures !Stages(step) && step.id in s.flights && s.delivered == Next(c, s, step).delivered
    ensures Holding(Next(c, s, step).flights[step.id]) ==> Holding(s.flights[step.id])
    ensures Next(c, s, step).flights[step.id].Fetching? ==> s.flights[step.id].Fetching?
  {
    hide Has, Leftover, Rebuilt, CanRename, RemoveAll, Touched, Without, Tagged, Victims, Kept, DirSize;
  }

  lemma {:induction false} StepStaging(c: Config, s: State, step: Step)
    requires Inv(c, s) && Enabled(c, s, step) && !step.Crash?
    ensures StagingComplete(Next(c, s, step))
  {
    var t := Next(c, s, step);
    StepDisk(c, s, step);
    StepActor(c, s, step);
    StepBounded(c, s, step);
    forall id | id in t.flights ensures FlightOk(t, id) {
      if step.id == id {
        OwnFlight(c, s, step);
      } else {
        StepOthers(c, s, step, id);
        FlightFramed(s, t, id, Touches(c, s, step));
      }
    }
  }

  // ---------------------------------------------------------------------
  // Files stay with the adapter they were fetched for
  // ---------------------------------------------------------------------

  /** Every file of `e`, metadata aside, was in the same directory of `d`. */
  ghost predicate Inherits(d: Tree, e: Tree) {
    forall k, n :: k in e && n in e[k] && n != META ==> k in d && n in d[k] && e[k][n] == d[k][n]
  }

  lemma {:induction false} StepInherits(c: Config, s: State, step: Step)
    requires Bounded(c, s) && Enabled(c, s, step) && !step.Deliver? && !step.Install?
    ensures Inherits(s.disk, Next(c, s, step).disk)
  {
    if Deletes(step) {
      DeleteEffect(c, s, step);
    }
  }

  lemma {:induction false} OwnInherited(c: Config, s: State, t: State)
    requires OwnFilesOnly(c, s) && Inherits(s.disk, t.disk) && s.written <= t.written
    ensures OwnFilesOnly(c, t)
  {
  }

  lemma {:induction false} DeliverOwn(c: Config, s: State, step: Step)
    requires Inv(c, s) && Enabled(c, s, step) && step.Deliver?
    ensures OwnFilesOnly(c, Next(c, s, step))
  {
    var t, tmp := Next(c, s, step), TmpPath(step.id);
    forall id | id in c.ids && id in t.disk ensures WrittenFor(t, id, t.disk[id]) {
      TmpNotId(c.ids, step.id, id);
    }
    forall id | id in c.ids && TmpPath(id) in t.disk ensures WrittenFor(t, id, t.disk[TmpPath(id)]) {
      if id == step.id {
        var dir := t.disk[tmp];
        forall n | n in dir && n != META ensures (id, n, dir[n]) in t.written {
          if n in step.files {
            assert (id, n, step.files[n]) in Tagged(id, step.files);
          }
        }
      } else {
        assert TmpPath(id) != tmp;
      }
    }
  }

  lemma {:induction false} InstallOwn(c: Config, s: State, step: Step)
    requires Inv(c, s) && Enabled(c, s, step) && step.Install?
    ensures OwnFilesOnly(c, Next(c, s, step))
  {
    var t := Next(c, s, step);
    forall id | id in c.ids
      ensures id in t.disk ==> WrittenFor(t, id, t.disk[id])
      ensures TmpPath(id) in t.disk ==> WrittenFor(t, id, t.disk[TmpPath(id)])
    {
      TmpNotId(c.ids, step.id, id);
      TmpNotId(c.ids, id, step.id);
    }
  }

  /** One directory's files stay the work of one adapter's fetches: staging directories are never shared. */
  lemma {:induction false} StepOwnFiles(c: Config, s: State, step: Step)
    requires Inv(c, s) && Enabled(c, s, step)
    ensures OwnFilesOnly(c, Next(c, s, step))
  {
    if step.Deliver? {
      DeliverOwn(c, s, step);
    } else if step.Install? {
      InstallOwn(c, s, step);
    } else {
      StepInherits(c, s, step);
      OwnInherited(c, s, Next(c, s, step));
    }
  }

  /** Every step keeps the invariant. */
  lemma {:induction false} StepInv(c: Config, s: State, step: Step)
    requires Inv(c, s) && Enabled(c, s, step)
    ensures Inv(c, Next(c, s, step))
  {
    StepBounded(c, s, step);
    if !step.Crash? {
      StepStaging(c, s, step);
    }
    StepOwnFiles(c, s, step);
  }

  /** Safety over whole runs, crashes included: the invariant holds in every state. */
  lemma {:induction false} RunInv(c: Config, ss: seq<State>, steps: seq<Step>, i: nat)
    requires IsRun(c, ss, steps) && Inv(c, ss[0]) && i < |ss|
    ensures Inv(c, ss[i])
  {
    if i > 0 {
      RunInv(c, ss, steps, i - 1);
      StepInv(c, ss[i - 1], steps[i - 1]);
    }
  }
}
