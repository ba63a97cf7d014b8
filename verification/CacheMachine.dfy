/**
 The adapter cache as a state machine (internal/cache/manager.go, store.go):
 fetches of different adapters, cache hits, evictions, revalidations and crashes
 interleave, one filesystem call, one directory scan or one index operation at a
 time. An index operation and the filesystem calls before and after it are
 separate steps, because no lock covers them together.

 Premises that the code does not enforce and the guards below state: adapter IDs
 are `GoodIds`; while an adapter is being fetched no other fetch and no new hit of
 it starts (overlapping callers share one execution, and no ensure starts beside
 a revalidation's refetch); a successful origin fetch leaves the adapter
 configuration file.
 */
module CacheMachine {
  import opened Common
  import opened Lru
  import opened Staging
  import opened Disk

  datatype Config = Config(ids: set<AdapterId>, maxSize: int)

  /**
   How far one execution of `fetchFromOrigin` has come. `Dropping` comes first in a
   revalidation: the old copy has left the index but not yet the disk. `Evacuating`
   lists the adapters that room-making took out of the index and has not deleted yet.
   */
  datatype Phase =
    | Dropping
    | Starting
    | Swept
    | Fetching
    | Fetched
    | Stamped
    | Measured(size: nat)
    | Evacuating(size: nat, victims: seq<AdapterId>)
    | Cleared(size: nat)
    | Renamed(size: nat)
    | Scanned(size: nat, scan: nat)
    | Ended

  /** How far a hit has come: found on disk, or also measured for the index. */
  datatype Hit = Found | Weighed(scan: nat)

  /**
   `evicting` holds the adapters that an eviction has taken out of the index and not
   yet deleted; `delivered` and `written` record what origins handed over, for which adapter.
   */
  datatype State = State(
    disk: Tree,
    lru: seq<Entry>,
    flights: map<AdapterId, Phase>,
    hits: map<AdapterId, Hit>,
    evicting: multiset<AdapterId>,
    delivered: set<(AdapterId, Dir)>,
    written: set<(AdapterId, string, File)>)

  datatype Step =
    | Begin(id: AdapterId)
    | Drop(id: AdapterId)
    | DropOld(id: AdapterId, left: Tree)
    | SweepStaging(id: AdapterId, left: Tree)
    | MakeStaging(id: AdapterId, ok: bool)
    | Deliver(id: AdapterId, files: Dir, complete: bool)
    | WriteMeta(id: AdapterId, meta: Option<File>, ok: bool)
    | Measure(id: AdapterId)
    | MakeRoom(id: AdapterId)
    | DeleteVictim(id: AdapterId, left: Tree)
    | ClearTarget(id: AdapterId, left: Tree)
    | Install(id: AdapterId)
    | ScanInstalled(id: AdapterId)
    | Index(id: AdapterId)
    | Abort(id: AdapterId)
    | Cleanup(id: AdapterId, left: Tree)
    | CheckHit(id: AdapterId)
    | WeighHit(id: AdapterId)
    | TouchHit(id: AdapterId)
    | DropHit(id: AdapterId)
    | Forget(id: AdapterId)
    | DeleteEvicted(id: AdapterId, left: Tree)
    | RefreshMeta(id: AdapterId, stamp: File)
    | Join(id: AdapterId)
    | Crash(index: seq<Entry>)

  // ---------------------------------------------------------------------
  // Rebuilding the index from the disk
  // ---------------------------------------------------------------------

  /** The directories `Rebuild` takes for adapters. */
  ghost function Installed(d: Tree): set<AdapterId> {
    set k | k in d && CONFIG in d[k] && !(".tmp" <= k)
  }

  /** An index that `Rebuild` may produce from an empty one: each adapter once, newest first. */
  ghost predicate Rebuilt(d: Tree, index: seq<Entry>) {
    && Unique(index)
    && Ids(index) == Installed(d)
    && (forall i :: 0 <= i < |index| ==> index[i].id in d && index[i].size == DirSize(d[index[i].id]))
    && (forall i, j :: 0 <= i < j < |index| ==> ModTime(d, index[i].id) >= ModTime(d, index[j].id))
  }

  ghost function ModTime(d: Tree, id: AdapterId): int {
    if Has(d, id) then d[id][CONFIG].modTime else 0
  }

  // ---------------------------------------------------------------------
  // Steps
  // ---------------------------------------------------------------------

  ghost predicate InPhase(s: State, id: AdapterId, p: Phase) {
    id in s.flights && s.flights[id] == p
  }

  /** The fetch has not put its copy in place yet. */
  ghost predicate PreInstall(p: Phase) {
    !p.Renamed? && !p.Scanned? && !p.Ended?
  }

  ghost predicate Evacuated(p: Phase) {
    p.Evacuating? && p.victims == []
  }

  ghost function Victims(c: Config, s: State, size: nat): seq<AdapterId> {
    OldestFirst(s.lru[Kept(s.lru, size, c.maxSize)..])
  }

  /** A delete that succeeds or, failing, changes nothing. */
  ghost predicate AllOrNothing(d: Tree, p: string, left: Tree) {
    left == map[] || SameBut(d, RemoveAll(d, p, left), {})
  }

  ghost predicate Enabled(c: Config, s: State, step: Step) {
    match step
    case Begin(id) => id in c.ids && id !in s.flights && id !in s.hits && !Has(s.disk, id)
    case Drop(id) => id in c.ids && id !in s.flights
    case DropOld(id, left) => InPhase(s, id, Dropping) && Leftover(s.disk, id, left)
    case SweepStaging(id, left) => InPhase(s, id, Starting) && Leftover(s.disk, TmpPath(id), left)
    case MakeStaging(id, ok) => InPhase(s, id, Swept)
    case Deliver(id, files, complete) => InPhase(s, id, Fetching) && TmpPath(id) in s.disk && (complete ==> CONFIG in files)
    case WriteMeta(id, meta, ok) => InPhase(s, id, Fetched) && TmpPath(id) in s.disk && (ok ==> meta.Some?)
    case Measure(id) => InPhase(s, id, Stamped) && TmpPath(id) in s.disk
    case MakeRoom(id) => id in s.flights && s.flights[id].Measured?
    case DeleteVictim(id, left) =>
      && id in s.flights && s.flights[id].Evacuating? && s.flights[id].victims != []
      && Leftover(s.disk, s.flights[id].victims[0], left)
    case ClearTarget(id, left) => id in s.flights && Evacuated(s.flights[id]) && Leftover(s.disk, id, left)
    case Install(id) => id in s.flights && s.flights[id].Cleared? && CanRename(s.disk, TmpPath(id), id)
    case ScanInstalled(id) => id in s.flights && s.flights[id].Renamed? && id in s.disk
    case Index(id) => id in s.flights && s.flights[id].Scanned?
    case Abort(id) =>
      id in s.flights && (s.flights[id].Fetching? || s.flights[id].Stamped? || s.flights[id].Cleared? || s.flights[id].Renamed?)
    case Cleanup(id, left) => InPhase(s, id, Ended) && Leftover(s.disk, TmpPath(id), left)
    case CheckHit(id) => id in c.ids && id !in s.flights && id !in s.hits && Has(s.disk, id)
    case WeighHit(id) => id in s.hits && s.hits[id].Found? && id in s.disk
    case TouchHit(id) => id in s.hits && s.hits[id].Weighed?
    case DropHit(id) => id in s.hits && s.hits[id].Found?
    case Forget(id) => id in c.ids
    case DeleteEvicted(id, left) => id in s.evicting && Leftover(s.disk, id, left)
    case RefreshMeta(id, stamp) => id in c.ids && id !in s.flights && id in s.disk
    case Join(id) => id in s.flights || id in s.hits
    case Crash(index) => Rebuilt(s.disk, index)
  }

  ghost function Tagged(id: AdapterId, files: Dir): set<(AdapterId, string, File)> {
    set n | n in files :: (id, n, files[n])
  }

  ghost function Next(c: Config, s: State, step: Step): State
    requires Enabled(c, s, step)
  {
    match step
    case Begin(id) => s.(flights := s.flights[id := Starting])
    case Drop(id) => s.(lru := Without(s.lru, id), flights := s.flights[id := Dropping])
    case DropOld(id, left) =>
      s.(disk := RemoveAll(s.disk, id, left), flights := s.flights[id := Starting])
    case SweepStaging(id, left) =>
      s.(disk := RemoveAll(s.disk, TmpPath(id), left), flights := s.flights[id := Swept])
    case MakeStaging(id, ok) =>
      if !ok then s.(flights := s.flights - {id})
      else s.(disk := Mkdir(s.disk, TmpPath(id)), flights := s.flights[id := Fetching])
    case Deliver(id, files, complete) =>
      s.(disk := s.disk[TmpPath(id) := s.disk[TmpPath(id)] + files],
         written := s.written + Tagged(id, files),
         delivered := if complete then s.delivered + {(id, files)} else s.delivered,
         flights := s.flights[id := if complete then Fetched else Fetching])
    case WriteMeta(id, meta, ok) =>
      s.(disk := if meta.Some? then s.disk[TmpPath(id) := s.disk[TmpPath(id)][META := meta.value]] else s.disk,
         flights := s.flights[id := if ok then Stamped else Ended])
    case Measure(id) => s.(flights := s.flights[id := Measured(DirSize(s.disk[TmpPath(id)]))])
    case MakeRoom(id) =>
      var size := s.flights[id].size;
      s.(lru := s.lru[..Kept(s.lru, size, c.maxSize)],
         flights := s.flights[id := Evacuating(size, Victims(c, s, size))])
    case DeleteVictim(id, left) =>
      var p := s.flights[id];
      s.(disk := RemoveAll(s.disk, p.victims[0], left),
         flights := s.flights[id := if left == map[] then Evacuating(p.size, p.victims[1..]) else Ended])
    case ClearTarget(id, left) =>
      s.(disk := RemoveAll(s.disk, id, left), flights := s.flights[id := Cleared(s.flights[id].size)])
    case Install(id) =>
      s.(disk := Rename(s.disk, TmpPath(id), id), flights := s.flights[id := Renamed(s.flights[id].size)])
    case ScanInstalled(id) => s.(flights := s.flights[id := Scanned(s.flights[id].size, DirSize(s.disk[id]))])
    case Index(id) =>
      s.(lru := Touched(s.lru, id, s.flights[id].scan), flights := s.flights[id := Ended])
    case Abort(id) => s.(flights := s.flights[id := Ended])
    case Cleanup(id, left) =>
      s.(disk := RemoveAll(s.disk, TmpPath(id), left), flights := s.flights - {id})
    case CheckHit(id) => s.(hits := s.hits[id := Found])
    case WeighHit(id) => s.(hits := s.hits[id := Weighed(DirSize(s.disk[id]))])
    case TouchHit(id) => s.(lru := Touched(s.lru, id, s.hits[id].scan), hits := s.hits - {id})
    case DropHit(id) => s.(hits := s.hits - {id})
    case Forget(id) => s.(lru := Without(s.lru, id), evicting := s.evicting + multiset{id})
    case DeleteEvicted(id, left) => s.(disk := RemoveAll(s.disk, id, left), evicting := s.evicting - multiset{id})
    case RefreshMeta(id, stamp) => s.(disk := s.disk[id := s.disk[id][META := stamp]])
    case Join(id) => s
    case Crash(index) => s.(lru := index, flights := map[], hits := map[], evicting := multiset{})
  }

  function Mkdir(d: Tree, p: string): Tree {
    if p in d then d else d[p := map[]]
  }

  /** A run: states and the steps between them. */
  ghost predicate IsRun(c: Config, ss: seq<State>, steps: seq<Step>) {
    && |ss| == |steps| + 1
    && forall i :: 0 <= i < |steps| ==> Enabled(c, ss[i], steps[i]) && ss[i + 1] == Next(c, ss[i], steps[i])
  }

  // ---------------------------------------------------------------------
  // What each step does to the disk, directory by directory
  // ---------------------------------------------------------------------

  /** Everything lies in a directory some adapter may occupy. */
  ghost predicate Bounded(c: Config, s: State) {
    && GoodIds(c.ids)
    && s.disk.Keys <= Paths(c.ids)
    && s.flights.Keys <= c.ids && s.hits.Keys <= c.ids
    && (forall id :: id in s.evicting ==> id in c.ids)
    && (forall f, v :: f in s.flights && s.flights[f].Evacuating? && v in s.flights[f].victims ==> v in c.ids)
    && Unique(s.lru) && Ids(s.lru) <= c.ids
  }

  /** The two trees agree everywhere but on `ps`. */
  ghost predicate SameBut(d: Tree, e: Tree, ps: set<string>) {
    forall k :: k !in ps ==> (k in d <==> k in e) && (k in d ==> d[k] == e[k])
  }

  lemma {:induction false} RemoveAllFrame(c: Config, d: Tree, p: string, left: Tree)
    requires GoodIds(c.ids) && d.Keys <= Paths(c.ids) && p in Paths(c.ids) && Leftover(d, p, left)
    ensures SameBut(d, RemoveAll(d, p, left), {p})
    ensures p in RemoveAll(d, p, left) ==> p in d && Within(RemoveAll(d, p, left)[p], d[p])
    ensures left == map[] ==> p !in RemoveAll(d, p, left)
    ensures RemoveAll(d, p, left).Keys <= d.Keys
  {
    RemoveOnly(c.ids, d, p, left);
  }

  /** Deleting adapters in turn: only their directories change, and what a failed delete leaves was there before. */
  lemma {:induction false} SweepFrame(c: Config, d: Tree, paths: seq<string>, lefts: map<string, Tree>)
    requires GoodIds(c.ids) && d.Keys <= Paths(c.ids)
    requires forall p :: p in paths ==> p in c.ids
    requires Distinct(paths) && forall p :: p in paths && p in lefts ==> Leftover(d, p, lefts[p])
    ensures var e := Sweep(d, paths, lefts);
            && e.Keys <= d.Keys
            && SameBut(d, e, Elements(paths))
            && (forall p :: p in paths && p in e ==> p in d && Within(e[p], d[p]))
            && (Clean(paths, lefts) ==> forall p :: p in paths ==> p !in e)
    decreases |paths|
  {
    if paths != [] {
      var p, rest := paths[0], paths[1..];
      var left := LeftOf(lefts, p);
      assert p in paths;
      RemoveAllFrame(c, d, p, left);
      if left == map[] {
        var r := RemoveAll(d, p, left);
        forall q | q in rest && q in lefts ensures Leftover(r, q, lefts[q]) {
          SweepLeftover(c, d, p, q, lefts[q]);
        }
        assert forall q :: q in rest ==> q in paths && q != p;
        SweepFrame(c, r, rest, lefts);
        assert Clean(paths, lefts) ==> Clean(rest, lefts);
      } else {
        assert !Clean(paths, lefts);
      }
    }
  }

  lemma {:induction false} SweepLeftover(c: Config, d: Tree, p: string, q: string, left: Tree)
    requires GoodIds(c.ids) && d.Keys <= Paths(c.ids) && p in c.ids && q in c.ids && p != q
    requires Leftover(d, q, left)
    ensures Leftover(RemoveAll(d, p, map[]), q, left)
  {
    RemoveAllFrame(c, d, p, map[]);
    forall k | k in left ensures k in RemoveAll(d, p, map[]) {
      PathsApart(c.ids, q, k);
    }
  }

  lemma {:induction false} VictimsDistinct(s: seq<Entry>)
    requires Unique(s)
    ensures Distinct(OldestFirst(s)) && Elements(OldestFirst(s)) == Ids(s)
    decreases |s|
  {
    OldestFirstIds(s);
    if s != [] {
      var front, last := s[..|s| - 1], s[|s| - 1];
      VictimsDistinct(front);
      var o := OldestFirst(front);
      assert last.id !in Ids(front);
      assert forall i :: 0 <= i < |o| ==> o[i] in Elements(o);
    }
  }

  /** Room-making in the index: the victims are the entries that left it, oldest first and each once. */
  lemma {:induction false} VictimsLeave(c: Config, s: State, size: nat)
    requires Unique(s.lru)
    ensures var victims, rest := Victims(c, s, size), s.lru[..Kept(s.lru, size, c.maxSize)];
            && Unique(rest) && Distinct(victims)
            && Elements(victims) <= Ids(s.lru) && Ids(rest) == Ids(s.lru) - Elements(victims)
            && Elements(victims) == Ids(s.lru[Kept(s.lru, size, c.maxSize)..])
  {
    var k := Kept(s.lru, size, c.maxSize);
    UniquePrefix(s.lru, k);
    assert forall x :: x in s.lru[k..] ==> x in s.lru;
    assert Unique(s.lru[k..]);
    VictimsDistinct(s.lru[k..]);
  }
}
