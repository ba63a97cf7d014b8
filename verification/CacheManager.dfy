/**
 The cache manager (internal/cache/manager.go), step by step on real fields. The
 ghost field `st` runs the cache machine alongside: every call is a run of machine
 steps, so all the machine's invariants hold of the manager. What the filesystem,
 the clock and the origins answer is passed in as a script.
 */
module CacheManager {
  import opened Common
  import opened Lru
  import opened Staging
  import opened Disk
  import opened CacheMachine
  import opened CacheReached
  import opened CacheMeta
  import opened CheckTiming
  import opened AdapterStore
  import R = Revalidation

  /** One origin's answer to `Fetch`: what it wrote, and its identity when it succeeded. */
  datatype Download =
    | Failed(partial: Dir)
    | Succeeded(files: Dir, origin: string, etag: string, revision: string)

  /** The script of one `fetchFromOrigin`. */
  datatype FetchIO = FetchIO(
    sweepLeft: Tree,
    mkdirOk: bool,
    downloads: seq<Download>,
    now: int,
    metaSize: nat,
    meta: MetaWrite,
    measureOk: bool,
    evictLeft: map<string, Tree>,
    clearLeft: Tree,
    parentOk: bool,
    renameOk: bool,
    touchOk: bool,
    cleanupLeft: Tree)

  /** Origins keep their promise: a successful fetch leaves the configuration file. */
  ghost predicate Honest(downloads: seq<Download>) {
    forall i :: 0 <= i < |downloads| && downloads[i].Succeeded? ==> CONFIG in downloads[i].files
  }

  /** No filesystem call fails. */
  predicate Flawless(io: FetchIO) {
    && io.sweepLeft == map[] && io.mkdirOk && io.meta.Written? && io.measureOk && io.evictLeft == map[]
    && io.clearLeft == map[] && io.parentOk && io.renameOk && io.touchOk && io.cleanupLeft == map[]
  }

  /** Every list of origins' answers has a script in which the filesystem never fails. */
  lemma {:induction false} FlawlessScript(downloads: seq<Download>, now: int, metaSize: nat)
    ensures Flawless(FetchIO(map[], true, downloads, now, metaSize, Written, true, map[], map[], true, true, true, map[]))
  {
  }

  function Delivered(d: Download): Dir {
    if d.Failed? then d.partial else d.files
  }

  /** The staging directory after trying origins in order up to the first success. */
  function Staged(base: Dir, downloads: seq<Download>): Dir
    decreases |downloads|
  {
    if downloads == [] then base
    else if downloads[0].Succeeded? then base + downloads[0].files
    else Staged(base + downloads[0].partial, downloads[1..])
  }

  /** The first origin that answers, if any. */
  function FirstSuccess(downloads: seq<Download>): Option<Download> {
    if downloads == [] then None
    else if downloads[0].Succeeded? then Some(downloads[0])
    else FirstSuccess(downloads[1..])
  }

  function FirstAnswer(heads: seq<Option<Head>>): Option<Head> {
    if heads == [] then None else if heads[0].Some? then heads[0] else FirstAnswer(heads[1..])
  }

  function StampFor(d: Download, now: int, size: nat, ttlSeconds: int): File
    requires d.Succeeded?
  {
    File(size, now, Stamp(Meta(d.origin, d.etag, d.revision, now, ttlSeconds)))
  }

  /** The same identity and time to live, fetched at `now` as far as the metadata goes. */
  ghost function Renewed(m: Meta, now: int): (r: Meta)
    ensures r.origin == m.origin && r.etag == m.etag && r.revision == m.revision && r.ttlSeconds == m.ttlSeconds && r.fetchedAt == now
  {
    Meta(m.origin, m.etag, m.revision, now, m.ttlSeconds)
  }

  /** The file records what the origin said of its copy, when, and for how long to trust it. */
  ghost predicate RecordsOf(file: File, d: Download, now: int, ttl: int) {
    d.Succeeded? && Records(file, d.origin, d.etag, d.revision, now, ttl)
  }

  lemma {:induction false} StampRecords(d: Download, now: int, size: nat, ttl: int, secs: int)
    requires d.Succeeded? && WholeSeconds(ttl, secs)
    ensures RecordsOf(StampFor(d, now, size, secs), d, now, ttl) && StampFor(d, now, size, secs).size == size
  {
  }

  /** The directory holds every file of the origin's copy as it came, and records the fetch. */
  ghost predicate Carries(dir: Dir, d: Download, now: int, ttl: int) {
    && d.Succeeded? && META in dir && RecordsOf(dir[META], d, now, ttl)
    && forall n :: n in d.files && n != META ==> n in dir && dir[n] == d.files[n]
  }

  /**
   From fetch to check: a copy as fetched is recognised when its origin repeats the
   identity it gave, if and only if it gave one, and never when the origin names another
   ETag than it did.
   */
  lemma {:induction false} FetchedIdentityIff(dir: Dir, win: Download, now: int, ttl: int, h: Head)
    requires Carries(dir, win, now, ttl)
    ensures ReadMeta(dir).Some?
    ensures SameContent(Head(win.etag, win.revision), ReadMeta(dir).value) <==> win.etag != "" || win.revision != ""
    ensures h.etag != "" && win.etag != "" && h.etag != win.etag ==> !SameContent(h, ReadMeta(dir).value)
  {
    RepeatedIdentityIff(dir[META].body.meta);
    OtherIdentityDiffers(h, dir[META].body.meta);
  }

  // ---------------------------------------------------------------------
  // What a fetch leaves behind
  // ---------------------------------------------------------------------

  /** Room for `size` bytes: the index lost its shortest suffix that had to go, the disk those directories and nothing else. */
  ghost predicate Roomy(c: Config, d: Tree, lru: seq<Entry>, e: Tree, lru': seq<Entry>, id: AdapterId, size: nat) {
    var k := Kept(lru, size, c.maxSize);
    && lru' == lru[..k]
    && SameBut(d, e, Ids(lru[k..]) + {TmpPath(id)})
    && Ids(lru[k..]) !! e.Keys
  }

  /** A fetch that succeeded: exactly the room its bytes needed was made, and it is the most recent entry. */
  ghost predicate Placed(c: Config, d: Tree, lru: seq<Entry>, e: Tree, lru': seq<Entry>, id: AdapterId)
    requires id in e
  {
    var k := Kept(lru, DirSize(e[id]), c.maxSize);
    && lru' == Touched(lru[..k], id, DirSize(e[id]))
    && SameBut(d, e, Ids(lru[k..]) + {id, TmpPath(id)})
    && Ids(lru[k..]) !! e.Keys
  }

  /** A fetch that failed: at most its own directories and those of least recent entries are different. */
  ghost predicate Shed(d: Tree, lru: seq<Entry>, e: Tree, lru': seq<Entry>, id: AdapterId) {
    exists k :: 0 <= k <= |lru| && lru' == lru[..k] && SameBut(d, e, Ids(lru[k..]) + {id, TmpPath(id)})
  }

  lemma {:induction false} FrameTrans(d: Tree, e: Tree, f: Tree, ps: set<string>, qs: set<string>, rs: set<string>)
    requires SameBut(d, e, ps) && SameBut(e, f, qs) && ps <= rs && qs <= rs
    ensures SameBut(d, f, rs)
  {
    forall k | k !in rs ensures (k in d <==> k in f) && (k in d ==> d[k] == f[k]) {
      assert k !in ps && k !in qs;
    }
  }

  lemma {:induction false} FramesJoin(d: Tree, e: Tree, f: Tree, id: AdapterId)
    requires SameBut(d, e, {TmpPath(id)})
    ensures SameBut(e, f, {TmpPath(id)}) ==> SameBut(d, f, {TmpPath(id)})
  {
    if SameBut(e, f, {TmpPath(id)}) {
      FrameTrans(d, e, f, {TmpPath(id)}, {TmpPath(id)}, {TmpPath(id)});
    }
  }

  lemma {:induction false} Untouched(d: Tree, ps: set<string>)
    ensures SameBut(d, d, ps)
  {
  }

  lemma {:induction false} ChangedAt(d: Tree, p: string, dir: Dir)
    ensures SameBut(d, d[p := dir], {p})
  {
  }

  lemma {:induction false} ShedNothing(d: Tree, lru: seq<Entry>, e: Tree, id: AdapterId)
    requires SameBut(d, e, {TmpPath(id)})
    ensures Shed(d, lru, e, lru, id)
  {
    assert lru[..|lru|] == lru;
  }

  lemma {:induction false} ShedFramed(d0: Tree, d: Tree, lru: seq<Entry>, e: Tree, lru': seq<Entry>, f: Tree, id: AdapterId)
    requires SameBut(d0, d, {TmpPath(id)}) && Shed(d, lru, e, lru', id) && SameBut(e, f, {id, TmpPath(id)})
    ensures Shed(d0, lru, f, lru', id)
  {
    var k :| 0 <= k <= |lru| && lru' == lru[..k] && SameBut(d, e, Ids(lru[k..]) + {id, TmpPath(id)});
    FrameTrans(d0, d, e, {TmpPath(id)}, Ids(lru[k..]) + {id, TmpPath(id)}, Ids(lru[k..]) + {id, TmpPath(id)});
    FrameTrans(d0, e, f, Ids(lru[k..]) + {id, TmpPath(id)}, {id, TmpPath(id)}, Ids(lru[k..]) + {id, TmpPath(id)});
  }

  lemma {:induction false} ShedAfter(d0: Tree, d: Tree, lru: seq<Entry>, e: Tree, lru': seq<Entry>, id: AdapterId)
    requires SameBut(d0, d, {TmpPath(id)}) && Shed(d, lru, e, lru', id)
    ensures Shed(d0, lru, e, lru', id)
  {
    assert SameBut(e, e, {id, TmpPath(id)});
    ShedFramed(d0, d, lru, e, lru', e, id);
  }

  lemma {:induction false} PlacedFramed(c: Config, d0: Tree, d: Tree, lru: seq<Entry>, e: Tree, lru': seq<Entry>, f: Tree, id: AdapterId)
    requires SameBut(d0, d, {TmpPath(id)}) && id in e && Placed(c, d, lru, e, lru', id)
    requires SameBut(e, f, {TmpPath(id)}) && f.Keys <= e.Keys && TmpPath(id) != id
    ensures id in f && Placed(c, d0, lru, f, lru', id)
  {
    var ps := Ids(lru[Kept(lru, DirSize(e[id]), c.maxSize)..]) + {id, TmpPath(id)};
    FrameTrans(d0, d, e, {TmpPath(id)}, ps, ps);
    FrameTrans(d0, e, f, ps, {TmpPath(id)}, ps);
    assert f[id] == e[id];
  }

  lemma {:induction false} RoomyFramed(c: Config, d0: Tree, d: Tree, lru: seq<Entry>, e: Tree, lru': seq<Entry>, id: AdapterId, size: nat)
    requires SameBut(d0, d, {TmpPath(id)}) && Roomy(c, d, lru, e, lru', id, size)
    ensures Roomy(c, d0, lru, e, lru', id, size)
  {
    var ps := Ids(lru[Kept(lru, size, c.maxSize)..]) + {TmpPath(id)};
    FrameTrans(d0, d, e, {TmpPath(id)}, ps, ps);
  }

  /** The fetched adapter's own directory may have changed before the fetch. */
  lemma {:induction false} DroppedThenFetched(c: Config, d0: Tree, d: Tree, lru: seq<Entry>, e: Tree, lru': seq<Entry>, id: AdapterId)
    requires SameBut(d0, d, {id})
    ensures id in e && Placed(c, d, lru, e, lru', id) ==> Placed(c, d0, lru, e, lru', id)
    ensures Shed(d, lru, e, lru', id) ==> Shed(d0, lru, e, lru', id)
  {
    if id in e && Placed(c, d, lru, e, lru', id) {
      var ps := Ids(lru[Kept(lru, DirSize(e[id]), c.maxSize)..]) + {id, TmpPath(id)};
      FrameTrans(d0, d, e, {id}, ps, ps);
    }
    if Shed(d, lru, e, lru', id) {
      var k :| 0 <= k <= |lru| && lru' == lru[..k] && SameBut(d, e, Ids(lru[k..]) + {id, TmpPath(id)});
      FrameTrans(d0, d, e, {id}, Ids(lru[k..]) + {id, TmpPath(id)}, Ids(lru[k..]) + {id, TmpPath(id)});
    }
  }

  /** Room, then rename and index: the fetch succeeded. */
  lemma {:induction false} RoomyThenPlaced(c: Config, d: Tree, lru: seq<Entry>, e: Tree, mid: seq<Entry>, f: Tree, id: AdapterId, size: nat)
    requires Roomy(c, d, lru, e, mid, id, size) && SameBut(e, f, {id, TmpPath(id)}) && id !in Ids(lru)
    requires id in f && DirSize(f[id]) == size && f.Keys <= e.Keys + {id}
    ensures Placed(c, d, lru, f, Touched(mid, id, size), id)
  {
    var k := Kept(lru, size, c.maxSize);
    FrameTrans(d, e, f, Ids(lru[k..]) + {TmpPath(id)}, {id, TmpPath(id)}, Ids(lru[k..]) + {id, TmpPath(id)});
    assert forall x :: x in lru[k..] ==> x in lru;
    assert id !in Ids(lru[k..]);
  }

  /** Room, and then something failed. */
  lemma {:induction false} RoomyThenShed(c: Config, d: Tree, lru: seq<Entry>, e: Tree, mid: seq<Entry>, f: Tree, id: AdapterId, size: nat)
    requires Roomy(c, d, lru, e, mid, id, size) && SameBut(e, f, {id, TmpPath(id)})
    ensures Shed(d, lru, f, mid, id)
  {
    var k := Kept(lru, size, c.maxSize);
    FrameTrans(d, e, f, Ids(lru[k..]) + {TmpPath(id)}, {id, TmpPath(id)}, Ids(lru[k..]) + {id, TmpPath(id)});
  }

  // ---------------------------------------------------------------------
  // What stretches of a fetch do to the machine state
  // ---------------------------------------------------------------------

  /** Making room for an adapter touches neither its staging directory nor its own directory. */
  lemma {:induction false} RoomedSpec(c: Config, s: State, id: AdapterId, size: nat, lefts: map<string, Tree>)
    requires Reached(c, s) && InPhase(s, id, Measured(size)) && forall v :: v in lefts ==> Leftover(s.disk, v, lefts[v])
    ensures var victims, rest := Victims(c, s, size), s.lru[..Kept(s.lru, size, c.maxSize)];
            var e := Sweep(s.disk, victims, lefts);
            && SameAt(s.disk, e, TmpPath(id))
            && (if Clean(victims, lefts) then Roomy(c, s.disk, s.lru, e, rest, id, size) else Shed(s.disk, s.lru, e, rest, id))
            && (lefts == map[] ==> Clean(victims, lefts))
  {
    ReachedInv(c, s);
    var victims, k := Victims(c, s, size), Kept(s.lru, size, c.maxSize);
    var e := Sweep(s.disk, victims, lefts);
    VictimsLeave(c, s, size);
    assert forall v :: v in victims ==> v in Elements(victims);
    SweepFrame(c, s.disk, victims, lefts);
    forall v | v in c.ids ensures v != TmpPath(id) { TmpNotId(c.ids, id, v); }
    assert SameBut(s.disk, e, Ids(s.lru[k..]) + {TmpPath(id)});
    assert SameBut(s.disk, e, Ids(s.lru[k..]) + {id, TmpPath(id)});
  }

  /** The directory a flawless fetch installs. */
  function Finished(io: FetchIO, ttlSeconds: int): Dir
    requires FirstSuccess(io.downloads).Some? && FirstSuccess(io.downloads).value.Succeeded?
  {
    Staged(map[], io.downloads)[META := StampFor(FirstSuccess(io.downloads).value, io.now, io.metaSize, ttlSeconds)]
  }

  /** The names of the files that origins left in the staging directory before they failed. */
  function Leavings(downloads: seq<Download>): set<string> {
    if downloads == [] || downloads[0].Succeeded? then {} else downloads[0].partial.Keys + Leavings(downloads[1..])
  }

  lemma {:induction false} StagedIs(base: Dir, downloads: seq<Download>)
    requires FirstSuccess(downloads).Some? && FirstSuccess(downloads).value.Succeeded?
    ensures Staged(base, downloads).Keys == base.Keys + Leavings(downloads) + FirstSuccess(downloads).value.files.Keys
    ensures forall n :: n in FirstSuccess(downloads).value.files ==> Staged(base, downloads)[n] == FirstSuccess(downloads).value.files[n]
    decreases |downloads|
  {
    if !downloads[0].Succeeded? {
      StagedIs(base + downloads[0].partial, downloads[1..]);
    }
  }

  /** Whatever was left behind, the installed directory carries the winning origin's copy. */
  lemma {:induction false} StagedCarries(base: Dir, io: FetchIO, ttl: int, secs: int)
    requires FirstSuccess(io.downloads).Some? && FirstSuccess(io.downloads).value.Succeeded? && WholeSeconds(ttl, secs)
    ensures var win := FirstSuccess(io.downloads).value;
            Carries(Staged(base, io.downloads)[META := StampFor(win, io.now, io.metaSize, secs)], win, io.now, ttl)
  {
    StagedIs(base, io.downloads);
    StampRecords(FirstSuccess(io.downloads).value, io.now, io.metaSize, ttl, secs);
    hide Staged, FirstSuccess, StampFor, Records;
  }

  /**
   What a flawless fetch installs is the winning origin's copy, and nothing else, if and
   only if every file that an origin left behind before failing, other than the metadata
   file, has a file of the winner under the same name.
   */
  lemma {:induction false} FinishedIsPureIff(io: FetchIO, ttlSeconds: int)
    requires FirstSuccess(io.downloads).Some? && FirstSuccess(io.downloads).value.Succeeded?
    ensures var win := FirstSuccess(io.downloads).value;
            Finished(io, ttlSeconds) == win.files[META := StampFor(win, io.now, io.metaSize, ttlSeconds)]
            <==> Leavings(io.downloads) - {META} <= win.files.Keys
  {
    var win := FirstSuccess(io.downloads).value;
    var pure, got := win.files[META := StampFor(win, io.now, io.metaSize, ttlSeconds)], Finished(io, ttlSeconds);
    StagedIs(map[], io.downloads);
    assert got.Keys == Leavings(io.downloads) + win.files.Keys + {META};
    assert pure.Keys == win.files.Keys + {META};
    if Leavings(io.downloads) - {META} <= win.files.Keys {
      assert got.Keys == pure.Keys;
      assert forall n :: n in pure ==> got[n] == pure[n];
    } else {
      var n :| n in Leavings(io.downloads) && n != META && n !in win.files;
      assert n in got && n !in pure;
    }
  }

  /** A failed origin's file that is installed with the next origin's copy. */
  lemma {:induction false} FailedOriginLeaks(weights: File, config: File)
    ensures var downloads := [Failed(map["weights" := weights]), Succeeded(map[CONFIG := config], "hub", "v2", "")];
            FirstSuccess(downloads) == Some(downloads[1]) && "weights" !in downloads[1].files && "weights" in Staged(map[], downloads)
  {
    var downloads := [Failed(map["weights" := weights]), Succeeded(map[CONFIG := config], "hub", "v2", "")];
    assert downloads[1..][0] == downloads[1];
    assert FirstSuccess(downloads[1..]) == Some(downloads[1]);
    StagedIs(map[], downloads);
    assert "weights" in downloads[0].partial.Keys;
  }

  /** One round of the loop over origins. */
  lemma {:induction false} OriginRound(downloads: seq<Download>, i: nat, dir: Dir)
    requires i < |downloads|
    ensures downloads[i].Succeeded? ==> FirstSuccess(downloads[i..]) == Some(downloads[i])
    ensures !downloads[i].Succeeded? ==> FirstSuccess(downloads[i..]) == FirstSuccess(downloads[i + 1..])
    ensures downloads[i].Succeeded? ==> Staged(dir, downloads[i..]) == dir + Delivered(downloads[i])
    ensures !downloads[i].Succeeded? ==> Staged(dir, downloads[i..]) == Staged(dir + Delivered(downloads[i]), downloads[i + 1..])
  {
    assert downloads[i..][0] == downloads[i] && downloads[i..][1..] == downloads[i + 1..];
  }

  lemma {:induction false} FirstSuccessSucceeded(downloads: seq<Download>)
    ensures FirstSuccess(downloads).Some? ==> FirstSuccess(downloads).value.Succeeded?
  {
    if downloads != [] {
      FirstSuccessSucceeded(downloads[1..]);
    }
  }

  lemma {:induction false} IndexedIsPresent(c: Config, s: State, id: AdapterId)
    requires Reached(c, s) && id in Ids(s.lru)
    ensures Has(s.disk, id)
  {
    ReachedInv(c, s);
  }

  lemma {:induction false} StartingApart(c: Config, s: State, id: AdapterId)
    requires Reached(c, s) && id in s.flights
    ensures id in c.ids && TmpPath(id) != id
  {
    ReachedInv(c, s);
    TmpNotId(c.ids, id, id);
  }

  datatype Ensured = Cached | Fetched | Unavailable

  class Manager {
    const store: Store
    const originCount: nat
    const ttl: int
    var revalidating: set<AdapterId>
    ghost const c: Config
    ghost var st: State

    /** The ghost machine mirrors the store, in a state some run reaches. */
    ghost predicate Valid()
      reads this, store, store.lru
    {
      && store.Valid()
      && st.disk == store.disk
      && st.lru == store.lru.Contents()
      && c.maxSize == store.lru.maxSize
      && Reached(c, st) && Calm(st)
    }

    constructor (store: Store, originCount: nat, ttl: int, ghost c: Config, ghost st: State)
      requires store.Valid() && st.disk == store.disk && st.lru == store.lru.Contents() && c.maxSize == store.lru.maxSize
      requires Reached(c, st) && Calm(st)
      ensures Valid() && this.store == store && this.c == c && this.st == st && revalidating == {}
      ensures this.originCount == originCount && this.ttl == ttl
    {
      this.store, this.originCount, this.ttl := store, originCount, ttl;
      this.c, this.st := c, st;
      revalidating := {};
    }

    /** Whole seconds of the configured time to live. */
    function TtlSeconds(): (secs: int)
      ensures WholeSeconds(ttl, secs)
    {
      if ttl >= 0 then ttl / 1_000_000_000 else -((-ttl) / 1_000_000_000)
    }

    /** One step of the ghost machine. */
    ghost method Advance(step: Step, t: State)
      requires Reached(c, st) && Takes(c, st, step, t)
      modifies this`st
      ensures st == t && Reached(c, st)
      ensures old(ReachedSmoothly(c, st)) && old(SmoothStep(c, st, step)) ==> ReachedSmoothly(c, st)
    {
      hide Takes, SmoothStep;
      ReachedStep(c, st, step, t);
      if ReachedSmoothly(c, st) && SmoothStep(c, st, step) {
        ReachedSmoothlyStep(c, st, step, t);
      }
      st := t;
    }

    /** `os.RemoveAll` of a leftover staging directory; a failure is ignored, as in the source. */
    method SweepLeftover(id: AdapterId, left: Tree)
      requires Valid() && InPhase(st, id, Starting)
      modifies this`st, store
      ensures Valid() && (old(ReachedSmoothly(c, st)) ==> ReachedSmoothly(c, st))
      ensures SameBut(old(st.disk), st.disk, {TmpPath(id)}) && st.lru == old(st.lru) && st.flights == old(st.flights)[id := Swept]
      ensures left == map[] ==> TmpPath(id) !in st.disk
    {
      hide Reached, ReachedSmoothly, Takes, SmoothStep, RemoveAll, Leftover, Clamp, Linked, View, Total;
      ghost var stuck := Clamp(store.disk, TmpPath(id), left);
      StagingFrame(c, st, id, stuck);
      TakesSweep(c, st, id, stuck);
      var swept := store.Delete(TmpPath(id), left);
      Advance(SweepStaging(id, stuck), st.(disk := store.disk, flights := st.flights[id := Swept]));
    }

    /** `os.MkdirAll` of the staging directory. */
    method MakeStagingDir(id: AdapterId, ok: bool)
      requires Valid() && InPhase(st, id, Swept) && TmpPath(id) != id
      modifies this`st, store
      ensures Valid() && (old(ReachedSmoothly(c, st)) ==> ReachedSmoothly(c, st))
      ensures SameBut(old(st.disk), st.disk, {TmpPath(id)}) && st.lru == old(st.lru)
      ensures st.flights == if ok then old(st.flights)[id := Fetching] else old(st.flights) - {id}
      ensures ok ==> TmpPath(id) in st.disk && (TmpPath(id) !in old(st.disk) ==> st.disk[TmpPath(id)] == map[])
    {
      hide Reached, ReachedSmoothly, Takes, SmoothStep, RemoveAll, Leftover, Clamp, Linked, View, Total;
      TakesMakeStaging(c, st, id, ok);
      if ok {
        store.disk := Mkdir(store.disk, TmpPath(id));
        Advance(MakeStaging(id, ok), st.(disk := store.disk, flights := st.flights[id := Fetching]));
      } else {
        Advance(MakeStaging(id, ok), st.(flights := st.flights - {id}));
      }
    }

    /** One origin writes into the staging directory. */
    method TryOne(id: AdapterId, d: Download)
      requires Valid() && InPhase(st, id, Fetching) && TmpPath(id) in st.disk && (d.Succeeded? ==> CONFIG in d.files)
      modifies this`st, store
      ensures Valid() && (old(ReachedSmoothly(c, st)) ==> ReachedSmoothly(c, st))
      ensures st.lru == old(st.lru)
      ensures st.disk == old(st.disk)[TmpPath(id) := old(st.disk)[TmpPath(id)] + Delivered(d)]
      ensures st.flights == old(st.flights)[id := if d.Succeeded? then Phase.Fetched else Fetching]
    {
      hide Reached, ReachedSmoothly, Takes, SmoothStep, RemoveAll, Leftover, Clamp, Linked, View, Total;
      ghost var t := TakesDeliver(c, st, id, Delivered(d), d.Succeeded?);
      store.disk := store.disk[TmpPath(id) := store.disk[TmpPath(id)] + Delivered(d)];
      Advance(Deliver(id, Delivered(d), d.Succeeded?), t);
    }

    /** Tries the origins in order until one delivers; partial files of failed ones stay in the staging directory. */
    method TryOrigins(id: AdapterId, downloads: seq<Download>) returns (got: Option<Download>)
      requires Valid() && InPhase(st, id, Fetching) && TmpPath(id) in st.disk && Honest(downloads)
      modifies this`st, store
      ensures Valid() && (old(ReachedSmoothly(c, st)) ==> ReachedSmoothly(c, st))
      ensures got == FirstSuccess(downloads) && (got.Some? ==> got.value.Succeeded?)
      ensures st.lru == old(st.lru)
      ensures st.disk == old(st.disk)[TmpPath(id) := Staged(old(st.disk)[TmpPath(id)], downloads)]
      ensures st.flights == old(st.flights)[id := if got.Some? then Phase.Fetched else Fetching]
    {
      hide Reached, ReachedSmoothly, Linked, Ids, Total, View;
      var i := 0;
      ghost var dir := st.disk[TmpPath(id)];
      while i < |downloads|
        invariant 0 <= i <= |downloads| && Valid() && (old(ReachedSmoothly(c, st)) ==> ReachedSmoothly(c, st))
        invariant st.flights == old(st.flights) && st.lru == old(st.lru)
        invariant FirstSuccess(downloads[i..]) == FirstSuccess(downloads)
        invariant st.disk == old(st.disk)[TmpPath(id) := dir]
        invariant Staged(dir, downloads[i..]) == Staged(old(st.disk)[TmpPath(id)], downloads)
      {
        var d := downloads[i];
        OriginRound(downloads, i, dir);
        TryOne(id, d);
        dir := dir + Delivered(d);
        if d.Succeeded? {
          return Some(d);
        }
        i := i + 1;
      }
      assert downloads[i..] == [];
      got := None;
    }

    /** Gives up a fetch; what remains is the deferred cleanup. */
    ghost method GiveUp(id: AdapterId)
      requires Valid() && id in st.flights
      requires st.flights[id].Fetching? || st.flights[id].Stamped? || st.flights[id].Cleared? || st.flights[id].Renamed?
      modifies this`st
      ensures Valid() && st == old(st).(flights := old(st.flights)[id := Ended])
      ensures old(ReachedSmoothly(c, st)) && (old(st.flights)[id].Renamed? ==> id !in st.disk) ==> ReachedSmoothly(c, st)
    {
      hide Reached, ReachedSmoothly, Takes, SmoothStep, RemoveAll, Leftover, Clamp, Linked, View, Total;
      TakesAbort(c, st, id);
      Advance(Abort(id), st.(flights := st.flights[id := Ended]));
    }

    /** Writes the metadata file into the staging directory; a failing write ends the fetch. */
    method StampStaging(id: AdapterId, stamp: File, meta: MetaWrite)
      requires Valid() && InPhase(st, id, Phase.Fetched) && TmpPath(id) in st.disk
      modifies this`st, store
      ensures Valid() && (old(ReachedSmoothly(c, st)) ==> ReachedSmoothly(c, st))
      ensures st.lru == old(st.lru)
      ensures st.disk == old(st.disk)[TmpPath(id) := WithMeta(old(st.disk)[TmpPath(id)], AfterWrite(meta, stamp))]
      ensures st.flights == old(st.flights)[id := if meta.Written? then Stamped else Ended]
    {
      hide Reached, ReachedSmoothly, Takes, SmoothStep, RemoveAll, Leftover, Clamp, Linked, View, Total;
      var file, tmp := AfterWrite(meta, stamp), TmpPath(id);
      TakesWriteMeta(c, st, id, file, meta.Written?);
      ghost var p := if meta.Written? then Stamped else Ended;
      assert file.None? ==> store.disk[tmp := store.disk[tmp]] == store.disk;
      store.disk := store.disk[tmp := WithMeta(store.disk[tmp], file)];
      Advance(WriteMeta(id, file, meta.Written?), st.(disk := store.disk, flights := st.flights[id := p]));
    }

    /** Measures the staging directory. */
    method MeasureStaging(id: AdapterId, measureOk: bool) returns (size: Option<nat>)
      requires Valid() && InPhase(st, id, Stamped) && TmpPath(id) in st.disk
      modifies this`st
      ensures Valid() && (old(ReachedSmoothly(c, st)) ==> ReachedSmoothly(c, st))
      ensures st.lru == old(st.lru) && st.disk == old(st.disk) && size.Some? == measureOk
      ensures size.Some? ==> size.value == DirSize(st.disk[TmpPath(id)])
      ensures st.flights == old(st.flights)[id := if size.Some? then Measured(size.value) else Ended]
    {
      if measureOk {
        hide Reached, ReachedSmoothly, Takes, SmoothStep, DirSize, Linked, View, Total;
        var n := store.MeasureDir(TmpPath(id));
        TakesMeasure(c, st, id);
        Advance(Measure(id), st.(flights := st.flights[id := Measured(n)]));
        size := Some(n);
      } else {
        GiveUp(id);
        size := None;
      }
    }

    /** `MakeRoom`: evicts, then deletes. */
    method Evacuate(id: AdapterId, size: nat, lefts: map<string, Tree>) returns (ok: bool)
      requires Valid() && InPhase(st, id, Measured(size))
      modifies this`st, store, store.lru
      ensures Valid() && (old(ReachedSmoothly(c, st)) && lefts == map[] ==> ReachedSmoothly(c, st))
      ensures SameAt(old(st.disk), st.disk, TmpPath(id))
      ensures ok ==> Roomy(c, old(st.disk), old(st.lru), st.disk, st.lru, id, size)
      ensures !ok ==> Shed(old(st.disk), old(st.lru), st.disk, st.lru, id)
      ensures st.flights == old(st.flights)[id := if ok then Evacuating(size, []) else Ended]
      ensures lefts == map[] ==> ok
    {
      hide Reached, ReachedSmoothly, Roomy, Shed, SameAt, Kept, Linked, View, Total, Ids, Sweep, Leftover, Clean, Calm, Clamp, ClampAll;
      ghost var stuck, victims := ClampAll(store.disk, lefts), Victims(c, st, size);
      RoomedSpec(c, st, id, size, stuck);
      RoomFollows(c, st, id, size, stuck);
      var evicted, swept := store.MakeRoom(size, lefts);
      ghost var p := if Clean(victims, stuck) then Evacuating(size, []) else Ended;
      ghost var t := st.(lru := st.lru[..Kept(st.lru, size, c.maxSize)], disk := store.disk, flights := st.flights[id := p]);
      CalmKept(st, t, id, p);
      st := t;
      ok := swept;
    }

    /** Clears the target directory; a failure is ignored, as in the source. */
    method ClearDestination(id: AdapterId, size: nat, left: Tree)
      requires Valid() && InPhase(st, id, Evacuating(size, []))
      modifies this`st, store
      ensures Valid() && (old(ReachedSmoothly(c, st)) && left == map[] ==> ReachedSmoothly(c, st))
      ensures st.lru == old(st.lru) && st.flights == old(st.flights)[id := Cleared(size)]
      ensures SameAt(old(st.disk), st.disk, TmpPath(id)) && SameBut(old(st.disk), st.disk, {id}) && st.disk.Keys <= old(st.disk).Keys
      ensures CanRename(st.disk, TmpPath(id), id) <==> !LeavesFile(Clamp(old(st.disk), id, left), id)
    {
      hide Reached, ReachedSmoothly, Takes, SmoothStep, RemoveAll, Leftover, Clamp, CanRename, Linked, View, Total, SameAt, SameBut;
      ghost var stuck := Clamp(store.disk, id, left);
      ClearFrame(c, st, id, stuck);
      TakesClear(c, st, id, size, stuck);
      var cleared := store.Delete(id, left);
      Advance(ClearTarget(id, stuck), st.(disk := store.disk, flights := st.flights[id := Cleared(size)]));
    }

    /** Renames the staging directory onto the target, if the filesystem lets it. */
    method RenameStaging(id: AdapterId, size: nat, allowed: bool) returns (ok: bool)
      requires Valid() && InPhase(st, id, Cleared(size)) && TmpPath(id) in st.disk
      modifies this`st, store
      ensures Valid() && (old(ReachedSmoothly(c, st)) ==> ReachedSmoothly(c, st))
      ensures st.lru == old(st.lru) && ok == (allowed && CanRename(old(st.disk), TmpPath(id), id))
      ensures ok ==> Has(st.disk, id)
      ensures st.flights == old(st.flights)[id := if ok then Renamed(size) else Ended]
      ensures if ok then id in st.disk && st.disk[id] == old(st.disk)[TmpPath(id)] else st.disk == old(st.disk)
      ensures SameBut(old(st.disk), st.disk, {id, TmpPath(id)}) && st.disk.Keys <= old(st.disk).Keys + {id}
    {
      hide Reached, ReachedSmoothly, Takes, SmoothStep, Linked, View, Total, Has;
      ok := allowed && CanRename(store.disk, TmpPath(id), id);
      if ok {
        InstalledHas(c, st, id);
        TakesInstall(c, st, id, size);
        hide CanRename;
        store.disk := Rename(store.disk, TmpPath(id), id);
        Advance(Install(id), st.(disk := store.disk, flights := st.flights[id := Renamed(size)]));
      } else {
        GiveUp(id);
      }
    }

    /** Indexes the installed adapter. */
    method IndexInstalled(id: AdapterId, size: nat, readable: bool) returns (ok: bool)
      requires Valid() && InPhase(st, id, Renamed(size)) && Has(st.disk, id)
      modifies this`st, store.lru
      ensures Valid() && (old(ReachedSmoothly(c, st)) && readable ==> ReachedSmoothly(c, st))
      ensures ok == readable && st.disk == old(st.disk) && st.flights == old(st.flights)[id := Ended]
      ensures ok ==> id in Ids(st.lru)
      ensures st.lru == if ok then Touched(old(st.lru), id, DirSize(st.disk[id])) else old(st.lru)
    {
      hide Reached, ReachedSmoothly, DirSize, Touched, Linked, View, Ids, Total, Takes, SmoothStep;
      ok := store.Touch(id, readable);
      if ok {
        ghost var n := DirSize(st.disk[id]);
        TouchedIds(st.lru, id, n);
        IndexFollows(c, st, id, size, n);
        st := st.(lru := Touched(st.lru, id, n), flights := st.flights[id := Ended]);
      } else {
        GiveUp(id);
      }
    }

    /** The deferred `os.RemoveAll` of the staging directory. */
    method CleanUp(id: AdapterId, left: Tree)
      requires Valid() && InPhase(st, id, Ended)
      modifies this`st, store
      ensures Valid() && (old(ReachedSmoothly(c, st)) ==> ReachedSmoothly(c, st))
      ensures SameBut(old(st.disk), st.disk, {TmpPath(id)}) && st.disk.Keys <= old(st.disk).Keys
      ensures st.lru == old(st.lru) && st.flights == old(st.flights) - {id}
    {
      hide Reached, ReachedSmoothly, Takes, SmoothStep, RemoveAll, Leftover, Clamp, Linked, View, Total;
      ghost var stuck := Clamp(store.disk, TmpPath(id), left);
      StagingFrame(c, st, id, stuck);
      TakesCleanup(c, st, id, stuck);
      var gone := store.Delete(TmpPath(id), left);
      Advance(Cleanup(id, stuck), st.(disk := store.disk, flights := st.flights - {id}));
    }

    /** Stamps and measures a finished download and makes room for it. */
    method MakeReady(id: AdapterId, got: Download, io: FetchIO) returns (size: Option<nat>)
      requires Valid() && InPhase(st, id, Phase.Fetched) && TmpPath(id) in st.disk && got.Succeeded? && TmpPath(id) != id
      modifies this`st, store, store.lru
      ensures Valid() && (old(ReachedSmoothly(c, st)) && Flawless(io) ==> ReachedSmoothly(c, st))
      ensures st.flights == old(st.flights)[id := if size.Some? then Evacuating(size.value, []) else Ended]
      ensures size.Some? ==> TmpPath(id) in st.disk && st.disk[TmpPath(id)] == old(st.disk)[TmpPath(id)][META := StampFor(got, io.now, io.metaSize, TtlSeconds())]
      ensures size.Some? ==> META in st.disk[TmpPath(id)] && RecordsOf(st.disk[TmpPath(id)][META], got, io.now, ttl)
      ensures Flawless(io) ==> size.Some?
      ensures size.Some? ==> size.value == DirSize(st.disk[TmpPath(id)]) && Roomy(c, old(st.disk), old(st.lru), st.disk, st.lru, id, size.value)
      ensures size.None? ==> Shed(old(st.disk), old(st.lru), st.disk, st.lru, id)
    {
      hide Reached, ReachedSmoothly, Linked, Ids, Total, View, Roomy, Shed, SameBut, DirSize, Calm;
      ghost var d, lru := st.disk, st.lru;
      StampRecords(got, io.now, io.metaSize, ttl, TtlSeconds());
      StampStaging(id, StampFor(got, io.now, io.metaSize, TtlSeconds()), io.meta);
      ChangedAt(d, TmpPath(id), st.disk[TmpPath(id)]);
      if !io.meta.Written? {
        ShedNothing(d, lru, st.disk, id);
        return None;
      }
      size := MeasureStaging(id, io.measureOk);
      if size.None? {
        ShedNothing(d, lru, st.disk, id);
        return;
      }
      ghost var e := st.disk;
      var roomed := Evacuate(id, size.value, io.evictLeft);
      if roomed {
        RoomyFramed(c, d, e, lru, st.disk, st.lru, id, size.value);
      } else {
        size := None;
        ShedAfter(d, e, lru, st.disk, st.lru, id);
      }
    }

    /** Clears the destination and renames the staging directory onto it. */
    method MoveIn(id: AdapterId, size: nat, io: FetchIO) returns (ok: bool)
      requires Valid() && InPhase(st, id, Evacuating(size, [])) && TmpPath(id) in st.disk
      modifies this`st, store
      ensures Valid() && (old(ReachedSmoothly(c, st)) && Flawless(io) ==> ReachedSmoothly(c, st))
      ensures st.lru == old(st.lru) && st.flights == old(st.flights)[id := if ok then Renamed(size) else Ended]
      ensures ok ==> Has(st.disk, id) && id in st.disk && st.disk[id] == old(st.disk)[TmpPath(id)]
      ensures ok <==> io.parentOk && io.renameOk && !LeavesFile(Clamp(old(st.disk), id, io.clearLeft), id)
      ensures Flawless(io) ==> ok
      ensures SameBut(old(st.disk), st.disk, {id, TmpPath(id)}) && st.disk.Keys <= old(st.disk).Keys + {id}
    {
      hide Reached, ReachedSmoothly, Linked, Ids, Total, View, SameBut, CanRename, DirSize, Rename, Calm, Has;
      ghost var d := st.disk;
      ClearDestination(id, size, io.clearLeft);
      ghost var e := st.disk;
      ok := RenameStaging(id, size, io.parentOk && io.renameOk);
      FrameTrans(d, e, st.disk, {id}, {id, TmpPath(id)}, {id, TmpPath(id)});
    }

    /** Moves the staging directory into place and indexes it. */
    method Place(id: AdapterId, size: nat, io: FetchIO) returns (ok: bool)
      requires Valid() && InPhase(st, id, Evacuating(size, [])) && TmpPath(id) in st.disk
      modifies this`st, store, store.lru
      ensures Valid() && (old(ReachedSmoothly(c, st)) && Flawless(io) ==> ReachedSmoothly(c, st))
      ensures st.flights == old(st.flights)[id := Ended]
      ensures ok ==> id in Ids(st.lru) && id in st.disk && st.disk[id] == old(st.disk)[TmpPath(id)]
      ensures ok <==> io.parentOk && io.renameOk && io.touchOk && !LeavesFile(Clamp(old(st.disk), id, io.clearLeft), id)
      ensures Flawless(io) ==> ok
      ensures SameBut(old(st.disk), st.disk, {id, TmpPath(id)}) && st.disk.Keys <= old(st.disk).Keys + {id}
      ensures st.lru == if ok then Touched(old(st.lru), id, DirSize(st.disk[id])) else old(st.lru)
    {
      hide Reached, ReachedSmoothly, Linked, Ids, Total, View, SameBut, Touched, CanRename, DirSize, Rename, Calm, Has;
      ok := MoveIn(id, size, io);
      if !ok {
        return;
      }
      ok := IndexInstalled(id, size, io.touchOk);
    }

    /** From a finished download to an indexed adapter, or to a given-up fetch. */
    method InstallStaged(id: AdapterId, got: Option<Download>, io: FetchIO) returns (ok: bool)
      requires Valid() && TmpPath(id) in st.disk && TmpPath(id) != id
      requires if got.Some? then InPhase(st, id, Phase.Fetched) && got.value.Succeeded? else InPhase(st, id, Fetching)
      modifies this`st, store, store.lru
      ensures Valid() && (old(ReachedSmoothly(c, st)) && Flawless(io) ==> ReachedSmoothly(c, st))
      ensures st.flights == old(st.flights)[id := Ended]
      ensures ok ==> got.Some? && id in Ids(st.lru) && id in st.disk
      ensures ok ==> st.disk[id] == old(st.disk)[TmpPath(id)][META := StampFor(got.value, io.now, io.metaSize, TtlSeconds())]
      ensures Flawless(io) && got.Some? ==> ok
      ensures got.None? ==> st.disk == old(st.disk) && st.lru == old(st.lru)
      ensures if ok then Placed(c, old(st.disk), old(st.lru), st.disk, st.lru, id) else Shed(old(st.disk), old(st.lru), st.disk, st.lru, id)
    {
      hide Reached, ReachedSmoothly, Linked, Ids, Total, View, SameBut, Placed, Roomy, Shed, Touched;
      ghost var d, lru := st.disk, st.lru;
      if got.None? {
        GiveUp(id);
        Untouched(d, {TmpPath(id)});
        ShedNothing(d, lru, d, id);
        return false;
      }
      HoldingApart(c, st, id);
      var size := MakeReady(id, got.value, io);
      if size.None? {
        return false;
      }
      ghost var e, mid := st.disk, st.lru;
      ok := Place(id, size.value, io);
      if ok {
        RoomyThenPlaced(c, d, lru, e, mid, st.disk, id, size.value);
      } else {
        RoomyThenShed(c, d, lru, e, mid, st.disk, id, size.value);
      }
    }

    /** Installs a finished download, if there is one, and cleans up in any case. */
    method InstallAndCleanUp(id: AdapterId, got: Option<Download>, io: FetchIO) returns (ok: bool)
      requires Valid() && TmpPath(id) in st.disk && TmpPath(id) != id
      requires if got.Some? then InPhase(st, id, Phase.Fetched) && got.value.Succeeded? else InPhase(st, id, Fetching)
      modifies this`st, store, store.lru
      ensures Valid() && (old(ReachedSmoothly(c, st)) && Flawless(io) ==> ReachedSmoothly(c, st))
      ensures st.flights == old(st.flights) - {id}
      ensures ok ==> got.Some? && id in Ids(st.lru) && id in st.disk
      ensures ok ==> st.disk[id] == old(st.disk)[TmpPath(id)][META := StampFor(got.value, io.now, io.metaSize, TtlSeconds())]
      ensures Flawless(io) ==> ok == got.Some?
      ensures got.None? ==> SameBut(old(st.disk), st.disk, {TmpPath(id)}) && st.lru == old(st.lru)
      ensures if ok then Placed(c, old(st.disk), old(st.lru), st.disk, st.lru, id) else Shed(old(st.disk), old(st.lru), st.disk, st.lru, id)
    {
      hide Reached, ReachedSmoothly, Linked, Ids, Total, View, Placed, Shed, Flawless;
      ghost var d, lru := st.disk, st.lru;
      ok := InstallStaged(id, got, io);
      ghost var e := st.disk;
      CleanUp(id, io.cleanupLeft);
      Untouched(d, {TmpPath(id)});
      if ok {
        PlacedFramed(c, d, d, lru, e, st.lru, st.disk, id);
      } else {
        ShedFramed(d, d, lru, e, st.lru, st.disk, id);
      }
    }

    /** From the prepared staging directory on: download, install, and in any case clean up. */
    method DownloadAndInstall(id: AdapterId, io: FetchIO) returns (ok: bool)
      requires Valid() && InPhase(st, id, Fetching) && TmpPath(id) in st.disk && TmpPath(id) != id && Honest(io.downloads)
      modifies this`st, store, store.lru
      ensures Valid() && (old(ReachedSmoothly(c, st)) && Flawless(io) ==> ReachedSmoothly(c, st))
      ensures st.flights == old(st.flights) - {id}
      ensures ok ==> FirstSuccess(io.downloads).Some? && id in Ids(st.lru) && id in st.disk
      ensures ok ==> FirstSuccess(io.downloads).value.Succeeded?
      ensures ok ==> var stamp := StampFor(FirstSuccess(io.downloads).value, io.now, io.metaSize, TtlSeconds());
                st.disk[id] == Staged(old(st.disk)[TmpPath(id)], io.downloads)[META := stamp]
      ensures ok ==> Carries(st.disk[id], FirstSuccess(io.downloads).value, io.now, ttl)
      ensures Flawless(io) ==> ok == FirstSuccess(io.downloads).Some?
      ensures FirstSuccess(io.downloads).None? ==> SameBut(old(st.disk), st.disk, {TmpPath(id)}) && st.lru == old(st.lru)
      ensures if ok then Placed(c, old(st.disk), old(st.lru), st.disk, st.lru, id) else Shed(old(st.disk), old(st.lru), st.disk, st.lru, id)
    {
      hide Reached, ReachedSmoothly, Linked, Ids, Total, View, Placed, Shed, Flawless, Honest, Staged, FirstSuccess, Carries, StampFor;
      ghost var d0, lru := st.disk, st.lru;
      var got := TryOrigins(id, io.downloads);
      ghost var d := st.disk;
      assert SameBut(d0, d, {TmpPath(id)});
      ok := InstallAndCleanUp(id, got, io);
      if ok {
        StagedCarries(d0[TmpPath(id)], io, ttl, TtlSeconds());
        Untouched(st.disk, {TmpPath(id)});
        PlacedFramed(c, d0, d, lru, st.disk, st.lru, st.disk, id);
      } else {
        ShedAfter(d0, d, lru, st.disk, st.lru, id);
      }
    }

    /** An empty staging directory, if the filesystem lets it. */
    method PrepareStaging(id: AdapterId, io: FetchIO)
      requires Valid() && InPhase(st, id, Starting)
      modifies this`st, store
      ensures Valid() && (old(ReachedSmoothly(c, st)) ==> ReachedSmoothly(c, st))
      ensures SameBut(old(st.disk), st.disk, {TmpPath(id)}) && st.lru == old(st.lru) && TmpPath(id) != id
      ensures st.flights == if io.mkdirOk then old(st.flights)[id := Fetching] else old(st.flights) - {id}
      ensures io.mkdirOk ==> TmpPath(id) in st.disk && (io.sweepLeft == map[] ==> st.disk[TmpPath(id)] == map[])
    {
      hide Reached, ReachedSmoothly, Linked, Ids, Total, View, SameBut, Calm;
      ghost var d := st.disk;
      StartingApart(c, st, id);
      SweepLeftover(id, io.sweepLeft);
      ghost var e := st.disk;
      MakeStagingDir(id, io.mkdirOk);
      FrameTrans(d, e, st.disk, {TmpPath(id)}, {TmpPath(id)}, {TmpPath(id)});
    }

    /** Downloads an adapter into staging and moves it into place; the staging directory goes either way. */
    method FetchFromOrigin(id: AdapterId, io: FetchIO) returns (ok: bool)
      requires Valid() && InPhase(st, id, Starting) && Honest(io.downloads)
      modifies this`st, store, store.lru
      ensures Valid() && (old(ReachedSmoothly(c, st)) && Flawless(io) ==> ReachedSmoothly(c, st))
      ensures st.flights == old(st.flights) - {id}
      ensures ok ==> id in Ids(st.lru) && Has(store.disk, id)
      ensures ok ==> FirstSuccess(io.downloads).Some? && Carries(store.disk[id], FirstSuccess(io.downloads).value, io.now, ttl)
      ensures Flawless(io) ==> ok == FirstSuccess(io.downloads).Some?
      ensures Flawless(io) && ok ==> FirstSuccess(io.downloads).value.Succeeded? && store.disk[id] == Finished(io, TtlSeconds())
      ensures Flawless(io) && ok ==> var win := FirstSuccess(io.downloads).value;
                (store.disk[id] == win.files[META := StampFor(win, io.now, io.metaSize, TtlSeconds())] <==> Leavings(io.downloads) - {META} <= win.files.Keys)
      ensures Flawless(io) && !ok ==> SameBut(old(store.disk), store.disk, {TmpPath(id)}) && st.lru == old(st.lru)
      ensures if ok then id in st.disk && Placed(c, old(st.disk), old(st.lru), st.disk, st.lru, id)
              else Shed(old(st.disk), old(st.lru), st.disk, st.lru, id)
    {
      hide Reached, ReachedSmoothly, Linked, Ids, Total, View, Placed, Shed, SameBut, Staged, Leavings, FirstSuccess, Calm, Has, Carries, StampFor;
      ghost var d0, lru := st.disk, st.lru;
      PrepareStaging(id, io);
      ghost var d := st.disk;
      if !io.mkdirOk {
        ShedNothing(d0, lru, d, id);
        return false;
      }
      ok := DownloadAndInstall(id, io);
      if ok {
        if Flawless(io) {
          FinishedIsPureIff(io, TtlSeconds());
        }
        IndexedIsPresent(c, st, id);
        Untouched(st.disk, {TmpPath(id)});
        PlacedFramed(c, d0, d, lru, st.disk, st.lru, st.disk, id);
      } else {
        ShedAfter(d0, d, lru, st.disk, st.lru, id);
        FramesJoin(d0, d, st.disk, id);
      }
    }

    /** A hit: the adapter is marked most recent. */
    method ServeHit(id: AdapterId, readable: bool) returns (ok: bool)
      requires Valid() && id in c.ids && id !in st.flights && id !in st.hits && Has(store.disk, id)
      modifies this`st, store.lru
      ensures Valid() && (old(ReachedSmoothly(c, st)) ==> ReachedSmoothly(c, st))
      ensures ok == readable && store.disk == old(store.disk) && st.flights == old(st.flights) && st.hits == old(st.hits)
      ensures if ok then id in Ids(store.lru.Contents()) && st.lru == Touched(old(st.lru), id, DirSize(st.disk[id])) else st == old(st)
    {
      hide Reached, ReachedSmoothly, DirSize, Touched, Linked, View, Ids, Total;
      ok := store.Touch(id, readable);
      if ok {
        ghost var n := DirSize(st.disk[id]);
        TouchedIds(st.lru, id, n);
        HitFollows(c, st, id, n);
        st := st.(lru := Touched(st.lru, id, n));
      }
    }

    /** A miss: the adapter is fetched. */
    method ServeMiss(id: AdapterId, io: FetchIO) returns (r: Ensured)
      requires Valid() && id in c.ids && id !in st.flights && id !in st.hits && !Has(store.disk, id) && Honest(io.downloads)
      modifies this`st, store, store.lru
      ensures Valid() && (old(ReachedSmoothly(c, st)) && Flawless(io) ==> ReachedSmoothly(c, st))
      ensures st.flights == old(st.flights) && !r.Cached?
      ensures r.Fetched? ==> Has(store.disk, id) && id in Ids(store.lru.Contents())
      ensures Flawless(io) ==> (r.Fetched? <==> FirstSuccess(io.downloads).Some?)
      ensures r.Fetched? ==> FirstSuccess(io.downloads).Some? && Carries(store.disk[id], FirstSuccess(io.downloads).value, io.now, ttl)
      ensures r.Fetched? && Flawless(io) ==> FirstSuccess(io.downloads).value.Succeeded? && store.disk[id] == Finished(io, TtlSeconds())
      ensures if r.Fetched? then id in st.disk && Placed(c, old(st.disk), old(st.lru), st.disk, st.lru, id)
              else Shed(old(st.disk), old(st.lru), st.disk, st.lru, id)
    {
      hide Reached, ReachedSmoothly, Takes, SmoothStep, Linked, Ids, Total, View, Placed, Shed;
      TakesBegin(c, st, id);
      Advance(Begin(id), st.(flights := st.flights[id := Starting]));
      var ok := FetchFromOrigin(id, io);
      r := if ok then Ensured.Fetched else Unavailable;
    }

    /** The timing machine, accessed in state `t`, starts a check exactly if one was started, and then has these flags. */
    ghost predicate AccessedLike(t: R.State, id: AdapterId, secs: int, started: bool, flags: set<AdapterId>) {
      var u := R.Next(t, R.Access(id), secs);
      u.flags == flags && R.StartsOf(u, id) == R.StartsOf(t, id) + if started then [t.now] else []
    }

    /** Decides on a background check and marks it; the expiry test and the flag are one step. */
    method MaybeRevalidate(id: AdapterId, now: int) returns (start: Option<Meta>)
      requires Valid() && id in store.disk
      modifies this`revalidating
      ensures Valid() && (start.Some? <==> ttl > 0 && originCount > 0 && Due(store.disk[id], now) && id !in old(revalidating))
      ensures start.Some? ==> store.disk[id][META].body == Stamp(start.value)
      ensures revalidating == old(revalidating) + if start.Some? then {id} else {}
    {
      ExpiredIffDue(store.disk[id], now);
      start := None;
      if ttl <= 0 || originCount == 0 {
        return;
      }
      var meta := ReadMeta(store.disk[id]);
      if meta.None? || !IsExpired(meta.value, now) {
        return;
      }
      if id in revalidating {
        return;
      }
      revalidating := revalidating + {id};
      start := meta;
    }

    /**
     Guarantees the adapter on disk: a hit re-touches it and starts a background check when
     one is due, a miss fetches it; success means present and indexed.
     */
    method EnsureInternal(id: AdapterId, readable: bool, now: int, io: FetchIO) returns (r: Ensured, check: Option<Meta>)
      requires Valid() && id in c.ids && id !in st.flights && id !in st.hits && Honest(io.downloads)
      modifies this`st, this`revalidating, store, store.lru
      ensures Valid() && (old(ReachedSmoothly(c, st)) && Flawless(io) ==> ReachedSmoothly(c, st))
      ensures st.flights == old(st.flights)
      ensures !r.Unavailable? ==> Has(store.disk, id) && id in Ids(store.lru.Contents())
      ensures r.Cached? <==> old(Has(store.disk, id)) && readable
      ensures r.Cached? ==> store.disk == old(store.disk) && st.lru == Touched(old(st.lru), id, DirSize(store.disk[id]))
      ensures r.Fetched? ==> Placed(c, old(store.disk), old(st.lru), store.disk, st.lru, id)
      ensures r.Unavailable? ==> Shed(old(store.disk), old(st.lru), store.disk, st.lru, id)
      ensures old(Has(store.disk, id)) && r.Unavailable? ==> st == old(st)
      ensures !old(Has(store.disk, id)) && Flawless(io) ==> (r.Fetched? <==> FirstSuccess(io.downloads).Some?)
      ensures r.Fetched? ==> FirstSuccess(io.downloads).Some? && Carries(store.disk[id], FirstSuccess(io.downloads).value, io.now, ttl)
      ensures r.Fetched? && Flawless(io) ==> FirstSuccess(io.downloads).value.Succeeded? && store.disk[id] == Finished(io, TtlSeconds())
      ensures check.Some? <==> r.Cached? && ttl > 0 && originCount > 0 && Due(store.disk[id], now) && id !in old(revalidating)
      ensures check.Some? ==> store.disk[id][META].body == Stamp(check.value)
      ensures r.Cached? && ttl > 0 && originCount > 0 ==>
                forall t: R.State, secs: int :: t.now == now && t.flags == old(revalidating) && Mirrors(t, id, Some(store.disk[id]), secs) ==>
                  AccessedLike(t, id, secs, check.Some?, revalidating)
      ensures revalidating == old(revalidating) + if check.Some? then {id} else {}
    {
      hide Reached, ReachedSmoothly, Linked, Ids, Total, View, Placed, Shed;
      check := None;
      if Has(store.disk, id) {
        var touched := ServeHit(id, readable);
        if touched {
          ghost var flags := revalidating;
          check := MaybeRevalidate(id, now);
          forall t: R.State, secs: int | t.now == now && t.flags == flags && Mirrors(t, id, Some(store.disk[id]), secs) && ttl > 0 && originCount > 0
            ensures AccessedLike(t, id, secs, check.Some?, revalidating)
          {
            AccessStartsIff(t, id, store.disk[id], secs);
          }
        } else {
          ShedNothing(st.disk, st.lru, st.disk, id);
        }
        r := if touched then Cached else Unavailable;
      } else {
        r := ServeMiss(id, io);
      }
    }

    /** Drops an adapter from the index and from disk; when the delete succeeds it is gone from both. */
    method EvictAdapter(id: AdapterId, left: Tree) returns (ok: bool)
      requires Valid() && id in c.ids
      modifies this`st, store, store.lru
      ensures Valid() && (old(ReachedSmoothly(c, st)) && left == map[] ==> ReachedSmoothly(c, st))
      ensures st.flights == old(st.flights) && store.lru.Contents() == Without(old(store.lru.Contents()), id)
      ensures id !in Ids(store.lru.Contents()) && (ok ==> id !in store.disk) && (left == map[] ==> ok)
      ensures SameBut(old(store.disk), store.disk, {id}) && (id in store.disk ==> id in old(store.disk) && Within(store.disk[id], old(store.disk)[id]))
    {
      hide Reached, ReachedSmoothly, RemoveAll, Leftover, Clamp, Without, Linked, View, Ids, Total;
      ghost var stuck := Clamp(store.disk, id, left);
      RemovedFrame(c, st, id, stuck);
      EvictFollows(c, st, id, stuck);
      ok := store.Remove(id, left);
      st := st.(lru := Without(st.lru, id), disk := store.disk);
    }

    /** Writes refreshed metadata over an installed adapter; nothing happens when its directory is gone. */
    method Refresh(id: AdapterId, renewed: Meta, size: nat, now: int, meta: MetaWrite)
      requires Valid() && id in c.ids && id !in st.flights
      modifies this`st, store
      ensures Valid() && (old(ReachedSmoothly(c, st)) ==> ReachedSmoothly(c, st))
      ensures st.lru == old(st.lru) && st.flights == old(st.flights)
      ensures Rewritten(old(store.disk), store.disk, id, meta, renewed, size)
    {
      WithMetaRewrites(store.disk, id, meta, renewed, size, now);
      hide Rewritten;
      var file := AfterWrite(meta, File(size, now, Stamp(renewed)));
      if id in store.disk && file.Some? {
        hide Reached, ReachedSmoothly, Takes, SmoothStep, Linked, View, Total;
        TakesRefresh(c, st, id, file.value);
        store.disk := store.disk[id := store.disk[id][META := file.value]];
        Advance(RefreshMeta(id, file.value), st.(disk := store.disk));
      } else if id in store.disk {
        assert store.disk[id := store.disk[id]] == store.disk;
      }
    }

    /** The deferred end of a background check: its flag is cleared. */
    method EndCheck(id: AdapterId)
      requires Valid()
      modifies this`revalidating
      ensures Valid() && revalidating == old(revalidating) - {id}
    {
      revalidating := revalidating - {id};
    }

    /** `store.Remove` of the old copy, opening a new fetch. */
    method DropOldCopy(id: AdapterId, left: Tree)
      requires Valid() && id in c.ids && id !in st.flights
      modifies this`st, store, store.lru
      ensures Valid() && (old(ReachedSmoothly(c, st)) && left == map[] ==> ReachedSmoothly(c, st))
      ensures st.flights == old(st.flights)[id := Starting] && id !in Ids(st.lru) && (left == map[] ==> id !in store.disk)
      ensures st.lru == Without(old(st.lru), id) && SameBut(old(st.disk), st.disk, {id})
    {
      hide Reached, ReachedSmoothly, RemoveAll, Leftover, Clamp, Without, Linked, View, Ids, Total;
      ghost var stuck := Clamp(store.disk, id, left);
      RemovedFrame(c, st, id, stuck);
      DropFollows(c, st, id, stuck);
      var removed := store.Remove(id, left);
      st := st.(lru := Without(st.lru, id), disk := store.disk, flights := st.flights[id := Starting]);
    }

    /** Drops the old copy and fetches anew. */
    method Refetching(id: AdapterId, left: Tree, io: FetchIO) returns (ok: bool)
      requires Valid() && id in c.ids && id !in st.flights && Honest(io.downloads)
      modifies this`st, store, store.lru
      ensures Valid() && (old(ReachedSmoothly(c, st)) && left == map[] && Flawless(io) ==> ReachedSmoothly(c, st))
      ensures st.flights == old(st.flights)
      ensures ok ==> id in Ids(st.lru) && Has(store.disk, id)
      ensures ok ==> FirstSuccess(io.downloads).Some? && Carries(store.disk[id], FirstSuccess(io.downloads).value, io.now, ttl)
      ensures left == map[] && Flawless(io) ==> ok == FirstSuccess(io.downloads).Some?
      ensures left == map[] && Flawless(io) && ok ==> FirstSuccess(io.downloads).value.Succeeded? && store.disk[id] == Finished(io, TtlSeconds())
      ensures left == map[] && Flawless(io) && !ok ==> id !in store.disk && id !in Ids(st.lru)
      ensures if ok then id in st.disk && Placed(c, old(st.disk), Without(old(st.lru), id), st.disk, st.lru, id)
              else Shed(old(st.disk), Without(old(st.lru), id), st.disk, st.lru, id)
    {
      hide Reached, ReachedSmoothly, Linked, Ids, Total, View, Placed, Shed, Carries;
      ghost var d0 := st.disk;
      DropOldCopy(id, left);
      ghost var d, lru := st.disk, st.lru;
      StartingApart(c, st, id);
      ok := FetchFromOrigin(id, io);
      DroppedThenFetched(c, d0, d, lru, st.disk, st.lru, id);
    }

    /**
     Asks the origins in order for the current content ID. If none answers nothing
     changes; if the first answer names the stored content only the fetch time is
     refreshed; otherwise, when the disk behaves, the old copy is gone, replaced by
     what the first delivering origin sent or absent, and disk and index still agree.
     */
    method RevalidateAdapter(id: AdapterId, oldMeta: Meta, heads: seq<Option<Head>>, now: int, metaSize: nat, meta: MetaWrite, left: Tree, io: FetchIO)
      requires Valid() && id in c.ids && id !in st.flights && Honest(io.downloads)
      modifies this`st, store, store.lru
      ensures Valid() && st.flights == old(st.flights)
      ensures FirstAnswer(heads).None? ==> st == old(st)
      ensures FirstAnswer(heads).Some? && SameContent(FirstAnswer(heads).value, oldMeta) ==>
                st.lru == old(st.lru) && Rewritten(old(store.disk), store.disk, id, meta, Renewed(oldMeta, now), metaSize)
      ensures FirstAnswer(heads) == Some(Head(oldMeta.etag, oldMeta.revision)) && (oldMeta.etag != "" || oldMeta.revision != "") ==>
                st.lru == old(st.lru) && SameBut(old(store.disk), store.disk, {id})
                && (id in old(store.disk) ==> id in store.disk && forall n :: n in old(store.disk)[id] && n != META ==>
                     n in store.disk[id] && store.disk[id][n] == old(store.disk)[id][n])
      ensures FirstAnswer(heads).Some? && !SameContent(FirstAnswer(heads).value, oldMeta) && left == map[] && Flawless(io) ==>
                if FirstSuccess(io.downloads).Some?
                then && FirstSuccess(io.downloads).value.Succeeded? && id in store.disk
                     && Carries(store.disk[id], FirstSuccess(io.downloads).value, io.now, ttl)
                     && store.disk[id] == Finished(io, TtlSeconds()) && id in Ids(store.lru.Contents())
                     && Placed(c, old(store.disk), Without(old(st.lru), id), store.disk, st.lru, id)
                else id !in store.disk && id !in Ids(store.lru.Contents())
      ensures FirstAnswer(heads).Some? && !SameContent(FirstAnswer(heads).value, oldMeta) ==>
                || (id in st.disk && Placed(c, old(store.disk), Without(old(st.lru), id), store.disk, st.lru, id))
                || Shed(old(store.disk), Without(old(st.lru), id), store.disk, st.lru, id)
      ensures old(ReachedSmoothly(c, st)) && left == map[] && Flawless(io) ==> ReachedSmoothly(c, st)
    {
      RepeatedIdentityIff(oldMeta);
      hide Placed, Shed, Carries, SameContent, Unchanged;
      var i := 0;
      while i < |heads|
        invariant 0 <= i <= |heads| && FirstAnswer(heads[i..]) == FirstAnswer(heads)
      {
        assert heads[i..][0] == heads[i] && heads[i..][1..] == heads[i + 1..];
        if heads[i].Some? {
          UnchangedIffSameContent(heads[i].value, oldMeta);
          if Unchanged(heads[i].value, oldMeta) {
            Refresh(id, oldMeta.(fetchedAt := now), metaSize, now, meta);
            return;
          }
          var ok := Refetching(id, left, io);
          return;
        }
        i := i + 1;
      }
      assert heads[i..] == [];
    }
  }
}
