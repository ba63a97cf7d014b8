/**
 When the sizes that the index records cover the bytes on disk (internal/cache/lru.go,
 store.go, manager.go). A size is recorded once, at insertion; the metadata file, which
 is rewritten later, is not counted.
 */
module CacheSizes {
  import opened Lru
  import opened Disk
  import opened CacheMachine
  import opened CacheInvariants
  import opened CacheAgreement

  /** The bytes of a directory without its metadata file. */
  ghost function Bytes(dir: Dir): nat {
    DirSize(dir - {META})
  }

  /** Each entry records at least the bytes that its adapter has on disk. */
  ghost predicate Covered(s: State) {
    forall e :: e in s.lru && e.id in s.disk ==> Bytes(s.disk[e.id]) <= e.size
  }

  /** The size that an index insertion brings along. */
  ghost function ScanOf(c: Config, s: State, step: Step): nat
    requires Enabled(c, s, step) && Inserts(step)
  {
    if step.Index? then s.flights[step.id].scan else s.hits[step.id].scan
  }

  /** An insertion of an adapter that is not indexed brings a size that covers what is on disk by then. */
  ghost predicate Accurate(c: Config, s: State, step: Step)
    requires Enabled(c, s, step)
  {
    Inserts(step) ==> step.id in Ids(s.lru) || (step.id in s.disk ==> Bytes(s.disk[step.id]) <= ScanOf(c, s, step))
  }

  // ---------------------------------------------------------------------
  // One step
  // ---------------------------------------------------------------------

  lemma {:induction false} WithinBytes(part: Dir, whole: Dir)
    requires forall n :: n in part && n != META ==> n in whole && part[n] == whole[n]
    ensures Bytes(part) <= Bytes(whole)
  {
    SumMonotone(Sizes(part - {META}), Sizes(whole - {META}));
  }

  lemma {:induction false} BytesWithin(dir: Dir)
    ensures Bytes(dir) <= DirSize(dir)
  {
    SumMonotone(Sizes(dir - {META}), Sizes(dir));
  }

  /** Only an install brings bytes into an adapter's directory. */
  lemma {:induction false} BytesShrink(c: Config, s: State, step: Step, id: AdapterId)
    requires Bounded(c, s) && Enabled(c, s, step) && !step.Crash? && id in c.ids && step != Install(id)
    requires id in Next(c, s, step).disk
    ensures id in s.disk && Bytes(Next(c, s, step).disk[id]) <= Bytes(s.disk[id])
  {
    if step.Deliver? || step.Install? {
      StepActor(c, s, step);
      TmpNotId(c.ids, step.id, id);
    } else {
      StepThere(c, s, step, id);
      StepInherits(c, s, step);
      hide Next, Enabled, Bounded, Bytes;
      WithinBytes(Next(c, s, step).disk[id], s.disk[id]);
    }
  }

  lemma {:induction false} StepThere(c: Config, s: State, step: Step, id: AdapterId)
    requires Bounded(c, s) && Enabled(c, s, step) && !step.Crash? && id in c.ids && !step.Deliver? && !step.Install?
    requires id in Next(c, s, step).disk
    ensures id in s.disk
  {
    StepActor(c, s, step);
    TmpNotId(c.ids, step.id, id);
    if Deletes(step) {
      DeleteEffect(c, s, step);
    }
  }

  lemma {:induction false} TouchedMembers(s: seq<Entry>, id: AdapterId, size: nat)
    ensures forall e :: e in Touched(s, id, size) <==> e == Entry(id, SizeIn(s, id, size)) || (e in s && e.id != id)
  {
    WithoutMembers(s, id);
    assert Touched(s, id, size)[0] == Entry(id, SizeIn(s, id, size));
    assert Touched(s, id, size)[1..] == Without(s, id);
    hide Without, SizeIn;
  }

  lemma {:induction false} SizeInMember(s: seq<Entry>, id: AdapterId, size: nat)
    ensures id in Ids(s) ==> Entry(id, SizeIn(s, id, size)) in s
    ensures id !in Ids(s) ==> SizeIn(s, id, size) == size
  {
    if s != [] && s[0].id != id {
      SizeInMember(s[1..], id, size);
      assert forall e :: e in s <==> e == s[0] || e in s[1..];
    } else if s != [] {
      assert s[0] in s;
    }
  }

  lemma {:induction false} InsertionCoversIff(c: Config, s: State, step: Step)
    requires Enabled(c, s, step) && Inserts(step) && Covered(s)
    ensures Covered(Next(c, s, step)) <==> Accurate(c, s, step)
  {
    var t, id, n := Next(c, s, step), step.id, ScanOf(c, s, step);
    TouchedMembers(s.lru, id, n);
    SizeInMember(s.lru, id, n);
    assert t.lru == Touched(s.lru, id, n) && t.disk == s.disk;
    hide Next, Enabled, Touched, SizeIn, Ids, Bytes;
    assert Entry(id, SizeIn(s.lru, id, n)) in t.lru;
  }

  lemma {:induction false} IndexMembers(c: Config, s: State, step: Step)
    requires Bounded(c, s) && Enabled(c, s, step) && !step.Crash? && !Inserts(step)
    ensures forall e :: e in Next(c, s, step).lru ==> e in s.lru
  {
    if step.Drop? || step.Forget? {
      WithoutMembers(s.lru, step.id);
    }
  }

  lemma {:induction false} CrashCovers(c: Config, s: State, step: Step)
    requires Enabled(c, s, step) && step.Crash?
    ensures Covered(Next(c, s, step))
  {
    forall e | e in step.index && e.id in s.disk ensures Bytes(s.disk[e.id]) <= e.size {
      BytesWithin(s.disk[e.id]);
    }
  }

  /** As long as insertions land, a step keeps the sizes covering if and only if it brings an accurate one. */
  lemma {:induction false} StepCoversIff(c: Config, s: State, step: Step)
    requires Inv(c, s) && Enabled(c, s, step) && Aligned(s) && Covered(s)
    ensures Covered(Next(c, s, step)) <==> Accurate(c, s, step)
  {
    if step.Crash? {
      CrashCovers(c, s, step);
    } else if Inserts(step) {
      InsertionCoversIff(c, s, step);
    } else {
      IndexMembers(c, s, step);
      var t := Next(c, s, step);
      forall e | e in t.lru && e.id in t.disk ensures Bytes(t.disk[e.id]) <= e.size {
        NotInstalled(c, s, step, e);
        BytesShrink(c, s, step, e.id);
      }
    }
  }

  lemma {:induction false} NotInstalled(c: Config, s: State, step: Step, e: Entry)
    requires Bounded(c, s) && Enabled(c, s, step) && Aligned(s) && e in s.lru
    ensures step != Install(e.id) && e.id in c.ids
  {
    assert e.id in Ids(s.lru);
  }

  // ---------------------------------------------------------------------
  // Whole runs
  // ---------------------------------------------------------------------

  /**
   Recorded sizes, exactly. In any run in which every insertion lands, whatever
   interleaves and whatever fails, each entry covers its adapter's bytes on disk in every
   state if and only if every insertion of a newcomer brings a size that does.
   */
  lemma {:induction false} CoveredIffInsertionsAccurate(c: Config, ss: seq<State>, steps: seq<Step>, n: nat)
    requires IsRun(c, ss, steps) && Inv(c, ss[0]) && Aligned(ss[0]) && Covered(ss[0]) && n <= |steps|
    requires forall k :: 0 <= k < n ==> Lands(ss[k], steps[k])
    ensures (forall i :: 0 <= i <= n ==> Covered(ss[i])) <==> (forall k :: 0 <= k < n ==> Accurate(c, ss[k], steps[k]))
  {
    hide Aligned, Lands, Next, Enabled, Covered, Accurate;
    if n > 0 {
      CoveredIffInsertionsAccurate(c, ss, steps, n - 1);
      RunInv(c, ss, steps, n - 1);
      AlignedIffInsertionsLand(c, ss, steps, n - 1);
      if Covered(ss[n - 1]) {
        StepCoversIff(c, ss[n - 1], steps[n - 1]);
      }
      assert (forall k :: 0 <= k < n ==> Accurate(c, ss[k], steps[k])) <==>
             (forall k :: 0 <= k < n - 1 ==> Accurate(c, ss[k], steps[k])) && Accurate(c, ss[n - 1], steps[n - 1]);
      assert (forall i :: 0 <= i <= n ==> Covered(ss[i])) <==>
             (forall i :: 0 <= i <= n - 1 ==> Covered(ss[i])) && Covered(ss[n]);
    }
  }

  /** A scanned size stays accurate until another copy of the adapter is installed. */
  lemma {:induction false} ScanStaysAccurate(c: Config, ss: seq<State>, steps: seq<Step>, w: nat, k: nat, id: AdapterId)
    requires IsRun(c, ss, steps) && Inv(c, ss[0]) && w <= k < |ss| && id in c.ids && id in ss[w].disk && id in ss[k].disk
    requires forall j :: w <= j < k ==> !steps[j].Crash? && steps[j] != Install(id)
    ensures Bytes(ss[k].disk[id]) <= DirSize(ss[w].disk[id])
  {
    hide Next, Enabled, Bytes, DirSize;
    if w == k {
      BytesWithin(ss[w].disk[id]);
    } else {
      RunInv(c, ss, steps, k - 1);
      BytesShrink(c, ss[k - 1], steps[k - 1], id);
      ScanStaysAccurate(c, ss, steps, w, k - 1, id);
    }
  }

  /** What all indexed adapters have on disk, metadata aside. */
  ghost function IndexedBytes(d: Tree, lru: seq<Entry>): nat {
    if lru == [] then 0 else (if lru[0].id in d then Bytes(d[lru[0].id]) else 0) + IndexedBytes(d, lru[1..])
  }

  /** Where sizes are covered, the counter of the index bounds the bytes on disk. */
  lemma {:induction false} CounterBoundsDisk(d: Tree, lru: seq<Entry>)
    requires forall e :: e in lru && e.id in d ==> Bytes(d[e.id]) <= e.size
    ensures IndexedBytes(d, lru) <= Total(lru)
  {
    hide Bytes;
    if lru != [] {
      assert lru[0] in lru && forall e :: e in lru[1..] ==> e in lru;
      CounterBoundsDisk(d, lru[1..]);
    }
  }

  // ---------------------------------------------------------------------
  // What happens otherwise
  // ---------------------------------------------------------------------

  lemma {:induction false} TouchesNew(c: Config, s: State, id: AdapterId, scan: nat)
    requires id in s.hits && s.hits[id] == Weighed(scan) && id !in Ids(s.lru)
    ensures Leads(c, s, [TouchHit(id)], s.(lru := [Entry(id, scan)] + s.lru, hits := s.hits - {id}))
  {
    TouchedAbsent(s.lru, id, scan);
    hide Touched, Leads, Ids;
    LeadsOne(c, s, TouchHit(id));
  }

  lemma {:induction false} ScansNew(c: Config, s: State, id: AdapterId, size: nat)
    requires InPhase(s, id, Renamed(size)) && id in s.disk
    ensures Leads(c, s, [ScanInstalled(id)], s.(flights := s.flights[id := Scanned(size, DirSize(s.disk[id]))]))
  {
    hide DirSize, Leads;
    LeadsOne(c, s, ScanInstalled(id));
  }

  lemma {:induction false} IndexesAgain(c: Config, s: State, id: AdapterId, size: nat, scan: nat, first: Entry, rest: seq<Entry>)
    requires InPhase(s, id, Scanned(size, scan)) && s.lru == [first] + rest && first.id == id && id !in Ids(rest)
    ensures Leads(c, s, [Index(id)], s.(flights := s.flights[id := Ended]))
  {
    TouchedFirst(rest, id, first.size, scan);
    hide Touched, Leads, Ids;
    LeadsOne(c, s, Index(id));
  }

  /**
   A hit that scanned the old copy and touches after a revalidation has installed the new
   one: both insertions land, no call fails, and the index keeps the old size. The sizes
   no longer cover the disk if and only if the new copy is larger than the old scan.
   */
  lemma {:induction false} StaleSizeIndexed(c: Config, s: State, id: AdapterId, size: nat, scan: nat)
    requires InPhase(s, id, Renamed(size)) && id in s.hits && s.hits[id] == Weighed(scan) && id !in Ids(s.lru)
    requires Has(s.disk, id) && !Doomed(s, id) && Covered(s)
    ensures var t := s.(lru := [Entry(id, scan)] + s.lru, hits := s.hits - {id}, flights := s.flights[id := Ended]);
            Leads(c, s, [TouchHit(id), ScanInstalled(id), Index(id)], t) && (Covered(t) <==> Bytes(s.disk[id]) <= scan)
    ensures Lands(s, TouchHit(id))
  {
    HasDirectory(s.disk, id);
    var n := DirSize(s.disk[id]);
    var a := s.(lru := [Entry(id, scan)] + s.lru, hits := s.hits - {id});
    var b := a.(flights := s.flights[id := Scanned(size, n)]);
    var t := a.(flights := s.flights[id := Ended]);
    hide Touched, DirSize, Ids, Leads, Doomed, Bytes, Has;
    assert b.flights[id := Ended] == t.flights;
    TouchesNew(c, s, id, scan);
    ScansNew(c, a, id, size);
    IndexesAgain(c, b, id, size, n, Entry(id, scan), s.lru);
    LeadsOn(c, s, [TouchHit(id)], a, [ScanInstalled(id)], b);
    LeadsOn(c, s, [TouchHit(id)] + [ScanInstalled(id)], b, [Index(id)], t);
    assert [TouchHit(id)] + [ScanInstalled(id)] + [Index(id)] == [TouchHit(id), ScanInstalled(id), Index(id)];
    assert t.lru[0] in t.lru;
    assert forall e :: e in t.lru <==> e == Entry(id, scan) || e in s.lru;
  }

  lemma {:induction false} HasDirectory(d: Tree, id: AdapterId)
    requires Has(d, id)
    ensures id in d
  {
  }

  /** Touching the front entry again changes nothing, whatever size comes along. */
  lemma {:induction false} TouchedFirst(lru: seq<Entry>, id: AdapterId, size: nat, again: nat)
    requires id !in Ids(lru)
    ensures Touched([Entry(id, size)] + lru, id, again) == [Entry(id, size)] + lru
  {
    WithoutAbsent(lru, id);
    assert ([Entry(id, size)] + lru)[1..] == lru;
  }
}
