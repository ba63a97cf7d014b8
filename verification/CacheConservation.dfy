/** Downloads and installs are conserved (internal/cache/manager.go). */
module CacheConservation {
  import opened Lru
  import opened Disk
  import opened CacheMachine
  import opened CacheInvariants
  import opened CacheAgreement

  function One(b: bool): nat {
    if b then 1 else 0
  }

  /** How often the adapter was installed in the first `n` steps. */
  ghost function Installs(steps: seq<Step>, id: AdapterId, n: nat): nat
    requires n <= |steps|
  {
    if n == 0 then 0 else Installs(steps, id, n - 1) + One(steps[n - 1] == Install(id))
  }

  /** How often it went from present to absent. */
  ghost function Removals(ss: seq<State>, id: AdapterId, n: nat): nat
    requires n < |ss|
  {
    if n == 0 then 0 else Removals(ss, id, n - 1) + One(Has(ss[n - 1].disk, id) && !Has(ss[n].disk, id))
  }

  /** How often an origin delivered it completely. */
  ghost function Downloads(steps: seq<Step>, id: AdapterId, n: nat): nat
    requires n <= |steps|
  {
    if n == 0 then 0 else
      Downloads(steps, id, n - 1) + One(steps[n - 1].Deliver? && steps[n - 1].id == id && steps[n - 1].complete)
  }

  ghost predicate Holds(s: State, id: AdapterId) {
    id in s.flights && Holding(s.flights[id])
  }

  /** How often a finished download was given up before its install. */
  ghost function Abandoned(ss: seq<State>, steps: seq<Step>, id: AdapterId, n: nat): nat
    requires n <= |steps| && n < |ss|
  {
    if n == 0 then 0 else
      Abandoned(ss, steps, id, n - 1) + One(Holds(ss[n - 1], id) && !Holds(ss[n], id) && steps[n - 1] != Install(id))
  }

  /** Only an install makes an adapter appear, and it does so only where there was none. */
  lemma {:induction false} StepPresence(c: Config, s: State, step: Step, id: AdapterId)
    requires Inv(c, s) && Enabled(c, s, step) && id in c.ids
    ensures step == Install(id) ==> !Has(s.disk, id) && Has(Next(c, s, step).disk, id)
    ensures step != Install(id) && Has(Next(c, s, step).disk, id) ==> Has(s.disk, id)
  {
    if step == Install(id) {
      InstallFlight(c, s, step);
      assert id in s.disk ==> Under(id, id) && s.disk[id] == map[];
    } else if !Has(s.disk, id) {
      AbsentStays(c, s, step, id);
    }
  }

  lemma {:induction false} StepHolds(c: Config, s: State, step: Step, id: AdapterId)
    requires Inv(c, s) && Enabled(c, s, step)
    ensures step.Deliver? && step.id == id && step.complete ==> !Holds(s, id) && Holds(Next(c, s, step), id)
    ensures !(step.Deliver? && step.id == id && step.complete) && Holds(Next(c, s, step), id) ==> Holds(s, id)
    ensures step == Install(id) ==> Holds(s, id) && !Holds(Next(c, s, step), id)
  {
    hide Inv, RemoveAll, Rename, Leftover, Rebuilt, Has, CanRename, Kept, Touched, Without, Victims, Mkdir, Tagged, DirSize;
  }

  lemma {:induction false} PresenceConserved(c: Config, ss: seq<State>, steps: seq<Step>, id: AdapterId, n: nat)
    requires IsRun(c, ss, steps) && Inv(c, ss[0]) && id in c.ids && n <= |steps|
    ensures One(Has(ss[0].disk, id)) + Installs(steps, id, n) == Removals(ss, id, n) + One(Has(ss[n].disk, id))
  {
    hide Next, Enabled, Inv, Has;
    if n > 0 {
      PresenceConserved(c, ss, steps, id, n - 1);
      RunInv(c, ss, steps, n - 1);
      StepPresence(c, ss[n - 1], steps[n - 1], id);
    }
  }

  lemma {:induction false} DownloadsConserved(c: Config, ss: seq<State>, steps: seq<Step>, id: AdapterId, n: nat)
    requires IsRun(c, ss, steps) && Inv(c, ss[0]) && n <= |steps|
    ensures One(Holds(ss[0], id)) + Downloads(steps, id, n) ==
            Installs(steps, id, n) + Abandoned(ss, steps, id, n) + One(Holds(ss[n], id))
  {
    hide Next, Enabled, Inv, Holds;
    if n > 0 {
      DownloadsConserved(c, ss, steps, id, n - 1);
      RunInv(c, ss, steps, n - 1);
      StepHolds(c, ss[n - 1], steps[n - 1], id);
    }
  }

  /**
   Conservation. In every run, initial presence plus installs equals removals while
   present plus final presence; and finished downloads are installed, abandoned or
   still held.
   */
  lemma {:induction false} FetchConservation(c: Config, ss: seq<State>, steps: seq<Step>, id: AdapterId, n: nat)
    requires IsRun(c, ss, steps) && Inv(c, ss[0]) && id in c.ids && n <= |steps|
    ensures One(Has(ss[0].disk, id)) + Installs(steps, id, n) == Removals(ss, id, n) + One(Has(ss[n].disk, id))
    ensures One(Holds(ss[0], id)) + Downloads(steps, id, n) ==
            Installs(steps, id, n) + Abandoned(ss, steps, id, n) + One(Holds(ss[n], id))
  {
    PresenceConserved(c, ss, steps, id, n);
    DownloadsConserved(c, ss, steps, id, n);
  }

  /** The adapter is present and still being fetched. */
  ghost predicate FetchedAgain(s: State, id: AdapterId) {
    Has(s.disk, id) && id in s.flights && PreInstall(s.flights[id])
  }

  lemma {:induction false} StepNotFetched(c: Config, s: State, step: Step, id: AdapterId)
    requires Inv(c, s) && Enabled(c, s, step) && id in c.ids && step != Drop(id) && !FetchedAgain(s, id)
    ensures !FetchedAgain(Next(c, s, step), id)
  {
    if FetchedAgain(Next(c, s, step), id) && step != Begin(id) {
      FlightBefore(c, s, step, id);
      StepPresence(c, s, step, id);
      if step == Install(id) {
        InstallLeaves(c, s, step, id);
      }
    }
  }

  lemma {:induction false} InstallLeaves(c: Config, s: State, step: Step, id: AdapterId)
    requires Enabled(c, s, step) && step == Install(id)
    ensures !FetchedAgain(Next(c, s, step), id)
  {
  }

  /** As long as nobody revalidates it, an adapter that is present is not being fetched. */
  lemma {:induction false} PresentNotFetched(c: Config, ss: seq<State>, steps: seq<Step>, id: AdapterId, n: nat)
    requires IsRun(c, ss, steps) && Inv(c, ss[0]) && id in c.ids && n <= |steps|
    requires id !in ss[0].flights && forall k :: 0 <= k < n ==> steps[k] != Drop(id)
    ensures !FetchedAgain(ss[n], id)
  {
    if n > 0 {
      hide Next, Enabled, FetchedAgain, Inv;
      PresentNotFetched(c, ss, steps, id, n - 1);
      RunInv(c, ss, steps, n - 1);
      assert Enabled(c, ss[n - 1], steps[n - 1]) && ss[n] == Next(c, ss[n - 1], steps[n - 1]);
      StepNotFetched(c, ss[n - 1], steps[n - 1], id);
    }
  }

  /**
   One fetch is enough for everyone: however many callers hit, join and overlap, a run
   in which the adapter arrives, is never removed or revalidated, and no finished
   download is given up, downloads and installs it exactly once.
   */
  lemma {:induction false} OneFetchServesAll(c: Config, ss: seq<State>, steps: seq<Step>, id: AdapterId, n: nat)
    requires IsRun(c, ss, steps) && Inv(c, ss[0]) && id in c.ids && n <= |steps|
    requires id !in ss[0].flights && !Has(ss[0].disk, id) && Has(ss[n].disk, id)
    requires Removals(ss, id, n) == 0 && Abandoned(ss, steps, id, n) == 0
    requires forall k :: 0 <= k < n ==> steps[k] != Drop(id)
    ensures Installs(steps, id, n) == 1 && Downloads(steps, id, n) == 1
  {
    FetchConservation(c, ss, steps, id, n);
    PresentNotFetched(c, ss, steps, id, n);
  }
}
