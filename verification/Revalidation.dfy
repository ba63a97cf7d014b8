/**
 How often background revalidation runs (internal/cache/manager.go, maybeRevalidate;
 internal/cache/meta.go, IsExpired). Times are nanoseconds.
 */
module Revalidation {
  import opened Lru

  /** A background check: the goroutine that `maybeRevalidate` starts. */
  datatype Check = Check(id: AdapterId, done: bool)

  /**
   `fetchedAt` is what the metadata files of the adapters on disk say, `stamped` what the
   copies say that a fetch has stamped and not yet put in place; `starts` is the history
   of check starts.
   */
  datatype State = State(
    now: int,
    fetchedAt: map<AdapterId, int>,
    stamped: map<AdapterId, int>,
    flags: set<AdapterId>,
    live: seq<Check>,
    starts: map<AdapterId, seq<int>>)

  /**
   How a check ends: metadata rewritten, copy dropped, no origin answered, or the
   content is unchanged but writing the metadata failed, which leaves it as it was or,
   truncated, unreadable. The code ignores the error of that write.
   */
  datatype Outcome = Refreshed | Dropped | Unanswered | Unwritten | Garbled

  /** The outcomes that leave the old fetch time in place. */
  predicate KeepsOld(o: Outcome) {
    o.Unanswered? || o.Unwritten?
  }

  datatype Step =
    | Tick(elapsed: nat)
    | Access(id: AdapterId)
    | Finish(i: nat, outcome: Outcome)
    | End(i: nat)
    | StampCopy(id: AdapterId)
    | Store(id: AdapterId)
    | GiveUp(id: AdapterId)
    | Evict(id: AdapterId)

  function Nanos(ttlSeconds: int): int {
    ttlSeconds * 1_000_000_000
  }

  predicate Expired(s: State, id: AdapterId, ttl: int) {
    id in s.fetchedAt && ttl > 0 && s.now - s.fetchedAt[id] > Nanos(ttl)
  }

  function StartsOf(s: State, id: AdapterId): seq<int> {
    if id in s.starts then s.starts[id] else []
  }

  /** A fetch stamps its copy while the adapter is absent; writing refreshed metadata needs the adapter's directory. */
  ghost predicate Enabled(s: State, step: Step) {
    match step
    case Tick(_) => true
    case Access(_) => true
    case Finish(i, outcome) => i < |s.live| && !s.live[i].done && (outcome.Refreshed? ==> s.live[i].id in s.fetchedAt)
    case End(i) => i < |s.live| && s.live[i].done
    case StampCopy(id) => id !in s.fetchedAt && id !in s.stamped
    case Store(id) => id in s.stamped
    case GiveUp(id) => id in s.stamped
    case Evict(_) => true
  }

  function Next(s: State, step: Step, ttl: int): State
    requires Enabled(s, step)
  {
    match step
    case Tick(elapsed) => s.(now := s.now + elapsed)
    case Access(id) =>
      if Expired(s, id, ttl) && id !in s.flags
      then s.(flags := s.flags + {id}, live := s.live + [Check(id, false)], starts := s.starts[id := StartsOf(s, id) + [s.now]])
      else s
    case Finish(i, outcome) =>
      var id := s.live[i].id;
      s.(live := s.live[i := Check(id, true)],
         fetchedAt := match outcome
           case Refreshed => s.fetchedAt[id := s.now]
           case Dropped => s.fetchedAt - {id}
           case Garbled => s.fetchedAt - {id}
           case Unanswered => s.fetchedAt
           case Unwritten => s.fetchedAt)
    case End(i) => s.(flags := s.flags - {s.live[i].id}, live := s.live[..i] + s.live[i + 1..])
    case StampCopy(id) => s.(stamped := s.stamped[id := s.now])
    case Store(id) => s.(fetchedAt := s.fetchedAt[id := s.stamped[id]], stamped := s.stamped - {id})
    case GiveUp(id) => s.(stamped := s.stamped - {id})
    case Evict(id) => s.(fetchedAt := s.fetchedAt - {id})
  }

  /** A check of `id` is running and has not touched the metadata yet. */
  ghost predicate Checking(s: State, id: AdapterId) {
    exists i :: 0 <= i < |s.live| && s.live[i] == Check(id, false)
  }

  /** At most one check per adapter, and its flag is set exactly while it lives. */
  ghost predicate FlagsMatch(s: State) {
    && (forall i, j :: 0 <= i < j < |s.live| ==> s.live[i].id != s.live[j].id)
    && (forall i :: 0 <= i < |s.live| ==> s.live[i].id in s.flags)
    && (forall id :: id in s.flags ==> exists i :: 0 <= i < |s.live| && s.live[i].id == id)
  }

  /** Successive start times lie more than the time to live apart. */
  ghost predicate Spaced(times: seq<int>, ttl: int) {
    forall i :: 0 < i < |times| ==> times[i] - times[i - 1] > Nanos(ttl)
  }

  /** Once a check is over, the metadata, in place or about to be, is at least as recent as its start. */
  ghost predicate SpacedFor(s: State, id: AdapterId, ttl: int) {
    var t := StartsOf(s, id);
    && Spaced(t, ttl)
    && (id in s.stamped ==> id !in s.fetchedAt)
    && (t != [] ==>
         && t[|t| - 1] <= s.now
         && (Checking(s, id) || (id in s.fetchedAt ==> s.fetchedAt[id] >= t[|t| - 1]))
         && (id in s.stamped ==> s.stamped[id] >= t[|t| - 1]))
  }

  /** The step does not end a check of this adapter with an old fetch time in place. */
  ghost predicate Answers(s: State, step: Step, id: AdapterId)
    requires Enabled(s, step)
  {
    step.Finish? && s.live[step.i].id == id && id in s.fetchedAt ==> !KeepsOld(step.outcome)
  }

  lemma {:induction false} StepFlags(s: State, step: Step, ttl: int)
    requires FlagsMatch(s) && Enabled(s, step)
    ensures FlagsMatch(Next(s, step, ttl))
  {
    var t := Next(s, step, ttl);
    if step.Finish? {
      assert forall i :: 0 <= i < |s.live| ==> t.live[i].id == s.live[i].id;
    } else if step.End? {
      EndFlags(s, step.i, t);
    } else if step.Access? && t != s {
      assert t.live[|s.live|].id == step.id;
      assert forall i :: 0 <= i < |s.live| ==> t.live[i] == s.live[i];
    }
  }

  lemma {:induction false} EndFlags(s: State, i: nat, t: State)
    requires FlagsMatch(s) && i < |s.live|
    requires t.live == s.live[..i] + s.live[i + 1..] && t.flags == s.flags - {s.live[i].id}
    ensures FlagsMatch(t)
  {
    forall k | 0 <= k < |t.live| ensures t.live[k] == s.live[From(k, i)] {}
    forall j, k | 0 <= j < k < |t.live| ensures t.live[j].id != t.live[k].id {
      assert From(j, i) < From(k, i) < |s.live|;
    }
    forall k | 0 <= k < |t.live| ensures t.live[k].id in t.flags {
      assert From(k, i) < i || i < From(k, i);
    }
    forall id | id in t.flags ensures exists k :: 0 <= k < |t.live| && t.live[k].id == id {
      var j :| 0 <= j < |s.live| && s.live[j].id == id;
      assert t.live[if j < i then j else j - 1].id == id;
    }
  }

  /** The position before removing index `i` of what is then at `k`. */
  function From(k: int, i: int): int {
    if k < i then k else k + 1
  }

  /** The checks of another adapter, and finished ones, do not matter to whether `id` is being checked. */
  lemma {:induction false} CheckingKept(s: State, step: Step, ttl: int, id: AdapterId)
    requires Enabled(s, step) && Checking(s, id) && !(step.Finish? && s.live[step.i].id == id)
    ensures Checking(Next(s, step, ttl), id)
  {
    var t := Next(s, step, ttl);
    var i :| 0 <= i < |s.live| && s.live[i] == Check(id, false);
    if step.End? {
      assert t.live[if i < step.i then i else i - 1] == s.live[i];
    } else {
      assert t.live[i] == s.live[i];
    }
  }

  /** A new check of the adapter starts more than the time to live after the last one. */
  lemma {:induction false} StartSpaced(s: State, ttl: int, id: AdapterId)
    requires FlagsMatch(s) && SpacedFor(s, id, ttl) && Expired(s, id, ttl) && id !in s.flags
    ensures SpacedFor(Next(s, Access(id), ttl), id, ttl)
  {
    var t := Next(s, Access(id), ttl);
    assert t.live[|s.live|] == Check(id, false);
    assert !Checking(s, id);
    SpacedOn(StartsOf(s, id), s.now, ttl);
    hide FlagsMatch;
  }

  lemma {:induction false} SpacedOn(times: seq<int>, at: int, ttl: int)
    requires Spaced(times, ttl) && (times != [] ==> at - times[|times| - 1] > Nanos(ttl))
    ensures Spaced(times + [at], ttl)
  {
  }

  /** All other steps leave the history alone and the metadata recent enough. */
  lemma {:induction false} OtherSpaced(s: State, step: Step, ttl: int, id: AdapterId)
    requires SpacedFor(s, id, ttl) && Enabled(s, step) && Answers(s, step, id)
    requires !(step == Access(id) && Expired(s, id, ttl) && id !in s.flags)
    ensures SpacedFor(Next(s, step, ttl), id, ttl)
  {
    if Checking(s, id) && !(step.Finish? && s.live[step.i].id == id) {
      CheckingKept(s, step, ttl, id);
    }
    hide Checking, Spaced;
  }

  lemma {:induction false} StepSpaced(s: State, step: Step, ttl: int, id: AdapterId)
    requires FlagsMatch(s) && SpacedFor(s, id, ttl) && Enabled(s, step) && Answers(s, step, id)
    ensures SpacedFor(Next(s, step, ttl), id, ttl)
  {
    hide FlagsMatch, SpacedFor, Answers, Next;
    if step == Access(id) && Expired(s, id, ttl) && id !in s.flags {
      StartSpaced(s, ttl, id);
    } else {
      OtherSpaced(s, step, ttl, id);
    }
  }

  ghost predicate IsRun(ss: seq<State>, steps: seq<Step>, ttl: int) {
    && |ss| == |steps| + 1
    && forall i :: 0 <= i < |steps| ==> Enabled(ss[i], steps[i]) && ss[i + 1] == Next(ss[i], steps[i], ttl)
  }

  /** In every run at most one check per adapter is live, flagged exactly while it lives. */
  lemma {:induction false} OneCheckAtATime(ss: seq<State>, steps: seq<Step>, ttl: int, n: nat)
    requires IsRun(ss, steps, ttl) && FlagsMatch(ss[0]) && n < |ss|
    ensures FlagsMatch(ss[n])
  {
    if n > 0 {
      OneCheckAtATime(ss, steps, ttl, n - 1);
      StepFlags(ss[n - 1], steps[n - 1], ttl);
    }
  }

  /** When no check of an adapter leaves the old fetch time in place, starts of one adapter's checks lie more than the time to live apart. */
  lemma {:induction false} StartsSpaced(ss: seq<State>, steps: seq<Step>, ttl: int, id: AdapterId, n: nat)
    requires IsRun(ss, steps, ttl) && FlagsMatch(ss[0]) && StartsOf(ss[0], id) == [] && id !in ss[0].stamped && n < |ss|
    requires forall k :: 0 <= k < n ==> Answers(ss[k], steps[k], id)
    ensures SpacedFor(ss[n], id, ttl)
  {
    hide Next, FlagsMatch, Checking, Answers;
    if n > 0 {
      StartsSpaced(ss, steps, ttl, id, n - 1);
      OneCheckAtATime(ss, steps, ttl, n - 1);
      StepSpaced(ss[n - 1], steps[n - 1], ttl, id);
    }
  }

  lemma {:induction false} SpacedSpan(times: seq<int>, ttl: int)
    requires Spaced(times, ttl) && |times| >= 2
    ensures times[|times| - 1] - times[0] > (|times| - 1) * Nanos(ttl)
  {
    if |times| > 2 {
      var front := times[..|times| - 1];
      SpacedSpan(front, ttl);
    }
  }

  /**
   Revalidation rate: `n` starts of one adapter's checks within a window of `window`
   nanoseconds satisfy `(n - 1) * TTL < window`.
   */
  lemma {:induction false} RevalidationRate(ss: seq<State>, steps: seq<Step>, ttl: int, id: AdapterId, first: nat, last: nat, window: int)
    requires IsRun(ss, steps, ttl) && FlagsMatch(ss[0]) && StartsOf(ss[0], id) == [] && id !in ss[0].stamped
    requires forall k :: 0 <= k < |steps| ==> Answers(ss[k], steps[k], id)
    requires var t := StartsOf(ss[|steps|], id); first < last < |t| && t[last] - t[first] <= window
    ensures (last - first) * Nanos(ttl) < window
  {
    StartsSpaced(ss, steps, ttl, id, |steps|);
    var t := StartsOf(ss[|steps|], id);
    var part := t[first..last + 1];
    forall i | 0 < i < |part| ensures part[i] - part[i - 1] > Nanos(ttl) {
      assert part[i] == t[first + i] && part[i - 1] == t[first + i - 1];
    }
    SpacedSpan(part, ttl);
  }

  /** The check at position `i` ends, and at the same instant somebody accesses its adapter. */
  function EndThenAccess(s: State, i: nat, outcome: Outcome, ttl: int): State
    requires i < |s.live| && !s.live[i].done && s.live[i].id in s.fetchedAt
  {
    var ended := Next(Next(s, Finish(i, outcome), ttl), End(i), ttl);
    Next(ended, Access(s.live[i].id), ttl)
  }

  /**
   The premise on outcomes, exactly: after a check of an expired adapter the next access,
   at the very same instant, starts another one if and only if the check left the old
   fetch time in place.
   */
  lemma {:induction false} RestartsAtOnceIff(s: State, ttl: int, i: nat, id: AdapterId, outcome: Outcome)
    requires FlagsMatch(s) && i < |s.live| && s.live[i] == Check(id, false) && Expired(s, id, ttl)
    ensures StartsOf(EndThenAccess(s, i, outcome, ttl), id) == StartsOf(s, id) + if KeepsOld(outcome) then [s.now] else []
  {
  }

  /** One such round: the unanswered check ends and the next one starts, no time having passed. */
  lemma {:induction false} Restarts(s: State, ttl: int, i: nat, id: AdapterId)
    requires FlagsMatch(s) && i < |s.live| && s.live[i] == Check(id, false) && Expired(s, id, ttl)
    ensures var t := EndThenAccess(s, i, Unanswered, ttl);
            && FlagsMatch(t) && Expired(t, id, ttl) && t.now == s.now
            && |t.live| > 0 && t.live[|t.live| - 1] == Check(id, false)
            && StartsOf(t, id) == StartsOf(s, id) + [s.now]
  {
    var a := Next(s, Finish(i, Unanswered), ttl);
    var b := Next(a, End(i), ttl);
    StepFlags(s, Finish(i, Unanswered), ttl);
    StepFlags(a, End(i), ttl);
    StepFlags(b, Access(id), ttl);
    RestartsAtOnceIff(s, ttl, i, id, Unanswered);
    hide FlagsMatch;
    assert id !in b.flags;
  }

  /** `n` times the same instant. */
  function Repeat(at: int, n: nat): seq<int> {
    if n == 0 then [] else [at] + Repeat(at, n - 1)
  }

  /**
   So without answers there is no rate at all: from any running check of an expired
   adapter, some run starts any number of further checks of it, all at the same instant.
   */
  lemma {:induction false} UnansweredHasNoRate(s: State, ttl: int, i: nat, id: AdapterId, n: nat) returns (ss: seq<State>, steps: seq<Step>)
    requires FlagsMatch(s) && i < |s.live| && s.live[i] == Check(id, false) && Expired(s, id, ttl)
    ensures IsRun(ss, steps, ttl) && ss[0] == s && |steps| == 3 * n
    ensures StartsOf(ss[|steps|], id) == StartsOf(s, id) + Repeat(s.now, n)
    decreases n
  {
    if n == 0 {
      ss, steps := [s], [];
    } else {
      var a := Next(s, Finish(i, Unanswered), ttl);
      var b := Next(a, End(i), ttl);
      var t := EndThenAccess(s, i, Unanswered, ttl);
      Restarts(s, ttl, i, id);
      hide Next, Enabled, FlagsMatch, Expired, StartsOf, IsRun;
      var rest, more := UnansweredHasNoRate(t, ttl, |t.live| - 1, id, n - 1);
      ss, steps := [s, a, b] + rest, [Finish(i, Unanswered), End(i), Access(id)] + more;
      RoundRun(s, a, b, rest, more, i, id, ttl);
      assert ss[|steps|] == rest[|more|];
      assert StartsOf(s, id) + [s.now] + Repeat(s.now, n - 1) == StartsOf(s, id) + Repeat(s.now, n);
    }
  }

  lemma {:induction false} RoundRun(s: State, a: State, b: State, rest: seq<State>, more: seq<Step>, i: nat, id: AdapterId, ttl: int)
    requires i < |s.live| && s.live[i] == Check(id, false) && a == Next(s, Finish(i, Unanswered), ttl) && b == Next(a, End(i), ttl)
    requires IsRun(rest, more, ttl) && rest[0] == Next(b, Access(id), ttl)
    ensures IsRun([s, a, b] + rest, [Finish(i, Unanswered), End(i), Access(id)] + more, ttl)
  {
    var ss, steps := [s, a, b] + rest, [Finish(i, Unanswered), End(i), Access(id)] + more;
    hide Next;
    forall k | 0 <= k < |steps| ensures Enabled(ss[k], steps[k]) && ss[k + 1] == Next(ss[k], steps[k], ttl) {
      if k >= 3 {
        assert ss[k] == rest[k - 3] && ss[k + 1] == rest[k - 2] && steps[k] == more[k - 3];
      } else if k == 2 {
        assert ss[3] == rest[0];
      } else if k == 1 {
        assert Enabled(a, End(i)) by { FinishedEnds(s, i, ttl); }
      }
    }
  }

  lemma {:induction false} FinishedEnds(s: State, i: nat, ttl: int)
    requires i < |s.live| && !s.live[i].done
    ensures Enabled(Next(s, Finish(i, Unanswered), ttl), End(i))
  {
  }
}
