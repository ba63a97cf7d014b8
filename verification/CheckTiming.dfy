/**
 The link between the manager's metadata files and flags and the timing machine of
 background checks: what the one does to an adapter is a step of the other.
 */
module CheckTiming {
  import opened Common
  import opened Lru
  import opened Disk
  import opened CacheMeta
  import R = Revalidation

  /** The machine says of the adapter what its directory on disk, if any, says. */
  ghost predicate Mirrors(r: R.State, id: AdapterId, dir: Option<Dir>, ttlSeconds: int) {
    && (id in r.fetchedAt <==> dir.Some? && META in dir.value && dir.value[META].body.Stamp?)
    && (id in r.fetchedAt ==> dir.value[META].body.meta.fetchedAt == r.fetchedAt[id] && dir.value[META].body.meta.ttlSeconds == ttlSeconds)
  }

  /** An access starts a check in the machine exactly when one is due and none is running. */
  lemma {:induction false} AccessStartsIff(r: R.State, id: AdapterId, dir: Dir, ttlSeconds: int)
    requires Mirrors(r, id, Some(dir), ttlSeconds)
    ensures var t, starts := R.Next(r, R.Access(id), ttlSeconds), Due(dir, r.now) && id !in r.flags;
            && R.StartsOf(t, id) == R.StartsOf(r, id) + (if starts then [r.now] else [])
            && t.flags == r.flags + (if starts then {id} else {})
            && Mirrors(t, id, Some(dir), ttlSeconds)
  {
  }

  /** A fetch that records the present time is the machine's stamping and storing of a copy. */
  lemma {:induction false} FetchStores(r: R.State, id: AdapterId, dir: Dir, origin: string, etag: string, revision: string, ttl: int)
    requires id !in r.fetchedAt && id !in r.stamped
    requires META in dir && Records(dir[META], origin, etag, revision, r.now, ttl)
    ensures var ttlSeconds := dir[META].body.meta.ttlSeconds;
            && R.Enabled(r, R.StampCopy(id)) && R.Enabled(R.Next(r, R.StampCopy(id), ttlSeconds), R.Store(id))
            && Mirrors(R.Next(R.Next(r, R.StampCopy(id), ttlSeconds), R.Store(id), ttlSeconds), id, Some(dir), ttlSeconds)
  {
  }

  /** A removal that leaves no directory is the machine's eviction. */
  lemma {:induction false} RemovalEvicts(r: R.State, id: AdapterId, ttlSeconds: int)
    ensures Mirrors(R.Next(r, R.Evict(id), ttlSeconds), id, None, ttlSeconds)
  {
  }

  /** How a check of unchanged content ends, by how the metadata write went. */
  function OutcomeOf(w: MetaWrite): R.Outcome {
    match w
    case Written => R.Refreshed
    case Unopened => R.Unwritten
    case Broken(_) => R.Garbled
  }

  /** Rewriting the metadata of unchanged content is the machine's end of the check. */
  lemma {:induction false} RewriteFinishes(r: R.State, i: nat, id: AdapterId, d: Tree, e: Tree, w: MetaWrite, m: Meta, size: nat)
    requires i < |r.live| && r.live[i] == R.Check(id, false) && id in d && Mirrors(r, id, Some(d[id]), m.ttlSeconds) && id in r.fetchedAt
    requires Rewritten(d, e, id, w, m, size) && m.fetchedAt == r.now
    ensures R.Enabled(r, R.Finish(i, OutcomeOf(w))) && Mirrors(R.Next(r, R.Finish(i, OutcomeOf(w)), m.ttlSeconds), id, Some(e[id]), m.ttlSeconds)
  {
  }
}
