/**
 The adapter directory tree (internal/cache/store.go, meta.go), as a map from
 relative directory path to the files directly inside. A filesystem call is one
 step; a failing recursive delete may leave any part of what it was deleting.
 */
module Disk {
  import opened Common
  import opened Lru
  import opened Staging

  const CONFIG := "adapter_config.json"
  const META := ".loraplex_meta"

  datatype Meta = Meta(origin: string, etag: string, revision: string, fetchedAt: int, ttlSeconds: int)

  datatype Body = Payload(tag: nat) | Stamp(meta: Meta)

  datatype File = File(size: nat, modTime: int, body: Body)

  type Dir = map<string, File>

  type Tree = map<string, Dir>

  // ---------------------------------------------------------------------
  // Sums over finite maps
  // ---------------------------------------------------------------------

  ghost function SumOf(m: map<string, nat>): nat {
    if m == map[] then 0 else
      var k :| k in m;
      m[k] + SumOf(m - {k})
  }

  /** The sum does not depend on the order of summation. */
  lemma {:induction false} SumRemove(m: map<string, nat>, k: string)
    requires k in m
    ensures SumOf(m) == m[k] + SumOf(m - {k})
    decreases |m|
  {
    var j :| j in m && SumOf(m) == m[j] + SumOf(m - {j});
    if j != k {
      SumRemove(m - {j}, k);
      SumRemove(m - {k}, j);
      assert m - {j} - {k} == m - {k} - {j};
    }
  }

  lemma {:induction false} SumInsert(m: map<string, nat>, k: string, v: nat)
    requires k !in m
    ensures SumOf(m[k := v]) == v + SumOf(m)
  {
    SumRemove(m[k := v], k);
    assert m[k := v] - {k} == m;
  }

  lemma {:induction false} SumMonotone(m: map<string, nat>, n: map<string, nat>)
    requires forall k :: k in m ==> k in n && m[k] <= n[k]
    ensures SumOf(m) <= SumOf(n)
    decreases |m|
  {
    if m != map[] {
      var k :| k in m;
      SumRemove(m, k);
      SumRemove(n, k);
      SumMonotone(m - {k}, n - {k});
    }
  }

  /** `n * b`, by repeated addition. */
  ghost function Times(n: nat, b: nat): nat {
    if n == 0 then 0 else Times(n - 1, b) + b
  }

  lemma {:induction false} TimesIsProduct(n: nat, b: nat)
    ensures Times(n, b) == n * b
  {
    if n > 0 {
      TimesIsProduct(n - 1, b);
    }
  }

  lemma {:induction false} SumBound(m: map<string, nat>, n: nat, bound: nat)
    requires |m| <= n && forall k :: k in m ==> m[k] <= bound
    ensures SumOf(m) <= Times(n, bound)
    decreases n
  {
    if m != map[] {
      var k :| k in m;
      SumRemove(m, k);
      SumBound(m - {k}, n - 1, bound);
    }
  }

  ghost function Sizes(dir: Dir): map<string, nat> {
    map n | n in dir :: dir[n].size
  }

  /** What `dirSize` adds up. */
  ghost function DirSize(dir: Dir): nat {
    SumOf(Sizes(dir))
  }

  // ---------------------------------------------------------------------
  // Filesystem calls
  // ---------------------------------------------------------------------

  /** `k` is `p` or lies below it. */
  predicate Under(p: string, k: string) {
    k == p || p + "/" <= k
  }

  predicate Has(d: Tree, id: AdapterId) {
    id in d && CONFIG in d[id]
  }

  ghost predicate Within(part: Dir, whole: Dir) {
    forall n :: n in part ==> n in whole && part[n] == whole[n]
  }

  /** `left` is what a recursive delete of `p` may leave; nothing is left exactly when it succeeds. */
  ghost predicate Leftover(d: Tree, p: string, left: Tree) {
    forall k :: k in left ==> k in d && Under(p, k) && Within(left[k], d[k])
  }

  /** `os.RemoveAll(p)`. */
  function RemoveAll(d: Tree, p: string, left: Tree): Tree {
    map k | k in d && (!Under(p, k) || k in left) :: if Under(p, k) && k in left then left[k] else d[k]
  }

  /** Removes directories one after the other, stopping at the first that fails. */
  function Sweep(d: Tree, paths: seq<string>, lefts: map<string, Tree>): Tree {
    if paths == [] then d
    else
      var left := LeftOf(lefts, paths[0]);
      var rest := RemoveAll(d, paths[0], left);
      if left != map[] then rest else Sweep(rest, paths[1..], lefts)
  }

  function LeftOf(lefts: map<string, Tree>, p: string): Tree {
    if p in lefts then lefts[p] else map[]
  }

  /** All the removals of a sweep succeed. */
  predicate Clean(paths: seq<string>, lefts: map<string, Tree>) {
    forall p :: p in paths ==> LeftOf(lefts, p) == map[]
  }

  /** `os.Rename` of a directory needs its target to be absent or an empty directory. */
  predicate CanRename(d: Tree, from: string, to: string) {
    from in d && forall k :: k in d && Under(to, k) ==> k == to && d[k] == map[]
  }

  /** A recursive delete of `p` left a file at `p` itself. */
  predicate LeavesFile(left: Tree, p: string) {
    p in left && left[p] != map[]
  }

  function Rename(d: Tree, from: string, to: string): Tree
    requires from in d
  {
    (d - {from})[to := d[from]]
  }

  function ReadMeta(dir: Dir): Option<Meta> {
    if META in dir && dir[META].body.Stamp? then Some(dir[META].body.meta) else None
  }

  // ---------------------------------------------------------------------
  // Adapter IDs that name disjoint directories
  // ---------------------------------------------------------------------

  /** No ID lies below another, none looks like a staging directory, no two share one. */
  ghost predicate GoodIds(ids: set<AdapterId>) {
    && (forall a, b :: a in ids && b in ids && Under(a, b) ==> a == b)
    && (forall a :: a in ids ==> !(".tmp" <= a))
    && (forall a, b :: a in ids && b in ids && TmpPath(a) == TmpPath(b) ==> a == b)
  }

  /** Flat names other than staging names are good IDs. */
  lemma {:induction false} FlatIdsAreGood(ids: set<AdapterId>)
    requires forall a :: a in ids ==> '/' !in a && !(".tmp" <= a)
    ensures GoodIds(ids)
  {
    forall a, b | a in ids && b in ids && TmpPath(a) == TmpPath(b) ensures a == b {
      assert SafeId(a) == TmpPath(a)[|TMP_PREFIX|..] == TmpPath(b)[|TMP_PREFIX|..] == SafeId(b);
      SafeIdKeeps(a);
      SafeIdKeeps(b);
    }
    forall a, b | a in ids && b in ids && Under(a, b) ensures a == b {
      UnderHasSlash(a, b);
    }
  }

  /** The directories a set of adapters may occupy. */
  ghost function Paths(ids: set<AdapterId>): set<string> {
    ids + set a | a in ids :: TmpPath(a)
  }

  lemma {:induction false} TmpNotId(ids: set<AdapterId>, a: AdapterId, b: AdapterId)
    requires GoodIds(ids) && a in ids && b in ids
    ensures TmpPath(a) != b
  {
    assert ".tmp" <= TmpPath(a);
  }

  lemma {:induction false} UnderHasSlash(p: string, k: string)
    ensures Under(p, k) ==> p == k || '/' in k
  {
    assert p + "/" <= k ==> k[|p|] == '/';
  }

  /** Over good IDs, directories never nest. */
  lemma {:induction false} PathsApart(ids: set<AdapterId>, p: string, k: string)
    requires GoodIds(ids) && p in Paths(ids) && k in Paths(ids)
    ensures Under(p, k) ==> p == k
  {
    UnderHasSlash(p, k);
    if k !in ids {
      var b :| b in ids && k == TmpPath(b);
      TmpPathHasNoSlash(b);
    } else if p !in ids {
      var a :| a in ids && p == TmpPath(a);
      assert ".tmp" <= p;
    }
  }

  /** So a recursive delete touches nothing but its own directory. */
  lemma {:induction false} RemoveOnly(ids: set<AdapterId>, d: Tree, p: string, left: Tree)
    requires GoodIds(ids) && d.Keys <= Paths(ids) && p in Paths(ids) && Leftover(d, p, left)
    ensures var r := RemoveAll(d, p, left);
            && r.Keys <= d.Keys
            && (forall k :: k in d && k != p ==> k in r && r[k] == d[k])
            && (p in r <==> p in left) && (p in left ==> r[p] == left[p] && p in d && Within(r[p], d[p]))
  {
    forall k | k in d && Under(p, k) ensures k == p {
      PathsApart(ids, p, k);
    }
  }

  /** Deleting `a` leaves every other adapter's directory alone if and only if none lies below it. */
  lemma {:induction false} RemoveSparesOthersIff(d: Tree, a: string)
    ensures (forall k :: k in d && k != a ==> k in RemoveAll(d, a, map[]) && RemoveAll(d, a, map[])[k] == d[k])
            <==> (forall k :: k in d && Under(a, k) ==> k == a)
  {
    var r := RemoveAll(d, a, map[]);
    assert forall k :: k in r <==> k in d && !Under(a, k);
  }
}
