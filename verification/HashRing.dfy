/**
 Consistent-hash ring (internal/routing/ring.go).

 The code keeps a slice of virtual nodes sorted by hash, answers `Owner` by
 binary search with wraparound and `Fallback` by a walk modulo the length.
 The reference definition is geometric: on the circle of 2^32 hash values the
 owner of a key is the peer of a virtual node at the least clockwise distance.
 */
module HashRing {
  import opened Common

  type Addr = string

  /** A position on the circle: a 32-bit hash. */
  type Hash = h: int | 0 <= h < 0x1_0000_0000

  /** The two SHA-256 based hash functions, left uninterpreted. */
  datatype Hashing = Hashing(vnode: (Addr, nat) -> Hash, key: string -> Hash)

  datatype VNode = VNode(hash: Hash, peer: Addr)

  datatype Peer = Peer(addr: Addr, load: real)

  // ---------------------------------------------------------------------
  // Reference definition: nearest virtual node clockwise
  // ---------------------------------------------------------------------

  /** How far one travels clockwise from `from` to reach `to`. */
  function Clockwise(from: Hash, to: Hash): (d: Hash)
    ensures (from + d) % 0x1_0000_0000 == to
  {
    if to >= from then to - from else to - from + 0x1_0000_0000
  }

  /** `v` is a virtual node of `pool` that no other one beats on the way clockwise from `h`. */
  ghost predicate Nearest(h: Hash, pool: set<VNode>, v: VNode) {
    v in pool && forall w :: w in pool ==> Clockwise(h, v.hash) <= Clockwise(h, w.hash)
  }

  /** The virtual nodes a set of addresses puts on the circle. */
  ghost function Pool(hs: Hashing, n: int, addrs: set<Addr>): set<VNode> {
    set a, i: nat | a in addrs && i < n :: VNode(hs.vnode(a, i), a)
  }

  /** `p` owns hash `h` when the members are `addrs`. */
  ghost predicate Owns(hs: Hashing, n: int, addrs: set<Addr>, h: Hash, p: Addr) {
    exists v :: Nearest(h, Pool(hs, n, addrs), v) && v.peer == p
  }

  /** No two different peers share a virtual-node hash. */
  ghost predicate NoTies(hs: Hashing, n: int, addrs: set<Addr>) {
    forall v, w :: v in Pool(hs, n, addrs) && w in Pool(hs, n, addrs) && v.hash == w.hash ==> v.peer == w.peer
  }

  /** Hashes that tell peers apart leave no ties. */
  lemma {:induction false} DistinctHashesHaveNoTies(hs: Hashing, n: int, addrs: set<Addr>)
    requires forall a, b, i: nat, j: nat :: hs.vnode(a, i) == hs.vnode(b, j) ==> a == b
    ensures NoTies(hs, n, addrs)
  {
  }

  // ---------------------------------------------------------------------
  // What the code computes, over the sorted slice
  // ---------------------------------------------------------------------

  ghost predicate Sorted(vs: seq<VNode>) {
    forall i, j :: 0 <= i < j < |vs| ==> vs[i].hash <= vs[j].hash
  }

  /** `vs` is a slice that `Update` may leave behind for the member set `addrs`. */
  ghost predicate Built(vs: seq<VNode>, hs: Hashing, n: int, addrs: set<Addr>) {
    Sorted(vs) && Elements(vs) == Pool(hs, n, addrs)
  }

  /** First index whose hash is at least `h`; the length when there is none. */
  function Search(vs: seq<VNode>, h: Hash): (i: nat)
    ensures i <= |vs|
    ensures forall k :: 0 <= k < i ==> vs[k].hash < h
    ensures i < |vs| ==> vs[i].hash >= h
  {
    if vs == [] || vs[0].hash >= h then 0 else
      var rest := Search(vs[1..], h);
      assert forall k :: 0 < k < |vs| ==> vs[k] == vs[1..][k - 1];
      1 + rest
  }

  /** The index `(idx + k) % n`, as `SlotIsModulo` shows. */
  function Slot(idx: nat, k: nat, n: nat): (i: nat)
    requires idx <= n && k < n
    ensures i < n
  {
    if idx + k < n then idx + k else idx + k - n
  }

  lemma {:induction false} SlotIsModulo(idx: nat, k: nat, n: nat)
    requires idx <= n && k < n
    ensures Slot(idx, k, n) == (idx + k) % n
  {
    assert (idx + k) / n == if idx + k < n then 0 else 1;
  }

  function OwnerOf(vs: seq<VNode>, h: Hash): Option<Addr> {
    if vs == [] then None else Some(vs[Slot(Search(vs, h), 0, |vs|)].peer)
  }

  /** The walk of `Fallback` from its `seen`-th probe on. */
  function WalkFrom(vs: seq<VNode>, idx: nat, seen: nat, skip: Addr): Option<Addr>
    requires idx <= |vs| && seen <= |vs|
    decreases |vs| - seen
  {
    if seen == |vs| then None
    else if vs[Slot(idx, seen, |vs|)].peer != skip then Some(vs[Slot(idx, seen, |vs|)].peer)
    else WalkFrom(vs, idx, seen + 1, skip)
  }

  function FallbackOf(vs: seq<VNode>, h: Hash, skip: Addr): Option<Addr> {
    WalkFrom(vs, Search(vs, h), 0, skip)
  }

  // ---------------------------------------------------------------------
  // The sorted slice refines the circle
  // ---------------------------------------------------------------------

  /** Probing on from the search index never comes closer again: the slice, rotated, is in clockwise order. */
  lemma {:induction false} RotationIsClockwise(vs: seq<VNode>, h: Hash, j: nat, k: nat)
    requires Sorted(vs) && j <= k < |vs|
    ensures var idx := Search(vs, h);
            Clockwise(h, vs[Slot(idx, j, |vs|)].hash) <= Clockwise(h, vs[Slot(idx, k, |vs|)].hash)
  {
    var idx := Search(vs, h);
    var a, b := Slot(idx, j, |vs|), Slot(idx, k, |vs|);
    assert a < idx || a == b || a < b || b < idx;
    if idx < |vs| {
      assert a >= idx ==> vs[a].hash >= vs[idx].hash;
      assert b >= idx ==> vs[b].hash >= vs[idx].hash;
    }
  }

  /** Every position is probed within one turn. */
  lemma {:induction false} SlotCovers(idx: nat, n: nat, i: nat) returns (k: nat)
    requires idx <= n && i < n
    ensures k < n && Slot(idx, k, n) == i
  {
    k := if i >= idx then i - idx else i - idx + n;
  }

  /** The k-th probe is nearest among the virtual nodes probed from there on. */
  lemma {:induction false} ProbeIsNearest(vs: seq<VNode>, h: Hash, k: nat, pool: set<VNode>)
    requires Sorted(vs) && k < |vs|
    requires vs[Slot(Search(vs, h), k, |vs|)] in pool && pool <= Elements(vs)
    requires forall j: nat :: j < k ==> vs[Slot(Search(vs, h), j, |vs|)] !in pool
    ensures Nearest(h, pool, vs[Slot(Search(vs, h), k, |vs|)])
  {
    var idx := Search(vs, h);
    forall w | w in pool
      ensures Clockwise(h, vs[Slot(idx, k, |vs|)].hash) <= Clockwise(h, w.hash)
    {
      var i :| 0 <= i < |vs| && vs[i] == w;
      var j := SlotCovers(idx, |vs|, i);
      RotationIsClockwise(vs, h, k, j);
    }
  }

  /** Binary search with wraparound names a peer at the least clockwise distance, and only an empty ring names none. */
  lemma {:induction false} OwnerIsNearest(vs: seq<VNode>, hs: Hashing, n: int, addrs: set<Addr>, h: Hash)
    requires Built(vs, hs, n, addrs)
    ensures OwnerOf(vs, h).None? <==> Pool(hs, n, addrs) == {}
    ensures OwnerOf(vs, h).Some? ==> OwnerOf(vs, h).value in addrs && Owns(hs, n, addrs, h, OwnerOf(vs, h).value)
  {
    if vs != [] {
      var v := vs[Slot(Search(vs, h), 0, |vs|)];
      assert v in Elements(vs);
      ProbeIsNearest(vs, h, 0, Elements(vs));
    } else {
      assert Elements(vs) == {};
    }
  }

  /** Without cross-peer ties at most one peer owns a hash. */
  lemma {:induction false} OwnerIsUnique(hs: Hashing, n: int, addrs: set<Addr>, h: Hash, p: Addr, q: Addr)
    requires NoTies(hs, n, addrs)
    requires Owns(hs, n, addrs, h, p) && Owns(hs, n, addrs, h, q)
    ensures p == q
  {
    var pool := Pool(hs, n, addrs);
    var v :| Nearest(h, pool, v) && v.peer == p;
    var w :| Nearest(h, pool, w) && w.peer == q;
    assert Clockwise(h, v.hash) == Clockwise(h, w.hash);
    assert v.hash == w.hash;
  }

  /** The code's answer is the reference answer: both directions. */
  lemma {:induction false} OwnerRefinesNearest(vs: seq<VNode>, hs: Hashing, n: int, addrs: set<Addr>, h: Hash, p: Addr)
    requires Built(vs, hs, n, addrs) && NoTies(hs, n, addrs)
    ensures OwnerOf(vs, h) == Some(p) <==> Owns(hs, n, addrs, h, p)
  {
    OwnerIsNearest(vs, hs, n, addrs, h);
    if Owns(hs, n, addrs, h, p) {
      var v :| Nearest(h, Pool(hs, n, addrs), v) && v.peer == p;
      assert v in Pool(hs, n, addrs);
      OwnerIsUnique(hs, n, addrs, h, p, OwnerOf(vs, h).value);
    }
  }

  /** Agreement: two rings over the same member set name the same owner for every hash. */
  lemma {:induction false} SameMembersSameOwner(vs: seq<VNode>, ws: seq<VNode>, hs: Hashing, n: int, addrs: set<Addr>, h: Hash)
    requires Built(vs, hs, n, addrs) && Built(ws, hs, n, addrs) && NoTies(hs, n, addrs)
    ensures OwnerOf(vs, h) == OwnerOf(ws, h)
  {
    OwnerIsNearest(vs, hs, n, addrs, h);
    OwnerIsNearest(ws, hs, n, addrs, h);
    if OwnerOf(vs, h).Some? {
      OwnerIsUnique(hs, n, addrs, h, OwnerOf(vs, h).value, OwnerOf(ws, h).value);
    }
  }

  // ---------------------------------------------------------------------
  // Ties: exactly when the unstable sort cannot change the answer
  // ---------------------------------------------------------------------

  /** All virtual nodes nearest to `h` belong to one peer. */
  ghost predicate NearestPeerUnique(h: Hash, pool: set<VNode>) {
    forall v, w :: Nearest(h, pool, v) && Nearest(h, pool, w) ==> v.peer == w.peer
  }

  /** Every sorted arrangement of the same virtual nodes gives the owner that `vs` gives. */
  ghost predicate OwnerFixed(vs: seq<VNode>, h: Hash) {
    forall ws :: Sorted(ws) && multiset(ws) == multiset(vs) ==> OwnerOf(ws, h) == OwnerOf(vs, h)
  }

  lemma {:induction false} SwapKeepsArrangement(vs: seq<VNode>, i: nat, j: nat) returns (ws: seq<VNode>)
    requires Sorted(vs) && i < |vs| && j < |vs| && vs[i].hash == vs[j].hash
    ensures |ws| == |vs| && ws[i] == vs[j] && forall k :: 0 <= k < |vs| ==> ws[k].hash == vs[k].hash
    ensures multiset(ws) == multiset(vs)
  {
    ws := vs[i := vs[j]][j := vs[i]];
  }

  /** The search index is pinned by what it separates. */
  lemma {:induction false} SearchPinned(vs: seq<VNode>, h: Hash, i: nat)
    requires i <= |vs| && (forall k :: 0 <= k < i ==> vs[k].hash < h) && (i < |vs| ==> vs[i].hash >= h)
    ensures i == Search(vs, h)
  {
  }

  lemma {:induction false} SameElements(vs: seq<VNode>, ws: seq<VNode>)
    requires multiset(ws) == multiset(vs)
    ensures Elements(ws) == Elements(vs)
  {
    forall v ensures v in ws <==> v in vs {
      assert v in ws <==> v in multiset(ws);
      assert v in vs <==> v in multiset(vs);
    }
  }

  lemma {:induction false} UniqueNearestFixesOwner(vs: seq<VNode>, ws: seq<VNode>, h: Hash)
    requires Sorted(vs) && Sorted(ws) && multiset(ws) == multiset(vs)
    requires NearestPeerUnique(h, Elements(vs))
    ensures OwnerOf(ws, h) == OwnerOf(vs, h)
  {
    SameElements(vs, ws);
    assert |ws| == |multiset(ws)| == |vs|;
    if vs != [] {
      var v, w := vs[Slot(Search(vs, h), 0, |vs|)], ws[Slot(Search(ws, h), 0, |ws|)];
      assert v in Elements(vs) && w in Elements(ws);
      ProbeIsNearest(vs, h, 0, Elements(vs));
      ProbeIsNearest(ws, h, 0, Elements(ws));
      assert Nearest(h, Elements(vs), v) && Nearest(h, Elements(vs), w);
    }
  }

  /** A nearest virtual node of another peer can be sorted into the owner's place. */
  lemma {:induction false} TieGivesRival(vs: seq<VNode>, h: Hash, v: VNode, w: VNode) returns (ws: seq<VNode>)
    requires Sorted(vs) && Nearest(h, Elements(vs), v) && Nearest(h, Elements(vs), w) && v.peer != w.peer
    ensures Sorted(ws) && multiset(ws) == multiset(vs) && OwnerOf(ws, h) != OwnerOf(vs, h)
  {
    var at := Search(vs, h);
    var idx := Slot(at, 0, |vs|);
    ProbeIsNearest(vs, h, 0, Elements(vs));
    var j := FindNearest(vs, h, if vs[idx].peer == v.peer then w else v, vs[idx]);
    ws := SwapKeepsArrangement(vs, idx, j);
    SearchPinned(ws, h, at);
  }

  lemma {:induction false} FindNearest(vs: seq<VNode>, h: Hash, v: VNode, w: VNode) returns (j: nat)
    requires Nearest(h, Elements(vs), v) && Nearest(h, Elements(vs), w)
    ensures j < |vs| && vs[j] == v && v.hash == w.hash
  {
    j :| 0 <= j < |vs| && vs[j] == v;
    assert Clockwise(h, v.hash) == Clockwise(h, w.hash);
  }

  /**
   `sort.Slice` is not stable, so tied virtual nodes may come out in any order.
   The owner is independent of that order if and only if the nearest virtual
   nodes all belong to one peer.
   */
  lemma {:induction false} OwnerFixedIffNearestPeerUnique(vs: seq<VNode>, h: Hash)
    requires Sorted(vs)
    ensures OwnerFixed(vs, h) <==> NearestPeerUnique(h, Elements(vs))
  {
    if NearestPeerUnique(h, Elements(vs)) {
      forall ws | Sorted(ws) && multiset(ws) == multiset(vs) ensures OwnerOf(ws, h) == OwnerOf(vs, h) {
        UniqueNearestFixesOwner(vs, ws, h);
      }
    } else {
      var v, w :| Nearest(h, Elements(vs), v) && Nearest(h, Elements(vs), w) && v.peer != w.peer;
      var ws := TieGivesRival(vs, h, v, w);
    }
  }

  /** Two arrangements that a tie allows and that disagree: the tie premise above cannot be dropped. */
  lemma {:induction false} TieSplitsOwnership()
    ensures var vs, ws := [VNode(7, "a"), VNode(7, "b")], [VNode(7, "b"), VNode(7, "a")];
            Sorted(vs) && Sorted(ws) && multiset(vs) == multiset(ws) && OwnerOf(vs, 3) != OwnerOf(ws, 3)
  {
    var vs, ws := [VNode(7, "a"), VNode(7, "b")], [VNode(7, "b"), VNode(7, "a")];
    assert multiset(vs) == multiset{VNode(7, "a"), VNode(7, "b")} == multiset(ws);
    assert OwnerOf(vs, 3) == Some("a") && OwnerOf(ws, 3) == Some("b");
  }

  // ---------------------------------------------------------------------
  // Minimal disruption and fallback
  // ---------------------------------------------------------------------

  lemma {:induction false} PoolMonotone(hs: Hashing, n: int, small: set<Addr>, big: set<Addr>)
    requires small <= big
    ensures Pool(hs, n, small) <= Pool(hs, n, big)
    ensures forall v :: v in Pool(hs, n, big) && v.peer in small ==> v in Pool(hs, n, small)
    ensures NoTies(hs, n, big) ==> NoTies(hs, n, small)
  {
  }

  /**
   Minimal disruption: shrinking or growing the member set moves no key between
   two peers that are members before and after. A key's owner in the larger ring,
   when it is also a member of the smaller one, is its owner there.
   */
  lemma {:induction false} MinimalDisruption(vs: seq<VNode>, ws: seq<VNode>, hs: Hashing, n: int, small: set<Addr>, big: set<Addr>, h: Hash)
    requires small <= big && NoTies(hs, n, big)
    requires Built(vs, hs, n, small) && Built(ws, hs, n, big)
    ensures OwnerOf(ws, h).Some? && OwnerOf(ws, h).value in small ==> OwnerOf(vs, h) == OwnerOf(ws, h)
  {
    PoolMonotone(hs, n, small, big);
    OwnerIsNearest(ws, hs, n, big, h);
    if OwnerOf(ws, h).Some? && OwnerOf(ws, h).value in small {
      var v :| Nearest(h, Pool(hs, n, big), v) && v.peer == OwnerOf(ws, h).value;
      assert Nearest(h, Pool(hs, n, small), v);
      OwnerRefinesNearest(vs, hs, n, small, h, v.peer);
    }
  }

  /** Adding one peer changes a key's owner only to the new peer. */
  lemma {:induction false} AddingPeer(vs: seq<VNode>, ws: seq<VNode>, hs: Hashing, n: int, addrs: set<Addr>, joiner: Addr, h: Hash)
    requires NoTies(hs, n, addrs + {joiner})
    requires Built(vs, hs, n, addrs) && Built(ws, hs, n, addrs + {joiner})
    ensures OwnerOf(ws, h) == OwnerOf(vs, h) || OwnerOf(ws, h) == Some(joiner)
  {
    MinimalDisruption(vs, ws, hs, n, addrs, addrs + {joiner}, h);
    OwnerIsNearest(ws, hs, n, addrs + {joiner}, h);
    OwnerIsNearest(vs, hs, n, addrs, h);
    PoolMonotone(hs, n, addrs, addrs + {joiner});
  }

  /** Removing one peer changes the owner only of the keys it owned. */
  lemma {:induction false} RemovingPeer(vs: seq<VNode>, ws: seq<VNode>, hs: Hashing, n: int, addrs: set<Addr>, gone: Addr, h: Hash)
    requires NoTies(hs, n, addrs)
    requires Built(vs, hs, n, addrs) && Built(ws, hs, n, addrs - {gone})
    ensures OwnerOf(vs, h) != Some(gone) ==> OwnerOf(ws, h) == OwnerOf(vs, h)
  {
    MinimalDisruption(ws, vs, hs, n, addrs - {gone}, addrs, h);
    OwnerIsNearest(vs, hs, n, addrs, h);
    OwnerIsNearest(ws, hs, n, addrs - {gone}, h);
    PoolMonotone(hs, n, addrs - {gone}, addrs);
  }

  /** What the walk answers, probe by probe. */
  lemma {:induction false} WalkResult(vs: seq<VNode>, idx: nat, seen: nat, skip: Addr) returns (k: nat)
    requires idx <= |vs| && seen <= |vs|
    requires forall j: nat :: j < seen ==> vs[Slot(idx, j, |vs|)].peer == skip
    ensures k <= |vs| && (k == |vs| <==> WalkFrom(vs, idx, seen, skip).None?)
    ensures forall j: nat :: j < k ==> vs[Slot(idx, j, |vs|)].peer == skip
    ensures k < |vs| ==> vs[Slot(idx, k, |vs|)].peer != skip && WalkFrom(vs, idx, seen, skip) == Some(vs[Slot(idx, k, |vs|)].peer)
    decreases |vs| - seen
  {
    if seen == |vs| || vs[Slot(idx, seen, |vs|)].peer != skip {
      k := seen;
    } else {
      k := WalkResult(vs, idx, seen + 1, skip);
    }
  }

  /** The fallback, whatever peer is skipped, is nearest among the other peers' virtual nodes; ties do not matter. */
  lemma {:induction false} FallbackIsNearestOther(vs: seq<VNode>, hs: Hashing, n: int, addrs: set<Addr>, h: Hash, skip: Addr)
    requires Built(vs, hs, n, addrs)
    ensures FallbackOf(vs, h, skip).None? <==> Pool(hs, n, addrs - {skip}) == {}
    ensures FallbackOf(vs, h, skip).Some? ==>
              FallbackOf(vs, h, skip).value != skip && Owns(hs, n, addrs - {skip}, h, FallbackOf(vs, h, skip).value)
  {
    PoolMonotone(hs, n, addrs - {skip}, addrs);
    var idx, pool := Search(vs, h), Pool(hs, n, addrs - {skip});
    var k := WalkResult(vs, idx, 0, skip);
    assert forall v :: v in pool <==> v in Elements(vs) && v.peer != skip;
    if k < |vs| {
      ProbeIsNearest(vs, h, k, pool);
    } else if v :| v in pool {
      var i :| 0 <= i < |vs| && vs[i] == v;
      var j := SlotCovers(idx, |vs|, i);
    }
  }

  /** Fallback is ownership without the skipped peer, on any ring rebuilt without it. */
  lemma {:induction false} FallbackIsOwnerWithout(vs: seq<VNode>, ws: seq<VNode>, hs: Hashing, n: int, addrs: set<Addr>, h: Hash, skip: Addr)
    requires Built(vs, hs, n, addrs) && Built(ws, hs, n, addrs - {skip}) && NoTies(hs, n, addrs)
    ensures FallbackOf(vs, h, skip) == OwnerOf(ws, h)
  {
    PoolMonotone(hs, n, addrs - {skip}, addrs);
    FallbackIsNearestOther(vs, hs, n, addrs, h, skip);
    OwnerIsNearest(ws, hs, n, addrs - {skip}, h);
    if OwnerOf(ws, h).Some? {
      OwnerRefinesNearest(ws, hs, n, addrs - {skip}, h, FallbackOf(vs, h, skip).value);
    }
  }

  // ---------------------------------------------------------------------
  // The ring object
  // ---------------------------------------------------------------------

  /** The slice that `Update` appends, before sorting. */
  ghost function Appended(hs: Hashing, n: int, addrs: seq<Addr>): seq<VNode> {
    if addrs == [] then [] else
      var last := addrs[|addrs| - 1];
      Appended(hs, n, addrs[..|addrs| - 1]) + OfPeer(hs, last, if n < 0 then 0 else n)
  }

  ghost function OfPeer(hs: Hashing, a: Addr, count: nat): (vs: seq<VNode>)
    ensures |vs| == count && forall i :: 0 <= i < count ==> vs[i] == VNode(hs.vnode(a, i), a)
  {
    seq(count, i requires i >= 0 => VNode(hs.vnode(a, i), a))
  }

  lemma {:induction false} AppendedIsPool(hs: Hashing, n: int, addrs: seq<Addr>)
    ensures Elements(Appended(hs, n, addrs)) == Pool(hs, n, Elements(addrs))
  {
    if addrs != [] {
      var front, last := addrs[..|addrs| - 1], addrs[|addrs| - 1];
      AppendedIsPool(hs, n, front);
      assert Elements(addrs) == Elements(front) + {last};
      var own := OfPeer(hs, last, if n < 0 then 0 else n);
      forall v ensures v in Pool(hs, n, {last}) <==> v in own {
        if v in Pool(hs, n, {last}) {
          var i: nat :| i < n && v == VNode(hs.vnode(last, i), last);
          assert own[i] == v;
        }
      }
      assert Pool(hs, n, Elements(addrs)) == Pool(hs, n, Elements(front)) + Pool(hs, n, {last});
    }
  }

  lemma {:induction false} InsertKeepsSorted(s: seq<VNode>, v: VNode, k: nat, t: seq<VNode>)
    requires Sorted(s) && k <= |s| && t == s[..k] + [v] + s[k..]
    requires (forall i :: 0 <= i < k ==> s[i].hash < v.hash) && (k < |s| ==> s[k].hash >= v.hash)
    ensures Sorted(t)
  {
    forall i, j | 0 <= i < j < |t| ensures t[i].hash <= t[j].hash {
      var a := if i < k then s[i] else if i == k then v else s[i - 1];
      var b := if j < k then s[j] else if j == k then v else s[j - 1];
      assert t[i] == a && t[j] == b;
    }
  }

  method Insert(s: seq<VNode>, v: VNode) returns (t: seq<VNode>)
    requires Sorted(s)
    ensures Sorted(t) && multiset(t) == multiset(s) + multiset{v}
  {
    var k := Search(s, v.hash);
    t := s[..k] + [v] + s[k..];
    InsertKeepsSorted(s, v, k, t);
    assert s == s[..k] + s[k..];
  }

  /** Any sort by hash; like `sort.Slice` it promises nothing about the order of equal hashes. */
  method SortByHash(vs: seq<VNode>) returns (s: seq<VNode>)
    ensures Sorted(s) && multiset(s) == multiset(vs)
  {
    s := [];
    for i := 0 to |vs|
      invariant Sorted(s) && multiset(s) == multiset(vs[..i])
    {
      s := Insert(s, vs[i]);
      assert vs[..i + 1] == vs[..i] + [vs[i]];
    }
    assert vs[..|vs|] == vs;
  }

  class Ring {
    const hs: Hashing
    const vnodesPerPeer: int
    const self: Addr
    var vnodes: seq<VNode>
    var peers: map<Addr, Peer>

    /** The slice is a sorted image of the peer map. */
    ghost predicate Valid()
      reads this
    {
      && Built(vnodes, hs, vnodesPerPeer, peers.Keys)
      && forall a :: a in peers ==> peers[a].addr == a
    }

    constructor (hs: Hashing, vnodesPerPeer: int, self: Addr)
      ensures Valid() && vnodes == [] && peers == map[]
      ensures this.hs == hs && this.vnodesPerPeer == vnodesPerPeer && this.self == self
    {
      this.hs, this.vnodesPerPeer, this.self := hs, vnodesPerPeer, self;
      vnodes, peers := [], map[];
    }

    /** Appends one peer's virtual nodes. */
    method AppendVNodes(addr: Addr)
      modifies this`vnodes
      ensures vnodes == old(vnodes) + OfPeer(hs, addr, if vnodesPerPeer < 0 then 0 else vnodesPerPeer)
    {
      var i := 0;
      while i < vnodesPerPeer
        invariant 0 <= i && (i <= vnodesPerPeer || i == 0)
        invariant vnodes == old(vnodes) + OfPeer(hs, addr, i)
      {
        vnodes := vnodes + [VNode(hs.vnode(addr, i), addr)];
        i := i + 1;
      }
    }

    /** Replaces the members: all loads back to zero, virtual nodes recomputed and sorted; order and duplicates are immaterial. */
    method Update(addrs: seq<Addr>)
      modifies this
      ensures Valid()
      ensures peers.Keys == Elements(addrs) && forall a :: a in peers ==> peers[a].load == 0.0
      ensures multiset(vnodes) == multiset(Appended(hs, vnodesPerPeer, addrs))
    {
      peers := map[];
      vnodes := [];
      for k := 0 to |addrs|
        invariant peers.Keys == Elements(addrs[..k])
        invariant forall a :: a in peers ==> peers[a] == Peer(a, 0.0)
        invariant vnodes == Appended(hs, vnodesPerPeer, addrs[..k])
      {
        peers := peers[addrs[k] := Peer(addrs[k], 0.0)];
        AppendVNodes(addrs[k]);
        assert addrs[..k + 1][..k] == addrs[..k];
        assert Elements(addrs[..k + 1]) == Elements(addrs[..k]) + {addrs[k]};
      }
      assert addrs[..|addrs|] == addrs;
      AppendedIsPool(hs, vnodesPerPeer, addrs);
      ghost var appended := vnodes;
      vnodes := SortByHash(vnodes);
      SameElements(appended, vnodes);
    }

    /** `sort.Search`: the smallest index whose hash is at least `h`. */
    method SearchIndex(h: Hash) returns (i: nat)
      requires Sorted(vnodes)
      ensures i == Search(vnodes, h)
    {
      var lo, hi := 0, |vnodes|;
      while lo < hi
        invariant 0 <= lo <= hi <= |vnodes|
        invariant forall k :: 0 <= k < lo ==> vnodes[k].hash < h
        invariant forall k :: hi <= k < |vnodes| ==> vnodes[k].hash >= h
      {
        var mid := (lo + hi) / 2;
        if vnodes[mid].hash >= h {
          hi := mid;
        } else {
          lo := mid + 1;
        }
      }
      i := lo;
      SearchPinned(vnodes, h, i);
    }

    /** The peer responsible for a key: nearest clockwise, present in the peer map, nil only when no virtual node exists. */
    method Owner(key: string) returns (p: Option<Peer>)
      requires Valid()
      ensures p.None? <==> OwnerOf(vnodes, hs.key(key)).None?
      ensures p.None? <==> Pool(hs, vnodesPerPeer, peers.Keys) == {}
      ensures p.Some? ==> p.value.addr in peers && p.value == peers[p.value.addr]
      ensures p.Some? ==> OwnerOf(vnodes, hs.key(key)) == Some(p.value.addr)
      ensures p.Some? ==> Owns(hs, vnodesPerPeer, peers.Keys, hs.key(key), p.value.addr)
    {
      OwnerIsNearest(vnodes, hs, vnodesPerPeer, peers.Keys, hs.key(key));
      if |vnodes| == 0 {
        return None;
      }
      var idx := SearchIndex(hs.key(key));
      if idx == |vnodes| {
        idx := 0;
      }
      p := Some(peers[vnodes[idx].peer]);
    }

    /** The first peer other than `skip` on the walk clockwise from a key. */
    method Fallback(key: string, skip: Addr) returns (p: Option<Peer>)
      requires Valid()
      ensures p.None? <==> FallbackOf(vnodes, hs.key(key), skip).None?
      ensures p.None? <==> Pool(hs, vnodesPerPeer, peers.Keys - {skip}) == {}
      ensures p.Some? ==> p.value.addr in peers && p.value == peers[p.value.addr] && p.value.addr != skip
      ensures p.Some? ==> FallbackOf(vnodes, hs.key(key), skip) == Some(p.value.addr)
      ensures p.Some? ==> Owns(hs, vnodesPerPeer, peers.Keys - {skip}, hs.key(key), p.value.addr)
    {
      FallbackIsNearestOther(vnodes, hs, vnodesPerPeer, peers.Keys, hs.key(key), skip);
      if |vnodes| == 0 {
        return None;
      }
      var idx := SearchIndex(hs.key(key));
      var seen := 0;
      assert forall v :: v in Elements(vnodes) ==> v.peer in peers;
      assert FallbackOf(vnodes, hs.key(key), skip) == WalkFrom(vnodes, idx, 0, skip);
      hide Built, Pool, Owns, FallbackOf;
      while seen < |vnodes|
        invariant 0 <= seen <= |vnodes|
        invariant FallbackOf(vnodes, hs.key(key), skip) == WalkFrom(vnodes, idx, seen, skip)
      {
        var i := (idx + seen) % |vnodes|;
        SlotIsModulo(idx, seen, |vnodes|);
        var addr := vnodes[i].peer;
        if addr != skip {
          assert vnodes[i] in Elements(vnodes);
          return Some(peers[addr]);
        }
        seen := seen + 1;
      }
      p := None;
    }

    predicate IsSelf(p: Option<Peer>) {
      p.None? || p.value.addr == self
    }

    /** Every peer once, in whatever order the map yields them. */
    method Peers() returns (out: seq<Peer>)
      requires Valid()
      ensures Distinct(out) && |out| == |peers|
      ensures forall p :: p in out <==> p.addr in peers && peers[p.addr] == p
    {
      out := [];
      var rest := peers.Keys;
      while rest != {}
        invariant rest <= peers.Keys && |out| + |rest| == |peers|
        invariant Distinct(out)
        invariant forall p :: p in out <==> p.addr in peers - rest && peers[p.addr] == p
        decreases rest
      {
        var a :| a in rest;
        rest := rest - {a};
        out := out + [peers[a]];
      }
    }

    /** Records a load for a known peer; ownership is untouched. */
    method UpdatePeerLoad(addr: Addr, load: real)
      requires Valid()
      modifies this`peers
      ensures Valid() && peers.Keys == old(peers.Keys)
      ensures forall a :: a in peers ==> peers[a].load == if a == addr then load else old(peers)[a].load
    {
      if addr in peers {
        peers := peers[addr := peers[addr].(load := load)];
        assert peers.Keys == old(peers.Keys);
      }
    }
  }
}
