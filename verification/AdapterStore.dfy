/**
 The store (internal/cache/store.go): the adapter directory together with the LRU
 index. What the filesystem answers is a parameter of each method; a failing delete
 leaves the part of its directory that the parameter names.
 */
module AdapterStore {
  import opened Common
  import opened Lru
  import opened Disk
  import opened CacheMachine

  /** The part of `left` that a delete of `p` can really leave behind. */
  function Clamp(d: Tree, p: string, left: Tree): (r: Tree)
    ensures Leftover(d, p, r)
    ensures left == map[] ==> r == map[]
  {
    map k | k in left && k in d && Under(p, k) :: map n | n in left[k] && n in d[k] :: d[k][n]
  }

  /** Everything that a delete can really leave is a script's to choose. */
  lemma {:induction false} LeftoversAreChosen(d: Tree, p: string, left: Tree)
    requires Leftover(d, p, left)
    ensures Clamp(d, p, left) == left
  {
    forall k | k in left ensures k in Clamp(d, p, left) && Clamp(d, p, left)[k] == left[k] {
      var c := Clamp(d, p, left)[k];
      assert forall n :: n in left[k] ==> n in d[k] && left[k][n] == d[k][n];
      assert c == left[k];
    }
  }

  function ClampAll(d: Tree, lefts: map<string, Tree>): (r: map<string, Tree>)
    ensures forall p :: p in r ==> Leftover(d, p, r[p])
    ensures lefts == map[] ==> r == map[]
  {
    map p | p in lefts :: Clamp(d, p, lefts[p])
  }

  // ---------------------------------------------------------------------
  // Rebuilding
  // ---------------------------------------------------------------------

  /** What the walk collects about one adapter. */
  datatype Info = Info(id: AdapterId, size: nat, mod: int)

  ghost predicate ByMod(infos: seq<Info>) {
    forall i, j :: 0 <= i < j < |infos| ==> infos[i].mod <= infos[j].mod
  }

  ghost predicate UniqueInfos(infos: seq<Info>) {
    forall i, j :: 0 <= i < j < |infos| ==> infos[i].id != infos[j].id
  }

  /** Touching the collected adapters one after the other. */
  ghost function TouchAll(s: seq<Entry>, infos: seq<Info>): seq<Entry> {
    if infos == [] then s
    else
      var front, last := infos[..|infos| - 1], infos[|infos| - 1];
      Touched(TouchAll(s, front), last.id, last.size)
  }

  ghost function InfoIds(infos: seq<Info>): set<AdapterId> {
    set x | x in infos :: x.id
  }

  lemma {:induction false} InfoIdsSnoc(infos: seq<Info>, x: Info)
    ensures InfoIds(infos + [x]) == InfoIds(infos) + {x.id}
  {
    assert forall y :: y in infos + [x] <==> y in infos || y == x;
  }

  lemma {:induction false} TouchAllUnique(s: seq<Entry>, infos: seq<Info>)
    requires Unique(s)
    ensures Unique(TouchAll(s, infos))
  {
    if infos != [] {
      var front, last := infos[..|infos| - 1], infos[|infos| - 1];
      TouchAllUnique(s, front);
      TouchedSpec(TouchAll(s, front), last.id, last.size);
    }
  }

  lemma {:induction false} TouchAllIds(s: seq<Entry>, infos: seq<Info>)
    ensures Ids(TouchAll(s, infos)) == Ids(s) + InfoIds(infos)
  {
    if infos != [] {
      var front, last := infos[..|infos| - 1], infos[|infos| - 1];
      TouchAllIds(s, front);
      TouchedIds(TouchAll(s, front), last.id, last.size);
      assert infos == front + [last];
      InfoIdsSnoc(front, last);
    } else {
      assert InfoIds(infos) == {};
    }
  }

  /** The entries of `t` are those of `infos` backwards. */
  ghost predicate Reverses(t: seq<Entry>, infos: seq<Info>) {
    |t| == |infos| && forall i :: 0 <= i < |t| ==> t[i] == Entry(infos[|t| - 1 - i].id, infos[|t| - 1 - i].size)
  }

  lemma {:induction false} TouchNewcomer(u: seq<Entry>, infos: seq<Info>, last: Info)
    requires Reverses(u, infos) && forall i :: 0 <= i < |infos| ==> infos[i].id != last.id
    ensures Reverses(Touched(u, last.id, last.size), infos + [last])
  {
    WithoutAbsent(u, last.id);
    SizeInAbsent(u, last.id, last.size);
    assert Touched(u, last.id, last.size) == [Entry(last.id, last.size)] + u;
    hide Touched;
  }

  /** Over an empty index the last one touched, that is the newest, ends up in front. */
  lemma {:induction false} TouchAllReverses(infos: seq<Info>)
    requires UniqueInfos(infos)
    ensures Reverses(TouchAll([], infos), infos)
  {
    if infos != [] {
      var front, last := infos[..|infos| - 1], infos[|infos| - 1];
      TouchAllReverses(front);
      TouchNewcomer(TouchAll([], front), front, last);
      assert infos == front + [last];
    }
  }

  lemma {:induction false} InsertKeepsOrder(s: seq<Info>, x: Info, k: nat, t: seq<Info>)
    requires k <= |s| && t == s[..k] + [x] + s[k..]
    requires ByMod(s) && UniqueInfos(s) && forall i :: 0 <= i < |s| ==> s[i].id != x.id
    requires (forall i :: 0 <= i < k ==> s[i].mod < x.mod) && (k < |s| ==> x.mod <= s[k].mod)
    ensures ByMod(t) && UniqueInfos(t)
  {
    forall i, j | 0 <= i < j < |t| ensures t[i].mod <= t[j].mod && t[i].id != t[j].id {
      var a := if i < k then s[i] else if i == k then x else s[i - 1];
      var b := if j < k then s[j] else if j == k then x else s[j - 1];
      assert t[i] == a && t[j] == b;
    }
  }

  method InsertByMod(s: seq<Info>, x: Info) returns (t: seq<Info>)
    requires ByMod(s) && UniqueInfos(s) && forall i :: 0 <= i < |s| ==> s[i].id != x.id
    ensures ByMod(t) && UniqueInfos(t) && forall y :: y in t <==> y in s || y == x
  {
    var k := 0;
    while k < |s| && s[k].mod < x.mod
      invariant 0 <= k <= |s| && forall i :: 0 <= i < k ==> s[i].mod < x.mod
    {
      k := k + 1;
    }
    t := s[..k] + [x] + s[k..];
    InsertKeepsOrder(s, x, k, t);
    assert s == s[..k] + s[k..];
  }

  method SortByMod(infos: seq<Info>) returns (s: seq<Info>)
    requires UniqueInfos(infos)
    ensures ByMod(s) && UniqueInfos(s) && forall y :: y in s <==> y in infos
  {
    s := [];
    for i := 0 to |infos|
      invariant ByMod(s) && UniqueInfos(s) && forall y :: y in s <==> y in infos[..i]
    {
      assert forall j :: 0 <= j < |s| ==> s[j] in infos[..i];
      s := InsertByMod(s, infos[i]);
      assert infos[..i + 1] == infos[..i] + [infos[i]];
    }
    assert infos[..|infos|] == infos;
  }

  /** The collected list is right: one entry per adapter directory, with its size and time. */
  ghost predicate Collected(d: Tree, infos: seq<Info>) {
    && UniqueInfos(infos)
    && forall x :: x in infos <==> x.id in Installed(d) && x.size == DirSize(d[x.id]) && x.mod == ModTime(d, x.id)
  }

  lemma {:induction false} CollectedIds(d: Tree, infos: seq<Info>)
    requires Collected(d, infos)
    ensures InfoIds(infos) == Installed(d)
  {
    forall id | id in Installed(d) ensures id in InfoIds(infos) {
      assert Info(id, DirSize(d[id]), ModTime(d, id)) in infos;
    }
  }

  lemma {:induction false} CollectedRebuilds(d: Tree, infos: seq<Info>)
    requires Collected(d, infos) && ByMod(infos)
    ensures Rebuilt(d, TouchAll([], infos))
  {
    var t, n := TouchAll([], infos), |infos|;
    TouchAllReverses(infos);
    TouchAllIds([], infos);
    TouchAllUnique([], infos);
    CollectedIds(d, infos);
    assert Ids([]) == {};
    forall i | 0 <= i < n
      ensures t[i].id in d && t[i].size == DirSize(d[t[i].id]) && infos[n - 1 - i].mod == ModTime(d, t[i].id)
    {
      assert infos[n - 1 - i] in infos;
    }
  }

  /**
   After touching what was collected, an adapter on disk that was not indexed before is
   indexed if and only if its size could be read and its ID does not start with ".tmp".
   */
  lemma {:induction false} CollectedRelistsIff(d: Tree, unreadable: set<string>, s: seq<Entry>, infos: seq<Info>)
    requires Collected(d - unreadable, infos)
    ensures Ids(TouchAll(s, infos)) == Ids(s) + Installed(d - unreadable)
    ensures forall id :: Has(d, id) && id !in Ids(s) ==> (id in Ids(TouchAll(s, infos)) <==> !(".tmp" <= id) && id !in unreadable)
  {
    TouchAllIds(s, infos);
    CollectedIds(d - unreadable, infos);
    hide Ids, TouchAll, InfoIds;
  }

  /** Each entry's configuration file was modified no earlier than the next one's. */
  ghost predicate NewestFirst(d: Tree, lru: seq<Entry>) {
    && (forall i :: 0 <= i < |lru| ==> lru[i].id in d && CONFIG in d[lru[i].id])
    && forall i, j :: 0 <= i < j < |lru| ==> d[lru[i].id][CONFIG].modTime >= d[lru[j].id][CONFIG].modTime
  }

  lemma {:induction false} RebuiltNewestFirst(d: Tree, unreadable: set<string>, lru: seq<Entry>)
    requires Rebuilt(d - unreadable, lru)
    ensures NewestFirst(d, lru)
  {
    forall i | 0 <= i < |lru| ensures lru[i].id in d && CONFIG in d[lru[i].id] && ModTime(d - unreadable, lru[i].id) == d[lru[i].id][CONFIG].modTime {
      assert lru[i].id in Ids(lru);
    }
    hide Unique, ModTime;
  }

  class Store {
    var disk: Tree
    const lru: LRU

    ghost predicate Valid()
      reads this, lru
    {
      lru.Valid()
    }

    constructor (disk: Tree, maxSize: int)
      ensures Valid() && fresh(lru) && this.disk == disk && lru.Contents() == [] && lru.maxSize == maxSize
    {
      this.disk := disk;
      lru := new LRU(maxSize);
    }

    /** Adds up the files of a directory. */
    method MeasureDir(path: string) returns (size: nat)
      requires path in disk
      ensures size == DirSize(disk[path])
    {
      var dir := disk[path];
      var rest := dir.Keys;
      size := 0;
      assert (map n | n in rest :: dir[n].size) == Sizes(dir);
      while rest != {}
        invariant rest <= dir.Keys
        invariant size + SumOf(map n | n in rest :: dir[n].size) == DirSize(dir)
        decreases rest
      {
        var n :| n in rest;
        ghost var m := map k | k in rest :: dir[k].size;
        SumRemove(m, n);
        rest := rest - {n};
        assert m - {n} == map k | k in rest :: dir[k].size;
        size := size + dir[n].size;
      }
    }

    /** `os.RemoveAll`. */
    method Delete(path: string, left: Tree) returns (ok: bool)
      modifies this`disk
      ensures var stuck := Clamp(old(disk), path, left); disk == RemoveAll(old(disk), path, stuck) && ok == (stuck == map[])
    {
      var stuck := Clamp(disk, path, left);
      disk := RemoveAll(disk, path, stuck);
      ok := stuck == map[];
    }

    /** Measures an adapter and marks it most recent; a failed size scan leaves the index alone. */
    method Touch(id: AdapterId, readable: bool) returns (ok: bool)
      requires Valid()
      modifies lru
      ensures Valid() && ok == (readable && id in disk)
      ensures lru.Contents() == if ok then Touched(old(lru.Contents()), id, DirSize(disk[id])) else old(lru.Contents())
    {
      if !readable || id !in disk {
        return false;
      }
      var size := MeasureDir(id);
      lru.Touch(id, size);
      ok := true;
    }

    /** Deletes directories in turn until a delete fails. */
    method DeleteInTurn(paths: seq<string>, stuck: map<string, Tree>) returns (ok: bool)
      modifies this`disk
      ensures disk == Sweep(old(disk), paths, stuck) && ok == Clean(paths, stuck)
    {
      hide RemoveAll;
      var i := 0;
      while i < |paths|
        invariant 0 <= i <= |paths|
        invariant Sweep(disk, paths[i..], stuck) == Sweep(old(disk), paths, stuck)
        invariant forall j :: 0 <= j < i ==> LeftOf(stuck, paths[j]) == map[]
      {
        var left := LeftOf(stuck, paths[i]);
        disk := RemoveAll(disk, paths[i], left);
        assert paths[i..][1..] == paths[i + 1..];
        if left != map[] {
          assert paths[i] in paths;
          return false;
        }
        i := i + 1;
      }
      ok := true;
    }

    /** Takes the least recent adapters out of the index, then deletes their directories until a delete fails. */
    method MakeRoom(required: nat, lefts: map<string, Tree>) returns (evicted: seq<AdapterId>, ok: bool)
      requires Valid()
      modifies this`disk, lru
      ensures Valid()
      ensures var k := Kept(old(lru.Contents()), required, lru.maxSize);
              lru.Contents() == old(lru.Contents())[..k] && evicted == OldestFirst(old(lru.Contents())[k..])
      ensures var stuck := ClampAll(old(disk), lefts);
              disk == Sweep(old(disk), evicted, stuck) && ok == Clean(evicted, stuck)
    {
      var stuck := ClampAll(disk, lefts);
      evicted := lru.Evict(required);
      ok := DeleteInTurn(evicted, stuck);
    }

    /** Forgets an adapter, then deletes its directory. */
    method Remove(id: AdapterId, left: Tree) returns (ok: bool)
      requires Valid()
      modifies this`disk, lru
      ensures Valid() && lru.Contents() == Without(old(lru.Contents()), id)
      ensures var stuck := Clamp(old(disk), id, left); disk == RemoveAll(old(disk), id, stuck) && ok == (stuck == map[])
    {
      var known := lru.Remove(id);
      ok := Delete(id, left);
    }

    /**
     Walks the tree in the order `walk`, collects the adapter directories whose size can
     be read, sorts them by modification time and touches them; with a fresh index the
     result lists exactly those, newest first. An adapter on disk is relisted if and only
     if its size can be read and its ID does not look like a staging directory.
     */
    method Rebuild(walk: seq<string>, baseOk: bool, unreadable: set<string>) returns (ok: bool)
      requires Valid() && Distinct(walk) && Elements(walk) == disk.Keys
      modifies lru
      ensures Valid() && ok == baseOk && (!ok ==> lru.Contents() == old(lru.Contents()))
      ensures ok ==> Ids(lru.Contents()) == Ids(old(lru.Contents())) + Installed(disk - unreadable)
      ensures ok && old(lru.Contents()) == [] ==> Rebuilt(disk - unreadable, lru.Contents())
      ensures ok && old(lru.Contents()) == [] ==> NewestFirst(disk, lru.Contents())
      ensures ok ==> forall id :: Has(disk, id) && id !in Ids(old(lru.Contents())) ==>
                (id in Ids(lru.Contents()) <==> !(".tmp" <= id) && id !in unreadable)
    {
      if !baseOk {
        return false;
      }
      ok := true;
      var infos := Collect(walk, unreadable);
      var sorted := SortByMod(infos);
      ghost var d := disk - unreadable;
      assert Collected(d, sorted);
      ghost var before := lru.Contents();
      for i := 0 to |sorted|
        invariant lru.Valid() && lru.Contents() == TouchAll(before, sorted[..i])
      {
        lru.Touch(sorted[i].id, sorted[i].size);
        assert sorted[..i + 1][..i] == sorted[..i];
      }
      assert sorted[..|sorted|] == sorted;
      CollectedRelistsIff(disk, unreadable, before, sorted);
      CollectedRebuilds(d, sorted);
      if before == [] {
        RebuiltNewestFirst(disk, unreadable, lru.Contents());
      }
      hide Collected, TouchAll, Ids, Rebuilt, Linked, View, NewestFirst;
    }

    method Collect(walk: seq<string>, unreadable: set<string>) returns (infos: seq<Info>)
      requires Distinct(walk) && Elements(walk) == disk.Keys
      ensures Collected(disk - unreadable, infos)
    {
      ghost var d := disk - unreadable;
      infos := [];
      for i := 0 to |walk|
        invariant UniqueInfos(infos)
        invariant forall x :: x in infos <==> x.id in walk[..i] && x.id in Installed(d) && x.size == DirSize(d[x.id]) && x.mod == ModTime(d, x.id)
      {
        var path := walk[i];
        assert path in Elements(walk);
        assert path !in walk[..i];
        if CONFIG in disk[path] && !(".tmp" <= path) && path !in unreadable {
          var size := MeasureDir(path);
          infos := infos + [Info(path, size, disk[path][CONFIG].modTime)];
        }
        assert walk[..i + 1] == walk[..i] + [path];
      }
      assert walk[..|walk|] == walk;
    }
  }
}
