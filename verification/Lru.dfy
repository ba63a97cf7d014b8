/**
 The LRU index (internal/cache/lru.go): a map into a linked list plus a byte
 counter, refining a duplicate-free sequence of entries, most recent first.
 */
module Lru {
  import opened Common

  type AdapterId = string

  datatype Entry = Entry(id: AdapterId, size: nat)

  // ---------------------------------------------------------------------
  // Recency sequences
  // ---------------------------------------------------------------------

  function Total(s: seq<Entry>): nat {
    if s == [] then 0 else s[0].size + Total(s[1..])
  }

  ghost function Ids(s: seq<Entry>): (r: set<AdapterId>)
    ensures forall i :: 0 <= i < |s| ==> s[i].id in r
  {
    set e | e in s :: e.id
  }

  /** Each adapter is listed at most once. */
  ghost predicate Unique(s: seq<Entry>) {
    forall i, j :: 0 <= i < j < |s| ==> s[i].id != s[j].id
  }

  /** The sequence with position `k` cut out. */
  function Cut<T>(s: seq<T>, k: nat): seq<T>
    requires k < |s|
  {
    s[..k] + s[k + 1..]
  }

  function ToFront<T>(s: seq<T>, k: nat): seq<T>
    requires k < |s|
  {
    [s[k]] + Cut(s, k)
  }

  function Without(s: seq<Entry>, id: AdapterId): seq<Entry>
  {
    if s == [] then []
    else if s[0].id == id then Without(s[1..], id)
    else [s[0]] + Without(s[1..], id)
  }

  /** The recorded size of an adapter, or `size` when it is not listed. */
  function SizeIn(s: seq<Entry>, id: AdapterId, size: nat): nat {
    if s == [] then size else if s[0].id == id then s[0].size else SizeIn(s[1..], id, size)
  }

  /** Moved to the front with its recorded size, or inserted there with the given one. */
  function Touched(s: seq<Entry>, id: AdapterId, size: nat): seq<Entry> {
    [Entry(id, SizeIn(s, id, size))] + Without(s, id)
  }

  /** How many entries survive making room for `required` bytes. */
  function Kept(s: seq<Entry>, required: nat, maxSize: int): (k: nat)
    ensures k <= |s|
    decreases |s|
  {
    if s == [] || Total(s) + required <= maxSize then |s| else Kept(s[..|s| - 1], required, maxSize)
  }

  function OldestFirst(s: seq<Entry>): seq<AdapterId> {
    if s == [] then [] else [s[|s| - 1].id] + OldestFirst(s[..|s| - 1])
  }

  lemma {:induction false} TotalConcat(s: seq<Entry>, t: seq<Entry>)
    ensures Total(s + t) == Total(s) + Total(t)
  {
    if s == [] {
      assert s + t == t;
    } else {
      assert (s + t)[1..] == s[1..] + t;
      TotalConcat(s[1..], t);
    }
  }

  lemma {:induction false} TotalDropLast(s: seq<Entry>)
    requires s != []
    ensures Total(s) == Total(s[..|s| - 1]) + s[|s| - 1].size
  {
    assert s == s[..|s| - 1] + [s[|s| - 1]];
    TotalConcat(s[..|s| - 1], [s[|s| - 1]]);
  }

  lemma {:induction false} TotalPrefix(s: seq<Entry>, j: nat, k: nat)
    requires j <= k <= |s|
    ensures Total(s[..j]) <= Total(s[..k])
  {
    assert s[..k] == s[..j] + s[j..k];
    TotalConcat(s[..j], s[j..k]);
  }

  /**
   Eviction drops exactly the shortest least-recent suffix that makes room: the
   kept prefix fits, no longer prefix does, and everything goes when nothing fits.
   */
  lemma {:induction false} KeptIsLongestFit(s: seq<Entry>, required: nat, maxSize: int)
    ensures var k := Kept(s, required, maxSize);
            && (Total(s[..k]) + required <= maxSize || k == 0)
            && forall j :: k < j <= |s| ==> Total(s[..j]) + required > maxSize
  {
    if s == [] || Total(s) + required <= maxSize {
      assert s[..|s|] == s;
    } else {
      var front := s[..|s| - 1];
      KeptIsLongestFit(front, required, maxSize);
      assert s[..|s|] == s;
      assert forall j :: 0 <= j < |s| ==> front[..j] == s[..j];
    }
  }

  /** Removing a listed adapter from a duplicate-free sequence cuts out its one position. */
  lemma {:induction false} WithoutAt(s: seq<Entry>, k: nat)
    requires Unique(s) && k < |s|
    ensures Without(s, s[k].id) == Cut(s, k)
  {
    if k == 0 {
      WithoutAbsent(s[1..], s[0].id);
    } else {
      WithoutAt(s[1..], k - 1);
      assert s[1..][k - 1] == s[k];
      assert Cut(s, k) == [s[0]] + Cut(s[1..], k - 1);
    }
  }

  lemma {:induction false} WithoutAbsent(s: seq<Entry>, id: AdapterId)
    requires forall i :: 0 <= i < |s| ==> s[i].id != id
    ensures Without(s, id) == s
  {
    if s != [] {
      WithoutAbsent(s[1..], id);
    }
  }

  lemma {:induction false} SizeInAt(s: seq<Entry>, k: nat, size: nat)
    requires Unique(s) && k < |s|
    ensures SizeIn(s, s[k].id, size) == s[k].size
  {
    if k > 0 {
      assert s[1..][k - 1] == s[k];
      SizeInAt(s[1..], k - 1, size);
    }
  }

  lemma {:induction false} SizeInAbsent(s: seq<Entry>, id: AdapterId, size: nat)
    requires forall i :: 0 <= i < |s| ==> s[i].id != id
    ensures SizeIn(s, id, size) == size
  {
    if s != [] {
      SizeInAbsent(s[1..], id, size);
    }
  }

  lemma {:induction false} WithoutMembers(s: seq<Entry>, id: AdapterId)
    ensures forall e :: e in Without(s, id) <==> e in s && e.id != id
  {
    if s != [] {
      WithoutMembers(s[1..], id);
      assert s == [s[0]] + s[1..];
    }
  }

  lemma {:induction false} WithoutIds(s: seq<Entry>, id: AdapterId)
    ensures Ids(Without(s, id)) == Ids(s) - {id}
  {
    WithoutMembers(s, id);
  }

  lemma {:induction false} WithoutUnique(s: seq<Entry>, id: AdapterId)
    requires Unique(s)
    ensures Unique(Without(s, id))
  {
    if s != [] {
      var r := Without(s[1..], id);
      WithoutUnique(s[1..], id);
      WithoutMembers(s[1..], id);
      assert forall i :: 0 <= i < |r| ==> r[i] in s[1..];
    }
  }

  lemma {:induction false} WithoutTotal(s: seq<Entry>, id: AdapterId)
    ensures Total(Without(s, id)) <= Total(s)
  {
    if s != [] {
      WithoutTotal(s[1..], id);
    }
  }

  lemma {:induction false} CutTotal(s: seq<Entry>, k: nat)
    requires k < |s|
    ensures Total(s) == s[k].size + Total(Cut(s, k))
  {
    assert s == s[..k] + ([s[k]] + s[k + 1..]);
    TotalConcat(s[..k], [s[k]] + s[k + 1..]);
    TotalConcat(s[..k], s[k + 1..]);
    assert ([s[k]] + s[k + 1..])[1..] == s[k + 1..];
  }

  lemma {:induction false} TouchedTotal(s: seq<Entry>, id: AdapterId, size: nat)
    requires Unique(s)
    ensures Total(Touched(s, id, size)) == Total(s) + (if id in Ids(s) then 0 else size)
  {
    assert Touched(s, id, size)[1..] == Without(s, id);
    if id in Ids(s) {
      var k :| 0 <= k < |s| && s[k].id == id;
      WithoutAt(s, k);
      SizeInAt(s, k, size);
      CutTotal(s, k);
    } else {
      WithoutAbsent(s, id);
      SizeInAbsent(s, id, size);
    }
  }

  lemma {:induction false} TouchedIds(s: seq<Entry>, id: AdapterId, size: nat)
    ensures Ids(Touched(s, id, size)) == Ids(s) + {id}
  {
    WithoutIds(s, id);
    var t, w := Touched(s, id, size), Without(s, id);
    assert forall e :: e in t <==> e == t[0] || e in w;
    assert t[0] in t;
    assert Ids(t) == {id} + Ids(w);
  }

  lemma {:induction false} TouchedUnique(s: seq<Entry>, id: AdapterId, size: nat)
    requires Unique(s)
    ensures Unique(Touched(s, id, size))
  {
    WithoutUnique(s, id);
    WithoutMembers(s, id);
    var t, w := Touched(s, id, size), Without(s, id);
    hide Without, SizeIn;
    forall i, j | 0 <= i < j < |t| ensures t[i].id != t[j].id {
      assert t[j] == w[j - 1] && w[j - 1] in w;
      assert i > 0 ==> t[i] == w[i - 1];
    }
  }

  lemma {:induction false} TouchedAt(s: seq<Entry>, k: nat, size: nat)
    requires Unique(s) && k < |s|
    ensures Touched(s, s[k].id, size) == ToFront(s, k)
  {
    WithoutAt(s, k);
    SizeInAt(s, k, size);
  }

  lemma {:induction false} TouchedAbsent(s: seq<Entry>, id: AdapterId, size: nat)
    requires id !in Ids(s)
    ensures Touched(s, id, size) == [Entry(id, size)] + s
  {
    WithoutAbsent(s, id);
    SizeInAbsent(s, id, size);
  }

  /** One adapter is listed, further down another. */
  ghost predicate Before(s: seq<Entry>, a: AdapterId, b: AdapterId) {
    exists i, j :: 0 <= i < j < |s| && s[i].id == a && s[j].id == b
  }

  lemma {:induction false} BeforeOf(e: Entry, s: seq<Entry>, a: AdapterId, b: AdapterId)
    ensures Before([e] + s, a, b) <==> Before(s, a, b) || (e.id == a && b in Ids(s))
  {
    var t := [e] + s;
    if i, j :| 0 <= i < j < |t| && t[i].id == a && t[j].id == b {
      assert s[j - 1].id == b;
      if i > 0 {
        assert s[i - 1].id == a && s[j - 1].id == b;
      }
    }
    if i, j :| 0 <= i < j < |s| && s[i].id == a && s[j].id == b {
      assert t[i + 1].id == a && t[j + 1].id == b;
    }
    if e.id == a && b in Ids(s) {
      var j :| 0 <= j < |s| && s[j].id == b;
      assert t[0].id == a && t[j + 1].id == b;
    }
  }

  /** A removal keeps the others in their order. */
  lemma {:induction false} WithoutKeepsOrder(s: seq<Entry>, id: AdapterId, a: AdapterId, b: AdapterId)
    ensures Before(Without(s, id), a, b) <==> Before(s, a, b) && a != id && b != id
  {
    if s != [] {
      WithoutKeepsOrder(s[1..], id, a, b);
      WithoutIds(s[1..], id);
      assert s == [s[0]] + s[1..];
      BeforeOf(s[0], s[1..], a, b);
      BeforeOf(s[0], Without(s[1..], id), a, b);
      hide Before, Ids;
    }
  }

  /** A touch puts its adapter before all others and keeps those in their order. */
  lemma {:induction false} TouchedKeepsOrder(s: seq<Entry>, id: AdapterId, size: nat, a: AdapterId, b: AdapterId)
    requires a != id && b != id
    ensures Before(Touched(s, id, size), a, b) <==> Before(s, a, b)
    ensures b in Ids(s) ==> Before(Touched(s, id, size), id, b)
  {
    WithoutKeepsOrder(s, id, a, b);
    WithoutIds(s, id);
    BeforeOf(Entry(id, SizeIn(s, id, size)), Without(s, id), a, b);
    BeforeOf(Entry(id, SizeIn(s, id, size)), Without(s, id), id, b);
    hide Before, Ids, Without, SizeIn;
  }

  /** Touching keeps each adapter listed once, puts it in front, and only ever adds the bytes of a newcomer. */
  lemma {:induction false} TouchedSpec(s: seq<Entry>, id: AdapterId, size: nat)
    requires Unique(s)
    ensures var t := Touched(s, id, size);
            && Unique(t) && Ids(t) == Ids(s) + {id} && t[0].id == id
            && Total(t) == Total(s) + (if id in Ids(s) then 0 else size)
  {
    hide Unique, Ids, Total, Without, SizeIn;
    TouchedTotal(s, id, size);
    TouchedIds(s, id, size);
    TouchedUnique(s, id, size);
  }

  lemma {:induction false} UniquePrefix(s: seq<Entry>, k: nat)
    requires Unique(s) && k <= |s|
    ensures Unique(s[..k]) && Ids(s[..k]) !! Ids(s[k..]) && Ids(s[..k]) + Ids(s[k..]) == Ids(s)
    ensures Elements(OldestFirst(s[k..])) == Ids(s[k..])
  {
    OldestFirstIds(s[k..]);
    assert forall i :: k <= i < |s| ==> s[k..][i - k] == s[i];
  }

  lemma {:induction false} OldestFirstIds(s: seq<Entry>)
    ensures Elements(OldestFirst(s)) == Ids(s)
  {
    if s != [] {
      OldestFirstIds(s[..|s| - 1]);
      assert s == s[..|s| - 1] + [s[|s| - 1]];
    }
  }

  lemma {:induction false} OldestFirstStep(s: seq<Entry>, k: nat)
    requires k < |s|
    ensures OldestFirst(s[k..]) == OldestFirst(s[k + 1..]) + [s[k].id]
    decreases |s|
  {
    if k + 1 < |s| {
      var front := s[..|s| - 1];
      OldestFirstStep(front, k);
      assert s[k..][..|s| - k - 1] == front[k..];
      assert s[k + 1..][..|s| - k - 2] == front[k + 1..];
    } else {
      assert s[k..] == [s[k]];
    }
  }

  /** Between two rounds of eviction: `rest` is what is left of `s`, and `evicted` what is gone. */
  ghost predicate Evicting(s: seq<Entry>, rest: seq<Entry>, evicted: seq<AdapterId>, required: nat, maxSize: int) {
    && |rest| <= |s| && rest == s[..|rest|] && evicted == OldestFirst(s[|rest|..])
    && Kept(rest, required, maxSize) == Kept(s, required, maxSize)
  }

  lemma EvictStart(s: seq<Entry>, required: nat, maxSize: int)
    ensures Evicting(s, s, [], required, maxSize)
  {
    assert s[..|s|] == s;
  }

  lemma {:induction false} EvictStep(s: seq<Entry>, rest: seq<Entry>, evicted: seq<AdapterId>, required: nat, maxSize: int)
    requires Evicting(s, rest, evicted, required, maxSize) && rest != [] && Total(rest) + required > maxSize
    ensures Evicting(s, rest[..|rest| - 1], evicted + [rest[|rest| - 1].id], required, maxSize)
  {
    var n := |rest| - 1;
    assert rest[..n] == s[..n];
    OldestFirstStep(s, n);
  }

  /** The eviction loop stops where `Kept` does. */
  lemma {:induction false} EvictDone(s: seq<Entry>, rest: seq<Entry>, evicted: seq<AdapterId>, required: nat, maxSize: int)
    requires Evicting(s, rest, evicted, required, maxSize) && (Total(rest) + required <= maxSize || rest == [])
    ensures rest == s[..Kept(s, required, maxSize)] && evicted == OldestFirst(s[Kept(s, required, maxSize)..])
  {
  }

  // ---------------------------------------------------------------------
  // The index object
  // ---------------------------------------------------------------------

  /** A list element; its payload never changes once it is in the list. */
  class Element {
    const id: AdapterId
    const size: nat

    constructor (id: AdapterId, size: nat)
      ensures this.id == id && this.size == size
    {
      this.id, this.size := id, size;
    }
  }

  /** The recency sequence a list of elements stands for. */
  ghost function View(order: seq<Element>): (s: seq<Entry>)
    ensures |s| == |order| && forall i :: 0 <= i < |order| ==> s[i] == Entry(order[i].id, order[i].size)
  {
    seq(|order|, i requires 0 <= i < |order| => Entry(order[i].id, order[i].size))
  }

  /** The map holds exactly the list's elements, each under its own ID. */
  ghost predicate Linked(items: map<AdapterId, Element>, order: seq<Element>) {
    && Unique(View(order))
    && (forall i :: 0 <= i < |order| ==> order[i].id in items && items[order[i].id] == order[i])
    && (forall id :: id in items ==> items[id].id == id && items[id] in order)
  }

  lemma {:induction false} LinkedIds(items: map<AdapterId, Element>, order: seq<Element>)
    requires Linked(items, order)
    ensures items.Keys == Ids(View(order)) && Unique(View(order))
  {
    var s := View(order);
    forall id ensures id in items <==> id in Ids(s) {
      if id in items {
        var k :| 0 <= k < |order| && order[k] == items[id];
        assert s[k].id == id;
      }
      if id in Ids(s) {
        var k :| 0 <= k < |s| && s[k].id == id;
      }
    }
  }

  lemma {:induction false} UniqueCut(s: seq<Entry>, k: nat, cut: seq<Entry>)
    requires Unique(s) && k < |s| && cut == Cut(s, k)
    ensures Unique(cut) && forall i :: 0 <= i < |cut| ==> cut[i].id != s[k].id
  {
    forall i, j | 0 <= i < j < |cut| ensures cut[i].id != cut[j].id {
      assert cut[i] == s[if i < k then i else i + 1] && cut[j] == s[if j < k then j else j + 1];
    }
    forall i | 0 <= i < |cut| ensures cut[i].id != s[k].id {
      assert cut[i] == s[if i < k then i else i + 1];
    }
  }

  lemma {:induction false} ViewCut(order: seq<Element>, k: nat)
    requires k < |order|
    ensures View(Cut(order, k)) == Cut(View(order), k)
  {
  }

  lemma {:induction false} CutKeepsOthers(order: seq<Element>, k: nat, el: Element)
    requires k < |order| && el in order && el != order[k]
    ensures el in Cut(order, k)
  {
    var j :| 0 <= j < |order| && order[j] == el;
    assert Cut(order, k)[if j < k then j else j - 1] == el;
  }

  lemma {:induction false} CutElements(order: seq<Element>, k: nat, cut: seq<Element>)
    requires k < |order| && Unique(View(order)) && cut == Cut(order, k)
    ensures Unique(View(cut)) && forall i :: 0 <= i < |cut| ==> cut[i] in order && cut[i].id != order[k].id
  {
    ViewCut(order, k);
    UniqueCut(View(order), k, View(cut));
    forall i | 0 <= i < |cut| ensures cut[i] in order && cut[i].id != order[k].id {
      assert cut[i] == order[if i < k then i else i + 1];
      assert View(cut)[i].id != View(order)[k].id;
    }
  }

  lemma {:induction false} LinkedCut(items: map<AdapterId, Element>, order: seq<Element>, k: nat)
    requires Linked(items, order) && k < |order|
    ensures Linked(items - {order[k].id}, Cut(order, k))
  {
    var cut := Cut(order, k);
    CutElements(order, k, cut);
    hide Unique;
    forall id | id in items && id != order[k].id ensures items[id].id == id && items[id] in cut {
      CutKeepsOthers(order, k, items[id]);
    }
  }

  lemma {:induction false} UniquePush(s: seq<Entry>, e: Entry)
    requires Unique(s) && e.id !in Ids(s)
    ensures Unique([e] + s)
  {
    assert forall i :: 0 <= i < |s| ==> s[i].id in Ids(s);
    hide Ids;
  }

  lemma {:induction false} ViewPush(order: seq<Element>, el: Element)
    ensures View([el] + order) == [Entry(el.id, el.size)] + View(order)
  {
  }

  lemma {:induction false} LinkedPush(items: map<AdapterId, Element>, order: seq<Element>, el: Element)
    requires Linked(items, order) && el.id !in items
    ensures Linked(items[el.id := el], [el] + order)
    ensures View([el] + order) == [Entry(el.id, el.size)] + View(order)
  {
    LinkedIds(items, order);
    ViewPush(order, el);
    UniquePush(View(order), Entry(el.id, el.size));
    hide Unique, Ids, View;
    assert forall x :: x in order ==> x in [el] + order;
  }

  class LRU {
    var items: map<AdapterId, Element>
    var order: seq<Element>
    var curSize: int
    const maxSize: int

    /** The recency sequence that the three fields represent. */
    ghost function Contents(): seq<Entry>
      reads this
    {
      View(order)
    }

    ghost predicate Valid()
      reads this
    {
      Linked(items, order) && curSize == Total(Contents())
    }

    constructor (maxSize: int)
      ensures Valid() && Contents() == [] && this.maxSize == maxSize
    {
      items, order, curSize := map[], [], 0;
      this.maxSize := maxSize;
    }

    /** The list position of the element that the map holds for an adapter. */
    method Position(id: AdapterId) returns (k: nat)
      requires Linked(items, order) && id in items
      ensures k < |order| && order[k] == items[id] && Contents()[k].id == id
    {
      var el := items[id];
      k := 0;
      while order[k] != el
        invariant k < |order| && el in order[k..]
        decreases |order| - k
      {
        k := k + 1;
      }
    }

    /** `list.PushFront` together with its map entry. */
    method PushFront(el: Element)
      requires Linked(items, order) && el.id !in items
      modifies this`items, this`order
      ensures Linked(items, order) && items == old(items)[el.id := el]
      ensures Contents() == [Entry(el.id, el.size)] + old(Contents())
    {
      LinkedPush(items, order, el);
      order := [el] + order;
      items := items[el.id := el];
    }

    /** `list.MoveToFront`. */
    method MoveToFront(k: nat)
      requires Linked(items, order) && k < |order|
      modifies this`order
      ensures Linked(items, order)
      ensures Contents() == ToFront(old(Contents()), k)
    {
      var el := order[k];
      var rest := Cut(order, k);
      LinkedCut(items, order, k);
      ViewCut(order, k);
      LinkedPush(items - {el.id}, rest, el);
      assert (items - {el.id})[el.id := el] == items;
      order := [el] + rest;
    }

    /** `list.Remove` together with its map entry. */
    method Unlink(k: nat) returns (el: Element)
      requires Linked(items, order) && k < |order|
      modifies this`items, this`order
      ensures Linked(items, order) && items == old(items) - {el.id} && el.id in old(items)
      ensures old(Contents())[k] == Entry(el.id, el.size) && el == old(items)[el.id]
      ensures Contents() == Cut(old(Contents()), k)
    {
      LinkedCut(items, order, k);
      ViewCut(order, k);
      el := order[k];
      order := Cut(order, k);
      items := items - {el.id};
    }

    /** The branch of `Touch` for an adapter the index does not list. */
    method Insert(id: AdapterId, size: nat)
      requires Valid() && id !in items
      modifies this
      ensures Valid() && Contents() == Touched(old(Contents()), id, size)
    {
      ghost var s := Contents();
      LinkedIds(items, order);
      TouchedTotal(s, id, size);
      TouchedAbsent(s, id, size);
      hide Linked, Unique, Ids, Total, Touched, View;
      var el := new Element(id, size);
      assert Contents() == s;
      PushFront(el);
      assert Contents() == Touched(s, id, size);
      curSize := curSize + size;
    }

    /** Moves a known adapter to the front, keeping its size; inserts an unknown one there. */
    method Touch(id: AdapterId, size: nat)
      requires Valid()
      modifies this
      ensures Valid() && Contents() == Touched(old(Contents()), id, size)
    {
      if id in items {
        ghost var s := Contents();
        LinkedIds(items, order);
        TouchedTotal(s, id, size);
        hide Linked, Unique, Ids, Total, Touched, View, ToFront;
        var k := Position(id);
        TouchedAt(s, k, size);
        MoveToFront(k);
      } else {
        Insert(id, size);
      }
    }

    method Remove(id: AdapterId) returns (ok: bool)
      requires Valid()
      modifies this
      ensures Valid() && Contents() == Without(old(Contents()), id)
      ensures ok <==> id in Ids(old(Contents()))
    {
      ghost var s := Contents();
      LinkedIds(items, order);
      hide Linked, Unique, Ids, Total, Without, View, Cut;
      if id !in items {
        WithoutAbsent(s, id);
        return false;
      }
      var k := Position(id);
      WithoutAt(s, k);
      CutTotal(s, k);
      var el := Unlink(k);
      curSize := curSize - el.size;
      ok := true;
    }

    /** Drops the tail of the list. */
    method PopTail() returns (id: AdapterId)
      requires Valid() && |order| > 0
      modifies this
      ensures Valid() && Contents() == old(Contents())[..|old(order)| - 1] && |order| == |old(order)| - 1
      ensures id == old(Contents())[|old(order)| - 1].id
    {
      ghost var s := Contents();
      TotalDropLast(s);
      var el := Unlink(|order| - 1);
      assert s[..|s| - 1] + s[|s|..] == s[..|s| - 1];
      curSize := curSize - el.size;
      id := el.id;
    }

    /** Pops the tail until the rest and `required` bytes fit, and reports what it popped, oldest first. */
    method Evict(required: nat) returns (evicted: seq<AdapterId>)
      requires Valid()
      modifies this
      ensures Valid()
      ensures var k := Kept(old(Contents()), required, maxSize);
              Contents() == old(Contents())[..k] && evicted == OldestFirst(old(Contents())[k..])
    {
      ghost var s := Contents();
      evicted := [];
      EvictStart(s, required, maxSize);
      hide Linked, Evicting, Total, Kept, OldestFirst;
      while curSize + required > maxSize && |order| > 0
        invariant Valid() && Evicting(s, Contents(), evicted, required, maxSize)
        decreases |order|
      {
        EvictStep(s, Contents(), evicted, required, maxSize);
        var id := PopTail();
        evicted := evicted + [id];
      }
      EvictDone(s, Contents(), evicted, required, maxSize);
    }

    method Contains(id: AdapterId) returns (ok: bool)
      requires Valid()
      ensures ok <==> id in Ids(Contents())
    {
      LinkedIds(items, order);
      ok := id in items;
    }

    /** Adapter IDs, most recent first. */
    method Items() returns (ids: seq<AdapterId>)
      requires Valid()
      ensures |ids| == |Contents()| && forall i :: 0 <= i < |ids| ==> ids[i] == Contents()[i].id
    {
      ids := [];
      for i := 0 to |order|
        invariant |ids| == i && forall j :: 0 <= j < i ==> ids[j] == Contents()[j].id
      {
        ids := ids + [order[i].id];
      }
    }
  }
}
