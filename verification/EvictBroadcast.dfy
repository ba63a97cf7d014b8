/**
 Cluster-wide eviction (internal/admin/handler.go, evict) as messages between nodes:
 the entry node evicts locally and then tells every other peer of its ring once;
 recipients evict and tell nobody. The handler itself is in Admin.
 */
module EvictBroadcast {
  import opened Lru
  import opened Disk
  import opened HashRing

  datatype Node = Node(disk: Tree, lru: seq<Entry>, peers: set<Addr>)

  /** A request on the wire; `marked` is the X-Loraplex-Forwarded header. */
  datatype Msg = Msg(to: Addr, marked: bool)

  datatype State = State(nodes: map<Addr, Node>, net: multiset<Msg>, delivered: set<Addr>, sent: nat)

  datatype Step =
    | Deliver(msg: Msg, left: Tree)
    | Lose(msg: Msg)
    | Elsewhere(node: Addr, after: Node)

  ghost predicate Absent(n: Node, id: AdapterId) {
    id !in n.disk && id !in Ids(n.lru)
  }

  ghost predicate Enabled(s: State, step: Step, id: AdapterId) {
    match step
    case Deliver(msg, left) => msg in s.net && msg.to in s.nodes && Leftover(s.nodes[msg.to].disk, id, left)
    case Lose(msg) => msg in s.net
    // Other activity of a node, anything but bringing the adapter back.
    case Elsewhere(node, after) => node in s.nodes && (Absent(s.nodes[node], id) ==> Absent(after, id))
  }

  /** The same handler for clients and peers: evict, and broadcast unless marked or failed. */
  ghost function Targets(s: State, msg: Msg, left: Tree): set<Addr>
    requires msg.to in s.nodes
  {
    if msg.marked || left != map[] then {} else s.nodes[msg.to].peers - {msg.to}
  }

  ghost function Next(s: State, step: Step, id: AdapterId): State
    requires Enabled(s, step, id)
  {
    match step
    case Deliver(msg, left) =>
      var n := s.nodes[msg.to];
      var targets := Targets(s, msg, left);
      State(s.nodes[msg.to := n.(disk := RemoveAll(n.disk, id, left), lru := Without(n.lru, id))],
            s.net - multiset{msg} + multiset(set a | a in targets :: Msg(a, true)),
            s.delivered + {msg.to},
            s.sent + |targets|)
    case Lose(msg) => s.(net := s.net - multiset{msg})
    case Elsewhere(node, after) => s.(nodes := s.nodes[node := after])
  }

  ghost predicate IsRun(ss: seq<State>, steps: seq<Step>, id: AdapterId) {
    && |ss| == |steps| + 1
    && forall i :: 0 <= i < |steps| ==> Enabled(ss[i], steps[i], id) && ss[i + 1] == Next(ss[i], steps[i], id)
  }

  /** The cluster right after the entry node handled a client's eviction. */
  ghost predicate Started(s0: State, s: State, entry: Addr, id: AdapterId) {
    && entry in s0.nodes && s0.net == multiset{Msg(entry, false)} && s0.delivered == {} && s0.sent == 0
    && s == Next(s0, Deliver(Msg(entry, false), map[]), id)
  }

  /** What the broadcast can still do: deliver each target's one marked message. */
  ghost predicate Inv(s: State, entry: Addr, targets: set<Addr>, id: AdapterId) {
    && entry !in targets && s.sent == |targets|
    && (forall m :: m in s.net ==> m.marked && m.to in targets && m.to !in s.delivered && s.net[m] == 1)
    && s.delivered <= targets + {entry} && entry in s.delivered
    && s.delivered <= s.nodes.Keys
    && (forall a :: a in s.delivered && a in s.nodes ==> Absent(s.nodes[a], id))
  }

  lemma {:induction false} RemovedIsAbsent(n: Node, id: AdapterId)
    ensures Absent(n.(disk := RemoveAll(n.disk, id, map[]), lru := Without(n.lru, id)), id)
  {
    WithoutIds(n.lru, id);
  }

  lemma {:induction false} StartedInv(s0: State, s: State, entry: Addr, id: AdapterId)
    requires Started(s0, s, entry, id)
    ensures Inv(s, entry, s0.nodes[entry].peers - {entry}, id)
    ensures forall a :: a in s0.nodes[entry].peers - {entry} ==> Msg(a, true) in s.net
  {
    RemovedIsAbsent(s0.nodes[entry], id);
    var targets := s0.nodes[entry].peers - {entry};
    assert Targets(s0, Msg(entry, false), map[]) == targets;
    assert s.net == multiset(set a | a in targets :: Msg(a, true));
  }

  lemma {:induction false} StepInv(s: State, step: Step, entry: Addr, targets: set<Addr>, id: AdapterId)
    requires Inv(s, entry, targets, id) && Enabled(s, step, id)
    requires step.Deliver? ==> step.left == map[]
    ensures Inv(Next(s, step, id), entry, targets, id) && |Next(s, step, id).net| <= |s.net|
    ensures !step.Elsewhere? ==> |Next(s, step, id).net| < |s.net|
  {
    if step.Deliver? {
      RemovedIsAbsent(s.nodes[step.msg.to], id);
      assert Targets(s, step.msg, step.left) == {};
      assert multiset(set a | a in Targets(s, step.msg, step.left) :: Msg(a, true)) == multiset{};
    }
  }

  /** No message of a target is dropped without being delivered or lost. */
  lemma {:induction false} StepPending(s: State, step: Step, entry: Addr, targets: set<Addr>, id: AdapterId, a: Addr)
    requires Inv(s, entry, targets, id) && Enabled(s, step, id) && !step.Lose? && (step.Deliver? ==> step.left == map[])
    requires Msg(a, true) in s.net || a in s.delivered
    ensures Msg(a, true) in Next(s, step, id).net || a in Next(s, step, id).delivered
  {
    if step.Deliver? {
      assert Targets(s, step.msg, step.left) == {};
    }
  }

  /**
   An eviction tells somebody if and only if it is a client's, its delete succeeded and this
   node knows another peer; the adapter is gone from here if and only if the delete left
   nothing at its path.
   */
  lemma {:induction false} BroadcastsIff(s: State, msg: Msg, left: Tree, id: AdapterId)
    requires Enabled(s, Deliver(msg, left), id)
    ensures var t := Next(s, Deliver(msg, left), id);
            && (t.sent > s.sent <==> !msg.marked && left == map[] && exists a :: a in s.nodes[msg.to].peers && a != msg.to)
            && (forall a :: a != msg.to ==>
                 var told := !msg.marked && left == map[] && a in s.nodes[msg.to].peers;
                 t.net[Msg(a, true)] == s.net[Msg(a, true)] + if told then 1 else 0)
            && (Absent(t.nodes[msg.to], id) <==> id !in left)
  {
    var others := Targets(s, msg, left);
    WithoutIds(s.nodes[msg.to].lru, id);
    forall a | a != msg.to ensures multiset(set b | b in others :: Msg(b, true))[Msg(a, true)] == if a in others then 1 else 0 {
    }
  }

  ghost function Moves(steps: seq<Step>): nat {
    if steps == [] then 0 else Moves(steps[..|steps| - 1]) + (if steps[|steps| - 1].Elsewhere? then 0 else 1)
  }

  /**
   One client eviction sends one message to each distinct other peer of the entry node's
   ring and recipients send none, so it is over after as many message events; every node
   that was reached no longer has the adapter on disk or in its index, and if nothing is
   lost and nothing is left to deliver, every peer was reached.
   */
  lemma {:induction false} EvictReachesEveryone(s0: State, ss: seq<State>, steps: seq<Step>, entry: Addr, id: AdapterId, i: nat)
    requires IsRun(ss, steps, id) && Started(s0, ss[0], entry, id) && i < |ss|
    requires forall k :: 0 <= k < i && steps[k].Deliver? ==> steps[k].left == map[]
    ensures var targets := s0.nodes[entry].peers - {entry};
            && Inv(ss[i], entry, targets, id)
            && ss[i].sent == |targets|
            && Moves(steps[..i]) + |ss[i].net| <= |targets|
            && (forall a :: a in ss[i].delivered ==> a in ss[i].nodes && Absent(ss[i].nodes[a], id))
            && ((forall k :: 0 <= k < i ==> !steps[k].Lose?) && ss[i].net == multiset{} ==> ss[i].delivered == targets + {entry})
  {
    var targets := s0.nodes[entry].peers - {entry};
    hide Started, IsRun, Moves, Absent, Inv, Enabled, Next;
    StartedInv(s0, ss[0], entry, id);
    BroadcastRun(ss, steps, entry, targets, id, i);
    NetSize(ss[0], s0, entry, id);
    InvReached(ss[i], entry, targets, id);
    if (forall k :: 0 <= k < i ==> !steps[k].Lose?) && ss[i].net == multiset{} {
      AllDelivered(ss, steps, entry, targets, id, i);
      assert ss[i].delivered == targets + {entry};
    }
  }

  lemma {:induction false} AllDelivered(ss: seq<State>, steps: seq<Step>, entry: Addr, targets: set<Addr>, id: AdapterId, i: nat)
    requires IsRun(ss, steps, id) && Inv(ss[0], entry, targets, id) && i < |ss| && ss[i].net == multiset{}
    requires forall a :: a in targets ==> Msg(a, true) in ss[0].net
    requires forall k :: 0 <= k < i ==> !steps[k].Lose? && (steps[k].Deliver? ==> steps[k].left == map[])
    ensures targets <= ss[i].delivered
  {
    hide Inv, IsRun;
    forall a | a in targets ensures a in ss[i].delivered {
      PendingRun(ss, steps, entry, targets, id, i, a);
    }
  }

  lemma {:induction false} InvReached(s: State, entry: Addr, targets: set<Addr>, id: AdapterId)
    requires Inv(s, entry, targets, id)
    ensures s.sent == |targets| && s.delivered <= targets + {entry} && entry in s.delivered
    ensures forall a :: a in s.delivered ==> a in s.nodes && Absent(s.nodes[a], id)
  {
  }

  lemma {:induction false} NetSize(s: State, s0: State, entry: Addr, id: AdapterId)
    requires Started(s0, s, entry, id)
    ensures |s.net| == |s0.nodes[entry].peers - {entry}|
  {
    var targets := s0.nodes[entry].peers - {entry};
    assert Targets(s0, Msg(entry, false), map[]) == targets;
    MessagesCount(targets);
    assert s.net == multiset(set a | a in targets :: Msg(a, true));
  }

  lemma {:induction false} MessagesCount(targets: set<Addr>)
    ensures |set a | a in targets :: Msg(a, true)| == |targets|
  {
    if targets != {} {
      var a :| a in targets;
      MessagesCount(targets - {a});
      assert (set b | b in targets :: Msg(b, true)) == (set b | b in targets - {a} :: Msg(b, true)) + {Msg(a, true)};
    }
  }

  lemma {:induction false} BroadcastRun(ss: seq<State>, steps: seq<Step>, entry: Addr, targets: set<Addr>, id: AdapterId, i: nat)
    requires IsRun(ss, steps, id) && Inv(ss[0], entry, targets, id) && i < |ss|
    requires forall k :: 0 <= k < i && steps[k].Deliver? ==> steps[k].left == map[]
    ensures Inv(ss[i], entry, targets, id) && Moves(steps[..i]) + |ss[i].net| <= |ss[0].net|
  {
    hide Inv;
    if i > 0 {
      BroadcastRun(ss, steps, entry, targets, id, i - 1);
      StepInv(ss[i - 1], steps[i - 1], entry, targets, id);
      assert steps[..i][..i - 1] == steps[..i - 1];
    }
  }

  lemma {:induction false} PendingRun(ss: seq<State>, steps: seq<Step>, entry: Addr, targets: set<Addr>, id: AdapterId, i: nat, a: Addr)
    requires IsRun(ss, steps, id) && Inv(ss[0], entry, targets, id) && i < |ss| && Msg(a, true) in ss[0].net
    requires forall k :: 0 <= k < i ==> !steps[k].Lose? && (steps[k].Deliver? ==> steps[k].left == map[])
    ensures Msg(a, true) in ss[i].net || a in ss[i].delivered
  {
    if i > 0 {
      PendingRun(ss, steps, entry, targets, id, i - 1, a);
      BroadcastRun(ss, steps, entry, targets, id, i - 1);
      StepPending(ss[i - 1], steps[i - 1], entry, targets, id, a);
    }
  }
}
