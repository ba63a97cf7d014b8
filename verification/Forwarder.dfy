/**
 One node's view of routing, as code (internal/routing/forwarder.go,
 internal/proxy/proxy.go): the decision, the forwards it tries and whether it ends up
 handling the request itself. Whether a forward gets an answer, and which ring updates
 arrive between the lookups, are parameters; a whole cluster is in Routing.
 */
module ForwarderModel {
  import opened Common
  import opened HashRing
  import Routing

  datatype RouteDecision = RouteDecision(handleLocally: bool, forwardTo: Option<Peer>, overflow: bool)

  class Forwarder {
    const ring: Ring
    const threshold: real

    constructor (ring: Ring, threshold: real)
      ensures this.ring == ring && this.threshold == threshold
    {
      this.ring, this.threshold := ring, threshold;
    }

    /** Forward only to a known, remote owner below the load threshold, and never a forwarded request. */
    method Decide(key: string, isForwarded: bool) returns (d: RouteDecision)
      requires ring.Valid()
      ensures d.handleLocally <==> d.forwardTo.None?
      ensures d.handleLocally <==> Routing.HandleLocally(ring.vnodes, ring.self, ring.hs.key(key), isForwarded, d.overflow)
      ensures d.forwardTo.Some? ==>
                && !isForwarded && !d.overflow
                && d.forwardTo.value.addr != ring.self && d.forwardTo.value.load < threshold
                && d.forwardTo.value.addr in ring.peers && ring.peers[d.forwardTo.value.addr] == d.forwardTo.value
                && Owns(ring.hs, ring.vnodesPerPeer, ring.peers.Keys, ring.hs.key(key), d.forwardTo.value.addr)
                && OwnerOf(ring.vnodes, ring.hs.key(key)) == Some(d.forwardTo.value.addr)
      ensures d.overflow <==>
                !isForwarded && exists a :: a in ring.peers && a != ring.self && ring.peers[a].load >= threshold
                                            && OwnerOf(ring.vnodes, ring.hs.key(key)) == Some(a)
      ensures d.handleLocally && !d.overflow && !isForwarded ==>
                OwnerOf(ring.vnodes, ring.hs.key(key)).None? || OwnerOf(ring.vnodes, ring.hs.key(key)).value == ring.self
    {
      if isForwarded {
        return RouteDecision(true, None, false);
      }
      var owner := ring.Owner(key);
      if owner.None? || ring.IsSelf(owner) {
        return RouteDecision(true, None, false);
      }
      if owner.value.load >= threshold {
        return RouteDecision(true, None, true);
      }
      d := RouteDecision(false, owner, false);
    }

    /** A membership update that arrives, or does not, at this point. */
    method Meanwhile(change: Option<seq<Addr>>)
      requires ring.Valid()
      modifies ring
      ensures ring.Valid() && ring.peers.Keys == if change.Some? then Elements(change.value) else old(ring.peers.Keys)
      ensures change.None? ==> ring.vnodes == old(ring.vnodes) && ring.peers == old(ring.peers)
    {
      if change.Some? {
        ring.Update(change.value);
      }
    }

    /**
     Tries the owner, then the peer that would own the key without it on the ring as it is
     by then; reports whom it tried.
     */
    method ForwardWithFallback(key: string, ownerAnswers: bool, fallbackAnswers: bool, change: Option<seq<Addr>>)
      returns (ok: bool, tried: seq<Addr>)
      requires ring.Valid()
      modifies ring
      ensures ring.Valid() && (change.None? || ownerAnswers || tried == [] ==> ring.vnodes == old(ring.vnodes) && ring.peers == old(ring.peers))
      ensures tried != [] && !ownerAnswers && change.Some? ==> ring.peers.Keys == Elements(change.value)
      ensures |tried| <= 2 && Distinct(tried)
      ensures tried == [] <==> OwnerOf(old(ring.vnodes), ring.hs.key(key)).None?
      ensures |tried| >= 1 ==> OwnerOf(old(ring.vnodes), ring.hs.key(key)) == Some(tried[0])
      ensures |tried| == 2 ==>
                && !ownerAnswers && tried[1] != ring.self
                && Owns(ring.hs, ring.vnodesPerPeer, ring.peers.Keys - {tried[0]}, ring.hs.key(key), tried[1])
      ensures |tried| == 1 && !ownerAnswers ==>
                var other := FallbackOf(ring.vnodes, ring.hs.key(key), tried[0]); other.None? || other.value == ring.self
      ensures ok <==> (|tried| >= 1 && ownerAnswers) || (|tried| == 2 && fallbackAnswers)
    {
      var owner := ring.Owner(key);
      if owner.None? {
        return false, [];
      }
      tried := [owner.value.addr];
      if ownerAnswers {
        return true, tried;
      }
      Meanwhile(change);
      var other := ring.Fallback(key, owner.value.addr);
      if other.None? || ring.IsSelf(other) {
        return false, tried;
      }
      tried := tried + [other.value.addr];
      ok := fallbackAnswers;
    }

    /** The key has a remote owner that is not overloaded. */
    ghost predicate HasRemoteOwner(key: string)
      reads this, ring
    {
      exists a :: a in ring.peers && a != ring.self && ring.peers[a].load < threshold && OwnerOf(ring.vnodes, ring.hs.key(key)) == Some(a)
    }

    /**
     The decision structure of `ServeHTTP`: a client's request whose key has a remote owner
     that is not overloaded is forwarded, to whoever owns the key by then, and every other
     request is not; it is handled here exactly when no forward is answered. The ring may
     change between the decision and the forward (`first`) and between the two forwards
     (`second`); `looked` is the ring of the second owner lookup. This node forwards to
     itself if and only if it owns the key on that ring, which takes a change after the
     decision, and nobody is tried twice.
     */
    method ServeHTTP(key: string, passthrough: bool, isForwarded: bool, ownerAnswers: bool, fallbackAnswers: bool,
                     first: Option<seq<Addr>>, second: Option<seq<Addr>>)
      returns (local: bool, tried: seq<Addr>, ghost looked: seq<VNode>)
      requires ring.Valid()
      modifies ring
      ensures ring.Valid()
      ensures var forwards := !passthrough && !isForwarded && old(HasRemoteOwner(key));
              && (tried != [] <==> forwards && OwnerOf(looked, ring.hs.key(key)).Some?)
              && (!forwards ==> looked == old(ring.vnodes) == ring.vnodes && ring.peers == old(ring.peers))
              && (forwards && first.None? ==> looked == old(ring.vnodes))
              && (forwards ==> Built(looked, ring.hs, ring.vnodesPerPeer, if first.Some? then Elements(first.value) else old(ring.peers.Keys)))
      ensures |tried| <= 2 && Distinct(tried)
      ensures |tried| >= 1 ==> OwnerOf(looked, ring.hs.key(key)) == Some(tried[0])
      ensures |tried| == 2 ==>
                && !ownerAnswers && tried[1] != ring.self
                && Owns(ring.hs, ring.vnodesPerPeer, ring.peers.Keys - {tried[0]}, ring.hs.key(key), tried[1])
      ensures |tried| == 1 && !ownerAnswers ==>
                var other := FallbackOf(ring.vnodes, ring.hs.key(key), tried[0]); other.None? || other.value == ring.self
      ensures tried != [] && !ownerAnswers && second.Some? ==> ring.peers.Keys == Elements(second.value)
      ensures tried != [] && (ownerAnswers || second.None?) ==> ring.vnodes == looked
      ensures ring.self in tried <==> tried != [] && OwnerOf(looked, ring.hs.key(key)) == Some(ring.self)
      ensures first.None? ==> ring.self !in tried
      ensures local <==> !((|tried| >= 1 && ownerAnswers) || (|tried| == 2 && fallbackAnswers))
    {
      tried, looked := [], ring.vnodes;
      if passthrough {
        return true, tried, looked;
      }
      var decision := Decide(key, isForwarded);
      local := decision.handleLocally;
      if !local {
        Meanwhile(first);
        looked := ring.vnodes;
        var ok;
        ok, tried := ForwardWithFallback(key, ownerAnswers, fallbackAnswers, second);
        local := !ok;
      }
    }
  }
}
