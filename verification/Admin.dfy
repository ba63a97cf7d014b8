/** The eviction endpoint of one node (internal/admin/handler.go, evict). */
module Admin {
  import opened Common
  import opened Lru
  import opened Disk
  import opened CacheMachine
  import opened HashRing
  import opened CacheManager

  datatype Response = BadRequest | ServerError | Evicted

  class AdminHandler {
    const mgr: Manager
    const ring: Ring

    constructor (mgr: Manager, ring: Ring)
      ensures this.mgr == mgr && this.ring == ring
    {
      this.mgr, this.ring := mgr, ring;
    }

    /** Evicts locally; only then, and only for a client's request, messages each distinct other peer once. */
    method Evict(id: AdapterId, isForwarded: bool, left: Tree) returns (r: Response, sent: seq<Addr>)
      requires mgr.Valid() && ring.Valid() && (id != "" ==> id in mgr.c.ids)
      modifies mgr, mgr.store, mgr.store.lru
      ensures mgr.Valid() && (r.BadRequest? <==> id == "")
      ensures r.Evicted? ==> id !in mgr.store.disk && id !in Ids(mgr.store.lru.Contents())
      ensures left == map[] && id != "" ==> r.Evicted?
      ensures mgr.store.lru.Contents() == if id == "" then old(mgr.store.lru.Contents()) else Without(old(mgr.store.lru.Contents()), id)
      ensures SameBut(old(mgr.store.disk), mgr.store.disk, if id == "" then {} else {id})
      ensures Distinct(sent)
      ensures Elements(sent) == if r.Evicted? && !isForwarded then ring.peers.Keys - {ring.self} else {}
    {
      sent := [];
      if id == "" {
        return BadRequest, sent;
      }
      var ok := mgr.EvictAdapter(id, left);
      if !ok {
        return ServerError, sent;
      }
      if !isForwarded {
        sent := Broadcast();
      }
      r := Evicted;
    }

    /** One message to each distinct peer but this node. */
    method Broadcast() returns (sent: seq<Addr>)
      requires ring.Valid()
      ensures Distinct(sent) && Elements(sent) == ring.peers.Keys - {ring.self}
    {
      sent := [];
      var peers := ring.Peers();
      for i := 0 to |peers|
        invariant Distinct(sent)
        invariant forall a :: a in sent <==> a != ring.self && exists j :: 0 <= j < i && peers[j].addr == a
      {
        if !ring.IsSelf(Some(peers[i])) {
          assert forall j :: 0 <= j < i ==> peers[j].addr != peers[i].addr by {
            assert forall j :: 0 <= j < i ==> peers[j] in peers && peers[j] != peers[i];
            assert peers[i] in peers;
          }
          assert peers[i].addr !in sent;
          assert forall k :: 0 <= k < |sent| ==> sent[k] in sent;
          sent := sent + [peers[i].addr];
        }
      }
      forall a ensures a in sent <==> a in ring.peers && a != ring.self {
        if a in ring.peers {
          assert ring.peers[a] in peers;
        }
      }
    }
  }
}
