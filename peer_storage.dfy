/**
 `PeersStorage` (src/peer_storage.rs): an uncompiled copy of the participant
 registry under `*_peer` names. Its map, its
 `PeerInfo` variants and its `PeerAddr` items have the same shape as those of
 `ParticipantsStorage`, so it is modelled over the same registry functions.
 */
module PeerStorage {
  import opened Net
  import opened Registry

  /** `PeerAddr`: an item of `receivers`, the same shape as `ParticipantAddress`. */
  type PeerAddr = ParticipantAddress

  class PeersStorage {
    var entries: map<Endpoint, Info>
    const selfPubAddr: SocketAddr

    /** `new`: an empty storage owned by the node listening on `selfPubAddr`. */
    constructor (selfPubAddr: SocketAddr)
      ensures this.selfPubAddr == selfPubAddr
      ensures entries == map[]
      ensures forall e :: GetPubAddr(e) == None
      ensures forall a :: !IsKnownPeer(a)
    {
      this.selfPubAddr := selfPubAddr;
      entries := map[];
    }

    /** `is_known_peer`: true exactly when `addr` is listed in the tail of `get_peers_list`, after the own address. */
    function IsKnownPeer(addr: SocketAddr): (b: bool)
      reads this
      ensures b <==> exists e :: e in entries && Lookup(entries, e) == Some(addr)
      ensures forall order :: IsEnumeration(entries, order) ==> (b <==> addr in PublicAddrs(entries, order))
    {
      KnownIffListedAll(entries, addr);
      IsKnown(entries, addr)
    }

    /** `get_pub_addr`: the endpoint's public address, if it is stored. */
    function GetPubAddr(endpoint: Endpoint): (r: Option<SocketAddr>)
      reads this
      ensures r.Some? <==> endpoint in entries
      ensures r == Some(Addr(endpoint)) <== endpoint in entries && entries[endpoint] == Known
      ensures endpoint in entries && entries[endpoint].Unknown? ==> r == Some(entries[endpoint].publicAddr)
    {
      Lookup(entries, endpoint)
    }

    /** `add_known_peer`: the endpoint now stands for its own address. */
    method AddKnownPeer(endpoint: Endpoint)
      modifies this
      ensures entries == old(entries)[endpoint := Known]
      ensures GetPubAddr(endpoint) == Some(Addr(endpoint))
      ensures IsKnownPeer(Addr(endpoint))
      ensures forall e :: e != endpoint ==> GetPubAddr(e) == old(GetPubAddr(e))
    {
      entries := entries[endpoint := Known];
      InsertEffect(old(entries), endpoint, Known, endpoint);
    }

    /** `drop`: forget the endpoint, whether or not it was stored. */
    method Drop(endpoint: Endpoint)
      modifies this
      ensures entries == old(entries) - {endpoint}
      ensures GetPubAddr(endpoint) == None
      ensures forall e :: e != endpoint ==> GetPubAddr(e) == old(GetPubAddr(e))
      ensures endpoint !in old(entries) ==> entries == old(entries)
    {
      entries := entries - {endpoint};
    }

    /** `add_unknown_peer`: the endpoint now stands for the announced address, replacing any earlier entry. */
    method AddUnknownPeer(endpoint: Endpoint, pubAddr: SocketAddr)
      modifies this
      ensures entries == old(entries)[endpoint := Unknown(pubAddr)]
      ensures GetPubAddr(endpoint) == Some(pubAddr)
      ensures IsKnownPeer(pubAddr)
      ensures forall e :: e != endpoint ==> GetPubAddr(e) == old(GetPubAddr(e))
      ensures |entries| == if endpoint in old(entries) then |old(entries)| else |old(entries)| + 1
    {
      entries := entries[endpoint := Unknown(pubAddr)];
      InsertEffect(old(entries), endpoint, Unknown(pubAddr), endpoint);
    }

    /**
     `get_peers_list`: the node's own address, then one public address
     per entry in the map's iteration order `order`.
     */
    method GetPeersList() returns (list: seq<SocketAddr>, ghost order: seq<Endpoint>)
      ensures IsEnumeration(entries, order)
      ensures |list| == |entries| + 1 && list[0] == selfPubAddr
      ensures list[1..] == PublicAddrs(entries, order)
      ensures forall a :: multiset(list[1..])[a] == |EntriesFor(entries, a)|
    {
      var keys := Enumerate(entries);
      list := [selfPubAddr];
      var k := 0;
      while k < |keys|
        invariant k <= |keys|
        invariant list == [selfPubAddr] + PublicAddrs(entries, keys[..k])
      {
        var e := keys[k];
        assert keys[..k + 1][..k] == keys[..k];
        list := list + [PublicOf(e, entries[e])];
        k := k + 1;
      }
      assert keys[..k] == keys;
      order := keys;
      EnumerationSize(entries, order);
      forall a ensures multiset(list[1..])[a] == |EntriesFor(entries, a)| {
        ListedOncePerEntry(entries, order, a);
      }
    }

    /** `receivers`: one item per entry, in iteration order `order`, carrying its public address. */
    function Receivers(order: seq<Endpoint>): (r: seq<PeerAddr>)
      reads this
      requires IsEnumeration(entries, order)
      ensures |r| == |entries|
      ensures forall k :: 0 <= k < |r| ==> GetPubAddr(r[k].endpoint) == Some(r[k].public)
      ensures forall e :: e in entries <==> exists k :: 0 <= k < |r| && r[k].endpoint == e
    {
      EnumerationSize(entries, order);
      ReceiversOf(entries, order)
    }
  }
}
