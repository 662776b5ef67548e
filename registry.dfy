/**
 The participant registry's contents and what can be read off them, shared
 by `ParticipantsStorage` (src/participant/storage.rs) and its uncompiled
 copy `PeersStorage` (src/peer_storage.rs).

 The registry maps each connection endpoint to what is known of the remote
 node's public (listening) address: either it is the endpoint's own address
 (`Known`, the node was dialed) or it was announced by the remote node
 (`Unknown(p)`, the node dialed in and sent `PublicAddress(p)`). The key is
 the endpoint, so two entries may carry the same public address.

 The source iterates a `HashMap`, whose order is unspecified. An iteration
 order is modelled as an enumeration of the keys, and results built in that
 order are stated against an arbitrary enumeration.
 */
module Registry {
  import opened Net

  datatype Info = Known | Unknown(publicAddr: SocketAddr)

  /** An item of `receivers`: where to send, and the peer's public address. */
  datatype ParticipantAddress = ParticipantAddress(public: SocketAddr, endpoint: Endpoint)

  /** The public address an entry stands for. */
  function PublicOf(e: Endpoint, info: Info): SocketAddr {
    match info
    case Known => Addr(e)
    case Unknown(p) => p
  }

  /** `get_pub_addr`: the public address of a stored endpoint. */
  function Lookup(m: map<Endpoint, Info>, e: Endpoint): (r: Option<SocketAddr>)
    ensures r.Some? <==> e in m
    ensures e in m && m[e].Known? ==> r == Some(Addr(e))
    ensures e in m && m[e].Unknown? ==> r == Some(m[e].publicAddr)
  {
    if e in m then Some(PublicOf(e, m[e])) else None
  }

  /** `is_known_participant`: some entry stands for `a`. */
  predicate IsKnown(m: map<Endpoint, Info>, a: SocketAddr) {
    exists e | e in m :: PublicOf(e, m[e]) == a
  }

  /** An address is known exactly when `get_pub_addr` of some stored endpoint gives it. */
  lemma IsKnownIffLookup(m: map<Endpoint, Info>, a: SocketAddr)
    ensures IsKnown(m, a) <==> exists e :: e in m && Lookup(m, e) == Some(a)
  {
  }

  predicate NoDuplicates<T(==)>(s: seq<T>) {
    forall i, j :: 0 <= i < j < |s| ==> s[i] != s[j]
  }

  /** `order` lists every key of `m` exactly once: one possible iteration order. */
  predicate IsEnumeration(m: map<Endpoint, Info>, order: seq<Endpoint>) {
    && NoDuplicates(order)
    && (forall i :: 0 <= i < |order| ==> order[i] in m)
    && (forall e :: e in m ==> e in order)
  }

  predicate AllStored(m: map<Endpoint, Info>, order: seq<Endpoint>) {
    forall i :: 0 <= i < |order| ==> order[i] in m
  }

  /** The public addresses of the entries, in the order given. */
  function PublicAddrs(m: map<Endpoint, Info>, order: seq<Endpoint>): (r: seq<SocketAddr>)
    requires AllStored(m, order)
    ensures |r| == |order|
    ensures forall k :: 0 <= k < |order| ==> r[k] == PublicOf(order[k], m[order[k]])
  {
    if order == [] then []
    else
      var last := order[|order| - 1];
      PublicAddrs(m, order[..|order| - 1]) + [PublicOf(last, m[last])]
  }

  /** `receivers`, for the entries in the order given. */
  function ReceiversOf(m: map<Endpoint, Info>, order: seq<Endpoint>): (r: seq<ParticipantAddress>)
    requires AllStored(m, order)
    ensures |r| == |order|
    ensures forall k :: 0 <= k < |order| ==>
      r[k].endpoint == order[k] && Lookup(m, order[k]) == Some(r[k].public)
  {
    seq(|order|, k requires 0 <= k < |order| => ParticipantAddress(PublicOf(order[k], m[order[k]]), order[k]))
  }

  /** The entries that stand for the public address `a`. */
  ghost function EntriesFor(m: map<Endpoint, Info>, a: SocketAddr): set<Endpoint> {
    set e | e in m && PublicOf(e, m[e]) == a
  }

  /** One iteration of a `HashMap`'s keys: every key once, in an unspecified order. */
  method Enumerate(m: map<Endpoint, Info>) returns (order: seq<Endpoint>)
    ensures IsEnumeration(m, order)
  {
    order := [];
    var rest := m.Keys;
    while rest != {}
      invariant rest <= m.Keys
      invariant NoDuplicates(order)
      invariant forall i :: 0 <= i < |order| ==> order[i] in m && order[i] !in rest
      invariant forall e :: e in m ==> e in order || e in rest
      decreases rest
    {
      var e :| e in rest;
      order := order + [e];
      rest := rest - {e};
    }
  }

  /** A sequence without duplicates has as many elements as its set. */
  lemma {:induction false} DistinctCount(s: seq<Endpoint>)
    requires NoDuplicates(s)
    ensures |set e | e in s| == |s|
  {
    if s != [] {
      var t := s[1..];
      assert NoDuplicates(t) by {
        forall i, j | 0 <= i < j < |t| ensures t[i] != t[j] {
          assert t[i] == s[i + 1] && t[j] == s[j + 1];
        }
      }
      DistinctCount(t);
      assert (set e | e in s) == {s[0]} + (set e | e in t);
      assert s[0] !in t by {
        forall k | 0 <= k < |t| ensures t[k] != s[0] {
          assert t[k] == s[k + 1];
        }
      }
    }
  }

  /** An enumeration has exactly one position per entry. */
  lemma EnumerationSize(m: map<Endpoint, Info>, order: seq<Endpoint>)
    requires IsEnumeration(m, order)
    ensures |order| == |m|
  {
    DistinctCount(order);
    assert (set e | e in order) == m.Keys;
  }

  /** The endpoints of `order` that stand for `a`. */
  ghost function Matching(m: map<Endpoint, Info>, order: seq<Endpoint>, a: SocketAddr): set<Endpoint>
    requires AllStored(m, order)
  {
    if order == [] then {}
    else
      var last := order[|order| - 1];
      Matching(m, order[..|order| - 1], a) + if PublicOf(last, m[last]) == a then {last} else {}
  }

  lemma {:induction false} MatchingMembers(m: map<Endpoint, Info>, order: seq<Endpoint>, a: SocketAddr, e: Endpoint)
    requires AllStored(m, order)
    ensures e in Matching(m, order, a) <==> e in order && e in m && PublicOf(e, m[e]) == a
  {
    if order != [] {
      var init := order[..|order| - 1];
      MatchingMembers(m, init, a, e);
      assert order == init + [order[|order| - 1]];
    }
  }

  /**
   In any order without repetitions, each public address occurs in the list
   exactly as often as there are listed entries standing for it.
   */
  lemma {:induction false} PublicAddrsCount(m: map<Endpoint, Info>, order: seq<Endpoint>, a: SocketAddr)
    requires AllStored(m, order) && NoDuplicates(order)
    ensures multiset(PublicAddrs(m, order))[a] == |Matching(m, order, a)|
  {
    if order != [] {
      var init := order[..|order| - 1];
      var last := order[|order| - 1];
      var p := PublicOf(last, m[last]);
      assert NoDuplicates(init);
      PublicAddrsCount(m, init, a);
      assert PublicAddrs(m, order) == PublicAddrs(m, init) + [p];
      assert multiset(PublicAddrs(m, order)) == multiset(PublicAddrs(m, init)) + multiset{p};
      if p == a {
        MatchingMembers(m, init, a, last);
        assert last !in init;
      }
    }
  }

  /**
   The multiset form: in any iteration order, the tail of the participants
   list counts each public address once per entry standing for it.
   */
  lemma ListedOncePerEntry(m: map<Endpoint, Info>, order: seq<Endpoint>, a: SocketAddr)
    requires IsEnumeration(m, order)
    ensures multiset(PublicAddrs(m, order))[a] == |EntriesFor(m, a)|
  {
    PublicAddrsCount(m, order, a);
    forall e ensures e in Matching(m, order, a) <==> e in EntriesFor(m, a) {
      MatchingMembers(m, order, a, e);
    }
    assert Matching(m, order, a) == EntriesFor(m, a);
  }

  /** Two iteration orders list the same public addresses, up to order. */
  lemma OrderIndependent(m: map<Endpoint, Info>, o1: seq<Endpoint>, o2: seq<Endpoint>)
    requires IsEnumeration(m, o1) && IsEnumeration(m, o2)
    ensures multiset(PublicAddrs(m, o1)) == multiset(PublicAddrs(m, o2))
  {
    forall a ensures multiset(PublicAddrs(m, o1))[a] == multiset(PublicAddrs(m, o2))[a] {
      ListedOncePerEntry(m, o1, a);
      ListedOncePerEntry(m, o2, a);
    }
  }

  /** `is_known_participant(a)` holds exactly when `a` is in the participants list's tail. */
  lemma KnownIffListed(m: map<Endpoint, Info>, order: seq<Endpoint>, a: SocketAddr)
    requires IsEnumeration(m, order)
    ensures IsKnown(m, a) <==> a in PublicAddrs(m, order)
  {
    if IsKnown(m, a) {
      var e :| e in m && PublicOf(e, m[e]) == a;
      var k :| 0 <= k < |order| && order[k] == e;
      assert PublicAddrs(m, order)[k] == a;
    }
    if a in PublicAddrs(m, order) {
      var k :| 0 <= k < |order| && PublicAddrs(m, order)[k] == a;
      assert PublicOf(order[k], m[order[k]]) == a;
    }
  }

  lemma KnownIffListedAll(m: map<Endpoint, Info>, a: SocketAddr)
    ensures forall order :: IsEnumeration(m, order) ==> (IsKnown(m, a) <==> a in PublicAddrs(m, order))
  {
    forall order | IsEnumeration(m, order) ensures IsKnown(m, a) <==> a in PublicAddrs(m, order) {
      KnownIffListed(m, order, a);
    }
  }

  /** A sequence without duplicates holds each element once. */
  lemma {:induction false} DistinctMultiplicity(s: seq<Endpoint>, e: Endpoint)
    requires NoDuplicates(s)
    ensures multiset(s)[e] == if e in s then 1 else 0
  {
    if s != [] {
      var init := s[..|s| - 1];
      assert s == init + [s[|s| - 1]];
      assert NoDuplicates(init);
      DistinctMultiplicity(init, e);
      assert s[|s| - 1] !in init;
    }
  }

  /** `receivers` names each stored endpoint exactly once and nothing else. */
  lemma ReceiversOncePerEntry(m: map<Endpoint, Info>, order: seq<Endpoint>, e: Endpoint)
    requires IsEnumeration(m, order)
    ensures multiset(order)[e] == if e in m then 1 else 0
    ensures |ReceiversOf(m, order)| == |m|
  {
    DistinctMultiplicity(order, e);
    EnumerationSize(m, order);
  }

  /** Inserting an entry overwrites that endpoint's entry and no other. */
  lemma InsertEffect(m: map<Endpoint, Info>, e: Endpoint, info: Info, other: Endpoint)
    ensures Lookup(m[e := info], e) == Some(PublicOf(e, info))
    ensures IsKnown(m[e := info], PublicOf(e, info))
    ensures other != e ==> Lookup(m[e := info], other) == Lookup(m, other)
  {
    assert e in m[e := info];
  }

  /** Removing an endpoint forgets it and keeps every other entry. */
  lemma RemoveEffect(m: map<Endpoint, Info>, e: Endpoint, other: Endpoint)
    ensures Lookup(m - {e}, e) == None
    ensures other != e ==> Lookup(m - {e}, other) == Lookup(m, other)
    ensures e !in m ==> m - {e} == m
  {
  }
}
