/**
 src/participant/model.rs: the gossip node's protocol handler.

 A `Participant` owns a `ParticipantsStorage`. It reacts to one network
 event at a time, and once per period it sends a random text to everyone it
 knows. The network is an outbox of `(endpoint, message)` sends and a dial
 oracle. The console is a list of lines: `Event` lines go through
 `print_event` with their time stamp, `Plain` lines through `println!`.
 */
module Protocol {
  import opened Net
  import opened Registry
  import Storage
  import AddrFormat
  import Decimal
  import Printer
  import opened Text

  /** `Message` (src/participant/message.rs), as decoded from the wire. */
  datatype Message =
    | PublicAddress(addr: SocketAddr)
    | PushParticipantsList
    | PullParticipantsList(addrs: seq<SocketAddr>)
    | Text(text: string)

  /** The message-io events the node listener hands to the handler. */
  datatype NetEvent =
    | Accepted(endpoint: Endpoint)
    | Connected(endpoint: Endpoint, established: bool)
    | Received(sender: Endpoint, message: Message)
    | Disconnected(endpoint: Endpoint)

  /** How handling an event ends: the loop goes on, the process exits, or the handler panics. */
  datatype Flow = Continue | Exit(code: int) | Panic

  datatype ConsoleLine = Event(text: string) | Plain(text: string)

  /** One `send_message(handler, to, &message)`. */
  datatype Send = Send(to: Endpoint, message: Message)

  /** One `connect` call made while pulling a list, and what it returned. */
  datatype Attempt = Attempt(target: SocketAddr, outcome: Option<Endpoint>)

  datatype PullResult = PullResult(entries: map<Endpoint, Info>, attempts: seq<Attempt>)

  // ---------------------------------------------------------------------------
  // Console texts

  function FailedToConnect(target: string): string {
    "Failed to connect to " + target
  }

  /** The failure line is `Failed to connect to ` followed by the target. */
  lemma FailedToConnectNames(target: string)
    ensures var r := FailedToConnect(target);
      |r| == 21 + |target| && r[..21] == "Failed to connect to " && r[21..] == target
  {
  }

  function ReceivedText(text: string, from: SocketAddr): string {
    "Received message [" + text + "] from \"" + AddrToString(from) + "\""
  }

  /** The line carries the text in brackets and then the sender's public address in quotes. */
  lemma ReceivedTextNames(text: string, from: SocketAddr)
    ensures var r := ReceivedText(text, from);
      && |r| == 27 + |text| + |AddrToString(from)|
      && r[..18] == "Received message [" && r[18..18 + |text|] == text
      && r[|r| - 1 - |AddrToString(from)|..|r| - 1] == AddrToString(from)
  {
    var r := ReceivedText(text, from);
    var head := "Received message [" + text + "] from \"";
    assert r == head + AddrToString(from) + "\"";
    assert r[..18] == head[..18];
  }

  /** The text of a tick's random message: `random message N`. */
  function RandomText(n: nat): string {
    "random message " + Decimal.Digits(n)
  }

  /** The number can be read back from the text. */
  lemma RandomTextReadsBack(n: nat)
    ensures var r := RandomText(n);
      && |r| > 15 && r[..15] == "random message "
      && Decimal.AllDigits(r[15..]) && Decimal.Value(r[15..]) == n
  {
    var r := RandomText(n);
    Decimal.ValueOfDigits(n);
    assert r[15..] == Decimal.Digits(n);
  }

  /** The addresses of a list, as `format_list_of_addrs` takes them. */
  function AsSources(addrs: seq<SocketAddr>): (r: seq<AddrFormat.AddrSource>)
    ensures |r| == |addrs|
    ensures forall k :: 0 <= k < |r| ==> r[k] == AddrFormat.OfSocketAddr(addrs[k])
  {
    seq(|addrs|, k requires 0 <= k < |addrs| => AddrFormat.OfSocketAddr(addrs[k]))
  }

  /** The addresses of a list other than `self`, in list order. */
  function Others(addrs: seq<SocketAddr>, self: SocketAddr): (r: seq<SocketAddr>)
    ensures forall a :: a in r <==> a in addrs && a != self
    ensures forall a :: multiset(r)[a] == if a == self then 0 else multiset(addrs)[a]
    ensures |r| <= |addrs|
  {
    if addrs == [] then []
    else
      assert addrs == [addrs[0]] + addrs[1..];
      (if addrs[0] == self then [] else [addrs[0]]) + Others(addrs[1..], self)
  }

  /** Filtering a joined list filters each part and keeps them in order. */
  lemma {:induction false} OthersAppend(xs: seq<SocketAddr>, ys: seq<SocketAddr>, self: SocketAddr)
    ensures Others(xs + ys, self) == Others(xs, self) + Others(ys, self)
    decreases |xs|
  {
    if xs != [] {
      assert (xs + ys)[0] == xs[0] && (xs + ys)[1..] == xs[1..] + ys;
      OthersAppend(xs[1..], ys, self);
    } else {
      assert xs + ys == ys;
    }
  }

  function PublicsOf(receivers: seq<ParticipantAddress>): (r: seq<SocketAddr>)
    ensures |r| == |receivers|
    ensures forall k :: 0 <= k < |r| ==> r[k] == receivers[k].public
  {
    seq(|receivers|, k requires 0 <= k < |receivers| => receivers[k].public)
  }

  function ConnectedToNew(addrs: seq<SocketAddr>, self: SocketAddr): string {
    "Connected to new participants: " + AddrFormat.FormatListOfAddrs(AsSources(Others(addrs, self)))
  }

  /** With no address other than the node's own, the line says `[no one]`, and only then. */
  lemma ConnectedToNoOne(addrs: seq<SocketAddr>, self: SocketAddr)
    ensures var r := ConnectedToNew(addrs, self);
      |r| > 31 && r[..31] == "Connected to new participants: "
      && (Others(addrs, self) == [] <==> r[31..] == "[no one]")
  {
    var r := ConnectedToNew(addrs, self);
    assert r[31..] == AddrFormat.FormatListOfAddrs(AsSources(Others(addrs, self)));
  }

  /** The event line names, quoted, every listed address other than the node's own. */
  lemma ConnectedToNewNames(addrs: seq<SocketAddr>, self: SocketAddr, a: SocketAddr)
    requires a in addrs && a != self
    ensures Contains(ConnectedToNew(addrs, self), AddrFormat.Quote(a))
  {
    var others := Others(addrs, self);
    var k :| 0 <= k < |others| && others[k] == a;
    var list := AddrFormat.FormatListOfAddrs(AsSources(others));
    AddrFormat.FormatMentions(AsSources(others), k);
    var i: nat :| OccursAt(list, AddrFormat.Quote(a), i);
    Prepend("Connected to new participants: ", list, AddrFormat.Quote(a), i);
  }

  function SendingMessage(n: nat, receivers: seq<ParticipantAddress>): string {
    "Sending message [" + RandomText(n) + "] to " + AddrFormat.FormatListOfAddrs(AsSources(PublicsOf(receivers)))
  }

  /** The line carries the random message's text in brackets. */
  lemma SendingMessageText(n: nat, receivers: seq<ParticipantAddress>)
    ensures var r := SendingMessage(n, receivers);
      r[..17] == "Sending message [" && OccursAt(r, RandomText(n), 17)
  {
    var r := SendingMessage(n, receivers);
    var list := AddrFormat.FormatListOfAddrs(AsSources(PublicsOf(receivers)));
    assert r == "Sending message [" + RandomText(n) + ("] to " + list);
    assert r[17..17 + |RandomText(n)|] == RandomText(n);
  }

  /** The event line names, quoted, the public address of every receiver. */
  lemma SendingMessageNames(n: nat, receivers: seq<ParticipantAddress>, k: nat)
    requires k < |receivers|
    ensures Contains(SendingMessage(n, receivers), AddrFormat.Quote(receivers[k].public))
  {
    var head := "Sending message [" + RandomText(n) + "] to ";
    var publics := AsSources(PublicsOf(receivers));
    var list := AddrFormat.FormatListOfAddrs(publics);
    AddrFormat.FormatMentions(publics, k);
    var q := AddrFormat.Quote(receivers[k].public);
    var i: nat :| OccursAt(list, q, i);
    Prepend(head, list, q, i);
  }

  // ---------------------------------------------------------------------------
  // `pull_participants_list`, as a function of the registry contents

  /** The loop's test: not this node, not the sender, and not known yet. */
  predicate Eligible(m: map<Endpoint, Info>, self: SocketAddr, senderAddr: SocketAddr, a: SocketAddr) {
    a != self && a != senderAddr && !IsKnown(m, a)
  }

  /** The test admits exactly the addresses other than the two that no stored endpoint stands for. */
  lemma EligibleIff(m: map<Endpoint, Info>, self: SocketAddr, senderAddr: SocketAddr, a: SocketAddr)
    ensures Eligible(m, self, senderAddr, a) <==>
      a != self && a != senderAddr && forall e :: e in m ==> Lookup(m, e) != Some(a)
  {
  }

  /**
   The registry after pulling `addrs`, and the dials made on the way. Each
   address is tested against the registry as the earlier addresses left
   it; a successful dial adds the new endpoint as `Known`, a failed one
   changes nothing.
   */
  function PullFrom(m: map<Endpoint, Info>, self: SocketAddr, senderAddr: SocketAddr,
                    addrs: seq<SocketAddr>, dial: SocketAddr -> Option<Endpoint>): (r: PullResult)
    ensures |r.attempts| <= |addrs|
    decreases |addrs|
  {
    if addrs == [] then PullResult(m, [])
    else
      var a := addrs[0];
      if !Eligible(m, self, senderAddr, a) then PullFrom(m, self, senderAddr, addrs[1..], dial)
      else
        var outcome := dial(a);
        var m' := if outcome.Some? then m[outcome.value := Known] else m;
        var rest := PullFrom(m', self, senderAddr, addrs[1..], dial);
        PullResult(rest.entries, [Attempt(a, outcome)] + rest.attempts)
  }

  /** The console lines of the failed dials, in order. */
  function FailureLines(attempts: seq<Attempt>): (lines: seq<ConsoleLine>)
    ensures |lines| <= |attempts|
    ensures forall k :: 0 <= k < |lines| ==> lines[k].Plain?
  {
    if attempts == [] then []
    else
      var last := attempts[|attempts| - 1];
      FailureLines(attempts[..|attempts| - 1])
      + (if last.outcome.None? then [Plain(FailedToConnect(AddrToString(last.target)))] else [])
  }

  predicate AnySuccess(attempts: seq<Attempt>) {
    exists k :: 0 <= k < |attempts| && attempts[k].outcome.Some?
  }

  /** `connect` on an address yields, when it succeeds, a connection to that address. */
  ghost predicate Honest(dial: SocketAddr -> Option<Endpoint>) {
    forall a :: dial(a).Some? ==> Addr(dial(a).value) == a
  }

  /**
   A connection `connect` yields is a new one: an endpoint already in the
   registry is only ever returned for an address the registry knows.
   */
  ghost predicate Fresh(dial: SocketAddr -> Option<Endpoint>, m: map<Endpoint, Info>) {
    forall a :: dial(a).Some? && dial(a).value in m ==> IsKnown(m, a)
  }

  /** Every dial is of a listed address that the loop's test admits against `m`, and has the oracle's outcome. */
  ghost predicate DialsEligible(m: map<Endpoint, Info>, self: SocketAddr, senderAddr: SocketAddr,
                                addrs: seq<SocketAddr>, attempts: seq<Attempt>, dial: SocketAddr -> Option<Endpoint>) {
    forall k :: 0 <= k < |attempts| ==>
      && attempts[k].target in addrs
      && Eligible(m, self, senderAddr, attempts[k].target)
      && attempts[k].outcome == dial(attempts[k].target)
  }

  /** No address is dialed again after a dial of it succeeded. */
  predicate NoRedialAfterSuccess(attempts: seq<Attempt>) {
    forall i, j :: 0 <= i < j < |attempts| && attempts[i].target == attempts[j].target ==>
      attempts[i].outcome.None?
  }

  /**
   `r` only adds to `m`: every entry of `m` keeps its information, and every
   new entry is a `Known` endpoint that one of the dials returned.
   */
  ghost predicate OnlyAdds(m: map<Endpoint, Info>, r: PullResult) {
    && (forall e :: e in m ==> e in r.entries && r.entries[e] == m[e])
    && (forall e :: e in r.entries && e !in m ==>
          r.entries[e] == Known && Obtained(r.attempts, e))
  }

  /** Some attempt of the log returned the endpoint `e`. */
  ghost predicate Obtained(attempts: seq<Attempt>, e: Endpoint) {
    exists k :: 0 <= k < |attempts| && attempts[k].outcome == Some(e)
  }

  /** An endpoint returned by either part of a log is returned by the whole. */
  lemma ObtainedAppend(pre: seq<Attempt>, rest: seq<Attempt>, e: Endpoint)
    ensures Obtained(pre, e) || Obtained(rest, e) ==> Obtained(pre + rest, e)
  {
    if Obtained(rest, e) {
      var k :| 0 <= k < |rest| && rest[k].outcome == Some(e);
      assert (pre + rest)[|pre| + k] == rest[k];
    } else if Obtained(pre, e) {
      var k :| 0 <= k < |pre| && pre[k].outcome == Some(e);
      assert (pre + rest)[k] == pre[k];
    }
  }

  ghost predicate KeepsKnown(m: map<Endpoint, Info>, m': map<Endpoint, Info>) {
    forall a :: IsKnown(m, a) ==> IsKnown(m', a)
  }

  /** Every listed address other than `self` and the sender's is known in `m`, or dialing it fails. */
  ghost predicate Reached(m: map<Endpoint, Info>, self: SocketAddr, senderAddr: SocketAddr,
                          addrs: seq<SocketAddr>, dial: SocketAddr -> Option<Endpoint>) {
    forall a :: a in addrs && a != self && a != senderAddr ==> IsKnown(m, a) || dial(a).None?
  }

  lemma KnownAfterInsert(m: map<Endpoint, Info>, e: Endpoint)
    requires e !in m
    ensures KeepsKnown(m, m[e := Known])
  {
    forall a | IsKnown(m, a) ensures IsKnown(m[e := Known], a) {
      var w :| w in m && PublicOf(w, m[w]) == a;
      assert w in m[e := Known] && PublicOf(w, m[e := Known][w]) == a;
    }
  }

  /** A successful dial of an unknown address makes it known and keeps the oracle's connections fresh. */
  lemma AfterSuccess(dial: SocketAddr -> Option<Endpoint>, m: map<Endpoint, Info>, a: SocketAddr)
    requires Honest(dial) && Fresh(dial, m)
    requires dial(a).Some? && !IsKnown(m, a)
    ensures dial(a).value !in m
    ensures var m' := m[dial(a).value := Known];
      IsKnown(m', a) && Fresh(dial, m') && KeepsKnown(m, m')
  {
    var e := dial(a).value;
    var m' := m[e := Known];
    KnownAfterInsert(m, e);
    assert e in m' && PublicOf(e, m'[e]) == a;
    forall b | dial(b).Some? && dial(b).value in m' ensures IsKnown(m', b) {
      if dial(b).value == e {
        assert b == a;
      }
    }
  }

  /**
   The pull only adds: every entry already there keeps its information, and
   every new entry is a `Known` endpoint that a dial returned. So nothing
   known before the pull is forgotten.
   */
  lemma {:induction false} PullOnlyAdds(m: map<Endpoint, Info>, self: SocketAddr, senderAddr: SocketAddr,
                                        addrs: seq<SocketAddr>, dial: SocketAddr -> Option<Endpoint>)
    requires Honest(dial) && Fresh(dial, m)
    ensures OnlyAdds(m, PullFrom(m, self, senderAddr, addrs, dial))
    ensures KeepsKnown(m, PullFrom(m, self, senderAddr, addrs, dial).entries)
    decreases |addrs|
  {
    var r := PullFrom(m, self, senderAddr, addrs, dial);
    if addrs != [] {
      var a := addrs[0];
      if !Eligible(m, self, senderAddr, a) || dial(a).None? {
        PullOnlyAdds(m, self, senderAddr, addrs[1..], dial);
        var rest := PullFrom(m, self, senderAddr, addrs[1..], dial);
        var pre := if Eligible(m, self, senderAddr, a) then [Attempt(a, dial(a))] else [];
        assert r.attempts == pre + rest.attempts;
        forall e | e in r.entries && e !in m
          ensures Obtained(r.attempts, e)
        {
          ObtainedAppend(pre, rest.attempts, e);
        }
      } else {
        AfterSuccess(dial, m, a);
        var e := dial(a).value;
        var m' := m[e := Known];
        PullOnlyAdds(m', self, senderAddr, addrs[1..], dial);
        var rest := PullFrom(m', self, senderAddr, addrs[1..], dial);
        var pre := [Attempt(a, dial(a))];
        assert r.attempts == pre + rest.attempts;
        assert Obtained(pre, e) by { assert pre[0].outcome == Some(e); }
        forall x | x in r.entries && x !in m
          ensures Obtained(r.attempts, x)
        {
          ObtainedAppend(pre, rest.attempts, x);
        }
      }
    }
  }

  /**
   Every dial is of an address of the list that is neither this node's nor
   the sender's and that the registry did not know when the pull began; its
   outcome is what the oracle returns for that address.
   */
  lemma {:induction false} PullDialsOnlyEligible(m: map<Endpoint, Info>, self: SocketAddr, senderAddr: SocketAddr,
                                                 addrs: seq<SocketAddr>, dial: SocketAddr -> Option<Endpoint>)
    requires Honest(dial) && Fresh(dial, m)
    ensures DialsEligible(m, self, senderAddr, addrs, PullFrom(m, self, senderAddr, addrs, dial).attempts, dial)
    decreases |addrs|
  {
    var r := PullFrom(m, self, senderAddr, addrs, dial);
    if addrs != [] {
      var a := addrs[0];
      var success := Eligible(m, self, senderAddr, a) && dial(a).Some?;
      var m' := if success then m[dial(a).value := Known] else m;
      if success {
        AfterSuccess(dial, m, a);
      }
      assert forall b :: IsKnown(m, b) ==> IsKnown(m', b);
      PullDialsOnlyEligible(m', self, senderAddr, addrs[1..], dial);
      var rest := PullFrom(m', self, senderAddr, addrs[1..], dial);
      assert forall b :: b in addrs[1..] ==> b in addrs;
      forall k | 0 <= k < |rest.attempts|
        ensures rest.attempts[k].target in addrs && Eligible(m, self, senderAddr, rest.attempts[k].target)
      {
        var t := rest.attempts[k].target;
        assert t in addrs[1..] && Eligible(m', self, senderAddr, t);
      }
      if Eligible(m, self, senderAddr, a) {
        assert r.attempts == [Attempt(a, dial(a))] + rest.attempts;
        assert forall k :: 0 < k < |r.attempts| ==> r.attempts[k] == rest.attempts[k - 1];
      } else {
        assert r.attempts == rest.attempts;
      }
    }
  }

  /** An address whose dial succeeded is never dialed again in the same pull. */
  lemma {:induction false} PullNoRedialAfterSuccess(m: map<Endpoint, Info>, self: SocketAddr, senderAddr: SocketAddr,
                                                    addrs: seq<SocketAddr>, dial: SocketAddr -> Option<Endpoint>)
    requires Honest(dial) && Fresh(dial, m)
    ensures NoRedialAfterSuccess(PullFrom(m, self, senderAddr, addrs, dial).attempts)
    decreases |addrs|
  {
    if addrs != [] {
      var a := addrs[0];
      if !Eligible(m, self, senderAddr, a) {
        PullNoRedialAfterSuccess(m, self, senderAddr, addrs[1..], dial);
      } else if dial(a).None? {
        PullNoRedialAfterSuccess(m, self, senderAddr, addrs[1..], dial);
        var rest := PullFrom(m, self, senderAddr, addrs[1..], dial);
        var r := PullFrom(m, self, senderAddr, addrs, dial);
        assert forall k :: 0 < k < |r.attempts| ==> r.attempts[k] == rest.attempts[k - 1];
      } else {
        AfterSuccess(dial, m, a);
        var m' := m[dial(a).value := Known];
        PullNoRedialAfterSuccess(m', self, senderAddr, addrs[1..], dial);
        PullDialsOnlyEligible(m', self, senderAddr, addrs[1..], dial);
        var rest := PullFrom(m', self, senderAddr, addrs[1..], dial);
        var r := PullFrom(m, self, senderAddr, addrs, dial);
        assert forall k :: 0 < k < |r.attempts| ==> r.attempts[k] == rest.attempts[k - 1];
      }
    }
  }

  /**
   Only a successful dial rules an address out: an unknown address listed
   twice whose dial fails is dialed, and reported, twice.
   */
  lemma FailedAddressRedialed(m: map<Endpoint, Info>, self: SocketAddr, senderAddr: SocketAddr,
                              a: SocketAddr, dial: SocketAddr -> Option<Endpoint>)
    requires Eligible(m, self, senderAddr, a) && dial(a).None?
    ensures PullFrom(m, self, senderAddr, [a, a], dial) == PullResult(m, [Attempt(a, None), Attempt(a, None)])
    ensures FailureLines([Attempt(a, None), Attempt(a, None)])
      == [Plain(FailedToConnect(AddrToString(a))), Plain(FailedToConnect(AddrToString(a)))]
  {
    assert [a, a][1..] == [a] && [a][1..] == [];
    PullStepDial(m, self, senderAddr, [a, a], dial);
    PullStepDial(m, self, senderAddr, [a], dial);
    FailureLinesSnoc([Attempt(a, None)], Attempt(a, None));
    FailureLinesSnoc([], Attempt(a, None));
    assert [Attempt(a, None)] == [] + [Attempt(a, None)];
    assert [Attempt(a, None), Attempt(a, None)] == [Attempt(a, None)] + [Attempt(a, None)];
  }

  /**
   After the pull, every address of the list other than this node's and the
   sender's is known, unless dialing it failed.
   */
  lemma {:induction false} PullReachesEveryAddress(m: map<Endpoint, Info>, self: SocketAddr, senderAddr: SocketAddr,
                                                   addrs: seq<SocketAddr>, dial: SocketAddr -> Option<Endpoint>)
    requires Honest(dial) && Fresh(dial, m)
    ensures Reached(PullFrom(m, self, senderAddr, addrs, dial).entries, self, senderAddr, addrs, dial)
    decreases |addrs|
  {
    if addrs != [] {
      var a := addrs[0];
      var r := PullFrom(m, self, senderAddr, addrs, dial);
      var m' := if Eligible(m, self, senderAddr, a) && dial(a).Some? then m[dial(a).value := Known] else m;
      if Eligible(m, self, senderAddr, a) && dial(a).Some? {
        AfterSuccess(dial, m, a);
      }
      assert r.entries == PullFrom(m', self, senderAddr, addrs[1..], dial).entries;
      PullReachesEveryAddress(m', self, senderAddr, addrs[1..], dial);
      PullOnlyAdds(m', self, senderAddr, addrs[1..], dial);
      if a != self && a != senderAddr && IsKnown(m, a) {
        assert IsKnown(m', a);
      }
      assert addrs == [a] + addrs[1..];
    }
  }

  /** The first address of the list is dialed: the rest is pulled from the registry the dial left. */
  lemma PullStepDial(m: map<Endpoint, Info>, self: SocketAddr, senderAddr: SocketAddr,
                     addrs: seq<SocketAddr>, dial: SocketAddr -> Option<Endpoint>)
    requires addrs != [] && Eligible(m, self, senderAddr, addrs[0])
    ensures var m' := if dial(addrs[0]).Some? then m[dial(addrs[0]).value := Known] else m;
      var rest := PullFrom(m', self, senderAddr, addrs[1..], dial);
      PullFrom(m, self, senderAddr, addrs, dial) == PullResult(rest.entries, [Attempt(addrs[0], dial(addrs[0]))] + rest.attempts)
  {
  }

  /**
   The loop's invariant carried across one dial: with `a` dialed and the
   registry updated by its outcome, the pull of `rest` completes the same
   final result, and the attempt log has grown by that dial.
   */
  lemma DialAdvance(m: map<Endpoint, Info>, self: SocketAddr, senderAddr: SocketAddr, a: SocketAddr,
                    rest: seq<SocketAddr>, dial: SocketAddr -> Option<Endpoint>, attempts: seq<Attempt>, final: PullResult)
    requires Eligible(m, self, senderAddr, a)
    requires PullFrom(m, self, senderAddr, [a] + rest, dial).entries == final.entries
    requires attempts + PullFrom(m, self, senderAddr, [a] + rest, dial).attempts == final.attempts
    ensures var m' := if dial(a).Some? then m[dial(a).value := Known] else m;
      && PullFrom(m', self, senderAddr, rest, dial).entries == final.entries
      && (attempts + [Attempt(a, dial(a))]) + PullFrom(m', self, senderAddr, rest, dial).attempts == final.attempts
  {
    PullStepDial(m, self, senderAddr, [a] + rest, dial);
    assert ([a] + rest)[1..] == rest;
    var m' := if dial(a).Some? then m[dial(a).value := Known] else m;
    AppendAssoc(attempts, [Attempt(a, dial(a))], PullFrom(m', self, senderAddr, rest, dial).attempts);
  }

  /** The first address of the list is passed over: the registry is unchanged for the rest. */
  lemma PullStepSkip(m: map<Endpoint, Info>, self: SocketAddr, senderAddr: SocketAddr,
                     addrs: seq<SocketAddr>, dial: SocketAddr -> Option<Endpoint>)
    requires addrs != [] && !Eligible(m, self, senderAddr, addrs[0])
    ensures PullFrom(m, self, senderAddr, addrs, dial) == PullFrom(m, self, senderAddr, addrs[1..], dial)
  {
  }

  lemma AppendAssoc<T>(a: seq<T>, b: seq<T>, c: seq<T>)
    ensures a + (b + c) == (a + b) + c
  {
  }

  lemma FailureLinesSnoc(attempts: seq<Attempt>, x: Attempt)
    ensures FailureLines(attempts + [x]) == FailureLines(attempts)
      + (if x.outcome.None? then [Plain(FailedToConnect(AddrToString(x.target)))] else [])
  {
    assert (attempts + [x])[..|attempts|] == attempts;
  }

  lemma AnySuccessSnoc(attempts: seq<Attempt>, x: Attempt)
    ensures AnySuccess(attempts + [x]) <==> AnySuccess(attempts) || x.outcome.Some?
  {
    var s := attempts + [x];
    if AnySuccess(s) && x.outcome.None? {
      var j :| 0 <= j < |s| && s[j].outcome.Some?;
      assert j < |attempts| && attempts[j] == s[j];
    }
    if AnySuccess(attempts) {
      var j :| 0 <= j < |attempts| && attempts[j].outcome.Some?;
      assert s[j] == attempts[j];
    }
    if x.outcome.Some? {
      assert s[|attempts|] == x;
    }
  }

  // ---------------------------------------------------------------------------
  // The tick's broadcast

  /** One send of `message` to each receiver, in the receivers' order. */
  function Broadcast(receivers: seq<ParticipantAddress>, message: Message): (sends: seq<Send>)
    ensures |sends| == |receivers|
    ensures forall k :: 0 <= k < |sends| ==> sends[k] == Send(receivers[k].endpoint, message)
  {
    seq(|receivers|, k requires 0 <= k < |receivers| => Send(receivers[k].endpoint, message))
  }

  lemma BroadcastSnoc(receivers: seq<ParticipantAddress>, k: nat, message: Message)
    requires k < |receivers|
    ensures Broadcast(receivers[..k + 1], message) == Broadcast(receivers[..k], message) + [Send(receivers[k].endpoint, message)]
  {
    var b := Broadcast(receivers[..k + 1], message);
    assert b[k] == Send(receivers[k].endpoint, message);
    assert b[..k] == Broadcast(receivers[..k], message);
    assert b == b[..k] + [b[k]];
  }

  function Destinations(sends: seq<Send>): (r: seq<Endpoint>)
    ensures |r| == |sends|
    ensures forall k :: 0 <= k < |sends| ==> r[k] == sends[k].to
  {
    seq(|sends|, k requires 0 <= k < |sends| => sends[k].to)
  }

  /** `sends` carry `message`, to every endpoint of `m` exactly once and to no other endpoint. */
  ghost predicate ReachesEachOnce(sends: seq<Send>, m: map<Endpoint, Info>, message: Message) {
    && (forall e :: multiset(Destinations(sends))[e] == if e in m then 1 else 0)
    && (forall k :: 0 <= k < |sends| ==> sends[k].message == message)
  }

  /**
   Broadcasting to `receivers` reaches every stored endpoint exactly once
   and no other endpoint, whatever the iteration order.
   */
  lemma BroadcastReachesEachOnce(m: map<Endpoint, Info>, order: seq<Endpoint>, message: Message)
    requires IsEnumeration(m, order)
    ensures ReachesEachOnce(Broadcast(ReceiversOf(m, order), message), m, message)
  {
    var sends := Broadcast(ReceiversOf(m, order), message);
    assert Destinations(sends) == order;
    forall e ensures multiset(order)[e] == if e in m then 1 else 0 {
      ReceiversOncePerEntry(m, order, e);
    }
  }

  /** What a tick appends to the outbox is the broadcast to the receivers, which reaches each entry once. */
  lemma DeliveredOnce(before: seq<Send>, after: seq<Send>, m: map<Endpoint, Info>, order: seq<Endpoint>, message: Message)
    requires IsEnumeration(m, order)
    requires after == before + Broadcast(ReceiversOf(m, order), message)
    ensures |before| <= |after|
    ensures ReachesEachOnce(after[|before|..], m, message)
  {
    assert after[|before|..] == Broadcast(ReceiversOf(m, order), message);
    BroadcastReachesEachOnce(m, order, message);
  }

  // ---------------------------------------------------------------------------
  // The participant

  /**
   The invariant of the loop of `pull_participants_list` with `rest` still to
   go: pulling `rest` from the registry `m` completes the pull's final
   result, the attempts so far followed by those of `rest` are all of its
   attempts, the flag says whether one of them succeeded, and the console has
   one failure line per failed attempt.
   */
  ghost predicate Pulling(m: map<Endpoint, Info>, self: SocketAddr, senderAddr: SocketAddr, rest: seq<SocketAddr>,
                          dial: SocketAddr -> Option<Endpoint>, attempts: seq<Attempt>, newConnections: bool,
                          console: seq<ConsoleLine>, printed: seq<ConsoleLine>, final: PullResult) {
    && PullFrom(m, self, senderAddr, rest, dial).entries == final.entries
    && attempts + PullFrom(m, self, senderAddr, rest, dial).attempts == final.attempts
    && (newConnections <==> AnySuccess(attempts))
    && console == printed + FailureLines(attempts)
  }

  class Participant {
    const publicAddr: SocketAddr
    const period: nat
    const connect: Option<string>
    const participants: Storage.ParticipantsStorage
    /** Every message handed to `send_message`, oldest first. */
    var outbox: seq<Send>
    /** Every line printed, oldest first. */
    var console: seq<ConsoleLine>

    /** The storage belongs to this node: its own address is the node's public address. */
    predicate Valid()
    {
      participants.selfPubAddr == publicAddr
    }

    /**
     `Participant::new`, once `listen` has bound `publicAddr`: an empty
     storage, and the address announced on the console.
     */
    constructor (publicAddr: SocketAddr, period: nat, connect: Option<string>)
      ensures Valid() && fresh(participants)
      ensures this.publicAddr == publicAddr && this.period == period && this.connect == connect
      ensures participants.entries == map[]
      ensures outbox == []
      ensures console == [Event(Printer.AddressAnnouncement(publicAddr))]
    {
      this.publicAddr := publicAddr;
      this.period := period;
      this.connect := connect;
      participants := new Storage.ParticipantsStorage(publicAddr);
      outbox := [];
      console := [Event(Printer.AddressAnnouncement(publicAddr))];
    }

    /**
     The start of `run`: dial the address given with `--connect`, if any,
     and register the connection as known, or report the failure.
     */
    method ConnectInitial(dialText: string -> Option<Endpoint>)
      requires Valid()
      modifies this, participants
      ensures outbox == old(outbox)
      ensures connect.None? ==> participants.entries == old(participants.entries) && console == old(console)
      ensures connect.Some? && dialText(connect.value).Some? ==>
        && participants.entries == old(participants.entries)[dialText(connect.value).value := Known]
        && console == old(console)
      ensures connect.Some? && dialText(connect.value).None? ==>
        && participants.entries == old(participants.entries)
        && console == old(console) + [Plain(FailedToConnect(connect.value))]
    {
      if connect.Some? {
        match dialText(connect.value)
        case Some(e) =>
          participants.AddKnownParticipant(e);
        case None =>
          console := console + [Plain(FailedToConnect(connect.value))];
      }
    }

    /**
     `connected`: the endpoint becomes a known participant, and it is sent
     this node's public address and then a request for its list.
     */
    method Connected(endpoint: Endpoint)
      requires Valid()
      modifies this, participants
      ensures participants.entries == old(participants.entries)[endpoint := Known]
      ensures outbox == old(outbox) + [Send(endpoint, PublicAddress(publicAddr)), Send(endpoint, PushParticipantsList)]
      ensures console == old(console)
    {
      participants.AddKnownParticipant(endpoint);
      outbox := outbox + [Send(endpoint, PublicAddress(publicAddr))];
      outbox := outbox + [Send(endpoint, PushParticipantsList)];
    }

    /**
     `pull_participants_list`: dial each listed address that is neither this
     node's nor the sender's and is not known yet. The registry and the dials
     are those of `PullFrom`; each failure prints a line, and if any dial
     succeeded an event names the list's addresses other than this node's.
     */
    method PullParticipantsList(sender: Endpoint, addrs: seq<SocketAddr>, dial: SocketAddr -> Option<Endpoint>)
      returns (attempts: seq<Attempt>)
      requires Valid()
      modifies this, participants
      ensures var r := PullFrom(old(participants.entries), publicAddr, Addr(sender), addrs, dial);
        participants.entries == r.entries && attempts == r.attempts
      ensures outbox == old(outbox)
      ensures console == old(console) + FailureLines(attempts)
        + (if AnySuccess(attempts) then [Event(ConnectedToNew(addrs, publicAddr))] else [])
    {
      ghost var final := PullFrom(participants.entries, publicAddr, Addr(sender), addrs, dial);
      var newConnections := false;
      attempts := [];
      var k := 0;
      while k < |addrs|
        invariant k <= |addrs|
        invariant Pulling(participants.entries, publicAddr, Addr(sender), addrs[k..], dial,
                          attempts, newConnections, console, old(console), final)
        invariant outbox == old(outbox)
      {
        attempts, newConnections := PullOne(sender, addrs, k, dial, attempts, newConnections, final, old(console));
        k := k + 1;
      }
      assert addrs[k..] == [];
      if newConnections {
        console := console + [Event(ConnectedToNew(addrs, publicAddr))];
      }
    }

    /**
     One pass of the loop of `pull_participants_list`, over `addrs[k]`. An
     address the test admits is dialed (`DialOne`); any other is skipped. The
     loop's invariant `Pulling` carries over from `addrs[k..]` to
     `addrs[k + 1..]`.
     */
    method PullOne(sender: Endpoint, addrs: seq<SocketAddr>, k: nat, dial: SocketAddr -> Option<Endpoint>,
                   attempts: seq<Attempt>, newConnections: bool, ghost final: PullResult, ghost printed: seq<ConsoleLine>)
      returns (attempts': seq<Attempt>, newConnections': bool)
      requires Valid() && k < |addrs|
      requires Pulling(participants.entries, publicAddr, Addr(sender), addrs[k..], dial,
                       attempts, newConnections, console, printed, final)
      modifies this, participants
      ensures Pulling(participants.entries, publicAddr, Addr(sender), addrs[k + 1..], dial,
                      attempts', newConnections', console, printed, final)
      ensures outbox == old(outbox)
    {
      var a := addrs[k];
      ghost var rest := addrs[k + 1..];
      assert addrs[k..] == [a] + rest;
      if a != publicAddr && a != Addr(sender) && !participants.IsKnownParticipant(a) {
        attempts', newConnections' := DialOne(sender, a, rest, dial, attempts, newConnections, final, printed);
      } else {
        PullStepSkip(participants.entries, publicAddr, Addr(sender), [a] + rest, dial);
        assert ([a] + rest)[1..] == rest;
        attempts', newConnections' := attempts, newConnections;
      }
    }

    /**
     The dialing half of one pass: `a` passes the test, so it is dialed; a
     success registers the new endpoint as known and sets the flag, a failure
     prints a line, and the attempt is appended to the log.
     */
    method DialOne(sender: Endpoint, a: SocketAddr, ghost rest: seq<SocketAddr>, dial: SocketAddr -> Option<Endpoint>,
                   attempts: seq<Attempt>, newConnections: bool, ghost final: PullResult, ghost printed: seq<ConsoleLine>)
      returns (attempts': seq<Attempt>, newConnections': bool)
      requires Valid() && Eligible(participants.entries, publicAddr, Addr(sender), a)
      requires newConnections <==> AnySuccess(attempts)
      requires PullFrom(participants.entries, publicAddr, Addr(sender), [a] + rest, dial).entries == final.entries
      requires attempts + PullFrom(participants.entries, publicAddr, Addr(sender), [a] + rest, dial).attempts
        == final.attempts
      requires console == printed + FailureLines(attempts)
      modifies this, participants
      ensures PullFrom(participants.entries, publicAddr, Addr(sender), rest, dial).entries == final.entries
      ensures attempts' + PullFrom(participants.entries, publicAddr, Addr(sender), rest, dial).attempts
        == final.attempts
      ensures newConnections' <==> AnySuccess(attempts')
      ensures console == printed + FailureLines(attempts')
      ensures outbox == old(outbox)
    {
      DialAdvance(participants.entries, publicAddr, Addr(sender), a, rest, dial, attempts, final);
      var outcome := dial(a);
      var attempt := Attempt(a, outcome);
      attempts' := attempts + [attempt];
      FailureLinesSnoc(attempts, attempt);
      AnySuccessSnoc(attempts, attempt);
      match outcome
      case Some(e) =>
        participants.AddKnownParticipant(e);
        newConnections' := true;
      case None =>
        console := console + [Plain(FailedToConnect(AddrToString(a)))];
        newConnections' := newConnections;
    }

    /**
     `network_messages`: an announced public address registers the sender
     under it; a push request is answered with this node's participants list;
     a list is pulled; a text is printed with the sender's public address,
     and a text from an unregistered sender panics on the `unwrap`.
     */
    method NetworkMessages(sender: Endpoint, message: Message, dial: SocketAddr -> Option<Endpoint>)
      returns (flow: Flow, attempts: seq<Attempt>, ghost order: seq<Endpoint>)
      requires Valid()
      modifies this, participants
      ensures flow.Panic? <==> message.Text? && sender !in old(participants.entries)
      ensures flow.Continue? <==> !flow.Panic?
      ensures !message.PullParticipantsList? ==> attempts == []
      ensures message.PublicAddress? ==>
        && participants.entries == old(participants.entries)[sender := Unknown(message.addr)]
        && outbox == old(outbox) && console == old(console)
      ensures message.PushParticipantsList? ==>
        && participants.entries == old(participants.entries)
        && IsEnumeration(participants.entries, order)
        && outbox == old(outbox) + [Send(sender, Message.PullParticipantsList([publicAddr] + PublicAddrs(participants.entries, order)))]
        && console == old(console)
      ensures message.PullParticipantsList? ==>
        var r := PullFrom(old(participants.entries), publicAddr, Addr(sender), message.addrs, dial);
        && participants.entries == r.entries && attempts == r.attempts
        && outbox == old(outbox)
        && console == old(console) + FailureLines(attempts)
           + (if AnySuccess(attempts) then [Event(ConnectedToNew(message.addrs, publicAddr))] else [])
      ensures message.Text? ==> participants.entries == old(participants.entries) && outbox == old(outbox)
      ensures message.Text? && sender in old(participants.entries) ==>
        console == old(console) + [Event(ReceivedText(message.text, Lookup(participants.entries, sender).value))]
      ensures message.Text? && sender !in old(participants.entries) ==> console == old(console)
    {
      flow := Continue;
      attempts := [];
      order := [];
      match message
      case PublicAddress(p) =>
        participants.AddUnknownParticipant(sender, p);
      case PushParticipantsList =>
        var list;
        list, order := participants.GetParticipantsList();
        assert list == [list[0]] + list[1..];
        outbox := outbox + [Send(sender, Message.PullParticipantsList(list))];
      case PullParticipantsList(addrs) =>
        attempts := PullParticipantsList(sender, addrs, dial);
      case Text(text) =>
        match participants.GetPubAddr(sender)
        case None =>
          flow := Panic;
        case Some(p) =>
          console := console + [Event(ReceivedText(text, p))];
    }

    /**
     One turn of `run`'s event loop. `Accepted` does nothing, a failed
     connection prints a line and exits with status 1, a message is handled
     as `network_messages` says, and a disconnection drops the endpoint.
     */
    method HandleEvent(event: NetEvent, dial: SocketAddr -> Option<Endpoint>)
      returns (flow: Flow, attempts: seq<Attempt>, ghost order: seq<Endpoint>)
      requires Valid()
      modifies this, participants
      ensures event.Accepted? ==>
        && flow == Continue && participants.entries == old(participants.entries)
        && outbox == old(outbox) && console == old(console)
      ensures event.Connected? && event.established ==>
        && flow == Continue
        && participants.entries == old(participants.entries)[event.endpoint := Known]
        && outbox == old(outbox)
           + [Send(event.endpoint, PublicAddress(publicAddr)), Send(event.endpoint, PushParticipantsList)]
        && console == old(console)
      ensures event.Connected? && !event.established ==>
        && flow == Exit(1) && participants.entries == old(participants.entries) && outbox == old(outbox)
        && console == old(console) + [Plain("Can not connect to " + AddrToString(Addr(event.endpoint)))]
      ensures event.Received? ==>
        (flow.Panic? <==> event.message.Text? && event.sender !in old(participants.entries))
      ensures event.Received? ==> (flow.Continue? <==> !flow.Panic?)
      ensures event.Received? && !event.message.PullParticipantsList? ==> attempts == []
      ensures event.Received? && event.message.PublicAddress? ==>
        && participants.entries == old(participants.entries)[event.sender := Unknown(event.message.addr)]
        && outbox == old(outbox) && console == old(console)
      ensures event.Received? && event.message.PushParticipantsList? ==>
        && participants.entries == old(participants.entries)
        && IsEnumeration(participants.entries, order)
        && outbox == old(outbox)
           + [Send(event.sender, Message.PullParticipantsList([publicAddr] + PublicAddrs(participants.entries, order)))]
        && console == old(console)
      ensures event.Received? && event.message.PullParticipantsList? ==>
        var r := PullFrom(old(participants.entries), publicAddr, Addr(event.sender), event.message.addrs, dial);
        && participants.entries == r.entries && attempts == r.attempts
        && outbox == old(outbox)
        && console == old(console) + FailureLines(attempts)
           + (if AnySuccess(attempts) then [Event(ConnectedToNew(event.message.addrs, publicAddr))] else [])
      ensures event.Received? && event.message.Text? ==>
        participants.entries == old(participants.entries) && outbox == old(outbox)
      ensures event.Received? && event.message.Text? && event.sender in old(participants.entries) ==>
        console == old(console) + [Event(ReceivedText(event.message.text, Lookup(participants.entries, event.sender).value))]
      ensures event.Received? && event.message.Text? && event.sender !in old(participants.entries) ==>
        console == old(console)
      ensures event.Disconnected? ==>
        && flow == Continue && participants.entries == old(participants.entries) - {event.endpoint}
        && outbox == old(outbox) && console == old(console)
      ensures !event.Received? ==> attempts == []
    {
      flow := Continue;
      attempts := [];
      order := [];
      match event
      case Accepted(_) =>
      case Connected(e, established) =>
        if established {
          Connected(e);
        } else {
          console := console + [Plain("Can not connect to " + AddrToString(Addr(e)))];
          flow := Exit(1);
        }
      case Received(sender, message) =>
        flow, attempts, order := NetworkMessages(sender, message, dial);
      case Disconnected(e) =>
        participants.Drop(e);
    }

    /**
     One wake-up of the `sending_random_message` thread, with the random
     number `n` drawn from `0..1000`: nothing when there are no receivers,
     otherwise one event line naming them and one send of the same text to
     each receiver.
     */
    method SendingRandomMessageTick(n: nat) returns (ghost order: seq<Endpoint>)
      requires Valid() && n < 1000
      modifies this
      ensures IsEnumeration(participants.entries, order)
      ensures |participants.entries| == 0 ==> outbox == old(outbox) && console == old(console)
      ensures |participants.entries| > 0 ==>
        var receivers := participants.Receivers(order);
        && outbox == old(outbox) + Broadcast(receivers, Text(RandomText(n)))
        && console == old(console) + [Event(SendingMessage(n, receivers))]
      ensures |old(outbox)| <= |outbox|
      ensures ReachesEachOnce(outbox[|old(outbox)|..], participants.entries, Text(RandomText(n)))
    {
      var keys := Enumerate(participants.entries);
      order := keys;
      var receivers := participants.Receivers(keys);
      var message := Text(RandomText(n));
      if |receivers| > 0 {
        console := console + [Event(SendingMessage(n, receivers))];
        SendToEach(receivers, message);
      }
      DeliveredOnce(old(outbox), outbox, participants.entries, keys, message);
    }

    /** The `for` loop of the tick: one send of `message` to each receiver, in order. */
    method SendToEach(receivers: seq<ParticipantAddress>, message: Message)
      modifies this
      ensures outbox == old(outbox) + Broadcast(receivers, message)
      ensures console == old(console)
    {
      var k := 0;
      while k < |receivers|
        invariant k <= |receivers|
        invariant outbox == old(outbox) + Broadcast(receivers[..k], message)
        invariant console == old(console)
      {
        BroadcastSnoc(receivers, k, message);
        outbox := outbox + [Send(receivers[k].endpoint, message)];
        k := k + 1;
      }
      assert receivers[..k] == receivers;
    }
  }
}
