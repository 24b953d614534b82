/** What a release proves: in every reachable state, for every history of additions. */
module SentinelSafety {
  import opened Types
  import opened Xor
  import opened Accumulator
  import opened AccumulatorRuns
  import opened Sentinel

  // ----- Quorums inside one decision

  ghost predicate DistinctSenders(v: seq<Message>) {
    forall i, j :: 0 <= i < j < |v| ==> v[i].header.fromNode != v[j].header.fromNode
  }

  ghost function SendersOf(v: seq<Message>, body: Bytes): set<Address> {
    set m | m in v && m.body == body :: m.header.fromNode
  }

  /** With distinct senders, counting equal bodies counts nodes. */
  lemma {:induction false} CountIsSenders(v: seq<Message>, body: Bytes)
    requires DistinctSenders(v)
    ensures CountBody(v, body) == |SendersOf(v, body)|
  {
    if v != [] {
      var init, m := v[..|v| - 1], v[|v| - 1];
      CountIsSenders(init, body);
      LastSenderIsNew(v, body);
      hide SendersOf, DistinctSenders;
      assert v == init + [m];
      SendersOneMore(init, m, body);
    }
  }

  lemma LastSenderIsNew(v: seq<Message>, body: Bytes)
    requires DistinctSenders(v) && v != []
    ensures v[|v| - 1].header.fromNode !in SendersOf(v[..|v| - 1], body)
  {
  }

  lemma SendersOneMore(v: seq<Message>, m: Message, body: Bytes)
    ensures SendersOf(v + [m], body) == SendersOf(v, body) + if m.body == body then {m.header.fromNode} else {}
  {
  }

  lemma InOrderMembers(m: map<Address, Message>)
    requires forall a :: a in m ==> m[a].header.fromNode == a
    ensures DistinctSenders(InOrder(m))
    ensures forall x :: x in InOrder(m) <==> x.header.fromNode in m && m[x.header.fromNode] == x
  {
    var keys := Ascending(m.Keys);
    AscendingVisitsEachOnce(m.Keys);
    hide Ascending;
    var r := InOrder(m);
    assert forall i :: 0 <= i < |keys| ==> keys[i] in m && r[i] == m[keys[i]];
    forall x: Message | x.header.fromNode in m && m[x.header.fromNode] == x ensures x in r {
      assert x.header.fromNode in keys;
      var i :| 0 <= i < |keys| && keys[i] == x.header.fromNode;
      assert r[i] == x;
    }
  }

  lemma {:induction false} FilterGroupMembers(c: Crypto, keys: KeysMap, s: seq<Message>)
    requires DistinctSenders(s)
    ensures DistinctSenders(FilterGroup(c, keys, s))
    ensures forall x :: x in FilterGroup(c, keys, s) <==> x in s && VerifiedInGroup(c, keys, x)
  {
    hide VerifiedInGroup;
    if s != [] {
      var init, m := s[..|s| - 1], s[|s| - 1];
      FilterGroupMembers(c, keys, init);
      assert s == init + [m];
      var f := FilterGroup(c, keys, init);
      forall i | 0 <= i < |f| ensures f[i].header.fromNode != m.header.fromNode {
        assert f[i] in init;
      }
    }
  }

  /** Messages in increasing order of their senders. */
  ghost predicate AscendingSenders(v: seq<Message>) {
    forall i, j :: 0 <= i < j < |v| ==> LexLess(v[i].header.fromNode, v[j].header.fromNode)
  }

  lemma InOrderAscends(m: map<Address, Message>)
    requires forall a :: a in m ==> m[a].header.fromNode == a
    ensures AscendingSenders(InOrder(m))
  {
    AscendingVisitsEachOnce(m.Keys);
    hide Ascending, LexLess;
    var keys, r := Ascending(m.Keys), InOrder(m);
    forall i | 0 <= i < |r| ensures r[i].header.fromNode == keys[i] {
      assert keys[i] in m.Keys;
    }
  }

  lemma {:induction false} FilterGroupAscends(c: Crypto, keys: KeysMap, s: seq<Message>)
    requires AscendingSenders(s) && DistinctSenders(s)
    ensures AscendingSenders(FilterGroup(c, keys, s))
  {
    hide VerifiedInGroup, LexLess;
    if s != [] {
      var init, m := s[..|s| - 1], s[|s| - 1];
      FilterGroupAscends(c, keys, init);
      FilterGroupMembers(c, keys, init);
      var f := FilterGroup(c, keys, init);
      forall i | 0 <= i < |f| ensures LexLess(f[i].header.fromNode, m.header.fromNode) {
        assert f[i] in init;
        var j :| 0 <= j < |init| && init[j] == f[i];
        assert s[j] == f[i];
      }
    }
  }

  /** `response` lists `key` for node `n`. */
  ghost predicate Lists(c: Crypto, response: Message, n: Address, key: PublicKey) {
    var keys := c.parseGroupKeys(response.body);
    keys.Parsed? && n in keys.value && keys.value[n] == key
  }

  /** Every key collected was listed by one of the responses, and none is lost. */
  lemma {:induction false} CollectedIsListed(c: Crypto, rs: seq<Message>, n: Address)
    requires CollectGroupKeys(c, rs).Parsed?
    ensures var m := CollectGroupKeys(c, rs).value;
      && (n in m ==> m[n] != [] && forall k :: k in m[n] ==> exists r :: r in rs && Lists(c, r, n, k))
      && (forall r, k :: r in rs && Lists(c, r, n, k) ==> n in m && k in m[n])
  {
    if rs != [] {
      var init, r := rs[..|rs| - 1], rs[|rs| - 1];
      CollectedIsListed(c, init, n);
      assert rs == init + [r];
      var m, m' := CollectGroupKeys(c, init).value, CollectGroupKeys(c, rs).value;
      var keys := c.parseGroupKeys(r.body).value;
      assert m' == ListAll(m, keys);
      if n in m' {
        forall k | k in m'[n] ensures exists r :: r in rs && Lists(c, r, n, k) {
          if n in m && k in m[n] {
            var r' :| r' in init && Lists(c, r', n, k);
            assert r' in rs;
          } else {
            assert Lists(c, r, n, k);
          }
        }
      }
    }
  }

  /** The first of the responses to list a key for `n` is the i-th, and it lists `key`. */
  ghost predicate FirstListedAt(c: Crypto, rs: seq<Message>, n: Address, i: nat, key: PublicKey) {
    i < |rs| && Lists(c, rs[i], n, key) && forall j, k :: 0 <= j < i ==> !Lists(c, rs[j], n, k)
  }

  /** The key a sender is checked against is the one listed by the first response that lists it. */
  lemma {:induction false} FirstListedKey(c: Crypto, rs: seq<Message>, n: Address) returns (i: nat)
    requires CollectGroupKeys(c, rs).Parsed? && n in CollectGroupKeys(c, rs).value
    ensures var m := CollectGroupKeys(c, rs).value;
      m[n] != [] && FirstListedAt(c, rs, n, i, m[n][0])
  {
    CollectLast(c, rs);
    hide CollectGroupKeys, ListAll, FirstListedAt;
    var init, r := rs[..|rs| - 1], rs[|rs| - 1];
    var m, keys := CollectGroupKeys(c, init).value, c.parseGroupKeys(r.body).value;
    ListAllKeepsFirst(m, keys, n);
    if n in m {
      i := FirstListedKey(c, init, n);
      FirstExtends(c, rs, n, i, m[n][0]);
    } else {
      i := |rs| - 1;
      AbsentIsUnlisted(c, init, n);
      FirstAtLast(c, init, r, n, keys[n]);
      assert rs == init + [r];
    }
  }

  lemma FirstExtends(c: Crypto, rs: seq<Message>, n: Address, i: nat, key: PublicKey)
    requires rs != [] && FirstListedAt(c, rs[..|rs| - 1], n, i, key)
    ensures FirstListedAt(c, rs, n, i, key)
  {
    hide Lists;
  }

  lemma FirstAtLast(c: Crypto, init: seq<Message>, r: Message, n: Address, key: PublicKey)
    requires Lists(c, r, n, key) && forall j, k :: 0 <= j < |init| ==> !Lists(c, init[j], n, k)
    ensures FirstListedAt(c, init + [r], n, |init|, key)
  {
    hide Lists;
  }

  lemma {:induction false} AbsentIsUnlisted(c: Crypto, rs: seq<Message>, n: Address)
    requires CollectGroupKeys(c, rs).Parsed? && n !in CollectGroupKeys(c, rs).value
    ensures forall j, k :: 0 <= j < |rs| ==> !Lists(c, rs[j], n, k)
  {
    CollectLast(c, rs);
    hide CollectGroupKeys, ListAll;
    if rs != [] {
      var init, r := rs[..|rs| - 1], rs[|rs| - 1];
      ListAllKeepsFirst(CollectGroupKeys(c, init).value, c.parseGroupKeys(r.body).value, n);
      AbsentIsUnlisted(c, init, n);
    }
  }

  lemma CollectLast(c: Crypto, rs: seq<Message>)
    requires CollectGroupKeys(c, rs).Parsed?
    ensures rs == [] ==> CollectGroupKeys(c, rs).value == map[]
    ensures rs != [] ==>
      var init, last := CollectGroupKeys(c, rs[..|rs| - 1]), c.parseGroupKeys(rs[|rs| - 1].body);
      init.Parsed? && last.Parsed? && CollectGroupKeys(c, rs).value == ListAll(init.value, last.value)
  {
    hide ListAll;
  }

  lemma ListAllKeepsFirst(m: KeysMap, keys: map<Address, PublicKey>, n: Address)
    ensures n in ListAll(m, keys) <==> n in m || n in keys
    ensures n in m && m[n] != [] ==> ListAll(m, keys)[n] != [] && ListAll(m, keys)[n][0] == m[n][0]
    ensures n !in m && n in keys ==> ListAll(m, keys)[n] == [keys[n]]
  {
  }

  // ----- What a group release rests on

  predicate IsKeyTag(tag: Tag) {
    tag == GetClientKeyResponse || tag == GetGroupKeyResponse
  }

  ghost predicate Submits(m: Message, n: Address, g: Address, id: MessageId, body: Bytes) {
    m.header.fromNode == n && m.header.fromGroup == Some(g) && m.header.messageId == id && m.body == body &&
      !IsKeyTag(m.tag)
  }

  ghost predicate RespondsFor(r: Message, g: Address) {
    r.header.fromGroup == Some(g) && r.tag == GetGroupKeyResponse
  }

  /** The signature of `m` verifies under a valid key listed for its sender by a response in `rs`. */
  ghost predicate Vouched(c: Crypto, rs: set<Message>, g: Address, m: Message) {
    exists r, key :: r in rs && RespondsFor(r, g) && Lists(c, r, m.header.fromNode, key) && c.validKey(key) &&
      SignedUnder(c, m, key)
  }

  /** `senders` are nodes that each submitted `body`, vouched for; `responders` sent key responses. */
  ghost predicate Backing(
    c: Crypto, received: set<Message>, g: Address, id: MessageId, body: Bytes, senders: set<Address>,
    responders: set<Address>) {
    && |senders| >= QUORUM_SIZE
    && |responders| >= QUORUM_SIZE
    && (forall n :: n in senders ==>
          exists m :: m in received && Submits(m, n, g, id, body) && Vouched(c, received, g, m))
    && (forall n :: n in responders ==> exists r :: r in received && RespondsFor(r, g) && r.header.fromNode == n)
  }

  ghost predicate HeldFor(received: set<Message>, g: Address, id: MessageId, messages: map<Address, Message>) {
    forall n :: n in messages ==> messages[n] in received && Submits(messages[n], n, g, id, messages[n].body)
  }

  ghost predicate KeysFor(received: set<Message>, g: Address, keys: map<Address, Message>) {
    forall n :: n in keys ==> keys[n] in received && RespondsFor(keys[n], g) && keys[n].header.fromNode == n
  }

  lemma VerifiedIsVouched(c: Crypto, received: set<Message>, g: Address, keys: map<Address, Message>, m: Message)
    requires KeysFor(received, g, keys) && CollectGroupKeys(c, InOrder(keys)).Parsed?
    requires VerifiedInGroup(c, CollectGroupKeys(c, InOrder(keys)).value, m)
    ensures Vouched(c, received, g, m)
  {
    InOrderMembers(keys);
    var rs, n := InOrder(keys), m.header.fromNode;
    var listed := CollectGroupKeys(c, rs).value;
    CollectedIsListed(c, rs, n);
    hide CollectGroupKeys, InOrder, Lists, SignedUnder;
    var key := listed[n][0];
    assert key in listed[n];
    var r :| r in rs && Lists(c, r, n, key);
    assert r in received && RespondsFor(r, g);
  }

  ghost function VerifiedMessages(c: Crypto, messages: map<Address, Message>, keys: map<Address, Message>): seq<Message>
    requires CollectGroupKeys(c, InOrder(keys)).Parsed?
  {
    FilterGroup(c, CollectGroupKeys(c, InOrder(keys)).value, InOrder(messages))
  }

  ghost predicate AllParse(c: Crypto, keys: map<Address, Message>) {
    forall n :: n in keys ==> c.parseGroupKeys(keys[n].body).Parsed?
  }

  /** The signature of `m` checks under a valid key, the one the least of its listers gives. */
  ghost predicate Checks(c: Crypto, keys: map<Address, Message>, m: Message) {
    exists r, key :: LeastLister(c, keys, m.header.fromNode, r, key) && c.validKey(key) && HasSigned(c, m, key)
  }

  ghost predicate HasSigned(c: Crypto, m: Message, key: PublicKey) {
    exists signature :: m.header.signature == Some(signature) && c.signed(m.body, signature, key)
  }

  /** `v` is every message that checks, once, in increasing order of sender. */
  ghost predicate AllVerified(
    c: Crypto, messages: map<Address, Message>, keys: map<Address, Message>, v: seq<Message>)
  {
    && AllParse(c, keys) && AscendingSenders(v)
    && (forall x :: x in v <==>
          x.header.fromNode in messages && messages[x.header.fromNode] == x && Checks(c, keys, x))
  }

  lemma ParsedIffAllParse(c: Crypto, keys: map<Address, Message>)
    ensures CollectGroupKeys(c, InOrder(keys)).Parsed? <==> AllParse(c, keys)
  {
    var rs, order := InOrder(keys), Ascending(keys.Keys);
    AscendingVisitsEachOnce(keys.Keys);
    hide Ascending, CollectGroupKeys, LexLess;
    if !AllParse(c, keys) {
      var n :| n in keys && c.parseGroupKeys(keys[n].body).Malformed?;
      var i :| 0 <= i < |order| && order[i] == n;
      assert rs[i] == keys[n];
      OneMalformed(c, rs, i);
    } else {
      forall i | 0 <= i < |rs| ensures c.parseGroupKeys(rs[i].body).Parsed? {
        assert order[i] in keys && rs[i] == keys[order[i]];
      }
      NoneMalformed(c, rs);
    }
  }

  lemma {:induction false} NoneMalformed(c: Crypto, rs: seq<Message>)
    requires forall i :: 0 <= i < |rs| ==> c.parseGroupKeys(rs[i].body).Parsed?
    ensures CollectGroupKeys(c, rs).Parsed?
  {
    if rs != [] { NoneMalformed(c, rs[..|rs| - 1]); }
  }

  /** Verifying under the collected keys is checking under the key of the least lister. */
  lemma VerifiedIff(c: Crypto, keys: map<Address, Message>, m: Message)
    requires CollectGroupKeys(c, InOrder(keys)).Parsed?
    ensures VerifiedInGroup(c, CollectGroupKeys(c, InOrder(keys)).value, m) <==> Checks(c, keys, m)
  {
    var n, listed := m.header.fromNode, CollectGroupKeys(c, InOrder(keys)).value;
    hide CollectGroupKeys, InOrder, LeastLister;
    forall r, key | LeastLister(c, keys, n, r, key) ensures n in listed && listed[n] != [] && listed[n][0] == key {
      LeastListerDecides(c, keys, n, r, key);
    }
    if n in listed {
      var r := LeastListerExists(c, keys, n);
    }
  }

  lemma LeastListerExists(c: Crypto, keys: map<Address, Message>, n: Address) returns (r: Address)
    requires CollectGroupKeys(c, InOrder(keys)).Parsed? && n in CollectGroupKeys(c, InOrder(keys)).value
    ensures var listed := CollectGroupKeys(c, InOrder(keys)).value;
      listed[n] != [] && LeastLister(c, keys, n, r, listed[n][0])
  {
    var rs, order := InOrder(keys), Ascending(keys.Keys);
    AscendingVisitsEachOnce(keys.Keys);
    hide Ascending, CollectGroupKeys, LexLess, Lists;
    var i := FirstListedKey(c, rs, n);
    r := order[i];
    forall r', k | r' in keys && Lists(c, keys[r'], n, k) ensures r' == r || LexLess(r, r') {
      var j :| 0 <= j < |order| && order[j] == r';
      assert rs[j] == keys[r'];
    }
  }

  lemma VerifiedMembers(c: Crypto, messages: map<Address, Message>, keys: map<Address, Message>)
    requires forall n :: n in messages ==> messages[n].header.fromNode == n
    requires CollectGroupKeys(c, InOrder(keys)).Parsed?
    ensures var v := VerifiedMessages(c, messages, keys);
      && DistinctSenders(v)
      && (forall x :: x in v <==>
            x.header.fromNode in messages && messages[x.header.fromNode] == x &&
            VerifiedInGroup(c, CollectGroupKeys(c, InOrder(keys)).value, x))
  {
    InOrderMembers(messages);
    var listed := CollectGroupKeys(c, InOrder(keys)).value;
    FilterGroupMembers(c, listed, InOrder(messages));
    hide FilterGroup, CollectGroupKeys, InOrder, VerifiedInGroup, DistinctSenders;
  }

  lemma VerifiedIsAll(c: Crypto, messages: map<Address, Message>, keys: map<Address, Message>)
    requires forall n :: n in messages ==> messages[n].header.fromNode == n
    requires CollectGroupKeys(c, InOrder(keys)).Parsed?
    ensures AllVerified(c, messages, keys, VerifiedMessages(c, messages, keys))
  {
    hide FilterGroup, CollectGroupKeys, InOrder, VerifiedInGroup, DistinctSenders, AscendingSenders, Checks, AllParse;
    VerifiedMembers(c, messages, keys);
    InOrderMembers(messages);
    InOrderAscends(messages);
    FilterGroupAscends(c, CollectGroupKeys(c, InOrder(keys)).value, InOrder(messages));
    ParsedIffAllParse(c, keys);
    forall m ensures VerifiedInGroup(c, CollectGroupKeys(c, InOrder(keys)).value, m) <==> Checks(c, keys, m) {
      VerifiedIff(c, keys, m);
    }
  }

  /** An exact-match release is a verified message whose body a quorum of verified messages share. */
  lemma ReleaseHasQuorum(c: Crypto, messages: map<Address, Message>, keys: map<Address, Message>)
    requires DecideGroup(c, messages, keys).Released? && DecideGroup(c, messages, keys).message.tag != AccountTransfer
    ensures |keys| >= QUORUM_SIZE && CollectGroupKeys(c, InOrder(keys)).Parsed?
    ensures var r := DecideGroup(c, messages, keys).message;
      var v := VerifiedMessages(c, messages, keys);
      r in v && CountBody(v, r.body) >= QUORUM_SIZE
  {
    hide FilterGroup, CollectGroupKeys, InOrder, CountBody;
  }

  lemma {:induction false} CountBounds(v: seq<Message>, body: Bytes)
    ensures CountBody(v, body) <= |v|
    ensures CountBody(v, body) > 0 ==> exists j :: 0 <= j < |v| && v[j].body == body
  {
    if v != [] {
      var init, m := v[..|v| - 1], v[|v| - 1];
      CountBounds(init, body);
      if m.body != body && CountBody(init, body) > 0 {
        var j :| 0 <= j < |init| && init[j].body == body;
        assert v[j].body == body;
      }
    }
  }

  lemma {:induction false} FilterGroupShortens(c: Crypto, keys: KeysMap, s: seq<Message>)
    ensures |FilterGroup(c, keys, s)| <= |s|
  {
    hide VerifiedInGroup;
    if s != [] { FilterGroupShortens(c, keys, s[..|s| - 1]); }
  }

  /** The order of the messages and of the tests does not matter beyond which verified message comes
      first: a group decision releases exactly when a quorum of nodes have responded with keys that
      all parse, and the messages verified under them are a quorum that merges, if the first of
      them is an account transfer, and otherwise have a body with a quorum of distinct senders. */
  lemma GroupReleasedIff(c: Crypto, messages: map<Address, Message>, keys: map<Address, Message>)
    requires forall n :: n in messages ==> messages[n].header.fromNode == n
    ensures DecideGroup(c, messages, keys).Released? <==>
      && |keys| >= QUORUM_SIZE && CollectGroupKeys(c, InOrder(keys)).Parsed?
      && var v := VerifiedMessages(c, messages, keys);
         if v != [] && v[0].tag == AccountTransfer then |v| >= QUORUM_SIZE && Merges(c, v)
         else exists body :: |SendersOf(v, body)| >= QUORUM_SIZE
  {
    hide FilterGroup, CollectGroupKeys, InOrder, CountBody, SendersOf, DistinctSenders, VerifiedInGroup, Bodies;
    hide Merges;
    if CollectGroupKeys(c, InOrder(keys)).Parsed? {
      var v := VerifiedMessages(c, messages, keys);
      MergesIs(c, v);
      VerifiedMembers(c, messages, keys);
      FilterGroupShortens(c, CollectGroupKeys(c, InOrder(keys)).value, InOrder(messages));
      if DecideGroup(c, messages, keys).Released? {
        CountIsSenders(v, DecideGroup(c, messages, keys).message.body);
      }
      forall body | |SendersOf(v, body)| >= QUORUM_SIZE ensures |v| >= QUORUM_SIZE && FirstWithQuorum(v, 0).Some? {
        CountIsSenders(v, body);
        CountBounds(v, body);
      }
    }
  }

  /** Merging the bodies of all of `v`, in that order, comes to `result`. */
  ghost predicate Merged(c: Crypto, v: seq<Message>, result: Parsed<Option<Bytes>>) {
    exists bodies :: IsBodies(v, bodies) && c.mergeAccounts(bodies) == result
  }

  ghost predicate IsBodies(v: seq<Message>, bodies: seq<Bytes>) {
    |bodies| == |v| && forall i :: 0 <= i < |v| ==> bodies[i] == v[i].body
  }

  lemma MergedIs(c: Crypto, v: seq<Message>, result: Parsed<Option<Bytes>>)
    ensures Merged(c, v, result) <==> c.mergeAccounts(Bodies(v)) == result
  {
    assert IsBodies(v, Bodies(v));
    forall bodies | IsBodies(v, bodies) ensures bodies == Bodies(v) {
    }
  }

  ghost predicate Merges(c: Crypto, v: seq<Message>) {
    exists body :: Merged(c, v, Parsed(Some(body)))
  }

  lemma MergesIs(c: Crypto, v: seq<Message>)
    ensures Merges(c, v) <==> c.mergeAccounts(Bodies(v)).Parsed? && c.mergeAccounts(Bodies(v)).value.Some?
  {
    hide Merged, Bodies;
    var p := c.mergeAccounts(Bodies(v));
    forall body ensures Merged(c, v, Parsed(Some(body))) <==> p == Parsed(Some(body)) {
      MergedIs(c, v, Parsed(Some(body)));
    }
    if p.Parsed? && p.value.Some? { assert Merged(c, v, Parsed(Some(p.value.value))); }
  }

  /** A group release is the message of a quorum of nodes, byte for byte, each signature checked. */
  lemma GroupDecisionIsBacked(
    c: Crypto, received: set<Message>, g: Address, id: MessageId, messages: map<Address, Message>,
    keys: map<Address, Message>)
    requires HeldFor(received, g, id, messages) && KeysFor(received, g, keys)
    requires DecideGroup(c, messages, keys).Released? && DecideGroup(c, messages, keys).message.tag != AccountTransfer
    ensures var r := DecideGroup(c, messages, keys).message;
      && r in received && Submits(r, r.header.fromNode, g, id, r.body)
      && (exists senders, responders :: Backing(c, received, g, id, r.body, senders, responders))
  {
    hide CollectGroupKeys, InOrder, CountBody, VerifiedInGroup, Vouched, DecideGroup, RespondsFor, VerifiedMessages;
    hide DistinctSenders;
    var r := DecideGroup(c, messages, keys).message;
    ReleaseHasQuorum(c, messages, keys);
    VerifiedMembers(c, messages, keys);
    var v := VerifiedMessages(c, messages, keys);
    CountIsSenders(v, r.body);
    var senders := SendersOf(v, r.body);
    forall n | n in senders
      ensures exists m :: m in received && Submits(m, n, g, id, r.body) && Vouched(c, received, g, m)
    {
      var m :| m in v && m.body == r.body && m.header.fromNode == n;
      VerifiedIsVouched(c, received, g, keys, m);
      assert m in received && Submits(m, n, g, id, r.body);
    }
    assert |keys.Keys| == |keys|;
    assert Backing(c, received, g, id, r.body, senders, keys.Keys);
  }

  // ----- Histories

  datatype Event = Event(message: Message, now: int)

  ghost function StateAfter(c: Crypto, h: seq<Event>): State {
    if h == [] then INITIAL
    else Step(c, StateAfter(c, h[..|h| - 1]), h[|h| - 1].message, h[|h| - 1].now).0
  }

  /** The outcome of the i-th addition of a history. */
  ghost function OutcomeAt(c: Crypto, h: seq<Event>, i: nat): Outcome
    requires i < |h|
  {
    Step(c, StateAfter(c, h[..i]), h[i].message, h[i].now).1
  }

  ghost function Received(h: seq<Event>): set<Message> {
    set e | e in h :: e.message
  }

  ghost predicate NodeHeldFor(received: set<Message>, key: Key, messages: map<Address, Message>) {
    && messages.Keys == {key.0}
    && (forall n :: n in messages ==>
          && messages[n] in received && messages[n].header.fromNode == n && messages[n].header.fromGroup.None?
          && messages[n].header.messageId == key.1 && !IsKeyTag(messages[n].tag))
  }

  ghost predicate ClientKeysFor(received: set<Message>, g: Address, keys: map<Address, Message>) {
    forall n :: n in keys ==>
      keys[n] in received && keys[n].header.fromGroup == Some(g) && keys[n].tag == GetClientKeyResponse &&
        keys[n].header.fromNode == n
  }

  /** Everything the sentinel holds was received, under the name and sender it is filed under. */
  ghost predicate Sound(received: set<Message>, s: State) {
    && DistinctNames(s.groupMessages) && DistinctNames(s.groupKeys) && DistinctNames(s.nodeMessages) &&
       DistinctNames(s.nodeKeys)
    && (forall slot :: slot in s.groupMessages ==> HeldFor(received, slot.name.0, slot.name.1, slot.values))
    && (forall slot :: slot in s.groupKeys ==> KeysFor(received, slot.name, slot.values))
    && (forall slot :: slot in s.nodeMessages ==> NodeHeldFor(received, slot.name, slot.values))
    && (forall slot :: slot in s.nodeKeys ==> ClientKeysFor(received, slot.name, slot.values))
  }

  lemma CollectSlots<N(!new)>(s: seq<Slot<N, Message>>, name: N, m: Message, now: int)
    requires DistinctNames(s)
    ensures var t := Collect(s, name, m, now);
      && DistinctNames(t) && Has(t, name)
      && ValuesOf(t, name) == InsertFirst(ValuesOf(s, name), m.header.fromNode, m)
      && (forall slot :: slot in t ==> slot in s || (slot.name == name && slot.values == ValuesOf(t, name)))
  {
    AccumulateMembers(s, name, m, m.header.fromNode, TIME_TO_LIVE, now);
    var slot := NewSlot(s, name, m, m.header.fromNode, now);
    hide Accumulate, DistinctNames;
    LookupIs(Collect(s, name, m, now), slot);
    assert slot.name == name;
  }

  lemma SoundGrows(received: set<Message>, more: set<Message>, s: State)
    requires Sound(received, s) && received <= more
    ensures Sound(more, s)
  {
    hide DistinctNames;
  }

  lemma GroupValuesAreHeld(received: set<Message>, s: State, g: Address, id: MessageId)
    requires Sound(received, s)
    ensures HeldFor(received, g, id, ValuesOf(s.groupMessages, (g, id)))
    ensures KeysFor(received, g, ValuesOf(s.groupKeys, g))
  {
    hide DistinctNames, Lookup, Has;
  }

  lemma CollectGroupMessageIsSound(received: set<Message>, s: State, m: Message, now: int)
    requires Sound(received, s) && m in received && m.header.fromGroup.Some? && !IsKeyTag(m.tag)
    ensures Sound(received, s.(groupMessages := Collect(s.groupMessages, (m.header.fromGroup.value,
      m.header.messageId), m, now)))
  {
    hide DistinctNames, Collect, Lookup, Has;
    CollectSlots(s.groupMessages, (m.header.fromGroup.value, m.header.messageId), m, now);
  }

  lemma CollectNodeMessageIsSound(received: set<Message>, s: State, m: Message, now: int)
    requires Sound(received, s) && m in received && m.header.fromGroup.None? && !IsKeyTag(m.tag)
    ensures Sound(received, s.(nodeMessages := Collect(s.nodeMessages, (m.header.fromNode, m.header.messageId), m,
      now)))
  {
    hide DistinctNames, Collect, Lookup, Has;
    CollectSlots(s.nodeMessages, (m.header.fromNode, m.header.messageId), m, now);
  }

  lemma CollectGroupKeyIsSound(received: set<Message>, s: State, m: Message, now: int)
    requires Sound(received, s) && m in received && m.header.fromGroup.Some? && m.tag == GetGroupKeyResponse
    ensures Sound(received, s.(groupKeys := Collect(s.groupKeys, m.header.fromGroup.value, m, now)))
  {
    hide DistinctNames, Collect, Lookup, Has;
    CollectSlots(s.groupKeys, m.header.fromGroup.value, m, now);
  }

  lemma CollectClientKeyIsSound(received: set<Message>, s: State, m: Message, now: int)
    requires Sound(received, s) && m in received && m.header.fromGroup.Some? && m.tag == GetClientKeyResponse
    ensures Sound(received, s.(nodeKeys := Collect(s.nodeKeys, m.header.fromGroup.value, m, now)))
  {
    hide DistinctNames, Collect, Lookup, Has;
    CollectSlots(s.nodeKeys, m.header.fromGroup.value, m, now);
  }

  lemma DeleteIsSound(received: set<Message>, s: State, key: Key)
    requires Sound(received, s)
    ensures Sound(received, s.(groupMessages := Without(s.groupMessages, key)))
    ensures Sound(received, s.(nodeMessages := Without(s.nodeMessages, key)))
  {
    hide DistinctNames, Without, HeldFor, NodeHeldFor, KeysFor, ClientKeysFor;
    WithoutMembers(s.groupMessages, key);
    WithoutMembers(s.nodeMessages, key);
  }

  /** Every step files what it received where it belongs. */
  lemma StepKeepsSound(c: Crypto, received: set<Message>, s: State, m: Message, now: int)
    requires Sound(received, s)
    ensures Sound(received + {m}, Step(c, s, m, now).0)
  {
    hide Collect, Without, DecideGroup, DecideNode, ValuesOf, Has, HeldFor, NodeHeldFor, KeysFor, ClientKeysFor;
    hide DistinctNames;
    var all := received + {m};
    SoundGrows(received, all, s);
    var s' := Step(c, s, m, now).0;
    if m.tag == GetClientKeyResponse {
      if m.header.fromGroup.Some? {
        CollectClientKeyIsSound(all, s, m, now);
        DeleteIsSound(all, s, (m.header.fromGroup.value, m.header.messageId));
      }
    } else if m.tag == GetGroupKeyResponse {
      if m.header.fromGroup.Some? {
        CollectGroupKeyIsSound(all, s, m, now);
        DeleteIsSound(all, s, (m.header.fromGroup.value, m.header.messageId));
      }
    } else if m.header.fromGroup.Some? {
      CollectGroupMessageIsSound(all, s, m, now);
      var key := (m.header.fromGroup.value, m.header.messageId);
      DeleteIsSound(all, s.(groupMessages := Collect(s.groupMessages, key, m, now)), key);
    } else {
      CollectNodeMessageIsSound(all, s, m, now);
      var key := (m.header.fromNode, m.header.messageId);
      DeleteIsSound(all, s.(nodeMessages := Collect(s.nodeMessages, key, m, now)), key);
    }
  }

  lemma {:induction false} ReachableIsSound(c: Crypto, h: seq<Event>)
    ensures Sound(Received(h), StateAfter(c, h))
  {
    hide Step, Sound;
    if h == [] {
      InitialIsSound(Received(h));
    } else {
      var init, e := h[..|h| - 1], h[|h| - 1];
      ReachableIsSound(c, init);
      StepKeepsSound(c, Received(init), StateAfter(c, init), e.message, e.now);
      assert h == init + [e];
      assert Received(h) == Received(init) + {e.message};
    }
  }

  lemma InitialIsSound(received: set<Message>)
    ensures Sound(received, INITIAL)
  {
  }

  // ----- Releases in runs

  lemma {:induction false} FilterSignedMembers(c: Crypto, key: PublicKey, s: seq<Message>)
    ensures forall x :: x in FilterSigned(c, key, s) <==> x in s && SignedUnder(c, x, key)
  {
    hide SignedUnder;
    if s != [] {
      FilterSignedMembers(c, key, s[..|s| - 1]);
      assert s == s[..|s| - 1] + [s[|s| - 1]];
    }
  }

  /** A single-node release is a held message that checks against the chosen key of a quorum. */
  lemma NodeReleaseIsHeld(c: Crypto, messages: map<Address, Message>, keys: map<Address, Message>)
    requires forall n :: n in messages ==> messages[n].header.fromNode == n
    requires DecideNode(c, messages, keys).Released?
    ensures |keys| >= QUORUM_SIZE && CollectClientKeys(c, InOrder(keys)).Parsed?
    ensures var r := DecideNode(c, messages, keys).message;
      var key := ChosenKey(CollectClientKeys(c, InOrder(keys)).value);
      && r.header.fromNode in messages && messages[r.header.fromNode] == r
      && key.Some? && c.validKey(key.value) && SignedUnder(c, r, key.value)
  {
    hide CollectClientKeys, InOrder, FilterSigned, SignedUnder, ChosenKey;
    var r := DecideNode(c, messages, keys).message;
    var key := ChosenKey(CollectClientKeys(c, InOrder(keys)).value);
    FilterSignedMembers(c, key.value, InOrder(messages));
    assert r in FilterSigned(c, key.value, InOrder(messages));
    InOrderMembers(messages);
  }

  lemma NodeValuesAreHeld(received: set<Message>, s: State, key: Key)
    requires Sound(received, s) && Has(s.nodeMessages, key)
    ensures NodeHeldFor(received, key, ValuesOf(s.nodeMessages, key))
  {
    hide DistinctNames, Lookup, NodeHeldFor;
  }

  lemma ClientKeysAreHeld(received: set<Message>, s: State, g: Address)
    requires Sound(received, s)
    ensures ClientKeysFor(received, g, ValuesOf(s.nodeKeys, g))
  {
    hide DistinctNames, Lookup, Has;
  }

  lemma {:induction false} FilterIsSubset(c: Crypto, keys: KeysMap, s: seq<Message>)
    ensures forall x :: x in FilterGroup(c, keys, s) ==> x in s
  {
    hide VerifiedInGroup;
    if s != [] { FilterIsSubset(c, keys, s[..|s| - 1]); }
  }

  /** Whatever a group decision releases carries the header of one of the messages held. */
  lemma DecisionKeepsHeader(c: Crypto, messages: map<Address, Message>, keys: map<Address, Message>)
    requires (forall n :: n in messages ==> messages[n].header.fromNode == n)
    requires DecideGroup(c, messages, keys).Released?
    ensures exists n :: n in messages && messages[n].header == DecideGroup(c, messages, keys).message.header
  {
    hide CollectGroupKeys, InOrder, FilterGroup, CountBody;
    var listed := CollectGroupKeys(c, InOrder(keys)).value;
    FilterIsSubset(c, listed, InOrder(messages));
    InOrderMembers(messages);
    var v := FilterGroup(c, listed, InOrder(messages));
    assert v[0] in v;
    var r := DecideGroup(c, messages, keys).message;
    assert exists x :: x in v && x.header == r.header;
  }

  lemma GroupOutcomeIsOfGroup(c: Crypto, received: set<Message>, s: State, key: Key, keys: map<Address, Message>)
    requires Sound(received, s) && DecideGroup(c, ValuesOf(s.groupMessages, key), keys).Released?
    ensures var header := DecideGroup(c, ValuesOf(s.groupMessages, key), keys).message.header;
      header.fromGroup == Some(key.0) && header.messageId == key.1
  {
    hide Sound, ValuesOf, DecideGroup;
    GroupValuesAreHeld(received, s, key.0, key.1);
    DecisionKeepsHeader(c, ValuesOf(s.groupMessages, key), keys);
  }

  /** A message from a single node is never released on its own arrival. */
  lemma NodeMessageIsNotReleasedOnArrival(c: Crypto, h: seq<Event>, m: Message, now: int)
    requires !IsKeyTag(m.tag) && m.header.fromGroup.None?
    ensures Step(c, StateAfter(c, h), m, now).1 == Nothing
  {
    var s := StateAfter(c, h);
    ReachableIsSound(c, h);
    SoundGrows(Received(h), Received(h) + {m}, s);
    CollectNodeMessageIsSound(Received(h) + {m}, s, m, now);
    var key := (m.header.fromNode, m.header.messageId);
    var s' := s.(nodeMessages := Collect(s.nodeMessages, key, m, now));
    CollectSlots(s.nodeMessages, key, m, now);
    NodeValuesAreHeld(Received(h) + {m}, s', key);
    assert |ValuesOf(s'.nodeMessages, key).Keys| == 1;
    hide Collect, ValuesOf, CollectClientKeys, StateAfter, Sound;
  }

  /** Group releases come from group traffic only, for the group and id that triggered them. */
  lemma GroupReleaseComesFrom(c: Crypto, h: seq<Event>, m: Message, now: int)
    requires var o := Step(c, StateAfter(c, h), m, now).1; o.Released? && o.message.header.fromGroup.Some?
    ensures m.tag != GetClientKeyResponse && m.header.fromGroup.Some?
  {
    var s := StateAfter(c, h);
    ReachableIsSound(c, h);
    hide StateAfter, Sound;
    if m.tag == GetClientKeyResponse && m.header.fromGroup.Some? {
      var key := (m.header.fromGroup.value, m.header.messageId);
      hide Collect, DecideNode, Without;
      assert Has(s.nodeMessages, key);
      NodeValuesAreHeld(Received(h), s, key);
      NodeReleaseIsHeld(c, ValuesOf(s.nodeMessages, key), ValuesOf(Collect(s.nodeKeys, key.0, m, now), key.0));
    } else if !IsKeyTag(m.tag) && m.header.fromGroup.None? {
      NodeMessageIsNotReleasedOnArrival(c, h, m, now);
    }
  }

  /** Group release safety: in every reachable state, an exact-match group result is a message
      received for the group and id at hand, backed by a quorum of distinct nodes that each
      submitted that body with a signature that checks under a listed key, and by a quorum of
      distinct key responders. */
  lemma GroupReleaseIsBacked(c: Crypto, h: seq<Event>, m: Message, now: int, r: Message, g: Address)
    requires Step(c, StateAfter(c, h), m, now).1 == Released(r)
    requires r.header.fromGroup == Some(g) && r.tag != AccountTransfer
    ensures m.header.fromGroup == Some(g) && m.header.messageId == r.header.messageId
    ensures r in Received(h) + {m}
    ensures exists senders, responders ::
      Backing(c, Received(h) + {m}, g, r.header.messageId, r.body, senders, responders)
  {
    var s, all := StateAfter(c, h), Received(h) + {m};
    ReachableIsSound(c, h);
    SoundGrows(Received(h), all, s);
    GroupReleaseComesFrom(c, h, m, now);
    hide StateAfter, Sound, Collect, Without, DecideGroup, DecideNode, ValuesOf, Has, HeldFor, KeysFor, Backing;
    var g', id := m.header.fromGroup.value, m.header.messageId;
    var s';
    if m.tag == GetGroupKeyResponse {
      CollectGroupKeyIsSound(all, s, m, now);
      s' := s.(groupKeys := Collect(s.groupKeys, g', m, now));
    } else {
      CollectGroupMessageIsSound(all, s, m, now);
      s' := s.(groupMessages := Collect(s.groupMessages, (g', id), m, now));
    }
    GroupValuesAreHeld(all, s', g', id);
    GroupDecisionIsBacked(c, all, g', id, ValuesOf(s'.groupMessages, (g', id)), ValuesOf(s'.groupKeys, g'));
  }

  /** `v` are messages of at least a quorum of distinct nodes for the group and id, each received and
      vouched for. */
  ghost predicate VouchedQuorum(c: Crypto, received: set<Message>, g: Address, id: MessageId, v: seq<Message>) {
    && |v| >= QUORUM_SIZE && DistinctSenders(v)
    && (forall m :: m in v ==>
          m in received && Submits(m, m.header.fromNode, g, id, m.body) && Vouched(c, received, g, m))
  }

  /** `r` is the merge of all the bodies if `v` starts with an account transfer, and otherwise one of
      `v` whose body a quorum of nodes sent. */
  ghost predicate MergeOrMatch(c: Crypto, v: seq<Message>, r: Message)
    requires v != []
  {
    if v[0].tag == AccountTransfer then r == v[0].(body := r.body) && Merged(c, v, Parsed(Some(r.body)))
    else r in v && |SendersOf(v, r.body)| >= QUORUM_SIZE
  }

  lemma ReleaseIsMergeOrMatch(c: Crypto, messages: map<Address, Message>, keys: map<Address, Message>)
    requires (forall n :: n in messages ==> messages[n].header.fromNode == n)
    requires DecideGroup(c, messages, keys).Released?
    ensures CollectGroupKeys(c, InOrder(keys)).Parsed?
    ensures var v := VerifiedMessages(c, messages, keys);
      |v| >= QUORUM_SIZE && DistinctSenders(v) && MergeOrMatch(c, v, DecideGroup(c, messages, keys).message)
  {
    hide FilterGroup, CollectGroupKeys, InOrder, CountBody, SendersOf, DistinctSenders, VerifiedInGroup, Bodies;
    hide Merged;
    VerifiedMembers(c, messages, keys);
    MergedIs(c, VerifiedMessages(c, messages, keys), Parsed(Some(DecideGroup(c, messages, keys).message.body)));
    CountIsSenders(VerifiedMessages(c, messages, keys), DecideGroup(c, messages, keys).message.body);
  }

  lemma VerifiedIsAllIfReleased(c: Crypto, messages: map<Address, Message>, keys: map<Address, Message>)
    requires forall n :: n in messages ==> messages[n].header.fromNode == n
    requires DecideGroup(c, messages, keys).Released?
    ensures CollectGroupKeys(c, InOrder(keys)).Parsed?
    ensures AllVerified(c, messages, keys, VerifiedMessages(c, messages, keys))
  {
    hide DecideGroup, AllVerified, VerifiedMessages, CollectGroupKeys, InOrder, MergeOrMatch, DistinctSenders;
    ReleaseIsMergeOrMatch(c, messages, keys);
    VerifiedIsAll(c, messages, keys);
  }

  /** The messages held under (g, id), and the key responses held for g, once `m` has been collected. */
  ghost function MessagesWith(s: State, m: Message, g: Address, id: MessageId): map<Address, Message> {
    var held := ValuesOf(s.groupMessages, (g, id));
    if IsKeyTag(m.tag) then held else InsertFirst(held, m.header.fromNode, m)
  }

  ghost function ResponsesWith(s: State, m: Message, g: Address): map<Address, Message> {
    var held := ValuesOf(s.groupKeys, g);
    if IsKeyTag(m.tag) then InsertFirst(held, m.header.fromNode, m) else held
  }

  lemma VerifiedIsVouchedQuorum(
    c: Crypto, received: set<Message>, g: Address, id: MessageId, messages: map<Address, Message>,
    keys: map<Address, Message>)
    requires HeldFor(received, g, id, messages) && KeysFor(received, g, keys)
    requires DecideGroup(c, messages, keys).Released?
    ensures exists v ::
      && VouchedQuorum(c, received, g, id, v) && AllVerified(c, messages, keys, v)
      && MergeOrMatch(c, v, DecideGroup(c, messages, keys).message)
  {
    hide CollectGroupKeys, InOrder, VerifiedInGroup, Vouched, RespondsFor, VerifiedMessages, DistinctSenders;
    hide MergeOrMatch, DecideGroup, AllVerified;
    VerifiedIsAllIfReleased(c, messages, keys);
    ReleaseIsMergeOrMatch(c, messages, keys);
    VerifiedMembers(c, messages, keys);
    var v := VerifiedMessages(c, messages, keys);
    forall m | m in v
      ensures m in received && Submits(m, m.header.fromNode, g, id, m.body) && Vouched(c, received, g, m)
    {
      VerifiedIsVouched(c, received, g, keys, m);
    }
    assert VouchedQuorum(c, received, g, id, v);
  }

  /** Every group release, account transfers included: in every reachable state a group result is
      the match or the merge of all the messages held for that group and id that verify, from a
      quorum of distinct nodes, all received and vouched for. */
  lemma EveryGroupReleaseIsVouched(c: Crypto, h: seq<Event>, m: Message, now: int, r: Message, g: Address)
    requires Step(c, StateAfter(c, h), m, now).1 == Released(r) && r.header.fromGroup == Some(g)
    ensures m.header.fromGroup == Some(g) && m.header.messageId == r.header.messageId
    ensures var s, id := StateAfter(c, h), r.header.messageId;
      exists v ::
        && VouchedQuorum(c, Received(h) + {m}, g, id, v) && MergeOrMatch(c, v, r)
        && AllVerified(c, MessagesWith(s, m, g, id), ResponsesWith(s, m, g), v)
  {
    GroupReleaseComesFrom(c, h, m, now);
    hide Step, StateAfter, VouchedQuorum, MergeOrMatch, AllVerified, MessagesWith, ResponsesWith;
    var all, g', id := Received(h) + {m}, m.header.fromGroup.value, m.header.messageId;
    var messages, keys := MessagesWith(StateAfter(c, h), m, g', id), ResponsesWith(StateAfter(c, h), m, g');
    HeldWithIsReceived(c, h, m, now);
    VerifiedIsVouchedQuorum(c, all, g', id, messages, keys);
    var v :| VouchedQuorum(c, all, g', id, v) && AllVerified(c, messages, keys, v) && MergeOrMatch(c, v, r);
    MatchIsOfGroup(c, all, g', id, v, r);
  }

  lemma MatchIsOfGroup(c: Crypto, received: set<Message>, g: Address, id: MessageId, v: seq<Message>, r: Message)
    requires VouchedQuorum(c, received, g, id, v) && MergeOrMatch(c, v, r)
    ensures r.header.fromGroup == Some(g) && r.header.messageId == id
  {
    hide Vouched, DistinctSenders, SendersOf, Merged;
    assert v[0] in v;
  }

  /** What a group decision is made on was received, for its group and id. */
  lemma HeldWithIsReceived(c: Crypto, h: seq<Event>, m: Message, now: int)
    requires m.header.fromGroup.Some? && m.tag != GetClientKeyResponse && Step(c, StateAfter(c, h), m, now).1.Released?
    ensures var s, g, id := StateAfter(c, h), m.header.fromGroup.value, m.header.messageId;
      && HeldFor(Received(h) + {m}, g, id, MessagesWith(s, m, g, id))
      && KeysFor(Received(h) + {m}, g, ResponsesWith(s, m, g))
      && Step(c, s, m, now).1 == DecideGroup(c, MessagesWith(s, m, g, id), ResponsesWith(s, m, g))
  {
    var s, all := StateAfter(c, h), Received(h) + {m};
    ReachableIsSound(c, h);
    SoundGrows(Received(h), all, s);
    CollectedWith(c, h, m, now);
    hide StateAfter, Sound, Collect, Without, DecideGroup, ValuesOf, Has, HeldFor, KeysFor, MessagesWith, ResponsesWith;
    var g, id := m.header.fromGroup.value, m.header.messageId;
    if m.tag == GetGroupKeyResponse {
      CollectGroupKeyIsSound(all, s, m, now);
      GroupValuesAreHeld(all, s.(groupKeys := Collect(s.groupKeys, g, m, now)), g, id);
    } else {
      CollectGroupMessageIsSound(all, s, m, now);
      GroupValuesAreHeld(all, s.(groupMessages := Collect(s.groupMessages, (g, id), m, now)), g, id);
    }
  }

  lemma CollectedWith(c: Crypto, h: seq<Event>, m: Message, now: int)
    requires m.header.fromGroup.Some? && m.tag != GetClientKeyResponse
    ensures var s, g, id := StateAfter(c, h), m.header.fromGroup.value, m.header.messageId;
      if m.tag == GetGroupKeyResponse then
        && ValuesOf(Collect(s.groupKeys, g, m, now), g) == ResponsesWith(s, m, g)
        && ValuesOf(s.groupMessages, (g, id)) == MessagesWith(s, m, g, id)
      else
        && ValuesOf(Collect(s.groupMessages, (g, id), m, now), (g, id)) == MessagesWith(s, m, g, id)
        && ValuesOf(s.groupKeys, g) == ResponsesWith(s, m, g)
  {
    var s, g := StateAfter(c, h), m.header.fromGroup.value;
    ReachableIsSound(c, h);
    hide StateAfter, Collect, HeldFor, NodeHeldFor, KeysFor, ClientKeysFor, DistinctNames, ValuesOf;
    if m.tag == GetGroupKeyResponse {
      CollectSlots(s.groupKeys, g, m, now);
    } else {
      CollectSlots(s.groupMessages, (g, m.header.messageId), m, now);
    }
  }

  /** A group result that nobody sent is the merge of the bodies of all the messages held for that
      group and id that verify, from a quorum of distinct nodes, all received and vouched for, the
      first of them an account transfer. */
  lemma TransferIsMerge(c: Crypto, h: seq<Event>, m: Message, now: int, r: Message, g: Address)
    requires Step(c, StateAfter(c, h), m, now).1 == Released(r) && r.header.fromGroup == Some(g)
    ensures var s, id := StateAfter(c, h), r.header.messageId;
      r in Received(h) + {m} ||
      exists v: seq<Message> ::
        && VouchedQuorum(c, Received(h) + {m}, g, id, v)
        && AllVerified(c, MessagesWith(s, m, g, id), ResponsesWith(s, m, g), v)
        && v[0].tag == AccountTransfer && v[0].header == r.header && Merged(c, v, Parsed(Some(r.body)))
  {
    hide Step, StateAfter, Vouched, DistinctSenders, Submits, SendersOf, Merged, AllVerified;
    hide MessagesWith, ResponsesWith;
    EveryGroupReleaseIsVouched(c, h, m, now, r, g);
    var s, id := StateAfter(c, h), r.header.messageId;
    var v :| VouchedQuorum(c, Received(h) + {m}, g, id, v) && MergeOrMatch(c, v, r) &&
      AllVerified(c, MessagesWith(s, m, g, id), ResponsesWith(s, m, g), v);
    assert v[0] in v;
  }

  // ----- What one key response decides

  /** `r` is the least of the nodes whose held response lists a key for `n`. */
  ghost predicate LeastLister(c: Crypto, keys: map<Address, Message>, n: Address, r: Address, key: PublicKey) {
    && r in keys && Lists(c, keys[r], n, key)
    && (forall r', k :: r' in keys && Lists(c, keys[r'], n, k) ==> r' == r || LexLess(r, r'))
  }

  lemma ListedAtMostOnce(c: Crypto, response: Message, n: Address, k: PublicKey, k': PublicKey)
    requires Lists(c, response, n, k) && Lists(c, response, n, k')
    ensures k == k'
  {
  }

  /** A sender's signature is checked against the key listed by a single response, that of the least
      responder that lists the sender, whatever the other responses of the quorum list. */
  lemma LeastListerDecides(c: Crypto, keys: map<Address, Message>, n: Address, r: Address, key: PublicKey)
    requires CollectGroupKeys(c, InOrder(keys)).Parsed? && LeastLister(c, keys, n, r, key)
    ensures var m := CollectGroupKeys(c, InOrder(keys)).value; n in m && m[n] != [] && m[n][0] == key
  {
    var rs, order := InOrder(keys), Ascending(keys.Keys);
    var j := OrderedResponses(keys, r);
    hide InOrder, Ascending, CollectGroupKeys, Lists, LexLess, FirstListedAt;
    CollectedIsListed(c, rs, n);
    assert rs[j] in rs;
    var i := FirstListedKey(c, rs, n);
    FirstIsLeast(c, keys, n, r, key, i, j, CollectGroupKeys(c, rs).value[n][0]);
  }

  /** The responses in order of responder, and where that of `r` is. */
  lemma OrderedResponses(keys: map<Address, Message>, r: Address) returns (j: nat)
    requires r in keys
    ensures var rs, order := InOrder(keys), Ascending(keys.Keys);
      && |rs| == |order| && (forall i :: 0 <= i < |rs| ==> order[i] in keys && rs[i] == keys[order[i]])
      && (forall i, k :: 0 <= i < k < |order| ==> LexLess(order[i], order[k]))
      && j < |rs| && order[j] == r
  {
    AscendingVisitsEachOnce(keys.Keys);
    hide Ascending, LexLess;
    j :| 0 <= j < |Ascending(keys.Keys)| && Ascending(keys.Keys)[j] == r;
  }

  lemma FirstIsLeast(
    c: Crypto, keys: map<Address, Message>, n: Address, r: Address, key: PublicKey, i: nat, j: nat, k: PublicKey)
    requires LeastLister(c, keys, n, r, key) && FirstListedAt(c, InOrder(keys), n, i, k)
    requires j < |InOrder(keys)| && InOrder(keys)[j] == keys[r]
    requires var order := Ascending(keys.Keys);
      && i < |order| && j < |order| && order[j] == r && order[i] in keys && InOrder(keys)[i] == keys[order[i]]
      && (i < j ==> LexLess(order[i], order[j]))
    ensures k == key
  {
    hide InOrder, Ascending, Lists, LexLess;
    assert i <= j;
    LexLessIsStrict(Ascending(keys.Keys)[i], r);
    ListedAtMostOnce(c, keys[r], n, k, key);
  }

  lemma LexLessIsStrict(a: Address, b: Address)
    ensures !(LexLess(a, b) && LexLess(b, a))
  {
    LexLessIsNumeric(a, b);
    LexLessIsNumeric(b, a);
  }

  /** In every reachable state: while a response that does not parse is held for a group, nothing of
      that group is released, however many good responses there are. */
  lemma MalformedKeyBlocks(c: Crypto, h: seq<Event>, m: Message, now: int, g: Address, n: Address)
    requires var keys := ValuesOf(StateAfter(c, h).groupKeys, g); n in keys && c.parseGroupKeys(keys[n].body).Malformed?
    ensures var o := Step(c, StateAfter(c, h), m, now).1; !(o.Released? && o.message.header.fromGroup == Some(g))
  {
    hide Step, StateAfter, Sound, VouchedQuorum, MergeOrMatch, ValuesOf, AllVerified, MessagesWith, ResponsesWith;
    var s := StateAfter(c, h);
    var o := Step(c, s, m, now).1;
    if o.Released? && o.message.header.fromGroup == Some(g) {
      GroupReleaseComesFrom(c, h, m, now);
      EveryGroupReleaseIsVouched(c, h, m, now, o.message, g);
      ReachableIsSound(c, h);
      SoundNames(Received(h), s);
      BlockedStep(c, s, m, now, g, n);
    }
  }

  lemma BlockedStep(c: Crypto, s: State, m: Message, now: int, g: Address, n: Address)
    requires DistinctNames(s.groupKeys) && m.header.fromGroup == Some(g) && m.tag != GetClientKeyResponse
    requires n in ValuesOf(s.groupKeys, g) && c.parseGroupKeys(ValuesOf(s.groupKeys, g)[n].body).Malformed?
    ensures !Step(c, s, m, now).1.Released?
  {
    hide Collect, Without, DecideGroup, Has, DistinctNames, ValuesOf;
    var key := (g, m.header.messageId);
    if m.tag == GetGroupKeyResponse {
      CollectSlots(s.groupKeys, g, m, now);
      MalformedDecides(c, ValuesOf(s.groupMessages, key), ValuesOf(Collect(s.groupKeys, g, m, now), g), n);
    } else {
      MalformedDecides(c, ValuesOf(Collect(s.groupMessages, key, m, now), key), ValuesOf(s.groupKeys, g), n);
    }
  }

  lemma SoundNames(received: set<Message>, s: State)
    requires Sound(received, s)
    ensures DistinctNames(s.groupKeys)
  {
    hide DistinctNames;
  }

  lemma MalformedDecides(c: Crypto, messages: map<Address, Message>, keys: map<Address, Message>, n: Address)
    requires n in keys && c.parseGroupKeys(keys[n].body).Malformed?
    ensures !DecideGroup(c, messages, keys).Released?
  {
    var rs, order := InOrder(keys), Ascending(keys.Keys);
    AscendingVisitsEachOnce(keys.Keys);
    assert n in order;
    var i :| 0 <= i < |order| && order[i] == n;
    assert rs[i] == keys[n];
    OneMalformed(c, rs, i);
    hide InOrder, CollectGroupKeys, FilterGroup, CountBody, Ascending;
  }

  lemma {:induction false} OneMalformed(c: Crypto, rs: seq<Message>, i: nat)
    requires i < |rs| && c.parseGroupKeys(rs[i].body).Malformed?
    ensures CollectGroupKeys(c, rs).Malformed?
    decreases |rs|
  {
    if i < |rs| - 1 { OneMalformed(c, rs[..|rs| - 1], i); }
  }

  /** A held response stays, whatever is received, until the responses of its group expire together. */
  lemma HeldKeyStays(c: Crypto, h: seq<Event>, m: Message, now: int, g: Address, n: Address)
    requires n in ValuesOf(StateAfter(c, h).groupKeys, g)
    ensures var s := StateAfter(c, h);
      var before, after := ValuesOf(s.groupKeys, g), ValuesOf(Step(c, s, m, now).0.groupKeys, g);
      if n in after then after[n] == before[n]
      else ExpiredName(s.groupKeys, g, now)
  {
    var s := StateAfter(c, h);
    ReachableIsSound(c, h);
    hide StateAfter, Collect, Without, DecideGroup, DecideNode, HeldFor, NodeHeldFor, KeysFor, ClientKeysFor;
    hide DistinctNames;
    if m.tag == GetGroupKeyResponse && m.header.fromGroup.Some? {
      CollectValues(s.groupKeys, m.header.fromGroup.value, m, now, g);
    }
  }

  // ----- Keys without messages

  /** The keys listed for a group grow exactly by a key response in the group's name from a node that
      has not responded yet... */
  lemma KeysGrowIff(c: Crypto, h: seq<Event>, m: Message, now: int, g: Address)
    ensures var s := StateAfter(c, h);
      var before, after := ValuesOf(s.groupKeys, g), ValuesOf(Step(c, s, m, now).0.groupKeys, g);
      && (!(after.Keys <= before.Keys) <==>
            m.tag == GetGroupKeyResponse && m.header.fromGroup == Some(g) && m.header.fromNode !in before)
      && (m.tag == GetGroupKeyResponse && m.header.fromGroup == Some(g) ==>
            after == InsertFirst(before, m.header.fromNode, m))
  {
    var s := StateAfter(c, h);
    ReachableIsSound(c, h);
    hide StateAfter, Collect, Without, DecideGroup, DecideNode, HeldFor, NodeHeldFor, KeysFor, ClientKeysFor;
    hide DistinctNames;
    if m.tag == GetGroupKeyResponse && m.header.fromGroup.Some? {
      CollectValues(s.groupKeys, m.header.fromGroup.value, m, now, g);
    }
  }

  ghost predicate ExpiredName<N, V>(s: seq<Slot<N, V>>, name: N, now: int) {
    Has(s, name) && Expired(Lookup(s, name), TIME_TO_LIVE, now)
  }

  lemma CollectValues<N(!new)>(s: seq<Slot<N, Message>>, name: N, m: Message, now: int, other: N)
    requires DistinctNames(s)
    ensures var after := ValuesOf(Collect(s, name, m, now), other);
      if other == name then after == InsertFirst(ValuesOf(s, name), m.header.fromNode, m)
      else after == ValuesOf(s, other) || (after == map[] && ExpiredName(s, other, now))
  {
    AccumulateMembers(s, name, m, m.header.fromNode, TIME_TO_LIVE, now);
    CollectSlots(s, name, m, now);
    var t := Collect(s, name, m, now);
    hide Accumulate, DistinctNames, Lookup;
    if other != name {
      if Has(t, other) {
        LookupIs(s, Lookup(t, other));
      } else if Has(s, other) && Lookup(s, other) in t {
        LookupIs(t, Lookup(s, other));
      }
    }
  }

  /** ...whatever messages are waiting. */
  lemma KeysIgnoreMessages(c: Crypto, s: State, m: Message, now: int, waiting: seq<Slot<Key, Message>>)
    ensures Step(c, s.(groupMessages := waiting), m, now).0.groupKeys == Step(c, s, m, now).0.groupKeys
  {
    hide Collect, Without, DecideGroup, DecideNode, ValuesOf, Has;
  }

  // ----- Key requests

  /** Whatever waits for keys, those keys have been asked for. */
  ghost predicate KeysRequested(s: State) {
    && (forall slot :: slot in s.groupMessages ==> GetGroupKey(slot.name.0) in s.requests)
    && (forall slot :: slot in s.nodeMessages ==> GetClientKey(slot.name.0) in s.requests)
  }

  lemma HeldNameHasSlot<N(!new)>(s: seq<Slot<N, Message>>, name: N)
    requires Has(s, name)
    ensures exists slot :: slot in s && slot.name == name
  {
    assert Lookup(s, name) in s;
  }

  lemma {:induction false} ReachableHasRequestedKeys(c: Crypto, h: seq<Event>)
    ensures KeysRequested(StateAfter(c, h))
  {
    if h != [] {
      var init, m, now := h[..|h| - 1], h[|h| - 1].message, h[|h| - 1].now;
      ReachableHasRequestedKeys(c, init);
      ReachableIsSound(c, init);
      var s := StateAfter(c, init);
      hide StateAfter, Collect, Without, ValuesOf, Has, DecideGroup, DecideNode, DistinctNames, HeldFor, NodeHeldFor;
      hide KeysFor, ClientKeysFor;
      StepRequests(c, s, m, now);
      assert StateAfter(c, h) == Step(c, s, m, now).0 by { AfterIsStep(c, h); }
    }
  }

  lemma AfterIsStep(c: Crypto, h: seq<Event>)
    requires h != []
    ensures StateAfter(c, h) == Step(c, StateAfter(c, h[..|h| - 1]), h[|h| - 1].message, h[|h| - 1].now).0
  {
    hide Step;
  }

  lemma StepRequests(c: Crypto, s: State, m: Message, now: int)
    requires KeysRequested(s) && DistinctNames(s.groupMessages) && DistinctNames(s.nodeMessages)
    ensures KeysRequested(Step(c, s, m, now).0)
  {
    hide Collect, Without, ValuesOf, Has, DecideGroup, DecideNode, DistinctNames;
    if IsKeyTag(m.tag) {
      if m.header.fromGroup.Some? {
        var key := (m.header.fromGroup.value, m.header.messageId);
        WithoutMembers(s.groupMessages, key);
        WithoutMembers(s.nodeMessages, key);
      }
    } else if m.header.fromGroup.Some? {
      var key := (m.header.fromGroup.value, m.header.messageId);
      CollectSlots(s.groupMessages, key, m, now);
      WithoutMembers(Collect(s.groupMessages, key, m, now), key);
      if Has(s.groupMessages, key) { HeldNameHasSlot(s.groupMessages, key); }
    } else {
      var key := (m.header.fromNode, m.header.messageId);
      CollectSlots(s.nodeMessages, key, m, now);
      WithoutMembers(Collect(s.nodeMessages, key, m, now), key);
      if Has(s.nodeMessages, key) { HeldNameHasSlot(s.nodeMessages, key); }
    }
  }

  // ----- Single-node releases

  /** Each of `responders`, at least a quorum, sent a response about `g` that parses. */
  ghost predicate ClientQuorum(c: Crypto, received: set<Message>, g: Address, responders: set<Address>) {
    && |responders| >= QUORUM_SIZE
    && forall n :: n in responders ==>
         exists r :: r in received && r.header.fromNode == n && r.header.fromGroup == Some(g) &&
           r.tag == GetClientKeyResponse && c.parseClientKey(r.body).Parsed?
  }

  /** Only a client key response releases a message that came from a single node. */
  lemma NodeReleaseComesFrom(c: Crypto, h: seq<Event>, m: Message, now: int)
    requires var o := Step(c, StateAfter(c, h), m, now).1; o.Released? && o.message.header.fromGroup.None?
    ensures m.tag == GetClientKeyResponse && m.header.fromGroup.Some?
  {
    var s, all := StateAfter(c, h), Received(h) + {m};
    ReachableIsSound(c, h);
    SoundGrows(Received(h), all, s);
    hide StateAfter, Sound, Collect, Without, DecideGroup, DecideNode, ValuesOf, Has;
    if m.tag != GetClientKeyResponse {
      if m.header.fromGroup.None? {
        if !IsKeyTag(m.tag) { NodeMessageIsNotReleasedOnArrival(c, h, m, now); }
      } else {
        var g := m.header.fromGroup.value;
        var key := (g, m.header.messageId);
        if m.tag == GetGroupKeyResponse {
          GroupOutcomeIsOfGroup(c, Received(h), s, key, ValuesOf(Collect(s.groupKeys, g, m, now), g));
        } else {
          CollectGroupMessageIsSound(all, s, m, now);
          var s' := s.(groupMessages := Collect(s.groupMessages, key, m, now));
          GroupOutcomeIsOfGroup(c, all, s', key, ValuesOf(s.groupKeys, g));
        }
      }
    }
  }

  /** A single-node result is released only by a client key response for its node and id, once a
      quorum of distinct responders exists, and its signature checks under a valid key. */
  lemma NodeReleaseIsBacked(c: Crypto, h: seq<Event>, m: Message, now: int, r: Message)
    requires Step(c, StateAfter(c, h), m, now).1 == Released(r) && r.header.fromGroup.None?
    ensures m.tag == GetClientKeyResponse
    ensures m.header.fromGroup == Some(r.header.fromNode) && m.header.messageId == r.header.messageId
    ensures r in Received(h)
    ensures exists responders :: ClientQuorum(c, Received(h) + {m}, r.header.fromNode, responders)
    ensures exists x, a, key :: x in Received(h) + {m} && Names(c, x, r.header.fromNode, a, key) &&
                                c.validKey(key) && SignedUnder(c, r, key)
  {
    var s, all := StateAfter(c, h), Received(h) + {m};
    NodeReleaseComesFrom(c, h, m, now);
    ReachableIsSound(c, h);
    SoundGrows(Received(h), all, s);
    hide StateAfter, Sound, DecideNode, Without, Collect, SignedUnder;
    var g := m.header.fromGroup.value;
    var key := (g, m.header.messageId);
    CollectClientKeyIsSound(all, s, m, now);
    var s' := s.(nodeKeys := Collect(s.nodeKeys, g, m, now));
    NodeValuesAreHeld(Received(h), s, key);
    ClientKeysAreHeld(all, s', g);
    var keys := ValuesOf(s'.nodeKeys, g);
    NodeReleaseIsHeld(c, ValuesOf(s.nodeMessages, key), keys);
    ChosenKeyIsNamed(c, all, g, keys);
    NamedIffAllNamed(c, keys);
    hide ValuesOf, ChosenKey, CollectClientKeys, InOrder;
    assert |keys.Keys| == |keys|;
    assert ClientQuorum(c, all, g, keys.Keys);
  }

  /** With agreeing responders, a client key response releases exactly when a quorum has responded,
      the message is waiting and its signature checks under the agreed key; the message released is
      the one waiting. */
  lemma NodeReleasedIff(c: Crypto, h: seq<Event>, m: Message, now: int, g: Address, a: Address, key: PublicKey)
    requires m.tag == GetClientKeyResponse && m.header.fromGroup == Some(g)
    requires var keys := ValuesOf(Collect(StateAfter(c, h).nodeKeys, g, m, now), g);
      forall n :: n in keys ==> c.parseClientKey(keys[n].body) == Parsed(ClientKey(a, key))
    ensures var s := StateAfter(c, h);
      var waiting := ValuesOf(s.nodeMessages, (g, m.header.messageId));
      && waiting.Keys <= {g}
      && (Step(c, s, m, now).1.Released? <==>
            && |ValuesOf(Collect(s.nodeKeys, g, m, now), g)| >= QUORUM_SIZE
            && g in waiting && c.validKey(key) && SignedUnder(c, waiting[g], key))
      && (Step(c, s, m, now).1.Released? ==> Step(c, s, m, now).1.message == waiting[g])
  {
    hide StateAfter, Collect, Sound, Without, DecideNode, CollectClientKeys, ChosenKey, SignedUnder, InOrder, Lookup;
    var s := StateAfter(c, h);
    var keys := ValuesOf(Collect(s.nodeKeys, g, m, now), g);
    var waiting := ValuesOf(s.nodeMessages, (g, m.header.messageId));
    ReachableIsSound(c, h);
    SoundGrows(Received(h), Received(h) + {m}, s);
    CollectClientKeyIsSound(Received(h) + {m}, s, m, now);
    ClientKeysAreHeld(Received(h) + {m}, s.(nodeKeys := Collect(s.nodeKeys, g, m, now)), g);
    if Has(s.nodeMessages, (g, m.header.messageId)) {
      NodeValuesAreHeld(Received(h), s, (g, m.header.messageId));
      assert waiting.Keys == {g} && |waiting.Keys| == |waiting| == 1;
      if |keys| >= QUORUM_SIZE {
        InOrderMembers(keys);
        AgreedKeyIsChosen(c, InOrder(keys), a, key);
        DecideOne(c, waiting, keys, g, key);
      }
    }
  }

  lemma DecideOne(c: Crypto, waiting: map<Address, Message>, keys: map<Address, Message>, g: Address, key: PublicKey)
    requires waiting.Keys == {g} && waiting[g].header.fromNode == g && |keys| >= QUORUM_SIZE
    requires var listed := CollectClientKeys(c, InOrder(keys)); listed.Parsed? && ChosenKey(listed.value) == Some(key)
    ensures DecideNode(c, waiting, keys) ==
      if c.validKey(key) && SignedUnder(c, waiting[g], key) then Released(waiting[g]) else Nothing
  {
    assert |waiting.Keys| == |waiting| == 1;
    InOrderMembers(waiting);
    hide CollectClientKeys, InOrder, ChosenKey, SignedUnder;
    var v := InOrder(waiting);
    assert v[0] in v && v == [waiting[g]];
    assert v[..0] == [] && FilterSigned(c, key, v[..0]) == [];
  }

  /** `x` is a client key response for group `g` naming `key` as the key of `a`. */
  ghost predicate Names(c: Crypto, x: Message, g: Address, a: Address, key: PublicKey) {
    x.header.fromGroup == Some(g) && x.tag == GetClientKeyResponse &&
      c.parseClientKey(x.body) == Parsed(ClientKey(a, key))
  }

  lemma {:induction false} CollectedIsNamed(c: Crypto, rs: seq<Message>)
    requires CollectClientKeys(c, rs).Parsed?
    ensures var m := CollectClientKeys(c, rs).value;
      forall a, k :: a in m && k in m[a] ==> exists r :: r in rs && c.parseClientKey(r.body) == Parsed(ClientKey(a, k))
  {
    if rs != [] {
      var init, r := rs[..|rs| - 1], rs[|rs| - 1];
      CollectedIsNamed(c, init);
      var m, m' := CollectClientKeys(c, init).value, CollectClientKeys(c, rs).value;
      assert r in rs;
      forall a, k | a in m' && k in m'[a]
        ensures exists r :: r in rs && c.parseClientKey(r.body) == Parsed(ClientKey(a, k))
      {
        if a in m && k in m[a] {
          var r' :| r' in init && c.parseClientKey(r'.body) == Parsed(ClientKey(a, k));
          assert r' in rs;
        }
      }
    }
  }

  ghost predicate AllNamed(c: Crypto, keys: map<Address, Message>) {
    forall n :: n in keys ==> c.parseClientKey(keys[n].body).Parsed?
  }

  lemma NamedIffAllNamed(c: Crypto, keys: map<Address, Message>)
    ensures CollectClientKeys(c, InOrder(keys)).Parsed? <==> AllNamed(c, keys)
  {
    var rs, order := InOrder(keys), Ascending(keys.Keys);
    AscendingVisitsEachOnce(keys.Keys);
    hide Ascending, CollectClientKeys, LexLess;
    if AllNamed(c, keys) {
      forall i | 0 <= i < |rs| ensures c.parseClientKey(rs[i].body).Parsed? {
        assert order[i] in keys && rs[i] == keys[order[i]];
      }
      CollectsIff(c, rs);
    } else {
      var n :| n in keys && c.parseClientKey(keys[n].body).Malformed?;
      var i :| 0 <= i < |order| && order[i] == n;
      assert rs[i] == keys[n];
      CollectsIff(c, rs);
    }
  }

  lemma {:induction false} CollectsIff(c: Crypto, rs: seq<Message>)
    ensures CollectClientKeys(c, rs).Parsed? <==> forall i :: 0 <= i < |rs| ==> c.parseClientKey(rs[i].body).Parsed?
  {
    if rs != [] { CollectsIff(c, rs[..|rs| - 1]); }
  }

  lemma ChosenKeyIsNamed(c: Crypto, received: set<Message>, g: Address, keys: map<Address, Message>)
    requires ClientKeysFor(received, g, keys) && CollectClientKeys(c, InOrder(keys)).Parsed?
    requires ChosenKey(CollectClientKeys(c, InOrder(keys)).value).Some?
    ensures exists x, a ::
      x in received && Names(c, x, g, a, ChosenKey(CollectClientKeys(c, InOrder(keys)).value).value)
  {
    var rs := InOrder(keys);
    InOrderMembers(keys);
    CollectedIsNamed(c, rs);
    var listed := CollectClientKeys(c, rs).value;
    AscendingVisitsEachOnce(listed.Keys);
    hide InOrder, CollectClientKeys, Ascending;
    var a := Ascending(listed.Keys)[0];
    assert a in Ascending(listed.Keys);
    var key := listed[a][0];
    assert a in listed && key in listed[a];
    var x :| x in rs && c.parseClientKey(x.body) == Parsed(ClientKey(a, key));
    assert x in received && Names(c, x, g, a, key);
  }

  /** When all responses name the same client and key, that key is the one messages are checked
      against. */
  lemma {:induction false} AgreedKeyIsChosen(c: Crypto, rs: seq<Message>, a: Address, key: PublicKey)
    requires rs != [] && forall r :: r in rs ==> c.parseClientKey(r.body) == Parsed(ClientKey(a, key))
    ensures CollectClientKeys(c, rs) == Parsed(map[a := [key]])
    ensures ChosenKey(map[a := [key]]) == Some(key)
  {
    var init := rs[..|rs| - 1];
    assert rs[|rs| - 1] in rs;
    if init == [] {
      assert CollectClientKeys(c, init) == Parsed(map[]);
    } else {
      AgreedKeyIsChosen(c, init, a, key);
    }
    var listed: KeysMap := map[a := [key]];
    assert listed.Keys == {a};
    AscendingVisitsEachOnce(listed.Keys);
    assert Ascending({a})[0] in Ascending({a});
  }

  // ----- Agreement

  ghost predicate Equivocates(received: set<Message>, n: Address, g: Address, id: MessageId) {
    exists m, m' :: m in received && m' in received && Submits(m, n, g, id, m.body) &&
      Submits(m', n, g, id, m'.body) && m.body != m'.body
  }

  lemma IntersectionSize(a: set<Address>, b: set<Address>, members: set<Address>)
    requires a <= members && b <= members
    ensures |a * b| >= |a| + |b| - |members|
  {
    assert |a + b| == |a| + |b| - |a * b|;
    SubsetSize(a + b, members);
  }

  lemma {:induction false} SubsetSize(a: set<Address>, b: set<Address>)
    requires a <= b
    ensures |a| <= |b|
  {
    if a != {} {
      var x :| x in a;
      SubsetSize(a - {x}, b - {x});
    }
  }

  /** Two bodies backed for the same group and id, in one sentinel or two, are equal when the
      senders lie in one group and too few of them equivocate. */
  lemma QuorumsAgree(
    c: Crypto, c': Crypto, received: set<Message>, received': set<Message>, g: Address, id: MessageId, body: Bytes,
      body': Bytes,
    senders: set<Address>, responders: set<Address>, senders': set<Address>, responders': set<Address>,
    members: set<Address>, faulty: set<Address>)
    requires Backing(c, received, g, id, body, senders, responders)
    requires Backing(c', received', g, id, body', senders', responders')
    requires |members| <= GROUP_SIZE && |faulty| < 2 * QUORUM_SIZE - GROUP_SIZE
    requires forall m :: m in received + received' && Submits(m, m.header.fromNode, g, id, m.body) ==>
      m.header.fromNode in members
    requires forall n :: Equivocates(received + received', n, g, id) ==> n in faulty
    ensures body == body'
  {
    hide Vouched;
    forall n | n in senders ensures n in members {
      var m :| m in received && Submits(m, n, g, id, body);
      assert m in received + received';
    }
    forall n | n in senders' ensures n in members {
      var m :| m in received' && Submits(m, n, g, id, body');
      assert m in received + received';
    }
    IntersectionSize(senders, senders', members);
    var both := senders * senders';
    if both <= faulty { SubsetSize(both, faulty); }
    assert exists n :: n in both && n !in faulty;
    var n :| n in both && n !in faulty;
    var m :| m in received && Submits(m, n, g, id, body);
    var m' :| m' in received' && Submits(m', n, g, id, body');
    assert m in received + received' && m' in received + received';
    assert body != body' ==> Equivocates(received + received', n, g, id);
  }

  /** Agreement: exact-match results for the same group and id, at different times or from two
      sentinels, have equal bodies. */
  lemma ReleasesAgree(
    c: Crypto, h: seq<Event>, m: Message, now: int, r: Message,
    c': Crypto, h': seq<Event>, m': Message, now': int, r': Message,
    g: Address, members: set<Address>, faulty: set<Address>)
    requires Step(c, StateAfter(c, h), m, now).1 == Released(r)
    requires Step(c', StateAfter(c', h'), m', now').1 == Released(r')
    requires r.header.fromGroup == r'.header.fromGroup == Some(g) && r.header.messageId == r'.header.messageId
    requires r.tag != AccountTransfer && r'.tag != AccountTransfer
    requires |members| <= GROUP_SIZE && |faulty| < 2 * QUORUM_SIZE - GROUP_SIZE
    requires forall x ::
      x in Received(h) + {m} + (Received(h') + {m'}) && Submits(x, x.header.fromNode, g, r.header.messageId, x.body) ==>
      x.header.fromNode in members
    requires forall n :: Equivocates(Received(h) + {m} + (Received(h') + {m'}), n, g, r.header.messageId) ==>
      n in faulty
    ensures r.body == r'.body
  {
    hide Step, StateAfter, Received, Backing, Equivocates, Submits;
    GroupReleaseIsBacked(c, h, m, now, r, g);
    GroupReleaseIsBacked(c', h', m', now', r', g);
    var received, received', id := Received(h) + {m}, Received(h') + {m'}, r.header.messageId;
    var senders, responders :| Backing(c, received, g, id, r.body, senders, responders);
    var senders', responders' :| Backing(c', received', g, id, r'.body, senders', responders');
    QuorumsAgree(c, c', received, received', g, id, r.body, r'.body, senders, responders, senders', responders',
      members, faulty);
  }

  lemma {:induction false} TwoBodiesShare(v: seq<Message>, b: Bytes, b': Bytes)
    requires b != b'
    ensures CountBody(v, b) + CountBody(v, b') <= |v|
  {
    if v != [] { TwoBodiesShare(v[..|v| - 1], b, b'); }
  }

  /** Within one decision on fewer than two quorums of messages, at most one body can win. */
  lemma OneBodyWins(v: seq<Message>, b: Bytes, b': Bytes)
    requires |v| < 2 * QUORUM_SIZE && CountBody(v, b) >= QUORUM_SIZE && CountBody(v, b') >= QUORUM_SIZE
    ensures b == b'
  {
    if b != b' { TwoBodiesShare(v, b, b'); }
  }
}
