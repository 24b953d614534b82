/** The sentinel's two decisions and its step, each described without the functions that compute
    it, and what follows for every run: what is released, what stays, and which keys are asked for. */
module SentinelLaws {
  import opened Types
  import opened Xor
  import opened Accumulator
  import opened AccumulatorRuns
  import opened Sentinel
  import opened SentinelSafety

  // ----- The group decision

  ghost predicate QuorumBody(v: seq<Message>, body: Bytes) {
    |SendersOf(v, body)| >= 19
  }

  /** The message at `i` is the first of `v` whose body a quorum of nodes sent. */
  ghost predicate FirstQuorumAt(v: seq<Message>, i: nat) {
    i < |v| && QuorumBody(v, v[i].body) && forall j :: 0 <= j < i ==> !QuorumBody(v, v[j].body)
  }

  /** What verified messages come to: nothing short of a quorum; the merge of all their bodies under
      the first header if that first message is an account transfer; otherwise the first message
      whose body a quorum of nodes sent. */
  ghost predicate Resolves(c: Crypto, v: seq<Message>, o: Outcome) {
    if |v| < 19 then o == Nothing
    else if v[0].tag == AccountTransfer then
      match o
      case Thrown => Merged(c, v, Malformed)
      case Nothing => Merged(c, v, Parsed(None))
      case Released(r) => r == v[0].(body := r.body) && Merged(c, v, Parsed(Some(r.body)))
    else
      match o
      case Thrown => false
      case Nothing => forall i :: 0 <= i < |v| ==> !QuorumBody(v, v[i].body)
      case Released(r) => exists i: nat :: FirstQuorumAt(v, i) && v[i] == r
  }

  /** What messages and key responses come to: nothing without a quorum of each; an exception if a
      response does not parse; otherwise what all the messages that check come to. */
  ghost predicate GroupVerdict(c: Crypto, messages: map<Address, Message>, keys: map<Address, Message>, o: Outcome) {
    if |messages| < 19 || |keys| < 19 then o == Nothing
    else if !AllParse(c, keys) then o == Thrown
    else exists v :: AllVerified(c, messages, keys, v) && Resolves(c, v, o)
  }

  /** The group decision, in terms of nodes, listed keys and signatures only. */
  lemma GroupDecisionIs(c: Crypto, messages: map<Address, Message>, keys: map<Address, Message>)
    requires forall n :: n in messages ==> messages[n].header.fromNode == n
    ensures GroupVerdict(c, messages, keys, DecideGroup(c, messages, keys))
  {
    hide FilterGroup, CollectGroupKeys, InOrder, VerifiedMessages, AllVerified, AllParse, Resolves, ResolveGroup;
    ParsedIffAllParse(c, keys);
    DecideShort(c, messages, keys);
    if |messages| >= QUORUM_SIZE && |keys| >= QUORUM_SIZE && AllParse(c, keys) {
      VerifiedIsAll(c, messages, keys);
      DecideAll(c, messages, keys);
      VerifiedMembers(c, messages, keys);
      ResolvedIs(c, VerifiedMessages(c, messages, keys));
    }
  }

  function OutcomeOf(p: Parsed<Option<Message>>): Outcome {
    match p
    case Malformed => Thrown
    case Parsed(None) => Nothing
    case Parsed(Some(r)) => Released(r)
  }

  lemma DecideShort(c: Crypto, messages: map<Address, Message>, keys: map<Address, Message>)
    ensures |messages| < QUORUM_SIZE || |keys| < QUORUM_SIZE ==> DecideGroup(c, messages, keys) == Nothing
  {
  }

  lemma DecideAll(c: Crypto, messages: map<Address, Message>, keys: map<Address, Message>)
    requires |messages| >= QUORUM_SIZE && |keys| >= QUORUM_SIZE && CollectGroupKeys(c, InOrder(keys)).Parsed?
    ensures DecideGroup(c, messages, keys) == OutcomeOf(ResolveGroup(c, VerifiedMessages(c, messages, keys)))
  {
    hide FilterGroup, CollectGroupKeys, InOrder, FirstWithQuorum, Bodies;
  }

  lemma ResolvedIs(c: Crypto, v: seq<Message>)
    requires DistinctSenders(v)
    ensures Resolves(c, v, OutcomeOf(ResolveGroup(c, v)))
  {
    hide DistinctSenders, SendersOf, CountBody, Bodies, Merged;
    forall p ensures Merged(c, v, p) <==> c.mergeAccounts(Bodies(v)) == p { MergedIs(c, v, p); }
    forall body ensures QuorumBody(v, body) <==> CountBody(v, body) >= QUORUM_SIZE { CountIsSenders(v, body); }
    FirstIsFirst(v, 0);
  }

  lemma {:induction false} FirstIsFirst(v: seq<Message>, k: nat)
    requires k <= |v| && forall j :: 0 <= j < k ==> !QuorumBody(v, v[j].body)
    requires forall body :: QuorumBody(v, body) <==> CountBody(v, body) >= QUORUM_SIZE
    ensures var r := FirstWithQuorum(v, k);
      r.Some? ==> exists i: nat :: FirstQuorumAt(v, i) && v[i] == r.value
    decreases |v| - k
  {
    hide CountBody, QuorumBody;
    if k < |v| {
      if QuorumBody(v, v[k].body) {
        assert FirstQuorumAt(v, k);
      } else {
        FirstIsFirst(v, k + 1);
      }
    }
  }

  // ----- The decision on a single node

  ghost predicate NamesKey(c: Crypto, response: Message, a: Address, key: PublicKey) {
    c.parseClientKey(response.body) == Parsed(ClientKey(a, key))
  }

  /** `a` is the least address that a response names, and `r` the least responder that names it. */
  ghost predicate LeastNaming(c: Crypto, keys: map<Address, Message>, r: Address, a: Address, key: PublicKey) {
    && r in keys && NamesKey(c, keys[r], a, key)
    && (forall r', a': Address, k :: r' in keys && NamesKey(c, keys[r'], a', k) ==>
          if a' == a then r' == r || LexLess(r, r') else LexLess(a, a'))
  }

  /** `r` is the least of the senders whose message is signed with `key`. */
  ghost predicate LeastSigned(c: Crypto, messages: map<Address, Message>, key: PublicKey, r: Message) {
    && r.header.fromNode in messages && messages[r.header.fromNode] == r && HasSigned(c, r, key)
    && (forall n :: n in messages && HasSigned(c, messages[n], key) ==>
          n == r.header.fromNode || LexLess(r.header.fromNode, n))
  }

  /** What a node's messages and the responses about its key come to: nothing without a message or
      without a quorum of responses; an exception if a response does not parse; otherwise the least
      message signed with the named key, if that key is valid. */
  ghost predicate NodeVerdict(c: Crypto, messages: map<Address, Message>, keys: map<Address, Message>, o: Outcome) {
    if messages == map[] || |keys| < 19 then o == Nothing
    else if !AllNamed(c, keys) then o == Thrown
    else exists r, a, key :: LeastNaming(c, keys, r, a, key) && SignedVerdict(c, messages, key, o)
  }

  ghost predicate SignedVerdict(c: Crypto, messages: map<Address, Message>, key: PublicKey, o: Outcome) {
    match o
    case Thrown => false
    case Released(r) => c.validKey(key) && LeastSigned(c, messages, key, r)
    case Nothing => !c.validKey(key) || forall n :: n in messages ==> !HasSigned(c, messages[n], key)
  }

  lemma NodeDecisionIs(c: Crypto, messages: map<Address, Message>, keys: map<Address, Message>)
    requires forall n :: n in messages ==> messages[n].header.fromNode == n
    ensures NodeVerdict(c, messages, keys, DecideNode(c, messages, keys))
  {
    hide FilterSigned, CollectClientKeys, InOrder, AllNamed, LeastNaming, SignedVerdict, ChosenKey;
    NamedIffAllNamed(c, keys);
    if messages != map[] && |keys| >= QUORUM_SIZE && AllNamed(c, keys) {
      var listed := CollectClientKeys(c, InOrder(keys)).value;
      var r, a := ChosenIsLeastNaming(c, keys);
      var key := ChosenKey(listed).value;
      SignedIs(c, messages, key);
      assert LeastNaming(c, keys, r, a, key);
      assert SignedVerdict(c, messages, key, DecideNode(c, messages, keys));
    }
  }

  lemma SignedIs(c: Crypto, messages: map<Address, Message>, key: PublicKey)
    requires forall n :: n in messages ==> messages[n].header.fromNode == n
    ensures SignedVerdict(c, messages, key,
      var v := if c.validKey(key) then FilterSigned(c, key, InOrder(messages)) else [];
      if v == [] then Nothing else Released(v[0]))
  {
    InOrderMembers(messages);
    InOrderAscends(messages);
    FilterSignedMembers(c, key, InOrder(messages));
    FilterSignedAscends(c, key, InOrder(messages));
    forall m ensures SignedUnder(c, m, key) <==> HasSigned(c, m, key) {
    }
    hide InOrder, FilterSigned, SignedUnder, HasSigned, DistinctSenders, LexLess;
    var v := FilterSigned(c, key, InOrder(messages));
    forall n | n in messages && HasSigned(c, messages[n], key)
      ensures v != [] && (n == v[0].header.fromNode || LexLess(v[0].header.fromNode, n))
    {
      assert messages[n] in v;
      var i :| 0 <= i < |v| && v[i] == messages[n];
    }
    if v != [] { assert v[0] in v; }
  }

  lemma {:induction false} FilterSignedAscends(c: Crypto, key: PublicKey, s: seq<Message>)
    requires AscendingSenders(s)
    ensures AscendingSenders(FilterSigned(c, key, s))
  {
    hide SignedUnder, LexLess;
    if s != [] {
      var init, m := s[..|s| - 1], s[|s| - 1];
      FilterSignedAscends(c, key, init);
      FilterSignedMembers(c, key, init);
      var f := FilterSigned(c, key, init);
      forall i | 0 <= i < |f| ensures LexLess(f[i].header.fromNode, m.header.fromNode) {
        assert f[i] in init;
        var j :| 0 <= j < |init| && init[j] == f[i];
        assert s[j] == f[i];
      }
    }
  }

  /** The first of the responses to name `a` is the i-th, and it names `key`. */
  ghost predicate FirstNamedAt(c: Crypto, rs: seq<Message>, a: Address, i: nat, key: PublicKey) {
    i < |rs| && NamesKey(c, rs[i], a, key) && forall j, k :: 0 <= j < i ==> !NamesKey(c, rs[j], a, k)
  }

  lemma {:induction false} FirstNamedKey(c: Crypto, rs: seq<Message>, a: Address) returns (i: nat)
    requires CollectClientKeys(c, rs).Parsed?
    ensures var m := CollectClientKeys(c, rs).value;
      if a in m then m[a] != [] && FirstNamedAt(c, rs, a, i, m[a][0])
      else forall j, k :: 0 <= j < |rs| ==> !NamesKey(c, rs[j], a, k)
  {
    i := 0;
    if rs != [] {
      var init, r := rs[..|rs| - 1], rs[|rs| - 1];
      i := FirstNamedKey(c, init, a);
      var m, k := CollectClientKeys(c, init).value, c.parseClientKey(r.body).value;
      assert CollectClientKeys(c, rs).value == ListKey(m, k.address, k.key);
      if a !in m && k.address == a { i := |rs| - 1; }
    }
  }

  lemma ChosenIsLeastNaming(c: Crypto, keys: map<Address, Message>) returns (r: Address, a: Address)
    requires |keys| > 0 && CollectClientKeys(c, InOrder(keys)).Parsed?
    ensures var chosen := ChosenKey(CollectClientKeys(c, InOrder(keys)).value);
      chosen.Some? && LeastNaming(c, keys, r, a, chosen.value)
  {
    var rs, order := InOrder(keys), Ascending(keys.Keys);
    var listed := CollectClientKeys(c, rs).value;
    AscendingVisitsEachOnce(keys.Keys);
    AscendingVisitsEachOnce(listed.Keys);
    NamedIffAllNamed(c, keys);
    var k := c.parseClientKey(rs[0].body).value;
    assert order[0] in keys && rs[0] == keys[order[0]] && NamesKey(c, rs[0], k.address, k.key);
    var _ := FirstNamedKey(c, rs, k.address);
    assert k.address in listed && |listed| > 0;
    a := Ascending(listed.Keys)[0];
    assert a in Ascending(listed.Keys);
    var i := FirstNamedKey(c, rs, a);
    r := order[i];
    LeastNamingAt(c, keys, i, a, listed[a][0]);
  }

  lemma LeastNamingAt(c: Crypto, keys: map<Address, Message>, i: nat, a: Address, key: PublicKey)
    requires CollectClientKeys(c, InOrder(keys)).Parsed? && FirstNamedAt(c, InOrder(keys), a, i, key)
    requires var listed := CollectClientKeys(c, InOrder(keys)).value; |listed| > 0 && a == Ascending(listed.Keys)[0]
    ensures LeastNaming(c, keys, Ascending(keys.Keys)[i], a, key)
  {
    var rs, order := InOrder(keys), Ascending(keys.Keys);
    var listed := CollectClientKeys(c, rs).value;
    AscendingVisitsEachOnce(keys.Keys);
    AscendingVisitsEachOnce(listed.Keys);
    hide Ascending, CollectClientKeys, LexLess, NamesKey;
    var least := Ascending(listed.Keys);
    forall r', a': Address, k | r' in keys && NamesKey(c, keys[r'], a', k)
      ensures if a' == a then r' == order[i] || LexLess(order[i], r') else LexLess(a, a')
    {
      var j :| 0 <= j < |order| && order[j] == r';
      assert rs[j] == keys[r'];
      if a' != a {
        var _ := FirstNamedKey(c, rs, a');
        assert a' in least;
      }
    }
  }

  // ----- What a step keeps

  ghost predicate IsGroupMessage(m: Message, g: Address, id: MessageId) {
    !IsKeyTag(m.tag) && m.header.fromGroup == Some(g) && m.header.messageId == id
  }

  ghost predicate IsNodeMessage(m: Message, n: Address, id: MessageId) {
    !IsKeyTag(m.tag) && m.header.fromGroup == None && m.header.fromNode == n && m.header.messageId == id
  }

  ghost predicate ReleasesGroup(o: Outcome, g: Address, id: MessageId) {
    o.Released? && o.message.header.fromGroup == Some(g) && o.message.header.messageId == id
  }

  ghost predicate ReleasesNode(o: Outcome, n: Address, id: MessageId) {
    o.Released? && o.message.header.fromGroup == None && o.message.header.fromNode == n &&
      o.message.header.messageId == id
  }

  ghost function WithFirst(held: map<Address, Message>, m: Message): map<Address, Message> {
    if m.header.fromNode in held then held else held[m.header.fromNode := m]
  }

  /** `name` and every name used less recently are more than twenty minutes old. */
  ghost predicate Stale<N(!new)>(s: seq<Slot<N, Message>>, name: N, now: int) {
    exists i :: 0 <= i < |s| && s[i].name == name && forall j :: 0 <= j <= i ==> s[j].created + 20 * 60 * 1000 < now
  }

  /** `after` holds for `name` what `before` does. */
  ghost predicate SameFor<N(!new)>(before: seq<Slot<N, Message>>, after: seq<Slot<N, Message>>, name: N) {
    (Has(after, name) <==> Has(before, name)) && ValuesOf(after, name) == ValuesOf(before, name)
  }

  /** `after` is `before` with `m` filed under `filed`, as far as `name` is concerned: only creating a
      name drops others, and only stale ones. */
  ghost predicate FiledFor<N(!new)>(
    before: seq<Slot<N, Message>>, after: seq<Slot<N, Message>>, filed: N, m: Message, now: int, name: N)
  {
    if name == filed then Has(after, name) && ValuesOf(after, name) == WithFirst(ValuesOf(before, name), m)
    else if !Has(before, filed) && Stale(before, name, now) then !Has(after, name)
    else SameFor(before, after, name)
  }

  lemma CollectFiles<N(!new)>(s: seq<Slot<N, Message>>, filed: N, m: Message, now: int, name: N)
    requires DistinctNames(s)
    ensures FiledFor(s, Collect(s, filed, m, now), filed, m, now, name)
  {
    var t := Collect(s, filed, m, now);
    CollectSlots(s, filed, m, now);
    if name != filed {
      if Has(s, filed) {
        WithoutIs(s, filed, name);
        LastIsOther(Without(s, filed), t[|t| - 1], name);
      } else {
        PurgeIs(s, now, name);
        LastIsOther(Purge(s, TIME_TO_LIVE, now), t[|t| - 1], name);
      }
    }
  }

  lemma {:induction false} LastIsOther<N(!new)>(s: seq<Slot<N, Message>>, last: Slot<N, Message>, name: N)
    requires last.name != name
    ensures SameFor(s, s + [last], name)
  {
    if s != [] {
      assert (s + [last])[1..] == s[1..] + [last];
      LastIsOther(s[1..], last, name);
      HasTail(s, name);
      HasTail(s + [last], name);
    }
  }

  lemma HasTail<N(!new)>(s: seq<Slot<N, Message>>, name: N)
    requires s != []
    ensures Has(s, name) <==> s[0].name == name || Has(s[1..], name)
  {
    if Has(s, name) && s[0].name != name {
      var i :| 0 <= i < |s| && s[i].name == name;
      assert s[1..][i - 1].name == name;
    }
  }

  lemma {:induction false} WithoutIs<N(!new)>(s: seq<Slot<N, Message>>, gone: N, name: N)
    requires DistinctNames(s)
    ensures if name == gone then !Has(Without(s, gone), name) else SameFor(s, Without(s, gone), name)
  {
    WithoutMembers(s, gone);
    hide Without, Has, Lookup, DistinctNames;
    var t := Without(s, gone);
    if Has(t, name) {
      LookupIs(s, Lookup(t, name));
    } else if Has(s, name) && name != gone {
      LookupIs(t, Lookup(s, name));
    }
  }

  lemma PurgeIs<N(!new)>(s: seq<Slot<N, Message>>, now: int, name: N)
    requires DistinctNames(s)
    ensures var t := Purge(s, TIME_TO_LIVE, now);
      if Stale(s, name, now) then !Has(t, name) else SameFor(s, t, name)
  {
    hide Purge, Lookup, ValuesOf, DistinctNames;
    var k := PurgeIsLongestExpiredPrefix(s, TIME_TO_LIVE, now);
    if i :| 0 <= i < |s| && s[i].name == name {
      SuffixFor(s, k, i);
      OneStale(s, now, i);
      assert s[i].name == name;
    } else {
      SuffixAbsent(s, k, name);
    }
  }

  lemma OneStale<N(!new)>(s: seq<Slot<N, Message>>, now: int, i: nat)
    requires DistinctNames(s) && i < |s|
    ensures Stale(s, s[i].name, now) <==> forall j :: 0 <= j <= i ==> s[j].created + 20 * 60 * 1000 < now
  {
  }

  /** What a suffix of the slots holds for the name at `i`: nothing if it starts later. */
  lemma SuffixFor<N(!new)>(s: seq<Slot<N, Message>>, k: nat, i: nat)
    requires DistinctNames(s) && k <= |s| && i < |s|
    ensures if i < k then !Has(s[k..], s[i].name) else SameFor(s, s[k..], s[i].name)
  {
    hide Lookup;
    if i >= k {
      assert s[k..][i - k] == s[i];
      WithoutAt(s, i);
      SuffixDistinct(s, k);
      WithoutAt(s[k..], i - k);
    }
  }

  lemma SuffixAbsent<N(!new)>(s: seq<Slot<N, Message>>, k: nat, name: N)
    requires k <= |s| && forall i :: 0 <= i < |s| ==> s[i].name != name
    ensures SameFor(s, s[k..], name)
  {
    hide Lookup;
  }

  // ----- One step, store by store

  /** Whose message a release is: it carries the group or node, and the id, of the message that
      prompted it. */
  lemma WhoIsReleased(c: Crypto, h: seq<Event>, m: Message, now: int)
    requires Step(c, StateAfter(c, h), m, now).1.Released?
    ensures m.header.fromGroup.Some?
    ensures var o, g, id := Step(c, StateAfter(c, h), m, now).1, m.header.fromGroup.value, m.header.messageId;
      if m.tag == GetClientKeyResponse then ReleasesNode(o, g, id) else ReleasesGroup(o, g, id)
  {
    hide Step, StateAfter, Received, VouchedQuorum, MergeOrMatch, AllVerified, ClientQuorum;
    var o := Step(c, StateAfter(c, h), m, now).1;
    if o.message.header.fromGroup.None? {
      NodeReleaseComesFrom(c, h, m, now);
      NodeReleaseIsBacked(c, h, m, now, o.message);
    } else {
      GroupReleaseComesFrom(c, h, m, now);
      EveryGroupReleaseIsVouched(c, h, m, now, o.message, o.message.header.fromGroup.value);
    }
  }

  /** What waits under (g, id) after a step: nothing if the step released it; otherwise a message of
      the group with that id has joined, and anything else leaves it alone unless it was stale. */
  lemma GroupMessagesStep(c: Crypto, h: seq<Event>, m: Message, now: int, g: Address, id: MessageId)
    ensures var s := StateAfter(c, h);
      var before, after, o := s.groupMessages, Step(c, s, m, now).0.groupMessages, Step(c, s, m, now).1;
      if ReleasesGroup(o, g, id) then !Has(after, (g, id))
      else if !IsKeyTag(m.tag) && m.header.fromGroup.Some? then
        FiledFor(before, after, (m.header.fromGroup.value, m.header.messageId), m, now, (g, id))
      else SameFor(before, after, (g, id))
  {
    var s := StateAfter(c, h);
    ReachableIsSound(c, h);
    var o := Step(c, s, m, now).1;
    if o.Released? { WhoIsReleased(c, h, m, now); }
    hide StateAfter, Collect, Without, DecideGroup, DecideNode, HeldFor, NodeHeldFor, KeysFor, ClientKeysFor;
    hide DistinctNames, ValuesOf, Has, FiledFor, SameFor;
    SameAgain(s.groupMessages, (g, id));
    if m.header.fromGroup.Some? {
      var key := (m.header.fromGroup.value, m.header.messageId);
      if m.tag == GetGroupKeyResponse {
        WithoutIs(s.groupMessages, key, (g, id));
      } else if m.tag != GetClientKeyResponse {
        CollectFiles(s.groupMessages, key, m, now, (g, id));
        CollectSlots(s.groupMessages, key, m, now);
        WithoutIs(Collect(s.groupMessages, key, m, now), key, (g, id));
        FiledThenSame(s.groupMessages, Collect(s.groupMessages, key, m, now),
          Without(Collect(s.groupMessages, key, m, now), key), key, m, now, (g, id));
      }
    }
  }

  lemma SameAgain<N(!new)>(s: seq<Slot<N, Message>>, name: N)
    ensures SameFor(s, s, name)
  {
  }

  lemma FiledThenSame<N(!new)>(
    before: seq<Slot<N, Message>>, middle: seq<Slot<N, Message>>, after: seq<Slot<N, Message>>, filed: N, m: Message,
    now: int, name: N)
    requires FiledFor(before, middle, filed, m, now, name)
    ensures SameFor(middle, after, name) ==> FiledFor(before, after, filed, m, now, name)
  {
    hide Has, Stale;
  }

  /** The same for a single node: only a client key response releases, and only what waits. */
  lemma NodeMessagesStep(c: Crypto, h: seq<Event>, m: Message, now: int, n: Address, id: MessageId)
    ensures var s := StateAfter(c, h);
      var before, after, o := s.nodeMessages, Step(c, s, m, now).0.nodeMessages, Step(c, s, m, now).1;
      && (ReleasesNode(o, n, id) ==> n in ValuesOf(before, (n, id)) && o.message == ValuesOf(before, (n, id))[n])
      && if ReleasesNode(o, n, id) then !Has(after, (n, id))
         else if !IsKeyTag(m.tag) && m.header.fromGroup.None? then
           FiledFor(before, after, (m.header.fromNode, m.header.messageId), m, now, (n, id))
         else SameFor(before, after, (n, id))
  {
    var s := StateAfter(c, h);
    ReachableIsSound(c, h);
    var o := Step(c, s, m, now).1;
    if o.Released? {
      WhoIsReleased(c, h, m, now);
      if m.tag == GetClientKeyResponse { ReleasedWasWaiting(c, h, m, now); }
    }
    hide StateAfter, Collect, Without, DecideGroup, DecideNode, HeldFor, NodeHeldFor, KeysFor, ClientKeysFor;
    hide DistinctNames, ValuesOf, Has, FiledFor, SameFor;
    SameAgain(s.nodeMessages, (n, id));
    if m.tag == GetClientKeyResponse {
      if m.header.fromGroup.Some? {
        WithoutIs(s.nodeMessages, (m.header.fromGroup.value, m.header.messageId), (n, id));
      }
    } else if m.tag != GetGroupKeyResponse && m.header.fromGroup.None? {
      NodeMessageIsNotReleasedOnArrival(c, h, m, now);
      CollectFiles(s.nodeMessages, (m.header.fromNode, m.header.messageId), m, now, (n, id));
    }
  }

  lemma ReleasedWasWaiting(c: Crypto, h: seq<Event>, m: Message, now: int)
    requires m.tag == GetClientKeyResponse && Step(c, StateAfter(c, h), m, now).1.Released?
    ensures m.header.fromGroup.Some?
    ensures var s, g := StateAfter(c, h), m.header.fromGroup.value;
      var waiting := ValuesOf(s.nodeMessages, (g, m.header.messageId));
      waiting.Keys == {g} && Step(c, s, m, now).1.message == waiting[g]
  {
    var s := StateAfter(c, h);
    ReachableIsSound(c, h);
    hide StateAfter, Sound, Collect, Without, DecideNode;
    var g := m.header.fromGroup.value;
    var key := (g, m.header.messageId);
    NodeValuesAreHeld(Received(h), s, key);
    NodeReleaseIsHeld(c, ValuesOf(s.nodeMessages, key), ValuesOf(Collect(s.nodeKeys, g, m, now), g));
  }

  /** Key responses are filed under the group they speak for, whatever is released. */
  lemma KeysStep(c: Crypto, h: seq<Event>, m: Message, now: int, g: Address)
    ensures var s := StateAfter(c, h);
      var t := Step(c, s, m, now).0;
      && (if m.tag == GetGroupKeyResponse && m.header.fromGroup.Some?
          then FiledFor(s.groupKeys, t.groupKeys, m.header.fromGroup.value, m, now, g)
          else SameFor(s.groupKeys, t.groupKeys, g))
      && (if m.tag == GetClientKeyResponse && m.header.fromGroup.Some?
          then FiledFor(s.nodeKeys, t.nodeKeys, m.header.fromGroup.value, m, now, g)
          else SameFor(s.nodeKeys, t.nodeKeys, g))
  {
    var s := StateAfter(c, h);
    ReachableIsSound(c, h);
    hide StateAfter, Collect, Without, DecideGroup, DecideNode, HeldFor, NodeHeldFor, KeysFor, ClientKeysFor;
    hide DistinctNames, ValuesOf, Has, FiledFor, SameFor;
    SameAgain(s.groupKeys, g);
    SameAgain(s.nodeKeys, g);
    if m.header.fromGroup.Some? {
      CollectFiles(s.groupKeys, m.header.fromGroup.value, m, now, g);
      CollectFiles(s.nodeKeys, m.header.fromGroup.value, m, now, g);
    }
  }

  /** What a step comes to, in every reachable state: the decision on what is held for the group or
      node of the message, that message included; an exception, and no change, for a key response
      in no group's name; nothing for a message from a single node. */
  lemma StepIs(c: Crypto, h: seq<Event>, m: Message, now: int)
    ensures var s := StateAfter(c, h);
      var t, o := Step(c, s, m, now).0, Step(c, s, m, now).1;
      if m.header.fromGroup.None? then if IsKeyTag(m.tag) then o == Thrown && t == s else o == Nothing
      else
        var g, id := m.header.fromGroup.value, m.header.messageId;
        if m.tag == GetClientKeyResponse then
          NodeVerdict(c, ValuesOf(s.nodeMessages, (g, id)), WithFirst(ValuesOf(s.nodeKeys, g), m), o)
        else if m.tag == GetGroupKeyResponse then
          GroupVerdict(c, ValuesOf(s.groupMessages, (g, id)), WithFirst(ValuesOf(s.groupKeys, g), m), o)
        else
          GroupVerdict(c, WithFirst(ValuesOf(s.groupMessages, (g, id)), m), ValuesOf(s.groupKeys, g), o)
  {
    hide GroupVerdict, NodeVerdict;
    if m.header.fromGroup.None? {
      if !IsKeyTag(m.tag) { NodeMessageIsNotReleasedOnArrival(c, h, m, now); }
    } else if m.tag == GetClientKeyResponse {
      ClientKeyDecides(c, h, m, now);
    } else {
      GroupDecides(c, h, m, now);
    }
  }

  lemma ClientKeyDecides(c: Crypto, h: seq<Event>, m: Message, now: int)
    requires m.tag == GetClientKeyResponse && m.header.fromGroup.Some?
    ensures var s, g, id := StateAfter(c, h), m.header.fromGroup.value, m.header.messageId;
      NodeVerdict(c, ValuesOf(s.nodeMessages, (g, id)), WithFirst(ValuesOf(s.nodeKeys, g), m), Step(c, s, m, now).1)
  {
    hide StateAfter, Step, NodeVerdict, ValuesOf;
    ClientKeyCollects(c, h, m, now);
    var s, g := StateAfter(c, h), m.header.fromGroup.value;
    var messages, keys := ValuesOf(s.nodeMessages, (g, m.header.messageId)), WithFirst(ValuesOf(s.nodeKeys, g), m);
    NodeStepIsDecision(c, s, m, now, keys);
    NodeDecisionIs(c, messages, keys);
  }

  lemma ClientKeyCollects(c: Crypto, h: seq<Event>, m: Message, now: int)
    requires m.tag == GetClientKeyResponse && m.header.fromGroup.Some?
    ensures var s, g := StateAfter(c, h), m.header.fromGroup.value;
      var messages := ValuesOf(s.nodeMessages, (g, m.header.messageId));
      && ValuesOf(Collect(s.nodeKeys, g, m, now), g) == WithFirst(ValuesOf(s.nodeKeys, g), m)
      && (forall n :: n in messages ==> messages[n].header.fromNode == n)
  {
    var s, key := StateAfter(c, h), (m.header.fromGroup.value, m.header.messageId);
    ReachableIsSound(c, h);
    if Has(s.nodeMessages, key) { NodeValuesAreHeld(Received(h), s, key); }
    AbsentIsEmpty(s.nodeMessages, key);
    hide StateAfter, Collect, HeldFor, KeysFor, ClientKeysFor, DistinctNames, Has, ValuesOf;
    CollectSlots(s.nodeKeys, key.0, m, now);
  }

  lemma AbsentIsEmpty<N>(s: seq<Slot<N, Message>>, name: N)
    ensures !Has(s, name) ==> ValuesOf(s, name) == map[]
  {
  }

  lemma NodeStepIsDecision(c: Crypto, s: State, m: Message, now: int, keys: map<Address, Message>)
    requires m.tag == GetClientKeyResponse && m.header.fromGroup.Some?
    requires ValuesOf(Collect(s.nodeKeys, m.header.fromGroup.value, m, now), m.header.fromGroup.value) == keys
    ensures Step(c, s, m, now).1 ==
      DecideNode(c, ValuesOf(s.nodeMessages, (m.header.fromGroup.value, m.header.messageId)), keys)
  {
    DecideFew(c, ValuesOf(s.nodeMessages, (m.header.fromGroup.value, m.header.messageId)), keys);
    hide Collect, Without, DecideNode, Has, Lookup;
  }

  lemma DecideFew(c: Crypto, messages: map<Address, Message>, keys: map<Address, Message>)
    ensures messages == map[] || |keys| < QUORUM_SIZE ==> DecideNode(c, messages, keys) == Nothing
  {
  }

  lemma GroupDecides(c: Crypto, h: seq<Event>, m: Message, now: int)
    requires m.tag != GetClientKeyResponse && m.header.fromGroup.Some?
    ensures var s, g, id := StateAfter(c, h), m.header.fromGroup.value, m.header.messageId;
      var messages, keys := ValuesOf(s.groupMessages, (g, id)), ValuesOf(s.groupKeys, g);
      if m.tag == GetGroupKeyResponse then GroupVerdict(c, messages, WithFirst(keys, m), Step(c, s, m, now).1)
      else GroupVerdict(c, WithFirst(messages, m), keys, Step(c, s, m, now).1)
  {
    hide StateAfter, Step, GroupVerdict, ValuesOf;
    CollectedWith(c, h, m, now);
    GroupSenders(c, h, m);
    var s, g, id := StateAfter(c, h), m.header.fromGroup.value, m.header.messageId;
    var messages, keys := MessagesWith(s, m, g, id), ResponsesWith(s, m, g);
    GroupStepIsDecision(c, s, m, now, messages, keys);
    GroupDecisionIs(c, messages, keys);
  }

  lemma GroupSenders(c: Crypto, h: seq<Event>, m: Message)
    requires m.tag != GetClientKeyResponse && m.header.fromGroup.Some?
    ensures var held := MessagesWith(StateAfter(c, h), m, m.header.fromGroup.value, m.header.messageId);
      forall n :: n in held ==> held[n].header.fromNode == n
  {
    ReachableIsSound(c, h);
    GroupValuesAreHeld(Received(h), StateAfter(c, h), m.header.fromGroup.value, m.header.messageId);
    hide StateAfter, Sound, ValuesOf;
  }

  /** The two size tests before a decision change nothing: the decision makes them again. */
  lemma GroupStepIsDecision(
    c: Crypto, s: State, m: Message, now: int, messages: map<Address, Message>, keys: map<Address, Message>)
    requires m.tag != GetClientKeyResponse && m.header.fromGroup.Some?
    requires var g, key := m.header.fromGroup.value, (m.header.fromGroup.value, m.header.messageId);
      if m.tag == GetGroupKeyResponse then
        ValuesOf(Collect(s.groupKeys, g, m, now), g) == keys && ValuesOf(s.groupMessages, key) == messages
      else ValuesOf(Collect(s.groupMessages, key, m, now), key) == messages && ValuesOf(s.groupKeys, g) == keys
    ensures Step(c, s, m, now).1 == DecideGroup(c, messages, keys)
  {
    DecideShort(c, messages, keys);
    hide Collect, Without, DecideGroup, Has, Lookup;
  }

  // ----- Malformed client key responses

  /** In every reachable state: while a client key response that does not parse is held for a node,
      nothing of that node is released. */
  lemma MalformedClientKeyBlocks(c: Crypto, h: seq<Event>, m: Message, now: int, n: Address, r: Address)
    requires var keys := ValuesOf(StateAfter(c, h).nodeKeys, n); r in keys && c.parseClientKey(keys[r].body).Malformed?
    ensures forall id :: !ReleasesNode(Step(c, StateAfter(c, h), m, now).1, n, id)
  {
    hide Step, StateAfter, ValuesOf, LeastNaming, SignedVerdict;
    var o, keys := Step(c, StateAfter(c, h), m, now).1, ValuesOf(StateAfter(c, h).nodeKeys, n);
    if o.Released? {
      WhoIsReleased(c, h, m, now);
      StepIs(c, h, m, now);
      assert WithFirst(keys, m)[r] == keys[r];
    }
  }

  /** A client key response throws exactly when a quorum has responded, the message is waiting and one
      of the responses does not parse. */
  lemma ClientKeyThrowsIff(c: Crypto, h: seq<Event>, m: Message, now: int)
    requires m.tag == GetClientKeyResponse && m.header.fromGroup.Some?
    ensures var s, n := StateAfter(c, h), m.header.fromGroup.value;
      var keys := WithFirst(ValuesOf(s.nodeKeys, n), m);
      Step(c, s, m, now).1 == Thrown <==>
        && |keys| >= QUORUM_SIZE && n in ValuesOf(s.nodeMessages, (n, m.header.messageId))
        && exists r :: r in keys && c.parseClientKey(keys[r].body).Malformed?
  {
    hide Step, StateAfter, LeastNaming, ValuesOf, WithFirst;
    WaitingIsOwn(c, h, m.header.fromGroup.value, m.header.messageId);
    StepIs(c, h, m, now);
  }

  lemma WaitingIsOwn(c: Crypto, h: seq<Event>, n: Address, id: MessageId)
    ensures var waiting := ValuesOf(StateAfter(c, h).nodeMessages, (n, id)); waiting == map[] || waiting.Keys == {n}
  {
    var s := StateAfter(c, h);
    ReachableIsSound(c, h);
    hide StateAfter, Sound, Lookup;
    if Has(s.nodeMessages, (n, id)) { NodeValuesAreHeld(Received(h), s, (n, id)); }
  }
}
