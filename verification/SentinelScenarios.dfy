/** Runs that show what the sentinel does not check: the order of keys and messages, how close the
    senders are to each other, and whose key a client key response names. */
module SentinelScenarios {
  import opened Types
  import opened Xor
  import opened Accumulator
  import opened Sentinel
  import opened SentinelSafety
  import opened SentinelRelease

  /** The messages delivered one after the other at one time. */
  ghost function Deliveries(ms: seq<Message>, now: int): (h: seq<Event>)
    ensures |h| == |ms| && forall i :: 0 <= i < |h| ==> h[i] == Event(ms[i], now)
  {
    seq(|ms|, i requires 0 <= i < |ms| => Event(ms[i], now))
  }

  ghost function NodesOf(ms: seq<Message>): set<Address> {
    set m | m in ms :: m.header.fromNode
  }

  lemma {:induction false} NodesSize(ms: seq<Message>)
    requires DistinctSenders(ms)
    ensures |NodesOf(ms)| == |ms|
  {
    if ms != [] {
      var init, m := ms[..|ms| - 1], ms[|ms| - 1];
      NodesSize(init);
      assert ms == init + [m];
      assert NodesOf(ms) == NodesOf(init) + {m.header.fromNode} && m.header.fromNode !in NodesOf(init);
    }
  }

  ghost predicate AllCopies(c: Crypto, d: Sending, ms: seq<Message>) {
    forall m :: m in ms ==> IsCopy(c, d, m)
  }

  ghost predicate AllResponses(c: Crypto, d: Sending, rs: seq<Message>) {
    forall m :: m in rs ==> IsResponse(c, d, m)
  }

  lemma DeliveredJoins(c: Crypto, d: Sending, a: seq<Message>, b: seq<Message>, now: int)
    ensures Senders(c, d, Deliveries(a + b, now)) ==
      Senders(c, d, Deliveries(a, now)) + Senders(c, d, Deliveries(b, now))
    ensures Responders(c, d, Deliveries(a + b, now)) ==
      Responders(c, d, Deliveries(a, now)) + Responders(c, d, Deliveries(b, now))
  {
    hide IsCopy, IsResponse;
    assert Deliveries(a + b, now) == Deliveries(a, now) + Deliveries(b, now);
  }

  lemma DeliveredMembers(ms: seq<Message>, now: int)
    ensures forall e :: e in Deliveries(ms, now) <==> e.message in ms && e.now == now
  {
    var h := Deliveries(ms, now);
    forall m | m in ms ensures Event(m, now) in h {
      var i :| 0 <= i < |ms| && ms[i] == m;
      assert h[i] == Event(m, now);
    }
  }

  lemma CopiesDelivered(c: Crypto, d: Sending, ms: seq<Message>, now: int)
    requires AllCopies(c, d, ms)
    ensures Senders(c, d, Deliveries(ms, now)) == NodesOf(ms) && Responders(c, d, Deliveries(ms, now)) == {}
  {
    forall m ensures IsResponse(c, d, m) ==> !IsCopy(c, d, m) { KindsExclude(c, d, m); }
    hide IsCopy, IsResponse, Deliveries;
    DeliveredMembers(ms, now);
    forall m | m in ms ensures Event(m, now) in Deliveries(ms, now) {
    }
  }

  lemma ResponsesDelivered(c: Crypto, d: Sending, rs: seq<Message>, now: int)
    requires AllResponses(c, d, rs)
    ensures Senders(c, d, Deliveries(rs, now)) == {} && Responders(c, d, Deliveries(rs, now)) == NodesOf(rs)
  {
    forall m ensures IsResponse(c, d, m) ==> !IsCopy(c, d, m) { KindsExclude(c, d, m); }
    hide IsCopy, IsResponse, Deliveries;
    DeliveredMembers(rs, now);
    forall m | m in rs ensures Event(m, now) in Deliveries(rs, now) {
    }
  }

  /** Copies delivered between responses: the senders and responders are who one expects. */
  lemma DeliveredNodes(c: Crypto, d: Sending, a: seq<Message>, ms: seq<Message>, b: seq<Message>, now: int)
    requires AllResponses(c, d, a) && AllCopies(c, d, ms) && AllResponses(c, d, b)
    ensures var h := Deliveries(a + ms + b, now);
      Senders(c, d, h) == NodesOf(ms) && Responders(c, d, h) == NodesOf(a) + NodesOf(b)
  {
    hide Senders, Responders, NodesOf, AllCopies, AllResponses, Deliveries;
    DeliveredJoins(c, d, a + ms, b, now);
    DeliveredJoins(c, d, a, ms, now);
    ResponsesDelivered(c, d, a, now);
    CopiesDelivered(c, d, ms, now);
    ResponsesDelivered(c, d, b, now);
  }

  lemma DeliveredIsOrderly(c: Crypto, d: Sending, a: seq<Message>, ms: seq<Message>, b: seq<Message>, now: int)
    requires AllResponses(c, d, a) && AllCopies(c, d, ms) && AllResponses(c, d, b) && DistinctSenders(ms)
    ensures Orderly(c, d, Deliveries(a + ms + b, now), now)
  {
    forall m
      ensures IsCopy(c, d, m) ==> IsSubmission(c, d, m)
      ensures IsResponse(c, d, m) ==> !IsSubmission(c, d, m)
    {
      KindsExclude(c, d, m);
    }
    hide IsCopy, IsResponse, IsOther, IsSubmission;
    var all := a + ms + b;
    forall i | 0 <= i < |all|
      ensures IsSubmission(c, d, all[i]) || IsResponse(c, d, all[i])
      ensures IsSubmission(c, d, all[i]) ==> |a| <= i < |a| + |ms| && all[i] == ms[i - |a|]
    {
      if i < |a| { assert all[i] in a; } else if i < |a| + |ms| { assert all[i] in ms; } else { assert all[i] in b; }
    }
  }

  lemma PrefixDelivered(ms: seq<Message>, now: int, k: nat)
    requires k <= |ms|
    ensures Deliveries(ms, now)[..k] == Deliveries(ms[..k], now)
  {
  }

  lemma PrefixSenders(c: Crypto, d: Sending, h: seq<Event>, k: nat)
    requires k <= |h|
    ensures |Senders(c, d, h[..k])| <= |Senders(c, d, h)| && |Responders(c, d, h[..k])| <= |Responders(c, d, h)|
  {
    hide IsCopy, IsResponse;
    SubsetSize(Senders(c, d, h[..k]), Senders(c, d, h));
    SubsetSize(Responders(c, d, h[..k]), Responders(c, d, h));
  }

  lemma FewAreNotReached(c: Crypto, d: Sending, h: seq<Event>)
    requires |Senders(c, d, h)| < QUORUM_SIZE || |Responders(c, d, h)| < QUORUM_SIZE
    ensures !Reached(c, d, h)
  {
    hide Senders, Responders, Prompts;
    forall k: nat ensures !PromptedAt(c, d, h, k) {
      if k < |h| { PrefixSenders(c, d, h, k + 1); }
    }
  }

  // ----- Keys first

  /** Key responses alone leave nothing waiting and nothing requested. */
  lemma {:induction false} ResponsesAlone(c: Crypto, d: Sending, rs: seq<Message>, now: int)
    requires AllResponses(c, d, rs)
    ensures var s := StateAfter(c, Deliveries(rs, now)); s.groupMessages == [] && s.requests == []
  {
    hide Collect, Without, DecideGroup, ValuesOf;
    if rs != [] {
      var init, r, h := rs[..|rs| - 1], rs[|rs| - 1], Deliveries(rs, now);
      assert r in rs;
      ResponsesAlone(c, d, init, now);
      PrefixDelivered(rs, now, |rs| - 1);
      AfterIsStep(c, h);
    }
  }

  /** The i-th addition releases a copy of the message. */
  ghost predicate Releases(c: Crypto, d: Sending, h: seq<Event>, i: nat) {
    i < |h| && ReleasesFor(d, OutcomeAt(c, h, i)) && IsCopy(c, d, OutcomeAt(c, h, i).message)
  }

  /** Keys are not ignored for want of a message: a quorum of responses that comes before any copy,
      under whatever ids, counts towards the release at the last copy of a quorum. */
  lemma KeysCountBeforeCopies(c: Crypto, d: Sending, rs: seq<Message>, ms: seq<Message>, now: int)
    requires WellKeyed(c, d) && DistinctSenders(rs) && DistinctSenders(ms)
    requires |rs| >= QUORUM_SIZE && AllResponses(c, d, rs) && |ms| == QUORUM_SIZE && AllCopies(c, d, ms)
    ensures StateAfter(c, Deliveries(rs, now)).groupMessages == [] && StateAfter(c, Deliveries(rs, now)).requests == []
    ensures Releases(c, d, Deliveries(rs + ms, now), |rs| + |ms| - 1)
  {
    hide IsCopy, IsResponse, WellKeyed, StateAfter, OutcomeAt, Orderly, Quorate, ReleasesFor, AllCopies, AllResponses;
    hide DistinctSenders, Reached, NodesOf, Senders, Responders;
    var all, k := rs + ms, |rs| + |ms| - 1;
    var h := Deliveries(all, now);
    assert all == rs + ms + [];
    ResponsesAlone(c, d, rs, now);
    NoResponses(c, d);
    DeliveredIsOrderly(c, d, rs, ms, [], now);
    DeliveredNodes(c, d, rs, ms, [], now);
    NodesSize(ms);
    NodesSize(rs);
    OneCopyShort(c, d, rs, ms, now);
    LastIsCopy(c, d, rs, ms);
    LastPrompts(c, d, h);
    ReleasedWhenReached(c, d, h, k, now);
  }

  lemma NoResponses(c: Crypto, d: Sending)
    ensures AllResponses(c, d, []) && NodesOf([]) == {}
  {
  }

  lemma LastIsCopy(c: Crypto, d: Sending, rs: seq<Message>, ms: seq<Message>)
    requires ms != [] && AllCopies(c, d, ms)
    ensures Prompts(c, d, (rs + ms)[|rs| + |ms| - 1])
  {
    hide IsCopy, IsResponse, IsFault;
    assert ms[|ms| - 1] in ms && (rs + ms)[|rs| + |ms| - 1] == ms[|ms| - 1];
  }

  lemma OneCopyShort(c: Crypto, d: Sending, rs: seq<Message>, ms: seq<Message>, now: int)
    requires AllResponses(c, d, rs) && |ms| == QUORUM_SIZE && AllCopies(c, d, ms) && DistinctSenders(ms)
    ensures !Reached(c, d, Deliveries(rs + ms, now)[..|rs| + |ms| - 1])
  {
    var few, k := ms[..|ms| - 1], |rs| + |ms| - 1;
    assert AllCopies(c, d, few) && DistinctSenders(few);
    hide IsCopy, IsResponse, AllCopies, AllResponses, DistinctSenders, Reached, NodesOf, Senders, Responders;
    assert (rs + ms)[..k] == rs + few + [];
    PrefixDelivered(rs + ms, now, k);
    NoResponses(c, d);
    DeliveredNodes(c, d, rs, few, [], now);
    NodesSize(few);
    FewAreNotReached(c, d, Deliveries(rs + few + [], now));
  }

  lemma LastPrompts(c: Crypto, d: Sending, h: seq<Event>)
    requires h != [] && |Senders(c, d, h)| >= QUORUM_SIZE && |Responders(c, d, h)| >= QUORUM_SIZE
    requires Prompts(c, d, h[|h| - 1].message)
    ensures Reached(c, d, h[..|h|])
  {
    hide Senders, Responders, Prompts;
    assert h[..|h|] == h;
    assert PromptedAt(c, d, h, |h| - 1);
  }

  // ----- Keys under another id

  /** Responses that carry the id of another message of the group. */
  ghost predicate AllOtherIds(d: Sending, rs: seq<Message>) {
    forall m :: m in rs ==> m.header.messageId != d.id
  }

  /** Both quorums and no release: responses under another id of the group complete the quorum of
      keys without a look at the copies, which wait until a response with their own id comes. */
  lemma OtherIdStalls(c: Crypto, d: Sending, ms: seq<Message>, rs: seq<Message>, own: Message, now: int)
    requires WellKeyed(c, d) && DistinctSenders(rs) && DistinctSenders(ms)
    requires |ms| >= QUORUM_SIZE && AllCopies(c, d, ms) && |rs| >= QUORUM_SIZE && AllResponses(c, d, rs)
    requires AllOtherIds(d, rs)
    requires IsResponse(c, d, own) && own.header.messageId == d.id
    ensures var h, n := Deliveries(ms + (rs + [own]), now), |ms| + |rs|;
      && Quorate(c, d, h[..n]) && (forall i :: 0 <= i < n ==> !ReleasesFor(d, OutcomeAt(c, h, i)))
      && Releases(c, d, h, n)
  {
    hide IsCopy, IsResponse, WellKeyed, Orderly, AllCopies, AllResponses, AllOtherIds, DistinctSenders, Reached;
    hide Prompts, Quorate, OutcomeAt, ReleasesFor;
    OneMoreResponse(c, d, rs, own);
    var rest, n := rs + [own], |ms| + |rs|;
    var h := Deliveries(ms + rest, now);
    NoResponses(c, d);
    assert [] + ms + rest == ms + rest;
    DeliveredIsOrderly(c, d, [], ms, rest, now);
    StalledIsQuorate(c, d, ms, rs, own, now);
    forall i | 0 <= i < n ensures !ReleasesFor(d, OutcomeAt(c, h, i)) {
      StalledAt(c, d, ms, rs, own, now, i);
    }
    StalledPrefix(c, d, ms, rs, own, now, n);
    ReleasedWhenReached(c, d, h, n, now);
  }

  lemma StalledAt(c: Crypto, d: Sending, ms: seq<Message>, rs: seq<Message>, own: Message, now: int, i: nat)
    requires WellKeyed(c, d) && Orderly(c, d, Deliveries(ms + (rs + [own]), now), now)
    requires AllCopies(c, d, ms) && AllResponses(c, d, rs) && AllOtherIds(d, rs) && i < |ms| + |rs|
    ensures !ReleasesFor(d, OutcomeAt(c, Deliveries(ms + (rs + [own]), now), i))
  {
    hide IsCopy, WellKeyed, Orderly, AllCopies, AllResponses, AllOtherIds, Reached, OutcomeAt, ReleasesFor;
    StalledPrefix(c, d, ms, rs, own, now, i + 1);
    ReleasedWhenReached(c, d, Deliveries(ms + (rs + [own]), now), i, now);
  }

  lemma StalledIsQuorate(c: Crypto, d: Sending, ms: seq<Message>, rs: seq<Message>, own: Message, now: int)
    requires DistinctSenders(rs) && DistinctSenders(ms) && Prompts(c, d, own)
    requires |ms| >= QUORUM_SIZE && AllCopies(c, d, ms) && |rs| >= QUORUM_SIZE && AllResponses(c, d, rs)
    ensures var h := Deliveries(ms + (rs + [own]), now);
      Quorate(c, d, h[..|ms| + |rs|]) && Reached(c, d, h[..|ms| + |rs| + 1])
  {
    hide AllCopies, AllResponses, DistinctSenders, Reached, NodesOf, Senders, Responders, Prompts;
    var all, n := ms + (rs + [own]), |ms| + |rs|;
    NoResponses(c, d);
    assert all[..n] == [] + ms + rs && all[n] == own;
    PrefixDelivered(all, now, n);
    DeliveredNodes(c, d, [], ms, rs, now);
    NodesSize(ms);
    NodesSize(rs);
    PrefixSenders(c, d, Deliveries(all, now), n);
    LastPrompts(c, d, Deliveries(all, now));
  }

  lemma OneMoreResponse(c: Crypto, d: Sending, rs: seq<Message>, own: Message)
    requires AllResponses(c, d, rs) && IsResponse(c, d, own) && own.header.messageId == d.id
    ensures AllResponses(c, d, rs + [own]) && Prompts(c, d, own)
  {
    hide IsResponse, IsSubmission;
  }

  lemma StalledPrefix(c: Crypto, d: Sending, ms: seq<Message>, rs: seq<Message>, own: Message, now: int, i: nat)
    requires AllCopies(c, d, ms) && AllResponses(c, d, rs) && AllOtherIds(d, rs) && i <= |ms| + |rs|
    ensures !Reached(c, d, Deliveries(ms + (rs + [own]), now)[..i])
  {
    hide IsCopy, IsResponse, AllCopies, AllResponses, AllOtherIds, Prompts, Quorate;
    var h := Deliveries(ms + (rs + [own]), now);
    forall k: nat ensures !PromptedAt(c, d, h[..i], k) {
      if k < i {
        assert h[..i][..k + 1] == h[..k + 1] && h[..i][k] == h[k];
        if k < |ms| {
          NoKeysYet(c, d, ms, rs + [own], now, k);
        } else {
          assert h[k].message == rs[k - |ms|];
          OtherIdNeverPrompts(c, d, rs, k - |ms|);
        }
      }
    }
  }

  lemma OtherIdNeverPrompts(c: Crypto, d: Sending, rs: seq<Message>, i: nat)
    requires AllResponses(c, d, rs) && AllOtherIds(d, rs) && i < |rs|
    ensures !Prompts(c, d, rs[i])
  {
    assert rs[i] in rs;
    KindsExclude(c, d, rs[i]);
    hide IsSubmission, IsResponse;
  }

  lemma NoKeysYet(c: Crypto, d: Sending, ms: seq<Message>, rest: seq<Message>, now: int, k: nat)
    requires AllCopies(c, d, ms) && k < |ms|
    ensures !Quorate(c, d, Deliveries(ms + rest, now)[..k + 1])
  {
    var first := ms[..k + 1];
    assert AllCopies(c, d, first);
    hide IsCopy, IsResponse, AllCopies, AllResponses, NodesOf, Senders, Responders;
    PrefixDelivered(ms + rest, now, k + 1);
    assert (ms + rest)[..k + 1] == [] + first + [];
    NoResponses(c, d);
    DeliveredNodes(c, d, [], first, [], now);
  }

  // ----- Senders far apart

  /** Addresses that differ within their first five bits. */
  function Scattered(i: nat): Address
    requires i < 32
  {
    [i / 16 % 2 == 1, i / 8 % 2 == 1, i / 4 % 2 == 1, i / 2 % 2 == 1, i % 2 == 1] + seq(ADDRESS_BITS - 5, _ => false)
  }

  lemma ScatteredApart(i: nat, j: nat)
    requires i < 32 && j < 32 && i != j
    ensures CommonLeadingBits(Scattered(i), Scattered(j)) < 5
  {
    var a, b := Scattered(i), Scattered(j);
    BitsDiffer(i, j);
    hide CommonLeadingBits;
    assert a[0] != b[0] || a[1] != b[1] || a[2] != b[2] || a[3] != b[3] || a[4] != b[4];
  }

  lemma BitsDiffer(i: nat, j: nat)
    requires i < 32 && j < 32 && i != j
    ensures i / 16 % 2 != j / 16 % 2 || i / 8 % 2 != j / 8 % 2 || i / 4 % 2 != j / 4 % 2 || i / 2 % 2 != j / 2 % 2 ||
      i % 2 != j % 2
  {
    FiveBits(i);
    FiveBits(j);
  }

  lemma FiveBits(i: nat)
    requires i < 32
    ensures i == 16 * (i / 16 % 2) + 8 * (i / 8 % 2) + 4 * (i / 4 % 2) + 2 * (i / 2 % 2) + i % 2
  {
    assert i / 2 == 2 * (i / 4) + i / 2 % 2;
    assert i / 4 == 2 * (i / 8) + i / 4 % 2;
    assert i / 8 == 2 * (i / 16) + i / 8 % 2;
  }

  function ScatteredCopy(i: nat): Message
    requires i < QUORUM_SIZE
  {
    Message(Header(Scattered(i), Some(Scattered(31)), 0, Some([])), OtherTag(0), [])
  }

  function ScatteredResponse(i: nat): Message
    requires i < QUORUM_SIZE
  {
    Message(Header(Scattered(i), Some(Scattered(31)), 0, None), GetGroupKeyResponse, [])
  }

  /** Checks that always succeed, and parsers with fixed results. */
  function Permissive(client: ClientKey, keys: map<Address, PublicKey>): Crypto {
    Crypto(_ => true, (_, _, _) => true, _ => Parsed(client), _ => Parsed(keys), _ => Parsed(None))
  }

  lemma ScatteredAreDistinct(ms: seq<Message>)
    requires |ms| == QUORUM_SIZE && forall i :: 0 <= i < QUORUM_SIZE ==> ms[i].header.fromNode == Scattered(i)
    ensures DistinctSenders(ms)
  {
    hide Scattered;
    forall i, j | 0 <= i < j < |ms| ensures ms[i].header.fromNode != ms[j].header.fromNode {
      ScatteredApart(i, j);
    }
  }

  function ScatteredCopies(): seq<Message> {
    seq(QUORUM_SIZE, i requires 0 <= i < QUORUM_SIZE => ScatteredCopy(i))
  }

  function ScatteredResponses(): seq<Message> {
    seq(QUORUM_SIZE, i requires 0 <= i < QUORUM_SIZE => ScatteredResponse(i))
  }

  ghost function ScatteredSending(): Sending {
    var members := NodesOf(ScatteredCopies());
    Sending(Scattered(31), 0, [], members, map n | n in members :: [], {})
  }

  lemma ScatteredMember(n: Address) returns (i: nat)
    requires n in ScatteredSending().members
    ensures i < QUORUM_SIZE && n == Scattered(i)
  {
    hide Scattered;
    var ms := ScatteredCopies();
    var m :| m in ms && m.header.fromNode == n;
    i :| 0 <= i < |ms| && ms[i] == m;
  }

  lemma ScatteredIsGood(c: Crypto, d: Sending)
    requires d == ScatteredSending() && c == Permissive(ClientKey(d.group, []), d.keys)
    ensures AllCopies(c, d, ScatteredCopies()) && AllResponses(c, d, ScatteredResponses())
    ensures WellKeyed(c, d) && |d.members| == QUORUM_SIZE
    ensures DistinctSenders(ScatteredCopies()) && DistinctSenders(ScatteredResponses())
  {
    hide Scattered, DistinctSenders;
    var ms := ScatteredCopies();
    forall i | 0 <= i < QUORUM_SIZE ensures Scattered(i) in d.members {
      assert ms[i] in ms && ms[i].header.fromNode == Scattered(i);
    }
    ScatteredAreDistinct(ms);
    ScatteredAreDistinct(ScatteredResponses());
    NodesSize(ms);
  }

  ghost predicate FarApart(d: Sending) {
    && (forall n, n' :: n in d.members && n' in d.members && n != n' ==> CommonLeadingBits(n, n') < 5)
    && (forall n :: n in d.members ==> CommonLeadingBits(n, d.group) < 5)
  }

  lemma ScatteredIsFarApart()
    ensures FarApart(ScatteredSending())
  {
    var d := ScatteredSending();
    assert d.group == Scattered(31);
    hide Scattered, CommonLeadingBits, ScatteredSending;
    forall n, n' | n in d.members && n' in d.members && n != n' ensures CommonLeadingBits(n, n') < 5 {
      var i := ScatteredMember(n);
      var j := ScatteredMember(n');
      ScatteredApart(i, j);
    }
    forall n | n in d.members ensures CommonLeadingBits(n, d.group) < 5 {
      var i := ScatteredMember(n);
      ScatteredApart(i, 31);
    }
  }

  /** Closeness is not checked: a quorum of nodes releases a message although no two of them, and none
      of them and the group's address, share as many as five leading bits. */
  lemma ScatteredQuorumIsReleased() returns (c: Crypto, d: Sending, h: seq<Event>)
    ensures |d.members| == QUORUM_SIZE && FarApart(d)
    ensures h != [] && Releases(c, d, h, |h| - 1)
  {
    var ms, rs := ScatteredCopies(), ScatteredResponses();
    assert |ms| == |rs| == QUORUM_SIZE;
    hide ScatteredSending, ScatteredCopies, ScatteredResponses, Permissive, Releases, FarApart, DistinctSenders;
    hide AllCopies, AllResponses, WellKeyed, StateAfter;
    d := ScatteredSending();
    c := Permissive(ClientKey(d.group, []), d.keys);
    h := Deliveries(rs + ms, 0);
    ScatteredIsGood(c, d);
    ScatteredIsFarApart();
    KeysCountBeforeCopies(c, d, rs, ms, 0);
  }

  // ----- An account transfer from the least address

  /** The messages filed under their senders. */
  ghost function Filed(all: seq<Message>): map<Address, Message> {
    if all == [] then map[]
    else
      var m := all[|all| - 1];
      Filed(all[..|all| - 1])[m.header.fromNode := m]
  }

  lemma {:induction false} FiledMembers(all: seq<Message>)
    requires DistinctSenders(all)
    ensures forall n :: n in Filed(all) ==> Filed(all)[n] in all && Filed(all)[n].header.fromNode == n
    ensures forall m :: m in all ==> m.header.fromNode in Filed(all) && Filed(all)[m.header.fromNode] == m
  {
    if all != [] {
      FiledMembers(all[..|all| - 1]);
      assert all == all[..|all| - 1] + [all[|all| - 1]];
    }
  }

  lemma FiledOneMore(all: seq<Message>, k: nat)
    requires DistinctSenders(all) && k < |all|
    ensures Filed(all[..k + 1]) == InsertFirst(Filed(all[..k]), all[k].header.fromNode, all[k])
  {
    FiledMembers(all[..k]);
    assert all[..k + 1][..k] == all[..k];
    forall i | 0 <= i < k ensures all[..k][i].header.fromNode != all[k].header.fromNode {
    }
  }

  lemma {:induction false} FilterFirst(c: Crypto, keys: KeysMap, s: seq<Message>)
    requires s != [] && VerifiedInGroup(c, keys, s[0])
    ensures FilterGroup(c, keys, s) != [] && FilterGroup(c, keys, s)[0] == s[0]
  {
    hide VerifiedInGroup;
    var init := s[..|s| - 1];
    if init == [] {
      assert FilterGroup(c, keys, init) == [];
    } else {
      FilterFirst(c, keys, init);
    }
  }

  lemma LeastComesFirst(messages: map<Address, Message>, n: Address)
    requires n in messages && forall x :: x in messages && x != n ==> LexLess(n, x)
    ensures |messages| > 0 && InOrder(messages)[0] == messages[n]
  {
    assert n in messages.Keys && |messages.Keys| == |messages|;
    AscendingVisitsEachOnce(messages.Keys);
    hide LexLess;
    var a := Ascending(messages.Keys)[0];
    assert IsLeast(n, messages.Keys) && IsLeast(a, messages.Keys);
    LeastIsUnique(a, n, messages.Keys);
  }

  /** A verified account transfer of the least sender, and merges that come to nothing. */
  ghost predicate Withholding(c: Crypto, d: Sending, t: Message, messages: map<Address, Message>) {
    && t.tag == AccountTransfer && VerifiedInGroup(c, OneKeyEach(d.keys), t)
    && t.header.fromNode in messages && messages[t.header.fromNode] == t
    && (forall x :: x in messages && x != t.header.fromNode ==> LexLess(t.header.fromNode, x))
    && (forall bodies :: c.mergeAccounts(bodies) == Parsed(None))
  }

  lemma TransferDecides(c: Crypto, d: Sending, t: Message, messages: map<Address, Message>, keys: map<Address, Message>)
    requires Withholding(c, d, t, messages) && Responses(c, d, keys) && |keys| >= QUORUM_SIZE
    ensures DecideGroup(c, messages, keys) == Nothing
  {
    hide InOrder, CollectGroupKeys, FilterGroup, Responses, VerifiedInGroup, OneKeyEach, LexLess;
    TrueKeysAreListed(c, d, keys);
    LeastComesFirst(messages, t.header.fromNode);
    FilterFirst(c, OneKeyEach(d.keys), InOrder(messages));
  }

  /** Copies after an account transfer: the transfer, and nothing released yet. */
  ghost predicate Withheld(c: Crypto, d: Sending, s: State, all: seq<Message>) {
    Held(d, s) == Filed(all) && Responses(c, d, HeldKeys(d, s)) && |HeldKeys(d, s)| >= QUORUM_SIZE
  }

  lemma WithheldStep(c: Crypto, d: Sending, s: State, t: Message, all: seq<Message>, k: nat, now: int)
    requires DistinctNames(s.groupMessages) && DistinctSenders(all) && k < |all| && Withheld(c, d, s, all[..k])
    requires Submits(all[k], all[k].header.fromNode, d.group, d.id, all[k].body)
    requires Withholding(c, d, t, Filed(all[..k + 1]))
    ensures !Step(c, s, all[k], now).1.Released? && Withheld(c, d, Step(c, s, all[k], now).0, all[..k + 1])
  {
    hide Collect, Without, DecideGroup, DistinctNames, DistinctSenders, Responses, Withholding, Has, Lookup, Filed;
    hide ValuesOf;
    FiledOneMore(all, k);
    CollectSlots(s.groupMessages, (d.group, d.id), all[k], now);
    TransferDecides(c, d, t, Filed(all[..k + 1]), HeldKeys(d, s));
  }

  /** The transfer `t` leads, everybody else has a greater address and sends a copy. */
  ghost predicate LedByTransfer(c: Crypto, d: Sending, t: Message, ms: seq<Message>) {
    && t.tag == AccountTransfer && VerifiedInGroup(c, OneKeyEach(d.keys), t)
    && Submits(t, t.header.fromNode, d.group, d.id, t.body)
    && AllCopies(c, d, ms) && DistinctSenders([t] + ms)
    && (forall m :: m in ms ==> LexLess(t.header.fromNode, m.header.fromNode))
    && (forall bodies :: c.mergeAccounts(bodies) == Parsed(None))
  }

  lemma LedIsWithholding(c: Crypto, d: Sending, t: Message, ms: seq<Message>, k: nat)
    requires LedByTransfer(c, d, t, ms) && 0 < k <= |ms| + 1
    ensures Withholding(c, d, t, Filed(([t] + ms)[..k]))
  {
    hide VerifiedInGroup, OneKeyEach, LexLess, DistinctSenders, AllCopies, Filed, Submits;
    var first := ([t] + ms)[..k];
    DistinctPrefix([t] + ms, k);
    FiledMembers(first);
    assert first[0] == t && t in first;
    forall x | x in Filed(first) && x != t.header.fromNode ensures LexLess(t.header.fromNode, x) {
      LedMember(t, ms, k, Filed(first)[x]);
    }
  }

  lemma DistinctPrefix(all: seq<Message>, k: nat)
    requires DistinctSenders(all) && k <= |all|
    ensures DistinctSenders(all[..k])
  {
  }

  lemma LedMember(t: Message, ms: seq<Message>, k: nat, m: Message)
    requires k <= |ms| + 1 && m in ([t] + ms)[..k] && m != t
    ensures m in ms
  {
  }

  lemma LedSubmits(c: Crypto, d: Sending, t: Message, ms: seq<Message>, k: nat)
    requires LedByTransfer(c, d, t, ms) && k <= |ms|
    ensures var m := ([t] + ms)[k]; Submits(m, m.header.fromNode, d.group, d.id, m.body)
  {
    hide VerifiedInGroup, LexLess, SignedUnder, DistinctSenders;
    if k > 0 { assert ms[k - 1] in ms; }
  }

  lemma {:induction false} WithheldAfter(
    c: Crypto, d: Sending, rs: seq<Message>, t: Message, ms: seq<Message>, now: int, k: nat)
    requires WellKeyed(c, d) && DistinctSenders(rs) && |rs| >= QUORUM_SIZE && AllResponses(c, d, rs)
    requires LedByTransfer(c, d, t, ms) && k <= |ms| + 1
    ensures Withheld(c, d, StateAfter(c, Deliveries(rs + ([t] + ms)[..k], now)), ([t] + ms)[..k])
    ensures k <= |ms| ==> !OutcomeAt(c, Deliveries(rs + ([t] + ms), now), |rs| + k).Released?
  {
    hide WellKeyed, DistinctSenders, AllResponses, LedByTransfer, Withheld, StateAfter, Step, Withholding, Submits;
    var all := [t] + ms;
    if k == 0 {
      assert all[..0] == [] && rs + [] == rs;
      KeysAlone(c, d, rs, now);
    } else {
      WithheldAfter(c, d, rs, t, ms, now, k - 1);
      WithheldNext(c, d, rs, t, ms, now, k - 1);
    }
    if k <= |ms| { WithheldNext(c, d, rs, t, ms, now, k); }
  }

  lemma KeysAlone(c: Crypto, d: Sending, rs: seq<Message>, now: int)
    requires WellKeyed(c, d) && DistinctSenders(rs) && |rs| >= QUORUM_SIZE && AllResponses(c, d, rs)
    ensures Withheld(c, d, StateAfter(c, Deliveries(rs, now)), [])
  {
    var h := Deliveries(rs, now);
    ResponsesAlone(c, d, rs, now);
    NoResponses(c, d);
    assert rs + [] + [] == rs;
    assert AllCopies(c, d, []) && DistinctSenders([]);
    DeliveredIsOrderly(c, d, rs, [], [], now);
    OrderlyRunTracks(c, d, h, now);
    ResponsesDelivered(c, d, rs, now);
    NodesSize(rs);
    hide StateAfter, Step, WellKeyed, AllResponses, DistinctSenders, Orderly, Reached, Responses, Submissions;
    hide Senders, Submitters, Responders, NodesOf, CopiesIn;
    assert |HeldKeys(d, StateAfter(c, h)).Keys| == |HeldKeys(d, StateAfter(c, h))|;
  }

  lemma DeliveredNext(rs: seq<Message>, all: seq<Message>, now: int, k: nat)
    requires k < |all|
    ensures Deliveries(rs + all, now)[..|rs| + k] == Deliveries(rs + all[..k], now)
    ensures Deliveries(rs + all, now)[|rs| + k] == Event(all[k], now)
    ensures Deliveries(rs + all[..k + 1], now) == Deliveries(rs + all[..k], now) + [Event(all[k], now)]
  {
  }

  lemma WithheldNext(c: Crypto, d: Sending, rs: seq<Message>, t: Message, ms: seq<Message>, now: int, k: nat)
    requires LedByTransfer(c, d, t, ms) && k <= |ms|
    requires Withheld(c, d, StateAfter(c, Deliveries(rs + ([t] + ms)[..k], now)), ([t] + ms)[..k])
    ensures Withheld(c, d, StateAfter(c, Deliveries(rs + ([t] + ms)[..k + 1], now)), ([t] + ms)[..k + 1])
    ensures !OutcomeAt(c, Deliveries(rs + ([t] + ms), now), |rs| + k).Released?
  {
    assert DistinctSenders([t] + ms);
    hide DistinctSenders, LedByTransfer, Withheld, StateAfter, Step, Withholding, Submits, Sound, Deliveries;
    var all := [t] + ms;
    var h := Deliveries(rs + all[..k], now);
    DeliveredNext(rs, all, now, k);
    LedIsWithholding(c, d, t, ms, k + 1);
    LedSubmits(c, d, t, ms, k);
    WithheldEvent(c, d, h, t, all, k, now);
  }

  lemma WithheldEvent(c: Crypto, d: Sending, h: seq<Event>, t: Message, all: seq<Message>, k: nat, now: int)
    requires DistinctSenders(all) && k < |all| && Withheld(c, d, StateAfter(c, h), all[..k])
    requires Submits(all[k], all[k].header.fromNode, d.group, d.id, all[k].body)
    requires Withholding(c, d, t, Filed(all[..k + 1]))
    ensures Withheld(c, d, StateAfter(c, h + [Event(all[k], now)]), all[..k + 1])
    ensures !Step(c, StateAfter(c, h), all[k], now).1.Released?
  {
    hide DistinctSenders, Withheld, StateAfter, Step, Withholding, Submits, Sound, Filed;
    var h' := h + [Event(all[k], now)];
    assert h'[..|h|] == h && h'[|h|] == Event(all[k], now);
    AfterIsStep(c, h');
    ReachableIsSound(c, h);
    SoundMessages(Received(h), StateAfter(c, h));
    WithheldStep(c, d, StateAfter(c, h), t, all, k, now);
  }

  lemma SoundMessages(received: set<Message>, s: State)
    requires Sound(received, s)
    ensures DistinctNames(s.groupMessages)
  {
    hide DistinctNames;
  }

  /** Any number of copies is withheld: with the true keys from a quorum, and then an account transfer
      from a least address that merges to nothing, followed by copies, nothing is ever released. */
  lemma TransferWithholds(
    c: Crypto, d: Sending, rs: seq<Message>, t: Message, ms: seq<Message>, now: int, i: nat)
    requires WellKeyed(c, d) && DistinctSenders(rs) && |rs| >= QUORUM_SIZE && AllResponses(c, d, rs)
    requires LedByTransfer(c, d, t, ms) && i < |rs| + |ms| + 1
    ensures !OutcomeAt(c, Deliveries(rs + ([t] + ms), now), i).Released?
  {
    hide WellKeyed, DistinctSenders, AllResponses, LedByTransfer, Withheld, OutcomeAt;
    if i < |rs| {
      ResponseReleasesNothing(c, d, rs, [t] + ms, now, i);
    } else {
      WithheldAfter(c, d, rs, t, ms, now, i - |rs|);
    }
  }

  lemma ResponseReleasesNothing(c: Crypto, d: Sending, rs: seq<Message>, rest: seq<Message>, now: int, i: nat)
    requires AllResponses(c, d, rs) && i < |rs|
    ensures !OutcomeAt(c, Deliveries(rs + rest, now), i).Released?
  {
    var first := rs[..i];
    assert AllResponses(c, d, first) && rs[i] in rs && IsResponse(c, d, rs[i]);
    hide AllResponses, Collect, Without, DecideGroup, StateAfter, ValuesOf;
    assert (rs + rest)[..i] == first && (rs + rest)[i] == rs[i];
    PrefixDelivered(rs + rest, now, i);
    ResponsesAlone(c, d, first, now);
  }

  /** Such a run: one faulty member of twenty, and a quorum of copies and of true keys. */
  lemma OneTransferWithholds() returns (c: Crypto, d: Sending, h: seq<Event>)
    ensures WellKeyed(c, d) && |d.faulty| == 1 && Quorate(c, d, h)
    ensures forall i :: 0 <= i < |h| ==> !OutcomeAt(c, h, i).Released?
  {
    var ms, rs := TransferCopies(), TransferResponses();
    d := TransferSending();
    c := Permissive(ClientKey(d.group, []), d.keys);
    var t := TransferFirst();
    h := Deliveries(rs + ([t] + ms), 0);
    TransferIsLed(c, d);
    TransferIsQuorate(c, d);
    hide WellKeyed, DistinctSenders, AllResponses, LedByTransfer, OutcomeAt, Quorate;
    hide TransferCopies, TransferResponses, TransferFirst, TransferSending, Permissive;
    forall i | 0 <= i < |h| ensures !OutcomeAt(c, h, i).Released? {
      TransferWithholds(c, d, rs, t, ms, 0, i);
    }
  }

  function TransferFirst(): Message {
    Message(Header(Scattered(0), Some(Scattered(31)), 0, Some([])), AccountTransfer, [])
  }

  function TransferCopy(i: nat): Message
    requires i < 31
  {
    Message(Header(Scattered(i + 1), Some(Scattered(31)), 0, Some([])), OtherTag(0), [])
  }

  function TransferResponse(i: nat): Message
    requires i < 31
  {
    Message(Header(Scattered(i + 1), Some(Scattered(31)), 0, None), GetGroupKeyResponse, [])
  }

  function TransferCopies(): (ms: seq<Message>)
    ensures |ms| == QUORUM_SIZE && forall i :: 0 <= i < QUORUM_SIZE ==> ms[i] == TransferCopy(i)
  {
    seq(QUORUM_SIZE, i requires 0 <= i < QUORUM_SIZE => TransferCopy(i))
  }

  function TransferResponses(): (rs: seq<Message>)
    ensures |rs| == QUORUM_SIZE && forall i :: 0 <= i < QUORUM_SIZE ==> rs[i] == TransferResponse(i)
  {
    seq(QUORUM_SIZE, i requires 0 <= i < QUORUM_SIZE => TransferResponse(i))
  }

  ghost function TransferSending(): Sending {
    var members := NodesOf([TransferFirst()] + TransferCopies());
    Sending(Scattered(31), 0, [], members, map n | n in members :: [], {Scattered(0)})
  }

  lemma TransferMembers(d: Sending)
    requires d == TransferSending()
    ensures forall i :: 0 <= i <= QUORUM_SIZE ==> Scattered(i) in d.members
    ensures DistinctSenders([TransferFirst()] + TransferCopies()) && DistinctSenders(TransferResponses())
    ensures |d.members| == QUORUM_SIZE + 1 && d.keys.Keys == d.members
    ensures d.group == Scattered(31) && d.id == 0 && d.body == []
  {
    hide Scattered, CommonLeadingBits;
    var all, rs := [TransferFirst()] + TransferCopies(), TransferResponses();
    forall i | 0 <= i <= QUORUM_SIZE ensures all[i].header.fromNode == Scattered(i) && Scattered(i) in d.members {
      assert all[i] in all;
    }
    forall i, j | 0 <= i < j < |all| ensures all[i].header.fromNode != all[j].header.fromNode {
      ScatteredApart(i, j);
    }
    forall i, j | 0 <= i < j < |rs| ensures rs[i].header.fromNode != rs[j].header.fromNode {
      ScatteredApart(i + 1, j + 1);
    }
    NodesSize(all);
  }

  lemma ZeroIsLeast(i: nat)
    requires 0 < i < 32
    ensures LexLess(Scattered(0), Scattered(i))
  {
    var a, b := Scattered(0), Scattered(i);
    ScatteredApart(0, i);
    assert forall k :: 0 <= k < ADDRESS_BITS ==> !a[k];
    hide CommonLeadingBits, Scattered;
  }

  /** With checks that always succeed, whatever a member sends is signed. */
  lemma PermissiveMember(c: Crypto, d: Sending, client: ClientKey, n: Address)
    requires c == Permissive(client, d.keys) && n in d.members && d.keys.Keys == d.members
    ensures IsCopy(c, d, Message(Header(n, Some(d.group), d.id, Some([])), OtherTag(0), d.body))
    ensures IsResponse(c, d, Message(Header(n, Some(d.group), d.id, None), GetGroupKeyResponse, []))
    ensures VerifiedInGroup(c, OneKeyEach(d.keys), Message(Header(n, Some(d.group), d.id, Some([])), AccountTransfer,
      []))
  {
  }

  lemma TransferCopyIsCopy(c: Crypto, d: Sending, i: nat)
    requires d == TransferSending() && c == Permissive(ClientKey(d.group, []), d.keys) && i < QUORUM_SIZE
    ensures IsCopy(c, d, TransferCopy(i)) && IsResponse(c, d, TransferResponse(i))
  {
    TransferMembers(d);
    hide Scattered, DistinctSenders, NodesOf, TransferCopies, TransferResponses, TransferSending, Permissive, IsCopy;
    hide IsResponse;
    PermissiveMember(c, d, ClientKey(d.group, []), Scattered(i + 1));
  }

  lemma TransferCopiesAreCopies(c: Crypto, d: Sending)
    requires d == TransferSending() && c == Permissive(ClientKey(d.group, []), d.keys)
    ensures AllCopies(c, d, TransferCopies()) && AllResponses(c, d, TransferResponses())
  {
    hide IsCopy, IsResponse, TransferSending, Permissive, TransferCopy, TransferResponse;
    forall m | m in TransferCopies() ensures IsCopy(c, d, m) {
      var i :| 0 <= i < QUORUM_SIZE && TransferCopies()[i] == m;
      TransferCopyIsCopy(c, d, i);
    }
    forall m | m in TransferResponses() ensures IsResponse(c, d, m) {
      var i :| 0 <= i < QUORUM_SIZE && TransferResponses()[i] == m;
      TransferCopyIsCopy(c, d, i);
    }
  }

  lemma TransferIsVerified(c: Crypto, d: Sending)
    requires d == TransferSending() && c == Permissive(ClientKey(d.group, []), d.keys)
    ensures WellKeyed(c, d) && VerifiedInGroup(c, OneKeyEach(d.keys), TransferFirst())
  {
    TransferMembers(d);
    hide Scattered, DistinctSenders, NodesOf, TransferCopies, TransferResponses, VerifiedInGroup, OneKeyEach;
    PermissiveMember(c, d, ClientKey(d.group, []), Scattered(0));
  }

  lemma TransferIsLeast()
    ensures forall m :: m in TransferCopies() ==> LexLess(TransferFirst().header.fromNode, m.header.fromNode)
  {
    hide Scattered, LexLess;
    var ms := TransferCopies();
    forall m | m in ms ensures LexLess(Scattered(0), m.header.fromNode) {
      var i :| 0 <= i < |ms| && ms[i] == m;
      ZeroIsLeast(i + 1);
    }
  }

  lemma TransferIsLed(c: Crypto, d: Sending)
    requires d == TransferSending() && c == Permissive(ClientKey(d.group, []), d.keys)
    ensures WellKeyed(c, d) && AllResponses(c, d, TransferResponses()) && DistinctSenders(TransferResponses())
    ensures LedByTransfer(c, d, TransferFirst(), TransferCopies())
  {
    hide Scattered, DistinctSenders, LexLess, NodesOf, AllCopies, AllResponses, WellKeyed, VerifiedInGroup;
    hide OneKeyEach, TransferCopies;
    TransferMembers(d);
    TransferCopiesAreCopies(c, d);
    TransferIsVerified(c, d);
    TransferIsLeast();
  }

  lemma TransferIsQuorate(c: Crypto, d: Sending)
    requires d == TransferSending() && c == Permissive(ClientKey(d.group, []), d.keys)
    ensures Quorate(c, d, Deliveries(TransferResponses() + ([TransferFirst()] + TransferCopies()), 0))
  {
    TransferIsLed(c, d);
    var t, ms, rs := TransferFirst(), TransferCopies(), TransferResponses();
    DistinctTail(t, ms);
    hide TransferCopies, TransferResponses, TransferFirst, TransferSending, Permissive, DistinctSenders;
    hide VerifiedInGroup;
    hide AllCopies, AllResponses, Senders, Responders, NodesOf, Submits, LexLess;
    DeliveredJoins(c, d, rs, [t] + ms, 0);
    DeliveredJoins(c, d, [t], ms, 0);
    CopiesDelivered(c, d, ms, 0);
    ResponsesDelivered(c, d, rs, 0);
    NodesSize(ms);
    NodesSize(rs);
    SubsetSize(NodesOf(ms), Senders(c, d, Deliveries(rs + ([t] + ms), 0)));
    SubsetSize(NodesOf(rs), Responders(c, d, Deliveries(rs + ([t] + ms), 0)));
  }

  lemma DistinctTail(t: Message, ms: seq<Message>)
    requires DistinctSenders([t] + ms)
    ensures DistinctSenders(ms)
  {
    var all := [t] + ms;
    assert forall i :: 0 <= i < |ms| ==> all[i + 1] == ms[i];
  }

  // ----- Somebody else's key

  lemma NodeMessageWaits(c: Crypto, msg: Message, now: int)
    requires !IsKeyTag(msg.tag) && msg.header.fromGroup.None?
    ensures var s := StateAfter(c, [Event(msg, now)]);
      ValuesOf(s.nodeMessages, (msg.header.fromNode, msg.header.messageId)) == map[msg.header.fromNode := msg] &&
        s.nodeKeys == []
  {
    hide DecideNode, Collect, Without;
    var h := [Event(msg, now)];
    assert h[..0] == [];
    AfterIsStep(c, h);
    NodeMessageIsNotReleasedOnArrival(c, [], msg, now);
    CollectSlots([], (msg.header.fromNode, msg.header.messageId), msg, now);
  }

  ghost predicate AllName(c: Crypto, rs: seq<Message>, n: Address, id: MessageId, a: Address, key: PublicKey) {
    forall m :: m in rs ==> Names(c, m, n, a, key) && m.header.messageId == id
  }

  /** `msg` waits for keys, and the responses `rs` have been collected. */
  ghost predicate Waiting(s: State, msg: Message, rs: seq<Message>) {
    var n := msg.header.fromNode;
    var keys := ValuesOf(s.nodeKeys, n);
    && ValuesOf(s.nodeMessages, (n, msg.header.messageId)) == map[n := msg]
    && keys.Keys == NodesOf(rs) && (forall a :: a in keys ==> keys[a] in rs)
  }

  lemma NodesOneMore(rs: seq<Message>, r: Message)
    ensures NodesOf(rs + [r]) == NodesOf(rs) + {r.header.fromNode}
  {
  }

  lemma CollectedOneMore(keys: map<Address, Message>, rs: seq<Message>, r: Message)
    requires keys.Keys == NodesOf(rs) && (forall a :: a in keys ==> keys[a] in rs) && DistinctSenders(rs + [r])
    ensures var more := InsertFirst(keys, r.header.fromNode, r);
      more.Keys == NodesOf(rs + [r]) && |more| == |rs| + 1 && forall a :: a in more ==> more[a] in rs + [r]
  {
    hide DistinctSenders, NodesOf;
    NodesSize(rs + [r]);
    NodesOneMore(rs, r);
    var more := InsertFirst(keys, r.header.fromNode, r);
    assert |more.Keys| == |more|;
    forall a | a in more ensures more[a] in rs + [r] {
      assert more[a] in rs || more[a] == r;
    }
  }

  lemma ResponseCollected(s: State, msg: Message, rs: seq<Message>, r: Message, now: int)
    requires Waiting(s, msg, rs) && DistinctNames(s.nodeKeys) && DistinctSenders(rs + [r])
    ensures Waiting(s.(nodeKeys := Collect(s.nodeKeys, msg.header.fromNode, r, now)), msg, rs + [r])
    ensures |ValuesOf(Collect(s.nodeKeys, msg.header.fromNode, r, now), msg.header.fromNode)| == |rs| + 1
  {
    hide Collect, DistinctNames, ValuesOf, DistinctSenders, NodesOf, InsertFirst;
    CollectSlots(s.nodeKeys, msg.header.fromNode, r, now);
    CollectedOneMore(ValuesOf(s.nodeKeys, msg.header.fromNode), rs, r);
  }

  lemma ResponseKeepsWaiting(c: Crypto, s: State, msg: Message, rs: seq<Message>, r: Message, now: int)
    requires Waiting(s, msg, rs) && DistinctNames(s.nodeKeys) && DistinctSenders(rs + [r]) && |rs| + 1 < QUORUM_SIZE
    requires r.tag == GetClientKeyResponse && r.header.fromGroup == Some(msg.header.fromNode)
    ensures Waiting(Step(c, s, r, now).0, msg, rs + [r])
  {
    hide Collect, DistinctNames, ValuesOf, NodesOf, DistinctSenders, DecideNode, Waiting, Has;
    ResponseCollected(s, msg, rs, r, now);
  }

  lemma AllNameBut(c: Crypto, rs: seq<Message>, n: Address, id: MessageId, a: Address, key: PublicKey)
    requires rs != [] && AllName(c, rs, n, id, a, key) && DistinctSenders(rs)
    ensures AllName(c, rs[..|rs| - 1], n, id, a, key) && DistinctSenders(rs[..|rs| - 1])
    ensures Names(c, rs[|rs| - 1], n, a, key) && rs[|rs| - 1].header.messageId == id
  {
    assert rs[|rs| - 1] in rs;
  }

  lemma WaitsAtFirst(c: Crypto, msg: Message, now: int)
    requires !IsKeyTag(msg.tag) && msg.header.fromGroup.None?
    ensures Waiting(StateAfter(c, Deliveries([msg] + [], now)), msg, [])
  {
    hide StateAfter;
    assert Deliveries([msg] + [], now) == [Event(msg, now)];
    NodeMessageWaits(c, msg, now);
  }

  /** Until a quorum has responded, client key responses are collected and the message waits. */
  lemma {:induction false} ClientKeysCollect(
    c: Crypto, msg: Message, rs: seq<Message>, now: int, a: Address, key: PublicKey)
    requires !IsKeyTag(msg.tag) && msg.header.fromGroup.None? && |rs| < QUORUM_SIZE && DistinctSenders(rs)
    requires AllName(c, rs, msg.header.fromNode, msg.header.messageId, a, key)
    ensures Waiting(StateAfter(c, Deliveries([msg] + rs, now)), msg, rs)
  {
    hide DistinctNames, StateAfter, Step, HeldFor, NodeHeldFor, KeysFor, ClientKeysFor, Waiting, DistinctSenders;
    hide AllName;
    if rs == [] {
      WaitsAtFirst(c, msg, now);
    } else {
      var init, r := rs[..|rs| - 1], rs[|rs| - 1];
      AllNameBut(c, rs, msg.header.fromNode, msg.header.messageId, a, key);
      ClientKeysCollect(c, msg, init, now, a, key);
      var h := Deliveries([msg] + rs, now);
      assert rs == init + [r] && ([msg] + rs)[..|rs|] == [msg] + init && ([msg] + rs)[|rs|] == r;
      PrefixDelivered([msg] + rs, now, |rs|);
      AfterIsStep(c, h);
      ReachableIsSound(c, h[..|rs|]);
      ResponseKeepsWaiting(c, StateAfter(c, h[..|rs|]), msg, init, r, now);
    }
  }

  /** The client address a response names is not compared with the sender: whoever `a` is, a quorum
      naming `key` as the key of `a` releases a node's message that `key` verifies. */
  lemma KeyOfAnybodyReleases(c: Crypto, msg: Message, rs: seq<Message>, a: Address, key: PublicKey, now: int)
    requires !IsKeyTag(msg.tag) && msg.header.fromGroup.None? && c.validKey(key) && SignedUnder(c, msg, key)
    requires |rs| == QUORUM_SIZE && DistinctSenders(rs)
    requires AllName(c, rs, msg.header.fromNode, msg.header.messageId, a, key)
    ensures OutcomeAt(c, Deliveries([msg] + rs, now), QUORUM_SIZE) == Released(msg)
  {
    var init, r, n := rs[..QUORUM_SIZE - 1], rs[QUORUM_SIZE - 1], msg.header.fromNode;
    assert rs == init + [r];
    AllNameBut(c, rs, n, msg.header.messageId, a, key);
    hide Collect, Without, DecideNode, SignedUnder, ValuesOf, StateAfter, Step, NodesOf, DistinctSenders;
    hide DistinctNames, HeldFor, NodeHeldFor, KeysFor, ClientKeysFor;
    var h := Deliveries([msg] + rs, now);
    assert ([msg] + rs)[..QUORUM_SIZE] == [msg] + init && ([msg] + rs)[QUORUM_SIZE] == r;
    PrefixDelivered([msg] + rs, now, QUORUM_SIZE);
    ClientKeysCollect(c, msg, init, now, a, key);
    var s := StateAfter(c, h[..QUORUM_SIZE]);
    ReachableIsSound(c, h[..QUORUM_SIZE]);
    ResponseCollected(s, msg, init, r, now);
    NodeReleasedIff(c, h[..QUORUM_SIZE], r, now, n, a, key);
  }

  /** Such a run: the responses name a client that is not the sender. */
  lemma KeyOfAnotherReleases() returns (c: Crypto, msg: Message, rs: seq<Message>, a: Address, key: PublicKey)
    ensures a != msg.header.fromNode && forall m :: m in rs ==> Names(c, m, msg.header.fromNode, a, key)
    ensures |rs| == QUORUM_SIZE && OutcomeAt(c, Deliveries([msg] + rs, 0), QUORUM_SIZE) == Released(msg)
  {
    var n := Scattered(31);
    a, key := Scattered(30), [];
    ScatteredApart(30, 31);
    c := Permissive(ClientKey(a, key), map[]);
    msg := Message(Header(n, None, 0, Some([])), OtherTag(0), []);
    rs := seq(QUORUM_SIZE, i requires 0 <= i < QUORUM_SIZE =>
                Message(Header(Scattered(i), Some(n), 0, None), GetClientKeyResponse, []));
    hide Scattered, OutcomeAt, DistinctSenders;
    ScatteredAreDistinct(rs);
    KeyOfAnybodyReleases(c, msg, rs, a, key, 0);
  }
}
