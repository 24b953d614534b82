/** Exactly-once release of a group's message, among any other traffic. */
module SentinelRelease {
  import opened Types
  import opened Xor
  import opened Accumulator
  import opened AccumulatorRuns
  import opened Sentinel
  import opened SentinelSafety

  /** One message of one group: who the members are, their true keys, the id and the body, and which
      members may send something else instead. */
  datatype Sending = Sending(
    group: Address, id: MessageId, body: Bytes, members: set<Address>, keys: map<Address, PublicKey>,
      faulty: set<Address>)

  ghost predicate WellKeyed(c: Crypto, d: Sending) {
    && |d.members| <= GROUP_SIZE && |d.faulty| < QUORUM_SIZE
    && d.members <= d.keys.Keys
    && forall n :: n in d.members ==> c.validKey(d.keys[n])
  }

  /** A member's copy of the message, correctly signed. */
  ghost predicate IsCopy(c: Crypto, d: Sending, m: Message) {
    && m.header.fromNode in d.members && m.header.fromNode in d.keys
    && Submits(m, m.header.fromNode, d.group, d.id, d.body)
    && m.tag != AccountTransfer
    && SignedUnder(c, m, d.keys[m.header.fromNode])
  }

  /** A faulty member's message with this id that is not a copy: another body, or a signature that does
      not check. */
  ghost predicate IsFault(c: Crypto, d: Sending, m: Message) {
    && m.header.fromNode in d.members && m.header.fromNode in d.faulty
    && Submits(m, m.header.fromNode, d.group, d.id, m.body)
    && m.tag != AccountTransfer && !IsCopy(c, d, m)
  }

  ghost predicate IsSubmission(c: Crypto, d: Sending, m: Message) {
    IsCopy(c, d, m) || IsFault(c, d, m)
  }

  /** A member's key response, for this or any other message of the group, listing all true keys. */
  ghost predicate IsResponse(c: Crypto, d: Sending, m: Message) {
    && m.header.fromNode in d.members
    && RespondsFor(m, d.group)
    && c.parseGroupKeys(m.body) == Parsed(d.keys)
  }

  /** Any other traffic: it does not claim to come from this group, or concerns client keys, or is a
      message of this group with another id. */
  ghost predicate IsOther(d: Sending, m: Message) {
    m.header.fromGroup != Some(d.group) || m.tag == GetClientKeyResponse || (!IsKeyTag(m.tag) &&
      m.header.messageId != d.id)
  }

  // ----- The decision on uniformly good input

  ghost function OneKeyEach(keys: map<Address, PublicKey>): KeysMap {
    map a | a in keys :: [keys[a]]
  }

  lemma {:induction false} UniformKeys(c: Crypto, rs: seq<Message>, keys: map<Address, PublicKey>)
    requires rs != [] && forall r :: r in rs ==> c.parseGroupKeys(r.body) == Parsed(keys)
    ensures CollectGroupKeys(c, rs) == Parsed(OneKeyEach(keys))
  {
    var init := rs[..|rs| - 1];
    assert rs[|rs| - 1] in rs;
    if init == [] {
      assert CollectGroupKeys(c, init) == Parsed(map[]);
      assert ListAll(map[], keys) == OneKeyEach(keys);
    } else {
      UniformKeys(c, init, keys);
      assert ListAll(OneKeyEach(keys), keys) == OneKeyEach(keys);
    }
    hide ListAll, OneKeyEach;
  }

  ghost predicate Submissions(c: Crypto, d: Sending, messages: map<Address, Message>) {
    forall n :: n in messages ==> messages[n].header.fromNode == n && IsSubmission(c, d, messages[n])
  }

  /** The nodes whose message is a copy. */
  ghost function CopiesIn(c: Crypto, d: Sending, messages: map<Address, Message>): set<Address> {
    set n | n in messages && IsCopy(c, d, messages[n])
  }

  ghost predicate Responses(c: Crypto, d: Sending, keys: map<Address, Message>) {
    forall n :: n in keys ==> keys[n].header.fromNode == n && IsResponse(c, d, keys[n])
  }

  lemma CopyIsVerified(c: Crypto, d: Sending, m: Message)
    requires WellKeyed(c, d) && IsCopy(c, d, m)
    ensures VerifiedInGroup(c, OneKeyEach(d.keys), m) && m.body == d.body && m.tag != AccountTransfer
  {
    hide SignedUnder;
  }

  lemma FaultIsNotCounted(c: Crypto, d: Sending, m: Message)
    requires IsFault(c, d, m) && VerifiedInGroup(c, OneKeyEach(d.keys), m)
    ensures m.body != d.body && m.header.fromNode in d.faulty && m.tag != AccountTransfer
  {
    hide SignedUnder;
  }

  lemma TrueKeysAreListed(c: Crypto, d: Sending, keys: map<Address, Message>)
    requires Responses(c, d, keys) && |keys| > 0
    ensures CollectGroupKeys(c, InOrder(keys)) == Parsed(OneKeyEach(d.keys))
  {
    hide InOrder, DistinctSenders, CollectGroupKeys, OneKeyEach;
    InOrderMembers(keys);
    UniformKeys(c, InOrder(keys), d.keys);
  }

  lemma CopiesAtMost(c: Crypto, d: Sending, messages: map<Address, Message>)
    ensures |CopiesIn(c, d, messages)| <= |messages|
  {
    hide IsCopy;
    SubsetSize(CopiesIn(c, d, messages), messages.Keys);
    assert |messages.Keys| == |messages|;
  }

  /** Under the true keys, the senders verified for the body are those of the copies, and no other body
      has more than the faulty members behind it. */
  lemma VerifiedSenders(c: Crypto, d: Sending, messages: map<Address, Message>, keys: map<Address, Message>)
    requires WellKeyed(c, d) && Submissions(c, d, messages) && Responses(c, d, keys) && |keys| > 0
    ensures CollectGroupKeys(c, InOrder(keys)).Parsed?
    ensures var v := VerifiedMessages(c, messages, keys);
      && SendersOf(v, d.body) == CopiesIn(c, d, messages)
      && (forall body :: body != d.body ==> |SendersOf(v, body)| < QUORUM_SIZE)
      && (forall x :: x in v ==> x.tag != AccountTransfer && (x.body == d.body ==> IsCopy(c, d, x)))
  {
    hide InOrder, WellKeyed, CollectGroupKeys, IsCopy, IsFault, VerifiedInGroup, DistinctSenders, OneKeyEach;
    hide VerifiedMessages;
    TrueKeysAreListed(c, d, keys);
    VerifiedMembers(c, messages, keys);
    var v := VerifiedMessages(c, messages, keys);
    forall x | x in v
      ensures x.tag != AccountTransfer && (x.body == d.body <==> IsCopy(c, d, x))
      ensures (x.body != d.body ==> x.header.fromNode in d.faulty)
    {
      if IsCopy(c, d, x) { CopyIsVerified(c, d, x); } else { FaultIsNotCounted(c, d, x); }
    }
    forall n | n in CopiesIn(c, d, messages) ensures n in SendersOf(v, d.body) {
      CopyIsVerified(c, d, messages[n]);
      assert messages[n] in v;
    }
    forall body | body != d.body ensures |SendersOf(v, body)| < QUORUM_SIZE {
      SubsetSize(SendersOf(v, body), d.faulty);
      FewFaulty(c, d);
    }
  }

  lemma FewFaulty(c: Crypto, d: Sending)
    requires WellKeyed(c, d)
    ensures |d.faulty| < QUORUM_SIZE && |d.members| <= GROUP_SIZE
  {
  }

  /** With keys that parse and no account transfer first, a decision does not throw. */
  lemma DecisionDoesNotThrow(c: Crypto, messages: map<Address, Message>, keys: map<Address, Message>)
    requires |keys| > 0 ==> CollectGroupKeys(c, InOrder(keys)).Parsed?
    requires |keys| > 0 ==>
      var v := VerifiedMessages(c, messages, keys); v != [] ==> v[0].tag != AccountTransfer
    ensures !DecideGroup(c, messages, keys).Thrown?
  {
    hide InOrder, CollectGroupKeys, FilterGroup, CountBody;
  }

  /** On submissions and true keys the decision is to release a copy exactly when the copies and the
      key responses both are a quorum, whatever the faulty members sent. */
  lemma GoodDecision(c: Crypto, d: Sending, messages: map<Address, Message>, keys: map<Address, Message>)
    requires WellKeyed(c, d) && Submissions(c, d, messages) && Responses(c, d, keys)
    ensures if |CopiesIn(c, d, messages)| >= QUORUM_SIZE && |keys| >= QUORUM_SIZE then
        DecideGroup(c, messages, keys).Released? && IsCopy(c, d, DecideGroup(c, messages, keys).message)
      else DecideGroup(c, messages, keys) == Nothing
  {
    hide InOrder, WellKeyed, CollectGroupKeys, IsSubmission, IsCopy, Responses, CopiesIn, VerifiedMessages;
    hide DecideGroup, SendersOf, DistinctSenders, CountBody, Merged, Merges;
    GroupReleasedIff(c, messages, keys);
    if |keys| > 0 {
      VerifiedSenders(c, d, messages, keys);
      var v := VerifiedMessages(c, messages, keys);
      assert v != [] ==> v[0] in v;
      DecisionDoesNotThrow(c, messages, keys);
      if DecideGroup(c, messages, keys).Released? {
        ReleaseIsMergeOrMatch(c, messages, keys);
      }
    } else {
      DecisionDoesNotThrow(c, messages, keys);
    }
  }

  // ----- The slots of this group among other traffic

  ghost predicate Unexpired<N, V>(s: seq<Slot<N, V>>, start: int) {
    forall slot :: slot in s ==> slot.created >= start
  }

  /** Without expiry, collecting under another name leaves a name's values alone. */
  lemma CollectOther<N(!new)>(s: seq<Slot<N, Message>>, name: N, m: Message, now: int, start: int, other: N)
    requires DistinctNames(s) && Unexpired(s, start) && start <= now <= start + TIME_TO_LIVE
    ensures Unexpired(Collect(s, name, m, now), start)
    ensures other != name ==> ValuesOf(Collect(s, name, m, now), other) == ValuesOf(s, other)
  {
    AccumulateMembers(s, name, m, m.header.fromNode, TIME_TO_LIVE, now);
    var t := Collect(s, name, m, now);
    hide Accumulate, Lookup, DistinctNames;
    if other != name {
      if Has(s, other) {
        LookupIs(t, Lookup(s, other));
      } else if Has(t, other) {
        LookupIs(s, Lookup(t, other));
      }
    }
  }

  lemma WithoutOther<N(!new)>(s: seq<Slot<N, Message>>, name: N, start: int, other: N)
    requires DistinctNames(s) && Unexpired(s, start)
    ensures Unexpired(Without(s, name), start)
    ensures ValuesOf(Without(s, name), other) == if other == name then map[] else ValuesOf(s, other)
  {
    WithoutMembers(s, name);
    var t := Without(s, name);
    hide Without, Lookup, DistinctNames;
    if Has(t, other) { LookupIs(s, Lookup(t, other)); }
    if Has(s, other) && other != name { LookupIs(t, Lookup(s, other)); }
  }

  /** What the sentinel holds for this sending. */
  ghost function Held(d: Sending, s: State): map<Address, Message> {
    ValuesOf(s.groupMessages, (d.group, d.id))
  }

  ghost function HeldKeys(d: Sending, s: State): map<Address, Message> {
    ValuesOf(s.groupKeys, d.group)
  }

  /** A state in which what is held for this sending is good and nothing has expired. */
  ghost predicate Good(c: Crypto, d: Sending, s: State, start: int) {
    && DistinctNames(s.groupMessages) && DistinctNames(s.groupKeys)
    && Unexpired(s.groupMessages, start) && Unexpired(s.groupKeys, start)
    && Submissions(c, d, Held(d, s)) && Responses(c, d, HeldKeys(d, s))
  }

  ghost predicate ReleasesFor(d: Sending, o: Outcome) {
    o.Released? && o.message.header.fromGroup == Some(d.group) && o.message.header.messageId == d.id
  }

  lemma SubmissionsGrow(c: Crypto, d: Sending, held: map<Address, Message>, m: Message)
    requires Submissions(c, d, held) && IsSubmission(c, d, m)
    ensures Submissions(c, d, held[m.header.fromNode := m]) && Submissions(c, d, map[])
  {
    hide IsSubmission;
  }

  lemma NoSubmissions(c: Crypto, d: Sending)
    ensures Submissions(c, d, map[])
  {
  }

  lemma ResponsesGrow(c: Crypto, d: Sending, held: map<Address, Message>, m: Message)
    requires Responses(c, d, held) && IsResponse(c, d, m)
    ensures Responses(c, d, InsertFirst(held, m.header.fromNode, m))
  {
    hide IsResponse;
  }

  /** A new submission is added; a copy is released, and everything held deleted, exactly when the
      copies and the keys both are a quorum then. */
  lemma SubmissionStep(c: Crypto, d: Sending, s: State, m: Message, now: int, start: int)
    requires WellKeyed(c, d) && Good(c, d, s, start) && start <= now <= start + TIME_TO_LIVE
    requires IsSubmission(c, d, m) && m.header.fromNode !in Held(d, s)
    ensures var (s', o) := Step(c, s, m, now);
      var more := Held(d, s)[m.header.fromNode := m];
      && Good(c, d, s', start) && HeldKeys(d, s') == HeldKeys(d, s)
      && (if |CopiesIn(c, d, more)| >= QUORUM_SIZE && |HeldKeys(d, s)| >= QUORUM_SIZE
          then ReleasesFor(d, o) && IsCopy(c, d, o.message) && Held(d, s') == map[]
          else o == Nothing && Held(d, s') == more)
  {
    SubmissionIsFor(c, d, m);
    hide Collect, Without, Lookup, DistinctNames, DecideGroup, Unexpired, SignedUnder, WellKeyed, Responses;
    hide Submissions, Has, CopiesIn, IsSubmission, IsFault;
    var key, slots := (d.group, d.id), s.groupMessages;
    CollectSlots(slots, key, m, now);
    CollectOther(slots, key, m, now, start, key);
    WithoutMembers(Collect(slots, key, m, now), key);
    WithoutOther(Collect(slots, key, m, now), key, start, key);
    var more := Held(d, s)[m.header.fromNode := m];
    SubmissionsGrow(c, d, Held(d, s), m);
    CopiesAtMost(c, d, more);
    GoodDecision(c, d, more, HeldKeys(d, s));
    assert HeldKeys(d, s) != map[] ==> Has(s.groupKeys, d.group);
  }

  lemma SubmissionIsFor(c: Crypto, d: Sending, m: Message)
    requires IsSubmission(c, d, m)
    ensures m.header.fromGroup == Some(d.group) && m.header.messageId == d.id && !IsKeyTag(m.tag)
    ensures m.header.fromNode in d.members
  {
  }

  /** A key response with the id of the sending is added; the copies held are released, and deleted,
      exactly when both counts are a quorum then. */
  lemma ResponseStep(c: Crypto, d: Sending, s: State, m: Message, now: int, start: int)
    requires WellKeyed(c, d) && Good(c, d, s, start) && start <= now <= start + TIME_TO_LIVE
    requires IsResponse(c, d, m) && m.header.messageId == d.id
    ensures var (s', o) := Step(c, s, m, now);
      var more := InsertFirst(HeldKeys(d, s), m.header.fromNode, m);
      && Good(c, d, s', start) && HeldKeys(d, s') == more
      && (if |CopiesIn(c, d, Held(d, s))| >= QUORUM_SIZE && |more| >= QUORUM_SIZE
          then ReleasesFor(d, o) && IsCopy(c, d, o.message) && Held(d, s') == map[]
          else o == Nothing && Held(d, s') == Held(d, s))
  {
    hide Collect, Without, Lookup, DistinctNames, DecideGroup, Unexpired, SignedUnder, WellKeyed, Responses;
    hide Submissions, Has, CopiesIn;
    var key := (d.group, d.id);
    CollectSlots(s.groupKeys, d.group, m, now);
    CollectOther(s.groupKeys, d.group, m, now, start, d.group);
    WithoutMembers(s.groupMessages, key);
    WithoutOther(s.groupMessages, key, start, key);
    var more := InsertFirst(HeldKeys(d, s), m.header.fromNode, m);
    ResponsesGrow(c, d, HeldKeys(d, s), m);
    NoSubmissions(c, d);
    CopiesAtMost(c, d, Held(d, s));
    GoodDecision(c, d, Held(d, s), more);
    assert Held(d, s) != map[] ==> Has(s.groupMessages, key);
  }

  /** A key response with another id is added just the same, but the copies held are not looked at. */
  lemma OtherIdResponseStep(c: Crypto, d: Sending, received: set<Message>, s: State, m: Message, now: int, start: int)
    requires Sound(received, s) && Good(c, d, s, start) && start <= now <= start + TIME_TO_LIVE
    requires IsResponse(c, d, m) && m.header.messageId != d.id
    ensures var (s', o) := Step(c, s, m, now);
      && Good(c, d, s', start) && HeldKeys(d, s') == InsertFirst(HeldKeys(d, s), m.header.fromNode, m)
      && Held(d, s') == Held(d, s) && !ReleasesFor(d, o)
  {
    hide Collect, Without, ValuesOf, Has, DistinctNames, DecideGroup, Unexpired, Submissions, Responses, HeldFor;
    hide NodeHeldFor, KeysFor, ClientKeysFor;
    var key, mine := (d.group, m.header.messageId), (d.group, d.id);
    CollectSlots(s.groupKeys, d.group, m, now);
    CollectOther(s.groupKeys, d.group, m, now, start, d.group);
    WithoutMembers(s.groupMessages, key);
    WithoutOther(s.groupMessages, key, start, mine);
    ResponsesGrow(c, d, HeldKeys(d, s), m);
    if Step(c, s, m, now).1.Released? {
      GroupOutcomeIsOfGroup(c, received, s, key, ValuesOf(Collect(s.groupKeys, d.group, m, now), d.group));
    }
  }

  lemma NodeOutcomeIsNotGroup(c: Crypto, received: set<Message>, s: State, key: Key, keys: map<Address, Message>)
    requires Sound(received, s) && Has(s.nodeMessages, key)
    requires DecideNode(c, ValuesOf(s.nodeMessages, key), keys).Released?
    ensures DecideNode(c, ValuesOf(s.nodeMessages, key), keys).message.header.fromGroup.None?
  {
    hide Sound, ValuesOf, DecideNode, CollectClientKeys, InOrder;
    NodeValuesAreHeld(received, s, key);
    NodeReleaseIsHeld(c, ValuesOf(s.nodeMessages, key), keys);
  }

  /** Other traffic neither changes what is held for this sending... */
  lemma OtherStepKeepsHeld(c: Crypto, d: Sending, s: State, m: Message, now: int, start: int)
    requires Good(c, d, s, start) && start <= now <= start + TIME_TO_LIVE && IsOther(d, m)
    ensures var s' := Step(c, s, m, now).0;
      Good(c, d, s', start) && Held(d, s') == Held(d, s) && HeldKeys(d, s') == HeldKeys(d, s)
  {
    hide Collect, Without, ValuesOf, Has, DistinctNames, DecideGroup, DecideNode, Unexpired, Submissions, Responses;
    if m.tag != GetClientKeyResponse && m.header.fromGroup.Some? {
      var g := m.header.fromGroup.value;
      var key, mine := (g, m.header.messageId), (d.group, d.id);
      if m.tag == GetGroupKeyResponse {
        CollectSlots(s.groupKeys, g, m, now);
        CollectOther(s.groupKeys, g, m, now, start, d.group);
        WithoutMembers(s.groupMessages, key);
        WithoutOther(s.groupMessages, key, start, mine);
      } else {
        var t := Collect(s.groupMessages, key, m, now);
        CollectSlots(s.groupMessages, key, m, now);
        CollectOther(s.groupMessages, key, m, now, start, mine);
        WithoutMembers(t, key);
        WithoutOther(t, key, start, mine);
      }
    }
  }

  /** ...nor releases it. */
  lemma OtherStepReleasesNone(c: Crypto, d: Sending, received: set<Message>, s: State, m: Message, now: int)
    requires IsOther(d, m) && Sound(received, s)
    ensures !ReleasesFor(d, Step(c, s, m, now).1)
  {
    hide Collect, Without, ValuesOf, Has, DecideGroup, DecideNode, Sound;
    var all := received + {m};
    SoundGrows(received, all, s);
    if m.tag == GetClientKeyResponse {
      if m.header.fromGroup.Some? && Step(c, s, m, now).1.Released? {
        var g := m.header.fromGroup.value;
        NodeOutcomeIsNotGroup(c, received, s, (g, m.header.messageId), ValuesOf(Collect(s.nodeKeys, g, m, now), g));
      }
    } else if m.header.fromGroup.None? {
      if m.tag != GetGroupKeyResponse && Step(c, s, m, now).1.Released? {
        CollectNodeMessageIsSound(all, s, m, now);
        var key := (m.header.fromNode, m.header.messageId);
        var s' := s.(nodeMessages := Collect(s.nodeMessages, key, m, now));
        HasFromSound(received, s, key, m, now);
        NodeOutcomeIsNotGroup(c, all, s', key, ValuesOf(s'.nodeMessages, key));
      }
    } else if Step(c, s, m, now).1.Released? {
      var g := m.header.fromGroup.value;
      var key := (g, m.header.messageId);
      if m.tag == GetGroupKeyResponse {
        GroupOutcomeIsOfGroup(c, received, s, key, ValuesOf(Collect(s.groupKeys, g, m, now), g));
      } else {
        CollectGroupMessageIsSound(all, s, m, now);
        var s' := s.(groupMessages := Collect(s.groupMessages, key, m, now));
        GroupOutcomeIsOfGroup(c, all, s', key, ValuesOf(s.groupKeys, g));
      }
    }
  }

  lemma HasFromSound(received: set<Message>, s: State, key: Key, m: Message, now: int)
    requires Sound(received, s)
    ensures Has(Collect(s.nodeMessages, key, m, now), key)
  {
    CollectSlots(s.nodeMessages, key, m, now);
  }

  // ----- Runs

  ghost function Senders(c: Crypto, d: Sending, h: seq<Event>): set<Address> {
    set e | e in h && IsCopy(c, d, e.message) :: e.message.header.fromNode
  }

  /** All who sent a message with this id, faulty members included. */
  ghost function Submitters(c: Crypto, d: Sending, h: seq<Event>): set<Address> {
    set e | e in h && IsSubmission(c, d, e.message) :: e.message.header.fromNode
  }

  ghost function Responders(c: Crypto, d: Sending, h: seq<Event>): set<Address> {
    set e | e in h && IsResponse(c, d, e.message) :: e.message.header.fromNode
  }

  /** Copies from a quorum and key responses from a quorum have been delivered. */
  ghost predicate Quorate(c: Crypto, d: Sending, h: seq<Event>) {
    |Senders(c, d, h)| >= QUORUM_SIZE && |Responders(c, d, h)| >= QUORUM_SIZE
  }

  /** What makes the sentinel look at the messages held: another one, or a key response with their id. */
  ghost predicate Prompts(c: Crypto, d: Sending, m: Message) {
    IsSubmission(c, d, m) || (IsResponse(c, d, m) && m.header.messageId == d.id)
  }

  ghost predicate PromptedAt(c: Crypto, d: Sending, h: seq<Event>, k: nat) {
    k < |h| && Prompts(c, d, h[k].message) && Quorate(c, d, h[..k + 1])
  }

  /** A prompt has found both quorums complete. */
  ghost predicate Reached(c: Crypto, d: Sending, h: seq<Event>) {
    exists k: nat :: PromptedAt(c, d, h, k)
  }

  /** An interleaving of copies, faulty messages, responses and other traffic in which each member sends
      at most one message with this id, all within one time to live. */
  ghost predicate Orderly(c: Crypto, d: Sending, h: seq<Event>, start: int) {
    && (forall i :: 0 <= i < |h| ==>
          && start <= h[i].now <= start + TIME_TO_LIVE
          && (IsSubmission(c, d, h[i].message) || IsResponse(c, d, h[i].message) || IsOther(d, h[i].message)))
    && (forall i, j :: 0 <= i < j < |h| && h[i].message.header.fromNode == h[j].message.header.fromNode ==>
          !(IsSubmission(c, d, h[i].message) && IsSubmission(c, d, h[j].message)))
  }

  lemma ReachedSnoc(c: Crypto, d: Sending, h: seq<Event>, e: Event)
    ensures Reached(c, d, h + [e]) <==> Reached(c, d, h) || (Prompts(c, d, e.message) && Quorate(c, d, h + [e]))
  {
    hide Prompts, Quorate;
    var h' := h + [e];
    forall k: nat ensures PromptedAt(c, d, h', k) <==>
      PromptedAt(c, d, h, k) || (k == |h| && Prompts(c, d, e.message) && Quorate(c, d, h'))
    {
      if k < |h| { assert h'[..k + 1] == h[..k + 1]; } else if k == |h| { assert h'[..k + 1] == h'; }
    }
    hide PromptedAt;
    if Reached(c, d, h) {
      var k: nat :| PromptedAt(c, d, h, k);
      assert PromptedAt(c, d, h', k);
    }
    assert Prompts(c, d, e.message) && Quorate(c, d, h') ==> PromptedAt(c, d, h', |h|);
  }

  /** Before the release everything sent is held; after it, a quorum of senders is gone for good. */
  ghost predicate Progress(held: set<Address>, senders: set<Address>, reached: bool) {
    held <= senders &&
    if reached then exists gone :: |gone| >= QUORUM_SIZE && gone <= senders && gone !! held else held == senders
  }

  ghost predicate Tracks(c: Crypto, d: Sending, h: seq<Event>, s: State, start: int) {
    && Good(c, d, s, start)
    && HeldKeys(d, s).Keys == Responders(c, d, h)
    && Progress(Held(d, s).Keys, Submitters(c, d, h), Reached(c, d, h))
    && (!Reached(c, d, h) ==> CopiesIn(c, d, Held(d, s)) == Senders(c, d, h))
  }

  lemma SnocSenders(c: Crypto, d: Sending, h: seq<Event>, e: Event)
    ensures var h', n := h + [e], e.message.header.fromNode;
      && Senders(c, d, h') == Senders(c, d, h) + (if IsCopy(c, d, e.message) then {n} else {})
      && Submitters(c, d, h') == Submitters(c, d, h) + (if IsSubmission(c, d, e.message) then {n} else {})
      && Responders(c, d, h') == Responders(c, d, h) + (if IsResponse(c, d, e.message) then {n} else {})
  {
    hide IsCopy, IsResponse, IsSubmission;
    assert forall x :: x in h + [e] <==> x in h || x == e;
  }

  /** Each member sends one message with this id, so a new one comes from a new node. */
  lemma OrderlyIsFresh(c: Crypto, d: Sending, h: seq<Event>, e: Event, start: int)
    requires Orderly(c, d, h + [e], start)
    ensures IsSubmission(c, d, e.message) ==> e.message.header.fromNode !in Submitters(c, d, h)
    ensures Orderly(c, d, h, start)
  {
    hide IsSubmission, IsResponse, IsOther;
    var h' := h + [e];
    assert h'[|h|] == e && forall i :: 0 <= i < |h| ==> h'[i] == h[i];
    assert forall x :: x in h ==> exists i :: 0 <= i < |h| && h[i] == x;
  }

  /** What an event of an orderly history adds to the senders and responders. */
  lemma OrderlyEvent(c: Crypto, d: Sending, h: seq<Event>, e: Event, start: int)
    requires Orderly(c, d, h + [e], start)
    ensures start <= e.now <= start + TIME_TO_LIVE
    ensures IsSubmission(c, d, e.message) || IsResponse(c, d, e.message) || IsOther(d, e.message)
    ensures var h', n := h + [e], e.message.header.fromNode;
      && (IsSubmission(c, d, e.message) ==>
            && n !in Submitters(c, d, h) && Submitters(c, d, h') == Submitters(c, d, h) + {n}
            && Senders(c, d, h') == Senders(c, d, h) + (if IsCopy(c, d, e.message) then {n} else {})
            && Responders(c, d, h') == Responders(c, d, h))
      && (IsResponse(c, d, e.message) ==>
            && Senders(c, d, h') == Senders(c, d, h) && Submitters(c, d, h') == Submitters(c, d, h)
            && Responders(c, d, h') == Responders(c, d, h) + {n})
      && (IsOther(d, e.message) ==>
            && Senders(c, d, h') == Senders(c, d, h) && Submitters(c, d, h') == Submitters(c, d, h)
            && Responders(c, d, h') == Responders(c, d, h))
  {
    assert (h + [e])[|h|] == e;
    OrderlyIsFresh(c, d, h, e, start);
    SnocSenders(c, d, h, e);
    KindsExclude(c, d, e.message);
    hide *;
  }

  /** A message is of one kind only. */
  lemma KindsExclude(c: Crypto, d: Sending, m: Message)
    ensures IsCopy(c, d, m) ==> IsSubmission(c, d, m)
    ensures IsResponse(c, d, m) || IsOther(d, m) ==> !IsSubmission(c, d, m)
    ensures IsOther(d, m) ==> !IsResponse(c, d, m)
  {
  }

  lemma SendersAreMembers(c: Crypto, d: Sending, h: seq<Event>)
    ensures Senders(c, d, h) <= Submitters(c, d, h) <= d.members
  {
    hide SignedUnder, Submits;
  }

  /** After a quorum of a group is gone, too few members remain to reach the quorum again. */
  lemma TooFewRemain(held: set<Address>, gone: set<Address>, members: set<Address>)
    requires held <= members && gone <= members && gone !! held
    requires |members| <= GROUP_SIZE && |gone| >= QUORUM_SIZE
    ensures |held| <= GROUP_SIZE - QUORUM_SIZE < QUORUM_SIZE
  {
    SubsetSize(held + gone, members);
    assert |held + gone| == |held| + |gone|;
  }

  lemma ProgressLeavesFew(c: Crypto, d: Sending, h: seq<Event>, held: set<Address>)
    requires WellKeyed(c, d) && Progress(held, Submitters(c, d, h), true)
    ensures |held| <= GROUP_SIZE - QUORUM_SIZE
  {
    hide Senders, Submitters;
    SendersAreMembers(c, d, h);
    var gone :| |gone| >= QUORUM_SIZE && gone <= Submitters(c, d, h) && gone !! held;
    TooFewRemain(held, gone, d.members);
  }

  lemma ProgressGrows(held: set<Address>, senders: set<Address>, reached: bool, n: Address)
    requires Progress(held, senders, reached) && n !in senders
    ensures Progress(held + {n}, senders + {n}, reached)
  {
    if reached {
      var gone :| |gone| >= QUORUM_SIZE && gone <= senders && gone !! held;
      assert gone <= senders + {n} && gone !! held + {n};
    }
  }

  ghost predicate TracksStep(c: Crypto, d: Sending, h: seq<Event>, e: Event, s: State, start: int) {
    var (s', o) := Step(c, s, e.message, e.now);
    && Tracks(c, d, h + [e], s', start)
    && (ReleasesFor(d, o) <==> !Reached(c, d, h) && Reached(c, d, h + [e]))
    && (ReleasesFor(d, o) ==> IsCopy(c, d, o.message))
  }

  lemma SubmissionTracks(c: Crypto, d: Sending, h: seq<Event>, e: Event, s: State, start: int)
    requires WellKeyed(c, d) && Orderly(c, d, h + [e], start) && Tracks(c, d, h, s, start)
    requires IsSubmission(c, d, e.message)
    ensures TracksStep(c, d, h, e, s, start)
  {
    hide Orderly, IsResponse, IsOther, Good, Senders, Submitters, Responders, Held, HeldKeys, Step, WellKeyed;
    hide IsCopy, IsSubmission, ReleasesFor, Reached, CopiesIn;
    OrderlyEvent(c, d, h, e, start);
    ReachedSnoc(c, d, h, e);
    var n, held := e.message.header.fromNode, Held(d, s).Keys;
    SubmissionStep(c, d, s, e.message, e.now, start);
    NothingIsNoRelease(d);
    var more := Held(d, s)[n := e.message];
    assert more.Keys == held + {n} && |more| == |held + {n}|;
    assert |HeldKeys(d, s)| == |Responders(c, d, h)|;
    CopiesAtMost(c, d, more);
    if Reached(c, d, h) {
      ProgressGrows(held, Submitters(c, d, h), true, n);
      ProgressLeavesFew(c, d, h + [e], held + {n});
    } else {
      CopiesOneMore(c, d, Held(d, s), e.message);
      if Quorate(c, d, h + [e]) {
        SendersAreMembers(c, d, h + [e]);
        SubsetSize(Senders(c, d, h + [e]), Submitters(c, d, h + [e]));
        AllGone(Submitters(c, d, h + [e]));
      }
    }
  }

  lemma CopiesOneMore(c: Crypto, d: Sending, held: map<Address, Message>, m: Message)
    requires m.header.fromNode !in held
    ensures CopiesIn(c, d, held[m.header.fromNode := m]) ==
      CopiesIn(c, d, held) + if IsCopy(c, d, m) then {m.header.fromNode} else {}
  {
    hide IsCopy;
  }

  lemma NothingIsNoRelease(d: Sending)
    ensures !ReleasesFor(d, Nothing)
  {
  }

  lemma AllGone(senders: set<Address>)
    requires |senders| >= QUORUM_SIZE
    ensures Progress({}, senders, true)
  {
    assert senders !! {};
  }

  lemma ResponseTracks(c: Crypto, d: Sending, h: seq<Event>, e: Event, s: State, start: int)
    requires WellKeyed(c, d) && Orderly(c, d, h + [e], start) && Tracks(c, d, h, s, start)
    requires IsResponse(c, d, e.message) && e.message.header.messageId == d.id
    ensures TracksStep(c, d, h, e, s, start)
  {
    hide Orderly, IsResponse, IsOther, Good, Senders, Submitters, Responders, Held, HeldKeys, Step, WellKeyed;
    hide IsCopy, IsSubmission, ReleasesFor, Reached, CopiesIn;
    OrderlyEvent(c, d, h, e, start);
    ReachedSnoc(c, d, h, e);
    var n, held := e.message.header.fromNode, Held(d, s).Keys;
    ResponseStep(c, d, s, e.message, e.now, start);
    NothingIsNoRelease(d);
    var more := InsertFirst(HeldKeys(d, s), n, e.message);
    assert more.Keys == HeldKeys(d, s).Keys + {n} && |more| == |Responders(c, d, h + [e])|;
    assert |Held(d, s)| == |held|;
    CopiesAtMost(c, d, Held(d, s));
    if Reached(c, d, h) {
      ProgressLeavesFew(c, d, h, held);
    } else if Quorate(c, d, h + [e]) {
      SendersAreMembers(c, d, h);
      SubsetSize(Senders(c, d, h), Submitters(c, d, h));
      AllGone(Submitters(c, d, h));
    }
  }

  lemma OtherIdResponseTracks(c: Crypto, d: Sending, h: seq<Event>, e: Event, s: State, start: int)
    requires Orderly(c, d, h + [e], start) && Tracks(c, d, h, s, start) && Sound(Received(h), s)
    requires IsResponse(c, d, e.message) && e.message.header.messageId != d.id
    ensures TracksStep(c, d, h, e, s, start)
  {
    KindsExclude(c, d, e.message);
    hide Orderly, IsResponse, IsOther, Good, Senders, Submitters, Responders, Held, HeldKeys, Step, IsCopy;
    hide IsSubmission, Sound, ReleasesFor, Reached, CopiesIn;
    OrderlyEvent(c, d, h, e, start);
    ReachedSnoc(c, d, h, e);
    OtherIdResponseStep(c, d, Received(h), s, e.message, e.now, start);
    assert InsertFirst(HeldKeys(d, s), e.message.header.fromNode, e.message).Keys ==
      HeldKeys(d, s).Keys + {e.message.header.fromNode};
  }

  lemma OtherTracks(c: Crypto, d: Sending, h: seq<Event>, e: Event, s: State, start: int)
    requires Orderly(c, d, h + [e], start) && Tracks(c, d, h, s, start) && Sound(Received(h), s)
    requires IsOther(d, e.message)
    ensures TracksStep(c, d, h, e, s, start)
  {
    KindsExclude(c, d, e.message);
    hide Orderly, IsResponse, IsOther, Good, Senders, Submitters, Responders, Held, HeldKeys, Step, IsCopy;
    hide IsSubmission, Sound, ReleasesFor, Reached, CopiesIn;
    OrderlyEvent(c, d, h, e, start);
    ReachedSnoc(c, d, h, e);
    OtherStepKeepsHeld(c, d, s, e.message, e.now, start);
    OtherStepReleasesNone(c, d, Received(h), s, e.message, e.now);
  }

  lemma InitialTracks(c: Crypto, d: Sending, start: int)
    ensures Tracks(c, d, [], INITIAL, start)
  {
    assert Senders(c, d, []) == {} && Responders(c, d, []) == {} && Submitters(c, d, []) == {};
  }

  lemma StepTracks(c: Crypto, d: Sending, h: seq<Event>, e: Event, start: int)
    requires WellKeyed(c, d) && Orderly(c, d, h + [e], start) && Tracks(c, d, h, StateAfter(c, h), start)
    ensures TracksStep(c, d, h, e, StateAfter(c, h), start)
  {
    hide Orderly, Step, Tracks, TracksStep, WellKeyed, IsSubmission, IsResponse, IsOther, StateAfter, Sound;
    OrderlyEvent(c, d, h, e, start);
    ReachableIsSound(c, h);
    if IsSubmission(c, d, e.message) {
      SubmissionTracks(c, d, h, e, StateAfter(c, h), start);
    } else if IsResponse(c, d, e.message) {
      if e.message.header.messageId == d.id {
        ResponseTracks(c, d, h, e, StateAfter(c, h), start);
      } else {
        OtherIdResponseTracks(c, d, h, e, StateAfter(c, h), start);
      }
    } else {
      OtherTracks(c, d, h, e, StateAfter(c, h), start);
    }
  }

  /** In every orderly interleaving: before a prompt finds both quorums every message delivered is
      held; afterwards at most GROUP_SIZE - QUORUM_SIZE are, so they never reach it again. */
  lemma {:induction false} OrderlyRunTracks(c: Crypto, d: Sending, h: seq<Event>, start: int)
    requires WellKeyed(c, d) && Orderly(c, d, h, start)
    ensures Tracks(c, d, h, StateAfter(c, h), start)
    ensures Reached(c, d, h) ==> |Held(d, StateAfter(c, h))| <= GROUP_SIZE - QUORUM_SIZE < QUORUM_SIZE
  {
    if h == [] {
      InitialTracks(c, d, start);
    } else {
      var init, e := h[..|h| - 1], h[|h| - 1];
      assert h == init + [e];
      OrderlyIsFresh(c, d, init, e, start);
      OrderlyRunTracks(c, d, init, start);
      StepTracks(c, d, init, e, start);
    }
    hide Step, Orderly, StateAfter, Good, Senders, Submitters, Responders, Held, HeldKeys, WellKeyed, CopiesIn;
    if Reached(c, d, h) {
      ProgressLeavesFew(c, d, h, Held(d, StateAfter(c, h)).Keys);
      assert |Held(d, StateAfter(c, h)).Keys| == |Held(d, StateAfter(c, h))|;
    }
  }

  lemma OrderlyPrefix(c: Crypto, d: Sending, h: seq<Event>, i: nat, start: int)
    requires Orderly(c, d, h, start) && i <= |h|
    ensures Orderly(c, d, h[..i], start)
  {
    hide IsSubmission, IsResponse, IsOther;
    assert forall k :: 0 <= k < i ==> h[..i][k] == h[k];
  }

  /** The sending is released at the i-th addition exactly when that addition is the first prompt to
      find both quorums complete; what is released is a member's correctly signed copy. */
  lemma ReleasedWhenReached(c: Crypto, d: Sending, h: seq<Event>, i: nat, start: int)
    requires WellKeyed(c, d) && Orderly(c, d, h, start) && i < |h|
    ensures ReleasesFor(d, OutcomeAt(c, h, i)) <==> !Reached(c, d, h[..i]) && Reached(c, d, h[..i + 1])
    ensures ReleasesFor(d, OutcomeAt(c, h, i)) ==> IsCopy(c, d, OutcomeAt(c, h, i).message)
  {
    hide Step, Orderly, StateAfter, WellKeyed, Reached, Tracks, IsCopy, ReleasesFor;
    assert h[..i + 1] == h[..i] + [h[i]];
    OrderlyPrefix(c, d, h, i, start);
    OrderlyPrefix(c, d, h, i + 1, start);
    OrderlyRunTracks(c, d, h[..i], start);
    StepTracks(c, d, h[..i], h[i], start);
  }

  lemma NotReachedAtFirst(c: Crypto, d: Sending)
    ensures !Reached(c, d, [])
  {
  }

  lemma {:induction false} FirstReached(c: Crypto, d: Sending, h: seq<Event>) returns (j: nat)
    requires Reached(c, d, h)
    ensures j < |h| && !Reached(c, d, h[..j]) && Reached(c, d, h[..j + 1])
    ensures forall i :: 0 <= i <= |h| ==> (Reached(c, d, h[..i]) <==> j < i)
  {
    hide Reached;
    NotReachedAtFirst(c, d);
    var init := h[..|h| - 1];
    assert h[..|h|] == h;
    forall i | 0 <= i <= |init| ensures init[..i] == h[..i] {
    }
    if Reached(c, d, init) {
      j := FirstReached(c, d, init);
    } else {
      j := |h| - 1;
      forall i | 0 <= i <= j ensures !Reached(c, d, h[..i]) {
        if Reached(c, d, h[..i]) { PrefixReached(c, d, init, i); }
      }
    }
  }

  lemma {:induction false} PrefixReached(c: Crypto, d: Sending, h: seq<Event>, i: nat)
    requires i <= |h| && Reached(c, d, h[..i])
    ensures Reached(c, d, h)
    decreases |h|
  {
    hide Reached;
    if i == |h| {
      assert h[..i] == h;
    } else {
      var init := h[..|h| - 1];
      assert init[..i] == h[..i] && h == init + [h[|h| - 1]];
      PrefixReached(c, d, init, i);
      ReachedSnoc(c, d, init, h[|h| - 1]);
    }
  }

  /** Exactly-once release: in every orderly interleaving in which a prompt finds a quorum of copies
      and a quorum of key responses, among any other traffic, exactly one addition releases the message. */
  lemma ReleasedExactlyOnce(c: Crypto, d: Sending, h: seq<Event>, start: int) returns (j: nat)
    requires WellKeyed(c, d) && Orderly(c, d, h, start) && Reached(c, d, h)
    ensures j < |h| && forall i :: 0 <= i < |h| ==> (ReleasesFor(d, OutcomeAt(c, h, i)) <==> i == j)
    ensures ReleasesFor(d, OutcomeAt(c, h, j)) && IsCopy(c, d, OutcomeAt(c, h, j).message)
  {
    j := FirstReached(c, d, h);
    hide Orderly, WellKeyed, Reached, IsCopy, OutcomeAt;
    forall i | 0 <= i < |h| ensures ReleasesFor(d, OutcomeAt(c, h, i)) <==> i == j {
      ReleasedWhenReached(c, d, h, i, start);
    }
    ReleasedWhenReached(c, d, h, j, start);
  }

  /** Both quorums are not enough: a sending is never released exactly when nothing prompts the
      sentinel once they are complete. */
  lemma NeverReleasedIff(c: Crypto, d: Sending, h: seq<Event>, start: int)
    requires WellKeyed(c, d) && Orderly(c, d, h, start)
    ensures (forall i :: 0 <= i < |h| ==> !ReleasesFor(d, OutcomeAt(c, h, i))) <==>
      (forall k :: 0 <= k < |h| && Quorate(c, d, h[..k + 1]) ==> !Prompts(c, d, h[k].message))
  {
    hide Orderly, WellKeyed, IsCopy, OutcomeAt, Quorate, Prompts, ReleasesFor;
    if Reached(c, d, h) {
      var j := ReleasedExactlyOnce(c, d, h, start);
      var k: nat :| PromptedAt(c, d, h, k);
      assert Quorate(c, d, h[..k + 1]) && Prompts(c, d, h[k].message);
    } else {
      forall i | 0 <= i < |h| ensures !ReleasesFor(d, OutcomeAt(c, h, i)) {
        ReleasedWhenReached(c, d, h, i, start);
        if Reached(c, d, h[..i + 1]) { PrefixReached(c, d, h, i + 1); }
      }
      forall k | 0 <= k < |h| ensures !(Quorate(c, d, h[..k + 1]) && Prompts(c, d, h[k].message)) {
        assert !PromptedAt(c, d, h, k);
      }
    }
  }

  // ----- All responses with the id of the sending

  /** Every key response for the group carries the id of this sending. */
  ghost predicate OwnIdsOnly(c: Crypto, d: Sending, h: seq<Event>) {
    forall i :: 0 <= i < |h| && IsResponse(c, d, h[i].message) ==> h[i].message.header.messageId == d.id
  }

  /** Then whatever completes the quorums also prompts the sentinel. */
  lemma {:induction false} OwnIdsReach(c: Crypto, d: Sending, h: seq<Event>)
    requires OwnIdsOnly(c, d, h)
    ensures Reached(c, d, h) <==> Quorate(c, d, h)
  {
    hide IsCopy, IsSubmission, IsResponse, Reached, Senders, Submitters, Responders;
    if h == [] {
      NotReachedAtFirst(c, d);
      NotQuorateAtFirst(c, d);
    } else {
      var init, e := h[..|h| - 1], h[|h| - 1];
      assert h == init + [e];
      OwnIdsReach(c, d, init);
      ReachedSnoc(c, d, init, e);
      SnocSenders(c, d, init, e);
      KindsExclude(c, d, e.message);
      SubsetSize(Senders(c, d, init), Senders(c, d, h));
      SubsetSize(Responders(c, d, init), Responders(c, d, h));
    }
  }

  lemma NotQuorateAtFirst(c: Crypto, d: Sending)
    ensures !Quorate(c, d, [])
  {
    assert Senders(c, d, []) == {};
  }

  /** The plain case: with responses to this message only, once a quorum of copies and a quorum of
      responses have been delivered, in any order and among faulty members' messages and any other
      traffic, exactly one addition has released the message: the one that completed the quorums. */
  lemma QuorateIsReleasedOnce(c: Crypto, d: Sending, h: seq<Event>, start: int) returns (j: nat)
    requires WellKeyed(c, d) && Orderly(c, d, h, start) && OwnIdsOnly(c, d, h) && Quorate(c, d, h)
    ensures j < |h| && forall i :: 0 <= i < |h| ==> (ReleasesFor(d, OutcomeAt(c, h, i)) <==> i == j)
    ensures ReleasesFor(d, OutcomeAt(c, h, j)) && IsCopy(c, d, OutcomeAt(c, h, j).message)
    ensures !Quorate(c, d, h[..j]) && Quorate(c, d, h[..j + 1])
  {
    hide WellKeyed, Orderly, IsCopy, IsResponse, OutcomeAt, Quorate, Reached;
    OwnIdsReach(c, d, h);
    j := ReleasedExactlyOnce(c, d, h, start);
    ReleasedWhenReached(c, d, h, j, start);
    OwnIdsReach(c, d, h[..j]);
    OwnIdsReach(c, d, h[..j + 1]);
  }

  // ----- Account transfers among the messages

  /** Messages for this sending from members, copies or anything else. */
  ghost predicate FromMembers(d: Sending, messages: map<Address, Message>) {
    forall n :: n in messages ==>
      n in d.members && Submits(messages[n], n, d.group, d.id, messages[n].body)
  }

  ghost predicate ReleasesBody(o: Outcome, body: Bytes) {
    o.Released? && o.message.body == body
  }

  lemma CopiesAreVerified(c: Crypto, d: Sending, messages: map<Address, Message>, keys: map<Address, Message>)
    requires WellKeyed(c, d) && FromMembers(d, messages) && Responses(c, d, keys) && |keys| > 0
    ensures CollectGroupKeys(c, InOrder(keys)).Parsed?
    ensures var v := VerifiedMessages(c, messages, keys);
      CopiesIn(c, d, messages) <= SendersOf(v, d.body) && |v| <= |messages| <= GROUP_SIZE && DistinctSenders(v)
  {
    hide InOrder, WellKeyed, CollectGroupKeys, IsCopy, VerifiedInGroup, DistinctSenders, OneKeyEach, FilterGroup;
    TrueKeysAreListed(c, d, keys);
    VerifiedMembers(c, messages, keys);
    FilterGroupShortens(c, OneKeyEach(d.keys), InOrder(messages));
    var v := VerifiedMessages(c, messages, keys);
    forall n | n in CopiesIn(c, d, messages) ensures n in SendersOf(v, d.body) {
      CopyIsVerified(c, d, messages[n]);
      assert messages[n] in v;
    }
    FewFaulty(c, d);
    SubsetSize(messages.Keys, d.members);
    assert |messages.Keys| == |messages|;
  }

  /** A quorum of copies, whatever the other members sent: the body they agree on is released exactly
      when the verified message of the least address is not an account transfer, or the merge it
      then comes to happens to be that body. */
  lemma CopiesReleasedIff(c: Crypto, d: Sending, messages: map<Address, Message>, keys: map<Address, Message>)
    requires WellKeyed(c, d) && FromMembers(d, messages) && Responses(c, d, keys)
    requires |keys| >= QUORUM_SIZE && |CopiesIn(c, d, messages)| >= QUORUM_SIZE
    ensures CollectGroupKeys(c, InOrder(keys)).Parsed? && VerifiedMessages(c, messages, keys) != []
    ensures var v := VerifiedMessages(c, messages, keys);
      ReleasesBody(DecideGroup(c, messages, keys), d.body) <==>
      v[0].tag != AccountTransfer || Merged(c, v, Parsed(Some(d.body)))
  {
    hide InOrder, WellKeyed, CollectGroupKeys, IsCopy, CopiesIn, DistinctSenders, SendersOf, FilterGroup, CountBody;
    hide Bodies, Merged, Merges;
    CopiesAreVerified(c, d, messages, keys);
    var v := VerifiedMessages(c, messages, keys);
    SubsetSize(CopiesIn(c, d, messages), SendersOf(v, d.body));
    CountIsSenders(v, d.body);
    CountBounds(v, d.body);
    GroupReleasedIff(c, messages, keys);
    MergesIs(c, v);
    MergedIs(c, v, Parsed(Some(d.body)));
    if DecideGroup(c, messages, keys).Released? {
      ReleaseIsMergeOrMatch(c, messages, keys);
      var r := DecideGroup(c, messages, keys).message;
      if v[0].tag != AccountTransfer {
        CountIsSenders(v, r.body);
        OneBodyWins(v, d.body, r.body);
      }
    }
  }

  /** What is held for this sending once `m` has been collected. */
  ghost function HeldWith(d: Sending, s: State, m: Message): map<Address, Message> {
    MessagesWith(s, m, d.group, d.id)
  }

  ghost function KeysWith(d: Sending, s: State, m: Message): map<Address, Message> {
    ResponsesWith(s, m, d.group)
  }

  /** In every reachable state, the outcome of a message for this sending, or of a key response with
      its id, is the decision on what is then held, if both are a quorum. */
  lemma PromptDecides(c: Crypto, d: Sending, h: seq<Event>, m: Message, now: int)
    requires m.header.fromGroup == Some(d.group) && m.header.messageId == d.id && m.tag != GetClientKeyResponse
    ensures var s := StateAfter(c, h);
      var messages, keys := HeldWith(d, s, m), KeysWith(d, s, m);
      |messages| >= QUORUM_SIZE && |keys| >= QUORUM_SIZE ==>
        Step(c, s, m, now).1 == DecideGroup(c, messages, keys)
  {
    var s := StateAfter(c, h);
    ReachableIsSound(c, h);
    hide StateAfter, Collect, Without, DecideGroup, HeldFor, NodeHeldFor, KeysFor, ClientKeysFor, DistinctNames, Lookup;
    if IsKeyTag(m.tag) {
      CollectSlots(s.groupKeys, d.group, m, now);
    } else {
      CollectSlots(s.groupMessages, (d.group, d.id), m, now);
    }
  }

  /** So in every reachable state a quorum of copies with a quorum of true keys is released by the next
      such message or response exactly under that condition on the least verified sender. */
  lemma PromptReleasesCopiesIff(c: Crypto, d: Sending, h: seq<Event>, m: Message, now: int)
    requires WellKeyed(c, d)
    requires m.header.fromGroup == Some(d.group) && m.header.messageId == d.id && m.tag != GetClientKeyResponse
    requires var s := StateAfter(c, h);
      var messages, keys := HeldWith(d, s, m), KeysWith(d, s, m);
      && FromMembers(d, messages) && |CopiesIn(c, d, messages)| >= QUORUM_SIZE
      && Responses(c, d, keys) && |keys| >= QUORUM_SIZE
    ensures var s := StateAfter(c, h);
      var messages, keys := HeldWith(d, s, m), KeysWith(d, s, m);
      && CollectGroupKeys(c, InOrder(keys)).Parsed?
      && var v := VerifiedMessages(c, messages, keys);
         && v != []
         && (ReleasesBody(Step(c, s, m, now).1, d.body) <==>
             v[0].tag != AccountTransfer || Merged(c, v, Parsed(Some(d.body))))
  {
    hide StateAfter, Step, DecideGroup, HeldWith, KeysWith, WellKeyed, FromMembers, Responses, CopiesIn;
    hide InOrder, CollectGroupKeys, VerifiedMessages, Merged, ReleasesBody;
    PromptDecides(c, d, h, m, now);
    var s := StateAfter(c, h);
    var messages, keys := HeldWith(d, s, m), KeysWith(d, s, m);
    CopiesAtMost(c, d, messages);
    CopiesReleasedIff(c, d, messages, keys);
  }
}
