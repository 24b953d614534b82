/** The sentinel: releases a message once a quorum of its group has sent it, a quorum of key
    responses has arrived and the signatures check. */
module Sentinel {
  import opened Types
  import opened Xor
  import opened Accumulator

  type MessageId = n: int | 0 <= n < 0x1_0000_0000

  datatype Tag = GetClientKeyResponse | GetGroupKeyResponse | AccountTransfer | OtherTag(code: nat)

  datatype Header = Header(fromNode: Address, fromGroup: Option<Address>, messageId: MessageId,
    signature: Option<Bytes>)

  datatype Message = Message(header: Header, tag: Tag, body: Bytes)

  datatype Parsed<+T> = Parsed(value: T) | Malformed

  datatype ClientKey = ClientKey(address: Address, key: PublicKey)

  /** What the sentinel takes from elsewhere: key validation, signature checking, parsing of key
      responses and the merge of account transfers. */
  datatype Crypto = Crypto(
    validKey: PublicKey -> bool,
    signed: (Bytes, Bytes, PublicKey) -> bool,
    parseClientKey: Bytes -> Parsed<ClientKey>,
    parseGroupKeys: Bytes -> Parsed<map<Address, PublicKey>>,
    mergeAccounts: seq<Bytes> -> Parsed<Option<Bytes>>)

  // ----- Iteration over a map in key order

  predicate IsLeast(a: Address, s: set<Address>) {
    a in s && forall b :: b in s && b != a ==> LexLess(a, b)
  }

  lemma {:induction false} LeastExists(s: set<Address>)
    requires s != {}
    ensures exists a :: IsLeast(a, s)
  {
    hide IsLeast;
    var x :| x in s;
    if s == {x} {
      LeastOfOne(x);
    } else {
      LeastExists(s - {x});
      var a: Address :| IsLeast(a, s - {x});
      LeastOfMore(s, x, a);
    }
  }

  lemma LeastOfOne(x: Address)
    ensures IsLeast(x, {x})
  {
  }

  lemma LeastOfMore(s: set<Address>, x: Address, a: Address)
    requires x in s && IsLeast(a, s - {x})
    ensures IsLeast(a, s) || IsLeast(x, s)
  {
    hide LexLess;
    LexLessIsNumeric(x, a);
    LexLessIsNumeric(a, x);
    if !LexLess(a, x) {
      forall b | b in s && b != x ensures LexLess(x, b) {
        LexLessIsNumeric(x, b);
        LexLessIsNumeric(a, b);
      }
    }
  }

  lemma LeastIsUnique(a: Address, b: Address, s: set<Address>)
    requires IsLeast(a, s) && IsLeast(b, s)
    ensures a == b
  {
    LexLessIsNumeric(a, b);
    LexLessIsNumeric(b, a);
    hide LexLess;
  }

  function Ascending(s: set<Address>): (r: seq<Address>)
    ensures |r| == |s|
  {
    if s == {} then []
    else
      assert exists a :: IsLeast(a, s) by { LeastExists(s); }
      assert forall a, b :: IsLeast(a, s) && IsLeast(b, s) ==> a == b by {
        forall a, b | IsLeast(a, s) && IsLeast(b, s) ensures a == b { LeastIsUnique(a, b, s); }
      }
      var a: Address :| IsLeast(a, s);
      [a] + Ascending(s - {a})
  }

  lemma {:induction false} AscendingVisitsEachOnce(s: set<Address>)
    ensures forall a :: a in Ascending(s) <==> a in s
    ensures forall i, j :: 0 <= i < j < |Ascending(s)| ==> Ascending(s)[i] != Ascending(s)[j]
    ensures forall i, j :: 0 <= i < j < |Ascending(s)| ==> LexLess(Ascending(s)[i], Ascending(s)[j])
  {
    if s != {} {
      LeastExists(s);
      var a := Ascending(s)[0];
      assert a in s;
      AscendingVisitsEachOnce(s - {a});
      hide LexLess;
      var rest := Ascending(s - {a});
      assert Ascending(s) == [a] + rest;
      forall i | 0 <= i < |rest| ensures LexLess(a, rest[i]) && a != rest[i] {
        assert rest[i] in s - {a};
      }
    }
  }

  /** The values of a map in ascending order of their keys. */
  function InOrder(m: map<Address, Message>): (r: seq<Message>)
    ensures |r| == |m|
  {
    var keys := Ascending(m.Keys);
    AscendingVisitsEachOnce(m.Keys);
    seq(|keys|, i requires 0 <= i < |keys| => m[keys[i]])
  }

  // ----- Collecting keys

  type KeysMap = map<Address, seq<PublicKey>>

  /** Lists `key` for `a` unless it is listed already. */
  function ListKey(m: KeysMap, a: Address, key: PublicKey): KeysMap {
    if a !in m then m[a := [key]] else if key in m[a] then m else m[a := m[a] + [key]]
  }

  /** Lists every key of one group key response. */
  function ListAll(m: KeysMap, keys: map<Address, PublicKey>): KeysMap {
    map a | a in m.Keys + keys.Keys ::
      if a !in keys then m[a] else ListKey(m, a, keys[a])[a]
  }

  function CollectGroupKeys(c: Crypto, responses: seq<Message>): Parsed<KeysMap> {
    if responses == [] then Parsed(map[])
    else
      match CollectGroupKeys(c, responses[..|responses| - 1])
      case Malformed => Malformed
      case Parsed(m) =>
        match c.parseGroupKeys(responses[|responses| - 1].body)
        case Malformed => Malformed
        case Parsed(keys) => Parsed(ListAll(m, keys))
  }

  function CollectClientKeys(c: Crypto, responses: seq<Message>): Parsed<KeysMap> {
    if responses == [] then Parsed(map[])
    else
      match CollectClientKeys(c, responses[..|responses| - 1])
      case Malformed => Malformed
      case Parsed(m) =>
        match c.parseClientKey(responses[|responses| - 1].body)
        case Malformed => Malformed
        case Parsed(k) => Parsed(ListKey(m, k.address, k.key))
  }

  // ----- Validate and Resolve

  predicate SignedUnder(c: Crypto, m: Message, key: PublicKey) {
    m.header.signature.Some? && c.signed(m.body, m.header.signature.value, key)
  }

  predicate VerifiedInGroup(c: Crypto, keys: KeysMap, m: Message) {
    var n := m.header.fromNode;
    n in keys && keys[n] != [] && c.validKey(keys[n][0]) && SignedUnder(c, m, keys[n][0])
  }

  function FilterGroup(c: Crypto, keys: KeysMap, messages: seq<Message>): seq<Message> {
    if messages == [] then []
    else
      var m := messages[|messages| - 1];
      FilterGroup(c, keys, messages[..|messages| - 1]) + if VerifiedInGroup(c, keys, m) then [m] else []
  }

  function FilterSigned(c: Crypto, key: PublicKey, messages: seq<Message>): seq<Message> {
    if messages == [] then []
    else
      var m := messages[|messages| - 1];
      FilterSigned(c, key, messages[..|messages| - 1]) + if SignedUnder(c, m, key) then [m] else []
  }

  function ValidateGroup(
    c: Crypto, messages: map<Address, Message>, keys: map<Address, Message>): Parsed<seq<Message>>
  {
    if |messages| < QUORUM_SIZE || |keys| < QUORUM_SIZE then Parsed([])
    else
      match CollectGroupKeys(c, InOrder(keys))
      case Malformed => Malformed
      case Parsed(listed) =>
        var verified := FilterGroup(c, listed, InOrder(messages));
        Parsed(if |verified| >= QUORUM_SIZE then verified else [])
  }

  /** The key a client's messages are checked against: the first one listed for the least address. */
  function ChosenKey(listed: KeysMap): Option<PublicKey> {
    if |listed| == 0 then None
    else
      var a := Ascending(listed.Keys)[0];
      AscendingVisitsEachOnce(listed.Keys);
      if listed[a] == [] then None else Some(listed[a][0])
  }

  function ValidateNode(c: Crypto, messages: map<Address, Message>, keys: map<Address, Message>): Parsed<seq<Message>> {
    if |messages| == 0 || |keys| < QUORUM_SIZE then Parsed([])
    else
      match CollectClientKeys(c, InOrder(keys))
      case Malformed => Malformed
      case Parsed(listed) =>
        var key := ChosenKey(listed);
        Parsed(if key.Some? && c.validKey(key.value) then FilterSigned(c, key.value, InOrder(messages)) else [])
  }

  function CountBody(messages: seq<Message>, body: Bytes): nat {
    if messages == [] then 0
    else CountBody(messages[..|messages| - 1], body) + if messages[|messages| - 1].body == body then 1 else 0
  }

  /** The first message at or after `i` whose body occurs a quorum of times. */
  function FirstWithQuorum(v: seq<Message>, i: nat): (r: Option<Message>)
    requires i <= |v|
    ensures r.Some? ==> r.value in v && CountBody(v, r.value.body) >= QUORUM_SIZE
    ensures r.None? ==> forall j :: i <= j < |v| ==> CountBody(v, v[j].body) < QUORUM_SIZE
    decreases |v| - i
  {
    if i == |v| then None
    else if CountBody(v, v[i].body) >= QUORUM_SIZE then Some(v[i])
    else FirstWithQuorum(v, i + 1)
  }

  function Bodies(v: seq<Message>): seq<Bytes> {
    seq(|v|, i requires 0 <= i < |v| => v[i].body)
  }

  function ResolveGroup(c: Crypto, v: seq<Message>): Parsed<Option<Message>> {
    if |v| < QUORUM_SIZE then Parsed(None)
    else if v[0].tag != AccountTransfer then Parsed(FirstWithQuorum(v, 0))
    else
      match c.mergeAccounts(Bodies(v))
      case Malformed => Malformed
      case Parsed(None) => Parsed(None)
      case Parsed(Some(merged)) => Parsed(Some(v[0].(body := merged)))
  }

  function ResolveSingle(v: seq<Message>): Option<Message> {
    if v == [] then None else Some(v[0])
  }

  // ----- One step of the sentinel

  /** Twenty minutes, in milliseconds. */
  const TIME_TO_LIVE: nat := 1200000

  datatype Request = GetGroupKey(group: Address) | GetClientKey(node: Address)

  type Key = (Address, MessageId)

  datatype State = State(
    nodeMessages: seq<Slot<Key, Message>>,
    groupMessages: seq<Slot<Key, Message>>,
    groupKeys: seq<Slot<Address, Message>>,
    nodeKeys: seq<Slot<Address, Message>>,
    requests: seq<Request>)

  const INITIAL: State := State([], [], [], [], [])

  datatype Outcome = Nothing | Released(message: Message) | Thrown

  function Collect<N(==)>(s: seq<Slot<N, Message>>, name: N, m: Message, now: int): seq<Slot<N, Message>> {
    Accumulate(s, name, m, m.header.fromNode, TIME_TO_LIVE, now)
  }

  /** The values held for a name, none if it is absent. */
  function ValuesOf<N(==)>(s: seq<Slot<N, Message>>, name: N): map<Address, Message> {
    if Has(s, name) then Lookup(s, name).values else map[]
  }

  function DecideGroup(c: Crypto, messages: map<Address, Message>, keys: map<Address, Message>): Outcome {
    match ValidateGroup(c, messages, keys)
    case Malformed => Thrown
    case Parsed(v) =>
      match ResolveGroup(c, v)
      case Malformed => Thrown
      case Parsed(None) => Nothing
      case Parsed(Some(r)) => Released(r)
  }

  function DecideNode(c: Crypto, messages: map<Address, Message>, keys: map<Address, Message>): Outcome {
    match ValidateNode(c, messages, keys)
    case Malformed => Thrown
    case Parsed(v) => if ResolveSingle(v).Some? then Released(ResolveSingle(v).value) else Nothing
  }

  function AddClientKey(c: Crypto, s: State, m: Message, now: int): (State, Outcome) {
    if m.header.fromGroup.None? then (s, Thrown)
    else
      var group := m.header.fromGroup.value;
      var s' := s.(nodeKeys := Collect(s.nodeKeys, group, m, now));
      var keys := ValuesOf(s'.nodeKeys, group);
      var key := (group, m.header.messageId);
      if |keys| < QUORUM_SIZE || !Has(s.nodeMessages, key) then (s', Nothing)
      else
        var outcome := DecideNode(c, ValuesOf(s.nodeMessages, key), keys);
        (if outcome.Released? then s'.(nodeMessages := Without(s.nodeMessages, key)) else s', outcome)
  }

  function AddGroupKey(c: Crypto, s: State, m: Message, now: int): (State, Outcome) {
    if m.header.fromGroup.None? then (s, Thrown)
    else
      var group := m.header.fromGroup.value;
      var s' := s.(groupKeys := Collect(s.groupKeys, group, m, now));
      var keys := ValuesOf(s'.groupKeys, group);
      var key := (group, m.header.messageId);
      if |keys| < QUORUM_SIZE || !Has(s.groupMessages, key) then (s', Nothing)
      else
        var outcome := DecideGroup(c, ValuesOf(s.groupMessages, key), keys);
        (if outcome.Released? then s'.(groupMessages := Without(s.groupMessages, key)) else s', outcome)
  }

  function AddGroupMessage(c: Crypto, s: State, m: Message, group: Address, now: int): (State, Outcome) {
    var key := (group, m.header.messageId);
    var s' := s.(groupMessages := Collect(s.groupMessages, key, m, now),
                 requests := if Has(s.groupMessages, key) then s.requests else s.requests + [GetGroupKey(group)]);
    var messages := ValuesOf(s'.groupMessages, key);
    if |messages| < QUORUM_SIZE || !Has(s.groupKeys, group) then (s', Nothing)
    else
      var outcome := DecideGroup(c, messages, ValuesOf(s.groupKeys, group));
      (if outcome.Released? then s'.(groupMessages := Without(s'.groupMessages, key)) else s', outcome)
  }

  /** The keys looked up here are the node messages themselves, not the key accumulator. */
  function AddNodeMessage(c: Crypto, s: State, m: Message, now: int): (State, Outcome) {
    var key := (m.header.fromNode, m.header.messageId);
    var s' := s.(nodeMessages := Collect(s.nodeMessages, key, m, now),
                 requests := if Has(s.nodeMessages, key) then s.requests
                   else s.requests + [GetClientKey(m.header.fromNode)]);
    var messages := ValuesOf(s'.nodeMessages, key);
    if |messages| < 1 then (s', Nothing)
    else
      var outcome := DecideNode(c, messages, messages);
      (if outcome.Released? then s'.(nodeMessages := Without(s'.nodeMessages, key)) else s', outcome)
  }

  function Step(c: Crypto, s: State, m: Message, now: int): (State, Outcome) {
    match m.tag
    case GetClientKeyResponse => AddClientKey(c, s, m, now)
    case GetGroupKeyResponse => AddGroupKey(c, s, m, now)
    case _ =>
      if m.header.fromGroup.Some? then AddGroupMessage(c, s, m, m.header.fromGroup.value, now)
      else AddNodeMessage(c, s, m, now)
  }
}
