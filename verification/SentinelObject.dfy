/** The sentinel as an object over its four accumulators. */
module SentinelObject {
  import opened Types
  import opened Xor
  import Accumulator
  import opened Spec = Sentinel
  import SentinelLaws
  import SentinelSafety

  // ----- Validation loops

  lemma {:induction false} MalformedStays(c: Crypto, rs: seq<Message>, i: nat)
    requires i <= |rs|
    ensures CollectGroupKeys(c, rs[..i]).Malformed? ==> CollectGroupKeys(c, rs).Malformed?
    ensures CollectClientKeys(c, rs[..i]).Malformed? ==> CollectClientKeys(c, rs).Malformed?
    decreases |rs| - i
  {
    if i == |rs| {
      assert rs[..i] == rs;
    } else {
      assert rs[..i + 1][..i] == rs[..i];
      MalformedStays(c, rs, i + 1);
    }
  }

  /** The keys of the names visited so far. */
  ghost function Visited(keys: map<Address, PublicKey>, names: seq<Address>): map<Address, PublicKey> {
    map a | a in names && a in keys :: keys[a]
  }

  lemma ListAllThenOne(m: KeysMap, done: map<Address, PublicKey>, a: Address, key: PublicKey)
    requires a !in done
    ensures ListAll(m, done[a := key]) == ListKey(ListAll(m, done), a, key)
  {
  }

  lemma ListOneMore(m: KeysMap, keys: map<Address, PublicKey>, names: seq<Address>, a: Address)
    requires a !in names && a in keys
    ensures ListAll(m, Visited(keys, names + [a])) == ListKey(ListAll(m, Visited(keys, names)), a, keys[a])
  {
    hide ListAll, ListKey;
    assert Visited(keys, names + [a]) == Visited(keys, names)[a := keys[a]];
    ListAllThenOne(m, Visited(keys, names), a, keys[a]);
  }

  lemma VisitedAll(m: KeysMap, keys: map<Address, PublicKey>)
    ensures ListAll(m, Visited(keys, [])) == m && Visited(keys, Ascending(keys.Keys)) == keys
  {
    AscendingVisitsEachOnce(keys.Keys);
    hide Ascending;
  }

  lemma NextIsNew(keys: map<Address, PublicKey>, i: nat)
    requires i < |Ascending(keys.Keys)|
    ensures var order := Ascending(keys.Keys);
      order[i] in keys && order[i] !in order[..i] && order[..i + 1] == order[..i] + [order[i]]
  {
    hide LexLess, Ascending;
    AscendingVisitsEachOnce(keys.Keys);
    assert Ascending(keys.Keys)[i] in Ascending(keys.Keys);
  }

  method ListResponse(m: KeysMap, keys: map<Address, PublicKey>) returns (r: KeysMap)
    ensures r == ListAll(m, keys)
  {
    hide Ascending, ListAll, ListKey, Visited;
    VisitedAll(m, keys);
    r := m;
    var order := Ascending(keys.Keys);
    var i := 0;
    while i < |order|
      invariant 0 <= i <= |order|
      invariant r == ListAll(m, Visited(keys, order[..i]))
    {
      NextIsNew(keys, i);
      ListOneMore(m, keys, order[..i], order[i]);
      r := ListKey(r, order[i], keys[order[i]]);
      i := i + 1;
    }
    assert order[..i] == order;
  }

  method ValidateGroupMessages(
    c: Crypto, messages: map<Address, Message>, keys: map<Address, Message>) returns (r: Parsed<seq<Message>>)
    ensures r == ValidateGroup(c, messages, keys)
    ensures r == Malformed <==> |messages| >= QUORUM_SIZE && |keys| >= QUORUM_SIZE && !SentinelSafety.AllParse(c, keys)
    ensures r.Parsed? ==> r.value == [] || |r.value| >= QUORUM_SIZE
  {
    SentinelSafety.ParsedIffAllParse(c, keys);
    hide InOrder, ListAll, FilterGroup, SentinelSafety.AllParse;
    if |messages| < QUORUM_SIZE || |keys| < QUORUM_SIZE {
      return Parsed([]);
    }
    var keysMap: KeysMap := map[];
    var responses := InOrder(keys);
    var i := 0;
    while i < |responses|
      invariant 0 <= i <= |responses|
      invariant CollectGroupKeys(c, responses[..i]) == Parsed(keysMap)
    {
      assert responses[..i + 1][..i] == responses[..i];
      var response := c.parseGroupKeys(responses[i].body);
      if response.Malformed? {
        MalformedStays(c, responses, i + 1);
        return Malformed;
      }
      keysMap := ListResponse(keysMap, response.value);
      i := i + 1;
    }
    assert responses[..i] == responses;
    var verified := VerifyInGroup(c, keysMap, InOrder(messages));
    return Parsed(if |verified| >= QUORUM_SIZE then verified else []);
  }

  method VerifyInGroup(c: Crypto, keysMap: KeysMap, ordered: seq<Message>) returns (verified: seq<Message>)
    ensures verified == FilterGroup(c, keysMap, ordered)
  {
    hide VerifiedInGroup;
    verified := [];
    var i := 0;
    while i < |ordered|
      invariant 0 <= i <= |ordered|
      invariant verified == FilterGroup(c, keysMap, ordered[..i])
    {
      assert ordered[..i + 1][..i] == ordered[..i];
      if VerifiedInGroup(c, keysMap, ordered[i]) {
        verified := verified + [ordered[i]];
      }
      i := i + 1;
    }
    assert ordered[..i] == ordered;
  }

  method ValidateNodeMessages(
    c: Crypto, messages: map<Address, Message>, keys: map<Address, Message>) returns (r: Parsed<seq<Message>>)
    ensures r == ValidateNode(c, messages, keys)
    ensures r == Malformed <==> messages != map[] && |keys| >= QUORUM_SIZE && !SentinelSafety.AllNamed(c, keys)
  {
    SentinelSafety.NamedIffAllNamed(c, keys);
    hide InOrder, ListKey, SignedUnder, ChosenKey, SentinelSafety.AllNamed;
    if |messages| == 0 || |keys| < QUORUM_SIZE {
      return Parsed([]);
    }
    var keysMap: KeysMap := map[];
    var responses := InOrder(keys);
    var i := 0;
    while i < |responses|
      invariant 0 <= i <= |responses|
      invariant CollectClientKeys(c, responses[..i]) == Parsed(keysMap)
    {
      assert responses[..i + 1][..i] == responses[..i];
      var response := c.parseClientKey(responses[i].body);
      if response.Malformed? {
        MalformedStays(c, responses, i + 1);
        return Malformed;
      }
      keysMap := ListKey(keysMap, response.value.address, response.value.key);
      i := i + 1;
    }
    assert responses[..i] == responses;
    var publicKey := ChosenKey(keysMap);
    if publicKey.None? || !c.validKey(publicKey.value) {
      return Parsed([]);
    }
    var verified: seq<Message> := [];
    var ordered := InOrder(messages);
    i := 0;
    while i < |ordered|
      invariant 0 <= i <= |ordered|
      invariant verified == FilterSigned(c, publicKey.value, ordered[..i])
    {
      assert ordered[..i + 1][..i] == ordered[..i];
      if SignedUnder(c, ordered[i], publicKey.value) {
        verified := verified + [ordered[i]];
      }
      i := i + 1;
    }
    assert ordered[..i] == ordered;
    return Parsed(verified);
  }

  method ResolveGroupMessages(c: Crypto, verified: seq<Message>) returns (r: Parsed<Option<Message>>)
    ensures r == ResolveGroup(c, verified)
    ensures SentinelSafety.DistinctSenders(verified) ==>
      SentinelLaws.Resolves(c, verified, SentinelLaws.OutcomeOf(r))
  {
    if SentinelSafety.DistinctSenders(verified) { SentinelLaws.ResolvedIs(c, verified); }
    hide SentinelSafety.DistinctSenders, SentinelLaws.Resolves;
    if |verified| < QUORUM_SIZE {
      return Parsed(None);
    }
    if verified[0].tag != AccountTransfer {
      var index := 0;
      while index < |verified|
        invariant 0 <= index <= |verified|
        invariant FirstWithQuorum(verified, 0) == FirstWithQuorum(verified, index)
      {
        if CountBody(verified, verified[index].body) >= QUORUM_SIZE {
          return Parsed(Some(verified[index]));
        }
        index := index + 1;
      }
      return Parsed(None);
    }
    var merged := c.mergeAccounts(Bodies(verified));
    if merged.Malformed? {
      return Malformed;
    }
    if merged.value.None? {
      return Parsed(None);
    }
    return Parsed(Some(verified[0].(body := merged.value.value)));
  }

  method TryGroup(c: Crypto, messages: map<Address, Message>, keys: map<Address, Message>) returns (o: Outcome)
    ensures o == DecideGroup(c, messages, keys)
    ensures (forall n :: n in messages ==> messages[n].header.fromNode == n) ==>
      SentinelLaws.GroupVerdict(c, messages, keys, o)
  {
    if forall n :: n in messages ==> messages[n].header.fromNode == n {
      SentinelLaws.GroupDecisionIs(c, messages, keys);
    }
    hide ValidateGroup, ResolveGroup, SentinelLaws.GroupVerdict;
    var verified := ValidateGroupMessages(c, messages, keys);
    if verified.Malformed? {
      return Thrown;
    }
    var resolved := ResolveGroupMessages(c, verified.value);
    if resolved.Malformed? {
      return Thrown;
    }
    return if resolved.value.Some? then Released(resolved.value.value) else Nothing;
  }

  method TryNode(c: Crypto, messages: map<Address, Message>, keys: map<Address, Message>) returns (o: Outcome)
    ensures o == DecideNode(c, messages, keys)
    ensures (forall n :: n in messages ==> messages[n].header.fromNode == n) ==>
      SentinelLaws.NodeVerdict(c, messages, keys, o)
  {
    if forall n :: n in messages ==> messages[n].header.fromNode == n {
      SentinelLaws.NodeDecisionIs(c, messages, keys);
    }
    hide ValidateNode, SentinelLaws.NodeVerdict;
    var verified := ValidateNodeMessages(c, messages, keys);
    if verified.Malformed? {
      return Thrown;
    }
    return if verified.value != [] then Released(verified.value[0]) else Nothing;
  }

  // ----- The object

  class Sentinel {
    const crypto: Crypto
    const nodeAccumulator: Accumulator.Accumulator<Key, Message>
    const groupAccumulator: Accumulator.Accumulator<Key, Message>
    const groupKeyAccumulator: Accumulator.Accumulator<Address, Message>
    const nodeKeyAccumulator: Accumulator.Accumulator<Address, Message>
    var requests: seq<Request>

    ghost predicate Valid()
      reads this, nodeAccumulator, groupAccumulator, groupKeyAccumulator, nodeKeyAccumulator
    {
      && nodeAccumulator != groupAccumulator && groupKeyAccumulator != nodeKeyAccumulator
      && nodeAccumulator.Valid() && groupAccumulator.Valid() && groupKeyAccumulator.Valid() &&
         nodeKeyAccumulator.Valid()
      && nodeAccumulator.quorum == 1 && groupAccumulator.quorum == QUORUM_SIZE
      && groupKeyAccumulator.quorum == QUORUM_SIZE && nodeKeyAccumulator.quorum == QUORUM_SIZE
      && nodeAccumulator.timeToLive == groupAccumulator.timeToLive == TIME_TO_LIVE
      && groupKeyAccumulator.timeToLive == nodeKeyAccumulator.timeToLive == TIME_TO_LIVE
    }

    ghost function View(): State
      requires Valid()
      reads this, nodeAccumulator, groupAccumulator, groupKeyAccumulator, nodeKeyAccumulator
    {
      State(nodeAccumulator.View(), groupAccumulator.View(), groupKeyAccumulator.View(), nodeKeyAccumulator.View(),
        requests)
    }

    constructor (crypto: Crypto)
      ensures Valid() && View() == INITIAL && this.crypto == crypto
      ensures fresh(nodeAccumulator) && fresh(groupAccumulator) && fresh(groupKeyAccumulator)
      ensures fresh(nodeKeyAccumulator)
    {
      this.crypto := crypto;
      nodeAccumulator := new Accumulator.Accumulator(TIME_TO_LIVE, 1);
      groupAccumulator := new Accumulator.Accumulator(TIME_TO_LIVE, QUORUM_SIZE);
      groupKeyAccumulator := new Accumulator.Accumulator(TIME_TO_LIVE, QUORUM_SIZE);
      nodeKeyAccumulator := new Accumulator.Accumulator(TIME_TO_LIVE, QUORUM_SIZE);
      requests := [];
    }

    method Add(m: Message, now: int) returns (outcome: Outcome)
      requires Valid()
      modifies this`requests, nodeAccumulator, groupAccumulator, groupKeyAccumulator, nodeKeyAccumulator
      ensures Valid() && (View(), outcome) == Step(crypto, old(View()), m, now)
    {
      match m.tag
      case GetClientKeyResponse => outcome := AddClientKeyResponse(m, now);
      case GetGroupKeyResponse => outcome := AddGroupKeyResponse(m, now);
      case _ =>
        if m.header.fromGroup.Some? {
          outcome := AddFromGroup(m, m.header.fromGroup.value, now);
        } else {
          outcome := AddFromNode(m, now);
        }
    }

    method AddClientKeyResponse(m: Message, now: int) returns (outcome: Outcome)
      requires Valid()
      modifies nodeAccumulator, nodeKeyAccumulator
      ensures Valid() && (View(), outcome) == AddClientKey(crypto, old(View()), m, now)
    {
      hide Accumulator.Linked, Accumulator.Slots, Accumulator.Has, Accumulator.Lookup, Accumulator.Accumulate;
      hide Accumulator.Without, DecideNode;
      if m.header.fromGroup.None? {
        return Thrown;
      }
      var group := m.header.fromGroup.value;
      var keys := nodeKeyAccumulator.Add(group, m, m.header.fromNode, now);
      if keys.Some? {
        var key := (group, m.header.messageId);
        var messages := nodeAccumulator.GetAll(key);
        if messages.Some? {
          outcome := TryNode(crypto, messages.value, keys.value);
          if outcome.Released? {
            nodeAccumulator.Delete(key, now);
          }
          return;
        }
      }
      return Nothing;
    }

    method AddGroupKeyResponse(m: Message, now: int) returns (outcome: Outcome)
      requires Valid()
      modifies groupAccumulator, groupKeyAccumulator
      ensures Valid() && (View(), outcome) == AddGroupKey(crypto, old(View()), m, now)
    {
      hide Accumulator.Linked, Accumulator.Slots, Accumulator.Has, Accumulator.Lookup, Accumulator.Accumulate;
      hide Accumulator.Without, DecideGroup;
      if m.header.fromGroup.None? {
        return Thrown;
      }
      var group := m.header.fromGroup.value;
      var keys := groupKeyAccumulator.Add(group, m, m.header.fromNode, now);
      if keys.Some? {
        var key := (group, m.header.messageId);
        var messages := groupAccumulator.GetAll(key);
        if messages.Some? {
          outcome := TryGroup(crypto, messages.value, keys.value);
          if outcome.Released? {
            groupAccumulator.Delete(key, now);
          }
          return;
        }
      }
      return Nothing;
    }

    method AddFromGroup(m: Message, group: Address, now: int) returns (outcome: Outcome)
      requires Valid()
      modifies this`requests, groupAccumulator
      ensures Valid() && (View(), outcome) == AddGroupMessage(crypto, old(View()), m, group, now)
    {
      hide Accumulator.Linked, Accumulator.Slots, Accumulator.Has, Accumulator.Lookup, Accumulator.Accumulate;
      hide Accumulator.Without, DecideGroup;
      var key := (group, m.header.messageId);
      var have := groupAccumulator.HaveName(key);
      if !have {
        requests := requests + [GetGroupKey(group)];
      }
      var messages := groupAccumulator.Add(key, m, m.header.fromNode, now);
      if messages.Some? {
        var keys := groupKeyAccumulator.GetAll(group);
        if keys.Some? {
          outcome := TryGroup(crypto, messages.value, keys.value);
          if outcome.Released? {
            groupAccumulator.Delete(key, now);
          }
          return;
        }
      }
      return Nothing;
    }

    method AddFromNode(m: Message, now: int) returns (outcome: Outcome)
      requires Valid()
      modifies this`requests, nodeAccumulator
      ensures Valid() && (View(), outcome) == AddNodeMessage(crypto, old(View()), m, now)
    {
      hide Accumulator.Linked, Accumulator.Slots, Accumulator.Has, Accumulator.Lookup, Accumulator.Accumulate;
      hide Accumulator.Without, DecideNode;
      var key := (m.header.fromNode, m.header.messageId);
      var have := nodeAccumulator.HaveName(key);
      if !have {
        requests := requests + [GetClientKey(m.header.fromNode)];
      }
      var messages := nodeAccumulator.Add(key, m, m.header.fromNode, now);
      if messages.Some? {
        var keys := nodeAccumulator.GetAll(key);
        if keys.Some? {
          outcome := TryNode(crypto, messages.value, keys.value);
          if outcome.Released? {
            nodeAccumulator.Delete(key, now);
          }
          return;
        }
      }
      return Nothing;
    }
  }
}
