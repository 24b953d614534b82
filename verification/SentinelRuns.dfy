/** Whole runs of the sentinel: how often a message is released, and which keys are asked for. */
module SentinelRuns {
  import opened Types
  import opened Xor
  import opened Accumulator
  import opened Sentinel
  import opened SentinelSafety
  import opened SentinelLaws

  /** The state in which the i-th addition of a history is made. */
  ghost function StateAt(c: Crypto, h: seq<Event>, i: nat): State
    requires i <= |h|
  {
    StateAfter(c, h[..i])
  }

  lemma NextState(c: Crypto, h: seq<Event>, i: nat)
    requires i < |h|
    ensures StateAt(c, h, i + 1) == Step(c, StateAt(c, h, i), h[i].message, h[i].now).0
    ensures OutcomeAt(c, h, i) == Step(c, StateAt(c, h, i), h[i].message, h[i].now).1
  {
    hide Step;
    AfterIsStep(c, h[..i + 1]);
    assert h[..i + 1][..i] == h[..i];
  }

  // ----- Releases of a single node's message

  ghost predicate NoArrival(h: seq<Event>, n: Address, id: MessageId, i: nat, j: nat) {
    forall k :: i <= k < j && k < |h| ==> !IsNodeMessage(h[k].message, n, id)
  }

  /** What is not waiting stays so until a message of that node with that id arrives. */
  lemma {:induction false} StaysAbsent(c: Crypto, h: seq<Event>, n: Address, id: MessageId, i: nat, j: nat)
    requires i <= j <= |h| && !Has(StateAt(c, h, i).nodeMessages, (n, id)) && NoArrival(h, n, id, i, j)
    ensures !Has(StateAt(c, h, j).nodeMessages, (n, id))
    decreases j
  {
    hide Step, StateAt, StateAfter, Has, ValuesOf, Stale;
    if i < j {
      StaysAbsent(c, h, n, id, i, j - 1);
      NextState(c, h, j - 1);
      NodeStepAt(c, h, j - 1, n, id);
    }
  }

  lemma NodeStepAt(c: Crypto, h: seq<Event>, i: nat, n: Address, id: MessageId)
    requires i < |h|
    ensures var before, after := StateAt(c, h, i).nodeMessages, StateAt(c, h, i + 1).nodeMessages;
      var m, now := h[i].message, h[i].now;
      && (ReleasesNode(OutcomeAt(c, h, i), n, id) ==> n in ValuesOf(before, (n, id)))
      && if ReleasesNode(OutcomeAt(c, h, i), n, id) then !Has(after, (n, id))
         else if !IsKeyTag(m.tag) && m.header.fromGroup.None? then
           FiledFor(before, after, (m.header.fromNode, m.header.messageId), m, now, (n, id))
         else SameFor(before, after, (n, id))
  {
    NextState(c, h, i);
    NodeMessagesStep(c, h[..i], h[i].message, h[i].now, n, id);
    hide Step, StateAfter, FiledFor, SameFor;
  }

  /** No single-node message is released twice: between two releases with the same node and id, that
      node's message with that id arrives again. */
  lemma NodeReleasedOncePerArrival(c: Crypto, h: seq<Event>, n: Address, id: MessageId, i: nat, j: nat)
    requires i < j < |h| && ReleasesNode(OutcomeAt(c, h, i), n, id) && ReleasesNode(OutcomeAt(c, h, j), n, id)
    ensures exists k :: i < k < j && IsNodeMessage(h[k].message, n, id)
  {
    hide StateAt, OutcomeAt, Has, ValuesOf, FiledFor, SameFor, ReleasesNode, IsNodeMessage;
    NodeStepAt(c, h, i, n, id);
    NodeStepAt(c, h, j, n, id);
    AbsentIsEmpty(StateAt(c, h, j).nodeMessages, (n, id));
    if NoArrival(h, n, id, i + 1, j) {
      StaysAbsent(c, h, n, id, i + 1, j);
    }
  }

  /** What waits is released as it arrived: the released message is one that arrived before, after
      the last release of that node and id. */
  lemma {:induction false} WaitingArrived(c: Crypto, h: seq<Event>, n: Address, id: MessageId, j: nat) returns (k: nat)
    requires j <= |h| && n in ValuesOf(StateAt(c, h, j).nodeMessages, (n, id))
    ensures k < j && IsNodeMessage(h[k].message, n, id)
    ensures ValuesOf(StateAt(c, h, j).nodeMessages, (n, id))[n] == h[k].message
    ensures forall i :: k <= i < j ==> !ReleasesNode(OutcomeAt(c, h, i), n, id)
    decreases j
  {
    hide StateAt, OutcomeAt, Has, ValuesOf, ReleasesNode, IsNodeMessage;
    NothingAtFirst(c, h, n, id);
    NodeArrives(c, h, n, id, j - 1);
    if n in ValuesOf(StateAt(c, h, j - 1).nodeMessages, (n, id)) {
      k := WaitingArrived(c, h, n, id, j - 1);
    } else {
      k := j - 1;
    }
  }

  lemma NothingAtFirst(c: Crypto, h: seq<Event>, n: Address, id: MessageId)
    ensures ValuesOf(StateAt(c, h, 0).nodeMessages, (n, id)) == map[]
  {
    hide Step;
    assert StateAt(c, h, 0) == INITIAL;
  }

  lemma NodeArrives(c: Crypto, h: seq<Event>, n: Address, id: MessageId, i: nat)
    requires i < |h| && n in ValuesOf(StateAt(c, h, i + 1).nodeMessages, (n, id))
    ensures !ReleasesNode(OutcomeAt(c, h, i), n, id)
    ensures var before, after := StateAt(c, h, i).nodeMessages, StateAt(c, h, i + 1).nodeMessages;
      if n in ValuesOf(before, (n, id)) then ValuesOf(after, (n, id))[n] == ValuesOf(before, (n, id))[n]
      else IsNodeMessage(h[i].message, n, id) && ValuesOf(after, (n, id))[n] == h[i].message
  {
    hide StateAt, OutcomeAt, Has, Stale, ValuesOf, ReleasesNode;
    NodeStepAt(c, h, i, n, id);
    AbsentIsEmpty(StateAt(c, h, i + 1).nodeMessages, (n, id));
  }

  // ----- Releases of a group's message

  /** The nodes that sent a message of the group with that id from the i-th addition up to the j-th. */
  ghost function Arrived(h: seq<Event>, g: Address, id: MessageId, i: nat, j: nat): set<Address>
    requires j <= |h|
  {
    set k | i <= k < j && IsGroupMessage(h[k].message, g, id) :: h[k].message.header.fromNode
  }

  lemma GroupStepAt(c: Crypto, h: seq<Event>, i: nat, g: Address, id: MessageId)
    requires i < |h|
    ensures var before, after := StateAt(c, h, i).groupMessages, StateAt(c, h, i + 1).groupMessages;
      var m, now := h[i].message, h[i].now;
      if ReleasesGroup(OutcomeAt(c, h, i), g, id) then !Has(after, (g, id))
      else if !IsKeyTag(m.tag) && m.header.fromGroup.Some? then
        FiledFor(before, after, (m.header.fromGroup.value, m.header.messageId), m, now, (g, id))
      else SameFor(before, after, (g, id))
  {
    NextState(c, h, i);
    GroupMessagesStep(c, h[..i], h[i].message, h[i].now, g, id);
    hide Step, StateAfter, FiledFor, SameFor;
  }

  /** Starting from nothing, what is held under (g, id) is what has arrived since. */
  lemma {:induction false} HeldHasArrived(c: Crypto, h: seq<Event>, g: Address, id: MessageId, i: nat, j: nat)
    requires i <= j <= |h| && ValuesOf(StateAt(c, h, i).groupMessages, (g, id)) == map[]
    ensures ValuesOf(StateAt(c, h, j).groupMessages, (g, id)).Keys <= Arrived(h, g, id, i, j)
    decreases j
  {
    hide StateAt, OutcomeAt, Has, Stale, ValuesOf, ReleasesGroup;
    if i < j {
      HeldHasArrived(c, h, g, id, i, j - 1);
      GroupStepAt(c, h, j - 1, g, id);
      AbsentIsEmpty(StateAt(c, h, j).groupMessages, (g, id));
      assert Arrived(h, g, id, i, j - 1) <= Arrived(h, g, id, i, j);
    }
  }

  /** A release is of at least a quorum of messages. */
  lemma ReleaseHasHeldQuorum(c: Crypto, h: seq<Event>, m: Message, now: int, g: Address, id: MessageId)
    requires ReleasesGroup(Step(c, StateAfter(c, h), m, now).1, g, id)
    ensures var held := ValuesOf(StateAfter(c, h).groupMessages, (g, id));
      if IsGroupMessage(m, g, id) then |WithFirst(held, m)| >= QUORUM_SIZE else |held| >= QUORUM_SIZE
  {
    hide Step, StateAfter, ValuesOf, AllVerified, Resolves, WithFirst;
    WhoIsReleased(c, h, m, now);
    StepIs(c, h, m, now);
  }

  /** Between two releases with the same group and id a quorum of distinct nodes send again: a
      released group message cannot be released again from what was received before. */
  lemma GroupReleasedOncePerQuorum(c: Crypto, h: seq<Event>, g: Address, id: MessageId, i: nat, j: nat)
    requires i < j < |h| && ReleasesGroup(OutcomeAt(c, h, i), g, id) && ReleasesGroup(OutcomeAt(c, h, j), g, id)
    ensures |Arrived(h, g, id, i + 1, j + 1)| >= QUORUM_SIZE
  {
    GroupStepAt(c, h, i, g, id);
    ReleaseHasHeldQuorum(c, h[..j], h[j].message, h[j].now, g, id);
    hide Has, ValuesOf, FiledFor, SameFor, ReleasesGroup, Step, StateAfter;
    AbsentIsEmpty(StateAt(c, h, i + 1).groupMessages, (g, id));
    HeldHasArrived(c, h, g, id, i + 1, j);
    var held := ValuesOf(StateAt(c, h, j).groupMessages, (g, id));
    assert Arrived(h, g, id, i + 1, j) <= Arrived(h, g, id, i + 1, j + 1);
    assert |held| == |held.Keys|;
    assert |WithFirst(held, h[j].message)| == |WithFirst(held, h[j].message).Keys|;
    if IsGroupMessage(h[j].message, g, id) {
      assert WithFirst(held, h[j].message).Keys <= Arrived(h, g, id, i + 1, j + 1);
      SubsetSize(WithFirst(held, h[j].message).Keys, Arrived(h, g, id, i + 1, j + 1));
    } else {
      SubsetSize(held.Keys, Arrived(h, g, id, i + 1, j + 1));
    }
  }

  // ----- Key requests

  /** In this state `m` finds no slot for its name, so the keys of `q` are asked for. */
  ghost predicate Opens(s: State, m: Message, q: Request) {
    match q
    case GetGroupKey(g) => IsGroupMessage(m, g, m.header.messageId) && !Has(s.groupMessages, (g, m.header.messageId))
    case GetClientKey(n) => IsNodeMessage(m, n, m.header.messageId) && !Has(s.nodeMessages, (n, m.header.messageId))
  }

  /** A step asks for the keys it opens a slot for, and for nothing else. */
  lemma StepAsks(c: Crypto, s: State, m: Message, now: int)
    ensures forall q :: Opens(s, m, q) ==> Step(c, s, m, now).0.requests == s.requests + [q]
    ensures (forall q :: !Opens(s, m, q)) ==> Step(c, s, m, now).0.requests == s.requests
  {
    hide Collect, Without, ValuesOf, Has, DecideGroup, DecideNode;
    if !IsKeyTag(m.tag) {
      var q := if m.header.fromGroup.Some? then GetGroupKey(m.header.fromGroup.value)
        else GetClientKey(m.header.fromNode);
      assert Opens(s, m, q) || forall q' :: !Opens(s, m, q');
    }
  }

  ghost predicate OpensAt(c: Crypto, h: seq<Event>, i: nat, q: Request)
    requires i < |h|
  {
    Opens(StateAt(c, h, i), h[i].message, q)
  }

  /** `at` are the additions of `h` that found no slot for their name, in order, and `requests` the
      keys each of them lacked. */
  ghost predicate Openings(c: Crypto, h: seq<Event>, requests: seq<Request>, at: seq<nat>) {
    && |at| == |requests|
    && (forall k, l :: 0 <= k < l < |at| ==> at[k] < at[l])
    && (forall k :: 0 <= k < |at| ==> at[k] < |h| && OpensAt(c, h, at[k], requests[k]))
    && (forall i, q :: 0 <= i < |h| && OpensAt(c, h, i, q) ==> i in at)
  }

  /** The keys asked for in a run are one request for each addition that found no slot for its name,
      in that order, and no other. */
  lemma {:induction false} RequestsAreOpenings(c: Crypto, h: seq<Event>) returns (at: seq<nat>)
    ensures Openings(c, h, StateAfter(c, h).requests, at)
  {
    if h == [] {
      at := [];
    } else {
      var init, e := h[..|h| - 1], h[|h| - 1];
      at := RequestsAreOpenings(c, init);
      var s := StateAfter(c, init);
      StepAsks(c, s, e.message, e.now);
      AfterIsStep(c, h);
      hide StateAfter, Step, Opens;
      if q :| Opens(s, e.message, q) {
        OpeningsGrow(c, h, s.requests, at, q);
        at := at + [|h| - 1];
      } else {
        OpeningsStay(c, h, s, e.message, s.requests, at);
      }
    }
  }

  lemma PrefixOpens(c: Crypto, h: seq<Event>, i: nat, q: Request)
    requires i + 1 < |h|
    ensures OpensAt(c, h[..|h| - 1], i, q) <==> OpensAt(c, h, i, q)
  {
    hide Opens, StateAfter;
    assert h[..|h| - 1][..i] == h[..i];
  }

  lemma OpeningsStay(c: Crypto, h: seq<Event>, s: State, m: Message, requests: seq<Request>, at: seq<nat>)
    requires h != [] && Openings(c, h[..|h| - 1], requests, at)
    requires s == StateAfter(c, h[..|h| - 1]) && m == h[|h| - 1].message && forall q :: !Opens(s, m, q)
    ensures Openings(c, h, requests, at)
  {
    forall i: nat, q | i < |h| - 1 ensures OpensAt(c, h[..|h| - 1], i, q) <==> OpensAt(c, h, i, q) {
      PrefixOpens(c, h, i, q);
    }
    hide Opens, StateAfter;
  }

  lemma OpeningsGrow(c: Crypto, h: seq<Event>, requests: seq<Request>, at: seq<nat>, q: Request)
    requires h != [] && Openings(c, h[..|h| - 1], requests, at)
    requires Opens(StateAfter(c, h[..|h| - 1]), h[|h| - 1].message, q)
    ensures Openings(c, h, requests + [q], at + [|h| - 1])
  {
    forall i: nat, q | i < |h| - 1 ensures OpensAt(c, h[..|h| - 1], i, q) <==> OpensAt(c, h, i, q) {
      PrefixOpens(c, h, i, q);
    }
    hide Opens, StateAfter;
    var at' := at + [|h| - 1];
    forall i: nat, q' | i < |h| && OpensAt(c, h, i, q') ensures i in at' {
      if i < |h| - 1 { assert i in at; } else { assert at'[|at|] == i; }
    }
  }

  /** The same keys are asked for twice on account of one group message only if it was released or
      expired in between. */
  lemma AskedAgain(c: Crypto, h: seq<Event>, g: Address, id: MessageId, i: nat, j: nat)
    requires i < j < |h| && IsGroupMessage(h[i].message, g, id) && IsGroupMessage(h[j].message, g, id)
    requires OpensAt(c, h, j, GetGroupKey(g))
    ensures exists k :: i <= k < j && GroupLeaves(c, h, k, g, id)
  {
    hide StateAt, OutcomeAt, Has, Stale, ValuesOf, ReleasesGroup;
    GroupStepAt(c, h, i, g, id);
    if !GroupLeaves(c, h, i, g, id) { StaysUntil(c, h, g, id, i + 1, j); }
  }

  /** The addition at `k` releases the message of (g, id) or drops it as stale. */
  ghost predicate GroupLeaves(c: Crypto, h: seq<Event>, k: nat, g: Address, id: MessageId)
    requires k < |h|
  {
    ReleasesGroup(OutcomeAt(c, h, k), g, id) || Stale(StateAt(c, h, k).groupMessages, (g, id), h[k].now)
  }

  lemma {:induction false} StaysUntil(c: Crypto, h: seq<Event>, g: Address, id: MessageId, i: nat, j: nat)
    requires i <= j <= |h|
    requires Has(StateAt(c, h, i).groupMessages, (g, id)) && !Has(StateAt(c, h, j).groupMessages, (g, id))
    ensures exists k :: i <= k < j && GroupLeaves(c, h, k, g, id)
    decreases j
  {
    hide StateAt, OutcomeAt, Has, Stale, ValuesOf, ReleasesGroup;
    GroupStepAt(c, h, j - 1, g, id);
    if Has(StateAt(c, h, j - 1).groupMessages, (g, id)) {
      assert GroupLeaves(c, h, j - 1, g, id);
    } else {
      StaysUntil(c, h, g, id, i, j - 1);
    }
  }
}
