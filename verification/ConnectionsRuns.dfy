/** What every interleaving of calls and completions keeps, and exactly when a step breaks what the
    rest of the layer relies on. */
module ConnectionsRuns {
  import opened Types
  import opened Xor
  import opened ConnectionsModel

  /** The state after any sequence of calls and completions. */
  ghost function After(v: View, script: seq<Input>): View {
    if script == [] then v else Next(After(v, script[..|script| - 1]), script[|script| - 1])
  }

  lemma {:induction false} RunIsConsistent(v: View, script: seq<Input>)
    requires Consistent(v)
    ensures Consistent(After(v, script)) && v.log <= After(v, script).log
  {
    hide Consistent, Next;
    if script != [] {
      RunIsConsistent(v, script[..|script| - 1]);
      NextKeeps(After(v, script[..|script| - 1]), script[|script| - 1]);
      NextAppends(After(v, script[..|script| - 1]), script[|script| - 1]);
    }
  }

  lemma NextAppends(v: View, input: Input)
    ensures v.log <= Next(v, input).log
  {
    hide ConnectDone, ExchangeDone, SendDone, ReceiveDone;
    if input.Complete? && input.token in v.pending {
      match v.pending[input.token]
      case Connecting(_, _) => ConnectLogs(v, input);
      case Exchanging(_, _) => ExchangeLogs(v, input);
      case Sending(_, _, _) => SendLogs(v, input);
      case Receiving(_, _, _) => ReceiveLogs(v, input);
      case Accepting(_, _, _) =>
    }
  }

  lemma ConnectLogs(v: View, input: Input)
    requires input.Complete? && input.token in v.pending && v.pending[input.token].Connecting?
    ensures ConnectDone(v, input.token, input.error).log == v.log
  {
  }

  lemma ExchangeLogs(v: View, input: Input)
    requires input.Complete? && input.token in v.pending && v.pending[input.token].Exchanging?
    ensures ExchangeDone(v, input.token, input.error, input.peer).log == v.log
  {
  }

  lemma SendLogs(v: View, input: Input)
    requires input.Complete? && input.token in v.pending && v.pending[input.token].Sending?
    ensures SendDone(v, input.token, input.error).log == v.log
  {
  }

  lemma ReceiveLogs(v: View, input: Input)
    requires input.Complete? && input.token in v.pending && v.pending[input.token].Receiving?
    ensures v.log <= ReceiveDone(v, input.token, input.error, input.bytes).log
  {
  }

  // ----- The assertion in Send

  /** What sending asserts: the endpoint of a known id is in the table. */
  ghost predicate IdsHeld(v: View) {
    forall id :: id in v.ids ==> v.ids[id] in v.connections
  }

  /** Putting a socket somewhere never breaks it... */
  lemma PlaceKeepsHeld(v: View, s: Socket, e: Endpoint)
    requires IdsHeld(v)
    ensures IdsHeld(Place(v, s, e))
  {
  }

  /** ...and removing one keeps it exactly when no other id leads there. */
  lemma DropKeepsHeldIff(v: View, e: Endpoint, id: Option<Address>)
    requires IdsHeld(v)
    ensures IdsHeld(Drop(v, e, id)) <==> forall x :: x in v.ids && v.ids[x] == e ==> id == Some(x)
  {
    var w := Drop(v, e, id);
    forall x | x in v.ids && v.ids[x] == e && id != Some(x) ensures x in w.ids && w.ids[x] !in w.connections {
    }
  }

  /** The completion of an operation on a live socket, with an error, that takes its endpoint out of
      the table. */
  ghost predicate Removes(v: View, input: Input) {
    && input.Complete? && input.token in v.pending && input.error != Success
    && var op := v.pending[input.token];
    !op.Accepting? && !op.Connecting? && Alive(v, op.socket)
  }

  /** The id such a completion erases. */
  ghost function Erases(v: View, input: Input): Option<Address>
    requires Removes(v, input)
  {
    var op := v.pending[input.token];
    if op.Exchanging? then None else Some(op.id)
  }

  /** From a state in which the assertion holds for every id, a step breaks it exactly when it removes
      an endpoint that an id it does not erase leads to. */
  lemma StepBreaksHeldIff(v: View, input: Input)
    requires Consistent(v) && IdsHeld(v)
    ensures !IdsHeld(Next(v, input)) <==>
      Removes(v, input) &&
      exists x :: x in v.ids && v.ids[x] == v.pending[input.token].endpoint && Erases(v, input) != Some(x)
  {
    if Removes(v, input) {
      RemovalDrops(v, input);
      DropKeepsHeldIff(v, v.pending[input.token].endpoint, Erases(v, input));
    } else {
      OtherStepKeepsHeld(v, input);
    }
    hide Consistent, Next, Drop;
  }

  /** As far as the two maps go, a removal is a drop. */
  lemma RemovalDrops(v: View, input: Input)
    requires Removes(v, input)
    ensures var w := Drop(v, v.pending[input.token].endpoint, Erases(v, input));
      Next(v, input).connections == w.connections && Next(v, input).ids == w.ids
  {
    hide ConnectDone, ExchangeDone, SendDone, ReceiveDone, Dial, Listen, AcceptDone, SendTo, Clear;
    match v.pending[input.token]
    case Exchanging(_, _) => ExchangeDrops(v, input);
    case Sending(_, _, _) => SendDrops(v, input);
    case Receiving(_, _, _) => ReceiveDrops(v, input);
  }

  lemma ExchangeDrops(v: View, input: Input)
    requires Removes(v, input) && v.pending[input.token].Exchanging?
    ensures var u := ExchangeDone(v, input.token, input.error, input.peer);
      u.connections == v.connections - {v.pending[input.token].endpoint} && u.ids == v.ids
  {
  }

  lemma SendDrops(v: View, input: Input)
    requires Removes(v, input) && v.pending[input.token].Sending?
    ensures var u, op := SendDone(v, input.token, input.error), v.pending[input.token];
      u.connections == v.connections - {op.endpoint} && u.ids == v.ids - {op.id}
  {
  }

  lemma ReceiveDrops(v: View, input: Input)
    requires Removes(v, input) && v.pending[input.token].Receiving?
    ensures var u, op := ReceiveDone(v, input.token, input.error, input.bytes), v.pending[input.token];
      u.connections == v.connections - {op.endpoint} && u.ids == v.ids - {op.id}
  {
  }

  lemma OtherStepKeepsHeld(v: View, input: Input)
    requires Consistent(v) && IdsHeld(v) && !Removes(v, input)
    ensures IdsHeld(Next(v, input))
  {
    if input.Complete? && input.token in v.pending { FinishedOperation(v, input.token); }
    hide Consistent, Captured, MayStart, OnlySends, NoErrorYet, NotFailed;
  }

  /** In every run the assertion holds for an id exactly when the endpoint of its last registration
      has not been removed, or has been filled again. */
  lemma SendAssertionIff(script: seq<Input>, id: Address)
    ensures var v := After(INITIAL, script);
      id in v.ids <==> LeadsTo(v.history, id).Some?
    ensures var v := After(INITIAL, script);
      id in v.ids ==> (v.ids[id] in v.connections <==> Present(v.history, LeadsTo(v.history, id).value))
  {
    hide After, LeadsTo, Present;
    InitialIsConsistent();
    RunIsConsistent(INITIAL, script);
  }

  // ----- Ids that lead to a socket of their own

  /** In every run an id leads to a socket registered to it exactly when nothing was put at or removed
      from its endpoint since its last registration. */
  lemma LeadsIff(script: seq<Input>, id: Address)
    ensures var v := After(INITIAL, script); Leads(v, id) <==> Intact(v.history, id)
  {
    hide After, LeadsTo, Present, Intact;
    InitialIsConsistent();
    RunIsConsistent(INITIAL, script);
  }

  ghost predicate IdsLead(v: View) {
    forall id :: id in v.ids ==> Leads(v, id)
  }

  /** Putting a new socket at `e`, over whatever is there, keeps every id leading to a socket of its
      own exactly when no id leads to `e` already. */
  lemma PlaceKeepsIdsIff(v: View, s: Socket, e: Endpoint)
    requires Consistent(v) && IdsLead(v) && s !in v.place && s !in v.owner
    ensures IdsLead(Place(v, s, e)) <==> e !in v.ids.Values
  {
    hide HistoryAgrees, PendingAgrees, LogAgrees, FailedStay;
    if e in v.ids.Values {
      var id :| id in v.ids && v.ids[id] == e;
      assert Place(v, s, e).connections[e] == s;
      assert !Leads(Place(v, s, e), id);
    }
  }

  /** What is being sent to a live socket goes to its owner. */
  ghost predicate SendsAgree(v: View) {
    forall t :: t in v.pending && v.pending[t].Sending? && Alive(v, v.pending[t].socket) ==>
      v.pending[t].socket in v.owner && v.owner[v.pending[t].socket] == v.pending[t].id
  }

  ghost predicate Linked(v: View) {
    IdsLead(v) && SendsAgree(v)
  }

  /** A successful accept from an endpoint that an id leads to. */
  ghost predicate Overwrites(v: View, input: Input) {
    && input.CompleteAccept? && input.token in v.pending && v.pending[input.token].Accepting?
    && v.pending[input.token].acceptor in v.acceptors.Values
    && input.error == Success && input.remote in v.ids.Values
  }

  /** From a state in which every id leads to a socket of its own, and is sent to there, a step breaks
      this exactly when it is an accept from an endpoint that an id leads to. */
  lemma StepBreaksLinksIff(v: View, input: Input)
    requires Consistent(v) && Linked(v)
    ensures Linked(Next(v, input)) <==> !Overwrites(v, input)
  {
    hide Consistent, Linked, SendTo, Dial, Listen, Clear;
    hide ConnectDone, ExchangeDone, AcceptDone, SendDone, ReceiveDone;
    match input
    case DoSend(id) => if id in v.ids && v.ids[id] in v.connections { SendKeepsLinks(v, id); }
    case DoReceive(_) =>
    case DoConnect(endpoint) => DialKeepsLinks(v, endpoint);
    case DoAccept(port) => ListenKeepsLinks(v, port);
    case DoShutdown => ClearIsLinked(v);
    case CompleteAccept(token, error, remote) =>
      if token in v.pending && v.pending[token].Accepting? { AcceptBreaksLinksIff(v, token, error, remote); }
    case Complete(token, error, peer, bytes) =>
      if token in v.pending && !v.pending[token].Accepting? { CompletionKeepsLinks(v, token, error, peer, bytes); }
  }

  lemma SendKeepsLinks(v: View, id: Address)
    requires Linked(v) && id in v.ids && v.ids[id] in v.connections
    ensures Linked(SendTo(v, id))
  {
  }

  lemma PlaceKeepsLinks(v: View, s: Socket, e: Endpoint)
    requires InPlace(v) && PendingAgrees(v) && Linked(v) && s !in v.place && s !in v.owner
    ensures Linked(Place(v, s, e)) <==> e !in v.ids.Values
  {
    if e in v.ids.Values {
      var id :| id in v.ids && v.ids[id] == e;
      assert Place(v, s, e).connections[e] == s;
      assert !Leads(Place(v, s, e), id);
    }
  }

  /** Only the maps, the owners and the sends matter. */
  lemma SameLinks(v: View, w: View)
    requires w.ids == v.ids && w.connections == v.connections && w.owner == v.owner
    requires forall t :: t in w.pending && w.pending[t].Sending? ==> t in v.pending && w.pending[t] == v.pending[t]
    requires forall t :: t in v.pending && v.pending[t].Sending? ==> t in w.pending && w.pending[t] == v.pending[t]
    ensures Linked(v) <==> Linked(w)
  {
  }

  lemma DialKeepsLinks(v: View, e: Endpoint)
    requires Consistent(v) && Linked(v)
    ensures Linked(Dial(v, e))
  {
    hide Consistent, Linked, NotFailed;
    if e !in v.connections {
      assert e !in v.ids.Values by { LinkedIsHeld(v); }
      SameLinks(v, Bump(v));
      BumpKeeps(v, v.acceptors);
      PlaceBreaksLinksIff(Bump(v), v.next, e);
      StartKeepsLinks(Place(Bump(v), v.next, e), Connecting(v.next, e));
    }
  }

  lemma LinkedIsHeld(v: View)
    requires Linked(v)
    ensures IdsHeld(v)
  {
  }

  lemma ListenKeepsLinks(v: View, port: nat)
    requires Consistent(v) && Linked(v)
    ensures Linked(Listen(v, port))
  {
    hide Consistent, Linked, NotFailed;
    BumpKeeps(v, v.acceptors[port := v.next]);
    var w := if port in v.acceptors then v else Bump(v).(acceptors := v.acceptors[port := v.next]);
    BumpKeeps(w, w.acceptors);
    SameLinks(v, w);
    SameLinks(w, Bump(w));
    StartKeepsLinks(Bump(w), Accepting(w.next, port, w.acceptors[port]));
  }

  lemma ClearIsLinked(v: View)
    ensures Linked(Clear(v))
  {
  }

  lemma AcceptBreaksLinksIff(v: View, token: nat, error: ErrorCode, remote: Endpoint)
    requires Consistent(v) && Linked(v) && token in v.pending && v.pending[token].Accepting?
    ensures Linked(AcceptDone(v, token, error, remote)) <==> !Overwrites(v, CompleteAccept(token, error, remote))
  {
    hide Consistent, Linked, NotFailed, MayStart;
    var op := v.pending[token];
    var w := Finish(v, token).(acceptors := v.acceptors - {op.port});
    SameLinks(v, Finish(v, token));
    SameLinks(v, w);
    FinishKeeps(v, token);
    FinishedOperation(v, token);
    AcceptorsKeep(Finish(v, token), w.acceptors);
    PlaceBreaksLinksIff(w, op.socket, remote);
    StartKeepsLinks(Place(w, op.socket, remote), Exchanging(op.socket, remote));
  }

  lemma PlaceBreaksLinksIff(v: View, s: Socket, e: Endpoint)
    requires Consistent(v) && Linked(v) && s !in v.place && s !in v.owner
    requires forall t :: t in v.pending ==> !(v.pending[t].Accepting? && v.pending[t].socket == s)
    requires s < v.next
    ensures Linked(Place(v, s, e)) <==> e !in v.ids.Values
    ensures Consistent(Place(v, s, e))
  {
    PlaceKeeps(v, s, e);
    hide Linked, LogAgrees, HistoryAgrees, FailedStay, NotFailed;
    PlaceKeepsLinks(v, s, e);
  }

  lemma StartKeepsLinks(v: View, op: Operation)
    requires Consistent(v) && !op.Sending?
    ensures Linked(v) <==> Linked(Start(v, op))
  {
    hide Linked, LogAgrees, HistoryAgrees, FailedStay, InPlace, Captured, Exclusive;
    SameLinks(v, Start(v, op));
  }

  lemma DropKeepsLinks(v: View, e: Endpoint, id: Option<Address>)
    requires Consistent(v) && Linked(v) && e in v.connections
    requires id == if v.connections[e] in v.owner then Some(v.owner[v.connections[e]]) else None
    ensures Linked(Drop(v, e, id))
  {
    hide PendingAgrees, LogAgrees, HistoryAgrees, FailedStay;
  }

  lemma OwnKeepsLinks(v: View, s: Socket, e: Endpoint, id: Address)
    requires Consistent(v) && Linked(v) && e in v.connections && v.connections[e] == s && s !in v.owner
    ensures Linked(Own(v, s, e, id))
  {
    hide PendingAgrees, LogAgrees, HistoryAgrees, FailedStay;
  }

  lemma FinishKeepsLinks(v: View, token: nat)
    requires Linked(v)
    ensures Linked(Finish(v, token))
    ensures token in v.pending && v.pending[token].Sending? && Alive(v, v.pending[token].socket) ==>
      v.pending[token].socket in v.owner && v.owner[v.pending[token].socket] == v.pending[token].id
  {
  }

  lemma CompletionKeepsLinks(v: View, token: nat, error: ErrorCode, peer: Address, bytes: Bytes)
    requires Consistent(v) && Linked(v) && token in v.pending && !v.pending[token].Accepting?
    ensures Linked(Next(v, Complete(token, error, peer, bytes)))
  {
    FinishKeepsLinks(v, token);
    FinishKeeps(v, token);
    FinishedOperation(v, token);
    hide Consistent, Linked, OnlySends, NoErrorYet, NotFailed, MayStart;
    match v.pending[token]
    case Connecting(_, _) => ConnectDoneKeepsLinks(v, token, error);
    case Exchanging(_, _) => ExchangeDoneKeepsLinks(v, token, error, peer);
    case Sending(s, e, id) => if Alive(Finish(v, token), s) { DropKeepsLinks(Finish(v, token), e, Some(id)); }
    case Receiving(_, _, _) => ReceiveDoneKeepsLinks(v, token, error, bytes);
  }

  lemma ConnectDoneKeepsLinks(v: View, token: nat, error: ErrorCode)
    requires Consistent(v) && Linked(v) && token in v.pending && v.pending[token].Connecting?
    ensures Linked(ConnectDone(v, token, error))
  {
    FinishKeepsLinks(v, token);
    FinishKeeps(v, token);
    hide Consistent, Linked;
    var op, w := v.pending[token], Finish(v, token);
    SameLinks(w, w.(failed := w.failed + {op.endpoint}));
    StartKeepsLinks(w, Exchanging(op.socket, op.endpoint));
  }

  lemma ExchangeDoneKeepsLinks(v: View, token: nat, error: ErrorCode, peer: Address)
    requires Consistent(v) && Linked(v) && token in v.pending && v.pending[token].Exchanging?
    ensures Linked(ExchangeDone(v, token, error, peer))
  {
    var op, w := v.pending[token], Finish(v, token);
    FinishKeepsLinks(v, token);
    FinishKeeps(v, token);
    FinishedOperation(v, token);
    if Alive(w, op.socket) {
      hide Consistent, Linked, OnlySends, NoErrorYet, NotFailed, MayStart;
      if error != Success {
        DropKeepsLinks(w, op.endpoint, None);
      } else {
        OwnKeeps(w, op.socket, op.endpoint, peer);
        OwnKeepsLinks(w, op.socket, op.endpoint, peer);
        StartKeepsLinks(Own(w, op.socket, op.endpoint, peer), Receiving(op.socket, op.endpoint, peer));
      }
    }
  }

  lemma ReceiveDoneKeepsLinks(v: View, token: nat, error: ErrorCode, bytes: Bytes)
    requires Consistent(v) && Linked(v) && token in v.pending && v.pending[token].Receiving?
    ensures Linked(ReceiveDone(v, token, error, bytes))
  {
    var op, w := v.pending[token], Finish(v, token);
    FinishKeepsLinks(v, token);
    FinishKeeps(v, token);
    FinishedOperation(v, token);
    var result := if Alive(w, op.socket) then error else OperationAborted;
    var a := Arrival(op.socket, Entry(result, op.id, bytes));
    var logged := w.(log := w.log + [a]);
    LogKeeps(w, a);
    hide Consistent, Linked, OnlySends, NoErrorYet, NotFailed, MayStart;
    SameLinks(w, logged);
    if Alive(w, op.socket) {
      DropKeepsLinks(logged, op.endpoint, Some(op.id));
      StartKeepsLinks(logged, op);
    }
  }

  /** In every run without an accept from an endpoint that an id leads to, every id leads to a socket of
      its own in the table; a run may start at any state in which this holds, such as a shutdown. */
  lemma {:induction false} RunKeepsLinks(v: View, script: seq<Input>)
    requires Consistent(v) && Linked(v)
    requires forall i :: 0 <= i < |script| ==> !Overwrites(After(v, script[..i]), script[i])
    ensures Linked(After(v, script)) && IdsHeld(After(v, script))
  {
    hide Consistent, Linked, Next, Overwrites, IdsHeld;
    if script != [] {
      var init := script[..|script| - 1];
      forall i | 0 <= i < |init| ensures init[..i] == script[..i] {
      }
      RunKeepsLinks(v, init);
      RunIsConsistent(v, init);
      StepBreaksLinksIff(After(v, init), script[|script| - 1]);
    }
    LinkedIsHeld(After(v, script));
  }

  /** The connection at `e` can be sent to under the id of its peer. */
  ghost predicate Reachable(v: View, e: Endpoint) {
    e in v.connections && v.connections[e] in v.owner &&
    var id := v.owner[v.connections[e]];
    id in v.ids && v.ids[id] == e
  }

  /** When the connection at `e` fails, another connection stays reachable exactly when its peer has
      another id. */
  lemma DropKeepsReachableIff(v: View, e: Endpoint, other: Endpoint)
    requires e in v.connections && v.connections[e] in v.owner && other != e && Reachable(v, other)
    ensures Reachable(Drop(v, e, Some(v.owner[v.connections[e]])), other) <==>
      v.owner[v.connections[other]] != v.owner[v.connections[e]]
  {
  }

  /** A registered live connection is reachable exactly when the last registration or erasure of its id
      is a registration at its endpoint. */
  lemma ReachableIff(v: View, e: Endpoint)
    requires Consistent(v) && e in v.connections && v.connections[e] in v.owner
    ensures Reachable(v, e) <==> LeadsTo(v.history, v.owner[v.connections[e]]) == Some(e)
  {
    hide LeadsTo, Present, Intact;
  }

  // ----- Endpoints whose dial failed

  /** The three ways out of the table for an endpoint whose dial failed: a shutdown, an accept from it,
      and a failed send under an id that leads there. */
  ghost predicate Frees(v: View, input: Input, e: Endpoint) {
    || input == DoShutdown
    || (&& input.CompleteAccept? && input.token in v.pending && v.pending[input.token].Accepting?
        && v.pending[input.token].acceptor in v.acceptors.Values && input.error == Success && input.remote == e)
    || (&& Removes(v, input) && v.pending[input.token].Sending? && v.pending[input.token].endpoint == e)
  }

  /** An endpoint whose dial failed keeps its socket, and so refuses to be dialled again, exactly until
      a step of those three kinds. */
  lemma FailedStaysIff(v: View, input: Input, e: Endpoint)
    requires Consistent(v) && e in v.failed
    ensures e in v.connections && Dial(v, e) == v
    ensures e in Next(v, input).failed <==> !Frees(v, input, e)
  {
    hide InPlace, LogAgrees, HistoryAgrees, PendingAgrees;
    if input.Complete? && input.token in v.pending {
      CompletionSparesFailed(v, input, e);
    }
    hide ConnectDone, ExchangeDone, SendDone, ReceiveDone;
  }

  lemma CompletionSparesFailed(v: View, input: Input, e: Endpoint)
    requires Consistent(v) && e in v.failed && input.Complete? && input.token in v.pending
    ensures e in Next(v, input).failed <==>
      !(Removes(v, input) && v.pending[input.token].Sending? && v.pending[input.token].endpoint == e)
  {
    FinishedOperation(v, input.token);
    hide InPlace, LogAgrees, HistoryAgrees, Captured, MayStart, NoErrorYet, PendingAgrees;
  }

  lemma {:induction false} FailedStays(v: View, script: seq<Input>, e: Endpoint)
    requires Consistent(v) && e in v.failed
    requires forall i :: 0 <= i < |script| ==> !Frees(After(v, script[..i]), script[i], e)
    ensures e in After(v, script).failed && e in After(v, script).connections
  {
    hide Consistent, Next, Frees;
    if script != [] {
      var init := script[..|script| - 1];
      forall i | 0 <= i < |init| ensures init[..i] == script[..i] {
      }
      FailedStays(v, init, e);
      RunIsConsistent(v, init);
      FailedStaysIff(After(v, init), script[|script| - 1], e);
    }
    RunIsConsistent(v, script);
    FailedStaysIff(After(v, script), DoReceive(0), e);
  }

  /** While every id leads to a socket of its own there is no third way. */
  lemma LinkedFreesByTwo(v: View, input: Input, e: Endpoint)
    requires Consistent(v) && Linked(v) && e in v.failed && Frees(v, input, e)
    ensures input == DoShutdown || (input.CompleteAccept? && input.error == Success && input.remote == e)
  {
    if Removes(v, input) { FinishedOperation(v, input.token); }
    hide LogAgrees, HistoryAgrees, MayStart, NoErrorYet;
  }
}
