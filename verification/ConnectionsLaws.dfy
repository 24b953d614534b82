/** Entry by entry, what any step of the connection layer does to its maps, its outstanding
    operations and its queue, in every state that a run can reach. */
module ConnectionsLaws {
  import opened Types
  import opened Xor
  import opened ConnectionsModel

  /** The step completes an outstanding operation other than an accept. */
  ghost predicate Completes(v: View, input: Input) {
    input.Complete? && input.token in v.pending && !v.pending[input.token].Accepting?
  }

  ghost predicate CompletesAccept(v: View, input: Input) {
    input.CompleteAccept? && input.token in v.pending && v.pending[input.token].Accepting?
  }

  /** The socket of the operation is still where it was put. */
  ghost predicate InTable(v: View, op: Operation) {
    !op.Accepting? && op.endpoint in v.connections && v.connections[op.endpoint] == op.socket
  }

  /** Some operation on a socket still in the table completes, with or without an error. */
  ghost predicate Succeeds(v: View, input: Input) {
    Completes(v, input) && InTable(v, v.pending[input.token]) && input.error == Success
  }

  ghost predicate Fails(v: View, input: Input) {
    Completes(v, input) && InTable(v, v.pending[input.token]) && input.error != Success
  }

  /** A successful accept on a port that is still open. */
  ghost predicate Accepts(v: View, input: Input) {
    && CompletesAccept(v, input) && input.error == Success
    && exists port :: port in v.acceptors && v.acceptors[port] == v.pending[input.token].acceptor
  }

  ghost predicate SameAt<K(!new), V>(before: map<K, V>, after: map<K, V>, key: K) {
    (key in after <==> key in before) && (key in before ==> after[key] == before[key])
  }

  /** In a consistent state a live socket is at the endpoint its operation captured. */
  lemma AliveIffInTable(v: View, token: nat)
    requires Consistent(v) && token in v.pending && !v.pending[token].Accepting?
    ensures Alive(Finish(v, token), v.pending[token].socket) <==> InTable(v, v.pending[token])
  {
    FinishedOperation(v, token);
    hide Consistent, Captured, MayStart, OnlySends, NoErrorYet, NotFailed;
  }

  /** `w` is `v` after the operation under `token` completed: both maps, what it started, and what
      was queued. */
  ghost predicate Completed(
    v: View, token: nat, w: View, connections: map<Endpoint, Socket>, ids: map<Address, Endpoint>,
    started: Option<Operation>, queued: seq<Arrival>)
  {
    && w.connections == connections && w.ids == ids && w.acceptors == v.acceptors
    && w.pending == (if started.Some? then (v.pending - {token})[v.next := started.value] else v.pending - {token})
    && w.next == (if started.Some? then v.next + 1 else v.next) && w.log == v.log + queued
  }

  lemma ConnectIs(v: View, token: nat, error: ErrorCode)
    requires Consistent(v) && token in v.pending && v.pending[token].Connecting?
    ensures var op := v.pending[token];
      Completed(v, token, ConnectDone(v, token, error), v.connections, v.ids,
        if InTable(v, op) && error == Success then Some(Exchanging(op.socket, op.endpoint)) else None, [])
  {
    AliveIffInTable(v, token);
    hide Consistent, InTable, Alive;
  }

  lemma ExchangeIs(v: View, token: nat, error: ErrorCode, id: Address)
    requires Consistent(v) && token in v.pending && v.pending[token].Exchanging?
    ensures var op := v.pending[token];
      Completed(v, token, ExchangeDone(v, token, error, id),
        if InTable(v, op) && error != Success then v.connections - {op.endpoint} else v.connections,
        if InTable(v, op) && error == Success then v.ids[id := op.endpoint] else v.ids,
        if InTable(v, op) && error == Success then Some(Receiving(op.socket, op.endpoint, id)) else None, [])
  {
    AliveIffInTable(v, token);
    hide Consistent, InTable, Alive;
  }

  lemma SendIs(v: View, token: nat, error: ErrorCode)
    requires Consistent(v) && token in v.pending && v.pending[token].Sending?
    ensures var op := v.pending[token];
      Completed(v, token, SendDone(v, token, error),
        if InTable(v, op) && error != Success then v.connections - {op.endpoint} else v.connections,
        if InTable(v, op) && error != Success then v.ids - {op.id} else v.ids, None, [])
  {
    AliveIffInTable(v, token);
    hide Consistent, InTable, Alive;
  }

  lemma ReceiveIs(v: View, token: nat, error: ErrorCode, bytes: Bytes)
    requires Consistent(v) && token in v.pending && v.pending[token].Receiving?
    ensures var op := v.pending[token];
      var result := if InTable(v, op) then error else OperationAborted;
      Completed(v, token, ReceiveDone(v, token, error, bytes),
        if InTable(v, op) && error != Success then v.connections - {op.endpoint} else v.connections,
        if InTable(v, op) && error != Success then v.ids - {op.id} else v.ids,
        if InTable(v, op) && error == Success then Some(op) else None,
        [Arrival(op.socket, Entry(result, op.id, bytes))])
  {
    AliveIffInTable(v, token);
    hide Consistent, InTable, Alive;
  }

  /** What a completion other than of an accept does, operation by operation. */
  lemma CompletionIs(v: View, input: Input)
    requires Consistent(v) && Completes(v, input)
    ensures var op, error := v.pending[input.token], input.error;
      var failed, done := Fails(v, input), Succeeds(v, input);
      Completed(v, input.token, Next(v, input),
        if failed && !op.Connecting? then v.connections - {op.endpoint} else v.connections,
        if failed && (op.Sending? || op.Receiving?) then v.ids - {op.id}
        else if done && op.Exchanging? then v.ids[input.peer := op.endpoint] else v.ids,
        Continues(v, input),
        if op.Receiving? then
          [Arrival(op.socket, Entry(if InTable(v, op) then error else OperationAborted, op.id, input.bytes))]
        else [])
  {
    hide Consistent, InTable, Completed, ConnectDone, ExchangeDone, SendDone, ReceiveDone;
    match v.pending[input.token]
    case Connecting(_, _) => ConnectIs(v, input.token, input.error);
    case Exchanging(_, _) => ExchangeIs(v, input.token, input.error, input.peer);
    case Sending(_, _, _) => SendIs(v, input.token, input.error);
    case Receiving(_, _, _) => ReceiveIs(v, input.token, input.error, input.bytes);
  }

  // ----- Ids

  /** The id exchange on a socket in the table succeeds with `id`. */
  ghost predicate Learns(v: View, input: Input, id: Address) {
    Succeeds(v, input) && v.pending[input.token].Exchanging? && input.peer == id
  }

  /** A send to `id` or a receive from it fails on a socket in the table. */
  ghost predicate Loses(v: View, input: Input, id: Address) {
    && Fails(v, input)
    && var op := v.pending[input.token]; (op.Sending? || op.Receiving?) && op.id == id
  }

  /** Where an id leads changes in three ways only: an exchange with that peer succeeds, a send or
      receive under that id fails on a socket in the table, or everything is shut down. */
  lemma IdStep(v: View, input: Input, id: Address)
    requires Consistent(v)
    ensures var ids := Next(v, input).ids;
      if Learns(v, input, id) then id in ids && ids[id] == v.pending[input.token].endpoint
      else if input == DoShutdown || Loses(v, input, id) then id !in ids
      else SameAt(v.ids, ids, id)
  {
    hide Consistent, InTable, ConnectDone, ExchangeDone, SendDone, ReceiveDone, AcceptDone;
    if Completes(v, input) {
      CompletionIs(v, input);
    }
    if CompletesAccept(v, input) {
      AcceptIs(v, input);
    }
  }

  /** An id leaves the map exactly by a shutdown or by losing its connection. */
  lemma IdLeavesIff(v: View, input: Input, id: Address)
    requires Consistent(v) && id in v.ids
    ensures id !in Next(v, input).ids <==> input == DoShutdown || Loses(v, input, id)
  {
    hide Consistent, Next;
    IdStep(v, input, id);
  }

  // ----- Connections

  /** A failure that takes its endpoint out of the table: of an exchange, a send or a receive. */
  ghost predicate Closes(v: View, input: Input, e: Endpoint) {
    Fails(v, input) && !v.pending[input.token].Connecting? && v.pending[input.token].endpoint == e
  }

  /** The socket at an endpoint changes in four ways only: it is dialled, a peer there is accepted, its
      connection fails, or everything is shut down. A dial takes a socket never used before. */
  lemma ConnectionStep(v: View, input: Input, e: Endpoint)
    requires Consistent(v)
    ensures var connections := Next(v, input).connections;
      if input == DoConnect(e) && e !in v.connections then
        e in connections && connections[e] !in v.place && connections[e] !in v.connections.Values
      else if Accepts(v, input) && input.remote == e then
        e in connections && connections[e] == v.pending[input.token].socket
      else if input == DoShutdown || Closes(v, input, e) then e !in connections
      else SameAt(v.connections, connections, e)
  {
    FreshIsUnplaced(v);
    hide Consistent, InTable, Next, Accepts, Succeeds, Fails, Continues;
    NotAnAccept(v, input);
    if Completes(v, input) {
      CompletionIs(v, input);
    } else if CompletesAccept(v, input) {
      AcceptIs(v, input);
    } else {
      CallConnections(v, input);
    }
  }

  lemma NotAnAccept(v: View, input: Input)
    ensures !CompletesAccept(v, input) ==> !Accepts(v, input)
    ensures !Completes(v, input) ==> !Fails(v, input)
  {
  }

  lemma CallConnections(v: View, input: Input)
    requires !Completes(v, input) && !CompletesAccept(v, input)
    ensures Next(v, input).connections ==
      match input
      case DoConnect(e) => if e in v.connections then v.connections else v.connections[e := v.next]
      case DoShutdown => map[]
      case _ => v.connections
  {
    hide ConnectDone, ExchangeDone, SendDone, ReceiveDone, AcceptDone, Dial, Listen, SendTo;
    match input
    case DoConnect(e) => DialConnections(v, e);
    case DoAccept(port) => ListenConnections(v, port);
    case DoSend(id) => if id in v.ids && v.ids[id] in v.connections { SendConnections(v, id); }
    case _ =>
  }

  lemma DialConnections(v: View, e: Endpoint)
    ensures Dial(v, e).connections == if e in v.connections then v.connections else v.connections[e := v.next]
  {
  }

  lemma ListenConnections(v: View, port: nat)
    ensures Listen(v, port).connections == v.connections
  {
  }

  lemma SendConnections(v: View, id: Address)
    requires id in v.ids && v.ids[id] in v.connections
    ensures SendTo(v, id).connections == v.connections
  {
  }

  lemma FreshIsUnplaced(v: View)
    requires Consistent(v)
    ensures v.next !in v.place && v.next !in v.connections.Values
  {
    hide PendingAgrees, LogAgrees, HistoryAgrees, FailedStay;
  }

  /** The completion of an operation whose socket has left the table changes neither map. */
  lemma LateCompletionChangesNothing(v: View, input: Input)
    requires Consistent(v) && Completes(v, input) && !InTable(v, v.pending[input.token])
    ensures Next(v, input).ids == v.ids && Next(v, input).connections == v.connections
    ensures Next(v, input).acceptors == v.acceptors && Next(v, input).pending == v.pending - {input.token}
  {
    hide Consistent, InTable, Next;
    CompletionIs(v, input);
  }

  // ----- Acceptors

  /** A port is opened by the first accept on it and closed by the first peer accepted. */
  lemma AcceptorStep(v: View, input: Input, port: nat)
    requires Consistent(v)
    ensures var acceptors := Next(v, input).acceptors;
      if input == DoAccept(port) && port !in v.acceptors then port in acceptors && acceptors[port] == v.next
      else if input == DoShutdown || (Accepts(v, input) && v.pending[input.token].port == port) then
        port !in acceptors
      else SameAt(v.acceptors, acceptors, port)
  {
    hide Consistent, InTable, ConnectDone, ExchangeDone, SendDone, ReceiveDone, AcceptDone;
    if Completes(v, input) {
      CompletionIs(v, input);
    }
    if CompletesAccept(v, input) {
      AcceptIs(v, input);
    }
  }

  // ----- Outstanding operations

  /** The operation that a completion starts: the exchange after a dial, the first receive after an
      exchange, and the next receive after each receive. */
  ghost function Continues(v: View, input: Input): Option<Operation>
    requires Completes(v, input)
  {
    if !Succeeds(v, input) then None
    else
      match v.pending[input.token]
      case Connecting(s, e) => Some(Exchanging(s, e))
      case Exchanging(s, e) => Some(Receiving(s, e, input.peer))
      case Receiving(s, e, id) => Some(Receiving(s, e, id))
      case Sending(_, _, _) => None
  }

  /** The operation that a step starts, if any: besides those, a send to a known id whose endpoint is
      in the table, a dial, a wait for a peer, and the exchange with a peer accepted. New sockets and
      acceptors get numbers never used before. */
  ghost function Started(v: View, input: Input): Option<Operation> {
    match input
    case DoSend(id) =>
      if id in v.ids && v.ids[id] in v.connections then Some(Sending(v.connections[v.ids[id]], v.ids[id], id)) else None
    case DoConnect(e) => if e in v.connections then None else Some(Connecting(v.next, e))
    case DoAccept(port) =>
      Some(if port in v.acceptors then Accepting(v.next, port, v.acceptors[port])
           else Accepting(v.next + 1, port, v.next))
    case CompleteAccept(token, _, remote) =>
      if Accepts(v, input) then Some(Exchanging(v.pending[token].socket, remote)) else None
    case Complete(_, _, _, _) => if Completes(v, input) then Continues(v, input) else None
    case _ => None
  }

  ghost function Left(v: View, input: Input): map<nat, Operation> {
    if Completes(v, input) || CompletesAccept(v, input) then v.pending - {input.token} else v.pending
  }

  /** What is outstanding after a step: what was, less what completed, and what the step starts, under
      a token never used before. */
  lemma PendingStep(v: View, input: Input)
    requires Consistent(v)
    ensures var w, op := Next(v, input), Started(v, input);
      if op.None? then w.pending == Left(v, input)
      else w.next > v.next && w.pending == Left(v, input)[w.next - 1 := op.value]
  {
    hide Consistent, InTable, Succeeds, Continues, Next, Accepts, Fails;
    if Completes(v, input) {
      CompletionIs(v, input);
    } else if CompletesAccept(v, input) {
      AcceptIs(v, input);
    } else {
      CallPending(v, input);
      NotAnAccept(v, input);
    }
  }

  lemma CallPending(v: View, input: Input)
    requires !Completes(v, input) && !CompletesAccept(v, input)
    ensures var w, op := Next(v, input), Started(v, input);
      if op.None? then w.pending == v.pending else w.next > v.next && w.pending == v.pending[w.next - 1 := op.value]
  {
    hide ConnectDone, ExchangeDone, SendDone, ReceiveDone, AcceptDone;
  }

  /** What the completion of an accept does. */
  lemma AcceptIs(v: View, input: Input)
    requires CompletesAccept(v, input)
    ensures var op, w := v.pending[input.token], Next(v, input);
      && w.ids == v.ids && w.log == v.log
      && if Accepts(v, input) then
           && w.acceptors == v.acceptors - {op.port} && w.connections == v.connections[input.remote := op.socket]
           && w.pending == (v.pending - {input.token})[v.next := Exchanging(op.socket, input.remote)]
           && w.next == v.next + 1
         else
           w.acceptors == v.acceptors && w.connections == v.connections && w.pending == v.pending - {input.token}
  {
  }

  /** What a step queues: one entry for a completed receive, and nothing else. */
  lemma LogStep(v: View, input: Input)
    requires Consistent(v)
    ensures Next(v, input).log == v.log +
      if Completes(v, input) && v.pending[input.token].Receiving? then
        var op := v.pending[input.token];
        [Arrival(op.socket, Entry(if InTable(v, op) then input.error else OperationAborted, op.id, input.bytes))]
      else []
  {
    hide Consistent, InTable, ConnectDone, ExchangeDone, SendDone, ReceiveDone, AcceptDone;
    if Completes(v, input) {
      CompletionIs(v, input);
    }
    if CompletesAccept(v, input) {
      AcceptIs(v, input);
    }
  }
}
