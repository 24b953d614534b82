/** The state of the connection layer, what each call and each completion does to it, and the
    invariant they keep. */
module ConnectionsModel {
  import opened Types
  import opened Xor

  type Socket = nat

  datatype Endpoint = Endpoint(ip: nat, port: nat)

  datatype ErrorCode = Success | BadDescriptor | AlreadyStarted | OperationAborted | Failure(code: nat)

  /** An outstanding asynchronous operation, with what its completion handler captured. */
  datatype Operation =
    | Connecting(socket: Socket, endpoint: Endpoint)
    | Accepting(socket: Socket, port: nat, acceptor: nat)
    | Exchanging(socket: Socket, endpoint: Endpoint)
    | Sending(socket: Socket, endpoint: Endpoint, id: Address)
    | Receiving(socket: Socket, endpoint: Endpoint, id: Address)

  datatype Entry = Entry(error: ErrorCode, id: Address, bytes: Bytes)

  /** A queue entry together with the connection it came from. */
  datatype Arrival = Arrival(socket: Socket, entry: Entry)

  /** A change to the two maps: what an id leads to, and which endpoints hold a socket. */
  datatype Change =
    | Registered(id: Address, endpoint: Endpoint)
    | Erased(id: Address)
    | Put(endpoint: Endpoint)
    | Removed(endpoint: Endpoint)

  /** A call or a completion, as the environment may schedule it. */
  datatype Input =
    | DoSend(id: Address)
    | DoReceive(handler: nat)
    | DoConnect(endpoint: Endpoint)
    | DoAccept(port: nat)
    | DoShutdown
    | CompleteAccept(token: nat, error: ErrorCode, remote: Endpoint)
    | Complete(token: nat, error: ErrorCode, peer: Address, bytes: Bytes)

  /** The maps and the outstanding operations, and for the record: where each socket was put and
      whose it became, the entries queued, the endpoints whose dial failed and that have kept their
      socket, and the changes to the maps since the last shutdown. */
  datatype View = View(
    acceptors: map<nat, nat>,
    connections: map<Endpoint, Socket>,
    ids: map<Address, Endpoint>,
    pending: map<nat, Operation>,
    next: nat,
    place: map<Socket, Endpoint>,
    owner: map<Socket, Address>,
    log: seq<Arrival>,
    failed: set<Endpoint>,
    history: seq<Change>)

  const INITIAL: View := View(map[], map[], map[], map[], 0, map[], map[], [], {}, [])

  /** Still on the way to learning the peer's id. */
  predicate IsSetup(op: Operation) {
    op.Connecting? || op.Accepting? || op.Exchanging?
  }

  /** A socket is alive while the table holds it. */
  predicate Alive(v: View, s: Socket) {
    s in v.connections.Values
  }

  // ----- Changes

  function Bump(v: View): View {
    v.(next := v.next + 1)
  }

  /** Puts a socket into the table, over whatever is there. */
  function Place(v: View, s: Socket, e: Endpoint): View {
    v.(place := v.place[s := e], connections := v.connections[e := s], failed := v.failed - {e},
       history := v.history + [Put(e)])
  }

  function Own(v: View, s: Socket, e: Endpoint, id: Address): View {
    v.(owner := v.owner[s := id], ids := v.ids[id := e], history := v.history + [Registered(id, e)])
  }

  /** Takes an endpoint out of the table, and an id with it. */
  function Drop(v: View, e: Endpoint, id: Option<Address>): View {
    v.(connections := v.connections - {e}, failed := v.failed - {e},
       ids := if id.Some? then v.ids - {id.value} else v.ids,
       history := v.history + [Removed(e)] + if id.Some? then [Erased(id.value)] else [])
  }

  /** Records a new outstanding operation under the next token. */
  function Start(v: View, op: Operation): View {
    v.(pending := v.pending[v.next := op], next := v.next + 1)
  }

  function Finish(v: View, token: nat): View {
    v.(pending := v.pending - {token})
  }

  // ----- Calls

  function SendTo(v: View, id: Address): View
    requires id in v.ids && v.ids[id] in v.connections
  {
    Start(v, Sending(v.connections[v.ids[id]], v.ids[id], id))
  }

  function Dial(v: View, e: Endpoint): View {
    if e in v.connections then v else Start(Place(Bump(v), v.next, e), Connecting(v.next, e))
  }

  function Listen(v: View, port: nat): View {
    var w := if port in v.acceptors then v else Bump(v).(acceptors := v.acceptors[port := v.next]);
    Start(Bump(w), Accepting(w.next, port, w.acceptors[port]))
  }

  function Clear(v: View): View {
    v.(acceptors := map[], connections := map[], ids := map[], failed := {}, history := [])
  }

  // ----- Completions

  function ConnectDone(v: View, token: nat, error: ErrorCode): View
    requires token in v.pending && v.pending[token].Connecting?
  {
    var op, w := v.pending[token], Finish(v, token);
    if !Alive(w, op.socket) then w
    else if error != Success then w.(failed := w.failed + {op.endpoint})
    else Start(w, Exchanging(op.socket, op.endpoint))
  }

  function ExchangeDone(v: View, token: nat, error: ErrorCode, id: Address): View
    requires token in v.pending && v.pending[token].Exchanging?
  {
    var op, w := v.pending[token], Finish(v, token);
    if !Alive(w, op.socket) then w
    else if error != Success then Drop(w, op.endpoint, None)
    else Start(Own(w, op.socket, op.endpoint, id), Receiving(op.socket, op.endpoint, id))
  }

  function AcceptDone(v: View, token: nat, error: ErrorCode, remote: Endpoint): View
    requires token in v.pending && v.pending[token].Accepting?
  {
    var op, w := v.pending[token], Finish(v, token);
    if op.acceptor !in w.acceptors.Values || error != Success then w
    else Start(Place(w.(acceptors := w.acceptors - {op.port}), op.socket, remote), Exchanging(op.socket, remote))
  }

  function SendDone(v: View, token: nat, error: ErrorCode): View
    requires token in v.pending && v.pending[token].Sending?
  {
    var op, w := v.pending[token], Finish(v, token);
    if Alive(w, op.socket) && error != Success then Drop(w, op.endpoint, Some(op.id)) else w
  }

  function ReceiveDone(v: View, token: nat, error: ErrorCode, bytes: Bytes): View
    requires token in v.pending && v.pending[token].Receiving?
  {
    var op, w := v.pending[token], Finish(v, token);
    var result := if Alive(w, op.socket) then error else OperationAborted;
    var logged := w.(log := w.log + [Arrival(op.socket, Entry(result, op.id, bytes))]);
    if !Alive(w, op.socket) then logged
    else if error != Success then Drop(logged, op.endpoint, Some(op.id))
    else Start(logged, op)
  }

  /** One step of an arbitrary interleaving. A completion for an operation that is not outstanding
      does nothing, and neither does a send to an id whose endpoint is not in the table. */
  function Next(v: View, input: Input): View {
    match input
    case DoSend(id) => if id in v.ids && v.ids[id] in v.connections then SendTo(v, id) else v
    case DoReceive(_) => v
    case DoConnect(endpoint) => Dial(v, endpoint)
    case DoAccept(port) => Listen(v, port)
    case DoShutdown => Clear(v)
    case CompleteAccept(token, error, remote) =>
      if token in v.pending && v.pending[token].Accepting? then AcceptDone(v, token, error, remote) else v
    case Complete(token, error, peer, bytes) =>
      if token !in v.pending then v
      else
        match v.pending[token]
        case Connecting(_, _) => ConnectDone(v, token, error)
        case Exchanging(_, _) => ExchangeDone(v, token, error, peer)
        case Sending(_, _, _) => SendDone(v, token, error)
        case Receiving(_, _, _) => ReceiveDone(v, token, error, bytes)
        case Accepting(_, _, _) => v
  }

  // ----- What the history says

  /** Where the last registration or erasure of `id` makes it lead. */
  ghost function LeadsTo(history: seq<Change>, id: Address): Option<Endpoint> {
    if history == [] then None
    else
      var init, last := history[..|history| - 1], history[|history| - 1];
      if last.Registered? && last.id == id then Some(last.endpoint)
      else if last.Erased? && last.id == id then None
      else LeadsTo(init, id)
  }

  /** The last socket put at `e` has not been removed. */
  ghost predicate Present(history: seq<Change>, e: Endpoint) {
    history != [] &&
    var init, last := history[..|history| - 1], history[|history| - 1];
    if last.Put? && last.endpoint == e then true
    else if last.Removed? && last.endpoint == e then false
    else Present(init, e)
  }

  /** `id` is registered, and nothing was put at or removed from its endpoint since. */
  ghost predicate Intact(history: seq<Change>, id: Address) {
    history != [] &&
    var init, last := history[..|history| - 1], history[|history| - 1];
    match last
    case Registered(x, _) => x == id || Intact(init, id)
    case Erased(x) => x != id && Intact(init, id)
    case Put(e) => LeadsTo(init, id) != Some(e) && Intact(init, id)
    case Removed(e) => LeadsTo(init, id) != Some(e) && Intact(init, id)
  }

  /** The id leads to a socket in the table that is registered to it. */
  ghost predicate Leads(v: View, id: Address) {
    && id in v.ids && v.ids[id] in v.connections
    && v.connections[v.ids[id]] in v.owner && v.owner[v.connections[v.ids[id]]] == id
  }

  // ----- The invariant

  /** A socket in the table is where it was put. */
  ghost predicate InPlace(v: View) {
    && (forall e :: e in v.connections ==> v.connections[e] in v.place && v.place[v.connections[e]] == e)
    && (forall s :: s in v.place || s in v.owner ==> s < v.next)
  }

  /** What the handler of an outstanding operation captured is still true. */
  ghost predicate Captured(v: View, op: Operation) {
    && op.socket < v.next
    && (IsSetup(op) ==> op.socket !in v.owner)
    && (op.Accepting? ==> op.socket !in v.place)
    && (!op.Accepting? ==> op.socket in v.place && v.place[op.socket] == op.endpoint)
    && (op.Receiving? ==> op.socket in v.owner && v.owner[op.socket] == op.id)
  }

  /** No socket is being set up twice or received from twice. */
  ghost predicate Exclusive(a: Operation, b: Operation) {
    a.socket == b.socket ==> !(IsSetup(a) && IsSetup(b)) && !(a.Receiving? && b.Receiving?)
  }

  ghost predicate PendingAgrees(v: View) {
    && (forall t :: t in v.pending ==> t < v.next && Captured(v, v.pending[t]))
    && (forall t, u :: t in v.pending && u in v.pending && t != u ==> Exclusive(v.pending[t], v.pending[u]))
  }

  ghost predicate NoErrorYet(log: seq<Arrival>, socket: Socket) {
    forall i :: 0 <= i < |log| && log[i].socket == socket ==> log[i].entry.error == Success
  }

  /** Per connection: entries carry its id, nothing follows an error, and it is received from only
      while no error has been queued. */
  ghost predicate LogAgrees(v: View) {
    && (forall i :: 0 <= i < |v.log| ==>
          v.log[i].socket in v.owner && v.owner[v.log[i].socket] == v.log[i].entry.id)
    && (forall i, j :: 0 <= i < j < |v.log| && v.log[i].socket == v.log[j].socket ==>
          v.log[i].entry.error == Success)
    && (forall t :: t in v.pending && v.pending[t].Receiving? ==> NoErrorYet(v.log, v.pending[t].socket))
  }

  /** The history accounts for both maps, and for which ids lead to a socket of their own. */
  ghost predicate HistoryAgrees(v: View) {
    && (forall id :: LeadsTo(v.history, id) == if id in v.ids then Some(v.ids[id]) else None)
    && (forall e :: Present(v.history, e) <==> e in v.connections)
    && (forall id :: Intact(v.history, id) <==> Leads(v, id))
  }

  /** At most sends are outstanding on `s`. */
  ghost predicate OnlySends(v: View, s: Socket) {
    forall t :: t in v.pending && v.pending[t].socket == s ==> v.pending[t].Sending?
  }

  /** An endpoint whose dial failed is in the table; its socket is nobody's and is not set up again. */
  ghost predicate FailedStay(v: View) {
    forall e :: e in v.failed ==>
      e in v.connections && v.connections[e] !in v.owner && OnlySends(v, v.connections[e])
  }

  ghost predicate Consistent(v: View) {
    InPlace(v) && PendingAgrees(v) && LogAgrees(v) && HistoryAgrees(v) && FailedStay(v)
  }

  ghost predicate MayStart(v: View, op: Operation) {
    forall t :: t in v.pending ==> Exclusive(v.pending[t], op)
  }

  ghost predicate NotFailed(v: View, s: Socket) {
    forall e :: e in v.failed && e in v.connections ==> v.connections[e] != s
  }

  // ----- What each change keeps

  lemma HistorySnoc(history: seq<Change>, c: Change)
    ensures var h := history + [c];
      && (forall id :: LeadsTo(h, id) ==
            (if c.Registered? && c.id == id then Some(c.endpoint)
             else if c.Erased? && c.id == id then None
             else LeadsTo(history, id)))
      && (forall e :: Present(h, e) <==>
            (c.Put? && c.endpoint == e) || (Present(history, e) && !(c.Removed? && c.endpoint == e)))
      && (forall id :: Intact(h, id) <==>
            (match c
             case Registered(x, _) => x == id || Intact(history, id)
             case Erased(x) => x != id && Intact(history, id)
             case Put(e) => LeadsTo(history, id) != Some(e) && Intact(history, id)
             case Removed(e) => LeadsTo(history, id) != Some(e) && Intact(history, id)))
  {
    assert (history + [c])[..|history|] == history;
  }

  lemma PlaceKeepsHistory(v: View, s: Socket, e: Endpoint)
    requires HistoryAgrees(v) && s !in v.owner
    ensures HistoryAgrees(Place(v, s, e))
  {
    hide LeadsTo, Present, Intact;
    HistorySnoc(v.history, Put(e));
  }

  lemma PlaceKeeps(v: View, s: Socket, e: Endpoint)
    requires Consistent(v) && s !in v.place && s !in v.owner && s < v.next
    requires forall t :: t in v.pending ==> !(v.pending[t].Accepting? && v.pending[t].socket == s)
    ensures Consistent(Place(v, s, e)) && NotFailed(Place(v, s, e), s)
  {
    hide HistoryAgrees, NoErrorYet;
    PlaceKeepsHistory(v, s, e);
  }

  lemma OwnKeepsHistory(v: View, s: Socket, e: Endpoint, id: Address)
    requires HistoryAgrees(v) && InPlace(v) && s !in v.owner && e in v.connections && v.connections[e] == s
    ensures HistoryAgrees(Own(v, s, e, id))
  {
    hide LeadsTo, Present, Intact;
    HistorySnoc(v.history, Registered(id, e));
  }

  lemma OwnKeepsRest(v: View, s: Socket, e: Endpoint, id: Address)
    requires PendingAgrees(v) && LogAgrees(v) && FailedStay(v) && s !in v.owner && OnlySends(v, s) && NotFailed(v, s)
    ensures PendingAgrees(Own(v, s, e, id)) && LogAgrees(Own(v, s, e, id)) && FailedStay(Own(v, s, e, id))
    ensures NoErrorYet(v.log, s)
  {
  }

  lemma OwnKeeps(v: View, s: Socket, e: Endpoint, id: Address)
    requires Consistent(v) && e in v.connections && v.connections[e] == s && s !in v.owner
    requires OnlySends(v, s) && NotFailed(v, s)
    ensures Consistent(Own(v, s, e, id)) && NoErrorYet(v.log, s)
  {
    hide HistoryAgrees, PendingAgrees, LogAgrees, FailedStay, NoErrorYet, OnlySends, NotFailed;
    OwnKeepsHistory(v, s, e, id);
    OwnKeepsRest(v, s, e, id);
  }

  lemma DropKeepsHistory(v: View, e: Endpoint, id: Option<Address>)
    requires HistoryAgrees(v)
    ensures HistoryAgrees(Drop(v, e, id))
  {
    hide LeadsTo, Present, Intact;
    HistorySnoc(v.history, Removed(e));
    if id.Some? { HistorySnoc(v.history + [Removed(e)], Erased(id.value)); }
    else { assert v.history + [Removed(e)] + [] == v.history + [Removed(e)]; }
  }

  lemma DropKeeps(v: View, e: Endpoint, id: Option<Address>)
    requires Consistent(v)
    ensures Consistent(Drop(v, e, id))
  {
    hide HistoryAgrees, NoErrorYet;
    DropKeepsHistory(v, e, id);
  }

  /** The maps and owners alone decide whether the history is accounted for. */
  lemma SameHistory(v: View, w: View)
    requires HistoryAgrees(v) && w.history == v.history && w.ids == v.ids
    requires w.connections == v.connections && w.owner == v.owner
    ensures HistoryAgrees(w)
  {
    hide LeadsTo, Present, Intact;
  }

  lemma StartKeeps(v: View, op: Operation)
    requires Consistent(v) && Captured(v, op) && MayStart(v, op)
    requires op.Receiving? ==> NoErrorYet(v.log, op.socket)
    requires op.Sending? || NotFailed(v, op.socket)
    ensures Consistent(Start(v, op)) && v.next !in v.pending
  {
    hide HistoryAgrees, NoErrorYet;
    SameHistory(v, Start(v, op));
  }

  lemma FinishKeeps(v: View, token: nat)
    requires Consistent(v) && token in v.pending
    ensures Consistent(Finish(v, token))
  {
    hide HistoryAgrees, NoErrorYet;
    SameHistory(v, Finish(v, token));
  }

  /** What a completion handler may rely on. */
  lemma FinishedOperation(v: View, token: nat)
    requires Consistent(v) && token in v.pending
    ensures var op, w := v.pending[token], Finish(v, token);
      && Captured(w, op) && MayStart(w, op) && (IsSetup(op) ==> OnlySends(w, op.socket))
      && (op.Receiving? ==> NoErrorYet(w.log, op.socket))
      && (op.Sending? || NotFailed(w, op.socket))
      && (!op.Accepting? && Alive(w, op.socket) ==>
            op.endpoint in w.connections && w.connections[op.endpoint] == op.socket)
  {
    hide HistoryAgrees, NoErrorYet;
  }

  lemma LogKeeps(v: View, a: Arrival)
    requires Consistent(v) && a.socket in v.owner && v.owner[a.socket] == a.entry.id && NoErrorYet(v.log, a.socket)
    requires forall t :: t in v.pending && v.pending[t].Receiving? ==> v.pending[t].socket != a.socket
    ensures Consistent(v.(log := v.log + [a]))
    ensures a.entry.error == Success ==> NoErrorYet(v.log + [a], a.socket)
  {
    hide HistoryAgrees;
    SameHistory(v, v.(log := v.log + [a]));
  }

  lemma BumpKeeps(v: View, acceptors: map<nat, nat>)
    requires Consistent(v)
    ensures var w := Bump(v).(acceptors := acceptors);
      Consistent(w) && v.next !in w.place && v.next !in w.owner && NotFailed(w, v.next) &&
      forall t :: t in w.pending ==> w.pending[t].socket != v.next
  {
    hide HistoryAgrees, NoErrorYet;
    SameHistory(v, Bump(v).(acceptors := acceptors));
  }

  lemma AcceptorsKeep(v: View, acceptors: map<nat, nat>)
    requires Consistent(v)
    ensures Consistent(v.(acceptors := acceptors))
  {
    hide HistoryAgrees, NoErrorYet;
    SameHistory(v, v.(acceptors := acceptors));
  }

  // ----- What each step keeps

  lemma SendKeeps(v: View, id: Address)
    requires Consistent(v) && id in v.ids && v.ids[id] in v.connections
    ensures Consistent(SendTo(v, id))
  {
    hide HistoryAgrees, NoErrorYet, FailedStay;
    StartKeeps(v, Sending(v.connections[v.ids[id]], v.ids[id], id));
  }

  lemma DialKeeps(v: View, e: Endpoint)
    requires Consistent(v)
    ensures Consistent(Dial(v, e))
  {
    hide Consistent, NotFailed;
    if e !in v.connections {
      BumpKeeps(v, v.acceptors);
      PlaceKeeps(Bump(v), v.next, e);
      StartKeeps(Place(Bump(v), v.next, e), Connecting(v.next, e));
    }
  }

  lemma ListenKeeps(v: View, port: nat)
    requires Consistent(v)
    ensures Consistent(Listen(v, port))
  {
    hide Consistent, NotFailed;
    BumpKeeps(v, v.acceptors[port := v.next]);
    var w := if port in v.acceptors then v else Bump(v).(acceptors := v.acceptors[port := v.next]);
    BumpKeeps(w, w.acceptors);
    StartKeeps(Bump(w), Accepting(w.next, port, w.acceptors[port]));
  }

  lemma ClearKeeps(v: View)
    requires Consistent(v)
    ensures Consistent(Clear(v))
  {
    hide NoErrorYet;
  }

  lemma ConnectDoneKeeps(v: View, token: nat, error: ErrorCode)
    requires Consistent(v) && token in v.pending && v.pending[token].Connecting?
    ensures Consistent(ConnectDone(v, token, error))
  {
    var op, w := v.pending[token], Finish(v, token);
    hide Consistent, NotFailed, OnlySends;
    FinishKeeps(v, token);
    FinishedOperation(v, token);
    if Alive(w, op.socket) {
      if error != Success {
        FailKeeps(w, op.endpoint);
      } else {
        StartKeeps(w, Exchanging(op.socket, op.endpoint));
      }
    }
  }

  lemma FailKeeps(v: View, e: Endpoint)
    requires Consistent(v) && e in v.connections && v.connections[e] !in v.owner && OnlySends(v, v.connections[e])
    ensures Consistent(v.(failed := v.failed + {e}))
  {
    hide HistoryAgrees, NoErrorYet;
    SameHistory(v, v.(failed := v.failed + {e}));
  }

  lemma ExchangeDoneKeeps(v: View, token: nat, error: ErrorCode, id: Address)
    requires Consistent(v) && token in v.pending && v.pending[token].Exchanging?
    ensures Consistent(ExchangeDone(v, token, error, id))
  {
    var op, w := v.pending[token], Finish(v, token);
    hide Consistent, NoErrorYet;
    FinishKeeps(v, token);
    FinishedOperation(v, token);
    if Alive(w, op.socket) {
      if error != Success {
        DropKeeps(w, op.endpoint, None);
      } else {
        OwnKeeps(w, op.socket, op.endpoint, id);
        StartKeeps(Own(w, op.socket, op.endpoint, id), Receiving(op.socket, op.endpoint, id));
      }
    }
  }

  lemma AcceptDoneKeeps(v: View, token: nat, error: ErrorCode, remote: Endpoint)
    requires Consistent(v) && token in v.pending && v.pending[token].Accepting?
    ensures Consistent(AcceptDone(v, token, error, remote))
  {
    var op, w := v.pending[token], Finish(v, token);
    hide Consistent, NotFailed;
    FinishKeeps(v, token);
    FinishedOperation(v, token);
    var w' := w.(acceptors := w.acceptors - {op.port});
    AcceptorsKeep(w, w'.acceptors);
    PlaceKeeps(w', op.socket, remote);
    StartKeeps(Place(w', op.socket, remote), Exchanging(op.socket, remote));
  }

  lemma SendDoneKeeps(v: View, token: nat, error: ErrorCode)
    requires Consistent(v) && token in v.pending && v.pending[token].Sending?
    ensures Consistent(SendDone(v, token, error))
  {
    hide Consistent;
    FinishKeeps(v, token);
    DropKeeps(Finish(v, token), v.pending[token].endpoint, Some(v.pending[token].id));
  }

  lemma ReceiveDoneKeeps(v: View, token: nat, error: ErrorCode, bytes: Bytes)
    requires Consistent(v) && token in v.pending && v.pending[token].Receiving?
    ensures Consistent(ReceiveDone(v, token, error, bytes))
  {
    var op, w := v.pending[token], Finish(v, token);
    var result := if Alive(w, op.socket) then error else OperationAborted;
    var a := Arrival(op.socket, Entry(result, op.id, bytes));
    hide Consistent, NoErrorYet;
    FinishKeeps(v, token);
    FinishedOperation(v, token);
    LogKeeps(w, a);
    var logged := w.(log := w.log + [a]);
    if Alive(w, op.socket) {
      if error != Success {
        DropKeeps(logged, op.endpoint, Some(op.id));
      } else {
        StartKeeps(logged, op);
      }
    }
  }

  /** Every call and every completion keeps the invariant, whatever the environment does. */
  lemma NextKeeps(v: View, input: Input)
    requires Consistent(v)
    ensures Consistent(Next(v, input))
  {
    hide Consistent, SendTo, Dial, Listen, Clear, ConnectDone, ExchangeDone, AcceptDone, SendDone, ReceiveDone;
    match input
    case DoSend(id) => if id in v.ids && v.ids[id] in v.connections { SendKeeps(v, id); }
    case DoReceive(_) =>
    case DoConnect(endpoint) => DialKeeps(v, endpoint);
    case DoAccept(port) => ListenKeeps(v, port);
    case DoShutdown => ClearKeeps(v);
    case CompleteAccept(token, error, remote) =>
      if token in v.pending && v.pending[token].Accepting? { AcceptDoneKeeps(v, token, error, remote); }
    case Complete(token, error, peer, bytes) =>
      if token in v.pending {
        match v.pending[token]
        case Connecting(_, _) => ConnectDoneKeeps(v, token, error);
        case Exchanging(_, _) => ExchangeDoneKeeps(v, token, error, peer);
        case Sending(_, _, _) => SendDoneKeeps(v, token, error);
        case Receiving(_, _, _) => ReceiveDoneKeeps(v, token, error, bytes);
        case Accepting(_, _, _) =>
      }
  }

  lemma InitialIsConsistent()
    ensures Consistent(INITIAL)
  {
  }
}
