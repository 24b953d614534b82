/** Connections as a system of completion handlers over two maps and a receive queue. Each method is
    one posted function or one completion; any order of calls is one interleaving. */
module Connections {
  import opened Types
  import opened Xor
  import opened ConnectionsModel
  import ConnectionsRuns
  import AsyncQueue

  ghost function Entries(log: seq<Arrival>): seq<Entry> {
    seq(|log|, i requires 0 <= i < |log| => log[i].entry)
  }

  class Connections {
    var acceptors: map<nat, nat>
    var connections: map<Endpoint, Socket>
    var idToEndpoint: map<Address, Endpoint>
    var pending: map<nat, Operation>
    var next: nat
    const receiveQueue: AsyncQueue.AsyncQueue<Entry, nat>
    ghost var ops: seq<AsyncQueue.Op<Entry, nat>>
    ghost var v: View

    /** The record `v` agrees with the fields. */
    ghost predicate Agrees()
      reads this
    {
      && v.acceptors == acceptors && v.connections == connections && v.ids == idToEndpoint
      && v.pending == pending && v.next == next
    }

    ghost predicate Valid()
      reads this, receiveQueue
    {
      && Agrees() && Consistent(v)
      && receiveQueue.View() == AsyncQueue.After(ops)
      && AsyncQueue.Pushed(ops) == Entries(v.log)
    }

    predicate IsAlive(s: Socket)
      reads this
    {
      s in connections.Values
    }

    constructor ()
      ensures Valid() && v == INITIAL && fresh(receiveQueue)
    {
      acceptors, connections, idToEndpoint, pending, next := map[], map[], map[], map[], 0;
      receiveQueue := new AsyncQueue.AsyncQueue();
      ops, v := [], INITIAL;
    }

    /** Records a new outstanding operation under the next token. */
    method Begin(op: Operation)
      requires Agrees()
      modifies this`pending, this`next, this`v
      ensures Agrees() && v == Start(old(v), op)
    {
      pending := pending[next := op];
      next := next + 1;
      v := Start(v, op);
    }

    /** Takes a completed operation off the outstanding ones. */
    method End(token: nat) returns (op: Operation)
      requires Agrees() && token in pending
      modifies this`pending, this`v
      ensures Agrees() && op == old(pending)[token] && v == Finish(old(v), token)
    {
      op := pending[token];
      pending := pending - {token};
      v := Finish(v, token);
    }

    /** Erases a failed connection and its id, whatever the id leads to. */
    method Remove(endpoint: Endpoint, id: Address)
      requires Agrees()
      modifies this`connections, this`idToEndpoint, this`v
      ensures Agrees() && v == Drop(old(v), endpoint, Some(id))
    {
      idToEndpoint := idToEndpoint - {id};
      connections := connections - {endpoint};
      v := Drop(v, endpoint, Some(id));
    }

    /** Demands what the source asserts of a known id: its endpoint is in the table. */
    method Send(remoteId: Address) returns (r: Option<ErrorCode>)
      requires Valid() && (remoteId in idToEndpoint ==> idToEndpoint[remoteId] in connections)
      modifies this`pending, this`next, this`v
      ensures Valid() && v == Next(old(v), DoSend(remoteId))
      ensures if remoteId in idToEndpoint then
          var endpoint := idToEndpoint[remoteId];
          r == None && pending == old(pending)[old(next) := Sending(connections[endpoint], endpoint, remoteId)]
        else r == Some(BadDescriptor) && pending == old(pending)
    {
      NextKeeps(v, DoSend(remoteId));
      hide Consistent;
      if remoteId !in idToEndpoint {
        return Some(BadDescriptor);
      }
      var remoteEndpoint := idToEndpoint[remoteId];
      var socket := connections[remoteEndpoint];
      Begin(Sending(socket, remoteEndpoint, remoteId));
      return None;
    }

    method SendCompleted(token: nat, error: ErrorCode) returns (r: ErrorCode)
      requires Valid() && token in pending && pending[token].Sending?
      modifies this
      ensures Valid() && v == SendDone(old(v), token, error) && ops == old(ops)
      ensures var op := old(pending)[token];
        && r == (if old(IsAlive(op.socket)) then error else OperationAborted)
        && connections == (if r == error != Success && old(IsAlive(op.socket))
                           then old(connections) - {op.endpoint} else old(connections))
        && idToEndpoint == (if r == error != Success && old(IsAlive(op.socket))
                            then old(idToEndpoint) - {op.id} else old(idToEndpoint))
      ensures acceptors == old(acceptors) && pending == old(pending) - {token} && v.log == old(v).log
    {
      SendDoneKeeps(v, token, error);
      hide Consistent;
      var op := End(token);
      if !IsAlive(op.socket) {
        return OperationAborted;
      }
      if error != Success {
        Remove(op.endpoint, op.id);
      }
      return error;
    }

    method Connect(endpoint: Endpoint) returns (r: Option<ErrorCode>)
      requires Valid()
      modifies this
      ensures Valid() && v == Dial(old(v), endpoint) && ops == old(ops)
      ensures r == if endpoint in old(connections) then Some(AlreadyStarted) else None
      ensures connections == if r == None then old(connections)[endpoint := old(next)] else old(connections)
      ensures pending == if r == None then old(pending)[old(next) + 1 := Connecting(old(next), endpoint)]
        else old(pending)
      ensures acceptors == old(acceptors) && idToEndpoint == old(idToEndpoint) && v.log == old(v).log
    {
      DialKeeps(v, endpoint);
      hide Consistent;
      if endpoint in connections {
        return Some(AlreadyStarted);
      }
      var socket := next;
      next := next + 1;
      connections := connections[endpoint := socket];
      v := Place(Bump(v), socket, endpoint);
      Begin(Connecting(socket, endpoint));
      return None;
    }

    method ConnectCompleted(token: nat, error: ErrorCode) returns (r: Option<ErrorCode>)
      requires Valid() && token in pending && pending[token].Connecting?
      modifies this
      ensures Valid() && v == ConnectDone(old(v), token, error) && ops == old(ops)
      ensures var op := old(pending)[token];
        && connections == old(connections) && idToEndpoint == old(idToEndpoint)
        && acceptors == old(acceptors) && v.log == old(v).log
        && r == (if !old(IsAlive(op.socket)) then Some(OperationAborted)
                 else if error != Success then Some(error) else None)
        && pending == (if r == None then (old(pending) - {token})[old(next) := Exchanging(op.socket, op.endpoint)]
                       else old(pending) - {token})
    {
      ConnectDoneKeeps(v, token, error);
      FinishedOperation(v, token);
      hide Consistent, NotFailed, OnlySends, Captured, MayStart;
      var op := End(token);
      if !IsAlive(op.socket) {
        return Some(OperationAborted);
      }
      if error != Success {
        v := v.(failed := v.failed + {op.endpoint});
        return Some(error);
      }
      assert connections == connections[op.endpoint := op.socket];
      connections := connections[op.endpoint := op.socket];
      Begin(Exchanging(op.socket, op.endpoint));
      return None;
    }

    method ExchangeCompleted(token: nat, error: ErrorCode, hisId: Address) returns (r: ErrorCode)
      requires Valid() && token in pending && pending[token].Exchanging?
      modifies this
      ensures Valid() && v == ExchangeDone(old(v), token, error, hisId) && ops == old(ops)
      ensures var op := old(pending)[token];
        if !old(IsAlive(op.socket)) then
          && r == OperationAborted && connections == old(connections) && idToEndpoint == old(idToEndpoint)
          && pending == old(pending) - {token}
        else if error != Success then
          && r == error && connections == old(connections) - {op.endpoint} && idToEndpoint == old(idToEndpoint)
          && pending == old(pending) - {token}
        else
          && r == Success && connections == old(connections) && idToEndpoint == old(idToEndpoint)[hisId := op.endpoint]
          && pending == (old(pending) - {token})[old(next) := Receiving(op.socket, op.endpoint, hisId)]
      ensures acceptors == old(acceptors) && v.log == old(v).log
    {
      ExchangeDoneKeeps(v, token, error, hisId);
      hide Consistent;
      var op := End(token);
      if !IsAlive(op.socket) {
        return OperationAborted;
      }
      if error != Success {
        connections := connections - {op.endpoint};
        v := Drop(v, op.endpoint, None);
        return error;
      }
      idToEndpoint := idToEndpoint[hisId := op.endpoint];
      v := Own(v, op.socket, op.endpoint, hisId);
      StartReceiving(hisId, op.endpoint, op.socket);
      return Success;
    }

    method Accept(port: nat)
      requires Valid()
      modifies this
      ensures Valid() && v == Listen(old(v), port) && ops == old(ops)
      ensures acceptors == if port in old(acceptors) then old(acceptors) else old(acceptors)[port := old(next)]
      ensures var n := if port in old(acceptors) then old(next) else old(next) + 1;
        pending == old(pending)[n + 1 := Accepting(n, port, acceptors[port])] && next == n + 2
      ensures connections == old(connections) && idToEndpoint == old(idToEndpoint) && v.log == old(v).log
    {
      ListenKeeps(v, port);
      hide Consistent;
      if port !in acceptors {
        acceptors := acceptors[port := next];
        next := next + 1;
        v := Bump(v).(acceptors := acceptors);
      }
      var socket := next;
      next := next + 1;
      v := Bump(v);
      assert Agrees();
      Begin(Accepting(socket, port, acceptors[port]));
    }

    method AcceptCompleted(token: nat, error: ErrorCode, remote: Endpoint) returns (r: Option<ErrorCode>)
      requires Valid() && token in pending && pending[token].Accepting?
      modifies this
      ensures Valid() && v == AcceptDone(old(v), token, error, remote) && ops == old(ops)
      ensures var op := old(pending)[token];
        if op.acceptor !in old(acceptors).Values || error != Success then
          && r == Some(OperationAborted) && connections == old(connections) && acceptors == old(acceptors)
          && pending == old(pending) - {token}
        else
          && r == None && acceptors == old(acceptors) - {op.port} &&
             connections == old(connections)[remote := op.socket]
          && pending == (old(pending) - {token})[old(next) := Exchanging(op.socket, remote)]
      ensures idToEndpoint == old(idToEndpoint) && v.log == old(v).log
    {
      AcceptDoneKeeps(v, token, error, remote);
      hide Consistent;
      var op := End(token);
      if op.acceptor !in acceptors.Values || error != Success {
        return Some(OperationAborted);
      }
      acceptors := acceptors - {op.port};
      connections := connections[remote := op.socket];
      v := Place(v.(acceptors := acceptors), op.socket, remote);
      Begin(Exchanging(op.socket, remote));
      return None;
    }

    method StartReceiving(id: Address, endpoint: Endpoint, socket: Socket)
      requires Agrees()
      modifies this`pending, this`next, this`v
      ensures Agrees() && v == Start(old(v), Receiving(socket, endpoint, id))
    {
      Begin(Receiving(socket, endpoint, id));
    }

    /** One completed receive pushes exactly one entry, and re-arms only after a success. Only an error
        on a live socket erases, the endpoint and the id. */
    method ReceiveCompleted(token: nat, error: ErrorCode, bytes: Bytes)
      requires Valid() && token in pending && pending[token].Receiving?
      modifies this, receiveQueue
      ensures Valid() && v == ReceiveDone(old(v), token, error, bytes)
      ensures var op := old(pending)[token];
        var alive := old(IsAlive(op.socket));
        && v.log == old(v).log + [Arrival(op.socket, Entry(if alive then error else OperationAborted, op.id, bytes))]
        && pending == (if alive && error == Success then (old(pending) - {token})[old(next) := op]
                       else old(pending) - {token})
        && connections == (if alive && error != Success then old(connections) - {op.endpoint} else old(connections))
        && idToEndpoint == (if alive && error != Success then old(idToEndpoint) - {op.id} else old(idToEndpoint))
        && acceptors == old(acceptors)
    {
      ReceiveDoneKeeps(v, token, error, bytes);
      hide Consistent;
      var op := End(token);
      if !IsAlive(op.socket) {
        Queue(op.socket, Entry(OperationAborted, op.id, bytes));
        return;
      }
      if error != Success {
        Remove(op.endpoint, op.id);
      }
      Queue(op.socket, Entry(error, op.id, bytes));
      if error != Success {
        return;
      }
      StartReceiving(op.id, op.endpoint, op.socket);
    }

    method Queue(socket: Socket, entry: Entry)
      requires receiveQueue.View() == AsyncQueue.After(ops) && AsyncQueue.Pushed(ops) == Entries(v.log)
      modifies this`ops, this`v, receiveQueue
      ensures v == old(v).(log := old(v).log + [Arrival(socket, entry)])
      ensures receiveQueue.View() == AsyncQueue.After(ops) && AsyncQueue.Pushed(ops) == Entries(v.log)
    {
      receiveQueue.Push(entry);
      ops := ops + [AsyncQueue.Push(entry)];
      v := v.(log := v.log + [Arrival(socket, entry)]);
    }

    method Receive(handler: nat)
      requires Valid()
      modifies this`ops, receiveQueue
      ensures Valid() && ops == old(ops) + [AsyncQueue.AsyncPop(handler)]
    {
      hide Consistent;
      receiveQueue.AsyncPop(handler);
      ops := ops + [AsyncQueue.AsyncPop(handler)];
    }

    method Shutdown()
      requires Valid()
      modifies this
      ensures Valid() && v == Clear(old(v)) && ops == old(ops)
      ensures acceptors == map[] && connections == map[] && idToEndpoint == map[] && pending == old(pending)
      ensures v.log == old(v).log
    {
      ClearKeeps(v);
      hide Consistent;
      acceptors, connections, idToEndpoint := map[], map[], map[];
      v := Clear(v);
    }

    /** Receive calls get the entries in the order they were queued, each once, with nothing held
        back while a call waits; and for one connection nothing comes after an error. */
    lemma DeliveredInOrder()
      requires Valid()
      ensures AsyncQueue.Paired(receiveQueue.View(), Entries(v.log), AsyncQueue.Popped(ops))
      ensures receiveQueue.values == [] || receiveQueue.handlers == []
      ensures forall i, j :: 0 <= i < j < |v.log| && v.log[i].socket == v.log[j].socket ==>
        v.log[i].entry.error == Success && v.log[i].entry.id == v.log[j].entry.id
    {
      AsyncQueue.RunPairsInOrder(ops);
    }

    /** One step of an arbitrary interleaving; a send whose demand is not met is not made. */
    method Step(input: Input)
      requires Valid()
      modifies this, receiveQueue
      ensures Valid() && v == Next(old(v), input)
    {
      hide Consistent, SendTo, Dial, Listen, Clear, ConnectDone, ExchangeDone, AcceptDone, SendDone, ReceiveDone;
      match input
      case DoSend(id) =>
        if id in idToEndpoint ==> idToEndpoint[id] in connections {
          var r := Send(id);
        }
      case DoReceive(handler) => Receive(handler);
      case DoConnect(endpoint) => var r := Connect(endpoint);
      case DoAccept(port) => Accept(port);
      case DoShutdown => Shutdown();
      case CompleteAccept(token, error, remote) =>
        if token in pending && pending[token].Accepting? {
          var r := AcceptCompleted(token, error, remote);
        }
      case Complete(token, error, peer, bytes) =>
        if token in pending {
          match pending[token]
          case Connecting(_, _) => var r := ConnectCompleted(token, error);
          case Exchanging(_, _) => var r := ExchangeCompleted(token, error, peer);
          case Sending(_, _, _) => var r := SendCompleted(token, error);
          case Receiving(_, _, _) => ReceiveCompleted(token, error, bytes);
          case Accepting(_, _, _) =>
        }
    }

    /** Every interleaving of calls and completions does what the model says. */
    method Run(script: seq<Input>)
      requires Valid()
      modifies this, receiveQueue
      ensures Valid() && v == ConnectionsRuns.After(old(v), script) && old(v).log <= v.log
    {
      hide Consistent;
      var i := 0;
      while i < |script|
        invariant 0 <= i <= |script|
        invariant Valid() && v == ConnectionsRuns.After(old(v), script[..i])
      {
        assert script[..i + 1][..i] == script[..i];
        Step(script[i]);
        i := i + 1;
      }
      assert script[..i] == script;
      ConnectionsRuns.RunIsConsistent(old(v), script);
    }
  }
}
