/** Runs of the connections object that end in a blocked endpoint, a lost peer or a lost socket. */
module ConnectionsScenarios {
  import opened Types
  import opened Xor
  import opened ConnectionsModel
  import Connections

  /** A failed dial blocks its endpoint. */
  method FailedDialIsRefused(endpoint: Endpoint, error: ErrorCode)
    returns (first: Option<ErrorCode>, failed: Option<ErrorCode>, again: Option<ErrorCode>)
    requires error != Success
    ensures first == None && failed == Some(error) && again == Some(AlreadyStarted)
  {
    hide Consistent;
    var c := new Connections.Connections();
    first := c.Connect(endpoint);
    assert c.connections[endpoint] == 0 && c.pending == map[1 := Connecting(0, endpoint)];
    failed := c.ConnectCompleted(1, error);
    again := c.Connect(endpoint);
  }

  /** Dials `endpoint` with success; `token` is the exchange of ids this leaves outstanding. */
  method DialSucceeds(c: Connections.Connections, endpoint: Endpoint) returns (token: nat)
    requires c.Valid() && endpoint !in c.connections
    modifies c
    ensures c.Valid() && c.acceptors == old(c.acceptors)
    ensures c.connections == old(c.connections)[endpoint := old(c.next)] && c.idToEndpoint == old(c.idToEndpoint)
    ensures old(c.next) < token < c.next && token !in old(c.pending)
    ensures c.pending == old(c.pending)[token := Exchanging(old(c.next), endpoint)]
  {
    TokensAreOld(c.v);
    hide Consistent;
    var n := c.next;
    var r := c.Connect(endpoint);
    assert c.connections[endpoint] == n && c.IsAlive(n);
    assert c.pending - {n + 1} == old(c.pending);
    r := c.ConnectCompleted(n + 1, Success);
    token := n + 2;
  }

  lemma TokensAreOld(v: View)
    requires Consistent(v)
    ensures forall t :: t in v.pending ==> t < v.next
  {
    hide HistoryAgrees, NoErrorYet;
  }

  /** Dials `endpoint`, where the peer `id` answers; `token` is the receive this leaves outstanding. */
  method DialPeer(c: Connections.Connections, endpoint: Endpoint, id: Address) returns (token: nat)
    requires c.Valid() && endpoint !in c.connections
    modifies c
    ensures c.Valid() && c.acceptors == old(c.acceptors)
    ensures c.connections == old(c.connections)[endpoint := old(c.next)]
    ensures c.idToEndpoint == old(c.idToEndpoint)[id := endpoint]
    ensures old(c.next) < token < c.next
    ensures c.pending == old(c.pending)[token := Receiving(old(c.next), endpoint, id)]
  {
    hide Consistent;
    var exchange := DialSucceeds(c, endpoint);
    assert c.connections[endpoint] == old(c.next) && c.IsAlive(old(c.next));
    assert c.pending - {exchange} == old(c.pending);
    token := c.next;
    var r := c.ExchangeCompleted(exchange, Success, id);
  }

  /** A peer that is connected twice is lost when the older connection fails: the newer one is alive
      and received from, yet sending to the peer is refused. */
  method OlderFailureHidesPeer(id: Address, older: Endpoint, newer: Endpoint, error: ErrorCode)
    returns (alive: bool, sent: Option<ErrorCode>)
    requires older != newer && error != Success
    ensures alive && sent == Some(BadDescriptor)
  {
    hide Consistent;
    var c := new Connections.Connections();
    var first := DialPeer(c, older, id);
    var second := DialPeer(c, newer, id);
    assert c.connections[older] == 0 && c.IsAlive(0);
    var socket := c.connections[newer];
    c.ReceiveCompleted(first, error, []);
    sent := c.Send(id);
    assert c.connections[newer] == socket;
    alive := second in c.pending && c.IsAlive(socket);
  }

  /** A known peer, and an accept from its endpoint: `token` is the exchange this leaves outstanding. */
  method AcceptOverPeer(id: Address, endpoint: Endpoint, port: nat) returns (c: Connections.Connections, token: nat)
    ensures fresh(c) && fresh(c.receiveQueue) && c.Valid() && c.acceptors == map[]
    ensures c.idToEndpoint == map[id := endpoint] && c.connections.Keys == {endpoint}
    ensures token in c.pending && c.pending[token] == Exchanging(c.connections[endpoint], endpoint)
  {
    hide Consistent;
    c := new Connections.Connections();
    var receive := DialPeer(c, endpoint, id);
    var n := c.next;
    c.Accept(port);
    assert c.acceptors[port] == n && c.acceptors == map[port := n];
    assert c.pending[n + 2] == Accepting(n + 1, port, n);
    token := c.next;
    var r := c.AcceptCompleted(n + 2, Success, endpoint);
  }

  /** Its failed exchange leaves the id leading to nothing: the assertion in Send fails. */
  method AcceptOverPeerLosesSocket(id: Address, endpoint: Endpoint, port: nat, error: ErrorCode)
    returns (c: Connections.Connections)
    requires error != Success
    ensures fresh(c) && fresh(c.receiveQueue) && c.Valid()
    ensures c.idToEndpoint == map[id := endpoint] && c.connections == map[]
  {
    hide Consistent;
    var token;
    c, token := AcceptOverPeer(id, endpoint, port);
    assert c.IsAlive(c.connections[endpoint]);
    var r := c.ExchangeCompleted(token, error, id);
  }

  /** When the peer answers there, its id leads to its own socket again. */
  method AcceptOverPeerRestores(id: Address, endpoint: Endpoint, port: nat)
    returns (c: Connections.Connections, sent: Option<ErrorCode>)
    ensures c.Valid() && Leads(c.v, id) && sent == None
  {
    hide Consistent;
    var token;
    c, token := AcceptOverPeer(id, endpoint, port);
    assert c.IsAlive(c.connections[endpoint]);
    var r := c.ExchangeCompleted(token, Success, id);
    sent := c.Send(id);
  }

  /** The third way out for an endpoint whose dial failed: a send under an id that still leads there
      fails, and the endpoint can be dialled again. */
  method FailedSendFreesEndpoint(id: Address, endpoint: Endpoint, port: nat, error: ErrorCode)
    returns (refused: Option<ErrorCode>, again: Option<ErrorCode>)
    requires error != Success
    ensures refused == Some(AlreadyStarted) && again == None
  {
    hide Consistent;
    var c := AcceptOverPeerLosesSocket(id, endpoint, port, error);
    var n := c.next;
    var dialled := c.Connect(endpoint);
    assert c.connections[endpoint] == n && c.IsAlive(n);
    var sent := c.Send(id);
    assert c.pending[n + 1] == Connecting(n, endpoint) && c.pending[n + 2] == Sending(n, endpoint, id);
    var failed := c.ConnectCompleted(n + 1, error);
    refused := c.Connect(endpoint);
    assert c.pending[n + 2] == Sending(n, endpoint, id) && c.connections[endpoint] == n && c.IsAlive(n);
    var lost := c.SendCompleted(n + 2, error);
    again := c.Connect(endpoint);
  }
}
