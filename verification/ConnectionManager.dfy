/** The connection manager's closeness-ordered peers and the close group range test. */
module ConnectionManager {
  import opened Types
  import opened Xor
  import opened Closeness
  import RoutingTable

  /** How many peers come before the first one further from us than `a`. */
  function UpperBound(us: Address, s: seq<NodeInfo>, a: Address): nat {
    if s == [] || CloserToTarget(a, s[0].id, us) then 0 else 1 + UpperBound(us, s[1..], a)
  }

  predicate InRange(us: Address, s: seq<NodeInfo>, a: Address) {
    |s| < GROUP_SIZE || UpperBound(us, s, a) < GROUP_SIZE
  }

  function CloseGroup(s: seq<NodeInfo>): seq<NodeInfo> {
    RoutingTable.CloseGroup(s)
  }

  /** The upper bound divides the peers into those no further than `a` and those further. */
  lemma {:induction false} UpperBoundDivides(us: Address, s: seq<NodeInfo>, a: Address, i: nat)
    requires Ordered(us, s) && i < |s|
    ensures UpperBound(us, s, a) <= |s|
    ensures i < UpperBound(us, s, a) <==> Distance(s[i].id, us) <= Distance(a, us)
  {
    hide Distance, CloserToTarget;
    CloserIsNumeric(a, s[0].id, us);
    assert i > 0 ==> Distance(s[0].id, us) < Distance(s[i].id, us);
    if !CloserToTarget(a, s[0].id, us) {
      if i > 0 {
        UpperBoundDivides(us, s[1..], a, i - 1);
      } else if |s| > 1 {
        UpperBoundDivides(us, s[1..], a, 0);
      }
    }
  }

  /** For an address that is not a peer, being in range means that inserting it would put it in the
      close group. */
  lemma NonPeerInRangeIff(us: Address, s: seq<NodeInfo>, x: NodeInfo)
    requires Ordered(us, s) && !HasId(s, x.id)
    ensures InRange(us, s, x.id) <==> x in CloseGroup(Insert(us, s, x))
  {
    hide Distance, Insert, CloserToTarget, UpperBound;
    var p := InsertSplits(us, s, x);
    if p > 0 { UpperBoundDivides(us, s, x.id, p - 1); }
    if p < |s| { UpperBoundDivides(us, s, x.id, p); }
    if s == [] { NoPeers(us, x.id); }
    assert UpperBound(us, s, x.id) == p;
    SplicedAt(us, s, x, p);
  }

  lemma NoPeers(us: Address, a: Address)
    ensures UpperBound(us, [], a) == 0
  {
  }

  lemma SplicedAt(us: Address, s: seq<NodeInfo>, x: NodeInfo, p: nat)
    requires p <= |s| && !HasId(s, x.id)
    ensures x in CloseGroup(s[..p] + [x] + s[p..]) <==> p < GROUP_SIZE
  {
    var t := s[..p] + [x] + s[p..];
    assert t[p] == x;
    forall i | 0 <= i < |t| && i != p ensures t[i] != x {
      assert t[i] == s[if i < p then i else i - 1];
    }
    if p < GROUP_SIZE { assert CloseGroup(t)[p] == x; }
  }

  /** With a full close group a peer is in range exactly when it is one of the first GROUP_SIZE - 1:
      the last member of the close group is reported out of range. */
  lemma PeerInRangeIff(us: Address, s: seq<NodeInfo>, i: nat)
    requires Ordered(us, s) && i < |s| && |s| >= GROUP_SIZE
    ensures InRange(us, s, s[i].id) <==> i < GROUP_SIZE - 1
  {
    hide Distance, UpperBound;
    UpperBoundDivides(us, s, s[i].id, i);
    if i + 1 < |s| { UpperBoundDivides(us, s, s[i].id, i + 1); }
  }

  /** The test is monotone in closeness. */
  lemma RangeIsMonotone(us: Address, s: seq<NodeInfo>, a: Address, b: Address)
    requires Ordered(us, s) && Distance(a, us) <= Distance(b, us) && InRange(us, s, b)
    ensures InRange(us, s, a)
  {
    hide Distance, UpperBound;
    if |s| >= GROUP_SIZE {
      UpperBoundDivides(us, s, a, GROUP_SIZE - 1);
      UpperBoundDivides(us, s, b, GROUP_SIZE - 1);
    }
  }

  /** A new peer only shrinks the range. */
  lemma InsertShrinksRange(us: Address, s: seq<NodeInfo>, x: NodeInfo, a: Address)
    requires Ordered(us, s) && !HasId(s, x.id) && InRange(us, Insert(us, s, x), a)
    ensures InRange(us, s, a)
  {
    hide Distance, UpperBound, Insert;
    InsertKeepsOrder(us, s, x);
    var p := InsertSplits(us, s, x);
    var t, k := Insert(us, s, x), GROUP_SIZE - 1;
    if |s| >= GROUP_SIZE {
      UpperBoundDivides(us, s, a, k);
      UpperBoundDivides(us, t, a, k);
      assert Distance(t[k].id, us) <= Distance(s[k].id, us);
    }
  }

  /** Dropping a peer changes the close group exactly when the peer was in it. */
  lemma DropChangesGroupIff(us: Address, s: seq<NodeInfo>, id: Address)
    requires Ordered(us, s)
    ensures CloseGroup(RoutingTable.Drop(s, id)) == CloseGroup(s) <==> !HasId(CloseGroup(s), id)
  {
    var t := RoutingTable.Drop(s, id);
    RoutingTable.DropRemovesExactly(us, s, id);
    if HasId(CloseGroup(s), id) {
      var i :| 0 <= i < |CloseGroup(s)| && CloseGroup(s)[i].id == id;
      hide Distance, RoutingTable.Drop;
      assert forall k :: 0 <= k < |CloseGroup(t)| ==> CloseGroup(t)[k] in t;
    } else {
      DropBeyondPrefix(s, id, |CloseGroup(s)|);
    }
  }

  lemma {:induction false} DropBeyondPrefix(s: seq<NodeInfo>, id: Address, k: nat)
    requires k <= |s| && !HasId(s[..k], id)
    ensures k <= |RoutingTable.Drop(s, id)| && RoutingTable.Drop(s, id)[..k] == s[..k]
    ensures |RoutingTable.Drop(s, id)| <= |s|
  {
    if s != [] && k == 0 {
      DropBeyondPrefix(s[1..], id, 0);
    } else if s != [] {
      assert s[..k][0].id != id;
      assert s[1..][..k - 1] == s[..k][1..];
      DropBeyondPrefix(s[1..], id, k - 1);
      assert s[..k] == [s[0]] + s[1..][..k - 1];
    }
  }

  /** `ids` are the ids of `s`, one by one. */
  predicate IsIdsOf(ids: seq<Address>, s: seq<NodeInfo>) {
    |ids| == |s| && forall i :: 0 <= i < |s| ==> ids[i] == s[i].id
  }

  lemma DropChangesIdsIff(us: Address, s: seq<NodeInfo>, id: Address)
    requires Ordered(us, s)
    ensures Ids(CloseGroup(RoutingTable.Drop(s, id))) == Ids(CloseGroup(s)) <==> !HasId(CloseGroup(s), id)
    ensures forall ids, t :: IsIdsOf(ids, t) <==> ids == Ids(t)
  {
    var t := RoutingTable.Drop(s, id);
    RoutingTable.DropRemovesExactly(us, s, id);
    DropChangesGroupIff(us, s, id);
    hide RoutingTable.Drop, Ordered;
    if HasId(CloseGroup(s), id) {
      var i :| 0 <= i < |CloseGroup(s)| && CloseGroup(s)[i].id == id;
      assert Ids(CloseGroup(s))[i] == id;
      forall k | 0 <= k < |CloseGroup(t)| ensures Ids(CloseGroup(t))[k] != id {
        assert CloseGroup(t)[k] in t;
      }
    }
  }

  class ConnectionManager {
    const ourId: Address
    var peers: seq<NodeInfo>
    var currentCloseGroup: seq<Address>

    ghost predicate Valid()
      reads this
    {
      Ordered(ourId, peers)
    }

    constructor (ourId: Address)
      ensures Valid() && peers == [] && currentCloseGroup == [] && this.ourId == ourId
    {
      this.ourId := ourId;
      peers, currentCloseGroup := [], [];
    }

    method OurCloseGroup() returns (result: seq<NodeInfo>)
      ensures result == CloseGroup(peers)
    {
      result := [];
      var i := 0;
      while i < |peers|
        invariant 0 <= i <= |peers| && i <= GROUP_SIZE
        invariant result == peers[..i]
      {
        if i + 1 > GROUP_SIZE {
          break;
        }
        result := result + [peers[i]];
        i := i + 1;
      }
    }

    method AddressInCloseGroupRange(address: Address) returns (inRange: bool)
      ensures inRange == InRange(ourId, peers, address)
    {
      if |peers| < GROUP_SIZE {
        return true;
      }
      return UpperBound(ourId, peers, address) < GROUP_SIZE;
    }

    method InsertPeer(node: NodeInfo) returns (inserted: bool)
      requires Valid()
      modifies this`peers
      ensures Valid() && inserted == !HasId(old(peers), node.id)
      ensures peers == if inserted then Insert(ourId, old(peers), node) else old(peers)
    {
      if HasId(peers, node.id) {
        return false;
      }
      InsertKeepsOrder(ourId, peers, node);
      peers := Insert(ourId, peers, node);
      return true;
    }

    /** Reports the new and the previous close group, if the two differ; from an up-to-date record of the
        close group, exactly when the peer was in it. */
    method DropNode(theirId: Address) returns (changed: Option<(seq<Address>, seq<Address>)>)
      requires Valid()
      modifies this
      ensures Valid() && peers == RoutingTable.Drop(old(peers), theirId)
      ensures IsIdsOf(currentCloseGroup, CloseGroup(peers))
      ensures changed == if currentCloseGroup == old(currentCloseGroup) then None
        else Some((currentCloseGroup, old(currentCloseGroup)))
      ensures IsIdsOf(old(currentCloseGroup), CloseGroup(old(peers))) ==>
        (changed == None <==> !HasId(CloseGroup(old(peers)), theirId))
    {
      RoutingTable.DropRemovesExactly(ourId, peers, theirId);
      DropChangesIdsIff(ourId, peers, theirId);
      hide RoutingTable.Drop, Ordered, CloseGroup;
      peers := RoutingTable.Drop(peers, theirId);
      var newGroup := OurCloseGroup();
      var newGroupIds := Ids(newGroup);
      if newGroupIds != currentCloseGroup {
        changed := Some((newGroupIds, currentCloseGroup));
        currentCloseGroup := newGroupIds;
        return;
      }
      return None;
    }
  }

  function Ids(s: seq<NodeInfo>): seq<Address> {
    seq(|s|, i requires 0 <= i < |s| => s[i].id)
  }
}
