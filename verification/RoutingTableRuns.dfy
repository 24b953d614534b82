/** Whole runs of the routing table: what holds after every sequence of calls. */
module RoutingTableRuns {
  import opened Types
  import opened Xor
  import opened Closeness
  import opened RoutingTable
  import opened RoutingTableSteps

  datatype Call = AddNode(info: NodeInfo) | DropNode(id: Address)

  /** The table after a sequence of calls on a new routing table. */
  ghost function Run(us: Address, valid: PublicKey -> bool, calls: seq<Call>): seq<NodeInfo> {
    if calls == [] then []
    else
      var s := Run(us, valid, calls[..|calls| - 1]);
      match calls[|calls| - 1]
      case AddNode(x) => Add(us, valid, s, x).nodes
      case DropNode(id) => Drop(s, id)
  }

  /** The table after offering contacts one by one, with no drops, starting from `s`. */
  ghost function Offered(us: Address, valid: PublicKey -> bool, s: seq<NodeInfo>, xs: seq<NodeInfo>): seq<NodeInfo> {
    if xs == [] then s
    else Add(us, valid, Offered(us, valid, s, xs[..|xs| - 1]), xs[|xs| - 1]).nodes
  }

  /** Every reachable table is sorted, free of duplicates and of our own id, and bounded. */
  lemma {:induction false} RunIsBoundedTable(us: Address, valid: PublicKey -> bool, calls: seq<Call>)
    ensures IsTable(us, Run(us, valid, calls)) && |Run(us, valid, calls)| <= MOST_CONTACTS
    ensures MOST_CONTACTS <= GROUP_SIZE + ADDRESS_BITS
  {
    if calls != [] {
      var s := Run(us, valid, calls[..|calls| - 1]);
      RunIsBoundedTable(us, valid, calls[..|calls| - 1]);
      hide Add, Drop, Distance;
      match calls[|calls| - 1]
      case AddNode(x) =>
        AddConserves(us, valid, s, x);
        AddIsBounded(us, valid, s, x);
      case DropNode(id) =>
        DropRemovesExactly(us, s, id);
        NoIdFromMembers(s, Drop(s, id), us);
    }
  }

  lemma {:induction false} OfferedKeepsFull(us: Address, valid: PublicKey -> bool, s: seq<NodeInfo>, xs: seq<NodeInfo>)
    requires IsTable(us, s)
    ensures IsTable(us, Offered(us, valid, s, xs))
    ensures |s| >= OPTIMAL_SIZE ==> |Offered(us, valid, s, xs)| >= OPTIMAL_SIZE
  {
    hide Add, IsTable;
    if xs != [] {
      var init, x := xs[..|xs| - 1], xs[|xs| - 1];
      OfferedKeepsFull(us, valid, s, init);
      var t := Offered(us, valid, s, init);
      AddConserves(us, valid, t, x);
      if |t| >= OPTIMAL_SIZE { AddTightens(us, valid, t, x); }
    }
  }

  /** Rejection is permanent: once the table is full, a contact it does not want stays unwanted
      through any sequence of offers. */
  lemma {:induction false} RejectionIsPermanent(
    us: Address, valid: PublicKey -> bool, s: seq<NodeInfo>, xs: seq<NodeInfo>, id: Address)
    requires IsTable(us, s) && |s| >= OPTIMAL_SIZE && !Check(us, s, id)
    ensures !Check(us, Offered(us, valid, s, xs), id)
  {
    hide Add, IsTable, Check;
    if xs != [] {
      var init := xs[..|xs| - 1];
      RejectionIsPermanent(us, valid, s, init, id);
      OfferedKeepsFull(us, valid, s, init);
      RejectionSticks(us, valid, Offered(us, valid, s, init), xs[|xs| - 1], id);
    }
  }

  lemma RejectedIsNotAdded(us: Address, valid: PublicKey -> bool, s: seq<NodeInfo>, x: NodeInfo)
    requires !Check(us, s, x.id)
    ensures !Add(us, valid, s, x).added && Add(us, valid, s, x).nodes == s
  {
    hide ScanFrom, CloserToTarget, PushBackThenSort, Bucket, HasId;
  }

  lemma {:induction false} RejectedStaysOut(
    us: Address, valid: PublicKey -> bool, s: seq<NodeInfo>, xs: seq<NodeInfo>, id: Address)
    requires IsTable(us, s) && |s| >= OPTIMAL_SIZE && !Check(us, s, id) && !HasId(s, id)
    ensures !HasId(Offered(us, valid, s, xs), id)
  {
    hide Add, IsTable, Check, HasId;
    if xs != [] {
      var init, x := xs[..|xs| - 1], xs[|xs| - 1];
      RejectedStaysOut(us, valid, s, init, id);
      RejectionIsPermanent(us, valid, s, init, id);
      OfferedKeepsFull(us, valid, s, init);
      var t := Offered(us, valid, s, init);
      if x.id == id {
        RejectedIsNotAdded(us, valid, t, x);
      } else {
        AddConserves(us, valid, t, x);
        NoIdFromMembers(t, Add(us, valid, t, x).nodes, id);
      }
    }
  }

  /** Offers never empty a bucket. */
  lemma {:induction false} OffersKeepOccupied(
    us: Address, valid: PublicKey -> bool, s: seq<NodeInfo>, xs: seq<NodeInfo>, b: nat)
    requires IsTable(us, s) && Occupied(us, s, b)
    ensures Occupied(us, Offered(us, valid, s, xs), b)
  {
    hide Add, IsTable, Occupied;
    if xs != [] {
      var init := xs[..|xs| - 1];
      OffersKeepOccupied(us, valid, s, init, b);
      OfferedKeepsFull(us, valid, s, init);
      AddKeepsOccupied(us, valid, Offered(us, valid, s, init), xs[|xs| - 1], b);
    }
  }

  /** An evicted contact is never admitted again, whatever else is offered and whatever key it
      comes back with. */
  lemma EvictedNeverReturns(
    us: Address, valid: PublicKey -> bool, s: seq<NodeInfo>, x: NodeInfo, xs: seq<NodeInfo>, again: NodeInfo)
    requires IsTable(us, s) && Add(us, valid, s, x).evicted.Some?
    requires again.id == Add(us, valid, s, x).evicted.value.id
    ensures var t := Offered(us, valid, Add(us, valid, s, x).nodes, xs);
      !HasId(t, again.id) && !Add(us, valid, t, again).added
  {
    hide HasId, PushBackThenSort, ScanFrom, CloserToTarget, IsTable, Check, Bucket;
    var a := Add(us, valid, s, x);
    assert !HasId(s, x.id);
    hide Add;
    AddConserves(us, valid, s, x);
    EvictedIsRejected(us, valid, s, x);
    AddTightens(us, valid, s, x);
    EvictedIsGone(us, s, x, a);
    RejectedStaysOut(us, valid, a.nodes, xs, again.id);
    RejectionIsPermanent(us, valid, a.nodes, xs, again.id);
    RejectedIsNotAdded(us, valid, Offered(us, valid, a.nodes, xs), again);
  }

  lemma EvictedIsGone(us: Address, s: seq<NodeInfo>, x: NodeInfo, a: AddResult)
    requires IsTable(us, s) && Conserves(us, s, x, a) && a.evicted.Some? && !HasId(s, x.id)
    ensures !HasId(a.nodes, a.evicted.value.id)
  {
    hide Distance;
    var c := a.evicted.value;
    forall i | 0 <= i < |a.nodes| ensures a.nodes[i].id != c.id {
      var y := a.nodes[i];
      assert y in a.nodes && y != c;
    }
  }

  // ----- The close group

  predicate Eligible(us: Address, valid: PublicKey -> bool, x: NodeInfo) {
    x.id != us && valid(x.key)
  }

  /** `id` is in the table, or the table is full and `id` is beyond its first GROUP_SIZE + 1
      contacts. */
  ghost predicate HeldOrBeyond(us: Address, t: seq<NodeInfo>, id: Address) {
    HasId(t, id) || (|t| >= OPTIMAL_SIZE && Distance(t[GROUP_SIZE].id, us) < Distance(id, us))
  }

  lemma RejectedIsBeyond(us: Address, t: seq<NodeInfo>, id: Address)
    requires IsTable(us, t) && id != us && !Check(us, t, id)
    ensures HeldOrBeyond(us, t, id)
  {
    CheckMeaning(us, t, id);
    if !HasId(t, id) { DistanceIsInjective(t[GROUP_SIZE].id, id, us); }
    hide Check, Distance, FurtherCrowded, Ordered;
  }

  /** One offer keeps every contact met so far either held or beyond the frontier. */
  lemma AddKeepsHeldOrBeyond(us: Address, valid: PublicKey -> bool, s: seq<NodeInfo>, x: NodeInfo, id: Address)
    requires IsTable(us, s) && id != us
    requires HeldOrBeyond(us, s, id) || (x.id == id && valid(x.key))
    ensures HeldOrBeyond(us, Add(us, valid, s, x).nodes, id)
  {
    var a := Add(us, valid, s, x);
    AddConserves(us, valid, s, x);
    if x.id == id && valid(x.key) { CheckPredictsAdd(us, valid, s, x); }
    hide Add, Check, Distance, IsTable, Crowded;
    assert a.added ==> x in a.nodes;
    if HasId(a.nodes, id) {
    } else if HasId(s, id) {
      MissingWasEvicted(us, s, x, a, id);
      EvictedIsRejected(us, valid, s, x);
      RejectedIsBeyond(us, a.nodes, id);
    } else if HeldOrBeyond(us, s, id) {
      AddTightens(us, valid, s, x);
    } else {
      RejectedIsBeyond(us, s, id);
      AddTightens(us, valid, s, x);
    }
  }

  lemma {:induction false} OfferedIsHeldOrBeyond(us: Address, valid: PublicKey -> bool, xs: seq<NodeInfo>, x: NodeInfo)
    requires x in xs && Eligible(us, valid, x)
    ensures HeldOrBeyond(us, Offered(us, valid, [], xs), x.id)
  {
    hide Add, IsTable, HeldOrBeyond;
    var init, last := xs[..|xs| - 1], xs[|xs| - 1];
    EmptyIsTable(us);
    OfferedKeepsFull(us, valid, [], init);
    if x in init { OfferedIsHeldOrBeyond(us, valid, init, x); }
    AddKeepsHeldOrBeyond(us, valid, Offered(us, valid, [], init), last, x.id);
  }

  lemma EmptyIsTable(us: Address)
    ensures IsTable(us, [])
  {
  }

  lemma {:induction false} HeldWasOffered(us: Address, valid: PublicKey -> bool, xs: seq<NodeInfo>, y: NodeInfo)
    requires y in Offered(us, valid, [], xs)
    ensures y in xs && Eligible(us, valid, y)
  {
    hide PushBackThenSort, ScanFrom, CloserToTarget, IsTable, HasId, Bucket, BetterThanExisting;
    var init, x := xs[..|xs| - 1], xs[|xs| - 1];
    EmptyIsTable(us);
    OfferedKeepsFull(us, valid, [], init);
    var t := Offered(us, valid, [], init);
    AddConserves(us, valid, t, x);
    assert Add(us, valid, t, x).added ==> Eligible(us, valid, x);
    hide Add;
    if y in t { HeldWasOffered(us, valid, init, y); }
  }

  /** Close group over whole runs: with no drops, the close group (and the one contact after it)
      is exactly the closest of all eligible contacts ever offered, including those since
      rejected or evicted. */
  lemma CloseGroupIsClosestOffered(us: Address, valid: PublicKey -> bool, xs: seq<NodeInfo>, k: nat)
    requires k <= GROUP_SIZE + 1
    ensures var t := Offered(us, valid, [], xs);
      var closest := t[..if k <= |t| then k else |t|];
      && Ordered(us, closest)
      && (forall y :: y in closest ==> y in xs && Eligible(us, valid, y))
      && (forall x :: x in xs && Eligible(us, valid, x) && !HasId(closest, x.id) ==>
            |closest| == k && forall y :: y in closest ==> Distance(y.id, us) < Distance(x.id, us))
  {
    hide Add, Distance;
    var t := Offered(us, valid, [], xs);
    EmptyIsTable(us);
    OfferedKeepsFull(us, valid, [], xs);
    hide Offered;
    var closest := t[..if k <= |t| then k else |t|];
    forall y | y in closest ensures y in xs && Eligible(us, valid, y) {
      assert y in t;
      HeldWasOffered(us, valid, xs, y);
    }
    forall x | x in xs && Eligible(us, valid, x) && !HasId(closest, x.id)
      ensures |closest| == k && forall y :: y in closest ==> Distance(y.id, us) < Distance(x.id, us)
    {
      OfferedIsHeldOrBeyond(us, valid, xs, x);
      BeyondClosest(us, t, k, x.id);
    }
  }

  lemma BeyondClosest(us: Address, t: seq<NodeInfo>, k: nat, id: Address)
    requires Ordered(us, t) && HeldOrBeyond(us, t, id) && k <= GROUP_SIZE + 1
    requires !HasId(t[..if k <= |t| then k else |t|], id)
    ensures k <= |t| && forall i :: 0 <= i < k ==> Distance(t[i].id, us) < Distance(id, us)
  {
    hide Distance;
    if HasId(t, id) {
      var j :| 0 <= j < |t| && t[j].id == id;
      assert k <= j;
    }
  }
}
