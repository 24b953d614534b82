/** Forwarding to ever closer contacts: when it stops short, and when it cannot. */
module GreedyRouting {
  import opened Types
  import opened Xor
  import opened Closeness
  import opened RoutingTable
  import opened RoutingTableSteps
  import opened RoutingTableRuns
  import opened RoutingTableExtremes

  /** A node closer to the target than we are lives in a bucket where we and the target differ. */
  lemma CloserIffBucketDiffers(us: Address, id: Address, target: Address)
    ensures CloserToTarget(id, us, target) <==>
      id != us && us[BucketIndex(us, id)] != target[BucketIndex(us, id)]
  {
    CloserAtFirstDifference(id, us, target);
    var m, n := CommonLeadingBits(id, us), CommonLeadingBits(us, id);
    assert m <= n && n <= m;
    if n == ADDRESS_BITS {
      assert us == id;
    }
  }

  /** No contact of `s` is closer to the target than we are. */
  ghost predicate Stuck(us: Address, s: seq<NodeInfo>, target: Address) {
    forall y :: y in s ==> !CloserToTarget(y.id, us, target)
  }

  /** Forwarding stops here exactly when every bucket where we and the target differ is empty. */
  lemma StuckIffBucketsEmpty(us: Address, s: seq<NodeInfo>, target: Address)
    requires !HasId(s, us)
    ensures Stuck(us, s, target) <==>
      forall i :: 0 <= i < ADDRESS_BITS && us[i] != target[i] ==> !Occupied(us, s, i)
  {
    forall y | y in s
      ensures CloserToTarget(y.id, us, target) <==> us[Bucket(us, y)] != target[Bucket(us, y)]
    {
      CloserIffBucketDiffers(us, y.id, target);
    }
    hide CloserToTarget, Bucket;
    if Stuck(us, s, target) {
      forall i | 0 <= i < ADDRESS_BITS && us[i] != target[i] ensures !Occupied(us, s, i) {
      }
    } else {
      var y :| y in s && CloserToTarget(y.id, us, target);
      assert Occupied(us, s, Bucket(us, y));
    }
  }

  /** Every bucket inhabited by one of `peers` is occupied. */
  ghost predicate Covers(us: Address, s: seq<NodeInfo>, peers: set<Address>) {
    forall m :: m in peers && m != us ==> Occupied(us, s, BucketIndex(us, m))
  }

  ghost predicate ClosestOf(n: Address, peers: set<Address>, target: Address) {
    n in peers && forall m :: m in peers ==> Distance(n, target) <= Distance(m, target)
  }

  /** With full coverage there are no false dead ends: a node that cannot forward is the closest. */
  lemma CoveredStopIsClosest(us: Address, s: seq<NodeInfo>, target: Address, peers: set<Address>)
    requires us in peers && !HasId(s, us) && Covers(us, s, peers) && Stuck(us, s, target)
    ensures ClosestOf(us, peers, target)
  {
    StuckIffBucketsEmpty(us, s, target);
    forall m | m in peers ensures Distance(us, target) <= Distance(m, target) {
      CloserIsNumeric(m, us, target);
      CloserIffBucketDiffers(us, m, target);
    }
  }

  /** A network: each node's routing table. */
  type Network = map<Address, seq<NodeInfo>>

  ghost predicate WellFormed(net: Network) {
    forall n :: n in net ==> IsTable(n, net[n]) && forall y :: y in net[n] ==> y.id in net
  }

  ghost predicate Covered(net: Network) {
    forall n :: n in net ==> Covers(n, net[n], net.Keys)
  }

  /** Where a message for `target` ends up when each node hands it to its closest contact for as
      long as that contact is closer than the node itself. */
  ghost function Route(net: Network, n: Address, target: Address): (end: Address)
    requires WellFormed(net) && n in net
    ensures end in net
    decreases Distance(n, target)
  {
    if net[n] == [] then n
    else
      ClosestIsFirst(n, net[n], target);
      var next := SortByCloseness(target, net[n])[0];
      CloserIsNumeric(next.id, n, target);
      if CloserToTarget(next.id, n, target) then Route(net, next.id, target) else n
  }

  lemma ClosestNotCloserMeansStuck(us: Address, s: seq<NodeInfo>, target: Address, c: NodeInfo)
    requires IsClosest(s, target, c) && !CloserToTarget(c.id, us, target)
    ensures Stuck(us, s, target)
  {
    hide Distance, CloserToTarget;
    forall y | y in s ensures !CloserToTarget(y.id, us, target) {
      CloserIsNumeric(y.id, us, target);
      CloserIsNumeric(c.id, us, target);
    }
  }

  /** In a covered network every message ends at the node globally closest to its target. */
  lemma {:induction false} RouteReachesClosest(net: Network, n: Address, target: Address)
    requires WellFormed(net) && Covered(net) && n in net
    ensures ClosestOf(Route(net, n, target), net.Keys, target)
    decreases Distance(n, target)
  {
    hide Distance, CloserToTarget, SortByCloseness, Ordered, Occupied;
    var s := net[n];
    if s == [] {
      CoveredStopIsClosest(n, s, target, net.Keys);
    } else {
      ClosestIsFirst(n, s, target);
      var next := SortByCloseness(target, s)[0];
      CloserIsNumeric(next.id, n, target);
      if CloserToTarget(next.id, n, target) {
        RouteReachesClosest(net, next.id, target);
      } else {
        ClosestNotCloserMeansStuck(n, s, target, next);
        CoveredStopIsClosest(n, s, target, net.Keys);
      }
    }
  }

  // ----- Which buckets the admission rule covers

  ghost predicate AdmittedAt(us: Address, valid: PublicKey -> bool, xs: seq<NodeInfo>, b: nat, i: nat) {
    i < |xs| && Bucket(us, xs[i]) == b && valid(xs[i].key) && Check(us, Offered(us, valid, [], xs[..i]), xs[i].id)
  }

  /** A bucket ends up occupied exactly when the table wanted one of the contacts offered in it. */
  lemma {:induction false} OccupiedIffAdmitted(us: Address, valid: PublicKey -> bool, xs: seq<NodeInfo>, b: nat)
    ensures Occupied(us, Offered(us, valid, [], xs), b) <==> exists i: nat :: AdmittedAt(us, valid, xs, b, i)
  {
    hide Add, Check, Bucket, IsTable;
    if xs != [] {
      var init, x, k := xs[..|xs| - 1], xs[|xs| - 1], |xs| - 1;
      OccupiedIffAdmitted(us, valid, init, b);
      EmptyIsTable(us);
      OfferedKeepsFull(us, valid, [], init);
      var t := Offered(us, valid, [], init);
      AddConserves(us, valid, t, x);
      CheckPredictsAdd(us, valid, t, x);
      if Occupied(us, t, b) { AddKeepsOccupied(us, valid, t, x, b); }
      forall i: nat | i < k ensures AdmittedAt(us, valid, xs, b, i) <==> AdmittedAt(us, valid, init, b, i) {
        assert init[..i] == xs[..i] && init[i] == xs[i];
      }
      assert AdmittedAt(us, valid, xs, b, k) <==> Bucket(us, x) == b && Add(us, valid, t, x).added;
      hide AdmittedAt, Offered;
      if exists i: nat :: AdmittedAt(us, valid, xs, b, i) {
        var i: nat :| AdmittedAt(us, valid, xs, b, i);
        assert i < k || i == k by { AdmittedInRange(us, valid, xs, b, i); }
      }
      if exists i: nat :: AdmittedAt(us, valid, init, b, i) {
        var i: nat :| AdmittedAt(us, valid, init, b, i);
        AdmittedInRange(us, valid, init, b, i);
      }
    }
  }

  lemma AdmittedInRange(us: Address, valid: PublicKey -> bool, xs: seq<NodeInfo>, b: nat, i: nat)
    requires AdmittedAt(us, valid, xs, b, i)
    ensures i < |xs|
  {
  }

  /** `xs[i]` falls in bucket `b` and comes closer than the frontier of the table at that point. */
  ghost predicate ComesClose(
    us: Address, valid: PublicKey -> bool, s: seq<NodeInfo>, xs: seq<NodeInfo>, b: nat, i: nat) {
    i < |xs| && Bucket(us, xs[i]) == b && Eligible(us, valid, xs[i]) &&
    var t := Offered(us, valid, s, xs[..i]);
    GROUP_SIZE < |t| && Distance(xs[i].id, us) < Distance(t[GROUP_SIZE].id, us)
  }

  /** Whether a full table ever fills an empty bucket with no crowded bucket beyond it is a matter
      of distances alone: it does exactly when a contact of that bucket is offered that is closer
      than contact number GROUP_SIZE. */
  lemma {:induction false} EmptyBucketFillsIff(
    us: Address, valid: PublicKey -> bool, s: seq<NodeInfo>, xs: seq<NodeInfo>, b: nat)
    requires IsTable(us, s) && |s| >= OPTIMAL_SIZE && !Occupied(us, s, b)
    requires forall c: nat :: c < b ==> !Crowded(us, s, c)
    ensures Occupied(us, Offered(us, valid, s, xs), b) <==> exists i: nat :: ComesClose(us, valid, s, xs, b, i)
    ensures forall c: nat :: c < b ==> !Crowded(us, Offered(us, valid, s, xs), c)
  {
    hide Add, IsTable, Occupied, Crowded, Bucket, ComesClose, Distance;
    if xs == [] {
      forall i: nat ensures !ComesClose(us, valid, s, xs, b, i) { NoneComesClose(us, valid, s, b, i); }
    } else {
      var init, x, k := xs[..|xs| - 1], xs[|xs| - 1], |xs| - 1;
      EmptyBucketFillsIff(us, valid, s, init, b);
      OfferedKeepsFull(us, valid, s, init);
      var t := Offered(us, valid, s, init);
      AddTightens(us, valid, t, x);
      if Occupied(us, t, b) { AddKeepsOccupied(us, valid, t, x, b); }
      else { FillsWhenClose(us, valid, t, x, b); }
      forall i: nat ensures ComesClose(us, valid, s, xs, b, i) <==>
        ComesClose(us, valid, s, init, b, i) ||
        (i == k && Bucket(us, x) == b && Eligible(us, valid, x) && Distance(x.id, us) < Distance(t[GROUP_SIZE].id, us))
      {
        ComesCloseStep(us, valid, s, xs, b, i);
      }
      if exists i: nat :: ComesClose(us, valid, s, init, b, i) {
        var i: nat :| ComesClose(us, valid, s, init, b, i);
        assert ComesClose(us, valid, s, xs, b, i);
      }
      if exists i: nat :: ComesClose(us, valid, s, xs, b, i) {
        var i: nat :| ComesClose(us, valid, s, xs, b, i);
        assert ComesClose(us, valid, s, init, b, i) || i == k;
      }
      assert ComesClose(us, valid, s, xs, b, k) || !ComesClose(us, valid, s, xs, b, k);
    }
  }

  lemma NoneComesClose(us: Address, valid: PublicKey -> bool, s: seq<NodeInfo>, b: nat, i: nat)
    ensures !ComesClose(us, valid, s, [], b, i)
  {
  }

  lemma ComesCloseStep(us: Address, valid: PublicKey -> bool, s: seq<NodeInfo>, xs: seq<NodeInfo>, b: nat, i: nat)
    requires xs != [] && |Offered(us, valid, s, xs[..|xs| - 1])| > GROUP_SIZE
    ensures var init, x, k := xs[..|xs| - 1], xs[|xs| - 1], |xs| - 1;
      ComesClose(us, valid, s, xs, b, i) <==>
        ComesClose(us, valid, s, init, b, i) ||
        (i == k && Bucket(us, x) == b && Eligible(us, valid, x) &&
         Distance(x.id, us) < Distance(Offered(us, valid, s, init)[GROUP_SIZE].id, us))
  {
    hide Distance, Bucket, Offered;
    if i < |xs| - 1 {
      assert xs[..|xs| - 1][..i] == xs[..i];
    }
  }

  lemma FillsWhenClose(us: Address, valid: PublicKey -> bool, t: seq<NodeInfo>, x: NodeInfo, b: nat)
    requires IsTable(us, t) && |t| >= OPTIMAL_SIZE && !Occupied(us, t, b)
    requires forall c: nat :: c < b ==> !Crowded(us, t, c)
    ensures Occupied(us, Add(us, valid, t, x).nodes, b) <==>
      Bucket(us, x) == b && Eligible(us, valid, x) && Distance(x.id, us) < Distance(t[GROUP_SIZE].id, us)
  {
    AddConserves(us, valid, t, x);
    CheckPredictsAdd(us, valid, t, x);
    CheckMeaning(us, t, x.id);
    hide Add, Check, Crowded, BucketIndex, Distance, Ordered;
    forall i | 0 <= i < |t| && t[i].id == x.id ensures Bucket(us, x) != b {
      assert t[i] in t && Bucket(us, t[i]) == Bucket(us, x);
    }
    var a := Add(us, valid, t, x);
    if a.added { assert x in a.nodes; }
  }

  /** Coverage does not follow from having been offered everybody: a table that has filled up with
      one contact in each of 64 nearer buckets turns away the only inhabitant of the furthest
      bucket, and then cannot forward to that very node. */
  lemma FullTableLeavesFurthestBucketEmpty(us: Address, valid: PublicKey -> bool, key: PublicKey)
    requires valid(key)
    ensures var far := Single(us, key, 0);
      var t := Offered(us, valid, [], OnePerBucket(us, key, OPTIMAL_SIZE) + [far]);
      && IsTable(us, t)
      && !Occupied(us, t, BucketIndex(us, far.id))
      && Stuck(us, t, far.id)
      && far.id != us
  {
    hide BucketIndex, Flip, Add, Stuck, Check, OnePerBucket, DistinctIds, IsTable, Descending, Spread, AllEligible;
    var xs := OnePerBucket(us, key, OPTIMAL_SIZE);
    var far := Single(us, key, 0);
    FlipBucket(us, 0);
    OnePerBucketDescends(us, valid, key, OPTIMAL_SIZE);
    EmptyIsTable(us);
    OfferedKeepsFull(us, valid, [], xs);
    DescendingOffersStay(us, valid, xs);
    var t := Offered(us, valid, [], xs);
    assert forall i :: 0 <= i < |t| ==> t[i] in xs;
    FurthestIsTurnedAway(us, t, far.id);
    RejectedIsNotAdded(us, valid, t, far);
    assert (xs + [far])[..|xs|] == xs;
    OnlyBucketZeroHelps(us, t, far.id);
  }

  lemma FurthestIsTurnedAway(us: Address, t: seq<NodeInfo>, id: Address)
    requires IsTable(us, t) && |t| >= OPTIMAL_SIZE && BucketIndex(us, id) == 0
    requires forall y :: y in t ==> BucketIndex(us, y.id) != 0
    ensures !Check(us, t, id)
  {
    CheckMeaning(us, t, id);
    assert t[GROUP_SIZE] in t;
    if Distance(id, us) < Distance(t[GROUP_SIZE].id, us) {
      CloserSharesMoreBits(id, t[GROUP_SIZE].id, us);
    }
    hide Check, Crowded, Distance;
  }

  lemma OnlyBucketZeroHelps(us: Address, t: seq<NodeInfo>, id: Address)
    requires id == Flip(us, 0) && forall y :: y in t ==> BucketIndex(us, y.id) != 0
    ensures Stuck(us, t, id) && !Occupied(us, t, 0)
  {
    forall y | y in t ensures !CloserToTarget(y.id, us, id) {
      CloserIffBucketDiffers(us, y.id, id);
    }
    hide CloserToTarget, BucketIndex;
  }
}
