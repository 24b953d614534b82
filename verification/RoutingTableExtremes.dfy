/** Runs at the edges of the admission rule: the largest table, and the contact just outside the
    close group. */
module RoutingTableExtremes {
  import opened Types
  import opened Xor
  import opened Closeness
  import opened RoutingTable
  import opened RoutingTableSteps
  import opened RoutingTableRuns

  // ----- Contacts offered from far to near

  ghost predicate Descending(us: Address, xs: seq<NodeInfo>) {
    forall i, j :: 0 <= i < j < |xs| ==> Distance(xs[j].id, us) < Distance(xs[i].id, us)
  }

  function Reversed(xs: seq<NodeInfo>): (r: seq<NodeInfo>)
    ensures |r| == |xs|
  {
    seq(|xs|, i requires 0 <= i < |xs| => xs[|xs| - 1 - i])
  }

  /** No two contacts share a bucket, the last GROUP_SIZE apart. */
  ghost predicate Spread(us: Address, xs: seq<NodeInfo>) {
    forall i, j :: 0 <= i < j < |xs| - GROUP_SIZE ==> Bucket(us, xs[i]) != Bucket(us, xs[j])
  }

  /** Contacts offered from far to near, one per bucket until the close group, all stay. */
  lemma {:induction false} DescendingOffersStay(us: Address, valid: PublicKey -> bool, xs: seq<NodeInfo>)
    requires Descending(us, xs) && Spread(us, xs) && AllEligible(us, valid, xs)
    ensures Offered(us, valid, [], xs) == Reversed(xs)
  {
    hide Descending, Spread, Reversed, AllEligible, Add;
    if xs != [] {
      var init, x := xs[..|xs| - 1], xs[|xs| - 1];
      AllButLast(us, valid, xs);
      DescendingOffersStay(us, valid, init);
      NewClosestStays(us, valid, xs, Reversed(init), x);
    }
  }

  ghost predicate AllEligible(us: Address, valid: PublicKey -> bool, xs: seq<NodeInfo>) {
    forall x :: x in xs ==> Eligible(us, valid, x)
  }

  lemma AllButLast(us: Address, valid: PublicKey -> bool, xs: seq<NodeInfo>)
    requires xs != [] && Descending(us, xs) && Spread(us, xs) && AllEligible(us, valid, xs)
    ensures var init, x := xs[..|xs| - 1], xs[|xs| - 1];
      && Descending(us, init) && Spread(us, init) && AllEligible(us, valid, init) && Eligible(us, valid, x)
      && Reversed(xs) == [x] + Reversed(init)
  {
    hide Distance, Bucket;
    assert xs[|xs| - 1] in xs;
  }

  lemma NewClosestStays(us: Address, valid: PublicKey -> bool, xs: seq<NodeInfo>, t: seq<NodeInfo>, x: NodeInfo)
    requires Descending(us, xs) && Spread(us, xs) && Reversed(xs) == [x] + t && Eligible(us, valid, x)
    ensures Add(us, valid, t, x).nodes == [x] + t
  {
    hide Distance, Bucket, ScanFrom, PushBackThenSort, CloserToTarget, Reversed, Spread;
    ReversedIsOrdered(us, xs);
    ClosestIsPushedFirst(us, t, x);
    if |t| >= OPTIMAL_SIZE {
      assert ([x] + t)[0] == x && ([x] + t)[GROUP_SIZE + 1] == t[GROUP_SIZE];
      CloserIsNumeric(x.id, t[GROUP_SIZE].id, us);
      SpreadHasNoCandidate(us, xs);
    }
  }

  lemma ReversedIsOrdered(us: Address, xs: seq<NodeInfo>)
    requires Descending(us, xs)
    ensures Ordered(us, Reversed(xs))
  {
    hide Distance;
  }

  lemma ClosestIsPushedFirst(us: Address, t: seq<NodeInfo>, x: NodeInfo)
    requires Ordered(us, [x] + t)
    ensures !HasId(t, x.id) && PushBackThenSort(us, t, x) == [x] + t
  {
    hide Distance, PushBackThenSort;
    var r := [x] + t;
    forall i | 0 <= i < |t| ensures Distance(x.id, us) < Distance(t[i].id, us) {
      assert r[0] == x && r[i + 1] == t[i];
    }
    forall i, j | 0 <= i < j < |t| ensures Distance(t[i].id, us) < Distance(t[j].id, us) {
      assert r[i + 1] == t[i] && r[j + 1] == t[j];
    }
    assert t != [] ==> Distance(x.id, us) < Distance(t[0].id, us);
    var p := PushSplits(us, t, x);
    assert t[..0] + [x] + t[0..] == r;
  }

  lemma SpreadHasNoCandidate(us: Address, xs: seq<NodeInfo>)
    requires Spread(us, xs)
    ensures Candidate(us, Reversed(xs)) == |xs|
  {
    hide Bucket, ScanFrom;
    var s := Reversed(xs);
    forall k | GROUP_SIZE < k < |s| ensures Bucket(us, s[k - 1]) != Bucket(us, s[k]) {
      assert s[k - 1] == xs[|xs| - k] && s[k] == xs[|xs| - 1 - k];
    }
    if Candidate(us, s) < |s| { CandidateHasPair(us, s); }
  }

  // ----- One contact per bucket

  /** We with one bit flipped: an address in bucket `b`. */
  function Flip(us: Address, b: nat): Address
    requires b < ADDRESS_BITS
  {
    us[b := !us[b]]
  }

  lemma FlipBucket(us: Address, b: nat)
    requires b < ADDRESS_BITS
    ensures BucketIndex(us, Flip(us, b)) == b && Flip(us, b) != us
  {
    assert Flip(us, b)[b] != us[b];
  }

  function Single(us: Address, key: PublicKey, b: nat): NodeInfo
    requires b < ADDRESS_BITS
  {
    NodeInfo(Flip(us, b), key, true)
  }

  /** A contact in a further bucket is further. */
  lemma FurtherBucketIsFurther(us: Address, a: Address, b: Address)
    requires BucketIndex(us, a) < BucketIndex(us, b)
    ensures Distance(b, us) < Distance(a, us)
  {
    if Distance(a, us) <= Distance(b, us) { CloserSharesMoreBits(a, b, us); }
  }

  /** One contact in each of OPTIMAL_SIZE buckets from bucket 1 on, leaving out bucket `gap` + 1. */
  function OnePerBucket(us: Address, key: PublicKey, gap: nat): seq<NodeInfo> {
    seq(OPTIMAL_SIZE, i requires 0 <= i < OPTIMAL_SIZE => Single(us, key, if i < gap then i + 1 else i + 2))
  }

  lemma OnePerBucketDescends(us: Address, valid: PublicKey -> bool, key: PublicKey, gap: nat)
    requires valid(key)
    ensures var xs := OnePerBucket(us, key, gap);
      && |xs| == OPTIMAL_SIZE && Descending(us, xs) && Spread(us, xs) && DistinctIds(xs)
      && (forall i :: 0 <= i < OPTIMAL_SIZE ==> Bucket(us, xs[i]) == if i < gap then i + 1 else i + 2)
      && AllEligible(us, valid, xs) && (forall x :: x in xs ==> BucketIndex(us, x.id) != 0)
  {
    hide BucketIndex, Flip, Distance;
    var xs := OnePerBucket(us, key, gap);
    forall i | 0 <= i < |xs|
      ensures Bucket(us, xs[i]) == (if i < gap then i + 1 else i + 2) && Eligible(us, valid, xs[i])
    {
      var b := if i < gap then i + 1 else i + 2;
      FlipBucket(us, b);
      assert xs[i] == Single(us, key, b);
    }
    forall i, j | 0 <= i < j < |xs| ensures Distance(xs[j].id, us) < Distance(xs[i].id, us) {
      FurtherBucketIsFurther(us, xs[i].id, xs[j].id);
    }
  }

  // ----- Just outside the close group

  /** A full table without a crowded bucket admits a contact that does not belong to the close
      group: it becomes contact number GROUP_SIZE, right behind the close group. */
  lemma JustOutsideIsAdmitted(us: Address, valid: PublicKey -> bool, key: PublicKey)
    requires valid(key)
    ensures var t := Offered(us, valid, [], OnePerBucket(us, key, 41));
      var x := Single(us, key, 42);
      var a := Add(us, valid, t, x);
      && |t| >= OPTIMAL_SIZE && (forall b :: !Crowded(us, t, b))
      && a.added && a.evicted == None && |a.nodes| > GROUP_SIZE && a.nodes[GROUP_SIZE] == x && x !in CloseGroup(a.nodes)
  {
    hide BucketIndex, Flip, OnePerBucket, Offered, Crowded, Add, Descending, Spread, Reversed, AllEligible;
    hide CloseGroup, IsTable;
    var xs, x := OnePerBucket(us, key, 41), Single(us, key, 42);
    OnePerBucketDescends(us, valid, key, 41);
    FlipBucket(us, 42);
    DescendingOffersStay(us, valid, xs);
    ReversedIsTable(us, valid, xs);
    SplicedBehindGroup(us, valid, Reversed(xs), x);
  }

  lemma ReversedIsTable(us: Address, valid: PublicKey -> bool, xs: seq<NodeInfo>)
    requires Descending(us, xs) && AllEligible(us, valid, xs) && |xs| == OPTIMAL_SIZE
    requires forall i :: 0 <= i < OPTIMAL_SIZE ==> Bucket(us, xs[i]) == if i < 41 then i + 1 else i + 2
    ensures IsTable(us, Reversed(xs))
    ensures forall i :: 0 <= i < OPTIMAL_SIZE ==>
      Bucket(us, Reversed(xs)[i]) == if i < GROUP_SIZE then 65 - i else 64 - i
  {
    hide Distance, Bucket;
    ReversedIsOrdered(us, xs);
    forall i | 0 <= i < |xs| ensures Reversed(xs)[i].id != us { assert Reversed(xs)[i] in xs; }
  }

  lemma SplicedBehindGroup(us: Address, valid: PublicKey -> bool, t: seq<NodeInfo>, x: NodeInfo)
    requires IsTable(us, t) && |t| == OPTIMAL_SIZE && Eligible(us, valid, x) && Bucket(us, x) == 42
    requires forall i :: 0 <= i < |t| ==> Bucket(us, t[i]) == if i < GROUP_SIZE then 65 - i else 64 - i
    ensures forall b :: !Crowded(us, t, b)
    ensures var a := Add(us, valid, t, x);
      a.added && a.evicted == None && |a.nodes| > GROUP_SIZE && a.nodes[GROUP_SIZE] == x && x !in CloseGroup(a.nodes)
  {
    hide Distance, BucketIndex, PushBackThenSort, ScanFrom, CloserToTarget, Ordered;
    FurtherBucketIsFurther(us, x.id, t[GROUP_SIZE - 1].id);
    FurtherBucketIsFurther(us, t[GROUP_SIZE].id, x.id);
    CloserIsNumeric(x.id, t[GROUP_SIZE].id, us);
    var p := PushSplits(us, t, x);
    assert p == GROUP_SIZE;
    var pushed := t[..p] + [x] + t[p..];
    assert forall i :: 0 <= i < |pushed| ==> Bucket(us, pushed[i]) == 65 - i;
    if Candidate(us, pushed) < |pushed| { CandidateHasPair(us, pushed); }
  }

  // ----- The largest table

  /** Contacts from far to near: one in each of the buckets 0 to 506, then the addresses at the
      distances 24 down to 1. */
  ghost function Farthest(us: Address, key: PublicKey): seq<NodeInfo> {
    seq(MOST_CONTACTS, i requires 0 <= i < MOST_CONTACTS =>
      if i < ADDRESS_BITS - 5 then Single(us, key, i) else Near(us, key, MOST_CONTACTS - i))
  }

  ghost function Near(us: Address, key: PublicKey, d: nat): (x: NodeInfo)
    requires d <= GROUP_SIZE + 1
    ensures Distance(x.id, us) == d && x.key == key
  {
    Pow2Grows(5, ADDRESS_BITS);
    SmallPowers();
    NodeInfo(AtDistance(us, d), key, true)
  }

  lemma SmallPowers()
    ensures Pow2(4) == 16 && Pow2(5) == 32
  {
    assert Pow2(2) == 4;
    assert Pow2(4) == 16;
  }

  lemma NearBucket(us: Address, key: PublicKey, d: nat)
    requires 0 < d <= GROUP_SIZE + 1
    ensures Bucket(us, Near(us, key, d)) >= ADDRESS_BITS - 5 && Near(us, key, d).id != us
    ensures d == GROUP_SIZE + 1 ==> Bucket(us, Near(us, key, d)) == ADDRESS_BITS - 5
  {
    hide Near, Distance, Pow2;
    SmallPowers();
    var top := Near(us, key, GROUP_SIZE + 1);
    LeadingBitOfDistance(top.id, us, ADDRESS_BITS - 5);
    CloserSharesMoreBits(Near(us, key, d).id, top.id, us);
    DistanceIsInjective(Near(us, key, d).id, us, us);
  }

  lemma FarthestDescends(us: Address, valid: PublicKey -> bool, key: PublicKey)
    requires valid(key)
    ensures var xs := Farthest(us, key);
      Descending(us, xs) && Spread(us, xs) && AllEligible(us, valid, xs)
  {
    hide Distance, BucketIndex, Flip, Near;
    var xs := Farthest(us, key);
    forall i | 0 <= i < |xs|
      ensures Eligible(us, valid, xs[i])
      ensures if i < ADDRESS_BITS - 5 then Bucket(us, xs[i]) == i
              else Bucket(us, xs[i]) >= ADDRESS_BITS - 5 && Distance(xs[i].id, us) == MOST_CONTACTS - i
      ensures i == ADDRESS_BITS - 5 ==> Bucket(us, xs[i]) == ADDRESS_BITS - 5
    {
      if i < ADDRESS_BITS - 5 { FlipBucket(us, i); } else { NearBucket(us, key, MOST_CONTACTS - i); }
    }
    forall i, j | 0 <= i < j < |xs| ensures Distance(xs[j].id, us) < Distance(xs[i].id, us) {
      if i < ADDRESS_BITS - 5 { FurtherBucketIsFurther(us, xs[i].id, xs[j].id); }
    }
  }

  /** The bound on the size of a table is attained. */
  lemma MostContactsIsAttained(us: Address, valid: PublicKey -> bool, key: PublicKey)
    requires valid(key)
    ensures |Offered(us, valid, [], Farthest(us, key))| == MOST_CONTACTS
  {
    hide Offered, Descending, Spread, Reversed;
    FarthestDescends(us, valid, key);
    DescendingOffersStay(us, valid, Farthest(us, key));
  }
}
