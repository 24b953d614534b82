/** What one admission step keeps: the predictor agrees with the action, buckets stay occupied,
    rejections stick and the table stays bounded. */
module RoutingTableSteps {
  import opened Types
  import opened Xor
  import opened Closeness
  import opened RoutingTable

  /** The predictor agrees with the action, the key apart. */
  lemma CheckPredictsAdd(us: Address, valid: PublicKey -> bool, s: seq<NodeInfo>, x: NodeInfo)
    ensures Add(us, valid, s, x).added <==> valid(x.key) && Check(us, s, x.id)
  {
    hide ScanFrom, CloserToTarget, PushBackThenSort, Bucket, HasId;
  }

  /** A bucket further from us than `id`'s bucket is crowded outside the close group. */
  ghost predicate FurtherCrowded(us: Address, s: seq<NodeInfo>, id: Address) {
    exists b: nat :: b < BucketIndex(us, id) && Crowded(us, s, b)
  }

  /** When a contact is wanted, in terms of the table's contents alone. */
  lemma CheckMeaning(us: Address, s: seq<NodeInfo>, id: Address)
    requires IsTable(us, s)
    ensures Check(us, s, id) <==>
      && id != us && !HasId(s, id)
      && (|s| < OPTIMAL_SIZE ||
          Distance(id, us) < Distance(s[GROUP_SIZE].id, us) ||
          FurtherCrowded(us, s, id))
  {
    ScanFindsFurthestCrowded(us, s);
    if |s| >= OPTIMAL_SIZE { CloserIsNumeric(id, s[GROUP_SIZE].id, us); }
    hide CloserToTarget, Distance, HasId, Ordered, Crowded, BucketIndex, Bucket, ScanFrom;
  }

  /** `c` is the furthest contact of the furthest bucket crowded in `s`. */
  ghost predicate FurthestCrowded(us: Address, s: seq<NodeInfo>, c: NodeInfo) {
    exists r :: GROUP_SIZE < r < |s| && s[r] == c && Crowded(us, s, Bucket(us, c)) &&
      (forall b :: Crowded(us, s, b) ==> Bucket(us, c) <= b) &&
      (forall j :: r < j < |s| ==> Bucket(us, s[j]) < Bucket(us, c))
  }

  lemma CandidateIsFurthestCrowded(us: Address, s: seq<NodeInfo>)
    requires Ordered(us, s)
    ensures var r := Candidate(us, s);
      if r == |s| then forall b :: !Crowded(us, s, b) else r < |s| && FurthestCrowded(us, s, s[r])
  {
    hide Ordered, Crowded, BucketIndex, Bucket, ScanFrom, Candidate;
    ScanFindsFurthestCrowded(us, s);
  }

  /** Who is evicted: when a full table takes a contact, the furthest contact of the furthest bucket
      crowded outside the close group, the newcomer included if it is close; nobody exactly when
      the newcomer is close and no bucket is crowded. */
  lemma AddEvictsFurthestCrowded(us: Address, valid: PublicKey -> bool, s: seq<NodeInfo>, x: NodeInfo)
    requires IsTable(us, s) && |s| >= OPTIMAL_SIZE && Add(us, valid, s, x).added
    ensures var a := Add(us, valid, s, x);
      if Distance(x.id, us) < Distance(s[GROUP_SIZE].id, us) then
        var pushed := PushBackThenSort(us, s, x);
        if a.evicted.None? then forall b :: !Crowded(us, pushed, b)
        else FurthestCrowded(us, pushed, a.evicted.value)
      else a.evicted.Some? && FurthestCrowded(us, s, a.evicted.value)
  {
    hide Distance, CloserToTarget, HasId, Ordered, Crowded, FurthestCrowded, BucketIndex, Bucket, Candidate;
    hide PushBackThenSort, Erase;
    CloserIsNumeric(x.id, s[GROUP_SIZE].id, us);
    CandidateIsFurthestCrowded(us, s);
    var p := PushSplits(us, s, x);
    CandidateIsFurthestCrowded(us, PushBackThenSort(us, s, x));
  }

  // ----- Crowding

  /** `t` puts no bucket further out under pressure: a bucket crowded in `t` is no further than
      one already crowded in `s`. */
  ghost predicate CrowdsNoFurther(us: Address, s: seq<NodeInfo>, t: seq<NodeInfo>) {
    forall b: nat :: Crowded(us, t, b) ==> exists c: nat :: c <= b && Crowded(us, s, c)
  }

  lemma CrowdedByPair(us: Address, s: seq<NodeInfo>, b: nat, i: int, j: int)
    requires CrowdedAt(us, s, b, i, j)
    ensures Crowded(us, s, b)
  {
  }

  lemma EraseCrowding(us: Address, s: seq<NodeInfo>, r: nat, b: nat, i: int, j: int)
    requires r < |s| && CrowdedAt(us, Erase(s, r), b, i, j)
    ensures CrowdedAt(us, s, b, if i < r then i else i + 1, if j < r then j else j + 1)
  {
    hide Bucket;
    var t := Erase(s, r);
    assert t[i] == s[if i < r then i else i + 1] && t[j] == s[if j < r then j else j + 1];
  }

  /** Evicting the scan's candidate leaves no bucket crowded that is further than the candidate's,
      and none at all if the candidate sits right behind the first GROUP_SIZE + 1 contacts. */
  lemma EvictionCrowding(us: Address, s: seq<NodeInfo>, b: nat)
    requires Ordered(us, s) && Candidate(us, s) < |s|
    requires Crowded(us, Erase(s, Candidate(us, s)), b)
    ensures Bucket(us, s[Candidate(us, s)]) <= b
    ensures Candidate(us, s) > GROUP_SIZE + 1
  {
    var r := Candidate(us, s);
    ScanFindsFurthestCrowded(us, s);
    hide Bucket, Candidate, Ordered;
    var i, j :| CrowdedAt(us, Erase(s, r), b, i, j);
    EraseCrowding(us, s, r, b, i, j);
    assert Crowded(us, s, b);
    hide Crowded, Erase;
    assert j < r;
  }

  lemma CloseAdmissionCrowding(us: Address, s: seq<NodeInfo>, x: NodeInfo, p: nat, pushed: seq<NodeInfo>)
    requires p <= GROUP_SIZE < |s| && pushed == s[..p] + [x] + s[p..] && Ordered(us, pushed)
    requires Candidate(us, pushed) < |pushed|
    ensures CrowdsNoFurther(us, s, Erase(pushed, Candidate(us, pushed)))
  {
    hide Bucket, Ordered, Erase, ScanFrom, Crowded;
    var r := Candidate(us, pushed);
    var t := Erase(pushed, r);
    CandidateHasPair(us, pushed);
    forall b: nat | Crowded(us, t, b) ensures exists c: nat :: c <= b && Crowded(us, s, c) {
      EvictionCrowding(us, pushed, b);
      assert s[r - 2] == pushed[r - 1] && s[r - 1] == pushed[r];
      CrowdedByPair(us, s, Bucket(us, pushed[r]), r - 2, r - 1);
    }
  }

  lemma SpliceCrowding(us: Address, s: seq<NodeInfo>, x: NodeInfo, p: nat, b: nat, i: int, j: int)
    requires GROUP_SIZE < p <= |s| && CrowdedAt(us, s[..p] + [x] + s[p..], b, i, j)
    ensures Bucket(us, x) == b || CrowdedAt(us, s, b, if i < p then i else i - 1, if j < p then j else j - 1)
  {
    hide Bucket;
  }

  lemma ReplacementCrowding(us: Address, s: seq<NodeInfo>, x: NodeInfo, p: nat)
    requires Ordered(us, s) && BetterThanExisting(us, s, x.id, Candidate(us, s))
    requires GROUP_SIZE < p <= |s| - 1
    ensures var m := Erase(s, Candidate(us, s));
      forall b :: Crowded(us, m[..p] + [x] + m[p..], b) ==> Bucket(us, s[Candidate(us, s)]) <= b
  {
    var r := Candidate(us, s);
    ScanFindsFurthestCrowded(us, s);
    var m := Erase(s, r);
    var t := m[..p] + [x] + m[p..];
    hide Candidate, Ordered, Erase, BucketIndex, CrowdedAt;
    forall b: nat | Crowded(us, t, b) ensures Bucket(us, s[r]) <= b {
      var i, j :| CrowdedAt(us, t, b, i, j);
      SpliceCrowding(us, m, x, p, b, i, j);
      if Bucket(us, x) != b {
        EraseCrowding(us, s, r, b, if i < p then i else i - 1, if j < p then j else j - 1);
        assert Crowded(us, s, b);
      }
    }
  }

  // ----- Rejection

  /** The table after a step is harder to enter: the frontier is no further, the pressure on the
      far buckets no greater. */
  ghost predicate Tightens(us: Address, s: seq<NodeInfo>, t: seq<NodeInfo>) {
    && GROUP_SIZE < |s| <= |t|
    && Distance(t[GROUP_SIZE].id, us) <= Distance(s[GROUP_SIZE].id, us)
    && CrowdsNoFurther(us, s, t)
  }

  lemma CloseStepTightens(us: Address, s: seq<NodeInfo>, x: NodeInfo)
    requires Ordered(us, s) && !HasId(s, x.id) && GROUP_SIZE < |s|
    requires CloserToTarget(x.id, s[GROUP_SIZE].id, us)
    ensures var pushed := PushBackThenSort(us, s, x);
      var r := Candidate(us, pushed);
      Tightens(us, s, if r == |pushed| then pushed else Erase(pushed, r))
  {
    hide PushBackThenSort, ScanFrom, CrowdsNoFurther, Crowded, Bucket, CloserToTarget, Distance, HasId;
    var p := CloseSplits(us, s, x);
    var pushed := PushBackThenSort(us, s, x);
    var r := Candidate(us, pushed);
    ScanFindsFurthestCrowded(us, pushed);
    if r < |pushed| { CloseAdmissionCrowding(us, s, x, p, pushed); }
    var t := if r == |pushed| then pushed else Erase(pushed, r);
    assert t[GROUP_SIZE] == pushed[GROUP_SIZE];
    assert pushed[GROUP_SIZE + 1] == s[GROUP_SIZE];
    assert CrowdsNoFurther(us, s, t) by { if r == |pushed| { NoneCrowded(us, s, pushed); } }
  }

  lemma NoneCrowded(us: Address, s: seq<NodeInfo>, t: seq<NodeInfo>)
    requires forall b :: !Crowded(us, t, b)
    ensures CrowdsNoFurther(us, s, t)
  {
  }

  /** Replacing the scan's candidate `s[r]`: the frontier contact stays and no bucket further
      than the candidate's is crowded. */
  lemma FarStep(us: Address, s: seq<NodeInfo>, x: NodeInfo)
    requires Ordered(us, s) && !HasId(s, x.id) && GROUP_SIZE < |s|
    requires !CloserToTarget(x.id, s[GROUP_SIZE].id, us)
    requires BetterThanExisting(us, s, x.id, Candidate(us, s))
    ensures var r := Candidate(us, s);
      var t := PushBackThenSort(us, Erase(s, r), x);
      && |t| == |s| && t[GROUP_SIZE] == s[GROUP_SIZE]
      && (forall b :: Crowded(us, t, b) ==> Bucket(us, s[r]) <= b)
  {
    hide PushBackThenSort, ScanFrom, Crowded, Bucket, BucketIndex, CloserToTarget, Distance, Ordered, HasId;
    var r := Candidate(us, s);
    var m := Erase(s, r);
    assert m[GROUP_SIZE] == s[GROUP_SIZE];
    EraseMembers(us, s, r);
    NoIdFromMembers(s, m, x.id);
    var p := FarSplits(us, m, x);
    ReplacementCrowding(us, s, x, p);
  }

  lemma FarStepTightens(us: Address, s: seq<NodeInfo>, x: NodeInfo)
    requires Ordered(us, s) && !HasId(s, x.id) && GROUP_SIZE < |s|
    requires !CloserToTarget(x.id, s[GROUP_SIZE].id, us)
    requires BetterThanExisting(us, s, x.id, Candidate(us, s))
    ensures Tightens(us, s, PushBackThenSort(us, Erase(s, Candidate(us, s)), x))
  {
    FarStep(us, s, x);
    ScanFindsFurthestCrowded(us, s);
    hide PushBackThenSort, Candidate, Crowded, Bucket, CloserToTarget, Distance, Ordered, HasId, Erase;
  }

  lemma AddTightens(us: Address, valid: PublicKey -> bool, s: seq<NodeInfo>, x: NodeInfo)
    requires IsTable(us, s) && |s| >= OPTIMAL_SIZE
    ensures Tightens(us, s, Add(us, valid, s, x).nodes)
  {
    hide PushBackThenSort, Candidate, CloserToTarget, Distance, BetterThanExisting, HasId, Ordered, Crowded, Erase;
    var a := Add(us, valid, s, x);
    if a.added {
      if CloserToTarget(x.id, s[GROUP_SIZE].id, us) {
        CloseStepTightens(us, s, x);
      } else {
        FarStepTightens(us, s, x);
      }
    }
  }

  /** Not wanted: `id` is no closer than the frontier, and no bucket further than its own is crowded. */
  lemma RejectedWhen(us: Address, s: seq<NodeInfo>, id: Address)
    requires IsTable(us, s) && |s| >= OPTIMAL_SIZE
    requires Distance(s[GROUP_SIZE].id, us) <= Distance(id, us)
    requires forall b :: Crowded(us, s, b) ==> BucketIndex(us, id) <= b
    ensures !Check(us, s, id)
  {
    CheckMeaning(us, s, id);
    hide Distance, Check, IsTable, Crowded, BucketIndex;
  }

  lemma CloseEvictedIsRejected(us: Address, s: seq<NodeInfo>, x: NodeInfo)
    requires IsTable(us, s) && |s| >= OPTIMAL_SIZE && !HasId(s, x.id) && x.id != us
    requires CloserToTarget(x.id, s[GROUP_SIZE].id, us)
    requires var pushed := PushBackThenSort(us, s, x); Candidate(us, pushed) < |pushed|
    ensures var pushed := PushBackThenSort(us, s, x);
      var r := Candidate(us, pushed);
      !Check(us, Erase(pushed, r), pushed[r].id)
  {
    PushMembers(us, s, x);
    var pushed := PushBackThenSort(us, s, x);
    var r := Candidate(us, pushed);
    CloseEvictionConserves(us, s, x, r);
    var t := Erase(pushed, r);
    assert t[GROUP_SIZE] == pushed[GROUP_SIZE];
    assert Distance(t[GROUP_SIZE].id, us) <= Distance(pushed[r].id, us) by { hide Distance, Candidate; }
    hide *;
    forall b | Crowded(us, t, b) ensures BucketIndex(us, pushed[r].id) <= b {
      EvictionCrowding(us, pushed, b);
    }
    RejectedWhen(us, t, pushed[r].id);
  }

  lemma FarEvictedIsRejected(us: Address, s: seq<NodeInfo>, x: NodeInfo)
    requires IsTable(us, s) && |s| >= OPTIMAL_SIZE && !HasId(s, x.id) && x.id != us
    requires !CloserToTarget(x.id, s[GROUP_SIZE].id, us)
    requires BetterThanExisting(us, s, x.id, Candidate(us, s))
    ensures var r := Candidate(us, s);
      !Check(us, PushBackThenSort(us, Erase(s, r), x), s[r].id)
  {
    var r := Candidate(us, s);
    ReplacementConserves(us, s, x, r);
    FarStep(us, s, x);
    assert Distance(s[GROUP_SIZE].id, us) <= Distance(s[r].id, us) by { hide Distance, Candidate; }
    hide *;
    RejectedWhen(us, PushBackThenSort(us, Erase(s, r), x), s[r].id);
  }

  /** A contact just evicted would be turned away. */
  lemma EvictedIsRejected(us: Address, valid: PublicKey -> bool, s: seq<NodeInfo>, x: NodeInfo)
    requires IsTable(us, s) && Add(us, valid, s, x).evicted.Some?
    ensures var a := Add(us, valid, s, x);
      |s| >= OPTIMAL_SIZE && !Check(us, a.nodes, a.evicted.value.id)
  {
    hide IsTable, HasId, Check, PushBackThenSort, CloserToTarget, Erase, ScanFrom, BetterThanExisting;
    if CloserToTarget(x.id, s[GROUP_SIZE].id, us) {
      CloseEvictedIsRejected(us, s, x);
    } else {
      FarEvictedIsRejected(us, s, x);
    }
  }

  lemma MissingWasEvicted(us: Address, s: seq<NodeInfo>, x: NodeInfo, a: AddResult, id: Address)
    requires Conserves(us, s, x, a) && HasId(s, id) && !HasId(a.nodes, id)
    ensures a.evicted.Some? && a.evicted.value.id == id
  {
    hide IsTable;
    var i :| 0 <= i < |s| && s[i].id == id;
    assert s[i] in s;
    assert s[i] !in a.nodes;
  }

  /** Once the table is full, a contact that would be turned away still is after any admission. */
  lemma RejectionSticks(us: Address, valid: PublicKey -> bool, s: seq<NodeInfo>, x: NodeInfo, id: Address)
    requires IsTable(us, s) && |s| >= OPTIMAL_SIZE && !Check(us, s, id)
    ensures !Check(us, Add(us, valid, s, x).nodes, id)
  {
    var a := Add(us, valid, s, x);
    AddConserves(us, valid, s, x);
    AddTightens(us, valid, s, x);
    CheckMeaning(us, s, id);
    CheckMeaning(us, a.nodes, id);
    hide Add, Check, HasId, Distance, Crowded, BucketIndex;
    if HasId(s, id) && !HasId(a.nodes, id) {
      MissingWasEvicted(us, s, x, a, id);
      EvictedIsRejected(us, valid, s, x);
    }
  }

  // ----- Coverage and growth

  ghost predicate Occupied(us: Address, s: seq<NodeInfo>, b: nat) {
    exists y :: y in s && Bucket(us, y) == b
  }

  lemma PairCovers(us: Address, s: seq<NodeInfo>)
    requires Ordered(us, s) && Candidate(us, s) < |s|
    ensures var r := Candidate(us, s); s[r - 1] in Erase(s, r) && Bucket(us, s[r - 1]) == Bucket(us, s[r])
  {
    var r := Candidate(us, s);
    CandidateHasPair(us, s);
    hide Bucket, Ordered, ScanFrom;
    assert Erase(s, r)[r - 1] == s[r - 1];
  }

  /** An admission never empties a bucket. */
  lemma AddKeepsOccupied(us: Address, valid: PublicKey -> bool, s: seq<NodeInfo>, x: NodeInfo, b: nat)
    requires IsTable(us, s) && Occupied(us, s, b)
    ensures Occupied(us, Add(us, valid, s, x).nodes, b)
  {
    var a := Add(us, valid, s, x);
    AddConserves(us, valid, s, x);
    hide PushBackThenSort, CloserToTarget, Erase, ScanFrom, Bucket, HasId, BetterThanExisting, Ordered;
    var y :| y in s && Bucket(us, y) == b;
    if a.evicted == Some(y) {
      if CloserToTarget(x.id, s[GROUP_SIZE].id, us) {
        PushMembers(us, s, x);
        PairCovers(us, PushBackThenSort(us, s, x));
      } else {
        PairCovers(us, s);
        var r := Candidate(us, s);
        EraseMembers(us, s, r);
        NoIdFromMembers(s, Erase(s, r), x.id);
        PushMembers(us, Erase(s, r), x);
      }
    }
  }

  /** The i-th closest contact is at distance more than i, so the frontier bucket is at most 507. */
  lemma {:induction false} DistanceGrows(us: Address, s: seq<NodeInfo>, i: nat)
    requires IsTable(us, s) && i < |s|
    ensures Distance(s[i].id, us) > i
  {
    if i > 0 {
      DistanceGrows(us, s, i - 1);
      hide Distance;
      assert Distance(s[i - 1].id, us) < Distance(s[i].id, us);
    } else {
      DistanceIsInjective(s[0].id, us, us);
    }
  }

  lemma FrontierBucket(us: Address, s: seq<NodeInfo>)
    requires IsTable(us, s) && GROUP_SIZE < |s|
    ensures Bucket(us, s[GROUP_SIZE]) <= ADDRESS_BITS - 5
  {
    DistanceGrows(us, s, GROUP_SIZE);
    assert Pow2(4) == 16 by { assert Pow2(2) == 4; }
    if Bucket(us, s[GROUP_SIZE]) > ADDRESS_BITS - 5 {
      SharedBitsBoundDistance(s[GROUP_SIZE].id, us, ADDRESS_BITS - 4);
    }
  }

  /** The most contacts a table ever holds: the close group and one for each bucket that can lie
      beyond it. */
  const MOST_CONTACTS: nat := GROUP_SIZE + ADDRESS_BITS - 4

  lemma {:induction false} BucketsFallStrictly(us: Address, s: seq<NodeInfo>, j: nat)
    requires IsTable(us, s) && Candidate(us, s) == |s| && GROUP_SIZE <= j < |s|
    ensures Bucket(us, s[j]) + j <= ADDRESS_BITS - 5 + GROUP_SIZE
  {
    hide Ordered, HasId, ScanFrom, Bucket;
    if j == GROUP_SIZE {
      FrontierBucket(us, s);
    } else {
      BucketsFallStrictly(us, s, j - 1);
      BucketsFall(us, s, j - 1, j);
      NoCandidateNoPair(us, s, j);
    }
  }

  lemma AddIsBounded(us: Address, valid: PublicKey -> bool, s: seq<NodeInfo>, x: NodeInfo)
    requires IsTable(us, s) && |s| <= MOST_CONTACTS
    ensures |Add(us, valid, s, x).nodes| <= MOST_CONTACTS
  {
    var a := Add(us, valid, s, x);
    AddConserves(us, valid, s, x);
    hide Bucket, ScanFrom, PushBackThenSort, CloserToTarget, HasId, BetterThanExisting, Erase, Ordered;
    if a.added && a.evicted.None? && |s| >= OPTIMAL_SIZE {
      BucketsFallStrictly(us, a.nodes, |a.nodes| - 1);
    }
  }
}
