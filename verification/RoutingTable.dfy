/** The routing table: a vector of contacts kept sorted by closeness to our id, with the admission
    rule, its predictor, the eviction scan and the choice of next hops. */
module RoutingTable {
  import opened Types
  import opened Xor
  import opened Closeness

  const BUCKET_SIZE: nat := 1
  const PARALLELISM: nat := 4
  const OPTIMAL_SIZE: nat := 64

  // ----- The table as a value

  ghost predicate IsTable(us: Address, s: seq<NodeInfo>) {
    Ordered(us, s) && !HasId(s, us)
  }

  /** The bucket of a contact: bucket 0 is furthest from us. */
  function BucketIndex(us: Address, id: Address): nat {
    CommonLeadingBits(us, id)
  }

  function Bucket(us: Address, n: NodeInfo): nat {
    BucketIndex(us, n.id)
  }

  /** Position of the contact the eviction scan gives up, looking at positions below `k` only;
      `|s|` when there is none. */
  function ScanFrom(us: Address, s: seq<NodeInfo>, k: nat): (r: nat)
    requires k <= |s|
    ensures GROUP_SIZE < r < k || r == |s|
  {
    if k <= GROUP_SIZE + 1 then |s|
    else if Bucket(us, s[k - 2]) == Bucket(us, s[k - 1]) then k - 1
    else ScanFrom(us, s, k - 1)
  }

  function Candidate(us: Address, s: seq<NodeInfo>): nat {
    ScanFrom(us, s, |s|)
  }

  predicate BetterThanExisting(us: Address, s: seq<NodeInfo>, id: Address, candidate: nat)
    requires candidate <= |s|
  {
    candidate != |s| && BucketIndex(us, id) > Bucket(us, s[candidate])
  }

  function Erase(s: seq<NodeInfo>, i: nat): seq<NodeInfo>
    requires i < |s|
  {
    s[..i] + s[i + 1..]
  }

  datatype AddResult = AddResult(nodes: seq<NodeInfo>, added: bool, evicted: Option<NodeInfo>)

  function PushBackThenSort(us: Address, s: seq<NodeInfo>, x: NodeInfo): seq<NodeInfo> {
    SortByCloseness(us, s + [x])
  }

  function Add(us: Address, valid: PublicKey -> bool, s: seq<NodeInfo>, x: NodeInfo): AddResult {
    if x.id == us || !valid(x.key) || HasId(s, x.id) then AddResult(s, false, None)
    else if |s| < OPTIMAL_SIZE then AddResult(PushBackThenSort(us, s, x), true, None)
    else if CloserToTarget(x.id, s[GROUP_SIZE].id, us) then
      var pushed := PushBackThenSort(us, s, x);
      var r := Candidate(us, pushed);
      if r == |pushed| then AddResult(pushed, true, None)
      else AddResult(Erase(pushed, r), true, Some(pushed[r]))
    else
      var r := Candidate(us, s);
      if BetterThanExisting(us, s, x.id, r) then
        AddResult(PushBackThenSort(us, Erase(s, r), x), true, Some(s[r]))
      else AddResult(s, false, None)
  }

  predicate Check(us: Address, s: seq<NodeInfo>, id: Address) {
    id != us && !HasId(s, id) &&
    (|s| < OPTIMAL_SIZE ||
     CloserToTarget(id, s[GROUP_SIZE].id, us) ||
     BetterThanExisting(us, s, id, Candidate(us, s)))
  }

  function Drop(s: seq<NodeInfo>, id: Address): seq<NodeInfo> {
    if s == [] then []
    else if s[0].id == id then Drop(s[1..], id)
    else [s[0]] + Drop(s[1..], id)
  }

  function CloseGroup(s: seq<NodeInfo>): seq<NodeInfo> {
    s[..if GROUP_SIZE <= |s| then GROUP_SIZE else |s|]
  }

  /** Where to send a message for `target`: the close group if it holds the contact closest to
      the target, otherwise the PARALLELISM closest contacts. */
  function Targets(s: seq<NodeInfo>, target: Address): seq<NodeInfo> {
    var byTarget := SortByCloseness(target, s);
    if byTarget == [] then []
    else if byTarget[0] in CloseGroup(s) then CloseGroup(s)
    else byTarget[..if PARALLELISM <= |byTarget| then PARALLELISM else |byTarget|]
  }

  // ----- Buckets along the table

  lemma BucketsFall(us: Address, s: seq<NodeInfo>, i: nat, j: nat)
    requires Ordered(us, s) && i <= j < |s|
    ensures Bucket(us, s[i]) >= Bucket(us, s[j])
  {
    assert Distance(s[i].id, us) <= Distance(s[j].id, us) by { hide Distance; }
    CloserSharesMoreBits(s[i].id, s[j].id, us);
  }

  lemma AllBucketsFall(us: Address, s: seq<NodeInfo>)
    requires Ordered(us, s)
    ensures forall i, j :: 0 <= i <= j < |s| ==> Bucket(us, s[i]) >= Bucket(us, s[j])
  {
    hide *;
    forall i, j | 0 <= i <= j < |s| ensures Bucket(us, s[i]) >= Bucket(us, s[j]) {
      BucketsFall(us, s, i, j);
    }
  }

  ghost predicate CrowdedAt(us: Address, s: seq<NodeInfo>, b: nat, i: int, j: int) {
    GROUP_SIZE <= i < j < |s| && Bucket(us, s[i]) == b && Bucket(us, s[j]) == b
  }

  /** Two contacts outside the close group share bucket `b`. */
  ghost predicate Crowded(us: Address, s: seq<NodeInfo>, b: nat) {
    exists i, j :: CrowdedAt(us, s, b, i, j)
  }

  lemma {:induction false} ScanStopsAtPair(us: Address, s: seq<NodeInfo>, k: nat)
    requires k <= |s|
    ensures var r := ScanFrom(us, s, k);
      && (r < |s| ==> r < k && Bucket(us, s[r - 1]) == Bucket(us, s[r]))
      && (forall j :: GROUP_SIZE < j < k && (r < j || r == |s|) ==> Bucket(us, s[j - 1]) != Bucket(us, s[j]))
  {
    hide Bucket;
    if k > GROUP_SIZE + 1 && Bucket(us, s[k - 2]) != Bucket(us, s[k - 1]) {
      ScanStopsAtPair(us, s, k - 1);
    }
  }

  lemma CandidateHasPair(us: Address, s: seq<NodeInfo>)
    requires Candidate(us, s) < |s|
    ensures var r := Candidate(us, s); Bucket(us, s[r - 1]) == Bucket(us, s[r])
  {
    hide Bucket, BucketIndex, ScanFrom;
    ScanStopsAtPair(us, s, |s|);
  }

  lemma NoCandidateNoPair(us: Address, s: seq<NodeInfo>, j: nat)
    requires Candidate(us, s) == |s| && GROUP_SIZE < j < |s|
    ensures Bucket(us, s[j - 1]) != Bucket(us, s[j])
  {
    hide Bucket, BucketIndex, ScanFrom;
    ScanStopsAtPair(us, s, |s|);
  }

  /** What the eviction scan finds: nothing exactly when no bucket is crowded outside the close
      group, otherwise the furthest contact of the furthest crowded bucket, never one of the
      first GROUP_SIZE + 1 contacts. */
  lemma ScanFindsFurthestCrowded(us: Address, s: seq<NodeInfo>)
    requires Ordered(us, s)
    ensures var r := Candidate(us, s);
      if r == |s| then forall b :: !Crowded(us, s, b)
      else
        && GROUP_SIZE < r < |s|
        && Crowded(us, s, Bucket(us, s[r]))
        && (forall b :: Crowded(us, s, b) ==> Bucket(us, s[r]) <= b)
        && (forall j :: r < j < |s| ==> Bucket(us, s[j]) < Bucket(us, s[r]))
  {
    AllBucketsFall(us, s);
    ScanStopsAtPair(us, s, |s|);
    var r := Candidate(us, s);
    hide Ordered, BucketIndex, Bucket, ScanFrom;
    forall b, i, j | CrowdedAt(us, s, b, i, j) ensures r < |s| && Bucket(us, s[r]) <= b {
      assert Bucket(us, s[j - 1]) == Bucket(us, s[j]);
      assert j <= r < |s|;
    }
    if r < |s| {
      assert CrowdedAt(us, s, Bucket(us, s[r]), r - 1, r);
      forall j | r < j < |s| ensures Bucket(us, s[j]) < Bucket(us, s[r]) {
        assert Bucket(us, s[j]) <= Bucket(us, s[r + 1]) < Bucket(us, s[r]);
      }
    }
  }

  // ----- Splicing and erasing

  lemma PushSplits(us: Address, s: seq<NodeInfo>, x: NodeInfo) returns (p: nat)
    requires Ordered(us, s) && !HasId(s, x.id)
    ensures p <= |s| && PushBackThenSort(us, s, x) == s[..p] + [x] + s[p..]
    ensures Ordered(us, PushBackThenSort(us, s, x))
    ensures forall i :: 0 <= i < p ==> Distance(s[i].id, us) < Distance(x.id, us)
    ensures forall i :: p <= i < |s| ==> Distance(x.id, us) < Distance(s[i].id, us)
  {
    hide Ordered, Distance, HasId, CloserToTarget, Insert;
    SortFixesOrdered(us, s);
    assert (s + [x])[..|s|] == s && (s + [x])[|s|] == x;
    p := InsertSplits(us, s, x);
    SpliceKeepsOrder(us, s, x, p);
  }

  lemma PushMembers(us: Address, s: seq<NodeInfo>, x: NodeInfo)
    requires Ordered(us, s) && !HasId(s, x.id)
    ensures forall y :: y in PushBackThenSort(us, s, x) <==> y in s || y == x
    ensures |PushBackThenSort(us, s, x)| == |s| + 1
    ensures Ordered(us, PushBackThenSort(us, s, x))
  {
    var p := PushSplits(us, s, x);
    hide *;
    assert s == s[..p] + s[p..];
  }

  lemma PushGrows(us: Address, s: seq<NodeInfo>, x: NodeInfo)
    requires IsTable(us, s) && !HasId(s, x.id)
    ensures |PushBackThenSort(us, s, x)| == |s| + 1
  {
    hide Ordered, HasId, PushBackThenSort;
    PushMembers(us, s, x);
  }

  lemma EraseMembers(us: Address, s: seq<NodeInfo>, i: nat)
    requires Ordered(us, s) && i < |s|
    ensures forall y :: y in Erase(s, i) <==> y in s && y != s[i]
    ensures Ordered(us, Erase(s, i))
  {
    hide Distance;
    assert forall k :: 0 <= k < |s| && s[k] == s[i] ==> k == i;
    var e := Erase(s, i);
    assert forall k :: 0 <= k < |e| ==> e[k] == if k < i then s[k] else s[k + 1];
    forall y ensures y in e <==> y in s && y != s[i] {
      assert s == s[..i] + [s[i]] + s[i + 1..];
    }
  }

  lemma NoIdFromMembers(a: seq<NodeInfo>, b: seq<NodeInfo>, id: Address)
    requires !HasId(a, id) && forall y :: y in b ==> y in a || y.id != id
    ensures !HasId(b, id)
  {
    forall i | 0 <= i < |b| ensures b[i].id != id { assert b[i] in b; }
  }

  // ----- One admission step

  /** A contact closer than `s[GROUP_SIZE]` is spliced in at or before that position. */
  lemma CloseSplits(us: Address, s: seq<NodeInfo>, x: NodeInfo) returns (p: nat)
    requires Ordered(us, s) && !HasId(s, x.id) && GROUP_SIZE < |s|
    requires CloserToTarget(x.id, s[GROUP_SIZE].id, us)
    ensures p <= GROUP_SIZE && PushBackThenSort(us, s, x) == s[..p] + [x] + s[p..]
    ensures Ordered(us, PushBackThenSort(us, s, x))
  {
    p := PushSplits(us, s, x);
    CloserIsNumeric(x.id, s[GROUP_SIZE].id, us);
  }

  /** Any other contact is spliced in after that position. */
  lemma FarSplits(us: Address, s: seq<NodeInfo>, x: NodeInfo) returns (p: nat)
    requires Ordered(us, s) && !HasId(s, x.id) && GROUP_SIZE < |s|
    requires !CloserToTarget(x.id, s[GROUP_SIZE].id, us)
    ensures GROUP_SIZE < p <= |s| && PushBackThenSort(us, s, x) == s[..p] + [x] + s[p..]
    ensures Ordered(us, PushBackThenSort(us, s, x))
  {
    p := PushSplits(us, s, x);
    CloserIsNumeric(x.id, s[GROUP_SIZE].id, us);
  }

  /** `a` holds the contacts of `s` and, if added, `x`, without the contact reported as evicted,
      which is neither `x` nor one of the close group. */
  ghost predicate Conserves(us: Address, s: seq<NodeInfo>, x: NodeInfo, a: AddResult) {
    && IsTable(us, a.nodes)
    && (forall y :: y in a.nodes <==> (y in s || (a.added && y == x)) && a.evicted != Some(y))
    && (a.evicted.Some? ==>
          a.added && a.evicted.value in s && a.evicted.value != x && a.evicted.value !in CloseGroup(s))
    && |a.nodes| == |s| + (if a.added then 1 else 0) - (if a.evicted.Some? then 1 else 0)
  }

  lemma PushConserves(us: Address, s: seq<NodeInfo>, x: NodeInfo)
    requires IsTable(us, s) && !HasId(s, x.id) && x.id != us
    ensures Conserves(us, s, x, AddResult(PushBackThenSort(us, s, x), true, None))
  {
    PushMembers(us, s, x);
    NoIdFromMembers(s, PushBackThenSort(us, s, x), us);
    hide Ordered, HasId, PushBackThenSort;
  }

  lemma CloseEvictionConserves(us: Address, s: seq<NodeInfo>, x: NodeInfo, r: nat)
    requires IsTable(us, s) && !HasId(s, x.id) && x.id != us && GROUP_SIZE < |s|
    requires CloserToTarget(x.id, s[GROUP_SIZE].id, us)
    requires GROUP_SIZE < r < |PushBackThenSort(us, s, x)|
    ensures var pushed := PushBackThenSort(us, s, x);
      Conserves(us, s, x, AddResult(Erase(pushed, r), true, Some(pushed[r])))
  {
    hide Ordered, PushBackThenSort, CloserToTarget, CloseGroup;
    var pushed := PushBackThenSort(us, s, x);
    PushMembers(us, s, x);
    var p := CloseSplits(us, s, x);
    EraseMembers(us, pushed, r);
    NoIdFromMembers(s, Erase(pushed, r), us);
    assert pushed[r] == s[r - 1] && r - 1 >= GROUP_SIZE;
    OutsideCloseGroup(us, s, r - 1);
    assert x != s[r - 1];
  }

  lemma ReplacementConserves(us: Address, s: seq<NodeInfo>, x: NodeInfo, r: nat)
    requires IsTable(us, s) && !HasId(s, x.id) && x.id != us && GROUP_SIZE < r < |s|
    ensures Conserves(us, s, x, AddResult(PushBackThenSort(us, Erase(s, r), x), true, Some(s[r])))
  {
    var m := Erase(s, r);
    EraseMembers(us, s, r);
    NoIdFromMembers(s, m, x.id);
    PushMembers(us, m, x);
    NoIdFromMembers(s, PushBackThenSort(us, m, x), us);
    OutsideCloseGroup(us, s, r);
    assert x != s[r];
    hide Ordered, HasId, PushBackThenSort, CloseGroup;
  }

  lemma OutsideCloseGroup(us: Address, s: seq<NodeInfo>, i: nat)
    requires Ordered(us, s) && GROUP_SIZE <= i < |s|
    ensures s[i] !in CloseGroup(s)
  {
    hide Distance;
    assert forall k :: 0 <= k < i ==> s[k] != s[i];
  }

  /** Admission conserves contacts, keeps the table sorted and free of duplicates, and evicts
      neither the contact just added nor a close group member. */
  lemma AddConserves(us: Address, valid: PublicKey -> bool, s: seq<NodeInfo>, x: NodeInfo)
    requires IsTable(us, s)
    ensures Conserves(us, s, x, Add(us, valid, s, x))
  {
    hide IsTable, HasId, PushBackThenSort, CloserToTarget, Erase, ScanFrom, Conserves, Bucket;
    var a := Add(us, valid, s, x);
    if !a.added {
      NothingConserves(us, s, x);
    } else if |s| < OPTIMAL_SIZE {
      PushConserves(us, s, x);
    } else if CloserToTarget(x.id, s[GROUP_SIZE].id, us) {
      var pushed := PushBackThenSort(us, s, x);
      if a.evicted.None? {
        PushConserves(us, s, x);
      } else {
        CloseEvictionConserves(us, s, x, Candidate(us, pushed));
      }
    } else {
      ReplacementConserves(us, s, x, Candidate(us, s));
    }
  }

  lemma ConservesTable(us: Address, s: seq<NodeInfo>, x: NodeInfo, a: AddResult)
    requires Conserves(us, s, x, a)
    ensures IsTable(us, a.nodes)
  {
    hide IsTable;
  }

  lemma NothingConserves(us: Address, s: seq<NodeInfo>, x: NodeInfo)
    requires IsTable(us, s)
    ensures Conserves(us, s, x, AddResult(s, false, None))
  {
    hide IsTable;
  }

  // ----- Next hops

  lemma OrderedHasDistinctIds(us: Address, s: seq<NodeInfo>)
    requires Ordered(us, s)
    ensures DistinctIds(s)
  {
    hide Distance;
    forall i, j | 0 <= i < j < |s| ensures s[i].id != s[j].id {
      assert Distance(s[i].id, us) < Distance(s[j].id, us);
    }
  }

  lemma SortPrefix(t: Address, s: seq<NodeInfo>, k: nat, y: NodeInfo, z: NodeInfo)
    requires DistinctIds(s) && k <= |SortByCloseness(t, s)|
    requires y in SortByCloseness(t, s)[..k] && z in s && z !in SortByCloseness(t, s)[..k]
    ensures Distance(y.id, t) < Distance(z.id, t)
  {
    hide SortByCloseness, Distance, DistinctIds;
    SortOrders(t, s);
    var sorted := SortByCloseness(t, s);
    var i :| 0 <= i < k && sorted[..k][i] == y;
    forall m | 0 <= m < k ensures sorted[m] != z {
      assert sorted[..k][m] == sorted[m];
    }
    assert z in sorted;
    var j :| 0 <= j < |sorted| && sorted[j] == z;
    assert sorted[i] == y && i < j;
  }

  /** `c` is the contact of `s` closest to `target`. */
  ghost predicate IsClosest(s: seq<NodeInfo>, target: Address, c: NodeInfo) {
    c in s && forall y :: y in s && y != c ==> Distance(c.id, target) < Distance(y.id, target)
  }

  lemma ClosestIsFirst(us: Address, s: seq<NodeInfo>, target: Address)
    requires Ordered(us, s) && s != []
    ensures SortByCloseness(target, s) != [] && IsClosest(s, target, SortByCloseness(target, s)[0])
    ensures |SortByCloseness(target, s)| == |s|
  {
    OrderedHasDistinctIds(us, s);
    SortOrders(target, s);
    hide SortByCloseness, Distance;
    var byTarget := SortByCloseness(target, s);
    assert byTarget[0] in s;
    forall y | y in s && y != byTarget[0] ensures Distance(byTarget[0].id, target) < Distance(y.id, target) {
      assert y in byTarget;
    }
  }

  /** The next hops on a non-empty table always include the contact `c` closest to the target; they
      are the close group exactly when `c` is in it, and otherwise the four contacts such that
      nobody left out is closer. */
  lemma TargetsIncludeClosest(us: Address, s: seq<NodeInfo>, target: Address, c: NodeInfo)
    requires Ordered(us, s) && IsClosest(s, target, c)
    ensures c in Targets(s, target) && forall y :: y in Targets(s, target) ==> y in s
    ensures c in CloseGroup(s) ==> Targets(s, target) == CloseGroup(s)
    ensures c !in CloseGroup(s) ==>
      |Targets(s, target)| == 4 && Ordered(target, Targets(s, target)) &&
      forall y, z :: y in Targets(s, target) && z in s && z !in Targets(s, target) ==>
        Distance(y.id, target) < Distance(z.id, target)
  {
    hide SortByCloseness, Distance, CloseGroup, IsClosest;
    OrderedHasDistinctIds(us, s);
    OneClosest(s, target, c, c);
    ClosestIsFirst(us, s, target);
    OneClosest(s, target, c, SortByCloseness(target, s)[0]);
    CloseGroupIsHeld(s);
    if c !in CloseGroup(s) {
      SmallIsCloseGroup(s);
      ClosestFew(target, s);
    }
  }

  lemma OneClosest(s: seq<NodeInfo>, target: Address, c: NodeInfo, d: NodeInfo)
    requires IsClosest(s, target, c) && IsClosest(s, target, d)
    ensures c == d && c in s
  {
    hide Distance;
  }

  lemma CloseGroupIsHeld(s: seq<NodeInfo>)
    ensures forall y :: y in CloseGroup(s) ==> y in s
  {
  }

  /** The first contacts of the sorted table are the closest ones, in order. */
  lemma ClosestFew(target: Address, s: seq<NodeInfo>)
    requires DistinctIds(s) && |s| >= PARALLELISM && |SortByCloseness(target, s)| == |s|
    ensures var few := SortByCloseness(target, s)[..PARALLELISM];
      && Ordered(target, few) && (forall y :: y in few ==> y in s)
      && (forall y, z :: y in few && z in s && z !in few ==> Distance(y.id, target) < Distance(z.id, target))
  {
    hide SortByCloseness, Distance, DistinctIds;
    SortOrders(target, s);
    var sorted := SortByCloseness(target, s);
    var few := sorted[..PARALLELISM];
    forall y | y in few ensures y in s {
      assert y in sorted;
    }
    forall y, z | y in few && z in s && z !in few ensures Distance(y.id, target) < Distance(z.id, target) {
      SortPrefix(target, s, PARALLELISM, y, z);
    }
  }

  lemma SmallIsCloseGroup(s: seq<NodeInfo>)
    ensures |s| <= GROUP_SIZE ==> CloseGroup(s) == s
  {
  }

  lemma {:induction false} DropSnoc(s: seq<NodeInfo>, x: NodeInfo, id: Address)
    ensures Drop(s + [x], id) == Drop(s, id) + if x.id == id then [] else [x]
  {
    if s != [] {
      assert (s + [x])[1..] == s[1..] + [x];
      DropSnoc(s[1..], x, id);
    }
  }

  lemma {:induction false} DropMembers(s: seq<NodeInfo>, id: Address)
    ensures forall y :: y in Drop(s, id) <==> y in s && y.id != id
    ensures |Drop(s, id)| <= |s|
  {
    if s != [] {
      DropMembers(s[1..], id);
      assert s == [s[0]] + s[1..];
    }
  }

  lemma OrderedPrepend(us: Address, x: NodeInfo, s: seq<NodeInfo>)
    requires Ordered(us, s) && forall y :: y in s ==> Distance(x.id, us) < Distance(y.id, us)
    ensures Ordered(us, [x] + s)
  {
    hide Distance;
    var t := [x] + s;
    forall i, j | 0 <= i < j < |t| ensures Distance(t[i].id, us) < Distance(t[j].id, us) {
      assert t[j] == s[j - 1] && (i > 0 ==> t[i] == s[i - 1]);
    }
  }

  /** Dropping removes exactly the contact with that id and keeps the order of the others. */
  lemma {:induction false} DropRemovesExactly(us: Address, s: seq<NodeInfo>, id: Address)
    requires Ordered(us, s)
    ensures forall y :: y in Drop(s, id) <==> y in s && y.id != id
    ensures |Drop(s, id)| <= |s| && Ordered(us, Drop(s, id))
  {
    hide Distance;
    DropMembers(s, id);
    if s != [] {
      DropRemovesExactly(us, s[1..], id);
      if s[0].id != id {
        OrderedPrepend(us, s[0], Drop(s[1..], id));
      }
    }
  }

  lemma DropKeepsTable(us: Address, s: seq<NodeInfo>, id: Address)
    requires IsTable(us, s)
    ensures IsTable(us, Drop(s, id)) && forall y :: y in Drop(s, id) <==> y in s && y.id != id
  {
    hide Ordered, HasId, Drop;
    DropRemovesExactly(us, s, id);
    NoIdFromMembers(s, Drop(s, id), us);
  }

  // ----- The routing table object

  class RoutingTable {
    const ourId: Address
    const validateKey: PublicKey -> bool
    var nodes: seq<NodeInfo>

    ghost predicate Valid()
      reads this
    {
      IsTable(ourId, nodes)
    }

    constructor (ourId: Address, validateKey: PublicKey -> bool)
      ensures Valid() && nodes == [] && this.ourId == ourId && this.validateKey == validateKey
    {
      this.ourId := ourId;
      this.validateKey := validateKey;
      nodes := [];
    }

    method AddNode(theirInfo: NodeInfo) returns (added: bool, evicted: Option<NodeInfo>)
      requires Valid()
      modifies this`nodes
      ensures Valid()
      ensures AddResult(nodes, added, evicted) == Add(ourId, validateKey, old(nodes), theirInfo)
      ensures Conserves(ourId, old(nodes), theirInfo, AddResult(nodes, added, evicted))
    {
      hide PushBackThenSort, ScanFrom, CloserToTarget, HasId, Conserves, IsTable, Erase, Bucket;
      AddConserves(ourId, validateKey, nodes, theirInfo);
      ConservesTable(ourId, nodes, theirInfo, Add(ourId, validateKey, nodes, theirInfo));
      if theirInfo.id == ourId || !validateKey(theirInfo.key) {
        return false, None;
      }
      if HasId(nodes, theirInfo.id) {
        return false, None;
      }
      if |nodes| < OPTIMAL_SIZE {
        nodes := PushBackThenSort(ourId, nodes, theirInfo);
        return true, None;
      }
      if CloserToTarget(theirInfo.id, nodes[GROUP_SIZE].id, ourId) {
        PushGrows(ourId, nodes, theirInfo);
        nodes := PushBackThenSort(ourId, nodes, theirInfo);
        var removalCandidate := FindCandidateForRemoval();
        if removalCandidate == |nodes| {
          return true, None;
        }
        evicted := Some(nodes[removalCandidate]);
        nodes := Erase(nodes, removalCandidate);
        return true, evicted;
      }
      var removalCandidate := FindCandidateForRemoval();
      if BetterThanExisting(ourId, nodes, theirInfo.id, removalCandidate) {
        evicted := Some(nodes[removalCandidate]);
        nodes := Erase(nodes, removalCandidate);
        nodes := PushBackThenSort(ourId, nodes, theirInfo);
        return true, evicted;
      }
      return false, None;
    }

    method CheckNode(theirId: Address) returns (wanted: bool)
      ensures wanted == Check(ourId, nodes, theirId)
    {
      hide ScanFrom, CloserToTarget, HasId, Bucket;
      if theirId == ourId || HasId(nodes, theirId) {
        return false;
      }
      if |nodes| < OPTIMAL_SIZE {
        return true;
      }
      if CloserToTarget(theirId, nodes[GROUP_SIZE].id, ourId) {
        return true;
      }
      var removalCandidate := FindCandidateForRemoval();
      return BetterThanExisting(ourId, nodes, theirId, removalCandidate);
    }

    method DropNode(nodeToDrop: Address)
      requires Valid()
      modifies this`nodes
      ensures Valid() && nodes == Drop(old(nodes), nodeToDrop)
      ensures forall y :: y in nodes <==> y in old(nodes) && y.id != nodeToDrop
    {
      hide Ordered, HasId;
      var kept := [];
      var i := 0;
      while i < |nodes|
        invariant 0 <= i <= |nodes| && nodes == old(nodes)
        invariant kept == Drop(nodes[..i], nodeToDrop)
      {
        DropSnoc(nodes[..i], nodes[i], nodeToDrop);
        assert nodes[..i + 1] == nodes[..i] + [nodes[i]];
        if nodes[i].id != nodeToDrop {
          kept := kept + [nodes[i]];
        }
        i := i + 1;
      }
      assert nodes[..i] == nodes;
      DropKeepsTable(ourId, nodes, nodeToDrop);
      nodes := kept;
    }

    /** Scans from the furthest contact towards the close group, counting contacts that share a
        bucket; the reverse iterator's base is the position after the contact that made the count
        exceed BUCKET_SIZE. */
    method FindCandidateForRemoval() returns (candidate: nat)
      requires |nodes| >= OPTIMAL_SIZE
      ensures candidate == Candidate(ourId, nodes)
    {
      hide Bucket;
      var numberInBucket, bucket := 0, 0;
      var i := |nodes|;
      while i > GROUP_SIZE
        invariant GROUP_SIZE <= i <= |nodes|
        invariant if i == |nodes| then numberInBucket == 0 else numberInBucket == 1 && bucket == Bucket(ourId, nodes[i])
        invariant Candidate(ourId, nodes) == ScanFrom(ourId, nodes, if i < |nodes| then i + 1 else i)
      {
        if Bucket(ourId, nodes[i - 1]) != bucket {
          bucket := Bucket(ourId, nodes[i - 1]);
          numberInBucket := 0;
        }
        numberInBucket := numberInBucket + 1;
        if numberInBucket > BUCKET_SIZE {
          return i;
        }
        i := i - 1;
      }
      return |nodes|;
    }

    method TargetNodes(target: Address) returns (result: seq<NodeInfo>)
      ensures result == Targets(nodes, target)
    {
      hide SortByCloseness;
      var ourCloseGroup, iterations := [], 0;
      while iterations < |nodes|
        invariant 0 <= iterations <= |nodes|
        invariant ourCloseGroup == CloseGroup(nodes[..iterations])
      {
        if iterations < GROUP_SIZE {
          ourCloseGroup := ourCloseGroup + [nodes[iterations]];
        }
        iterations := iterations + 1;
      }
      assert nodes[..iterations] == nodes;
      var closestToTarget := SortByCloseness(target, nodes);
      if closestToTarget == [] {
        return [];
      }
      if closestToTarget[0] in ourCloseGroup {
        return ourCloseGroup;
      }
      var parallelism := if PARALLELISM <= |closestToTarget| then PARALLELISM else |closestToTarget|;
      return closestToTarget[..parallelism];
    }

    method OurCloseGroup() returns (result: seq<NodeInfo>)
      ensures result == CloseGroup(nodes)
    {
      var size := if GROUP_SIZE <= |nodes| then GROUP_SIZE else |nodes|;
      result := nodes[..size];
    }
  }
}
