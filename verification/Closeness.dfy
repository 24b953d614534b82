/** Contacts, and vectors of contacts sorted by closeness to a target. */
module Closeness {
  import opened Types
  import opened Xor

  datatype NodeInfo = NodeInfo(id: Address, key: PublicKey, connected: bool)

  /** Strictly ascending distance to `t`; in particular no id occurs twice. */
  ghost predicate Ordered(t: Address, s: seq<NodeInfo>) {
    forall i, j :: 0 <= i < j < |s| ==> Distance(s[i].id, t) < Distance(s[j].id, t)
  }

  ghost predicate DistinctIds(s: seq<NodeInfo>) {
    forall i, j :: 0 <= i < j < |s| ==> s[i].id != s[j].id
  }

  predicate HasId(s: seq<NodeInfo>, id: Address) {
    exists i :: 0 <= i < |s| && s[i].id == id
  }

  function Insert(t: Address, s: seq<NodeInfo>, x: NodeInfo): seq<NodeInfo> {
    if s == [] then [x]
    else if CloserToTarget(x.id, s[0].id, t) then [x] + s
    else [s[0]] + Insert(t, s[1..], x)
  }

  /** The library sort with the closeness comparison. */
  function SortByCloseness(t: Address, s: seq<NodeInfo>): seq<NodeInfo> {
    if s == [] then [] else Insert(t, SortByCloseness(t, s[..|s| - 1]), s[|s| - 1])
  }

  /** How many leading contacts of `s` are no further from `t` than `x` is. */
  ghost function Place(t: Address, s: seq<NodeInfo>, x: NodeInfo): (p: nat)
    ensures p <= |s|
  {
    if s == [] || CloserToTarget(x.id, s[0].id, t) then 0 else 1 + Place(t, s[1..], x)
  }

  lemma {:induction false} InsertAtPlace(t: Address, s: seq<NodeInfo>, x: NodeInfo)
    ensures var p := Place(t, s, x); Insert(t, s, x) == s[..p] + [x] + s[p..]
  {
    hide CloserToTarget;
    if s != [] && !CloserToTarget(x.id, s[0].id, t) {
      InsertAtPlace(t, s[1..], x);
    }
  }

  lemma {:induction false} PlaceDivides(t: Address, s: seq<NodeInfo>, x: NodeInfo)
    requires Ordered(t, s) && !HasId(s, x.id)
    ensures forall i :: 0 <= i < Place(t, s, x) ==> Distance(s[i].id, t) < Distance(x.id, t)
    ensures forall i :: Place(t, s, x) <= i < |s| ==> Distance(x.id, t) < Distance(s[i].id, t)
  {
    hide Distance, CloserToTarget;
    if s != [] {
      CloserIsNumeric(x.id, s[0].id, t);
      DistanceIsInjective(x.id, s[0].id, t);
      if !CloserToTarget(x.id, s[0].id, t) {
        PlaceDivides(t, s[1..], x);
        assert forall i :: 0 < i < |s| ==> s[i] == s[1..][i - 1];
      }
    }
  }

  /** Inserting a new contact into an ordered vector splits it at one place. */
  lemma InsertSplits(t: Address, s: seq<NodeInfo>, x: NodeInfo) returns (p: nat)
    requires Ordered(t, s) && !HasId(s, x.id)
    ensures p <= |s| && Insert(t, s, x) == s[..p] + [x] + s[p..]
    ensures forall i :: 0 <= i < p ==> Distance(s[i].id, t) < Distance(x.id, t)
    ensures forall i :: p <= i < |s| ==> Distance(x.id, t) < Distance(s[i].id, t)
  {
    hide *;
    p := Place(t, s, x);
    InsertAtPlace(t, s, x);
    PlaceDivides(t, s, x);
  }

  lemma SpliceKeepsOrder(t: Address, s: seq<NodeInfo>, x: NodeInfo, p: nat)
    requires Ordered(t, s) && p <= |s|
    requires forall i :: 0 <= i < p ==> Distance(s[i].id, t) < Distance(x.id, t)
    requires forall i :: p <= i < |s| ==> Distance(x.id, t) < Distance(s[i].id, t)
    ensures Ordered(t, s[..p] + [x] + s[p..])
  {
    hide Distance;
    var r := s[..p] + [x] + s[p..];
    assert forall i :: 0 <= i < |r| ==> r[i] == if i < p then s[i] else if i == p then x else s[i - 1];
  }

  lemma InsertKeepsOrder(t: Address, s: seq<NodeInfo>, x: NodeInfo)
    requires Ordered(t, s) && !HasId(s, x.id)
    ensures Ordered(t, Insert(t, s, x))
    ensures forall y :: y in Insert(t, s, x) <==> y in s || y == x
    ensures |Insert(t, s, x)| == |s| + 1
  {
    hide Distance;
    var p := InsertSplits(t, s, x);
    SpliceKeepsOrder(t, s, x, p);
    hide *;
    assert forall y :: y in s <==> y in s[..p] || y in s[p..] by { assert s == s[..p] + s[p..]; }
  }

  /** Sorting contacts with distinct ids orders them and keeps them all. */
  lemma {:induction false} SortOrders(t: Address, s: seq<NodeInfo>)
    requires DistinctIds(s)
    ensures Ordered(t, SortByCloseness(t, s))
    ensures forall y :: y in SortByCloseness(t, s) <==> y in s
    ensures |SortByCloseness(t, s)| == |s|
  {
    hide Distance;
    if s != [] {
      var init, last := s[..|s| - 1], s[|s| - 1];
      SortOrders(t, init);
      var sorted := SortByCloseness(t, init);
      forall i | 0 <= i < |sorted| ensures sorted[i].id != last.id {
        assert sorted[i] in init;
      }
      InsertKeepsOrder(t, sorted, last);
      hide Insert, Ordered;
      assert forall y :: y in s <==> y in init || y == last;
    }
  }

  /** An ordered vector is its own sort, so pushing back and sorting is a single insertion. */
  lemma {:induction false} SortFixesOrdered(t: Address, s: seq<NodeInfo>)
    requires Ordered(t, s)
    ensures SortByCloseness(t, s) == s
  {
    hide Distance;
    if s != [] {
      var init, last := s[..|s| - 1], s[|s| - 1];
      SortFixesOrdered(t, init);
      assert !HasId(init, last.id);
      var p := InsertSplits(t, init, last);
      assert p == |init|;
    }
  }

  /** Two ordered vectors with the same contacts are equal: the order leaves no choice to a sort. */
  lemma {:induction false} OrderedIsUnique(t: Address, a: seq<NodeInfo>, b: seq<NodeInfo>)
    requires Ordered(t, a) && Ordered(t, b)
    requires forall y :: y in a <==> y in b
    ensures a == b
  {
    hide Distance;
    assert (a != [] ==> a[0] in b) && (b != [] ==> b[0] in a);
    if a != [] {
      assert a[0] == b[0];
      forall y ensures y in a[1..] <==> y in b[1..] {
        assert y in a[1..] <==> y in a && y != a[0];
        assert y in b[1..] <==> y in b && y != b[0];
      }
      OrderedIsUnique(t, a[1..], b[1..]);
    }
  }
}
