/** Whole runs of an accumulator: its slots against the log of calls, and what expiry removes. */
module AccumulatorRuns {
  import opened Xor
  import opened Accumulator

  // ----- Slots by name

  lemma LookupIs<N, V>(s: seq<Slot<N, V>>, slot: Slot<N, V>)
    requires DistinctNames(s) && slot in s
    ensures Has(s, slot.name) && Lookup(s, slot.name) == slot
  {
    var i :| 0 <= i < |s| && s[i] == slot;
    WithoutAt(s, i);
  }

  lemma RemovedMembers<N, V>(s: seq<Slot<N, V>>, i: nat)
    requires DistinctNames(s) && i < |s|
    ensures var w := s[..i] + s[i + 1..];
      && DistinctNames(w)
      && (forall slot :: slot in w ==> slot in s && slot.name != s[i].name)
      && (forall slot :: slot in s && slot.name != s[i].name ==> slot in w)
  {
    var w := s[..i] + s[i + 1..];
    assert forall k :: 0 <= k < |w| ==> w[k] == s[if k < i then k else k + 1];
    forall slot | slot in s && slot.name != s[i].name ensures slot in w {
      var k :| 0 <= k < |s| && s[k] == slot;
      assert w[if k < i then k else k - 1] == slot;
    }
  }

  lemma WithoutMembers<N, V>(s: seq<Slot<N, V>>, name: N)
    requires DistinctNames(s)
    ensures DistinctNames(Without(s, name))
    ensures forall slot :: slot in Without(s, name) ==> slot in s && slot.name != name
    ensures forall slot :: slot in s && slot.name != name ==> slot in Without(s, name)
  {
    hide Without, DistinctNames;
    if Has(s, name) {
      var i :| 0 <= i < |s| && s[i].name == name;
      WithoutAt(s, i);
      RemovedMembers(s, i);
    } else {
      WithoutAbsent(s, name);
      assert forall slot :: slot in s ==> slot.name != name;
    }
  }

  /** The purge removes exactly the longest prefix of the usage order that has expired. */
  lemma {:induction false} PurgeIsLongestExpiredPrefix<N, V>(
    s: seq<Slot<N, V>>, timeToLive: nat, now: int) returns (k: nat)
    ensures k <= |s| && Purge(s, timeToLive, now) == s[k..]
    ensures forall i :: 0 <= i < k ==> Expired(s[i], timeToLive, now)
    ensures k < |s| ==> !Expired(s[k], timeToLive, now)
  {
    k := 0;
    if s != [] && Expired(s[0], timeToLive, now) {
      var j := PurgeIsLongestExpiredPrefix(s[1..], timeToLive, now);
      k := j + 1;
    }
  }

  /** The purge removes every expired slot exactly when none is used more recently than a live one. */
  lemma PurgeIsCompleteIff<N, V>(s: seq<Slot<N, V>>, timeToLive: nat, now: int)
    ensures (forall slot :: slot in Purge(s, timeToLive, now) ==> !Expired(slot, timeToLive, now)) <==>
            (forall i, j :: 0 <= i < j < |s| && Expired(s[j], timeToLive, now) ==> Expired(s[i], timeToLive, now))
  {
    var k := PurgeIsLongestExpiredPrefix(s, timeToLive, now);
    hide Expired;
    assert forall i :: k <= i < |s| ==> s[i] == s[k..][i - k] && s[i] in s[k..];
  }

  ghost function NewSlot<N, V>(s: seq<Slot<N, V>>, name: N, value: V, sender: Address, now: int): Slot<N, V> {
    if Has(s, name) then Lookup(s, name).(values := InsertFirst(Lookup(s, name).values, sender, value))
    else Slot(name, map[sender := value], now)
  }

  /** What an addition does to the slots, as a set: it renews one slot and keeps the others, except
      that creating a name first purges. */
  lemma AccumulateMembers<N, V>(s: seq<Slot<N, V>>, name: N, value: V, sender: Address, timeToLive: nat, now: int)
    requires DistinctNames(s)
    ensures var t := Accumulate(s, name, value, sender, timeToLive, now);
      && DistinctNames(t)
      && (forall slot :: slot in t ==> slot == NewSlot(s, name, value, sender, now) || (slot in s && slot.name != name))
      && NewSlot(s, name, value, sender, now) in t
      && (forall slot :: slot in s && slot.name != name && (Has(s, name) || !Expired(slot, timeToLive, now)) ==>
            slot in t)
  {
    hide DistinctNames, Lookup, Without, Purge, InsertFirst;
    var renewed := NewSlot(s, name, value, sender, now);
    assert renewed.name == name;
    if Has(s, name) {
      WithoutMembers(s, name);
      AppendDistinct(Without(s, name), renewed);
      assert Accumulate(s, name, value, sender, timeToLive, now) == Without(s, name) + [renewed];
    } else {
      var k := PurgeIsLongestExpiredPrefix(s, timeToLive, now);
      assert s == s[..k] + s[k..];
      assert forall slot :: slot in s[k..] ==> slot in s && slot.name != name;
      SuffixDistinct(s, k);
      AppendDistinct(s[k..], renewed);
      hide Expired;
      forall slot | slot in s && !Expired(slot, timeToLive, now) ensures slot in s[k..] {
        assert slot !in s[..k];
      }
    }
  }

  lemma SuffixDistinct<N, V>(s: seq<Slot<N, V>>, k: nat)
    requires DistinctNames(s) && k <= |s|
    ensures DistinctNames(s[k..])
  {
  }

  lemma AppendDistinct<N, V>(s: seq<Slot<N, V>>, slot: Slot<N, V>)
    requires DistinctNames(s) && forall x :: x in s ==> x.name != slot.name
    ensures DistinctNames(s + [slot])
  {
    assert forall i :: 0 <= i < |s| ==> s[i] in s;
  }

  // ----- Histories

  datatype Call<N, V> = Add(name: N, value: V, sender: Address, now: int) | Delete(name: N)

  ghost function Apply<N, V>(s: seq<Slot<N, V>>, c: Call<N, V>, timeToLive: nat): seq<Slot<N, V>> {
    match c
    case Add(name, value, sender, now) => Accumulate(s, name, value, sender, timeToLive, now)
    case Delete(name) => Without(s, name)
  }

  ghost function After<N, V>(h: seq<Call<N, V>>, timeToLive: nat): seq<Slot<N, V>> {
    if h == [] then [] else Apply(After(h[..|h| - 1], timeToLive), h[|h| - 1], timeToLive)
  }

  /** Where a slot held after a call comes from. */
  lemma StepSlot<N, V>(s: seq<Slot<N, V>>, c: Call<N, V>, timeToLive: nat, name: N)
    requires DistinctNames(s)
    ensures DistinctNames(Apply(s, c, timeToLive))
    ensures Has(Apply(s, c, timeToLive), name) ==>
      var slot := Lookup(Apply(s, c, timeToLive), name);
      if c.Add? && c.name == name then slot == NewSlot(s, name, c.value, c.sender, c.now)
      else Has(s, name) && slot == Lookup(s, name)
  {
    var t := Apply(s, c, timeToLive);
    match c {
      case Add(n, value, sender, now) => AccumulateMembers(s, n, value, sender, timeToLive, now);
      case Delete(n) => WithoutMembers(s, n);
    }
    if Has(t, name) {
      var slot := Lookup(t, name);
      hide Accumulate, Without, Lookup, Has;
      if slot in s { LookupIs(s, slot); }
    }
  }

  lemma {:induction false} AfterIsDistinct<N, V>(h: seq<Call<N, V>>, timeToLive: nat)
    ensures DistinctNames(After(h, timeToLive))
  {
    hide DistinctNames, Apply;
    if h == [] {
      NoneAreDistinct<N, V>();
    } else {
      AfterIsDistinct(h[..|h| - 1], timeToLive);
      StepSlot(After(h[..|h| - 1], timeToLive), h[|h| - 1], timeToLive, h[|h| - 1].name);
    }
  }

  lemma NoneAreDistinct<N, V>()
    ensures DistinctNames<N, V>([])
  {
  }

  /** The first value of each sender among the additions to `name` in a log. */
  ghost function FirstValues<N, V>(log: seq<Call<N, V>>, name: N): map<Address, V> {
    if log == [] then map[]
    else
      var m := FirstValues(log[..|log| - 1], name);
      var c := log[|log| - 1];
      if c.Add? && c.name == name then InsertFirst(m, c.sender, c.value) else m
  }

  ghost predicate HeldSince<N, V>(h: seq<Call<N, V>>, timeToLive: nat, name: N, k: nat) {
    forall j :: k < j <= |h| ==> Has(After(h[..j], timeToLive), name)
  }

  /** The call at `k` created the slot that `name` has after `h`: it was absent just before, present
      ever since, and holds the first value of each sender among the additions from `k` on. */
  ghost predicate CreatedAt<N, V>(h: seq<Call<N, V>>, timeToLive: nat, name: N, k: nat) {
    && k < |h| && h[k].Add? && h[k].name == name
    && !Has(After(h[..k], timeToLive), name)
    && HeldSince(h, timeToLive, name, k)
    && Has(After(h, timeToLive), name)
    && Lookup(After(h, timeToLive), name).created == h[k].now
    && Lookup(After(h, timeToLive), name).values == FirstValues(h[k..], name)
  }

  lemma HeldSinceExtends<N, V>(h: seq<Call<N, V>>, timeToLive: nat, name: N, k: nat)
    requires k < |h| && Has(After(h, timeToLive), name)
    requires HeldSince(h[..|h| - 1], timeToLive, name, k)
    ensures HeldSince(h, timeToLive, name, k)
  {
    var init := h[..|h| - 1];
    hide Has, After;
    forall j | k < j <= |h| ensures Has(After(h[..j], timeToLive), name) {
      if j < |h| { assert init[..j] == h[..j]; } else { assert h[..j] == h; }
    }
  }

  lemma CreatedAtExtends<N, V>(h: seq<Call<N, V>>, timeToLive: nat, name: N, k: nat)
    requires h != [] && Has(After(h, timeToLive), name)
    requires CreatedAt(h[..|h| - 1], timeToLive, name, k)
    ensures CreatedAt(h, timeToLive, name, k)
  {
    hide Apply, Lookup, Has, HeldSince;
    var init, c := h[..|h| - 1], h[|h| - 1];
    AfterIsDistinct(init, timeToLive);
    StepSlot(After(init, timeToLive), c, timeToLive, name);
    HeldSinceExtends(h, timeToLive, name, k);
    assert init[..k] == h[..k];
    assert h[k..][..|h[k..]| - 1] == init[k..];
    hide After;
  }

  lemma CreatedJustNow<N, V>(h: seq<Call<N, V>>, timeToLive: nat, name: N)
    requires h != [] && Has(After(h, timeToLive), name)
    requires !Has(After(h[..|h| - 1], timeToLive), name)
    ensures CreatedAt(h, timeToLive, name, |h| - 1)
  {
    hide Apply, Lookup, Has;
    var init, c, k := h[..|h| - 1], h[|h| - 1], |h| - 1;
    AfterIsDistinct(init, timeToLive);
    StepSlot(After(init, timeToLive), c, timeToLive, name);
    assert h[..|h|] == h;
    assert h[k..] == [c] && [c][..0] == [];
    assert FirstValues([c][..0], name) == map[];
  }

  /** The accumulator refines its log: every name held was created by one call of the history and
      holds exactly the first value of each sender since. */
  lemma {:induction false} AccumulatorRefinesLog<N, V>(h: seq<Call<N, V>>, timeToLive: nat, name: N) returns (k: nat)
    requires Has(After(h, timeToLive), name)
    ensures CreatedAt(h, timeToLive, name, k)
  {
    assert h != [];
    hide Apply, Has, CreatedAt;
    if Has(After(h[..|h| - 1], timeToLive), name) {
      k := AccumulatorRefinesLog(h[..|h| - 1], timeToLive, name);
      CreatedAtExtends(h, timeToLive, name, k);
    } else {
      k := |h| - 1;
      CreatedJustNow(h, timeToLive, name);
    }
  }

  ghost predicate Sends<N, V>(c: Call<N, V>, name: N, sender: Address) {
    c.Add? && c.name == name && c.sender == sender
  }

  /** First value wins: a sender's value is the one of its earliest addition in the log. */
  lemma {:induction false} FirstValuesAreEarliest<N, V>(log: seq<Call<N, V>>, name: N, sender: Address)
    ensures sender in FirstValues(log, name) <==> exists i :: 0 <= i < |log| && Sends(log[i], name, sender)
    ensures sender in FirstValues(log, name) ==>
      exists i :: 0 <= i < |log| && Sends(log[i], name, sender) && FirstValues(log, name)[sender] == log[i].value &&
        forall j :: 0 <= j < i ==> !Sends(log[j], name, sender)
  {
    if log != [] {
      var init, c := log[..|log| - 1], log[|log| - 1];
      FirstValuesAreEarliest(init, name, sender);
      assert forall i :: 0 <= i < |init| ==> init[i] == log[i];
      if sender in FirstValues(init, name) {
        var i :| 0 <= i < |init| && Sends(init[i], name, sender) && FirstValues(init, name)[sender] == init[i].value &&
          forall j :: 0 <= j < i ==> !Sends(init[j], name, sender);
        assert Sends(log[i], name, sender);
      } else if Sends(c, name, sender) {
        assert Sends(log[|log| - 1], name, sender);
      }
    }
  }

  // ----- Expiry over runs

  /** The last call of `h` about `name` is an addition. */
  ghost predicate AddedLast<N, V>(h: seq<Call<N, V>>, name: N) {
    h != [] &&
    if h[|h| - 1].name == name then h[|h| - 1].Add? else AddedLast(h[..|h| - 1], name)
  }

  /** With a time to live of zero nothing expires: a name is held exactly when the last call about it is
      an addition. */
  lemma {:induction false} ZeroTimeToLiveKeepsAll<N(!new), V(!new)>(h: seq<Call<N, V>>, name: N)
    ensures Has(After(h, 0), name) <==> AddedLast(h, name)
  {
    if h != [] {
      var init, c := h[..|h| - 1], h[|h| - 1];
      ZeroTimeToLiveKeepsAll(init, name);
      AfterIsDistinct(init, 0);
      var s := After(init, 0);
      match c {
        case Add(n, value, sender, now) => AccumulateMembers(s, n, value, sender, 0, now);
        case Delete(n) => WithoutMembers(s, n);
      }
      SameNames(s, Apply(s, c, 0), name);
      hide Accumulate, Without, Lookup, Has, After, DistinctNames;
    }
  }

  lemma SameNames<N(!new), V(!new)>(s: seq<Slot<N, V>>, t: seq<Slot<N, V>>, name: N)
    ensures Has(s, name) <==> exists slot :: slot in s && slot.name == name
    ensures Has(t, name) <==> exists slot :: slot in t && slot.name == name
  {
    if Has(s, name) { assert Lookup(s, name) in s; }
    if Has(t, name) { assert Lookup(t, name) in t; }
  }

  ghost predicate Timed<N, V>(h: seq<Call<N, V>>) {
    forall i, j :: 0 <= i < j < |h| && h[i].Add? && h[j].Add? ==> h[i].now <= h[j].now
  }

  /** `name` is held after `h` and was added to again after its creation. */
  ghost predicate Reused<N, V>(h: seq<Call<N, V>>, timeToLive: nat, name: N) {
    h != [] && Has(After(h, timeToLive), name) &&
    var init, c := h[..|h| - 1], h[|h| - 1];
    if c.Add? && c.name == name then Has(After(init, timeToLive), name) else Reused(init, timeToLive, name)
  }

  /** Slots stand in order of creation, except where one was used again. */
  ghost predicate UsageOrdered<N, V>(h: seq<Call<N, V>>, timeToLive: nat, s: seq<Slot<N, V>>) {
    forall i, j :: 0 <= i < j < |s| ==> s[i].created <= s[j].created || Reused(h, timeToLive, s[j].name)
  }

  ghost predicate CreatedBy<N, V>(s: seq<Slot<N, V>>, now: int) {
    forall slot :: slot in s ==> slot.created <= now
  }

  lemma {:induction false} SlotsPredateCalls<N, V>(h: seq<Call<N, V>>, timeToLive: nat, now: int)
    requires forall i :: 0 <= i < |h| && h[i].Add? ==> h[i].now <= now
    ensures CreatedBy(After(h, timeToLive), now)
  {
    hide Apply;
    if h != [] {
      var init, c := h[..|h| - 1], h[|h| - 1];
      SlotsPredateCalls(init, timeToLive, now);
      AfterIsDistinct(h, timeToLive);
      AfterIsDistinct(init, timeToLive);
      forall slot | slot in After(h, timeToLive) ensures slot.created <= now {
        LookupIs(After(h, timeToLive), slot);
        StepSlot(After(init, timeToLive), c, timeToLive, slot.name);
      }
    }
  }

  lemma ReusedExtends<N, V>(h: seq<Call<N, V>>, timeToLive: nat, name: N)
    requires h != [] && Reused(h[..|h| - 1], timeToLive, name) && Has(After(h, timeToLive), name)
    ensures Reused(h, timeToLive, name)
  {
    hide After, Has;
  }

  /** A subsequence `t` of the slots `s` before the last call keeps the usage order. */
  lemma UsageOrderedExtends<N, V>(h: seq<Call<N, V>>, timeToLive: nat, s: seq<Slot<N, V>>, a: nat, b: nat)
    requires h != [] && UsageOrdered(h[..|h| - 1], timeToLive, s) && a <= b <= |s|
    requires forall k :: 0 <= k < |s| && (k < a || b <= k) ==> Has(After(h, timeToLive), s[k].name)
    ensures UsageOrdered(h, timeToLive, s[..a] + s[b..])
  {
    hide Reused, After, Has;
    var t := s[..a] + s[b..];
    forall i, j | 0 <= i < j < |t| ensures t[i].created <= t[j].created || Reused(h, timeToLive, t[j].name) {
      var i', j' := if i < a then i else i - a + b, if j < a then j else j - a + b;
      assert t[i] == s[i'] && t[j] == s[j'];
      PairExtends(h, timeToLive, s, i', j');
    }
  }

  lemma PairExtends<N, V>(h: seq<Call<N, V>>, timeToLive: nat, s: seq<Slot<N, V>>, i: nat, j: nat)
    requires h != [] && UsageOrdered(h[..|h| - 1], timeToLive, s) && i < j < |s|
    requires Has(After(h, timeToLive), s[j].name)
    ensures s[i].created <= s[j].created || Reused(h, timeToLive, s[j].name)
  {
    hide Reused, After, Has;
    if Reused(h[..|h| - 1], timeToLive, s[j].name) {
      ReusedExtends(h, timeToLive, s[j].name);
    }
  }

  lemma UsageOrderedSnoc<N, V>(h: seq<Call<N, V>>, timeToLive: nat, t: seq<Slot<N, V>>, slot: Slot<N, V>)
    requires UsageOrdered(h, timeToLive, t)
    requires CreatedBy(t, slot.created) || Reused(h, timeToLive, slot.name)
    ensures UsageOrdered(h, timeToLive, t + [slot])
  {
    hide Reused;
    forall i | 0 <= i < |t| ensures t[i].created <= slot.created || Reused(h, timeToLive, slot.name) {
      assert t[i] in t;
    }
  }

  lemma HeldAfter<N, V>(h: seq<Call<N, V>>, timeToLive: nat, t: seq<Slot<N, V>>)
    requires forall slot :: slot in t ==> slot in After(h, timeToLive)
    ensures forall slot :: slot in t ==> Has(After(h, timeToLive), slot.name)
  {
    AfterIsDistinct(h, timeToLive);
    hide After, Has, DistinctNames;
    forall slot | slot in t ensures Has(After(h, timeToLive), slot.name) {
      LookupIs(After(h, timeToLive), slot);
    }
  }

  /** Dropping positions a..b of the slots before the last call and appending `last` is what that
      call did; `last` is new or was used again. */
  lemma UsageOrderedStep<N, V>(
    h: seq<Call<N, V>>, timeToLive: nat, s: seq<Slot<N, V>>, a: nat, b: nat, last: seq<Slot<N, V>>)
    requires h != [] && UsageOrdered(h[..|h| - 1], timeToLive, s) && a <= b <= |s| && |last| <= 1
    requires After(h, timeToLive) == s[..a] + s[b..] + last
    requires last != [] ==> CreatedBy(s, last[0].created) || Reused(h, timeToLive, last[0].name)
    ensures UsageOrdered(h, timeToLive, After(h, timeToLive))
  {
    hide Reused, After, Has;
    var t := s[..a] + s[b..];
    HeldAfter(h, timeToLive, t);
    forall k | 0 <= k < |s| && (k < a || b <= k) ensures Has(After(h, timeToLive), s[k].name) {
      assert t[if k < a then k else k - b + a] == s[k];
    }
    UsageOrderedExtends(h, timeToLive, s, a, b);
    if last != [] {
      assert t + last == t + [last[0]];
      assert forall slot :: slot in t ==> slot in s;
      hide UsageOrdered;
      UsageOrderedSnoc(h, timeToLive, t, last[0]);
    } else {
      assert t + last == t;
    }
  }

  lemma AfterIsApply<N, V>(h: seq<Call<N, V>>, timeToLive: nat)
    requires h != []
    ensures After(h, timeToLive) == Apply(After(h[..|h| - 1], timeToLive), h[|h| - 1], timeToLive)
  {
    hide Apply;
  }

  /** The step of a call for a name already held. */
  lemma UsageOrderedAgain<N, V>(h: seq<Call<N, V>>, timeToLive: nat)
    requires h != [] && Has(After(h[..|h| - 1], timeToLive), h[|h| - 1].name)
    requires UsageOrdered(h[..|h| - 1], timeToLive, After(h[..|h| - 1], timeToLive))
    ensures UsageOrdered(h, timeToLive, After(h, timeToLive))
  {
    hide UsageOrdered, DistinctNames, After, Without, Lookup;
    var s, c := After(h[..|h| - 1], timeToLive), h[|h| - 1];
    AfterIsApply(h, timeToLive);
    AfterIsDistinct(h[..|h| - 1], timeToLive);
    var i :| 0 <= i < |s| && s[i].name == c.name;
    WithoutAt(s, i);
    if c.Add? {
      LookupIs(s, s[i]);
      var slot := s[i].(values := InsertFirst(s[i].values, c.sender, c.value));
      LastIsHeld(s[..i] + s[i + 1..], slot);
      UsageOrderedStep(h, timeToLive, s, i, i + 1, [slot]);
    } else {
      assert s[..i] + s[i + 1..] + [] == s[..i] + s[i + 1..];
      UsageOrderedStep(h, timeToLive, s, i, i + 1, []);
    }
  }

  /** In every run the usage order is the order of creation up to names used again. */
  lemma {:induction false} RunIsUsageOrdered<N, V>(h: seq<Call<N, V>>, timeToLive: nat)
    requires Timed(h)
    ensures UsageOrdered(h, timeToLive, After(h, timeToLive))
  {
    if h != [] {
      hide UsageOrdered, DistinctNames, After, Without, Purge;
      var init, c := h[..|h| - 1], h[|h| - 1];
      var s := After(init, timeToLive);
      RunIsUsageOrdered(init, timeToLive);
      AfterIsDistinct(init, timeToLive);
      AfterIsApply(h, timeToLive);
      if Has(s, c.name) {
        UsageOrderedAgain(h, timeToLive);
      } else if c.Add? {
        var k := PurgeIsLongestExpiredPrefix(s, timeToLive, c.now);
        SlotsPredateCalls(init, timeToLive, c.now);
        assert s[..0] + s[k..] == s[k..];
        UsageOrderedStep(h, timeToLive, s, 0, k, [Slot(c.name, map[c.sender := c.value], c.now)]);
      } else {
        WithoutAbsent(s, c.name);
        assert s[..0] + s[0..] + [] == s;
        UsageOrderedStep(h, timeToLive, s, 0, 0, []);
      }
    }
  }

  lemma LastIsHeld<N, V>(t: seq<Slot<N, V>>, slot: Slot<N, V>)
    ensures Has(t + [slot], slot.name)
  {
    assert (t + [slot])[|t|] == slot;
  }

  /** In every run, an expired slot that outlives a purge was used again after its creation. */
  lemma ExpiredSurvivorWasReused<N, V>(h: seq<Call<N, V>>, timeToLive: nat, now: int, slot: Slot<N, V>)
    requires Timed(h) && slot in Purge(After(h, timeToLive), timeToLive, now) && Expired(slot, timeToLive, now)
    ensures Reused(h, timeToLive, slot.name)
  {
    var s := After(h, timeToLive);
    RunIsUsageOrdered(h, timeToLive);
    var k := PurgeIsLongestExpiredPrefix(s, timeToLive, now);
    hide After, Reused, Purge;
    var j :| 0 <= j < |s[k..]| && s[k..][j] == slot;
    assert s[k + j] == slot && j > 0;
    assert s[k].created > slot.created;
  }

  /** Such a slot exists: a name used again stands behind a live one and outlives its time. */
  lemma ExpiredSlotCanSurvive(a: Address)
    ensures var h := [Add(1, 7, a, 0), Add(2, 7, a, 5), Add(1, 7, a, 6)];
      exists slot :: slot in Purge(After(h, 10), 10, 12) && Expired(slot, 10, 12)
  {
    var h: seq<Call<int, int>> := [Add(1, 7, a, 0), Add(2, 7, a, 5), Add(1, 7, a, 6)];
    assert h[..1] == [Add(1, 7, a, 0)] && h[..2] == [Add(1, 7, a, 0), Add(2, 7, a, 5)];
    assert h[..2][..1] == h[..1] && h[..1][..0] == [];
    var first, second := Slot(1, map[a := 7], 0), Slot(2, map[a := 7], 5);
    assert After(h[..1], 10) == [first];
    assert After(h[..2], 10) == [first, second];
    assert ([first, second])[0].name == 1;
    assert After(h, 10) == [second, first];
    assert first in Purge([second, first], 10, 12);
  }
}
