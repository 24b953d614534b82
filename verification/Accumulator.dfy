/** The accumulator: values per name and sender, with a usage-ordered list of names for expiry. */
module Accumulator {
  import opened Types
  import opened Xor

  // ----- The accumulator as a value: slots in usage order, least recently used first

  datatype Slot<N, V> = Slot(name: N, values: map<Address, V>, created: int)

  ghost predicate DistinctNames<N, V>(s: seq<Slot<N, V>>) {
    forall i, j :: 0 <= i < j < |s| ==> s[i].name != s[j].name
  }

  predicate Has<N(==), V>(s: seq<Slot<N, V>>, name: N) {
    exists i :: 0 <= i < |s| && s[i].name == name
  }

  /** The slot for `name`: its values and its time of creation. */
  function Lookup<N(==), V>(s: seq<Slot<N, V>>, name: N): (slot: Slot<N, V>)
    requires Has(s, name)
    ensures slot in s && slot.name == name
  {
    if s[0].name == name then s[0] else Lookup(s[1..], name)
  }

  /** The slots other than `name`'s, in the same order. */
  function Without<N(==), V>(s: seq<Slot<N, V>>, name: N): seq<Slot<N, V>> {
    if s == [] then []
    else if s[0].name == name then s[1..]
    else [s[0]] + Without(s[1..], name)
  }

  /** std::map::insert: the first value of a sender wins. */
  function InsertFirst<V>(values: map<Address, V>, sender: Address, value: V): map<Address, V> {
    if sender in values then values else values[sender := value]
  }

  predicate Expired<N, V>(slot: Slot<N, V>, timeToLive: nat, now: int) {
    timeToLive != 0 && slot.created + timeToLive < now
  }

  function Purge<N, V>(s: seq<Slot<N, V>>, timeToLive: nat, now: int): seq<Slot<N, V>> {
    if s != [] && Expired(s[0], timeToLive, now) then Purge(s[1..], timeToLive, now) else s
  }

  function Accumulate<N(==), V>(
    s: seq<Slot<N, V>>, name: N, value: V, sender: Address, timeToLive: nat, now: int): seq<Slot<N, V>>
  {
    if Has(s, name) then
      var slot := Lookup(s, name);
      Without(s, name) + [slot.(values := InsertFirst(slot.values, sender, value))]
    else
      Purge(s, timeToLive, now) + [Slot(name, map[sender := value], now)]
  }

  lemma {:induction false} WithoutAt<N, V>(s: seq<Slot<N, V>>, i: nat)
    requires DistinctNames(s) && i < |s|
    ensures Without(s, s[i].name) == s[..i] + s[i + 1..]
    ensures Lookup(s, s[i].name) == s[i]
  {
    if i > 0 {
      assert s[1..][i - 1] == s[i];
      WithoutAt(s[1..], i - 1);
    }
  }

  lemma {:induction false} WithoutAbsent<N, V>(s: seq<Slot<N, V>>, name: N)
    requires !Has(s, name)
    ensures Without(s, name) == s
  {
    if s != [] {
      assert s[0].name != name;
      assert forall i :: 0 <= i < |s[1..]| ==> s[1..][i] == s[i + 1];
      WithoutAbsent(s[1..], name);
    }
  }

  // ----- The accumulator object

  /** A list node: `handle` is its identity, which an iterator to it keeps across splices. */
  datatype Cell<N> = Cell(handle: nat, name: N)

  datatype Entry<V> = Entry(values: map<Address, V>, cell: nat, created: int)

  function Cut<N>(order: seq<Cell<N>>, handle: nat): seq<Cell<N>> {
    if order == [] then []
    else if order[0].handle == handle then order[1..]
    else [order[0]] + Cut(order[1..], handle)
  }

  function CellOf<N>(order: seq<Cell<N>>, handle: nat): (c: Cell<N>)
    requires exists i :: 0 <= i < |order| && order[i].handle == handle
    ensures c in order && c.handle == handle
  {
    if order[0].handle == handle then order[0] else CellOf(order[1..], handle)
  }

  lemma {:induction false} CutAt<N>(order: seq<Cell<N>>, i: nat)
    requires i < |order| && forall k, j :: 0 <= k < j < |order| ==> order[k].handle != order[j].handle
    ensures Cut(order, order[i].handle) == order[..i] + order[i + 1..]
    ensures CellOf(order, order[i].handle) == order[i]
  {
    if i > 0 {
      assert order[1..][i - 1] == order[i];
      CutAt(order[1..], i - 1);
    }
  }

  function SlotOf<N, V>(c: Cell<N>, e: Entry<V>): Slot<N, V> {
    Slot(c.name, e.values, e.created)
  }

  ghost predicate HasCell<N>(order: seq<Cell<N>>, name: N) {
    exists i :: 0 <= i < |order| && order[i].name == name
  }

  ghost predicate DistinctCells<N>(order: seq<Cell<N>>) {
    forall i, j :: 0 <= i < j < |order| ==> order[i].handle != order[j].handle && order[i].name != order[j].name
  }

  /** The list is a duplicate-free permutation of the map's keys, and every stored iterator is at
      its own name. */
  ghost predicate Linked<N, V>(order: seq<Cell<N>>, storage: map<N, Entry<V>>, nextHandle: nat) {
    && DistinctCells(order)
    && (forall i :: 0 <= i < |order| ==>
          order[i].handle < nextHandle && order[i].name in storage && storage[order[i].name].cell == order[i].handle)
    && (forall n :: n in storage ==> HasCell(order, n))
  }

  ghost function Slots<N, V>(order: seq<Cell<N>>, storage: map<N, Entry<V>>): (s: seq<Slot<N, V>>)
    requires forall i :: 0 <= i < |order| ==> order[i].name in storage
    ensures |s| == |order|
    ensures forall i :: 0 <= i < |s| ==> s[i] == SlotOf(order[i], storage[order[i].name])
  {
    seq(|order|, i requires 0 <= i < |order| => SlotOf(order[i], storage[order[i].name]))
  }

  /** The position of a stored name, and its slot. */
  lemma FindName<N, V>(order: seq<Cell<N>>, storage: map<N, Entry<V>>, nextHandle: nat, name: N) returns (i: nat)
    requires Linked(order, storage, nextHandle) && name in storage
    ensures i < |order| && order[i] == Cell(storage[name].cell, name)
    ensures var s := Slots(order, storage);
      && Has(s, name) && Lookup(s, name) == s[i] == Slot(name, storage[name].values, storage[name].created)
      && Without(s, name) == s[..i] + s[i + 1..]
    ensures Cut(order, storage[name].cell) == order[..i] + order[i + 1..]
    ensures CellOf(order, storage[name].cell) == order[i]
  {
    assert HasCell(order, name);
    i :| 0 <= i < |order| && order[i].name == name;
    var s := Slots(order, storage);
    assert s[i].name == name;
    WithoutAt(s, i);
    CutAt(order, i);
  }

  lemma HasIffStored<N, V>(order: seq<Cell<N>>, storage: map<N, Entry<V>>, nextHandle: nat, name: N)
    requires Linked(order, storage, nextHandle)
    ensures Has(Slots(order, storage), name) <==> name in storage
  {
    if name in storage {
      assert HasCell(order, name);
    }
  }

  lemma SlotsAreDistinct<N, V>(order: seq<Cell<N>>, storage: map<N, Entry<V>>, nextHandle: nat)
    requires Linked(order, storage, nextHandle)
    ensures DistinctNames(Slots(order, storage))
  {
  }

  lemma AppendLinks<N, V>(order: seq<Cell<N>>, storage: map<N, Entry<V>>, nextHandle: nat, name: N, e: Entry<V>)
    requires Linked(order, storage, nextHandle) && name !in storage && e.cell == nextHandle
    ensures var order', storage' := order + [Cell(nextHandle, name)], storage[name := e];
      Linked(order', storage', nextHandle + 1) &&
      Slots(order', storage') == Slots(order, storage) + [Slot(name, e.values, e.created)]
  {
    var order', storage' := order + [Cell(nextHandle, name)], storage[name := e];
    forall n | n in storage' ensures HasCell(order', n) {
      if n == name { assert order'[|order|].name == n; }
      else {
        assert HasCell(order, n);
        var i :| 0 <= i < |order| && order[i].name == n;
        assert order'[i].name == n;
      }
    }
  }

  lemma TailIsDistinct<N>(order: seq<Cell<N>>)
    requires order != [] && DistinctCells(order)
    ensures DistinctCells(order[1..])
    ensures forall i :: 0 < i < |order| ==> order[i].name != order[0].name
  {
  }

  lemma TailHasCell<N>(order: seq<Cell<N>>, name: N)
    requires order != [] && HasCell(order, name) && order[0].name != name
    ensures HasCell(order[1..], name)
  {
    var i :| 0 <= i < |order| && order[i].name == name;
    assert order[1..][i - 1].name == name;
  }

  lemma TailLinks<N, V>(order: seq<Cell<N>>, storage: map<N, Entry<V>>, nextHandle: nat)
    requires Linked(order, storage, nextHandle) && order != []
    ensures var storage' := storage - {order[0].name};
      Linked(order[1..], storage', nextHandle) &&
      Slots(order[1..], storage') == Slots(order, storage)[1..]
  {
    hide HasCell, DistinctCells;
    var storage' := storage - {order[0].name};
    TailIsDistinct(order);
    forall n | n in storage' ensures HasCell(order[1..], n) {
      TailHasCell(order, n);
    }
  }

  lemma UpdateLinks<N, V>(order: seq<Cell<N>>, storage: map<N, Entry<V>>, nextHandle: nat, name: N, e: Entry<V>, i: nat)
    requires Linked(order, storage, nextHandle) && name in storage && e.cell == storage[name].cell
    requires i < |order| && order[i].name == name
    ensures Linked(order, storage[name := e], nextHandle)
    ensures Slots(order, storage[name := e]) == Slots(order, storage)[i := SlotOf(order[i], e)]
  {
  }

  lemma PermutedLinks<N, V>(order: seq<Cell<N>>, order': seq<Cell<N>>, storage: map<N, Entry<V>>, nextHandle: nat)
    requires Linked(order, storage, nextHandle) && DistinctCells(order')
    requires forall c :: c in order <==> c in order'
    ensures Linked(order', storage, nextHandle)
  {
    hide DistinctCells;
    forall i | 0 <= i < |order'|
      ensures order'[i].handle < nextHandle && order'[i].name in storage
      ensures storage[order'[i].name].cell == order'[i].handle
    {
      assert order'[i] in order;
    }
    forall n | n in storage ensures HasCell(order', n) {
      assert HasCell(order, n);
      var k :| 0 <= k < |order| && order[k].name == n;
      assert order[k] in order';
    }
  }

  lemma MovedIsDistinct<N>(order: seq<Cell<N>>, i: nat)
    requires DistinctCells(order) && i < |order|
    ensures DistinctCells(order[..i] + order[i + 1..] + [order[i]])
    ensures DistinctCells([order[i]] + order[..i] + order[i + 1..])
  {
  }

  /** Splicing one list node to the back or to the front keeps the links. */
  lemma MoveBackLinks<N, V>(order: seq<Cell<N>>, storage: map<N, Entry<V>>, nextHandle: nat, i: nat)
    requires Linked(order, storage, nextHandle) && i < |order|
    ensures var order' := order[..i] + order[i + 1..] + [order[i]];
      var s := Slots(order, storage);
      Linked(order', storage, nextHandle) && Slots(order', storage) == s[..i] + s[i + 1..] + [s[i]]
  {
    hide HasCell, DistinctCells;
    var order' := order[..i] + order[i + 1..] + [order[i]];
    assert order == order[..i] + [order[i]] + order[i + 1..];
    MovedIsDistinct(order, i);
    PermutedLinks(order, order', storage, nextHandle);
  }

  lemma MoveFrontLinks<N, V>(order: seq<Cell<N>>, storage: map<N, Entry<V>>, nextHandle: nat, i: nat)
    requires Linked(order, storage, nextHandle) && i < |order|
    ensures var order' := [order[i]] + order[..i] + order[i + 1..];
      var s := Slots(order, storage);
      Linked(order', storage, nextHandle) && Slots(order', storage) == [s[i]] + s[..i] + s[i + 1..]
  {
    hide HasCell, DistinctCells;
    var order' := [order[i]] + order[..i] + order[i + 1..];
    assert order == order[..i] + [order[i]] + order[i + 1..];
    MovedIsDistinct(order, i);
    PermutedLinks(order, order', storage, nextHandle);
  }

  lemma FrontDropped<T>(s: seq<T>, i: nat, x: T)
    requires i < |s|
    ensures var t := s[i := x]; ([t[i]] + t[..i] + t[i + 1..])[1..] == s[..i] + s[i + 1..]
  {
  }

  lemma AccumulateIs<N, V>(
    before: seq<Slot<N, V>>, s: seq<Slot<N, V>>, i: nat, name: N, value: V, sender: Address, timeToLive: nat,
    now: int)
    requires i < |s| && Has(s, name) && Lookup(s, name) == s[i] && Without(s, name) == s[..i] + s[i + 1..]
    requires if Has(before, name) then s == before
             else s == Purge(before, timeToLive, now) + [Slot(name, map[sender := value], now)] && DistinctNames(s)
    ensures Accumulate(before, name, value, sender, timeToLive, now) ==
            s[..i] + s[i + 1..] + [s[i].(values := InsertFirst(s[i].values, sender, value))]
  {
    hide Lookup, Without, Purge, Has;
    assert !Has(before, name) ==> s[i].name == s[|s| - 1].name;
  }

  class Accumulator<N(==), V> {
    const timeToLive: nat
    const quorum: nat
    var nameOrder: seq<Cell<N>>
    var storage: map<N, Entry<V>>
    var nextHandle: nat

    ghost predicate Valid()
      reads this
    {
      Linked(nameOrder, storage, nextHandle)
    }

    ghost function View(): seq<Slot<N, V>>
      requires Valid()
      reads this
    {
      Slots(nameOrder, storage)
    }

    constructor (timeToLive: nat, quorum: nat)
      ensures Valid() && View() == [] && this.timeToLive == timeToLive && this.quorum == quorum
    {
      this.timeToLive, this.quorum := timeToLive, quorum;
      nameOrder, storage, nextHandle := [], map[], 0;
    }

    method HaveName(name: N) returns (have: bool)
      requires Valid()
      ensures have == Has(View(), name)
    {
      HasIffStored(nameOrder, storage, nextHandle, name);
      have := name in storage;
    }

    method GetAll(name: N) returns (all: Option<map<Address, V>>)
      requires Valid()
      ensures all == if Has(View(), name) then Some(Lookup(View(), name).values) else None
    {
      if name !in storage {
        return None;
      }
      ghost var i := FindName(nameOrder, storage, nextHandle, name);
      return Some(storage[name].values);
    }

    method CheckQuorumReached(name: N) returns (reached: bool)
      requires Valid()
      ensures reached == (Has(View(), name) && |Lookup(View(), name).values| >= quorum)
    {
      if name !in storage {
        return false;
      }
      ghost var i := FindName(nameOrder, storage, nextHandle, name);
      return |storage[name].values| >= quorum;
    }

    method Add(name: N, value: V, sender: Address, now: int) returns (r: Option<map<Address, V>>)
      requires Valid()
      modifies this
      ensures Valid()
      ensures View() == Accumulate(old(View()), name, value, sender, timeToLive, now)
      ensures Has(View(), name)
      ensures r == if |Lookup(View(), name).values| >= quorum then Some(Lookup(View(), name).values) else None
    {
      hide Linked, Slots, Accumulate, Lookup, Without, Purge, Has;
      ghost var before := View();
      HasIffStored(nameOrder, storage, nextHandle, name);
      if name !in storage {
        AddNew(name, value, sender, now);
      }
      ghost var s := View();
      ghost var i := FindName(nameOrder, storage, nextHandle, name);
      SlotsAreDistinct(nameOrder, storage, nextHandle);
      AccumulateIs(before, s, i, name, value, sender, timeToLive, now);
      var entry := storage[name];
      Store(name, entry.(values := InsertFirst(entry.values, sender, value)), i);
      var values := storage[name].values;
      if |values| >= quorum {
        return Some(values);
      }
      return None;
    }

    /** Stores the updated entry and records its name as the most recently used. */
    method Store(name: N, entry: Entry<V>, ghost i: nat)
      requires Valid() && i < |nameOrder| && nameOrder[i] == Cell(entry.cell, name)
      modifies this`nameOrder, this`storage
      ensures Valid()
      ensures View() == old(View())[..i] + old(View())[i + 1..] + [Slot(name, entry.values, entry.created)]
      ensures Has(View(), name) && Lookup(View(), name).values == entry.values
      ensures name in storage && storage[name] == entry
    {
      ghost var s := View();
      UpdateLinks(nameOrder, storage, nextHandle, name, entry, i);
      storage := storage[name := entry];
      ghost var k := FindName(nameOrder, storage, nextHandle, name);
      assert k == i;
      hide Linked, Slots, Lookup, Without, Has;
      ReOrder(name);
      k := FindName(nameOrder, storage, nextHandle, name);
    }

    method AddNew(name: N, value: V, sender: Address, now: int)
      requires Valid() && name !in storage
      modifies this
      ensures Valid() && name in storage
      ensures View() == Purge(old(View()), timeToLive, now) + [Slot(name, map[sender := value], now)]
    {
      var expired := CheckTimeExpired(now);
      while expired
        invariant Valid() && name !in storage
        invariant expired == (View() != [] && Expired(View()[0], timeToLive, now))
        invariant Purge(View(), timeToLive, now) == Purge(old(View()), timeToLive, now)
        decreases |nameOrder|
      {
        RemoveOldestElement();
        expired := CheckTimeExpired(now);
      }
      var entry := Entry(map[sender := value], nextHandle, now);
      AppendLinks(nameOrder, storage, nextHandle, name, entry);
      nameOrder := nameOrder + [Cell(nextHandle, name)];
      storage := storage[name := entry];
      nextHandle := nextHandle + 1;
    }

    method RemoveOldestElement()
      requires Valid() && nameOrder != []
      modifies this
      ensures Valid() && View() == old(View())[1..]
      ensures storage.Keys == old(storage.Keys) - {old(nameOrder)[0].name}
      ensures nameOrder == old(nameOrder)[1..]
    {
      TailLinks(nameOrder, storage, nextHandle);
      var name := nameOrder[0].name;
      assert name in storage;
      storage := storage - {name};
      nameOrder := nameOrder[1..];
    }

    method CheckTimeExpired(now: int) returns (expired: bool)
      requires Valid()
      ensures expired == (View() != [] && Expired(View()[0], timeToLive, now))
    {
      if timeToLive == 0 || |storage| == 0 {
        return false;
      }
      ghost var n :| n in storage;
      assert HasCell(nameOrder, n);
      var name := nameOrder[0].name;
      assert name in storage;
      return storage[name].created + timeToLive < now;
    }

    method ReOrder(name: N)
      requires Valid() && name in storage
      modifies this`nameOrder
      ensures Valid() && View() == Without(old(View()), name) + [Lookup(old(View()), name)]
      ensures name in storage && nextHandle == old(nextHandle)
    {
      ghost var i := FindName(nameOrder, storage, nextHandle, name);
      MoveBackLinks(nameOrder, storage, nextHandle, i);
      var cell := storage[name].cell;
      nameOrder := Cut(nameOrder, cell) + [CellOf(nameOrder, cell)];
    }

    method Delete(name: N, now: int)
      requires Valid()
      modifies this
      ensures Valid() && View() == Without(old(View()), name)
    {
      hide Linked, Slots, Lookup, Without, Has, Cut, CellOf;
      HasIffStored(nameOrder, storage, nextHandle, name);
      if name in storage {
        ghost var s := View();
        ghost var i := FindName(nameOrder, storage, nextHandle, name);
        var entry := storage[name];
        var entry' := entry.(created := now - timeToLive);
        UpdateLinks(nameOrder, storage, nextHandle, name, entry', i);
        storage := storage[name := entry'];
        MoveFrontLinks(nameOrder, storage, nextHandle, i);
        nameOrder := [CellOf(nameOrder, entry.cell)] + Cut(nameOrder, entry.cell);
        assert nameOrder == [old(nameOrder)[i]] + old(nameOrder)[..i] + old(nameOrder)[i + 1..];
        RemoveOldestElement();
        FrontDropped(s, i, SlotOf(old(nameOrder)[i], entry'));
      } else {
        WithoutAbsent(View(), name);
      }
    }
  }
}
