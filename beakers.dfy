/** An abstract beaker: a named store of items keyed by id, iterated in insertion order. */
module Beakers {
  import opened Values

  type Id = nat

  /** `model` is the pydantic type the beaker was registered with; `None` makes it a TempBeaker. */
  datatype Beaker = Beaker(name: string, model: Option<string>, ids: seq<Id>, data: map<Id, Value>)

  /** Ids are listed once each, and exactly the ids that hold an item are listed. */
  ghost predicate WellFormed(b: Beaker)
  {
    && Distinct(b.ids)
    && (forall id :: id in b.data <==> id in b.ids)
  }

  predicate IsTemp(b: Beaker)
  {
    b.model.None?
  }

  /** `len(beaker)`. */
  function Len(b: Beaker): nat
  {
    |b.ids|
  }

  /** `beaker.id_set()`. */
  function IdSet(b: Beaker): set<Id>
  {
    b.data.Keys
  }

  /** The ids listed in `s`. */
  function Elems(s: seq<Id>): set<Id>
  {
    set x | x in s
  }

  /** Distinct entries make a set of the same size. */
  lemma {:induction false} DistinctCard(s: seq<Id>)
    requires Distinct(s)
    ensures |Elems(s)| == |s|
  {
    if s != [] {
      DistinctCard(s[1..]);
      assert s[0] !in Elems(s[1..]) by {
        forall j | 1 <= j < |s| ensures s[j] != s[0] { }
      }
      assert Elems(s) == {s[0]} + Elems(s[1..]);
    }
  }

  /** `len(beaker)` counts exactly the ids `id_set()` reports. */
  lemma LenIsIdCount(b: Beaker)
    requires WellFormed(b)
    ensures Len(b) == |IdSet(b)|
  {
    assert IdSet(b) == Elems(b.ids);
    DistinctCard(b.ids);
  }

  function NewBeaker(name: string, model: Option<string>): (b: Beaker)
    ensures WellFormed(b) && Len(b) == 0 && IdSet(b) == {}
    ensures b.name == name && b.model == model
  {
    Beaker(name, model, [], map[])
  }

  /** `beaker.add_item(item, id)`: stores `v` under `id`; an id already present keeps its place. */
  function AddItem(b: Beaker, id: Id, v: Value): (r: Beaker)
    requires WellFormed(b)
    ensures WellFormed(r) && r.name == b.name && r.model == b.model
    ensures r.data == b.data[id := v]
    ensures r.ids == if id in b.data then b.ids else b.ids + [id]
  {
    if id in b.data then b.(data := b.data[id := v])
    else b.(ids := b.ids + [id], data := b.data[id := v])
  }

  /** Re-adding the value an id already holds changes nothing. */
  lemma AddItemSame(b: Beaker, id: Id)
    requires WellFormed(b) && id in b.data
    ensures AddItem(b, id, b.data[id]) == b
  {
    assert b.data[id := b.data[id]] == b.data;
  }

  /** Every id that holds an item is below `next`. */
  ghost predicate IdsBelow(b: Beaker, next: Id)
  {
    forall id :: id in b.data ==> id < next
  }

  /** The ids `next`, `next + 1`, ..., `next + n - 1`. */
  function IdRange(next: Id, n: nat): (r: seq<Id>)
    ensures |r| == n && forall j :: 0 <= j < n ==> r[j] == next + j
  {
    seq(n, j requires 0 <= j => next + j)
  }

  /** The first `n` yielded items, keyed by the ids `next` to `next + n - 1`. */
  function NewItems(items: seq<Value>, next: Id, n: nat): (m: map<Id, Value>)
    requires n <= |items|
    ensures forall id :: id in m <==> next <= id < next + n
    ensures forall id :: id in m ==> m[id] == items[id - next]
  {
    if n == 0 then map[] else NewItems(items, next, n - 1)[next + n - 1 := items[n - 1]]
  }

  /** The beaker after the first `n` items a seed yields were added in order, item `k` under
      id `next + k` (the recipe's id counter stands in for uuid generation). */
  function AddFirst(b: Beaker, items: seq<Value>, next: Id, n: nat): (r: Beaker)
    requires WellFormed(b) && IdsBelow(b, next) && n <= |items|
    ensures WellFormed(r) && r.name == b.name && r.model == b.model
  {
    FreshIdsWellFormed(b, next, n);
    Beaker(b.name, b.model, b.ids + IdRange(next, n), b.data + NewItems(items, next, n))
  }

  /** Appending ids above every id already held keeps the beaker well formed. */
  lemma FreshIdsWellFormed(b: Beaker, next: Id, n: nat)
    requires WellFormed(b) && IdsBelow(b, next)
    ensures forall i, j :: 0 <= i < j < |b.ids + IdRange(next, n)| ==>
      (b.ids + IdRange(next, n))[i] != (b.ids + IdRange(next, n))[j]
    ensures forall id :: id in b.ids + IdRange(next, n) <==> id in b.ids || next <= id < next + n
  {
    var s := b.ids + IdRange(next, n);
    forall id | next <= id < next + n
      ensures id in s
    {
      assert s[|b.ids| + (id - next)] == id;
    }
    forall i | 0 <= i < |b.ids|
      ensures b.ids[i] < next
    {
      assert b.ids[i] in b.data;
    }
  }

  /** Adding every item a seed yields. */
  function AddAll(b: Beaker, items: seq<Value>, next: Id): (r: Beaker)
    requires WellFormed(b) && IdsBelow(b, next)
    ensures WellFormed(r) && r.name == b.name && r.model == b.model
  {
    AddFirst(b, items, next, |items|)
  }

  /** Before the first item, seeding has changed nothing. */
  lemma AddFirstNone(b: Beaker, items: seq<Value>, next: Id)
    requires WellFormed(b) && IdsBelow(b, next)
    ensures AddFirst(b, items, next, 0) == b
  {
    NoNewItems(b.ids, b.data, items, next);
  }

  lemma NoNewItems(ids: seq<Id>, data: map<Id, Value>, items: seq<Value>, next: Id)
    ensures ids + IdRange(next, 0) == ids && data + NewItems(items, next, 0) == data
  {
    assert IdRange(next, 0) == [];
  }

  /** `add_item` of the next yielded item under the next id extends `AddFirst` by one item:
      the id is new, so it goes at the end. */
  lemma AddFirstStep(b: Beaker, items: seq<Value>, next: Id, n: nat)
    requires WellFormed(b) && IdsBelow(b, next) && n < |items|
    ensures AddItem(AddFirst(b, items, next, n), next + n, items[n]) == AddFirst(b, items, next, n + 1)
  {
    IdRangeStep(b.ids, next, n);
    NewItemsStep(b.data, items, next, n);
  }

  /** One more id at the end of the range. */
  lemma IdRangeStep(ids: seq<Id>, next: Id, n: nat)
    ensures (ids + IdRange(next, n)) + [next + n] == ids + IdRange(next, n + 1)
  {
    assert IdRange(next, n) + [next + n] == IdRange(next, n + 1);
  }

  /** The next id is not yet taken, and storing the next item under it extends the new items. */
  lemma NewItemsStep(data: map<Id, Value>, items: seq<Value>, next: Id, n: nat)
    requires (forall id :: id in data ==> id < next) && n < |items|
    ensures next + n !in data + NewItems(items, next, n)
    ensures (data + NewItems(items, next, n))[next + n := items[n]] == data + NewItems(items, next, n + 1)
  {
  }

  /** Seeding keeps every item that was already in the beaker. */
  lemma AddAllKeeps(b: Beaker, items: seq<Value>, next: Id, id: Id)
    requires WellFormed(b) && IdsBelow(b, next) && id in b.data
    ensures id in AddAll(b, items, next).data && AddAll(b, items, next).data[id] == b.data[id]
  {
  }

  /** The ids `next`, `next + 1`, ... of `b` hold `items` in order. */
  ghost predicate HoldsFrom(b: Beaker, items: seq<Value>, next: Id)
  {
    forall id :: next <= id < next + |items| ==> id in b.data && b.data[id] == items[id - next]
  }

  /** The new items, laid over items whose ids are all below `next`, sit at their own ids. */
  lemma NewItemsOver(data: map<Id, Value>, items: seq<Value>, next: Id)
    requires forall id :: id in data ==> id < next
    ensures forall id :: next <= id < next + |items| ==>
      id in data + NewItems(items, next, |items|) && (data + NewItems(items, next, |items|))[id] == items[id - next]
  {
  }

  /** Seeding stores the yielded items under the ids `next`, `next + 1`, ... in order, after
      the ids already there. */
  lemma AddAllHoldsAll(b: Beaker, items: seq<Value>, next: Id)
    requires WellFormed(b) && IdsBelow(b, next)
    ensures HoldsFrom(AddAll(b, items, next), items, next)
    ensures AddAll(b, items, next).ids == b.ids + IdRange(next, |items|)
  {
    NewItemsOver(b.data, items, next);
  }

  /** After seeding, every id is below the advanced counter. */
  lemma AddAllBelow(b: Beaker, items: seq<Value>, next: Id)
    requires WellFormed(b) && IdsBelow(b, next)
    ensures IdsBelow(AddAll(b, items, next), next + |items|)
  {
  }

  /** `beaker.reset()`: the beaker keeps its name and type and holds nothing. */
  function Emptied(b: Beaker): (r: Beaker)
    ensures WellFormed(r) && Len(r) == 0 && r.name == b.name && r.model == b.model
  {
    Beaker(b.name, b.model, [], map[])
  }

  /** `id` holds the same thing (or nothing) in both beakers. */
  ghost predicate SameAt(a: Beaker, b: Beaker, id: Id)
  {
    (id in a.data <==> id in b.data) && (id in a.data ==> a.data[id] == b.data[id])
  }
}
