/** Lists of items with ids, as the canvas interpreter edits them, and the maps they stand for. */
module KeyedList {
  import opened Common

  type Id = string

  datatype Item<P> = Item(id: Id, body: P)

  predicate Unique<P>(items: seq<Item<P>>) {
    forall i, j :: 0 <= i < j < |items| ==> items[i].id != items[j].id
  }

  predicate Contains<P>(items: seq<Item<P>>, id: Id) {
    exists i :: 0 <= i < |items| && items[i].id == id
  }

  /** The map that a list with unique ids stands for. */
  function View<P>(items: seq<Item<P>>): (m: map<Id, P>)
    requires Unique(items)
    ensures forall id :: id in m <==> Contains(items, id)
    ensures forall i :: 0 <= i < |items| ==> items[i].id in m && m[items[i].id] == items[i].body
  {
    map i | 0 <= i < |items| :: items[i].id := items[i].body
  }

  /** The first index with an id: Array.prototype.findIndex. */
  function IndexOf<P>(items: seq<Item<P>>, id: Id): (r: Option<nat>)
    ensures r.Some? <==> Contains(items, id)
    ensures r.Some? ==> r.value < |items| && items[r.value].id == id && forall j :: 0 <= j < r.value ==> items[j].id != id
  {
    if |items| == 0 then None
    else if items[0].id == id then Some(0)
    else
      var r := IndexOf(items[1..], id);
      assert forall i :: 0 < i < |items| ==> items[i] == items[1..][i - 1];
      match r
      case None => None
      case Some(k) => Some(k + 1)
  }

  method FindIndex<P>(items: seq<Item<P>>, id: Id) returns (index: Option<nat>)
    ensures index == IndexOf(items, id)
  {
    var i := 0;
    while i < |items|
      invariant 0 <= i <= |items|
      invariant forall j :: 0 <= j < i ==> items[j].id != id
    {
      if items[i].id == id {
        return Some(i);
      }
      i := i + 1;
    }
    index := None;
  }

  function Without<P>(items: seq<Item<P>>, index: nat): seq<Item<P>>
    requires index < |items|
  {
    items[..index] + items[index + 1..]
  }

  lemma PushView<P>(items: seq<Item<P>>, item: Item<P>)
    requires Unique(items) && !Contains(items, item.id)
    ensures Unique(items + [item]) && View(items + [item]) == View(items)[item.id := item.body]
  {
    var r := items + [item];
    assert r[|items|] == item;
    forall id
      ensures Contains(r, id) <==> Contains(items, id) || id == item.id
    {
      if i :| 0 <= i < |items| && items[i].id == id { assert r[i].id == id; }
    }
  }

  lemma WithoutView<P>(items: seq<Item<P>>, index: nat)
    requires Unique(items) && index < |items|
    ensures Unique(Without(items, index)) && View(Without(items, index)) == View(items) - {items[index].id}
  {
    hide *;
    WithoutContents(items, index);
    WithoutValues(items, index);
    assert View(Without(items, index)) == View(items) - {items[index].id};
  }

  lemma WithoutValues<P>(items: seq<Item<P>>, index: nat)
    requires Unique(items) && index < |items| && Unique(Without(items, index))
    ensures forall id :: Contains(Without(items, index), id) ==>
      Contains(items, id) && View(Without(items, index))[id] == View(items)[id]
  {
    var r := Without(items, index);
    forall id | Contains(r, id)
      ensures Contains(items, id) && View(r)[id] == View(items)[id]
    {
      var k :| 0 <= k < |r| && r[k].id == id;
      WithoutAt(items, index, k);
    }
  }

  lemma WithoutAt<P>(items: seq<Item<P>>, index: nat, k: nat)
    requires index < |items| && k < |items| - 1
    ensures Without(items, index)[k] == items[if k < index then k else k + 1]
  {
  }

  lemma WithoutContents<P>(items: seq<Item<P>>, index: nat)
    requires Unique(items) && index < |items|
    ensures Unique(Without(items, index))
    ensures forall id :: Contains(Without(items, index), id) <==> Contains(items, id) && id != items[index].id
  {
    var r := Without(items, index);
    assert forall k :: 0 <= k < |r| ==> r[k] == items[if k < index then k else k + 1];
    forall id
      ensures Contains(r, id) <==> Contains(items, id) && id != items[index].id
    {
      if i :| 0 <= i < |items| && items[i].id == id && i != index {
        assert r[if i < index then i else i - 1].id == id;
      }
    }
  }

  lemma UpdateView<P>(items: seq<Item<P>>, index: nat, body: P)
    requires Unique(items) && index < |items|
    ensures var r := items[index := items[index].(body := body)];
      Unique(r) && View(r) == View(items)[items[index].id := body]
  {
    UpdateContents(items, index, body);
    hide *;
    assert View(items[index := items[index].(body := body)]) == View(items)[items[index].id := body];
  }

  lemma UpdateContents<P>(items: seq<Item<P>>, index: nat, body: P)
    requires Unique(items) && index < |items|
    ensures var r := items[index := items[index].(body := body)];
      && Unique(r)
      && (forall id :: Contains(r, id) <==> Contains(items, id))
      && (forall id :: Contains(r, id) ==> View(r)[id] == if id == items[index].id then body else View(items)[id])
      && Contains(items, items[index].id)
  {
    var r := items[index := items[index].(body := body)];
    forall id
      ensures Contains(r, id) <==> Contains(items, id)
      ensures Contains(r, id) ==> View(r)[id] == if id == items[index].id then body else View(items)[id]
    {
      if i :| 0 <= i < |items| && items[i].id == id { assert r[i].id == id; }
    }
  }

  // --- Order ---

  ghost predicate Before<P(!new)>(items: seq<Item<P>>, x: Id, y: Id) {
    exists i, j :: 0 <= i < j < |items| && items[i].id == x && items[j].id == y
  }

  lemma PushKeepsOrder<P(!new)>(items: seq<Item<P>>, item: Item<P>, x: Id, y: Id)
    requires Before(items, x, y)
    ensures Before(items + [item], x, y)
  {
    var i, j :| 0 <= i < j < |items| && items[i].id == x && items[j].id == y;
    assert (items + [item])[i].id == x && (items + [item])[j].id == y;
  }

  lemma WithoutKeepsOrder<P(!new)>(items: seq<Item<P>>, index: nat, x: Id, y: Id)
    requires Before(items, x, y) && index < |items| && items[index].id != x && items[index].id != y
    ensures Before(Without(items, index), x, y)
  {
    var r := Without(items, index);
    var i, j :| 0 <= i < j < |items| && items[i].id == x && items[j].id == y;
    assert r[if i < index then i else i - 1].id == x && r[if j < index then j else j - 1].id == y;
  }

  lemma UpdateKeepsOrder<P(!new)>(items: seq<Item<P>>, index: nat, body: P, x: Id, y: Id)
    requires Before(items, x, y) && index < |items|
    ensures Before(items[index := items[index].(body := body)], x, y)
  {
    var r := items[index := items[index].(body := body)];
    var i, j :| 0 <= i < j < |items| && items[i].id == x && items[j].id == y;
    assert r[i].id == x && r[j].id == y;
  }
}
