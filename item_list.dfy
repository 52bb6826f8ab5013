/**
 * The ordered item list of app.js (the last item is drawn on top) and the
 * list operations its handlers perform: findIndex by id, splice out,
 * splice-and-push to the top, an in-place edit of the item with a given id,
 * and the top-down hit search.
 */
module ItemList {
  import opened Options
  import opened Items

  /** The ids of the items in the list. */
  function Ids(items: seq<Item>): set<Id>
  {
    set i | 0 <= i < |items| :: items[i].id
  }

  /** No two items share an id. */
  predicate UniqueIds(items: seq<Item>)
  {
    forall i, j :: 0 <= i < j < |items| ==> items[i].id != items[j].id
  }

  /** `items.findIndex(i => i.id === id)`: the first index holding that id, or -1. */
  function IndexOfId(items: seq<Item>, id: Id): (k: int)
    ensures -1 <= k < |items|
    ensures 0 <= k ==> items[k].id == id && forall j :: 0 <= j < k ==> items[j].id != id
    ensures k == -1 <==> id !in Ids(items)
  {
    if items == [] then -1
    else if items[0].id == id then 0
    else
      var k := IndexOfId(items[1..], id);
      assert forall j :: 1 <= j < |items| ==> items[j] == items[1..][j - 1];
      if k == -1 then -1 else k + 1
  }

  /** Reference definition: the items whose id differs from `id`, in their original order. */
  function Others(items: seq<Item>, id: Id): seq<Item>
  {
    if items == [] then []
    else (if items[0].id == id then [] else [items[0]]) + Others(items[1..], id)
  }

  /** `items.splice(findIndex(id), 1)` when the id is present; the list unchanged otherwise. */
  function Removed(items: seq<Item>, id: Id): (r: seq<Item>)
    ensures id !in Ids(items) ==> r == items
    ensures id in Ids(items) ==> |r| == |items| - 1
  {
    var k := IndexOfId(items, id);
    if k < 0 then items else items[..k] + items[k + 1..]
  }

  /** Splice the item with that id out and push it back, so that it is drawn on top. */
  function ToFront(items: seq<Item>, id: Id): (r: seq<Item>)
    ensures |r| == |items|
    ensures id !in Ids(items) ==> r == items
    ensures id in Ids(items) ==> r[|r| - 1].id == id
  {
    var k := IndexOfId(items, id);
    if k < 0 then items else items[..k] + items[k + 1..] + [items[k]]
  }

  /** The in-place field writes app.js makes on one item. */
  datatype Edit = SetScale(scale: real) | SetRotation(rotation: real) | MoveTo(x: real, y: real)

  function Apply(e: Edit, it: Item): (r: Item)
    ensures r.id == it.id && r.src == it.src && r.w == it.w && r.h == it.h
  {
    match e
    case SetScale(s) => it.(scale := s)
    case SetRotation(a) => it.(rotation := a)
    case MoveTo(x, y) => it.(x := x, y := y)
  }

  /** `items.find(i => i.id === id)` followed by a field write on the item found, if any. */
  function Edited(items: seq<Item>, id: Id, e: Edit): (r: seq<Item>)
    ensures |r| == |items|
    ensures forall j :: 0 <= j < |r| ==> r[j].id == items[j].id
    ensures id !in Ids(items) ==> r == items
  {
    var k := IndexOfId(items, id);
    if k < 0 then items else items[k := Apply(e, items[k])]
  }

  /**
   * Reference definition of the top-down scan of `findTopItemAt`: the index of
   * the last item hit by p, if any (TopHitSpec states what it is).
   */
  function TopHit(items: seq<Item>, p: Point, trig: Trig): (r: Option<nat>)
    ensures r.Some? ==> r.value < |items|
    decreases |items|
  {
    if items == [] then None
    else if PointInItem(p, items[|items| - 1], trig) then Some(|items| - 1)
    else TopHit(items[..|items| - 1], p, trig)
  }

  // ---------------------------------------------------------------------------
  // Properties of the list operations

  lemma {:induction false} OthersAppend(a: seq<Item>, b: seq<Item>, id: Id)
    ensures Others(a + b, id) == Others(a, id) + Others(b, id)
  {
    if a == [] {
      assert a + b == b;
    } else {
      assert (a + b)[1..] == a[1..] + b;
      OthersAppend(a[1..], b, id);
    }
  }

  lemma {:induction false} OthersAbsent(items: seq<Item>, id: Id)
    requires forall j :: 0 <= j < |items| ==> items[j].id != id
    ensures Others(items, id) == items
  {
    if items != [] {
      OthersAbsent(items[1..], id);
    }
  }

  /** Filtering out `id` around a single item carrying it keeps what lies on either side. */
  lemma {:induction false} OthersAroundOne(a: seq<Item>, it: Item, b: seq<Item>)
    requires forall j :: 0 <= j < |a| ==> a[j].id != it.id
    requires forall j :: 0 <= j < |b| ==> b[j].id != it.id
    ensures Others(a + [it] + b, it.id) == a + b
  {
    OthersAppend(a + [it], b, it.id);
    OthersAppend(a, [it], it.id);
    OthersAbsent(a, it.id);
    OthersAbsent(b, it.id);
    assert [it][1..] == [];
  }

  /** Filtering out the id at position k, which no other position carries, splices out position k. */
  lemma {:induction false} OthersAroundIndex(items: seq<Item>, k: nat)
    requires k < |items|
    requires forall j :: 0 <= j < |items| && j != k ==> items[j].id != items[k].id
    ensures Others(items, items[k].id) == items[..k] + items[k + 1..]
  {
    var a, b := items[..k], items[k + 1..];
    assert forall j :: 0 <= j < |a| ==> a[j] == items[j];
    assert forall j :: 0 <= j < |b| ==> b[j] == items[k + 1 + j];
    assert items == a + [items[k]] + b;
    OthersAroundOne(a, items[k], b);
  }

  /** In a list with unique ids, filtering out the id at position k splices out position k. */
  lemma SplitAt(items: seq<Item>, k: nat)
    requires UniqueIds(items) && k < |items|
    ensures Others(items, items[k].id) == items[..k] + items[k + 1..]
  {
    forall j | 0 <= j < |items| && j != k ensures items[j].id != items[k].id {
      if j < k {
        assert items[j].id != items[k].id;
      } else {
        assert items[k].id != items[j].id;
      }
    }
    OthersAroundIndex(items, k);
  }

  /** Splicing out position k of a list with unique ids removes exactly that item's id. */
  lemma SpliceIds(items: seq<Item>, k: nat)
    requires UniqueIds(items) && k < |items|
    ensures var r := items[..k] + items[k + 1..];
            UniqueIds(r) && Ids(r) == Ids(items) - {items[k].id}
  {
    var r := items[..k] + items[k + 1..];
    assert forall j :: 0 <= j < |r| ==> r[j] == items[if j < k then j else j + 1];
    forall x | x in Ids(items) - {items[k].id} ensures x in Ids(r) {
      var i :| 0 <= i < |items| && items[i].id == x;
      assert r[if i < k then i else i - 1].id == x;
    }
  }

  /**
   * Deleting by id removes exactly the items carrying that id, keeps every
   * other item in its original relative order, and keeps the ids unique.
   */
  lemma RemovedSpec(items: seq<Item>, id: Id)
    requires UniqueIds(items)
    ensures Removed(items, id) == Others(items, id)
    ensures Ids(Removed(items, id)) == Ids(items) - {id}
    ensures UniqueIds(Removed(items, id))
    ensures |Removed(items, id)| == if id in Ids(items) then |items| - 1 else |items|
  {
    if id in Ids(items) {
      SplitAt(items, IndexOfId(items, id));
      SpliceIds(items, IndexOfId(items, id));
    } else {
      OthersAbsent(items, id);
    }
  }

  /** Moving position k to the end permutes the list. */
  lemma MoveToEndPermutes(items: seq<Item>, k: nat)
    requires k < |items|
    ensures multiset(items[..k] + items[k + 1..] + [items[k]]) == multiset(items)
  {
    var a, b := items[..k], items[k + 1..];
    assert items == a + [items[k]] + b;
    calc {
      multiset(a + b + [items[k]]);
      multiset(a) + multiset(b) + multiset([items[k]]);
      multiset(a + [items[k]] + b);
    }
  }

  /** Bring-to-front permutes the items; an absent id leaves the list as it was. */
  lemma ToFrontPermutes(items: seq<Item>, id: Id)
    ensures multiset(ToFront(items, id)) == multiset(items)
    ensures id !in Ids(items) ==> ToFront(items, id) == items
  {
    var k := IndexOfId(items, id);
    if 0 <= k {
      MoveToEndPermutes(items, k);
    }
  }

  /** Bring-to-front keeps the ids and their uniqueness. */
  lemma ToFrontKeepsIds(items: seq<Item>, id: Id)
    requires UniqueIds(items)
    ensures UniqueIds(ToFront(items, id)) && Ids(ToFront(items, id)) == Ids(items)
  {
    var k := IndexOfId(items, id);
    if 0 <= k {
      var rest := items[..k] + items[k + 1..];
      SpliceIds(items, k);
      AppendFreshSpec(rest, items[k]);
    }
  }

  /**
   * Bring-to-front of a present id: that item ends last and all the others
   * keep their relative order before it.
   */
  lemma ToFrontOrder(items: seq<Item>, id: Id)
    requires UniqueIds(items) && id in Ids(items)
    ensures var r := ToFront(items, id);
            |r| == |items| && r[|r| - 1] == items[IndexOfId(items, id)] && r[|r| - 1].id == id &&
            r[..|r| - 1] == Others(items, id)
  {
    var k := IndexOfId(items, id);
    var rest := items[..k] + items[k + 1..];
    SplitAt(items, k);
    assert ToFront(items, id) == rest + [items[k]];
    assert (rest + [items[k]])[..|rest|] == rest;
  }

  /**
   * Bring-to-front: the item with that id ends last; all the others keep their
   * relative order before it; the items are the same (a permutation) and so
   * are the ids. An absent id leaves the list as it was.
   */
  lemma ToFrontSpec(items: seq<Item>, id: Id)
    requires UniqueIds(items)
    ensures var r := ToFront(items, id);
            multiset(r) == multiset(items) && Ids(r) == Ids(items) && UniqueIds(r)
    ensures id !in Ids(items) ==> ToFront(items, id) == items
    ensures id in Ids(items) ==>
              var r := ToFront(items, id);
              r[|r| - 1] == items[IndexOfId(items, id)] && r[|r| - 1].id == id &&
              r[..|r| - 1] == Others(items, id)
  {
    ToFrontPermutes(items, id);
    ToFrontKeepsIds(items, id);
    if id in Ids(items) {
      ToFrontOrder(items, id);
    }
  }

  /**
   * Editing by id changes only the item with that id (through Apply) and
   * leaves every other item, the order, the ids and their uniqueness as they were.
   */
  lemma EditedSpec(items: seq<Item>, id: Id, e: Edit)
    requires UniqueIds(items)
    ensures var r := Edited(items, id, e);
            |r| == |items| && Ids(r) == Ids(items) && UniqueIds(r) &&
            forall j :: 0 <= j < |r| ==> r[j] == if items[j].id == id then Apply(e, items[j]) else items[j]
  {
    var r := Edited(items, id, e);
    assert forall j :: 0 <= j < |r| ==> r[j].id == items[j].id;
    assert Ids(r) == Ids(items) by {
      forall x ensures x in Ids(r) <==> x in Ids(items) {
        if x in Ids(items) {
          var i :| 0 <= i < |items| && items[i].id == x;
          assert r[i].id == x;
        }
      }
    }
  }

  /** Appending an item with a fresh id keeps the ids unique and adds that id. */
  lemma AppendFreshSpec(items: seq<Item>, it: Item)
    requires UniqueIds(items) && it.id !in Ids(items)
    ensures UniqueIds(items + [it]) && Ids(items + [it]) == Ids(items) + {it.id}
  {
    var r := items + [it];
    forall i | 0 <= i < |items| ensures r[i].id != it.id {
      assert items[i].id in Ids(items);
    }
    assert Ids(r) == Ids(items) + {it.id} by {
      forall x | x in Ids(items) ensures x in Ids(r) {
        var i :| 0 <= i < |items| && items[i].id == x;
        assert r[i].id == x;
      }
      assert r[|items|].id == it.id;
    }
  }

  /**
   * `findTopItemAt` returns the hit item with the greatest index: no item
   * after it is hit, and it finds nothing exactly when no item is hit.
   */
  lemma {:induction false} TopHitSpec(items: seq<Item>, p: Point, trig: Trig)
    ensures var r := TopHit(items, p, trig);
            && (r.Some? ==> r.value < |items| && PointInItem(p, items[r.value], trig))
            && (r.Some? ==> forall j :: r.value < j < |items| ==> !PointInItem(p, items[j], trig))
            && (r.None? <==> forall j :: 0 <= j < |items| ==> !PointInItem(p, items[j], trig))
    decreases |items|
  {
    if items != [] && !PointInItem(p, items[|items| - 1], trig) {
      var below := items[..|items| - 1];
      TopHitSpec(below, p, trig);
      assert forall j :: 0 <= j < |below| ==> below[j] == items[j];
    }
  }

  /**
   * The hit test only looks at the offset from the item's centre: moving an
   * item by the pointer's travel from g to p keeps what was under g under p.
   * So an item dragged as pointer-move drags it stays hit at the pointer.
   */
  lemma MoveKeepsHit(g: Point, p: Point, it: Item, trig: Trig)
    ensures var moved := Apply(MoveTo(it.x + (p.x - g.x), it.y + (p.y - g.y)), it);
            PointInItem(p, moved, trig) <==> PointInItem(g, it, trig)
  {
  }
}
