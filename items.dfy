/**
 * The item edits of the proposal form (App.tsx) and the total shown for a
 * proposal. Each edit is a map or filter over an immutable copy of the items.
 */
module Items {
  import opened Types

  /** The item "NOVO ITEM" appends, and the single item of a new proposal. */
  function BlankItem(id: string): ProposalItem
  {
    ProposalItem(id, "", 1.0, 0.0, 0.0)
  }

  predicate LineTotalOk(item: ProposalItem)
  {
    item.total == item.qty * item.unit
  }

  predicate LineTotalsOk(items: seq<ProposalItem>)
  {
    forall k :: 0 <= k < |items| ==> LineTotalOk(items[k])
  }

  predicate UniqueItemIds(items: seq<ProposalItem>)
  {
    forall i, j :: 0 <= i < j < |items| ==> items[i].id != items[j].id
  }

  function CountItemId(items: seq<ProposalItem>, id: string): nat
  {
    if items == [] then 0 else (if items[0].id == id then 1 else 0) + CountItemId(items[1..], id)
  }

  /** `parseFloat(v) || 0`: an unparseable input (NaN, given as None) becomes 0. */
  function NumberOrZero(parsed: Option<real>): real
  {
    if parsed.Some? then parsed.value else 0.0
  }

  /** The aggregate total: `items.reduce((acc, i) => acc + i.total, 0)`, a left fold. */
  function Total(items: seq<ProposalItem>): real
  {
    if items == [] then 0.0 else Total(items[..|items| - 1]) + items[|items| - 1].total
  }

  /** Sum of qty * unit over the items, summed from the front: the price the lines describe. */
  function PriceOfLines(items: seq<ProposalItem>): real
  {
    if items == [] then 0.0 else items[0].qty * items[0].unit + PriceOfLines(items[1..])
  }

  /** Sum of the line totals of the items carrying `id`. */
  function TotalWhereId(items: seq<ProposalItem>, id: string): real
  {
    if items == [] then 0.0
    else (if items[0].id == id then items[0].total else 0.0) + TotalWhereId(items[1..], id)
  }

  /** The index of the first item carrying `id` (Array.prototype.find), if any. */
  function FindItem(items: seq<ProposalItem>, id: string): (r: Option<nat>)
    ensures r.Some? ==> r.value < |items| && items[r.value].id == id
    ensures r.Some? ==> forall j :: 0 <= j < r.value ==> items[j].id != id
    ensures r.None? ==> forall j :: 0 <= j < |items| ==> items[j].id != id
  {
    if items == [] then None
    else if items[0].id == id then Some(0)
    else match FindItem(items[1..], id)
      case None => None
      case Some(k) => Some(k + 1)
  }

  /** `items.map(i => i.id === id ? f(i) : i)`. */
  function MapWhereId(items: seq<ProposalItem>, id: string, f: ProposalItem -> ProposalItem): (r: seq<ProposalItem>)
    ensures |r| == |items|
    ensures forall k :: 0 <= k < |items| && items[k].id == id ==> r[k] == f(items[k])
    ensures forall k :: 0 <= k < |items| && items[k].id != id ==> r[k] == items[k]
  {
    if items == [] then []
    else [if items[0].id == id then f(items[0]) else items[0]] + MapWhereId(items[1..], id, f)
  }

  /** Description edit, also used to store a rewritten description. */
  function SetDesc(items: seq<ProposalItem>, id: string, v: string): (r: seq<ProposalItem>)
    ensures |r| == |items|
    ensures forall k :: 0 <= k < |items| && items[k].id == id ==> r[k] == items[k].(desc := v)
    ensures forall k :: 0 <= k < |items| && items[k].id != id ==> r[k] == items[k]
    ensures LineTotalsOk(items) ==> LineTotalsOk(r)
  {
    var r := MapWhereId(items, id, (i: ProposalItem) => i.(desc := v));
    assert forall k :: 0 <= k < |r| ==> r[k].(desc := items[k].desc) == items[k];
    r
  }

  /** Quantity edit: qty := q and total := q * unit on the items carrying `id`. */
  function SetQty(items: seq<ProposalItem>, id: string, q: real): (r: seq<ProposalItem>)
    ensures |r| == |items|
    ensures forall k :: 0 <= k < |items| && items[k].id == id ==>
      r[k] == items[k].(qty := q, total := q * items[k].unit) && LineTotalOk(r[k])
    ensures forall k :: 0 <= k < |items| && items[k].id != id ==> r[k] == items[k]
    ensures LineTotalsOk(items) ==> LineTotalsOk(r)
  {
    MapWhereId(items, id, (i: ProposalItem) => i.(qty := q, total := q * i.unit))
  }

  /**
   * Price edit of the item rendered at index k: unit := u on the items carrying
   * its id, with total computed from the qty captured when it was rendered.
   */
  function SetUnit(items: seq<ProposalItem>, k: nat, u: real): (r: seq<ProposalItem>)
    requires k < |items|
    ensures |r| == |items|
    ensures r[k] == items[k].(unit := u, total := items[k].qty * u) && LineTotalOk(r[k])
    ensures forall j :: 0 <= j < |items| && items[j].id == items[k].id ==>
      r[j] == items[j].(unit := u, total := items[k].qty * u)
    ensures forall j :: 0 <= j < |items| && items[j].id != items[k].id ==> r[j] == items[j]
  {
    var captured := items[k].qty;
    MapWhereId(items, items[k].id, (i: ProposalItem) => i.(unit := u, total := captured * u))
  }

  /** "NOVO ITEM": append a blank item. */
  function AddItem(items: seq<ProposalItem>, newId: string): (r: seq<ProposalItem>)
    ensures |r| == |items| + 1 && r[..|items|] == items
    ensures r[|items|].id == newId && r[|items|].desc == ""
    ensures r[|items|].qty == 1.0 && r[|items|].unit == 0.0 && r[|items|].total == 0.0
    ensures LineTotalsOk(items) ==> LineTotalsOk(r)
    ensures Total(r) == Total(items)
  {
    items + [BlankItem(newId)]
  }

  /** `items.filter(i => i.id !== id)`. */
  function FilterId(items: seq<ProposalItem>, id: string): (r: seq<ProposalItem>)
    ensures |r| == |items| - CountItemId(items, id)
    ensures forall x :: x in r <==> x in items && x.id != id
  {
    if items == [] then []
    else if items[0].id == id then FilterId(items[1..], id)
    else [items[0]] + FilterId(items[1..], id)
  }

  /** Filtering keeps order: it distributes over concatenation. */
  lemma {:induction false} FilterIdAppend(a: seq<ProposalItem>, b: seq<ProposalItem>, id: string)
    ensures FilterId(a + b, id) == FilterId(a, id) + FilterId(b, id)
  {
    if a == [] {
      assert a + b == b;
    } else {
      assert (a + b)[1..] == a[1..] + b;
      FilterIdAppend(a[1..], b, id);
      if a[0].id != id {
        var ra, rb := FilterId(a[1..], id), FilterId(b, id);
        assert [a[0]] + (ra + rb) == ([a[0]] + ra) + rb;
      }
    }
  }

  /** The remove button is offered only while more than one item exists. */
  function RemoveItem(items: seq<ProposalItem>, id: string): (r: seq<ProposalItem>)
    ensures |items| <= 1 ==> r == items
    ensures |items| > 1 ==> forall x :: x in r <==> x in items && x.id != id
    ensures LineTotalsOk(items) ==> LineTotalsOk(r)
  {
    if |items| > 1 then FilterId(items, id) else items
  }

  lemma {:induction false} TotalAppend(a: seq<ProposalItem>, b: seq<ProposalItem>)
    ensures Total(a + b) == Total(a) + Total(b)
  {
    if b != [] {
      var ab := a + b;
      assert ab[..|ab| - 1] == a + b[..|b| - 1];
      TotalAppend(a, b[..|b| - 1]);
    } else {
      assert a + b == a;
    }
  }

  /** When every line total is qty * unit, the displayed total is the price of the lines. */
  lemma {:induction false} TotalIsPriceOfLines(items: seq<ProposalItem>)
    requires LineTotalsOk(items)
    ensures Total(items) == PriceOfLines(items)
  {
    if items != [] {
      assert items == [items[0]] + items[1..];
      TotalCons(items[0], items[1..]);
      TotalIsPriceOfLines(items[1..]);
    }
  }

  /** Changing one item changes the total by the change in that item's line total. */
  lemma TotalUpdate(items: seq<ProposalItem>, k: nat, x: ProposalItem)
    requires k < |items|
    ensures Total(items[k := x]) == Total(items) - items[k].total + x.total
  {
    var pre, post := items[..k], items[k + 1..];
    assert items == pre + [items[k]] + post;
    assert items[k := x] == pre + [x] + post;
    TotalAppend(pre + [items[k]], post);
    TotalAppend(pre + [x], post);
    TotalAppend(pre, [items[k]]);
    TotalAppend(pre, [x]);
    assert [x][..0] == [] && [items[k]][..0] == [];
  }

  lemma UniqueItemIdsAt(items: seq<ProposalItem>, k: nat)
    requires UniqueItemIds(items) && k < |items|
    ensures forall j :: 0 <= j < |items| && items[j].id == items[k].id ==> j == k
  {
  }

  /** With unique item ids, a quantity edit changes exactly one position. */
  lemma SetQtyAt(items: seq<ProposalItem>, k: nat, q: real)
    requires UniqueItemIds(items) && k < |items|
    ensures SetQty(items, items[k].id, q) == items[k := items[k].(qty := q, total := q * items[k].unit)]
  {
    UniqueItemIdsAt(items, k);
  }

  /** With unique item ids, a quantity edit changes the total by exactly that line's change. */
  lemma SetQtyTotal(items: seq<ProposalItem>, k: nat, q: real)
    requires UniqueItemIds(items) && k < |items|
    ensures Total(SetQty(items, items[k].id, q)) == Total(items) - items[k].total + q * items[k].unit
  {
    SetQtyAt(items, k, q);
    TotalUpdate(items, k, items[k].(qty := q, total := q * items[k].unit));
  }

  /** With unique item ids the captured qty is the current one, so every line total stays qty * unit. */
  lemma SetUnitKeepsLineTotals(items: seq<ProposalItem>, k: nat, u: real)
    requires UniqueItemIds(items) && LineTotalsOk(items) && k < |items|
    ensures LineTotalsOk(SetUnit(items, k, u))
    ensures Total(SetUnit(items, k, u)) == Total(items) - items[k].total + items[k].qty * u
  {
    var r := SetUnit(items, k, u);
    UniqueItemIdsAt(items, k);
    assert r == items[k := r[k]];
    TotalUpdate(items, k, r[k]);
  }

  predicate HasItemId(items: seq<ProposalItem>, id: string)
  {
    exists k :: 0 <= k < |items| && items[k].id == id
  }

  /** With unique item ids an id occurs once when present and not at all otherwise. */
  lemma {:induction false} CountItemIdUnique(items: seq<ProposalItem>, id: string)
    requires UniqueItemIds(items)
    ensures CountItemId(items, id) == if HasItemId(items, id) then 1 else 0
  {
    if items != [] {
      var tail := items[1..];
      assert forall j :: 0 <= j < |tail| ==> tail[j] == items[j + 1];
      assert UniqueItemIds(tail);
      CountItemIdUnique(tail, id);
      assert HasItemId(items, id) <==> items[0].id == id || HasItemId(tail, id) by {
        if HasItemId(items, id) && items[0].id != id {
          var k :| 0 <= k < |items| && items[k].id == id;
          assert tail[k - 1].id == id;
        }
      }
      if items[0].id == id {
        assert !HasItemId(tail, id);
      }
    }
  }

  /** The invariant of the items of a proposal being edited. */
  predicate WellFormedItems(items: seq<ProposalItem>)
  {
    |items| >= 1 && LineTotalsOk(items) && UniqueItemIds(items)
  }

  lemma SameIdsKeepUnique(a: seq<ProposalItem>, b: seq<ProposalItem>)
    requires |a| == |b| && forall k :: 0 <= k < |a| ==> a[k].id == b[k].id
    requires UniqueItemIds(a)
    ensures UniqueItemIds(b)
  {
    forall i, j | 0 <= i < j < |b| ensures b[i].id != b[j].id {
      assert a[i].id != a[j].id;
    }
  }

  lemma SetDescKeepsWellFormed(items: seq<ProposalItem>, id: string, v: string)
    requires WellFormedItems(items)
    ensures WellFormedItems(SetDesc(items, id, v))
  {
    var r := SetDesc(items, id, v);
    SameIdsKeepUnique(items, r);
  }

  lemma SetQtyKeepsWellFormed(items: seq<ProposalItem>, id: string, q: real)
    requires WellFormedItems(items)
    ensures WellFormedItems(SetQty(items, id, q))
  {
    var r := SetQty(items, id, q);
    SameIdsKeepUnique(items, r);
  }

  lemma SetUnitKeepsWellFormed(items: seq<ProposalItem>, k: nat, u: real)
    requires WellFormedItems(items) && k < |items|
    ensures WellFormedItems(SetUnit(items, k, u))
  {
    var r := SetUnit(items, k, u);
    SetUnitKeepsLineTotals(items, k, u);
    assert forall j :: 0 <= j < |items| ==> r[j].id == items[j].id;
    SameIdsKeepUnique(items, r);
  }

  /** Appending a blank item with a fresh id keeps the invariant. */
  lemma AddItemKeepsWellFormed(items: seq<ProposalItem>, newId: string)
    requires WellFormedItems(items) && !HasItemId(items, newId)
    ensures WellFormedItems(AddItem(items, newId))
  {
    var r := AddItem(items, newId);
    forall i, j | 0 <= i < j < |r| ensures r[i].id != r[j].id {
      assert r[i] == items[i];
      if j < |items| { assert r[j] == items[j]; }
    }
  }

  lemma {:induction false} FilterIdKeepsUnique(items: seq<ProposalItem>, id: string)
    requires UniqueItemIds(items)
    ensures UniqueItemIds(FilterId(items, id))
  {
    if items != [] {
      var tail := items[1..];
      assert forall j :: 0 <= j < |tail| ==> tail[j] == items[j + 1];
      assert UniqueItemIds(tail);
      FilterIdKeepsUnique(tail, id);
      if items[0].id != id {
        var rest := FilterId(tail, id);
        forall k | 0 <= k < |rest| ensures rest[k].id != items[0].id {
          assert rest[k] in rest;
          var j :| 0 <= j < |tail| && tail[j] == rest[k];
        }
      }
    }
  }

  /**
   * Removing keeps the invariant, so the list is never emptied; a present id
   * shortens a list of two or more items by exactly one.
   */
  lemma RemoveItemKeepsWellFormed(items: seq<ProposalItem>, id: string)
    requires WellFormedItems(items)
    ensures WellFormedItems(RemoveItem(items, id))
    ensures |items| > 1 && HasItemId(items, id) ==> |RemoveItem(items, id)| == |items| - 1
  {
    if |items| > 1 {
      var r := FilterId(items, id);
      CountItemIdUnique(items, id);
      FilterIdKeepsUnique(items, id);
      forall k | 0 <= k < |r| ensures LineTotalOk(r[k]) {
        assert r[k] in r;
      }
    }
  }

  /** Folding from the left or peeling the first item gives the same total. */
  lemma TotalCons(x: ProposalItem, rest: seq<ProposalItem>)
    ensures Total([x] + rest) == x.total + Total(rest)
  {
    TotalAppend([x], rest);
    assert [x][..0] == [];
  }

  /** The total drops by the line totals of the removed items. */
  lemma {:induction false} FilterIdTotal(items: seq<ProposalItem>, id: string)
    ensures Total(items) == Total(FilterId(items, id)) + TotalWhereId(items, id)
  {
    if items != [] {
      var x, rest := items[0], items[1..];
      FilterIdTotal(rest, id);
      assert items == [x] + rest;
      TotalCons(x, rest);
      if x.id != id {
        TotalCons(x, FilterId(rest, id));
      }
    }
  }

  /** A description edit leaves the total alone. */
  lemma SetDescTotal(items: seq<ProposalItem>, id: string, v: string)
    ensures Total(SetDesc(items, id, v)) == Total(items)
  {
    var r := SetDesc(items, id, v);
    assert forall k :: 0 <= k < |items| ==> r[k].total == items[k].total;
    TotalSameLines(items, r);
  }

  lemma {:induction false} TotalSameLines(a: seq<ProposalItem>, b: seq<ProposalItem>)
    requires |a| == |b| && forall k :: 0 <= k < |a| ==> a[k].total == b[k].total
    ensures Total(a) == Total(b)
  {
    if a != [] {
      TotalSameLines(a[..|a| - 1], b[..|b| - 1]);
    }
  }
}
