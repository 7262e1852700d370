// The audit discrepancy report: counted lines and opening adjustments merged into
// one row per product.
module Discrepancy {
  import opened Basics
  import opened Ledger

  datatype Item = Item(product: ProductId, delta: int, at: int)
  datatype Row = Row(count: nat, net: int, absolute: int, first: int, last: int)

  // The items of one product.
  function Of(items: seq<Item>, product: ProductId): seq<Item> {
    if items == [] then [] else
      Of(items[..|items| - 1], product) + (if items[|items| - 1].product == product then [items[|items| - 1]] else [])
  }

  function NetOf(items: seq<Item>): int {
    if items == [] then 0 else NetOf(items[..|items| - 1]) + items[|items| - 1].delta
  }

  function AbsoluteOf(items: seq<Item>): int {
    if items == [] then 0 else AbsoluteOf(items[..|items| - 1]) + Abs(items[|items| - 1].delta)
  }

  // How many, their sums, and the earliest and latest time among them.
  ghost predicate Summarizes(r: Row, items: seq<Item>) {
    && items != []
    && r.count == |items| && r.net == NetOf(items) && r.absolute == AbsoluteOf(items)
    && (forall i | i in items :: r.first <= i.at <= r.last)
    && (exists i :: i in items && i.at == r.first)
    && (exists i :: i in items && i.at == r.last)
  }

  ghost predicate Reports(rows: map<ProductId, Row>, items: seq<Item>) {
    && (forall p | p in rows :: Summarizes(rows[p], Of(items, p)))
    && forall i | i in items :: i.product in rows
  }

  function Added(r: Row, i: Item): Row {
    Row(r.count + 1, r.net + i.delta, r.absolute + Abs(i.delta),
        if i.at < r.first then i.at else r.first, if i.at > r.last then i.at else r.last)
  }

  lemma {:induction false} SummaryGrows(r: Row, items: seq<Item>, i: Item)
    requires Summarizes(r, items)
    ensures Summarizes(Added(r, i), items + [i])
  {
    var more := items + [i];
    assert more[..|items|] == items && i in more;
    var a :| a in items && a.at == r.first;
    var b :| b in items && b.at == r.last;
    assert a in more && b in more;
  }

  lemma {:induction false} SummaryStarts(i: Item)
    ensures Summarizes(Row(1, i.delta, Abs(i.delta), i.at, i.at), [i])
  {
    assert [i][..0] == [] && i in [i];
  }

  lemma {:induction false} NoneOf(items: seq<Item>, product: ProductId)
    requires forall i | i in items :: i.product != product
    ensures Of(items, product) == []
  {
    if items != [] { NoneOf(items[..|items| - 1], product); }
  }

  lemma {:induction false} OfMore(items: seq<Item>, i: Item, product: ProductId)
    ensures Of(items + [i], product) == if product == i.product then Of(items, product) + [i] else Of(items, product)
  {
    assert (items + [i])[..|items|] == items;
    assert Of(items, product) + [] == Of(items, product);
  }

  lemma {:induction false} ReportsMore(rows: map<ProductId, Row>, items: seq<Item>, i: Item, row: Row)
    requires Reports(rows, items) && Summarizes(row, Of(items, i.product) + [i])
    ensures Reports(rows[i.product := row], items + [i])
  {
    hide Of, Summarizes;
    forall p ensures Of(items + [i], p) == if p == i.product then Of(items, p) + [i] else Of(items, p) { OfMore(items, i, p); }
  }

  method Merge(rows: map<ProductId, Row>, ghost items: seq<Item>, i: Item) returns (rows': map<ProductId, Row>)
    requires Reports(rows, items)
    ensures Reports(rows', items + [i])
  {
    hide Of, Summarizes;
    var row := if i.product in rows then Added(rows[i.product], i) else Row(1, i.delta, Abs(i.delta), i.at, i.at);
    if i.product in rows {
      SummaryGrows(rows[i.product], Of(items, i.product), i);
    } else {
      NoneOf(items, i.product);
      SummaryStarts(i);
      assert [] + [i] == [i];
    }
    ReportsMore(rows, items, i, row);
    rows' := rows[i.product := row];
  }

  // One loop over the counted lines, one over the opening adjustments.
  method Report(lines: seq<Item>, adjustments: seq<Item>) returns (rows: map<ProductId, Row>)
    ensures Reports(rows, lines + adjustments)
  {
    rows := map[];
    for k := 0 to |lines|
      invariant Reports(rows, lines[..k])
    {
      rows := Merge(rows, lines[..k], lines[k]);
      assert lines[..k + 1] == lines[..k] + [lines[k]];
    }
    assert lines[..|lines|] == lines && lines + adjustments[..0] == lines;
    for k := 0 to |adjustments|
      invariant Reports(rows, lines + adjustments[..k])
    {
      rows := Merge(rows, lines + adjustments[..k], adjustments[k]);
      assert lines + adjustments[..k + 1] == lines + adjustments[..k] + [adjustments[k]];
    }
    assert adjustments[..|adjustments|] == adjustments;
  }

  // The net never exceeds the absolute discrepancy, and reaches it exactly when no
  // two deltas of the product have opposite signs.
  lemma {:induction false} NetWithinAbsolute(items: seq<Item>)
    ensures Abs(NetOf(items)) <= AbsoluteOf(items)
    ensures Abs(NetOf(items)) == AbsoluteOf(items) <==>
            (forall i | i in items :: i.delta >= 0) || (forall i | i in items :: i.delta <= 0)
  {
    SignedSums(items);
  }

  // Positive and negative parts.
  function Gains(items: seq<Item>): nat {
    if items == [] then 0 else Gains(items[..|items| - 1]) + (if items[|items| - 1].delta > 0 then items[|items| - 1].delta else 0)
  }

  function Losses(items: seq<Item>): nat {
    if items == [] then 0 else Losses(items[..|items| - 1]) + (if items[|items| - 1].delta < 0 then -items[|items| - 1].delta else 0)
  }

  lemma {:induction false} SignedSums(items: seq<Item>)
    ensures NetOf(items) == Gains(items) - Losses(items) && AbsoluteOf(items) == Gains(items) + Losses(items)
    ensures Gains(items) == 0 <==> forall i | i in items :: i.delta <= 0
    ensures Losses(items) == 0 <==> forall i | i in items :: i.delta >= 0
  {
    if items != [] {
      var front, last := items[..|items| - 1], items[|items| - 1];
      SignedSums(front);
      assert items == front + [last];
    }
  }
}
