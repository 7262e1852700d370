// PurchaseOrdersService as the code runs it: reads with their guards, the payload
// Map, the selection, and transactions that post, count, replace lines and set the
// status. Reads and transactions are methods of their own, so that the database may
// have changed in between.
module PurchaseOrderService {
  import opened Basics
  import opened Ledger
  import opened PurchaseOrders
  import opened Schema
  import opened Units
  import Batches

  method Create(db: Database, shipTo: Scope, status: Option<PoStatus>, inputs: seq<OrderInput>) returns (o: Outcome)
    modifies db`orders, db`nextId
    ensures (db.BooksView(), o) == CreateStep(old(db.BooksView()), shipTo, status, inputs)
  {
    if !InputsValid(inputs, db.catalog) {
      return BadRequest;
    }
    var prepared := Prepare(inputs, db.catalog);
    if !ProductsDistinct(prepared) {
      return Conflict;
    }
    var id := db.nextId;
    var po := Po(if shipTo != "" then shipTo else "WAREHOUSE", if status.Some? then status.value else Draft,
                 Insert(prepared, id + 1));
    db.orders := db.orders[id := po];
    db.nextId := id + 1 + |inputs|;
    o := Done(id);
  }

  // deleteMany, update, createMany; a repeated product rolls everything back.
  method CommitUpdate(db: Database, c: UpdateCall) returns (o: Outcome)
    modifies db`orders, db`nextId
    ensures (db.BooksView(), o) == UpdateCommit(old(db.BooksView()), c)
  {
    if c.order !in db.orders {
      return NotFound;
    }
    var orders0 := db.orders;
    var po := db.orders[c.order];
    if c.lines.Some? {
      db.orders := db.orders[c.order := po.(lines := [])];
    }
    db.orders := db.orders[c.order := db.orders[c.order].(
      shipTo := if c.shipTo.Some? then c.shipTo.value else po.shipTo, status := c.status)];
    if c.lines.Some? {
      if !ProductsDistinct(c.lines.value) {
        db.orders := orders0;
        return Conflict;
      }
      db.orders := db.orders[c.order := db.orders[c.order].(lines := Insert(c.lines.value, db.nextId))];
      db.nextId := db.nextId + |c.lines.value|;
    }
    o := Done(c.order);
    assert db.orders == orders0[c.order := db.orders[c.order]];
  }

  // With nobody between the read and the transaction.
  method Update(db: Database, id: nat, dto: UpdateDto) returns (o: Outcome)
    modifies db`orders, db`nextId
    ensures (db.BooksView(), o) == UpdateStep(old(db.BooksView()), id, dto)
  {
    if id !in db.orders {
      return NotFound;
    }
    var po := db.orders[id];
    if po.status == Received || po.status == Cancelled {
      return BadRequest;
    }
    var prepared: Option<seq<Prepared>> := None;
    if dto.lines.Some? {
      if AnyBaseReceived(po.lines) {
        return BadRequest;
      }
      if !InputsValid(dto.lines.value, db.catalog) {
        return BadRequest;
      }
      prepared := Some(Prepare(dto.lines.value, db.catalog));
    }
    o := CommitUpdate(db, UpdateCall(id, dto.shipTo, if dto.status.Some? then dto.status.value else po.status, prepared));
  }

  method Cancel(db: Database, id: nat) returns (o: Outcome)
    modifies db`orders
    ensures (db.BooksView(), o) == CancelStep(old(db.BooksView()), id)
  {
    if id !in db.orders {
      return NotFound;
    }
    db.orders := db.orders[id := db.orders[id].(status := Cancelled)];
    o := Done(id);
  }

  // ---- Receiving ----

  // Line id to quantity; a repeated id is refused.
  method BuildWant(lines: seq<ReceiveLine>) returns (want: Option<map<nat, int>>)
    ensures want == if LineIdsDistinct(lines) then Some(WantMap(lines)) else None
  {
    var m: map<nat, int> := map[];
    for i := 0 to |lines|
      invariant m == WantMap(lines[..i]) && LineIdsDistinct(lines[..i])
      invariant forall k :: k in m <==> exists j :: 0 <= j < i && lines[j].line == k
    {
      if lines[i].line in m {
        return None;
      }
      assert lines[..i + 1][..i] == lines[..i];
      m := m[lines[i].line := lines[i].quantity];
    }
    assert lines[..|lines|] == lines;
    want := Some(m);
  }

  // The order lines named by the payload, or nothing if a quantity is out of bounds.
  method SelectLines(lines: seq<PoLine>, want: map<nat, int>, catalog: map<ProductId, Product>) returns (picks: Option<seq<Pick>>)
    ensures picks == if WithinRemaining(lines, want) then Some(Picks(lines, want, catalog)) else None
  {
    var chosen: seq<Pick> := [];
    for i := 0 to |lines|
      invariant chosen == Picks(lines[..i], want, catalog) && WithinRemaining(lines[..i], want)
    {
      var line := lines[i];
      assert lines[..i + 1][..i] == lines[..i] && lines[..i + 1][i] == line;
      assert line in lines;
      if line.id in want {
        var quantity := want[line.id];
        var remaining := if line.ordered - line.received > 0 then line.ordered - line.received else 0;
        if quantity <= 0 || quantity > remaining {
          return None;
        }
        chosen := chosen + [Pick(line.id, line.product, quantity, ToBase(quantity as real, OrderingFactor(catalog, line.product)))];
      }
    }
    assert lines[..|lines|] == lines;
    picks := Some(chosen);
  }

  method FilterUnposted(picks: seq<Pick>, id: nat, batch: PoBatch, posted: set<Key>) returns (todo: seq<Pick>)
    ensures todo == Unposted(picks, id, batch, posted)
  {
    todo := [];
    for i := 0 to |picks|
      invariant todo == Unposted(picks[..i], id, batch, posted)
    {
      assert picks[..i + 1][..i] == picks[..i];
      if PickKey(id, batch, picks[i]) !in posted {
        todo := todo + [picks[i]];
      }
    }
    assert picks[..|picks|] == picks;
  }

  // update ... increment on one order line.
  function IncrementLine(lines: seq<PoLine>, p: Pick): (r: seq<PoLine>)
    ensures |r| == |lines|
  {
    seq(|lines|, i requires 0 <= i < |lines| =>
      if lines[i].id == p.line
      then lines[i].(received := lines[i].received + p.quantity, receivedBase := lines[i].receivedBase + p.base)
      else lines[i])
  }

  lemma {:induction false} IncrementSnoc(lines: seq<PoLine>, picks: seq<Pick>, i: nat)
    requires i < |picks|
    ensures Increment(lines, picks[..i + 1]) == IncrementLine(Increment(lines, picks[..i]), picks[i])
  {
    assert picks[..i + 1][..i] == picks[..i] && picks[..i + 1][i] == picks[i];
  }

  lemma {:induction false} PickPostingsSnoc(st: Store, mid: Store, picks: seq<Pick>, id: nat, batch: PoBatch, i: nat)
    requires i < |picks| && PostAll(st, PickPostings(picks[..i], id, batch)) == Some(mid)
    ensures var p := PickPostings(picks, id, batch)[i];
      && PostAll(st, PickPostings(picks[..i + 1], id, batch)) == (if p.key in Keys(mid.ledger) then None else Some(Append(mid, p)))
      && (p.key in Keys(mid.ledger) ==> PostAll(st, PickPostings(picks, id, batch)).None?)
  {
    var ps := PickPostings(picks, id, batch);
    assert PickPostings(picks[..i], id, batch) == ps[..i];
    assert PickPostings(picks[..i + 1], id, batch) == ps[..i + 1];
    assert ps[..i + 1][..i] == ps[..i];
    PostAllPrefix(st, ps, i + 1);
  }

  predicate HasLine(lines: seq<PoLine>, p: Pick) { exists l | l in lines :: l.id == p.line }

  // The first i picks went through.
  ghost predicate PostedSoFar(st: Store, lines: seq<PoLine>, todo: seq<Pick>, id: nat, batch: PoBatch, i: nat, mid: Store, lines': seq<PoLine>)
    requires i <= |todo|
  {
    && PostAll(st, PickPostings(todo[..i], id, batch)) == Some(mid)
    && lines' == Increment(lines, todo[..i]) && LinesPresent(lines, todo[..i])
  }

  lemma {:induction false} NothingPicked(st: Store, lines: seq<PoLine>, todo: seq<Pick>, id: nat, batch: PoBatch)
    ensures PostedSoFar(st, lines, todo, id, batch, 0, st, lines)
  {
    assert todo[..0] == [];
    assert Increment(lines, []) == lines;
  }

  lemma {:induction false} OneMorePicked(st: Store, lines: seq<PoLine>, todo: seq<Pick>, id: nat, batch: PoBatch, i: nat, mid: Store, lines': seq<PoLine>)
    requires i < |todo| && PostedSoFar(st, lines, todo, id, batch, i, mid, lines')
    ensures var p := PickPostings(todo, id, batch)[i];
      && (p.key in Keys(mid.ledger) ==> PostAll(st, PickPostings(todo, id, batch)).None?)
      && (!HasLine(lines', todo[i]) ==> !LinesPresent(lines, todo))
      && (p.key !in Keys(mid.ledger) && HasLine(lines', todo[i]) ==>
            PostedSoFar(st, lines, todo, id, batch, i + 1, Append(mid, p), IncrementLine(lines', todo[i])))
  {
    hide PostAll, Increment, IncrementLine, PickPostings;
    PickPostingsSnoc(st, mid, todo, id, batch, i);
    IncrementSnoc(lines, todo, i);
    SameIds(lines, todo[..i], todo[i]);
    assert todo[..i + 1] == todo[..i] + [todo[i]] && todo[i] in todo;
  }

  lemma {:induction false} SameIds(lines: seq<PoLine>, picks: seq<Pick>, p: Pick)
    ensures HasLine(Increment(lines, picks), p) <==> HasLine(lines, p)
  {
    hide QuantityFor, BaseFor;
    var more := Increment(lines, picks);
    if l :| l in lines && l.id == p.line {
      var i :| 0 <= i < |lines| && lines[i] == l;
      assert more[i] in more;
    }
    if m :| m in more && m.id == p.line {
      var i :| 0 <= i < |more| && more[i] == m;
      assert lines[i] in lines;
    }
  }

  // The transaction's loop: balance, entry and counters of each line in turn; a line
  // that is gone fails like a taken key.
  method PostPicks(db: Database, id: nat, todo: seq<Pick>, batch: PoBatch) returns (ok: bool)
    requires id in db.orders
    modifies db`ledger, db`balances, db`orders
    ensures var po, posted := old(db.orders)[id], PostAll(old(db.StoreView()), PickPostings(todo, id, batch));
      && ok == (posted.Some? && LinesPresent(po.lines, todo))
      && (ok ==> db.StoreView() == posted.value)
      && (ok ==> db.orders == old(db.orders)[id := po.(lines := Increment(po.lines, todo))])
  {
    hide PostAll, Increment, PickPostings, IncrementLine, PostedSoFar, LinesPresent, HasLine;
    ghost var st, po := db.StoreView(), db.orders[id];
    NothingPicked(st, po.lines, todo, id, batch);
    for i := 0 to |todo|
      invariant id in db.orders && db.orders == old(db.orders)[id := po.(lines := db.orders[id].lines)]
      invariant PostedSoFar(st, po.lines, todo, id, batch, i, db.StoreView(), db.orders[id].lines)
    {
      OneMorePicked(st, po.lines, todo, id, batch, i, db.StoreView(), db.orders[id].lines);
      var posted := db.Post(PickPostings(todo, id, batch)[i]);
      if !posted {
        return false;
      }
      var lines := db.orders[id].lines;
      if !HasLine(lines, todo[i]) {
        return false;
      }
      db.orders := db.orders[id := db.orders[id].(lines := IncrementLine(lines, todo[i]))];
    }
    AllPicked(st, po.lines, todo, id, batch, db.StoreView(), db.orders[id].lines);
    ok := true;
  }

  lemma {:induction false} AllPicked(st: Store, lines: seq<PoLine>, todo: seq<Pick>, id: nat, batch: PoBatch, mid: Store, lines': seq<PoLine>)
    requires PostedSoFar(st, lines, todo, id, batch, |todo|, mid, lines')
    ensures PostAll(st, PickPostings(todo, id, batch)) == Some(mid) && lines' == Increment(lines, todo) && LinesPresent(lines, todo)
  {
    assert todo[..|todo|] == todo;
  }

  // The reads of a receive: the order with its guards, then the keys.
  method ReadForReceipt(db: Database, id: nat, dto: ReceiveDto) returns (r: Selection)
    ensures r == ReadOrder(db.BooksView(), id, dto)
  {
    hide Picks, WithinRemaining, LineIdsDistinct, WantMap, BatchLines;
    if id !in db.orders {
      return Refuse(NotFound);
    }
    var po := db.orders[id];
    if po.status == Cancelled || po.status == Received {
      return Refuse(BadRequest);
    }
    if dto.day.None? {
      return Refuse(BadRequest);
    }
    var scope := if dto.scope.Some? then dto.scope.value else po.shipTo;
    var want := BuildWant(dto.lines);
    if want.None? {
      return Refuse(BadRequest);
    }
    var picks := SelectLines(po.lines, want.value, db.catalog);
    if picks.None? || picks.value == [] {
      return Refuse(BadRequest);
    }
    r := Selected(ReceiveCall(id, po.status, PoBatch(id, scope, dto.day.value, BatchLines(picks.value)), picks.value, None));
  }

  // The transaction of a receive, at any later time.
  method CommitReceipt(db: Database, c: ReceiveCall) returns (o: Outcome)
    requires c.todo.Some?
    modifies db`ledger, db`balances, db`orders, db`receipts
    ensures (db.BooksView(), o) == ReceiveCommit(old(db.BooksView()), c)
  {
    hide PostAll, Increment, PickPostings, StatusAfter, LinesPresent;
    var todo := c.todo.value;
    if c.order !in db.orders {
      return NotFound;
    }
    if todo == [] {
      return Posted(0, |c.picks|);
    }
    var ledger0, balances0, orders0, receipts0 := db.ledger, db.balances, db.orders, db.receipts;
    db.receipts := db.receipts + PickReceipts(todo, c.order);
    var ok := PostPicks(db, c.order, todo, c.batch);
    if !ok {
      db.Rollback(ledger0, balances0);
      db.orders, db.receipts := orders0, receipts0;
      return Conflict;
    }
    db.orders := db.orders[c.order := db.orders[c.order].(status := StatusAfter(db.orders[c.order].lines, c.status))];
    assert db.orders == orders0[c.order := orders0[c.order].(lines := db.orders[c.order].lines, status := db.orders[c.order].status)];
    o := Posted(|todo|, if |c.picks| >= |todo| then |c.picks| - |todo| else 0);
  }

  // With nobody in between.
  method Receive(db: Database, id: nat, dto: ReceiveDto) returns (o: Outcome)
    modifies db`ledger, db`balances, db`orders, db`receipts
    ensures (db.BooksView(), o) == ReceiveStep(old(db.BooksView()), id, dto)
  {
    hide ReadOrder, ReceiveCommit, Unposted;
    var read := ReadForReceipt(db, id, dto);
    if read.Refuse? {
      return read.outcome;
    }
    var c := read.call;
    var todo := FilterUnposted(c.picks, c.order, c.batch, Keys(db.ledger));
    o := CommitReceipt(db, c.(todo := Some(todo)));
  }
}
