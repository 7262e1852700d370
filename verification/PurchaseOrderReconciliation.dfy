// Three-way reconciliation of a purchase order, and its bound by what was ordered:
// what every interleaving keeps, and exactly which commits break it.
module PurchaseOrderReconciliation {
  import opened Basics
  import opened Ledger
  import opened Units
  import opened PurchaseOrders
  import opened PurchaseOrderRuns

  // ---- Counters, ledger and receipts ----

  ghost predicate LineReconciled(st: Store, receipts: seq<ReceiptLine>, id: nat, l: PoLine) {
    && l.receivedBase == Net(Postings(st.ledger), OfOrderProduct(id, l.product))
    && l.received == ReceiptTotal(receipts, id, l.product)
  }

  ghost predicate OnOrder(lines: seq<PoLine>, product: ProductId) {
    exists l :: l in lines && l.product == product
  }

  // Every line's counters are the sums of the order's entries and receipts, and all
  // of these are for products on the order.
  ghost predicate Reconciles(w: Books, id: nat) {
    id in w.orders ==>
      var lines := w.orders[id].lines;
      && (forall l | l in lines :: LineReconciled(w.store, w.receipts, id, l))
      && (forall p | p in Postings(w.store.ledger) && p.key.PoReceiving? && p.key.po == id :: OnOrder(lines, p.product))
      && (forall r | r in w.receipts && r.po == Some(id) :: OnOrder(lines, r.product))
  }

  ghost predicate Within(w: Books, id: nat) {
    id in w.orders ==> forall l | l in w.orders[id].lines :: l.received <= l.ordered
  }

  lemma {:induction false} NoNet(ps: seq<Posting>, id: nat, product: ProductId)
    requires forall p | p in ps && p.key.PoReceiving? && p.key.po == id :: p.product != product
    ensures Net(ps, OfOrderProduct(id, product)) == 0
  {
    SelectNone(ps, OfOrderProduct(id, product));
  }

  // An entry, or a receipt, of a reconciled order shows on one of its lines.
  lemma {:induction false} EntryShows(w: Books, id: nat, p: Posting)
    requires EntriesOk(w) && Reconciles(w, id) && id in w.orders
    requires p in Postings(w.store.ledger) && p.key.PoReceiving? && p.key.po == id
    ensures AnyBaseReceived(w.orders[id].lines)
  {
    SomeNet(Postings(w.store.ledger), OfOrderProduct(id, p.product), p);
    var l :| l in w.orders[id].lines && l.product == p.product;
    assert LineReconciled(w.store, w.receipts, id, l);
  }

  lemma {:induction false} ReceiptShows(w: Books, id: nat, r: ReceiptLine)
    requires Inv(w) && Reconciles(w, id) && id in w.orders
    requires r in w.receipts && r.po == Some(id)
    ensures AnyBaseReceived(w.orders[id].lines)
  {
    hide CallsOk, UpdatesOk, OrdersOk;
    SomeReceipts(w.receipts, r, id);
    var l :| l in w.orders[id].lines && l.product == r.product;
    assert LineReconciled(w.store, w.receipts, id, l);
    CounterShows(w, id, l);
  }

  // So one none of whose lines received anything has no entries or receipts.
  lemma {:induction false} UntouchedOrder(w: Books, id: nat)
    requires Inv(w) && Reconciles(w, id) && id in w.orders && !AnyBaseReceived(w.orders[id].lines)
    ensures forall p | p in Postings(w.store.ledger) && p.key.PoReceiving? :: p.key.po != id
    ensures forall r | r in w.receipts :: r.po != Some(id)
  {
    hide OrdersOk, CallsOk, UpdatesOk, EntriesOk, Reconciles, AnyBaseReceived;
    forall p | p in Postings(w.store.ledger) && p.key.PoReceiving? ensures p.key.po != id {
      if p.key.po == id { EntryShows(w, id, p); }
    }
    forall r | r in w.receipts ensures r.po != Some(id) {
      if r.po == Some(id) { ReceiptShows(w, id, r); }
    }
  }

  lemma {:induction false} CounterShows(w: Books, id: nat, l: PoLine)
    requires Inv(w) && id in w.orders && l in w.orders[id].lines
    ensures 0 <= l.received <= l.receivedBase
  {
    assert LinesOk(w.orders[id].lines, w.nextId);
  }

  // ---- Steps that leave an order's entries alone ----

  ghost predicate SameEntries(w: Books, w': Books, id: nat) {
    && (forall product :: Net(Postings(w'.store.ledger), OfOrderProduct(id, product)) == Net(Postings(w.store.ledger), OfOrderProduct(id, product)))
    && (forall product :: ReceiptTotal(w'.receipts, id, product) == ReceiptTotal(w.receipts, id, product))
    && (forall p | p in Postings(w'.store.ledger) && p.key.PoReceiving? && p.key.po == id :: p in Postings(w.store.ledger))
    && (forall r | r in w'.receipts && r.po == Some(id) :: r in w.receipts)
  }

  lemma {:induction false} SameLinesSame(w: Books, w': Books, id: nat)
    requires Reconciles(w, id) && SameEntries(w, w', id)
    requires id in w'.orders ==> id in w.orders && w'.orders[id].lines == w.orders[id].lines
    ensures Reconciles(w', id)
  {
    if id in w'.orders {
      forall l | l in w'.orders[id].lines ensures LineReconciled(w'.store, w'.receipts, id, l) {
        assert LineReconciled(w.store, w.receipts, id, l);
      }
    }
  }

  lemma {:induction false} SameStore(w: Books, w': Books, id: nat)
    ensures w'.store == w.store && w'.receipts == w.receipts ==> SameEntries(w, w', id)
  {}

  lemma {:induction false} ForeignEntries(w: Books, ps: seq<Posting>, id: nat)
    requires !exists p | p in ps :: p.key.PoReceiving?
    ensures SameEntries(w, w.(store := Commit(w.store, ps)), id)
  {
    PostAllEffect(w.store, ps);
    forall product ensures Net(Postings(Commit(w.store, ps).ledger), OfOrderProduct(id, product)) == Net(Postings(w.store.ledger), OfOrderProduct(id, product)) {
      NetConcat(Postings(w.store.ledger), ps, OfOrderProduct(id, product));
      NoNet(ps, id, product);
    }
  }

  lemma {:induction false} ReceiptEntries(w: Books, l: ReceiptLine, id: nat)
    requires l.po.None?
    ensures SameEntries(w, w.(receipts := w.receipts + [l]), id)
  {
    forall product ensures ReceiptTotal(w.receipts + [l], id, product) == ReceiptTotal(w.receipts, id, product) {
      ReceiptTotalConcat(w.receipts, [l], id, product);
      NoReceipts([l], id, product);
    }
  }

  lemma {:induction false} OtherReceive(w: Books, c: ReceiveCall, k: nat)
    requires Goes(w, c) && k != c.order
    ensures SameEntries(w, ReceiveCommit(w, c).0, k)
  {
    hide ReceiveCommit, Increment, PostAll, StatusAfter, LinesPresent;
    GoesOrNothing(w, c);
    var w', todo := ReceiveCommit(w, c).0, c.todo.value;
    var ps := PickPostings(todo, c.order, c.batch);
    PostAllEffect(w.store, ps);
    forall product
      ensures Net(Postings(w'.store.ledger), OfOrderProduct(k, product)) == Net(Postings(w.store.ledger), OfOrderProduct(k, product))
      ensures ReceiptTotal(w'.receipts, k, product) == ReceiptTotal(w.receipts, k, product)
    {
      NetConcat(Postings(w.store.ledger), ps, OfOrderProduct(k, product));
      NoNet(ps, k, product);
      ReceiptTotalConcat(w.receipts, PickReceipts(todo, c.order), k, product);
      NoReceipts(PickReceipts(todo, c.order), k, product);
    }
  }

  // ---- A receive's transaction ----

  // Of the picks, those for a line's product are those for the line.
  lemma {:induction false} PicksOfLine(w: Books, c: ReceiveCall, l: PoLine)
    requires OrdersOk(w) && CallOk(w, c) && Goes(w, c) && l in w.orders[c.order].lines
    ensures forall p | p in c.todo.value :: p.product == l.product <==> p.line == l.id
  {
    hide PostAll;
    var lines := w.orders[c.order].lines;
    assert LinesOk(lines, w.nextId);
    forall p | p in c.todo.value ensures p.product == l.product <==> p.line == l.id {
      assert PickOk(p, lines, w.nextId);
      var m :| m in lines && m.id == p.line;
      var i :| 0 <= i < |lines| && lines[i] == m;
      var j :| 0 <= j < |lines| && lines[j] == l;
    }
  }

  lemma {:induction false} ReceivedLine(w: Books, c: ReceiveCall, i: nat)
    requires OrdersOk(w) && CallOk(w, c) && Goes(w, c) && i < |w.orders[c.order].lines|
    requires LineReconciled(w.store, w.receipts, c.order, w.orders[c.order].lines[i])
    ensures var w' := ReceiveCommit(w, c).0;
      LineReconciled(w'.store, w'.receipts, c.order, Increment(w.orders[c.order].lines, c.todo.value)[i])
  {
    hide ReceiveCommit, PostAll, StatusAfter, LinesPresent, CallOk, OrdersOk, QuantityFor, BaseFor;
    var l, todo := w.orders[c.order].lines[i], c.todo.value;
    GoesOrNothing(w, c);
    PicksOfLine(w, c, l);
    PicksAddUp(todo, c.order, c.batch, l.product, l.id);
    PostAllEffect(w.store, PickPostings(todo, c.order, c.batch));
    NetConcat(Postings(w.store.ledger), PickPostings(todo, c.order, c.batch), OfOrderProduct(c.order, l.product));
    ReceiptTotalConcat(w.receipts, PickReceipts(todo, c.order), c.order, l.product);
  }

  lemma {:induction false} StillOnOrder(lines: seq<PoLine>, picks: seq<Pick>, product: ProductId)
    requires OnOrder(lines, product)
    ensures OnOrder(Increment(lines, picks), product)
  {
    var l :| l in lines && l.product == product;
    var i :| 0 <= i < |lines| && lines[i] == l;
    assert Increment(lines, picks)[i] in Increment(lines, picks);
  }

  lemma {:induction false} PickedOnOrder(w: Books, c: ReceiveCall, p: Pick)
    requires CallOk(w, c) && Goes(w, c) && p in c.todo.value
    ensures OnOrder(w.orders[c.order].lines, p.product)
  {
    hide PostAll;
    assert PickOk(p, w.orders[c.order].lines, w.nextId);
  }

  lemma {:induction false} ReceiveReconciles(w: Books, c: ReceiveCall)
    requires OrdersOk(w) && CallOk(w, c) && Goes(w, c) && Reconciles(w, c.order)
    ensures Reconciles(ReceiveCommit(w, c).0, c.order)
  {
    hide ReceiveCommit, PostAll, StatusAfter, LinesPresent, CallOk, OrdersOk, OnOrder, LineReconciled;
    GoesOrNothing(w, c);
    var id, todo, lines, w' := c.order, c.todo.value, w.orders[c.order].lines, ReceiveCommit(w, c).0;
    var ps, lines' := PickPostings(todo, id, c.batch), Increment(lines, todo);
    PostAllEffect(w.store, ps);
    forall l | l in lines' ensures LineReconciled(w'.store, w'.receipts, id, l) {
      var i :| 0 <= i < |lines'| && lines'[i] == l;
      assert lines[i] in lines;
      ReceivedLine(w, c, i);
    }
    forall p | p in Postings(w'.store.ledger) && p.key.PoReceiving? && p.key.po == id ensures OnOrder(lines', p.product) {
      if p !in Postings(w.store.ledger) {
        var i :| 0 <= i < |ps| && ps[i] == p;
        PickedOnOrder(w, c, todo[i]);
      }
      StillOnOrder(lines, todo, p.product);
    }
    forall r | r in w'.receipts && r.po == Some(id) ensures OnOrder(lines', r.product) {
      if r !in w.receipts {
        var i :| 0 <= i < |todo| && PickReceipts(todo, id)[i] == r;
        PickedOnOrder(w, c, todo[i]);
      }
      StillOnOrder(lines, todo, r.product);
    }
  }

  // What every line the call posts still lacks at the commit.
  ghost predicate Enough(lines: seq<PoLine>, todo: seq<Pick>) {
    forall p, l | p in todo && l in lines && l.id == p.line :: p.quantity <= l.ordered - l.received
  }

  lemma {:induction false} ReceiveWithinIff(lines: seq<PoLine>, todo: seq<Pick>, nextId: nat)
    requires LinesOk(lines, nextId) && PicksOk(todo, lines, nextId)
    requires forall l | l in lines :: l.received <= l.ordered
    ensures (forall l | l in Increment(lines, todo) :: l.received <= l.ordered) <==> Enough(lines, todo)
  {
    hide QuantityFor, BaseFor;
    var more := Increment(lines, todo);
    if Enough(lines, todo) {
      forall i | 0 <= i < |more| ensures more[i].received <= more[i].ordered {
        assert lines[i] in lines;
        ForOneLine(todo, lines[i].id);
      }
    }
    if forall l | l in more :: l.received <= l.ordered {
      forall p, l | p in todo && l in lines && l.id == p.line ensures p.quantity <= l.ordered - l.received {
        var i :| 0 <= i < |lines| && lines[i] == l;
        ForOneLine(todo, l.id);
        assert more[i] in more;
      }
    }
  }

  // ---- An update's transaction ----

  lemma {:induction false} UpdateReconcilesIff(w: Books, c: UpdateCall)
    requires Inv(w) && Reconciles(w, c.order) && UpdateCommit(w, c).1 == Done(c.order) && c.lines.Some?
    ensures c.order in w.orders
    ensures Reconciles(UpdateCommit(w, c).0, c.order) <==> !AnyBaseReceived(w.orders[c.order].lines)
  {
    hide OrdersOk, CallsOk, UpdatesOk, ProductsDistinct;
    var id, w' := c.order, UpdateCommit(w, c).0;
    var lines, lines' := w.orders[id].lines, w'.orders[id].lines;
    assert forall l | l in lines' :: l.receivedBase == 0 && l.received == 0;
    if AnyBaseReceived(lines) {
      var l :| l in lines && l.receivedBase > 0;
      assert LineReconciled(w.store, w.receipts, id, l);
      StaysReceived(w', id, l.product);
    } else {
      UntouchedOrder(w, id);
      forall l | l in lines' ensures LineReconciled(w'.store, w'.receipts, id, l) {
        NoNet(Postings(w.store.ledger), id, l.product);
        NoReceipts(w.receipts, id, l.product);
      }
    }
  }

  // Lines that say nothing was received do not reconcile with entries that say so.
  lemma {:induction false} StaysReceived(w: Books, id: nat, product: ProductId)
    requires id in w.orders && forall l | l in w.orders[id].lines :: l.receivedBase == 0
    requires Net(Postings(w.store.ledger), OfOrderProduct(id, product)) > 0
    ensures !Reconciles(w, id)
  {
    var ps := Postings(w.store.ledger);
    if forall p | p in ps && p.key.PoReceiving? && p.key.po == id :: p.product != product {
      NoNet(ps, id, product);
    } else {
      var p :| p in ps && p.key.PoReceiving? && p.key.po == id && p.product == product;
      ReconciledEntry(w, id, p);
    }
  }

  lemma {:induction false} ReconciledEntry(w: Books, id: nat, p: Posting)
    requires id in w.orders && p in Postings(w.store.ledger) && p.key.PoReceiving? && p.key.po == id
    ensures Reconciles(w, id) ==>
      exists l :: l in w.orders[id].lines && l.receivedBase == Net(Postings(w.store.ledger), OfOrderProduct(id, p.product))
  {
    if Reconciles(w, id) {
      var l :| l in w.orders[id].lines && l.product == p.product;
      assert LineReconciled(w.store, w.receipts, id, l);
    }
  }

  // ---- What breaks them, exactly ----

  datatype Aspect = Reconciled | WithinOrdered

  ghost predicate Holds(a: Aspect, w: Books, id: nat) {
    match a
    case Reconciled => Reconciles(w, id)
    case WithinOrdered => Within(w, id)
  }

  // Transactions that go through after an earlier read of the order: an update that
  // replaces the lines, and a receive.
  ghost predicate Critical(a: Aspect, w: Books, x: Action, id: nat) {
    match a
    case Reconciled =>
      && x.CommitUpdate? && x.call in w.updating && w.updating[x.call].order == id
      && w.updating[x.call].lines.Some? && Do(w, x).1 == Done(id)
    case WithinOrdered =>
      && x.CommitReceive? && x.call in w.receiving && w.receiving[x.call].order == id
      && Goes(w, w.receiving[x.call])
  }

  // The guard that the read had checked still passes at the transaction.
  ghost predicate Fits(a: Aspect, w: Books, x: Action, id: nat) {
    match a
    case Reconciled => id in w.orders && !AnyBaseReceived(w.orders[id].lines)
    case WithinOrdered =>
      && x.CommitReceive? && x.call in w.receiving && w.receiving[x.call].todo.Some? && id in w.orders
      && Enough(w.orders[id].lines, w.receiving[x.call].todo.value)
  }

  lemma {:induction false} ReceiveHoldsIff(a: Aspect, w: Books, c: ReceiveCall, id: nat)
    requires Inv(w) && CallOk(w, c) && c.todo.Some? && Holds(a, w, id)
    ensures Holds(a, ReceiveCommit(w, c).0, id) <==>
      (a == WithinOrdered && c.order == id && Goes(w, c) ==> Enough(w.orders[id].lines, c.todo.value))
  {
    hide ReceiveCommit, PostAll, StatusAfter, Goes, Increment, Reconciles, CallsOk, UpdatesOk, Enough, EntriesOk;
    GoesOrNothing(w, c);
    if Goes(w, c) {
      if c.order == id {
        if a == Reconciled { ReceiveReconciles(w, c); }
        if a == WithinOrdered { ReceiveWithinIff(w.orders[id].lines, c.todo.value, w.nextId); }
      } else if a == Reconciled {
        OtherReceive(w, c, id);
        SameLinesSame(w, ReceiveCommit(w, c).0, id);
      }
    }
  }

  lemma {:induction false} UpdateHoldsIff(a: Aspect, w: Books, c: UpdateCall, id: nat)
    requires Inv(w) && UpdateOk(w, c) && Holds(a, w, id)
    ensures Holds(a, UpdateCommit(w, c).0, id) <==>
      (a == Reconciled && c.order == id && c.lines.Some? && UpdateCommit(w, c).1 == Done(id) ==> !AnyBaseReceived(w.orders[id].lines))
  {
    hide Reconciles, Inv, ProductsDistinct;
    if a == Reconciled {
      if c.order == id && c.lines.Some? && UpdateCommit(w, c).1 == Done(id) {
        UpdateReconcilesIff(w, c);
      } else {
        SameStore(w, UpdateCommit(w, c).0, id);
        SameLinesSame(w, UpdateCommit(w, c).0, id);
      }
    } else if c.order == id && c.lines.Some? && ProductsDistinct(c.lines.value) {
      InsertedOk(c.lines.value, w.nextId);
      assert LinesOk(Insert(c.lines.value, w.nextId), w.nextId + |c.lines.value|);
    }
  }

  // A receive with nobody in between never asks for more than is left.
  lemma {:induction false} AtOnceEnough(w: Books, id: nat, dto: ReceiveDto)
    requires Inv(w) && ReadOrder(w, id, dto).Selected?
    ensures Enough(w.orders[id].lines, AtOnce(w, id, dto).todo.value)
  {
    hide Inv, Unposted, CallOk;
    AtOnceOrders(w);
    AtOnceOk(w, id, dto);
    forall p, l | p in AtOnce(w, id, dto).todo.value && l in w.orders[id].lines && l.id == p.line ensures p.quantity <= l.ordered - l.received {
      assert PickFrom(p, w.orders[id].lines, WantMap(dto.lines));
    }
  }

  lemma {:induction false} AtOnceOrders(w: Books)
    requires Inv(w)
    ensures OrdersOk(w)
  {}

  lemma {:induction false} CreateHolds(a: Aspect, w: Books, shipTo: Scope, status: Option<PoStatus>, inputs: seq<OrderInput>, id: nat)
    requires Inv(w) && Holds(a, w, id)
    ensures Holds(a, CreateStep(w, shipTo, status, inputs).0, id)
  {
    hide ProductsDistinct, CallsOk, UpdatesOk;
    var w' := CreateStep(w, shipTo, status, inputs).0;
    if w' != w {
      PreparedOk(inputs, w.catalog);
      InsertedOk(Prepare(inputs, w.catalog), w.nextId + 1);
      assert w.nextId !in w.orders;
      if id == w.nextId {
        forall l | l in w'.orders[id].lines ensures LineReconciled(w'.store, w'.receipts, id, l) {
          NoNet(Postings(w.store.ledger), id, l.product);
          NoReceipts(w.receipts, id, l.product);
        }
      } else if a == Reconciled {
        SameStore(w, w', id);
        SameLinesSame(w, w', id);
      }
    }
  }

  lemma {:induction false} SameHolds(a: Aspect, w: Books, w': Books, id: nat)
    requires Holds(a, w, id) && SameEntries(w, w', id) && w'.orders == w.orders
    ensures Holds(a, w', id)
  {
    hide SameEntries, Reconciles;
    if a == Reconciled { SameLinesSame(w, w', id); }
  }

  // Actions with neither transaction leave both as they were.
  lemma {:induction false} OtherHolds(a: Aspect, w: Books, x: Action, id: nat)
    requires Holds(a, w, id)
    requires !x.Create? && !x.Update? && !x.CommitUpdate? && !x.Receive? && !x.CommitReceive? && !x.Cancel?
    ensures Holds(a, Next(w, x), id)
  {
    hide Holds, SameEntries, PrepareUpdate, ReadOrder, Commit, LookUp;
    SameStore(w, Next(w, x), id);
    match x
    case Foreign(ps) =>
      if !exists p | p in ps :: p.key.PoReceiving? { ForeignEntries(w, ps, id); }
      SameHolds(a, w, Next(w, x), id);
    case AddReceiptLine(l) =>
      if l.po.None? { ReceiptEntries(w, l, id); }
      SameHolds(a, w, Next(w, x), id);
    case _ =>
      SameHolds(a, w, Next(w, x), id);
  }

  lemma {:induction false} CancelHolds(a: Aspect, w: Books, k: nat, id: nat)
    requires Holds(a, w, id)
    ensures Holds(a, CancelStep(w, k).0, id)
  {
    hide Reconciles;
    SameStore(w, CancelStep(w, k).0, id);
    if a == Reconciled { SameLinesSame(w, CancelStep(w, k).0, id); }
  }

  lemma {:induction false} SameOrders(a: Aspect, w: Books, w': Books, id: nat)
    requires w' == w.(receiving := w'.receiving, updating := w'.updating)
    ensures Holds(a, w', id) <==> Holds(a, w, id)
  {}

  // A step keeps either aspect exactly if, when it is such a transaction, it fits.
  lemma {:induction false} StepHoldsIff(a: Aspect, w: Books, x: Action, id: nat)
    requires Inv(w) && Holds(a, w, id)
    ensures Holds(a, Next(w, x), id) <==> (Critical(a, w, x, id) ==> Fits(a, w, x, id))
  {
    hide Inv, Holds, CreateStep, UpdateCommit, ReceiveCommit, PrepareUpdate, ReadOrder, Goes, Enough, AnyBaseReceived;
    match x
    case Create(shipTo, status, inputs) => CreateHolds(a, w, shipTo, status, inputs, id);
    case Update(k, dto) => UpdateAtOnce(a, w, k, dto, id);
    case Receive(k, dto) =>
      if ReadOrder(w, k, dto).Selected? {
        AtOnceOrders(w);
        AtOnceOk(w, k, dto);
        AtOnceEnough(w, k, dto);
        ReceiveHoldsIff(a, w, AtOnce(w, k, dto), id);
      }
    case CommitUpdate(call) =>
      if call in w.updating {
        var c, v := w.updating[call], w.(updating := w.updating - {call});
        DropKeeps(w, call);
        SameOrders(a, w, v, id);
        UpdateHoldsIff(a, v, c, id);
        UpdateKnown(v, c);
      }
    case CommitReceive(call) =>
      if call in w.receiving {
        var c, v := w.receiving[call], w.(receiving := w.receiving - {call});
        GoesSame(w, v, c);
        if c.todo.Some? {
          DropKeeps(w, call);
          SameOrders(a, w, v, id);
          ReceiveHoldsIff(a, v, c, id);
        }
      }
    case Cancel(k) => CancelHolds(a, w, k, id);
    case _ => OtherHolds(a, w, x, id);
  }

  lemma {:induction false} UpdateKnown(w: Books, c: UpdateCall)
    ensures UpdateCommit(w, c).1 == Done(c.order) ==> c.order in w.orders
  {}

  lemma {:induction false} GoesSame(w: Books, v: Books, c: ReceiveCall)
    requires v == w.(receiving := v.receiving)
    ensures Goes(v, c) <==> Goes(w, c)
    ensures Goes(w, c) ==> c.order in w.orders && c.todo.Some?
  {}

  lemma {:induction false} UpdateAtOnce(a: Aspect, w: Books, k: nat, dto: UpdateDto, id: nat)
    requires Inv(w) && Holds(a, w, id)
    ensures Holds(a, UpdateStep(w, k, dto).0, id)
  {
    hide Inv, Holds, UpdateCommit;
    if PrepareUpdate(w, k, dto).Ready? {
      PrepareOk(w, k, dto);
      UpdateHoldsIff(a, w, PrepareUpdate(w, k, dto).call, id);
    }
  }

  // ---- Over whole runs ----

  ghost predicate AllFit(a: Aspect, w: Books, actions: seq<Action>, id: nat) {
    forall k | 0 <= k < |actions| && Critical(a, Run(w, actions[..k]), actions[k], id) :: Fits(a, Run(w, actions[..k]), actions[k], id)
  }

  ghost predicate HoldsThroughout(a: Aspect, w: Books, actions: seq<Action>, id: nat) {
    forall k | 0 <= k <= |actions| :: Holds(a, Run(w, actions[..k]), id)
  }

  // Over a whole run, in any interleaving, an order stays reconciled, or within what
  // was ordered, exactly if every such transaction finds its guard still passing.
  lemma {:induction false} HoldsIffAllFit(a: Aspect, w: Books, actions: seq<Action>, id: nat)
    requires Inv(w) && Holds(a, w, id)
    ensures HoldsThroughout(a, w, actions, id) <==> AllFit(a, w, actions, id)
  {
    hide Holds, Fits, Critical, Inv, Run;
    if actions == [] {
      RunNone(w);
      assert actions[..0] == actions;
    } else {
      var n := |actions| - 1;
      var front, v := actions[..n], Run(w, actions[..n]);
      HoldsIffAllFit(a, w, front, id);
      Prefixes(a, w, actions, n, id);
      RunKeeps(w, front);
      RunLast(w, actions);
      assert actions[..n + 1] == actions && front[..n] == front;
      if Holds(a, v, id) { StepHoldsIff(a, v, actions[n], id); }
    }
  }

  lemma {:induction false} RunNone(w: Books)
    ensures Run(w, []) == w
  {}

  lemma {:induction false} RunLast(w: Books, actions: seq<Action>)
    requires actions != []
    ensures Run(w, actions) == Next(Run(w, actions[..|actions| - 1]), actions[|actions| - 1])
  {}

  lemma {:induction false} Prefixes(a: Aspect, w: Books, actions: seq<Action>, n: nat, id: nat)
    requires n <= |actions|
    ensures HoldsThroughout(a, w, actions[..n], id) <==> forall k | 0 <= k <= n :: Holds(a, Run(w, actions[..k]), id)
    ensures AllFit(a, w, actions[..n], id) <==>
      forall k | 0 <= k < n && Critical(a, Run(w, actions[..k]), actions[k], id) :: Fits(a, Run(w, actions[..k]), actions[k], id)
  {
    hide Holds, Fits, Critical, Run;
    assert forall k | 0 <= k <= n :: actions[..n][..k] == actions[..k];
    assert forall k | 0 <= k < n :: actions[..n][k] == actions[k];
    if HoldsThroughout(a, w, actions[..n], id) {
      forall k | 0 <= k <= n ensures Holds(a, Run(w, actions[..k]), id) { assert Holds(a, Run(w, actions[..n][..k]), id); }
    }
    if AllFit(a, w, actions[..n], id) {
      forall k | 0 <= k < n && Critical(a, Run(w, actions[..k]), actions[k], id) ensures Fits(a, Run(w, actions[..k]), actions[k], id) {
        assert Critical(a, Run(w, actions[..n][..k]), actions[..n][k], id);
      }
    }
  }

  lemma {:induction false} ReconciliationIff(a: Aspect, w: Books, actions: seq<Action>, id: nat)
    requires Initial(w)
    ensures HoldsThroughout(a, w, actions, id) <==> AllFit(a, w, actions, id)
  {
    hide Inv;
    InitialInv(w);
    HoldsIffAllFit(a, w, actions, id);
  }

  // What no interleaving can break: counters are not negative, and a unit received
  // is at least a base unit.
  lemma {:induction false} CountersSound(w: Books, actions: seq<Action>, id: nat, l: PoLine)
    requires Initial(w) && id in Run(w, actions).orders && l in Run(w, actions).orders[id].lines
    ensures 0 <= l.received <= l.receivedBase && l.ordered > 0
  {
    hide Run;
    InitialInv(w);
    RunKeeps(w, actions);
    assert LinesOk(Run(w, actions).orders[id].lines, Run(w, actions).nextId);
  }

  // Calls that each run to their end with nobody in between.
  predicate Undivided(actions: seq<Action>) {
    forall x | x in actions :: !x.BeginUpdate? && !x.BeginReceive?
  }

  lemma {:induction false} NothingInFlight(w: Books, actions: seq<Action>)
    requires Initial(w) && Undivided(actions)
    ensures Run(w, actions).receiving == map[] && Run(w, actions).updating == map[]
  {
    hide PostAll, Increment, Unposted, Picks, StatusAfter, Insert, Receivable;
    if actions != [] {
      NothingInFlight(w, actions[..|actions| - 1]);
      assert actions[|actions| - 1] in actions;
    }
  }

  // Then every order stays reconciled and within what was ordered.
  lemma {:induction false} UndividedReconciles(w: Books, actions: seq<Action>, id: nat)
    requires Initial(w) && Undivided(actions)
    ensures Reconciles(Run(w, actions), id) && Within(Run(w, actions), id)
  {
    hide Holds, Run, Inv, Fits;
    forall a: Aspect ensures Holds(a, Run(w, actions), id) {
      forall k | 0 <= k < |actions| ensures !Critical(a, Run(w, actions[..k]), actions[k], id) {
        assert Undivided(actions[..k]);
        NothingInFlight(w, actions[..k]);
      }
      ReconciliationIff(a, w, actions, id);
      assert actions[..|actions|] == actions;
      assert Holds(a, Run(w, actions[..|actions|]), id);
    }
    AspectsOf(Run(w, actions), id);
  }

  lemma {:induction false} AspectsOf(w: Books, id: nat)
    ensures Holds(Reconciled, w, id) <==> Reconciles(w, id)
    ensures Holds(WithinOrdered, w, id) <==> Within(w, id)
  {}

  // ---- When a receive's transaction aborts ----

  // It aborts exactly if one of its keys was taken, or one of its lines replaced,
  // since the reads; so of overlapping identical receives one goes through.
  lemma {:induction false} ReceiveAbortsIff(w: Books, c: ReceiveCall)
    requires Inv(w) && CallOk(w, c) && c.todo.Some? && c.todo.value != []
    ensures ReceiveCommit(w, c).1 == Conflict <==>
      || (exists p :: p in c.todo.value && PickKey(c.order, c.batch, p) in Keys(w.store.ledger))
      || !LinesPresent(w.orders[c.order].lines, c.todo.value)
  {
    hide Inv, PickOk, Increment, LinesPresent;
    var todo := c.todo.value;
    var ps := PickPostings(todo, c.order, c.batch);
    PostAllCommits(w.store, ps);
    if FreshKeys(w.store.ledger, ps) {
      forall p | p in todo ensures PickKey(c.order, c.batch, p) !in Keys(w.store.ledger) {
        var i :| 0 <= i < |todo| && todo[i] == p;
        assert ps[i].key !in Keys(w.store.ledger);
      }
    }
    if forall p | p in todo :: PickKey(c.order, c.batch, p) !in Keys(w.store.ledger) {
      forall i | 0 <= i < |ps| ensures ps[i].key !in Keys(w.store.ledger) { assert todo[i] in todo; }
    }
  }

  lemma {:induction false} AtOnceNeverAborts(w: Books, id: nat, dto: ReceiveDto)
    requires Inv(w)
    ensures ReceiveStep(w, id, dto).1 != Conflict
  {
    hide Inv, CallOk, Increment, LinesPresent, Unposted;
    AtOnceOrders(w);
    if ReadOrder(w, id, dto).Selected? {
      AtOnceOk(w, id, dto);
      if AtOnce(w, id, dto).todo.value != [] { ReceiveAbortsIff(w, AtOnce(w, id, dto)); }
    }
  }

  // A receive that goes through leaves the order RECEIVED or PARTIALLY_RECEIVED,
  // whatever happened to its status since the read: a cancellation is overwritten.
  lemma {:induction false} StatusOverwritten(w: Books, c: ReceiveCall)
    requires Inv(w) && CallOk(w, c) && Goes(w, c)
    ensures ReceiveCommit(w, c).0.orders[c.order].status in {Received, PartiallyReceived}
    ensures AnyBaseReceived(ReceiveCommit(w, c).0.orders[c.order].lines)
  {
    hide PostAll, CallsOk, UpdatesOk, EntriesOk, BaseFor, QuantityFor;
    GoesOrNothing(w, c);
    var lines, todo := w.orders[c.order].lines, c.todo.value;
    var p := todo[0];
    assert p in todo && PickOk(p, lines, w.nextId);
    var l :| l in lines && l.id == p.line;
    var i :| 0 <= i < |lines| && lines[i] == l;
    ForOneLine(todo, l.id);
    assert LinesOk(lines, w.nextId);
    assert Increment(lines, todo)[i] in Increment(lines, todo);
  }
}
