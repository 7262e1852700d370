// Consequences of one receipt: the status it leaves, what repeating it does, and
// what it does to the low-stock list.
module PurchaseOrderReceipts {
  import opened Basics
  import opened Ledger
  import opened Units
  import opened PurchaseOrders
  import opened PurchaseOrderRuns
  import opened PurchaseOrderReconciliation
  import opened PurchaseOrderOverlaps

  // ---- Status ----

  // The order's lines as the call will leave them: complete by base counters, and by
  // units.
  ghost predicate BaseComplete(lines: seq<PoLine>, todo: seq<Pick>) {
    forall l | l in lines :: l.receivedBase + BaseFor(todo, l.id) >= l.orderedBase
  }

  ghost predicate UnitsComplete(lines: seq<PoLine>, todo: seq<Pick>) {
    forall l | l in lines :: l.received + QuantityFor(todo, l.id) >= l.ordered
  }

  ghost predicate AllUnits(lines: seq<PoLine>) { forall l | l in lines :: l.received >= l.ordered }

  lemma {:induction false} CompleteAfter(lines: seq<PoLine>, todo: seq<Pick>)
    ensures AllBaseReceived(Increment(lines, todo)) <==> BaseComplete(lines, todo)
    ensures AllUnits(Increment(lines, todo)) <==> UnitsComplete(lines, todo)
  {
    hide BaseFor, QuantityFor;
    var more := Increment(lines, todo);
    if BaseComplete(lines, todo) {
      forall i | 0 <= i < |more| ensures more[i].receivedBase >= more[i].orderedBase { assert lines[i] in lines; }
    }
    if UnitsComplete(lines, todo) {
      forall i | 0 <= i < |more| ensures more[i].received >= more[i].ordered { assert lines[i] in lines; }
    }
    forall l | l in lines
      ensures AllBaseReceived(more) ==> l.receivedBase + BaseFor(todo, l.id) >= l.orderedBase
      ensures AllUnits(more) ==> l.received + QuantityFor(todo, l.id) >= l.ordered
    {
      var i :| 0 <= i < |lines| && lines[i] == l;
      assert more[i] in more;
    }
  }

  // A receive that goes through leaves RECEIVED or PARTIALLY_RECEIVED, and the former
  // stands for a fully received order exactly if completeness by base counters and by
  // units come to the same for this order and these picks.
  lemma {:induction false} StatusIff(w: Books, c: ReceiveCall)
    requires Inv(w) && CallOk(w, c) && Goes(w, c)
    ensures var lines, po' := w.orders[c.order].lines, ReceiveCommit(w, c).0.orders[c.order];
      && po'.status in {Received, PartiallyReceived}
      && ((po'.status == Received <==> AllUnits(po'.lines)) <==>
          (BaseComplete(lines, c.todo.value) <==> UnitsComplete(lines, c.todo.value)))
  {
    hide ReceiveCommit, PostAll, CallOk, Inv, Increment, AllUnits, BaseComplete, UnitsComplete;
    GoesOrNothing(w, c);
    StatusOverwritten(w, c);
    CompleteAfter(w.orders[c.order].lines, c.todo.value);
    HasLines(w, c);
  }

  lemma {:induction false} HasLines(w: Books, c: ReceiveCall)
    requires Goes(w, c)
    ensures |Increment(w.orders[c.order].lines, c.todo.value)| > 0
  {
    assert c.todo.value[0] in c.todo.value;
  }

  // ---- Status while factors only rise, or only fall ----

  // At least, or at most, the base units that the line was ordered at.
  ghost predicate Rated(up: bool, base: int, units: int, l: PoLine) {
    if up then base * l.ordered >= units * l.orderedBase else base * l.ordered <= units * l.orderedBase
  }

  ghost predicate FactorRated(up: bool, base: int, units: int, factor: int) {
    if up then base <= units * factor else base >= units * factor
  }

  ghost predicate LineRated(up: bool, w: Books, l: PoLine) {
    Rated(up, l.receivedBase, l.received, l) && FactorRated(up, l.orderedBase, l.ordered, OrderingFactor(w.catalog, l.product))
  }

  ghost predicate PicksRated(up: bool, picks: seq<Pick>, lines: seq<PoLine>) {
    forall p, l | p in picks && l in lines && l.id == p.line :: Rated(up, p.base, p.quantity, l)
  }

  // The order's lines, and what calls in flight will write to them.
  ghost predicate OrderRated(up: bool, w: Books, id: nat) {
    && (id in w.orders ==> forall l | l in w.orders[id].lines :: LineRated(up, w, l))
    && (forall call | call in w.receiving && w.receiving[call].order == id && id in w.orders ::
          && PicksRated(up, w.receiving[call].picks, w.orders[id].lines)
          && (w.receiving[call].todo.Some? ==> PicksRated(up, w.receiving[call].todo.value, w.orders[id].lines)))
    && (forall call | call in w.updating && w.updating[call].order == id && w.updating[call].lines.Some? ::
          forall p | p in w.updating[call].lines.value :: FactorRated(up, p.base, p.ordered, OrderingFactor(w.catalog, p.product)))
  }

  // The product is on the order, or about to be put on it.
  ghost predicate Concerns(w: Books, id: nat, product: ProductId) {
    || (id in w.orders && exists l :: l in w.orders[id].lines && l.product == product)
    || exists call :: call in w.updating && w.updating[call].order == id && w.updating[call].lines.Some?
                      && exists p :: p in w.updating[call].lines.value && p.product == product
  }

  // No factor of the order's products falls (up), or none rises.
  ghost predicate FactorMoves(up: bool, w: Books, x: Action, id: nat) {
    x.SetProduct? && Concerns(w, id, x.product) ==>
      if up then x.row.orderingToBase >= OrderingFactor(w.catalog, x.product) else x.row.orderingToBase <= OrderingFactor(w.catalog, x.product)
  }

  ghost predicate FactorsMove(up: bool, w: Books, actions: seq<Action>, id: nat) {
    forall k | 0 <= k < |actions| :: FactorMoves(up, Run(w, actions[..k]), actions[k], id)
  }

  lemma {:induction false} ScaleFactor(up: bool, base: int, units: int, f: int, g: int)
    requires units > 0 && FactorRated(up, base, units, f) && (if up then f <= g else f >= g)
    ensures FactorRated(up, base, units, g)
  {
    if up { assert units * (g - f) >= 0; } else { assert units * (f - g) >= 0; }
    assert units * g == units * f + units * (g - f);
  }

  // A quantity taken at the factor in force against what the line was ordered at.
  lemma {:induction false} RateAtFactor(up: bool, q: int, f: int, l: PoLine)
    requires q > 0 && FactorRated(up, l.orderedBase, l.ordered, f)
    ensures Rated(up, q * f, q, l)
  {
    assert q * f * l.ordered == q * (l.ordered * f);
    if up { assert q * (l.ordered * f - l.orderedBase) >= 0; } else { assert q * (l.orderedBase - l.ordered * f) >= 0; }
    assert q * (l.ordered * f) == q * l.orderedBase + q * (l.ordered * f - l.orderedBase);
  }

  lemma {:induction false} RateAdds(up: bool, base: int, units: int, b: int, q: int, l: PoLine)
    requires Rated(up, base, units, l) && Rated(up, b, q, l)
    ensures Rated(up, base + b, units + q, l)
  {
    assert (base + b) * l.ordered == base * l.ordered + b * l.ordered;
    assert (units + q) * l.orderedBase == units * l.orderedBase + q * l.orderedBase;
  }

  lemma {:induction false} PickBases(lines: seq<PoLine>, want: map<nat, int>, catalog: map<ProductId, Product>)
    ensures forall p | p in Picks(lines, want, catalog) :: p.base == p.quantity * OrderingFactor(catalog, p.product)
  {
    hide OrderingFactor;
    if lines != [] {
      PickBases(lines[..|lines| - 1], want, catalog);
      var l := lines[|lines| - 1];
      if l.id in want { WholeToBase(want[l.id], OrderingFactor(catalog, l.product)); }
    }
  }

  // What a call reads is taken at the factors in force.
  lemma {:induction false} ReadRated(up: bool, w: Books, id: nat, dto: ReceiveDto)
    requires Inv(w) && OrderRated(up, w, id) && ReadOrder(w, id, dto).Selected?
    ensures PicksRated(up, ReadOrder(w, id, dto).call.picks, w.orders[id].lines)
  {
    hide Inv, Rated, FactorRated, OrderingFactor, PickOk, CallOk;
    AtOnceOrders(w);
    SelectedOk(w, id, dto);
    var lines, picks := w.orders[id].lines, ReadOrder(w, id, dto).call.picks;
    PickBases(lines, WantMap(dto.lines), w.catalog);
    forall p, l | p in picks && l in lines && l.id == p.line ensures Rated(up, p.base, p.quantity, l) {
      PickedProduct(w, ReadOrder(w, id, dto).call, p, l);
      assert LineRated(up, w, l);
      RateAtFactor(up, p.quantity, OrderingFactor(w.catalog, l.product), l);
    }
  }

  lemma {:induction false} PickedProduct(w: Books, c: ReceiveCall, p: Pick, l: PoLine)
    requires CallOk(w, c) && p in c.picks && l in w.orders[c.order].lines && l.id == p.line
    ensures p.product == l.product && p.quantity > 0
  {
    assert PickOk(p, w.orders[c.order].lines, w.nextId);
  }

  lemma {:induction false} FewerRated(up: bool, picks: seq<Pick>, id: nat, batch: PoBatch, posted: set<Key>, lines: seq<PoLine>)
    requires PicksRated(up, picks, lines)
    ensures PicksRated(up, Unposted(picks, id, batch, posted), lines)
  {
    hide Rated;
    UnpostedMembers(picks, id, batch, posted);
  }

  lemma {:induction false} AtOnceRated(up: bool, w: Books, id: nat, dto: ReceiveDto)
    requires Inv(w) && OrderRated(up, w, id) && ReadOrder(w, id, dto).Selected?
    ensures PicksRated(up, AtOnce(w, id, dto).todo.value, w.orders[id].lines)
  {
    hide Inv, OrderRated, PicksRated, Unposted;
    ReadRated(up, w, id, dto);
    var c := ReadOrder(w, id, dto).call;
    OrderOfRead(w, id, dto);
    FewerRated(up, c.picks, id, c.batch, Keys(w.store.ledger), w.orders[id].lines);
  }

  lemma {:induction false} OrderOfRead(w: Books, id: nat, dto: ReceiveDto)
    requires ReadOrder(w, id, dto).Selected?
    ensures ReadOrder(w, id, dto).call.order == id && id in w.orders && ReadOrder(w, id, dto).call.todo.None?
  {
    hide Receivable, Picks, BatchLines, WantMap;
  }

  // Lines after a receive: the picks' rates carry over, and so do calls in flight.
  lemma {:induction false} IncrementRated(up: bool, w: Books, lines: seq<PoLine>, todo: seq<Pick>, nextId: nat)
    requires LinesOk(lines, nextId) && PicksOk(todo, lines, nextId) && PicksRated(up, todo, lines)
    requires forall l | l in lines :: LineRated(up, w, l)
    ensures forall l | l in Increment(lines, todo) :: LineRated(up, w, l)
    ensures forall picks | PicksRated(up, picks, lines) :: PicksRated(up, picks, Increment(lines, todo))
  {
    hide Rated, FactorRated, OrderingFactor, LinesOk, PickOk, QuantityFor, BaseFor;
    var more := Increment(lines, todo);
    forall l | l in more ensures LineRated(up, w, l) {
      var i :| 0 <= i < |more| && more[i] == l;
      assert lines[i] in lines && LineRated(up, w, lines[i]);
      ForOneLine(todo, lines[i].id);
      OneLineRated(up, lines[i], l, todo);
    }
    forall picks | PicksRated(up, picks, lines) ensures PicksRated(up, picks, more) { SameRates(up, picks, lines, todo); }
  }

  lemma {:induction false} SameRates(up: bool, picks: seq<Pick>, lines: seq<PoLine>, todo: seq<Pick>)
    requires PicksRated(up, picks, lines)
    ensures PicksRated(up, picks, Increment(lines, todo))
  {
    hide QuantityFor, BaseFor;
    var more := Increment(lines, todo);
    forall p, l | p in picks && l in more && l.id == p.line ensures Rated(up, p.base, p.quantity, l) {
      var i :| 0 <= i < |more| && more[i] == l;
      assert lines[i] in lines;
      assert Rated(up, p.base, p.quantity, lines[i]);
    }
  }

  lemma {:induction false} OneLineRated(up: bool, l: PoLine, l': PoLine, todo: seq<Pick>)
    requires l' == l.(received := l.received + QuantityFor(todo, l.id), receivedBase := l.receivedBase + BaseFor(todo, l.id))
    requires Rated(up, l.receivedBase, l.received, l) && forall p | p in todo && p.line == l.id :: Rated(up, p.base, p.quantity, l)
    requires PicksDistinct(todo)
    ensures Rated(up, l'.receivedBase, l'.received, l')
  {
    hide QuantityFor, BaseFor;
    ForOneLine(todo, l.id);
    if p :| p in todo && p.line == l.id { RateAdds(up, l.receivedBase, l.received, p.base, p.quantity, l); }
  }

  // ---- Each step keeps the rates ----

  lemma {:induction false} CommitRated(up: bool, w: Books, c: ReceiveCall, id: nat)
    requires Inv(w) && CallOk(w, c) && c.todo.Some? && OrderRated(up, w, id)
    requires c.order == id ==> PicksRated(up, c.todo.value, w.orders[id].lines)
    ensures OrderRated(up, ReceiveCommit(w, c).0, id)
  {
    hide ReceiveCommit, PostAll, StatusAfter, LineRated, PicksRated, FactorRated, LinesOk, PicksOk, CallsOk, UpdatesOk, EntriesOk, Increment;
    GoesOrNothing(w, c);
    var w' := ReceiveCommit(w, c).0;
    if Goes(w, c) && c.order == id {
      IncrementRated(up, w, w.orders[id].lines, c.todo.value, w.nextId);
    }
    assert w'.catalog == w.catalog;
    SameCatalog(up, w, w');
  }

  lemma {:induction false} SameCatalog(up: bool, w: Books, w': Books)
    requires w'.catalog == w.catalog
    ensures forall l :: LineRated(up, w', l) <==> LineRated(up, w, l)
  {}

  lemma {:induction false} PreparedRated(up: bool, inputs: seq<OrderInput>, catalog: map<ProductId, Product>)
    requires InputsValid(inputs, catalog)
    ensures forall p | p in Prepare(inputs, catalog) :: FactorRated(up, p.base, p.ordered, OrderingFactor(catalog, p.product))
  {
    PreparedOk(inputs, catalog);
  }

  lemma {:induction false} InsertedRated(up: bool, w: Books, ps: seq<Prepared>, first: nat)
    requires forall p | p in ps :: FactorRated(up, p.base, p.ordered, OrderingFactor(w.catalog, p.product))
    ensures forall l | l in Insert(ps, first) :: LineRated(up, w, l)
  {
    hide OrderingFactor;
    var lines := Insert(ps, first);
    forall l | l in lines ensures LineRated(up, w, l) {
      var i :| 0 <= i < |lines| && lines[i] == l;
      assert ps[i] in ps;
    }
  }

  lemma {:induction false} PicksBelow(w: Books, c: ReceiveCall)
    requires CallOk(w, c)
    ensures forall p | p in c.picks :: p.line < w.nextId
    ensures c.todo.Some? ==> forall p | p in c.todo.value :: p.line < w.nextId
  {
    forall p | p in c.picks ensures p.line < w.nextId { assert PickOk(p, w.orders[c.order].lines, w.nextId); }
    if c.todo.Some? {
      forall p | p in c.todo.value ensures p.line < w.nextId { assert PickOk(p, w.orders[c.order].lines, w.nextId); }
    }
  }

  // New lines have ids no pick in flight names.
  lemma {:induction false} NewLinesRated(up: bool, w: Books, c: ReceiveCall, lines: seq<PoLine>)
    requires CallOk(w, c) && forall l | l in lines :: l.id >= w.nextId
    ensures PicksRated(up, c.picks, lines) && (c.todo.Some? ==> PicksRated(up, c.todo.value, lines))
  {
    PicksBelow(w, c);
  }

  lemma {:induction false} UpdateRated(up: bool, w: Books, c: UpdateCall, id: nat)
    requires Inv(w) && UpdateOk(w, c) && OrderRated(up, w, id)
    requires c.order == id && c.lines.Some? ==>
      forall p | p in c.lines.value :: FactorRated(up, p.base, p.ordered, OrderingFactor(w.catalog, p.product))
    ensures OrderRated(up, UpdateCommit(w, c).0, id)
  {
    hide LineRated, PicksRated, FactorRated, LinesOk, PicksOk, OrdersOk, EntriesOk, CallOk, UpdateOk, Insert, ProductsDistinct;
    var w' := UpdateCommit(w, c).0;
    SameCatalog(up, w, w');
    if w' != w && c.order == id && c.lines.Some? {
      var lines := Insert(c.lines.value, w.nextId);
      InsertedRated(up, w, c.lines.value, w.nextId);
      InsertedNew(c.lines.value, w.nextId);
      forall call | call in w'.receiving && w'.receiving[call].order == id
        ensures PicksRated(up, w'.receiving[call].picks, lines)
        ensures w'.receiving[call].todo.Some? ==> PicksRated(up, w'.receiving[call].todo.value, lines)
      {
        assert CallOk(w, w.receiving[call]);
        NewLinesRated(up, w, w.receiving[call], lines);
      }
    }
  }

  lemma {:induction false} InsertedNew(ps: seq<Prepared>, first: nat)
    ensures forall l | l in Insert(ps, first) :: l.id >= first
  {}

  lemma {:induction false} FactorStepRated(up: bool, w: Books, product: ProductId, row: Product, id: nat)
    requires Inv(w) && OrderRated(up, w, id) && FactorMoves(up, w, SetProduct(product, row), id)
    ensures OrderRated(up, w.(catalog := w.catalog[product := row]), id)
  {
    hide Rated, FactorRated, PicksRated, CallsOk, EntriesOk;
    var w' := w.(catalog := w.catalog[product := row]);
    if id in w.orders {
      assert LinesOk(w.orders[id].lines, w.nextId);
      forall l | l in w'.orders[id].lines ensures LineRated(up, w', l) {
        assert LineRated(up, w, l);
        if l.product == product {
          ScaleFactor(up, l.orderedBase, l.ordered, OrderingFactor(w.catalog, product), row.orderingToBase);
        }
      }
    }
    forall call | call in w'.updating && w'.updating[call].order == id && w'.updating[call].lines.Some?
      ensures forall p | p in w'.updating[call].lines.value :: FactorRated(up, p.base, p.ordered, OrderingFactor(w'.catalog, p.product))
    {
      assert UpdateOk(w, w.updating[call]);
      forall p | p in w'.updating[call].lines.value ensures FactorRated(up, p.base, p.ordered, OrderingFactor(w'.catalog, p.product)) {
        if p.product == product { ScaleFactor(up, p.base, p.ordered, OrderingFactor(w.catalog, product), row.orderingToBase); }
      }
    }
  }

  lemma {:induction false} CreateRated(up: bool, w: Books, shipTo: Scope, status: Option<PoStatus>, inputs: seq<OrderInput>, id: nat)
    requires Inv(w) && OrderRated(up, w, id)
    ensures OrderRated(up, CreateStep(w, shipTo, status, inputs).0, id)
  {
    hide LineRated, PicksRated, FactorRated, LinesOk, EntriesOk, Insert, ProductsDistinct, Prepare;
    var w' := CreateStep(w, shipTo, status, inputs).0;
    SameCatalog(up, w, w');
    if w' != w {
      assert w.nextId !in w.orders;
      assert forall call | call in w.receiving :: CallOk(w, w.receiving[call]);
      if id == w.nextId {
        PreparedRated(up, inputs, w.catalog);
        InsertedRated(up, w, Prepare(inputs, w.catalog), w.nextId + 1);
      }
    }
  }

  lemma {:induction false} ReadsRated(up: bool, w: Books, x: Action, id: nat)
    requires Inv(w) && OrderRated(up, w, id)
    requires x.BeginUpdate? || x.BeginReceive? || x.LookUpKeys?
    ensures OrderRated(up, Next(w, x), id)
  {
    hide LineRated, PicksRated, FactorRated, Inv, PrepareUpdate, ReadOrder, Unposted;
    var w' := Next(w, x);
    SameCatalog(up, w, w');
    match x
    case BeginUpdate(call, k, dto) =>
      if PrepareUpdate(w, k, dto).Ready? { ReadyRated(up, w, k, dto); }
    case BeginReceive(call, k, dto) =>
      if ReadOrder(w, k, dto).Selected? {
        OrderOfRead(w, k, dto);
        if k == id { ReadRated(up, w, id, dto); }
      }
    case LookUpKeys(call) =>
      if call in w.receiving && w.receiving[call].order == id && id in w.orders {
        var c := w.receiving[call];
        FewerRated(up, c.picks, c.order, c.batch, Keys(w.store.ledger), w.orders[id].lines);
      }
  }

  lemma {:induction false} ReadyRated(up: bool, w: Books, id: nat, dto: UpdateDto)
    requires PrepareUpdate(w, id, dto).Ready?
    ensures var c := PrepareUpdate(w, id, dto).call;
      c.lines.Some? ==> forall p | p in c.lines.value :: FactorRated(up, p.base, p.ordered, OrderingFactor(w.catalog, p.product))
  {
    hide FactorRated;
    if dto.lines.Some? { PreparedRated(up, dto.lines.value, w.catalog); }
  }

  lemma {:induction false} StepRated(up: bool, w: Books, x: Action, id: nat)
    requires Inv(w) && OrderRated(up, w, id) && FactorMoves(up, w, x, id)
    ensures OrderRated(up, Next(w, x), id)
  {
    hide Inv, OrderRated, FactorMoves, CreateStep, UpdateCommit, ReceiveCommit, PrepareUpdate, ReadOrder, Commit, CallOk, UpdateOk, PicksRated;
    match x
    case Create(shipTo, status, inputs) => CreateRated(up, w, shipTo, status, inputs, id);
    case Update(k, dto) =>
      if PrepareUpdate(w, k, dto).Ready? {
        PrepareOk(w, k, dto);
        ReadyRated(up, w, k, dto);
        UpdateRated(up, w, PrepareUpdate(w, k, dto).call, id);
      }
    case CommitUpdate(call) =>
      if call in w.updating {
        DropKeeps(w, call);
        DropRated(up, w, call, id);
        UpdateRated(up, w.(updating := w.updating - {call}), w.updating[call], id);
      }
    case Receive(k, dto) =>
      if ReadOrder(w, k, dto).Selected? {
        AtOnceOrders(w);
        AtOnceOk(w, k, dto);
        if k == id { AtOnceRated(up, w, id, dto); }
        CommitRated(up, w, AtOnce(w, k, dto), id);
      }
    case CommitReceive(call) =>
      if call in w.receiving && w.receiving[call].todo.Some? {
        DropKeeps(w, call);
        DropRated(up, w, call, id);
        CommitRated(up, w.(receiving := w.receiving - {call}), w.receiving[call], id);
      }
    case SetProduct(p, row) => FactorStepRated(up, w, p, row, id);
    case BeginUpdate(_, _, _) => ReadsRated(up, w, x, id);
    case BeginReceive(_, _, _) => ReadsRated(up, w, x, id);
    case LookUpKeys(_) => ReadsRated(up, w, x, id);
    case _ => OtherRated(up, w, x, id);
  }

  lemma {:induction false} OtherRated(up: bool, w: Books, x: Action, id: nat)
    requires OrderRated(up, w, id) && (x.Cancel? || x.Drop? || x.AddReceiptLine? || x.Foreign?)
    ensures OrderRated(up, Next(w, x), id)
  {
    hide LineRated, PicksRated, FactorRated, Commit;
    SameCatalog(up, w, Next(w, x));
  }

  lemma {:induction false} DropRated(up: bool, w: Books, call: nat, id: nat)
    requires Inv(w) && OrderRated(up, w, id)
    ensures OrderRated(up, w.(updating := w.updating - {call}), id) && OrderRated(up, w.(receiving := w.receiving - {call}), id)
    ensures call in w.updating && w.updating[call].order == id && w.updating[call].lines.Some? ==>
      forall p | p in w.updating[call].lines.value :: FactorRated(up, p.base, p.ordered, OrderingFactor(w.catalog, p.product))
    ensures call in w.receiving && w.receiving[call].order == id && w.receiving[call].todo.Some? && id in w.orders ==>
      PicksRated(up, w.receiving[call].todo.value, w.orders[id].lines)
    ensures call in w.receiving ==> w.receiving[call].order in w.orders
  {
    hide LineRated, PicksRated, FactorRated, OrdersOk, EntriesOk, PicksOk, UpdatesOk;
    SameCatalog(up, w, w.(updating := w.updating - {call}));
    SameCatalog(up, w, w.(receiving := w.receiving - {call}));
    if call in w.receiving { assert CallOk(w, w.receiving[call]); }
  }

  lemma {:induction false} RunRated(up: bool, w: Books, actions: seq<Action>, id: nat)
    requires Initial(w) && FactorsMove(up, w, actions, id)
    ensures OrderRated(up, Run(w, actions), id) && Inv(Run(w, actions))
  {
    hide Inv, FactorMoves, Next;
    InitialInv(w);
    RunKeeps(w, actions);
    if actions == [] {
      RunNone(w);
    } else {
      var n := |actions| - 1;
      forall k | 0 <= k < n ensures FactorMoves(up, Run(w, actions[..n][..k]), actions[..n][k], id) {
        assert actions[..n][..k] == actions[..k];
      }
      RunRated(up, w, actions[..n], id);
      StepRated(up, Run(w, actions[..n]), actions[n], id);
    }
  }

  // The action is a receive that goes through with this call, split or at once.
  ghost predicate Receives(w: Books, x: Action, c: ReceiveCall) {
    && Goes(w, c)
    && ((x.CommitReceive? && x.call in w.receiving && w.receiving[x.call] == c)
        || (x.Receive? && ReadOrder(w, x.id, x.receive).Selected? && c == AtOnce(w, x.id, x.receive)))
  }

  lemma {:induction false} ReceivesRated(up: bool, w: Books, actions: seq<Action>, x: Action, c: ReceiveCall)
    requires Initial(w) && FactorsMove(up, w, actions, c.order) && Receives(Run(w, actions), x, c)
    ensures var v := Run(w, actions);
      && Inv(v) && CallOk(v, c)
      && forall l | l in ReceiveCommit(v, c).0.orders[c.order].lines :: l.ordered > 0 && l.orderedBase > 0 && Rated(up, l.receivedBase, l.received, l)
  {
    hide Run, FactorsMove, ReceiveCommit, PostAll, PicksRated, Rated, FactorRated, Increment, StatusAfter, LinesPresent, Unposted;
    var v := Run(w, actions);
    RunRated(up, w, actions, c.order);
    if x.Receive? {
      OrderOfRead(v, x.id, x.receive);
      AtOnceOk(v, x.id, x.receive);
      AtOnceRated(up, v, x.id, x.receive);
    } else {
      assert CallOk(v, v.receiving[x.call]);
    }
    CommitRated(up, v, c, c.order);
    ReceiveCommitKeeps(v, c);
    GoesOrNothing(v, c);
    var v' := ReceiveCommit(v, c).0;
    assert LinesOk(v'.orders[c.order].lines, v'.nextId);
    forall l | l in v'.orders[c.order].lines ensures Rated(up, l.receivedBase, l.received, l) { assert LineRated(up, v', l); }
  }

  lemma {:induction false} ScaleOrder(x: int, y: int, c: int)
    requires c > 0
    ensures x * c >= y * c <==> x >= y
  {
    if x < y { assert (y - x) * c > 0; } else { assert (x - y) * c >= 0; }
    assert y * c == x * c + (y - x) * c;
  }

  lemma {:induction false} RateSettles(up: bool, l: PoLine)
    requires l.ordered > 0 && l.orderedBase > 0 && Rated(up, l.receivedBase, l.received, l)
    ensures up && l.received >= l.ordered ==> l.receivedBase >= l.orderedBase
    ensures !up && l.receivedBase >= l.orderedBase ==> l.received >= l.ordered
  {
    ScaleOrder(l.received, l.ordered, l.orderedBase);
    ScaleOrder(l.receivedBase, l.orderedBase, l.ordered);
    assert l.ordered * l.orderedBase == l.orderedBase * l.ordered;
  }

  // While no factor of the order's products has fallen, a receive that completes the
  // order closes it; while none has risen, none is closed before it is complete.
  lemma {:induction false} StatusWhileFactorsMove(up: bool, w: Books, actions: seq<Action>, x: Action, c: ReceiveCall)
    requires Initial(w) && FactorsMove(up, w, actions, c.order) && Receives(Run(w, actions), x, c)
    ensures var po' := ReceiveCommit(Run(w, actions), c).0.orders[c.order];
      && (up && AllUnits(po'.lines) ==> po'.status == Received)
      && (!up && po'.status == Received ==> AllUnits(po'.lines))
  {
    hide Run, FactorsMove, ReceiveCommit, PostAll, Rated, Inv, CallOk, Increment;
    var v := Run(w, actions);
    ReceivesRated(up, w, actions, x, c);
    GoesOrNothing(v, c);
    StatusOverwritten(v, c);
    HasLines(v, c);
    var lines := ReceiveCommit(v, c).0.orders[c.order].lines;
    forall l | l in lines
      ensures up && l.received >= l.ordered ==> l.receivedBase >= l.orderedBase
      ensures !up && l.receivedBase >= l.orderedBase ==> l.received >= l.ordered
    {
      RateSettles(up, l);
    }
  }

  // ---- Replay ----

  lemma {:induction false} EvolveTwice(a: seq<PoLine>, b: seq<PoLine>, c: seq<PoLine>, n: nat, m: nat)
    requires LinesEvolve(a, b, n) && LinesEvolve(b, c, m) && n <= m
    ensures LinesEvolve(a, c, n)
  {
    if SameLines(b, c) && !SameLines(a, b) {
      forall l | l in c ensures l.id >= n {
        var i :| 0 <= i < |c| && c[i] == l;
        assert b[i] in b;
      }
    }
  }

  lemma {:induction false} StepEvolves(w: Books, x: Action)
    requires Inv(w)
    ensures Evolves(w, Next(w, x)) && Keys(w.store.ledger) <= Keys(Next(w, x).store.ledger)
  {
    hide Inv, CreateStep, UpdateCommit, ReceiveCommit, PrepareUpdate, ReadOrder, Commit, Evolves, Unposted;
    SameOrdersEvolve(w, Next(w, x));
    match x
    case Create(shipTo, status, inputs) => CreateEvolves(w, shipTo, status, inputs);
    case Update(k, dto) => if PrepareUpdate(w, k, dto).Ready? { UpdateEvolves(w, PrepareUpdate(w, k, dto).call); }
    case CommitUpdate(call) =>
      if call in w.updating { UpdateEvolves(w.(updating := w.updating - {call}), w.updating[call]); LessEvolves(w, w.(updating := w.updating - {call}), Next(w, x)); }
    case Cancel(k) => CancelEvolves(w, k);
    case Receive(k, dto) => if ReadOrder(w, k, dto).Selected? { ReceiveEvolves(w, AtOnce(w, k, dto)); }
    case CommitReceive(call) =>
      if call in w.receiving && w.receiving[call].todo.Some? {
        ReceiveEvolves(w.(receiving := w.receiving - {call}), w.receiving[call]);
        LessEvolves(w, w.(receiving := w.receiving - {call}), Next(w, x));
      }
    case Foreign(ps) => CommitGrows(w.store, ps);
    case _ =>
  }

  lemma {:induction false} SameOrdersEvolve(w: Books, w': Books)
    ensures w'.orders == w.orders && w.nextId <= w'.nextId ==> Evolves(w, w')
  {}

  lemma {:induction false} LessEvolves(w: Books, v: Books, w': Books)
    requires v == w.(receiving := v.receiving, updating := v.updating) && Evolves(v, w')
    ensures Evolves(w, w')
  {}

  lemma {:induction false} CommitGrows(st: Store, ps: seq<Posting>)
    ensures Keys(st.ledger) <= Keys(Commit(st, ps).ledger)
  {
    PostAllEffect(st, ps);
  }

  lemma {:induction false} CreateEvolves(w: Books, shipTo: Scope, status: Option<PoStatus>, inputs: seq<OrderInput>)
    requires Inv(w)
    ensures Evolves(w, CreateStep(w, shipTo, status, inputs).0) && CreateStep(w, shipTo, status, inputs).0.store == w.store
  {
    assert w.nextId !in w.orders;
  }

  lemma {:induction false} UpdateEvolves(w: Books, c: UpdateCall)
    ensures Evolves(w, UpdateCommit(w, c).0) && UpdateCommit(w, c).0.store == w.store
  {}

  lemma {:induction false} CancelEvolves(w: Books, k: nat)
    ensures Evolves(w, CancelStep(w, k).0)
  {}

  lemma {:induction false} ReceiveEvolves(w: Books, c: ReceiveCall)
    requires c.todo.Some?
    ensures Evolves(w, ReceiveCommit(w, c).0) && Keys(w.store.ledger) <= Keys(ReceiveCommit(w, c).0.store.ledger)
  {
    hide PostAll, QuantityFor, BaseFor, StatusAfter;
    PostAllEffect(w.store, PickPostings(c.todo.value, c.order, c.batch));
  }

  lemma {:induction false} RunEvolves(w: Books, actions: seq<Action>)
    requires Inv(w)
    ensures Inv(Run(w, actions)) && Evolves(w, Run(w, actions)) && Keys(w.store.ledger) <= Keys(Run(w, actions).store.ledger)
  {
    hide Inv, Next, LinesEvolve;
    if actions == [] {
      SameOrdersEvolve(w, w);
    } else {
      var n := |actions| - 1;
      var v, v' := Run(w, actions[..n]), Run(w, actions);
      RunEvolves(w, actions[..n]);
      StepKeeps(v, actions[n]);
      StepEvolves(v, actions[n]);
      forall k | k in w.orders ensures k in v'.orders && LinesEvolve(w.orders[k].lines, v'.orders[k].lines, w.nextId) {
        EvolveTwice(w.orders[k].lines, v.orders[k].lines, v'.orders[k].lines, w.nextId, v.nextId);
      }
    }
  }

  lemma {:induction false} SamePicks(a: seq<PoLine>, b: seq<PoLine>, want: map<nat, int>, c: map<ProductId, Product>, d: map<ProductId, Product>)
    requires SameLines(a, b)
    requires forall p | p in Picks(a, want, c) :: OrderingFactor(c, p.product) == OrderingFactor(d, p.product)
    ensures Picks(b, want, d) == Picks(a, want, c)
  {
    if a != [] {
      var n := |a| - 1;
      assert SameLines(a[..n], b[..n]);
      SamePicks(a[..n], b[..n], want, c, d);
      if a[n].id in want {
        var ps := Picks(a, want, c);
        assert ps[|ps| - 1] in ps && ps[|ps| - 1].product == a[n].product;
      }
    }
  }

  lemma {:induction false} AllPosted(picks: seq<Pick>, id: nat, batch: PoBatch, posted: set<Key>)
    requires forall p | p in picks :: PickKey(id, batch, p) in posted
    ensures Unposted(picks, id, batch, posted) == []
  {
    if picks != [] { AllPosted(picks[..|picks| - 1], id, batch, posted); }
  }

  // Every pick of a receive has its key in the ledger afterwards.
  lemma {:induction false} ReceiptKeysPosted(w: Books, id: nat, dto: ReceiveDto)
    requires Inv(w) && ReadOrder(w, id, dto).Selected?
    ensures var c := ReadOrder(w, id, dto).call;
      forall p | p in c.picks :: PickKey(id, c.batch, p) in Keys(ReceiveStep(w, id, dto).0.store.ledger)
  {
    hide Inv, PostAll, CallOk, Increment, StatusAfter, LinesPresent, Unposted, Receivable;
    AtOnceOrders(w);
    AtOnceOk(w, id, dto);
    AtOnceNeverAborts(w, id, dto);
    var c := AtOnce(w, id, dto);
    OrderOfRead(w, id, dto);
    UnpostedMembers(c.picks, id, c.batch, Keys(w.store.ledger));
    var ps := PickPostings(c.todo.value, id, c.batch);
    PostAllEffect(w.store, ps);
    forall p | p in c.todo.value ensures PickKey(id, c.batch, p) in PostingKeys(ps) {
      var i :| 0 <= i < |c.todo.value| && c.todo.value[i] == p;
      assert ps[i] in ps;
    }
  }

  // At any moment a receive changes nothing exactly when it is refused or all its
  // line keys are taken; the keys name the base quantities of the moment.
  lemma {:induction false} ReceiveChangesNothingIff(w: Books, id: nat, dto: ReceiveDto)
    requires Inv(w)
    ensures ReceiveStep(w, id, dto).0 == w <==>
            !ReadOrder(w, id, dto).Selected? ||
            forall p | p in ReadOrder(w, id, dto).call.picks :: PickKey(id, ReadOrder(w, id, dto).call.batch, p) in Keys(w.store.ledger)
  {
    hide Inv, CallOk, Unposted, ReadOrder, PostAll, Goes;
    if ReadOrder(w, id, dto).Selected? {
      OrderOfRead(w, id, dto);
      var c := AtOnce(w, id, dto);
      UnpostedMembers(c.picks, id, c.batch, Keys(w.store.ledger));
      AtOnceGoes(w, id, dto);
      assert c.todo.value == [] || c.todo.value[0] in c.todo.value;
      if c.todo.value == [] {
        assert forall p | p in c.picks :: p !in c.todo.value;
      } else {
        ChangesLedger(w, c);
      }
    }
  }

  lemma {:induction false} AtOnceGoes(w: Books, id: nat, dto: ReceiveDto)
    requires Inv(w) && ReadOrder(w, id, dto).Selected?
    ensures var c := AtOnce(w, id, dto);
      && c.order == id && c.todo.Some?
      && (c.todo.value != [] ==> Goes(w, c))
      && ReceiveStep(w, id, dto) == ReceiveCommit(w, c)
  {
    hide Inv, CallOk, Unposted, PostAll, Increment, StatusAfter, LinesPresent;
    AtOnceOrders(w);
    AtOnceOk(w, id, dto);
    AtOnceNeverAborts(w, id, dto);
  }

  lemma {:induction false} ChangesLedger(w: Books, c: ReceiveCall)
    requires Goes(w, c)
    ensures ReceiveCommit(w, c).0 != w
  {
    hide PostAll, ReceiveCommit, LinesPresent, Increment, StatusAfter;
    GoesOrNothing(w, c);
    PostAllEffect(w.store, PickPostings(c.todo.value, c.order, c.batch));
    assert |Postings(ReceiveCommit(w, c).0.store.ledger)| > |Postings(w.store.ledger)|;
  }

  // The call read the order in u, and looked its keys up at some moment since.
  ghost predicate Carried(u: Books, id: nat, dto: ReceiveDto, actions: seq<Action>, c: ReceiveCall) {
    && ReadOrder(u, id, dto).Selected?
    && exists j :: 0 <= j <= |actions| && c == LookUp(ReadOrder(u, id, dto).call, Keys(Run(u, actions[..j]).store.ledger))
  }

  lemma {:induction false} RunConcat(w: Books, a: seq<Action>, b: seq<Action>)
    ensures Run(w, a + b) == Run(Run(w, a), b)
  {
    hide Next;
    if b == [] {
      assert a + b == a;
    } else {
      RunConcat(w, a, b[..|b| - 1]);
      assert (a + b)[..|a + b| - 1] == a + b[..|b| - 1];
    }
  }

  lemma {:induction false} CarriedCall(u: Books, id: nat, dto: ReceiveDto, actions: seq<Action>, c: ReceiveCall)
    requires Inv(u) && Carried(u, id, dto, actions, c)
    ensures ReadOrder(u, id, dto).Selected? && c.todo.Some? && c.order == id && c.picks == ReadOrder(u, id, dto).call.picks && c.batch == ReadOrder(u, id, dto).call.batch
    ensures forall p | p in c.picks :: p in c.todo.value || PickKey(id, c.batch, p) in Keys(Run(u, actions).store.ledger)
  {
    hide Inv, Run, Evolves, Unposted, ReadOrder;
    OrderOfRead(u, id, dto);
    var r := ReadOrder(u, id, dto).call;
    var j :| 0 <= j <= |actions| && c == LookUp(r, Keys(Run(u, actions[..j]).store.ledger));
    var mid := Run(u, actions[..j]);
    UnpostedMembers(r.picks, r.order, r.batch, Keys(mid.store.ledger));
    RunKeeps(u, actions[..j]);
    RunEvolves(mid, actions[j..]);
    RunConcat(u, actions[..j], actions[j..]);
    assert actions[..j] + actions[j..] == actions;
  }

  // Every pick of a call whose commit did not abort has its key in the ledger then.
  lemma {:induction false} CommittedKeys(w: Books, call: nat)
    requires call in w.receiving && w.receiving[call].todo.Some? && Do(w, CommitReceive(call)).1.Posted?
    requires var c := w.receiving[call];
      forall p | p in c.picks :: p in c.todo.value || PickKey(c.order, c.batch, p) in Keys(w.store.ledger)
    ensures var c := w.receiving[call];
      forall p | p in c.picks :: PickKey(c.order, c.batch, p) in Keys(Next(w, CommitReceive(call)).store.ledger)
  {
    hide PostAll, Increment, StatusAfter, LinesPresent;
    var c := w.receiving[call];
    var ps := PickPostings(c.todo.value, c.order, c.batch);
    PostAllEffect(w.store, ps);
    forall p | p in c.todo.value ensures PickKey(c.order, c.batch, p) in PostingKeys(ps) {
      var i :| 0 <= i < |c.todo.value| && c.todo.value[i] == p;
      assert ps[i] in ps;
    }
  }

  // A receive with what an earlier one had read, while its keys are posted.
  lemma {:induction false} SameReadChangesNothing(u: Books, id: nat, dto: ReceiveDto, v: Books, dto': ReceiveDto)
    requires Inv(u) && Inv(v) && Evolves(u, v) && ReadOrder(u, id, dto).Selected?
    requires forall r | r in dto.lines :: r.line < u.nextId
    requires id in v.orders ==> ResolvedScope(v.orders[id], dto') == ResolvedScope(u.orders[id], dto)
    requires var c := ReadOrder(u, id, dto).call;
      && (forall p | p in c.picks :: OrderingFactor(u.catalog, p.product) == OrderingFactor(v.catalog, p.product))
      && forall p | p in c.picks :: PickKey(id, c.batch, p) in Keys(v.store.ledger)
    requires dto'.day == dto.day && dto'.lines == dto.lines
    ensures ReceiveStep(v, id, dto').0 == v
  {
    hide Inv, CallOk, Unposted, PostAll, Picks, WantMap, BatchLines, ReceiveCommit, LinesEvolve, OrderingFactor, WithinRemaining, LineIdsDistinct;
    ReceiveChangesNothingIff(v, id, dto');
    if ReadOrder(v, id, dto').Selected? {
      NotAllNew(v.orders[id].lines, dto.lines, v.catalog, u.nextId);
      OneOrNew(u.orders[id].lines, v.orders[id].lines, u.nextId);
      SamePicks(u.orders[id].lines, v.orders[id].lines, WantMap(dto.lines), u.catalog, v.catalog);
    }
  }

  // A receive reads the order, looks its keys up later, and commits later still,
  // anything running in between. Repeating it with the same scope, date and lines,
  // after any interleaving that left its products' factors as it had read them,
  // changes nothing.
  lemma {:induction false} ReplayChangesNothing(u: Books, id: nat, dto: ReceiveDto, before: seq<Action>, call: nat, after: seq<Action>, dto': ReceiveDto)
    requires Inv(u) && call in Run(u, before).receiving && Carried(u, id, dto, before, Run(u, before).receiving[call])
    requires Do(Run(u, before), CommitReceive(call)).1.Posted?
    requires forall r | r in dto.lines :: r.line < u.nextId   // ids that have been given out
    requires var v := Run(Next(Run(u, before), CommitReceive(call)), after);
      && (id in v.orders ==> ResolvedScope(v.orders[id], dto') == ResolvedScope(u.orders[id], dto))
      && forall p | p in ReadOrder(u, id, dto).call.picks :: OrderingFactor(u.catalog, p.product) == OrderingFactor(v.catalog, p.product)
    requires dto'.day == dto.day && dto'.lines == dto.lines
    ensures var v := Run(Next(Run(u, before), CommitReceive(call)), after); ReceiveStep(v, id, dto').0 == v
  {
    hide Inv, Run, Do, CallOk, LinesEvolve, OrderingFactor, ReadOrder, Carried, ReceiveStep, ResolvedScope;
    var w, x := Run(u, before), CommitReceive(call);
    CarriedCall(u, id, dto, before, w.receiving[call]);
    CommittedKeys(w, call);
    RunEvolves(u, before);
    StepKeeps(w, x);
    StepEvolves(w, x);
    RunEvolves(Next(w, x), after);
    EvolvesOn(u, w, Next(w, x));
    EvolvesOn(u, Next(w, x), Run(Next(w, x), after));
    SameReadChangesNothing(u, id, dto, Run(Next(w, x), after), dto');
  }

  // The same for a receive with nobody in between.
  lemma {:induction false} ReplayOfWholeCall(u: Books, id: nat, dto: ReceiveDto, after: seq<Action>, dto': ReceiveDto)
    requires Inv(u) && ReadOrder(u, id, dto).Selected?
    requires forall r | r in dto.lines :: r.line < u.nextId
    requires var v := Run(ReceiveStep(u, id, dto).0, after);
      && (id in v.orders ==> ResolvedScope(v.orders[id], dto') == ResolvedScope(u.orders[id], dto))
      && forall p | p in ReadOrder(u, id, dto).call.picks :: OrderingFactor(u.catalog, p.product) == OrderingFactor(v.catalog, p.product)
    requires dto'.day == dto.day && dto'.lines == dto.lines
    ensures var v := Run(ReceiveStep(u, id, dto).0, after); ReceiveStep(v, id, dto').0 == v
  {
    hide Inv, Run, CallOk, LinesEvolve, OrderingFactor, ReadOrder, ReceiveStep, ResolvedScope;
    var w := ReceiveStep(u, id, dto).0;
    StepKeeps(u, Receive(id, dto));
    StepEvolves(u, Receive(id, dto));
    RunEvolves(w, after);
    EvolvesOn(u, w, Run(w, after));
    ReceiptKeysPosted(u, id, dto);
    SameReadChangesNothing(u, id, dto, Run(w, after), dto');
  }

  // Every call in flight was read at some moment, and looked its keys up since.
  lemma {:induction false} CallWasCarried(w: Books, actions: seq<Action>, call: nat)
    requires w.receiving == map[] && call in Run(w, actions).receiving
    ensures var c := Run(w, actions).receiving[call];
      exists n, id, dto :: 0 <= n <= |actions| && CarriedFrom(w, actions, n, id, dto, c)
  {
    hide Carried, LookUp, ReadOrder, ReceiveCommit, UpdateCommit, PrepareUpdate, CreateStep, CancelStep, ReceiveStep, UpdateStep;
    var m := |actions| - 1;
    if actions != [] {
      var v, c := Run(w, actions[..m]), Run(w, actions).receiving[call];
      ReceivingKept(v, actions[m], call);
      if call in v.receiving {
        CallWasCarried(w, actions[..m], call);
        var n, id, dto :| 0 <= n <= m && CarriedFrom(w, actions[..m], n, id, dto, v.receiving[call]);
        CarriedOn(w, actions, n, id, dto, v.receiving[call]);
      } else {
        var a := actions[m];
        assert actions[m..] == [a];
        assert CarriedFrom(w, actions, m, a.id, a.receive, c);
      }
    }
  }

  ghost predicate CarriedFrom(w: Books, actions: seq<Action>, n: nat, id: nat, dto: ReceiveDto, c: ReceiveCall) {
    && n <= |actions|
    && var u := Run(w, actions[..n]);
    && ReadOrder(u, id, dto).Selected?
    && (c == ReadOrder(u, id, dto).call || Carried(u, id, dto, actions[n..], c))
  }

  lemma {:induction false} ReceivingKept(v: Books, a: Action, call: nat)
    requires call in Next(v, a).receiving
    ensures if call in v.receiving
      then Next(v, a).receiving[call] == v.receiving[call]
           || (a == LookUpKeys(call) && v.receiving[call].todo.None? && Next(v, a).receiving[call] == LookUp(v.receiving[call], Keys(v.store.ledger)))
      else a.BeginReceive? && a.call == call && ReadOrder(v, a.id, a.receive).Selected? && Next(v, a).receiving[call] == ReadOrder(v, a.id, a.receive).call
  {
    hide LookUp, ReadOrder, PostAll, Increment, LinesPresent, StatusAfter, Insert, ProductsDistinct, PrepareUpdate, Prepare, InputsValid;
  }

  // A call read at n is carried over one more action, looking its keys up or not.
  lemma {:induction false} CarriedOn(w: Books, actions: seq<Action>, n: nat, id: nat, dto: ReceiveDto, c: ReceiveCall)
    requires actions != [] && n < |actions| && CarriedFrom(w, actions[..|actions| - 1], n, id, dto, c)
    ensures CarriedFrom(w, actions, n, id, dto, c)
    ensures c.todo.None? ==> CarriedFrom(w, actions, n, id, dto, LookUp(c, Keys(Run(w, actions[..|actions| - 1]).store.ledger)))
  {
    hide LookUp, ReadOrder, Next;
    var m := |actions| - 1;
    var u, front := Run(w, actions[..n]), actions[..m];
    assert front[..n] == actions[..n] && actions[n..][..m - n] == front[n..];
    if Carried(u, id, dto, front[n..], c) {
      var j :| 0 <= j <= |front[n..]| && c == LookUp(ReadOrder(u, id, dto).call, Keys(Run(u, front[n..][..j]).store.ledger));
      assert actions[n..][..j] == front[n..][..j];
      assert Carried(u, id, dto, actions[n..], c);
      LookedUp(ReadOrder(u, id, dto).call, Keys(Run(u, front[n..][..j]).store.ledger));
    } else {
      RunConcat(w, actions[..n], front[n..]);
      assert actions[..n] + front[n..] == front;
      assert Run(u, actions[n..][..m - n]) == Run(w, front);
    }
  }

  lemma {:induction false} LookedUp(c: ReceiveCall, posted: set<Key>)
    ensures LookUp(c, posted).todo.Some?
  {}

  lemma {:induction false} EvolvesOn(a: Books, b: Books, c: Books)
    requires Evolves(a, b) && Evolves(b, c)
    ensures Evolves(a, c)
  {
    hide LinesEvolve;
    forall k | k in a.orders ensures k in c.orders && LinesEvolve(a.orders[k].lines, c.orders[k].lines, a.nextId) {
      EvolveTwice(a.orders[k].lines, b.orders[k].lines, c.orders[k].lines, a.nextId, b.nextId);
    }
  }

  lemma {:induction false} OneOrNew(a: seq<PoLine>, b: seq<PoLine>, n: nat)
    requires LinesEvolve(a, b, n)
    ensures SameLines(a, b) || forall l | l in b :: l.id >= n
  {}

  // A payload cannot name lines that were inserted after it was first sent.
  lemma {:induction false} NotAllNew(lines: seq<PoLine>, named: seq<ReceiveLine>, catalog: map<ProductId, Product>, n: nat)
    requires forall r | r in named :: r.line < n
    ensures (forall l | l in lines :: l.id >= n) ==> Picks(lines, WantMap(named), catalog) == []
  {
    WantedNamed(named);
    if forall l | l in lines :: l.id >= n { NoneWanted(lines, WantMap(named), catalog, n); }
  }

  lemma {:induction false} WantedNamed(named: seq<ReceiveLine>)
    ensures forall k | k in WantMap(named) :: exists r :: r in named && r.line == k
  {
    if named != [] {
      WantedNamed(named[..|named| - 1]);
      assert named == named[..|named| - 1] + [named[|named| - 1]];
    }
  }

  lemma {:induction false} NoneWanted(lines: seq<PoLine>, want: map<nat, int>, catalog: map<ProductId, Product>, n: nat)
    requires (forall l | l in lines :: l.id >= n) && forall k | k in want :: k < n
    ensures Picks(lines, want, catalog) == []
  {
    if lines != [] { NoneWanted(lines[..|lines| - 1], want, catalog, n); }
  }

  // ---- Low stock ----

  datatype ParLevel = ParLevel(product: ProductId, scope: Scope, par: int)
  datatype LowItem = LowItem(product: ProductId, onHand: int, par: int, suggested: int)

  // Math.ceil of a quotient of whole numbers.
  function CeilDiv(a: int, b: int): int
    requires b >= 1
  {
    (a + b - 1) / b
  }

  function LowStock(pars: seq<ParLevel>, scope: Scope, b: Balances, catalog: map<ProductId, Product>): seq<LowItem> {
    if pars == [] then [] else
      var p := pars[|pars| - 1];
      var onHand := OnHand(b, p.product, scope);
      LowStock(pars[..|pars| - 1], scope, b, catalog) +
      (if p.scope != scope || onHand >= p.par then []
       else [LowItem(p.product, onHand, p.par, CeilDiv(p.par - onHand, OrderingFactor(catalog, p.product)))])
  }

  lemma {:induction false} CeilIsLeast(shortage: int, factor: int, k: int)
    requires shortage > 0 && factor >= 1
    ensures k * factor >= shortage <==> k >= CeilDiv(shortage, factor)
  {
    var c := CeilDiv(shortage, factor);
    var r := (shortage + factor - 1) % factor;
    assert c * factor == shortage + factor - 1 - r;
    if k >= c {
      assert (k - c) * factor >= 0;
      assert k * factor == c * factor + (k - c) * factor;
    } else {
      assert (c - 1 - k) * factor >= 0;
      assert k * factor == c * factor - factor - (c - 1 - k) * factor;
    }
  }

  ghost predicate ParsUnique(pars: seq<ParLevel>) {
    forall i, j | 0 <= i < j < |pars| :: pars[i].product != pars[j].product || pars[i].scope != pars[j].scope
  }

  ghost predicate Listed(items: seq<LowItem>, product: ProductId) {
    exists item :: item in items && item.product == product
  }

  lemma {:induction false} LowStockItems(pars: seq<ParLevel>, scope: Scope, b: Balances, catalog: map<ProductId, Product>, item: LowItem)
    requires item in LowStock(pars, scope, b, catalog)
    ensures ParLevel(item.product, scope, item.par) in pars
    ensures item.onHand == OnHand(b, item.product, scope) && item.onHand < item.par
    ensures item.suggested == CeilDiv(item.par - item.onHand, OrderingFactor(catalog, item.product))
  {
    var front := pars[..|pars| - 1];
    assert pars == front + [pars[|pars| - 1]];
    if item in LowStock(front, scope, b, catalog) { LowStockItems(front, scope, b, catalog, item); }
  }

  lemma {:induction false} ListedIffBelowPar(pars: seq<ParLevel>, scope: Scope, b: Balances, catalog: map<ProductId, Product>, product: ProductId, par: int)
    requires ParsUnique(pars) && ParLevel(product, scope, par) in pars
    ensures Listed(LowStock(pars, scope, b, catalog), product) <==> OnHand(b, product, scope) < par
  {
    var front, last := pars[..|pars| - 1], pars[|pars| - 1];
    assert pars == front + [last];
    var fs, items := LowStock(front, scope, b, catalog), LowStock(pars, scope, b, catalog);
    if last == ParLevel(product, scope, par) {
      forall item | item in fs ensures item.product != product {
        LowStockItems(front, scope, b, catalog, item);
        var i :| 0 <= i < |front| && front[i] == ParLevel(item.product, scope, item.par);
        assert pars[i] == front[i];
      }
      if OnHand(b, product, scope) < par { assert items[|fs|] in items; }
    } else {
      var i :| 0 <= i < |front| && front[i] == ParLevel(product, scope, par);
      assert pars[i].product != last.product || pars[i].scope != last.scope;
      ListedIffBelowPar(front, scope, b, catalog, product, par);
      assert forall item :: item in fs ==> item in items;
    }
  }

  lemma {:induction false} PicksOnHand(picks: seq<Pick>, id: nat, batch: PoBatch, product: ProductId, line: nat)
    requires forall p | p in picks :: p.product == product <==> p.line == line
    ensures Net(PickPostings(picks, id, batch), Pair(product, batch.scope)) == BaseFor(picks, line)
  {
    if picks != [] {
      var front, last := picks[..|picks| - 1], picks[|picks| - 1];
      assert picks == front + [last];
      PicksOnHand(front, id, batch, product, line);
      assert PickPostings(picks, id, batch)[..|picks| - 1] == PickPostings(front, id, batch);
    }
  }

  // A receive raises the on-hand balance of a product it posts by exactly the base
  // quantity it took; with nobody in between, the units times the ordering factor.
  lemma {:induction false} ReceiptRaisesOnHand(w: Books, c: ReceiveCall, p: Pick)
    requires Inv(w) && CallOk(w, c) && Goes(w, c) && p in c.todo.value
    ensures OnHand(ReceiveCommit(w, c).0.store.balances, p.product, c.batch.scope)
            == OnHand(w.store.balances, p.product, c.batch.scope) + p.base
  {
    hide PostAll, CallsOk, UpdatesOk, EntriesOk, OrdersOk, PickOk, ReceiveCommit, StatusAfter, Increment, LinesPresent;
    GoesOrNothing(w, c);
    var todo := c.todo.value;
    PostAllEffect(w.store, PickPostings(todo, c.order, c.batch));
    forall q | q in todo ensures q.product == p.product <==> q.line == p.line {
      var i :| 0 <= i < |todo| && todo[i] == p;
      var j :| 0 <= j < |todo| && todo[j] == q;
    }
    PicksOnHand(todo, c.order, c.batch, p.product, p.line);
    ForOneLine(todo, p.line);
  }

  // The suggestion is exactly enough: a receive into the scope, the one it names or
  // the order's, takes the product off the list if and only if it brings at least the
  // suggested quantity.
  lemma {:induction false} SuggestionClosesTheGap(w: Books, id: nat, dto: ReceiveDto, p: Pick, pars: seq<ParLevel>, item: LowItem, scope: Scope)
    requires Inv(w) && id in w.orders && ReadOrder(w, id, dto).Selected? && p in AtOnce(w, id, dto).todo.value
    requires scope == (match dto.scope { case Some(s) => s case None => w.orders[id].shipTo })
    requires ParsUnique(pars) && item.product == p.product
    requires item in LowStock(pars, scope, w.store.balances, w.catalog)
    ensures item.suggested >= 1
    ensures var w' := ReceiveStep(w, id, dto).0;
      Listed(LowStock(pars, scope, w'.store.balances, w'.catalog), p.product) <==> p.quantity < item.suggested
  {
    hide Inv, CallOk, Unposted, PostAll, LowStock, CeilDiv, OrderingFactor, Listed, OnHand, ReceiveCommit, Goes, Receivable, Picks, PickFrom, ResolvedScope, ParsUnique, ReadOrder;
    ReadIs(w, id, dto);
    var c, w' := AtOnce(w, id, dto), ReceiveStep(w, id, dto).0;
    AtOnceOrders(w);
    AtOnceOk(w, id, dto);
    AtOnceGoes(w, id, dto);
    ReceiptRaisesOnHand(w, c, p);
    GoesOrNothing(w, c);
    PickBases(w.orders[id].lines, WantMap(dto.lines), w.catalog);
    LowStockItems(pars, scope, w.store.balances, w.catalog, item);
    ListedIffBelowPar(pars, scope, w'.store.balances, w'.catalog, p.product, item.par);
    CeilIsLeast(item.par - item.onHand, OrderingFactor(w.catalog, p.product), p.quantity);
    CeilIsLeast(item.par - item.onHand, OrderingFactor(w.catalog, p.product), 0);
  }

  lemma {:induction false} ReadIs(w: Books, id: nat, dto: ReceiveDto)
    requires ReadOrder(w, id, dto).Selected?
    ensures var c := ReadOrder(w, id, dto).call;
      && c.picks == Picks(w.orders[id].lines, WantMap(dto.lines), w.catalog)
      && c.batch.scope == (match dto.scope { case Some(s) => s case None => w.orders[id].shipTo })
  {
    hide Picks, WantMap, BatchLines, WithinRemaining, LineIdsDistinct;
  }

  // ---- Factors that change in between ----

  const TEN: Product := ProductRow("oz", "can", "case", 1, 1, 10)
  const CASES := Books(Empty, map[], [], map["p" := TEN], 0, map[], map[])

  lemma {:induction false} OrdersOne(w: Books, q: int, status: PoStatus)
    requires w.orders == map[] && w.nextId == 0 && "p" in w.catalog && q > 0
    ensures Next(w, Create("", Some(status), [OrderInput("p", q)])).orders
            == map[0 := Po("WAREHOUSE", status, [PoLine(1, "p", q, q * w.catalog["p"].orderingToBase, 0, 0)])]
  {
    var f := w.catalog["p"].orderingToBase;
    WholeToBase(q, f);
    assert Insert(Prepare([OrderInput("p", q)], w.catalog), 1) == [PoLine(1, "p", q, q * f, 0, 0)];
    assert Next(w, Create("", Some(status), [OrderInput("p", q)])).orders[0]
        == Po("WAREHOUSE", status, [PoLine(1, "p", q, q * f, 0, 0)]);
  }

  // One receive of an order of one line, with its key free.
  lemma {:induction false} ReceivesOne(w: Books, q: int, l: PoLine)
    requires 0 in w.orders && w.orders[0].shipTo == "WAREHOUSE" && w.orders[0].lines == [l]
    requires w.orders[0].status != Received && w.orders[0].status != Cancelled
    requires l.id == 1 && l.product == "p" && 0 < q <= l.ordered - l.received
    requires var f := OrderingFactor(w.catalog, "p"); PickKey(0, CallOf(q, f, w.orders[0].status).batch, PickOf(q, f)) !in Keys(w.store.ledger)
    ensures var f, w' := OrderingFactor(w.catalog, "p"), Next(w, Receive(0, Arrive(q)));
      && 0 in w'.orders && w'.catalog == w.catalog
      && w'.orders[0].lines == [l.(received := l.received + q, receivedBase := l.receivedBase + q * f)]
      && w'.orders[0].status == StatusAfter(w'.orders[0].lines, w.orders[0].status)
      && w'.orders[0].shipTo == "WAREHOUSE"
      && Keys(w'.store.ledger) == Keys(w.store.ledger) + {PickKey(0, CallOf(q, f, w.orders[0].status).batch, PickOf(q, f))}
  {
    hide OrderingFactor, ReadOrder, LookUp, ReceiveCommit, Goes, StatusAfter;
    var f := OrderingFactor(w.catalog, "p");
    var c := CallOf(q, f, w.orders[0].status);
    Reads(w, q, l);
    assert q * f > 0;
    OnePickGoes(w, c, PickOf(q, f), l);
    ShipToStays(w, c);
  }

  lemma {:induction false} ShipToStays(w: Books, c: ReceiveCall)
    requires Goes(w, c)
    ensures var w' := ReceiveCommit(w, c).0;
      && c.order in w'.orders && w'.orders[c.order].shipTo == w.orders[c.order].shipTo
      && w'.orders[c.order].status == StatusAfter(w'.orders[c.order].lines, c.status)
  {
    hide PostAll, Increment, StatusAfter;
  }

  // One case of ten is ordered, the factor drops to one, the case arrives, and the
  // order stays open.
  lemma {:induction false} FactorChangeLeavesOrderOpen()
    ensures Initial(CASES)
    ensures var w := Run(CASES, [Create("", Some(Placed), [OrderInput("p", 1)])] + [SetProduct("p", UNIT)] + [Receive(0, Arrive(1))]);
      && 0 in w.orders && w.orders[0].lines == [PoLine(1, "p", 1, 10, 1, 1)]
      && w.orders[0].status == PartiallyReceived
  {
    hide Run, CreateStep, ReceiveStep;
    var a := Create("", Some(Placed), [OrderInput("p", 1)]);
    RunNone(CASES);
    RunSnoc(CASES, [], a);
    assert [] + [a] == [a];
    RunSnoc(CASES, [a], SetProduct("p", UNIT));
    RunSnoc(CASES, [a] + [SetProduct("p", UNIT)], Receive(0, Arrive(1)));
    OrdersOne(CASES, 1, Placed);
    CreateKeepsStore(CASES, "", Some(Placed), [OrderInput("p", 1)]);
    var w := Next(Next(CASES, a), SetProduct("p", UNIT));
    assert Keys(w.store.ledger) == {};
    ReceivesOne(w, 1, PoLine(1, "p", 1, 10, 0, 0));
    assert PoLine(1, "p", 1, 10, 1, 1) in [PoLine(1, "p", 1, 10, 1, 1)];
  }

  lemma {:induction false} CreateKeepsStore(w: Books, shipTo: Scope, status: Option<PoStatus>, inputs: seq<OrderInput>)
    ensures var w' := CreateStep(w, shipTo, status, inputs).0; w'.store == w.store && w'.catalog == w.catalog
  {}

  // Two are ordered and one arrives; after the factor changed, the same call is a
  // new batch and posts again.
  lemma {:induction false} NewFactorPostsAgain()
    ensures Initial(SHELF)
    ensures var again := Receive(0, Arrive(1));
      var w := Run(SHELF, [Create("", Some(Placed), [OrderInput("p", 2)])] + [again] + [SetProduct("p", TEN)]);
      && 0 in w.orders && w.orders[0].lines == [PoLine(1, "p", 2, 2, 1, 1)]
      && 0 in Next(w, again).orders && Next(w, again).orders[0].lines == [PoLine(1, "p", 2, 2, 2, 11)]
  {
    hide Run, CreateStep, ReceiveStep;
    var a, again := Create("", Some(Placed), [OrderInput("p", 2)]), Receive(0, Arrive(1));
    RunNone(SHELF);
    RunSnoc(SHELF, [], a);
    assert [] + [a] == [a];
    RunSnoc(SHELF, [a], again);
    RunSnoc(SHELF, [a] + [again], SetProduct("p", TEN));
    OrdersOne(SHELF, 2, Placed);
    CreateKeepsStore(SHELF, "", Some(Placed), [OrderInput("p", 2)]);
    var w := Next(SHELF, a);
    assert Keys(w.store.ledger) == {};
    ReceivesOne(w, 1, PoLine(1, "p", 2, 2, 0, 0));
    var w1 := Next(w, again);
    assert PoLine(1, "p", 2, 2, 1, 1) in [PoLine(1, "p", 2, 2, 1, 1)];
    assert map[1 := 1][1] != map[1 := 10][1];
    ReceivesOne(Next(w1, SetProduct("p", TEN)), 1, PoLine(1, "p", 2, 2, 1, 1));
  }
}
