// What an order holds after a call, which receives are taken, and where their stock
// goes, in terms of the payload and the ordering factors.
module PurchaseOrderContent {
  import opened Basics
  import opened Ledger
  import opened Units
  import opened PurchaseOrders
  import opened PurchaseOrderRuns
  import opened PurchaseOrderReceipts
  import R = PurchaseOrderReconciliation

  // ---- Content of an order ----

  // One line per input, in order: so many ordering units, their base units at the
  // factor of the moment, and nothing received.
  ghost predicate Orders(lines: seq<PoLine>, inputs: seq<OrderInput>, catalog: map<ProductId, Product>) {
    && |lines| == |inputs|
    && forall i | 0 <= i < |inputs| ::
         && inputs[i].product in catalog
         && lines[i].product == inputs[i].product && lines[i].ordered == inputs[i].ordered
         && lines[i].orderedBase == inputs[i].ordered * catalog[inputs[i].product].orderingToBase
         && lines[i].received == 0 && lines[i].receivedBase == 0
  }

  // Known products, each once, and more than nothing of each.
  ghost predicate InputsSound(inputs: seq<OrderInput>, catalog: map<ProductId, Product>) {
    && (forall i | 0 <= i < |inputs| :: inputs[i].product in catalog && inputs[i].ordered > 0)
    && forall i, j | 0 <= i < j < |inputs| :: inputs[i].product != inputs[j].product
  }

  // Each input is sound by itself.
  ghost predicate EachSound(inputs: seq<OrderInput>, catalog: map<ProductId, Product>) {
    forall i | 0 <= i < |inputs| :: inputs[i].product in catalog && inputs[i].ordered > 0
  }

  lemma {:induction false} SoundIff(inputs: seq<OrderInput>, catalog: map<ProductId, Product>)
    ensures InputsValid(inputs, catalog) && ProductsDistinct(Prepare(inputs, catalog)) <==> InputsSound(inputs, catalog)
    ensures InputsValid(inputs, catalog) <==> EachSound(inputs, catalog)
  {
    hide ToBase, OrderingFactor;
    var ps := Prepare(inputs, catalog);
    if InputsValid(inputs, catalog) {
      forall i | 0 <= i < |inputs| ensures inputs[i].product in catalog && inputs[i].ordered > 0 { assert inputs[i] in inputs; }
    }
    if ProductsDistinct(ps) {
      forall i, j | 0 <= i < j < |inputs| ensures inputs[i].product != inputs[j].product { assert ps[i].product != ps[j].product; }
    }
    if InputsSound(inputs, catalog) {
      forall i, j | 0 <= i < j < |ps| ensures ps[i].product != ps[j].product { assert inputs[i].product != inputs[j].product; }
    }
  }

  lemma {:induction false} InsertedOrders(inputs: seq<OrderInput>, first: nat, catalog: map<ProductId, Product>)
    requires InputsSound(inputs, catalog)
    ensures Orders(Insert(Prepare(inputs, catalog), first), inputs, catalog)
  {
    hide ToBase;
    forall i | 0 <= i < |inputs|
      ensures ToBase(inputs[i].ordered as real, OrderingFactor(catalog, inputs[i].product)) == inputs[i].ordered * catalog[inputs[i].product].orderingToBase
    {
      WholeToBase(inputs[i].ordered, catalog[inputs[i].product].orderingToBase);
    }
  }

  // A new order is made exactly of sound inputs, for the place named or the warehouse,
  // a draft if nothing else is said; otherwise nothing happens.
  lemma {:induction false} CreateStores(w: Books, shipTo: Scope, status: Option<PoStatus>, inputs: seq<OrderInput>)
    ensures CreateStep(w, shipTo, status, inputs).1.Done? <==> InputsSound(inputs, w.catalog)
    ensures !InputsSound(inputs, w.catalog) ==> CreateStep(w, shipTo, status, inputs).0 == w
    ensures CreateStep(w, shipTo, status, inputs).1 == Conflict <==> !InputsSound(inputs, w.catalog) && EachSound(inputs, w.catalog)
    ensures CreateStep(w, shipTo, status, inputs).1 == BadRequest <==> !EachSound(inputs, w.catalog)
    ensures InputsSound(inputs, w.catalog) ==>
      var (w', o) := CreateStep(w, shipTo, status, inputs);
      && o.id == w.nextId && o.id in w'.orders && w' == w.(orders := w.orders[o.id := w'.orders[o.id]], nextId := w'.nextId)
      && Orders(w'.orders[o.id].lines, inputs, w.catalog)
      && w'.orders[o.id].shipTo == (if shipTo == "" then "WAREHOUSE" else shipTo)
      && w'.orders[o.id].status == (match status { case Some(s) => s case None => Draft })
  {
    hide Prepare, Insert, InputsValid, ProductsDistinct;
    SoundIff(inputs, w.catalog);
    if InputsSound(inputs, w.catalog) { InsertedOrders(inputs, w.nextId + 1, w.catalog); }
  }

  // An order is changed exactly while open; its lines are replaced only by sound ones,
  // and only before anything is received. What the call leaves out stays.
  lemma {:induction false} UpdateStores(w: Books, id: nat, dto: UpdateDto)
    ensures UpdateStep(w, id, dto).1.Done? <==>
      && id in w.orders && w.orders[id].status !in {Received, Cancelled}
      && (dto.lines.Some? ==> InputsSound(dto.lines.value, w.catalog) && forall l | l in w.orders[id].lines :: l.receivedBase <= 0)
    ensures !UpdateStep(w, id, dto).1.Done? ==> UpdateStep(w, id, dto).0 == w
    ensures UpdateStep(w, id, dto).1 == NotFound <==> id !in w.orders
    ensures UpdateStep(w, id, dto).1 == Conflict <==>
      && id in w.orders && w.orders[id].status !in {Received, Cancelled}
      && dto.lines.Some? && EachSound(dto.lines.value, w.catalog) && !InputsSound(dto.lines.value, w.catalog)
      && forall l | l in w.orders[id].lines :: l.receivedBase <= 0
    ensures UpdateStep(w, id, dto).1.Done? ==>
      var w' := UpdateStep(w, id, dto).0;
      && id in w.orders && id in w'.orders && w' == w.(orders := w.orders[id := w'.orders[id]], nextId := w'.nextId)
      && var (po, po') := (w.orders[id], w'.orders[id]);
      && po'.shipTo == (match dto.shipTo { case Some(s) => s case None => po.shipTo })
      && po'.status == (match dto.status { case Some(s) => s case None => po.status })
      && (match dto.lines { case Some(inputs) => Orders(po'.lines, inputs, w.catalog) case None => po'.lines == po.lines })
  {
    hide Prepare, Insert, InputsValid, ProductsDistinct;
    if dto.lines.Some? {
      SoundIff(dto.lines.value, w.catalog);
      if InputsSound(dto.lines.value, w.catalog) { InsertedOrders(dto.lines.value, w.nextId, w.catalog); }
    }
  }

  // ---- Which receives are taken ----

  // The payload names the line, with this quantity.
  ghost predicate Names(dto: ReceiveDto, line: nat, quantity: int) { ReceiveLine(line, quantity) in dto.lines }

  ghost predicate NamesOnce(dto: ReceiveDto) {
    forall i, j | 0 <= i < j < |dto.lines| :: dto.lines[i].line != dto.lines[j].line
  }

  lemma {:induction false} WantedIs(lines: seq<ReceiveLine>)
    requires LineIdsDistinct(lines)
    ensures forall r | r in lines :: r.line in WantMap(lines) && WantMap(lines)[r.line] == r.quantity
    ensures forall k | k in WantMap(lines) :: ReceiveLine(k, WantMap(lines)[k]) in lines
  {
    if lines != [] {
      var front, last := lines[..|lines| - 1], lines[|lines| - 1];
      assert lines == front + [last];
      WantedIs(front);
      forall r | r in front ensures r.line != last.line {
        var i :| 0 <= i < |front| && front[i] == r;
        assert lines[i].line != lines[|front|].line;
      }
    }
  }

  lemma {:induction false} PicksAre(lines: seq<PoLine>, want: map<nat, int>, catalog: map<ProductId, Product>)
    ensures forall p :: p in Picks(lines, want, catalog) <==>
      exists l :: l in lines && l.id in want && p == Pick(l.id, l.product, want[l.id], ToBase(want[l.id] as real, OrderingFactor(catalog, l.product)))
  {
    hide ToBase, OrderingFactor;
    if lines != [] {
      var front, last := lines[..|lines| - 1], lines[|lines| - 1];
      assert lines == front + [last];
      PicksAre(front, want, catalog);
    }
  }

  ghost predicate OnFile(lines: seq<PoLine>, dto: ReceiveDto) {
    exists l, q :: l in lines && Names(dto, l.id, q)
  }

  // Exactly: of an order neither received nor cancelled, with a date, each line named
  // once, each by no more than remains and more than nothing, and at least one.
  lemma {:induction false} ReceiveTakenIff(w: Books, id: nat, dto: ReceiveDto)
    ensures ReadOrder(w, id, dto).Selected? <==>
      && id in w.orders && w.orders[id].status !in {Cancelled, Received} && dto.day.Some? && NamesOnce(dto)
      && (forall l, q | l in w.orders[id].lines && Names(dto, l.id, q) :: 0 < q <= l.ordered - l.received)
      && OnFile(w.orders[id].lines, dto)
    ensures !ReadOrder(w, id, dto).Selected? ==>
      ReceiveStep(w, id, dto) == (w, if id in w.orders then BadRequest else NotFound)
  {
    hide Picks, WantMap, ToBase, BatchLines, WithinRemaining, OnFile, Names;
    if id in w.orders && NamesOnce(dto) {
      WithinIs(w.orders[id].lines, dto);
      OnFileIs(w.orders[id].lines, dto, w.catalog);
    }
  }

  lemma {:induction false} WithinIs(lines: seq<PoLine>, dto: ReceiveDto)
    requires NamesOnce(dto)
    ensures WithinRemaining(lines, WantMap(dto.lines)) <==> forall l, q | l in lines && Names(dto, l.id, q) :: 0 < q <= l.ordered - l.received
  {
    hide WantMap;
    WantedIs(dto.lines);
    var want := WantMap(dto.lines);
    if WithinRemaining(lines, want) {
      forall l, q | l in lines && Names(dto, l.id, q) ensures 0 < q <= l.ordered - l.received { assert ReceiveLine(l.id, q) in dto.lines; }
    }
    if forall l, q | l in lines && Names(dto, l.id, q) :: 0 < q <= l.ordered - l.received {
      forall l | l in lines && l.id in want ensures 0 < want[l.id] <= l.ordered - l.received { assert Names(dto, l.id, want[l.id]); }
    }
  }

  lemma {:induction false} OnFileIs(lines: seq<PoLine>, dto: ReceiveDto, catalog: map<ProductId, Product>)
    requires NamesOnce(dto)
    ensures Picks(lines, WantMap(dto.lines), catalog) != [] <==> OnFile(lines, dto)
  {
    hide WantMap, Picks, ToBase, OrderingFactor;
    WantedIs(dto.lines);
    var want := WantMap(dto.lines);
    PicksAre(lines, want, catalog);
    var ps := Picks(lines, want, catalog);
    if ps != [] {
      assert ps[0] in ps;
      var l :| l in lines && l.id in want && ps[0].line == l.id;
      assert Names(dto, l.id, want[l.id]);
    }
    if OnFile(lines, dto) {
      var l, q :| l in lines && Names(dto, l.id, q);
      assert ReceiveLine(l.id, q) in dto.lines;
      assert Pick(l.id, l.product, want[l.id], ToBase(want[l.id] as real, OrderingFactor(catalog, l.product))) in ps;
    }
  }

  // ---- Where the stock goes ----

  // Into the scope that the call names, or the order's.
  ghost predicate Target(w: Books, id: nat, dto: ReceiveDto, scope: Scope) {
    id in w.orders && scope == (if dto.scope.Some? then dto.scope.value else w.orders[id].shipTo)
  }

  // Base units of one ordering unit of a product.
  ghost predicate OrderingUnit(catalog: map<ProductId, Product>, product: ProductId, f: int) {
    f == if product in catalog then catalog[product].orderingToBase else 1
  }

  // The order's line of the product is named, and its key is free.
  ghost predicate Posts(w: Books, id: nat, dto: ReceiveDto, l: PoLine, q: int)
    requires ReadOrder(w, id, dto).Selected?
  {
    l in w.orders[id].lines && Names(dto, l.id, q) && PoReceiving(id, ReadOrder(w, id, dto).call.batch, l.product) !in Keys(w.store.ledger)
  }

  lemma {:induction false} PicksPosted(w: Books, id: nat, dto: ReceiveDto)
    requires Inv(w) && ReadOrder(w, id, dto).Selected?
    ensures var todo := AtOnce(w, id, dto).todo.value;
      && (forall l, q, f | Posts(w, id, dto, l, q) && OrderingUnit(w.catalog, l.product, f) :: Pick(l.id, l.product, q, q * f) in todo)
      && (forall p | p in todo :: exists l :: Posts(w, id, dto, l, p.quantity) && l.id == p.line && l.product == p.product)
  {
    hide Picks, WantMap, ToBase, BatchLines, Unposted, Inv, CallOk, PickFrom;
    var lines, want, c := w.orders[id].lines, WantMap(dto.lines), ReadOrder(w, id, dto).call;
    WantedIs(dto.lines);
    PicksAre(lines, want, w.catalog);
    UnpostedMembers(c.picks, c.order, c.batch, Keys(w.store.ledger));
    forall l, q, f | Posts(w, id, dto, l, q) && OrderingUnit(w.catalog, l.product, f) ensures Pick(l.id, l.product, q, q * f) in AtOnce(w, id, dto).todo.value {
      WholeToBase(q, f);
      assert ReceiveLine(l.id, q) in dto.lines;
    }
  }

  // An uninterrupted receive raises every product it posts by its units times the
  // ordering factor, in the scope named or the order's, and moves no other balance.
  lemma {:induction false} ReceiveRaises(w: Books, id: nat, dto: ReceiveDto, product: ProductId, scope: Scope, target: Scope)
    requires Inv(w) && ReadOrder(w, id, dto).Selected? && Target(w, id, dto, target)
    ensures var b, b' := w.store.balances, ReceiveStep(w, id, dto).0.store.balances;
      && (forall l, q, f | Posts(w, id, dto, l, q) && l.product == product && scope == target && OrderingUnit(w.catalog, product, f) ::
            OnHand(b', product, scope) == OnHand(b, product, scope) + q * f)
      && (scope != target || (forall l, q | Posts(w, id, dto, l, q) :: l.product != product) ==>
            OnHand(b', product, scope) == OnHand(b, product, scope))
  {
    hide Inv, CallOk, Unposted, PostAll, ReceiveCommit, Goes, Posts, OrderingUnit, ReadOrder, OnHand, LookUp, Keys;
    var c := AtOnce(w, id, dto);
    WholeCall(w, id, dto);
    PicksPosted(w, id, dto);
    TargetIs(w, id, dto, target);
    if c.todo.value == [] {
      NothingToDo(w, c);
    } else {
      GoesOrNothing(w, c);
      PostAllEffect(w.store, PickPostings(c.todo.value, c.order, c.batch));
      if scope != target {
        NoneThere(c.todo.value, c.order, c.batch, product, scope);
      } else if forall p | p in c.todo.value :: p.product != product {
        NoneThere(c.todo.value, c.order, c.batch, product, scope);
      } else {
        var p :| p in c.todo.value && p.product == product;
        ReceiptRaisesOnHand(w, c, p);
        SamePick(w, c, p);
      }
    }
  }

  lemma {:induction false} WholeCall(w: Books, id: nat, dto: ReceiveDto)
    requires Inv(w) && ReadOrder(w, id, dto).Selected?
    ensures var c := AtOnce(w, id, dto);
      && CallOk(w, c) && c.order == id && c.todo.Some? && c.batch == ReadOrder(w, id, dto).call.batch
      && (c.todo.value != [] ==> Goes(w, c)) && ReceiveStep(w, id, dto) == ReceiveCommit(w, c)
  {
    hide Inv, CallOk, Unposted, PostAll, ReceiveCommit, Goes, Receivable;
    R.AtOnceOrders(w);
    AtOnceOk(w, id, dto);
    AtOnceGoes(w, id, dto);
  }

  lemma {:induction false} TargetIs(w: Books, id: nat, dto: ReceiveDto, target: Scope)
    requires ReadOrder(w, id, dto).Selected? && Target(w, id, dto, target)
    ensures ReadOrder(w, id, dto).call.batch.scope == target
  {
    hide Picks, WantMap, BatchLines, WithinRemaining, LineIdsDistinct;
  }

  lemma {:induction false} NothingToDo(w: Books, c: ReceiveCall)
    requires c.todo == Some([])
    ensures ReceiveCommit(w, c).0 == w
  {}

  lemma {:induction false} NoneThere(picks: seq<Pick>, id: nat, batch: PoBatch, product: ProductId, scope: Scope)
    requires scope != batch.scope || forall p | p in picks :: p.product != product
    ensures Net(PickPostings(picks, id, batch), Pair(product, scope)) == 0
  {
    forall q | q in PickPostings(picks, id, batch) ensures !Matches(Pair(product, scope), q) {
      var i :| 0 <= i < |picks| && PickPostings(picks, id, batch)[i] == q;
      assert picks[i] in picks;
    }
    SelectNone(PickPostings(picks, id, batch), Pair(product, scope));
  }

  // A call has one pick of a product.
  lemma {:induction false} SamePick(w: Books, c: ReceiveCall, p: Pick)
    requires CallOk(w, c) && c.todo.Some? && p in c.todo.value
    ensures forall q | q in c.todo.value && q.product == p.product :: q == p
  {
    hide PickOk;
    var todo := c.todo.value;
    forall q | q in todo && q.product == p.product ensures q == p {
      var i :| 0 <= i < |todo| && todo[i] == p;
      var j :| 0 <= j < |todo| && todo[j] == q;
    }
  }

  // What an uninterrupted receive answers: the entries it made, and the lines it passed
  // over; its entries are receipts of stock.
  lemma {:induction false} ReceiveAnswers(w: Books, id: nat, dto: ReceiveDto)
    requires Inv(w) && ReadOrder(w, id, dto).Selected?
    ensures var (w', o) := ReceiveStep(w, id, dto);
      && o.Posted? && w.store.ledger <= w'.store.ledger && o.posted == |Since(w.store, w'.store)|
      && o.posted + o.skipped == |ReadOrder(w, id, dto).call.picks|
      && forall q | q in Since(w.store, w'.store) :: q.kind == ReceivingPosted && q.key.PoReceiving? && q.key.po == id
  {
    hide Inv, CallOk, PostAll, Goes, ReceiveCommit;
    var c := AtOnce(w, id, dto);
    WholeCall(w, id, dto);
    FewerUnposted(c.picks, c.order, c.batch, Keys(w.store.ledger));
    if c.todo.value == [] {
      NothingToDo(w, c);
      AnswersNothing(w, c);
      assert Postings(w.store.ledger[|w.store.ledger|..]) == [];
    } else {
      GoesOrNothing(w, c);
      var ps := PickPostings(c.todo.value, c.order, c.batch);
      PostAllEffect(w.store, ps);
      var l := ReceiveStep(w, id, dto).0.store.ledger;
      assert Postings(l[|w.store.ledger|..]) == Postings(l)[|w.store.ledger|..] == ps;
    }
  }

  lemma {:induction false} AnswersNothing(w: Books, c: ReceiveCall)
    requires c.order in w.orders && c.todo == Some([])
    ensures ReceiveCommit(w, c).1 == Posted(0, |c.picks|)
  {}

  lemma {:induction false} FewerUnposted(picks: seq<Pick>, id: nat, batch: PoBatch, posted: set<Key>)
    ensures |Unposted(picks, id, batch, posted)| <= |picks|
  {
    if picks != [] { FewerUnposted(picks[..|picks| - 1], id, batch, posted); }
  }

  // ---- Which receives are one batch ----

  lemma {:induction false} BatchLinesAre(picks: seq<Pick>)
    requires PicksDistinct(picks)
    ensures forall p | p in picks :: p.line in BatchLines(picks) && BatchLines(picks)[p.line] == p.base
    ensures BatchLines(picks).Keys == set p | p in picks :: p.line
  {
    if picks != [] {
      var front, last := picks[..|picks| - 1], picks[|picks| - 1];
      assert picks == front + [last];
      FrontDistinct(picks);
      BatchLinesAre(front);
    }
  }

  lemma {:induction false} FrontDistinct(picks: seq<Pick>)
    requires PicksDistinct(picks) && picks != []
    ensures PicksDistinct(picks[..|picks| - 1])
    ensures forall p | p in picks[..|picks| - 1] :: p.line != picks[|picks| - 1].line
  {
    var front := picks[..|picks| - 1];
    forall p | p in front ensures p.line != picks[|picks| - 1].line {
      var i :| 0 <= i < |front| && front[i] == p;
      assert picks[i].line != picks[|front|].line;
    }
  }

  // At one moment, two receives of an order are one batch exactly if they name the
  // same scope and day, and the same quantities of its lines.
  lemma {:induction false} SameBatchIff(w: Books, id: nat, a: ReceiveDto, b: ReceiveDto, s: Scope, t: Scope)
    requires Inv(w) && ReadOrder(w, id, a).Selected? && ReadOrder(w, id, b).Selected? && Target(w, id, a, s) && Target(w, id, b, t)
    ensures ReadOrder(w, id, a).call.batch == ReadOrder(w, id, b).call.batch <==>
      && s == t && a.day == b.day
      && forall l, q | l in w.orders[id].lines :: Names(a, l.id, q) <==> Names(b, l.id, q)
  {
    hide Inv, CallOk, Picks, WantMap, BatchLines, PickFrom, WithinRemaining, LineIdsDistinct, Names;
    var c, d := ReadOrder(w, id, a).call, ReadOrder(w, id, b).call;
    TargetIs(w, id, a, s);
    TargetIs(w, id, b, t);
    SelectionIs(w, id, a);
    SelectionIs(w, id, b);
    if BatchLines(c.picks) == BatchLines(d.picks) {
      forall l, q | l in w.orders[id].lines ensures Names(a, l.id, q) <==> Names(b, l.id, q) {
        SameNamed(w, id, a, b, l, q);
        SameNamed(w, id, b, a, l, q);
      }
    }
    if forall l, q | l in w.orders[id].lines :: Names(a, l.id, q) <==> Names(b, l.id, q) {
      SamePicked(w, id, a, b);
      SamePicked(w, id, b, a);
    }
  }

  // The batch has the named lines of the order, with their base units.
  lemma {:induction false} SelectionIs(w: Books, id: nat, dto: ReceiveDto)
    requires Inv(w) && ReadOrder(w, id, dto).Selected?
    ensures id in w.orders
    ensures var c := ReadOrder(w, id, dto).call;
      && c.batch == PoBatch(id, c.batch.scope, dto.day.value, BatchLines(c.picks))
      && (forall l, q, f | l in w.orders[id].lines && Names(dto, l.id, q) && OrderingUnit(w.catalog, l.product, f) ::
            l.id in BatchLines(c.picks) && BatchLines(c.picks)[l.id] == q * f)
      && (forall k | k in BatchLines(c.picks) :: exists l, q :: l in w.orders[id].lines && l.id == k && Names(dto, k, q))
  {
    hide Inv, Picks, WantMap, BatchLines, ToBase, PickFrom, PickOk;
    var c, lines, want := ReadOrder(w, id, dto).call, w.orders[id].lines, WantMap(dto.lines);
    R.AtOnceOrders(w);
    SelectedOk(w, id, dto);
    WantedIs(dto.lines);
    PicksAre(lines, want, w.catalog);
    BatchLinesAre(c.picks);
    forall l, q, f | l in lines && Names(dto, l.id, q) && OrderingUnit(w.catalog, l.product, f)
      ensures l.id in BatchLines(c.picks) && BatchLines(c.picks)[l.id] == q * f
    {
      WholeToBase(q, f);
      assert ReceiveLine(l.id, q) in dto.lines;
      assert Pick(l.id, l.product, q, q * f) in c.picks;
    }
    forall k | k in BatchLines(c.picks) ensures exists l, q :: l in lines && l.id == k && Names(dto, k, q) {
      var p :| p in c.picks && p.line == k;
      var l :| l in lines && l.id in want && p.line == l.id;
      assert Names(dto, k, want[k]);
    }
  }

  lemma {:induction false} SameNamed(w: Books, id: nat, a: ReceiveDto, b: ReceiveDto, l: PoLine, q: int)
    requires Inv(w) && ReadOrder(w, id, a).Selected? && ReadOrder(w, id, b).Selected?
    requires BatchLines(ReadOrder(w, id, a).call.picks) == BatchLines(ReadOrder(w, id, b).call.picks) && l in w.orders[id].lines
    ensures Names(a, l.id, q) ==> Names(b, l.id, q)
  {
    hide Inv, ReadOrder, BatchLines, Names;
    SelectionIs(w, id, a);
    SelectionIs(w, id, b);
    var f := if l.product in w.catalog then w.catalog[l.product].orderingToBase else 1;
    assert OrderingUnit(w.catalog, l.product, f) && f >= 1;
    if Names(a, l.id, q) {
      var m, r :| m in w.orders[id].lines && m.id == l.id && Names(b, l.id, r);
      SameMultiple(q, r, f);
    }
  }

  lemma {:induction false} SamePicked(w: Books, id: nat, a: ReceiveDto, b: ReceiveDto)
    requires Inv(w) && ReadOrder(w, id, a).Selected? && ReadOrder(w, id, b).Selected?
    requires forall l, q | l in w.orders[id].lines :: Names(a, l.id, q) <==> Names(b, l.id, q)
    ensures var m, n := BatchLines(ReadOrder(w, id, a).call.picks), BatchLines(ReadOrder(w, id, b).call.picks);
      forall k | k in m :: k in n && m[k] == n[k]
  {
    hide Inv, ReadOrder, BatchLines, Names;
    SelectionIs(w, id, a);
    SelectionIs(w, id, b);
    var m, n := BatchLines(ReadOrder(w, id, a).call.picks), BatchLines(ReadOrder(w, id, b).call.picks);
    forall k | k in m ensures k in n && m[k] == n[k] {
      var l, q :| l in w.orders[id].lines && l.id == k && Names(a, k, q);
      var f := if l.product in w.catalog then w.catalog[l.product].orderingToBase else 1;
      assert OrderingUnit(w.catalog, l.product, f);
    }
  }
}
