// Order counters, receipts and ledger over every interleaving of calls, and exactly
// what a transaction that no longer finds what its call read can break.
module PurchaseOrderRuns {
  import opened Basics
  import opened Ledger
  import opened Units
  import opened PurchaseOrders

  // ---- Sums over receipts ----

  function ReceiptTotal(rs: seq<ReceiptLine>, po: nat, product: ProductId): int {
    if rs == [] then 0 else
      ReceiptTotal(rs[..|rs| - 1], po, product)
      + (if rs[|rs| - 1].po == Some(po) && rs[|rs| - 1].product == product then rs[|rs| - 1].quantity else 0)
  }

  lemma {:induction false} ReceiptTotalConcat(a: seq<ReceiptLine>, b: seq<ReceiptLine>, po: nat, product: ProductId)
    ensures ReceiptTotal(a + b, po, product) == ReceiptTotal(a, po, product) + ReceiptTotal(b, po, product)
  {
    if b == [] {
      assert a + b == a;
    } else {
      ReceiptTotalConcat(a, b[..|b| - 1], po, product);
      assert (a + b)[..|a + b| - 1] == a + b[..|b| - 1];
    }
  }

  // ---- What holds in every interleaving ----

  ghost predicate LinesOk(lines: seq<PoLine>, nextId: nat) {
    && (forall i, j | 0 <= i < j < |lines| :: lines[i].id != lines[j].id && lines[i].product != lines[j].product)
    && forall l | l in lines :: l.id < nextId && l.ordered > 0 && l.orderedBase > 0 && 0 <= l.received <= l.receivedBase
  }

  ghost predicate PickOk(p: Pick, lines: seq<PoLine>, nextId: nat) {
    && 0 < p.quantity <= p.base && p.line < nextId
    && forall l | l in lines && l.id == p.line :: l.product == p.product
  }

  ghost predicate PicksDistinct(picks: seq<Pick>) {
    forall i, j | 0 <= i < j < |picks| :: picks[i].line != picks[j].line && picks[i].product != picks[j].product
  }

  // Lines a call took from an order, on which they may have been replaced since.
  ghost predicate PicksOk(picks: seq<Pick>, lines: seq<PoLine>, nextId: nat) {
    (forall p | p in picks :: PickOk(p, lines, nextId)) && PicksDistinct(picks)
  }

  ghost predicate CallOk(w: Books, c: ReceiveCall) {
    && c.order in w.orders
    && PicksOk(c.picks, w.orders[c.order].lines, w.nextId)
    && (c.todo.Some? ==> PicksOk(c.todo.value, w.orders[c.order].lines, w.nextId))
  }

  ghost predicate UpdateOk(w: Books, c: UpdateCall) {
    c.order in w.orders && (c.lines.Some? ==> forall p | p in c.lines.value :: p.ordered > 0 && p.base > 0)
  }

  ghost predicate OrdersOk(w: Books) {
    forall id | id in w.orders :: id < w.nextId && LinesOk(w.orders[id].lines, w.nextId)
  }

  ghost predicate CallsOk(w: Books) { forall call | call in w.receiving :: CallOk(w, w.receiving[call]) }

  ghost predicate UpdatesOk(w: Books) { forall call | call in w.updating :: UpdateOk(w, w.updating[call]) }

  // Nothing was ever received for an order that is not on file.
  ghost predicate EntriesOk(w: Books) {
    && (forall p | p in Postings(w.store.ledger) && p.key.PoReceiving? :: p.quantity > 0 && p.key.po in w.orders)
    && forall r | r in w.receipts && r.po.Some? :: r.quantity > 0 && r.po.value in w.orders
  }

  ghost predicate Inv(w: Books) {
    OrdersOk(w) && CallsOk(w) && UpdatesOk(w) && EntriesOk(w)
  }

  // ---- Picks ----

  lemma {:induction false} PickBase(quantity: int, factor: int)
    requires quantity > 0 && factor >= 1
    ensures quantity <= ToBase(quantity as real, factor) == quantity * factor
  {
    WholeToBase(quantity, factor);
  }

  // The order has the line the pick was taken from, and wants so much of it.
  ghost predicate PickFrom(p: Pick, lines: seq<PoLine>, want: map<nat, int>) {
    && (exists l :: l in lines && l.id == p.line && l.product == p.product)
    && p.line in want && p.quantity == want[p.line] && 0 < p.quantity <= p.base
  }

  lemma {:induction false} PickFromMore(p: Pick, front: seq<PoLine>, last: PoLine, want: map<nat, int>, nextId: nat)
    requires PickFrom(p, front, want)
    ensures PickFrom(p, front + [last], want)
    ensures LinesOk(front + [last], nextId) ==> p.line != last.id && p.product != last.product
  {
    var l :| l in front && l.id == p.line && l.product == p.product;
    var lines := front + [last];
    assert l in lines && lines[|front|] == last;
    var i :| 0 <= i < |front| && front[i] == l;
    assert lines[i] == l;
  }

  lemma {:induction false} OneMorePick(picks: seq<Pick>, p: Pick)
    requires PicksDistinct(picks) && forall q | q in picks :: q.line != p.line && q.product != p.product
    ensures PicksDistinct(picks + [p])
  {
    forall i | 0 <= i < |picks| ensures picks[i].line != p.line && picks[i].product != p.product { assert picks[i] in picks; }
  }

  lemma {:induction false} LinesFront(lines: seq<PoLine>, nextId: nat)
    requires LinesOk(lines, nextId) && lines != []
    ensures LinesOk(lines[..|lines| - 1], nextId)
  {}

  lemma {:induction false} PicksAreFromLines(lines: seq<PoLine>, want: map<nat, int>, catalog: map<ProductId, Product>, nextId: nat)
    requires LinesOk(lines, nextId) && forall l | l in lines && l.id in want :: want[l.id] > 0
    ensures var ps := Picks(lines, want, catalog);
      (forall p | p in ps :: PickFrom(p, lines, want)) && PicksDistinct(ps)
  {
    hide PickFrom, ToBase, OrderingFactor, PicksDistinct, LinesOk;
    if lines == [] {
      NoPicks(want, catalog);
    } else {
      var front, last := lines[..|lines| - 1], lines[|lines| - 1];
      assert lines == front + [last] && last in lines;
      LinesFront(lines, nextId);
      PicksAreFromLines(front, want, catalog, nextId);
      var fs, ps := Picks(front, want, catalog), Picks(lines, want, catalog);
      forall p | p in fs ensures PickFrom(p, lines, want) && p.line != last.id && p.product != last.product {
        PickFromMore(p, front, last, want, nextId);
      }
      if last.id in want {
        LastPick(lines, want, catalog);
        OneMorePick(fs, ps[|ps| - 1]);
      } else {
        assert ps == fs;
      }
    }
  }

  lemma {:induction false} NoPicks(want: map<nat, int>, catalog: map<ProductId, Product>)
    ensures Picks([], want, catalog) == [] && PicksDistinct([])
  {}

  lemma {:induction false} LastPick(lines: seq<PoLine>, want: map<nat, int>, catalog: map<ProductId, Product>)
    requires lines != [] && lines[|lines| - 1].id in want && want[lines[|lines| - 1].id] > 0
    ensures var last, ps := lines[|lines| - 1], Picks(lines, want, catalog);
      && ps == Picks(lines[..|lines| - 1], want, catalog) + [ps[|ps| - 1]]
      && PickFrom(ps[|ps| - 1], lines, want) && ps[|ps| - 1].line == last.id && ps[|ps| - 1].product == last.product
  {
    var last := lines[|lines| - 1];
    assert last in lines;
    PickBase(want[last.id], OrderingFactor(catalog, last.product));
  }

  lemma {:induction false} SoundPick(p: Pick, lines: seq<PoLine>, want: map<nat, int>, nextId: nat)
    requires LinesOk(lines, nextId) && PickFrom(p, lines, want)
    ensures PickOk(p, lines, nextId)
  {
    var l :| l in lines && l.id == p.line && l.product == p.product;
    var i :| 0 <= i < |lines| && lines[i] == l;
    forall m | m in lines && m.id == p.line ensures m.product == p.product {
      var j :| 0 <= j < |lines| && lines[j] == m;
      assert i == j;
    }
  }

  lemma {:induction false} UnpostedMembers(picks: seq<Pick>, id: nat, batch: PoBatch, posted: set<Key>)
    ensures forall p :: p in Unposted(picks, id, batch, posted) <==> p in picks && PickKey(id, batch, p) !in posted
  {
    if picks != [] {
      var front, last := picks[..|picks| - 1], picks[|picks| - 1];
      assert picks == front + [last];
      UnpostedMembers(front, id, batch, posted);
    }
  }

  lemma {:induction false} UnpostedOk(picks: seq<Pick>, id: nat, batch: PoBatch, posted: set<Key>, lines: seq<PoLine>, nextId: nat)
    requires PicksOk(picks, lines, nextId)
    ensures PicksOk(Unposted(picks, id, batch, posted), lines, nextId)
  {
    hide PickOk;
    if picks != [] {
      var front, last := picks[..|picks| - 1], picks[|picks| - 1];
      assert picks == front + [last];
      UnpostedOk(front, id, batch, posted, lines, nextId);
      UnpostedMembers(front, id, batch, posted);
      var us := Unposted(front, id, batch, posted);
      forall i | 0 <= i < |us| ensures us[i].line != last.line && us[i].product != last.product {
        assert us[i] in us && us[i] in front;
      }
    }
  }

  // What a call carries from its first read.
  lemma {:induction false} SelectedOk(w: Books, id: nat, dto: ReceiveDto)
    requires OrdersOk(w) && ReadOrder(w, id, dto).Selected?
    ensures var c := ReadOrder(w, id, dto).call;
      && CallOk(w, c) && c.order == id
      && (forall p | p in c.picks :: PickFrom(p, w.orders[id].lines, WantMap(dto.lines)))
  {
    hide PickFrom, PickOk, BatchLines, Unposted;
    var lines, want := w.orders[id].lines, WantMap(dto.lines);
    PicksAreFromLines(lines, want, w.catalog, w.nextId);
    forall p | p in PicksOf(w, id, dto) ensures PickOk(p, lines, w.nextId) { SoundPick(p, lines, want, w.nextId); }
    assert PicksOk(PicksOf(w, id, dto), lines, w.nextId);
  }

  // The call of a receive with nobody in between.
  function AtOnce(w: Books, id: nat, dto: ReceiveDto): ReceiveCall
    requires ReadOrder(w, id, dto).Selected?
  {
    LookUp(ReadOrder(w, id, dto).call, Keys(w.store.ledger))
  }

  lemma {:induction false} AtOnceOk(w: Books, id: nat, dto: ReceiveDto)
    requires OrdersOk(w) && ReadOrder(w, id, dto).Selected?
    ensures var c := AtOnce(w, id, dto);
      && CallOk(w, c) && c.order == id && c.todo.Some?
      && (forall p | p in c.todo.value :: p in c.picks && PickFrom(p, w.orders[id].lines, WantMap(dto.lines))
            && PickKey(id, c.batch, p) !in Keys(w.store.ledger))
      && LinesPresent(w.orders[id].lines, c.todo.value)
  {
    hide PicksOk, Unposted, Receivable;
    SelectedOk(w, id, dto);
    var c := ReadOrder(w, id, dto).call;
    UnpostedOk(c.picks, id, c.batch, Keys(w.store.ledger), w.orders[id].lines, w.nextId);
    UnpostedMembers(c.picks, id, c.batch, Keys(w.store.ledger));
  }

  lemma {:induction false} ForOneLine(picks: seq<Pick>, line: nat)
    requires forall i, j | 0 <= i < j < |picks| :: picks[i].line != picks[j].line
    ensures (forall p | p in picks :: p.line != line) ==> QuantityFor(picks, line) == 0 && BaseFor(picks, line) == 0
    ensures forall p | p in picks && p.line == line :: QuantityFor(picks, line) == p.quantity && BaseFor(picks, line) == p.base
  {
    if picks != [] {
      var front, last := picks[..|picks| - 1], picks[|picks| - 1];
      assert picks == front + [last];
      ForOneLine(front, line);
    }
  }

  lemma {:induction false} PicksAddUp(picks: seq<Pick>, id: nat, batch: PoBatch, product: ProductId, line: nat)
    requires forall p | p in picks :: p.product == product <==> p.line == line
    ensures Net(PickPostings(picks, id, batch), OfOrderProduct(id, product)) == BaseFor(picks, line)
    ensures ReceiptTotal(PickReceipts(picks, id), id, product) == QuantityFor(picks, line)
  {
    if picks != [] {
      var front, last := picks[..|picks| - 1], picks[|picks| - 1];
      assert picks == front + [last];
      PicksAddUp(front, id, batch, product, line);
      assert PickPostings(picks, id, batch)[..|picks| - 1] == PickPostings(front, id, batch);
      assert PickReceipts(picks, id)[..|picks| - 1] == PickReceipts(front, id);
    }
  }

  lemma {:induction false} NoReceipts(rs: seq<ReceiptLine>, po: nat, product: ProductId)
    requires forall r | r in rs :: r.po != Some(po) || r.product != product
    ensures ReceiptTotal(rs, po, product) == 0
  {
    if rs != [] { NoReceipts(rs[..|rs| - 1], po, product); }
  }

  // A positive posting of the family makes the net positive.
  lemma {:induction false} SomeNet(ps: seq<Posting>, f: Filter, p: Posting)
    requires p in ps && Matches(f, p) && forall q | q in ps && Matches(f, q) :: q.quantity > 0
    ensures Net(ps, f) > 0
  {
    var front, last := ps[..|ps| - 1], ps[|ps| - 1];
    assert ps == front + [last];
    if p in front {
      SomeNet(front, f, p);
    } else {
      NetNonnegative(front, f);
    }
  }

  lemma {:induction false} NetNonnegative(ps: seq<Posting>, f: Filter)
    requires forall q | q in ps && Matches(f, q) :: q.quantity > 0
    ensures Net(ps, f) >= 0
  {
    if ps != [] { NetNonnegative(ps[..|ps| - 1], f); }
  }

  lemma {:induction false} SomeReceipts(rs: seq<ReceiptLine>, r: ReceiptLine, po: nat)
    requires r in rs && r.po == Some(po) && forall q | q in rs && q.po == Some(po) :: q.quantity > 0
    ensures ReceiptTotal(rs, po, r.product) > 0
  {
    var front, last := rs[..|rs| - 1], rs[|rs| - 1];
    assert rs == front + [last];
    if r in front { SomeReceipts(front, r, po); } else { ReceiptsNonnegative(front, po, r.product); }
  }

  lemma {:induction false} ReceiptsNonnegative(rs: seq<ReceiptLine>, po: nat, product: ProductId)
    requires forall q | q in rs && q.po == Some(po) :: q.quantity > 0
    ensures ReceiptTotal(rs, po, product) >= 0
  {
    if rs != [] { ReceiptsNonnegative(rs[..|rs| - 1], po, product); }
  }

  // ---- Each step keeps the invariant ----

  ghost predicate SameLines(a: seq<PoLine>, b: seq<PoLine>) {
    |a| == |b| && forall i | 0 <= i < |a| :: a[i].id == b[i].id && a[i].product == b[i].product
  }

  // Lines keep their ids and products, or all are new.
  ghost predicate LinesEvolve(a: seq<PoLine>, b: seq<PoLine>, nextId: nat) {
    SameLines(a, b) || forall l | l in b :: l.id >= nextId
  }

  lemma {:induction false} PicksStay(picks: seq<Pick>, a: seq<PoLine>, b: seq<PoLine>, n: nat, m: nat)
    requires PicksOk(picks, a, n) && LinesEvolve(a, b, n) && n <= m
    ensures PicksOk(picks, b, m)
  {
    forall p | p in picks ensures PickOk(p, b, m) {
      assert PickOk(p, a, n);
      forall l | l in b && l.id == p.line ensures l.product == p.product {
        var i :| 0 <= i < |b| && b[i] == l;
        if SameLines(a, b) { assert a[i] in a; }
      }
    }
  }

  ghost predicate Evolves(w: Books, w': Books) {
    && w.nextId <= w'.nextId
    && forall k | k in w.orders :: k in w'.orders && LinesEvolve(w.orders[k].lines, w'.orders[k].lines, w.nextId)
  }

  // Calls in flight stay good while orders evolve.
  lemma {:induction false} CallsStay(w: Books, w': Books)
    requires CallsOk(w) && UpdatesOk(w) && Evolves(w, w')
    requires forall call | call in w'.receiving :: call in w.receiving && w'.receiving[call] == w.receiving[call]
    requires forall call | call in w'.updating :: call in w.updating && w'.updating[call] == w.updating[call]
    ensures CallsOk(w') && UpdatesOk(w')
  {
    hide PicksOk, LinesEvolve;
    forall call | call in w'.receiving ensures CallOk(w', w'.receiving[call]) {
      var c := w.receiving[call];
      assert CallOk(w, c);
      PicksStay(c.picks, w.orders[c.order].lines, w'.orders[c.order].lines, w.nextId, w'.nextId);
      if c.todo.Some? { PicksStay(c.todo.value, w.orders[c.order].lines, w'.orders[c.order].lines, w.nextId, w'.nextId); }
    }
    forall call | call in w'.updating ensures UpdateOk(w', w'.updating[call]) {
      assert UpdateOk(w, w.updating[call]);
    }
  }

  lemma {:induction false} SameEvolves(w: Books, w': Books)
    requires w.nextId <= w'.nextId && forall k | k in w.orders :: k in w'.orders && w'.orders[k].lines == w.orders[k].lines
    ensures Evolves(w, w')
  {}

  lemma {:induction false} MoreIds(w: Books, w': Books, id: nat)
    requires OrdersOk(w) && w.nextId <= w'.nextId
    requires forall k | k in w'.orders && k != id :: k in w.orders && w'.orders[k].lines == w.orders[k].lines
    requires id in w'.orders ==> id < w'.nextId && LinesOk(w'.orders[id].lines, w'.nextId)
    ensures OrdersOk(w')
  {
    forall k | k in w'.orders ensures k < w'.nextId && LinesOk(w'.orders[k].lines, w'.nextId) {
      if k != id { assert LinesOk(w.orders[k].lines, w.nextId); }
    }
  }

  lemma {:induction false} PreparedOk(inputs: seq<OrderInput>, catalog: map<ProductId, Product>)
    requires InputsValid(inputs, catalog)
    ensures forall p | p in Prepare(inputs, catalog) :: p.ordered > 0 && p.base == p.ordered * OrderingFactor(catalog, p.product) > 0
  {
    var ps := Prepare(inputs, catalog);
    forall p | p in ps ensures p.ordered > 0 && p.base == p.ordered * OrderingFactor(catalog, p.product) > 0 {
      var i :| 0 <= i < |ps| && ps[i] == p;
      assert inputs[i] in inputs;
      PickBase(p.ordered, OrderingFactor(catalog, p.product));
    }
  }

  lemma {:induction false} InsertedOk(ps: seq<Prepared>, first: nat)
    requires ProductsDistinct(ps) && forall p | p in ps :: p.ordered > 0 && p.base > 0
    ensures LinesOk(Insert(ps, first), first + |ps|)
    ensures forall l | l in Insert(ps, first) :: l.id >= first && l.received == 0 && l.receivedBase == 0
  {
    var lines := Insert(ps, first);
    forall l | l in lines ensures l.ordered > 0 && l.orderedBase > 0 {
      var i :| 0 <= i < |lines| && lines[i] == l;
      assert ps[i] in ps;
    }
  }

  lemma {:induction false} CreateKeeps(w: Books, shipTo: Scope, status: Option<PoStatus>, inputs: seq<OrderInput>)
    requires Inv(w)
    ensures Inv(CreateStep(w, shipTo, status, inputs).0)
  {
    hide LinesOk, LinesEvolve, Insert, ProductsDistinct, CallsOk, UpdatesOk;
    var w' := CreateStep(w, shipTo, status, inputs).0;
    if w' != w {
      PreparedOk(inputs, w.catalog);
      InsertedOk(Prepare(inputs, w.catalog), w.nextId + 1);
      MoreIds(w, w', w.nextId);
      assert w.nextId !in w.orders;
      SameEvolves(w, w');
      CallsStay(w, w');
    }
  }

  lemma {:induction false} UpdateCommitKeeps(w: Books, c: UpdateCall)
    requires Inv(w) && UpdateOk(w, c)
    ensures Inv(UpdateCommit(w, c).0)
  {
    hide LinesOk, Insert, ProductsDistinct, CallsOk, UpdatesOk;
    var w' := UpdateCommit(w, c).0;
    if w' != w {
      if c.lines.Some? { InsertedOk(c.lines.value, w.nextId); }
      KeepLines(w.orders[c.order].lines, w.nextId, w'.nextId);
      MoreIds(w, w', c.order);
      CallsStay(w, w');
    }
  }

  lemma {:induction false} KeepLines(lines: seq<PoLine>, n: nat, m: nat)
    requires n <= m
    ensures LinesOk(lines, n) ==> LinesOk(lines, m)
  {}

  lemma {:induction false} PrepareOk(w: Books, id: nat, dto: UpdateDto)
    requires PrepareUpdate(w, id, dto).Ready?
    ensures UpdateOk(w, PrepareUpdate(w, id, dto).call) && PrepareUpdate(w, id, dto).call.order == id
  {
    if dto.lines.Some? { PreparedOk(dto.lines.value, w.catalog); }
  }

  lemma {:induction false} IncrementOk(lines: seq<PoLine>, picks: seq<Pick>, nextId: nat)
    requires LinesOk(lines, nextId) && PicksOk(picks, lines, nextId)
    ensures LinesOk(Increment(lines, picks), nextId) && SameLines(lines, Increment(lines, picks))
    ensures forall i | 0 <= i < |lines| :: lines[i].receivedBase <= Increment(lines, picks)[i].receivedBase
  {
    var more := Increment(lines, picks);
    forall i | 0 <= i < |lines| ensures more[i].received <= more[i].receivedBase && 0 <= more[i].received && lines[i].receivedBase <= more[i].receivedBase {
      assert lines[i] in lines;
      ForOneLine(picks, lines[i].id);
      if p :| p in picks && p.line == lines[i].id { assert PickOk(p, lines, nextId); }
    }
  }

  // A receive's transaction went through.
  ghost predicate Goes(w: Books, c: ReceiveCall) {
    && c.order in w.orders && c.todo.Some? && c.todo.value != []
    && PostAll(w.store, PickPostings(c.todo.value, c.order, c.batch)).Some?
    && LinesPresent(w.orders[c.order].lines, c.todo.value)
  }

  lemma {:induction false} GoesOrNothing(w: Books, c: ReceiveCall)
    requires c.todo.Some?
    ensures !Goes(w, c) ==> ReceiveCommit(w, c).0 == w
    ensures Goes(w, c) ==>
      var (w', o) := ReceiveCommit(w, c);
      && o == Posted(|c.todo.value|, if |c.picks| >= |c.todo.value| then |c.picks| - |c.todo.value| else 0)
      && PostAll(w.store, PickPostings(c.todo.value, c.order, c.batch)) == Some(w'.store)
      && w'.receipts == w.receipts + PickReceipts(c.todo.value, c.order)
      && w' == w.(store := w'.store, receipts := w'.receipts, orders := w'.orders)
      && c.order in w'.orders && w'.orders == w.orders[c.order := w'.orders[c.order]]
      && w'.orders[c.order].lines == Increment(w.orders[c.order].lines, c.todo.value)
      && w'.orders[c.order].status == StatusAfter(w'.orders[c.order].lines, c.status)
  {
    hide PostAll, Increment, StatusAfter;
  }

  lemma {:induction false} ReceiveCommitKeeps(w: Books, c: ReceiveCall)
    requires Inv(w) && CallOk(w, c) && c.todo.Some?
    ensures Inv(ReceiveCommit(w, c).0)
  {
    hide LinesOk, PicksOk, ReceiveCommit, Increment, PostAll, CallsOk, UpdatesOk, Goes, StatusAfter;
    GoesOrNothing(w, c);
    if Goes(w, c) {
      var w' := ReceiveCommit(w, c).0;
      IncrementOk(w.orders[c.order].lines, c.todo.value, w.nextId);
      MoreIds(w, w', c.order);
      CallsStay(w, w');
      ReceivedEntries(w, c);
    }
  }

  lemma {:induction false} ReceivedEntries(w: Books, c: ReceiveCall)
    requires EntriesOk(w) && CallOk(w, c) && Goes(w, c)
    ensures EntriesOk(ReceiveCommit(w, c).0)
  {
    hide ReceiveCommit, Increment, PostAll, StatusAfter, LinesPresent;
    GoesOrNothing(w, c);
    var w', todo := ReceiveCommit(w, c).0, c.todo.value;
    var ps := PickPostings(todo, c.order, c.batch);
    PostAllEffect(w.store, ps);
    forall p | p in Postings(w'.store.ledger) && p.key.PoReceiving? ensures p.quantity > 0 && p.key.po in w'.orders {
      if p !in Postings(w.store.ledger) {
        var i :| 0 <= i < |ps| && ps[i] == p;
        assert todo[i] in todo && PickOk(todo[i], w.orders[c.order].lines, w.nextId);
      }
    }
    forall r | r in w'.receipts && r.po.Some? ensures r.quantity > 0 && r.po.value in w'.orders {
      if r !in w.receipts {
        var i :| 0 <= i < |todo| && PickReceipts(todo, c.order)[i] == r;
        assert todo[i] in todo && PickOk(todo[i], w.orders[c.order].lines, w.nextId);
      }
    }
  }

  lemma {:induction false} ForeignKeeps(w: Books, ps: seq<Posting>)
    requires Inv(w) && !exists p | p in ps :: p.key.PoReceiving?
    ensures Inv(w.(store := Commit(w.store, ps)))
  {
    hide OrdersOk, CallOk, UpdateOk;
    var w' := w.(store := Commit(w.store, ps));
    PostAllEffect(w.store, ps);
    SameBook(w, w');
  }

  lemma {:induction false} SameBook(w: Books, w': Books)
    requires OrdersOk(w) && CallsOk(w) && UpdatesOk(w)
    requires w'.orders == w.orders && w'.receiving == w.receiving && w'.updating == w.updating && w'.nextId == w.nextId
    ensures OrdersOk(w') && CallsOk(w') && UpdatesOk(w')
  {
    hide LinesOk, PicksOk;
    SameEvolves(w, w');
    CallsStay(w, w');
  }

  // One more call in flight, or one further on.
  lemma {:induction false} ReceivingKeeps(w: Books, call: nat, c: ReceiveCall)
    requires Inv(w) && CallOk(w, c)
    ensures Inv(w.(receiving := w.receiving[call := c]))
  {
    hide LinesOk, PicksOk, LinesEvolve;
    var w' := w.(receiving := w.receiving[call := c]);
    forall k | k in w'.receiving ensures CallOk(w', w'.receiving[k]) {
      if k != call { assert CallOk(w, w.receiving[k]); }
    }
    forall k | k in w'.updating ensures UpdateOk(w', w'.updating[k]) { assert UpdateOk(w, w.updating[k]); }
  }

  lemma {:induction false} UpdatingKeeps(w: Books, call: nat, c: UpdateCall)
    requires Inv(w) && UpdateOk(w, c)
    ensures Inv(w.(updating := w.updating[call := c]))
  {
    hide LinesOk, PicksOk, LinesEvolve;
    var w' := w.(updating := w.updating[call := c]);
    forall k | k in w'.receiving ensures CallOk(w', w'.receiving[k]) { assert CallOk(w, w.receiving[k]); }
    forall k | k in w'.updating ensures UpdateOk(w', w'.updating[k]) {
      if k != call { assert UpdateOk(w, w.updating[k]); }
    }
  }

  lemma {:induction false} LookUpKeeps(w: Books, call: nat)
    requires Inv(w) && call in w.receiving
    ensures CallOk(w, LookUp(w.receiving[call], Keys(w.store.ledger)))
  {
    hide PicksOk, Unposted;
    var c := w.receiving[call];
    assert CallOk(w, c);
    UnpostedOk(c.picks, c.order, c.batch, Keys(w.store.ledger), w.orders[c.order].lines, w.nextId);
  }

  // Dropped calls, catalog changes and receipts of other flows.
  lemma {:induction false} EnvKeeps(w: Books, a: Action)
    requires Inv(w) && (a.Drop? || a.SetProduct? || a.AddReceiptLine?)
    ensures Inv(Next(w, a))
  {
    hide LinesOk, PicksOk, LinesEvolve, CallsOk, UpdatesOk;
    SameEvolves(w, Next(w, a));
    CallsStay(w, Next(w, a));
  }

  lemma {:induction false} StepKeeps(w: Books, a: Action)
    requires Inv(w)
    ensures Inv(Next(w, a))
  {
    hide OrdersOk, CallsOk, UpdatesOk, EntriesOk, CreateStep, UpdateCommit, ReceiveCommit, PrepareUpdate, ReadOrder, CallOk, UpdateOk, Commit;
    match a
    case Create(shipTo, status, inputs) => CreateKeeps(w, shipTo, status, inputs);
    case Update(id, dto) =>
      if PrepareUpdate(w, id, dto).Ready? { PrepareOk(w, id, dto); UpdateCommitKeeps(w, PrepareUpdate(w, id, dto).call); }
    case CommitUpdate(call) =>
      if call in w.updating { DropKeeps(w, call); UpdateCommitKeeps(w.(updating := w.updating - {call}), w.updating[call]); }
    case Cancel(id) => CancelKeeps(w, id);
    case Receive(id, dto) =>
      if ReadOrder(w, id, dto).Selected? { AtOnceOk(w, id, dto); ReceiveCommitKeeps(w, AtOnce(w, id, dto)); }
    case CommitReceive(call) =>
      if call in w.receiving && w.receiving[call].todo.Some? {
        DropKeeps(w, call);
        ReceiveCommitKeeps(w.(receiving := w.receiving - {call}), w.receiving[call]);
      }
    case Foreign(ps) => if !exists p | p in ps :: p.key.PoReceiving? { ForeignKeeps(w, ps); }
    case BeginUpdate(call, id, dto) =>
      if PrepareUpdate(w, id, dto).Ready? { PrepareOk(w, id, dto); UpdatingKeeps(w, call, PrepareUpdate(w, id, dto).call); }
    case BeginReceive(call, id, dto) =>
      if ReadOrder(w, id, dto).Selected? { SelectedOk(w, id, dto); ReceivingKeeps(w, call, ReadOrder(w, id, dto).call); }
    case LookUpKeys(call) =>
      if call in w.receiving { LookUpKeeps(w, call); ReceivingKeeps(w, call, LookUp(w.receiving[call], Keys(w.store.ledger))); }
    case _ => EnvKeeps(w, a);
  }

  // A call at its commit is no longer in flight.
  lemma {:induction false} DropKeeps(w: Books, call: nat)
    requires Inv(w)
    ensures call in w.updating ==> var v := w.(updating := w.updating - {call}); Inv(v) && UpdateOk(v, w.updating[call])
    ensures call in w.receiving ==> var v := w.(receiving := w.receiving - {call}); Inv(v) && CallOk(v, w.receiving[call])
  {
    hide LinesOk, PicksOk;
    SameEvolves(w, w.(updating := w.updating - {call}));
    SameEvolves(w, w.(receiving := w.receiving - {call}));
    CallsStay(w, w.(updating := w.updating - {call}));
    CallsStay(w, w.(receiving := w.receiving - {call}));
  }

  lemma {:induction false} CancelKeeps(w: Books, id: nat)
    requires Inv(w)
    ensures Inv(CancelStep(w, id).0)
  {
    hide LinesOk, LinesEvolve, CallsOk, UpdatesOk;
    SameEvolves(w, CancelStep(w, id).0);
    CallsStay(w, CancelStep(w, id).0);
  }

  lemma {:induction false} RunKeeps(w: Books, actions: seq<Action>)
    requires Inv(w)
    ensures Inv(Run(w, actions))
  {
    hide Inv, Next;
    if actions != [] {
      RunKeeps(w, actions[..|actions| - 1]);
      StepKeeps(Run(w, actions[..|actions| - 1]), actions[|actions| - 1]);
    }
  }

  lemma {:induction false} InitialInv(w: Books)
    requires Initial(w)
    ensures Inv(w)
  {
    assert Postings(Empty.ledger) == [];
  }
}
