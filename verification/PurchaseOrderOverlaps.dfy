// Two concrete overlaps on one purchase order: receives that together exceed what
// was ordered, and an update that forgets what a receive just counted.
module PurchaseOrderOverlaps {
  import opened Basics
  import opened Ledger
  import opened Units
  import opened PurchaseOrders
  import opened PurchaseOrderRuns
  import opened PurchaseOrderReconciliation

  const UNIT: Product := ProductRow("oz", "can", "case", 1, 1, 1)
  const SHELF := Books(Empty, map[], [], map["p" := UNIT], 0, map[], map[])
  const FIVE := PoLine(1, "p", 5, 5, 0, 0)
  const ORDERED := SHELF.(orders := map[0 := Po("WAREHOUSE", Draft, [FIVE])], nextId := 2)

  const ORDER := Create("", None, [OrderInput("p", 5)])
  function Arrive(q: int): ReceiveDto { ReceiveDto(Some(0), None, [ReceiveLine(1, q)]) }
  // A pick of q at factor f, and the call that holds just this pick.
  function PickOf(q: int, f: int): Pick { Pick(1, "p", q, q * f) }
  function CallOf(q: int, f: int, status: PoStatus): ReceiveCall {
    ReceiveCall(0, status, PoBatch(0, "WAREHOUSE", 0, map[1 := q * f]), [PickOf(q, f)], Some([PickOf(q, f)]))
  }

  lemma {:induction false} RunSnoc(w: Books, actions: seq<Action>, x: Action)
    ensures Run(w, actions + [x]) == Next(Run(w, actions), x)
  {
    assert (actions + [x])[..|actions|] == actions;
  }

  lemma {:induction false} Orders()
    ensures Initial(SHELF) && Next(SHELF, ORDER) == ORDERED
  {
    WholeToBase(5, 1);
    assert Insert(Prepare([OrderInput("p", 5)], SHELF.catalog), 1) == [FIVE];
    assert Next(SHELF, ORDER).orders[0] == ORDERED.orders[0];
  }

  lemma {:induction false} OneWanted(q: int)
    ensures WantMap(Arrive(q).lines) == map[1 := q] && LineIdsDistinct(Arrive(q).lines)
  {
    assert Arrive(q).lines[..0] == [] && WantMap([]) == map[];
  }

  lemma {:induction false} OnePicked(q: int, catalog: map<ProductId, Product>, l: PoLine)
    requires l.id == 1 && l.product == "p"
    ensures Picks([l], map[1 := q], catalog) == [PickOf(q, OrderingFactor(catalog, "p"))]
  {
    WholeToBase(q, OrderingFactor(catalog, "p"));
    assert [l][..0] == [] && Picks([], map[1 := q], catalog) == [];
  }

  lemma {:induction false} OneBatched(q: int, f: int, posted: set<Key>)
    requires PickKey(0, CallOf(q, f, Draft).batch, PickOf(q, f)) !in posted
    ensures BatchLines([PickOf(q, f)]) == map[1 := q * f]
    ensures Unposted([PickOf(q, f)], 0, CallOf(q, f, Draft).batch, posted) == [PickOf(q, f)]
  {
    assert [PickOf(q, f)][..0] == [] && BatchLines([]) == map[];
    assert Unposted([], 0, CallOf(q, f, Draft).batch, posted) == [];
  }

  // What a receive of q reads from an order of one line, if its key is free.
  lemma {:induction false} Reads(w: Books, q: int, l: PoLine)
    requires 0 in w.orders && w.orders[0].shipTo == "WAREHOUSE" && w.orders[0].lines == [l]
    requires w.orders[0].status != Received && w.orders[0].status != Cancelled
    requires l.id == 1 && l.product == "p" && 0 < q <= l.ordered - l.received
    ensures var c := CallOf(q, OrderingFactor(w.catalog, "p"), w.orders[0].status);
      && ReadOrder(w, 0, Arrive(q)) == Selected(c.(todo := None))
      && forall posted | PickKey(0, c.batch, c.picks[0]) !in posted :: LookUp(c.(todo := None), posted) == c
  {
    hide WantMap, Picks, BatchLines, Unposted, LineIdsDistinct, OrderingFactor;
    var f := OrderingFactor(w.catalog, "p");
    OneWanted(q);
    OnePicked(q, w.catalog, l);
    forall posted | PickKey(0, CallOf(q, f, Draft).batch, PickOf(q, f)) !in posted
      ensures Unposted([PickOf(q, f)], 0, CallOf(q, f, Draft).batch, posted) == [PickOf(q, f)]
    {
      OneBatched(q, f, posted);
    }
    OneBatched(q, f, {});
  }

  // A call of one pick whose key is free and whose line is there goes through.
  lemma {:induction false} OnePickGoes(w: Books, c: ReceiveCall, p: Pick, l: PoLine)
    requires c.todo == Some([p]) && c.order in w.orders && w.orders[c.order].lines == [l] && l.id == p.line
    requires PickKey(c.order, c.batch, p) !in Keys(w.store.ledger) && p.base > 0
    ensures Goes(w, c)
    ensures var w' := ReceiveCommit(w, c).0;
      && w' == w.(store := w'.store, receipts := w'.receipts, orders := w'.orders)
      && c.order in w'.orders
      && w'.orders[c.order].lines == [l.(received := l.received + p.quantity, receivedBase := l.receivedBase + p.base)]
      && Keys(w'.store.ledger) == Keys(w.store.ledger) + {PickKey(c.order, c.batch, p)}
  {
    hide PostAll, StatusAfter;
    var ps := PickPostings([p], c.order, c.batch);
    PostAllCommits(w.store, ps);
    PostAllEffect(w.store, ps);
    assert [p][..0] == [] && ps[0] in ps;
    assert QuantityFor([p], l.id) == p.quantity && BaseFor([p], l.id) == p.base;
    assert LinesPresent([l], [p]) by { assert l in [l]; }
    GoesOrNothing(w, c);
  }

  const RECEIVES := [ORDER] + [BeginReceive(0, 0, Arrive(3))] + [BeginReceive(1, 0, Arrive(4))]
                    + [LookUpKeys(0)] + [LookUpKeys(1)]

  lemma {:induction false} BothRead()
    ensures var w := Run(SHELF, RECEIVES);
      w == ORDERED.(receiving := w.receiving) && w.receiving == map[0 := CallOf(3, 1, Draft), 1 := CallOf(4, 1, Draft)]
  {
    hide Run, ReadOrder, LookUp;
    RunNone(SHELF);
    RunSnoc(SHELF, [], ORDER);
    assert [] + [ORDER] == [ORDER];
    RunSnoc(SHELF, [ORDER], BeginReceive(0, 0, Arrive(3)));
    RunSnoc(SHELF, [ORDER] + [BeginReceive(0, 0, Arrive(3))], BeginReceive(1, 0, Arrive(4)));
    RunSnoc(SHELF, [ORDER] + [BeginReceive(0, 0, Arrive(3))] + [BeginReceive(1, 0, Arrive(4))], LookUpKeys(0));
    RunSnoc(SHELF, [ORDER] + [BeginReceive(0, 0, Arrive(3))] + [BeginReceive(1, 0, Arrive(4))] + [LookUpKeys(0)], LookUpKeys(1));
    Orders();
    var w1 := ORDERED;
    Reads(w1, 3, FIVE);
    var w2 := w1.(receiving := map[0 := CallOf(3, 1, Draft).(todo := None)]);
    assert Next(w1, BeginReceive(0, 0, Arrive(3))) == w2;
    Reads(w2, 4, FIVE);
    var w3 := w2.(receiving := map[0 := CallOf(3, 1, Draft).(todo := None), 1 := CallOf(4, 1, Draft).(todo := None)]);
    assert Next(w2, BeginReceive(1, 0, Arrive(4))) == w3;
    assert Keys(w3.store.ledger) == {};
    var w4 := w3.(receiving := map[0 := CallOf(3, 1, Draft), 1 := CallOf(4, 1, Draft).(todo := None)]);
    assert Next(w3, LookUpKeys(0)) == w4;
    assert Next(w4, LookUpKeys(1)) == w4.(receiving := map[0 := CallOf(3, 1, Draft), 1 := CallOf(4, 1, Draft)]);
  }

  // Of five ordered, three and four arrive at once: both fit what each call read,
  // both go through, and seven are received.
  lemma {:induction false} OverlapExceeds()
    ensures Initial(SHELF)
    ensures var w := Run(SHELF, RECEIVES + [CommitReceive(0)] + [CommitReceive(1)]);
      && 0 in w.orders && w.orders[0].lines == [FIVE.(received := 7, receivedBase := 7)] && !Within(w, 0)
  {
    hide Run, ReceiveCommit, Goes;
    Orders();
    BothRead();
    RunSnoc(SHELF, RECEIVES, CommitReceive(0));
    RunSnoc(SHELF, RECEIVES + [CommitReceive(0)], CommitReceive(1));
    var w := Run(SHELF, RECEIVES);
    var v := w.(receiving := w.receiving - {0});
    assert Keys(v.store.ledger) == {};
    OnePickGoes(v, CallOf(3, 1, Draft), PickOf(3, 1), FIVE);
    var w1 := ReceiveCommit(v, CallOf(3, 1, Draft)).0;
    assert CallOf(3, 1, Draft).batch.lines[1] != CallOf(4, 1, Draft).batch.lines[1];
    assert 1 in w1.receiving && w1.receiving[1] == CallOf(4, 1, Draft);
    OnePickGoes(w1.(receiving := w1.receiving - {1}), CallOf(4, 1, Draft), PickOf(4, 1), FIVE.(received := 3, receivedBase := 3));
  }

  // An update that read the order before anything arrived replaces its lines after:
  // the ledger keeps the entries, the new line counts nothing.
  const REPLACE := UpdateDto(None, None, Some([OrderInput("p", 5)]))
  const UPDATED := UpdateCall(0, None, Draft, Some([Prepared("p", 5, 5)]))
  const FORGETS := [ORDER] + [BeginUpdate(0, 0, REPLACE)] + [Receive(0, Arrive(3))]

  lemma {:induction false} UpdateReads()
    ensures PrepareUpdate(ORDERED, 0, REPLACE) == Ready(UPDATED)
  {
    WholeToBase(5, 1);
    assert Prepare([OrderInput("p", 5)], SHELF.catalog) == [Prepared("p", 5, 5)];
  }

  lemma {:induction false} ReceivedMeanwhile()
    ensures var w := Run(SHELF, FORGETS);
      && 0 in w.orders && w.orders[0].lines == [FIVE.(received := 3, receivedBase := 3)]
      && w.updating == map[0 := UPDATED]
  {
    hide Run, ReceiveCommit, ReadOrder, PrepareUpdate, Goes;
    RunNone(SHELF);
    RunSnoc(SHELF, [], ORDER);
    assert [] + [ORDER] == [ORDER];
    RunSnoc(SHELF, [ORDER], BeginUpdate(0, 0, REPLACE));
    RunSnoc(SHELF, [ORDER] + [BeginUpdate(0, 0, REPLACE)], Receive(0, Arrive(3)));
    Orders();
    UpdateReads();
    var w := ORDERED.(updating := map[0 := UPDATED]);
    Reads(w, 3, FIVE);
    assert Keys(w.store.ledger) == {};
    OnePickGoes(w, CallOf(3, 1, Draft), PickOf(3, 1), FIVE);
  }

  lemma {:induction false} UpdateForgets()
    ensures var w := Run(SHELF, FORGETS + [CommitUpdate(0)]); !Reconciles(w, 0)
  {
    hide Run, Holds, Critical, Fits, UpdateCommit, Inv;
    RunSnoc(SHELF, FORGETS, CommitUpdate(0));
    ReceivedMeanwhile();
    var w := Run(SHELF, FORGETS);
    Orders();
    InitialInv(SHELF);
    RunKeeps(SHELF, FORGETS);
    NoCommitYet(w);
    ForgetsHere(w);
  }

  // Until the update commits, nothing has been replaced.
  lemma {:induction false} NoCommitYet(w: Books)
    requires w == Run(SHELF, FORGETS)
    ensures Reconciles(w, 0)
  {
    hide Run, Reconciles, Holds, Fits;
    Orders();
    ReconciliationIff(Reconciled, SHELF, FORGETS, 0);
    assert forall k | 0 <= k < |FORGETS| :: !FORGETS[k].CommitUpdate?;
    assert FORGETS[..|FORGETS|] == FORGETS;
    assert Holds(Reconciled, Run(SHELF, FORGETS[..|FORGETS|]), 0);
    AspectsOf(w, 0);
  }

  lemma {:induction false} ForgetsHere(w: Books)
    requires Inv(w) && Reconciles(w, 0) && w.updating == map[0 := UPDATED]
    requires 0 in w.orders && w.orders[0].lines == [FIVE.(received := 3, receivedBase := 3)]
    ensures !Reconciles(Next(w, CommitUpdate(0)), 0)
  {
    hide Inv, Reconciles;
    StepHoldsIff(Reconciled, w, CommitUpdate(0), 0);
    assert w.orders[0].lines[0] in w.orders[0].lines;
    assert ProductsDistinct(UPDATED.lines.value);
    AspectsOf(w, 0);
    AspectsOf(Next(w, CommitUpdate(0)), 0);
  }
}
