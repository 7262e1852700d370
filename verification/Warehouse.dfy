// All services on one ledger. Each service's machine sees the others only as
// foreign transactions; here they run together, every step of one being a foreign
// transaction of the others.
module Warehouse {
  import opened Basics
  import opened Batches
  import opened Ledger
  import opened Units
  import A = Audits
  import B = PurchaseOrders
  import BR = PurchaseOrderRuns
  import C = ReceivingCsv
  import D = TransferRequests
  import DI = TransferInvariants
  import PR = PurchaseOrderReconciliation
  import M = Incoming
  import O = TransferOverlaps
  import V = Inventory

  datatype Site = Site(floor: O.Floor, books: B.Books, audit: A.AuditBook)

  datatype Call =
    | AtDesk(move: O.Move)
    | AtBooks(order: B.Action)
    | AtAudit(audit: A.Action)
    | ToTruck(dto: V.MoveDto)          // a transfer
    | Direct(postings: seq<Posting>)   // counts, receiving lines, opening quantities
    | SetProduct(product: ProductId, row: Product)

  // Key families that belong to one of the three services.
  predicate Owned(ps: seq<Posting>) {
    exists p | p in ps :: p.key.RequestMove? || p.key.PoReceiving? || p.key.AuditLine?
  }

  ghost function Next(y: Site, c: Call): Site {
    match c
    case AtDesk(s) =>
      if Shared(s) then y else
        var floor := O.Next(y.floor, s);
        var ps := Since(y.floor.desk.store, floor.desk.store);
        Site(floor, B.Next(y.books, B.Foreign(ps)), A.Next(y.audit, A.Foreign(ps)))
    case AtBooks(a) =>
      if a.Foreign? || a.SetProduct? then y else
        var books := B.Next(y.books, a);
        var ps := Since(y.books.store, books.store);
        Site(DeskForeign(y.floor, ps), books, A.Next(y.audit, A.Foreign(ps)))
    case AtAudit(a) =>
      if a.Foreign? || a.SetProduct? then y else
        var audit := A.Next(y.audit, a);
        var ps := Since(y.audit.store, audit.store);
        Site(DeskForeign(y.floor, ps), B.Next(y.books, B.Foreign(ps)), audit)
    case ToTruck(dto) => WithStore(y, V.MoveStep(y.floor.desk.store, y.floor.desk.catalog, dto).0)
    case Direct(ps) =>
      if Owned(ps) then y else
        Site(DeskForeign(y.floor, ps), B.Next(y.books, B.Foreign(ps)), A.Next(y.audit, A.Foreign(ps)))
    case SetProduct(p, row) =>
      Site(O.Next(y.floor, O.AtDesk(D.Step(ANYONE, D.SetProduct(p, row)))), B.Next(y.books, B.SetProduct(p, row)), A.Next(y.audit, A.SetProduct(p, row)))
  }

  ghost function WithStore(y: Site, st: Store): Site {
    Site(OnStore(y.floor, st), y.books.(store := st), y.audit.(store := st))
  }

  function OnStore(f: O.Floor, st: Store): O.Floor { f.(desk := f.desk.(store := st)) }

  const ANYONE := D.User(D.Admin, None)

  ghost function DeskForeign(f: O.Floor, ps: seq<Posting>): O.Floor {
    O.Next(f, O.AtDesk(D.Step(ANYONE, D.Foreign(ps))))
  }

  // Moves that have their own calls here.
  predicate Shared(m: O.Move) { m.AtDesk? && (m.step.action.Foreign? || m.step.action.SetProduct?) }

  ghost function Run(y: Site, calls: seq<Call>): Site {
    if calls == [] then y else Next(Run(y, calls[..|calls| - 1]), calls[|calls| - 1])
  }

  // One ledger, one set of balances, one catalog.
  ghost predicate Synced(y: Site) {
    y.floor.desk.store == y.books.store == y.audit.store && y.floor.desk.catalog == y.books.catalog == y.audit.catalog
  }

  ghost predicate Initial(y: Site) {
    Synced(y) && O.Initial(y.floor) && B.Initial(y.books) && A.Initial(y.audit)
  }

  ghost predicate Inv(y: Site) {
    Synced(y) && O.Inv(y.floor) && BR.Inv(y.books) && A.Inv(y.audit)
  }

  // ---- What a step appends ----

  // The step is one committed transaction of the postings it appended, or nothing.
  ghost predicate Appends(st: Store, st': Store) {
    PostAll(st, Since(st, st')) == Some(st')
  }

  lemma {:induction false} PostedSince(st: Store, ps: seq<Posting>, st': Store)
    requires PostAll(st, ps) == Some(st')
    ensures Since(st, st') == ps && Appends(st, st')
  {
    PostAllEffect(st, ps);
    var n := |st.ledger|;
    assert |Postings(st'.ledger)| == n + |ps|;
    assert Postings(st'.ledger[n..]) == Postings(st'.ledger)[n..];
  }

  lemma {:induction false} NothingSince(st: Store)
    ensures Since(st, st) == [] && Appends(st, st)
  {
    PostedSince(st, [], st);
  }

  lemma {:induction false} FinalizeKeys(id: nat, r: D.Request, lines: seq<D.Line>, catalog: map<ProductId, Product>)
    ensures forall p | p in D.FinalizePostings(id, r, lines, catalog) :: p.key.RequestMove?
  {
    if lines != [] { FinalizeKeys(id, r, lines[..|lines| - 1], catalog); }
  }

  lemma {:induction false} DeskAppends(w: D.Desk, s: D.Step)
    requires !s.action.Foreign?
    ensures var st' := D.Next(w, s).store; Appends(w.store, st') && forall p | p in Since(w.store, st') :: p.key.RequestMove?
  {
    hide PostAll, Since, D.FinalizePostings;
    NothingSince(w.store);
    if s.action.CommitFinalize? && s.action.call in w.inflight {
      var id, row := w.inflight[s.action.call].id, w.inflight[s.action.call].row;
      var ps := D.FinalizePostings(id, row, row.lines, w.catalog);
      FinalizeKeys(id, row, row.lines, w.catalog);
      if PostAll(w.store, ps).Some? { PostedSince(w.store, ps, PostAll(w.store, ps).value); }
    }
  }

  lemma {:induction false} FloorAppends(f: O.Floor, m: O.Move)
    requires !Shared(m)
    ensures var w' := O.Next(f, m).desk;
      w'.catalog == f.desk.catalog && Appends(f.desk.store, w'.store) && forall p | p in Since(f.desk.store, w'.store) :: p.key.RequestMove?
  {
    hide PostAll, Since, D.Next, O.Decide, O.Land;
    NothingSince(f.desk.store);
    if m.AtDesk? {
      DeskAppends(f.desk, m.step);
      DeskCatalog(f.desk, m.step);
    }
  }

  lemma {:induction false} BooksAppend(w: B.Books, a: B.Action)
    requires !a.Foreign?
    ensures var st' := B.Next(w, a).store; Appends(w.store, st') && forall p | p in Since(w.store, st') :: p.key.PoReceiving?
  {
    hide Appends, Since, B.ReceiveCommit, B.ReadOrder, B.PrepareUpdate, B.UpdateCommit;
    NothingSince(w.store);
    match a
    case Receive(id, dto) =>
      if B.ReadOrder(w, id, dto).Selected? { ReceiveAppends(w, B.LookUp(B.ReadOrder(w, id, dto).call, Keys(w.store.ledger))); }
    case CommitReceive(call) =>
      if call in w.receiving && w.receiving[call].todo.Some? { ReceiveAppends(w.(receiving := w.receiving - {call}), w.receiving[call]); }
    case Update(id, dto) => if B.PrepareUpdate(w, id, dto).Ready? { UpdateAppends(w, B.PrepareUpdate(w, id, dto).call); }
    case CommitUpdate(call) => if call in w.updating { UpdateAppends(w.(updating := w.updating - {call}), w.updating[call]); }
    case _ =>
  }

  lemma {:induction false} ReceiveAppends(w: B.Books, c: B.ReceiveCall)
    requires c.todo.Some?
    ensures var w' := B.ReceiveCommit(w, c).0;
      w'.catalog == w.catalog && Appends(w.store, w'.store) && forall p | p in Since(w.store, w'.store) :: p.key.PoReceiving?
  {
    hide PostAll, Since, Appends, B.Increment, B.StatusAfter, B.LinesPresent;
    NothingSince(w.store);
    var ps := B.PickPostings(c.todo.value, c.order, c.batch);
    if PostAll(w.store, ps).Some? { PostedSince(w.store, ps, PostAll(w.store, ps).value); }
  }

  lemma {:induction false} UpdateAppends(w: B.Books, c: B.UpdateCall)
    ensures var w' := B.UpdateCommit(w, c).0; w'.catalog == w.catalog && w'.store == w.store
  {
    hide B.Insert, B.ProductsDistinct;
  }

  lemma {:induction false} AdjustmentKeys(id: nat, s: A.Session, lines: seq<A.CountedLine>, posted: set<Key>)
    ensures forall p | p in A.Adjustments(id, s, lines, posted) :: p.key.AuditLine?
  {
    if lines != [] { AdjustmentKeys(id, s, lines[..|lines| - 1], posted); }
  }

  lemma {:induction false} AuditAppends(w: A.AuditBook, a: A.Action)
    requires !a.Foreign?
    ensures var st' := A.Next(w, a).store; Appends(w.store, st') && forall p | p in Since(w.store, st') :: p.key.AuditLine?
  {
    hide Appends, Since, A.FinalizeAt, A.CheckCount, A.MeasureAt, A.WriteAt;
    NothingSince(w.store);
    match a
    case Finalize(id) => if id in w.sessions { FinalizeAppends(w, A.FinalizeCall(id, w.sessions[id])); }
    case CommitFinalize(call) =>
      if call in w.finalizing { FinalizeAppends(w.(finalizing := w.finalizing - {call}), w.finalizing[call]); }
    case AddLine(id, product, counted, basis) =>
      if A.CheckCount(w, id, product, counted, basis).Passed? { CountAppends(w, id, product, counted, basis); }
    case WriteLine(call) =>
      if call in w.counting && w.counting[call].Measured? { WriteAppends(w.(counting := w.counting - {call}), w.counting[call]); }
    case _ =>
  }

  lemma {:induction false} FinalizeAppends(w: A.AuditBook, c: A.FinalizeCall)
    ensures var w' := A.FinalizeAt(w, c).0;
      w'.catalog == w.catalog && Appends(w.store, w'.store) && forall p | p in Since(w.store, w'.store) :: p.key.AuditLine?
  {
    hide PostAll, Since, Appends, A.Adjustments, A.ZeroLines;
    NothingSince(w.store);
    var ps := A.Adjustments(c.session, c.read, c.read.lines, Keys(w.store.ledger));
    AdjustmentKeys(c.session, c.read, c.read.lines, Keys(w.store.ledger));
    if PostAll(w.store, ps).Some? { PostedSince(w.store, ps, PostAll(w.store, ps).value); }
  }

  lemma {:induction false} CountAppends(w: A.AuditBook, id: nat, product: ProductId, counted: real, basis: Basis)
    ensures var w' := A.AddLineStep(w, id, product, counted, basis).0; w'.catalog == w.catalog && w'.store == w.store
  {
    hide A.CountedBase, A.SetLine, OnHand;
  }

  lemma {:induction false} WriteAppends(w: A.AuditBook, c: A.CountCall)
    requires c.Measured?
    ensures var w' := A.WriteAt(w, c).0; w'.catalog == w.catalog && w'.store == w.store
  {
    hide A.SetLine;
  }

  // A foreign transaction leaves the same store in every machine that does not own
  // its keys.
  lemma {:induction false} ForeignSame(y: Site, ps: seq<Posting>)
    ensures (forall p | p in ps :: !p.key.RequestMove?) ==> DeskForeign(y.floor, ps) == OnStore(y.floor, Commit(y.floor.desk.store, ps))
    ensures (forall p | p in ps :: !p.key.PoReceiving?) ==> B.Next(y.books, B.Foreign(ps)) == y.books.(store := Commit(y.books.store, ps))
    ensures (forall p | p in ps :: !p.key.AuditLine?) ==> A.Next(y.audit, A.Foreign(ps)) == y.audit.(store := Commit(y.audit.store, ps))
  {
    hide Commit;
  }

  // ---- The services together ----

  // A transfer within one scope that moves something.
  ghost predicate SelfMove(y: Site, c: Call) {
    && c.ToTruck? && V.MoveStep(y.floor.desk.store, y.floor.desk.catalog, c.dto).1 == V.Moved
    && c.dto.product in y.floor.desk.catalog
    && V.MoveFrom(c.dto) == V.MoveTo(c.dto) && V.MoveBase(y.floor.desk.catalog, c.dto) != 0
  }

  // A step of one service is, to the others, a transaction of postings; except for
  // one kind.
  lemma {:induction false} SyncedStep(y: Site, c: Call)
    requires Synced(y)
    ensures Synced(Next(y, c))
    ensures !SelfMove(y, c) ==> exists ps :: Next(y, c).floor.desk.store == Commit(y.floor.desk.store, ps)
  {
    hide Since, DeskForeign, PostAll, V.MoveStep, A.Next, B.Next, O.Next;
    var st := y.floor.desk.store;
    match c
    case AtDesk(s) =>
      if Shared(s) {
        NothingCommitted(st);
      } else {
        FloorAppends(y.floor, s);
        ForeignSame(y, Since(st, O.Next(y.floor, s).desk.store));
      }
    case AtBooks(a) =>
      if a.Foreign? || a.SetProduct? {
        NothingCommitted(st);
      } else {
        BooksAppend(y.books, a);
        ForeignSame(y, Since(st, B.Next(y.books, a).store));
        BooksCatalog(y.books, a);
      }
    case AtAudit(a) =>
      if a.Foreign? || a.SetProduct? {
        NothingCommitted(st);
      } else {
        AuditAppends(y.audit, a);
        ForeignSame(y, Since(st, A.Next(y.audit, a).store));
        AuditCatalog(y.audit, a);
      }
    case ToTruck(dto) =>
      if !SelfMove(y, c) { MoveCommits(y, dto); }
    case Direct(ps) =>
      ForeignSame(y, ps);
      NothingCommitted(st);
    case SetProduct(p, row) =>
      RowSet(y, p, row);
      NothingCommitted(st);
  }

  lemma {:induction false} NothingCommitted(st: Store)
    ensures Commit(st, []) == st
  {}

  lemma {:induction false} RowSet(y: Site, p: ProductId, row: Product)
    ensures Next(y, SetProduct(p, row)) == Site(y.floor.(desk := y.floor.desk.(catalog := y.floor.desk.catalog[p := row])), y.books.(catalog := y.books.catalog[p := row]), y.audit.(catalog := y.audit.catalog[p := row]))
  {}

  lemma {:induction false} MoveCommits(y: Site, dto: V.MoveDto)
    requires !SelfMove(y, ToTruck(dto))
    ensures exists ps :: V.MoveStep(y.floor.desk.store, y.floor.desk.catalog, dto).0 == Commit(y.floor.desk.store, ps)
  {
    var st := y.floor.desk.store;
    NothingCommitted(st);
    if V.MoveStep(st, y.floor.desk.catalog, dto).1 == V.Moved {
      var q := V.MoveBase(y.floor.desk.catalog, dto);
      var a, b := V.MovePosting(dto, q, true), V.MovePosting(dto, q, false);
      AppendPairIsPostAll(st, a, b);
      assert V.MoveStep(st, y.floor.desk.catalog, dto).0 == Commit(st, [a, b]);
    } else {
      assert V.MoveStep(st, y.floor.desk.catalog, dto).0 == Commit(st, []);
    }
  }

  lemma {:induction false} DeskCatalog(w: D.Desk, s: D.Step)
    requires !s.action.SetProduct?
    ensures D.Next(w, s).catalog == w.catalog
  {
    hide D.FinalizePostings, PostAll, D.DoRow, D.AllKnown;
  }

  lemma {:induction false} BooksCatalog(w: B.Books, a: B.Action)
    requires !a.SetProduct?
    ensures B.Next(w, a).catalog == w.catalog
  {
    hide PostAll, B.PrepareUpdate, B.ReadOrder, B.Insert, B.Increment, B.Prepare, B.InputsValid, B.ProductsDistinct, B.LinesPresent, B.StatusAfter, B.Unposted;
  }

  lemma {:induction false} AuditCatalog(w: A.AuditBook, a: A.Action)
    requires !a.SetProduct?
    ensures A.Next(w, a).catalog == w.catalog
  {
    hide A.CountedBase, A.SetLine, OnHand, A.Adjustments, PostAll;
  }

  // ---- A transfer, seen by the other services ----

  // The same entries up to their before and after values.
  ghost predicate SamePostings(a: Store, b: Store) {
    Postings(a.ledger) == Postings(b.ledger)
  }

  lemma {:induction false} SameKeys(a: Store, b: Store)
    requires SamePostings(a, b)
    ensures Keys(a.ledger) == Keys(b.ledger)
  {
    KeysSubset(a, b);
    KeysSubset(b, a);
  }

  lemma {:induction false} KeysSubset(a: Store, b: Store)
    requires SamePostings(a, b)
    ensures Keys(a.ledger) <= Keys(b.ledger)
  {
    forall k | k in Keys(a.ledger) ensures k in Keys(b.ledger) {
      var e :| e in a.ledger && e.posting.key == k;
      var i :| 0 <= i < |a.ledger| && a.ledger[i] == e;
      assert b.ledger[i].posting == Postings(b.ledger)[i] == Postings(a.ledger)[i];
    }
  }

  ghost predicate OnlyMoves(ps: seq<Posting>) { forall p | p in ps :: p.key.ClientMove? }

  // A transfer leaves the postings that two foreign ones in a row would leave.
  lemma {:induction false} MoveSamePostings(st: Store, catalog: map<ProductId, Product>, dto: V.MoveDto)
    ensures exists ps :: OnlyMoves(ps) && SamePostings(V.MoveStep(st, catalog, dto).0, Commit(st, ps))
  {
    hide AppendPair, Commit, V.MoveBase;
    var st' := V.MoveStep(st, catalog, dto).0;
    if V.MoveStep(st, catalog, dto).1 == V.Moved {
      var q := V.MoveBase(catalog, dto);
      PairSamePostings(st, V.MovePosting(dto, q, true), V.MovePosting(dto, q, false));
      assert OnlyMoves([V.MovePosting(dto, q, true), V.MovePosting(dto, q, false)]);
    } else {
      NothingCommitted(st);
      assert OnlyMoves([]) && SamePostings(st', Commit(st, []));
    }
  }

  lemma {:induction false} PairSamePostings(st: Store, a: Posting, b: Posting)
    requires AppendPair(st, a, b).Some?
    ensures SamePostings(AppendPair(st, a, b).value, Commit(st, [a, b]))
  {
    hide PostAll;
    var st' := AppendPair(st, a, b).value;
    var es := st'.ledger[|st.ledger|..];
    assert Postings(es) == [a, b];
    PostingsConcat(st.ledger, es);
    PairFresh(st, a, b);
    PostAllCommits(st, [a, b]);
    PostAllEffect(st, [a, b]);
  }

  lemma {:induction false} PairFresh(st: Store, a: Posting, b: Posting)
    requires a.key != b.key && a.key !in Keys(st.ledger) && b.key !in Keys(st.ledger)
    ensures FreshKeys(st.ledger, [a, b])
  {}

  // No invariant of a service looks at before and after values, nor at balances.
  lemma {:induction false} StoreSwap(y: Site, st: Store)
    requires SamePostings(y.floor.desk.store, st) && SamePostings(y.books.store, st) && SamePostings(y.audit.store, st)
    ensures O.Inv(y.floor) ==> O.Inv(OnStore(y.floor, st))
    ensures BR.Inv(y.books) ==> BR.Inv(y.books.(store := st))
    ensures A.Inv(y.audit) ==> A.Inv(y.audit.(store := st))
  {
    hide SamePostings, Postings, DI.RowOk, BR.LinesOk, BR.PicksOk, A.ProductsOnce;
    SameKeys(y.audit.store, st);
    if O.Inv(y.floor) { FloorSwap(y.floor, st); }
    BooksSwap(y.books, st);
    if A.Inv(y.audit) { AuditSwap(y.audit, st); }
  }

  lemma {:induction false} FloorSwap(f: O.Floor, st: Store)
    requires O.Inv(f)
    ensures O.Inv(OnStore(f, st))
  {
    hide DI.RowOk, DI.LinesOk, O.WriteOk, O.Decide;
    var w, v := f.desk, OnStore(f, st).desk;
    forall call | call in v.inflight ensures DI.SnapshotOk(v, v.inflight[call]) { assert DI.SnapshotOk(w, w.inflight[call]); }
    forall call | call in f.calls ensures O.CallOk(v, f.calls[call]) { assert O.CallOk(w, f.calls[call]); }
  }

  lemma {:induction false} BooksSwap(w: B.Books, st: Store)
    requires SamePostings(w.store, st)
    ensures BR.Inv(w) ==> BR.Inv(w.(store := st))
  {
    hide BR.LinesOk, BR.PicksOk;
    if BR.Inv(w) { BR.SameBook(w, w.(store := st)); }
  }

  lemma {:induction false} AuditSwap(w: A.AuditBook, st: Store)
    requires A.Inv(w) && Keys(w.store.ledger) == Keys(st.ledger)
    ensures A.Inv(w.(store := st))
  {
    hide A.ProductsOnce;
    var v := w.(store := st);
    forall call | call in v.finalizing ensures A.FinalizeOk(v, v.finalizing[call]) { assert A.FinalizeOk(w, w.finalizing[call]); }
  }

  // Every service has seen a foreign transaction of these postings.
  ghost function Elsewhere(y: Site, ps: seq<Posting>): Site {
    Site(DeskForeign(y.floor, ps), B.Next(y.books, B.Foreign(ps)), A.Next(y.audit, A.Foreign(ps)))
  }

  // The postings of a transfer, as foreign ones.
  lemma {:induction false} MoveAsForeign(y: Site, dto: V.MoveDto) returns (ps: seq<Posting>)
    requires Synced(y)
    ensures var st, z := V.MoveStep(y.floor.desk.store, y.floor.desk.catalog, dto).0, Elsewhere(y, ps);
      && SamePostings(z.floor.desk.store, st) && SamePostings(z.books.store, st) && SamePostings(z.audit.store, st)
      && Next(y, ToTruck(dto)) == Site(OnStore(z.floor, st), z.books.(store := st), z.audit.(store := st))
  {
    hide V.MoveStep, Commit;
    MoveSamePostings(y.floor.desk.store, y.floor.desk.catalog, dto);
    ps :| OnlyMoves(ps) && SamePostings(V.MoveStep(y.floor.desk.store, y.floor.desk.catalog, dto).0, Commit(y.floor.desk.store, ps));
    ForeignSame(y, ps);
  }

  lemma {:induction false} ElsewhereKeeps(y: Site, ps: seq<Posting>)
    requires O.Inv(y.floor) && BR.Inv(y.books) && A.Inv(y.audit)
    ensures var z := Elsewhere(y, ps); O.Inv(z.floor) && BR.Inv(z.books) && A.Inv(z.audit)
  {
    hide O.Inv, BR.Inv, A.Inv, O.Next, B.Next, A.Next;
    O.StepKeeps(y.floor, O.AtDesk(D.Step(ANYONE, D.Foreign(ps))));
    BR.StepKeeps(y.books, B.Foreign(ps));
    A.StepKeeps(y.audit, A.Foreign(ps));
  }

  // ---- Every interleaving of every service ----

  lemma {:induction false} StepKeeps(y: Site, c: Call)
    requires Inv(y)
    ensures Inv(Next(y, c))
  {
    hide O.Inv, BR.Inv, A.Inv, O.Next, B.Next, A.Next, Since, SamePostings, V.MoveStep;
    SyncedStep(y, c);
    match c
    case AtDesk(s) =>
      O.StepKeeps(y.floor, s);
      ElsewhereKeeps(y, Since(y.floor.desk.store, O.Next(y.floor, s).desk.store));
    case AtBooks(a) =>
      BR.StepKeeps(y.books, a);
      ElsewhereKeeps(y, Since(y.books.store, B.Next(y.books, a).store));
    case AtAudit(a) =>
      A.StepKeeps(y.audit, a);
      ElsewhereKeeps(y, Since(y.audit.store, A.Next(y.audit, a).store));
    case ToTruck(dto) =>
      var ps := MoveAsForeign(y, dto);
      ElsewhereKeeps(y, ps);
      StoreSwap(Elsewhere(y, ps), V.MoveStep(y.floor.desk.store, y.floor.desk.catalog, dto).0);
    case Direct(ps) => ElsewhereKeeps(y, ps);
    case SetProduct(p, row) =>
      O.StepKeeps(y.floor, O.AtDesk(D.Step(ANYONE, D.SetProduct(p, row))));
      BR.StepKeeps(y.books, B.SetProduct(p, row));
      A.StepKeeps(y.audit, A.SetProduct(p, row));
  }

  lemma {:induction false} RunKeeps(y: Site, calls: seq<Call>)
    requires Inv(y)
    ensures Inv(Run(y, calls))
  {
    hide Inv, Next;
    if calls != [] {
      RunKeeps(y, calls[..|calls| - 1]);
      StepKeeps(Run(y, calls[..|calls| - 1]), calls[|calls| - 1]);
    }
  }

  lemma {:induction false} InitialInv(y: Site)
    requires Initial(y)
    ensures Inv(y)
  {
    O.InitialInv(y.floor);
    A.InitialInv(y.audit);
    BR.InitialInv(y.books);
  }

  // ---- One ledger ----

  // An entry whose before value is wrong stays so, because no entry ever changes.
  lemma {:induction false} NeverAgain(a: Store, b: Store, i: nat)
    requires a.ledger <= b.ledger && i < |a.ledger| && !EntryAgrees(a.ledger, i)
    ensures !EntryAgrees(b.ledger, i) && !Agrees(b)
  {
    assert b.ledger[..i] == a.ledger[..i];
  }

  ghost predicate Broken(st: Store) {
    exists i: nat | i < |st.ledger| :: !EntryAgrees(st.ledger, i)
  }

  lemma {:induction false} BrokenStays(a: Store, b: Store)
    requires a.ledger <= b.ledger && Broken(a)
    ensures Broken(b) && !Agrees(b)
  {
    hide EntryAgrees;
    var i: nat :| i < |a.ledger| && !EntryAgrees(a.ledger, i);
    NeverAgain(a, b, i);
  }

  lemma {:induction false} SelfMoveBreaks(y: Site, c: Call)
    requires SelfMove(y, c) && Agrees(y.floor.desk.store)
    ensures Broken(Next(y, c).floor.desk.store)
  {
    var st, st', q := y.floor.desk.store, Next(y, c).floor.desk.store, V.MoveBase(y.floor.desk.catalog, c.dto);
    var a, b := V.MovePosting(c.dto, q, true), V.MovePosting(c.dto, q, false);
    var n := |st.ledger|;
    var x := OnHand(st.balances, a.product, a.scope);
    assert st'.ledger[..n + 1] == st.ledger + [Entry(a, x, x + a.quantity)];
    PostingsConcat(st.ledger, [Entry(a, x, x + a.quantity)]);
    assert (Postings(st.ledger) + [a])[..n] == Postings(st.ledger);
    assert Net(Postings(st'.ledger[..n + 1]), Pair(b.product, b.scope)) == x + a.quantity;
    assert !EntryAgrees(st'.ledger, n + 1);
  }

  lemma {:induction false} StepAgreesIff(y: Site, c: Call)
    requires Synced(y) && (Agrees(y.floor.desk.store) || Broken(y.floor.desk.store))
    ensures var st' := Next(y, c).floor.desk.store;
      && (Agrees(st') <==> Agrees(y.floor.desk.store) && !SelfMove(y, c))
      && (Agrees(st') || Broken(st'))
  {
    hide Agrees, Next, Broken, SelfMove, Synced, PostAll;
    if SelfMove(y, c) {
      SelfMoveGrows(y, c);
      if Agrees(y.floor.desk.store) { SelfMoveBreaks(y, c); }
      if Broken(y.floor.desk.store) { BrokenStays(y.floor.desk.store, Next(y, c).floor.desk.store); }
      if Broken(Next(y, c).floor.desk.store) { BrokenStays(Next(y, c).floor.desk.store, Next(y, c).floor.desk.store); }
    } else {
      SyncedStep(y, c);
      var ps :| Next(y, c).floor.desk.store == Commit(y.floor.desk.store, ps);
      PostAllEffect(y.floor.desk.store, ps);
      if Agrees(y.floor.desk.store) { PostAllAgrees(y.floor.desk.store, ps); }
      if Broken(y.floor.desk.store) {
        BrokenStays(y.floor.desk.store, Next(y, c).floor.desk.store);
        BrokenStays(y.floor.desk.store, y.floor.desk.store);
      }
    }
  }

  lemma {:induction false} SelfMoveGrows(y: Site, c: Call)
    requires SelfMove(y, c)
    ensures y.floor.desk.store.ledger <= Next(y, c).floor.desk.store.ledger
  {}

  ghost predicate NoSelfMove(y: Site, calls: seq<Call>) {
    forall k | 0 <= k < |calls| :: !SelfMove(Run(y, calls[..k]), calls[k])
  }

  // From an empty database, after any interleaving of all calls, split or not: the
  // services have one store, in which every balance and every entry's before and
  // after agree with the entries exactly if no transfer within one scope moved
  // anything.
  lemma {:induction false} AllServicesAgree(y: Site, calls: seq<Call>)
    requires Initial(y)
    ensures var z := Run(y, calls);
      && Inv(z)
      && z.floor.desk.store == z.books.store == z.audit.store
      && (Agrees(z.floor.desk.store) <==> NoSelfMove(y, calls))
  {
    hide Agrees, Inv, Run, NoSelfMove, Broken;
    InitialInv(y);
    RunKeeps(y, calls);
    InvSynced(Run(y, calls));
    EmptyAgrees();
    RunAgreesIff(y, calls);
  }

  lemma {:induction false} InvSynced(y: Site)
    requires Inv(y)
    ensures Synced(y)
  {}

  lemma {:induction false} RunNone(y: Site)
    ensures Run(y, []) == y
  {}

  lemma {:induction false} RunLast(y: Site, calls: seq<Call>)
    requires calls != []
    ensures Run(y, calls) == Next(Run(y, calls[..|calls| - 1]), calls[|calls| - 1])
  {}

  lemma {:induction false} RunAgreesIff(y: Site, calls: seq<Call>)
    requires Inv(y) && Agrees(y.floor.desk.store)
    ensures Agrees(Run(y, calls).floor.desk.store) <==> NoSelfMove(y, calls)
    ensures Agrees(Run(y, calls).floor.desk.store) || Broken(Run(y, calls).floor.desk.store)
  {
    hide Agrees, Inv, Run, Broken, SelfMove;
    if calls == [] {
      RunNone(y);
    } else {
      var n := |calls| - 1;
      RunAgreesIff(y, calls[..n]);
      RunKeeps(y, calls[..n]);
      InvSynced(Run(y, calls[..n]));
      RunLast(y, calls);
      StepAgreesIff(Run(y, calls[..n]), calls[n]);
      assert forall k | 0 <= k < n :: calls[..n][..k] == calls[..k] && calls[..n][k] == calls[k];
      if NoSelfMove(y, calls[..n]) {
        forall k | 0 <= k < n ensures !SelfMove(Run(y, calls[..k]), calls[k]) { assert !SelfMove(Run(y, calls[..n][..k]), calls[..n][k]); }
      }
    }
  }

  // ---- Every request and every order, among all services ----

  datatype Aspect = OfDesk(desk: DI.Aspect) | OfBooks(books: PR.Aspect)

  ghost predicate Holds(a: Aspect, y: Site, id: nat) {
    match a
    case OfDesk(d) => DI.Holds(d, y.floor.desk, id)
    case OfBooks(b) => PR.Holds(b, y.books, id)
  }

  // A commit that does not find what its call had read.
  ghost predicate Breaks(a: Aspect, y: Site, c: Call, id: nat) {
    match a
    case OfDesk(d) => c.AtDesk? && O.Breaks(d, y.floor, c.move, id)
    case OfBooks(b) => c.AtBooks? && PR.Critical(b, y.books, c.order, id) && !PR.Fits(b, y.books, c.order, id)
  }

  lemma {:induction false} ElsewhereHolds(a: Aspect, y: Site, ps: seq<Posting>, id: nat)
    requires Inv(y) && Holds(a, y, id)
    ensures Holds(a, Elsewhere(y, ps), id)
  {
    hide O.Inv, BR.Inv, A.Inv, O.Next, B.Next, A.Next, DI.Holds, PR.Holds, O.Breaks, PR.Fits;
    match a
    case OfDesk(d) => { DeskNeverBreaks(d, y.floor, D.Foreign(ps), id); O.StepHoldsIff(d, y.floor, O.AtDesk(D.Step(ANYONE, D.Foreign(ps))), id); }
    case OfBooks(b) => PR.StepHoldsIff(b, y.books, B.Foreign(ps), id);
  }

  lemma {:induction false} DeskNeverBreaks(a: DI.Aspect, f: O.Floor, x: D.Action, id: nat)
    requires !x.CommitFinalize?
    ensures forall user :: !O.Breaks(a, f, O.AtDesk(D.Step(user, x)), id)
  {}

  lemma {:induction false} SwapHolds(a: Aspect, y: Site, z: Site, id: nat)
    requires Holds(a, y, id) && SamePostings(y.floor.desk.store, z.floor.desk.store) && SamePostings(y.books.store, z.books.store)
    requires z.floor == OnStore(y.floor, z.floor.desk.store) && z.books == y.books.(store := z.books.store)
    ensures Holds(a, z, id)
  {
    hide Postings, Net, Select;
    match a
    case OfDesk(d) => DI.SameLedgerHolds(d, y.floor.desk, z.floor.desk, id);
    case OfBooks(b) => PR.SameHolds(b, y.books, z.books, id);
  }

  lemma {:induction false} RowHolds(a: Aspect, y: Site, p: ProductId, row: Product, id: nat)
    requires Inv(y) && Holds(a, y, id)
    ensures Holds(a, Next(y, SetProduct(p, row)), id)
  {
    hide O.Inv, BR.Inv, A.Inv, O.Next, B.Next, A.Next, DI.Holds, PR.Holds, O.Breaks, PR.Fits;
    match a
    case OfDesk(d) => { DeskNeverBreaks(d, y.floor, D.SetProduct(p, row), id); O.StepHoldsIff(d, y.floor, O.AtDesk(D.Step(ANYONE, D.SetProduct(p, row))), id); }
    case OfBooks(b) => PR.StepHoldsIff(b, y.books, B.SetProduct(p, row), id);
  }

  lemma {:induction false} StepHoldsIff(a: Aspect, y: Site, c: Call, id: nat)
    requires Inv(y) && Holds(a, y, id)
    ensures Holds(a, Next(y, c), id) <==> !Breaks(a, y, c, id)
  {
    hide O.Inv, BR.Inv, A.Inv, O.Next, B.Next, A.Next, B.Do, DI.Holds, PR.Holds, O.Breaks, PR.Fits, Since, SamePostings, V.MoveStep;
    match c
    case AtDesk(s) =>
      ElsewhereHolds(a, y, Since(y.floor.desk.store, O.Next(y.floor, s).desk.store), id);
      if a.OfDesk? { O.StepHoldsIff(a.desk, y.floor, s, id); if Shared(s) { DeskNeverBreaks(a.desk, y.floor, s.step.action, id); } }
    case AtBooks(x) =>
      ElsewhereHolds(a, y, Since(y.books.store, B.Next(y.books, x).store), id);
      if a.OfBooks? { PR.StepHoldsIff(a.books, y.books, x, id); }
    case AtAudit(x) =>
      ElsewhereHolds(a, y, Since(y.audit.store, A.Next(y.audit, x).store), id);
    case ToTruck(dto) =>
      var ps := MoveAsForeign(y, dto);
      ElsewhereHolds(a, y, ps, id);
      SwapHolds(a, Elsewhere(y, ps), Next(y, c), id);
    case Direct(ps) => ElsewhereHolds(a, y, ps, id);
    case SetProduct(p, row) => RowHolds(a, y, p, row, id);
  }

  lemma {:induction false} InitialHolds(a: Aspect, y: Site, id: nat)
    requires Initial(y)
    ensures Holds(a, y, id)
  {
    assert Postings(y.floor.desk.store.ledger) == [];
  }

  // From an empty database, among all services: a request stays posted once (or
  // keeps its directions, or its payload rule), and an order stays reconciled (or
  // within what was ordered), exactly if each commit finds what its call had read.
  lemma {:induction false} HoldsThroughoutIff(a: Aspect, y: Site, calls: seq<Call>, id: nat)
    requires Initial(y)
    ensures (forall k | 0 <= k <= |calls| :: Holds(a, Run(y, calls[..k]), id)) <==>
            forall k | 0 <= k < |calls| :: !Breaks(a, Run(y, calls[..k]), calls[k], id)
  {
    hide Holds, Breaks, Run, Inv;
    if calls == [] {
      RunNone(y);
      assert calls[..0] == calls;
      InitialHolds(a, y, id);
    } else {
      var n := |calls| - 1;
      var v := Run(y, calls[..n]);
      HoldsThroughoutIff(a, y, calls[..n], id);
      Prefixes(a, y, calls, n, id);
      InitialInv(y);
      RunKeeps(y, calls[..n]);
      RunLast(y, calls);
      assert calls[..n + 1] == calls;
      if Holds(a, v, id) { StepHoldsIff(a, v, calls[n], id); }
    }
  }

  lemma {:induction false} Prefixes(a: Aspect, y: Site, calls: seq<Call>, n: nat, id: nat)
    requires n <= |calls|
    ensures (forall k | 0 <= k <= n :: Holds(a, Run(y, calls[..n][..k]), id)) <==> forall k | 0 <= k <= n :: Holds(a, Run(y, calls[..k]), id)
    ensures (forall k | 0 <= k < n :: !Breaks(a, Run(y, calls[..n][..k]), calls[..n][k], id)) <==>
            forall k | 0 <= k < n :: !Breaks(a, Run(y, calls[..k]), calls[k], id)
  {
    hide Holds, Breaks, Run;
    assert forall k | 0 <= k <= n :: calls[..n][..k] == calls[..k];
    assert forall k | 0 <= k < n :: calls[..n][k] == calls[k];
    if forall k | 0 <= k <= n :: Holds(a, Run(y, calls[..n][..k]), id) {
      forall k | 0 <= k <= n ensures Holds(a, Run(y, calls[..k]), id) { assert Holds(a, Run(y, calls[..n][..k]), id); }
    }
    if forall k | 0 <= k < n :: !Breaks(a, Run(y, calls[..n][..k]), calls[..n][k], id) {
      forall k | 0 <= k < n ensures !Breaks(a, Run(y, calls[..k]), calls[k], id) { assert !Breaks(a, Run(y, calls[..n][..k]), calls[..n][k], id); }
    }
  }

  // The other stock movements are direct transactions.
  ghost predicate IsDirect(st: Store, st': Store) {
    exists ps :: !Owned(ps) && PostAll(st, ps) == Some(st')
  }

  lemma {:induction false} DirectOf(st: Store, ps: seq<Posting>)
    requires !Owned(ps) && PostAll(st, ps).Some?
    ensures IsDirect(st, PostAll(st, ps).value)
  {}

  lemma {:induction false} NoPostIsDirect(st: Store)
    ensures IsDirect(st, st)
  {
    DirectOf(st, []);
  }

  lemma {:induction false} OneIsDirect(st: Store, p: Posting)
    requires p.key !in Keys(st.ledger) && !(p.key.RequestMove? || p.key.PoReceiving? || p.key.AuditLine?)
    ensures IsDirect(st, Append(st, p))
  {
    assert [p][..0] == [];
    DirectOf(st, [p]);
  }

  lemma {:induction false} CountIsDirect(st: Store, catalog: map<ProductId, Product>, dto: V.CountDto, now: int)
    ensures IsDirect(st, V.CountStep(st, catalog, dto, now).0)
  {
    hide IsDirect;
    NoPostIsDirect(st);
    V.FindEntryFinds(st.ledger, V.CountKey(dto, now));
    var (st', o) := V.CountStep(st, catalog, dto, now);
    if st' != st { OneIsDirect(st, Posting(dto.product, V.CountScope(dto), o.response.delta, AuditCount, V.CountKey(dto, now))); }
  }

  // A transfer is one when it leaves its own scope; otherwise its balance writes
  // overwrite each other and no such transaction has that effect.
  lemma {:induction false} MoveIsDirectIff(st: Store, catalog: map<ProductId, Product>, dto: V.MoveDto)
    requires Agrees(st) && V.MoveStep(st, catalog, dto).1 == V.Moved
    ensures dto.product in catalog
    ensures IsDirect(st, V.MoveStep(st, catalog, dto).0) <==> V.MoveFrom(dto) != V.MoveTo(dto) || V.MoveBase(catalog, dto) == 0
  {
    hide Agrees, Owned;
    var q, st' := V.MoveBase(catalog, dto), V.MoveStep(st, catalog, dto).0;
    var a, b := V.MovePosting(dto, q, true), V.MovePosting(dto, q, false);
    if V.MoveFrom(dto) != V.MoveTo(dto) || q == 0 {
      AppendPairIsPostAll(st, a, b);
      PairNotOwned(a, b);
      DirectOf(st, [a, b]);
    } else {
      V.TransferAgreesIff(st, catalog, dto);
      forall ps | PostAll(st, ps) == Some(st') ensures false { PostAllAgrees(st, ps); }
    }
  }

  lemma {:induction false} PairNotOwned(a: Posting, b: Posting)
    requires a.key.ClientMove? && b.key.ClientMove?
    ensures !Owned([a, b])
  {}

  lemma {:induction false} OpeningIsDirect(st: Store, product: ProductId, scope: Scope, n: int, day: int)
    ensures IsDirect(st, V.InitialOnHandStep(st, product, scope, n))
    ensures IsDirect(st, V.InitialLoadStep(st, product, scope, n, day))
  {
    hide IsDirect;
    NoPostIsDirect(st);
    var delta := n - OnHand(st.balances, product, scope);
    if V.InitialOnHandStep(st, product, scope, n) != st {
      OneIsDirect(st, Posting(product, scope, delta, Adjustment, InitialOnHand(product, scope, n)));
    }
    if V.InitialLoadStep(st, product, scope, n, day) != st {
      OneIsDirect(st, Posting(product, scope, n, InitialLoad, InitialLoadKey(scope, product, n, day)));
    }
  }

  // Each line of a receiving batch, by hand or by CSV, is one.
  lemma {:induction false} ReceivedLineIsDirect(st: Store, b: Batch, c: CsvBatch, l: BatchLine)
    ensures Receiving(b, l.product) !in Keys(st.ledger) ==> IsDirect(st, Append(st, M.LinePosting(b, l)))
    ensures ReceivingCsv(c, l.product) !in Keys(st.ledger) ==> IsDirect(st, Append(st, C.LinePosting(c, l)))
  {
    hide IsDirect;
    if Receiving(b, l.product) !in Keys(st.ledger) { OneIsDirect(st, M.LinePosting(b, l)); }
    if ReceivingCsv(c, l.product) !in Keys(st.ledger) { OneIsDirect(st, C.LinePosting(c, l)); }
  }
}
