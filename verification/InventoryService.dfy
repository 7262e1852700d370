// InventoryService and the opening quantities of ProductsService as the code runs
// them.
module InventoryService {
  import opened Basics
  import opened Inventory
  import opened Ledger
  import opened Schema
  import opened Units

  method AuditCount(db: Database, dto: CountDto) returns (o: CountOutcome)
    modifies db`ledger, db`balances
    ensures (db.StoreView(), o) == CountStep(old(db.StoreView()), db.catalog, dto, db.now)
  {
    var scope := if dto.scope != "" then dto.scope else "WAREHOUSE";
    var key := if dto.key != "" then ClientCount(dto.key) else StampedCount(dto.product, scope, db.now);
    var existing := FindEntry(db.ledger, key);
    FindEntryFinds(db.ledger, key);
    if existing.Some? {
      return Counted(EntryResponse(existing.value));
    }
    o := CountTransaction(db, dto, scope, key);
  }

  // What follows the look-up: a key taken since then makes the insert fail, the
  // transaction roll back, and the answer come from the entry that took it.
  method CountTransaction(db: Database, dto: CountDto, scope: Scope, key: Key) returns (o: CountOutcome)
    requires scope == CountScope(dto)
    modifies db`ledger, db`balances
    ensures (db.StoreView(), o) == CountTx(old(db.StoreView()), db.catalog, dto, key)
  {
    ghost var st := db.StoreView();
    var before, rows := db.ledger, db.balances;
    if dto.product !in db.catalog {
      return CountNotFound;
    }
    var product := db.catalog[dto.product];
    var multiplier := if dto.basis == Checkout then product.checkoutToBase else product.trackingToBase;
    var counted := ToBase(dto.counted, multiplier);
    var current := OnHand(db.balances, dto.product, scope);
    var delta := counted - current;
    var after := current + delta;
    FindEntryFinds(db.ledger, key);
    var ok := db.Post(Posting(dto.product, scope, delta, Kind.AuditCount, key));
    if !ok {
      db.Rollback(before, rows);
      var fallback := FindEntry(db.ledger, key);
      return Counted(EntryResponse(fallback.value));
    }
    o := Counted(CountResponse(dto.product, current, counted, delta, after, after < 0, IsLargeDelta(current, delta)));
  }

  method Transfer(db: Database, dto: MoveDto) returns (o: MoveOutcome)
    modifies db`ledger, db`balances
    ensures (db.StoreView(), o) == MoveStep(old(db.StoreView()), db.catalog, dto)
  {
    if ClientMove(dto.key, true) in Keys(db.ledger) || ClientMove(dto.key, false) in Keys(db.ledger) {
      return AlreadyMoved;
    }
    if dto.product !in db.catalog {
      return MoveNotFound;
    }
    var q := ToBase(dto.quantity, UnitFactor(db.catalog[dto.product], dto.unit, Tracking));
    var ok := db.PostPair(MovePosting(dto, q, true), MovePosting(dto, q, false));
    assert ok;
    o := Moved;
  }

  method OpenOnHand(db: Database, product: ProductId, scope: Scope, counted: int)
    modifies db`ledger, db`balances
    ensures db.StoreView() == InitialOnHandStep(old(db.StoreView()), product, scope, counted)
  {
    var current := OnHand(db.balances, product, scope);
    var delta := counted - current;
    var key := InitialOnHand(product, scope, counted);
    if key !in Keys(db.ledger) && delta != 0 {
      var ok := db.Post(Posting(product, scope, delta, Adjustment, key));
      assert ok;
    }
  }

  method LoadInitial(db: Database, product: ProductId, scope: Scope, quantity: int, day: int) returns (posted: bool)
    modifies db`ledger, db`balances
    ensures db.StoreView() == InitialLoadStep(old(db.StoreView()), product, scope, quantity, day)
    ensures posted <==> |db.ledger| == |old(db.ledger)| + 1
  {
    if quantity <= 0 {
      return false;
    }
    var key := InitialLoadKey(scope, product, quantity, day);
    if key in Keys(db.ledger) {
      return false;
    }
    posted := db.Post(Posting(product, scope, quantity, InitialLoad, key));
  }
}
