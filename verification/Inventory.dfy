// Direct inventory actions: counting a product, moving stock to a truck, and the
// opening quantities of a new product.
module Inventory {
  import opened Basics
  import opened Ledger
  import opened Units

  // ---- Audit counts ----

  datatype CountDto = CountDto(product: ProductId, counted: real, basis: Basis, scope: Scope, key: string)

  datatype CountResponse = CountResponse(
    product: ProductId, before: int, counted: int, delta: int, after: int, negative: bool, large: bool)

  datatype CountOutcome = Counted(response: CountResponse) | CountNotFound

  function CountScope(dto: CountDto): Scope { if dto.scope == "" then "WAREHOUSE" else dto.scope }

  function CountKey(dto: CountDto, now: int): Key {
    if dto.key != "" then ClientCount(dto.key) else StampedCount(dto.product, CountScope(dto), now)
  }

  function Max(a: real, b: real): real { if a < b then b else a }

  // At least a quarter of the earlier balance, and at least 100.
  predicate IsLargeDelta(current: int, delta: int) {
    Abs(delta) as real >= Max(0.25 * Max(1.0, current as real), 100.0)
  }

  // In whole numbers; a delta of 300 at 2000 is not large.
  lemma {:induction false} LargeDeltaIff(current: int, delta: int)
    ensures IsLargeDelta(current, delta) <==> Abs(delta) >= 100 && 4 * Abs(delta) >= current
    ensures !IsLargeDelta(2000, 300)
  {
    var baseline := Max(1.0, current as real);
    assert Abs(delta) as real >= 0.25 * baseline <==> 4.0 * Abs(delta) as real >= baseline;
  }

  // The answer rebuilt from a stored entry.
  function EntryResponse(e: Entry): CountResponse {
    CountResponse(e.posting.product, e.before, e.after, e.posting.quantity, e.after, e.after < 0,
                  IsLargeDelta(e.before, e.posting.quantity))
  }

  function FindEntry(ledger: seq<Entry>, key: Key): Option<Entry> {
    if ledger == [] then None
    else if ledger[|ledger| - 1].posting.key == key then Some(ledger[|ledger| - 1])
    else FindEntry(ledger[..|ledger| - 1], key)
  }

  // The transaction, after the key was looked up and not found. When another call has
  // taken the key since, the insert fails and the first entry is answered from.
  function CountTx(st: Store, catalog: map<ProductId, Product>, dto: CountDto, key: Key): (Store, CountOutcome) {
    var existing := FindEntry(st.ledger, key);
    if dto.product !in catalog then (st, CountNotFound)
    else if existing.Some? then (st, Counted(EntryResponse(existing.value)))
    else
      var counted := ToBase(dto.counted, if dto.basis == Checkout then catalog[dto.product].checkoutToBase else catalog[dto.product].trackingToBase);
      var current := OnHand(st.balances, dto.product, CountScope(dto));
      var delta := counted - current;
      var after := current + delta;
      (Append(st, Posting(dto.product, CountScope(dto), delta, AuditCount, key)),
       Counted(CountResponse(dto.product, current, counted, delta, after, after < 0, IsLargeDelta(current, delta))))
  }

  // The look-up and the transaction with nothing in between.
  function CountStep(st: Store, catalog: map<ProductId, Product>, dto: CountDto, now: int): (Store, CountOutcome) {
    var existing := FindEntry(st.ledger, CountKey(dto, now));
    if existing.Some? then (st, Counted(EntryResponse(existing.value))) else CountTx(st, catalog, dto, CountKey(dto, now))
  }

  // However late the transaction comes after its look-up, and whatever was posted in
  // between, it does what the whole call would do at that moment; unless the key is
  // taken by then and the product is gone.
  lemma {:induction false} LateCountIff(st: Store, catalog: map<ProductId, Product>, dto: CountDto, now: int)
    ensures CountTx(st, catalog, dto, CountKey(dto, now)) == CountStep(st, catalog, dto, now)
            <==> CountKey(dto, now) !in Keys(st.ledger) || dto.product in catalog
  {
    hide EntryResponse, ToBase, IsLargeDelta;
    FindEntryFinds(st.ledger, CountKey(dto, now));
  }

  lemma {:induction false} FindEntryFinds(ledger: seq<Entry>, key: Key)
    ensures FindEntry(ledger, key).None? <==> key !in Keys(ledger)
    ensures FindEntry(ledger, key).Some? ==> FindEntry(ledger, key).value in ledger && FindEntry(ledger, key).value.posting.key == key
  {
    if ledger != [] {
      var front, last := ledger[..|ledger| - 1], ledger[|ledger| - 1];
      assert ledger == front + [last];
      FindEntryFinds(front, key);
      KeysConcat(front, [last]);
      assert Keys([last]) == {last.posting.key};
    }
  }

  // In a ledger with unique keys the entry of a key is the same one for good.
  lemma {:induction false} FindEntryStays(ledger: seq<Entry>, later: seq<Entry>, key: Key)
    requires ledger <= later && key in Keys(ledger)
    requires forall i, j | 0 <= i < j < |later| :: later[i].posting.key != later[j].posting.key
    ensures FindEntry(later, key) == FindEntry(ledger, key)
  {
    FindEntryFinds(ledger, key);
    FindEntryFinds(later, key);
    assert key in Keys(later) by {
      var e :| e in ledger && e.posting.key == key;
      assert e in later;
    }
    var a, b := FindEntry(ledger, key).value, FindEntry(later, key).value;
    var i :| 0 <= i < |ledger| && ledger[i] == a;
    var j :| 0 <= j < |later| && later[j] == b;
    assert later[i] == a;
  }

  // Where a count is: in the scope it names, or the warehouse.
  ghost predicate CountedIn(dto: CountDto, scope: Scope) { scope == if dto.scope == "" then "WAREHOUSE" else dto.scope }

  // A count that posts leaves the counted quantity on hand, in base units of the unit
  // counted in, and nothing else moved; and says so.
  lemma {:induction false} CountSetsBalance(st: Store, catalog: map<ProductId, Product>, dto: CountDto, now: int, scope: Scope)
    requires Agrees(st) && CountKey(dto, now) !in Keys(st.ledger) && dto.product in catalog && CountedIn(dto, scope)
    ensures var (st', o) := CountStep(st, catalog, dto, now);
      var (product, before, after) := (catalog[dto.product], OnHand(st.balances, dto.product, scope), OnHand(st'.balances, dto.product, scope));
      && Agrees(st')
      && after == Round(dto.counted * (if dto.basis == Checkout then product.checkoutToBase else product.trackingToBase) as real)
      && (forall p, s | (p, s) != (dto.product, scope) :: OnHand(st'.balances, p, s) == OnHand(st.balances, p, s))
      && Since(st, st') == [Posting(dto.product, scope, after - before, AuditCount, CountKey(dto, now))]
      && o == Counted(CountResponse(dto.product, before, after, after - before, after, after < 0,
                                    Abs(after - before) >= 100 && 4 * Abs(after - before) >= before))
  {
    hide IsLargeDelta, Agrees, CountStep, Matches, Net, Round, Since;
    var before := OnHand(st.balances, dto.product, scope);
    var after := Round(dto.counted * (if dto.basis == Checkout then catalog[dto.product].checkoutToBase else catalog[dto.product].trackingToBase) as real);
    var p := Posting(dto.product, scope, after - before, AuditCount, CountKey(dto, now));
    CountPosts(st, catalog, dto, now, scope);
    LargeDeltaIff(before, after - before);
    AppendAgrees(st, p);
    SinceAppend(st, p);
  }

  lemma {:induction false} SinceAppend(st: Store, p: Posting)
    ensures Since(st, Append(st, p)) == [p]
  {
    AppendEffect(st, p);
    var l := Append(st, p).ledger;
    assert Postings(l[|st.ledger|..]) == Postings(l)[|st.ledger|..];
  }

  lemma {:induction false} CountPosts(st: Store, catalog: map<ProductId, Product>, dto: CountDto, now: int, scope: Scope)
    requires CountKey(dto, now) !in Keys(st.ledger) && dto.product in catalog && CountedIn(dto, scope)
    ensures var before := OnHand(st.balances, dto.product, scope);
      var after := Round(dto.counted * (if dto.basis == Checkout then catalog[dto.product].checkoutToBase else catalog[dto.product].trackingToBase) as real);
      CountStep(st, catalog, dto, now) ==
        (Append(st, Posting(dto.product, scope, after - before, AuditCount, CountKey(dto, now))),
         Counted(CountResponse(dto.product, before, after, after - before, after, after < 0, IsLargeDelta(before, after - before))))
  {
    hide IsLargeDelta, Append, FindEntry, OnHand, EntryResponse, ToBase, Round, CountTx, Keys;
    FindEntryFinds(st.ledger, CountKey(dto, now));
    CountTxPosts(st, catalog, dto, CountKey(dto, now), scope);
    ToBaseIs(dto.counted, if dto.basis == Checkout then catalog[dto.product].checkoutToBase else catalog[dto.product].trackingToBase);
  }

  lemma {:induction false} CountTxPosts(st: Store, catalog: map<ProductId, Product>, dto: CountDto, key: Key, scope: Scope)
    requires FindEntry(st.ledger, key).None? && dto.product in catalog && CountedIn(dto, scope)
    ensures var before := OnHand(st.balances, dto.product, scope);
      var after := ToBase(dto.counted, if dto.basis == Checkout then catalog[dto.product].checkoutToBase else catalog[dto.product].trackingToBase);
      CountTx(st, catalog, dto, key) ==
        (Append(st, Posting(dto.product, scope, after - before, AuditCount, key)),
         Counted(CountResponse(dto.product, before, after, after - before, after, after < 0, IsLargeDelta(before, after - before))))
  {
    hide IsLargeDelta, Append, FindEntry, OnHand, EntryResponse, ToBase;
  }

  // Its key is the client's, or else the product, the scope and the time.
  lemma {:induction false} CountKeyIs(dto: CountDto, now: int, scope: Scope)
    requires CountedIn(dto, scope)
    ensures CountKey(dto, now) == if dto.key != "" then ClientCount(dto.key) else StampedCount(dto.product, scope, now)
  {}

  // An accepted count is in the ledger, and its answer is the one its entry gives.
  lemma {:induction false} CountRecorded(st: Store, catalog: map<ProductId, Product>, dto: CountDto, now: int)
    requires CountStep(st, catalog, dto, now).1.Counted?
    ensures var (st', o) := CountStep(st, catalog, dto, now);
      var e := FindEntry(st'.ledger, CountKey(dto, now));
      e.Some? && o.response == EntryResponse(e.value)
  {
    hide IsLargeDelta, ToBase, FindEntry, OnHand;
    var current := OnHand(st.balances, dto.product, CountScope(dto));
    var p := Posting(dto.product, CountScope(dto), CountStep(st, catalog, dto, now).1.response.delta, AuditCount, CountKey(dto, now));
    FindLast(st.ledger, Entry(p, current, current + p.quantity));
  }

  lemma {:induction false} FindLast(ledger: seq<Entry>, e: Entry)
    ensures FindEntry(ledger + [e], e.posting.key) == Some(e)
  {}

  // Repeating a count under its key, at any later time and with any other
  // content, gives back the first answer and posts nothing.
  lemma {:induction false} CountReplays(st: Store, catalog: map<ProductId, Product>, dto: CountDto, now: int,
                     later: Store, catalog': map<ProductId, Product>, dto': CountDto, now': int)
    requires CountStep(st, catalog, dto, now).1.Counted? && dto.key != "" && dto'.key == dto.key
    requires Agrees(later) && CountStep(st, catalog, dto, now).0.ledger <= later.ledger
    ensures CountStep(later, catalog', dto', now') == (later, CountStep(st, catalog, dto, now).1)
  {
    hide EntryResponse, FindEntry, ToBase;
    var key, st1 := ClientCount(dto.key), CountStep(st, catalog, dto, now).0;
    CountRecorded(st, catalog, dto, now);
    FindEntryFinds(st1.ledger, key);
    FindEntryStays(st1.ledger, later.ledger, key);
  }

  // ---- Transfers to a truck ----

  datatype MoveDto = MoveDto(product: ProductId, quantity: real, unit: string, technician: string, from: Scope, key: string)
  datatype MoveOutcome = Moved | AlreadyMoved | MoveNotFound | MoveConflict

  function MoveFrom(dto: MoveDto): Scope { if dto.from == "" then "WAREHOUSE" else dto.from }
  function MoveTo(dto: MoveDto): Scope { "TRUCK:" + dto.technician }

  function MoveBase(catalog: map<ProductId, Product>, dto: MoveDto): int
    requires dto.product in catalog
  {
    ToBase(dto.quantity, UnitFactor(catalog[dto.product], dto.unit, Tracking))
  }

  function MovePosting(dto: MoveDto, quantity: int, out: bool): Posting {
    Posting(dto.product, if out then MoveFrom(dto) else MoveTo(dto), if out then -quantity else quantity, Transfer, ClientMove(dto.key, out))
  }

  function MoveStep(st: Store, catalog: map<ProductId, Product>, dto: MoveDto): (Store, MoveOutcome) {
    if ClientMove(dto.key, true) in Keys(st.ledger) || ClientMove(dto.key, false) in Keys(st.ledger) then (st, AlreadyMoved)
    else if dto.product !in catalog then (st, MoveNotFound)
    else
      var q := MoveBase(catalog, dto);
      var r := AppendPair(st, MovePosting(dto, q, true), MovePosting(dto, q, false));
      if r.None? then (st, MoveConflict) else (r.value, Moved)
  }

  // A transfer keeps balances and ledger in agreement exactly when it leaves its
  // own scope or moves nothing.
  lemma {:induction false} TransferAgreesIff(st: Store, catalog: map<ProductId, Product>, dto: MoveDto)
    requires Agrees(st) && MoveStep(st, catalog, dto).1 == Moved
    ensures dto.product in catalog
    ensures Agrees(MoveStep(st, catalog, dto).0) <==> MoveFrom(dto) != MoveTo(dto) || MoveBase(catalog, dto) == 0
  {
    var q := MoveBase(catalog, dto);
    PairAgreesIff(st, MovePosting(dto, q, true), MovePosting(dto, q, false));
  }

  // From the scope it names, or the warehouse, onto the technician's truck.
  ghost predicate MovesBetween(dto: MoveDto, from: Scope, to: Scope) {
    from == (if dto.from == "" then "WAREHOUSE" else dto.from) && to == "TRUCK:" + dto.technician
  }

  // A transfer goes through exactly for a known product and a new key, and to another
  // scope it moves its quantity, at the factor of its unit, and no other balance.
  lemma {:induction false} TransferMoves(st: Store, catalog: map<ProductId, Product>, dto: MoveDto, from: Scope, to: Scope, p: ProductId, s: Scope)
    requires MovesBetween(dto, from, to)
    ensures MoveStep(st, catalog, dto).1 == Moved <==>
      dto.product in catalog && ClientMove(dto.key, true) !in Keys(st.ledger) && ClientMove(dto.key, false) !in Keys(st.ledger)
    ensures MoveStep(st, catalog, dto).1 != Moved ==>
      var used := ClientMove(dto.key, true) in Keys(st.ledger) || ClientMove(dto.key, false) in Keys(st.ledger);
      MoveStep(st, catalog, dto) == (st, if used then AlreadyMoved else MoveNotFound)
    ensures MoveStep(st, catalog, dto).1 == Moved && from != to ==>
      && dto.product in catalog
      && var q := Round(dto.quantity * UnitBase(catalog[dto.product], dto.unit) as real);
      OnHand(MoveStep(st, catalog, dto).0.balances, p, s) == OnHand(st.balances, p, s)
        + (if p == dto.product && s == to then q else 0) - (if p == dto.product && s == from then q else 0)
  {
    hide MoveBase, UnitBase, Round;
    if dto.product in catalog { MoveBaseIs(catalog, dto); }
  }

  // Its entries, in any scopes: one out, one in.
  lemma {:induction false} TransferEntries(st: Store, catalog: map<ProductId, Product>, dto: MoveDto, from: Scope, to: Scope)
    requires MovesBetween(dto, from, to) && MoveStep(st, catalog, dto).1 == Moved
    ensures dto.product in catalog
    ensures var (st', q) := (MoveStep(st, catalog, dto).0, Round(dto.quantity * UnitBase(catalog[dto.product], dto.unit) as real));
      && st.ledger <= st'.ledger
      && Since(st, st') == [Posting(dto.product, from, -q, Transfer, ClientMove(dto.key, true)), Posting(dto.product, to, q, Transfer, ClientMove(dto.key, false))]
  {
    hide MoveBase, AppendPair, Since, UnitBase, MoveStep, Round;
    MovedPair(st, catalog, dto);
    MoveBaseIs(catalog, dto);
    var q := MoveBase(catalog, dto);
    var a, b := MovePosting(dto, q, true), MovePosting(dto, q, false);
    SincePair(st, a, b);
    assert a == Posting(dto.product, from, -q, Transfer, ClientMove(dto.key, true));
    assert b == Posting(dto.product, to, q, Transfer, ClientMove(dto.key, false));
  }

  lemma {:induction false} MoveBaseIs(catalog: map<ProductId, Product>, dto: MoveDto)
    requires dto.product in catalog
    ensures MoveBase(catalog, dto) == Round(dto.quantity * UnitBase(catalog[dto.product], dto.unit) as real)
  {
    hide UnitFactor, UnitIs;
    UnitBaseIs(catalog[dto.product], dto.unit);
  }

  lemma {:induction false} MovedPair(st: Store, catalog: map<ProductId, Product>, dto: MoveDto)
    requires MoveStep(st, catalog, dto).1 == Moved
    ensures dto.product in catalog
    ensures var q := MoveBase(catalog, dto);
      AppendPair(st, MovePosting(dto, q, true), MovePosting(dto, q, false)) == Some(MoveStep(st, catalog, dto).0)
  {
    hide MoveBase, MovePosting, AppendPair;
  }

  lemma {:induction false} SincePair(st: Store, a: Posting, b: Posting)
    requires AppendPair(st, a, b).Some?
    ensures var st' := AppendPair(st, a, b).value; st.ledger <= st'.ledger && Since(st, st') == [a, b]
  {}

  // Three packs are eighteen pieces.
  lemma {:induction false} PacksMove()
    ensures var dto := MoveDto("p", 3.0, "pack", "t", "", "k");
      var st := MoveStep(Empty, map["p" := PACKED], dto).0;
      OnHand(st.balances, "p", "TRUCK:t") == 18 && OnHand(st.balances, "p", "WAREHOUSE") == -18
  {
    hide Normalize, MoveStep, OnHand, UnitBase;
    var dto := MoveDto("p", 3.0, "pack", "t", "", "k");
    PackedLabels();
    Whole("pack");
    assert Normalize("pack") == "pack";
    UnitIsOne(PACKED, "pack", 1, UnitBase(PACKED, "pack"), 6);
    assert Keys(Empty.ledger) == {};
    var truck: string, shelf: string := "TRUCK:t", "WAREHOUSE";
    assert "TRUCK:" + "t" == truck && |truck| != |shelf|;
    TransferMoves(Empty, map["p" := PACKED], dto, shelf, truck, "p", truck);
    TransferMoves(Empty, map["p" := PACKED], dto, shelf, truck, "p", shelf);
    EmptyHolds();
  }

  // A transfer key moves stock once, whatever a repeated call carries.
  lemma {:induction false} TransferOnce(st: Store, catalog: map<ProductId, Product>, dto: MoveDto,
                     later: Store, catalog': map<ProductId, Product>, dto': MoveDto)
    requires MoveStep(st, catalog, dto).1 == Moved && dto'.key == dto.key
    requires MoveStep(st, catalog, dto).0.ledger <= later.ledger
    ensures MoveStep(later, catalog', dto') == (later, AlreadyMoved)
  {
    var st1 := MoveStep(st, catalog, dto).0;
    assert st1.ledger[|st.ledger|] in later.ledger by { assert later.ledger[|st.ledger|] == st1.ledger[|st.ledger|]; }
    assert st1.ledger[|st.ledger|].posting.key == ClientMove(dto.key, true);
  }

  // ---- Opening quantities ----

  // The opening count of a product just created: nothing if the count is already there.
  function InitialOnHandStep(st: Store, product: ProductId, scope: Scope, counted: int): Store {
    var delta := counted - OnHand(st.balances, product, scope);
    var key := InitialOnHand(product, scope, counted);
    if key in Keys(st.ledger) || delta == 0 then st
    else Append(st, Posting(product, scope, delta, Adjustment, key))
  }

  function InitialLoadStep(st: Store, product: ProductId, scope: Scope, quantity: int, day: int): Store {
    var key := InitialLoadKey(scope, product, quantity, day);
    if quantity <= 0 || key in Keys(st.ledger) then st
    else Append(st, Posting(product, scope, quantity, InitialLoad, key))
  }

  // A new product has no earlier entries, so its opening count is what is on hand.
  lemma {:induction false} OpeningCountHolds(st: Store, product: ProductId, scope: Scope, counted: int)
    requires Agrees(st)
    requires forall e | e in st.ledger :: e.posting.product != product && e.posting.key != InitialOnHand(product, scope, counted)
    ensures Agrees(InitialOnHandStep(st, product, scope, counted))
    ensures OnHand(InitialOnHandStep(st, product, scope, counted).balances, product, scope) == counted
  {
    hide Select;
    var ps := Postings(st.ledger);
    forall p | p in ps ensures !Matches(Pair(product, scope), p) {
      var i :| 0 <= i < |ps| && ps[i] == p;
      assert st.ledger[i] in st.ledger;
    }
    SelectNone(ps, Pair(product, scope));
    var key := InitialOnHand(product, scope, counted);
    if key !in Keys(st.ledger) {
      AppendAgrees(st, Posting(product, scope, counted, Adjustment, key));
    }
  }

  // An opening count posts once; then its quantity is on hand, and no other balance has
  // moved.
  lemma {:induction false} OpeningPosts(st: Store, product: ProductId, scope: Scope, counted: int, p: ProductId, s: Scope)
    ensures var st' := InitialOnHandStep(st, product, scope, counted);
      if InitialOnHand(product, scope, counted) in Keys(st.ledger) then st' == st
      else OnHand(st'.balances, p, s) == if (p, s) == (product, scope) then counted else OnHand(st.balances, p, s)
  {}

  // An initial load puts its quantity, once a day, and nothing that is not positive.
  lemma {:induction false} InitialLoadPosts(st: Store, product: ProductId, scope: Scope, quantity: int, day: int, p: ProductId, s: Scope)
    ensures var st' := InitialLoadStep(st, product, scope, quantity, day);
      var due := InitialLoadKey(scope, product, quantity, day) !in Keys(st.ledger) && quantity > 0;
      && (st' != st <==> due)
      && OnHand(st'.balances, p, s) == OnHand(st.balances, p, s) + (if due && (p, s) == (product, scope) then quantity else 0)
  {
    var posting := Posting(product, scope, quantity, InitialLoad, InitialLoadKey(scope, product, quantity, day));
    assert |Append(st, posting).ledger| == |st.ledger| + 1;
  }
}
