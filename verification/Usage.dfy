// The usage report: entries accumulated into a Map of rows keyed by product, by
// technician, or by both joined with "::".
module Usage {
  import opened Basics

  // The technician is the one the checkout's user maps to (or that user), or the
  // one named by a truck scope.
  datatype UsageTx = UsageTx(product: string, quantity: int, technician: Option<string>)
  datatype GroupBy = ByProduct | ByTechnician | ByBoth
  datatype Row = Row(key: string, product: Option<string>, technician: Option<string>, base: int)

  function TechnicianOf(tx: UsageTx): string {
    if tx.technician.Some? && tx.technician.value != "" then tx.technician.value else "unknown"
  }

  // The technician filter is applied only to rows that show a technician.
  predicate Skipped(tx: UsageTx, mode: GroupBy, filter: seq<string>) {
    mode != ByProduct && filter != [] && TechnicianOf(tx) !in filter
  }

  function BothKey(product: string, technician: string): string { product + "::" + technician }

  function RowKey(tx: UsageTx, mode: GroupBy): string {
    match mode
    case ByProduct => tx.product
    case ByTechnician => TechnicianOf(tx)
    case ByBoth => BothKey(tx.product, TechnicianOf(tx))
  }

  function Seed(tx: UsageTx, mode: GroupBy): Row {
    Row(RowKey(tx, mode),
        if mode == ByTechnician then None else Some(tx.product),
        if mode == ByProduct then None else Some(TechnicianOf(tx)), 0)
  }

  // A Map lists its rows in insertion order.
  function Put(rows: seq<Row>, seed: Row, q: int): (r: seq<Row>)
  {
    if rows == [] then [seed.(base := seed.base + q)]
    else if rows[0].key == seed.key then [rows[0].(base := rows[0].base + q)] + rows[1..]
    else [rows[0]] + Put(rows[1..], seed, q)
  }

  function Rows(txs: seq<UsageTx>, mode: GroupBy, filter: seq<string>): seq<Row> {
    if txs == [] then [] else
      var tx, front := txs[|txs| - 1], Rows(txs[..|txs| - 1], mode, filter);
      if Skipped(tx, mode, filter) then front else Put(front, Seed(tx, mode), Abs(tx.quantity))
  }

  // ---- The loop ----

  ghost predicate ListsRows(order: seq<string>, table: map<string, Row>, rows: seq<Row>) {
    && |order| == |rows|
    && Distinct(order)
    && (forall k :: k in table <==> k in order)
    && forall i | 0 <= i < |rows| :: order[i] in table && rows[i] == table[order[i]] && rows[i].key == order[i]
  }

  lemma {:induction false} PutAt(rows: seq<Row>, i: nat, seed: Row, q: int)
    requires i < |rows| && rows[i].key == seed.key
    requires forall j | 0 <= j < i :: rows[j].key != seed.key
    ensures Put(rows, seed, q) == rows[i := rows[i].(base := rows[i].base + q)]
  {
    if i > 0 { PutAt(rows[1..], i - 1, seed, q); }
  }

  lemma {:induction false} PutNew(rows: seq<Row>, seed: Row, q: int)
    requires forall j | 0 <= j < |rows| :: rows[j].key != seed.key
    ensures Put(rows, seed, q) == rows + [seed.(base := seed.base + q)]
  {
    if rows != [] { PutNew(rows[1..], seed, q); }
  }

  lemma {:induction false} PutListed(order: seq<string>, table: map<string, Row>, rows: seq<Row>, seed: Row, q: int)
    requires ListsRows(order, table, rows)
    ensures seed.key in table ==>
      ListsRows(order, table[seed.key := table[seed.key].(base := table[seed.key].base + q)], Put(rows, seed, q))
    ensures seed.key !in table ==>
      ListsRows(order + [seed.key], table[seed.key := seed.(base := seed.base + q)], Put(rows, seed, q))
  {
    if seed.key in table {
      var i :| 0 <= i < |order| && order[i] == seed.key;
      PutAt(rows, i, seed, q);
    } else {
      forall j | 0 <= j < |rows| ensures rows[j].key != seed.key { assert order[j] in order; }
      PutNew(rows, seed, q);
    }
  }

  method Report(txs: seq<UsageTx>, mode: GroupBy, filter: seq<string>) returns (rows: seq<Row>, total: int)
    ensures rows == Rows(txs, mode, filter)
    ensures total == Sum(rows, Everything)
  {
    var order: seq<string>, table: map<string, Row> := [], map[];
    for i := 0 to |txs|
      invariant ListsRows(order, table, Rows(txs[..i], mode, filter))
    {
      var tx := txs[i];
      assert txs[..i + 1][..i] == txs[..i] && txs[..i + 1][i] == tx;
      if !Skipped(tx, mode, filter) {
        var seed := Seed(tx, mode);
        PutListed(order, table, Rows(txs[..i], mode, filter), seed, Abs(tx.quantity));
        if seed.key !in table {
          table := table[seed.key := seed];
          order := order + [seed.key];
        }
        table := table[seed.key := table[seed.key].(base := table[seed.key].base + Abs(tx.quantity))];
      }
    }
    assert txs[..|txs|] == txs;
    rows := seq(|order|, i requires 0 <= i < |order| && order[i] in table => table[order[i]]);
    total := 0;
    for i := 0 to |rows|
      invariant total + Sum(rows[i..], Everything) == Sum(rows, Everything)
    {
      assert rows[i..][1..] == rows[i + 1..];
      total := total + rows[i].base;
    }
  }

  // ---- Sums over rows and over entries ----

  datatype Cell = Everything | OfProduct(product: string) | OfTechnician(technician: string)

  predicate InCell(r: Row, c: Cell) {
    match c
    case Everything => true
    case OfProduct(p) => r.product == Some(p)
    case OfTechnician(t) => r.technician == Some(t)
  }

  function Sum(rows: seq<Row>, c: Cell): int {
    if rows == [] then 0 else (if InCell(rows[0], c) then rows[0].base else 0) + Sum(rows[1..], c)
  }

  // Absolute quantities of the entries of one product, one technician, or all.
  predicate TxInCell(tx: UsageTx, c: Cell) {
    match c
    case Everything => true
    case OfProduct(p) => tx.product == p
    case OfTechnician(t) =>
      if t == "unknown" then tx.technician in {None, Some(""), Some("unknown")} else t != "" && tx.technician == Some(t)
  }

  function SumTx(txs: seq<UsageTx>, c: Cell): int {
    if txs == [] then 0 else
      SumTx(txs[..|txs| - 1], c) + (if TxInCell(txs[|txs| - 1], c) then Abs(txs[|txs| - 1].quantity) else 0)
  }

  // The grouping shows what the cell asks for.
  predicate Shows(mode: GroupBy, c: Cell) {
    (c.OfProduct? ==> mode != ByTechnician) && (c.OfTechnician? ==> mode != ByProduct)
  }

  // The row is labelled as the entry is.
  predicate LabelsOf(r: Row, tx: UsageTx, mode: GroupBy) {
    r == Seed(tx, mode).(base := r.base)
  }

  ghost predicate FromEntry(r: Row, txs: seq<UsageTx>, mode: GroupBy) {
    exists tx :: tx in txs && LabelsOf(r, tx, mode)
  }

  ghost predicate KeysOnce(rows: seq<Row>) {
    forall i, j | 0 <= i < j < |rows| :: rows[i].key != rows[j].key
  }

  // Rows have different keys, and each is labelled as one of the entries is.
  ghost predicate RowsOk(rows: seq<Row>, txs: seq<UsageTx>, mode: GroupBy) {
    KeysOnce(rows) && forall r | r in rows :: FromEntry(r, txs, mode)
  }

  // An entry's row is labelled as the entry is.
  ghost predicate OwnLabels(rows: seq<Row>, txs: seq<UsageTx>, mode: GroupBy) {
    forall tx, r | tx in txs && r in rows && r.key == RowKey(tx, mode) :: LabelsOf(r, tx, mode)
  }

  // Entries under one key have one product and one technician, as far as shown.
  ghost predicate KeysSeparate(txs: seq<UsageTx>, mode: GroupBy) {
    forall a, b | a in txs && b in txs && RowKey(a, mode) == RowKey(b, mode) :: Seed(a, mode) == Seed(b, mode)
  }

  // One label makes its own key; joined ones do unless a product holds a colon.
  lemma {:induction false} OneLabelSeparates(txs: seq<UsageTx>, mode: GroupBy)
    ensures mode != ByBoth || (forall tx | tx in txs :: ':' !in tx.product) ==> KeysSeparate(txs, mode)
  {
    if mode == ByBoth && forall tx | tx in txs :: ':' !in tx.product {
      forall a, b | a in txs && b in txs && RowKey(a, mode) == RowKey(b, mode) ensures Seed(a, mode) == Seed(b, mode) {
        BothKeyInjective(a.product, TechnicianOf(a), b.product, TechnicianOf(b));
      }
    }
  }

  // The part of a joined key before its first colon.
  function ProductPart(key: string): string {
    if key == "" || key[0] == ':' then "" else [key[0]] + ProductPart(key[1..])
  }

  lemma {:induction false} ProductPartOf(product: string, technician: string)
    requires ':' !in product
    ensures ProductPart(BothKey(product, technician)) == product
  {
    if product != "" {
      ProductPartOf(product[1..], technician);
      assert BothKey(product, technician)[1..] == BothKey(product[1..], technician);
      assert product == [product[0]] + product[1..];
    }
  }

  // With no colon in a product id the joined key determines both parts.
  lemma {:induction false} BothKeyInjective(p: string, t: string, q: string, u: string)
    requires ':' !in p && ':' !in q && BothKey(p, t) == BothKey(q, u)
    ensures p == q && t == u
  {
    ProductPartOf(p, t);
    ProductPartOf(q, u);
    assert BothKey(p, t)[|p| + 2..] == t && BothKey(q, u)[|q| + 2..] == u;
  }

  // The row is the one put in, or an old one, up to its sum.
  ghost predicate NewOrOld(r: Row, rows: seq<Row>, seed: Row) {
    r == seed.(base := r.base) || exists o :: o in rows && r == o.(base := r.base)
  }

  predicate HasKey(rows: seq<Row>, key: string) { exists r :: r in rows && r.key == key }

  lemma {:induction false} PutKeys(rows: seq<Row>, seed: Row, q: int)
    requires KeysOnce(rows)
    ensures KeysOnce(Put(rows, seed, q))
    ensures forall r | r in Put(rows, seed, q) :: NewOrOld(r, rows, seed)
    ensures forall k :: HasKey(Put(rows, seed, q), k) <==> k == seed.key || HasKey(rows, k)
  {
    if rows != [] {
      var after, rest := Put(rows, seed, q), rows[1..];
      assert rows == [rows[0]] + rest && forall j | 0 <= j < |rest| :: rest[j] == rows[j + 1];
      assert rows[0] in rows;
      FirstKey(rows[0], rest);
      if rows[0].key == seed.key {
        FirstKey(after[0], rest);
        assert after == [rows[0].(base := rows[0].base + q)] + rest;
        forall o | o in rest ensures NewOrOld(o, rows, seed) { assert o in rows && o == o.(base := o.base); }
      } else {
        PutKeys(rest, seed, q);
        assert after == [rows[0]] + Put(rest, seed, q);
        FirstKey(rows[0], Put(rest, seed, q));
        NotThere(rest, rows[0].key);
        NotThere(Put(rest, seed, q), rows[0].key);
        forall r | r in Put(rest, seed, q) ensures NewOrOld(r, rows, seed) {
          assert NewOrOld(r, rest, seed);
        }
      }
    }
  }

  lemma {:induction false} FirstKey(r: Row, rest: seq<Row>)
    ensures forall k :: HasKey([r] + rest, k) <==> r.key == k || HasKey(rest, k)
  {
    forall k | HasKey(rest, k) ensures HasKey([r] + rest, k) {
      var o :| o in rest && o.key == k;
      assert o in [r] + rest;
    }
    forall k | r.key == k ensures HasKey([r] + rest, k) { assert r in [r] + rest; }
  }

  lemma {:induction false} NotThere(rows: seq<Row>, key: string)
    ensures !HasKey(rows, key) <==> forall i | 0 <= i < |rows| :: rows[i].key != key
  {}

  // The queries already keep to the filtered technicians.
  ghost predicate Selected(txs: seq<UsageTx>, filter: seq<string>) {
    filter != [] ==> forall tx | tx in txs :: TechnicianOf(tx) in filter
  }

  lemma {:induction false} RowsFromEntries(txs: seq<UsageTx>, mode: GroupBy, filter: seq<string>)
    requires Selected(txs, filter)
    ensures RowsOk(Rows(txs, mode, filter), txs, mode)
    ensures forall tx | tx in txs :: HasKey(Rows(txs, mode, filter), RowKey(tx, mode))
  {
    hide Put, KeysOnce;
    if txs == [] {
      NoneTwice();
    } else {
      var front, tx := txs[..|txs| - 1], txs[|txs| - 1];
      assert txs == front + [tx];
      RowsFromEntries(front, mode, filter);
      var rows, seed := Rows(front, mode, filter), Seed(tx, mode);
      PutKeys(rows, seed, Abs(tx.quantity));
      forall r | r in Put(rows, seed, Abs(tx.quantity)) ensures FromEntry(r, txs, mode) {
        assert NewOrOld(r, rows, seed);
        StillFrom(r, rows, front, tx, mode);
      }
    }
  }

  lemma {:induction false} NoneTwice()
    ensures KeysOnce([])
  {}

  lemma {:induction false} StillFrom(r: Row, rows: seq<Row>, txs: seq<UsageTx>, tx: UsageTx, mode: GroupBy)
    requires NewOrOld(r, rows, Seed(tx, mode)) && forall o | o in rows :: FromEntry(o, txs, mode)
    ensures FromEntry(r, txs + [tx], mode)
  {
    if LabelsOf(r, tx, mode) {
      assert tx in txs + [tx];
    } else {
      var o :| o in rows && r == o.(base := r.base);
      var t :| t in txs && LabelsOf(o, t, mode);
      assert t in txs + [tx] && LabelsOf(r, t, mode);
    }
  }

  // Every entry is counted in a row with its own product and technician exactly if
  // no two entries with different ones share a key.
  lemma {:induction false} OwnRowIff(txs: seq<UsageTx>, mode: GroupBy, filter: seq<string>)
    requires Selected(txs, filter)
    ensures forall tx | tx in txs :: HasKey(Rows(txs, mode, filter), RowKey(tx, mode))
    ensures OwnLabels(Rows(txs, mode, filter), txs, mode) <==> KeysSeparate(txs, mode)
  {
    hide Rows, RowKey, Seed, KeysOnce;
    var rows := Rows(txs, mode, filter);
    RowsFromEntries(txs, mode, filter);
    SeedKey(mode);
    if KeysSeparate(txs, mode) {
      forall tx, r | tx in txs && r in rows && r.key == RowKey(tx, mode) ensures LabelsOf(r, tx, mode) {
        assert FromEntry(r, txs, mode);
        var t :| t in txs && LabelsOf(r, t, mode);
        assert RowKey(t, mode) == RowKey(tx, mode);
      }
    }
    if OwnLabels(rows, txs, mode) {
      forall a, b | a in txs && b in txs && RowKey(a, mode) == RowKey(b, mode) ensures Seed(a, mode) == Seed(b, mode) {
        assert HasKey(rows, RowKey(a, mode));
        var r :| r in rows && r.key == RowKey(a, mode);
        assert LabelsOf(r, a, mode) && LabelsOf(r, b, mode);
      }
    }
  }

  lemma {:induction false} SeedKey(mode: GroupBy)
    ensures forall tx :: Seed(tx, mode).key == RowKey(tx, mode) && Seed(tx, mode).base == 0
  {}

  lemma {:induction false} PutSum(rows: seq<Row>, seed: Row, q: int, c: Cell)
    requires c != Everything ==> forall r | r in rows && r.key == seed.key :: InCell(r, c) == InCell(seed, c)
    requires seed.base == 0
    ensures Sum(Put(rows, seed, q), c) == Sum(rows, c) + (if InCell(seed, c) then q else 0)
  {
    if rows != [] {
      var after := Put(rows, seed, q);
      if rows[0].key == seed.key {
        assert after[1..] == rows[1..];
      } else {
        PutSum(rows[1..], seed, q, c);
        assert after[1..] == Put(rows[1..], seed, q);
      }
    }
  }

  // Then the rows of any grouping hold, cell by cell, the absolute quantities of the
  // entries; their total does in any case.
  lemma {:induction false} RowsHoldEntries(txs: seq<UsageTx>, mode: GroupBy, filter: seq<string>, c: Cell)
    requires Selected(txs, filter) && Shows(mode, c)
    requires KeysSeparate(txs, mode) || c == Everything
    ensures Sum(Rows(txs, mode, filter), c) == SumTx(txs, c)
  {
    hide RowKey, KeysOnce, InCell, TxInCell, Put;
    if txs != [] {
      var front, tx := txs[..|txs| - 1], txs[|txs| - 1];
      assert txs == front + [tx];
      RowsHoldEntries(front, mode, filter, c);
      var rows, seed := Rows(front, mode, filter), Seed(tx, mode);
      if c != Everything { OneCell(txs, tx, mode, filter, c); }
      PutSum(rows, seed, Abs(tx.quantity), c);
      SeedCell(tx, mode, c);
    }
  }

  lemma {:induction false} SeedCell(tx: UsageTx, mode: GroupBy, c: Cell)
    requires Shows(mode, c)
    ensures InCell(Seed(tx, mode), c) <==> TxInCell(tx, c)
  {
    if c.OfTechnician? { TechnicianIs(tx, c.technician); }
  }

  lemma {:induction false} TechnicianIs(tx: UsageTx, t: string)
    ensures TxInCell(tx, OfTechnician(t)) <==> TechnicianOf(tx) == t
  {
    var name: string := "unknown";
    assert |name| == 7;
    if tx.technician.Some? && tx.technician.value == "" { assert tx.technician == Some(""); }
  }

  lemma {:induction false} OneCell(txs: seq<UsageTx>, tx: UsageTx, mode: GroupBy, filter: seq<string>, c: Cell)
    requires txs != [] && tx == txs[|txs| - 1] && KeysSeparate(txs, mode) && Selected(txs, filter)
    ensures forall r | r in Rows(txs[..|txs| - 1], mode, filter) && r.key == RowKey(tx, mode) :: InCell(r, c) == InCell(Seed(tx, mode), c)
  {
    hide Rows, KeysOnce;
    var front := txs[..|txs| - 1];
    assert txs == front + [tx];
    RowsFromEntries(front, mode, filter);
    forall r | r in Rows(front, mode, filter) && r.key == RowKey(tx, mode) ensures InCell(r, c) == InCell(Seed(tx, mode), c) {
      assert FromEntry(r, front, mode);
      var t :| t in front && LabelsOf(r, t, mode);
      assert RowKey(t, mode) == RowKey(tx, mode);
    }
  }

  // What the report shows for one key.
  function BaseOf(rows: seq<Row>, key: string): int {
    if rows == [] then 0 else if rows[0].key == key then rows[0].base else BaseOf(rows[1..], key)
  }

  lemma {:induction false} OneRowPerLabel(rows: seq<Row>, txs: seq<UsageTx>, mode: GroupBy, name: string)
    requires RowsOk(rows, txs, mode) && mode != ByBoth
    ensures Sum(rows, if mode == ByProduct then OfProduct(name) else OfTechnician(name)) == BaseOf(rows, name)
  {
    if rows != [] {
      assert FromEntry(rows[0], txs, mode);
      if rows[0].key == name {
        NoneOfLabel(rows[1..], txs, mode, name);
      } else {
        OneRowPerLabel(rows[1..], txs, mode, name);
      }
    }
  }

  lemma {:induction false} NoneOfLabel(rows: seq<Row>, txs: seq<UsageTx>, mode: GroupBy, name: string)
    requires RowsOk(rows, txs, mode) && mode != ByBoth && forall r | r in rows :: r.key != name
    ensures Sum(rows, if mode == ByProduct then OfProduct(name) else OfTechnician(name)) == 0
  {
    if rows != [] {
      assert FromEntry(rows[0], txs, mode);
      assert rows[0].key != name;
      NoneOfLabel(rows[1..], txs, mode, name);
    }
  }

  // Then also, summing the product-and-technician rows over technicians gives each
  // product row, and over products each technician row. All three reports have the
  // same total in any case: the sum of absolute quantities.
  lemma {:induction false} MarginalsAgree(txs: seq<UsageTx>, filter: seq<string>, product: string, technician: string)
    requires Selected(txs, filter)
    ensures Sum(Rows(txs, ByBoth, filter), Everything) == Sum(Rows(txs, ByProduct, filter), Everything)
         == Sum(Rows(txs, ByTechnician, filter), Everything) == SumTx(txs, Everything)
    ensures KeysSeparate(txs, ByBoth) ==>
      && Sum(Rows(txs, ByBoth, filter), OfProduct(product)) == BaseOf(Rows(txs, ByProduct, filter), product)
      && Sum(Rows(txs, ByBoth, filter), OfTechnician(technician)) == BaseOf(Rows(txs, ByTechnician, filter), technician)
  {
    hide Rows, KeysSeparate, RowsOk;
    RowsHoldEntries(txs, ByBoth, filter, Everything);
    RowsHoldEntries(txs, ByProduct, filter, Everything);
    RowsHoldEntries(txs, ByTechnician, filter, Everything);
    if KeysSeparate(txs, ByBoth) {
      OneLabelSeparates(txs, ByProduct);
      OneLabelSeparates(txs, ByTechnician);
      RowsFromEntries(txs, ByProduct, filter);
      RowsFromEntries(txs, ByTechnician, filter);
      RowsHoldEntries(txs, ByBoth, filter, OfProduct(product));
      RowsHoldEntries(txs, ByProduct, filter, OfProduct(product));
      OneRowPerLabel(Rows(txs, ByProduct, filter), txs, ByProduct, product);
      RowsHoldEntries(txs, ByBoth, filter, OfTechnician(technician));
      RowsHoldEntries(txs, ByTechnician, filter, OfTechnician(technician));
      OneRowPerLabel(Rows(txs, ByTechnician, filter), txs, ByTechnician, technician);
    }
  }

  // ---- The technician filter ----

  // An entry is left out only where technicians are shown, and only if it is of none of
  // those asked for.
  ghost predicate Asked(tx: UsageTx, mode: GroupBy, filter: seq<string>) {
    mode == ByProduct || filter == [] || exists t :: t in filter && TxInCell(tx, OfTechnician(t))
  }

  lemma {:induction false} AskedIsKept(tx: UsageTx, mode: GroupBy, filter: seq<string>)
    ensures Asked(tx, mode, filter) <==> !Skipped(tx, mode, filter)
  {
    hide TxInCell, TechnicianOf;
    forall t ensures TxInCell(tx, OfTechnician(t)) <==> TechnicianOf(tx) == t { TechnicianIs(tx, t); }
  }

  ghost function Kept(txs: seq<UsageTx>, mode: GroupBy, filter: seq<string>): seq<UsageTx> {
    if txs == [] then [] else
      Kept(txs[..|txs| - 1], mode, filter) + (if Asked(txs[|txs| - 1], mode, filter) then [txs[|txs| - 1]] else [])
  }

  // A filtered report is the plain report of the entries asked for.
  lemma {:induction false} FilterSelects(txs: seq<UsageTx>, mode: GroupBy, filter: seq<string>)
    ensures Rows(txs, mode, filter) == Rows(Kept(txs, mode, filter), mode, [])
  {
    hide Put, Asked, Skipped;
    if txs != [] {
      var front, last := txs[..|txs| - 1], txs[|txs| - 1];
      FilterSelects(front, mode, filter);
      AskedIsKept(last, mode, filter);
      NoFilter(last, mode);
      if Asked(last, mode, filter) {
        assert Kept(txs, mode, filter)[..|Kept(front, mode, filter)|] == Kept(front, mode, filter);
      } else {
        assert Kept(txs, mode, filter) == Kept(front, mode, filter);
      }
    }
  }

  lemma {:induction false} NoFilter(tx: UsageTx, mode: GroupBy)
    ensures !Skipped(tx, mode, [])
  {}

  // Whatever is asked for, the rows of a cell hold the quantities of its entries.
  lemma {:induction false} FilteredRowsHoldEntries(txs: seq<UsageTx>, mode: GroupBy, filter: seq<string>, c: Cell)
    requires Shows(mode, c) && (KeysSeparate(Kept(txs, mode, filter), mode) || c == Everything)
    ensures Sum(Rows(txs, mode, filter), c) == SumTx(Kept(txs, mode, filter), c)
  {
    hide Rows, KeysSeparate, Kept;
    FilterSelects(txs, mode, filter);
    RowsHoldEntries(Kept(txs, mode, filter), mode, [], c);
  }
}
