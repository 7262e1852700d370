// Receiving from a CSV file, after parsing and product look-up: one pass over the
// rows collects failures or lines, then either nothing is written or the batch is
// posted like a manual receipt. A dry run stops before posting.
module ReceivingCsv {
  import opened Basics
  import opened Batches
  import opened Ledger
  import K = ReceiptKeys
  import Race = ReceivingRace
  import opened Units

  datatype Lookup = Found(product: ProductId) | NotFound | Ambiguous | NoIdentifier
  datatype Quantity = Blank | NotANumber | Number(value: real)
  datatype DateField = NoDate | BadDate | On(day: int)
  // Scope and note are trimmed; a missing note is "".
  datatype Row = Row(lookup: Lookup, quantity: Quantity, scope: string, date: DateField, note: string)

  datatype Reason =
    | ProductNotFound | MultipleProducts | MissingIdentifier | MissingQuantity | QuantityNotPositive
    | BaseNotPositive | ScopeMismatch | InvalidDate | DateMismatch
  datatype Failure = Failure(row: nat, reason: Reason)

  datatype Scan = Scan(
    failures: seq<Failure>, lines: seq<BatchLine>, notes: seq<string>, scope: Option<Scope>, day: Option<int>)

  const START := Scan([], [], [], None, None)

  type Catalog = map<ProductId, Product>

  function RowScope(r: Row): Scope {
    if r.scope == "" || Lower(r.scope) == "true" || Lower(r.scope) == "false" then "WAREHOUSE" else r.scope
  }

  function RowDay(r: Row, today: int): int { if r.date.On? then r.date.day else today }

  function LineOf(r: Row, catalog: Catalog): BatchLine {
    if r.lookup.Found? && r.lookup.product in catalog && r.quantity.Number?
    then BatchLine(r.lookup.product, ToBase(r.quantity.value, catalog[r.lookup.product].trackingToBase))
    else BatchLine("", 0)
  }

  // What is wrong with a row on its own, before scope and date are compared.
  function RowProblem(r: Row, catalog: Catalog): Option<Reason> {
    if r.lookup.Ambiguous? then Some(MultipleProducts)
    else if r.lookup.NoIdentifier? then Some(MissingIdentifier)
    else if r.lookup.NotFound? || r.lookup.product !in catalog then Some(ProductNotFound)
    else if r.quantity.Blank? then Some(MissingQuantity)
    else if r.quantity.NotANumber? || r.quantity.value <= 0.0 then Some(QuantityNotPositive)
    else if LineOf(r, catalog).quantity <= 0 then Some(BaseNotPositive)
    else None
  }

  function AddNote(notes: seq<string>, note: string): seq<string> {
    if note == "" || note in notes then notes else notes + [note]
  }

  function Fail(s: Scan, row: nat, reason: Reason): Scan {
    s.(failures := s.failures + [Failure(row, reason)])
  }

  // The first good row fixes scope and date; the scope sticks even when the same
  // row then fails on its date.
  function ScanRow(s: Scan, r: Row, index: nat, catalog: Catalog, today: int): Scan {
    var problem := RowProblem(r, catalog);
    if problem.Some? then Fail(s, index, problem.value)
    else if s.scope.Some? && s.scope.value != RowScope(r) then Fail(s, index, ScopeMismatch)
    else
      var s1 := s.(scope := Some(RowScope(r)));
      if r.date.BadDate? then Fail(s1, index, InvalidDate)
      else if s1.day.Some? && s1.day.value != RowDay(r, today) then Fail(s1, index, DateMismatch)
      else s1.(day := Some(RowDay(r, today)), notes := AddNote(s.notes, r.note), lines := s.lines + [LineOf(r, catalog)])
  }

  function ScanRows(rows: seq<Row>, catalog: Catalog, today: int): Scan {
    if rows == [] then START else
      ScanRow(ScanRows(rows[..|rows| - 1], catalog, today), rows[|rows| - 1], |rows|, catalog, today)
  }

  function JoinNotes(notes: seq<string>): string {
    if notes == [] then "" else if |notes| == 1 then notes[0] else notes[0] + "|" + JoinNotes(notes[1..])
  }

  function BatchOf(s: Scan, today: int): CsvBatch {
    CsvBatch(if s.scope.Some? then s.scope.value else "WAREHOUSE",
             if s.day.Some? then s.day.value else today,
             Canonical(s.lines), JoinNotes(SortStrings(s.notes)))
  }

  function LinePosting(b: CsvBatch, l: BatchLine): Posting {
    Posting(l.product, b.scope, l.quantity, ReceivingPosted, ReceivingCsv(b, l.product))
  }

  function BatchPostings(b: CsvBatch): (ps: seq<Posting>)
    ensures |ps| == |b.lines|
  {
    seq(|b.lines|, i requires 0 <= i < |b.lines| => LinePosting(b, b.lines[i]))
  }

  // postedCount of a real run, wouldPostCount of a dry one; no receipt key when
  // there are failures.
  datatype Report = Report(
    rowsRead: nat, resolved: nat, failures: seq<Failure>, scope: Scope, day: int,
    receipt: Option<CsvBatch>, dryRun: bool, posted: nat, skipped: nat)

  function ImportStep(st: Store, catalog: Catalog, rows: seq<Row>, today: int, dryRun: bool): (Store, Report) {
    var s := ScanRows(rows, catalog, today);
    var b := BatchOf(s, today);
    var ps := BatchPostings(b);
    var ms := Missing(ps, Keys(st.ledger));
    if s.failures != [] then (st, Report(|rows|, |b.lines|, s.failures, b.scope, b.day, None, dryRun, 0, 0))
    else (if dryRun then st else Complete(st, ps),
          Report(|rows|, |b.lines|, [], b.scope, b.day, Some(b), dryRun, |ms|, |ps| - |ms|))
  }

  // ---- Every row is taken or fails, once ----

  function FailedRows(fs: seq<Failure>): set<nat> { set f | f in fs :: f.row }

  // The lines of the rows that did not fail, in row order.
  function LinesExcept(rows: seq<Row>, failed: set<nat>, catalog: Catalog): seq<BatchLine> {
    if rows == [] then [] else
      LinesExcept(rows[..|rows| - 1], failed, catalog) +
      (if |rows| in failed then [] else [LineOf(rows[|rows| - 1], catalog)])
  }

  ghost predicate FailuresOrdered(fs: seq<Failure>, n: nat) {
    && (forall i, j | 0 <= i < j < |fs| :: fs[i].row < fs[j].row)
    && (forall f | f in fs :: 1 <= f.row <= n)
  }

  lemma {:induction false} LinesExceptMore(rows: seq<Row>, failed: set<nat>, more: set<nat>, catalog: Catalog)
    requires forall k | 1 <= k <= |rows| :: k in failed <==> k in more
    ensures LinesExcept(rows, failed, catalog) == LinesExcept(rows, more, catalog)
  {
    if rows != [] { LinesExceptMore(rows[..|rows| - 1], failed, more, catalog); }
  }

  ghost predicate Took(s: Scan, t: Scan, r: Row, catalog: Catalog) {
    t.failures == s.failures && t.lines == s.lines + [LineOf(r, catalog)] && LineOf(r, catalog).quantity > 0
  }

  ghost predicate Failed(s: Scan, t: Scan, index: nat) {
    && t.lines == s.lines && |t.failures| == |s.failures| + 1
    && t.failures[..|s.failures|] == s.failures && t.failures[|s.failures|].row == index
  }

  lemma {:induction false} TookOrFailed(s: Scan, r: Row, index: nat, catalog: Catalog, today: int)
    ensures var t := ScanRow(s, r, index, catalog, today); Took(s, t, r, catalog) || Failed(s, t, index)
  {}

  lemma {:induction false} FailedGrows(s: seq<Failure>, t: seq<Failure>, n: nat)
    requires n >= 1 && FailuresOrdered(s, n - 1) && |t| == |s| + 1 && t[..|s|] == s && t[|s|].row == n
    ensures FailuresOrdered(t, n) && FailedRows(t) == FailedRows(s) + {n} && n !in FailedRows(s)
  {
    assert t == s + [t[|s|]];
    forall i | 0 <= i < |s| ensures s[i].row < n { assert s[i] in s; }
  }

  // Each row is recorded as one failure, in file order, or contributes its line.
  lemma {:induction false} RowTakenOrFailed(rows: seq<Row>, catalog: Catalog, today: int)
    ensures var s := ScanRows(rows, catalog, today);
      && FailuresOrdered(s.failures, |rows|)
      && s.lines == LinesExcept(rows, FailedRows(s.failures), catalog)
      && |s.lines| + |s.failures| == |rows|
      && forall l | l in s.lines :: l.quantity > 0
  {
    hide ScanRow, LineOf;
    if rows != [] {
      var front, last, n := rows[..|rows| - 1], rows[|rows| - 1], |rows|;
      RowTakenOrFailed(front, catalog, today);
      var s, t := ScanRows(front, catalog, today), ScanRows(rows, catalog, today);
      TookOrFailed(s, last, n, catalog, today);
      if !Took(s, t, last, catalog) { FailedGrows(s.failures, t.failures, n); }
      LinesExceptMore(front, FailedRows(s.failures), FailedRows(t.failures), catalog);
    }
  }

  // ---- When a file is accepted ----

  ghost predicate RowFits(r: Row, catalog: Catalog, today: int, scope: Scope, day: int) {
    RowProblem(r, catalog).None? && !r.date.BadDate? && RowScope(r) == scope && RowDay(r, today) == day
  }

  // All rows are sound and agree on scope and date.
  ghost predicate FileFits(rows: seq<Row>, catalog: Catalog, today: int) {
    rows == [] || forall r | r in rows :: RowFits(r, catalog, today, RowScope(rows[0]), RowDay(rows[0], today))
  }

  function LinesOf(rows: seq<Row>, catalog: Catalog): (ls: seq<BatchLine>)
    ensures |ls| == |rows|
  {
    seq(|rows|, i requires 0 <= i < |rows| => LineOf(rows[i], catalog))
  }

  ghost predicate NotesOf(notes: seq<string>, rows: seq<Row>) {
    Distinct(notes) && forall n :: n in notes <==> n != "" && exists r :: r in rows && r.note == n
  }

  lemma {:induction false} AddNoteNotes(notes: seq<string>, front: seq<Row>, last: Row)
    requires NotesOf(notes, front)
    ensures NotesOf(AddNote(notes, last.note), front + [last])
  {
    var rows := front + [last];
    assert last in rows && forall r :: r in rows <==> r in front || r == last;
    forall n ensures n in AddNote(notes, last.note) <==> n != "" && exists r :: r in rows && r.note == n {}
  }

  // The scan of a file that fits collects every row.
  lemma {:induction false} FittingScan(rows: seq<Row>, catalog: Catalog, today: int)
    requires FileFits(rows, catalog, today)
    ensures var s := ScanRows(rows, catalog, today);
      && s.failures == [] && s.lines == LinesOf(rows, catalog) && NotesOf(s.notes, rows)
      && s.scope == (if rows == [] then None else Some(RowScope(rows[0])))
      && s.day == (if rows == [] then None else Some(RowDay(rows[0], today)))
  {
    if rows != [] {
      var front, last := rows[..|rows| - 1], rows[|rows| - 1];
      assert rows == front + [last];
      assert RowFits(last, catalog, today, RowScope(rows[0]), RowDay(rows[0], today));
      assert front != [] ==> front[0] == rows[0];
      FittingScan(front, catalog, today);
      AddNoteNotes(ScanRows(front, catalog, today).notes, front, last);
    }
  }

  // No failures means nothing but fitting rows, whatever their order.
  lemma {:induction false} AcceptedIffFits(rows: seq<Row>, catalog: Catalog, today: int)
    ensures ScanRows(rows, catalog, today).failures == [] <==> FileFits(rows, catalog, today)
  {
    if FileFits(rows, catalog, today) {
      FittingScan(rows, catalog, today);
    } else if ScanRows(rows, catalog, today).failures == [] {
      var front, last := rows[..|rows| - 1], rows[|rows| - 1];
      assert rows == front + [last];
      var s := ScanRows(front, catalog, today);
      assert s.failures == [];
      AcceptedIffFits(front, catalog, today);
      FittingScan(front, catalog, today);
      assert front != [] ==> front[0] == rows[0];
      assert RowFits(last, catalog, today, RowScope(rows[0]), RowDay(rows[0], today));
      assert false;
    }
  }

  // ---- Row order does not matter ----

  lemma {:induction false} SameMembers(a: seq<Row>, b: seq<Row>)
    requires multiset(a) == multiset(b)
    ensures forall r :: r in a <==> r in b
  {
    assert forall r :: r in a <==> r in multiset(a);
    assert forall r :: r in b <==> r in multiset(b);
  }

  lemma {:induction false} FitsAnyOrder(a: seq<Row>, b: seq<Row>, catalog: Catalog, today: int)
    requires multiset(a) == multiset(b) && FileFits(a, catalog, today)
    ensures FileFits(b, catalog, today)
    ensures a != [] ==> b != [] && RowScope(b[0]) == RowScope(a[0]) && RowDay(b[0], today) == RowDay(a[0], today)
  {
    SameMembers(a, b);
    assert |a| == |multiset(a)| == |b|;
    if b != [] { assert b[0] in a; }
  }

  lemma {:induction false} LinesTotalSplit(b: seq<Row>, k: nat, catalog: Catalog, p: ProductId)
    requires k < |b|
    ensures var l := LineOf(b[k], catalog);
      Total(LinesOf(b, catalog), p) == Total(LinesOf(b[..k] + b[k + 1..], catalog), p) + (if l.product == p then l.quantity else 0)
  {
    hide LineOf, Total;
    var ls := LinesOf(b, catalog);
    TotalWithout(ls, k, p);
    assert LinesOf(b[..k] + b[k + 1..], catalog) == ls[..k] + ls[k + 1..];
  }

  lemma {:induction false} WithoutRow(b: seq<Row>, k: nat)
    requires k < |b|
    ensures multiset(b[..k] + b[k + 1..]) == multiset(b) - multiset{b[k]}
  {
    assert b == b[..k] + [b[k]] + b[k + 1..];
  }

  lemma {:induction false} LinesAnyOrder(a: seq<Row>, b: seq<Row>, catalog: Catalog, p: ProductId)
    requires multiset(a) == multiset(b)
    ensures Total(LinesOf(a, catalog), p) == Total(LinesOf(b, catalog), p)
  {
    hide Total, LinesOf, LineOf;
    assert |a| == |multiset(a)| && |b| == |multiset(b)|;
    if a == [] {
      assert a == b;
    } else {
      assert a[0] in multiset(b);
      var k :| 0 <= k < |b| && b[k] == a[0];
      LinesTotalSplit(a, 0, catalog, p);
      LinesTotalSplit(b, k, catalog, p);
      WithoutRow(a, 0);
      WithoutRow(b, k);
      LinesAnyOrder(a[..0] + a[1..], b[..k] + b[k + 1..], catalog, p);
    }
  }

  lemma {:induction false} NotesAnyOrder(m: seq<string>, n: seq<string>, a: seq<Row>, b: seq<Row>)
    requires NotesOf(m, a) && NotesOf(n, b) && multiset(a) == multiset(b)
    ensures SortStrings(m) == SortStrings(n)
  {
    SameMembers(a, b);
    SortSorts(m);
    SortSorts(n);
    MultisetMembers(m, SortStrings(m));
    MultisetMembers(n, SortStrings(n));
    SortedUnique(SortStrings(m), SortStrings(n));
  }

  // Reordering the rows of a file changes neither its acceptance nor its receipt
  // key, and so neither what it posts.
  lemma {:induction false} ReorderedFile(a: seq<Row>, b: seq<Row>, catalog: Catalog, today: int)
    requires multiset(a) == multiset(b)
    ensures var s, t := ScanRows(a, catalog, today), ScanRows(b, catalog, today);
      && (s.failures == [] <==> t.failures == [])
      && (s.failures == [] ==> BatchOf(s, today) == BatchOf(t, today))
  {
    hide Total, LinesOf, Canonical, ScanRows, RowProblem;
    AcceptedIffFits(a, catalog, today);
    AcceptedIffFits(b, catalog, today);
    if FileFits(b, catalog, today) { FitsAnyOrder(b, a, catalog, today); }
    if FileFits(a, catalog, today) {
      FitsAnyOrder(a, b, catalog, today);
      FittingScan(a, catalog, today);
      FittingScan(b, catalog, today);
      RowTakenOrFailed(a, catalog, today);
      RowTakenOrFailed(b, catalog, today);
      NotesAnyOrder(ScanRows(a, catalog, today).notes, ScanRows(b, catalog, today).notes, a, b);
      SameCanonical(a, b, catalog);
      assert |a| == |multiset(a)| == |b|;
    }
  }

  lemma {:induction false} SameCanonical(a: seq<Row>, b: seq<Row>, catalog: Catalog)
    requires multiset(a) == multiset(b)
    requires Positive(LinesOf(a, catalog)) && Positive(LinesOf(b, catalog))
    ensures Canonical(LinesOf(a, catalog)) == Canonical(LinesOf(b, catalog))
  {
    forall p ensures Total(LinesOf(a, catalog), p) == Total(LinesOf(b, catalog), p) { LinesAnyOrder(a, b, catalog, p); }
    CanonicalIffSameTotals(LinesOf(a, catalog), LinesOf(b, catalog));
  }

  // ---- The dry run predicts the real one ----

  lemma {:induction false} CsvKeysDistinct(rows: seq<Row>, catalog: Catalog, today: int)
    ensures KeysDistinct(BatchPostings(BatchOf(ScanRows(rows, catalog, today), today)))
  {
    hide ScanRows, Total;
    RowTakenOrFailed(rows, catalog, today);
    var s := ScanRows(rows, catalog, today);
    var b := BatchOf(s, today);
    CanonicalIsBatch(s.lines);
    forall i, j | 0 <= i < j < |b.lines| ensures b.lines[i].product != b.lines[j].product {
      BeforeTrichotomy(b.lines[i].product, b.lines[j].product);
    }
  }

  // From the same state and clock a dry run writes nothing and reports the real
  // run's key, skipped count and number of postings, which the ledger then shows.
  // With any failing row neither run writes.
  lemma {:induction false} DryRunPredicts(st: Store, catalog: Catalog, rows: seq<Row>, today: int)
    ensures var (dry, d) := ImportStep(st, catalog, rows, today, true);
      var (done, r) := ImportStep(st, catalog, rows, today, false);
      && dry == st
      && r == d.(dryRun := false)
      && |done.ledger| == |st.ledger| + d.posted
      && st.ledger <= done.ledger
      && (d.receipt.None? ==> done == st)
      && (d.receipt.Some? ==>
            && (forall p | p in BatchPostings(d.receipt.value) :: p.key in Keys(done.ledger))
            && ImportStep(done, catalog, rows, today, true).1.posted == 0)
  {
    hide ScanRows, BatchOf, BatchPostings, Missing;
    var s := ScanRows(rows, catalog, today);
    var ps := BatchPostings(BatchOf(s, today));
    CsvKeysDistinct(rows, catalog, today);
    if s.failures == [] { CompletePosts(st, ps); }
  }

  lemma {:induction false} CompletePosts(st: Store, ps: seq<Posting>)
    requires KeysDistinct(ps)
    ensures var st' := Complete(st, ps);
      && st.ledger <= st'.ledger
      && |st'.ledger| == |st.ledger| + |Missing(ps, Keys(st.ledger))|
      && (forall p | p in ps :: p.key in Keys(st'.ledger))
      && Missing(ps, Keys(st'.ledger)) == []
  {
    var ms := Missing(ps, Keys(st.ledger));
    PrefixCommits(st, ps, |ms|);
    assert ms[..|ms|] == ms;
    PostAllEffect(st, ms);
    CompleteIsFinal(st, ps);
    assert |Postings(Complete(st, ps).ledger)| == |Postings(st.ledger) + ms|;
    MissingMembers(ps, Keys(Complete(st, ps).ledger));
  }

  // Two files have one receipt key exactly when scope, date, notes and the totals
  // per product are the same.
  lemma {:induction false} SameReceiptIff(a: seq<Row>, b: seq<Row>, catalog: Catalog, today: int)
    ensures var s, t := ScanRows(a, catalog, today), ScanRows(b, catalog, today);
      var x, y := BatchOf(s, today), BatchOf(t, today);
      x == y <==> x.scope == y.scope && x.day == y.day && x.note == y.note && SameTotals(s.lines, t.lines)
  {
    hide ScanRows, Canonical, SameTotals;
    RowTakenOrFailed(a, catalog, today);
    RowTakenOrFailed(b, catalog, today);
    CanonicalIffSameTotals(ScanRows(a, catalog, today).lines, ScanRows(b, catalog, today).lines);
  }

  // An import cut off after any prefixes of its line transactions and repeated to
  // the end leaves what one run would have.
  lemma {:induction false} RetriesLikeOneImport(st: Store, catalog: Catalog, rows: seq<Row>, today: int, cuts: seq<nat>)
    requires ScanRows(rows, catalog, today).failures == []
    ensures var ps := BatchPostings(BatchOf(ScanRows(rows, catalog, today), today));
      ImportStep(Attempts(st, ps, cuts), catalog, rows, today, false).0 == ImportStep(st, catalog, rows, today, false).0
  {
    hide ScanRows, BatchOf, BatchPostings, Missing, Complete, Attempts;
    CsvKeysDistinct(rows, catalog, today);
    RetriesConverge(st, BatchPostings(BatchOf(ScanRows(rows, catalog, today), today)), cuts);
  }

  // Overlapping imports of one receipt, whatever else is posted meanwhile: once they
  // have ended, all without a crash, each line is in the ledger once, and every
  // balance is what one import leaves plus what the others posted.
  lemma {:induction false} OverlappingImports(w: Race.Race, catalog: Catalog, rows: seq<Row>, today: int, steps: seq<Race.Step>)
    requires ScanRows(rows, catalog, today).failures == [] && Race.Initial(w) && Agrees(w.store)
    requires Race.Settled(Race.Run(BatchPostings(BatchOf(ScanRows(rows, catalog, today), today)), w, steps))
    ensures var ps := BatchPostings(BatchOf(ScanRows(rows, catalog, today), today));
      var v := Race.Run(ps, w, steps).store;
      var one, since := ImportStep(w.store, catalog, rows, today, false).0, Since(w.store, v);
      && w.store.ledger <= v.ledger
      && multiset(Race.OfBatch(since, PostingKeys(ps))) == multiset(Missing(ps, Keys(w.store.ledger)))
      && (forall p, s :: OnHand(v.balances, p, s) == OnHand(one.balances, p, s) + Net(Race.Others(since, PostingKeys(ps)), Pair(p, s)))
      && ImportStep(v, catalog, rows, today, false).0 == v
      && ImportStep(v, catalog, rows, today, false).1.posted == 0
  {
    hide ScanRows, BatchOf, BatchPostings, Agrees, Complete, Missing, Postings, OnHand, Net, Race.Run, Race.Settled, Race.Initial, Race.OfBatch, Race.Others;
    var ps := BatchPostings(BatchOf(ScanRows(rows, catalog, today), today));
    CsvKeysDistinct(rows, catalog, today);
    Race.OverlappingCallsComplete(ps, w, steps);
    Race.RacePostsOnce(ps, w, steps);
    NothingMissing(Race.Run(ps, w, steps).store, ps);
  }

  // ---- What a file receives ----

  // Where a row goes: a blank scope, and a yes or no left in its place, is the warehouse.
  ghost predicate GoesTo(r: Row, scope: Scope) {
    if r.scope == "" || Spells(r.scope, "TRUE") || Spells(r.scope, "FALSE") then scope == "WAREHOUSE" else scope == r.scope
  }

  // The text is the word, in any case.
  ghost predicate Spells(s: string, word: string) {
    |s| == |word| && forall i | 0 <= i < |s| :: s[i] == word[i] || ('A' <= word[i] <= 'Z' && s[i] == word[i] - 'A' + 'a')
  }

  lemma {:induction false} RowGoesTo(r: Row, scope: Scope)
    ensures GoesTo(r, scope) <==> scope == RowScope(r)
  {
    Lowered(r.scope, "TRUE", "true");
    Lowered(r.scope, "FALSE", "false");
  }

  lemma {:induction false} Lowered(s: string, word: string, lower: string)
    requires |word| == |lower| && forall i | 0 <= i < |word| :: 'A' <= word[i] <= 'Z' && lower[i] == word[i] - 'A' + 'a'
    ensures Spells(s, word) <==> Lower(s) == lower
  {
    if Lower(s) == lower {
      forall i | 0 <= i < |s| ensures s[i] == word[i] || s[i] == word[i] - 'A' + 'a' { assert Lower(s)[i] == lower[i]; }
    }
  }

  // A row that can be received: one known product, a positive quantity, and still
  // something left of it in base units.
  ghost predicate Sound(r: Row, catalog: Catalog) {
    && r.lookup.Found? && r.lookup.product in catalog && r.quantity.Number? && r.quantity.value > 0.0
    && Round(r.quantity.value * catalog[r.lookup.product].trackingToBase as real) > 0
  }

  ghost predicate DatedOn(r: Row, today: int, day: int) {
    if r.date.NoDate? then day == today else r.date == On(day)
  }

  lemma {:induction false} SoundIffNoProblem(r: Row, catalog: Catalog)
    ensures RowProblem(r, catalog).None? <==> Sound(r, catalog)
  {
    hide Round, ToBase;
    BaseIs(r, catalog);
  }

  lemma {:induction false} BaseIs(r: Row, catalog: Catalog)
    ensures r.lookup.Found? && r.lookup.product in catalog && r.quantity.Number? ==>
      LineOf(r, catalog) == BatchLine(r.lookup.product, Round(r.quantity.value * catalog[r.lookup.product].trackingToBase as real))
  {
    hide Round, ToBase;
    if r.lookup.Found? && r.lookup.product in catalog && r.quantity.Number? {
      ToBaseIs(r.quantity.value, catalog[r.lookup.product].trackingToBase);
    }
  }

  // All rows are sound, and for one place and one day.
  ghost predicate FileIs(rows: seq<Row>, catalog: Catalog, today: int, scope: Scope, day: int) {
    forall r | r in rows :: Sound(r, catalog) && GoesTo(r, scope) && DatedOn(r, today, day)
  }

  // Exactly such files are taken.
  lemma {:induction false} AcceptedExactly(rows: seq<Row>, catalog: Catalog, today: int)
    ensures ScanRows(rows, catalog, today).failures == [] <==> exists scope, day :: FileIs(rows, catalog, today, scope, day)
  {
    hide Sound, GoesTo, DatedOn, RowFits, RowScope, RowDay;
    AcceptedIffFits(rows, catalog, today);
    if rows == [] {
      assert FileIs(rows, catalog, today, "", 0);
    } else {
      if FileFits(rows, catalog, today) {
        var scope, day := RowScope(rows[0]), RowDay(rows[0], today);
        forall r | r in rows ensures Sound(r, catalog) && GoesTo(r, scope) && DatedOn(r, today, day) {
          RowFitsExactly(r, catalog, today, scope, day);
        }
        assert FileIs(rows, catalog, today, scope, day);
      }
      if scope, day :| FileIs(rows, catalog, today, scope, day) { FileIsFits(rows, catalog, today, scope, day); }
    }
  }

  lemma {:induction false} FileIsFits(rows: seq<Row>, catalog: Catalog, today: int, scope: Scope, day: int)
    requires rows != [] && FileIs(rows, catalog, today, scope, day)
    ensures FileFits(rows, catalog, today) && RowScope(rows[0]) == scope && RowDay(rows[0], today) == day
  {
    hide Sound, GoesTo, DatedOn, RowProblem, RowScope, RowDay;
    forall r | r in rows ensures RowFits(r, catalog, today, scope, day) { RowFitsExactly(r, catalog, today, scope, day); }
    assert rows[0] in rows;
  }

  lemma {:induction false} RowFitsExactly(r: Row, catalog: Catalog, today: int, scope: Scope, day: int)
    ensures RowFits(r, catalog, today, scope, day) <==> Sound(r, catalog) && GoesTo(r, scope) && DatedOn(r, today, day)
  {
    hide Sound, GoesTo, RowProblem, RowScope;
    SoundIffNoProblem(r, catalog);
    RowGoesTo(r, scope);
  }

  // What is said of a row that cannot be received at all: the first thing wrong of
  // product, quantity, and quantity in base units.
  ghost predicate SaidOf(r: Row, catalog: Catalog, reason: Reason) {
    var known := r.lookup.Found? && r.lookup.product in catalog;
    match reason
    case MultipleProducts => r.lookup.Ambiguous?
    case MissingIdentifier => r.lookup.NoIdentifier?
    case ProductNotFound => !known && !r.lookup.Ambiguous? && !r.lookup.NoIdentifier?
    case MissingQuantity => known && r.quantity.Blank?
    case QuantityNotPositive => known && !r.quantity.Blank? && (r.quantity.NotANumber? || r.quantity.value <= 0.0)
    case BaseNotPositive => known && r.quantity.Number? && r.quantity.value > 0.0 && !Sound(r, catalog)
    case _ => false
  }

  lemma {:induction false} ReasonIs(r: Row, catalog: Catalog, reason: Reason)
    ensures RowProblem(r, catalog) == Some(reason) <==> SaidOf(r, catalog, reason)
  {
    hide Round, ToBase;
    BaseIs(r, catalog);
  }

  // The first sound row of the file fixes the place.
  ghost predicate FixesPlace(rows: seq<Row>, catalog: Catalog, k: nat, scope: Scope) {
    k < |rows| && Sound(rows[k], catalog) && GoesTo(rows[k], scope) && forall j | 0 <= j < k :: !Sound(rows[j], catalog)
  }

  ghost predicate PlaceFixed(rows: seq<Row>, catalog: Catalog, scope: Scope) { exists k: nat :: FixesPlace(rows, catalog, k, scope) }

  ghost predicate NoneSound(rows: seq<Row>, catalog: Catalog) { forall r | r in rows :: !Sound(r, catalog) }

  lemma {:induction false} PlaceIs(rows: seq<Row>, catalog: Catalog, today: int)
    ensures match ScanRows(rows, catalog, today).scope {
      case None => NoneSound(rows, catalog)
      case Some(scope) => PlaceFixed(rows, catalog, scope) }
  {
    hide Sound, GoesTo, RowProblem, RowScope, LineOf, AddNote, RowDay;
    if rows != [] {
      var front, last, n := rows[..|rows| - 1], rows[|rows| - 1], |rows| - 1;
      assert rows == front + [last];
      PlaceIs(front, catalog, today);
      SoundIffNoProblem(last, catalog);
      RowGoesTo(last, RowScope(last));
      var s := ScanRows(front, catalog, today);
      if s.scope.Some? {
        var k: nat :| FixesPlace(front, catalog, k, s.scope.value);
        forall j | 0 <= j < k ensures !Sound(rows[j], catalog) { assert rows[j] == front[j]; }
        assert rows[k] == front[k];
        assert FixesPlace(rows, catalog, k, s.scope.value);
        assert PlaceFixed(rows, catalog, s.scope.value);
        assert ScanRows(rows, catalog, today).scope == s.scope;
      } else if Sound(last, catalog) {
        forall j | 0 <= j < n ensures !Sound(rows[j], catalog) { assert rows[j] in front; }
        assert FixesPlace(rows, catalog, n, RowScope(last));
        assert PlaceFixed(rows, catalog, RowScope(last));
        assert ScanRows(rows, catalog, today).scope == Some(RowScope(last));
      }
    }
  }

  // What is said of the row after these: the first thing wrong with it by itself; that
  // it is for another place than the one fixed; that it has no date; or that it is for
  // another day than the rows taken.
  lemma {:induction false} NextRow(rows: seq<Row>, r: Row, catalog: Catalog, today: int, reason: Reason)
    ensures var s, t := ScanRows(rows, catalog, today), ScanRows(rows + [r], catalog, today);
      t.failures == s.failures + [Failure(|rows| + 1, reason)] <==>
        if !Sound(r, catalog) then SaidOf(r, catalog, reason)
        else if s.scope.Some? && !GoesTo(r, s.scope.value) then reason == ScopeMismatch
        else if r.date.BadDate? then reason == InvalidDate
        else s.day.Some? && !DatedOn(r, today, s.day.value) && reason == DateMismatch
  {
    hide Sound, GoesTo, RowProblem, RowScope, LineOf, AddNote, SaidOf;
    assert (rows + [r])[..|rows|] == rows;
    SoundIffNoProblem(r, catalog);
    ReasonIs(r, catalog, reason);
    var s := ScanRows(rows, catalog, today);
    if s.scope.Some? { RowGoesTo(r, s.scope.value); }
    var t := ScanRows(rows + [r], catalog, today);
    if t.failures != s.failures { LastOnly(s.failures, t.failures[|s.failures|], Failure(|rows| + 1, reason)); }
  }

  lemma {:induction false} LastOnly(fs: seq<Failure>, a: Failure, b: Failure)
    ensures fs + [a] == fs + [b] <==> a == b
  {
    assert (fs + [a])[|fs|] == a && (fs + [b])[|fs|] == b;
  }

  // The day is that of the rows taken.
  lemma {:induction false} DayIs(rows: seq<Row>, catalog: Catalog, today: int)
    ensures var s := ScanRows(rows, catalog, today);
      && (s.day.None? <==> s.lines == [])
      && (s.day.Some? ==> exists r :: r in rows && Sound(r, catalog) && DatedOn(r, today, s.day.value) && s.scope.Some? && GoesTo(r, s.scope.value))
  {
    hide Sound, GoesTo, RowProblem, RowScope, LineOf, AddNote;
    if rows != [] {
      var front, last := rows[..|rows| - 1], rows[|rows| - 1];
      assert rows == front + [last];
      DayIs(front, catalog, today);
      SoundIffNoProblem(last, catalog);
      RowGoesTo(last, RowScope(last));
    }
  }

  // What an import reports.
  lemma {:induction false} ImportReports(st: Store, catalog: Catalog, rows: seq<Row>, today: int, dryRun: bool)
    ensures var (st', o) := ImportStep(st, catalog, rows, today, dryRun);
      var s := ScanRows(rows, catalog, today);
      && o.rowsRead == |rows| && o.failures == s.failures && o.dryRun == dryRun
      && o.resolved == |BatchOf(s, today).lines| && o.scope == BatchOf(s, today).scope && o.day == BatchOf(s, today).day
      && o.receipt == (if s.failures == [] then Some(BatchOf(s, today)) else None)
      && (o.receipt.Some? ==> o.posted + o.skipped == o.resolved)
      && (o.receipt.None? ==> o.posted == o.skipped == 0)
      && st.ledger <= st'.ledger && |Since(st, st')| == (if dryRun then 0 else o.posted)
  {
    hide ScanRows, BatchOf, Missing, LinePosting;
    var s := ScanRows(rows, catalog, today);
    if s.failures == [] {
      CsvKeysDistinct(rows, catalog, today);
      CompletePosts(st, BatchPostings(BatchOf(s, today)));
    }
  }

  // Base units of a product over the rows that name it, each row rounded on its own.
  function UnitsReceived(rows: seq<Row>, catalog: Catalog, p: ProductId): int {
    if rows == [] then 0 else
      var r := rows[|rows| - 1];
      UnitsReceived(rows[..|rows| - 1], catalog, p) +
      (if r.lookup == Found(p) && r.quantity.Number? && p in catalog
       then Round(r.quantity.value * catalog[p].trackingToBase as real) else 0)
  }

  lemma {:induction false} TotalIsReceived(rows: seq<Row>, catalog: Catalog, p: ProductId)
    requires forall r | r in rows :: Sound(r, catalog)
    ensures Total(LinesOf(rows, catalog), p) == UnitsReceived(rows, catalog, p)
  {
    hide Sound, LineOf;
    if rows != [] {
      hide Total;
      var front, last := rows[..|rows| - 1], rows[|rows| - 1];
      assert rows == front + [last];
      TotalIsReceived(front, catalog, p);
      LineIs(last, catalog);
      assert LinesOf(rows, catalog) == LinesOf(front, catalog) + [LineOf(last, catalog)];
      TotalSnoc(LinesOf(front, catalog), LineOf(last, catalog), p);
    }
  }

  lemma {:induction false} LineIs(r: Row, catalog: Catalog)
    requires Sound(r, catalog)
    ensures r.lookup.Found? && r.lookup.product in catalog && r.quantity.Number?
    ensures LineOf(r, catalog) == BatchLine(r.lookup.product, Round(r.quantity.value * catalog[r.lookup.product].trackingToBase as real))
  {
    hide LineOf, Round;
    BaseIs(r, catalog);
  }

  // The receipt of a file that is taken: its place, its day, its products' totals.
  lemma {:induction false} ReceiptOfFile(rows: seq<Row>, catalog: Catalog, today: int, scope: Scope, day: int)
    requires rows != [] && FileIs(rows, catalog, today, scope, day)
    ensures var s := ScanRows(rows, catalog, today);
      && s.failures == [] && s.lines == LinesOf(rows, catalog) && NotesOf(s.notes, rows)
      && BatchOf(s, today).scope == scope && BatchOf(s, today).day == day
  {
    hide FileIs, FileFits, RowScope, RowDay, ScanRows, LinesOf;
    FileIsFits(rows, catalog, today, scope, day);
    FittingScan(rows, catalog, today);
  }

  lemma {:induction false} BatchNet(b: CsvBatch, n: nat, cs: seq<BatchLine>, p: ProductId, s: Scope)
    requires IsBatchOf(b.lines, cs) && n <= |b.lines|
    ensures Net(BatchPostings(b)[..n], Pair(p, s)) == if s == b.scope && HasLine(b.lines, n, p) then Total(cs, p) else 0
  {
    if n > 0 {
      hide HasLine, Total;
      var ps, l := BatchPostings(b), b.lines[n - 1];
      BatchNet(b, n - 1, cs, p, s);
      assert ps[..n][..n - 1] == ps[..n - 1];
      assert ps[n - 1] == LinePosting(b, l) && l in b.lines;
      HasLineSnoc(b.lines, n, p);
    } else {
      assert BatchPostings(b)[..0] == [];
    }
  }

  // A file received for the first time raises, in the place on its rows, every product
  // by what its rows say, and nothing else.
  lemma {:induction false} FirstImportMoves(st: Store, catalog: Catalog, rows: seq<Row>, today: int, scope: Scope, day: int, p: ProductId, s: Scope)
    requires Agrees(st)
    requires rows != [] && FileIs(rows, catalog, today, scope, day)
    requires PostingKeys(BatchPostings(BatchOf(ScanRows(rows, catalog, today), today))) !! Keys(st.ledger)
    ensures var st' := ImportStep(st, catalog, rows, today, false).0;
      && Agrees(st') && (forall q | q in Since(st, st') :: q.kind == ReceivingPosted)
      && OnHand(st'.balances, p, s) == OnHand(st.balances, p, s) + if s == scope then UnitsReceived(rows, catalog, p) else 0
  {
    hide ScanRows, BatchPostings, PostAll, Agrees, Missing, Sound, GoesTo, DatedOn, Net, UnitsReceived, Canonical, Total;
    ReceiptOfFile(rows, catalog, today, scope, day);
    var b := BatchOf(ScanRows(rows, catalog, today), today);
    var ps := BatchPostings(b);
    CsvKeysDistinct(rows, catalog, today);
    FirstPostsAll(st, ps);
    PostAllEffect(st, ps);
    PostAllAgrees(st, ps);
    SinceIs(st, ImportStep(st, catalog, rows, today, false).0, ps);
    AllReceipts(b);
    FileNet(rows, catalog, today, p, s);
    TotalIsReceived(rows, catalog, p);
  }

  lemma {:induction false} SinceIs(st: Store, st': Store, ps: seq<Posting>)
    requires st.ledger <= st'.ledger && Postings(st'.ledger) == Postings(st.ledger) + ps
    ensures Since(st, st') == ps
  {
    assert Postings(st'.ledger[|st.ledger|..]) == Postings(st'.ledger)[|st.ledger|..];
  }

  lemma {:induction false} AllReceipts(b: CsvBatch)
    ensures forall q | q in BatchPostings(b) :: q.kind == ReceivingPosted && q.scope == b.scope
  {}

  lemma {:induction false} FirstPostsAll(st: Store, ps: seq<Posting>)
    requires KeysDistinct(ps) && PostingKeys(ps) !! Keys(st.ledger)
    ensures PostAll(st, ps) == Some(Complete(st, ps))
  {
    hide PostAll, Missing;
    AllMissing(ps, Keys(st.ledger));
    MissingFresh(st, ps);
    PostAllCommits(st, ps);
  }

  lemma {:induction false} FileNet(rows: seq<Row>, catalog: Catalog, today: int, p: ProductId, s: Scope)
    ensures var c := ScanRows(rows, catalog, today); var b := BatchOf(c, today);
      Net(BatchPostings(b), Pair(p, s)) == if s == b.scope then Total(c.lines, p) else 0
  {
    hide ScanRows, Net, Canonical, BatchPostings;
    RowTakenOrFailed(rows, catalog, today);
    var c := ScanRows(rows, catalog, today);
    var b := BatchOf(c, today);
    CanonicalIsBatch(c.lines);
    BatchNet(b, |b.lines|, c.lines, p, s);
    assert BatchPostings(b)[..|b.lines|] == BatchPostings(b);
    TotalPositive(c.lines, p);
    LineOfTotal(b.lines, c.lines, p);
  }

  lemma {:induction false} LineOfTotal(ls: seq<BatchLine>, cs: seq<BatchLine>, p: ProductId)
    requires IsBatchOf(ls, cs)
    ensures HasLine(ls, |ls|, p) <==> Total(cs, p) > 0
  {
    if l :| l in ls && l.product == p {
      var i :| 0 <= i < |ls| && ls[i] == l;
    }
    if HasLine(ls, |ls|, p) {
      var i :| 0 <= i < |ls| && ls[i].product == p;
      assert ls[i] in ls;
    }
  }

  // Files whose notes differ are different receipts, unless a note holds a bar.
  lemma {:induction false} NotesTellApart(m: seq<string>, n: seq<string>)
    requires Distinct(m) && Distinct(n) && forall t | t in m + n :: t != "" && '|' !in t
    ensures JoinNotes(SortStrings(m)) == JoinNotes(SortStrings(n)) <==> forall t :: t in m <==> t in n
  {
    hide SortStrings, JoinNotes;
    SortSorts(m);
    SortSorts(n);
    MultisetMembers(m, SortStrings(m));
    MultisetMembers(n, SortStrings(n));
    if forall t :: t in m <==> t in n { SortedUnique(SortStrings(m), SortStrings(n)); }
    if JoinNotes(SortStrings(m)) == JoinNotes(SortStrings(n)) {
      forall t | t in SortStrings(m) + SortStrings(n) ensures t != "" && '|' !in t { assert t in m + n; }
      JoinedOnce(SortStrings(m), SortStrings(n));
    }
  }

  lemma {:induction false} JoinedOnce(m: seq<string>, n: seq<string>)
    requires JoinNotes(m) == JoinNotes(n) && forall t | t in m + n :: t != "" && '|' !in t
    ensures m == n
  {
    forall t | t in m ensures t != "" && '|' !in t { assert t in m + n; }
    forall t | t in n ensures t != "" && '|' !in t { assert t in m + n; }
    JoinedEmpty(m);
    JoinedEmpty(n);
    if m != [] {
      JoinedJoin(m);
      JoinedJoin(n);
      K.SplitJoin(m, '|');
      K.SplitJoin(n, '|');
    }
  }

  lemma {:induction false} JoinedEmpty(m: seq<string>)
    requires forall t | t in m :: t != ""
    ensures JoinNotes(m) == "" <==> m == []
  {
    if m != [] { assert m[0] in m; }
  }

  lemma {:induction false} JoinedJoin(m: seq<string>)
    requires m != []
    ensures JoinNotes(m) == K.Join(m, '|')
  {
    if |m| > 1 { JoinedJoin(m[1..]); }
  }

  // Five pieces of one product and two and a half of another, for a truck.
  const FIVE_P := Row(Found("p"), Number(5.0), "TRUCK:t1", NoDate, "")
  const SOME_Q := Row(Found("q"), Number(2.5), "TRUCK:t1", On(7), "")
  const SHELVES: Catalog := map["p" := PACKED, "q" := PACKED]

  lemma {:induction false} TruckRows()
    ensures FileIs([FIVE_P, SOME_Q], SHELVES, 7, "TRUCK:t1", 7)
    ensures UnitsReceived([FIVE_P, SOME_Q], SHELVES, "p") == 5 && UnitsReceived([FIVE_P, SOME_Q], SHELVES, "q") == 3
  {
    var p: string, q: string := "p", "q";
    assert p != q;
    assert [FIVE_P, SOME_Q][..1] == [FIVE_P] && [FIVE_P][..0] == [];
    assert UnitsReceived([FIVE_P], SHELVES, p) == 5 && UnitsReceived([FIVE_P], SHELVES, q) == 0;
    assert !Spells("TRUCK:t1", "TRUE") && !Spells("TRUCK:t1", "FALSE");
  }

  lemma {:induction false} TruckFile()
    ensures var st := ImportStep(Empty, SHELVES, [FIVE_P, SOME_Q], 7, false).0;
      && OnHand(st.balances, "p", "TRUCK:t1") == 5 && OnHand(st.balances, "q", "TRUCK:t1") == 3
      && OnHand(st.balances, "p", "WAREHOUSE") == 0
  {
    hide ImportStep, OnHand, ScanRows, FileIs, UnitsReceived, BatchOf, BatchPostings;
    var truck: string, shelf: string := "TRUCK:t1", "WAREHOUSE";
    assert |truck| != |shelf|;
    TruckRows();
    EmptyAgrees();
    NoKeys();
    FirstImportMoves(Empty, SHELVES, [FIVE_P, SOME_Q], 7, truck, 7, "p", truck);
    FirstImportMoves(Empty, SHELVES, [FIVE_P, SOME_Q], 7, truck, 7, "q", truck);
    FirstImportMoves(Empty, SHELVES, [FIVE_P, SOME_Q], 7, truck, 7, "p", shelf);
    EmptyHolds();
  }

  lemma {:induction false} NoKeys()
    ensures Keys(Empty.ledger) == {}
  {}
}
