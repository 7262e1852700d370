// IncomingService.create as the code runs it: a Map of totals, a sort, a look-up
// of the keys already there, and one posting transaction per missing line.
module IncomingService {
  import opened Basics
  import opened Batches
  import Csv = ReceivingCsv
  import opened Incoming
  import opened Ledger
  import opened Schema
  import opened Units

  lemma {:induction false} ContributionsPrefix(ls: seq<IncomingLine>, catalog: map<ProductId, Product>, i: nat)
    requires i < |ls| && LinesAccepted(ls[..i], catalog) && LineAccepted(ls[i], catalog)
    ensures LinesAccepted(ls[..i + 1], catalog)
    ensures Contributions(ls[..i + 1], catalog) ==
            Contributions(ls[..i], catalog) + [BatchLine(ls[i].product, LineBase(ls[i], catalog[ls[i].product]))]
  {
    assert ls[..i + 1] == ls[..i] + [ls[i]];
  }

  // A Map of totals in insertion order agrees with the contributions so far.
  ghost predicate Aggregates(order: seq<ProductId>, totals: map<ProductId, int>, cs: seq<BatchLine>) {
    && order == ProductsOf(cs)
    && (forall p :: p in totals <==> p in order)
    && (forall p | p in totals :: totals[p] == Total(cs, p))
  }

  lemma {:induction false} AbsentTotal(cs: seq<BatchLine>, p: ProductId)
    requires p !in ProductsOf(cs)
    ensures Total(cs, p) == 0
  {
    if cs != [] { AbsentTotal(cs[..|cs| - 1], p); }
  }

  lemma {:induction false} AggregateOne(order: seq<ProductId>, totals: map<ProductId, int>, cs: seq<BatchLine>, c: BatchLine)
    requires Aggregates(order, totals, cs)
    ensures c.product in totals ==> Aggregates(order, totals[c.product := totals[c.product] + c.quantity], cs + [c])
    ensures c.product !in totals ==> Aggregates(order + [c.product], totals[c.product := c.quantity], cs + [c])
  {
    assert (cs + [c])[..|cs|] == cs;
    if c.product !in totals { AbsentTotal(cs, c.product); }
    forall p ensures Total(cs + [c], p) == Total(cs, p) + (if c.product == p then c.quantity else 0) { TotalSnoc(cs, c, p); }
  }

  // Map.get, then add to the entry or set a new one.
  method AddLine(order: seq<ProductId>, totals: map<ProductId, int>, line: BatchLine)
    returns (order': seq<ProductId>, totals': map<ProductId, int>)
    ensures order' == if line.product in totals then order else order + [line.product]
    ensures totals' == totals[line.product := (if line.product in totals then totals[line.product] else 0) + line.quantity]
  {
    if line.product in totals {
      order', totals' := order, totals[line.product := totals[line.product] + line.quantity];
    } else {
      order', totals' := order + [line.product], totals[line.product := line.quantity];
    }
  }

  // The normalized lines, or nothing if a line is not acceptable.
  method Aggregate(ls: seq<IncomingLine>, catalog: map<ProductId, Product>) returns (r: Option<seq<BatchLine>>)
    ensures r == if LinesAccepted(ls, catalog) then Some(Canonical(Contributions(ls, catalog))) else None
  {
    var order: seq<ProductId>, totals: map<ProductId, int> := [], map[];
    for i := 0 to |ls|
      invariant LinesAccepted(ls[..i], catalog)
      invariant Aggregates(order, totals, Contributions(ls[..i], catalog))
    {
      var line := ls[i];
      assert line in ls;
      if !LineAccepted(line, catalog) {
        return None;
      }
      ContributionsPrefix(ls, catalog, i);
      var base := LineBase(line, catalog[line.product]);
      AggregateOne(order, totals, Contributions(ls[..i], catalog), BatchLine(line.product, base));
      order, totals := AddLine(order, totals, BatchLine(line.product, base));
    }
    assert ls[..|ls|] == ls;
    r := Some(Sorted(order, totals, Contributions(ls, catalog)));
  }

  function Sorted(order: seq<ProductId>, totals: map<ProductId, int>, ghost cs: seq<BatchLine>): (ls: seq<BatchLine>)
    requires Aggregates(order, totals, cs)
    ensures ls == Canonical(cs)
  {
    var ps := SortStrings(order);
    MultisetMembers(order, ps);
    seq(|ps|, i requires 0 <= i < |ps| => assert ps[i] in ps; BatchLine(ps[i], totals[ps[i]]))
  }

  // The lines of the batch whose keys are not in the ledger.
  method Unposted(ps: seq<Posting>, posted: set<Key>) returns (ms: seq<Posting>)
    ensures ms == Missing(ps, posted)
  {
    ms := [];
    for i := 0 to |ps|
      invariant ms == Missing(ps[..i], posted)
    {
      assert ps[..i + 1][..i] == ps[..i];
      if ps[i].key !in posted {
        ms := ms + [ps[i]];
      }
    }
    assert ps[..|ps|] == ps;
  }

  // One transaction per line; with nobody else posting, none of them fails.
  method PostLines(db: Database, ghost ps: seq<Posting>, ms: seq<Posting>)
    requires KeysDistinct(ps) && ms == Missing(ps, Keys(db.ledger))
    modifies db`ledger, db`balances
    ensures db.StoreView() == Complete(old(db.StoreView()), ps)
  {
    ghost var st := db.StoreView();
    for i := 0 to |ms|
      invariant PostAll(st, ms[..i]) == Some(db.StoreView())
    {
      PrefixCommits(st, ps, i + 1);
      assert ms[..i + 1][..i] == ms[..i] && ms[..i + 1][i] == ms[i];
      var ok := db.Post(ms[i]);
      assert ok;
    }
    assert ms[..|ms|] == ms;
  }

  method Create(db: Database, dto: IncomingDto) returns (o: Outcome)
    modifies db`ledger, db`balances
    ensures (db.StoreView(), o) == CreateStep(old(db.StoreView()), db.catalog, dto)
  {
    hide Kept, LinesAccepted, Contributions, Canonical, BatchPostings, KeysDistinct, Missing;
    if dto.lines == [] {
      NothingKept();
      return BadRequest;
    }
    var scope := if dto.scope != "" then dto.scope else "WAREHOUSE";
    if dto.day.None? {
      return BadRequest;
    }
    var inputs := Kept(dto.lines);
    if inputs == [] {
      return BadRequest;
    }
    var lines := Aggregate(inputs, db.catalog);
    if lines.None? {
      return BadRequest;
    }
    var ps := BatchPostings(Batch(scope, dto.day.value, lines.value));
    BatchKeysDistinct(dto, db.catalog);
    var missing := Unposted(ps, Keys(db.ledger));
    if missing != [] {
      PostLines(db, ps, missing);
    }
    o := Posted(|missing|, |ps| - |missing|);
  }

  // importReceivingCsv from resolved rows: failures, Map of totals, notes, scope
  // and date are updated row by row.
  method ImportReceivingCsv(db: Database, rows: seq<Csv.Row>, today: int, dryRun: bool) returns (r: Csv.Report)
    modifies db`ledger, db`balances
    ensures (db.StoreView(), r) == Csv.ImportStep(old(db.StoreView()), db.catalog, rows, today, dryRun)
  {
    hide Canonical, Missing, KeysDistinct, Csv.BatchPostings, Csv.ScanRows, Complete, SortStrings, Csv.JoinNotes, Append, PostAll, Commit;
    var failures, lines, notes, scope, day := ScanFile(rows, db.catalog, today);
    ghost var s := Csv.ScanRows(rows, db.catalog, today);
    var batchScope := if scope.Some? then scope.value else "WAREHOUSE";
    var batchDay := if day.Some? then day.value else today;
    if failures != [] {
      return Csv.Report(|rows|, |lines|, failures, batchScope, batchDay, None, dryRun, 0, 0);
    }
    var batch := CsvBatch(batchScope, batchDay, lines, Csv.JoinNotes(SortStrings(notes)));
    var ps := Csv.BatchPostings(batch);
    Csv.CsvKeysDistinct(rows, db.catalog, today);
    var missing := Unposted(ps, Keys(db.ledger));
    if !dryRun {
      PostLines(db, ps, missing);
    }
    r := Csv.Report(|rows|, |lines|, [], batchScope, batchDay, Some(batch), dryRun, |missing|, |ps| - |missing|);
  }

  method ScanFile(rows: seq<Csv.Row>, catalog: map<ProductId, Product>, today: int)
    returns (failures: seq<Csv.Failure>, lines: seq<BatchLine>, notes: seq<string>, scope: Option<Scope>, day: Option<int>)
    ensures var s := Csv.ScanRows(rows, catalog, today);
      && failures == s.failures && lines == Canonical(s.lines) && notes == s.notes && scope == s.scope && day == s.day
  {
    failures, notes, scope, day := [], [], None, None;
    var order: seq<ProductId>, totals: map<ProductId, int> := [], map[];
    ghost var taken: seq<BatchLine> := [];
    for i := 0 to |rows|
      invariant Csv.ScanRows(rows[..i], catalog, today) == Csv.Scan(failures, taken, notes, scope, day)
      invariant Aggregates(order, totals, taken)
    {
      hide Aggregates, Csv.RowProblem, Csv.LineOf;
      var row := rows[i];
      assert rows[..i + 1][..i] == rows[..i] && rows[..i + 1][i] == row;
      var problem := Csv.RowProblem(row, catalog);
      var rowScope := Csv.RowScope(row);
      if problem.Some? {
        failures := failures + [Csv.Failure(i + 1, problem.value)];
      } else if scope.Some? && scope.value != rowScope {
        failures := failures + [Csv.Failure(i + 1, Csv.ScopeMismatch)];
      } else {
        scope := Some(rowScope);
        if row.date.BadDate? {
          failures := failures + [Csv.Failure(i + 1, Csv.InvalidDate)];
        } else {
          var rowDay := Csv.RowDay(row, today);
          if day.Some? && day.value != rowDay {
            failures := failures + [Csv.Failure(i + 1, Csv.DateMismatch)];
          } else {
            day := Some(rowDay);
            notes := Csv.AddNote(notes, row.note);
            var line := Csv.LineOf(row, catalog);
            AggregateOne(order, totals, taken, line);
            order, totals := AddLine(order, totals, line);
            taken := taken + [line];
          }
        }
      }
    }
    assert rows[..|rows|] == rows;
    lines := Sorted(order, totals, taken);
  }
}
