// Receiving by hand: filter, convert and total the lines, derive the batch and
// its keys, then post what is missing, one transaction per line.
module Incoming {
  import opened Basics
  import opened Batches
  import opened Ledger
  import Race = ReceivingRace
  import opened Units

  datatype IncomingLine = IncomingLine(product: ProductId, received: int, unit: string)
  // An invalid receipt date is None.
  datatype IncomingDto = IncomingDto(scope: Scope, day: Option<int>, lines: seq<IncomingLine>)
  datatype Outcome = Posted(posted: nat, skipped: nat) | BadRequest

  // Lines without a product or with nothing received are dropped.
  predicate IsKept(l: IncomingLine) { l.product != "" && l.received > 0 }

  function Kept(lines: seq<IncomingLine>): seq<IncomingLine> {
    if lines == [] then [] else
      Kept(lines[..|lines| - 1]) + (if IsKept(lines[|lines| - 1]) then [lines[|lines| - 1]] else [])
  }

  function Factor(product: Product): (f: int)
    ensures f >= 1
  {
    UnitFactor(product, product.orderingLabel, Ordering)
  }

  // Receiving by hand looks its factor up by the ordering label, where a tracking or
  // checkout label of the same text comes first; a purchase order takes the ordering
  // factor itself. The two agree exactly when no such label has another factor.
  lemma {:induction false} FactorIsOrderingIff(product: Product)
    ensures Factor(product) == product.orderingToBase <==>
      var o := Normalize(product.orderingLabel);
      || o == ""
      || (o == Normalize(product.trackingLabel) && product.trackingToBase == product.orderingToBase)
      || (o != Normalize(product.trackingLabel)
          && (o == Normalize(product.checkoutLabel) ==> product.checkoutToBase == product.orderingToBase))
  {
    hide Normalize;
  }

  // A product tracked by the piece and ordered by the box of 24, with one label.
  const PIECES: Product := ProductRow("ea", "pack", "ea", 1, 6, 24)

  lemma {:induction false} LabelHidesOrderingFactor()
    ensures Factor(PIECES) == 1 && PIECES.orderingToBase == 24
  {
    assert Normalize("ea") == "ea" by {
      assert TrimStart("ea") == "ea" && TrimEnd("ea") == "ea";
      assert Lower("ea") == "ea";
    }
  }

  function LineBase(l: IncomingLine, product: Product): int {
    ToBase(l.received as real, Factor(product))
  }

  predicate LineAccepted(l: IncomingLine, catalog: map<ProductId, Product>) {
    && l.product in catalog
    && (Normalize(l.unit) == "" || Normalize(l.unit) == Normalize(catalog[l.product].orderingLabel))
    && LineBase(l, catalog[l.product]) > 0
  }

  predicate LinesAccepted(ls: seq<IncomingLine>, catalog: map<ProductId, Product>) {
    forall l | l in ls :: LineAccepted(l, catalog)
  }

  predicate Accepted(dto: IncomingDto, catalog: map<ProductId, Product>) {
    dto.day.Some? && Kept(dto.lines) != [] && LinesAccepted(Kept(dto.lines), catalog)
  }

  function Contributions(ls: seq<IncomingLine>, catalog: map<ProductId, Product>): (cs: seq<BatchLine>)
    requires LinesAccepted(ls, catalog)
    ensures |cs| == |ls|
  {
    seq(|ls|, i requires 0 <= i < |ls| => assert ls[i] in ls; BatchLine(ls[i].product, LineBase(ls[i], catalog[ls[i].product])))
  }

  function ResolvedScope(dto: IncomingDto): Scope { if dto.scope == "" then "WAREHOUSE" else dto.scope }

  function BatchFor(dto: IncomingDto, catalog: map<ProductId, Product>): Batch
    requires Accepted(dto, catalog)
  {
    Batch(ResolvedScope(dto), dto.day.value, Canonical(Contributions(Kept(dto.lines), catalog)))
  }

  function LinePosting(b: Batch, l: BatchLine): Posting {
    Posting(l.product, b.scope, l.quantity, ReceivingPosted, Receiving(b, l.product))
  }

  function BatchPostings(b: Batch): (ps: seq<Posting>)
    ensures |ps| == |b.lines|
  {
    seq(|b.lines|, i requires 0 <= i < |b.lines| => LinePosting(b, b.lines[i]))
  }

  function CreateStep(st: Store, catalog: map<ProductId, Product>, dto: IncomingDto): (Store, Outcome) {
    if !Accepted(dto, catalog) then (st, BadRequest)
    else
      var ps := BatchPostings(BatchFor(dto, catalog));
      var ms := Missing(ps, Keys(st.ledger));
      (Complete(st, ps), Posted(|ms|, |ps| - |ms|))
  }

  // ---- Units received, the independent measure of a payload ----

  function UnitsOf(lines: seq<IncomingLine>, product: ProductId): int {
    if lines == [] then 0 else
      var l := lines[|lines| - 1];
      UnitsOf(lines[..|lines| - 1], product) + (if l.product == product && product != "" && l.received > 0 then l.received else 0)
  }

  lemma {:induction false} NothingKept()
    ensures Kept([]) == []
  {}

  lemma {:induction false} KeptMembers(lines: seq<IncomingLine>)
    ensures forall l :: l in Kept(lines) <==> l in lines && IsKept(l)
  {
    if lines != [] {
      KeptMembers(lines[..|lines| - 1]);
      assert lines == lines[..|lines| - 1] + [lines[|lines| - 1]];
    }
  }

  lemma {:induction false} ContributionsSnoc(ls: seq<IncomingLine>, last: IncomingLine, catalog: map<ProductId, Product>)
    requires LinesAccepted(ls, catalog) && LinesAccepted(ls + [last], catalog)
    ensures last.product in catalog
    ensures Contributions(ls + [last], catalog) ==
            Contributions(ls, catalog) + [BatchLine(last.product, last.received * Factor(catalog[last.product]))]
  {
    assert last in ls + [last];
    WholeToBase(last.received, Factor(catalog[last.product]));
  }

  // Every total is the units received times the product's factor.
  lemma {:induction false} TotalIsUnits(lines: seq<IncomingLine>, catalog: map<ProductId, Product>, p: ProductId)
    requires LinesAccepted(Kept(lines), catalog)
    ensures Total(Contributions(Kept(lines), catalog), p) ==
            if p in catalog then UnitsOf(lines, p) * Factor(catalog[p]) else 0
    ensures p !in catalog ==> UnitsOf(lines, p) == 0
  {
    hide LineAccepted, Contributions, Factor, Total, IsKept;
    if lines == [] {
      NoTotal(catalog, p);
    } else {
      var front, last := lines[..|lines| - 1], lines[|lines| - 1];
      assert forall l | l in Kept(front) :: l in Kept(lines);
      TotalIsUnits(front, catalog, p);
      UnitsSnoc(front, last, p);
      if IsKept(last) {
        ContributionsSnoc(Kept(front), last, catalog);
        TotalSnoc(Contributions(Kept(front), catalog), BatchLine(last.product, last.received * Factor(catalog[last.product])), p);
        if last.product == p { Distribute(UnitsOf(front, p), last.received, Factor(catalog[p])); }
      } else {
        assert Kept(lines) == Kept(front);
      }
      assert front + [last] == lines;
    }
  }

  lemma {:induction false} NoTotal(catalog: map<ProductId, Product>, p: ProductId)
    ensures LinesAccepted(Kept([]), catalog) && Total(Contributions(Kept([]), catalog), p) == 0 && UnitsOf([], p) == 0
  {
    assert Contributions([], catalog) == [];
  }

  lemma {:induction false} UnitsSnoc(front: seq<IncomingLine>, last: IncomingLine, p: ProductId)
    ensures UnitsOf(front + [last], p) == UnitsOf(front, p) + if IsKept(last) && last.product == p then last.received else 0
  {
    assert (front + [last])[..|front|] == front;
  }

  lemma {:induction false} Distribute(a: int, b: int, f: int)
    ensures (a + b) * f == a * f + b * f
  {}

  lemma {:induction false} ContributionsPositive(dto: IncomingDto, catalog: map<ProductId, Product>)
    requires Accepted(dto, catalog)
    ensures Positive(Contributions(Kept(dto.lines), catalog))
    ensures BatchFor(dto, catalog).lines != []
  {
    var ls := Kept(dto.lines);
    var cs := Contributions(ls, catalog);
    forall i | 0 <= i < |cs| ensures cs[i].quantity > 0 {
      assert ls[i] in ls;
    }
    CanonicalIsBatch(cs);
    assert cs[0] in cs;
    TotalPositive(cs, cs[0].product);
  }

  ghost predicate SameUnits(a: IncomingDto, b: IncomingDto) {
    forall p :: UnitsOf(a.lines, p) == UnitsOf(b.lines, p)
  }

  // Where a payload goes.
  function Destination(scope: string): Scope { if scope == "" then "WAREHOUSE" else scope }

  lemma {:induction false} ResolvedIs(dto: IncomingDto)
    ensures ResolvedScope(dto) == Destination(dto.scope)
  {}

  // The batch, and so its hash, is decided by scope, day and the units received per
  // product: nothing else in the payload matters, and any difference there shows.
  lemma {:induction false} SameBatchIff(a: IncomingDto, b: IncomingDto, catalog: map<ProductId, Product>)
    requires Accepted(a, catalog) && Accepted(b, catalog)
    ensures BatchFor(a, catalog) == BatchFor(b, catalog) <==>
            Destination(a.scope) == Destination(b.scope) && a.day == b.day && SameUnits(a, b)
  {
    var cs, ds := Contributions(Kept(a.lines), catalog), Contributions(Kept(b.lines), catalog);
    ContributionsPositive(a, catalog);
    ContributionsPositive(b, catalog);
    CanonicalIffSameTotals(cs, ds);
    forall p ensures Total(cs, p) == Total(ds, p) <==> UnitsOf(a.lines, p) == UnitsOf(b.lines, p) {
      TotalIsUnits(a.lines, catalog, p);
      TotalIsUnits(b.lines, catalog, p);
      if p in catalog { SameMultiple(UnitsOf(a.lines, p), UnitsOf(b.lines, p), Factor(catalog[p])); }
    }
  }

  // Two payloads share every key or none.
  lemma {:induction false} KeysSharedIff(a: Batch, b: Batch)
    requires a.lines != []
    ensures PostingKeys(BatchPostings(a)) == PostingKeys(BatchPostings(b)) <==> a == b
    ensures a != b ==> PostingKeys(BatchPostings(a)) !! PostingKeys(BatchPostings(b))
  {
    assert BatchPostings(a)[0] in BatchPostings(a);
    assert BatchPostings(a)[0].key in PostingKeys(BatchPostings(a));
  }

  // ---- Order and splitting do not matter ----

  lemma {:induction false} UnitsConcat(a: seq<IncomingLine>, b: seq<IncomingLine>, p: ProductId)
    ensures UnitsOf(a + b, p) == UnitsOf(a, p) + UnitsOf(b, p)
  {
    if b == [] {
      assert a + b == a;
    } else {
      UnitsConcat(a, b[..|b| - 1], p);
      assert (a + b)[..|a + b| - 1] == a + b[..|b| - 1];
    }
  }

  lemma {:induction false} UnitsAround(a: seq<IncomingLine>, m: seq<IncomingLine>, b: seq<IncomingLine>, p: ProductId)
    ensures UnitsOf(a + m + b, p) == UnitsOf(a + b, p) + UnitsOf(m, p)
  {
    UnitsConcat(a + m, b, p);
    UnitsConcat(a, m, p);
    UnitsConcat(a, b, p);
  }

  lemma {:induction false} UnitsWithout(b: seq<IncomingLine>, k: nat, p: ProductId)
    requires k < |b|
    ensures UnitsOf(b, p) == UnitsOf(b[..k] + b[k + 1..], p) + UnitsOf([b[k]], p)
    ensures multiset(b[..k] + b[k + 1..]) == multiset(b) - multiset{b[k]}
  {
    assert b == b[..k] + [b[k]] + b[k + 1..];
    UnitsAround(b[..k], [b[k]], b[k + 1..], p);
  }

  lemma {:induction false} UnitsPermutation(a: seq<IncomingLine>, b: seq<IncomingLine>, p: ProductId)
    requires multiset(a) == multiset(b)
    ensures UnitsOf(a, p) == UnitsOf(b, p)
  {
    hide UnitsOf;
    assert |a| == |multiset(a)| && |b| == |multiset(b)|;
    if a == [] {
      assert a == b;
    } else {
      var n := |a| - 1;
      assert a[n] in multiset(b);
      var k :| 0 <= k < |b| && b[k] == a[n];
      UnitsWithout(a, n, p);
      UnitsWithout(b, k, p);
      UnitsPermutation(a[..n] + a[n + 1..], b[..k] + b[k + 1..], p);
    }
  }

  // A payload whose lines were reordered is accepted alike and is the same batch.
  lemma {:induction false} ReorderedIsSameBatch(a: IncomingDto, b: IncomingDto, catalog: map<ProductId, Product>)
    requires multiset(a.lines) == multiset(b.lines) && a.scope == b.scope && a.day == b.day
    ensures Accepted(a, catalog) == Accepted(b, catalog)
    ensures Accepted(a, catalog) ==> BatchFor(a, catalog) == BatchFor(b, catalog)
  {
    KeptMembers(a.lines);
    KeptMembers(b.lines);
    assert forall l :: l in a.lines <==> l in multiset(a.lines);
    assert forall l :: l in b.lines <==> l in multiset(b.lines);
    assert forall l :: l in Kept(a.lines) <==> l in Kept(b.lines);
    assert Kept(a.lines) != [] ==> Kept(a.lines)[0] in Kept(b.lines);
    assert Kept(b.lines) != [] ==> Kept(b.lines)[0] in Kept(a.lines);
    if Accepted(a, catalog) {
      forall p ensures UnitsOf(a.lines, p) == UnitsOf(b.lines, p) { UnitsPermutation(a.lines, b.lines, p); }
      SameBatchIff(a, b, catalog);
    }
  }

  // So is one where a kept line was split into several of the same product, unit and
  // total.
  lemma {:induction false} SplitIsSameBatch(a: IncomingDto, k: nat, parts: seq<IncomingLine>, catalog: map<ProductId, Product>)
    requires k < |a.lines| && IsKept(a.lines[k])
    requires forall l | l in parts :: IsKept(l) && l.product == a.lines[k].product && l.unit == a.lines[k].unit
    requires UnitsOf(parts, a.lines[k].product) == a.lines[k].received
    ensures var b := a.(lines := a.lines[..k] + parts + a.lines[k + 1..]);
      && (Accepted(a, catalog) <==> Accepted(b, catalog))
      && (Accepted(a, catalog) ==> BatchFor(b, catalog) == BatchFor(a, catalog))
  {
    hide Canonical, Contributions;
    var line := a.lines[k];
    var b := a.(lines := a.lines[..k] + parts + a.lines[k + 1..]);
    SplitAccepted(a, k, parts, catalog);
    if Accepted(a, catalog) {
      assert a.lines == a.lines[..k] + [line] + a.lines[k + 1..];
      forall p ensures UnitsOf(a.lines, p) == UnitsOf(b.lines, p) {
        UnitsAround(a.lines[..k], [line], a.lines[k + 1..], p);
        UnitsAround(a.lines[..k], parts, a.lines[k + 1..], p);
        UnitsOfOne(line, p);
        if p != line.product { UnitsOfOther(parts, line.product, p); }
      }
      SameBatchIff(a, b, catalog);
    }
  }

  lemma {:induction false} SplitAccepted(a: IncomingDto, k: nat, parts: seq<IncomingLine>, catalog: map<ProductId, Product>)
    requires k < |a.lines| && IsKept(a.lines[k])
    requires forall l | l in parts :: IsKept(l) && l.product == a.lines[k].product && l.unit == a.lines[k].unit
    requires UnitsOf(parts, a.lines[k].product) == a.lines[k].received
    ensures Accepted(a, catalog) <==> Accepted(a.(lines := a.lines[..k] + parts + a.lines[k + 1..]), catalog)
  {
    hide LineAccepted, Kept;
    var line, b := a.lines[k], a.(lines := a.lines[..k] + parts + a.lines[k + 1..]);
    assert a.lines == a.lines[..k] + [line] + a.lines[k + 1..];
    KeptMembers(a.lines);
    KeptMembers(b.lines);
    assert line in Kept(a.lines);
    assert parts != [];
    assert parts[0] in parts;
    assert parts[0] in Kept(b.lines);
    forall l | l in parts ensures LineAccepted(l, catalog) == LineAccepted(line, catalog) { SplitLineAccepted(line, l, catalog); }
    if LinesAccepted(Kept(a.lines), catalog) {
      forall l | l in Kept(b.lines) ensures LineAccepted(l, catalog) { if l !in parts { assert l in a.lines; } }
    }
    if LinesAccepted(Kept(b.lines), catalog) {
      forall l | l in Kept(a.lines) ensures LineAccepted(l, catalog) {
        if l == line { assert LineAccepted(parts[0], catalog); } else { assert l in b.lines; }
      }
    }
  }

  lemma {:induction false} SplitLineAccepted(line: IncomingLine, part: IncomingLine, catalog: map<ProductId, Product>)
    requires IsKept(line) && IsKept(part) && part.product == line.product && part.unit == line.unit
    ensures LineAccepted(part, catalog) == LineAccepted(line, catalog)
  {
    if line.product in catalog {
      KeptIsPositive(part, catalog[line.product]);
      KeptIsPositive(line, catalog[line.product]);
    }
  }

  lemma {:induction false} KeptIsPositive(l: IncomingLine, product: Product)
    requires IsKept(l)
    ensures LineBase(l, product) > 0
  {
    WholeToBase(l.received, Factor(product));
    assert l.received * Factor(product) >= 1;
  }

  lemma {:induction false} UnitsOfOne(l: IncomingLine, p: ProductId)
    requires IsKept(l)
    ensures UnitsOf([l], p) == if l.product == p then l.received else 0
  {
    assert [l][..0] == [];
  }

  lemma {:induction false} UnitsOfOther(ls: seq<IncomingLine>, product: ProductId, p: ProductId)
    requires p != product && forall l | l in ls :: l.product == product
    ensures UnitsOf(ls, p) == 0
  {
    if ls != [] { UnitsOfOther(ls[..|ls| - 1], product, p); }
  }

  // ---- What a call leaves behind ----

  lemma {:induction false} BatchKeysDistinct(dto: IncomingDto, catalog: map<ProductId, Product>)
    requires Accepted(dto, catalog)
    ensures KeysDistinct(BatchPostings(BatchFor(dto, catalog)))
  {
    var b := BatchFor(dto, catalog);
    ContributionsPositive(dto, catalog);
    CanonicalIsBatch(Contributions(Kept(dto.lines), catalog));
    forall i, j | 0 <= i < j < |b.lines| ensures b.lines[i].product != b.lines[j].product {
      BeforeTrichotomy(b.lines[i].product, b.lines[j].product);
    }
  }

  lemma {:induction false} BatchNet(b: Batch, n: nat, cs: seq<BatchLine>, p: ProductId, s: Scope)
    requires IsBatchOf(b.lines, cs) && n <= |b.lines|
    ensures Net(BatchPostings(b)[..n], Pair(p, s)) == if s == b.scope && HasLine(b.lines, n, p) then Total(cs, p) else 0
  {
    if n > 0 {
      hide HasLine, Total;
      var ps, l := BatchPostings(b), b.lines[n - 1];
      BatchNet(b, n - 1, cs, p, s);
      assert ps[..n][..n - 1] == ps[..n - 1];
      assert ps[n - 1] == LinePosting(b, l) && l in b.lines;
      HasLineSnoc(b.lines, n, p);
    } else {
      assert BatchPostings(b)[..0] == [];
    }
  }

  lemma {:induction false} FirstReceiptPosts(st: Store, catalog: map<ProductId, Product>, dto: IncomingDto)
    requires Accepted(dto, catalog)
    requires PostingKeys(BatchPostings(BatchFor(dto, catalog))) !! Keys(st.ledger)
    ensures PostAll(st, BatchPostings(BatchFor(dto, catalog))) == Some(CreateStep(st, catalog, dto).0)
  {
    hide Accepted, BatchFor, BatchPostings, PostAll, Missing;
    var ps := BatchPostings(BatchFor(dto, catalog));
    BatchKeysDistinct(dto, catalog);
    AllMissing(ps, Keys(st.ledger));
    MissingFresh(st, ps);
    PostAllCommits(st, ps);
  }

  lemma {:induction false} BatchMoves(dto: IncomingDto, catalog: map<ProductId, Product>, p: ProductId, s: Scope)
    requires Accepted(dto, catalog)
    ensures Net(BatchPostings(BatchFor(dto, catalog)), Pair(p, s)) ==
            if s == ResolvedScope(dto) && p in catalog then UnitsOf(dto.lines, p) * Factor(catalog[p]) else 0
  {
    hide Net, Total, UnitsOf, Canonical;
    var b, cs := BatchFor(dto, catalog), Contributions(Kept(dto.lines), catalog);
    var ps := BatchPostings(b);
    ContributionsPositive(dto, catalog);
    CanonicalIsBatch(cs);
    BatchNet(b, |ps|, cs, p, s);
    assert ps[..|ps|] == ps;
    TotalIsUnits(dto.lines, catalog, p);
    TotalPositive(cs, p);
    if i :| 0 <= i < |b.lines| && b.lines[i].product == p {
      assert b.lines[i] in b.lines;
    }
  }

  // When a payload is accepted: it has a date, and a line that counts, and each such
  // line is of a known product and in its ordering unit or none.
  ghost predicate LineCounts(l: IncomingLine) { l.product != "" && l.received > 0 }

  lemma {:induction false} AcceptedExactly(dto: IncomingDto, catalog: map<ProductId, Product>)
    ensures Accepted(dto, catalog) <==>
      && dto.day.Some?
      && (exists l :: l in dto.lines && LineCounts(l))
      && forall l | l in dto.lines && LineCounts(l) ::
           l.product in catalog && Normalize(l.unit) in {"", Normalize(catalog[l.product].orderingLabel)}
  {
    hide Kept, Normalize, LineBase;
    KeptMembers(dto.lines);
    if Kept(dto.lines) != [] { assert Kept(dto.lines)[0] in Kept(dto.lines) && LineCounts(Kept(dto.lines)[0]); }
    forall l | l in dto.lines && LineCounts(l) && l.product in catalog
      ensures LineAccepted(l, catalog) <==> Normalize(l.unit) in {"", Normalize(catalog[l.product].orderingLabel)}
    {
      KeptIsPositive(l, catalog[l.product]);
    }
  }

  // What a call answers: refused if and only if it is not accepted; otherwise how many
  // entries it made, and how many of its products had theirs.
  lemma {:induction false} CreateAnswers(st: Store, catalog: map<ProductId, Product>, dto: IncomingDto)
    ensures var (st', o) := CreateStep(st, catalog, dto);
      && st.ledger <= st'.ledger
      && (o == BadRequest <==> !Accepted(dto, catalog))
      && (o == BadRequest ==> st' == st)
      && (o != BadRequest ==> o.posted == |Since(st, st')| && o.posted + o.skipped == |BatchFor(dto, catalog).lines|)
  {
    hide Accepted, BatchFor, PostAll, Missing;
    if Accepted(dto, catalog) {
      var ps := BatchPostings(BatchFor(dto, catalog));
      var ms := Missing(ps, Keys(st.ledger));
      BatchKeysDistinct(dto, catalog);
      PrefixCommits(st, ps, |ms|);
      assert ms[..|ms|] == ms;
      PostAllEffect(st, ms);
      assert |Postings(Complete(st, ps).ledger)| == |Postings(st.ledger)| + |ms|;
    }
  }

  // Base units of one ordering unit, by the label it carries.
  ghost predicate OrderingUnitIs(product: Product, f: int) {
    UnitIs(product, product.orderingLabel, product.orderingToBase, f)
  }

  lemma {:induction false} FactorIsLabels(product: Product, f: int)
    ensures OrderingUnitIs(product, f) <==> f == Factor(product)
  {
    hide UnitFactor, UnitIs;
    FactorByLabel(product, product.orderingLabel, Ordering);
    if OrderingUnitIs(product, f) { UnitIsOne(product, product.orderingLabel, product.orderingToBase, f, Factor(product)); }
  }

  // The receipts of one product, all of the first kind.
  lemma {:induction false} LinesAreReceipts(b: Batch)
    ensures forall p | p in BatchPostings(b) :: p.scope == b.scope && p.kind == ReceivingPosted && p.key == Receiving(b, p.product)
  {}

  // A batch received for the first time puts exactly the units received, in base
  // units, where the payload says, or into the warehouse, and nowhere else.
  lemma {:induction false} FirstReceiptMoves(st: Store, catalog: map<ProductId, Product>, dto: IncomingDto, p: ProductId, s: Scope, f: int)
    requires Agrees(st) && Accepted(dto, catalog)
    requires PostingKeys(BatchPostings(BatchFor(dto, catalog))) !! Keys(st.ledger)
    requires p in catalog ==> OrderingUnitIs(catalog[p], f)
    ensures var st' := CreateStep(st, catalog, dto).0;
      && Agrees(st') && (forall q | q in Since(st, st') :: q.kind == ReceivingPosted)
      && OnHand(st'.balances, p, s) == OnHand(st.balances, p, s) +
           if s == (if dto.scope == "" then "WAREHOUSE" else dto.scope) && p in catalog then UnitsOf(dto.lines, p) * f else 0
  {
    hide Net, BatchPostings, BatchFor, Accepted, PostAll, Agrees, Missing, CreateStep, Factor, OrderingUnitIs;
    var ps := BatchPostings(BatchFor(dto, catalog));
    FirstReceiptPosts(st, catalog, dto);
    PostAllEffect(st, ps);
    PostAllAgrees(st, ps);
    BatchMoves(dto, catalog, p, s);
    if p in catalog { FactorIsLabels(catalog[p], f); }
    ResolvedIs(dto);
    LinesAreReceipts(BatchFor(dto, catalog));
    var l := CreateStep(st, catalog, dto).0.ledger;
    assert Postings(l[|st.ledger|..]) == Postings(l)[|st.ledger|..] == ps;
  }

  // Payloads for different places are different batches, and so never keep each other
  // from posting.
  lemma {:induction false} ScopesApart(a: IncomingDto, b: IncomingDto, catalog: map<ProductId, Product>)
    requires Accepted(a, catalog) && Accepted(b, catalog) && a.scope != b.scope && "" !in {a.scope, b.scope}
    ensures BatchFor(a, catalog) != BatchFor(b, catalog)
    ensures PostingKeys(BatchPostings(BatchFor(a, catalog))) !! PostingKeys(BatchPostings(BatchFor(b, catalog)))
  {
    hide Accepted, BatchFor, BatchPostings;
    SameBatchIff(a, b, catalog);
    ContributionsPositive(a, catalog);
    KeysSharedIff(BatchFor(a, catalog), BatchFor(b, catalog));
  }

  // Two cases and three more go onto a truck, and none into the warehouse.
  lemma {:induction false} TruckReceipt(st: Store)
    requires st == Empty
    ensures var dto := IncomingDto("TRUCK:t1", Some(0), [IncomingLine("p", 2, "Case"), IncomingLine("p", 3, "")]);
      var catalog: map<ProductId, Product> := map["p" := PACKED];
      Accepted(dto, catalog)
      && OnHand(CreateStep(st, catalog, dto).0.balances, "p", "TRUCK:t1") == 120
      && OnHand(CreateStep(st, catalog, dto).0.balances, "p", "WAREHOUSE") == 0
  {
    hide Normalize, Accepted, CreateStep, OnHand, BatchFor, BatchPostings;
    var a, b := IncomingLine("p", 2, "Case"), IncomingLine("p", 3, "");
    var dto := IncomingDto("TRUCK:t1", Some(0), [a, b]);
    var catalog: map<ProductId, Product> := map["p" := PACKED];
    PackedLabels();
    assert a in dto.lines && LineCounts(a);
    AcceptedExactly(dto, catalog);
    EmptyAgrees();
    OrderingPacked();
    assert [a, b][..1] == [a] && [a][..0] == [];
    assert UnitsOf([a], "p") == 2;
    FirstReceiptMoves(st, catalog, dto, "p", "TRUCK:t1", 24);
    FirstReceiptMoves(st, catalog, dto, "p", "WAREHOUSE", 24);
    EmptyHolds();
  }

  lemma {:induction false} OrderingPacked()
    ensures OrderingUnitIs(PACKED, 24)
  {
    hide Normalize;
    PackedLabels();
    Whole("Pack");
  }

  // However many times a payload was cut off before, submitting it until one call
  // gets through leaves what a single call would have; after that any payload of
  // the same batch posts nothing.
  lemma {:induction false} RetriesLikeOneCall(st: Store, catalog: map<ProductId, Product>, dto: IncomingDto, cuts: seq<nat>, again: IncomingDto)
    requires Accepted(dto, catalog) && Accepted(again, catalog) && BatchFor(again, catalog) == BatchFor(dto, catalog)
    ensures var ps := BatchPostings(BatchFor(dto, catalog));
      var st' := CreateStep(Attempts(st, ps, cuts), catalog, dto).0;
      && st' == CreateStep(st, catalog, dto).0
      && CreateStep(st', catalog, again) == (st', Posted(0, |ps|))
  {
    hide Accepted, BatchFor, Complete, Attempts, BatchPostings, Missing;
    var ps := BatchPostings(BatchFor(dto, catalog));
    BatchKeysDistinct(dto, catalog);
    RetriesConverge(st, ps, cuts);
    CompleteIsFinal(st, ps);
  }

  // Any number of overlapping calls with payloads of one batch, whatever else is
  // posted meanwhile: once they have ended, all without a crash, each line is in the
  // ledger once, and every balance is what a single call leaves plus what the others
  // posted.
  lemma {:induction false} OverlappingLikeOneCall(w: Race.Race, catalog: map<ProductId, Product>, dto: IncomingDto, steps: seq<Race.Step>)
    requires Accepted(dto, catalog) && Race.Initial(w) && Agrees(w.store)
    requires Race.Settled(Race.Run(BatchPostings(BatchFor(dto, catalog)), w, steps))
    ensures var ps := BatchPostings(BatchFor(dto, catalog));
      var v := Race.Run(ps, w, steps).store;
      var one, since := CreateStep(w.store, catalog, dto).0, Since(w.store, v);
      && w.store.ledger <= v.ledger
      && multiset(Race.OfBatch(since, PostingKeys(ps))) == multiset(Missing(ps, Keys(w.store.ledger)))
      && (forall p, s :: OnHand(v.balances, p, s) == OnHand(one.balances, p, s) + Net(Race.Others(since, PostingKeys(ps)), Pair(p, s)))
      && CreateStep(v, catalog, dto) == (v, Posted(0, |ps|))
  {
    hide Accepted, BatchFor, BatchPostings, Agrees, Complete, Missing, Postings, OnHand, Net, Race.Run, Race.Settled, Race.Initial, Race.OfBatch, Race.Others;
    var ps := BatchPostings(BatchFor(dto, catalog));
    BatchKeysDistinct(dto, catalog);
    Race.OverlappingCallsComplete(ps, w, steps);
    Race.RacePostsOnce(ps, w, steps);
    NothingMissing(Race.Run(ps, w, steps).store, ps);
  }
}
