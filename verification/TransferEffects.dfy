// What finalizing a transfer request does to balances, and what happens when an
// edit lands between a finalize call's read and its commit.
module TransferEffects {
  import opened Basics
  import opened Ledger
  import opened Units
  import opened TransferRequests
  import opened TransferInvariants
  import opened TransferRuns

  // ---- Conservation ----

  // A line's quantity in base units, by the factor of its unit, before rounding.
  ghost function ExactBase(line: Line, catalog: map<ProductId, Product>): real
    requires line.product in catalog
  {
    line.quantity * UnitBase(catalog[line.product], line.unit) as real
  }

  // Base units of one product moved by the lines, each line rounded on its own.
  ghost function Moved(lines: seq<Line>, product: ProductId, catalog: map<ProductId, Product>): int {
    if lines == [] then 0 else
      var line := lines[|lines| - 1];
      Moved(lines[..|lines| - 1], product, catalog)
      + (if line.product == product && product in catalog then Round(ExactBase(line, catalog)) else 0)
  }

  lemma {:induction false} LineBaseIs(line: Line, catalog: map<ProductId, Product>)
    requires line.product in catalog
    ensures LineBase(line, catalog) == Round(ExactBase(line, catalog))
  {
    hide UnitFactor;
    UnitBaseIs(catalog[line.product], line.unit);
  }

  ghost function ExactMoved(lines: seq<Line>, product: ProductId, catalog: map<ProductId, Product>): real {
    if lines == [] then 0.0 else
      var line := lines[|lines| - 1];
      ExactMoved(lines[..|lines| - 1], product, catalog)
      + (if line.product == product && product in catalog then ExactBase(line, catalog) else 0.0)
  }

  function LinesOf(lines: seq<Line>, product: ProductId): nat {
    if lines == [] then 0 else
      LinesOf(lines[..|lines| - 1], product) + (if lines[|lines| - 1].product == product then 1 else 0)
  }

  // Rounding each line costs at most half a base unit per line.
  lemma {:induction false} RoundingBound(lines: seq<Line>, product: ProductId, catalog: map<ProductId, Product>)
    ensures -(LinesOf(lines, product) as real) / 2.0
         <= Moved(lines, product, catalog) as real - ExactMoved(lines, product, catalog)
         <= LinesOf(lines, product) as real / 2.0
  {
    if lines != [] {
      hide ExactBase;
      var line := lines[|lines| - 1];
      RoundingBound(lines[..|lines| - 1], product, catalog);
    }
  }

  function Shift(scope: Scope, fromScope: Scope, toScope: Scope, moved: int): int {
    (if scope == toScope then moved else 0) - (if scope == fromScope then moved else 0)
  }

  lemma {:induction false} FinalizeNet(id: nat, r: Request, lines: seq<Line>, catalog: map<ProductId, Product>, product: ProductId, scope: Scope)
    ensures Net(FinalizePostings(id, r, lines, catalog), Pair(product, scope)) ==
            Shift(scope, FromScope(r.direction, r.technician), ToScope(r.direction, r.technician), Moved(lines, product, catalog))
  {
    if lines != [] {
      var line, front := lines[|lines| - 1], lines[..|lines| - 1];
      FinalizeNet(id, r, front, catalog, product, scope);
      if line.product in catalog {
        LineBaseIs(line, catalog);
        var q := LineBase(line, catalog);
        var o, i := MovePosting(id, r, line, q, true), MovePosting(id, r, line, q, false);
        NetConcat(FinalizePostings(id, r, front, catalog), [o, i], Pair(product, scope));
        assert [o, i][..1] == [o] && [o][..0] == [];
        assert Net([o, i], Pair(product, scope)) == Net([o], Pair(product, scope)) + (if Matches(Pair(product, scope), i) then q else 0);
        assert Net([o], Pair(product, scope)) == if Matches(Pair(product, scope), o) then -q else 0;
      }
    }
  }

  function Holdings(b: Balances, product: ProductId, scopes: seq<Scope>): int {
    if scopes == [] then 0 else
      Holdings(b, product, scopes[..|scopes| - 1]) + OnHand(b, product, scopes[|scopes| - 1])
  }

  lemma {:induction false} HoldingsShift(b: Balances, b': Balances, product: ProductId, scopes: seq<Scope>, fromScope: Scope, toScope: Scope, moved: int)
    requires Distinct(scopes)
    requires forall s :: OnHand(b', product, s) == OnHand(b, product, s) + Shift(s, fromScope, toScope, moved)
    ensures Holdings(b', product, scopes) == Holdings(b, product, scopes)
            + (if toScope in scopes then moved else 0) - (if fromScope in scopes then moved else 0)
  {
    if scopes != [] {
      var front, last := scopes[..|scopes| - 1], scopes[|scopes| - 1];
      assert scopes == front + [last] && last !in front;
      HoldingsShift(b, b', product, front, fromScope, toScope, moved);
    }
  }

  // A posting finalize moves exactly the sum of its rounded lines from one scope
  // to the other, touches nothing else, and keeps each product's total.
  lemma {:induction false} FinalizeMoves(w: Desk, call: nat, id: nat, product: ProductId, scopes: seq<Scope>)
    requires CommitStep(w, call).1 == Done(id)
    ensures call in w.inflight
    ensures var row, w' := w.inflight[call].row, CommitStep(w, call).0;
      var fromScope, toScope := FromScope(row.direction, row.technician), ToScope(row.direction, row.technician);
      && fromScope != toScope
      && (forall s :: OnHand(w'.store.balances, product, s) ==
            OnHand(w.store.balances, product, s) + Shift(s, fromScope, toScope, Moved(row.lines, product, w.catalog)))
      && (Distinct(scopes) && fromScope in scopes && toScope in scopes ==>
            Holdings(w'.store.balances, product, scopes) == Holdings(w.store.balances, product, scopes))
  {
    var row, w' := w.inflight[call].row, CommitStep(w, call).0;
    var fromScope, toScope := FromScope(row.direction, row.technician), ToScope(row.direction, row.technician);
    var ps := FinalizePostings(id, row, row.lines, w.catalog);
    ScopesDiffer(row.direction, row.technician);
    PostAllEffect(w.store, ps);
    forall s ensures OnHand(w'.store.balances, product, s) ==
        OnHand(w.store.balances, product, s) + Shift(s, fromScope, toScope, Moved(row.lines, product, w.catalog)) {
      FinalizeNet(id, row, row.lines, w.catalog, product, s);
    }
    if Distinct(scopes) {
      HoldingsShift(w.store.balances, w'.store.balances, product, scopes, fromScope, toScope, Moved(row.lines, product, w.catalog));
    }
  }

  // An issue takes from the warehouse and loads the technician's truck; a return
  // goes the other way.
  lemma {:induction false} IssueLoadsTruck(w: Desk, call: nat, id: nat, product: ProductId)
    requires CommitStep(w, call).1 == Done(id)
    ensures call in w.inflight
    ensures var row, b, b' := w.inflight[call].row, w.store.balances, CommitStep(w, call).0.store.balances;
      var moved := Moved(row.lines, product, w.catalog);
      var loaded := if row.direction == Issue then moved else -moved;
      && OnHand(b', product, "WAREHOUSE") == OnHand(b, product, "WAREHOUSE") - loaded
      && OnHand(b', product, "TRUCK:" + row.technician) == OnHand(b, product, "TRUCK:" + row.technician) + loaded
  {
    hide CommitStep, Moved;
    FinalizeMoves(w, call, id, product, []);
    ScopesDiffer(w.inflight[call].row.direction, w.inflight[call].row.technician);
  }

  // ---- An edit between read and commit ----

  lemma {:induction false} RunSnoc(w: Desk, steps: seq<Step>, s: Step)
    ensures Run(w, steps + [s]) == Next(Run(w, steps), s)
  {
    assert (steps + [s])[..|steps|] == steps;
  }

  const SAMPLE: Product := ProductRow("oz", "can", "case", 1, 1, 1)
  const CLERK := User(Warehouse, None)
  const ONE := [LineInput("p", 1.0, "oz")]
  const ROW := Request("t", Issue, "WAREHOUSE", "TRUCK:t", Submitted, 0, None, None,
                       [Line(1, "p", 1.0, "oz")], None, NoDispute)
  const EDITED := ROW.(lines := [Line(2, "p", 1.0, "oz")])

  const CREATE := Step(CLERK, Create(CreateDto("t", Issue, None, None, Absent, ONE)))
  const EDIT := Step(CLERK, OnRow(0, Update(UpdateDto(None, None, Absent, ONE))))
  const READ0 := Step(CLERK, BeginFinalize(0, 0))
  const READ1 := Step(CLERK, BeginFinalize(1, 0))
  const POST0 := Step(CLERK, CommitFinalize(0))
  const POST1 := Step(CLERK, CommitFinalize(1))
  const RACE := [CREATE, READ0] + [EDIT] + [READ1] + [POST1] + [POST0]

  const DESK0 := Desk(0, Empty, map[], 0, map[], map["p" := SAMPLE], map["t" := true])
  const DESK1 := DESK0.(requests := map[0 := ROW], nextId := 2)
  const DESK2 := DESK1.(inflight := map[0 := Snapshot(0, ROW)])
  const DESK3 := DESK2.(requests := map[0 := EDITED], nextId := 3)
  const DESK4 := DESK3.(inflight := map[0 := Snapshot(0, ROW), 1 := Snapshot(0, EDITED)])

  lemma {:induction false} RaceCreates()
    ensures Next(DESK0, CREATE) == DESK1
  {
    assert TruckScope("t") == "TRUCK:t";
    assert NumberLines(ONE, 1) == [Line(1, "p", 1.0, "oz")];
    assert Next(DESK0, CREATE).requests[0] == ROW;
  }

  lemma {:induction false} RaceEdits()
    ensures Next(DESK2, EDIT) == DESK3
  {
    assert TruckScope("t") == "TRUCK:t";
    assert NumberLines(ONE, 2) == [Line(2, "p", 1.0, "oz")];
    assert Next(DESK2, EDIT).requests[0] == EDITED;
  }

  lemma {:induction false} RacePrefix()
    ensures Run(DESK0, [CREATE, READ0]) == DESK2
    ensures Run(DESK0, [CREATE, READ0] + [EDIT] + [READ1]) == DESK4
  {
    hide Run, CreateStep, OnRowStep, FinalizePostings;
    RunNone(DESK0);
    RaceCreates();
    RunSnoc(DESK0, [], CREATE);
    assert [] + [CREATE] == [CREATE];
    RunSnoc(DESK0, [CREATE], READ0);
    assert [CREATE] + [READ0] == [CREATE, READ0];
    assert Next(DESK1, READ0) == DESK2;
    RaceEdits();
    RunSnoc(DESK0, [CREATE, READ0], EDIT);
    RunSnoc(DESK0, [CREATE, READ0] + [EDIT], READ1);
    assert Next(DESK3, READ1) == DESK4;
  }

  lemma {:induction false} RaceIsNotCalm()
    ensures !Calm(DESK0, RACE)
  {
    RacePrefix();
    assert RACE[2] == EDIT && RACE[..2] == [CREATE, READ0];
    RaceEdits();
    assert 0 in DESK2.inflight && DESK2.inflight[0].id == 0;
    assert ReplacesLines(DESK2, EDIT, 0);
    assert !CalmStep(Run(DESK0, RACE[..2]), RACE[2]);
  }

  lemma {:induction false} NoMovesYet()
    ensures Moves(Empty, 0) == []
  {
    assert Postings(Empty.ledger) == [];
  }

  lemma {:induction false} RacePosts(w5: Desk)
    requires w5 == Next(DESK4, POST1)
    ensures var w6 := Next(w5, POST0); w6.requests.Keys == {0} && w6.requests[0] == EDITED.(status := AckPending) && |Moves(w6.store, 0)| == 4
  {
    hide PostAll, FinalizePostings, Moves, CreateStep, BeginStep, OnRowStep;
    OnePairPosts(Empty, EDITED, DESK0.catalog);
    NoMovesYet();
    OnePairPosts(w5.store, ROW, DESK0.catalog);
  }

  lemma {:induction false} OnePair(row: Request, catalog: map<ProductId, Product>)
    requires |row.lines| == 1 && row.lines[0].product in catalog
    ensures var q := LineBase(row.lines[0], catalog);
      FinalizePostings(0, row, row.lines, catalog) ==
      [MovePosting(0, row, row.lines[0], q, true), MovePosting(0, row, row.lines[0], q, false)]
  {
    hide LineBase;
    assert row.lines[..0] == [];
    assert FinalizePostings(0, row, row.lines[..0], catalog) == [];
  }

  // Posting one line's pair adds two moves and the pair's two keys.
  lemma {:induction false} OnePairPosts(st: Store, row: Request, catalog: map<ProductId, Product>)
    requires |row.lines| == 1 && row.lines[0].product in catalog
    requires RequestMove(0, row.lines[0].id, true) !in Keys(st.ledger)
    requires RequestMove(0, row.lines[0].id, false) !in Keys(st.ledger)
    ensures var r := PostAll(st, FinalizePostings(0, row, row.lines, catalog));
      && r.Some? && |Moves(r.value, 0)| == |Moves(st, 0)| + 2
      && Keys(r.value.ledger) == Keys(st.ledger) + {RequestMove(0, row.lines[0].id, true), RequestMove(0, row.lines[0].id, false)}
  {
    var q := LineBase(row.lines[0], catalog);
    OnePair(row, catalog);
    TwoPost(st, MovePosting(0, row, row.lines[0], q, true), MovePosting(0, row, row.lines[0], q, false));
  }

  lemma {:induction false} TwoPost(st: Store, a: Posting, b: Posting)
    requires a.key != b.key && a.key !in Keys(st.ledger) && b.key !in Keys(st.ledger)
    requires Matches(OfRequest(0), a) && Matches(OfRequest(0), b)
    ensures var r := PostAll(st, [a, b]);
      r.Some? && |Moves(r.value, 0)| == |Moves(st, 0)| + 2 && Keys(r.value.ledger) == Keys(st.ledger) + {a.key, b.key}
  {
    hide PostAll, Net, Select, Moves, Matches, OnHand;
    PostAllCommits(st, [a, b]);
    PostAllEffect(st, [a, b]);
    MovesAfter(st, [a, b], 0);
    SelectAll([a, b], OfRequest(0));
    assert [a, b][0] == a && [a, b][1] == b;
    assert PostingKeys([a, b]) == {a.key, b.key};
  }

  // A finalize reads the request, an edit replaces its line, a second finalize
  // reads and posts the new line, and then the first one still posts the old
  // line: two pairs for a request of one line.
  lemma {:induction false} RacingEditPostsTwice()
    ensures Initial(DESK0) && !Calm(DESK0, RACE)
    ensures var w := Run(DESK0, RACE);
      0 in w.requests && |w.requests[0].lines| == 1 && |Moves(w.store, 0)| == 4 && !PostedOnce(w, 0)
  {
    RaceIsNotCalm();
    RacePrefix();
    RacePosts(Next(DESK4, POST1));
    RunSnoc(DESK0, [CREATE, READ0] + [EDIT] + [READ1], POST1);
    RunSnoc(DESK0, [CREATE, READ0] + [EDIT] + [READ1] + [POST1], POST0);
  }

  lemma {:induction false} OnceIsPosted(w: Desk, id: nat)
    ensures Holds(Once, w, id) <==> PostedOnce(w, id)
  {}

  // An issue turned into a return between read and commit ends as ACK_PENDING.
  const TURN := Step(CLERK, OnRow(0, Update(UpdateDto(Some(Return), None, Absent, ONE))))

  lemma {:induction false} TurnEdits()
    ensures var v := Next(DESK2, TURN);
      && 0 in v.requests && v.requests[0].direction == Return && v.requests[0].status == Submitted
      && v.inflight == DESK2.inflight
  {}

  lemma {:induction false} RacingTurnAwaitsReceipt()
    ensures var w := Run(DESK0, [CREATE, READ0] + [TURN] + [POST0]);
      0 in w.requests && w.requests[0].status == AckPending && w.requests[0].direction == Return
  {
    hide Run, CreateStep, OnRowStep, BeginStep;
    var steps := [CREATE, READ0] + [TURN];
    RacePrefix();
    RunSnoc(DESK0, [CREATE, READ0], TURN);
    RunSnoc(DESK0, steps, POST0);
    TurnEdits();
    CommitGoesThrough(DESK0, steps, 0, 0);
  }

  lemma {:induction false} CommitGoesThrough(w: Desk, steps: seq<Step>, call: nat, id: nat)
    requires Initial(w) && forall k | 0 <= k < |steps| :: !steps[k].action.CommitFinalize?
    requires var v := Run(w, steps);
      call in v.inflight && v.inflight[call].id == id && id in v.requests && !IsPosted(v.requests[id].status)
    ensures var v := Run(w, steps);
      Next(v, Step(CLERK, CommitFinalize(call))).requests == v.requests[id := v.requests[id].(status := PostedStatus(v.inflight[call].row.direction))]
  {
    hide Inv, Holds, Fits, Run, PostAll, FinalizePostings;
    var v := Run(w, steps);
    Reachable(w, steps);
    InitialInv(w);
    InitialHolds(Once, w, id);
    HoldsIffAllFit(Once, w, steps, id);
    assert steps[..|steps|] == steps;
    assert Holds(Once, Run(w, steps[..|steps|]), id);
    OnceIsPosted(v, id);
    CommitExactly(v, call);
  }

  // A technician's change request between read and commit leaves its payload on a
  // posted request.
  const DRIVER := User(Tech, Some("t"))
  const AHEAD := Step(CLERK, Create(CreateDto("t", Issue, None, None, At(5), ONE)))
  const APPROVE := Step(CLERK, OnRow(0, Approve))
  const CHANGE := Step(DRIVER, OnRow(0, Update(UpdateDto(None, None, Absent, ONE))))
  const PENDING := ROW.(status := ApprovalPending, pickup := 5)

  lemma {:induction false} AheadCreates()
    ensures Next(DESK0, AHEAD) == DESK0.(requests := map[0 := PENDING], nextId := 2)
  {
    assert TruckScope("t") == "TRUCK:t";
    assert NumberLines(ONE, 1) == [Line(1, "p", 1.0, "oz")];
    assert Next(DESK0, AHEAD).requests[0] == PENDING;
  }

  lemma {:induction false} ChangeIsStored(w: Desk)
    requires w == Next(Next(Next(DESK0, AHEAD), APPROVE), READ0)
    ensures 0 in w.inflight && w.inflight[0] == Snapshot(0, PENDING.(status := Approved))
    ensures var v := Next(w, CHANGE);
      && v.inflight == w.inflight && 0 in v.requests
      && v.requests[0].status == ChangeRequested && v.requests[0].payload.Some?
  {
    hide CreateStep;
    AheadCreates();
    var name: string := "t";
    assert name != "";
    assert Next(Next(DESK0, AHEAD), APPROVE).requests[0] == PENDING.(status := Approved);
  }

  lemma {:induction false} RacingChangeLeavesPayload()
    ensures var w := Run(DESK0, [AHEAD] + [APPROVE] + [READ0] + [CHANGE] + [POST0]);
      0 in w.requests && w.requests[0].status == AckPending && w.requests[0].payload.Some?
  {
    hide Run, CreateStep, OnRowStep, BeginStep, CommitStep;
    var steps := [AHEAD] + [APPROVE] + [READ0] + [CHANGE];
    RunNone(DESK0);
    RunSnoc(DESK0, [], AHEAD);
    assert [] + [AHEAD] == [AHEAD];
    RunSnoc(DESK0, [AHEAD], APPROVE);
    RunSnoc(DESK0, [AHEAD] + [APPROVE], READ0);
    RunSnoc(DESK0, [AHEAD] + [APPROVE] + [READ0], CHANGE);
    RunSnoc(DESK0, steps, POST0);
    ChangeIsStored(Run(DESK0, [AHEAD] + [APPROVE] + [READ0]));
    CommitGoesThrough(DESK0, steps, 0, 0);
  }
}
