// What a transfer request holds after a call, and what its finalize writes to the
// ledger, in terms of the payload, the labels and the factors.
module TransferContent {
  import opened Basics
  import opened Ledger
  import opened Units
  import opened TransferRequests
  import opened TransferInvariants
  import E = TransferEffects
  import R = TransferRuns

  // ---- Content of a request ----

  // One line per input, in order, each with its own product, quantity and unit.
  ghost predicate Lists(lines: seq<Line>, inputs: seq<LineInput>) {
    && |lines| == |inputs|
    && forall i | 0 <= i < |inputs| ::
         lines[i].product == inputs[i].product && lines[i].quantity == inputs[i].quantity && lines[i].unit == inputs[i].unit
  }

  ghost predicate Routed(r: Request) {
    if r.direction == Issue then r.fromScope == "WAREHOUSE" && r.toScope == "TRUCK:" + r.technician
    else r.fromScope == "TRUCK:" + r.technician && r.toScope == "WAREHOUSE"
  }

  // The request asks for this, and nothing of an earlier change request is left.
  ghost predicate Asks(r: Request, direction: Direction, pickup: int, reason: Option<string>, inputs: seq<LineInput>) {
    r.direction == direction && Routed(r) && r.pickup == pickup && r.reason == reason && Lists(r.lines, inputs) && r.payload.None?
  }

  lemma {:induction false} NumberedLists(inputs: seq<LineInput>, first: nat)
    ensures Lists(NumberLines(inputs, first), inputs)
  {}

  // A create call that makes a request: what is asked for, awaiting approval if and
  // only if the pickup is in the future.
  lemma {:induction false} CreateStores(w: Desk, user: User, dto: CreateDto, id: nat)
    requires RowsOk(w) && CreateStep(w, user, dto).1 == Done(id) && CreateStep(w, user, dto).0 != w
    ensures var (w', pickup) := (CreateStep(w, user, dto).0, if dto.pickup.At? then dto.pickup.time else w.now);
      && id !in w.requests && w'.requests == w.requests[id := w'.requests[id]]
      && w' == w.(requests := w'.requests, nextId := w'.nextId)
      && var r := w'.requests[id];
      && Asks(r, dto.direction, pickup, dto.reason, dto.lines)
      && r.technician == dto.technician && r.key == dto.key && r.dispute == NoDispute
      && r.status == (if pickup > w.now then ApprovalPending else Submitted)
  {
    hide NumberLines, AllKnown, RowOk, HasRequestKey;
    NumberedLists(dto.lines, w.nextId + 1);
  }

  // Who may create what. A key that is neither missing nor empty answers with its
  // request; the empty one is as unique as any other.
  lemma {:induction false} CreatesIff(w: Desk, user: User, dto: CreateDto)
    requires RowsOk(w)
    ensures CreateStep(w, user, dto).0 != w <==>
      && (user.role == Tech ==> user.technician == Some(dto.technician))
      && dto.lines != [] && !dto.pickup.InvalidDate?
      && dto.technician in w.technicians && w.technicians[dto.technician]
      && (forall i | 0 <= i < |dto.lines| :: dto.lines[i].product in w.catalog)
      && (dto.key.Some? ==> forall id | id in w.requests :: w.requests[id].key != dto.key)
  {
    hide NumberLines, RowOk;
    assert w.nextId !in w.requests;
    assert AllKnown(dto.lines, w.catalog.Keys) <==> forall i | 0 <= i < |dto.lines| :: dto.lines[i].product in w.catalog by {
      if AllKnown(dto.lines, w.catalog.Keys) {
        forall i | 0 <= i < |dto.lines| ensures dto.lines[i].product in w.catalog { assert dto.lines[i] in dto.lines; }
      }
    }
  }

  function Given<T>(given: Option<T>, was: T): T { if given.Some? then given.value else was }

  function PickupAsked(given: DateInput, was: int): int { if given.At? then given.time else was }

  // An accepted edit: of an APPROVED or CHANGE_REQUESTED request by a technician, the
  // change is stored and the request otherwise as it was; any other takes effect.
  lemma {:induction false} EditStores(w: Desk, user: User, id: nat, dto: UpdateDto)
    requires OnRowStep(w, user, id, Update(dto)).1 == Done(id)
    ensures id in w.requests && id in OnRowStep(w, user, id, Update(dto)).0.requests
    ensures var (r, r') := (w.requests[id], OnRowStep(w, user, id, Update(dto)).0.requests[id]);
      var direction, pickup := Given(dto.direction, r.direction), PickupAsked(dto.pickup, r.pickup);
      var reason := if dto.reason.Some? then dto.reason else r.reason;
      if user.role == Tech && r.status in {Approved, ChangeRequested} then
        r' == r.(status := ChangeRequested, payload := Some(Payload(Some(direction), reason, Some(pickup), Some(dto.lines))))
      else
        && Asks(r', direction, pickup, reason, dto.lines)
        && r'.technician == r.technician && r'.key == r.key && r'.dispute == r.dispute
        && r'.status == (if pickup > w.now then ApprovalPending else Submitted)
  {
    hide NumberLines, AllKnown;
    NumberedLists(dto.lines, w.nextId);
  }

  // An accepted approveChanges: what the stored change asks for; a change without a
  // reason leaves the old one.
  lemma {:induction false} ApprovalStores(w: Desk, user: User, id: nat)
    requires OnRowStep(w, user, id, ApproveChanges).1 == Done(id)
    ensures id in w.requests && id in OnRowStep(w, user, id, ApproveChanges).0.requests
    ensures var (r, r') := (w.requests[id], OnRowStep(w, user, id, ApproveChanges).0.requests[id]);
      && r.payload.Some? && r.payload.value.direction.Some? && r.payload.value.pickup.Some? && r.payload.value.lines.Some?
      && Asks(r', r.payload.value.direction.value, r.payload.value.pickup.value,
              if r.payload.value.reason.Some? then r.payload.value.reason else r.reason, r.payload.value.lines.value)
      && r'.technician == r.technician && r'.key == r.key && r'.dispute == r.dispute && r'.status == Approved
  {
    hide NumberLines, AllKnown;
    if id in w.requests && ParsePayload(w.requests[id].payload).Some? { NumberedLists(ParsePayload(w.requests[id].payload).value.lines, w.nextId); }
  }

  // A technician's change request on an approved request, and its approval, however
  // much later: the request asks for exactly what the technician asked for.
  lemma {:induction false} ChangeIsApproved(w: Desk, tech: User, id: nat, dto: UpdateDto, v: Desk, clerk: User)
    requires tech.role == Tech && id in w.requests && w.requests[id].status in {Approved, ChangeRequested}
    requires OnRowStep(w, tech, id, Update(dto)).1 == Done(id)
    requires id in v.requests && OnRowStep(w, tech, id, Update(dto)).0.requests[id] == v.requests[id]
    requires OnRowStep(v, clerk, id, ApproveChanges).1 == Done(id)
    ensures id in OnRowStep(v, clerk, id, ApproveChanges).0.requests
    ensures var (r, r') := (w.requests[id], OnRowStep(v, clerk, id, ApproveChanges).0.requests[id]);
      && Asks(r', Given(dto.direction, r.direction), PickupAsked(dto.pickup, r.pickup), if dto.reason.Some? then dto.reason else r.reason, dto.lines)
      && r'.technician == r.technician && r'.status == Approved
  {
    hide OnRowStep, Lists;
    EditStores(w, tech, id, dto);
    ApprovalStores(v, clerk, id);
  }

  // ---- Refusals ----

  // The call is not for this user: by role, before the request is looked up; or by
  // ownership, some calls only once the status permits them.
  ghost predicate NotTheirs(op: RowOp, user: User, r: Request) {
    match op
    case Update(_) => user.role == Tech && !R.Theirs(user, r) && r.status !in {Finalized, AckPending, Acknowledged, Status.Rejected, Status.Canceled}
    case Acknowledge => !R.Theirs(user, r)
    case Dispute(_) => user.role != Tech || user.technician != Some(r.technician)
    case Withdraw(kind) =>
      && r.status in {Open, Submitted, ApprovalPending, Approved, ChangeRequested}
      && user.role == Tech && (!R.Theirs(user, r) || kind == Some(Refuse))
    case _ => false
  }

  predicate ForClerks(op: RowOp) {
    op.Approve? || op.Deny? || op.ApproveChanges? || op.DenyChanges? || op.ResolveDispute? || op.SendBack?
  }

  // Of a request that is not on file, or not for the user, a call says so; it names an
  // unknown product only where nothing else is wrong; any other refusal is a bad
  // request, in every reachable state.
  lemma {:induction false} Refusals(w: Desk, steps: seq<Step>, user: User, id: nat, op: RowOp)
    requires Initial(w)
    ensures var v := Run(w, steps);
      var o := OnRowStep(v, user, id, op).1;
      && (o == Forbidden <==> (ForClerks(op) && user.role == Tech) || (id in v.requests && NotTheirs(op, user, v.requests[id])))
      && (o == NotFound <==> id !in v.requests && !(ForClerks(op) && user.role == Tech))
      && (o == UnknownProduct ==> op.Update? || op.ApproveChanges?)
      && (o == UnknownProduct && op.Update? ==> exists i :: 0 <= i < |op.dto.lines| && op.dto.lines[i].product !in v.catalog)
      && o in {Done(id), Forbidden, NotFound, UnknownProduct, BadRequest}
  {
    hide Run, NumberLines, LinesOk;
    var v := Run(w, steps);
    R.ApproveChangesParses(w, steps, user, id);
    if op.Update? && !AllKnown(op.dto.lines, v.catalog.Keys) {
      var l :| l in op.dto.lines && l.product !in v.catalog;
      var i :| 0 <= i < |op.dto.lines| && op.dto.lines[i] == l;
    }
  }

  // Why a creation makes no request: it is for another technician; it lists nothing or
  // has no date, or its technician is gone or inactive; its empty key is taken; or a
  // product is unknown. A key that was used answers with its request.
  lemma {:induction false} CreateRefusals(w: Desk, user: User, dto: CreateDto)
    requires RowsOk(w) && KeysUnique(w)
    ensures var o := CreateStep(w, user, dto).1;
      var (own, form) := (user.role == Tech ==> user.technician == Some(dto.technician), dto.lines != [] && !dto.pickup.InvalidDate?);
      var used := dto.key.Some? && exists id :: id in w.requests && w.requests[id].key == dto.key;
      var staff := dto.technician in w.technicians && w.technicians[dto.technician];
      && (o == Forbidden <==> !own)
      && (o == BadRequest <==> own && (!form || (!staff && !(used && dto.key != Some("")))))
      && (o == Conflict <==> own && form && staff && used && dto.key == Some(""))
      && (own && form && used && dto.key != Some("") ==> o.Done? && o.id in w.requests && w.requests[o.id].key == dto.key && CreateStep(w, user, dto).0 == w)
      && (o.Done? || o in {Forbidden, BadRequest, Conflict, UnknownProduct})
  {
    hide NumberLines, AllKnown, RowOk;
    var empty: string := "";
    assert dto.key.Some? && dto.key.value == empty ==> dto.key == Some(empty);
  }

  // ---- Which requests a finalize takes ----

  // In every reachable state a finalize call is taken exactly for a request that is due
  // and open or submitted, or approved; it answers at once for one already posted.
  lemma {:induction false} FinalizeTakenIff(w: Desk, steps: seq<Step>, call: nat, id: nat)
    requires Initial(w)
    ensures var v := Run(w, steps);
      && (BeginStep(v, call, id).1 == Started <==>
            && id in v.requests && call !in v.inflight
            && (v.requests[id].status == Approved || (v.requests[id].status in {Submitted, Open} && v.requests[id].pickup <= v.now)))
      && (BeginStep(v, call, id).1 == Started ==> BeginStep(v, call, id).0 == v.(inflight := v.inflight[call := Snapshot(id, v.requests[id])]))
      && (BeginStep(v, call, id).1 == Done(id) <==> id in v.requests && v.requests[id].status in {Finalized, AckPending, Acknowledged})
      && (BeginStep(v, call, id).1 != Started ==> BeginStep(v, call, id).0 == v)
  {
    hide Run, LinesOk;
    if id in Run(w, steps).requests { R.RowReachable(w, steps, id); }
  }

  // ---- What a finalize writes ----

  // q base units of the line, by the factor of its unit.
  ghost predicate LineMoves(line: Line, product: Product, q: int) {
    q == Round(line.quantity * UnitBase(product, line.unit) as real)
  }

  // The line's two entries: out of the one place and into the other.
  ghost predicate PairOf(id: nat, r: Request, line: Line, q: int, out: Posting, into: Posting) {
    var truck := "TRUCK:" + r.technician;
    && out == Posting(line.product, if r.direction == Issue then "WAREHOUSE" else truck, -q, Transfer, RequestMove(id, line.id, true))
    && into == Posting(line.product, if r.direction == Issue then truck else "WAREHOUSE", q, Transfer, RequestMove(id, line.id, false))
  }

  // The entries of the lines, in order; a line of a product that is gone has none.
  ghost predicate Writes(ps: seq<Posting>, id: nat, r: Request, lines: seq<Line>, catalog: map<ProductId, Product>) {
    if lines == [] then ps == [] else
      var front, line := lines[..|lines| - 1], lines[|lines| - 1];
      if line.product !in catalog then Writes(ps, id, r, front, catalog)
      else
        && |ps| >= 2 && Writes(ps[..|ps| - 2], id, r, front, catalog)
        && exists q :: LineMoves(line, catalog[line.product], q) && PairOf(id, r, line, q, ps[|ps| - 2], ps[|ps| - 1])
  }

  lemma {:induction false} FinalizeWritesLines(id: nat, r: Request, lines: seq<Line>, catalog: map<ProductId, Product>)
    ensures Writes(FinalizePostings(id, r, lines, catalog), id, r, lines, catalog)
  {
    hide LineBase;
    if lines != [] {
      var front, line := lines[..|lines| - 1], lines[|lines| - 1];
      FinalizeWritesLines(id, r, front, catalog);
      if line.product in catalog {
        E.LineBaseIs(line, catalog);
        assert LineMoves(line, catalog[line.product], LineBase(line, catalog));
        var ps := FinalizePostings(id, r, lines, catalog);
        assert ps[..|ps| - 2] == FinalizePostings(id, r, front, catalog);
      }
    }
  }

  // A commit that goes through appends exactly the entries of the lines that were read,
  // at the factors of the moment, and the request awaits its receipt if it is an issue.
  lemma {:induction false} FinalizeAppends(w: Desk, call: nat, id: nat)
    requires CommitStep(w, call).1 == Done(id)
    ensures call in w.inflight && w.inflight[call].id == id && id in w.requests
    ensures var (row, w') := (w.inflight[call].row, CommitStep(w, call).0);
      && w.store.ledger <= w'.store.ledger
      && Writes(Since(w.store, w'.store), id, row, row.lines, w.catalog)
      && w'.requests == w.requests[id := w.requests[id].(status := if row.direction == Issue then AckPending else Finalized)]
  {
    hide PostAll, FinalizePostings;
    var row := w.inflight[call].row;
    var ps := FinalizePostings(id, row, row.lines, w.catalog);
    FinalizeWritesLines(id, row, row.lines, w.catalog);
    PostAllEffect(w.store, ps);
    assert Since(w.store, CommitStep(w, call).0.store) == ps by {
      var l := CommitStep(w, call).0.store.ledger;
      assert Postings(l[|w.store.ledger|..]) == Postings(l)[|w.store.ledger|..];
    }
  }

  // A line in the checkout unit moves its quantity at the checkout factor.
  lemma {:induction false} CheckoutLineMoves(line: Line, product: Product, q: int)
    requires Normalize(line.unit) == Normalize(product.checkoutLabel) != "" && Normalize(product.checkoutLabel) != Normalize(product.trackingLabel)
    ensures LineMoves(line, product, q) <==> q == Round(line.quantity * product.checkoutToBase as real)
  {
    hide Normalize;
    UnitIsOne(product, line.unit, product.trackingToBase, UnitBase(product, line.unit), product.checkoutToBase);
  }

  // ---- One request from creation to posting ----

  const TWO_LINES := [LineInput("p", 3.0, "pack"), LineInput("q", 5.0, "ea")]
  const STOCKED := Desk(0, Empty, map[], 0, map[], map["p" := PACKED, "q" := PACKED], map["t" := true])
  const ORDER := Step(E.CLERK, Create(CreateDto("t", Issue, None, None, Absent, TWO_LINES)))
  const ORDERED := E.ROW.(lines := [Line(1, "p", 3.0, "pack"), Line(2, "q", 5.0, "ea")])

  lemma {:induction false} OrderIsStored()
    ensures Next(STOCKED, ORDER) == STOCKED.(requests := map[0 := ORDERED], nextId := 3)
  {
    assert TruckScope("t") == "TRUCK:t";
    assert NumberLines(TWO_LINES, 1) == [Line(1, "p", 3.0, "pack"), Line(2, "q", 5.0, "ea")];
    assert Next(STOCKED, ORDER).requests[0] == ORDERED;
  }

  lemma {:induction false} OrderBase()
    ensures LineBase(ORDERED.lines[0], STOCKED.catalog) == 18 && LineBase(ORDERED.lines[1], STOCKED.catalog) == 5
  {
    hide Normalize;
    PackedLabels();
    Whole("pack");
    assert Normalize("pack") == "pack";
  }

  lemma {:induction false} OrderPostings()
    ensures FinalizePostings(0, ORDERED, ORDERED.lines, STOCKED.catalog) ==
      [Posting("p", "WAREHOUSE", -18, Transfer, RequestMove(0, 1, true)), Posting("p", "TRUCK:t", 18, Transfer, RequestMove(0, 1, false)),
       Posting("q", "WAREHOUSE", -5, Transfer, RequestMove(0, 2, true)), Posting("q", "TRUCK:t", 5, Transfer, RequestMove(0, 2, false))]
  {
    hide LineBase;
    OrderBase();
    assert TruckScope("t") == "TRUCK:t";
    var lines := ORDERED.lines;
    assert lines[..1] == [lines[0]] && lines[..1][..0] == [];
    assert FinalizePostings(0, ORDERED, [], STOCKED.catalog) == [];
  }

  // Three packs and five pieces are asked for, and go out as eighteen and five.
  lemma {:induction false} OrderGoesOut()
    ensures Initial(STOCKED)
    ensures var w := Run(STOCKED, [ORDER] + [E.READ0] + [E.POST0]);
      && 0 in w.requests && w.requests[0] == ORDERED.(status := AckPending)
      && OnHand(w.store.balances, "p", "TRUCK:t") == 18 && OnHand(w.store.balances, "p", "WAREHOUSE") == -18
      && OnHand(w.store.balances, "q", "TRUCK:t") == 5 && OnHand(w.store.balances, "q", "WAREHOUSE") == -5
  {
    hide Run, CreateStep, BeginStep, PostAll, FinalizePostings, OnHand;
    R.RunNone(STOCKED);
    E.RunSnoc(STOCKED, [], ORDER);
    assert [] + [ORDER] == [ORDER];
    E.RunSnoc(STOCKED, [ORDER], E.READ0);
    E.RunSnoc(STOCKED, [ORDER] + [E.READ0], E.POST0);
    OrderIsStored();
    OrderIsRead();
    OrderPosts();
  }

  lemma {:induction false} OrderIsRead()
    ensures var w := Next(STOCKED, ORDER); BeginStep(w, 0, 0) == (w.(inflight := map[0 := Snapshot(0, ORDERED)]), Started)
  {
    OrderIsStored();
  }

  lemma {:induction false} OrderPosts()
    ensures var st := PostAll(Empty, FinalizePostings(0, ORDERED, ORDERED.lines, STOCKED.catalog));
      && st.Some?
      && OnHand(st.value.balances, "p", "TRUCK:t") == 18 && OnHand(st.value.balances, "p", "WAREHOUSE") == -18
      && OnHand(st.value.balances, "q", "TRUCK:t") == 5 && OnHand(st.value.balances, "q", "WAREHOUSE") == -5
  {
    hide PostAll, FinalizePostings, OnHand, Net;
    OrderPostings();
    var ps := FinalizePostings(0, ORDERED, ORDERED.lines, STOCKED.catalog);
    assert FreshKeys(Empty.ledger, ps);
    PostAllCommits(Empty, ps);
    PostAllEffect(Empty, ps);
    var p, q, truck: string, shelf: string := "p", "q", "TRUCK:t", "WAREHOUSE";
    assert p != q && |truck| != |shelf|;
    NetOfFour(ps[0], ps[1], ps[2], ps[3], Pair(p, truck));
    NetOfFour(ps[0], ps[1], ps[2], ps[3], Pair(p, shelf));
    NetOfFour(ps[0], ps[1], ps[2], ps[3], Pair(q, truck));
    NetOfFour(ps[0], ps[1], ps[2], ps[3], Pair(q, shelf));
    EmptyHolds();
  }

  lemma {:induction false} NetOfFour(a: Posting, b: Posting, c: Posting, d: Posting, f: Filter)
    ensures Net([a, b, c, d], f) == Part(a, f) + Part(b, f) + Part(c, f) + Part(d, f)
  {
    hide Matches;
    assert [a, b, c, d][..3] == [a, b, c] && [a, b, c][..2] == [a, b] && [a, b][..1] == [a] && [a][..0] == [];
    assert Net([a], f) == Part(a, f);
    assert Net([a, b], f) == Net([a], f) + Part(b, f);
    assert Net([a, b, c], f) == Net([a, b], f) + Part(c, f);
  }

  function Part(p: Posting, f: Filter): int { if Matches(f, p) then p.quantity else 0 }
}
