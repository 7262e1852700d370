// What every reachable state of the transfer-request desk satisfies, whatever the
// order of calls; and, request by request, what a finalize commit can break.
module TransferInvariants {
  import opened Basics
  import opened Ledger
  import opened Units
  import opened TransferRequests

  // ---- Well-formed rows ----

  ghost predicate LinesOk(lines: seq<Line>, nextId: nat, known: set<ProductId>) {
    && lines != []
    && (forall i | 0 <= i < |lines| :: lines[i].id < nextId && lines[i].product in known)
    && (forall i, j | 0 <= i < j < |lines| :: lines[i].id != lines[j].id)
  }

  ghost predicate RowOk(r: Request, now: int, nextId: nat, known: set<ProductId>) {
    && r.fromScope == FromScope(r.direction, r.technician)
    && r.toScope == ToScope(r.direction, r.technician)
    && r.fromScope != r.toScope
    && LinesOk(r.lines, nextId, known)
    && r.status != Disputed
    && r.dispute != ManagerResponded
    && (r.status == ChangeRequested ==> ParsePayload(r.payload).Some? && ParsePayload(r.payload).value.lines != [])
    && (r.status == Submitted ==> r.pickup <= now)
  }

  lemma {:induction false} ScopesDiffer(direction: Direction, technician: string)
    ensures FromScope(direction, technician) != ToScope(direction, technician)
  {
    assert TruckScope(technician)[0] == 'T';
    assert "WAREHOUSE"[0] == 'W';
  }

  lemma {:induction false} NumberedLinesOk(inputs: seq<LineInput>, first: nat, known: set<ProductId>)
    requires inputs != [] && AllKnown(inputs, known)
    ensures LinesOk(NumberLines(inputs, first), first + |inputs|, known)
  {
    forall i | 0 <= i < |inputs| ensures NumberLines(inputs, first)[i].product in known {
      assert inputs[i] in inputs;
    }
  }

  // What applying an edit makes of a row.
  lemma {:induction false} EditedRow(r: Request, e: Edit, status: Status, now: int, first: nat, known: set<ProductId>)
    requires RowOk(r, now, first, known) && e.lines != []
    requires status in {Submitted, ApprovalPending, Approved} && (status == Submitted ==> e.pickup <= now)
    requires ApplyEdit(r, e, status, first, known).Put?
    ensures var Put(row, used) := ApplyEdit(r, e, status, first, known);
      && RowOk(row, now, first + used, known)
      && row.technician == r.technician && row.key == r.key && row.status == status && row.payload.None?
      && (forall i | 0 <= i < |row.lines| :: row.lines[i].id >= first)
  {
    hide LinesOk;
    ScopesDiffer(e.direction, r.technician);
    NumberedLinesOk(e.lines, first, known);
  }

  // The lines stay, and what they are moved by.
  ghost predicate SameLines(r: Request, row: Request) {
    row.lines == r.lines && row.direction == r.direction && row.pickup == r.pickup
  }

  // Either the lines stay, or all are new.
  ghost predicate SameOrNewLines(r: Request, row: Request, first: nat) {
    || (SameLines(r, row) && (row.status == ApprovalPending ==> r.status == ApprovalPending))
    || forall i | 0 <= i < |row.lines| :: row.lines[i].id >= first
  }

  // What an accepted row operation keeps.
  ghost predicate RowKept(r: Request, row: Request, used: nat, now: int, first: nat, known: set<ProductId>) {
    && RowOk(row, now, first + used, known)
    && row.technician == r.technician && row.key == r.key
    && (IsPosted(row.status) <==> IsPosted(r.status))
    && (IsPosted(r.status) ==> SameLines(r, row))
    && SameOrNewLines(r, row, first)
  }

  lemma {:induction false} UpdateKeepsRow(r: Request, user: User, dto: UpdateDto, now: int, first: nat, known: set<ProductId>)
    requires RowOk(r, now, first, known) && UpdateRow(r, user, dto, now, first, known).Put?
    ensures var Put(row, used) := UpdateRow(r, user, dto, now, first, known); RowKept(r, row, used, now, first, known)
  {
    hide ApplyEdit, LinesOk, AllKnown;
    var e := BuildEdit(dto, r).value;
    var status := PendingOrSubmitted(e.pickup, now);
    if ApplyEdit(r, e, status, first, known).Put? { EditedRow(r, e, status, now, first, known); }
  }

  lemma {:induction false} RowOpKeeps(r: Request, user: User, op: RowOp, now: int, first: nat, known: set<ProductId>)
    requires RowOk(r, now, first, known) && DoRow(r, user, op, now, first, known).Put?
    ensures var Put(row, used) := DoRow(r, user, op, now, first, known); RowKept(r, row, used, now, first, known)
  {
    hide ApplyEdit, UpdateRow, LinesOk, AllKnown;
    match op
    case Update(dto) => UpdateKeepsRow(r, user, dto, now, first, known);
    case ApproveChanges => EditedRow(r, ParsePayload(r.payload).value, Approved, now, first, known);
    case _ =>
  }

  // ---- Exactly-once posting ----

  ghost function Moves(st: Store, id: nat): seq<Posting> {
    Select(Postings(st.ledger), OfRequest(id))
  }

  // One OUT and one IN entry per line, opposite quantities, in line order.
  ghost predicate PairsOf(ps: seq<Posting>, id: nat, r: Request, lines: seq<Line>) {
    && |ps| == 2 * |lines|
    && forall i | 0 <= i < |lines| :: PairAt(ps, id, r, lines, i)
  }

  ghost predicate PairAt(ps: seq<Posting>, id: nat, r: Request, lines: seq<Line>, i: nat)
    requires i < |lines| && |ps| == 2 * |lines|
  {
    var q := ps[2 * i + 1].quantity;
    ps[2 * i] == MovePosting(id, r, lines[i], q, true) && ps[2 * i + 1] == MovePosting(id, r, lines[i], q, false)
  }

  ghost predicate PostedOnce(w: Desk, id: nat) {
    if id in w.requests && IsPosted(w.requests[id].status)
    then PairsOf(Moves(w.store, id), id, w.requests[id], w.requests[id].lines)
    else Moves(w.store, id) == []
  }

  lemma {:induction false} SelectedAreThere(ps: seq<Posting>, f: Filter, p: Posting)
    ensures p in Select(ps, f) <==> p in ps && Matches(f, p)
  {
    if ps != [] {
      var front := ps[..|ps| - 1];
      SelectedAreThere(front, f, p);
      assert ps == front + [ps[|ps| - 1]];
    }
  }

  // A request's keys are in the ledger only if it has moves there.
  lemma {:induction false} KeyMeansMove(st: Store, id: nat, key: Key)
    requires key.RequestMove? && key.request == id
    ensures key in Keys(st.ledger) <==> exists p :: p in Moves(st, id) && p.key == key
  {
    if key in Keys(st.ledger) {
      var e :| e in st.ledger && e.posting.key == key;
      var i :| 0 <= i < |st.ledger| && st.ledger[i] == e;
      assert Postings(st.ledger)[i] == e.posting;
      SelectedAreThere(Postings(st.ledger), OfRequest(id), e.posting);
    }
    if p :| p in Moves(st, id) && p.key == key {
      SelectedAreThere(Postings(st.ledger), OfRequest(id), p);
      var i :| 0 <= i < |st.ledger| && Postings(st.ledger)[i] == p;
      assert st.ledger[i] in st.ledger;
    }
  }

  lemma {:induction false} FinalizePairs(id: nat, r: Request, lines: seq<Line>, catalog: map<ProductId, Product>)
    requires forall i | 0 <= i < |lines| :: lines[i].product in catalog
    ensures PairsOf(FinalizePostings(id, r, lines, catalog), id, r, lines)
    ensures forall p | p in FinalizePostings(id, r, lines, catalog) :: Matches(OfRequest(id), p)
    ensures forall i | 0 <= i < |lines| ::
      |FinalizePostings(id, r, lines, catalog)| == 2 * |lines| &&
      FinalizePostings(id, r, lines, catalog)[2 * i + 1].quantity == LineBase(lines[i], catalog)
  {
    if lines != [] {
      var front := lines[..|lines| - 1];
      FinalizePairs(id, r, front, catalog);
      var ps, fs := FinalizePostings(id, r, lines, catalog), FinalizePostings(id, r, front, catalog);
      forall i | 0 <= i < |lines| ensures PairAt(ps, id, r, lines, i) && ps[2 * i + 1].quantity == LineBase(lines[i], catalog) {
        if i < |front| {
          assert PairAt(fs, id, r, front, i);
          assert ps[2 * i] == fs[2 * i] && ps[2 * i + 1] == fs[2 * i + 1];
        }
      }
    }
  }

  // With distinct line ids the pairs carry distinct keys.
  lemma {:induction false} PairKeysDistinct(ps: seq<Posting>, id: nat, r: Request, lines: seq<Line>)
    requires PairsOf(ps, id, r, lines)
    requires forall i, j | 0 <= i < j < |lines| :: lines[i].id != lines[j].id
    ensures forall a, b | 0 <= a < b < |ps| :: ps[a].key != ps[b].key
  {
    forall a, b | 0 <= a < b < |ps| ensures ps[a].key != ps[b].key {
      assert PairAt(ps, id, r, lines, a / 2) && PairAt(ps, id, r, lines, b / 2);
      assert a == 2 * (a / 2) || a == 2 * (a / 2) + 1;
      assert b == 2 * (b / 2) || b == 2 * (b / 2) + 1;
    }
  }

  lemma {:induction false} MovesAfter(st: Store, ps: seq<Posting>, id: nat)
    requires PostAll(st, ps).Some?
    ensures Moves(PostAll(st, ps).value, id) == Moves(st, id) + Select(ps, OfRequest(id))
  {
    PostAllEffect(st, ps);
    SelectConcat(Postings(st.ledger), ps, OfRequest(id));
  }

  lemma {:induction false} PairsSameRow(ps: seq<Posting>, id: nat, r: Request, r': Request, lines: seq<Line>)
    requires PairsOf(ps, id, r, lines) && r'.direction == r.direction && r'.technician == r.technician
    ensures PairsOf(ps, id, r', lines)
  {
    forall i | 0 <= i < |lines| ensures PairAt(ps, id, r', lines, i) {
      assert PairAt(ps, id, r, lines, i);
    }
  }

  // The postings of one commit, seen from every request.
  lemma {:induction false} CommitMoves(st: Store, id: nat, row: Request, catalog: map<ProductId, Product>, k: nat)
    requires forall i | 0 <= i < |row.lines| :: row.lines[i].product in catalog
    requires PostAll(st, FinalizePostings(id, row, row.lines, catalog)).Some?
    ensures var ps := FinalizePostings(id, row, row.lines, catalog);
      Moves(PostAll(st, ps).value, k) == if k == id then Moves(st, k) + ps else Moves(st, k)
  {
    var ps := FinalizePostings(id, row, row.lines, catalog);
    FinalizePairs(id, row, row.lines, catalog);
    MovesAfter(st, ps, k);
    if k == id { SelectAll(ps, OfRequest(id)); } else { SelectNone(ps, OfRequest(k)); }
  }

  lemma {:induction false} ForeignMoves(st: Store, ps: seq<Posting>, id: nat)
    requires !exists p | p in ps :: p.key.RequestMove?
    ensures Moves(Commit(st, ps), id) == Moves(st, id)
  {
    if PostAll(st, ps).Some? {
      MovesAfter(st, ps, id);
      SelectNone(ps, OfRequest(id));
      assert Moves(st, id) + [] == Moves(st, id);
    }
  }

  // ---- Finalize calls in flight ----

  // What a call read is still on the row, or every line has been replaced since.
  ghost predicate CurrentOrReplaced(read: Request, r: Request) {
    || (read.lines == r.lines && read.direction == r.direction && r.status != ApprovalPending)
    || forall i, j | 0 <= i < |read.lines| && 0 <= j < |r.lines| :: read.lines[i].id != r.lines[j].id
  }

  ghost predicate SnapshotOk(w: Desk, snap: Snapshot) {
    && snap.id in w.requests
    && var r := w.requests[snap.id];
    && snap.row.technician == r.technician
    && LinesOk(snap.row.lines, w.nextId, w.catalog.Keys)
    && Ready(snap.row.status) && snap.row.status != Disputed
    && (snap.row.pickup <= w.now || snap.row.status == Approved)
    && CurrentOrReplaced(snap.row, r)
  }

  ghost predicate RowsOk(w: Desk) {
    forall id | id in w.requests :: id < w.nextId && RowOk(w.requests[id], w.now, w.nextId, w.catalog.Keys)
  }

  ghost predicate KeysUnique(w: Desk) {
    forall a, b | a in w.requests && b in w.requests && w.requests[a].key.Some? && w.requests[a].key == w.requests[b].key :: a == b
  }

  ghost predicate SnapshotsOk(w: Desk) {
    forall call | call in w.inflight :: SnapshotOk(w, w.inflight[call])
  }

  ghost predicate Inv(w: Desk) {
    RowsOk(w) && KeysUnique(w) && SnapshotsOk(w)
  }

  // ---- Each step keeps them, in every order ----

  // Rows stay well formed as time passes, ids are used up and products appear.
  lemma {:induction false} RowsGrow(w: Desk, w': Desk, id: nat)
    requires RowsOk(w) && w.now <= w'.now && w.nextId <= w'.nextId && w.catalog.Keys <= w'.catalog.Keys
    requires forall k | k in w'.requests && k != id :: k in w.requests && w'.requests[k] == w.requests[k]
    requires id in w'.requests ==> id < w'.nextId && RowOk(w'.requests[id], w'.now, w'.nextId, w'.catalog.Keys)
    ensures RowsOk(w')
  {
    forall k | k in w'.requests ensures k < w'.nextId && RowOk(w'.requests[k], w'.now, w'.nextId, w'.catalog.Keys) {
      if k != id { assert RowOk(w.requests[k], w.now, w.nextId, w.catalog.Keys); }
    }
  }

  // A snapshot stays good while its row only changes as an accepted operation may.
  lemma {:induction false} SnapshotKept(w: Desk, w': Desk, snap: Snapshot)
    requires SnapshotOk(w, snap) && snap.id in w'.requests
    requires w.now <= w'.now && w.nextId <= w'.nextId && w.catalog.Keys <= w'.catalog.Keys
    requires w'.requests[snap.id].technician == w.requests[snap.id].technician
    requires SameOrNewLines(w.requests[snap.id], w'.requests[snap.id], w.nextId)
    ensures SnapshotOk(w', snap)
  {}

  lemma {:induction false} SnapshotsKept(w: Desk, w': Desk)
    requires SnapshotsOk(w)
    requires forall c | c in w'.inflight :: c in w.inflight && w'.inflight[c] == w.inflight[c]
    requires forall k | k in w.requests :: k in w'.requests && w'.requests[k] == w.requests[k]
    requires w.now <= w'.now && w.nextId <= w'.nextId && w.catalog.Keys <= w'.catalog.Keys
    ensures SnapshotsOk(w')
  {
    hide SnapshotOk;
    forall c | c in w'.inflight ensures SnapshotOk(w', w'.inflight[c]) {
      assert SnapshotOk(w, w.inflight[c]);
      SnapshotHasRow(w, w.inflight[c]);
      SnapshotKept(w, w', w.inflight[c]);
    }
  }

  lemma {:induction false} SnapshotHasRow(w: Desk, snap: Snapshot)
    requires SnapshotOk(w, snap)
    ensures snap.id in w.requests
  {}

  lemma {:induction false} OnRowKeeps(w: Desk, user: User, id: nat, op: RowOp)
    requires Inv(w)
    ensures Inv(OnRowStep(w, user, id, op).0)
  {
    hide DoRow, RowOk, SameOrNewLines, SnapshotOk;
    var w' := OnRowStep(w, user, id, op).0;
    if id in w.requests && DoRow(w.requests[id], user, op, w.now, w.nextId, w.catalog.Keys).Put? {
      RowOpKeeps(w.requests[id], user, op, w.now, w.nextId, w.catalog.Keys);
      RowsGrow(w, w', id);
      forall c | c in w'.inflight ensures SnapshotOk(w', w'.inflight[c]) {
        assert SnapshotOk(w, w.inflight[c]);
        SnapshotHasRow(w, w.inflight[c]);
        SameRowLines(w.requests[w.inflight[c].id], w.nextId);
        SnapshotKept(w, w', w.inflight[c]);
      }
    }
  }

  lemma {:induction false} SameRowLines(r: Request, first: nat)
    ensures SameOrNewLines(r, r, first)
  {}

  lemma {:induction false} CreateKeeps(w: Desk, user: User, dto: CreateDto)
    requires Inv(w)
    ensures Inv(CreateStep(w, user, dto).0)
  {
    hide SnapshotOk, LinesOk, AllKnown;
    var w' := CreateStep(w, user, dto).0;
    if w' != w {
      ScopesDiffer(dto.direction, dto.technician);
      NumberedLinesOk(dto.lines, w.nextId + 1, w.catalog.Keys);
      RowsGrow(w, w', w.nextId);
      SnapshotsKept(w, w');
    }
  }

  lemma {:induction false} BeginOnlyReads(w: Desk, call: nat, id: nat)
    ensures var w' := BeginStep(w, call, id).0; w' == w.(inflight := w'.inflight)
  {}

  lemma {:induction false} BeginKeeps(w: Desk, call: nat, id: nat)
    requires Inv(w)
    ensures Inv(BeginStep(w, call, id).0)
  {
    hide SnapshotOk;
    var w' := BeginStep(w, call, id).0;
    BeginOnlyReads(w, call, id);
    RowsGrow(w, w', w.nextId);
    forall c | c in w'.inflight ensures SnapshotOk(w', w'.inflight[c]) {
      if c in w.inflight && w'.inflight[c] == w.inflight[c] {
        SnapshotHasRow(w, w.inflight[c]);
        SnapshotKept(w, w', w.inflight[c]);
      } else {
        FreshSnapshot(w, call, id);
      }
    }
  }

  lemma {:induction false} FreshSnapshot(w: Desk, call: nat, id: nat)
    requires RowsOk(w) && BeginStep(w, call, id).0 != w
    ensures id in w.requests && SnapshotOk(BeginStep(w, call, id).0, Snapshot(id, w.requests[id]))
  {
    assert RowOk(w.requests[id], w.now, w.nextId, w.catalog.Keys);
  }

  // A commit changes at most one status, to a posted one.
  ghost predicate OneStatus(w: Desk, w': Desk, id: nat, d: Direction) {
    id in w.requests && w'.requests == w.requests[id := w.requests[id].(status := PostedStatus(d))]
  }

  lemma {:induction false} CommitShape(w: Desk, call: nat)
    ensures var w' := CommitStep(w, call).0;
      && w' == w.(store := w'.store, requests := w'.requests, inflight := w'.inflight)
      && (forall c | c in w'.inflight :: c in w.inflight && w'.inflight[c] == w.inflight[c])
      && ((w'.requests == w.requests && w'.store == w.store)
          || (call in w.inflight && OneStatus(w, w', w.inflight[call].id, w.inflight[call].row.direction)))
  {
    hide PostAll, FinalizePostings;
  }

  lemma {:induction false} StatusKeeps(w: Desk, w': Desk, id: nat, d: Direction)
    requires Inv(w) && OneStatus(w, w', id, d)
    requires w' == w.(store := w'.store, requests := w'.requests, inflight := w'.inflight)
    requires forall c | c in w'.inflight :: c in w.inflight && w'.inflight[c] == w.inflight[c]
    ensures Inv(w')
  {
    hide SnapshotOk, LinesOk;
    assert RowOk(w.requests[id], w.now, w.nextId, w.catalog.Keys);
    RowsGrow(w, w', id);
    forall c | c in w'.inflight ensures SnapshotOk(w', w'.inflight[c]) {
      SnapshotHasRow(w, w.inflight[c]);
      SnapshotKept(w, w', w.inflight[c]);
    }
  }

  lemma {:induction false} CommitKeeps(w: Desk, call: nat)
    requires Inv(w)
    ensures Inv(CommitStep(w, call).0)
  {
    hide CommitStep, SnapshotOk, RowOk, PostedStatus;
    var w' := CommitStep(w, call).0;
    CommitShape(w, call);
    if w'.requests == w.requests && w'.store == w.store {
      RowsGrow(w, w', w.nextId);
      SnapshotsKept(w, w');
    } else {
      StatusKeeps(w, w', w.inflight[call].id, w.inflight[call].row.direction);
    }
  }

  // Ticks, catalog and technician changes, crashes and other services' postings.
  lemma {:induction false} EnvKeeps(w: Desk, s: Step)
    requires Inv(w) && !s.action.Create? && !s.action.OnRow? && !s.action.BeginFinalize? && !s.action.CommitFinalize?
    ensures Inv(Next(w, s))
  {
    hide RowOk, SnapshotOk, Commit, KeysUnique;
    var w' := Next(w, s);
    assert w'.requests == w.requests && w'.nextId == w.nextId;
    SameRows(w, w');
    SnapshotsKept(w, w');
  }

  lemma {:induction false} SameRows(w: Desk, w': Desk)
    requires RowsOk(w) && KeysUnique(w) && w'.requests == w.requests
    requires w.now <= w'.now && w.nextId <= w'.nextId && w.catalog.Keys <= w'.catalog.Keys
    ensures RowsOk(w') && KeysUnique(w')
  {
    hide RowOk;
    RowsGrow(w, w', w.nextId);
  }

  lemma {:induction false} StepKeeps(w: Desk, s: Step)
    requires Inv(w)
    ensures Inv(Next(w, s))
  {
    hide Inv, CreateStep, OnRowStep, BeginStep, CommitStep;
    match s.action
    case Create(dto) => CreateKeeps(w, s.user, dto);
    case OnRow(id, op) => OnRowKeeps(w, s.user, id, op);
    case BeginFinalize(call, id) => BeginKeeps(w, call, id);
    case CommitFinalize(call) => CommitKeeps(w, call);
    case _ => EnvKeeps(w, s);
  }

  // The invariant of every run.
  lemma {:induction false} RunKeeps(w: Desk, steps: seq<Step>)
    requires Inv(w)
    ensures Inv(Run(w, steps))
  {
    hide Inv, Next;
    if steps != [] {
      RunKeeps(w, steps[..|steps| - 1]);
      StepKeeps(Run(w, steps[..|steps| - 1]), steps[|steps| - 1]);
    }
  }

  lemma {:induction false} InitialInv(w: Desk)
    requires Initial(w)
    ensures Inv(w)
  {}

  // Every step is a transaction of the ledger or leaves it alone.
  lemma {:induction false} StepAgrees(w: Desk, s: Step)
    requires Agrees(w.store)
    ensures Agrees(Next(w, s).store)
  {
    hide Agrees, PostAll, FinalizePostings, DoRow, AllKnown;
    match s.action
    case CommitFinalize(call) =>
      if call in w.inflight {
        var row := w.inflight[call].row;
        PostAllAgrees(w.store, FinalizePostings(w.inflight[call].id, row, row.lines, w.catalog));
      }
    case Foreign(ps) => PostAllAgrees(w.store, ps);
    case _ =>
  }

  lemma {:induction false} RunAgrees(w: Desk, steps: seq<Step>)
    requires Agrees(w.store)
    ensures Agrees(Run(w, steps).store)
  {
    hide Agrees, Next;
    if steps != [] {
      RunAgrees(w, steps[..|steps| - 1]);
      StepAgrees(Run(w, steps[..|steps| - 1]), steps[|steps| - 1]);
    }
  }

  // ---- What a commit can break, and exactly when ----

  // A commit of a request posted once so far posts exactly when the request is not
  // posted yet or its lines were replaced since the call read them.
  lemma {:induction false} CommitExactly(w: Desk, call: nat)
    requires Inv(w) && call in w.inflight && PostedOnce(w, w.inflight[call].id)
    ensures var Snapshot(id, row) := w.inflight[call];
      && id in w.requests
      && (CommitStep(w, call).1 == Done(id) <==> !IsPosted(w.requests[id].status) || row.lines != w.requests[id].lines)
      && (CommitStep(w, call).1 != Done(id) ==> CommitStep(w, call).0 == w.(inflight := w.inflight - {call}))
  {
    var Snapshot(id, row) := w.inflight[call];
    assert SnapshotOk(w, w.inflight[call]);
    var r, ps := w.requests[id], FinalizePostings(id, row, row.lines, w.catalog);
    PairsFresh(w, call);
  }

  lemma {:induction false} PairsFresh(w: Desk, call: nat)
    requires SnapshotsOk(w) && call in w.inflight && PostedOnce(w, w.inflight[call].id)
    ensures var Snapshot(id, row) := w.inflight[call];
      && id in w.requests
      && (PostAll(w.store, FinalizePostings(id, row, row.lines, w.catalog)).Some?
          <==> !IsPosted(w.requests[id].status) || row.lines != w.requests[id].lines)
  {
    hide IsPosted;
    var Snapshot(id, row) := w.inflight[call];
    assert SnapshotOk(w, w.inflight[call]);
    var r, ps := w.requests[id], FinalizePostings(id, row, row.lines, w.catalog);
    FinalizePairs(id, row, row.lines, w.catalog);
    PairKeysDistinct(ps, id, row, row.lines);
    PostAllCommits(w.store, ps);
    if IsPosted(r.status) && row.lines == r.lines {
      TakenKey(w.store, id, r, row, ps);
    } else {
      forall i | 0 <= i < |ps| ensures ps[i].key !in Keys(w.store.ledger) { FreeKey(w, call, ps, i); }
    }
  }

  lemma {:induction false} TakenKey(st: Store, id: nat, r: Request, row: Request, ps: seq<Posting>)
    requires row.lines == r.lines != [] && PairsOf(Moves(st, id), id, r, r.lines) && PairsOf(ps, id, row, row.lines)
    ensures ps[0].key in Keys(st.ledger)
  {
    hide Moves;
    assert PairAt(Moves(st, id), id, r, r.lines, 0) && PairAt(ps, id, row, row.lines, 0);
    assert Moves(st, id)[0] in Moves(st, id);
    KeyMeansMove(st, id, ps[0].key);
  }

  lemma {:induction false} FreeKey(w: Desk, call: nat, ps: seq<Posting>, i: nat)
    requires SnapshotsOk(w) && call in w.inflight && PostedOnce(w, w.inflight[call].id)
    requires var Snapshot(id, row) := w.inflight[call];
      && id in w.requests && PairsOf(ps, id, row, row.lines) && i < |ps|
      && (!IsPosted(w.requests[id].status) || row.lines != w.requests[id].lines)
    ensures ps[i].key !in Keys(w.store.ledger)
  {
    hide Moves;
    var Snapshot(id, row) := w.inflight[call];
    assert SnapshotOk(w, w.inflight[call]);
    var r, ms := w.requests[id], Moves(w.store, id);
    assert PairAt(ps, id, row, row.lines, i / 2);
    assert i == 2 * (i / 2) || i == 2 * (i / 2) + 1;
    KeyMeansMove(w.store, id, ps[i].key);
    forall p | p in ms ensures p.key != ps[i].key {
      var j :| 0 <= j < |ms| && ms[j] == p;
      assert PairAt(ms, id, r, r.lines, j / 2);
      assert j == 2 * (j / 2) || j == 2 * (j / 2) + 1;
    }
  }

  // Four things every request has. The first three can be broken by a commit of it,
  // the last one by none.
  datatype Aspect =
    | Once       // posted exactly once, or not at all
    | Directed   // ACK_PENDING and ACKNOWLEDGED are issues, FINALIZED is a return
    | Payloads   // a change request is stored only where it is pending or was closed with the request
    | Disputes   // only posted requests have been disputed

  ghost predicate Holds(a: Aspect, w: Desk, id: nat) {
    match a
    case Once => PostedOnce(w, id)
    case Directed => id in w.requests ==>
      && (w.requests[id].status in {AckPending, Acknowledged} ==> w.requests[id].direction == Issue)
      && (w.requests[id].status == Finalized ==> w.requests[id].direction == Return)
    case Payloads => id in w.requests && w.requests[id].payload.Some? ==>
      w.requests[id].status in {ChangeRequested, Status.Rejected, Status.Canceled}
    case Disputes => id in w.requests && w.requests[id].dispute != NoDispute ==> IsPosted(w.requests[id].status)
  }

  // The step is a commit of the request that goes through.
  ghost predicate Posts(w: Desk, s: Step, id: nat) {
    s.action.CommitFinalize? && s.action.call in w.inflight && w.inflight[s.action.call].id == id && Do(w, s).1 == Done(id)
  }

  // What the commit finds on the row is what the call read.
  ghost predicate Fits(a: Aspect, w: Desk, call: nat) {
    && call in w.inflight && w.inflight[call].id in w.requests
    && var read, r := w.inflight[call].row, w.requests[w.inflight[call].id];
    match a
    case Once => !IsPosted(r.status) && read.lines == r.lines
    case Directed => read.direction == r.direction
    case Payloads => r.payload.None?
    case Disputes => true
  }

  lemma {:induction false} CommitHoldsIff(a: Aspect, w: Desk, call: nat, id: nat)
    requires Inv(w) && Holds(a, w, id) && call in w.inflight && w.inflight[call].id == id && CommitStep(w, call).1 == Done(id)
    ensures Holds(a, CommitStep(w, call).0, id) <==> Fits(a, w, call)
  {
    hide PostAll, FinalizePostings, PostedOnce, RowsOk, KeysUnique;
    assert SnapshotOk(w, w.inflight[call]);
    if a == Once { CommitOnceIff(w, call); }
  }

  lemma {:induction false} FirstPair(ps: seq<Posting>, id: nat, r: Request, lines: seq<Line>)
    ensures PairsOf(ps, id, r, lines) && lines != [] ==> ps != [] && ps[0].key == RequestMove(id, lines[0].id, true)
  {
    if PairsOf(ps, id, r, lines) && lines != [] { assert PairAt(ps, id, r, lines, 0); }
  }

  lemma {:induction false} SameLinesSameWay(read: Request, r: Request)
    requires CurrentOrReplaced(read, r) && read.lines == r.lines != []
    ensures read.direction == r.direction
  {
    assert read.lines[0].id == r.lines[0].id;
  }

  lemma {:induction false} CommitOnceIff(w: Desk, call: nat)
    requires SnapshotsOk(w) && call in w.inflight && PostedOnce(w, w.inflight[call].id)
    requires CommitStep(w, call).1 == Done(w.inflight[call].id)
    ensures PostedOnce(CommitStep(w, call).0, w.inflight[call].id) <==> Fits(Once, w, call)
  {
    hide Moves, PostAll, FinalizePostings;
    var Snapshot(id, row) := w.inflight[call];
    assert SnapshotOk(w, w.inflight[call]);
    var r, w', ps := w.requests[id], CommitStep(w, call).0, FinalizePostings(id, row, row.lines, w.catalog);
    FinalizePairs(id, row, row.lines, w.catalog);
    CommitMoves(w.store, id, row, w.catalog, id);
    assert Moves(w'.store, id) == Moves(w.store, id) + ps;
    if !IsPosted(r.status) {
      assert Moves(w'.store, id) == ps;
      if row.lines == r.lines {
        SameLinesSameWay(row, r);
        PairsSameRow(ps, id, row, w'.requests[id], row.lines);
      } else {
        FirstPair(ps, id, row, row.lines);
        FirstPair(ps, id, w'.requests[id], r.lines);
      }
    }
  }

  // Other requests, and other steps, never lose it.
  lemma {:induction false} OnRowHolds(a: Aspect, w: Desk, user: User, k: nat, op: RowOp, id: nat)
    requires RowsOk(w) && Holds(a, w, id)
    ensures Holds(a, OnRowStep(w, user, k, op).0, id)
  {
    hide Moves, PairsOf, RowOk;
    if k in w.requests && DoRow(w.requests[k], user, op, w.now, w.nextId, w.catalog.Keys).Put? {
      RowOpKeeps(w.requests[k], user, op, w.now, w.nextId, w.catalog.Keys);
      if a == Once && k == id && IsPosted(w.requests[id].status) {
        PairsSameRow(Moves(w.store, id), id, w.requests[id], OnRowStep(w, user, k, op).0.requests[id], w.requests[id].lines);
      }
    }
  }

  lemma {:induction false} SameLedgerHolds(a: Aspect, w: Desk, w': Desk, id: nat)
    requires Holds(a, w, id) && Moves(w'.store, id) == Moves(w.store, id)
    requires id in w.requests ==> id in w'.requests && w'.requests[id] == w.requests[id]
    requires id !in w.requests && id in w'.requests ==> !IsPosted(w'.requests[id].status) && w'.requests[id].payload.None? && w'.requests[id].dispute == NoDispute
    ensures Holds(a, w', id)
  {}

  lemma {:induction false} OtherCommit(a: Aspect, w: Desk, s: Step, id: nat)
    requires Inv(w) && Holds(a, w, id) && s.action.CommitFinalize? && !Posts(w, s, id)
    ensures Holds(a, Next(w, s), id)
  {
    hide Moves, PostAll, FinalizePostings, PairsOf, RowsOk, KeysUnique;
    var call := s.action.call;
    CommitShape(w, call);
    if CommitStep(w, call).0.requests != w.requests || CommitStep(w, call).0.store != w.store {
      var Snapshot(k, row) := w.inflight[call];
      assert SnapshotOk(w, w.inflight[call]);
      CommitMoves(w.store, k, row, w.catalog, id);
    }
    SameLedgerHolds(a, w, Next(w, s), id);
  }

  // A step keeps it exactly if, when it commits the request, the commit fits.
  lemma {:induction false} StepHoldsIff(a: Aspect, w: Desk, s: Step, id: nat)
    requires Inv(w) && Holds(a, w, id)
    ensures Holds(a, Next(w, s), id) <==> (Posts(w, s, id) ==> Fits(a, w, s.action.call))
  {
    hide Holds, Fits, Moves, PostAll, FinalizePostings, CommitStep, OnRowStep, SnapshotsOk, RowsOk, KeysUnique;
    match s.action
    case OnRow(k, op) => OnRowHolds(a, w, s.user, k, op, id);
    case CommitFinalize(call) =>
      if Posts(w, s, id) { CommitHoldsIff(a, w, call, id); } else { OtherCommit(a, w, s, id); }
    case _ => OtherStepHolds(a, w, s, id);
  }

  lemma {:induction false} OtherStepHolds(a: Aspect, w: Desk, s: Step, id: nat)
    requires RowsOk(w) && Holds(a, w, id) && !s.action.OnRow? && !s.action.CommitFinalize?
    ensures Holds(a, Next(w, s), id)
  {
    hide Moves, Commit, Holds, RowOk, AllKnown;
    if s.action.BeginFinalize? { BeginOnlyReads(w, s.action.call, s.action.request); }
    if s.action.Foreign? && !exists p | p in s.action.postings :: p.key.RequestMove? { ForeignMoves(w.store, s.action.postings, id); }
    assert id in w.requests ==> id < w.nextId;
    SameLedgerHolds(a, w, Next(w, s), id);
  }
}
