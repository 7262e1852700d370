// Calls on a request row read the row, decide, and write it in a later statement;
// any call may run in between. This machine splits them, and says what an overlap
// can and cannot break.
module TransferOverlaps {
  import opened Basics
  import opened Ledger
  import opened Units
  import opened TransferRequests
  import opened TransferInvariants
  import D = TransferRequests
  import E = TransferEffects
  import R = TransferRuns

  // What a row call writes, once its guards have passed on the row it read. Whether a
  // pickup is in the future is asked at the write.
  datatype Write =
    | ToStatus(status: Status, clear: bool)
    | StoreChange(payload: Payload)
    | ToDispute(dispute: DisputeStatus)
    | Replace(edit: Edit, approved: bool)

  datatype Decision = Refused(outcome: Outcome) | Decided(write: Write)

  function DecideUpdate(r: Request, user: User, dto: UpdateDto): Decision {
    var edit := BuildEdit(dto, r);
    if r.status in CLOSED then Refused(BadRequest)
    else if user.role == Tech && !Owns(user, r) then Refused(Forbidden)
    else if r.status !in NON_TECH_EDIT then Refused(BadRequest)
    else if edit.None? then Refused(BadRequest)
    else if user.role == Tech && r.status in {Approved, ChangeRequested} then
      Decided(StoreChange(Payload(Some(edit.value.direction), edit.value.reason, Some(edit.value.pickup), Some(edit.value.lines))))
    else Decided(Replace(edit.value, false))
  }

  function DecideWithdraw(r: Request, user: User, kind: Option<CancelKind>): Decision {
    match WithdrawRow(r, user, kind)
    case Reject(o) => Refused(o)
    case Put(row, _) => Decided(ToStatus(row.status, false))
  }

  function Decide(r: Request, user: User, op: RowOp): Decision {
    if NeedsWarehouseRole(op) && user.role == Tech then Refused(Forbidden) else
    match op
    case Update(dto) => DecideUpdate(r, user, dto)
    case Approve => if r.status != ApprovalPending then Refused(BadRequest) else Decided(ToStatus(Approved, false))
    case Deny => if r.status != ApprovalPending then Refused(BadRequest) else Decided(ToStatus(Status.Rejected, false))
    case ApproveChanges =>
      if r.status != ChangeRequested then Refused(BadRequest)
      else if ParsePayload(r.payload).None? then Refused(BadPayload)
      else Decided(Replace(ParsePayload(r.payload).value, true))
    case DenyChanges => if r.status != ChangeRequested then Refused(BadRequest) else Decided(ToStatus(Approved, true))
    case Acknowledge =>
      if !Owns(user, r) then Refused(Forbidden)
      else if r.status != AckPending then Refused(BadRequest)
      else Decided(ToStatus(Acknowledged, false))
    case Dispute(noteMissing) =>
      if user.role != Tech || user.technician != Some(r.technician) then Refused(Forbidden)
      else if r.status != AckPending && r.status != Finalized then Refused(BadRequest)
      else if r.dispute == DisputeOpen || r.dispute == ManagerResponded || noteMissing then Refused(BadRequest)
      else Decided(ToDispute(DisputeOpen))
    case ResolveDispute =>
      if r.dispute != DisputeOpen && r.dispute != ManagerResponded then Refused(BadRequest) else Decided(ToDispute(Resolved))
    case SendBack => if r.status in CLOSED then Refused(BadRequest) else Decided(ToStatus(Open, true))
    case Withdraw(kind) => DecideWithdraw(r, user, kind)
  }

  function Land(r: Request, x: Write, now: int, first: nat, known: set<ProductId>): RowResult {
    match x
    case ToStatus(s, clear) => Put(r.(status := s, payload := if clear then None else r.payload), 0)
    case StoreChange(p) => Put(r.(status := ChangeRequested, payload := Some(p)), 0)
    case ToDispute(d) => Put(r.(dispute := d), 0)
    case Replace(e, approved) => ApplyEdit(r, e, if approved then Approved else PendingOrSubmitted(e.pickup, now), first, known)
  }

  // With nothing in between, reading and writing are the whole call.
  lemma {:induction false} AtOnce(r: Request, user: User, op: RowOp, now: int, first: nat, known: set<ProductId>)
    ensures DoRow(r, user, op, now, first, known) ==
      match Decide(r, user, op) { case Refused(o) => Reject(o) case Decided(x) => Land(r, x, now, first, known) }
  {
    hide ApplyEdit, ParsePayload;
    if op.Update? && r.status in NON_TECH_EDIT { assert r.status !in CLOSED; }
  }

  // ---- The machine ----

  datatype RowCall = RowCall(user: User, id: nat, op: RowOp, read: Request, write: Write)

  datatype Floor = Floor(desk: Desk, calls: map<nat, RowCall>)

  datatype Move =
    | AtDesk(step: Step)   // any step of the desk, whole row calls among them
    | ReadRow(call: nat, user: User, id: nat, op: RowOp)
    | WriteRow(call: nat)
    | CrashRow(call: nat)

  function LandAt(w: Desk, c: RowCall): Desk {
    if c.id !in w.requests then w else
      match Land(w.requests[c.id], c.write, w.now, w.nextId, w.catalog.Keys)
      case Reject(_) => w
      case Put(row, used) => w.(requests := w.requests[c.id := row], nextId := w.nextId + used)
  }

  ghost function Next(f: Floor, m: Move): Floor {
    match m
    case AtDesk(s) => f.(desk := D.Next(f.desk, s))
    case ReadRow(call, user, id, op) =>
      if call in f.calls || id !in f.desk.requests then f else
        (match Decide(f.desk.requests[id], user, op)
         case Refused(_) => f
         case Decided(x) => f.(calls := f.calls[call := RowCall(user, id, op, f.desk.requests[id], x)]))
    case WriteRow(call) =>
      if call !in f.calls then f else Floor(LandAt(f.desk, f.calls[call]), f.calls - {call})
    case CrashRow(call) => f.(calls := f.calls - {call})
  }

  ghost function Run(f: Floor, moves: seq<Move>): Floor {
    if moves == [] then f else Next(Run(f, moves[..|moves| - 1]), moves[|moves| - 1])
  }

  ghost predicate Initial(f: Floor) { D.Initial(f.desk) && f.calls == map[] }

  // ---- What no overlap breaks ----

  // What a write was decided from stays good whatever happens to the row.
  ghost predicate WriteOk(x: Write) {
    match x
    case ToStatus(s, _) => s in {Approved, Status.Rejected, Acknowledged, Open, Status.Canceled}
    case StoreChange(p) => ParsePayload(Some(p)).Some? && ParsePayload(Some(p)).value.lines != []
    case ToDispute(d) => d in {DisputeOpen, Resolved}
    case Replace(e, _) => e.lines != []
  }

  ghost predicate CallOk(w: Desk, c: RowCall) {
    c.id in w.requests && c.read.technician == w.requests[c.id].technician && WriteOk(c.write) && Decide(c.read, c.user, c.op) == Decided(c.write)
  }

  ghost predicate CallsOk(f: Floor) { forall call | call in f.calls :: CallOk(f.desk, f.calls[call]) }

  ghost predicate Inv(f: Floor) { DeskOk(f.desk) && CallsOk(f) }

  ghost predicate DeskOk(w: Desk) { TransferInvariants.Inv(w) }

  lemma {:induction false} DecidedOk(r: Request, user: User, op: RowOp, now: int, first: nat, known: set<ProductId>)
    requires RowOk(r, now, first, known) && Decide(r, user, op).Decided?
    ensures WriteOk(Decide(r, user, op).write)
  {
    hide LinesOk;
  }

  lemma {:induction false} LandKeeps(r: Request, x: Write, now: int, first: nat, known: set<ProductId>)
    requires RowOk(r, now, first, known) && WriteOk(x) && Land(r, x, now, first, known).Put?
    ensures var Put(row, used) := Land(r, x, now, first, known);
      && RowOk(row, now, first + used, known)
      && row.technician == r.technician && row.key == r.key
      && SameOrNewLines(r, row, first)
  {
    hide ApplyEdit, LinesOk;
    if x.Replace? { EditedRow(r, x.edit, if x.approved then Approved else PendingOrSubmitted(x.edit.pickup, now), now, first, known); }
    LinesGrow(r.lines, first, known);
  }

  lemma {:induction false} LinesGrow(lines: seq<Line>, first: nat, known: set<ProductId>)
    requires LinesOk(lines, first, known)
    ensures LinesOk(lines, first + 0, known)
  {}

  lemma {:induction false} LandAtKeeps(w: Desk, c: RowCall)
    requires DeskOk(w) && WriteOk(c.write)
    ensures DeskOk(LandAt(w, c))
  {
    hide Land, RowOk, SameOrNewLines, SnapshotOk;
    var w' := LandAt(w, c);
    if c.id in w.requests && Land(w.requests[c.id], c.write, w.now, w.nextId, w.catalog.Keys).Put? {
      LandKeeps(w.requests[c.id], c.write, w.now, w.nextId, w.catalog.Keys);
      RowsGrow(w, w', c.id);
      forall k | k in w'.inflight ensures SnapshotOk(w', w'.inflight[k]) {
        assert SnapshotOk(w, w.inflight[k]);
        SnapshotHasRow(w, w.inflight[k]);
        SameRowLines(w.requests[w.inflight[k].id], w.nextId);
        SnapshotKept(w, w', w.inflight[k]);
      }
    }
  }

  // Rows stay, with their technician and key.
  ghost predicate RowsRemain(w: Desk, w': Desk) {
    forall id | id in w.requests :: id in w'.requests && w'.requests[id].technician == w.requests[id].technician
  }

  lemma {:induction false} DeskRemains(w: Desk, s: Step)
    requires DeskOk(w)
    ensures RowsRemain(w, D.Next(w, s))
  {
    hide PostAll, FinalizePostings, DoRow, AllKnown, RowOk, SnapshotsOk, KeysUnique;
    if s.action.OnRow? && s.action.id in w.requests
       && DoRow(w.requests[s.action.id], s.user, s.action.op, w.now, w.nextId, w.catalog.Keys).Put? {
      RowOpKeeps(w.requests[s.action.id], s.user, s.action.op, w.now, w.nextId, w.catalog.Keys);
    }
  }

  lemma {:induction false} LandRemains(w: Desk, c: RowCall)
    ensures RowsRemain(w, LandAt(w, c))
  {
    hide AllKnown;
  }

  lemma {:induction false} CallsRemain(f: Floor, f': Floor)
    requires CallsOk(f) && RowsRemain(f.desk, f'.desk)
    requires forall call | call in f'.calls :: call in f.calls && f'.calls[call] == f.calls[call]
    ensures CallsOk(f')
  {
    hide WriteOk, Decide;
    forall call | call in f'.calls ensures CallOk(f'.desk, f'.calls[call]) { assert CallOk(f.desk, f.calls[call]); }
  }

  lemma {:induction false} StepKeeps(f: Floor, m: Move)
    requires Inv(f)
    ensures Inv(Next(f, m))
  {
    hide DeskOk, CallOk, D.Next, LandAt, RowsRemain, Decide;
    match m
    case AtDesk(s) =>
      DeskKeeps(f.desk, s);
      DeskRemains(f.desk, s);
      CallsRemain(f, Next(f, m));
    case WriteRow(call) =>
      if call in f.calls {
        assert CallOk(f.desk, f.calls[call]);
        CallWrites(f.desk, f.calls[call]);
        LandAtKeeps(f.desk, f.calls[call]);
        LandRemains(f.desk, f.calls[call]);
        CallsRemain(f, Next(f, m));
      }
    case ReadRow(call, user, id, op) =>
      if call !in f.calls && id in f.desk.requests && Decide(f.desk.requests[id], user, op).Decided? { ReadOk(f.desk, user, id, op); }
    case CrashRow(call) =>
      NothingMoves(f.desk);
      CallsRemain(f, Next(f, m));
  }

  lemma {:induction false} NothingMoves(w: Desk)
    ensures RowsRemain(w, w)
  {}

  lemma {:induction false} DeskKeeps(w: Desk, s: Step)
    requires DeskOk(w)
    ensures DeskOk(D.Next(w, s))
  {
    hide D.Next;
    TransferInvariants.StepKeeps(w, s);
  }

  lemma {:induction false} CallWrites(w: Desk, c: RowCall)
    requires CallOk(w, c)
    ensures WriteOk(c.write) && c.id in w.requests
  {}

  lemma {:induction false} ReadOk(w: Desk, user: User, id: nat, op: RowOp)
    requires DeskOk(w) && id in w.requests && Decide(w.requests[id], user, op).Decided?
    ensures CallOk(w, RowCall(user, id, op, w.requests[id], Decide(w.requests[id], user, op).write))
  {
    hide Decide, RowOk;
    DecidedOk(w.requests[id], user, op, w.now, w.nextId, w.catalog.Keys);
  }

  lemma {:induction false} RunKeeps(f: Floor, moves: seq<Move>)
    requires Inv(f)
    ensures Inv(Run(f, moves))
  {
    hide Inv, Next;
    if moves != [] {
      RunKeeps(f, moves[..|moves| - 1]);
      StepKeeps(Run(f, moves[..|moves| - 1]), moves[|moves| - 1]);
    }
  }

  lemma {:induction false} InitialInv(f: Floor)
    requires Initial(f)
    ensures Inv(f)
  {
    TransferInvariants.InitialInv(f.desk);
  }

  // In every interleaving of split calls: rows are well formed, and approveChanges
  // never fails on its stored payload.
  lemma {:induction false} WellFormed(f: Floor, moves: seq<Move>, id: nat, user: User)
    requires Initial(f) && id in Run(f, moves).desk.requests
    ensures var w := Run(f, moves).desk;
      var r := w.requests[id];
      && r.fromScope == FromScope(r.direction, r.technician) && r.toScope == ToScope(r.direction, r.technician)
      && r.fromScope != r.toScope
      && r.lines != []
      && r.status != Disputed && r.dispute != ManagerResponded
      && (r.status == ChangeRequested ==> ParsePayload(r.payload).Some? && ParsePayload(r.payload).value.lines != [])
      && (r.status == Submitted ==> r.pickup <= w.now)
      && Decide(r, user, ApproveChanges) != Refused(BadPayload)
  {
    hide Run, SnapshotsOk, KeysUnique;
    InitialInv(f);
    RunKeeps(f, moves);
    var w := Run(f, moves).desk;
    assert RowOk(w.requests[id], w.now, w.nextId, w.catalog.Keys);
  }

  // ---- What an overlap can break, and exactly when ----

  // The status the row has after the write.
  function StatusAfter(r: Request, x: Write, now: int): Status {
    match x
    case ToStatus(s, _) => s
    case StoreChange(_) => ChangeRequested
    case ToDispute(_) => r.status
    case Replace(e, approved) => if approved then Approved else PendingOrSubmitted(e.pickup, now)
  }

  // The write lands on a row where it does no harm.
  ghost predicate FitsWrite(a: Aspect, r: Request, x: Write, now: int) {
    match a
    case Once => IsPosted(StatusAfter(r, x, now)) <==> IsPosted(r.status)
    case Directed => x.ToStatus? && x.status == Acknowledged ==> r.direction == Issue
    case Payloads => x.ToStatus? && !x.clear && r.payload.Some? ==> x.status in {Status.Rejected, Status.Canceled}
    case Disputes => x.ToDispute? || r.dispute != NoDispute ==> IsPosted(StatusAfter(r, x, now))
  }

  ghost predicate Lands(w: Desk, c: RowCall) {
    c.id in w.requests && Land(w.requests[c.id], c.write, w.now, w.nextId, w.catalog.Keys).Put?
  }

  lemma {:induction false} LandOnceIff(w: Desk, c: RowCall)
    requires DeskOk(w) && PostedOnce(w, c.id) && WriteOk(c.write) && Lands(w, c)
    ensures PostedOnce(LandAt(w, c), c.id) <==> FitsWrite(Once, w.requests[c.id], c.write, w.now)
  {
    hide Moves, PairAt, NumberLines, AllKnown, SnapshotsOk, KeysUnique;
    var r, w' := w.requests[c.id], LandAt(w, c);
    assert RowOk(r, w.now, w.nextId, w.catalog.Keys);
    assert w'.requests[c.id].status == StatusAfter(r, c.write, w.now);
    assert w'.requests[c.id].lines != [];
    if IsPosted(r.status) && IsPosted(w'.requests[c.id].status) {
      PairsSameRow(Moves(w.store, c.id), c.id, r, w'.requests[c.id], r.lines);
    }
  }

  lemma {:induction false} LandHoldsIff(a: Aspect, w: Desk, c: RowCall, id: nat)
    requires DeskOk(w) && Holds(a, w, id) && WriteOk(c.write)
    ensures Holds(a, LandAt(w, c), id) <==> (c.id == id && Lands(w, c) ==> FitsWrite(a, w.requests[id], c.write, w.now))
  {
    hide DeskOk, Moves, PairsOf, NumberLines, AllKnown;
    if c.id == id && Lands(w, c) && a == Once { LandOnceIff(w, c); }
  }

  // The move commits a posting of the request, or a row write to it, that does not fit.
  ghost predicate Breaks(a: Aspect, f: Floor, m: Move, id: nat) {
    match m
    case AtDesk(s) => Posts(f.desk, s, id) && !Fits(a, f.desk, s.action.call)
    case WriteRow(call) =>
      && call in f.calls && f.calls[call].id == id && Lands(f.desk, f.calls[call])
      && !FitsWrite(a, f.desk.requests[id], f.calls[call].write, f.desk.now)
    case _ => false
  }

  lemma {:induction false} StepHoldsIff(a: Aspect, f: Floor, m: Move, id: nat)
    requires Inv(f) && Holds(a, f.desk, id)
    ensures Holds(a, Next(f, m).desk, id) <==> !Breaks(a, f, m, id)
  {
    hide Holds, Fits, FitsWrite, Posts, Lands, D.Next, LandAt, Decide, CallOk;
    match m
    case AtDesk(s) => DeskHoldsIff(a, f.desk, s, id);
    case WriteRow(call) =>
      if call in f.calls {
        assert CallOk(f.desk, f.calls[call]);
        CallWrites(f.desk, f.calls[call]);
        LandHoldsIff(a, f.desk, f.calls[call], id);
      }
    case _ =>
  }

  lemma {:induction false} DeskHoldsIff(a: Aspect, w: Desk, s: Step, id: nat)
    requires DeskOk(w) && Holds(a, w, id)
    ensures Holds(a, D.Next(w, s), id) <==> (Posts(w, s, id) ==> Fits(a, w, s.action.call))
  {
    hide Holds, Fits, Posts, D.Next;
    TransferInvariants.StepHoldsIff(a, w, s, id);
  }

  // From an empty database, in every interleaving of split calls, a request stays
  // posted once (or keeps another aspect) exactly if no commit and no write breaks it.
  lemma {:induction false} HoldsThroughoutIff(a: Aspect, f: Floor, moves: seq<Move>, id: nat)
    requires Initial(f)
    ensures (forall k | 0 <= k <= |moves| :: Holds(a, Run(f, moves[..k]).desk, id)) <==>
            forall k | 0 <= k < |moves| :: !Breaks(a, Run(f, moves[..k]), moves[k], id)
  {
    hide Holds, Breaks, Run, Inv;
    if moves == [] {
      RunNone(f);
      assert moves[..0] == moves;
      R.InitialHolds(a, f.desk, id);
    } else {
      var n := |moves| - 1;
      var v := Run(f, moves[..n]);
      HoldsThroughoutIff(a, f, moves[..n], id);
      Prefixes(a, f, moves, n, id);
      InitialInv(f);
      RunKeeps(f, moves[..n]);
      RunLast(f, moves);
      assert moves[..n + 1] == moves;
      if Holds(a, v.desk, id) { StepHoldsIff(a, v, moves[n], id); }
    }
  }

  lemma {:induction false} RunNone(f: Floor)
    ensures Run(f, []) == f
  {}

  lemma {:induction false} RunLast(f: Floor, moves: seq<Move>)
    requires moves != []
    ensures Run(f, moves) == Next(Run(f, moves[..|moves| - 1]), moves[|moves| - 1])
  {}

  lemma {:induction false} RunSnoc(f: Floor, moves: seq<Move>, m: Move)
    ensures Run(f, moves + [m]) == Next(Run(f, moves), m)
  {
    assert (moves + [m])[..|moves|] == moves;
  }

  lemma {:induction false} Prefixes(a: Aspect, f: Floor, moves: seq<Move>, n: nat, id: nat)
    requires n <= |moves|
    ensures (forall k | 0 <= k <= n :: Holds(a, Run(f, moves[..n][..k]).desk, id)) <==> forall k | 0 <= k <= n :: Holds(a, Run(f, moves[..k]).desk, id)
    ensures (forall k | 0 <= k < n :: !Breaks(a, Run(f, moves[..n][..k]), moves[..n][k], id)) <==>
            forall k | 0 <= k < n :: !Breaks(a, Run(f, moves[..k]), moves[k], id)
  {
    hide Holds, Breaks, Run;
    assert forall k | 0 <= k <= n :: moves[..n][..k] == moves[..k];
    assert forall k | 0 <= k < n :: moves[..n][k] == moves[k];
    if forall k | 0 <= k <= n :: Holds(a, Run(f, moves[..n][..k]).desk, id) {
      forall k | 0 <= k <= n ensures Holds(a, Run(f, moves[..k]).desk, id) { assert Holds(a, Run(f, moves[..n][..k]).desk, id); }
    }
    if forall k | 0 <= k < n :: !Breaks(a, Run(f, moves[..n][..k]), moves[..n][k], id) {
      forall k | 0 <= k < n ensures !Breaks(a, Run(f, moves[..k]), moves[k], id) { assert !Breaks(a, Run(f, moves[..n][..k]), moves[..n][k], id); }
    }
  }

  // The statuses on which the call would be taken, given what it writes.
  predicate Passes(c: RowCall, from: Status) {
    match c.op
    case Update(_) =>
      if c.write.StoreChange? then from in {Approved, ChangeRequested}
      else from in NON_TECH_EDIT && !(c.user.role == Tech && from in {Approved, ChangeRequested})
    case Approve => from == ApprovalPending
    case Deny => from == ApprovalPending
    case ApproveChanges => from == ChangeRequested
    case DenyChanges => from == ChangeRequested
    case Acknowledge => from == AckPending
    case Dispute(_) => from == AckPending || from == Finalized
    case ResolveDispute => IsPosted(from)
    case SendBack => from in NON_TECH_EDIT
    case Withdraw(_) => from in NON_TECH_EDIT
  }

  // A late write follows the status diagram exactly if the status it lands on is still
  // one on which its call would have been taken.
  lemma {:induction false} LateEdgeIff(f: Floor, moves: seq<Move>, call: nat)
    requires Initial(f) && call in Run(f, moves).calls && Lands(Run(f, moves).desk, Run(f, moves).calls[call])
    ensures var w, c := Run(f, moves).desk, Run(f, moves).calls[call];
      c.id in LandAt(w, c).requests &&
      (R.Edge(c.op, c.user.role == Tech, w.requests[c.id].status, LandAt(w, c).requests[c.id].status) <==> Passes(c, w.requests[c.id].status))
  {
    hide Run, DeskOk, WriteOk, NumberLines, AllKnown, ParsePayload;
    InitialInv(f);
    RunKeeps(f, moves);
    assert CallOk(Run(f, moves).desk, Run(f, moves).calls[call]);
  }

  // ---- Undisturbed calls ----

  // The write finds the row as its call read it.
  ghost predicate Undisturbed(f: Floor, m: Move) {
    m.WriteRow? && m.call in f.calls ==> f.calls[m.call].id in f.desk.requests && f.desk.requests[f.calls[m.call].id] == f.calls[m.call].read
  }

  // The desk's own steps in a run, a late write being its call's.
  ghost function Plain(f: Floor, moves: seq<Move>): seq<Step> {
    if moves == [] then [] else
      var front, m := Plain(f, moves[..|moves| - 1]), moves[|moves| - 1];
      var v := Run(f, moves[..|moves| - 1]);
      if m.AtDesk? then front + [m.step]
      else if m.WriteRow? && m.call in v.calls then front + [Step(v.calls[m.call].user, OnRow(v.calls[m.call].id, v.calls[m.call].op))]
      else front
  }

  lemma {:induction false} UndisturbedWrite(f: Floor, call: nat)
    requires CallsOk(f) && call in f.calls && Undisturbed(f, WriteRow(call))
    ensures var c := f.calls[call]; LandAt(f.desk, c) == D.Next(f.desk, Step(c.user, OnRow(c.id, c.op)))
  {
    hide Decide, DoRow, Land, WriteOk;
    var c, w := f.calls[call], f.desk;
    assert CallOk(w, c);
    AtOnce(c.read, c.user, c.op, w.now, w.nextId, w.catalog.Keys);
  }

  // A run whose writes all find what was read is a run of the desk with whole calls,
  // so all that is proved of those holds of it.
  lemma {:induction false} UndisturbedIsPlain(f: Floor, moves: seq<Move>)
    requires Initial(f)
    requires forall k | 0 <= k < |moves| :: Undisturbed(Run(f, moves[..k]), moves[k])
    ensures Run(f, moves).desk == D.Run(f.desk, Plain(f, moves))
  {
    hide Undisturbed, D.Next, LandAt, Inv;
    if moves != [] {
      var n := |moves| - 1;
      var front, v := moves[..n], Run(f, moves[..n]);
      forall k | 0 <= k < n ensures Undisturbed(Run(f, front[..k]), front[k]) { assert front[..k] == moves[..k]; }
      UndisturbedIsPlain(f, front);
      InitialInv(f);
      RunKeeps(f, front);
      InvCalls(v);
      if moves[n].WriteRow? && moves[n].call in v.calls { UndisturbedWrite(v, moves[n].call); }
      if |Plain(f, moves)| > |Plain(f, front)| { DeskSnoc(f.desk, Plain(f, front), Plain(f, moves)[|Plain(f, front)|]); }
    }
  }

  lemma {:induction false} InvCalls(f: Floor)
    requires Inv(f)
    ensures CallsOk(f)
  {}

  lemma {:induction false} DeskSnoc(w: Desk, steps: seq<Step>, s: Step)
    ensures D.Run(w, steps + [s]) == D.Next(D.Run(w, steps), s)
  {
    hide D.Next;
    assert (steps + [s])[..|steps|] == steps;
  }

  // ---- Two overlaps ----

  const START := Floor(E.DESK0, map[])
  const REFUSE := Step(E.CLERK, OnRow(0, Withdraw(None)))
  const CHANGE_LINE := Update(UpdateDto(None, None, Absent, E.ONE))
  const REFUSED_MEANWHILE := [AtDesk(E.AHEAD)] + [ReadRow(0, E.CLERK, 0, Approve)] + [AtDesk(REFUSE)]
  const POSTED_MEANWHILE := [AtDesk(E.CREATE)] + [ReadRow(0, E.CLERK, 0, CHANGE_LINE)] + [AtDesk(E.READ0)] + [AtDesk(E.POST0)]

  lemma {:induction false} RunThree(f: Floor, a: Move, b: Move, c: Move)
    ensures Run(f, [a] + [b] + [c]) == Next(Next(Next(f, a), b), c)
  {
    hide Next;
    RunNone(f);
    RunSnoc(f, [], a);
    assert [] + [a] == [a];
    RunSnoc(f, [a], b);
    RunSnoc(f, [a] + [b], c);
  }

  lemma {:induction false} RefusalIsWritten()
    ensures var f := Run(START, REFUSED_MEANWHILE);
      && f.desk.requests == map[0 := E.PENDING.(status := Status.Rejected)] && 0 in f.calls
      && f.calls[0].id == 0 && f.calls[0].write == ToStatus(Approved, false)
  {
    hide Run, CreateStep;
    E.AheadCreates();
    RunThree(START, AtDesk(E.AHEAD), ReadRow(0, E.CLERK, 0, Approve), AtDesk(REFUSE));
  }

  // An approval reads the request, the request is refused, and the approval is
  // written over the refusal.
  lemma {:induction false} ApprovalOverRefusal()
    ensures Initial(START)
    ensures Run(START, REFUSED_MEANWHILE).desk.requests == map[0 := E.PENDING.(status := Status.Rejected)]
    ensures Run(START, REFUSED_MEANWHILE + [WriteRow(0)]).desk.requests == map[0 := E.PENDING.(status := Approved)]
  {
    hide Run;
    RefusalIsWritten();
    RunSnoc(START, REFUSED_MEANWHILE, WriteRow(0));
  }

  lemma {:induction false} EditIsRead()
    ensures var f := Run(START, [AtDesk(E.CREATE)] + [ReadRow(0, E.CLERK, 0, CHANGE_LINE)] + [AtDesk(E.READ0)]);
      f.desk == E.DESK2 && 0 in f.calls && f.calls[0].id == 0 && f.calls[0].write == Replace(Edit(Issue, None, 0, E.ONE), false)
  {
    hide Run, CreateStep;
    E.RaceCreates();
    RunThree(START, AtDesk(E.CREATE), ReadRow(0, E.CLERK, 0, CHANGE_LINE), AtDesk(E.READ0));
  }

  lemma {:induction false} PostedThenEdited(w: Desk, c: RowCall)
    requires w == D.Next(E.DESK2, E.POST0) && c.id == 0 && c.write == Replace(Edit(Issue, None, 0, E.ONE), false)
    ensures var v := LandAt(w, c);
      && v == w.(requests := map[0 := E.EDITED], nextId := 3) && v.inflight == map[] && v.now == 0 && v.catalog == E.DESK0.catalog
      && |Moves(v.store, 0)| == 2 && Keys(v.store.ledger) == {RequestMove(0, 1, true), RequestMove(0, 1, false)}
  {
    hide PostAll, FinalizePostings, Moves;
    E.OnePairPosts(Empty, E.ROW, E.DESK0.catalog);
    E.NoMovesYet();
    assert w.requests == map[0 := E.ROW.(status := AckPending)];
    assert NumberLines(E.ONE, 2) == [Line(2, "p", 1.0, "oz")];
    assert TruckScope("t") == "TRUCK:t";
    assert LandAt(w, c).requests[0] == E.EDITED;
  }

  lemma {:induction false} SecondPosting(v: Desk)
    requires v.requests == map[0 := E.EDITED] && v.inflight == map[] && v.now == 0 && v.catalog == E.DESK0.catalog
    requires |Moves(v.store, 0)| == 2 && Keys(v.store.ledger) == {RequestMove(0, 1, true), RequestMove(0, 1, false)}
    ensures var u := D.Next(D.Next(v, E.READ1), E.POST1);
      u.requests == map[0 := E.EDITED.(status := AckPending)] && |Moves(u.store, 0)| == 4
  {
    hide PostAll, FinalizePostings, Moves, CreateStep, OnRowStep;
    E.OnePairPosts(v.store, E.EDITED, E.DESK0.catalog);
  }

  // An edit reads the request, a finalize posts it, and the edit is written: the
  // request is SUBMITTED again with a new line, and a second finalize posts that too.
  lemma {:induction false} EditOverFinalize()
    ensures Initial(START)
    ensures var f := Run(START, POSTED_MEANWHILE + [WriteRow(0)]);
      f.desk.requests == map[0 := E.EDITED] && |Moves(f.desk.store, 0)| == 2
    ensures var f := Run(START, POSTED_MEANWHILE + [WriteRow(0)] + [AtDesk(E.READ1)] + [AtDesk(E.POST1)]);
      f.desk.requests == map[0 := E.EDITED.(status := AckPending)] && |Moves(f.desk.store, 0)| == 4
  {
    hide Run, D.Next, LandAt, Moves;
    var read := [AtDesk(E.CREATE)] + [ReadRow(0, E.CLERK, 0, CHANGE_LINE)] + [AtDesk(E.READ0)];
    EditIsRead();
    RunSnoc(START, read, AtDesk(E.POST0));
    RunSnoc(START, POSTED_MEANWHILE, WriteRow(0));
    PostedThenEdited(Run(START, POSTED_MEANWHILE).desk, Run(START, read).calls[0]);
    RunSnoc(START, POSTED_MEANWHILE + [WriteRow(0)], AtDesk(E.READ1));
    RunSnoc(START, POSTED_MEANWHILE + [WriteRow(0)] + [AtDesk(E.READ1)], AtDesk(E.POST1));
    SecondPosting(Run(START, POSTED_MEANWHILE + [WriteRow(0)]).desk);
  }
}
