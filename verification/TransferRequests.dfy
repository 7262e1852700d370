// The transfer-request desk as a state machine: what each service call does to
// the request rows and the ledger. A finalize call reads its request first and
// commits its postings in a later transaction, so it is two steps. Calls on a row
// are whole here; TransferOverlaps splits them too.
module TransferRequests {
  import opened Basics
  import opened Ledger
  import opened Units

  datatype Role = Admin | Manager | Warehouse | Tech
  datatype User = User(role: Role, technician: Option<string>)
  datatype Direction = Issue | Return
  datatype Status =
    | Open | Submitted | ApprovalPending | Approved | ChangeRequested
    | Finalized | AckPending | Acknowledged | Rejected | Canceled | Disputed
  datatype DisputeStatus = NoDispute | DisputeOpen | ManagerResponded | Resolved

  datatype LineInput = LineInput(product: ProductId, quantity: real, unit: string)
  datatype Line = Line(id: nat, product: ProductId, quantity: real, unit: string)
  datatype DateInput = Absent | InvalidDate | At(time: int)

  // The change-request column holds free JSON.
  datatype Payload = Payload(
    direction: Option<Direction>, reason: Option<string>, pickup: Option<int>, lines: Option<seq<LineInput>>)

  datatype Request = Request(
    technician: string, direction: Direction, fromScope: Scope, toScope: Scope,
    status: Status, pickup: int, reason: Option<string>, key: Option<string>,
    lines: seq<Line>, payload: Option<Payload>, dispute: DisputeStatus)

  datatype Edit = Edit(direction: Direction, reason: Option<string>, pickup: int, lines: seq<LineInput>)

  datatype CreateDto = CreateDto(
    technician: string, direction: Direction, reason: Option<string>, key: Option<string>,
    pickup: DateInput, lines: seq<LineInput>)
  datatype UpdateDto = UpdateDto(
    direction: Option<Direction>, reason: Option<string>, pickup: DateInput, lines: seq<LineInput>)
  datatype CancelKind = Cancel | Refuse

  datatype Outcome =
    | Done(id: nat) | Started
    | Forbidden | NotFound | BadRequest | BadPayload | UnknownProduct | Conflict

  // Calls that touch one request row only.
  datatype RowOp =
    | Update(dto: UpdateDto) | Approve | Deny | ApproveChanges | DenyChanges
    | Acknowledge | Dispute(noteMissing: bool) | ResolveDispute | SendBack | Withdraw(kind: Option<CancelKind>)

  datatype Action =
    | Create(create: CreateDto)
    | OnRow(id: nat, op: RowOp)
    | BeginFinalize(call: nat, request: nat)
    | CommitFinalize(call: nat)
    | CrashFinalize(call: nat)   // the call ends without committing
    | Tick(to: int)
    | SetProduct(product: ProductId, row: Product)
    | SetTechnician(technician: string, active: bool)
    | Foreign(postings: seq<Posting>)   // any other service's transaction

  datatype Step = Step(user: User, action: Action)

  datatype Snapshot = Snapshot(id: nat, row: Request)

  datatype Desk = Desk(
    now: int, store: Store, requests: map<nat, Request>, nextId: nat,
    inflight: map<nat, Snapshot>, catalog: map<ProductId, Product>, technicians: map<string, bool>)

  const CLOSED := {Finalized, AckPending, Acknowledged, Status.Rejected, Status.Canceled}
  const TECH_DIRECT_EDIT := {Open, Submitted, ApprovalPending}
  const NON_TECH_EDIT := {Open, Submitted, ApprovalPending, Approved, ChangeRequested}

  function TruckScope(technician: string): Scope { "TRUCK:" + technician }

  function FromScope(direction: Direction, technician: string): Scope {
    if direction == Issue then "WAREHOUSE" else TruckScope(technician)
  }

  function ToScope(direction: Direction, technician: string): Scope {
    if direction == Issue then TruckScope(technician) else "WAREHOUSE"
  }

  predicate Owns(user: User, r: Request) {
    user.technician.Some? && user.technician.value != "" && user.technician.value == r.technician
  }

  predicate AllKnown(lines: seq<LineInput>, known: set<ProductId>) {
    forall l | l in lines :: l.product in known
  }

  function NumberLines(inputs: seq<LineInput>, first: nat): (lines: seq<Line>)
    ensures |lines| == |inputs|
  {
    seq(|inputs|, i requires 0 <= i < |inputs| =>
      Line(first + i, inputs[i].product, inputs[i].quantity, inputs[i].unit))
  }

  function PendingOrSubmitted(pickup: int, now: int): Status {
    if pickup > now then ApprovalPending else Submitted
  }

  // ---- Row operations ----

  datatype RowResult = Reject(outcome: Outcome) | Put(row: Request, used: nat)

  function BuildEdit(dto: UpdateDto, r: Request): Option<Edit> {
    if dto.lines == [] || dto.pickup.InvalidDate? then None
    else Some(Edit(
      if dto.direction.Some? then dto.direction.value else r.direction,
      if dto.reason.Some? then dto.reason else r.reason,
      if dto.pickup.At? then dto.pickup.time else r.pickup,
      dto.lines))
  }

  function ParsePayload(p: Option<Payload>): Option<Edit> {
    if p.Some? && p.value.direction.Some? && p.value.pickup.Some? && p.value.lines.Some?
    then Some(Edit(p.value.direction.value, p.value.reason, p.value.pickup.value, p.value.lines.value))
    else None
  }

  // Old lines go, new lines get new ids; the payload column is cleared.
  function ApplyEdit(r: Request, e: Edit, status: Status, first: nat, known: set<ProductId>): RowResult {
    if !AllKnown(e.lines, known) then Reject(UnknownProduct)
    else Put(r.(direction := e.direction,
                fromScope := FromScope(e.direction, r.technician),
                toScope := ToScope(e.direction, r.technician),
                pickup := e.pickup,
                reason := if e.reason.Some? then e.reason else r.reason,
                lines := NumberLines(e.lines, first),
                status := status,
                payload := None), |e.lines|)
  }

  function UpdateRow(r: Request, user: User, dto: UpdateDto, now: int, first: nat, known: set<ProductId>): RowResult {
    var edit := BuildEdit(dto, r);
    if r.status in CLOSED then Reject(BadRequest)
    else if user.role == Tech then
      if !Owns(user, r) then Reject(Forbidden)
      else if edit.None? then Reject(BadRequest)
      else if r.status == Approved || r.status == ChangeRequested then
        Put(r.(status := ChangeRequested,
               payload := Some(Payload(Some(edit.value.direction), edit.value.reason,
                                       Some(edit.value.pickup), Some(edit.value.lines)))), 0)
      else if r.status !in TECH_DIRECT_EDIT then Reject(BadRequest)
      else ApplyEdit(r, edit.value, PendingOrSubmitted(edit.value.pickup, now), first, known)
    else if r.status !in NON_TECH_EDIT then Reject(BadRequest)
    else if edit.None? then Reject(BadRequest)
    else ApplyEdit(r, edit.value, PendingOrSubmitted(edit.value.pickup, now), first, known)
  }

  function WithdrawRow(r: Request, user: User, kind: Option<CancelKind>): RowResult {
    var warehouse := user.role != Tech;
    var action := if kind.Some? then kind.value else if warehouse then Refuse else Cancel;
    if r.status in CLOSED then Reject(BadRequest)
    else if r.status !in NON_TECH_EDIT && r.status != Open then Reject(BadRequest)
    else if !warehouse && !Owns(user, r) then Reject(Forbidden)
    else if action == Refuse && !warehouse then Reject(Forbidden)
    else Put(r.(status := if action == Refuse then Status.Rejected else Status.Canceled), 0)
  }

  // Calls whose role check comes before the row is looked up.
  predicate NeedsWarehouseRole(op: RowOp) {
    op.Approve? || op.Deny? || op.ApproveChanges? || op.DenyChanges? || op.ResolveDispute? || op.SendBack?
  }

  function DoRow(r: Request, user: User, op: RowOp, now: int, first: nat, known: set<ProductId>): RowResult {
    if NeedsWarehouseRole(op) && user.role == Tech then Reject(Forbidden) else
    match op
    case Update(dto) => UpdateRow(r, user, dto, now, first, known)
    case Approve => if r.status != ApprovalPending then Reject(BadRequest) else Put(r.(status := Approved), 0)
    case Deny => if r.status != ApprovalPending then Reject(BadRequest) else Put(r.(status := Status.Rejected), 0)
    case ApproveChanges =>
      var edit := ParsePayload(r.payload);
      if r.status != ChangeRequested then Reject(BadRequest)
      else if edit.None? then Reject(BadPayload)
      else ApplyEdit(r, edit.value, Approved, first, known)
    case DenyChanges =>
      if r.status != ChangeRequested then Reject(BadRequest) else Put(r.(status := Approved, payload := None), 0)
    case Acknowledge =>
      if !Owns(user, r) then Reject(Forbidden)
      else if r.status != AckPending then Reject(BadRequest)
      else Put(r.(status := Acknowledged), 0)
    case Dispute(noteMissing) =>
      if user.role != Tech || user.technician != Some(r.technician) then Reject(Forbidden)
      else if r.status != AckPending && r.status != Finalized then Reject(BadRequest)
      else if r.dispute == DisputeOpen || r.dispute == ManagerResponded then Reject(BadRequest)
      else if noteMissing then Reject(BadRequest)
      else Put(r.(dispute := DisputeOpen), 0)
    case ResolveDispute =>
      if r.dispute != DisputeOpen && r.dispute != ManagerResponded then Reject(BadRequest)
      else Put(r.(dispute := Resolved), 0)
    case SendBack =>
      if r.status in CLOSED then Reject(BadRequest) else Put(r.(status := Open, payload := None), 0)
    case Withdraw(kind) => WithdrawRow(r, user, kind)
  }

  function OnRowStep(w: Desk, user: User, id: nat, op: RowOp): (Desk, Outcome) {
    if id !in w.requests then
      (w, if NeedsWarehouseRole(op) && user.role == Tech then Forbidden else NotFound)
    else
      match DoRow(w.requests[id], user, op, w.now, w.nextId, w.catalog.Keys)
      case Reject(o) => (w, o)
      case Put(row, used) => (w.(requests := w.requests[id := row], nextId := w.nextId + used), Done(id))
  }

  // ---- Creation ----

  predicate HasRequestKey(requests: map<nat, Request>, key: Option<string>) {
    key.Some? && exists id | id in requests :: requests[id].key == key
  }

  function CreatedRow(w: Desk, dto: CreateDto): Request {
    var pickup := if dto.pickup.At? then dto.pickup.time else w.now;
    Request(dto.technician, dto.direction,
            FromScope(dto.direction, dto.technician), ToScope(dto.direction, dto.technician),
            PendingOrSubmitted(pickup, w.now), pickup, dto.reason, dto.key,
            NumberLines(dto.lines, w.nextId + 1), None, NoDispute)
  }

  // A known idempotency key returns the request already there; the empty string
  // is not looked up but still has to be unique.
  ghost function CreateStep(w: Desk, user: User, dto: CreateDto): (Desk, Outcome) {
    if user.role == Tech && user.technician != Some(dto.technician) then (w, Forbidden)
    else if dto.lines == [] || dto.pickup.InvalidDate? then (w, BadRequest)
    else if dto.key.Some? && dto.key.value != "" && HasRequestKey(w.requests, dto.key) then
      var id :| id in w.requests && w.requests[id].key == dto.key;
      (w, Done(id))
    else if dto.technician !in w.technicians || !w.technicians[dto.technician] then (w, BadRequest)
    else if HasRequestKey(w.requests, dto.key) then (w, Conflict)
    else if !AllKnown(dto.lines, w.catalog.Keys) then (w, UnknownProduct)
    else (w.(requests := w.requests[w.nextId := CreatedRow(w, dto)],
             nextId := w.nextId + 1 + |dto.lines|), Done(w.nextId))
  }

  // ---- Finalize ----

  function LineBase(line: Line, catalog: map<ProductId, Product>): int
    requires line.product in catalog
  {
    ToBase(line.quantity, UnitFactor(catalog[line.product], line.unit, Tracking))
  }

  function MovePosting(id: nat, r: Request, line: Line, quantity: int, out: bool): Posting {
    Posting(line.product,
            if out then FromScope(r.direction, r.technician) else ToScope(r.direction, r.technician),
            if out then -quantity else quantity, Transfer, RequestMove(id, line.id, out))
  }

  // One OUT/IN pair per line, in line order; lines of missing products are skipped.
  function FinalizePostings(id: nat, r: Request, lines: seq<Line>, catalog: map<ProductId, Product>): seq<Posting> {
    if lines == [] then [] else
      var line := lines[|lines| - 1];
      var front := FinalizePostings(id, r, lines[..|lines| - 1], catalog);
      if line.product !in catalog then front
      else
        var q := LineBase(line, catalog);
        front + [MovePosting(id, r, line, q, true), MovePosting(id, r, line, q, false)]
  }

  predicate IsPosted(s: Status) { s == Finalized || s == AckPending || s == Acknowledged }

  predicate Ready(s: Status) { s == Submitted || s == Open || s == Disputed || s == Approved }

  function PostedStatus(direction: Direction): Status {
    if direction == Issue then AckPending else Finalized
  }

  function BeginStep(w: Desk, call: nat, id: nat): (Desk, Outcome) {
    if id !in w.requests then (w, NotFound)
    else
      var r := w.requests[id];
      if IsPosted(r.status) then (w, Done(id))
      else if r.status == ApprovalPending || r.status == ChangeRequested then (w, BadRequest)
      else if r.pickup > w.now && r.status != Approved then (w, BadRequest)
      else if !Ready(r.status) then (w, BadRequest)
      else if call in w.inflight then (w, Conflict)
      else (w.(inflight := w.inflight[call := Snapshot(id, r)]), Started)
  }

  function CommitStep(w: Desk, call: nat): (Desk, Outcome) {
    if call !in w.inflight || w.inflight[call].id !in w.requests then (w, NotFound)
    else
      var Snapshot(id, row) := w.inflight[call];
      var w1 := w.(inflight := w.inflight - {call});
      var posted := PostAll(w.store, FinalizePostings(id, row, row.lines, w.catalog));
      if posted.None? then (w1, Conflict)
      else (w1.(store := posted.value,
                requests := w.requests[id := w.requests[id].(status := PostedStatus(row.direction))]), Done(id))
  }

  // ---- The machine ----

  ghost function Do(w: Desk, s: Step): (Desk, Outcome) {
    match s.action
    case Create(dto) => CreateStep(w, s.user, dto)
    case OnRow(id, op) => OnRowStep(w, s.user, id, op)
    case BeginFinalize(call, id) => BeginStep(w, call, id)
    case CommitFinalize(call) => CommitStep(w, call)
    case CrashFinalize(call) => (w.(inflight := w.inflight - {call}), Started)
    case Tick(to) => (if to > w.now then w.(now := to) else w, Started)
    case SetProduct(p, row) => (w.(catalog := w.catalog[p := row]), Started)
    case SetTechnician(t, active) => (w.(technicians := w.technicians[t := active]), Started)
    case Foreign(ps) =>
      (if exists p | p in ps :: p.key.RequestMove? then w else w.(store := Commit(w.store, ps)), Started)
  }

  ghost function Next(w: Desk, s: Step): Desk { Do(w, s).0 }

  ghost function Run(w: Desk, steps: seq<Step>): Desk {
    if steps == [] then w else Next(Run(w, steps[..|steps| - 1]), steps[|steps| - 1])
  }

  ghost predicate Initial(w: Desk) {
    w.requests == map[] && w.inflight == map[] && w.store == Empty
  }

  // The step is an accepted edit: it puts new lines on the request.
  ghost predicate ReplacesLines(w: Desk, s: Step, id: nat) {
    id in w.requests && id in Next(w, s).requests && Next(w, s).requests[id].lines != w.requests[id].lines
  }

  // No request gets new lines while one of its finalize calls is between its read
  // and its commit.
  ghost predicate CalmStep(w: Desk, s: Step) {
    forall call | call in w.inflight :: !ReplacesLines(w, s, w.inflight[call].id)
  }

  ghost predicate Calm(w: Desk, steps: seq<Step>) {
    forall k | 0 <= k < |steps| :: CalmStep(Run(w, steps[..k]), steps[k])
  }
}
