// Purchase orders as a state machine over orders, receipt lines and the ledger. A
// receive call reads the order, then looks up its keys, then runs its transaction;
// an update call reads the order before its transaction. Between these, other calls
// may run.
module PurchaseOrders {
  import opened Basics
  import opened Ledger
  import opened Units

  datatype PoStatus = Draft | Placed | PartiallyReceived | Received | Cancelled

  datatype PoLine = PoLine(id: nat, product: ProductId, ordered: int, orderedBase: int, received: int, receivedBase: int)
  datatype Po = Po(shipTo: Scope, status: PoStatus, lines: seq<PoLine>)
  datatype ReceiptLine = ReceiptLine(po: Option<nat>, product: ProductId, quantity: int)

  datatype OrderInput = OrderInput(product: ProductId, ordered: int)
  datatype ReceiveLine = ReceiveLine(line: nat, quantity: int)
  // An invalid date is None; an empty scope is None.
  datatype ReceiveDto = ReceiveDto(day: Option<int>, scope: Option<Scope>, lines: seq<ReceiveLine>)
  datatype UpdateDto = UpdateDto(shipTo: Option<Scope>, status: Option<PoStatus>, lines: Option<seq<OrderInput>>)

  datatype Outcome = Done(id: nat) | Posted(posted: nat, skipped: nat) | NotFound | BadRequest | Conflict

  datatype Pick = Pick(line: nat, product: ProductId, quantity: int, base: int)
  datatype Prepared = Prepared(product: ProductId, ordered: int, base: int)

  // What a call carries from its reads into its transaction. The lines to post are
  // known once the keys were looked up.
  datatype ReceiveCall = ReceiveCall(
    order: nat, status: PoStatus, batch: PoBatch, picks: seq<Pick>, todo: Option<seq<Pick>>)
  datatype UpdateCall = UpdateCall(
    order: nat, shipTo: Option<Scope>, status: PoStatus, lines: Option<seq<Prepared>>)

  datatype Action =
    | Create(shipTo: Scope, status: Option<PoStatus>, inputs: seq<OrderInput>)
    | Update(id: nat, update: UpdateDto)                       // read and transaction at once
    | BeginUpdate(call: nat, id: nat, update: UpdateDto)
    | CommitUpdate(call: nat)
    | Cancel(id: nat)
    | Receive(id: nat, receive: ReceiveDto)                 // reads and transaction at once
    | BeginReceive(call: nat, id: nat, receive: ReceiveDto)
    | LookUpKeys(call: nat)
    | CommitReceive(call: nat)
    | Drop(call: nat)                                       // the call ends without committing
    | SetProduct(product: ProductId, row: Product)
    | AddReceiptLine(line: ReceiptLine)   // receipts of other flows have no order
    | Foreign(postings: seq<Posting>)

  datatype Books = Books(
    store: Store, orders: map<nat, Po>, receipts: seq<ReceiptLine>,
    catalog: map<ProductId, Product>, nextId: nat,
    receiving: map<nat, ReceiveCall>, updating: map<nat, UpdateCall>)

  function OrderingFactor(catalog: map<ProductId, Product>, product: ProductId): (f: int)
    ensures f >= 1
  {
    if product in catalog then catalog[product].orderingToBase else 1
  }

  // ---- Lines of a new or replaced order ----

  predicate InputsValid(inputs: seq<OrderInput>, catalog: map<ProductId, Product>) {
    forall i | i in inputs :: i.product in catalog && i.ordered > 0
  }

  predicate ProductsDistinct(lines: seq<Prepared>) {
    forall i, j | 0 <= i < j < |lines| :: lines[i].product != lines[j].product
  }

  function Prepare(inputs: seq<OrderInput>, catalog: map<ProductId, Product>): (ps: seq<Prepared>)
    ensures |ps| == |inputs|
  {
    seq(|inputs|, i requires 0 <= i < |inputs| =>
      Prepared(inputs[i].product, inputs[i].ordered, ToBase(inputs[i].ordered as real, OrderingFactor(catalog, inputs[i].product))))
  }

  function Insert(ps: seq<Prepared>, first: nat): (lines: seq<PoLine>)
    ensures |lines| == |ps|
  {
    seq(|ps|, i requires 0 <= i < |ps| => PoLine(first + i, ps[i].product, ps[i].ordered, ps[i].base, 0, 0))
  }

  function CreateStep(w: Books, shipTo: Scope, status: Option<PoStatus>, inputs: seq<OrderInput>): (Books, Outcome) {
    var ps := Prepare(inputs, w.catalog);
    if !InputsValid(inputs, w.catalog) then (w, BadRequest)
    else if !ProductsDistinct(ps) then (w, Conflict)
    else
      var po := Po(if shipTo == "" then "WAREHOUSE" else shipTo,
                   if status.Some? then status.value else Draft,
                   Insert(ps, w.nextId + 1));
      (w.(orders := w.orders[w.nextId := po], nextId := w.nextId + 1 + |ps|), Done(w.nextId))
  }

  // ---- Updating an order ----

  predicate AnyBaseReceived(lines: seq<PoLine>) { exists l | l in lines :: l.receivedBase > 0 }

  datatype Prep = Refused(outcome: Outcome) | Ready(call: UpdateCall)

  // The guards, and what the transaction will write.
  function PrepareUpdate(w: Books, id: nat, dto: UpdateDto): Prep {
    if id !in w.orders then Refused(NotFound)
    else
      var po := w.orders[id];
      if po.status == Received || po.status == Cancelled then Refused(BadRequest)
      else if dto.lines.Some? && (AnyBaseReceived(po.lines) || !InputsValid(dto.lines.value, w.catalog)) then Refused(BadRequest)
      else Ready(UpdateCall(id, dto.shipTo, if dto.status.Some? then dto.status.value else po.status,
                            if dto.lines.Some? then Some(Prepare(dto.lines.value, w.catalog)) else None))
  }

  // A repeated product breaks the unique constraint and rolls back.
  function UpdateCommit(w: Books, c: UpdateCall): (Books, Outcome) {
    if c.order !in w.orders then (w, NotFound)
    else if c.lines.Some? && !ProductsDistinct(c.lines.value) then (w, Conflict)
    else
      var po := w.orders[c.order];
      var po' := po.(shipTo := if c.shipTo.Some? then c.shipTo.value else po.shipTo, status := c.status,
                     lines := if c.lines.Some? then Insert(c.lines.value, w.nextId) else po.lines);
      (w.(orders := w.orders[c.order := po'], nextId := w.nextId + if c.lines.Some? then |c.lines.value| else 0), Done(c.order))
  }

  function UpdateStep(w: Books, id: nat, dto: UpdateDto): (Books, Outcome) {
    match PrepareUpdate(w, id, dto)
    case Refused(o) => (w, o)
    case Ready(c) => UpdateCommit(w, c)
  }

  function CancelStep(w: Books, id: nat): (Books, Outcome) {
    if id !in w.orders then (w, NotFound)
    else (w.(orders := w.orders[id := w.orders[id].(status := Cancelled)]), Done(id))
  }

  // ---- Receiving against an order ----

  predicate LineIdsDistinct(lines: seq<ReceiveLine>) {
    forall i, j | 0 <= i < j < |lines| :: lines[i].line != lines[j].line
  }

  function WantMap(lines: seq<ReceiveLine>): map<nat, int> {
    if lines == [] then map[] else
      WantMap(lines[..|lines| - 1])[lines[|lines| - 1].line := lines[|lines| - 1].quantity]
  }

  // The order lines the payload names, in order-line order.
  function Picks(lines: seq<PoLine>, want: map<nat, int>, catalog: map<ProductId, Product>): seq<Pick> {
    if lines == [] then [] else
      var l := lines[|lines| - 1];
      Picks(lines[..|lines| - 1], want, catalog) +
      (if l.id in want
       then [Pick(l.id, l.product, want[l.id], ToBase(want[l.id] as real, OrderingFactor(catalog, l.product)))]
       else [])
  }

  predicate WithinRemaining(lines: seq<PoLine>, want: map<nat, int>) {
    forall l | l in lines && l.id in want :: 0 < want[l.id] <= l.ordered - l.received
  }

  function BatchLines(picks: seq<Pick>): map<nat, int> {
    if picks == [] then map[] else
      BatchLines(picks[..|picks| - 1])[picks[|picks| - 1].line := picks[|picks| - 1].base]
  }

  function PickKey(id: nat, batch: PoBatch, p: Pick): Key { PoReceiving(id, batch, p.product) }

  function Unposted(picks: seq<Pick>, id: nat, batch: PoBatch, posted: set<Key>): seq<Pick> {
    if picks == [] then [] else
      Unposted(picks[..|picks| - 1], id, batch, posted) +
      (if PickKey(id, batch, picks[|picks| - 1]) in posted then [] else [picks[|picks| - 1]])
  }

  function PickPostings(picks: seq<Pick>, id: nat, batch: PoBatch): (ps: seq<Posting>)
    ensures |ps| == |picks|
  {
    seq(|picks|, i requires 0 <= i < |picks| =>
      Posting(picks[i].product, batch.scope, picks[i].base, ReceivingPosted, PickKey(id, batch, picks[i])))
  }

  function PickReceipts(picks: seq<Pick>, id: nat): seq<ReceiptLine> {
    seq(|picks|, i requires 0 <= i < |picks| => ReceiptLine(Some(id), picks[i].product, picks[i].quantity))
  }

  function QuantityFor(picks: seq<Pick>, line: nat): int {
    if picks == [] then 0 else
      QuantityFor(picks[..|picks| - 1], line) + (if picks[|picks| - 1].line == line then picks[|picks| - 1].quantity else 0)
  }

  function BaseFor(picks: seq<Pick>, line: nat): int {
    if picks == [] then 0 else
      BaseFor(picks[..|picks| - 1], line) + (if picks[|picks| - 1].line == line then picks[|picks| - 1].base else 0)
  }

  // Counters are incremented line by line.
  function Increment(lines: seq<PoLine>, picks: seq<Pick>): (r: seq<PoLine>)
    ensures |r| == |lines|
  {
    seq(|lines|, i requires 0 <= i < |lines| =>
      lines[i].(received := lines[i].received + QuantityFor(picks, lines[i].id),
                receivedBase := lines[i].receivedBase + BaseFor(picks, lines[i].id)))
  }

  predicate AllBaseReceived(lines: seq<PoLine>) { forall l | l in lines :: l.receivedBase >= l.orderedBase }
  function StatusAfter(lines: seq<PoLine>, status: PoStatus): PoStatus {
    if AllBaseReceived(lines) && lines != [] then Received
    else if AnyBaseReceived(lines) then PartiallyReceived
    else status
  }

  function ResolvedScope(po: Po, dto: ReceiveDto): Scope {
    if dto.scope.Some? then dto.scope.value else po.shipTo
  }

  function PicksOf(w: Books, id: nat, dto: ReceiveDto): seq<Pick>
    requires id in w.orders
  {
    Picks(w.orders[id].lines, WantMap(dto.lines), w.catalog)
  }

  function BatchOf(w: Books, id: nat, dto: ReceiveDto): PoBatch
    requires id in w.orders && dto.day.Some?
  {
    PoBatch(id, ResolvedScope(w.orders[id], dto), dto.day.value, BatchLines(PicksOf(w, id, dto)))
  }

  predicate Receivable(w: Books, id: nat, dto: ReceiveDto) {
    && id in w.orders
    && w.orders[id].status != Cancelled && w.orders[id].status != Received
    && dto.day.Some?
    && LineIdsDistinct(dto.lines)
    && WithinRemaining(w.orders[id].lines, WantMap(dto.lines))
    && PicksOf(w, id, dto) != []
  }

  datatype Selection = Refuse(outcome: Outcome) | Selected(call: ReceiveCall)

  // First read: the order's lines, its status and the products' factors.
  function ReadOrder(w: Books, id: nat, dto: ReceiveDto): Selection {
    if id !in w.orders then Refuse(NotFound)
    else if !Receivable(w, id, dto) then Refuse(BadRequest)
    else Selected(ReceiveCall(id, w.orders[id].status, BatchOf(w, id, dto), PicksOf(w, id, dto), None))
  }

  // Second read: which of the line keys are taken.
  function LookUp(c: ReceiveCall, posted: set<Key>): ReceiveCall {
    c.(todo := Some(Unposted(c.picks, c.order, c.batch, posted)))
  }

  predicate LinesPresent(lines: seq<PoLine>, todo: seq<Pick>) {
    forall p | p in todo :: exists l | l in lines :: l.id == p.line
  }

  // The transaction. A taken key or a vanished line aborts it; the fallback status is
  // the one read at first.
  function ReceiveCommit(w: Books, c: ReceiveCall): (Books, Outcome)
    requires c.todo.Some?
  {
    var todo := c.todo.value;
    if c.order !in w.orders then (w, NotFound)
    else if todo == [] then (w, Posted(0, |c.picks|))
    else
      var po := w.orders[c.order];
      var posted := PostAll(w.store, PickPostings(todo, c.order, c.batch));
      if posted.None? || !LinesPresent(po.lines, todo) then (w, Conflict)
      else
        var lines := Increment(po.lines, todo);
        (w.(store := posted.value,
            receipts := w.receipts + PickReceipts(todo, c.order),
            orders := w.orders[c.order := po.(lines := lines, status := StatusAfter(lines, c.status))]),
         Posted(|todo|, if |c.picks| >= |todo| then |c.picks| - |todo| else 0))
  }

  function ReceiveStep(w: Books, id: nat, dto: ReceiveDto): (Books, Outcome) {
    match ReadOrder(w, id, dto)
    case Refuse(o) => (w, o)
    case Selected(c) => ReceiveCommit(w, LookUp(c, Keys(w.store.ledger)))
  }

  function Do(w: Books, a: Action): (Books, Outcome) {
    match a
    case Create(shipTo, status, inputs) => CreateStep(w, shipTo, status, inputs)
    case Update(id, dto) => UpdateStep(w, id, dto)
    case BeginUpdate(call, id, dto) =>
      (match PrepareUpdate(w, id, dto)
       case Refused(o) => (w, o)
       case Ready(c) => (if call in w.updating then w else w.(updating := w.updating[call := c]), Done(id)))
    case CommitUpdate(call) =>
      if call !in w.updating then (w, NotFound)
      else UpdateCommit(w.(updating := w.updating - {call}), w.updating[call])
    case Cancel(id) => CancelStep(w, id)
    case Receive(id, dto) => ReceiveStep(w, id, dto)
    case BeginReceive(call, id, dto) =>
      (match ReadOrder(w, id, dto)
       case Refuse(o) => (w, o)
       case Selected(c) => (if call in w.receiving then w else w.(receiving := w.receiving[call := c]), Done(id)))
    case LookUpKeys(call) =>
      if call !in w.receiving || w.receiving[call].todo.Some? then (w, NotFound)
      else (w.(receiving := w.receiving[call := LookUp(w.receiving[call], Keys(w.store.ledger))]), Done(w.receiving[call].order))
    case CommitReceive(call) =>
      if call !in w.receiving || w.receiving[call].todo.None? then (w, NotFound)
      else ReceiveCommit(w.(receiving := w.receiving - {call}), w.receiving[call])
    case Drop(call) => (w.(receiving := w.receiving - {call}, updating := w.updating - {call}), Done(0))
    case SetProduct(p, row) => (w.(catalog := w.catalog[p := row]), Done(0))
    case AddReceiptLine(l) => (if l.po.Some? then w else w.(receipts := w.receipts + [l]), Done(0))
    case Foreign(ps) =>
      (if exists p | p in ps :: p.key.PoReceiving? then w else w.(store := Commit(w.store, ps)), Done(0))
  }

  function Next(w: Books, a: Action): Books { Do(w, a).0 }

  function Run(w: Books, actions: seq<Action>): Books {
    if actions == [] then w else Next(Run(w, actions[..|actions| - 1]), actions[|actions| - 1])
  }

  predicate Initial(w: Books) {
    w.store == Empty && w.orders == map[] && w.receipts == [] && w.receiving == map[] && w.updating == map[]
  }
}
