// TransferRequestsService as the code runs it, each call to its end: look-up,
// guards in the order they are checked, then the row update; finalize loops over
// the lines inside one transaction.
module TransferService {
  import opened Basics
  import opened Ledger
  import opened Schema
  import opened TransferRequests
  import opened Units
  import Batches
  import I = TransferInvariants

  method Create(db: Database, user: User, dto: CreateDto) returns (o: Outcome)
    requires I.KeysUnique(db.DeskView())
    modifies db`requests, db`nextId
    ensures (db.DeskView(), o) == CreateStep(old(db.DeskView()), user, dto)
  {
    if user.role == Tech && user.technician != Some(dto.technician) {
      return Forbidden;
    }
    if dto.lines == [] {
      return BadRequest;
    }
    if dto.pickup.InvalidDate? {
      return BadRequest;
    }
    var pickup := if dto.pickup.At? then dto.pickup.time else db.now;
    if dto.key.Some? && dto.key.value != "" && HasRequestKey(db.requests, dto.key) {
      var id :| id in db.requests && db.requests[id].key == dto.key;
      return Done(id);
    }
    if dto.technician !in db.technicians || !db.technicians[dto.technician] {
      return BadRequest;
    }
    var status := if pickup > db.now then ApprovalPending else Submitted;
    // The insert: unique key, then foreign keys of the lines.
    if HasRequestKey(db.requests, dto.key) {
      return Conflict;
    }
    if !AllKnown(dto.lines, db.catalog.Keys) {
      return UnknownProduct;
    }
    var id := db.nextId;
    var row := Request(
      dto.technician, dto.direction, FromScope(dto.direction, dto.technician), ToScope(dto.direction, dto.technician),
      status, pickup, dto.reason, dto.key, NumberLines(dto.lines, id + 1), None, NoDispute);
    db.requests := db.requests[id := row];
    db.nextId := id + 1 + |dto.lines|;
    o := Done(id);
  }

  // deleteMany, then update with new lines: one transaction.
  method ApplyEdits(db: Database, id: nat, e: Edit, status: Status) returns (ok: bool)
    requires id in db.requests
    modifies db`requests, db`nextId
    ensures var edited := ApplyEdit(old(db.requests)[id], e, status, old(db.nextId), db.catalog.Keys);
      && ok == edited.Put?
      && db.requests == (if ok then old(db.requests)[id := edited.row] else old(db.requests))
      && db.nextId == old(db.nextId) + (if ok then edited.used else 0)
  {
    var r := db.requests[id];
    var from, to := FromScope(e.direction, r.technician), ToScope(e.direction, r.technician);
    db.requests := db.requests[id := r.(lines := [])];
    if !AllKnown(e.lines, db.catalog.Keys) {
      db.requests := db.requests[id := r];
      assert db.requests == old(db.requests);
      return false;
    }
    var reason := if e.reason.Some? then e.reason else r.reason;
    db.requests := db.requests[id := r.(
      direction := e.direction, fromScope := from, toScope := to, pickup := e.pickup, reason := reason,
      lines := NumberLines(e.lines, db.nextId), status := status, payload := None)];
    db.nextId := db.nextId + |e.lines|;
    ok := true;
  }

  method Update(db: Database, user: User, id: nat, dto: UpdateDto) returns (o: Outcome)
    modifies db`requests, db`nextId
    ensures (db.DeskView(), o) == OnRowStep(old(db.DeskView()), user, id, RowOp.Update(dto))
  {
    if id !in db.requests {
      return NotFound;
    }
    var r := db.requests[id];
    if r.status in CLOSED {
      return BadRequest;
    }
    if user.role == Tech {
      if !Owns(user, r) {
        return Forbidden;
      }
      var edit := BuildEdit(dto, r);
      if edit.None? {
        return BadRequest;
      }
      if r.status == Approved || r.status == ChangeRequested {
        var e := edit.value;
        db.requests := db.requests[id := r.(
          status := ChangeRequested,
          payload := Some(Payload(Some(e.direction), e.reason, Some(e.pickup), Some(e.lines))))];
        return Done(id);
      }
      if r.status !in TECH_DIRECT_EDIT {
        return BadRequest;
      }
      var ok := ApplyEdits(db, id, edit.value, PendingOrSubmitted(edit.value.pickup, db.now));
      return if ok then Done(id) else UnknownProduct;
    }
    if r.status !in NON_TECH_EDIT {
      return BadRequest;
    }
    var edit := BuildEdit(dto, r);
    if edit.None? {
      return BadRequest;
    }
    var ok := ApplyEdits(db, id, edit.value, PendingOrSubmitted(edit.value.pickup, db.now));
    o := if ok then Done(id) else UnknownProduct;
  }

  method Approve(db: Database, user: User, id: nat) returns (o: Outcome)
    modifies db`requests
    ensures (db.DeskView(), o) == OnRowStep(old(db.DeskView()), user, id, RowOp.Approve)
  {
    if user.role == Tech {
      return Forbidden;
    }
    if id !in db.requests {
      return NotFound;
    }
    if db.requests[id].status != ApprovalPending {
      return BadRequest;
    }
    db.requests := db.requests[id := db.requests[id].(status := Approved)];
    o := Done(id);
  }

  method Deny(db: Database, user: User, id: nat) returns (o: Outcome)
    modifies db`requests
    ensures (db.DeskView(), o) == OnRowStep(old(db.DeskView()), user, id, RowOp.Deny)
  {
    if user.role == Tech {
      return Forbidden;
    }
    if id !in db.requests {
      return NotFound;
    }
    if db.requests[id].status != ApprovalPending {
      return BadRequest;
    }
    db.requests := db.requests[id := db.requests[id].(status := Status.Rejected)];
    o := Done(id);
  }

  method ApproveChanges(db: Database, user: User, id: nat) returns (o: Outcome)
    modifies db`requests, db`nextId
    ensures (db.DeskView(), o) == OnRowStep(old(db.DeskView()), user, id, RowOp.ApproveChanges)
  {
    if user.role == Tech {
      return Forbidden;
    }
    if id !in db.requests {
      return NotFound;
    }
    var r := db.requests[id];
    if r.status != ChangeRequested {
      return BadRequest;
    }
    var edit := ParsePayload(r.payload);
    if edit.None? {
      return BadPayload;
    }
    var ok := ApplyEdits(db, id, edit.value, Approved);
    o := if ok then Done(id) else UnknownProduct;
  }

  method DenyChanges(db: Database, user: User, id: nat) returns (o: Outcome)
    modifies db`requests
    ensures (db.DeskView(), o) == OnRowStep(old(db.DeskView()), user, id, RowOp.DenyChanges)
  {
    if user.role == Tech {
      return Forbidden;
    }
    if id !in db.requests {
      return NotFound;
    }
    if db.requests[id].status != ChangeRequested {
      return BadRequest;
    }
    db.requests := db.requests[id := db.requests[id].(status := Approved, payload := None)];
    o := Done(id);
  }

  method Acknowledge(db: Database, user: User, id: nat) returns (o: Outcome)
    modifies db`requests
    ensures (db.DeskView(), o) == OnRowStep(old(db.DeskView()), user, id, RowOp.Acknowledge)
  {
    if id !in db.requests {
      return NotFound;
    }
    var r := db.requests[id];
    if user.technician.None? || user.technician.value == "" || user.technician.value != r.technician {
      return Forbidden;
    }
    if r.status != AckPending {
      return BadRequest;
    }
    db.requests := db.requests[id := r.(status := Acknowledged)];
    o := Done(id);
  }

  method Dispute(db: Database, user: User, id: nat, noteMissing: bool) returns (o: Outcome)
    modifies db`requests
    ensures (db.DeskView(), o) == OnRowStep(old(db.DeskView()), user, id, RowOp.Dispute(noteMissing))
  {
    if id !in db.requests {
      return NotFound;
    }
    var r := db.requests[id];
    if user.role != Tech || user.technician != Some(r.technician) {
      return Forbidden;
    }
    if r.status != AckPending && r.status != Finalized {
      return BadRequest;
    }
    if r.dispute == DisputeOpen || r.dispute == ManagerResponded {
      return BadRequest;
    }
    if noteMissing {
      return BadRequest;
    }
    db.requests := db.requests[id := r.(dispute := DisputeOpen)];
    o := Done(id);
  }

  method ResolveDispute(db: Database, user: User, id: nat) returns (o: Outcome)
    modifies db`requests
    ensures (db.DeskView(), o) == OnRowStep(old(db.DeskView()), user, id, RowOp.ResolveDispute)
  {
    if user.role == Tech {
      return Forbidden;
    }
    if id !in db.requests {
      return NotFound;
    }
    var r := db.requests[id];
    if r.dispute != DisputeOpen && r.dispute != ManagerResponded {
      return BadRequest;
    }
    db.requests := db.requests[id := r.(dispute := Resolved)];
    o := Done(id);
  }

  method SendBack(db: Database, user: User, id: nat) returns (o: Outcome)
    modifies db`requests
    ensures (db.DeskView(), o) == OnRowStep(old(db.DeskView()), user, id, RowOp.SendBack)
  {
    if user.role == Tech {
      return Forbidden;
    }
    if id !in db.requests {
      return NotFound;
    }
    if db.requests[id].status in CLOSED {
      return BadRequest;
    }
    db.requests := db.requests[id := db.requests[id].(status := Open, payload := None)];
    o := Done(id);
  }

  method Cancel(db: Database, user: User, id: nat, kind: Option<CancelKind>) returns (o: Outcome)
    modifies db`requests
    ensures (db.DeskView(), o) == OnRowStep(old(db.DeskView()), user, id, RowOp.Withdraw(kind))
  {
    if id !in db.requests {
      return NotFound;
    }
    var r := db.requests[id];
    if r.status in CLOSED {
      return BadRequest;
    }
    if r.status !in NON_TECH_EDIT && r.status != Open {
      return BadRequest;
    }
    var warehouse := user.role != Tech;
    var owner := user.role == Tech && Owns(user, r);
    if !warehouse && !owner {
      return Forbidden;
    }
    var action := if kind.Some? then kind.value else if warehouse then Refuse else CancelKind.Cancel;
    if action == Refuse && !warehouse {
      return Forbidden;
    }
    db.requests := db.requests[id := r.(status := if action == Refuse then Status.Rejected else Status.Canceled)];
    o := Done(id);
  }

  // ---- Finalize ----

  // A call that reads and commits with nobody in between.
  function FinalizeStep(w: Desk, id: nat): (Desk, Outcome) {
    var (w1, o) := BeginStep(w, 0, id);
    if o == Started then CommitStep(w1, 0) else (w, o)
  }

  lemma {:induction false} PostingsPrefix(id: nat, r: Request, lines: seq<Line>, catalog: map<ProductId, Product>, n: nat)
    requires n <= |lines|
    ensures FinalizePostings(id, r, lines[..n], catalog) <= FinalizePostings(id, r, lines, catalog)
  {
    if n < |lines| {
      PostingsPrefix(id, r, lines[..|lines| - 1], catalog, n);
      assert lines[..|lines| - 1][..n] == lines[..n];
    } else {
      assert lines[..n] == lines;
    }
  }

  function LinePair(id: nat, r: Request, line: Line, catalog: map<ProductId, Product>): seq<Posting> {
    if line.product !in catalog then []
    else
      var q := LineBase(line, catalog);
      [MovePosting(id, r, line, q, true), MovePosting(id, r, line, q, false)]
  }

  lemma {:induction false} PairsOneMore(id: nat, r: Request, lines: seq<Line>, catalog: map<ProductId, Product>, i: nat)
    requires i < |lines|
    ensures FinalizePostings(id, r, lines[..i + 1], catalog) ==
            FinalizePostings(id, r, lines[..i], catalog) + LinePair(id, r, lines[i], catalog)
  {
    assert lines[..i + 1][..i] == lines[..i] && lines[..i + 1][i] == lines[i];
  }

  // A missing product is skipped.
  method PostLine(db: Database, id: nat, r: Request, line: Line) returns (ok: bool)
    modifies db`ledger, db`balances
    ensures var posted := PostAll(old(db.StoreView()), LinePair(id, r, line, db.catalog));
      ok == posted.Some? && (ok ==> db.StoreView() == posted.value)
  {
    if line.product !in db.catalog {
      return true;
    }
    var q := ToBase(line.quantity, UnitFactor(db.catalog[line.product], line.unit, Tracking));
    var a, b := MovePosting(id, r, line, q, true), MovePosting(id, r, line, q, false);
    assert a.scope != b.scope by { assert "WAREHOUSE"[0] != TruckScope(r.technician)[0]; }
    AppendPairIsPostAll(db.StoreView(), a, b);
    ok := db.PostPair(a, b);
  }

  lemma {:induction false} NoLines(st: Store, id: nat, r: Request, catalog: map<ProductId, Product>)
    ensures PostAll(st, FinalizePostings(id, r, [], catalog)) == Some(st)
  {}

  lemma {:induction false} LineStep(st: Store, mid: Store, id: nat, r: Request, catalog: map<ProductId, Product>, i: nat)
    requires i < |r.lines| && PostAll(st, FinalizePostings(id, r, r.lines[..i], catalog)) == Some(mid)
    ensures PostAll(st, FinalizePostings(id, r, r.lines[..i + 1], catalog)) == PostAll(mid, LinePair(id, r, r.lines[i], catalog))
    ensures PostAll(mid, LinePair(id, r, r.lines[i], catalog)).None? ==> PostAll(st, FinalizePostings(id, r, r.lines, catalog)).None?
  {
    hide PostAll, FinalizePostings, LinePair;
    var all, upTo := FinalizePostings(id, r, r.lines, catalog), FinalizePostings(id, r, r.lines[..i + 1], catalog);
    PairsOneMore(id, r, r.lines, catalog, i);
    Batches.PostAllConcat(st, FinalizePostings(id, r, r.lines[..i], catalog), LinePair(id, r, r.lines[i], catalog));
    PostingsPrefix(id, r, r.lines, catalog, i + 1);
    PostAllPrefix(st, all, |upTo|);
    assert all[..|upTo|] == upTo;
  }

  // The lines' pairs, posted in order inside the transaction.
  method PostLines(db: Database, id: nat, r: Request) returns (ok: bool)
    modifies db`ledger, db`balances
    ensures var posted := PostAll(old(db.StoreView()), FinalizePostings(id, r, r.lines, db.catalog));
      ok == posted.Some? && (ok ==> db.StoreView() == posted.value)
  {
    hide PostAll, FinalizePostings, LinePair;
    ghost var st := db.StoreView();
    NoLines(st, id, r, db.catalog);
    assert r.lines[..0] == [];
    for i := 0 to |r.lines|
      invariant PostAll(st, FinalizePostings(id, r, r.lines[..i], db.catalog)) == Some(db.StoreView())
    {
      LineStep(st, db.StoreView(), id, r, db.catalog, i);
      var posted := PostLine(db, id, r, r.lines[i]);
      if !posted {
        return false;
      }
    }
    assert r.lines[..|r.lines|] == r.lines;
    ok := true;
  }

  method Finalize(db: Database, id: nat) returns (o: Outcome)
    modifies db`ledger, db`balances, db`requests
    ensures (db.DeskView(), o) == FinalizeStep(old(db.DeskView()), id)
  {
    hide PostAll, FinalizePostings;
    if id !in db.requests {
      return NotFound;
    }
    var r := db.requests[id];
    if IsPosted(r.status) {
      return Done(id);
    }
    if r.status == ApprovalPending || r.status == ChangeRequested {
      return BadRequest;
    }
    if r.pickup > db.now && r.status != Approved {
      return BadRequest;
    }
    if !Ready(r.status) {
      return BadRequest;
    }
    var ledger0, balances0 := db.ledger, db.balances;
    var ok := PostLines(db, id, r);
    if !ok {
      db.Rollback(ledger0, balances0);
      return Conflict;
    }
    db.requests := db.requests[id := r.(status := if r.direction == Issue then AckPending else Finalized)];
    o := Done(id);
  }
}
