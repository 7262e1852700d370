// AuditsService as the code runs it: sessions, the line upsert with its frozen
// delta, and the finalize loop with its counters.
module AuditService {
  import opened Audits
  import opened Basics
  import opened Ledger
  import opened Schema
  import opened Units

  method CreateSession(db: Database, scope: Scope) returns (id: nat)
    modifies db`sessions, db`nextId
    ensures db.AuditView() == Do(old(db.AuditView()), Action.CreateSession(scope)).0 && id == old(db.nextId)
  {
    id := db.nextId;
    db.sessions := db.sessions[id := Session(if scope != "" then scope else "WAREHOUSE", Draft, [])];
    db.nextId := id + 1;
  }

  method CheckCount(db: Database, id: nat, product: ProductId, counted: real, basis: Basis) returns (r: Check)
    ensures r == Audits.CheckCount(db.AuditView(), id, product, counted, basis)
  {
    if id !in db.sessions {
      return Refused(NotFound);
    }
    if db.sessions[id].status != Draft {
      return Refused(BadRequest);
    }
    if product !in db.catalog {
      return Refused(NotFound);
    }
    var multiplier := if basis == Checkout then db.catalog[product].checkoutToBase else db.catalog[product].trackingToBase;
    r := Passed(Checked(id, product, ToBase(counted, multiplier)));
  }

  // One call with nothing in between: the checks, the balance, the line.
  method AddLine(db: Database, id: nat, product: ProductId, counted: real, basis: Basis) returns (o: Outcome)
    modifies db`sessions
    ensures (db.AuditView(), o) == AddLineStep(old(db.AuditView()), id, product, counted, basis)
  {
    var r := CheckCount(db, id, product, counted, basis);
    if r.Refused? {
      return r.outcome;
    }
    var session, desired := db.sessions[id], r.call.desired;
    var current := OnHand(db.balances, product, session.scope);
    var lines := Upsert(session.lines, CountedLine(product, desired, desired - current));
    db.sessions := db.sessions[id := session.(lines := lines)];
    o := Done;
  }

  // Replaces the line of the same product, or adds one.
  method Upsert(lines: seq<CountedLine>, line: CountedLine) returns (r: seq<CountedLine>)
    ensures r == SetLine(lines, line)
  {
    var i := 0;
    while i < |lines| && lines[i].product != line.product
      invariant i <= |lines|
      invariant lines[..i] + SetLine(lines[i..], line) == SetLine(lines, line)
    {
      assert lines[i..][1..] == lines[i + 1..];
      assert lines[..i + 1] == lines[..i] + [lines[i]];
      i := i + 1;
    }
    if i == |lines| {
      assert lines[..i] == lines && lines[i..] == [];
      r := lines + [line];
    } else {
      assert lines[i..][1..] == lines[i + 1..];
      r := lines[..i] + [line] + lines[i + 1..];
    }
  }

  // ---- Finalize ----

  lemma {:induction false} AdjustmentsSnoc(id: nat, s: Session, lines: seq<CountedLine>, posted: set<Key>, i: nat)
    requires i < |lines|
    ensures Adjustments(id, s, lines[..i + 1], posted) ==
      if lines[i].delta == 0 || LineKey(id, s, lines[i]) in posted then Adjustments(id, s, lines[..i], posted)
      else Adjustments(id, s, lines[..i], posted) + [Posting(lines[i].product, s.scope, lines[i].delta, Adjustment, LineKey(id, s, lines[i]))]
    ensures ZeroLines(lines[..i + 1]) == ZeroLines(lines[..i]) + if lines[i].delta == 0 then 1 else 0
  {
    assert lines[..i + 1][..i] == lines[..i] && lines[..i + 1][i] == lines[i];
  }

  // Lines of one session are of different products, so the loop's own postings
  // never take the key of a later line.
  lemma {:induction false} KeyStillFree(id: nat, s: Session, lines: seq<CountedLine>, st: Store, mid: Store, i: nat)
    requires ProductsOnce(lines) && i < |lines|
    requires PostAll(st, Adjustments(id, s, lines[..i], Keys(st.ledger))) == Some(mid)
    ensures LineKey(id, s, lines[i]) in Keys(mid.ledger) <==> LineKey(id, s, lines[i]) in Keys(st.ledger)
  {
    hide Adjustments;
    var ps := Adjustments(id, s, lines[..i], Keys(st.ledger));
    PostAllEffect(st, ps);
    AdjustmentsMembers(id, s, lines[..i], Keys(st.ledger));
    forall p | p in ps ensures p.key != LineKey(id, s, lines[i]) {
      var l :| l in lines[..i] && l.product == p.product;
      var j :| 0 <= j < i && lines[j] == l;
      assert lines[j].product != lines[i].product;
    }
  }

  lemma {:induction false} PostAllSnoc(st: Store, mid: Store, ps: seq<Posting>, p: Posting)
    requires PostAll(st, ps) == Some(mid) && p.key !in Keys(mid.ledger)
    ensures PostAll(st, ps + [p]) == Some(Append(mid, p))
  {
    assert (ps + [p])[..|ps|] == ps;
  }

  // The transaction, on the session as the call read it, whatever has happened to
  // the tables since.
  method CommitFinalize(db: Database, c: FinalizeCall) returns (o: Outcome)
    requires FinalizeOk(db.AuditView(), c)
    modifies db`ledger, db`balances, db`sessions
    ensures (db.AuditView(), o) == FinalizeAt(old(db.AuditView()), c)
  {
    hide Adjustments, PostAll, ZeroLines;
    var id, session, lines := c.session, c.read, c.read.lines;
    var adjusted, zero := 0, 0;
    ghost var st := db.StoreView();
    ghost var posted := Keys(st.ledger);
    NoAdjustments(id, session, st);
    assert lines[..0] == [];
    for i := 0 to |lines|
      invariant PostAll(st, Adjustments(id, session, lines[..i], posted)) == Some(db.StoreView())
      invariant db.sessions == old(db.sessions)
      invariant adjusted == |Adjustments(id, session, lines[..i], posted)| && zero == ZeroLines(lines[..i])
    {
      var line := lines[i];
      AdjustmentsSnoc(id, session, lines, posted, i);
      KeyStillFree(id, session, lines, st, db.StoreView(), i);
      if line.delta == 0 {
        zero := zero + 1;
      } else if LineKey(id, session, line) !in Keys(db.ledger) {
        var p := Posting(line.product, session.scope, line.delta, Adjustment, LineKey(id, session, line));
        PostAllSnoc(st, db.StoreView(), Adjustments(id, session, lines[..i], posted), p);
        var ok := db.Post(p);
        assert ok;
        adjusted := adjusted + 1;
      }
    }
    assert lines[..|lines|] == lines;
    if session.status == Draft {
      db.sessions := db.sessions[id := db.sessions[id].(status := Finalized)];
    }
    o := Summary(|lines|, adjusted, zero);
  }

  // One call with nothing in between.
  method Finalize(db: Database, id: nat) returns (o: Outcome)
    requires id in db.sessions ==> ProductsOnce(db.sessions[id].lines)
    modifies db`ledger, db`balances, db`sessions
    ensures (db.AuditView(), o) == FinalizeStep(old(db.AuditView()), id)
  {
    if id !in db.sessions {
      return NotFound;
    }
    o := CommitFinalize(db, FinalizeCall(id, db.sessions[id]));
  }

  lemma {:induction false} NoAdjustments(id: nat, s: Session, st: Store)
    ensures Adjustments(id, s, [], Keys(st.ledger)) == [] && PostAll(st, []) == Some(st) && ZeroLines([]) == 0
  {}
}
