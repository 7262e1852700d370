// Audit sessions: a delta is fixed when a line is counted and applied when the
// session is finalized, by which time the balance may have moved. A count checks its
// session, then reads the balance, then writes its line; a finalize call reads the
// lines before its transaction. Between these, other calls may run.
module Audits {
  import opened Basics
  import opened Ledger
  import opened Units

  datatype AuditStatus = Draft | Finalized
  datatype CountedLine = CountedLine(product: ProductId, desired: int, delta: int)
  datatype Session = Session(scope: Scope, status: AuditStatus, lines: seq<CountedLine>)

  // What a count carries from one statement to the next.
  datatype CountCall =
    | Checked(session: nat, product: ProductId, desired: int)
    | Measured(session: nat, line: CountedLine)

  // A finalize call carries the session as it read it.
  datatype FinalizeCall = FinalizeCall(session: nat, read: Session)

  datatype AuditBook = AuditBook(
    store: Store, sessions: map<nat, Session>, catalog: map<ProductId, Product>, nextId: nat,
    counting: map<nat, CountCall>, finalizing: map<nat, FinalizeCall>)

  datatype Action =
    | CreateSession(scope: Scope)
    | AddLine(session: nat, product: ProductId, counted: real, basis: Basis)   // all three statements at once
    | BeginCount(call: nat, session: nat, product: ProductId, counted: real, basis: Basis)
    | Measure(call: nat)
    | WriteLine(call: nat)
    | Finalize(session: nat)                                                   // read and transaction at once
    | BeginFinalize(call: nat, session: nat)
    | CommitFinalize(call: nat)
    | Drop(call: nat)                                                          // the call ends without committing
    | SetProduct(product: ProductId, row: Product)
    | Foreign(postings: seq<Posting>)

  datatype Outcome = Done | Summary(total: nat, adjusted: nat, zero: nat) | NotFound | BadRequest | Conflict

  // A session line counts in checkout units or in tracking units.
  function CountedBase(product: Product, counted: real, basis: Basis): int {
    ToBase(counted, if basis == Checkout then product.checkoutToBase else product.trackingToBase)
  }

  // Upsert on (session, product).
  function SetLine(lines: seq<CountedLine>, l: CountedLine): seq<CountedLine> {
    if lines == [] then [l]
    else if lines[0].product == l.product then [l] + lines[1..]
    else [lines[0]] + SetLine(lines[1..], l)
  }

  // ---- Counting ----

  datatype Check = Refused(outcome: Outcome) | Passed(call: CountCall)

  function CheckCount(w: AuditBook, id: nat, product: ProductId, counted: real, basis: Basis): Check {
    if id !in w.sessions then Refused(NotFound)
    else if w.sessions[id].status != Draft then Refused(BadRequest)
    else if product !in w.catalog then Refused(NotFound)
    else Passed(Checked(id, product, CountedBase(w.catalog[product], counted, basis)))
  }

  function MeasureAt(w: AuditBook, c: CountCall): CountCall
    requires c.Checked?
  {
    var scope := if c.session in w.sessions then w.sessions[c.session].scope else "";
    Measured(c.session, CountedLine(c.product, c.desired, c.desired - OnHand(w.store.balances, c.product, scope)))
  }

  // The write does not look at the session's status again.
  function WriteAt(w: AuditBook, c: CountCall): (AuditBook, Outcome)
    requires c.Measured?
  {
    if c.session !in w.sessions then (w, NotFound)
    else
      var s := w.sessions[c.session];
      (w.(sessions := w.sessions[c.session := s.(lines := SetLine(s.lines, c.line))]), Done)
  }

  function AddLineStep(w: AuditBook, id: nat, product: ProductId, counted: real, basis: Basis): (AuditBook, Outcome) {
    match CheckCount(w, id, product, counted, basis)
    case Refused(o) => (w, o)
    case Passed(c) => WriteAt(w, MeasureAt(w, c))
  }

  // ---- Finalizing ----

  function LineKey(id: nat, s: Session, l: CountedLine): Key { AuditLine(id, s.scope, l.product) }

  // Lines with a zero delta, and lines already posted, are passed over.
  function Adjustments(id: nat, s: Session, lines: seq<CountedLine>, posted: set<Key>): seq<Posting> {
    if lines == [] then [] else
      var l := lines[|lines| - 1];
      Adjustments(id, s, lines[..|lines| - 1], posted) +
      (if l.delta == 0 || LineKey(id, s, l) in posted then []
       else [Posting(l.product, s.scope, l.delta, Adjustment, LineKey(id, s, l))])
  }

  function ZeroLines(lines: seq<CountedLine>): nat {
    if lines == [] then 0 else ZeroLines(lines[..|lines| - 1]) + (if lines[|lines| - 1].delta == 0 then 1 else 0)
  }

  // The transaction posts the lines that were read.
  function FinalizeAt(w: AuditBook, c: FinalizeCall): (AuditBook, Outcome) {
    var ps := Adjustments(c.session, c.read, c.read.lines, Keys(w.store.ledger));
    var r := PostAll(w.store, ps);
    if c.session !in w.sessions then (w, NotFound)
    else if r.None? then (w, Conflict)
    else (w.(store := r.value, sessions := if c.read.status != Draft then w.sessions else w.sessions[c.session := w.sessions[c.session].(status := Finalized)]),
          Summary(|c.read.lines|, |ps|, ZeroLines(c.read.lines)))
  }

  function FinalizeStep(w: AuditBook, id: nat): (AuditBook, Outcome) {
    if id !in w.sessions then (w, NotFound) else FinalizeAt(w, FinalizeCall(id, w.sessions[id]))
  }

  // ---- The machine ----

  function Do(w: AuditBook, a: Action): (AuditBook, Outcome) {
    match a
    case CreateSession(scope) =>
      (w.(sessions := w.sessions[w.nextId := Session(if scope == "" then "WAREHOUSE" else scope, Draft, [])], nextId := w.nextId + 1), Done)
    case AddLine(id, product, counted, basis) => AddLineStep(w, id, product, counted, basis)
    case BeginCount(call, id, product, counted, basis) =>
      (match CheckCount(w, id, product, counted, basis)
       case Refused(o) => (w, o)
       case Passed(c) => (if call in w.counting then w else w.(counting := w.counting[call := c]), Done))
    case Measure(call) =>
      if call !in w.counting || w.counting[call].Measured? then (w, NotFound)
      else (w.(counting := w.counting[call := MeasureAt(w, w.counting[call])]), Done)
    case WriteLine(call) =>
      if call !in w.counting || w.counting[call].Checked? then (w, NotFound)
      else WriteAt(w.(counting := w.counting - {call}), w.counting[call])
    case Finalize(id) => FinalizeStep(w, id)
    case BeginFinalize(call, id) =>
      if id !in w.sessions then (w, NotFound)
      else (if call in w.finalizing then w else w.(finalizing := w.finalizing[call := FinalizeCall(id, w.sessions[id])]), Done)
    case CommitFinalize(call) =>
      if call !in w.finalizing then (w, NotFound)
      else FinalizeAt(w.(finalizing := w.finalizing - {call}), w.finalizing[call])
    case Drop(call) => (w.(counting := w.counting - {call}, finalizing := w.finalizing - {call}), Done)
    case SetProduct(p, row) => (w.(catalog := w.catalog[p := row]), Done)
    case Foreign(ps) => (if exists p | p in ps :: p.key.AuditLine? then w else w.(store := Commit(w.store, ps)), Done)
  }

  function Next(w: AuditBook, a: Action): AuditBook { Do(w, a).0 }

  function Run(w: AuditBook, actions: seq<Action>): AuditBook {
    if actions == [] then w else Next(Run(w, actions[..|actions| - 1]), actions[|actions| - 1])
  }

  predicate Initial(w: AuditBook) {
    w.store == Empty && w.sessions == map[] && w.counting == map[] && w.finalizing == map[]
  }

  // ---- What holds in every interleaving ----

  ghost predicate ProductsOnce(lines: seq<CountedLine>) {
    forall i, j | 0 <= i < j < |lines| :: lines[i].product != lines[j].product
  }

  ghost predicate SessionsOk(w: AuditBook) {
    forall id | id in w.sessions :: id < w.nextId && ProductsOnce(w.sessions[id].lines)
  }

  ghost predicate CallsOk(w: AuditBook) {
    && (forall call | call in w.counting :: w.counting[call].session in w.sessions)
    && forall call | call in w.finalizing :: FinalizeOk(w, w.finalizing[call])
  }

  ghost predicate FinalizeOk(w: AuditBook, c: FinalizeCall) {
    && c.session in w.sessions && c.read.scope == w.sessions[c.session].scope && ProductsOnce(c.read.lines)
    && (c.read.status == Finalized ==> w.sessions[c.session].status == Finalized)
  }

  // Only finalized sessions have entries.
  ghost predicate KeysOk(w: AuditBook) {
    forall k | k in Keys(w.store.ledger) && k.AuditLine? :: k.session in w.sessions && w.sessions[k.session].status == Finalized
  }

  ghost predicate Inv(w: AuditBook) {
    SessionsOk(w) && CallsOk(w) && KeysOk(w)
  }

  lemma {:induction false} SetLineOnce(lines: seq<CountedLine>, l: CountedLine)
    requires ProductsOnce(lines)
    ensures ProductsOnce(SetLine(lines, l))
    ensures forall m :: m in SetLine(lines, l) <==> m == l || (m in lines && m.product != l.product)
  {
    if lines != [] {
      assert lines == [lines[0]] + lines[1..];
      if lines[0].product == l.product {
        forall m | m in lines[1..] ensures m.product != l.product {}
      } else {
        SetLineOnce(lines[1..], l);
        var r := SetLine(lines[1..], l);
        forall j | 0 <= j < |r| ensures r[j].product != lines[0].product { assert r[j] in r; }
      }
    }
  }

  ghost predicate FreshAmong(ps: seq<Posting>) {
    forall i, j | 0 <= i < j < |ps| :: ps[i].key != ps[j].key
  }

  // A posting is that of a line read with a delta, under a key that was free.
  ghost predicate AdjustsLine(p: Posting, id: nat, s: Session, lines: seq<CountedLine>, posted: set<Key>) {
    && p.key == AuditLine(id, s.scope, p.product) && p.key !in posted
    && exists l :: l in lines && l.product == p.product && l.delta != 0
  }

  lemma {:induction false} AdjustmentsMembers(id: nat, s: Session, lines: seq<CountedLine>, posted: set<Key>)
    requires ProductsOnce(lines)
    ensures forall p | p in Adjustments(id, s, lines, posted) :: AdjustsLine(p, id, s, lines, posted)
    ensures forall l | l in lines && l.delta != 0 :: LineKey(id, s, l) in posted + PostingKeys(Adjustments(id, s, lines, posted))
    ensures FreshAmong(Adjustments(id, s, lines, posted))
  {
    if lines != [] {
      var front, last := lines[..|lines| - 1], lines[|lines| - 1];
      assert lines == front + [last];
      AdjustmentsMembers(id, s, front, posted);
      var fs, ps := Adjustments(id, s, front, posted), Adjustments(id, s, lines, posted);
      forall p | p in fs ensures AdjustsLine(p, id, s, lines, posted) { assert AdjustsLine(p, id, s, front, posted); }
      forall i | 0 <= i < |fs| ensures fs[i].key != LineKey(id, s, last) {
        assert AdjustsLine(fs[i], id, s, front, posted);
      }
      if ps != fs {
        assert ps[|fs|] in ps;
        assert last in lines;
      }
      assert PostingKeys(fs) <= PostingKeys(ps);
    }
  }

  // The keys are looked up inside the transaction, so it never fails on one, however
  // many finalize calls overlap.
  lemma {:induction false} FinalizeCommits(w: AuditBook, c: FinalizeCall)
    requires FinalizeOk(w, c)
    ensures FinalizeAt(w, c).1.Summary?
    ensures PostAll(w.store, Adjustments(c.session, c.read, c.read.lines, Keys(w.store.ledger))) == Some(FinalizeAt(w, c).0.store)
  {
    var ps := Adjustments(c.session, c.read, c.read.lines, Keys(w.store.ledger));
    AdjustmentsMembers(c.session, c.read, c.read.lines, Keys(w.store.ledger));
    forall i | 0 <= i < |ps| ensures ps[i].key !in Keys(w.store.ledger) { assert ps[i] in ps; }
    PostAllCommits(w.store, ps);
  }

  lemma {:induction false} FinalizeKeeps(w: AuditBook, c: FinalizeCall)
    requires Inv(w) && FinalizeOk(w, c)
    ensures Inv(FinalizeAt(w, c).0)
  {
    hide PostAll, Adjustments, ZeroLines, ProductsOnce;
    var w', ps := FinalizeAt(w, c).0, Adjustments(c.session, c.read, c.read.lines, Keys(w.store.ledger));
    FinalizeCommits(w, c);
    PostAllEffect(w.store, ps);
    AdjustmentsMembers(c.session, c.read, c.read.lines, Keys(w.store.ledger));
    forall call | call in w'.finalizing ensures FinalizeOk(w', w'.finalizing[call]) { assert FinalizeOk(w, w.finalizing[call]); }
  }

  lemma {:induction false} WriteKeeps(w: AuditBook, c: CountCall)
    requires Inv(w) && c.Measured? && c.session in w.sessions
    ensures Inv(WriteAt(w, c).0)
  {
    hide ProductsOnce, SetLine;
    var w' := WriteAt(w, c).0;
    SetLineOnce(w.sessions[c.session].lines, c.line);
    forall call | call in w'.finalizing ensures FinalizeOk(w', w'.finalizing[call]) { assert FinalizeOk(w, w.finalizing[call]); }
  }

  lemma {:induction false} ForeignKeeps(w: AuditBook, ps: seq<Posting>)
    requires Inv(w) && !exists p | p in ps :: p.key.AuditLine?
    ensures Inv(w.(store := Commit(w.store, ps)))
  {
    hide ProductsOnce;
    PostAllEffect(w.store, ps);
    assert forall k | k in PostingKeys(ps) :: !k.AuditLine?;
    forall call | call in w.finalizing ensures FinalizeOk(w.(store := Commit(w.store, ps)), w.finalizing[call]) {
      assert FinalizeOk(w, w.finalizing[call]);
    }
  }

  // Reads, new sessions, dropped calls and catalog changes.
  lemma {:induction false} OtherKeeps(w: AuditBook, a: Action)
    requires Inv(w) && (a.CreateSession? || a.BeginCount? || a.Measure? || a.BeginFinalize? || a.Drop? || a.SetProduct?)
    ensures Inv(Next(w, a))
  {
    hide CountedBase, OnHand;
    var w' := Next(w, a);
    forall call | call in w'.finalizing ensures FinalizeOk(w', w'.finalizing[call]) {
      if call in w.finalizing { assert FinalizeOk(w, w.finalizing[call]); }
    }
  }

  lemma {:induction false} DropKeeps(w: AuditBook, call: nat)
    requires Inv(w)
    ensures call in w.counting ==> var v := w.(counting := w.counting - {call}); Inv(v) && w.counting[call].session in v.sessions
    ensures call in w.finalizing ==> var v := w.(finalizing := w.finalizing - {call}); Inv(v) && FinalizeOk(v, w.finalizing[call])
  {
    var v, u := w.(finalizing := w.finalizing - {call}), w.(counting := w.counting - {call});
    forall c | c in w.finalizing ensures FinalizeOk(v, w.finalizing[c]) && FinalizeOk(u, w.finalizing[c]) { assert FinalizeOk(w, w.finalizing[c]); }
  }

  lemma {:induction false} StepKeeps(w: AuditBook, a: Action)
    requires Inv(w)
    ensures Inv(Next(w, a))
  {
    hide WriteAt, FinalizeAt, Commit, SessionsOk, KeysOk, CountedBase;
    match a
    case AddLine(id, product, counted, basis) =>
      if CheckCount(w, id, product, counted, basis).Passed? { WriteKeeps(w, MeasureAt(w, CheckCount(w, id, product, counted, basis).call)); }
    case WriteLine(call) =>
      if call in w.counting && w.counting[call].Measured? {
        DropKeeps(w, call);
        WriteKeeps(w.(counting := w.counting - {call}), w.counting[call]);
      }
    case Finalize(id) => if id in w.sessions { ReadOk(w, id); FinalizeKeeps(w, FinalizeCall(id, w.sessions[id])); }
    case CommitFinalize(call) =>
      if call in w.finalizing {
        DropKeeps(w, call);
        FinalizeKeeps(w.(finalizing := w.finalizing - {call}), w.finalizing[call]);
      }
    case Foreign(ps) => if !exists p | p in ps :: p.key.AuditLine? { ForeignKeeps(w, ps); }
    case _ => OtherKeeps(w, a);
  }

  lemma {:induction false} ReadOk(w: AuditBook, id: nat)
    requires Inv(w) && id in w.sessions
    ensures FinalizeOk(w, FinalizeCall(id, w.sessions[id]))
  {}

  lemma {:induction false} RunKeeps(w: AuditBook, actions: seq<Action>)
    requires Inv(w)
    ensures Inv(Run(w, actions))
  {
    hide Inv, Next;
    if actions != [] {
      RunKeeps(w, actions[..|actions| - 1]);
      StepKeeps(Run(w, actions[..|actions| - 1]), actions[|actions| - 1]);
    }
  }

  lemma {:induction false} InitialInv(w: AuditBook)
    requires Initial(w)
    ensures Inv(w)
  {}

  // ---- How far a step moves a balance ----

  // The ledger grew, and every balance moved by the net of what was added.
  ghost predicate Moved(st: Store, st': Store) {
    && st.ledger <= st'.ledger
    && forall p, s :: OnHand(st'.balances, p, s) == OnHand(st.balances, p, s) + Net(Postings(st'.ledger[|st.ledger|..]), Pair(p, s))
  }

  lemma {:induction false} PostedMoves(st: Store, ps: seq<Posting>)
    ensures Moved(st, Commit(st, ps))
  {
    var st' := Commit(st, ps);
    PostAllEffect(st, ps);
    if PostAll(st, ps).Some? {
      assert Postings(st'.ledger[|st.ledger|..]) == Postings(st'.ledger)[|st.ledger|..] == ps;
    } else {
      assert Postings(st'.ledger[|st.ledger|..]) == [];
    }
  }

  lemma {:induction false} StillMoves(st: Store)
    ensures Moved(st, st)
  {
    assert Postings(st.ledger[|st.ledger|..]) == [];
  }

  lemma {:induction false} MovesOn(a: Store, b: Store, c: Store)
    requires Moved(a, b) && Moved(b, c)
    ensures Moved(a, c)
  {
    assert c.ledger[|a.ledger|..] == b.ledger[|a.ledger|..] + c.ledger[|b.ledger|..];
    PostingsConcat(b.ledger[|a.ledger|..], c.ledger[|b.ledger|..]);
    forall p, s ensures OnHand(c.balances, p, s) == OnHand(a.balances, p, s) + Net(Postings(c.ledger[|a.ledger|..]), Pair(p, s)) {
      NetConcat(Postings(b.ledger[|a.ledger|..]), Postings(c.ledger[|b.ledger|..]), Pair(p, s));
    }
  }

  lemma {:induction false} StepMoves(w: AuditBook, a: Action)
    ensures Moved(w.store, Next(w, a).store)
  {
    hide Moved, PostAll, Adjustments, ZeroLines, CountedBase, OnHand;
    StillMoves(w.store);
    match a
    case Finalize(id) =>
      if id in w.sessions { PostedMoves(w.store, Adjustments(id, w.sessions[id], w.sessions[id].lines, Keys(w.store.ledger))); }
    case CommitFinalize(call) =>
      if call in w.finalizing {
        var c := w.finalizing[call];
        PostedMoves(w.store, Adjustments(c.session, c.read, c.read.lines, Keys(w.store.ledger)));
      }
    case Foreign(ps) => PostedMoves(w.store, ps);
    case _ =>
  }

  lemma {:induction false} RunMoves(w: AuditBook, actions: seq<Action>)
    ensures Moved(w.store, Run(w, actions).store)
  {
    hide Moved, Next;
    if actions == [] {
      StillMoves(w.store);
    } else {
      var v := Run(w, actions[..|actions| - 1]);
      RunMoves(w, actions[..|actions| - 1]);
      StepMoves(v, actions[|actions| - 1]);
      MovesOn(w.store, v.store, Run(w, actions).store);
    }
  }

  // ---- Movement between count and finalize ----

  // The delta that a finalize transaction applies to a product: that of the line it
  // read, unless it is posted already.
  function Applied(id: nat, read: Session, lines: seq<CountedLine>, posted: set<Key>, product: ProductId): int {
    if lines == [] then 0 else
      var l := lines[|lines| - 1];
      if l.product == product then (if LineKey(id, read, l) in posted then 0 else l.delta)
      else Applied(id, read, lines[..|lines| - 1], posted, product)
  }

  lemma {:induction false} AdjustmentNet(id: nat, s: Session, lines: seq<CountedLine>, posted: set<Key>, product: ProductId)
    requires ProductsOnce(lines)
    ensures Net(Adjustments(id, s, lines, posted), Pair(product, s.scope)) == Applied(id, s, lines, posted, product)
  {
    hide LineKey, Net;
    if lines == [] {
      NetOfNone(Pair(product, s.scope));
    } else {
      var front, last := lines[..|lines| - 1], lines[|lines| - 1];
      AdjustmentNet(id, s, front, posted, product);
      NetOfLine(Adjustments(id, s, front, posted), Posting(last.product, s.scope, last.delta, Adjustment, LineKey(id, s, last)), product);
      if last.product == product { NotBefore(id, s, front, posted, product); }
    }
  }

  lemma {:induction false} NetOfNone(f: Filter)
    ensures Net([], f) == 0
  {}

  lemma {:induction false} NetOfLine(ps: seq<Posting>, p: Posting, product: ProductId)
    ensures Net(ps + [p], Pair(product, p.scope)) == Net(ps, Pair(product, p.scope)) + if p.product == product then p.quantity else 0
    ensures ps + [] == ps
  {
    assert (ps + [p])[..|ps|] == ps;
  }

  lemma {:induction false} NotBefore(id: nat, s: Session, lines: seq<CountedLine>, posted: set<Key>, product: ProductId)
    requires forall i | 0 <= i < |lines| :: lines[i].product != product
    ensures Applied(id, s, lines, posted, product) == 0
  {
    if lines != [] { NotBefore(id, s, lines[..|lines| - 1], posted, product); }
  }

  lemma {:induction false} AppliedLine(id: nat, s: Session, lines: seq<CountedLine>, posted: set<Key>, l: CountedLine)
    requires ProductsOnce(lines) && l in lines
    ensures Applied(id, s, lines, posted, l.product) == if LineKey(id, s, l) in posted then 0 else l.delta
  {
    var front, last := lines[..|lines| - 1], lines[|lines| - 1];
    assert lines == front + [last];
    if l != last {
      var i :| 0 <= i < |front| && front[i] == l;
      assert lines[i].product != lines[|front|].product;
      AppliedLine(id, s, front, posted, l);
    }
  }

  lemma {:induction false} FinalizeApplies(v: AuditBook, c: FinalizeCall, product: ProductId)
    requires FinalizeOk(v, c)
    ensures OnHand(FinalizeAt(v, c).0.store.balances, product, c.read.scope)
            == OnHand(v.store.balances, product, c.read.scope) + Applied(c.session, c.read, c.read.lines, Keys(v.store.ledger), product)
  {
    hide PostAll, Adjustments, ZeroLines, Applied;
    FinalizeCommits(v, c);
    AdjustmentNet(c.session, c.read, c.read.lines, Keys(v.store.ledger), product);
    PostAllEffect(v.store, Adjustments(c.session, c.read, c.read.lines, Keys(v.store.ledger)));
  }

  // A line is what was wanted on hand when its balance was read, whenever it was
  // written and however often the session's other lines were.
  ghost predicate CountedIn(w: AuditBook, scope: Scope, l: CountedLine) {
    l.delta == l.desired - OnHand(w.store.balances, l.product, scope)
  }

  // A line measured in w; then any interleaving; then a finalize transaction. The
  // balance is then what was counted plus everything posted since the balance was
  // read, exactly if the transaction applies that line's delta.
  lemma {:induction false} MovementPreservedIff(w: AuditBook, l: CountedLine, actions: seq<Action>, c: FinalizeCall)
    requires FinalizeOk(Run(w, actions), c) && CountedIn(w, c.read.scope, l)
    ensures var v := Run(w, actions);
      && w.store.ledger <= v.store.ledger
      && (OnHand(FinalizeAt(v, c).0.store.balances, l.product, c.read.scope)
            == l.desired + Net(Postings(v.store.ledger[|w.store.ledger|..]), Pair(l.product, c.read.scope))
          <==> Applied(c.session, c.read, c.read.lines, Keys(v.store.ledger), l.product) == l.delta)
  {
    hide Run, FinalizeAt, Applied, ProductsOnce;
    RunMoves(w, actions);
    FinalizeApplies(Run(w, actions), c, l.product);
  }

  // So it holds for every line that the finalize call read and that is not yet posted.
  lemma {:induction false} MovementPreserved(w: AuditBook, l: CountedLine, actions: seq<Action>, c: FinalizeCall)
    requires FinalizeOk(Run(w, actions), c) && CountedIn(w, c.read.scope, l) && l in c.read.lines
    requires LineKey(c.session, c.read, l) !in Keys(Run(w, actions).store.ledger)
    ensures var v := Run(w, actions);
      && w.store.ledger <= v.store.ledger
      && OnHand(FinalizeAt(v, c).0.store.balances, l.product, c.read.scope)
         == l.desired + Net(Postings(v.store.ledger[|w.store.ledger|..]), Pair(l.product, c.read.scope))
  {
    hide Run, FinalizeAt, Applied, ProductsOnce;
    MovementPreservedIff(w, l, actions, c);
    AppliedLine(c.session, c.read, c.read.lines, Keys(Run(w, actions).store.ledger), l);
  }

  // ---- What a count writes ----

  // Base units of the unit that is counted in: the checkout unit, or else the tracking
  // unit.
  ghost predicate CountedAs(product: Product, counted: real, basis: Basis, base: int) {
    base == Round(counted * (if basis == Checkout then product.checkoutToBase else product.trackingToBase) as real)
  }

  // A count is taken exactly for a draft session and a known product. Its line wants
  // what was counted, and its delta is what that lacks of the session's scope.
  lemma {:induction false} CountWrites(w: AuditBook, id: nat, product: ProductId, counted: real, basis: Basis)
    ensures AddLineStep(w, id, product, counted, basis).1 == Done <==>
      id in w.sessions && w.sessions[id].status == Draft && product in w.catalog
    ensures AddLineStep(w, id, product, counted, basis).1 != Done ==>
      AddLineStep(w, id, product, counted, basis) == (w, if id in w.sessions && w.sessions[id].status != Draft then BadRequest else NotFound)
    ensures AddLineStep(w, id, product, counted, basis).1 == Done ==>
      var w' := AddLineStep(w, id, product, counted, basis).0;
      && id in w.sessions && id in w'.sessions && product in w.catalog
      && var (s, s') := (w.sessions[id], w'.sessions[id]);
      && w' == w.(sessions := w.sessions[id := s']) && s' == s.(lines := s'.lines)
      && var l := LineOf(s'.lines, product);
      && l.Some? && CountedAs(w.catalog[product], counted, basis, l.value.desired)
      && l.value.delta == l.value.desired - OnHand(w.store.balances, product, s.scope)
      && forall p | p != product :: LineOf(s'.lines, p) == LineOf(s.lines, p)
  {
    hide LineOf, SetLine, OnHand;
    if id in w.sessions && w.sessions[id].status == Draft && product in w.catalog {
      var c := CheckCount(w, id, product, counted, basis).call;
      forall p ensures LineOf(SetLine(w.sessions[id].lines, MeasureAt(w, c).line), p) ==
          if product == p then Some(MeasureAt(w, c).line) else LineOf(w.sessions[id].lines, p) {
        SetLineOf(w.sessions[id].lines, MeasureAt(w, c).line, p);
      }
    }
  }

  // A session is for the scope it names, or the warehouse.
  lemma {:induction false} SessionStarts(w: AuditBook, scope: Scope)
    requires Inv(w)
    ensures var w' := Next(w, CreateSession(scope));
      && w.nextId !in w.sessions && w'.nextId == w.nextId + 1 && w'.store == w.store
      && w'.sessions == w.sessions[w.nextId := Session(if scope == "" then "WAREHOUSE" else scope, Draft, [])]
  {
    hide CallsOk, KeysOk, ProductsOnce;
  }

  // What a finalize answers: the lines it read, the entries it made, all adjustments of
  // the session, and how many lines had nothing to adjust.
  lemma {:induction false} FinalizeAnswers(v: AuditBook, c: FinalizeCall)
    requires FinalizeOk(v, c)
    ensures var (v', o) := FinalizeAt(v, c);
      && o.Summary? && o.total == |c.read.lines|
      && v.store.ledger <= v'.store.ledger && o.adjusted == |Since(v.store, v'.store)|
      && o.zero == |ZerosAt(c.read.lines)|
      && forall p | p in Since(v.store, v'.store) ::
           p.kind == Adjustment && p.scope == c.read.scope && p.key == AuditLine(c.session, c.read.scope, p.product)
  {
    hide PostAll, Adjustments, ZeroLines, ProductsOnce;
    FinalizeCommits(v, c);
    var ps := Adjustments(c.session, c.read, c.read.lines, Keys(v.store.ledger));
    PostAllEffect(v.store, ps);
    var l := FinalizeAt(v, c).0.store.ledger;
    assert Postings(l[|v.store.ledger|..]) == Postings(l)[|v.store.ledger|..] == ps;
    AdjustmentsKinds(c.session, c.read, c.read.lines, Keys(v.store.ledger));
    ZeroCount(c.read.lines);
  }

  lemma {:induction false} AdjustmentsKinds(id: nat, s: Session, lines: seq<CountedLine>, posted: set<Key>)
    ensures forall p | p in Adjustments(id, s, lines, posted) ::
      p.kind == Adjustment && p.scope == s.scope && p.key == AuditLine(id, s.scope, p.product)
  {
    if lines != [] { AdjustmentsKinds(id, s, lines[..|lines| - 1], posted); }
  }

  ghost function ZerosAt(lines: seq<CountedLine>): set<nat> { set i: nat | i < |lines| && lines[i].delta == 0 }

  lemma {:induction false} ZeroCount(lines: seq<CountedLine>)
    ensures ZeroLines(lines) == |ZerosAt(lines)|
  {
    if lines == [] {
      assert ZerosAt(lines) == {};
    } else {
      var n := |lines| - 1;
      ZeroCount(lines[..n]);
      assert ZerosAt(lines) == if lines[n].delta == 0 then ZerosAt(lines[..n]) + {n} else ZerosAt(lines[..n]);
      assert n !in ZerosAt(lines[..n]);
    }
  }

  // ---- Which count a finalize applies, over a run ----

  // The measured line that an action writes to its session.
  function WriteOf(w: AuditBook, a: Action): Option<CountCall> {
    match a
    case AddLine(id, product, counted, basis) =>
      var r := CheckCount(w, id, product, counted, basis);
      if r.Passed? then Some(MeasureAt(w, r.call)) else None
    case WriteLine(call) =>
      if call in w.counting && w.counting[call].Measured? && w.counting[call].session in w.sessions then Some(w.counting[call]) else None
    case _ => None
  }

  // The line of the session and product that was written last.
  function LastWritten(w: AuditBook, actions: seq<Action>, id: nat, product: ProductId): Option<CountedLine> {
    if actions == [] then None else
      var x := WriteOf(Run(w, actions[..|actions| - 1]), actions[|actions| - 1]);
      if x.Some? && x.value.Measured? && x.value.session == id && x.value.line.product == product then Some(x.value.line)
      else LastWritten(w, actions[..|actions| - 1], id, product)
  }

  function LineOf(lines: seq<CountedLine>, product: ProductId): Option<CountedLine> {
    if lines == [] then None
    else if lines[0].product == product then Some(lines[0])
    else LineOf(lines[1..], product)
  }

  lemma {:induction false} SetLineOf(lines: seq<CountedLine>, l: CountedLine, product: ProductId)
    ensures LineOf(SetLine(lines, l), product) == if l.product == product then Some(l) else LineOf(lines, product)
  {
    if lines != [] { SetLineOf(lines[1..], l, product); }
  }

  lemma {:induction false} LineOfSession(lines: seq<CountedLine>, product: ProductId)
    ensures LineOf(lines, product).None? ==> forall l | l in lines :: l.product != product
    ensures LineOf(lines, product).Some? ==> LineOf(lines, product).value in lines && LineOf(lines, product).value.product == product
  {
    if lines != [] { LineOfSession(lines[1..], product); }
  }

  ghost predicate SessionFollows(w: AuditBook, w': AuditBook, id: nat) {
    id in w.sessions ==>
      && id in w'.sessions && w'.sessions[id].scope == w.sessions[id].scope
      && (w.sessions[id].status == Finalized ==> w'.sessions[id].status == Finalized)
  }

  lemma {:induction false} StepFollows(w: AuditBook, a: Action, id: nat)
    requires Inv(w)
    ensures SessionFollows(w, Next(w, a), id)
  {
    hide PostAll, Adjustments, ZeroLines, ProductsOnce, SetLine, CountedBase, OnHand, KeysOk, CallsOk;
  }

  lemma {:induction false} RunFollows(w: AuditBook, actions: seq<Action>, n: nat, id: nat)
    requires Inv(w) && n <= |actions|
    ensures SessionFollows(Run(w, actions[..n]), Run(w, actions), id)
  {
    hide Inv, Next;
    if n == |actions| {
      assert actions[..n] == actions;
    } else {
      var m := |actions| - 1;
      assert actions[..m][..n] == actions[..n];
      RunFollows(w, actions[..m], n, id);
      RunKeeps(w, actions[..m]);
      StepFollows(Run(w, actions[..m]), actions[m], id);
    }
  }

  // Only writes change the lines of a session, and a new session has none.
  lemma {:induction false} StepLine(w: AuditBook, a: Action, id: nat, product: ProductId)
    requires Inv(w)
    ensures var x, w' := WriteOf(w, a), Next(w, a);
      && (x.Some? ==> x.value.Measured? && x.value.session in w.sessions)
      && (id in w.sessions ==>
           && id in w'.sessions
           && LineOf(w'.sessions[id].lines, product) ==
              if x.Some? && x.value.session == id && x.value.line.product == product then Some(x.value.line)
              else LineOf(w.sessions[id].lines, product))
      && (id !in w.sessions && id in w'.sessions ==> LineOf(w'.sessions[id].lines, product) == None)
  {
    hide PostAll, Adjustments, ZeroLines, ProductsOnce, CountedBase, OnHand, KeysOk, CallsOk, SetLine, LineOf;
    if WriteOf(w, a).Some? {
      var x := WriteOf(w, a).value;
      SetLineOf(w.sessions[x.session].lines, x.line, product);
    }
    NoLine(product);
  }

  lemma {:induction false} NoLine(product: ProductId)
    ensures LineOf([], product) == None
  {}

  // A session's line of a product is the one that was written last.
  lemma {:induction false} LastWrittenIsThere(w: AuditBook, actions: seq<Action>, id: nat, product: ProductId)
    requires Initial(w)
    ensures var v := Run(w, actions);
      if id in v.sessions then LineOf(v.sessions[id].lines, product) == LastWritten(w, actions, id, product)
      else LastWritten(w, actions, id, product) == None
  {
    hide Inv, Next, LineOf, WriteOf;
    if actions != [] {
      var n := |actions| - 1;
      LastWrittenIsThere(w, actions[..n], id, product);
      InitialInv(w);
      RunKeeps(w, actions[..n]);
      StepLine(Run(w, actions[..n]), actions[n], id, product);
      StepFollows(Run(w, actions[..n]), actions[n], id);
    }
  }

  // The action measures the line for a session.
  ghost predicate Measures(w: AuditBook, a: Action, id: nat, l: CountedLine) {
    match a
    case AddLine(k, product, counted, basis) =>
      k == id && CheckCount(w, k, product, counted, basis).Passed? && MeasureAt(w, CheckCount(w, k, product, counted, basis).call) == Measured(id, l)
    case Measure(call) => call in w.counting && w.counting[call].Checked? && MeasureAt(w, w.counting[call]) == Measured(id, l)
    case _ => false
  }

  lemma {:induction false} MeasuredCounts(w: AuditBook, a: Action, id: nat, l: CountedLine)
    requires Inv(w) && Measures(w, a, id, l)
    ensures id in w.sessions && CountedIn(w, w.sessions[id].scope, l)
  {
    hide CountedBase;
  }

  // The finalize call read its session after the first n actions.
  ghost predicate ReadAt(w: AuditBook, actions: seq<Action>, n: nat, c: FinalizeCall) {
    n <= |actions| && c.session in Run(w, actions[..n]).sessions && c.read == Run(w, actions[..n]).sessions[c.session]
  }

  lemma {:induction false} FinalizeWasRead(w: AuditBook, actions: seq<Action>, call: nat)
    requires Initial(w) && call in Run(w, actions).finalizing
    ensures exists n: nat :: ReadAt(w, actions, n, Run(w, actions).finalizing[call])
  {
    hide Next;
    if actions != [] {
      var m := |actions| - 1;
      var v, c := Run(w, actions[..m]), Run(w, actions).finalizing[call];
      FinalizingKept(v, actions[m], call);
      if call in v.finalizing && v.finalizing[call] == c {
        FinalizeWasRead(w, actions[..m], call);
        var n: nat :| ReadAt(w, actions[..m], n, c);
        assert actions[..m][..n] == actions[..n];
        assert ReadAt(w, actions, n, c);
      } else {
        assert ReadAt(w, actions, m, c);
      }
    }
  }

  lemma {:induction false} FinalizingKept(v: AuditBook, a: Action, call: nat)
    requires call in Next(v, a).finalizing
    ensures var c := Next(v, a).finalizing[call];
      (call in v.finalizing && v.finalizing[call] == c) || (c.session in v.sessions && c.read == v.sessions[c.session])
  {
    hide PostAll, Adjustments, ZeroLines, CheckCount, MeasureAt, SetLine, Keys;
  }

  lemma {:induction false} ReadIsOk(w: AuditBook, actions: seq<Action>, n: nat, c: FinalizeCall)
    requires Initial(w) && ReadAt(w, actions, n, c)
    ensures FinalizeOk(Run(w, actions), c)
  {
    hide Run, ProductsOnce, KeysOk, CallsOk;
    InitialInv(w);
    RunKeeps(w, actions[..n]);
    RunFollows(w, actions, n, c.session);
  }

  // Nothing of a draft session is posted, so its first finalize applies what it read.
  lemma {:induction false} DraftApplies(v: AuditBook, c: FinalizeCall, product: ProductId)
    requires Inv(v) && FinalizeOk(v, c) && v.sessions[c.session].status == Draft
    ensures Applied(c.session, c.read, c.read.lines, Keys(v.store.ledger), product) ==
      match LineOf(c.read.lines, product) { case Some(k) => k.delta case None => 0 }
  {
    hide Applied, LineOf, SessionsOk, CallsOk, ProductsOnce;
    LineOfSession(c.read.lines, product);
    if LineOf(c.read.lines, product).Some? {
      AppliedLine(c.session, c.read, c.read.lines, Keys(v.store.ledger), LineOf(c.read.lines, product).value);
    } else {
      NotBefore(c.session, c.read, c.read.lines, Keys(v.store.ledger), product);
    }
  }

  // From an empty database, in any interleaving: a count is measured, and later the
  // session's first finalize commits. The balance is then the counted quantity plus
  // the net of everything posted since the measuring, exactly if the line of the
  // product that was written last when the finalize read the session has the count's
  // delta; or, where none had been written, if that delta is zero.
  lemma {:induction false} MovementInRunIff(w: AuditBook, actions: seq<Action>, m: nat, n: nat, l: CountedLine, c: FinalizeCall)
    requires Initial(w) && m < |actions| && Measures(Run(w, actions[..m]), actions[m], c.session, l)
    requires ReadAt(w, actions, n, c)
    requires c.session in Run(w, actions).sessions && Run(w, actions).sessions[c.session].status == Draft
    ensures var u, v := Run(w, actions[..m]), Run(w, actions);
      && u.store.ledger <= v.store.ledger && FinalizeAt(v, c).1.Summary?
      && (OnHand(FinalizeAt(v, c).0.store.balances, l.product, c.read.scope)
            == l.desired + Net(Postings(v.store.ledger[|u.store.ledger|..]), Pair(l.product, c.read.scope))
          <==>
          match LastWritten(w, actions[..n], c.session, l.product) { case Some(k) => k.delta == l.delta case None => l.delta == 0 })
  {
    hide Run, FinalizeAt, Applied, ProductsOnce, LineOf, LastWritten, Inv, FinalizeOk, Measures;
    var u, v := Run(w, actions[..m]), Run(w, actions);
    InitialInv(w);
    RunKeeps(w, actions);
    RunKeeps(w, actions[..m]);
    ReadIsOk(w, actions, n, c);
    MeasuredCounts(u, actions[m], c.session, l);
    RunFollows(w, actions, m, c.session);
    ScopeRead(v, c);
    assert actions == actions[..m] + actions[m..];
    RunConcat(w, actions[..m], actions[m..]);
    MovementPreservedIff(u, l, actions[m..], c);
    DraftApplies(v, c, l.product);
    LastWrittenIsThere(w, actions[..n], c.session, l.product);
    FinalizeCommits(v, c);
  }

  lemma {:induction false} ScopeRead(v: AuditBook, c: FinalizeCall)
    requires FinalizeOk(v, c)
    ensures c.read.scope == v.sessions[c.session].scope
  {}

  lemma {:induction false} RunConcat(w: AuditBook, a: seq<Action>, b: seq<Action>)
    ensures Run(w, a + b) == Run(Run(w, a), b)
  {
    hide Next;
    if b == [] {
      assert a + b == a;
    } else {
      RunConcat(w, a, b[..|b| - 1]);
      assert (a + b)[..|a + b| - 1] == a + b[..|b| - 1];
    }
  }

  // The line a count measures is counted in the state that it reads.
  lemma {:induction false} MeasureCounts(w: AuditBook, call: nat)
    requires Inv(w) && call in w.counting && w.counting[call].Checked?
    ensures var c, c' := w.counting[call], MeasureAt(w, w.counting[call]);
      && Next(w, Measure(call)) == w.(counting := w.counting[call := c'])
      && c.session in w.sessions && c'.session == c.session
      && c'.line.product == c.product && c'.line.desired == c.desired
      && CountedIn(w, w.sessions[c.session].scope, c'.line)
  {}

  // And the line a count writes is on the session until a later write of the product.
  lemma {:induction false} WriteLands(w: AuditBook, c: CountCall)
    requires Inv(w) && c.Measured? && c.session in w.sessions
    ensures var s, s' := w.sessions[c.session], WriteAt(w, c).0.sessions[c.session];
      && s'.scope == s.scope && s'.status == s.status
      && forall m :: m in s'.lines <==> m == c.line || (m in s.lines && m.product != c.line.product)
  {
    SetLineOnce(w.sessions[c.session].lines, c.line);
  }

  // ---- A second finalize ----

  // Nothing on the session is left to post.
  ghost predicate AllApplied(w: AuditBook, id: nat) {
    id in w.sessions ==>
      forall l | l in w.sessions[id].lines :: l.delta == 0 || LineKey(id, w.sessions[id], l) in Keys(w.store.ledger)
  }

  lemma {:induction false} NothingLeft(id: nat, s: Session, lines: seq<CountedLine>, posted: set<Key>)
    ensures Adjustments(id, s, lines, posted) == [] <==> forall l | l in lines :: l.delta == 0 || LineKey(id, s, l) in posted
  {
    if lines != [] {
      var front, last := lines[..|lines| - 1], lines[|lines| - 1];
      assert lines == front + [last];
      NothingLeft(id, s, front, posted);
      assert Adjustments(id, s, lines, posted) == [] ==> Adjustments(id, s, front, posted) == [] by {
        if Adjustments(id, s, front, posted) != [] {
          assert Adjustments(id, s, lines, posted)[0] == Adjustments(id, s, front, posted)[0];
        }
      }
    }
  }

  ghost predicate PostsNothing(w: AuditBook, id: nat) {
    FinalizeStep(w, id).1.Summary? && FinalizeStep(w, id).1.adjusted == 0
  }

  // A finalize posts nothing exactly when nothing is left.
  lemma {:induction false} FinalizePostsNothingIff(w: AuditBook, id: nat)
    requires Inv(w) && id in w.sessions
    ensures FinalizeStep(w, id).1.Summary?
    ensures PostsNothing(w, id) <==> AllApplied(w, id)
    ensures AllApplied(w, id) ==> FinalizeStep(w, id).0.store == w.store
  {
    hide PostAll, Adjustments, ZeroLines;
    ReadOk(w, id);
    FinalizeCommits(w, FinalizeCall(id, w.sessions[id]));
    NothingLeft(id, w.sessions[id], w.sessions[id].lines, Keys(w.store.ledger));
    PostAllEffect(w.store, []);
    PostNothing(w.store);
  }

  lemma {:induction false} PostNothing(st: Store)
    ensures PostAll(st, []) == Some(st)
  {}

  // Every line of the session is zero, or posted, or one whose product the call read
  // with a delta.
  ghost predicate Covers(v: AuditBook, c: FinalizeCall) {
    c.session in v.sessions &&
      forall l | l in v.sessions[c.session].lines ::
        l.delta == 0 || LineKey(c.session, v.sessions[c.session], l) in Keys(v.store.ledger) || ReadWithDelta(c.read.lines, l.product)
  }

  ghost predicate ReadWithDelta(lines: seq<CountedLine>, product: ProductId) {
    exists m :: m in lines && m.product == product && m.delta != 0
  }

  lemma {:induction false} FinalizeKeys(v: AuditBook, c: FinalizeCall, product: ProductId)
    requires FinalizeOk(v, c)
    ensures var k := AuditLine(c.session, c.read.scope, product);
      k in Keys(FinalizeAt(v, c).0.store.ledger) <==> k in Keys(v.store.ledger) || ReadWithDelta(c.read.lines, product)
  {
    hide PostAll, Adjustments, ZeroLines, ProductsOnce;
    FinalizeCommits(v, c);
    var ps := Adjustments(c.session, c.read, c.read.lines, Keys(v.store.ledger));
    PostAllEffect(v.store, ps);
    AdjustmentsMembers(c.session, c.read, c.read.lines, Keys(v.store.ledger));
  }

  // A finalize's transaction leaves nothing to post exactly if what it read covers
  // the session.
  lemma {:induction false} LeavesNothingIff(v: AuditBook, c: FinalizeCall)
    requires Inv(v) && FinalizeOk(v, c)
    ensures var w' := FinalizeAt(v, c).0;
      c.session in w'.sessions && w'.sessions[c.session].status == Finalized && (AllApplied(w', c.session) <==> Covers(v, c))
  {
    hide PostAll, Adjustments, ZeroLines, ProductsOnce, ReadWithDelta, Inv;
    var id := c.session;
    FinalizeCommits(v, c);
    forall product ensures
      AuditLine(id, c.read.scope, product) in Keys(FinalizeAt(v, c).0.store.ledger) <==>
      AuditLine(id, c.read.scope, product) in Keys(v.store.ledger) || ReadWithDelta(c.read.lines, product)
    {
      FinalizeKeys(v, c, product);
    }
  }

  lemma {:induction false} CoversAtOnce(w: AuditBook, id: nat)
    requires id in w.sessions
    ensures Covers(w, FinalizeCall(id, w.sessions[id]))
  {
    var lines := w.sessions[id].lines;
    forall l | l in lines && l.delta != 0 ensures ReadWithDelta(lines, l.product) {}
  }

  // A count that passed its check before the finalize writes a line after it.
  ghost predicate LateLine(w: AuditBook, a: Action, id: nat) {
    && a.WriteLine? && a.call in w.counting && w.counting[a.call].Measured? && w.counting[a.call].session == id && id in w.sessions
    && w.counting[a.call].line.delta != 0
    && LineKey(id, w.sessions[id], w.counting[a.call].line) !in Keys(w.store.ledger)
  }

  lemma {:induction false} StepAppliedIff(w: AuditBook, a: Action, id: nat)
    requires Inv(w) && AllApplied(w, id) && id in w.sessions && w.sessions[id].status == Finalized
    ensures id in Next(w, a).sessions && Next(w, a).sessions[id].status == Finalized
    ensures AllApplied(Next(w, a), id) <==> !LateLine(w, a, id)
  {
    hide PostAll, Adjustments, ZeroLines, ProductsOnce, SetLine, CountedBase, OnHand, KeysOk, CallsOk;
    StepMoves(w, a);
    GrowsKeys(w.store.ledger, Next(w, a).store.ledger);
    if a.WriteLine? && a.call in w.counting && w.counting[a.call].Measured? && w.counting[a.call].session == id {
      SetLineOnce(w.sessions[id].lines, w.counting[a.call].line);
    }
    if a.CreateSession? { assert id != w.nextId; }
  }

  lemma {:induction false} GrowsKeys(a: seq<Entry>, b: seq<Entry>)
    requires a <= b
    ensures Keys(a) <= Keys(b)
  {
    forall e | e in a ensures e in b {}
  }

  // From a finalize's transaction on, another finalize would post nothing at any time,
  // exactly if what the first had read covered the session, and no line was written
  // late.
  lemma {:induction false} SecondFinalizeIff(v: AuditBook, c: FinalizeCall, actions: seq<Action>)
    requires Inv(v) && FinalizeOk(v, c)
    ensures var w1 := FinalizeAt(v, c).0;
      (forall k | 0 <= k <= |actions| :: PostsNothing(Run(w1, actions[..k]), c.session)) <==>
      Covers(v, c) && forall k | 0 <= k < |actions| :: !LateLine(Run(w1, actions[..k]), actions[k], c.session)
  {
    hide Inv, Run, FinalizeAt, AllApplied, LateLine, Covers, FinalizeOk, PostsNothing;
    var id, w1 := c.session, FinalizeAt(v, c).0;
    LeavesNothingIff(v, c);
    FinalizeKeeps(v, c);
    forall k | 0 <= k <= |actions| ensures PostsNothing(Run(w1, actions[..k]), id) <==> AllApplied(Run(w1, actions[..k]), id) {
      StaysFinalized(w1, id, actions[..k]);
      FinalizePostsNothingIff(Run(w1, actions[..k]), id);
    }
    assert actions[..0] == [];
    RunNone(w1);
    if Covers(v, c) {
      AppliedIffNoneLate(w1, id, actions);
      if forall k | 0 <= k <= |actions| :: PostsNothing(Run(w1, actions[..k]), id) {
        forall k | 0 <= k <= |actions| ensures AllApplied(Run(w1, actions[..k]), id) { assert PostsNothing(Run(w1, actions[..k]), id); }
      }
      if forall k | 0 <= k <= |actions| :: AllApplied(Run(w1, actions[..k]), id) {
        forall k | 0 <= k <= |actions| ensures PostsNothing(Run(w1, actions[..k]), id) { assert AllApplied(Run(w1, actions[..k]), id); }
      }
    } else {
      assert !PostsNothing(Run(w1, actions[..0]), id);
    }
  }

  lemma {:induction false} StaysFinalized(w: AuditBook, id: nat, actions: seq<Action>)
    requires Inv(w) && id in w.sessions && w.sessions[id].status == Finalized
    ensures var v := Run(w, actions); Inv(v) && id in v.sessions && v.sessions[id].status == Finalized
  {
    hide Inv, Next;
    if actions != [] {
      var n := |actions| - 1;
      StaysFinalized(w, id, actions[..n]);
      StepKeeps(Run(w, actions[..n]), actions[n]);
      StepStaysFinalized(Run(w, actions[..n]), actions[n], id);
    }
  }

  lemma {:induction false} StepStaysFinalized(w: AuditBook, a: Action, id: nat)
    requires Inv(w) && id in w.sessions && w.sessions[id].status == Finalized
    ensures id in Next(w, a).sessions && Next(w, a).sessions[id].status == Finalized
  {
    hide PostAll, Adjustments, ZeroLines, ProductsOnce, SetLine, CountedBase, OnHand, KeysOk, CallsOk;
  }

  lemma {:induction false} AppliedIffNoneLate(w: AuditBook, id: nat, actions: seq<Action>)
    requires Inv(w) && AllApplied(w, id) && id in w.sessions && w.sessions[id].status == Finalized
    ensures (forall k | 0 <= k <= |actions| :: AllApplied(Run(w, actions[..k]), id)) <==>
            forall k | 0 <= k < |actions| :: !LateLine(Run(w, actions[..k]), actions[k], id)
  {
    hide Inv, Run, AllApplied, LateLine;
    if actions == [] {
      RunNone(w);
      assert actions[..0] == actions;
    } else {
      var n := |actions| - 1;
      var front, v := actions[..n], Run(w, actions[..n]);
      AppliedIffNoneLate(w, id, front);
      Prefixes(w, actions, n, id);
      StaysFinalized(w, id, front);
      RunLast(w, actions);
      assert actions[..n + 1] == actions;
      if AllApplied(v, id) { StepAppliedIff(v, actions[n], id); }
    }
  }

  lemma {:induction false} RunNone(w: AuditBook)
    ensures Run(w, []) == w
  {}

  lemma {:induction false} RunLast(w: AuditBook, actions: seq<Action>)
    requires actions != []
    ensures Run(w, actions) == Next(Run(w, actions[..|actions| - 1]), actions[|actions| - 1])
  {}

  lemma {:induction false} Prefixes(w: AuditBook, actions: seq<Action>, n: nat, id: nat)
    requires n <= |actions|
    ensures (forall k | 0 <= k <= n :: AllApplied(Run(w, actions[..n][..k]), id)) <==> forall k | 0 <= k <= n :: AllApplied(Run(w, actions[..k]), id)
    ensures (forall k | 0 <= k < n :: !LateLine(Run(w, actions[..n][..k]), actions[..n][k], id)) <==>
            forall k | 0 <= k < n :: !LateLine(Run(w, actions[..k]), actions[k], id)
  {
    hide AllApplied, LateLine, Run;
    assert forall k | 0 <= k <= n :: actions[..n][..k] == actions[..k];
    assert forall k | 0 <= k < n :: actions[..n][k] == actions[k];
    if forall k | 0 <= k <= n :: AllApplied(Run(w, actions[..n][..k]), id) {
      forall k | 0 <= k <= n ensures AllApplied(Run(w, actions[..k]), id) { assert AllApplied(Run(w, actions[..n][..k]), id); }
    }
    if forall k | 0 <= k < n :: !LateLine(Run(w, actions[..n][..k]), actions[..n][k], id) {
      forall k | 0 <= k < n ensures !LateLine(Run(w, actions[..k]), actions[k], id) {
        assert !LateLine(Run(w, actions[..n][..k]), actions[..n][k], id);
      }
    }
  }

  // ---- An overlap of a recount and a finalize ----

  const SCALE: Product := ProductRow("oz", "can", "case", 1, 1, 1)
  const SHELF := AuditBook(Empty, map[], map["p" := SCALE], 0, map[], map[])
  const COUNT5 := AddLine(0, "p", 5.0, Tracking)
  const COUNT7 := AddLine(0, "p", 7.0, Tracking)
  const FIVE := CountedLine("p", 5, 5)
  const SEVEN := CountedLine("p", 7, 7)

  lemma {:induction false} RunSnoc(w: AuditBook, actions: seq<Action>, a: Action)
    ensures Run(w, actions + [a]) == Next(Run(w, actions), a)
  {
    assert (actions + [a])[..|actions|] == actions;
  }

  const RECOUNT := [CreateSession("")] + [COUNT5] + [BeginFinalize(0, 0)] + [COUNT7]

  lemma {:induction false} RecountReads()
    ensures var w := Run(SHELF, RECOUNT);
      && w.store == Empty && w.sessions == map[0 := Session("WAREHOUSE", Draft, [SEVEN])]
      && w.finalizing == map[0 := FinalizeCall(0, Session("WAREHOUSE", Draft, [FIVE]))]
  {
    hide Run;
    RunNone(SHELF);
    RunSnoc(SHELF, [], CreateSession(""));
    assert [] + [CreateSession("")] == [CreateSession("")];
    RunSnoc(SHELF, [CreateSession("")], COUNT5);
    RunSnoc(SHELF, [CreateSession("")] + [COUNT5], BeginFinalize(0, 0));
    RunSnoc(SHELF, [CreateSession("")] + [COUNT5] + [BeginFinalize(0, 0)], COUNT7);
    WholeToBase(5, 1);
    WholeToBase(7, 1);
    assert SetLine([], FIVE) == [FIVE];
    assert SetLine([FIVE], SEVEN) == [SEVEN] + [FIVE][1..] == [SEVEN];
  }

  // Five are counted, a finalize reads, seven are counted instead, the finalize
  // commits: five are on hand, and the session says seven.
  lemma {:induction false} RecountIsLost()
    ensures Initial(SHELF)
    ensures var w := Run(SHELF, RECOUNT + [CommitFinalize(0)]);
      && 0 in w.sessions && w.sessions[0].lines == [SEVEN] && w.sessions[0].status == Finalized
      && OnHand(w.store.balances, "p", "WAREHOUSE") == 5
  {
    hide Run, FinalizeAt, OnHand, Applied;
    RunSnoc(SHELF, RECOUNT, CommitFinalize(0));
    RecountReads();
    var w := Run(SHELF, RECOUNT);
    var v, c := w.(finalizing := w.finalizing - {0}), w.finalizing[0];
    FinalizeCommits(v, c);
    FinalizeApplies(v, c, "p");
    AppliedLine(0, c.read, c.read.lines, {}, FIVE);
    assert Keys(v.store.ledger) == {};
    NothingOnHand("p", "WAREHOUSE");
    FinalizeStatus(v, c);
  }

  lemma {:induction false} NothingOnHand(p: ProductId, s: Scope)
    ensures OnHand(Empty.balances, p, s) == 0
  {}

  lemma {:induction false} FinalizeStatus(w: AuditBook, c: FinalizeCall)
    requires FinalizeOk(w, c)
    ensures FinalizeAt(w, c).0.sessions == w.sessions[c.session := w.sessions[c.session].(status := Finalized)]
  {
    hide Adjustments, PostAll;
    FinalizeCommits(w, c);
  }

  // ---- A line that the finalize did not read ----

  const TWO := SHELF.(catalog := map["p" := SCALE, "q" := SCALE])
  const COUNTQ := AddLine(0, "q", 7.0, Tracking)
  const UNREAD := CountedLine("q", 7, 7)
  const COUNTS := [CreateSession("")] + [COUNT5] + [BeginFinalize(0, 0)] + [COUNTQ]

  lemma {:induction false} CountsBoth()
    ensures var w := Run(TWO, COUNTS);
      && w.store == Empty && w.sessions == map[0 := Session("WAREHOUSE", Draft, [FIVE] + [UNREAD])]
      && w.finalizing == map[0 := FinalizeCall(0, Session("WAREHOUSE", Draft, [FIVE]))] && w.counting == map[]
  {
    hide Run;
    RunNone(TWO);
    RunSnoc(TWO, [], CreateSession(""));
    assert [] + [CreateSession("")] == [CreateSession("")];
    RunSnoc(TWO, [CreateSession("")], COUNT5);
    RunSnoc(TWO, [CreateSession("")] + [COUNT5], BeginFinalize(0, 0));
    RunSnoc(TWO, [CreateSession("")] + [COUNT5] + [BeginFinalize(0, 0)], COUNTQ);
    WholeToBase(5, 1);
    WholeToBase(7, 1);
    assert SetLine([], FIVE) == [FIVE];
    assert FIVE.product != UNREAD.product;
    assert SetLine([FIVE], UNREAD) == [FIVE] + SetLine([], UNREAD) == [FIVE] + [UNREAD];
  }

  // One product is counted, a finalize reads, another product is counted, the finalize
  // commits: no count is open, and a second finalize posts the other product.
  lemma {:induction false} UnreadLineIsLeft()
    ensures Initial(TWO)
    ensures var w := Run(TWO, COUNTS + [CommitFinalize(0)]);
      && w.counting == map[] && 0 in w.sessions && w.sessions[0].status == Finalized && !PostsNothing(w, 0)
  {
    hide Run, FinalizeAt, Inv, PostsNothing, AllApplied;
    RunSnoc(TWO, COUNTS, CommitFinalize(0));
    CountsBoth();
    InitialInv(TWO);
    RunKeeps(TWO, COUNTS);
    var w := Run(TWO, COUNTS);
    var v, c := w.(finalizing := w.finalizing - {0}), w.finalizing[0];
    DropKeeps(w, 0);
    LeavesNothingIff(v, c);
    assert UNREAD in v.sessions[0].lines;
    assert Keys(v.store.ledger) == {};
    assert !ReadWithDelta([FIVE], "q") by { assert forall m | m in [FIVE] :: m == FIVE; }
    FinalizeKeeps(v, c);
    FinalizePostsNothingIff(FinalizeAt(v, c).0, 0);
    FinalizeCounting(v, c);
  }

  lemma {:induction false} FinalizeCounting(w: AuditBook, c: FinalizeCall)
    ensures FinalizeAt(w, c).0.counting == w.counting
  {
    hide Adjustments, PostAll;
  }
}
