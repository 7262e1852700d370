// The append-only ledger, its cached balances, and the posting step every
// service performs inside one database transaction:
// read the balance, append an entry with before/after, write the balance.
module Ledger {
  import opened Basics

  type ProductId = string
  type Scope = string

  datatype Kind = InitialLoad | ReceivingPosted | CheckoutFinalized | Adjustment | AuditCount | Transfer

  datatype BatchLine = BatchLine(product: ProductId, quantity: int)

  // The text that a receiving batch hashes. SHA-256 is taken to be injective, so
  // keys carry the hashed content itself.
  datatype Batch = Batch(scope: Scope, day: int, lines: seq<BatchLine>)
  datatype CsvBatch = CsvBatch(scope: Scope, day: int, lines: seq<BatchLine>, note: string)
  // Quantities by line id. The server hashes them as text, sorted by line id; a map
  // has no order to begin with.
  datatype PoBatch = PoBatch(po: nat, scope: Scope, day: int, lines: map<nat, int>)

  // Idempotency keys, one constructor per family that builds them.
  datatype Key =
    | ClientCount(text: string)
    | StampedCount(product: ProductId, scope: Scope, at: int)
    | ClientMove(text: string, out: bool)
    | RequestMove(request: nat, line: nat, out: bool)
    | Receiving(batch: Batch, product: ProductId)
    | ReceivingCsv(csv: CsvBatch, product: ProductId)
    | PoReceiving(po: nat, poBatch: PoBatch, product: ProductId)
    | AuditLine(session: nat, scope: Scope, product: ProductId)
    | InitialOnHand(product: ProductId, scope: Scope, counted: int)
    | InitialLoadKey(scope: Scope, product: ProductId, quantity: int, day: int)

  datatype Posting = Posting(product: ProductId, scope: Scope, quantity: int, kind: Kind, key: Key)
  datatype Entry = Entry(posting: Posting, before: int, after: int)

  type Balances = map<(ProductId, Scope), int>
  datatype Store = Store(ledger: seq<Entry>, balances: Balances)

  const Empty := Store([], map[])

  function OnHand(b: Balances, product: ProductId, scope: Scope): int {
    if (product, scope) in b then b[(product, scope)] else 0
  }

  function Keys(es: seq<Entry>): set<Key> {
    set e | e in es :: e.posting.key
  }

  function Postings(es: seq<Entry>): (ps: seq<Posting>)
    ensures |ps| == |es|
    ensures forall i | 0 <= i < |es| :: ps[i] == es[i].posting
  {
    seq(|es|, i requires 0 <= i < |es| => es[i].posting)
  }

  // What was posted between two states.
  function Since(st: Store, st': Store): seq<Posting> {
    if |st.ledger| <= |st'.ledger| then Postings(st'.ledger[|st.ledger|..]) else []
  }

  lemma {:induction false} PostingsConcat(a: seq<Entry>, b: seq<Entry>)
    ensures Postings(a + b) == Postings(a) + Postings(b)
  {}

  lemma {:induction false} KeysConcat(a: seq<Entry>, b: seq<Entry>)
    ensures Keys(a + b) == Keys(a) + Keys(b)
  {}

  // ---- Selections of postings and their sums ----

  datatype Filter =
    | Pair(product: ProductId, scope: Scope)
    | OfRequest(request: nat)
    | OfOrder(po: nat)
    | OfOrderProduct(po: nat, product: ProductId)

  predicate Matches(f: Filter, p: Posting) {
    match f
    case Pair(product, scope) => p.product == product && p.scope == scope
    case OfRequest(r) => p.key.RequestMove? && p.key.request == r
    case OfOrder(po) => p.key.PoReceiving? && p.key.po == po
    case OfOrderProduct(po, product) => p.key.PoReceiving? && p.key.po == po && p.product == product
  }

  function Select(ps: seq<Posting>, f: Filter): seq<Posting> {
    if ps == [] then [] else
      Select(ps[..|ps| - 1], f) + (if Matches(f, ps[|ps| - 1]) then [ps[|ps| - 1]] else [])
  }

  function Net(ps: seq<Posting>, f: Filter): int {
    if ps == [] then 0 else
      Net(ps[..|ps| - 1], f) + (if Matches(f, ps[|ps| - 1]) then ps[|ps| - 1].quantity else 0)
  }

  lemma {:induction false} SelectConcat(a: seq<Posting>, b: seq<Posting>, f: Filter)
    ensures Select(a + b, f) == Select(a, f) + Select(b, f)
  {
    if b == [] {
      assert a + b == a;
    } else {
      SelectConcat(a, b[..|b| - 1], f);
      assert (a + b)[..|a + b| - 1] == a + b[..|b| - 1];
    }
  }

  lemma {:induction false} NetConcat(a: seq<Posting>, b: seq<Posting>, f: Filter)
    ensures Net(a + b, f) == Net(a, f) + Net(b, f)
  {
    if b == [] {
      assert a + b == a;
    } else {
      NetConcat(a, b[..|b| - 1], f);
      assert (a + b)[..|a + b| - 1] == a + b[..|b| - 1];
    }
  }

  lemma {:induction false} SelectNone(ps: seq<Posting>, f: Filter)
    requires forall p | p in ps :: !Matches(f, p)
    ensures Select(ps, f) == [] && Net(ps, f) == 0
  {
    if ps != [] { SelectNone(ps[..|ps| - 1], f); }
  }

  lemma {:induction false} SelectAll(ps: seq<Posting>, f: Filter)
    requires forall p | p in ps :: Matches(f, p)
    ensures Select(ps, f) == ps
  {
    if ps != [] {
      SelectAll(ps[..|ps| - 1], f);
      assert ps == ps[..|ps| - 1] + [ps[|ps| - 1]];
    }
  }

  // ---- Posting ----

  // One posting: entry with before/after, then the balance row.
  function Append(st: Store, p: Posting): Store {
    var before := OnHand(st.balances, p.product, p.scope);
    var after := before + p.quantity;
    Store(st.ledger + [Entry(p, before, after)], st.balances[(p.product, p.scope) := after])
  }

  // A transaction's postings in order; a key already in the ledger aborts it all.
  function PostAll(st: Store, ps: seq<Posting>): Option<Store> {
    if ps == [] then Some(st) else
      var r := PostAll(st, ps[..|ps| - 1]);
      var p := ps[|ps| - 1];
      if r.None? || p.key in Keys(r.value.ledger) then None else Some(Append(r.value, p))
  }

  // What a transaction leaves behind: its postings, or nothing.
  function Commit(st: Store, ps: seq<Posting>): Store {
    var r := PostAll(st, ps);
    if r.Some? then r.value else st
  }

  ghost predicate FreshKeys(ledger: seq<Entry>, ps: seq<Posting>) {
    && (forall i | 0 <= i < |ps| :: ps[i].key !in Keys(ledger))
    && (forall i, j | 0 <= i < j < |ps| :: ps[i].key != ps[j].key)
  }

  lemma {:induction false} AppendEffect(st: Store, p: Posting)
    ensures var st' := Append(st, p);
      && st.ledger <= st'.ledger
      && Postings(st'.ledger) == Postings(st.ledger) + [p]
      && Keys(st'.ledger) == Keys(st.ledger) + {p.key}
  {
    var e := Entry(p, OnHand(st.balances, p.product, p.scope), OnHand(st.balances, p.product, p.scope) + p.quantity);
    PostingsConcat(st.ledger, [e]);
    KeysConcat(st.ledger, [e]);
    assert Postings([e]) == [p] && Keys([e]) == {p.key};
  }

  function PostingKeys(ps: seq<Posting>): set<Key> {
    set p | p in ps :: p.key
  }

  // What a committed transaction did: the ledger grew by exactly its postings
  // and every balance moved by their net.
  ghost predicate Posted(st: Store, ps: seq<Posting>, st': Store) {
    && st.ledger <= st'.ledger
    && Postings(st'.ledger) == Postings(st.ledger) + ps
    && Keys(st'.ledger) == Keys(st.ledger) + PostingKeys(ps)
    && forall p, s :: OnHand(st'.balances, p, s) == OnHand(st.balances, p, s) + Net(ps, Pair(p, s))
  }

  lemma {:induction false} PostedMore(st: Store, front: seq<Posting>, mid: Store, last: Posting)
    requires Posted(st, front, mid)
    ensures Posted(st, front + [last], Append(mid, last))
  {
    hide Postings, Keys, Matches;
    var ps := front + [last];
    AppendEffect(mid, last);
    assert ps[..|front|] == front;
    assert PostingKeys(ps) == PostingKeys(front) + {last.key};
    assert Postings(st.ledger) + front + [last] == Postings(st.ledger) + ps;
    forall p, s ensures OnHand(Append(mid, last).balances, p, s) == OnHand(st.balances, p, s) + Net(ps, Pair(p, s)) {
      AppendBalance(mid, last, p, s);
    }
  }

  lemma {:induction false} AppendBalance(st: Store, q: Posting, p: ProductId, s: Scope)
    ensures OnHand(Append(st, q).balances, p, s) == OnHand(st.balances, p, s) + if Matches(Pair(p, s), q) then q.quantity else 0
  {}

  lemma {:induction false} PostAllEffect(st: Store, ps: seq<Posting>)
    ensures PostAll(st, ps).Some? ==> Posted(st, ps, PostAll(st, ps).value)
  {
    hide Posted;
    if ps == [] {
      NonePosted(st);
    } else if PostAll(st, ps).Some? {
      var front, last := ps[..|ps| - 1], ps[|ps| - 1];
      PostAllEffect(st, front);
      PostedMore(st, front, PostAll(st, front).value, last);
      assert ps == front + [last];
    }
  }

  lemma {:induction false} NonePosted(st: Store)
    ensures Posted(st, [], st)
  {
    assert Postings(st.ledger) + [] == Postings(st.ledger);
  }

  lemma {:induction false} FreshKeysLast(ledger: seq<Entry>, front: seq<Posting>, last: Posting)
    ensures FreshKeys(ledger, front + [last]) <==>
            FreshKeys(ledger, front) && last.key !in Keys(ledger) && last.key !in PostingKeys(front)
  {
    var ps := front + [last];
    assert ps[|front|] == last && forall i | 0 <= i < |front| :: ps[i] == front[i];
    if FreshKeys(ledger, front) && last.key !in Keys(ledger) && last.key !in PostingKeys(front) {
      forall i | 0 <= i < |front| ensures front[i].key != last.key {
        assert front[i] in front;
      }
    }
  }

  // A transaction commits exactly when its keys are new and distinct.
  lemma {:induction false} PostAllCommits(st: Store, ps: seq<Posting>)
    ensures PostAll(st, ps).Some? <==> FreshKeys(st.ledger, ps)
  {
    if ps != [] {
      var front, last := ps[..|ps| - 1], ps[|ps| - 1];
      assert ps == front + [last];
      PostAllCommits(st, front);
      PostAllEffect(st, front);
      FreshKeysLast(st.ledger, front, last);
    }
  }

  // ---- The invariant ----

  // Docs/INVENTORY_RULES: balances are derived from the ledger; every entry
  // records the balance before and after it.
  ghost predicate Agrees(st: Store) {
    && (forall p, s :: OnHand(st.balances, p, s) == Net(Postings(st.ledger), Pair(p, s)))
    && (forall i | 0 <= i < |st.ledger| :: EntryAgrees(st.ledger, i))
    && (forall i, j | 0 <= i < j < |st.ledger| :: st.ledger[i].posting.key != st.ledger[j].posting.key)
  }

  ghost predicate EntryAgrees(ledger: seq<Entry>, i: nat)
    requires i < |ledger|
  {
    var e := ledger[i];
    && e.after == e.before + e.posting.quantity
    && e.before == Net(Postings(ledger[..i]), Pair(e.posting.product, e.posting.scope))
  }

  lemma {:induction false} EmptyAgrees()
    ensures Agrees(Empty)
  {
    assert Postings(Empty.ledger) == [];
  }

  lemma {:induction false} EmptyHolds()
    ensures forall p, s :: OnHand(Empty.balances, p, s) == 0
  {}

  lemma {:induction false} AppendEntries(st: Store, p: Posting)
    requires forall i | 0 <= i < |st.ledger| :: EntryAgrees(st.ledger, i)
    requires OnHand(st.balances, p.product, p.scope) == Net(Postings(st.ledger), Pair(p.product, p.scope))
    ensures var l := Append(st, p).ledger; forall i | 0 <= i < |l| :: EntryAgrees(l, i)
  {
    var l := Append(st, p).ledger;
    forall i | 0 <= i < |l| ensures EntryAgrees(l, i) {
      if i < |st.ledger| {
        assert EntryAgrees(st.ledger, i);
        assert l[..i] == st.ledger[..i];
      } else {
        assert l[..i] == st.ledger;
      }
    }
  }

  lemma {:induction false} AppendNet(st: Store, p: Posting, f: Filter)
    ensures Net(Postings(Append(st, p).ledger), f) == Net(Postings(st.ledger), f) + (if Matches(f, p) then p.quantity else 0)
  {
    AppendEffect(st, p);
    assert (Postings(st.ledger) + [p])[..|st.ledger|] == Postings(st.ledger);
  }

  lemma {:induction false} AppendAgrees(st: Store, p: Posting)
    requires Agrees(st) && p.key !in Keys(st.ledger)
    ensures Agrees(Append(st, p))
  {
    var st' := Append(st, p);
    AppendEntries(st, p);
    forall i | 0 <= i < |st.ledger| ensures st.ledger[i].posting.key != p.key {
      assert st.ledger[i] in st.ledger;
    }
    forall a, s ensures OnHand(st'.balances, a, s) == Net(Postings(st'.ledger), Pair(a, s)) {
      AppendNet(st, p, Pair(a, s));
    }
  }

  lemma {:induction false} PostAllAgrees(st: Store, ps: seq<Posting>)
    requires Agrees(st)
    ensures PostAll(st, ps).Some? ==> Agrees(PostAll(st, ps).value)
  {
    if ps != [] && PostAll(st, ps).Some? {
      PostAllAgrees(st, ps[..|ps| - 1]);
      AppendAgrees(PostAll(st, ps[..|ps| - 1]).value, ps[|ps| - 1]);
    }
  }

  lemma {:induction false} NetSlices(es: seq<Entry>, i: nat, j: nat, f: Filter)
    requires i <= j <= |es|
    ensures Net(Postings(es[..j]), f) == Net(Postings(es[..i]), f) + Net(Postings(es[i..j]), f)
  {
    assert es[..j] == es[..i] + es[i..j];
    PostingsConcat(es[..i], es[i..j]);
    NetConcat(Postings(es[..i]), Postings(es[i..j]), f);
  }

  // Entries of one (product, scope) chain: the first starts from zero and each
  // later one starts where the previous one of that pair ended.
  lemma {:induction false} ChainLinks(st: Store, i: nat, j: nat)
    requires Agrees(st) && i < j < |st.ledger|
    requires st.ledger[i].posting.product == st.ledger[j].posting.product
    requires st.ledger[i].posting.scope == st.ledger[j].posting.scope
    requires forall k | i < k < j :: !Matches(Pair(st.ledger[j].posting.product, st.ledger[j].posting.scope), st.ledger[k].posting)
    ensures st.ledger[j].before == st.ledger[i].after
  {
    var f := Pair(st.ledger[j].posting.product, st.ledger[j].posting.scope);
    assert EntryAgrees(st.ledger, i) && EntryAgrees(st.ledger, j);
    NetSlices(st.ledger, i + 1, j, f);
    NetSlices(st.ledger, i, i + 1, f);
    SelectNone(Postings(st.ledger[i + 1..j]), f);
    var m := Postings(st.ledger[i..i + 1]);
    assert m == [st.ledger[i].posting] && m[..0] == [];
    assert Net(m, f) == st.ledger[i].posting.quantity;
  }

  lemma {:induction false} ChainStarts(st: Store, j: nat)
    requires Agrees(st) && j < |st.ledger|
    requires forall k | 0 <= k < j :: !Matches(Pair(st.ledger[j].posting.product, st.ledger[j].posting.scope), st.ledger[k].posting)
    ensures st.ledger[j].before == 0
  {
    assert EntryAgrees(st.ledger, j);
    SelectNone(Postings(st.ledger[..j]), Pair(st.ledger[j].posting.product, st.ledger[j].posting.scope));
  }

  // ---- Two entries at once ----

  // A transfer reads both balances, appends both entries, then writes both
  // balances, the second write last.
  function AppendPair(st: Store, a: Posting, b: Posting): Option<Store> {
    if a.key in Keys(st.ledger) || b.key in Keys(st.ledger) || a.key == b.key then None else
      var x, y := OnHand(st.balances, a.product, a.scope), OnHand(st.balances, b.product, b.scope);
      Some(Store(st.ledger + [Entry(a, x, x + a.quantity), Entry(b, y, y + b.quantity)],
                 st.balances[(a.product, a.scope) := x + a.quantity][(b.product, b.scope) := y + b.quantity]))
  }

  // On different rows, or moving nothing, that is posting one after the other.
  lemma {:induction false} AppendPairIsPostAll(st: Store, a: Posting, b: Posting)
    requires a.product != b.product || a.scope != b.scope || a.quantity == 0
    ensures AppendPair(st, a, b) == PostAll(st, [a, b])
  {
    assert [a, b][..1] == [a] && [a][..0] == [];
    assert PostAll(st, [a]) == if a.key in Keys(st.ledger) then None else Some(Append(st, a));
    if a.key !in Keys(st.ledger) {
      AppendEffect(st, a);
      if b.key !in Keys(st.ledger) && a.key != b.key {
        var x, y := OnHand(st.balances, a.product, a.scope), OnHand(st.balances, b.product, b.scope);
        assert st.ledger + [Entry(a, x, x + a.quantity)] + [Entry(b, y, y + b.quantity)]
            == st.ledger + [Entry(a, x, x + a.quantity), Entry(b, y, y + b.quantity)];
      }
    }
  }

  // Moving q out of and into the same row keeps the ledger and the balance in
  // agreement exactly when the rows differ or nothing moves.
  lemma {:induction false} PairAgreesIff(st: Store, a: Posting, b: Posting)
    requires Agrees(st) && AppendPair(st, a, b).Some?
    requires a.product == b.product && b.quantity == -a.quantity
    ensures Agrees(AppendPair(st, a, b).value) <==> a.scope != b.scope || a.quantity == 0
  {
    if a.scope != b.scope || a.quantity == 0 {
      AppendPairIsPostAll(st, a, b);
      PostAllAgrees(st, [a, b]);
    } else {
      var st', f := AppendPair(st, a, b).value, Pair(a.product, a.scope);
      var x := OnHand(st.balances, a.product, a.scope);
      PostingsConcat(st.ledger, [Entry(a, x, x + a.quantity), Entry(b, x, x + b.quantity)]);
      assert Postings([Entry(a, x, x + a.quantity), Entry(b, x, x + b.quantity)]) == [a, b];
      NetConcat(Postings(st.ledger), [a, b], f);
      assert [a, b][..1] == [a] && [a][..0] == [];
      assert Net([a, b], f) == Net([a], f) + b.quantity && Net([a], f) == a.quantity;
      assert OnHand(st'.balances, a.product, a.scope) != Net(Postings(st'.ledger), f);
    }
  }

  // ---- Histories: any services, any order ----

  // One committed or aborted transaction of any service.
  ghost predicate Txn(st: Store, st': Store) {
    st' == st || exists ps :: PostAll(st, ps) == Some(st')
  }

  ghost predicate History(sts: seq<Store>) {
    && sts != [] && sts[0] == Empty
    && forall i | 0 <= i < |sts| - 1 :: Txn(sts[i], sts[i + 1])
  }

  lemma {:induction false} TxnKeepsAgreement(st: Store, st': Store)
    requires Txn(st, st') && Agrees(st)
    ensures Agrees(st')
    ensures st.ledger <= st'.ledger
  {
    if st' != st {
      var ps :| PostAll(st, ps) == Some(st');
      PostAllAgrees(st, ps);
      PostAllEffect(st, ps);
    }
  }

  // After every history, balances equal the fold of the ledger, and an earlier
  // ledger is a prefix of a later one.
  lemma {:induction false} HistoryAgrees(sts: seq<Store>, i: nat)
    requires History(sts) && i < |sts|
    ensures Agrees(sts[i])
    ensures forall k | 0 <= k <= i :: sts[k].ledger <= sts[i].ledger
  {
    if i == 0 {
      EmptyAgrees();
    } else {
      HistoryAgrees(sts, i - 1);
      assert Txn(sts[i - 1], sts[i - 1 + 1]);
      TxnKeepsAgreement(sts[i - 1], sts[i]);
    }
  }
}
