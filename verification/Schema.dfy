// The database the services share: the tables they touch, and the posting kernel
// that every stock movement runs inside its transaction.
module Schema {
  import opened Basics
  import opened Ledger
  import opened Units
  import T = TransferRequests
  import P = PurchaseOrders
  import A = Audits

  class Database {
    var now: int
    var ledger: seq<Entry>
    var balances: Balances
    var catalog: map<ProductId, Product>
    var technicians: map<string, bool>
    var requests: map<nat, T.Request>
    var orders: map<nat, P.Po>
    var receipts: seq<P.ReceiptLine>
    var sessions: map<nat, A.Session>
    var nextId: nat

    constructor ()
      ensures StoreView() == Empty
      ensures requests == map[] && orders == map[] && receipts == [] && sessions == map[] && catalog == map[]
    {
      now, nextId := 0, 0;
      ledger, balances, catalog, technicians := [], map[], map[], map[];
      requests, orders, receipts, sessions := map[], map[], [], map[];
    }

    // What each service sees of the tables.
    function StoreView(): Store
      reads `ledger, `balances
    {
      Store(ledger, balances)
    }

    function DeskView(): T.Desk
      reads this
    {
      T.Desk(now, StoreView(), requests, nextId, map[], catalog, technicians)
    }

    function BooksView(): P.Books
      reads this
    {
      P.Books(StoreView(), orders, receipts, catalog, nextId, map[], map[])
    }

    function AuditView(): A.AuditBook
      reads this
    {
      A.AuditBook(StoreView(), sessions, catalog, nextId, map[], map[])
    }

    // Balance row if missing, then entry with before and after, then balance. The
    // unique key makes the insert fail; the caller's transaction then rolls back.
    method Post(p: Posting) returns (ok: bool)
      modifies `ledger, `balances
      ensures ok <==> p.key !in Keys(old(ledger))
      ensures ok ==> StoreView() == Append(old(StoreView()), p)
    {
      if (p.product, p.scope) !in balances {
        balances := balances[(p.product, p.scope) := 0];
      }
      var before := balances[(p.product, p.scope)];
      var after := before + p.quantity;
      if p.key in Keys(ledger) {
        return false;
      }
      ledger := ledger + [Entry(p, before, after)];
      balances := balances[(p.product, p.scope) := after];
      ok := true;
    }

    // Both balances are read before either entry, and written after both.
    method PostPair(a: Posting, b: Posting) returns (ok: bool)
      modifies `ledger, `balances
      ensures ok <==> AppendPair(old(StoreView()), a, b).Some?
      ensures ok ==> StoreView() == AppendPair(old(StoreView()), a, b).value
    {
      if (a.product, a.scope) !in balances {
        balances := balances[(a.product, a.scope) := 0];
      }
      if (b.product, b.scope) !in balances {
        balances := balances[(b.product, b.scope) := 0];
      }
      var x, y := balances[(a.product, a.scope)], balances[(b.product, b.scope)];
      if a.key in Keys(ledger) {
        return false;
      }
      var first := Entry(a, x, x + a.quantity);
      ghost var before := ledger;
      ledger := ledger + [first];
      KeysConcat(before, [first]);
      if b.key in Keys(ledger) {
        return false;
      }
      ledger := ledger + [Entry(b, y, y + b.quantity)];
      assert ledger == before + [first, Entry(b, y, y + b.quantity)];
      balances := balances[(a.product, a.scope) := x + a.quantity];
      balances := balances[(b.product, b.scope) := y + b.quantity];
      assert balances == old(balances)[(a.product, a.scope) := x + a.quantity][(b.product, b.scope) := y + b.quantity];
      ok := true;
    }

    method Rollback(before: seq<Entry>, rows: Balances)
      modifies `ledger, `balances
      ensures ledger == before && balances == rows
    {
      ledger, balances := before, rows;
    }
  }

  // A transaction that fails part of the way fails.
  lemma {:induction false} PostAllPrefix(st: Store, ps: seq<Posting>, n: nat)
    requires n <= |ps|
    ensures Ledger.PostAll(st, ps[..n]).None? ==> Ledger.PostAll(st, ps).None?
  {
    if n < |ps| {
      PostAllPrefix(st, ps[..|ps| - 1], n);
      assert ps[..|ps| - 1][..n] == ps[..n];
    } else {
      assert ps[..n] == ps;
    }
  }
}
