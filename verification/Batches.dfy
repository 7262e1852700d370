// Receiving batches: the canonical per-product totals behind a batch key, and how
// a batch reaches the ledger one transaction per line.
module Batches {
  import opened Basics
  import opened Ledger

  // ---- Canonical totals ----

  // Each input line contributes a product and a base quantity.
  function Total(cs: seq<BatchLine>, product: ProductId): int {
    if cs == [] then 0 else
      Total(cs[..|cs| - 1], product) + (if cs[|cs| - 1].product == product then cs[|cs| - 1].quantity else 0)
  }

  // Products in the order they first appear, as a JavaScript Map lists its keys.
  function ProductsOf(cs: seq<BatchLine>): (ps: seq<ProductId>)
  {
    if cs == [] then [] else
      var front := ProductsOf(cs[..|cs| - 1]);
      if cs[|cs| - 1].product in front then front else front + [cs[|cs| - 1].product]
  }

  function Canonical(cs: seq<BatchLine>): seq<BatchLine> {
    var ps := SortStrings(ProductsOf(cs));
    seq(|ps|, i requires 0 <= i < |ps| => BatchLine(ps[i], Total(cs, ps[i])))
  }

  ghost predicate Positive(cs: seq<BatchLine>) {
    forall c | c in cs :: c.quantity > 0
  }

  ghost predicate SortedByProduct(ls: seq<BatchLine>) {
    forall i, j | 0 <= i < j < |ls| :: Before(ls[i].product, ls[j].product)
  }

  lemma {:induction false} ProductsDistinct(cs: seq<BatchLine>)
    ensures Distinct(ProductsOf(cs))
    ensures forall p :: p in ProductsOf(cs) <==> exists c :: c in cs && c.product == p
  {
    if cs != [] {
      var front, last := cs[..|cs| - 1], cs[|cs| - 1];
      assert cs == front + [last];
      ProductsDistinct(front);
    }
  }

  lemma {:induction false} TotalPositive(cs: seq<BatchLine>, product: ProductId)
    requires Positive(cs)
    ensures Total(cs, product) >= 0
    ensures Total(cs, product) > 0 <==> exists c :: c in cs && c.product == product
  {
    if cs != [] {
      var front, last := cs[..|cs| - 1], cs[|cs| - 1];
      assert cs == front + [last];
      TotalPositive(front, product);
    }
  }

  // The canonical lines: strictly sorted, one per product with a positive total,
  // each carrying that total.
  ghost predicate IsBatchOf(ls: seq<BatchLine>, cs: seq<BatchLine>) {
    && SortedByProduct(ls)
    && (forall l | l in ls :: l.quantity == Total(cs, l.product))
    && forall p :: Total(cs, p) > 0 <==> exists l :: l in ls && l.product == p
  }

  lemma {:induction false} CanonicalIsBatch(cs: seq<BatchLine>)
    requires Positive(cs)
    ensures IsBatchOf(Canonical(cs), cs)
  {
    var ps, ls := SortStrings(ProductsOf(cs)), Canonical(cs);
    ProductsDistinct(cs);
    SortSorts(ProductsOf(cs));
    MultisetMembers(ProductsOf(cs), ps);
    forall p ensures Total(cs, p) > 0 <==> exists l :: l in ls && l.product == p {
      TotalPositive(cs, p);
      if p in ps {
        var i :| 0 <= i < |ps| && ps[i] == p;
        assert ls[i] in ls;
      }
    }
  }

  // There is only one such sequence.
  lemma {:induction false} BatchUnique(a: seq<BatchLine>, b: seq<BatchLine>, cs: seq<BatchLine>, ds: seq<BatchLine>)
    requires IsBatchOf(a, cs) && IsBatchOf(b, ds)
    requires forall p :: Total(cs, p) == Total(ds, p)
    ensures a == b
  {
    var pa := seq(|a|, i requires 0 <= i < |a| => a[i].product);
    var pb := seq(|b|, i requires 0 <= i < |b| => b[i].product);
    forall x ensures x in pa <==> x in pb {
      assert x in pa <==> exists l :: l in a && l.product == x by {
        if l :| l in a && l.product == x { var i :| 0 <= i < |a| && a[i] == l; assert pa[i] == x; }
      }
      assert x in pb <==> exists l :: l in b && l.product == x by {
        if l :| l in b && l.product == x { var i :| 0 <= i < |b| && b[i] == l; assert pb[i] == x; }
      }
    }
    SortedUnique(pa, pb);
    forall i | 0 <= i < |a| ensures a[i] == b[i] {
      assert a[i] in a && b[i] in b && pa[i] == pb[i];
    }
  }

  lemma {:induction false} TotalFromBatch(cs: seq<BatchLine>, ds: seq<BatchLine>, p: ProductId)
    requires Positive(cs) && Positive(ds) && Canonical(cs) == Canonical(ds)
    ensures Total(cs, p) == Total(ds, p)
  {
    var ls := Canonical(cs);
    CanonicalIsBatch(cs);
    CanonicalIsBatch(ds);
    TotalPositive(cs, p);
    TotalPositive(ds, p);
    if Total(cs, p) > 0 {
      var l :| l in ls && l.product == p;
      assert l.quantity == Total(cs, p) && l.quantity == Total(ds, p);
    }
  }

  ghost predicate SameTotals(cs: seq<BatchLine>, ds: seq<BatchLine>) {
    forall p :: Total(cs, p) == Total(ds, p)
  }

  // Equal totals give the same canonical lines, and different totals different ones.
  lemma {:induction false} CanonicalIffSameTotals(cs: seq<BatchLine>, ds: seq<BatchLine>)
    requires Positive(cs) && Positive(ds)
    ensures Canonical(cs) == Canonical(ds) <==> SameTotals(cs, ds)
  {
    CanonicalIsBatch(cs);
    CanonicalIsBatch(ds);
    if SameTotals(cs, ds) {
      BatchUnique(Canonical(cs), Canonical(ds), cs, ds);
    } else if Canonical(cs) == Canonical(ds) {
      forall p ensures Total(cs, p) == Total(ds, p) { TotalFromBatch(cs, ds, p); }
    }
  }

  lemma {:induction false} TotalSnoc(cs: seq<BatchLine>, c: BatchLine, p: ProductId)
    ensures Total(cs + [c], p) == Total(cs, p) + (if c.product == p then c.quantity else 0)
  {
    assert (cs + [c])[..|cs|] == cs;
  }

  lemma {:induction false} TotalConcat(a: seq<BatchLine>, b: seq<BatchLine>, p: ProductId)
    ensures Total(a + b, p) == Total(a, p) + Total(b, p)
  {
    if b == [] {
      assert a + b == a;
    } else {
      TotalConcat(a, b[..|b| - 1], p);
      assert (a + b)[..|a + b| - 1] == a + b[..|b| - 1];
    }
  }

  lemma {:induction false} TotalWithout(b: seq<BatchLine>, k: nat, p: ProductId)
    requires k < |b|
    ensures Total(b, p) == Total(b[..k] + b[k + 1..], p) + (if b[k].product == p then b[k].quantity else 0)
    ensures multiset(b) == multiset(b[..k] + b[k + 1..]) + multiset{b[k]}
  {
    assert b == b[..k] + [b[k]] + b[k + 1..];
    TotalConcat(b[..k] + [b[k]], b[k + 1..], p);
    TotalConcat(b[..k], [b[k]], p);
    TotalConcat(b[..k], b[k + 1..], p);
    assert [b[k]][..0] == [];
    assert Total([b[k]], p) == if b[k].product == p then b[k].quantity else 0;
  }

  lemma {:induction false} TotalPermutation(a: seq<BatchLine>, b: seq<BatchLine>, p: ProductId)
    requires multiset(a) == multiset(b)
    ensures Total(a, p) == Total(b, p)
  {
    assert |a| == |multiset(a)| && |b| == |multiset(b)|;
    if a != [] {
      var n := |a| - 1;
      assert a[n] in multiset(b);
      var k :| 0 <= k < |b| && b[k] == a[n];
      TotalWithout(a, n, p);
      TotalWithout(b, k, p);
      var a', b' := a[..n] + a[n + 1..], b[..k] + b[k + 1..];
      assert multiset(a') == multiset(a) - multiset{a[n]} && multiset(b') == multiset(b) - multiset{a[n]};
      TotalPermutation(a', b', p);
    }
  }

  // ---- Reaching the ledger ----

  // The lines of a batch that are not in the ledger yet, in batch order.
  function Missing(ps: seq<Posting>, posted: set<Key>): (ms: seq<Posting>)
    ensures |ms| <= |ps|
  {
    if ps == [] then [] else
      Missing(ps[..|ps| - 1], posted) + (if ps[|ps| - 1].key in posted then [] else [ps[|ps| - 1]])
  }

  ghost predicate KeysDistinct(ps: seq<Posting>) {
    forall i, j | 0 <= i < j < |ps| :: ps[i].key != ps[j].key
  }

  lemma {:induction false} MissingMembers(ps: seq<Posting>, posted: set<Key>)
    ensures forall p :: p in Missing(ps, posted) <==> p in ps && p.key !in posted
    ensures KeysDistinct(ps) ==> KeysDistinct(Missing(ps, posted))
  {
    if ps != [] {
      var front, last := ps[..|ps| - 1], ps[|ps| - 1];
      assert ps == front + [last];
      MissingMembers(front, posted);
      var fs := Missing(front, posted);
      if KeysDistinct(ps) {
        assert KeysDistinct(front);
        forall i | 0 <= i < |fs| ensures fs[i].key != last.key {
          assert fs[i] in fs && fs[i] in front;
          var j :| 0 <= j < |front| && front[j] == fs[i];
          assert ps[j].key != ps[|front|].key;
        }
      }
    }
  }

  lemma {:induction false} MissingFresh(st: Store, ps: seq<Posting>)
    requires KeysDistinct(ps)
    ensures FreshKeys(st.ledger, Missing(ps, Keys(st.ledger)))
  {
    MissingMembers(ps, Keys(st.ledger));
    var ms := Missing(ps, Keys(st.ledger));
    forall i | 0 <= i < |ms| ensures ms[i].key !in Keys(st.ledger) { assert ms[i] in ms; }
  }

  // One call that is not interrupted: every missing line, one transaction each.
  function Complete(st: Store, ps: seq<Posting>): Store {
    Commit(st, Missing(ps, Keys(st.ledger)))
  }

  // A call that stops after n of its line transactions.
  function Attempt(st: Store, ps: seq<Posting>, n: nat): Store {
    var ms := Missing(ps, Keys(st.ledger));
    Commit(st, ms[..if n <= |ms| then n else |ms|])
  }

  function Attempts(st: Store, ps: seq<Posting>, cuts: seq<nat>): Store {
    if cuts == [] then st else Attempt(Attempts(st, ps, cuts[..|cuts| - 1]), ps, cuts[|cuts| - 1])
  }

  lemma {:induction false} PostAllConcat(st: Store, a: seq<Posting>, b: seq<Posting>)
    ensures PostAll(st, a + b) == if PostAll(st, a).None? then None else PostAll(PostAll(st, a).value, b)
  {
    if b == [] {
      assert a + b == a;
    } else {
      PostAllConcat(st, a, b[..|b| - 1]);
      assert (a + b)[..|a + b| - 1] == a + b[..|b| - 1];
    }
  }

  lemma {:induction false} PrefixCommits(st: Store, ps: seq<Posting>, n: nat)
    requires KeysDistinct(ps) && n <= |Missing(ps, Keys(st.ledger))|
    ensures PostAll(st, Missing(ps, Keys(st.ledger))[..n]).Some?
  {
    MissingFresh(st, ps);
    PostAllCommits(st, Missing(ps, Keys(st.ledger))[..n]);
  }

  // Of lines with distinct keys, those left after a prefix of the missing ones
  // was posted are the rest of the missing ones.
  lemma {:induction false} MissingAfter(ps: seq<Posting>, posted: set<Key>, n: nat)
    requires KeysDistinct(ps) && n <= |Missing(ps, posted)|
    ensures Missing(ps, posted + PostingKeys(Missing(ps, posted)[..n])) == Missing(ps, posted)[n..]
  {
    if ps != [] {
      var front, last := ps[..|ps| - 1], ps[|ps| - 1];
      var fs, ms := Missing(front, posted), Missing(ps, posted);
      if n <= |fs| {
        MissingAfter(front, posted, n);
        assert ms[..n] == fs[..n];
        LastKeyNotAmong(ps, posted, n);
      } else {
        MissingAfter(front, posted, |fs|);
        assert ms == fs + [last] && ms[..n] == ms && fs[..|fs|] == fs;
        KeysOfLonger(fs, last);
        MissingMore(front, posted + PostingKeys(fs), posted + PostingKeys(ms));
      }
    }
  }

  lemma {:induction false} KeysOfLonger(ps: seq<Posting>, last: Posting)
    ensures PostingKeys(ps + [last]) == PostingKeys(ps) + {last.key}
  {
    assert last in ps + [last];
  }

  lemma {:induction false} LastKeyNotAmong(ps: seq<Posting>, posted: set<Key>, n: nat)
    requires ps != [] && KeysDistinct(ps) && n <= |Missing(ps[..|ps| - 1], posted)|
    ensures ps[|ps| - 1].key !in PostingKeys(Missing(ps[..|ps| - 1], posted)[..n])
  {
    var front, last := ps[..|ps| - 1], ps[|ps| - 1];
    MissingMembers(front, posted);
    forall p | p in Missing(front, posted)[..n] ensures p.key != last.key {
      assert p in Missing(front, posted);
      var j :| 0 <= j < |front| && front[j] == p;
      assert ps[j].key != ps[|ps| - 1].key;
    }
  }

  lemma {:induction false} MissingMore(ps: seq<Posting>, posted: set<Key>, more: set<Key>)
    requires posted <= more && Missing(ps, posted) == []
    ensures Missing(ps, more) == []
  {
    if ps != [] { MissingMore(ps[..|ps| - 1], posted, more); }
  }

  lemma {:induction false} AttemptThenComplete(st: Store, ps: seq<Posting>, n: nat)
    requires KeysDistinct(ps)
    ensures Complete(Attempt(st, ps, n), ps) == Complete(st, ps)
  {
    var ms := Missing(ps, Keys(st.ledger));
    var k := if n <= |ms| then n else |ms|;
    PrefixCommits(st, ps, k);
    PrefixCommits(st, ps, |ms|);
    assert ms[..|ms|] == ms && ms == ms[..k] + ms[k..];
    PostAllEffect(st, ms[..k]);
    MissingAfter(ps, Keys(st.ledger), k);
    PostAllConcat(st, ms[..k], ms[k..]);
  }

  // Whatever prefixes earlier attempts got through, one call to the end leaves
  // exactly the ledger and balances of a single uninterrupted call.
  lemma {:induction false} RetriesConverge(st: Store, ps: seq<Posting>, cuts: seq<nat>)
    requires KeysDistinct(ps)
    ensures Complete(Attempts(st, ps, cuts), ps) == Complete(st, ps)
  {
    if cuts != [] {
      RetriesConverge(st, ps, cuts[..|cuts| - 1]);
      AttemptThenComplete(Attempts(st, ps, cuts[..|cuts| - 1]), ps, cuts[|cuts| - 1]);
    }
  }

  // And after it, resubmitting does nothing at all.
  lemma {:induction false} CompleteIsFinal(st: Store, ps: seq<Posting>)
    requires KeysDistinct(ps)
    ensures Missing(ps, Keys(Complete(st, ps).ledger)) == [] && Complete(Complete(st, ps), ps) == Complete(st, ps)
  {
    var ms := Missing(ps, Keys(st.ledger));
    PrefixCommits(st, ps, |ms|);
    assert ms[..|ms|] == ms;
    PostAllEffect(st, ms);
    MissingAfter(ps, Keys(st.ledger), |ms|);
  }

  lemma {:induction false} NothingMissing(st: Store, ps: seq<Posting>)
    requires forall i | 0 <= i < |ps| :: ps[i].key in Keys(st.ledger)
    ensures Missing(ps, Keys(st.ledger)) == [] && Complete(st, ps) == st
  {
    var ms := Missing(ps, Keys(st.ledger));
    assert ms == [] || ms[0] in ms;
    MissingMembers(ps, Keys(st.ledger));
  }

  // Among the first n lines there is one of the product.
  predicate HasLine(lines: seq<BatchLine>, n: nat, p: ProductId)
    requires n <= |lines|
  {
    exists i :: 0 <= i < n && lines[i].product == p
  }

  lemma {:induction false} HasLineSnoc(lines: seq<BatchLine>, n: nat, p: ProductId)
    requires 0 < n <= |lines| && SortedByProduct(lines)
    ensures HasLine(lines, n, p) <==> HasLine(lines, n - 1, p) || lines[n - 1].product == p
    ensures HasLine(lines, n - 1, p) ==> lines[n - 1].product != p
  {
    if HasLine(lines, n - 1, p) {
      var i :| 0 <= i < n - 1 && lines[i].product == p;
      BeforeTrichotomy(lines[i].product, lines[n - 1].product);
    }
  }

  lemma {:induction false} AllMissing(ps: seq<Posting>, posted: set<Key>)
    requires PostingKeys(ps) !! posted
    ensures Missing(ps, posted) == ps
  {
    if ps != [] {
      var front, last := ps[..|ps| - 1], ps[|ps| - 1];
      assert ps == front + [last];
      assert PostingKeys(front) <= PostingKeys(ps) && last.key in PostingKeys(ps);
      AllMissing(front, posted);
    }
  }
}
