// Receipts are not stored: the list groups ledger keys by a prefix computed from
// the key text, and the detail view selects keys by that prefix again.
module ReceiptKeys {
  import opened Basics

  // ---- String.split and Array.join on one character ----

  function Split(s: string, sep: char): (parts: seq<string>)
    ensures |parts| >= 1
  {
    if s == [] then [[]]
    else
      var rest := Split(s[1..], sep);
      if s[0] == sep then [[]] + rest else [[s[0]] + rest[0]] + rest[1..]
  }

  function Join(parts: seq<string>, sep: char): string
    requires |parts| >= 1
  {
    if |parts| == 1 then parts[0] else parts[0] + [sep] + Join(parts[1..], sep)
  }

  lemma {:induction false} SplitParts(s: string, sep: char)
    ensures forall p | p in Split(s, sep) :: sep !in p
    ensures Join(Split(s, sep), sep) == s
  {
    if s != [] {
      var rest, parts := Split(s[1..], sep), Split(s, sep);
      SplitParts(s[1..], sep);
      if s[0] == sep {
        assert parts[1..] == rest;
      } else {
        assert parts[0] == [s[0]] + rest[0];
        assert |parts| > 1 ==> parts[1..] == rest[1..];
      }
      assert s == [s[0]] + s[1..];
    }
  }

  lemma {:induction false} SplitFree(s: string, sep: char)
    requires sep !in s
    ensures Split(s, sep) == [s]
  {
    if s != [] {
      SplitFree(s[1..], sep);
      assert s == [s[0]] + s[1..];
    }
  }

  lemma {:induction false} SplitStep(c: char, s: string, sep: char)
    ensures Split([c] + s, sep) ==
      if c == sep then [[]] + Split(s, sep) else [[c] + Split(s, sep)[0]] + Split(s, sep)[1..]
  {
    assert ([c] + s)[1..] == s;
  }

  lemma {:induction false} SplitConcat(a: string, b: string, sep: char)
    ensures Split(a + [sep] + b, sep) == Split(a, sep) + Split(b, sep)
  {
    if a == [] {
      SplitStep(sep, b, sep);
      assert a + [sep] + b == [sep] + b;
    } else {
      var c, rest := a[0], a[1..];
      SplitConcat(rest, b, sep);
      SplitStep(c, rest + [sep] + b, sep);
      SplitStep(c, rest, sep);
      assert a == [c] + rest;
      assert a + [sep] + b == [c] + (rest + [sep] + b);
      ConcatFirst(Split(rest, sep), Split(b, sep), c);
    }
  }

  lemma {:induction false} ConcatFirst(a: seq<string>, b: seq<string>, c: char)
    requires a != []
    ensures [[]] + (a + b) == ([[]] + a) + b
    ensures [[c] + (a + b)[0]] + (a + b)[1..] == ([[c] + a[0]] + a[1..]) + b
  {}

  lemma {:induction false} JoinConcat(a: seq<string>, b: seq<string>, sep: char)
    requires |a| >= 1 && |b| >= 1
    ensures Join(a + b, sep) == Join(a, sep) + [sep] + Join(b, sep)
  {
    if |a| == 1 {
      assert (a + b)[1..] == b;
    } else {
      JoinConcat(a[1..], b, sep);
      assert (a + b)[1..] == a[1..] + b;
    }
  }

  lemma {:induction false} SplitJoin(parts: seq<string>, sep: char)
    requires |parts| >= 1 && forall p | p in parts :: sep !in p
    ensures Split(Join(parts, sep), sep) == parts
  {
    SplitFree(parts[0], sep);
    if |parts| > 1 {
      SplitJoin(parts[1..], sep);
      SplitConcat(parts[0], Join(parts[1..], sep), sep);
      assert parts == [parts[0]] + parts[1..];
    }
  }

  // ---- The first n segments ----

  function Cut(s: string, sep: char, n: nat): string
    requires 1 <= n <= |Split(s, sep)|
  {
    Join(Split(s, sep)[..n], sep)
  }

  // Two texts with more than n segments share their first n exactly when one
  // starts with the other's n segments and a separator.
  lemma {:induction false} SharedCut(k: string, other: string, sep: char, n: nat)
    requires 1 <= n < |Split(k, sep)|
    ensures Cut(k, sep, n) + [sep] <= other <==> n < |Split(other, sep)| && Cut(other, sep, n) == Cut(k, sep, n)
  {
    var cut := Cut(k, sep, n);
    SplitParts(k, sep);
    SplitJoin(Split(k, sep)[..n], sep);
    if cut + [sep] <= other {
      var rest := other[|cut| + 1..];
      assert other == cut + [sep] + rest;
      SplitConcat(cut, rest, sep);
      assert Split(other, sep)[..n] == Split(k, sep)[..n];
    }
    if n < |Split(other, sep)| && Cut(other, sep, n) == cut {
      var parts := Split(other, sep);
      SplitParts(other, sep);
      assert parts == parts[..n] + parts[n..];
      JoinConcat(parts[..n], parts[n..], sep);
      assert other == cut + [sep] + Join(parts[n..], sep);
    }
  }

  // ---- Receipt ids ----

  const DASHED := "incoming-"
  const PLAIN := "receiving:"
  const CSV := "receiving_csv:"
  const ORDER := "po_receiving:"

  predicate StartsWith(s: string, p: string) { p <= s }

  // getReceiptKey; an empty key has none.
  function ReceiptId(key: string): Option<string> {
    if key == "" then None
    else if StartsWith(key, DASHED) && |Split(key, '-')| >= 3 then Some(DASHED + Split(key, '-')[1])
    else if StartsWith(key, PLAIN) && |Split(key, ':')| >= 3 then Some(Join(Split(key, ':')[..3], ':'))
    else if StartsWith(key, CSV) && |Split(key, ':')| >= 4 then Some(Join(Split(key, ':')[..4], ':'))
    else if StartsWith(key, ORDER) && |Split(key, ':')| >= 3 then Some(Join(Split(key, ':')[..3], ':'))
    else Some(key)
  }

  // getReceiptPrefix.
  function ReceiptPrefix(id: string): string {
    if StartsWith(id, DASHED) then id + "-"
    else if StartsWith(id, PLAIN) || StartsWith(id, CSV) || StartsWith(id, ORDER) then id + ":"
    else id
  }

  // The four key shapes: first segment, separator, number of segments in the id.
  datatype Family = Family(word: string, sep: char, segments: nat)

  const FAMILIES := {Family("incoming", '-', 2), Family("receiving", ':', 3),
                     Family("receiving_csv", ':', 4), Family("po_receiving", ':', 3)}

  function Tag(f: Family): string { f.word + [f.sep] }

  // The key has a segment beyond its receipt id.
  ghost predicate InFamily(key: string, f: Family) {
    f in FAMILIES && StartsWith(key, Tag(f)) && |Split(key, f.sep)| > f.segments
  }

  lemma {:induction false} FamilyTags(f: Family)
    requires f in FAMILIES
    ensures f.sep !in f.word
    ensures Tag(f) == (if f.sep == '-' then DASHED else if f.segments == 4 then CSV else if |f.word| == 9 then PLAIN else ORDER)
  {}

  lemma {:induction false} TagsExclude(s: string)
    ensures !(StartsWith(s, DASHED) && (StartsWith(s, PLAIN) || StartsWith(s, CSV) || StartsWith(s, ORDER)))
    ensures !(StartsWith(s, PLAIN) && (StartsWith(s, CSV) || StartsWith(s, ORDER)))
    ensures !(StartsWith(s, CSV) && StartsWith(s, ORDER))
  {
    assert StartsWith(s, DASHED) ==> s[0] == 'i';
    assert StartsWith(s, PLAIN) ==> s[0] == 'r' && s[9] == ':';
    assert StartsWith(s, CSV) ==> s[0] == 'r' && s[9] == '_';
    assert StartsWith(s, ORDER) ==> s[0] == 'p';
  }

  lemma {:induction false} TagSegment(key: string, f: Family)
    requires f in FAMILIES && StartsWith(key, Tag(f))
    ensures Split(key, f.sep)[0] == f.word
  {
    FamilyTags(f);
    var rest := key[|Tag(f)|..];
    assert key == f.word + [f.sep] + rest;
    SplitConcat(f.word, rest, f.sep);
    SplitFree(f.word, f.sep);
  }

  lemma {:induction false} CutStartsWithTag(key: string, f: Family)
    requires InFamily(key, f)
    ensures StartsWith(Cut(key, f.sep, f.segments), Tag(f))
    ensures Cut(key, f.sep, f.segments) + [f.sep] <= key
  {
    TagSegment(key, f);
    var parts := Split(key, f.sep);
    assert parts[..f.segments] == [parts[0]] + parts[1..f.segments];
    JoinConcat([parts[0]], parts[1..f.segments], f.sep);
    SharedCut(key, key, f.sep, f.segments);
  }

  lemma {:induction false} IdIsCut(key: string, f: Family)
    requires InFamily(key, f)
    ensures ReceiptId(key) == Some(Cut(key, f.sep, f.segments))
    ensures ReceiptPrefix(Cut(key, f.sep, f.segments)) == Cut(key, f.sep, f.segments) + [f.sep]
  {
    TagsExclude(key);
    FamilyTags(f);
    CutStartsWithTag(key, f);
    TagsExclude(Cut(key, f.sep, f.segments));
    if f.sep == '-' {
      TagSegment(key, f);
      var parts := Split(key, '-');
      assert parts[..2] == [parts[0]] + [parts[1]];
      JoinConcat([parts[0]], [parts[1]], '-');
    }
  }

  // A key whose id is not the whole key has a family and a further segment.
  lemma {:induction false} ShorterIdHasFamily(key: string) returns (f: Family)
    requires ReceiptId(key).Some? && ReceiptId(key).value != key
    ensures InFamily(key, f)
  {
    TagsExclude(key);
    SplitParts(key, ':');
    var parts := Split(key, ':');
    assert parts[..|parts|] == parts;
    f := if StartsWith(key, DASHED) then Family("incoming", '-', 2)
         else if StartsWith(key, PLAIN) then Family("receiving", ':', 3)
         else if StartsWith(key, CSV) then Family("receiving_csv", ':', 4)
         else Family("po_receiving", ':', 3);
    FamilyTags(f);
  }

  // List and detail agree: for a structured key, the detail view of its receipt
  // selects exactly the keys that the list puts in the same group, except a key
  // that is the bare receipt id itself.
  lemma {:induction false} DetailSelectsTheGroup(key: string, f: Family, other: string)
    requires InFamily(key, f)
    ensures var id := ReceiptId(key).value;
      ReceiptId(key).Some? && (StartsWith(other, ReceiptPrefix(id)) <==> ReceiptId(other) == Some(id) && other != id)
  {
    var id := Cut(key, f.sep, f.segments);
    IdIsCut(key, f);
    CutStartsWithTag(key, f);
    SharedCut(key, other, f.sep, f.segments);
    if StartsWith(other, id + [f.sep]) {
      assert StartsWith(other, Tag(f));
      IdIsCut(other, f);
    } else if ReceiptId(other) == Some(id) && other != id {
      var g := ShorterIdHasFamily(other);
      IdIsCut(other, g);
      CutStartsWithTag(other, g);
      TagsExclude(id);
      FamilyTags(f);
      FamilyTags(g);
    }
  }

  // ---- Generated keys ----

  // word:a:b:c
  function Colons(word: string, a: string, b: string, c: string): string {
    word + [':'] + (a + [':'] + (b + [':'] + c))
  }

  function ReceivingKeyText(scope: string, hash: string, product: string): string {
    Colons("receiving", scope, hash, product)
  }

  lemma {:induction false} ColonsParts(word: string, a: string, b: string, c: string)
    requires ':' !in word && ':' !in b
    ensures Split(Colons(word, a, b, c), ':') == [word] + Split(a, ':') + [b] + Split(c, ':')
  {
    SplitFree(word, ':');
    SplitFree(b, ':');
    SplitConcat(word, a + [':'] + (b + [':'] + c), ':');
    SplitConcat(a, b + [':'] + c, ':');
    SplitConcat(b, c, ':');
  }

  lemma {:induction false} ReceivingIdOf(scope: string, hash: string, product: string)
    requires ':' !in hash
    ensures ':' !in scope ==> ReceiptId(ReceivingKeyText(scope, hash, product)) == Some(Join(["receiving", scope, hash], ':'))
    ensures ':' in scope ==> |Split(scope, ':')| >= 2
    ensures ':' in scope ==> ReceiptId(ReceivingKeyText(scope, hash, product)) == Some(Join(["receiving"] + Split(scope, ':')[..2], ':'))
  {
    var key := ReceivingKeyText(scope, hash, product);
    var parts := Split(key, ':');
    ColonsParts("receiving", scope, hash, product);
    assert StartsWith(key, PLAIN) by { assert "receiving" + [':'] == PLAIN; }
    TagsExclude(key);
    SplitParts(scope, ':');
    if ':' !in scope {
      SplitFree(scope, ':');
      assert parts[..3] == ["receiving", scope, hash];
    } else {
      assert |Split(scope, ':')| != 1;
      assert parts[..3] == ["receiving"] + Split(scope, ':')[..2];
    }
  }

  lemma {:induction false} JoinedHash(scope: string, h: string, g: string)
    requires ':' !in h && ':' !in g && ':' !in scope
    requires Join(["receiving", scope, h], ':') == Join(["receiving", scope, g], ':')
    ensures h == g
  {
    SplitJoin(["receiving", scope, h], ':');
    SplitJoin(["receiving", scope, g], ':');
    assert ["receiving", scope, h][2] == ["receiving", scope, g][2];
  }

  ghost predicate IdsIdentifyBatches(scope: string) {
    forall h: string, g: string, p: string, q: string {:trigger ReceivingKeyText(scope, h, p), ReceivingKeyText(scope, g, q)}
      | ':' !in h && ':' !in g && ReceiptId(ReceivingKeyText(scope, h, p)) == ReceiptId(ReceivingKeyText(scope, g, q)) :: h == g
  }

  // A receipt id stands for one batch exactly when the scope has no colon: for a
  // truck scope all batches share one id.
  lemma {:induction false} IdsIdentifyBatchesIff(scope: string)
    ensures IdsIdentifyBatches(scope) <==> ':' !in scope
  {
    if ':' !in scope {
      forall h: string, g: string, p: string, q: string
        | ':' !in h && ':' !in g && ReceiptId(ReceivingKeyText(scope, h, p)) == ReceiptId(ReceivingKeyText(scope, g, q))
        ensures h == g
      {
        ReceivingIdOf(scope, h, p);
        ReceivingIdOf(scope, g, q);
        JoinedHash(scope, h, g);
      }
    } else {
      ReceivingIdOf(scope, "a", "p");
      ReceivingIdOf(scope, "b", "p");
      assert ReceivingKeyText(scope, "a", "p") == ReceivingKeyText(scope, "a", "p");
      assert ReceivingKeyText(scope, "b", "p") == ReceivingKeyText(scope, "b", "p");
    }
  }

  function CsvKeyText(scope: string, day: string, hash: string, product: string): string {
    Colons("receiving_csv", scope, day, hash + [':'] + product)
  }

  lemma {:induction false} CsvIdOf(scope: string, day: string, hash: string, product: string)
    requires ':' !in day && ':' !in hash
    ensures ':' !in scope ==>
      ReceiptId(CsvKeyText(scope, day, hash, product)) == Some(Join(["receiving_csv", scope, day, hash], ':'))
    ensures ':' in scope ==> |Split(scope, ':')| >= 2
    ensures ':' in scope ==>
      ReceiptId(CsvKeyText(scope, day, hash, product)) == Some(Join((["receiving_csv"] + Split(scope, ':') + [day])[..4], ':'))
  {
    var key := CsvKeyText(scope, day, hash, product);
    var parts := Split(key, ':');
    ColonsParts("receiving_csv", scope, day, hash + [':'] + product);
    SplitConcat(hash, product, ':');
    SplitFree(hash, ':');
    assert StartsWith(key, CSV) by { assert "receiving_csv" + [':'] == CSV; }
    TagsExclude(key);
    SplitParts(scope, ':');
    if ':' !in scope {
      SplitFree(scope, ':');
      assert parts[..4] == ["receiving_csv", scope, day, hash];
    } else {
      assert |Split(scope, ':')| != 1;
      assert parts[..4] == (["receiving_csv"] + Split(scope, ':') + [day])[..4];
    }
  }

  ghost predicate CsvIdsIdentifyBatches(scope: string, day: string) {
    forall h: string, g: string, p: string, q: string {:trigger CsvKeyText(scope, day, h, p), CsvKeyText(scope, day, g, q)}
      | ':' !in h && ':' !in g && ReceiptId(CsvKeyText(scope, day, h, p)) == ReceiptId(CsvKeyText(scope, day, g, q)) :: h == g
  }

  // The same for CSV receipts of one day: with a colon in the scope the hash falls
  // outside the first four segments.
  lemma {:induction false} CsvIdsIdentifyBatchesIff(scope: string, day: string)
    requires ':' !in day
    ensures CsvIdsIdentifyBatches(scope, day) <==> ':' !in scope
  {
    if ':' !in scope {
      forall h: string, g: string, p: string, q: string
        | ':' !in h && ':' !in g && ReceiptId(CsvKeyText(scope, day, h, p)) == ReceiptId(CsvKeyText(scope, day, g, q))
        ensures h == g
      {
        CsvIdOf(scope, day, h, p);
        CsvIdOf(scope, day, g, q);
        SplitJoin(["receiving_csv", scope, day, h], ':');
        SplitJoin(["receiving_csv", scope, day, g], ':');
        assert ["receiving_csv", scope, day, h][3] == ["receiving_csv", scope, day, g][3];
      }
    } else {
      CsvIdOf(scope, day, "a", "p");
      CsvIdOf(scope, day, "b", "p");
      var a, b := "a", "b";
      assert CsvKeyText(scope, day, a, "p") == CsvKeyText(scope, day, a, "p");
      assert CsvKeyText(scope, day, b, "p") == CsvKeyText(scope, day, b, "p");
      assert ':' !in a && ':' !in b && a != b;
    }
  }

  function OrderKeyText(po: string, hash: string, product: string): string {
    Colons("po_receiving", po, hash, product)
  }

  lemma {:induction false} OrderIdOf(po: string, hash: string, product: string)
    requires ':' !in po && ':' !in hash
    ensures ReceiptId(OrderKeyText(po, hash, product)) == Some(Join(["po_receiving", po, hash], ':'))
  {
    var key := OrderKeyText(po, hash, product);
    ColonsParts("po_receiving", po, hash, product);
    assert StartsWith(key, ORDER) by { assert "po_receiving" + [':'] == ORDER; }
    TagsExclude(key);
    SplitFree(po, ':');
    assert Split(key, ':')[..3] == ["po_receiving", po, hash];
  }

  // Order receipts put the order id, which has no colon, where the others put the
  // scope: their id always stands for one batch of one order.
  lemma {:induction false} OrderIdsIdentifyBatches(po: string, h: string, p: string, po': string, g: string, q: string)
    requires ':' !in po && ':' !in h && ':' !in po' && ':' !in g
    ensures ReceiptId(OrderKeyText(po, h, p)) == ReceiptId(OrderKeyText(po', g, q)) <==> po == po' && h == g
  {
    OrderIdOf(po, h, p);
    OrderIdOf(po', g, q);
    SplitJoin(["po_receiving", po, h], ':');
    SplitJoin(["po_receiving", po', g], ':');
    assert ["po_receiving", po, h][1..] == [po, h] && ["po_receiving", po', g][1..] == [po', g];
    assert [po, h] == [po', g] ==> [po, h][0] == [po', g][0] && [po, h][1] == [po', g][1];
  }

  // ---- Grouping ----

  datatype ReceiptTx = ReceiptTx(key: string, quantity: int)
  datatype Group = Group(count: nat, total: int)

  // What the detail view of an id sums up.
  function DetailOf(txs: seq<ReceiptTx>, id: string): Group {
    if txs == [] then Group(0, 0) else
      var t, g := txs[|txs| - 1], DetailOf(txs[..|txs| - 1], id);
      if StartsWith(t.key, ReceiptPrefix(id)) then Group(g.count + 1, g.total + t.quantity) else g
  }

  ghost predicate IsStructured(key: string) { exists f :: InFamily(key, f) }

  ghost predicate Structured(txs: seq<ReceiptTx>) {
    forall t | t in txs :: IsStructured(t.key)
  }

  lemma {:induction false} StructuredMatch(t: string, u: string)
    requires IsStructured(t) && IsStructured(u)
    ensures ReceiptId(t).Some? && (StartsWith(u, ReceiptPrefix(ReceiptId(t).value)) <==> ReceiptId(u) == ReceiptId(t))
  {
    var f :| InFamily(t, f);
    var g :| InFamily(u, g);
    DetailSelectsTheGroup(t, f, u);
    IdIsCut(u, g);
    CutStartsWithTag(u, g);
  }

  // Each group holds exactly what the detail view of its id shows, every entry has
  // a group, and only such groups exist.
  ghost predicate GroupsOf(groups: map<string, Group>, txs: seq<ReceiptTx>) {
    && (forall id | id in groups :: groups[id] == DetailOf(txs, id))
    && (forall t | t in txs :: ReceiptId(t.key).Some? && ReceiptId(t.key).value in groups)
    && (forall id | id in groups :: exists t :: t in txs && ReceiptId(t.key) == Some(id))
  }

  // The list of receipts: one pass over the entries into a Map.
  method ListReceipts(txs: seq<ReceiptTx>) returns (groups: map<string, Group>)
    requires Structured(txs)
    ensures GroupsOf(groups, txs)
  {
    hide ReceiptId, ReceiptPrefix, DetailOf, InFamily, IsStructured;
    groups := map[];
    for i := 0 to |txs|
      invariant GroupsOf(groups, txs[..i])
    {
      var t := txs[i];
      assert txs[..i + 1] == txs[..i] + [t] && t in txs;
      AddToGroups(groups, txs[..i], t);
      var id := ReceiptId(t.key).value;
      if id in groups {
        groups := groups[id := Group(groups[id].count + 1, groups[id].total + t.quantity)];
      } else {
        groups := groups[id := Group(1, t.quantity)];
      }
    }
    assert txs[..|txs|] == txs;
  }

  lemma {:induction false} AddToGroups(groups: map<string, Group>, front: seq<ReceiptTx>, t: ReceiptTx)
    requires Structured(front) && IsStructured(t.key) && GroupsOf(groups, front)
    ensures ReceiptId(t.key).Some?
    ensures var id := ReceiptId(t.key).value;
      var g := if id in groups then groups[id] else Group(0, 0);
      GroupsOf(groups[id := Group(g.count + 1, g.total + t.quantity)], front + [t])
  {
    hide ReceiptPrefix, DetailOf, InFamily, IsStructured, ReceiptId;
    StructuredMatch(t.key, t.key);
    var id := ReceiptId(t.key).value;
    if id !in groups { NoDetail(front, t.key); }
    forall d | d == id || d in groups ensures DetailOf(front + [t], d) ==
        var g := DetailOf(front, d); if d == id then Group(g.count + 1, g.total + t.quantity) else g {
      DetailStep(front, t, d);
    }
    assert t in front + [t] && forall u :: u in front ==> u in front + [t];
  }

  lemma {:induction false} DetailStep(front: seq<ReceiptTx>, t: ReceiptTx, d: string)
    requires IsStructured(t.key) && Structured(front)
    requires ReceiptId(t.key) == Some(d) || exists u :: u in front && ReceiptId(u.key) == Some(d)
    ensures DetailOf(front + [t], d) == var g := DetailOf(front, d);
      if ReceiptId(t.key) == Some(d) then Group(g.count + 1, g.total + t.quantity) else g
  {
    assert (front + [t])[..|front|] == front;
    if ReceiptId(t.key) == Some(d) {
      StructuredMatch(t.key, t.key);
    } else {
      var u :| u in front && ReceiptId(u.key) == Some(d);
      StructuredMatch(u.key, t.key);
    }
  }

  lemma {:induction false} NoDetail(front: seq<ReceiptTx>, key: string)
    requires IsStructured(key) && Structured(front)
    requires forall u | u in front :: ReceiptId(u.key) != ReceiptId(key)
    ensures ReceiptId(key).Some? && DetailOf(front, ReceiptId(key).value) == Group(0, 0)
  {
    StructuredMatch(key, key);
    if front != [] {
      assert front[|front| - 1] in front;
      NoDetail(front[..|front| - 1], key);
      StructuredMatch(key, front[|front| - 1].key);
    }
  }
}
