// Per-product unit conversion to integer base units.
module Units {
  import opened Basics

  datatype ProductRow = ProductRow(
    trackingLabel: string, checkoutLabel: string, orderingLabel: string,
    trackingToBase: int, checkoutToBase: int, orderingToBase: int)

  // Conversion factors are validated to be at least 1.
  type Product = p: ProductRow |
    p.trackingToBase >= 1 && p.checkoutToBase >= 1 && p.orderingToBase >= 1
    witness ProductRow("", "", "", 1, 1, 1)

  datatype Basis = Tracking | Checkout | Ordering

  predicate IsBlank(c: char) { c == ' ' || c == '\t' || c == '\n' || c == '\r' }

  function TrimStart(s: string): string {
    if s != [] && IsBlank(s[0]) then TrimStart(s[1..]) else s
  }

  function TrimEnd(s: string): string {
    if s != [] && IsBlank(s[|s| - 1]) then TrimEnd(s[..|s| - 1]) else s
  }

  function Lower(s: string): string {
    seq(|s|, i requires 0 <= i < |s| => if 'A' <= s[i] <= 'Z' then s[i] - 'A' + 'a' else s[i])
  }

  // text.trim().toLowerCase(), on ASCII.
  function Normalize(text: string): string { Lower(TrimEnd(TrimStart(text))) }

  function FactorFor(product: Product, basis: Basis): (f: int)
    ensures f >= 1
  {
    match basis
    case Tracking => product.trackingToBase
    case Checkout => product.checkoutToBase
    case Ordering => product.orderingToBase
  }

  // A label is compared with the tracking, checkout and ordering labels in turn.
  function UnitFactor(product: Product, unit: string, fallback: Basis): (f: int)
    ensures f >= 1
  {
    var n := Normalize(unit);
    if n != "" && n == Normalize(product.trackingLabel) then product.trackingToBase
    else if n != "" && n == Normalize(product.checkoutLabel) then product.checkoutToBase
    else if n != "" && n == Normalize(product.orderingLabel) then product.orderingToBase
    else FactorFor(product, fallback)
  }

  function ToBase(quantity: real, factor: int): int {
    Round(quantity * factor as real)
  }

  lemma {:induction false} ToBaseIs(quantity: real, factor: int)
    ensures ToBase(quantity, factor) == Round(quantity * factor as real)
  {}

  // Whole quantities convert exactly.
  lemma {:induction false} WholeToBase(quantity: int, factor: int)
    ensures ToBase(quantity as real, factor) == quantity * factor
  {
    assert quantity as real * factor as real == (quantity * factor) as real;
  }

  lemma {:induction false} SameMultiple(x: int, y: int, f: int)
    requires f >= 1
    ensures x * f == y * f <==> x == y
  {
    if x < y {
      assert (y - x) * f >= 1;
    } else if y < x {
      assert (x - y) * f >= 1;
    }
  }

  // ---- What a unit stands for ----

  // Base units of one unit: that of the label it names, tracking before checkout before
  // ordering; a blank or unknown one has `other`.
  ghost predicate UnitIs(product: Product, unit: string, other: int, f: int) {
    var n, t, c, o := Normalize(unit), Normalize(product.trackingLabel), Normalize(product.checkoutLabel), Normalize(product.orderingLabel);
    && (n != "" && n == t ==> f == product.trackingToBase)
    && (n != "" && n == c && n != t ==> f == product.checkoutToBase)
    && (n != "" && n == o && n != t && n != c ==> f == product.orderingToBase)
    && (n == "" || (n != t && n != c && n != o) ==> f == other)
  }

  lemma {:induction false} FactorByLabel(product: Product, unit: string, fallback: Basis)
    ensures UnitIs(product, unit,
      match fallback { case Tracking => product.trackingToBase case Checkout => product.checkoutToBase case Ordering => product.orderingToBase },
      UnitFactor(product, unit, fallback))
  {
    hide Normalize;
  }

  // There is one such factor.
  lemma {:induction false} UnitIsOne(product: Product, unit: string, other: int, f: int, g: int)
    requires UnitIs(product, unit, other, f) && UnitIs(product, unit, other, g)
    ensures f == g
  {
    hide Normalize;
  }

  // The factor of a unit where the tracking unit is assumed.
  ghost function UnitBase(product: Product, unit: string): (f: int)
    ensures UnitIs(product, unit, product.trackingToBase, f)
  {
    FactorByLabel(product, unit, Tracking);
    var f :| UnitIs(product, unit, product.trackingToBase, f);
    f
  }

  lemma {:induction false} UnitBaseIs(product: Product, unit: string)
    ensures UnitFactor(product, unit, Tracking) == UnitBase(product, unit)
  {
    hide UnitFactor, UnitIs;
    FactorByLabel(product, unit, Tracking);
    UnitIsOne(product, unit, product.trackingToBase, UnitFactor(product, unit, Tracking), UnitBase(product, unit));
  }

  // Labels are compared without surrounding blanks and without regard to case.
  lemma {:induction false} NormalizeIs(a: string, m: string, b: string)
    requires (forall c | c in a + b :: c in {' ', '\t', '\n', '\r'})
    requires m != "" ==> m[0] !in {' ', '\t', '\n', '\r'} && m[|m| - 1] !in {' ', '\t', '\n', '\r'}
    ensures |Normalize(a + m + b)| == |m|
    ensures forall i | 0 <= i < |m| :: Normalize(a + m + b)[i] == if 'A' <= m[i] <= 'Z' then m[i] - 'A' + 'a' else m[i]
  {
    assert forall c | c in a :: c in a + b;
    assert forall c | c in b :: c in a + b;
    assert a + m + b == a + (m + b);
    TrimsStart(a, m + b);
    if m == "" {
      TrimsStart(b, "");
      assert b + "" == b && m + b == b;
      TrimsStart(a + b, "");
      assert a + b + "" == a + b;
    } else {
      assert TrimStart(m + b) == m + b;
      TrimsEnd(m, b);
    }
  }

  lemma {:induction false} TrimsStart(a: string, s: string)
    requires forall c | c in a :: IsBlank(c)
    ensures TrimStart(a + s) == TrimStart(s)
  {
    if a == "" {
      assert a + s == s;
    } else {
      TrimsStart(a[1..], s);
      assert (a + s)[1..] == a[1..] + s;
    }
  }

  lemma {:induction false} TrimsEnd(m: string, b: string)
    requires (forall c | c in b :: IsBlank(c)) && m != "" && !IsBlank(m[|m| - 1])
    ensures TrimEnd(m + b) == m
  {
    if b == "" {
      assert m + b == m;
    } else {
      TrimsEnd(m, b[..|b| - 1]);
      assert (m + b)[..|m + b| - 1] == m + b[..|b| - 1];
    }
  }

  // A product counted in pieces, handed out in packs of six, ordered in cases.
  const PACKED: Product := ProductRow("ea", "Pack", "case", 1, 6, 24)

  lemma {:induction false} PackedUnits()
    ensures ToBase(3.0, UnitFactor(PACKED, " pack ", Tracking)) == 18
    ensures ToBase(3.0, UnitFactor(PACKED, "EA", Ordering)) == 3
    ensures ToBase(3.0, UnitFactor(PACKED, "Case", Tracking)) == 72
    ensures ToBase(3.0, UnitFactor(PACKED, "box", Tracking)) == 3
    ensures ToBase(3.0, UnitFactor(PACKED, "", Ordering)) == 72
    ensures ToBase(2.5, UnitFactor(PACKED, "ea", Tracking)) == 3 && ToBase(-2.5, UnitFactor(PACKED, "ea", Tracking)) == -2
  {
    hide Normalize;
    PackedLabels();
  }

  lemma {:induction false} PackedLabels()
    ensures Normalize(" pack ") == Normalize("Pack") == "pack"
    ensures Normalize("EA") == Normalize("ea") == "ea"
    ensures Normalize("Case") == Normalize("case") == "case"
    ensures Normalize("box") == "box" && Normalize("") == ""
  {
    hide Normalize;
    NormalizeIs(" ", "pack", " ");
    assert " " + "pack" + " " == " pack ";
    Whole("Pack");
    Whole("EA");
    Whole("ea");
    Whole("Case");
    Whole("case");
    Whole("box");
    Whole("");
  }

  lemma {:induction false} Whole(m: string)
    requires m != "" ==> !IsBlank(m[0]) && !IsBlank(m[|m| - 1])
    ensures |Normalize(m)| == |m|
    ensures forall i | 0 <= i < |m| :: Normalize(m)[i] == if 'A' <= m[i] <= 'Z' then m[i] - 'A' + 'a' else m[i]
  {
    hide Normalize;
    NormalizeIs("", m, "");
    assert "" + m + "" == m;
  }
}
