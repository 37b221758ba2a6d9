/** Invoice arithmetic, in exact rationals rounded to cents as the code rounds. */
module InvoiceTotals {

  /** A line as it is multiplied out; a missing rate is 0. */
  datatype Line = Line(quantity: real, unitPrice: real, taxRate: real, discountRate: real)

  datatype Totals = Totals(subtotal: real, taxTotal: real, discountTotal: real, total: real)

  /** The nearest number of cents, halves upwards. */
  function Cents(value: real): int {
    (value * 100.0 + 0.5).Floor
  }

  function Round(value: real): real {
    Cents(value) as real / 100.0
  }

  function Percent(amount: real, rate: real): real {
    amount * rate / 100.0
  }

  // ---- one line ----

  function LineSubtotal(line: Line): real {
    line.quantity * line.unitPrice
  }

  function LineDiscount(line: Line): real {
    if line.discountRate > 0.0 then Percent(LineSubtotal(line), line.discountRate) else 0.0
  }

  /** The base of the tax: a negative discount rate raises it, although no discount is counted. */
  function AfterDiscount(line: Line): real {
    LineSubtotal(line) - if line.discountRate != 0.0 then Percent(LineSubtotal(line), line.discountRate) else 0.0
  }

  function LineTax(line: Line): real {
    if line.taxRate > 0.0 then Percent(AfterDiscount(line), line.taxRate) else 0.0
  }

  /** What the line adds to the invoice total before rounding. */
  function LineShare(line: Line): real {
    LineSubtotal(line) - LineDiscount(line) + LineTax(line)
  }

  /** What calculateLineTotal computes before rounding. */
  function ExactLineTotal(line: Line): real {
    var discounted := LineSubtotal(line) - LineDiscount(line);
    if line.taxRate > 0.0 then discounted + Percent(discounted, line.taxRate) else discounted
  }

  function LineTotal(line: Line): real {
    Round(ExactLineTotal(line))
  }

  // ---- the amounts as products ----

  function Positive(rate: real): real {
    if rate > 0.0 then rate else 0.0
  }

  /** Quantity times price, less a discount rate, plus a tax rate; negative rates count for nothing. */
  function TaxedAmount(quantity: real, unitPrice: real, taxRate: real, discountRate: real): real {
    quantity * unitPrice * (1.0 - Positive(discountRate) / 100.0) * (1.0 + Positive(taxRate) / 100.0)
  }

  /** A line total is that of the line, before rounding. */
  lemma LineTotalIsProduct(line: Line)
    ensures ExactLineTotal(line) == TaxedAmount(line.quantity, line.unitPrice, line.taxRate, line.discountRate)
  {
    var s, d, t := line.quantity * line.unitPrice, Positive(line.discountRate), Positive(line.taxRate);
    var discounted := LineSubtotal(line) - LineDiscount(line);
    assert discounted == s * (1.0 - d / 100.0);
    assert ExactLineTotal(line) == discounted * (1.0 + t / 100.0);
  }

  function Amount(line: Line): real {
    line.quantity * line.unitPrice
  }

  function DiscountAmount(line: Line): real {
    line.quantity * line.unitPrice * Positive(line.discountRate) / 100.0
  }

  /** The tax is on what any discount rate, a negative one too, leaves. */
  function TaxAmount(line: Line): real {
    line.quantity * line.unitPrice * (1.0 - line.discountRate / 100.0) * Positive(line.taxRate) / 100.0
  }

  /** What a line adds to subtotal, discount and tax of the invoice. */
  lemma LinePartsAreProducts(line: Line)
    ensures LineSubtotal(line) == Amount(line) && LineDiscount(line) == DiscountAmount(line) && LineTax(line) == TaxAmount(line)
  {
    assert AfterDiscount(line) == line.quantity * line.unitPrice * (1.0 - line.discountRate / 100.0);
  }

  function InCents(c: int): real {
    c as real / 100.0
  }

  /** The nearest amount in whole cents, halves upwards. */
  ghost predicate IsRounded(amount: real, exact: real) {
    (exists c :: amount == InCents(c)) && -0.005 < amount - exact <= 0.005
  }

  lemma RoundIsRounded(exact: real)
    ensures IsRounded(Round(exact), exact)
  {
    RoundingError(exact);
    assert Round(exact) == InCents(Cents(exact));
  }

  method CalculateLineTotal(item: Line) returns (rounded: real)
    ensures rounded == LineTotal(item)
    ensures IsRounded(rounded, TaxedAmount(item.quantity, item.unitPrice, item.taxRate, item.discountRate))
  {
    LineTotalIsProduct(item);
    RoundIsRounded(ExactLineTotal(item));
    var lineTotal := item.quantity * item.unitPrice;
    if item.discountRate > 0.0 {
      lineTotal := lineTotal - Percent(lineTotal, item.discountRate);
    }
    assert lineTotal == LineSubtotal(item) - LineDiscount(item);
    if item.taxRate > 0.0 {
      lineTotal := lineTotal + Percent(lineTotal, item.taxRate);
    }
    rounded := Round(lineTotal);
  }

  // ---- all lines ----

  function Sum(f: Line -> real, lines: seq<Line>): real {
    if lines == [] then 0.0 else Sum(f, lines[..|lines| - 1]) + f(lines[|lines| - 1])
  }

  function TotalsOf(lines: seq<Line>): Totals {
    Totals(Round(Sum(LineSubtotal, lines)), Round(Sum(LineTax, lines)), Round(Sum(LineDiscount, lines)),
           Round(Sum(LineShare, lines)))
  }

  // The exact amounts of an invoice, line by line from the first.

  function ExactSubtotal(lines: seq<Line>): real {
    if lines == [] then 0.0 else Amount(lines[0]) + ExactSubtotal(lines[1..])
  }

  function ExactDiscount(lines: seq<Line>): real {
    if lines == [] then 0.0 else DiscountAmount(lines[0]) + ExactDiscount(lines[1..])
  }

  function ExactTax(lines: seq<Line>): real {
    if lines == [] then 0.0 else TaxAmount(lines[0]) + ExactTax(lines[1..])
  }

  lemma {:induction false} SumsAreExact(lines: seq<Line>)
    ensures Sum(LineSubtotal, lines) == ExactSubtotal(lines)
    ensures Sum(LineDiscount, lines) == ExactDiscount(lines)
    ensures Sum(LineTax, lines) == ExactTax(lines)
  {
    hide LineSubtotal, LineDiscount, LineTax, Amount, DiscountAmount, TaxAmount;
    if lines != [] {
      hide Sum;
      SumsAreExact(lines[1..]);
      LinePartsAreProducts(lines[0]);
      SumFirst(LineSubtotal, lines);
      SumFirst(LineDiscount, lines);
      SumFirst(LineTax, lines);
    }
  }

  lemma {:induction false} SumFirst(f: Line -> real, lines: seq<Line>)
    requires lines != []
    ensures Sum(f, lines) == f(lines[0]) + Sum(f, lines[1..])
  {
    SumWithout(f, lines, 0);
    assert lines[..0] + lines[1..] == lines[1..];
  }

  method CalculateTotals(items: seq<Line>) returns (totals: Totals)
    ensures totals == TotalsOf(items)
    ensures IsRounded(totals.subtotal, ExactSubtotal(items))
    ensures IsRounded(totals.discountTotal, ExactDiscount(items))
    ensures IsRounded(totals.taxTotal, ExactTax(items))
    ensures IsRounded(totals.total, ExactSubtotal(items) - ExactDiscount(items) + ExactTax(items))
  {
    var subtotal, taxTotal, discountTotal := 0.0, 0.0, 0.0;
    for i := 0 to |items|
      invariant subtotal == Sum(LineSubtotal, items[..i])
      invariant taxTotal == Sum(LineTax, items[..i])
      invariant discountTotal == Sum(LineDiscount, items[..i])
    {
      var item := items[i];
      var itemSubtotal := item.quantity * item.unitPrice;
      subtotal := subtotal + itemSubtotal;
      if item.discountRate > 0.0 {
        discountTotal := discountTotal + Percent(itemSubtotal, item.discountRate);
      }
      var afterDiscount := itemSubtotal - if item.discountRate != 0.0 then Percent(itemSubtotal, item.discountRate) else 0.0;
      if item.taxRate > 0.0 {
        taxTotal := taxTotal + Percent(afterDiscount, item.taxRate);
      }
      assert items[..i + 1][..i] == items[..i];
    }
    assert items[..|items|] == items;
    ShareIsSum(items);
    SumsAreExact(items);
    RoundIsRounded(subtotal);
    RoundIsRounded(discountTotal);
    RoundIsRounded(taxTotal);
    RoundIsRounded(subtotal - discountTotal + taxTotal);
    totals := Totals(Round(subtotal), Round(taxTotal), Round(discountTotal), Round(subtotal - discountTotal + taxTotal));
  }

  lemma ShareIsSum(lines: seq<Line>)
    ensures Sum(LineShare, lines) == Sum(LineSubtotal, lines) - Sum(LineDiscount, lines) + Sum(LineTax, lines)
  {
    if lines != [] {
      ShareIsSum(lines[..|lines| - 1]);
    }
  }

  // ---- the rounded amounts agree ----

  /** Amounts in cents are within half a cent of the exact amount. */
  lemma RoundingError(value: real)
    ensures -0.5 < Cents(value) as real - value * 100.0 <= 0.5
  {
  }

  /** The stored total differs from subtotal - discount + tax, as stored, by at most one cent. */
  lemma TotalWithinOneCent(lines: seq<Line>)
    ensures var t := TotalsOf(lines);
            -0.01 <= t.total - (t.subtotal - t.discountTotal + t.taxTotal) <= 0.01
  {
    ShareIsSum(lines);
    var s, d, x, t := Sum(LineSubtotal, lines), Sum(LineDiscount, lines), Sum(LineTax, lines), Sum(LineShare, lines);
    var difference := Cents(t) - (Cents(s) - Cents(d) + Cents(x));
    assert -2 < difference < 2;
    assert difference as real == Cents(t) as real - (Cents(s) as real - Cents(d) as real + Cents(x) as real);
  }

  /** A line's own total and its share of the invoice total are the same amount, before
    * rounding, unless a negative discount rate meets a tax on a non-zero amount.
    */
  lemma LineTotalIsShareIff(line: Line)
    ensures ExactLineTotal(line) == LineShare(line) <==>
            !(line.discountRate < 0.0 && line.taxRate > 0.0 && LineSubtotal(line) != 0.0)
  {
    if line.discountRate < 0.0 && line.taxRate > 0.0 {
      var s := LineSubtotal(line);
      var shift := Percent(s, line.discountRate);
      assert LineShare(line) - ExactLineTotal(line) == -Percent(shift, line.taxRate);
      if s != 0.0 {
        ProductNonZero(s, line.discountRate);
        ProductNonZero(shift, line.taxRate);
      }
    }
  }

  lemma ProductNonZero(x: real, y: real)
    requires x != 0.0 && y != 0.0
    ensures x * y != 0.0
  {
  }

  function LineCents(line: Line): int {
    Cents(ExactLineTotal(line))
  }

  function SumCents(lines: seq<Line>): int {
    if lines == [] then 0 else SumCents(lines[..|lines| - 1]) + LineCents(lines[|lines| - 1])
  }

  predicate Regular(line: Line) {
    !(line.discountRate < 0.0 && line.taxRate > 0.0)
  }

  lemma {:induction false} LinesDrift(lines: seq<Line>)
    requires forall i :: 0 <= i < |lines| ==> Regular(lines[i])
    ensures var n := |lines| as real;
            var drift := SumCents(lines) as real - Sum(LineShare, lines) * 100.0;
            -n <= 2.0 * drift <= n && (n > 0.0 ==> -n < 2.0 * drift)
  {
    if lines != [] {
      var last := lines[|lines| - 1];
      LinesDrift(lines[..|lines| - 1]);
      LineTotalIsShareIff(last);
      RoundingError(ExactLineTotal(last));
      assert |lines[..|lines| - 1]| as real == |lines| as real - 1.0;
    }
  }

  /** The stored total differs from the sum of the stored line totals by at most half a cent a
    * line; for one line not at all.
    */
  lemma TotalNearLineTotals(lines: seq<Line>)
    requires forall i :: 0 <= i < |lines| ==> Regular(lines[i])
    ensures var difference := Cents(Sum(LineShare, lines)) - SumCents(lines);
            -|lines| <= 2 * difference <= |lines|
  {
    LinesDrift(lines);
    RoundingError(Sum(LineShare, lines));
    var difference := Cents(Sum(LineShare, lines)) - SumCents(lines);
    assert -(|lines| as real) - 1.0 < 2.0 * (difference as real) < |lines| as real + 1.0;
  }

  /** With a negative discount rate the one-line invoice and its line disagree. */
  lemma NegativeDiscountDisagrees()
    ensures var line := Line(1.0, 100.0, 10.0, -10.0);
            LineTotal(line) == 110.0 && TotalsOf([line]).total == 111.0
  {
    hide Round, Sum;
    var line := Line(1.0, 100.0, 10.0, -10.0);
    assert LineSubtotal(line) == 100.0 && LineDiscount(line) == 0.0;
    assert AfterDiscount(line) == 110.0 && LineTax(line) == 11.0;
    assert LineShare(line) == 111.0 && ExactLineTotal(line) == 110.0;
    OneLine(LineShare, line);
    RoundWhole(110);
    RoundWhole(111);
  }

  lemma OneLine(f: Line -> real, line: Line)
    ensures Sum(f, [line]) == f(line)
  {
    assert [line][..0] == [];
  }

  lemma RoundWhole(n: int)
    ensures Round(n as real) == n as real
  {
    assert (n as real * 100.0 + 0.5).Floor == n * 100;
  }

  // ---- the order of the lines does not matter ----

  lemma {:induction false} SumWithout(f: Line -> real, lines: seq<Line>, i: nat)
    requires i < |lines|
    ensures Sum(f, lines) == Sum(f, lines[..i] + lines[i + 1..]) + f(lines[i])
  {
    var rest := lines[..i] + lines[i + 1..];
    var n := |lines|;
    if i == n - 1 {
      assert rest == lines[..n - 1];
    } else {
      SumWithout(f, lines[..n - 1], i);
      assert rest[..n - 2] == lines[..n - 1][..i] + lines[..n - 1][i + 1..];
      assert rest[n - 2] == lines[n - 1];
    }
  }

  lemma {:induction false} SumOrderIrrelevant(f: Line -> real, a: seq<Line>, b: seq<Line>)
    requires multiset(a) == multiset(b)
    ensures Sum(f, a) == Sum(f, b)
    decreases |a|
  {
    assert |a| == |multiset(a)| == |multiset(b)| == |b|;
    if a != [] {
      var last := a[|a| - 1];
      assert last in multiset(b);
      var i :| 0 <= i < |b| && b[i] == last;
      assert a == a[..|a| - 1] + [last];
      assert b == b[..i] + [last] + b[i + 1..];
      SumWithout(f, b, i);
      assert multiset(a) == multiset(a[..|a| - 1]) + multiset{last};
      assert multiset(b) == multiset(b[..i]) + multiset{last} + multiset(b[i + 1..]);
      assert multiset(b[..i] + b[i + 1..]) == multiset(b) - multiset{last};
      SumOrderIrrelevant(f, a[..|a| - 1], b[..i] + b[i + 1..]);
    }
  }

  lemma TotalsOrderIrrelevant(a: seq<Line>, b: seq<Line>)
    requires multiset(a) == multiset(b)
    ensures TotalsOf(a) == TotalsOf(b)
  {
    SumOrderIrrelevant(LineSubtotal, a, b);
    SumOrderIrrelevant(LineTax, a, b);
    SumOrderIrrelevant(LineDiscount, a, b);
    SumOrderIrrelevant(LineShare, a, b);
  }
}
