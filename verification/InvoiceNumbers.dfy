/** Invoice numbers: written from a pattern, read back to find the next one. */
module InvoiceNumbers {
  import opened Basics
  import opened Calendar
  import Decimal

  datatype InvoiceType = InvoiceKind | Estimate

  /** A pattern, split at its placeholders; `Sequence(n)` has n number signs. */
  datatype Token = Literal(text: string) | Prefix | LongYear | ShortYear | MonthOf | DayOf | Sequence(width: nat)

  type Pattern = seq<Token>

  function PrefixOf(t: InvoiceType): string {
    if t == InvoiceKind then "INV" else "EST"
  }

  function DefaultPattern(t: InvoiceType): Pattern {
    [Literal(PrefixOf(t) + "-"), LongYear, Literal("-"), Sequence(4)]
  }

  predicate HasParts(d: Date) {
    d.year >= 0 && d.month >= 0 && d.day >= 0
  }

  function LastTwo(s: string): string {
    if |s| <= 2 then s else s[|s| - 2..]
  }

  function Signs(n: nat): string {
    seq(n, _ => '#')
  }

  /** Only the first sequence placeholder is replaced. */
  function Format(p: Pattern, t: InvoiceType, sequence: nat, d: Date): string
    requires HasParts(d)
  {
    if p == [] then ""
    else
      match p[0]
      case Literal(text) => text + Format(p[1..], t, sequence, d)
      case Prefix => PrefixOf(t) + Format(p[1..], t, sequence, d)
      case LongYear => Decimal.Print(d.year) + Format(p[1..], t, sequence, d)
      case ShortYear => LastTwo(Decimal.Print(d.year)) + Format(p[1..], t, sequence, d)
      case MonthOf => Decimal.Padded(d.month, 2) + Format(p[1..], t, sequence, d)
      case DayOf => Decimal.Padded(d.day, 2) + Format(p[1..], t, sequence, d)
      case Sequence(width) => Decimal.Padded(sequence, width) + Rest(p[1..], t, d)
  }

  /** After the first sequence placeholder: another one stays as it is written. */
  function Rest(p: Pattern, t: InvoiceType, d: Date): string
    requires HasParts(d)
  {
    if p == [] then ""
    else
      match p[0]
      case Sequence(width) => "{" + Signs(width) + "}" + Rest(p[1..], t, d)
      case Literal(text) => text + Rest(p[1..], t, d)
      case Prefix => PrefixOf(t) + Rest(p[1..], t, d)
      case LongYear => Decimal.Print(d.year) + Rest(p[1..], t, d)
      case ShortYear => LastTwo(Decimal.Print(d.year)) + Rest(p[1..], t, d)
      case MonthOf => Decimal.Padded(d.month, 2) + Rest(p[1..], t, d)
      case DayOf => Decimal.Padded(d.day, 2) + Rest(p[1..], t, d)
  }

  /** What one token of a pattern writes; `first` where no sequence placeholder comes before it. */
  function Piece(token: Token, first: bool, t: InvoiceType, sequence: nat, d: Date): string
    requires HasParts(d)
  {
    match token
    case Literal(text) => text
    case Prefix => if t == Estimate then "EST" else "INV"
    case LongYear => Decimal.Print(d.year)
    case ShortYear => LastTwo(Decimal.Print(d.year))
    case MonthOf => Decimal.Padded(d.month, 2)
    case DayOf => Decimal.Padded(d.day, 2)
    case Sequence(width) => if first then Decimal.Padded(sequence, width) else "{" + Signs(width) + "}"
  }

  predicate HasSequence(p: Pattern) {
    exists i :: 0 <= i < |p| && p[i].Sequence?
  }

  /** A pattern put together from two writes what both write, one after the other; only the first
    * sequence placeholder of the whole is replaced.
    */
  lemma {:induction false} FormatJoins(p: Pattern, token: Token, t: InvoiceType, sequence: nat, d: Date)
    requires HasParts(d)
    ensures Format(p + [token], t, sequence, d) == Format(p, t, sequence, d) + Piece(token, !HasSequence(p), t, sequence, d)
    decreases |p|
  {
    hide HasParts, Format, Rest, Piece;
    FirstToken(p + [token], t, sequence, d);
    if p == [] {
      assert p + [token] == [token] && [token][1..] == [];
      FirstToken([], t, sequence, d);
    } else {
      FirstToken(p, t, sequence, d);
      assert (p + [token])[1..] == p[1..] + [token];
      if p[0].Sequence? { RestJoins(p[1..], token, t, sequence, d); } else { FormatJoins(p[1..], token, t, sequence, d); }
      assert HasSequence(p) <==> p[0].Sequence? || HasSequence(p[1..]) by { assert forall i :: 1 <= i < |p| ==> p[i] == p[1..][i - 1]; }
    }
  }

  lemma {:induction false} RestJoins(p: Pattern, token: Token, t: InvoiceType, sequence: nat, d: Date)
    requires HasParts(d)
    ensures Rest(p + [token], t, d) == Rest(p, t, d) + Piece(token, false, t, sequence, d)
    decreases |p|
  {
    hide HasParts, Rest, Piece;
    FirstToken(p + [token], t, sequence, d);
    if p == [] {
      assert p + [token] == [token] && [token][1..] == [];
      FirstToken([], t, sequence, d);
    } else {
      FirstToken(p, t, sequence, d);
      assert (p + [token])[1..] == p[1..] + [token];
      RestJoins(p[1..], token, t, sequence, d);
    }
  }

  lemma FirstToken(p: Pattern, t: InvoiceType, sequence: nat, d: Date)
    requires HasParts(d)
    ensures p == [] ==> Format(p, t, sequence, d) == "" && Rest(p, t, d) == ""
    ensures p != [] ==>
              Format(p, t, sequence, d) ==
                Piece(p[0], true, t, sequence, d) + if p[0].Sequence? then Rest(p[1..], t, d) else Format(p[1..], t, sequence, d)
    ensures p != [] ==> Rest(p, t, d) == Piece(p[0], false, t, sequence, d) + Rest(p[1..], t, d)
  {
    hide HasParts, Decimal.Print, Decimal.Padded, Signs, LastTwo;
  }

  // ---- reading a number back ----

  /** The digits a text ends with. */
  function TrailingDigits(s: string): (digits: string)
    ensures |digits| <= |s| && digits == s[|s| - |digits|..] && Decimal.AllDigits(digits)
    ensures |digits| < |s| ==> !Decimal.IsDigit(s[|s| - |digits| - 1])
  {
    if s == [] || !Decimal.IsDigit(s[|s| - 1]) then [] else TrailingDigits(s[..|s| - 1]) + [s[|s| - 1]]
  }

  /** The last numeric part; a text that ends in no digit has none. */
  function ExtractSequence(number: string): Option<nat> {
    var digits := TrailingDigits(number);
    if digits == [] then None else Some(Decimal.Parse(digits))
  }

  lemma TrailingStep(s: string)
    requires s != [] && Decimal.IsDigit(s[|s| - 1])
    ensures TrailingDigits(s) == TrailingDigits(s[..|s| - 1]) + [s[|s| - 1]]
  {
  }

  lemma {:induction false} TrailingAfter(a: string, b: string)
    requires Decimal.AllDigits(b)
    ensures TrailingDigits(a + b) == TrailingDigits(a) + b
    decreases |b|
  {
    hide TrailingDigits;
    if b == [] {
      assert a + b == a && TrailingDigits(a) + b == TrailingDigits(a);
    } else {
      var n := |b| - 1;
      assert (a + b)[..|a + b| - 1] == a + b[..n];
      TrailingStep(a + b);
      TrailingAfter(a, b[..n]);
      assert TrailingDigits(a) + b[..n] + [b[n]] == TrailingDigits(a) + b;
    }
  }

  lemma {:induction false} ParseAppend(a: string, b: string)
    requires Decimal.AllDigits(a) && Decimal.AllDigits(b)
    ensures Decimal.AllDigits(a + b)
    ensures Decimal.Parse(a + b) == Decimal.Parse(a) * Decimal.Pow10(|b|) + Decimal.Parse(b)
    decreases |b|
  {
    if b == [] {
      assert a + b == a;
    } else {
      var n := |b| - 1;
      assert (a + b)[..|a + b| - 1] == a + b[..n];
      ParseAppend(a, b[..n]);
      TimesTen(Decimal.Parse(a), Decimal.Pow10(n), Decimal.Parse(b[..n]), Decimal.DigitValue(b[n]));
    }
  }

  lemma TimesTen(a: nat, power: nat, x: nat, d: nat)
    ensures (a * power + x) * 10 + d == a * (10 * power) + (x * 10 + d)
  {
  }

  /** What is read from a number that ends with its sequence. */
  lemma ReadBack(before: string, digits: string)
    requires Decimal.AllDigits(digits) && digits != []
    ensures ExtractSequence(before + digits)
            == Some(Decimal.Parse(TrailingDigits(before)) * Decimal.Pow10(|digits|) + Decimal.Parse(digits))
  {
    hide Decimal.Parse, TrailingDigits;
    TrailingAfter(before, digits);
    ParseAppend(TrailingDigits(before), digits);
  }

  /** A number that ends with its sequence is read back exactly when the digits just before it, if
    * any, are zeros.
    */
  lemma ReadBackIff(before: string, sequence: nat, width: nat)
    ensures ExtractSequence(before + Decimal.Padded(sequence, width)) == Some(sequence)
            <==> Decimal.Parse(TrailingDigits(before)) == 0
  {
    hide Decimal.Padded, Decimal.Parse, TrailingDigits, ExtractSequence;
    var digits := Decimal.Padded(sequence, width);
    ReadBack(before, digits);
    Decimal.ParsePadded(sequence, width);
    TenOrMore(digits);
    Grows(Decimal.Parse(TrailingDigits(before)), Decimal.Pow10(|digits|), sequence);
  }

  lemma TenOrMore(digits: string)
    requires digits != []
    ensures Decimal.Pow10(|digits|) >= 10
  {
    Positive(|digits| - 1);
  }

  lemma {:induction false} Positive(n: nat)
    ensures Decimal.Pow10(n) > 0
  {
    if n > 0 { Positive(n - 1); }
  }

  lemma Grows(a: nat, power: nat, x: nat)
    requires power > 0
    ensures a * power + x == x <==> a == 0
    ensures power >= 10 && a > 0 ==> a * power + x > a
  {
    if a > 0 { assert a * power >= a * 1; }
  }

  function DefaultStart(t: InvoiceType, year: nat): string {
    PrefixOf(t) + "-" + Decimal.Print(year) + "-"
  }

  /** What the default pattern writes. */
  lemma DefaultNumber(t: InvoiceType, sequence: nat, d: Date)
    requires HasParts(d)
    ensures Format(DefaultPattern(t), t, sequence, d) == DefaultStart(t, d.year) + Decimal.Padded(sequence, 4)
  {
    hide Decimal.Print, Decimal.Padded, PrefixOf;
    var p := DefaultPattern(t);
    var (p1, p2, p3) := (p[1..], p[2..], p[3..]);
    assert p1[1..] == p2 && p2[1..] == p3 && p3[1..] == [];
    var (year, digits) := (Decimal.Print(d.year), Decimal.Padded(sequence, 4));
    assert Format(p3, t, sequence, d) == digits + "" == digits;
    assert Format(p2, t, sequence, d) == "-" + digits;
    assert Format(p1, t, sequence, d) == year + ("-" + digits);
    assert Format(p, t, sequence, d) == PrefixOf(t) + "-" + (year + ("-" + digits));
    assert PrefixOf(t) + "-" + (year + ("-" + digits)) == PrefixOf(t) + "-" + year + "-" + digits;
  }

  /** Under the default patterns every sequence number is read back from its invoice number. */
  lemma ExtractInvertsFormat(t: InvoiceType, sequence: nat, d: Date)
    requires HasParts(d)
    ensures ExtractSequence(Format(DefaultPattern(t), t, sequence, d)) == Some(sequence)
  {
    hide Decimal.Print, Decimal.Padded, PrefixOf, Format, ExtractSequence;
    DefaultNumber(t, sequence, d);
    var start := DefaultStart(t, d.year);
    assert start[|start| - 1] == '-';
    assert TrailingDigits(start) == [];
    ReadBackIff(start, sequence, 4);
  }

  /** A pattern with the year right after the sequence never reads it back. */
  lemma YearAfterIsMisread(t: InvoiceType, sequence: nat, width: nat, d: Date)
    requires HasParts(d) && sequence >= 1
    ensures ExtractSequence(Format([Sequence(width), LongYear], t, sequence, d)) != Some(sequence)
  {
    hide Decimal.Padded, Decimal.Parse, TrailingDigits, Decimal.Print, ExtractSequence;
    var p := [Sequence(width), LongYear];
    assert p[1..] == [LongYear] && p[1..][1..] == [];
    var (digits, year) := (Decimal.Padded(sequence, width), Decimal.Print(d.year));
    assert Rest(p[1..], t, d) == year + "" == year;
    assert Format(p, t, sequence, d) == digits + year;
    ReadBack(digits, year);
    TrailingAfter([], digits);
    assert [] + digits == digits && TrailingDigits([]) + digits == digits by { NoDigits(); }
    Decimal.ParsePadded(sequence, width);
    TenOrMore(year);
    Grows(sequence, Decimal.Pow10(|year|), Decimal.Parse(year));
  }

  lemma NoDigits()
    ensures TrailingDigits([]) == []
  {
  }

  // ---- the next number ----

  datatype Stored = Stored(t: InvoiceType, number: string, issueDate: Date)

  function LastOf(invoices: seq<Stored>, t: InvoiceType): (last: Option<Stored>)
  {
    if invoices == [] then None
    else if invoices[|invoices| - 1].t == t then Some(invoices[|invoices| - 1])
    else LastOf(invoices[..|invoices| - 1], t)
  }

  /** One more than the last invoice's, in the same year; else 1. */
  function NextSequence(last: Option<Stored>, d: Date): nat {
    if last == None || ExtractSequence(last.value.number) == None || last.value.issueDate.year != d.year then 1
    else ExtractSequence(last.value.number).value + 1
  }

  /** Only invoices of the same type are looked at, the latest of them. */
  lemma {:induction false} LatestIs(invoices: seq<Stored>, t: InvoiceType)
    ensures match LastOf(invoices, t)
            case None => forall i :: 0 <= i < |invoices| ==> invoices[i].t != t
            case Some(x) =>
              exists i :: 0 <= i < |invoices| && invoices[i] == x && x.t == t && forall j :: i < j < |invoices| ==> invoices[j].t != t
    decreases |invoices|
  {
    if invoices != [] {
      var n := |invoices| - 1;
      LatestIs(invoices[..n], t);
      if invoices[n].t != t && LastOf(invoices[..n], t).Some? {
        var x := LastOf(invoices[..n], t).value;
        var i :| 0 <= i < n && invoices[i] == x && x.t == t && forall j :: i < j < n ==> invoices[..n][j].t != t;
        assert forall j :: i < j < n ==> invoices[j] == invoices[..n][j];
      }
    }
  }

  /** Numbering goes on after an invoice of the same year whose number the default pattern wrote, and
    * starts again in another year or where no number is found.
    */
  lemma NextAfter(t: InvoiceType, sequence: nat, last: Stored, d: Date)
    requires HasParts(d) && HasParts(last.issueDate)
    ensures NextSequence(None, d) == 1
    ensures last.issueDate.year != d.year || TrailingDigits(last.number) == [] ==> NextSequence(Some(last), d) == 1
    ensures last.issueDate.year == d.year && last.number == Format(DefaultPattern(t), t, sequence, last.issueDate) ==>
              NextSequence(Some(last), d) == sequence + 1
  {
    hide Format, TrailingDigits;
    ExtractInvertsFormat(t, sequence, last.issueDate);
  }

  /** The invoices of one user, in the order of their creation. */
  class InvoicesService {
    const pattern: Option<Pattern>
    var invoices: seq<Stored>

    constructor (pattern: Option<Pattern>)
      ensures this.pattern == pattern && invoices == []
    {
      this.pattern, invoices := pattern, [];
    }

    function PatternFor(t: InvoiceType): Pattern {
      if pattern == None || pattern.value == [] then DefaultPattern(t) else pattern.value
    }

    method GenerateInvoiceNumber(t: InvoiceType, d: Date) returns (number: string)
      requires HasParts(d)
      ensures number == Format(PatternFor(t), t, NextSequence(LastOf(invoices, t), d), d)
      ensures pattern.Some? && pattern.value != [] ==> number == Format(pattern.value, t, NextSequence(LastOf(invoices, t), d), d)
      ensures pattern in {None, Some([])} ==>
                number == (if t == InvoiceKind then "INV-" else "EST-") + Decimal.Print(d.year) + "-"
                          + Decimal.Padded(NextSequence(LastOf(invoices, t), d), 4)
    {
      hide Decimal.Print, Decimal.Padded, Format;
      var lastInvoice := LastOf(invoices, t);
      var sequence := 1;
      if lastInvoice.Some? && lastInvoice.value.number != [] {
        var extracted := ExtractSequence(lastInvoice.value.number);
        if extracted != None {
          if lastInvoice.value.issueDate.year == d.year { sequence := extracted.value + 1; }
        }
      }
      number := Format(PatternFor(t), t, sequence, d);
      DefaultNumber(t, sequence, d);
    }

    method Create(t: InvoiceType, d: Date) returns (number: string)
      requires HasParts(d)
      modifies this
      ensures number == Format(PatternFor(t), t, NextSequence(LastOf(old(invoices), t), d), d)
      ensures invoices == old(invoices) + [Stored(t, number, d)]
    {
      number := GenerateInvoiceNumber(t, d);
      invoices := invoices + [Stored(t, number, d)];
    }
  }

  // ---- a run of creations of one type, under the default pattern ----

  function Issued(t: InvoiceType, dates: seq<Date>): (invoices: seq<Stored>)
    requires forall i :: 0 <= i < |dates| ==> HasParts(dates[i])
    ensures |invoices| == |dates|
  {
    if dates == [] then []
    else
      var n := |dates| - 1;
      var before := Issued(t, dates[..n]);
      before + [NextStored(before, t, dates[n])]
  }

  function NextStored(before: seq<Stored>, t: InvoiceType, d: Date): Stored
    requires HasParts(d)
  {
    Stored(t, Format(DefaultPattern(t), t, NextSequence(LastOf(before, t), d), d), d)
  }

  lemma IssuedLast(t: InvoiceType, dates: seq<Date>)
    requires dates != [] && forall i :: 0 <= i < |dates| ==> HasParts(dates[i])
    ensures var n := |dates| - 1; var before := Issued(t, dates[..n]);
            && Issued(t, dates) == before + [NextStored(before, t, dates[n])]
            && (n > 0 ==> LastOf(before, t) == Some(before[n - 1]) && before[n - 1].issueDate == dates[n - 1])
  {
    hide HasParts, Format, NextSequence, ExtractSequence;
    var n := |dates| - 1;
    if n > 0 { assert dates[..n][..n - 1] == dates[..n - 1] && dates[..n][n - 1] == dates[n - 1]; }
  }

  /** Counted within each stretch of one year. */
  function Counted(dates: seq<Date>, i: nat): nat
    requires i < |dates|
  {
    if i == 0 || dates[i - 1].year != dates[i].year then 1 else Counted(dates, i - 1) + 1
  }

  lemma CountedPrefix(dates: seq<Date>, n: nat, i: nat)
    requires i < n <= |dates|
    ensures Counted(dates[..n], i) == Counted(dates, i)
  {
    if i > 0 { CountedPrefix(dates, n, i - 1); }
  }

  lemma {:induction false} IssuedNumbers(t: InvoiceType, dates: seq<Date>, i: nat)
    requires i < |dates| && forall i :: 0 <= i < |dates| ==> HasParts(dates[i])
    ensures Issued(t, dates)[i].number == Format(DefaultPattern(t), t, Counted(dates, i), dates[i])
    decreases |dates|
  {
    hide Format, ExtractSequence, HasParts, Issued, LastOf;
    var n := |dates| - 1;
    IssuedLast(t, dates);
    if i < n {
      IssuedNumbers(t, dates[..n], i);
      CountedPrefix(dates, n, i);
    } else if n > 0 {
      IssuedNumbers(t, dates[..n], n - 1);
      CountedPrefix(dates, n, n - 1);
      ExtractInvertsFormat(t, Counted(dates, n - 1), dates[n - 1]);
    } else {
      assert Issued(t, dates[..0]) == [] && LastOf([], t) == None by { NoneBefore(t); }
    }
  }

  lemma NoneBefore(t: InvoiceType)
    ensures Issued(t, []) == [] && LastOf([], t) == None
  {
  }

  lemma SameNumber(t: InvoiceType, m: nat, n: nat, d: Date, e: Date)
    requires HasParts(d) && HasParts(e)
    ensures Format(DefaultPattern(t), t, m, d) == Format(DefaultPattern(t), t, n, e) <==> m == n && d.year == e.year
  {
    hide Decimal.Print, Decimal.Padded, PrefixOf, Format, ExtractSequence;
    DefaultNumber(t, m, d);
    DefaultNumber(t, n, e);
    ExtractInvertsFormat(t, m, d);
    ExtractInvertsFormat(t, n, e);
    if m == n && Format(DefaultPattern(t), t, m, d) == Format(DefaultPattern(t), t, n, e) {
      var (x, y, z) := (DefaultStart(t, d.year), DefaultStart(t, e.year), Decimal.Padded(m, 4));
      assert |x| == |y| by { assert |x + z| == |y + z|; }
      assert x == (x + z)[..|x|] == (y + z)[..|y|] == y;
      SameYearText(t, d.year, e.year);
    }
  }

  lemma SameYearText(t: InvoiceType, m: nat, n: nat)
    requires DefaultStart(t, m) == DefaultStart(t, n)
    ensures m == n
  {
    hide Decimal.Print;
    Decimal.ParsePrint(m);
    Decimal.ParsePrint(n);
    var (x, y) := (DefaultStart(t, m), DefaultStart(t, n));
    assert Decimal.Print(m) == x[4..|x| - 1] && Decimal.Print(n) == y[4..|y| - 1];
  }

  /** No year comes again after another year. */
  predicate YearsGrouped(dates: seq<Date>) {
    forall i, j, k :: 0 <= i < j < k < |dates| && dates[i].year == dates[k].year ==> dates[j].year == dates[i].year
  }

  predicate AllDistinct(invoices: seq<Stored>) {
    forall i, j :: 0 <= i < j < |invoices| ==> invoices[i].number != invoices[j].number
  }

  /** Within a stretch of one year the count goes up by one each time. */
  lemma {:induction false} CountGrows(dates: seq<Date>, i: nat, j: nat)
    requires i <= j < |dates| && forall k :: i <= k <= j ==> dates[k].year == dates[i].year
    ensures Counted(dates, j) == Counted(dates, i) + (j - i)
    decreases j
  {
    if i < j { CountGrows(dates, i, j - 1); }
  }

  /** The start of the stretch a position is in. */
  lemma {:induction false} StretchStart(dates: seq<Date>, i: nat) returns (start: nat)
    requires i < |dates|
    ensures start <= i && dates[start].year == dates[i].year && Counted(dates, start) == 1
    ensures forall k :: start <= k <= i ==> dates[k].year == dates[i].year
    decreases i
  {
    start := i;
    if i > 0 && dates[i - 1].year == dates[i].year { start := StretchStart(dates, i - 1); }
  }

  /** The numbers of a run are all distinct exactly when no year comes again after another one. */
  lemma DistinctIffGrouped(t: InvoiceType, dates: seq<Date>)
    requires forall i :: 0 <= i < |dates| ==> HasParts(dates[i])
    ensures AllDistinct(Issued(t, dates)) <==> YearsGrouped(dates)
  {
    hide Format, HasParts, Issued;
    var invoices := Issued(t, dates);
    if YearsGrouped(dates) {
      forall i, j | 0 <= i < j < |invoices| ensures invoices[i].number != invoices[j].number {
        IssuedNumbers(t, dates, i);
        IssuedNumbers(t, dates, j);
        SameNumber(t, Counted(dates, i), Counted(dates, j), dates[i], dates[j]);
        if dates[i].year == dates[j].year { CountGrows(dates, i, j); }
      }
    } else {
      var i, j, k :| 0 <= i < j < k < |dates| && dates[i].year == dates[k].year && dates[j].year != dates[i].year;
      var a := StretchStart(dates, i);
      var b := StretchStart(dates, k);
      assert j < b;
      IssuedNumbers(t, dates, a);
      IssuedNumbers(t, dates, b);
      SameNumber(t, 1, 1, dates[a], dates[b]);
      assert invoices[a].number == invoices[b].number;
    }
  }

  /** In particular when the issue years never decrease. */
  lemma DistinctWhenYearsNeverDecrease(t: InvoiceType, dates: seq<Date>)
    requires forall i :: 0 <= i < |dates| ==> HasParts(dates[i])
    requires forall i, j :: 0 <= i < j < |dates| ==> dates[i].year <= dates[j].year
    ensures AllDistinct(Issued(t, dates))
  {
    hide Issued, HasParts;
    DistinctIffGrouped(t, dates);
  }
}
