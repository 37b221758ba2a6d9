/** Whole numbers written in decimal digits, and read back. */
module Decimal {

  function DigitChar(d: nat): (c: char)
    requires d < 10
    ensures IsDigit(c) && DigitValue(c) == d
  {
    (('0' as int) + d) as char
  }

  predicate IsDigit(c: char) {
    '0' <= c <= '9'
  }

  function DigitValue(c: char): (d: nat)
    requires IsDigit(c)
    ensures d < 10
  {
    (c as int) - ('0' as int)
  }

  predicate AllDigits(s: string) {
    forall i :: 0 <= i < |s| ==> IsDigit(s[i])
  }

  /** String(n), n.toString(). */
  function Print(n: nat): (s: string)
    ensures AllDigits(s) && |s| > 0
  {
    if n < 10 then [DigitChar(n)] else Print(n / 10) + [DigitChar(n % 10)]
  }

  /** parseInt of digits, leading zeros or not. */
  function Parse(s: string): nat
    requires AllDigits(s)
  {
    if s == [] then 0 else Parse(s[..|s| - 1]) * 10 + DigitValue(s[|s| - 1])
  }

  lemma {:induction false} ParsePrint(n: nat)
    ensures Parse(Print(n)) == n
  {
    if n < 10 {
      assert Print(n)[..0] == [];
    } else {
      ParsePrint(n / 10);
      assert Print(n)[..|Print(n)| - 1] == Print(n / 10);
    }
  }

  function Zeros(n: nat): (s: string)
    ensures |s| == n && AllDigits(s)
  {
    seq(n, _ => '0')
  }

  lemma {:induction false} LeadingZeros(zeros: nat, s: string)
    requires AllDigits(s)
    ensures AllDigits(Zeros(zeros) + s) && Parse(Zeros(zeros) + s) == Parse(s)
    decreases zeros + |s|
  {
    var all := Zeros(zeros) + s;
    if s != [] {
      LeadingZeros(zeros, s[..|s| - 1]);
      assert all[..|all| - 1] == Zeros(zeros) + s[..|s| - 1];
    } else if zeros > 0 {
      LeadingZeros(zeros - 1, s);
      assert all[..|all| - 1] == Zeros(zeros - 1) + s;
    }
  }

  /** A power of ten: how many numbers that many digits can write. */
  function Pow10(n: nat): nat {
    if n == 0 then 1 else 10 * Pow10(n - 1)
  }

  lemma {:induction false} ParseBound(s: string)
    requires AllDigits(s)
    ensures Parse(s) < Pow10(|s|)
  {
    if s != [] { ParseBound(s[..|s| - 1]); }
  }

  /** A number below a power of ten takes no more digits. */
  lemma {:induction false} PrintLength(n: nat, digits: nat)
    requires n < Pow10(digits) && digits > 0
    ensures |Print(n)| <= digits
    decreases n
  {
    if n >= 10 {
      PrintLength(n / 10, digits - 1);
    }
  }

  /** String(n).padStart(width, '0'). */
  function Padded(n: nat, width: nat): (s: string)
    ensures AllDigits(s) && |s| >= width && |s| > 0
  {
    var digits := Print(n);
    if |digits| < width then Zeros(width - |digits|) + digits else digits
  }

  lemma ParsePadded(n: nat, width: nat)
    ensures Parse(Padded(n, width)) == n
    ensures n < Pow10(width) && width > 0 ==> |Padded(n, width)| == width
  {
    ParsePrint(n);
    var digits := Print(n);
    if |digits| < width { LeadingZeros(width - |digits|, digits); }
    if n < Pow10(width) && width > 0 { PrintLength(n, width); }
  }

  /** No digit is written that is not needed: a longer text than asked for does not start with 0. */
  lemma {:induction false} NoNeedlessZero(n: nat, width: nat)
    ensures |Print(n)| > 1 ==> Print(n)[0] != '0'
    ensures |Padded(n, width)| > width && |Padded(n, width)| > 1 ==> Padded(n, width)[0] != '0'
    decreases n
  {
    if n >= 10 {
      NoNeedlessZero(n / 10, 0);
      assert n / 10 < 10 ==> Print(n / 10)[0] == DigitChar(n / 10);
    }
  }

  // ---- comparing strings ----

  /** `<` on strings. */
  predicate Less(s: string, t: string) {
    t != [] && (s == [] || s[0] < t[0] || (s[0] == t[0] && Less(s[1..], t[1..])))
  }

  lemma {:induction false} LessIrreflexive(s: string)
    ensures !Less(s, s)
  {
    if s != [] { LessIrreflexive(s[1..]); }
  }

  /** Strings that start with equally long different parts compare by those. */
  lemma {:induction false} LessByPrefix(a: string, x: string, b: string, y: string)
    requires |a| == |b|
    ensures Less(a + x, b + y) <==> if a == b then Less(x, y) else Less(a, b)
    decreases |a|
  {
    if a == [] {
      assert a + x == x && b + y == y;
    } else {
      assert (a + x)[1..] == a[1..] + x && (b + y)[1..] == b[1..] + y;
      assert a == [a[0]] + a[1..] && b == [b[0]] + b[1..];
      LessByPrefix(a[1..], x, b[1..], y);
    }
  }

  lemma {:induction false} ParseFront(c: char, s: string)
    requires IsDigit(c) && AllDigits(s)
    ensures Parse([c] + s) == DigitValue(c) * Pow10(|s|) + Parse(s)
    decreases |s|
  {
    if s == [] {
      assert ([c] + s)[..0] == [];
    } else {
      var all, n := [c] + s, |s| - 1;
      assert all[..|all| - 1] == [c] + s[..n];
      ParseFront(c, s[..n]);
    }
  }

  /** Equally long numbers compare as strings as they compare as numbers. */
  lemma {:induction false} LessIsSmaller(s: string, t: string)
    requires AllDigits(s) && AllDigits(t) && |s| == |t|
    ensures Less(s, t) <==> Parse(s) < Parse(t)
    ensures s == t <==> Parse(s) == Parse(t)
    decreases |s|
  {
    if s != [] {
      assert s == [s[0]] + s[1..] && t == [t[0]] + t[1..];
      ParseFront(s[0], s[1..]);
      ParseFront(t[0], t[1..]);
      ParseBound(s[1..]);
      ParseBound(t[1..]);
      LessIsSmaller(s[1..], t[1..]);
      Leading(DigitValue(s[0]), DigitValue(t[0]), Parse(s[1..]), Parse(t[1..]), Pow10(|s| - 1));
    }
  }

  lemma Leading(a: nat, b: nat, x: nat, y: nat, power: nat)
    requires x < power && y < power
    ensures a < b ==> a * power + x < b * power + y
    ensures b < a ==> b * power + y < a * power + x
  {
    if a < b { assert (a + 1) * power <= b * power; } else if b < a { assert (b + 1) * power <= a * power; }
  }
}
