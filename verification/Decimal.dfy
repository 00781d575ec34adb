/** Decimal text of natural numbers: printing, zero padding and parsing. */
module Decimal {

  predicate IsDigit(c: char) {
    '0' <= c <= '9'
  }

  predicate AllDigits(s: string) {
    forall i :: 0 <= i < |s| ==> IsDigit(s[i])
  }

  function DigitChar(d: nat): (c: char)
    requires d < 10
    ensures IsDigit(c)
  {
    '0' + d as char
  }

  function DigitValue(c: char): (d: nat)
    requires IsDigit(c)
    ensures d < 10 && DigitChar(d) == c
  {
    (c - '0') as nat
  }

  /** String(n) of JavaScript and %d of Go, for a natural number. */
  function Print(n: nat): (s: string)
    ensures s != [] && AllDigits(s)
  {
    if n < 10 then [DigitChar(n)] else Print(n / 10) + [DigitChar(n % 10)]
  }

  /** Reads decimal digits; the empty text reads as zero. */
  function Parse(s: string): nat
    requires AllDigits(s)
  {
    if s == [] then 0 else 10 * Parse(s[..|s| - 1]) + DigitValue(s[|s| - 1])
  }

  function Zeros(n: nat): (s: string)
    ensures |s| == n && AllDigits(s)
  {
    seq(n, _ => '0')
  }

  /** padStart(width, '0'). */
  function Pad(s: string, width: nat): (p: string)
    ensures AllDigits(s) ==> AllDigits(p)
    ensures |p| == if |s| < width then width else |s|
  {
    if |s| < width then Zeros(width - |s|) + s else s
  }

  lemma {:induction false} ParsePrint(n: nat)
    ensures Parse(Print(n)) == n
  {
    if 10 <= n {
      ParsePrint(n / 10);
      assert Print(n)[..|Print(n)| - 1] == Print(n / 10);
    }
  }

  lemma {:induction false} LeadingZeros(zeros: nat, s: string)
    requires AllDigits(s)
    ensures Parse(Zeros(zeros) + s) == Parse(s)
  {
    var whole := Zeros(zeros) + s;
    if s != [] {
      LeadingZeros(zeros, s[..|s| - 1]);
      assert whole[..|whole| - 1] == Zeros(zeros) + s[..|s| - 1];
    } else if zeros != 0 {
      assert whole[..|whole| - 1] == Zeros(zeros - 1) + s;
      LeadingZeros(zeros - 1, s);
    }
  }

  /** Padding is undone by parsing, so padded numbers are equal only when the numbers are. */
  lemma ParsePad(n: nat, width: nat)
    ensures Parse(Pad(Print(n), width)) == n
  {
    ParsePrint(n);
    if |Print(n)| < width {
      LeadingZeros(width - |Print(n)|, Print(n));
    }
  }

  function Power10(k: nat): (p: nat)
    ensures 0 < p
  {
    if k == 0 then 1 else 10 * Power10(k - 1)
  }

  lemma {:induction false} PrintWidth(n: nat, k: nat)
    requires 0 < k && n < Power10(k)
    ensures |Print(n)| <= k
  {
    if 10 <= n && 1 < k {
      PrintWidth(n / 10, k - 1);
    }
  }
}
