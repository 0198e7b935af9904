/** The string operations the report rows apply: decimal numbers, first-letter capitalisation,
    chart-label truncation and the date part of an ISO timestamp. */
module Text {

  predicate IsDigit(c: char) { '0' <= c <= '9' }

  function Digit(n: nat): (c: char)
    requires n < 10
    ensures IsDigit(c)
  {
    "0123456789"[n]
  }

  function DigitValue(c: char): nat
    requires IsDigit(c)
  {
    (c as int - '0' as int) as nat
  }

  /** `${n}` for a non-negative integer: its decimal digits, no leading zero. */
  function DecimalString(n: nat): (s: string)
    ensures |s| >= 1
    ensures forall i | 0 <= i < |s| :: IsDigit(s[i])
    ensures |s| > 1 ==> s[0] != '0'
  {
    if n < 10 then [Digit(n)] else DecimalString(n / 10) + [Digit(n % 10)]
  }

  /** Reads a string of decimal digits back as a number. */
  function ParseDecimal(s: string): nat
    requires forall i | 0 <= i < |s| :: IsDigit(s[i])
  {
    if |s| == 0 then 0 else 10 * ParseDecimal(s[..|s| - 1]) + DigitValue(s[|s| - 1])
  }

  /** Writing a number and reading it back gives the number: distinct ranks get distinct labels. */
  lemma {:induction false} DecimalRoundTrip(n: nat)
    ensures ParseDecimal(DecimalString(n)) == n
  {
    var s := DecimalString(n);
    if n < 10 {
      assert s[..0] == [];
    } else {
      DecimalRoundTrip(n / 10);
      assert s[..|s| - 1] == DecimalString(n / 10);
    }
  }

  /** toUpperCase on one character; only the ASCII letters a-z are changed. */
  function UpperChar(c: char): (u: char)
    ensures 'a' <= c <= 'z' ==> 'A' <= u <= 'Z' && u as int == c as int - 32
    ensures !('a' <= c <= 'z') ==> u == c
  {
    if 'a' <= c <= 'z' then (c as int - 32) as char else c
  }

  /** s.charAt(0).toUpperCase() + s.slice(1). */
  function Capitalize(s: string): (r: string)
    ensures |r| == |s|
    ensures |s| > 0 ==> r[0] == UpperChar(s[0]) && r[1..] == s[1..]
  {
    if |s| == 0 then "" else [UpperChar(s[0])] + s[1..]
  }

  /** Capitalising twice changes nothing more. */
  lemma CapitalizeIdempotent(s: string)
    ensures Capitalize(Capitalize(s)) == Capitalize(s)
  {
    if |s| > 0 {
      var r := Capitalize(s);
      assert UpperChar(r[0]) == r[0];
      assert Capitalize(r) == [r[0]] + r[1..];
    }
  }

  /** The chart label: a label longer than `width` is cut to `width` characters and "..." appended. */
  function Truncate(s: string, width: nat): (r: string)
    ensures |s| <= width ==> r == s
    ensures |s| > width ==> |r| == width + 3 && r[..width] == s[..width] && r[width..] == "..."
  {
    if |s| > width then s[..width] + "..." else s
  }

  /** iso.split('T')[0]: everything before the first 'T' (the whole string when there is none). */
  function DatePart(iso: string): (d: string)
    ensures |d| <= |iso| && d == iso[..|d|]
    ensures forall i | 0 <= i < |d| :: d[i] != 'T'
    ensures |d| < |iso| ==> iso[|d|] == 'T'
  {
    if |iso| == 0 || iso[0] == 'T' then "" else [iso[0]] + DatePart(iso[1..])
  }

  /** For a timestamp shaped like "YYYY-MM-DDTHH:MM:SS.sssZ" the date part is its first ten characters. */
  lemma DatePartOfTimestamp(iso: string)
    requires |iso| > 10 && iso[10] == 'T'
    requires forall i | 0 <= i < 10 :: iso[i] != 'T'
    ensures DatePart(iso) == iso[..10]
  {
  }
}
