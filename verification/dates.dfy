/** Project deadlines: a calendar date in the `full-date` form of section 5.6
    of RFC 3339 (`YYYY-MM-DD`), with the day-of-month limits of section 5.7.
    The source parses the text with `strptime("%Y-%m-%d")` into a Python
    `datetime`, whose years run from 1 to 9999, and writes it back with
    `strftime("%Y-%m-%d")`.
 */
module Dates {
  import opened Outcomes

  datatype Date = Date(year: int, month: int, day: int)

  /** The Gregorian leap-year rule of section 5.7 of RFC 3339. */
  predicate IsLeap(year: int) {
    year % 4 == 0 && (year % 100 != 0 || year % 400 == 0)
  }

  function DaysInMonth(year: int, month: int): (n: int)
    requires 1 <= month <= 12
    ensures 28 <= n <= 31
    ensures month == 2 ==> (n == 29 <==> IsLeap(year))
  {
    if month == 2 then (if IsLeap(year) then 29 else 28)
    else if month == 4 || month == 6 || month == 9 || month == 11 then 30
    else 31
  }

  /** A date Python's `datetime` can hold. */
  predicate Valid(d: Date) {
    && 1 <= d.year <= 9999
    && 1 <= d.month <= 12
    && 1 <= d.day <= DaysInMonth(d.year, d.month)
  }

  predicate IsDigit(c: char) {
    '0' <= c <= '9'
  }

  function DigitValue(c: char): (n: int)
    requires IsDigit(c)
    ensures 0 <= n <= 9
  {
    c as int - '0' as int
  }

  function DigitChar(n: int): (c: char)
    requires 0 <= n <= 9
    ensures IsDigit(c) && DigitValue(c) == n
  {
    (n + '0' as int) as char
  }

  /** The value of the decimal numeral `s[lo..hi]`. */
  function Numeral(s: string, lo: int, hi: int): (n: int)
    requires 0 <= lo <= hi <= |s|
    requires forall i :: lo <= i < hi ==> IsDigit(s[i])
    ensures n >= 0
    decreases hi - lo
  {
    if lo == hi then 0 else Numeral(s, lo, hi - 1) * 10 + DigitValue(s[hi - 1])
  }

  /** `n` written with exactly `width` decimal digits, zero-padded. */
  function Padded(n: int, width: nat): (s: string)
    requires n >= 0
    ensures |s| == width
    ensures forall i :: 0 <= i < |s| ==> IsDigit(s[i])
  {
    if width == 0 then "" else Padded(n / 10, width - 1) + [DigitChar(n % 10)]
  }

  function Pow10(k: nat): (p: nat)
    ensures p >= 1
  {
    if k == 0 then 1 else 10 * Pow10(k - 1)
  }

  /** Reading back a padded numeral gives the number, when it fits. */
  lemma {:induction false} NumeralPadded(n: int, width: nat)
    requires 0 <= n < Pow10(width)
    ensures Numeral(Padded(n, width), 0, width) == n
  {
    if width > 0 {
      var s := Padded(n, width);
      var head := Padded(n / 10, width - 1);
      assert s == head + [DigitChar(n % 10)];
      NumeralPadded(n / 10, width - 1);
      assert s[..width - 1] == head[..width - 1];
      NumeralPrefix(s, head, width - 1);
    }
  }

  lemma {:induction false} NumeralPrefix(s: string, t: string, k: nat)
    requires k <= |s| && k <= |t| && s[..k] == t[..k]
    requires forall i :: 0 <= i < k ==> IsDigit(s[i])
    ensures forall i :: 0 <= i < k ==> IsDigit(t[i])
    ensures Numeral(s, 0, k) == Numeral(t, 0, k)
    decreases k
  {
    assert forall i :: 0 <= i < k ==> s[i] == s[..k][i] == t[..k][i] == t[i];
    if k > 0 {
      assert s[..k - 1] == t[..k - 1];
      NumeralPrefix(s, t, k - 1);
    }
  }

  /** Writing out a numeral that was read gives the text back. */
  lemma {:induction false} PaddedNumeral(s: string, width: nat)
    requires |s| == width
    requires forall i :: 0 <= i < width ==> IsDigit(s[i])
    ensures Padded(Numeral(s, 0, width), width) == s
  {
    if width > 0 {
      var n := Numeral(s, 0, width);
      var init := s[..width - 1];
      NumeralPrefix(s, init, width - 1);
      assert n / 10 == Numeral(init, 0, width - 1);
      assert n % 10 == DigitValue(s[width - 1]);
      PaddedNumeral(init, width - 1);
      assert s == init + [s[width - 1]];
    }
  }

  /** `strftime("%Y-%m-%d")`. */
  function Format(d: Date): (s: string)
    requires Valid(d)
    ensures |s| == 10 && s[4] == '-' && s[7] == '-'
  {
    Padded(d.year, 4) + "-" + Padded(d.month, 2) + "-" + Padded(d.day, 2)
  }

  /** The shape `DDDD-DD-DD`. */
  predicate WellFormed(s: string) {
    && |s| == 10
    && s[4] == '-' && s[7] == '-'
    && (forall i :: 0 <= i < 4 ==> IsDigit(s[i]))
    && (forall i :: 5 <= i < 7 ==> IsDigit(s[i]))
    && (forall i :: 8 <= i < 10 ==> IsDigit(s[i]))
  }

  /** `strptime(s, "%Y-%m-%d")` for the fixed-width form; anything else, or a
      date no calendar has, fails with a ValueError about the deadline. */
  function Parse(s: string): (r: Result<Date>)
    ensures r.Ok? ==> Valid(r.value)
    ensures r.Err? ==> r.error == ValueError(Invalid(DeadlineField))
    ensures r.Ok? <==> WellFormed(s) && Valid(Date(Numeral(s, 0, 4), Numeral(s, 5, 7), Numeral(s, 8, 10)))
  {
    if !WellFormed(s) then Err(ValueError(Invalid(DeadlineField)))
    else
      var d := Date(Numeral(s, 0, 4), Numeral(s, 5, 7), Numeral(s, 8, 10));
      if Valid(d) then Ok(d) else Err(ValueError(Invalid(DeadlineField)))
  }

  lemma NumeralShift(s: string, t: string, lo: int, hi: int)
    requires 0 <= lo <= hi <= |s| && t == s[lo..hi]
    requires forall i :: lo <= i < hi ==> IsDigit(s[i])
    ensures forall i :: 0 <= i < |t| ==> IsDigit(t[i])
    ensures Numeral(s, lo, hi) == Numeral(t, 0, hi - lo)
    decreases hi - lo
  {
    if lo < hi {
      NumeralShift(s, s[lo..hi - 1], lo, hi - 1);
      assert s[lo..hi - 1] == t[..hi - lo - 1];
      NumeralPrefix(s[lo..hi - 1], t, hi - lo - 1);
    }
  }

  /** Every valid date survives formatting and re-parsing. */
  lemma {:induction false} ParseFormat(d: Date)
    requires Valid(d)
    ensures Parse(Format(d)) == Ok(d)
  {
    var s := Format(d);
    var y, m, dd := Padded(d.year, 4), Padded(d.month, 2), Padded(d.day, 2);
    assert s[..4] == y && s[5..7] == m && s[8..10] == dd;
    NumeralShift(s, y, 0, 4);
    NumeralShift(s, m, 5, 7);
    NumeralShift(s, dd, 8, 10);
    NumeralPadded(d.year, 4);
    NumeralPadded(d.month, 2);
    NumeralPadded(d.day, 2);
  }

  /** Every accepted deadline text is the canonical spelling of its date. */
  lemma {:induction false} FormatParse(s: string)
    requires Parse(s).Ok?
    ensures Format(Parse(s).value) == s
  {
    var d := Parse(s).value;
    NumeralShift(s, s[..4], 0, 4);
    NumeralShift(s, s[5..7], 5, 7);
    NumeralShift(s, s[8..10], 8, 10);
    PaddedNumeral(s[..4], 4);
    PaddedNumeral(s[5..7], 2);
    PaddedNumeral(s[8..10], 2);
    assert s == s[..4] + "-" + s[5..7] + "-" + s[8..10];
  }
}
