/** Python's `datetime.date` as the task scripts use it: a calendar date compared
    with `<`, written with `isoformat()` and read back with `fromisoformat()`. */
module Dates {
  import opened Common
  import opened Text

  predicate IsLeap(y: int) {
    y % 4 == 0 && (y % 100 != 0 || y % 400 == 0)
  }

  function DaysInMonth(y: int, m: int): int {
    if m == 2 then (if IsLeap(y) then 29 else 28)
    else if m == 4 || m == 6 || m == 9 || m == 11 then 30
    else 31
  }

  datatype Date = Date(year: int, month: int, day: int) {
    /** The dates Python can represent (`date.min` to `date.max`). */
    predicate Valid() {
      1 <= year <= 9999 && 1 <= month <= 12 && 1 <= day <= DaysInMonth(year, month)
    }

    /** `self < other`: strictly earlier in the calendar. */
    predicate Before(other: Date) {
      year < other.year ||
      (year == other.year && (month < other.month || (month == other.month && day < other.day)))
    }
  }

  /** A `datetime.date` value: always a real calendar day. */
  type ValidDate = d: Date | d.Valid() witness Date(1, 1, 1)

  /** `n` written with exactly `w` digits, zero-padded on the left. */
  function Fixed(n: nat, w: nat): (s: string)
    ensures |s| == w && forall i :: 0 <= i < w ==> IsDigitChar(s[i])
    ensures n < Pow10(w) ==> DigitsValue(s) == n
  {
    if w == 0 then []
    else
      var s := Fixed(n / 10, w - 1) + [DigitChar(n % 10)];
      assert s[..w - 1] == Fixed(n / 10, w - 1);
      s
  }

  /** `d.isoformat()`: `YYYY-MM-DD`. */
  function IsoFormat(d: Date): string
    requires d.Valid()
  {
    Fixed(d.year, 4) + "-" + Fixed(d.month, 2) + "-" + Fixed(d.day, 2)
  }

  predicate DigitsIn(s: string, lo: nat, hi: nat)
    requires lo <= hi <= |s|
  {
    forall i :: lo <= i < hi ==> IsDigitChar(s[i])
  }

  /** `date.fromisoformat(s)` for the `YYYY-MM-DD` form; `None` where Python raises
      `ValueError` (wrong shape or a day that is not in the calendar). */
  function ParseIso(s: string): (r: Option<Date>)
    ensures r.Some? ==> r.value.Valid()
  {
    if |s| == 10 && s[4] == '-' && s[7] == '-' && DigitsIn(s, 0, 4) && DigitsIn(s, 5, 7) && DigitsIn(s, 8, 10) then
      var d := Date(DigitsValue(s[0..4]), DigitsValue(s[5..7]), DigitsValue(s[8..10]));
      if d.Valid() then Some(d) else None
    else None
  }

  /** Writing a date and reading it back gives the same date. */
  lemma IsoRoundTrip(d: Date)
    requires d.Valid()
    ensures ParseIso(IsoFormat(d)) == Some(d)
  {
    var s := IsoFormat(d);
    var y, m, dd := Fixed(d.year, 4), Fixed(d.month, 2), Fixed(d.day, 2);
    assert s[0..4] == y && s[5..7] == m && s[8..10] == dd;
    assert Pow10(4) == 10000 && Pow10(2) == 100;
  }

  /** A digit string is the zero-padded form of its own value. */
  lemma {:induction false} FixedDigits(s: string)
    requires forall i :: 0 <= i < |s| ==> IsDigitChar(s[i])
    ensures DigitsValue(s) < Pow10(|s|) && Fixed(DigitsValue(s), |s|) == s
  {
    if s != [] {
      var init := s[..|s| - 1];
      FixedDigits(init);
      var v := DigitsValue(s);
      assert v / 10 == DigitsValue(init) && v % 10 == DigitValue(s[|s| - 1]);
      assert DigitChar(v % 10) == s[|s| - 1];
      assert s == init + [s[|s| - 1]];
    }
  }

  /** Only the `YYYY-MM-DD` text of a date parses to it: formatting what was parsed
      gives back the text. */
  lemma IsoCanonical(s: string)
    requires ParseIso(s).Some?
    ensures IsoFormat(ParseIso(s).value) == s
  {
    FixedDigits(s[0..4]);
    FixedDigits(s[5..7]);
    FixedDigits(s[8..10]);
    assert s == s[0..4] + "-" + s[5..7] + "-" + s[8..10];
  }
}
