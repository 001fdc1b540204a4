/** Decimal rendering of integers (`str(n)`) and of calendar dates (`strftime`). */
module Numerals {
  import opened Text

  function DigitChar(d: int): char
    requires 0 <= d < 10
  {
    ('0' as int + d) as char
  }

  /** The value of a string of decimal digits, most significant first. */
  function DigitsValue(s: string): int {
    if s == [] then 0 else DigitsValue(s[..|s| - 1]) * 10 + (s[|s| - 1] as int - '0' as int)
  }

  /** `str(n)` for a non-negative `n`: the shortest decimal numeral. */
  function NatToString(n: nat): (s: string)
    ensures s != [] && forall i :: 0 <= i < |s| ==> IsDigit(s[i])
    decreases n
  {
    if n < 10 then [DigitChar(n)] else NatToString(n / 10) + [DigitChar(n % 10)]
  }

  lemma {:induction false} NatToStringValue(n: nat)
    ensures DigitsValue(NatToString(n)) == n
    decreases n
  {
    if n >= 10 {
      NatToStringValue(n / 10);
      var s := NatToString(n);
      assert s[..|s| - 1] == NatToString(n / 10);
    }
  }

  /** `str(n)` can neither start nor continue a placeholder in braces whose name holds no
      digit and no minus sign. */
  lemma NumberFitsBraced(n: int, pat: string)
    requires pat != [] && pat[0] == '{'
    requires forall i :: 1 <= i < |pat| ==> !IsDigit(pat[i]) && pat[i] != '-'
    ensures var rep := IntToString(n);
      rep != [] && pat[0] !in rep && forall i :: 1 <= i < |pat| ==> pat[i] != rep[0]
  {
    var rep := IntToString(n);
    assert pat[0] !in rep by {
      forall k | 0 <= k < |rep| ensures rep[k] != '{' {
        assert IsDigit(rep[k]) || rep[k] == '-';
      }
    }
    assert rep[0] == '-' || IsDigit(rep[0]);
  }

  /** `str(n)`: an optional minus sign followed by digits. */
  function IntToString(n: int): (s: string)
    ensures s != []
    ensures forall i :: 0 <= i < |s| ==> IsDigit(s[i]) || s[i] == '-'
  {
    if n < 0 then "-" + NatToString(-n) else NatToString(n)
  }

  /** `int(s)` on the numerals `IntToString` produces. */
  function ParseInt(s: string): int {
    if s != [] && s[0] == '-' then -DigitsValue(s[1..]) else DigitsValue(s)
  }

  /** `int(str(n)) == n`: the numeral written into the prompt names exactly `n`. */
  lemma IntToStringRoundTrip(n: int)
    ensures ParseInt(IntToString(n)) == n
  {
    if n < 0 {
      NatToStringValue(-n);
      assert IntToString(n)[1..] == NatToString(-n);
    } else {
      NatToStringValue(n);
    }
  }

  /** `n` as two decimal digits, zero-padded on the left. */
  function TwoDigits(n: nat): (s: string)
    requires n < 100
    ensures |s| == 2 && IsDigit(s[0]) && IsDigit(s[1])
    ensures DigitsValue(s) == n
  {
    var s := [DigitChar(n / 10), DigitChar(n % 10)];
    assert s[..1] == [DigitChar(n / 10)] && s[..1][..0] == [];
    assert DigitsValue(s[..1]) == n / 10;
    s
  }

  /** A number with four digits is written with four digits. */
  lemma FourDigits(n: nat)
    requires 1000 <= n <= 9999
    ensures |NatToString(n)| == 4
  {
    var a := n / 10;
    var b := a / 10;
    var c := b / 10;
    assert 1 <= c < 10 && 10 <= b && 10 <= a;
    assert |NatToString(b)| == |NatToString(c)| + 1 == 2;
    assert |NatToString(a)| == |NatToString(b)| + 1;
    assert |NatToString(n)| == |NatToString(a)| + 1;
  }

  /** A local calendar date, as `datetime` produces it. The year has four digits. */
  datatype Date = Date(year: int, month: int, day: int) {
    predicate Valid() {
      1000 <= year <= 9999 && 1 <= month <= 12 && 1 <= day <= 31
    }
  }

  type CalendarDate = d: Date | d.Valid() witness Date(1970, 1, 1)

  /** `strftime('%Y<sep>%m<sep>%d')` */
  function FormatDate(d: CalendarDate, sep: char): string {
    NatToString(d.year) + [sep] + TwoDigits(d.month) + [sep] + TwoDigits(d.day)
  }

  /** The formatted date is ten characters, the separator sits at positions 4 and 7, the
      other eight are digits, and the three digit groups read back as the year, the month
      and the day. */
  lemma FormatDateFields(d: CalendarDate, sep: char)
    ensures var r := FormatDate(d, sep);
      |r| == 10 && r[4] == sep && r[7] == sep
      && (forall i :: 0 <= i < 10 && i != 4 && i != 7 ==> IsDigit(r[i]))
      && DigitsValue(r[..4]) == d.year
      && DigitsValue(r[5..7]) == d.month
      && DigitsValue(r[8..]) == d.day
  {
    var r := FormatDate(d, sep);
    var y := NatToString(d.year);
    FourDigits(d.year);
    NatToStringValue(d.year);
    assert r[..4] == y;
    assert r[5..7] == TwoDigits(d.month);
    assert r[8..] == TwoDigits(d.day);
  }
}
