/**
 * `getDateFormat`: the sortable timestamp `year-MM-DD-HH-MM-SS` used in the archive's
 * file name. The `Date` getters become integer parameters: `month` is the zero-based
 * value of `getMonth()`.
 */
module FileName {
  import opened Strings

  /** `("0" + n).slice(-2)`: the last two characters of "0" followed by the digits of `n`. */
  function Pad2(n: nat): (r: string)
    ensures |r| == 2 && IsDigit(r[0]) && IsDigit(r[1]) && IsDecimal(r)
  {
    var s := "0" + NatToDecimal(n);
    s[|s| - 2..]
  }

  lemma Pad2Chars(n: nat)
    ensures Pad2(n) == [if n < 10 then '0' else DigitChar((n / 10) % 10), DigitChar(n % 10)]
  {
    var d := NatToDecimal(n);
    var s := "0" + d;
    assert s[|s| - 1] == DigitChar(n % 10);
    if n >= 10 {
      var high := NatToDecimal(n / 10);
      assert d == high + [DigitChar(n % 10)];
      assert s[|s| - 2] == high[|high| - 1];
    }
  }

  lemma DivModUnique(n: int, a: int, b: int)
    requires n == 100 * a + b && 0 <= b < 100
    ensures n % 100 == b && n / 100 == a
  {
  }

  lemma DivMod10(n: nat)
    ensures n == 10 * (n / 10) + n % 10 && 0 <= n % 10 < 10
  {
  }

  /** The tens and units digits of `n` make up `n mod 100`. */
  lemma TwoLastDigits(n: nat)
    ensures 10 * ((n / 10) % 10) + n % 10 == n % 100
  {
    var q := n / 10;
    DivMod10(n);
    DivMod10(q);
    assert n == 100 * (q / 10) + (10 * (q % 10) + n % 10);
    DivModUnique(n, q / 10, 10 * (q % 10) + n % 10);
  }

  /**
   * The two characters are the tens and units digits of `n`, which together denote
   * `n mod 100`: larger values lose their leading digits.
   */
  lemma Pad2Digits(n: nat)
    ensures Pad2(n) == [DigitChar((n / 10) % 10), DigitChar(n % 10)]
    ensures DecimalValue(Pad2(n)) == n % 100
  {
    Pad2Chars(n);
    if n < 10 {
      assert n / 10 == 0;
      assert DigitChar(0) == '0';
    }
    TwoLastDigits(n);
    DecimalValuePair((n / 10) % 10, n % 10);
  }

  /** For a field value up to 99 the padding is exactly two decimal digits denoting it. */
  lemma Pad2Exact(n: nat)
    requires n <= 99
    ensures Pad2(n) == [DigitChar(n / 10), DigitChar(n % 10)]
    ensures DecimalValue(Pad2(n)) == n
  {
    var q := n / 10;
    DivMod10(n);
    assert q < 10 && q % 10 == q;
    Pad2Digits(n);
  }

  function DateFormat(year: int, month: nat, day: nat, hours: nat, minutes: nat, seconds: nat): (r: string)
    ensures |r| == |IntToDecimal(year)| + 15
  {
    IntToDecimal(year) + "-" + Pad2(month + 1) + "-" + Pad2(day) + "-" + Pad2(hours) + "-" +
    Pad2(minutes) + "-" + Pad2(seconds)
  }

  /** A two-digit field, written as its tens and units digits. */
  function Digits2(n: nat): string
    requires n <= 99
  {
    [DigitChar(n / 10), DigitChar(n % 10)]
  }

  /**
   * The name is the unpadded year, then five dash-prefixed fields of exactly two digits:
   * the one-based month, day, hours, minutes and seconds (their places: `DateFormatPlaces`).
   */
  lemma DateFormatLayout(year: int, month: nat, day: nat, hours: nat, minutes: nat, seconds: nat)
    requires month <= 11 && day <= 31 && hours <= 23 && minutes <= 59 && seconds <= 59
    ensures DateFormat(year, month, day, hours, minutes, seconds) ==
            IntToDecimal(year) + "-" + Digits2(month + 1) + "-" + Digits2(day) + "-" + Digits2(hours) + "-" +
            Digits2(minutes) + "-" + Digits2(seconds)
  {
    Pad2Exact(month + 1);
    Pad2Exact(day);
    Pad2Exact(hours);
    Pad2Exact(minutes);
    Pad2Exact(seconds);
  }

  /**
   * Every field sits at a fixed place after the year: a dash, then the tens and units digit
   * of the one-based month, the day, the hours, the minutes and the seconds.
   */
  lemma DateFormatPlaces(year: int, month: nat, day: nat, hours: nat, minutes: nat, seconds: nat)
    requires month <= 11 && day <= 31 && hours <= 23 && minutes <= 59 && seconds <= 59
    ensures var s := DateFormat(year, month, day, hours, minutes, seconds);
            var y := IntToDecimal(year);
            var n := |y|;
            && |s| == n + 15 && (forall k :: 0 <= k < n ==> s[k] == y[k])
            && s[n] == '-' && s[n + 3] == '-' && s[n + 6] == '-' && s[n + 9] == '-' && s[n + 12] == '-'
            && s[n + 1] == DigitChar((month + 1) / 10) && s[n + 2] == DigitChar((month + 1) % 10)
            && s[n + 4] == DigitChar(day / 10) && s[n + 5] == DigitChar(day % 10)
            && s[n + 7] == DigitChar(hours / 10) && s[n + 8] == DigitChar(hours % 10)
            && s[n + 10] == DigitChar(minutes / 10) && s[n + 11] == DigitChar(minutes % 10)
            && s[n + 13] == DigitChar(seconds / 10) && s[n + 14] == DigitChar(seconds % 10)
  {
    DateFormatLayout(year, month, day, hours, minutes, seconds);
    FieldPlaces(IntToDecimal(year), Digits2(month + 1), Digits2(day), Digits2(hours), Digits2(minutes), Digits2(seconds));
  }

  /** The places of the five fields in `year-a-b-c-d-e` for two-character fields. */
  lemma FieldPlaces(y: string, a: string, b: string, c: string, d: string, e: string)
    requires |a| == 2 && |b| == 2 && |c| == 2 && |d| == 2 && |e| == 2
    ensures var s := y + "-" + a + "-" + b + "-" + c + "-" + d + "-" + e;
            var n := |y|;
            && |s| == n + 15 && (forall k :: 0 <= k < n ==> s[k] == y[k])
            && s[n] == '-' && s[n + 3] == '-' && s[n + 6] == '-' && s[n + 9] == '-' && s[n + 12] == '-'
            && s[n + 1] == a[0] && s[n + 2] == a[1] && s[n + 4] == b[0] && s[n + 5] == b[1]
            && s[n + 7] == c[0] && s[n + 8] == c[1] && s[n + 10] == d[0] && s[n + 11] == d[1]
            && s[n + 13] == e[0] && s[n + 14] == e[1]
  {
  }

  lemma DateFormatExample()
    ensures DateFormat(2024, 0, 5, 9, 3, 0) == "2024-01-05-09-03-00"
  {
    Pad2Digits(1);
    Pad2Digits(5);
    Pad2Digits(9);
    Pad2Digits(3);
    Pad2Digits(0);
    DecimalDigits2024();
  }

  lemma DecimalDigits2024()
    ensures IntToDecimal(2024) == "2024"
  {
    assert NatToDecimal(2) == "2";
    assert NatToDecimal(20) == "20";
    assert NatToDecimal(202) == "202";
  }
}
