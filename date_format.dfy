/**
 * The date strings `datetime.strptime(text, '%Y-%m-%d')` reads, restricted
 * to the zero-padded form: four year digits, a dash, two month digits, a
 * dash, two day digits, naming a date `datetime` can represent.
 */
module DateFormat {
  import opened Results
  import opened Calendar

  predicate IsDigit(c: char) {
    '0' <= c <= '9'
  }

  predicate AllDigits(s: string) {
    forall i :: 0 <= i < |s| ==> IsDigit(s[i])
  }

  function DigitChar(n: int): (c: char)
    requires 0 <= n < 10
    ensures IsDigit(c)
  {
    ('0' as int + n) as char
  }

  function Pow10(n: nat): (p: nat)
    ensures p >= 1
  {
    if n == 0 then 1 else 10 * Pow10(n - 1)
  }

  /** The decimal value of a string of digits, most significant first. */
  function NumberValue(s: string): (n: nat)
    requires AllDigits(s)
    ensures n < Pow10(|s|)
  {
    if |s| == 0 then 0
    else NumberValue(s[..|s| - 1]) * 10 + (s[|s| - 1] as int - '0' as int)
  }

  /** `n` written in decimal with exactly `width` digits, padded with leading zeros. */
  function Padded(n: nat, width: nat): (s: string)
    ensures |s| == width && AllDigits(s)
  {
    if width == 0 then [] else Padded(n / 10, width - 1) + [DigitChar(n % 10)]
  }

  lemma {:induction false} NumberValueOfPadded(n: nat, width: nat)
    requires n < Pow10(width)
    ensures NumberValue(Padded(n, width)) == n
  {
    if width > 0 {
      var s := Padded(n, width);
      assert s[..|s| - 1] == Padded(n / 10, width - 1);
      NumberValueOfPadded(n / 10, width - 1);
    }
  }

  lemma {:induction false} PaddedOfNumberValue(s: string)
    requires AllDigits(s)
    ensures Padded(NumberValue(s), |s|) == s
  {
    if |s| > 0 {
      var init := s[..|s| - 1];
      var n := NumberValue(s);
      assert n / 10 == NumberValue(init);
      PaddedOfNumberValue(init);
      assert s == init + [s[|s| - 1]];
    }
  }

  /** Parses `YYYY-MM-DD`; `None` is where `strptime` raises `ValueError`. */
  function ParseIso(s: string): (r: Option<Date>)
    ensures r.Some? ==> Valid(r.value) && |s| == 10
  {
    if |s| == 10 && s[4] == '-' && s[7] == '-'
       && AllDigits(s[..4]) && AllDigits(s[5..7]) && AllDigits(s[8..])
    then
      var d := Date(NumberValue(s[..4]), NumberValue(s[5..7]), NumberValue(s[8..]));
      if Valid(d) then Some(d) else None
    else None
  }

  /** Writes a valid date as `YYYY-MM-DD` (`strftime('%Y-%m-%d')`). */
  function FormatIso(d: Date): (s: string)
    requires Valid(d)
    ensures |s| == 10
  {
    Padded(d.year, 4) + "-" + Padded(d.month, 2) + "-" + Padded(d.day, 2)
  }

  /** Every valid date reads back from its formatted string. */
  lemma ParseFormat(d: Date)
    requires Valid(d)
    ensures ParseIso(FormatIso(d)) == Some(d)
  {
    var s := FormatIso(d);
    assert s[..4] == Padded(d.year, 4);
    assert s[5..7] == Padded(d.month, 2);
    assert s[8..] == Padded(d.day, 2);
    NumberValueOfPadded(d.year, 4);
    NumberValueOfPadded(d.month, 2);
    NumberValueOfPadded(d.day, 2);
  }

  /** A string that parses is exactly the formatted form of the date it parses to. */
  lemma FormatParse(s: string)
    requires ParseIso(s).Some?
    ensures Valid(ParseIso(s).value) && FormatIso(ParseIso(s).value) == s
  {
    PaddedOfNumberValue(s[..4]);
    PaddedOfNumberValue(s[5..7]);
    PaddedOfNumberValue(s[8..]);
    assert s == s[..4] + "-" + s[5..7] + "-" + s[8..];
  }

  /** So the strings that parse to a date are exactly the one string that formats it. */
  lemma ParseIsoExactly(s: string, d: Date)
    ensures ParseIso(s) == Some(d) <==> Valid(d) && s == FormatIso(d)
  {
    if ParseIso(s) == Some(d) {
      FormatParse(s);
    }
    if Valid(d) && s == FormatIso(d) {
      ParseFormat(d);
    }
  }
}
