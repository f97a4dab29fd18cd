/**
  The per-client message counter kept in the `message_count` cookie
  (app.py lines 95-99 read it, line 126 writes it). The cookie holds the
  counter as decimal text, written with Python's `str(n)` and read back
  with `int(text)`; a missing cookie reads as 0.
 */
module Counter {
  import opened Wrappers

  /** Python's `int()` raises `ValueError` on text that is not an integer. */
  datatype CookieError = NotAnInteger(text: string)

  predicate IsDigit(c: char) {
    '0' <= c <= '9'
  }

  /** A non-empty run of ASCII decimal digits. */
  predicate IsDigits(s: string) {
    |s| > 0 && forall i :: 0 <= i < |s| ==> IsDigit(s[i])
  }

  function DigitChar(d: nat): (c: char)
    requires d < 10
    ensures IsDigit(c)
  {
    "0123456789"[d]
  }

  function DigitValue(c: char): (d: nat)
    requires IsDigit(c)
    ensures d < 10
    ensures DigitChar(d) == c
  {
    (c as int - '0' as int)
  }

  /** The value of a run of decimal digits, most significant first. */
  function DigitsValue(s: string): nat
    requires forall i :: 0 <= i < |s| ==> IsDigit(s[i])
    decreases |s|
  {
    if |s| == 0 then 0
    else DigitsValue(s[..|s| - 1]) * 10 + DigitValue(s[|s| - 1])
  }

  /** Python's `str(n)` for a non-negative integer: no leading zeros. */
  function ShowNat(n: nat): (s: string)
    ensures IsDigits(s)
    ensures |s| > 1 ==> s[0] != '0'
    decreases n
  {
    if n < 10 then [DigitChar(n)]
    else ShowNat(n / 10) + [DigitChar(n % 10)]
  }

  /** Python's `str(n)`: the decimal text written into the cookie. */
  function Show(n: int): (s: string)
    ensures n >= 0 ==> IsDigits(s)
    ensures n < 0 ==> |s| > 1 && s[0] == '-' && IsDigits(s[1..])
    ensures n >= 0 && |s| > 1 ==> s[0] != '0'
    ensures n < 0 ==> s[1] != '0'
  {
    if n < 0 then "-" + ShowNat(-n) else ShowNat(n)
  }

  /**
    Python's `int(text)` on cookie text: an optional sign followed by
    decimal digits (leading zeros allowed); anything else raises.
   */
  function Parse(text: string): (r: Result<int, CookieError>)
    ensures r.Failure? <==>
              !IsDigits(text) && !(|text| > 1 && text[0] in "+-" && IsDigits(text[1..]))
    ensures r.Success? && IsDigits(text) ==> r.value >= 0
    ensures r.Failure? ==> r.error == NotAnInteger(text)
  {
    if IsDigits(text) then
      Success(DigitsValue(text))
    else if |text| > 1 && text[0] == '-' && IsDigits(text[1..]) then
      Success(0 - DigitsValue(text[1..]))
    else if |text| > 1 && text[0] == '+' && IsDigits(text[1..]) then
      Success(DigitsValue(text[1..]))
    else
      Failure(NotAnInteger(text))
  }

  /** Reading the counter: a missing cookie is 0, a present one is parsed. */
  function ReadCount(cookie: Option<string>): (r: Result<int, CookieError>)
    ensures cookie.None? ==> r == Success(0)
    ensures cookie.Some? ==> r == Parse(cookie.value)
  {
    match cookie
    case None => Success(0)
    case Some(text) => Parse(text)
  }

  /** The digits written for `n` read back as `n`. */
  lemma {:induction false} DigitsValueShowNat(n: nat)
    ensures DigitsValue(ShowNat(n)) == n
    decreases n
  {
    if n >= 10 {
      var s := ShowNat(n);
      assert s[..|s| - 1] == ShowNat(n / 10);
      DigitsValueShowNat(n / 10);
    }
  }

  /** Writing a counter and reading it back gives the same counter. */
  lemma ParseShow(n: int)
    ensures Parse(Show(n)) == Success(n)
  {
    var s := Show(n);
    if n < 0 {
      assert s[1..] == ShowNat(-n);
      assert !IsDigit(s[0]);
      DigitsValueShowNat(-n);
    } else {
      DigitsValueShowNat(n);
    }
  }

  /** The counter survives the round trip through the cookie. */
  lemma ReadWrittenCount(n: int)
    ensures ReadCount(Some(Show(n))) == Success(n)
  {
    ParseShow(n);
  }

  /** A leading zero does not change the value `int()` reads. */
  lemma ParseLeadingZero(d: string)
    requires IsDigits(d)
    ensures Parse("0" + d) == Parse(d)
  {
    assert ("0" + d)[..|"0" + d| - 1] == "0" + d[..|d| - 1];
    LeadingZeroValue(d);
  }

  lemma {:induction false} LeadingZeroValue(d: string)
    requires forall i :: 0 <= i < |d| ==> IsDigit(d[i])
    ensures DigitsValue("0" + d) == DigitsValue(d)
    decreases |d|
  {
    if |d| == 0 {
      assert DigitsValue("0" + d) == DigitsValue("0"[..0]) * 10 + DigitValue('0');
    } else {
      assert ("0" + d)[..|"0" + d| - 1] == "0" + d[..|d| - 1];
      LeadingZeroValue(d[..|d| - 1]);
    }
  }

  /** A leading `+` does not change the value `int()` reads. */
  lemma ParsePlusSign(d: string)
    requires IsDigits(d)
    ensures Parse("+" + d) == Parse(d)
  {
    assert ("+" + d)[1..] == d;
  }

  /** A leading `-` negates the value `int()` reads. */
  lemma ParseMinusSign(d: string)
    requires IsDigits(d)
    ensures Parse("-" + d) == Success(0 - Parse(d).value)
  {
    assert ("-" + d)[1..] == d;
  }

  /**
    Digits without a leading zero are exactly what `str(n)` writes for
    their value; with `ParseLeadingZero` and the sign lemmas this fixes
    the value of every text `int()` accepts.
   */
  lemma {:induction false} ShowNatDigitsValue(d: string)
    requires IsDigits(d)
    requires |d| > 1 ==> d[0] != '0'
    ensures ShowNat(DigitsValue(d)) == d
    decreases |d|
  {
    if |d| > 1 {
      var front := d[..|d| - 1];
      ShowNatDigitsValue(front);
      PositiveValue(front);
      var n := DigitsValue(d);
      assert n / 10 == DigitsValue(front) && n % 10 == DigitValue(d[|d| - 1]);
      assert d == front + [d[|d| - 1]];
    }
  }

  lemma {:induction false} PositiveValue(d: string)
    requires IsDigits(d)
    requires d[0] != '0'
    ensures DigitsValue(d) >= 1
    decreases |d|
  {
    if |d| > 1 {
      PositiveValue(d[..|d| - 1]);
    }
  }
}
