/**
 * The subset of Python's `int(str)` used to read a price: an optional sign
 * followed by one or more ASCII decimal digits. Anything else raises
 * `ValueError`, modelled as `None`.
 *
 * `ShowInt` is the decimal formatter the catalog uses for `priceUsd.units`;
 * it is here as the partner of `ParseInt`.
 */
module PyInt {
  import opened Wrappers

  predicate IsDigit(c: char) {
    '0' <= c <= '9'
  }

  predicate AllDigits(s: string) {
    forall i :: 0 <= i < |s| ==> IsDigit(s[i])
  }

  /** The strings `int()` accepts in this model. */
  predicate IsIntLiteral(s: string) {
    if |s| > 0 && (s[0] == '+' || s[0] == '-') then |s| > 1 && AllDigits(s[1..])
    else |s| > 0 && AllDigits(s)
  }

  function Pow10(n: nat): (p: nat)
    ensures p >= 1
  {
    if n == 0 then 1 else 10 * Pow10(n - 1)
  }

  function DigitValue(c: char): (d: nat)
    requires IsDigit(c)
    ensures d < 10
  {
    (c as int) - ('0' as int)
  }

  function DigitChar(d: nat): (c: char)
    requires d < 10
    ensures IsDigit(c) && DigitValue(c) == d
  {
    (('0' as int) + d) as char
  }

  /** The value of a string of decimal digits, most significant first; leading zeros allowed. */
  function DigitsValue(s: string): (n: nat)
    requires AllDigits(s)
    ensures n < Pow10(|s|)
  {
    if s == [] then 0
    else
      var init := s[..|s| - 1];
      var d := DigitValue(s[|s| - 1]);
      var m := DigitsValue(init);
      assert m * 10 + d < (m + 1) * 10 <= Pow10(|init|) * 10;
      m * 10 + d
  }

  /** `int(s)`: `None` stands for the `ValueError` raised on anything that is not an integer literal. */
  function ParseInt(s: string): (r: Option<int>)
    ensures r.Some? <==> IsIntLiteral(s)
    ensures r.Some? && s[0] == '-' ==> r.value <= 0
    ensures r.Some? && s[0] != '-' ==> r.value >= 0
  {
    if |s| > 0 && (s[0] == '+' || s[0] == '-') then
      if |s| > 1 && AllDigits(s[1..]) then
        var n: int := DigitsValue(s[1..]);
        Some(if s[0] == '-' then -n else n)
      else None
    else if |s| > 0 && AllDigits(s) then Some(DigitsValue(s))
    else None
  }

  /** Canonical decimal text of a natural number: no sign, no leading zeros. */
  function ShowNat(n: nat): (s: string)
    ensures |s| > 0 && AllDigits(s)
    ensures |s| > 1 ==> s[0] != '0'
  {
    if n < 10 then [DigitChar(n)] else ShowNat(n / 10) + [DigitChar(n % 10)]
  }

  /** Canonical decimal text of an integer: a `-` sign for negatives only. */
  function ShowInt(n: int): (s: string)
    ensures IsIntLiteral(s)
  {
    if n < 0 then "-" + ShowNat(-n) else ShowNat(n)
  }

  lemma {:induction false} DigitsValueOfShowNat(n: nat)
    ensures DigitsValue(ShowNat(n)) == n
  {
    if n >= 10 {
      var s := ShowNat(n);
      assert s[..|s| - 1] == ShowNat(n / 10);
      DigitsValueOfShowNat(n / 10);
    }
  }

  /** Parsing the canonical text of any integer gives that integer back. */
  lemma ParseShowRoundTrip(n: int)
    ensures ParseInt(ShowInt(n)) == Some(n)
  {
    var s := ShowInt(n);
    if n < 0 {
      var digits := ShowNat(-n);
      assert s == "-" + digits && s[1..] == digits;
      DigitsValueOfShowNat(-n);
      assert ParseInt(s) == Some(0 - DigitsValue(digits) as int);
    } else {
      assert s == ShowNat(n) && s[0] != '+' && s[0] != '-';
      DigitsValueOfShowNat(n);
    }
  }

  /** The default units text `"0"` parses to zero. */
  lemma ParseZero()
    ensures ParseInt("0") == Some(0)
  {
    assert "0"[..0] == [];
  }
}
