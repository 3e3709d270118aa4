/**
 * Python's `int(text)` and `str(n)` for base-10 integers: an optional sign
 * followed by ASCII digits, with surrounding whitespace allowed on input.
 */
module Numbers {
  import opened Wrappers
  import opened Text

  predicate IsDigit(c: char) {
    '0' <= c <= '9'
  }

  predicate AllDigits(s: string) {
    forall i :: 0 <= i < |s| ==> IsDigit(s[i])
  }

  /** The value of a string of decimal digits, most significant first. */
  function DigitsValue(s: string): nat
    requires AllDigits(s)
    decreases |s|
  {
    if s == [] then 0 else 10 * DigitsValue(s[..|s| - 1]) + (s[|s| - 1] as int - '0' as int)
  }

  /** The sign-and-digits grammar `int()` accepts once whitespace is stripped. */
  function ParseSigned(t: string): Option<int> {
    if |t| > 0 && (t[0] == '+' || t[0] == '-') then
      if |t| > 1 && AllDigits(t[1..]) then
        var magnitude: int := DigitsValue(t[1..]);
        Some(if t[0] == '-' then -magnitude else magnitude)
      else None
    else if |t| > 0 && AllDigits(t) then Some(DigitsValue(t))
    else None
  }

  /** `int(s)`: `None` stands for the `ValueError` it raises. */
  function ParseInt(s: string): (r: Option<int>)
    ensures Trim(s) == [] ==> r.None?
  {
    ParseSigned(Trim(s))
  }

  function DigitChar(d: nat): (c: char)
    requires d < 10
    ensures IsDigit(c) && c as int - '0' as int == d
  {
    ('0' as int + d) as char
  }

  /** `str(n)` for `n >= 0`: the decimal digits of `n`, with no leading zero
      except for `n == 0` itself. */
  function ShowNat(n: nat): (s: string)
    ensures |s| > 0 && AllDigits(s) && DigitsValue(s) == n
    ensures s[0] == '0' ==> s == "0"
  {
    if n < 10 then [DigitChar(n)]
    else
      var s := ShowNat(n / 10) + [DigitChar(n % 10)];
      assert s[..|s| - 1] == ShowNat(n / 10);
      s
  }

  /** `str(n)`: a minus sign for negative `n`, then the digits of `|n|`. */
  function Show(n: int): (s: string)
    ensures |s| > 0 && NoSpace(s)
  {
    if n < 0 then "-" + ShowNat(-n) else ShowNat(n)
  }

  /** `int(str(n)) == n`. */
  lemma ShowRoundTrip(n: int)
    ensures ParseInt(Show(n)) == Some(n)
  {
    var s := Show(n);
    assert Trim(s) == s;
    if n < 0 {
      assert s[1..] == ShowNat(-n);
    }
  }

  lemma SignedDigitsNoSpace(sign: string, d: string)
    requires AllDigits(d) && (sign == [] || sign == "0" || sign == "+" || sign == "-")
    ensures NoSpace(sign + d)
  {
    assert forall i :: |sign| <= i < |sign + d| ==> (sign + d)[i] == d[i - |sign|];
  }

  lemma {:induction false} LeadingZeroValue(d: string)
    requires AllDigits(d)
    ensures AllDigits("0" + d) && DigitsValue("0" + d) == DigitsValue(d)
    decreases |d|
  {
    if d != [] {
      var z := "0" + d;
      assert z[..|z| - 1] == "0" + d[..|d| - 1];
      LeadingZeroValue(d[..|d| - 1]);
    }
  }

  /** `int()` on a string without whitespace applies the grammar directly. */
  lemma ParseUnpadded(t: string)
    requires NoSpace(t)
    ensures ParseInt(t) == ParseSigned(t)
  {
  }

  /** `int(d)` for a plain digit string `d` is its digit value. */
  lemma ParseDigits(d: string)
    requires |d| > 0 && AllDigits(d)
    ensures ParseInt(d) == Some(DigitsValue(d))
  {
    SignedDigitsNoSpace([], d);
    assert [] + d == d;
    ParseUnpadded(d);
    assert !(d[0] == '+' || d[0] == '-');
  }

  /** `int()` ignores a leading zero: `int("0" + d) == int(d)` for digits `d`. */
  lemma LeadingZeroIgnored(d: string)
    requires |d| > 0 && AllDigits(d)
    ensures ParseInt("0" + d) == ParseInt(d) == Some(DigitsValue(d))
  {
    LeadingZeroValue(d);
    ParseDigits("0" + d);
    ParseDigits(d);
  }

  /** `int()` ignores a plus sign: `int("+" + d) == int(d)` for digits `d`. */
  lemma PlusSignIgnored(d: string)
    requires |d| > 0 && AllDigits(d)
    ensures ParseInt("+" + d) == ParseInt(d) == Some(DigitsValue(d))
  {
    SignedDigitsNoSpace("+", d);
    ParseUnpadded("+" + d);
    PlusSigned(d);
    ParseDigits(d);
  }

  lemma PlusSigned(d: string)
    requires |d| > 0 && AllDigits(d)
    ensures ParseSigned("+" + d) == Some(DigitsValue(d))
  {
    var t := "+" + d;
    assert t[1..] == d;
  }

  /** A string starting with a character that is neither whitespace, a sign
      nor a digit is not an integer. */
  lemma NotAnInteger(s: string)
    requires |s| > 0 && NoSpace(s) && !IsDigit(s[0]) && s[0] != '+' && s[0] != '-'
    ensures ParseInt(s) == None
  {
    assert Trim(s) == s;
  }
}
