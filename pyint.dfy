/** Python's `int(text)` (base 10) and `str(n)` on integers, as the upload
    and update views use them to read entity numbers from CSV cells and to
    compare record ids with submitted form values. ASCII only. */
module PyInt {
  import opened Ascii
  import opened Optional

  /** Digits with single underscores between them, as `int()` accepts. */
  predicate IsDigitGroup(t: string) {
    && |t| > 0
    && forall i {:trigger t[i]} :: 0 <= i < |t| ==>
         IsDigit(t[i]) || (0 < i < |t| - 1 && t[i] == '_' && IsDigit(t[i - 1]) && IsDigit(t[i + 1]))
  }

  /** The value of the digits of `t`, underscores skipped. */
  function DigitsValue(t: string): nat
  {
    if t == [] then 0
    else if IsDigit(t[|t| - 1]) then DigitsValue(t[..|t| - 1]) * 10 + DigitValue(t[|t| - 1])
    else DigitsValue(t[..|t| - 1])
  }

  function ParseUnsigned(t: string): (r: Option<nat>)
    ensures r.Some? ==> t != [] && IsDigit(t[|t| - 1])
  {
    if IsDigitGroup(t) then Some(DigitsValue(t)) else None
  }

  /** `int(s)`: `None` where Python raises `ValueError`. */
  function ParseInt(s: string): (r: Option<int>)
    ensures r.Some? ==> Trim(s) != [] && IsDigit(Trim(s)[|Trim(s)| - 1])
    ensures r.Some? && r.value < 0 ==> Trim(s)[0] == '-'
  {
    var t := Trim(s);
    if t != [] && (t[0] == '+' || t[0] == '-') then
      match ParseUnsigned(t[1..])
      case None => None
      case Some(v) =>
        assert t[1..][|t| - 2] == t[|t| - 1];
        var n: int := v; Some(if t[0] == '-' then -n else n)
    else
      match ParseUnsigned(t)
      case None => None
      case Some(v) => Some(v)
  }

  function NatDigits(n: nat): (r: string)
    ensures |r| > 0 && forall i :: 0 <= i < |r| ==> IsDigit(r[i])
  {
    if n < 10 then [DigitChar(n)] else NatDigits(n / 10) + [DigitChar(n % 10)]
  }

  /** `str(n)`: decimal digits, with a leading `-` for negative numbers. */
  function DecimalString(n: int): string
  {
    if n < 0 then "-" + NatDigits(-n) else NatDigits(n)
  }

  lemma {:induction false} NatDigitsValue(n: nat)
    ensures DigitsValue(NatDigits(n)) == n
  {
    if n >= 10 {
      NatDigitsValue(n / 10);
      var r := NatDigits(n);
      assert r[..|r| - 1] == NatDigits(n / 10);
    }
  }

  /** `int(str(n)) == n`: the decimal form is read back as the same number. */
  lemma DecimalRoundTrip(n: int)
    ensures ParseInt(DecimalString(n)) == Some(n)
  {
    var m: nat := if n < 0 then -n else n;
    var d := NatDigits(m);
    NatDigitsValue(m);
    assert IsDigitGroup(d);
    TrimUnchanged(DecimalString(n));
    if n < 0 {
      assert DecimalString(n)[1..] == d;
    }
  }

  /** Distinct numbers have distinct decimal forms, so comparing `str(id)`
      with a submitted value selects at most one id. */
  lemma DecimalStringInjective(a: int, b: int)
    requires DecimalString(a) == DecimalString(b)
    ensures a == b
  {
    DecimalRoundTrip(a);
    DecimalRoundTrip(b);
  }
}
