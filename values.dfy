/**
 * JSON scalar values as they travel between the platform, the browser, the
 * store and the live view, with the two conversions the engine applies to
 * them: storing a value in a TEXT column, and Python's `int(...)`.
 */
module Values {
  import opened Wrappers

  /** A JSON scalar: a string ("on", "locked") or an integer (a level, a setpoint). */
  datatype Value = Text(s: string) | Int(i: int)

  predicate IsDigit(c: char) { '0' <= c <= '9' }

  predicate AllDigits(s: string) { forall k :: 0 <= k < |s| ==> IsDigit(s[k]) }

  function DigitChar(d: nat): (c: char)
    requires d < 10
    ensures IsDigit(c) && (c as int) - ('0' as int) == d
  {
    (('0' as int) + d) as char
  }

  /** The value of a string of decimal digits. */
  function DigitsValue(s: string): nat
    requires AllDigits(s)
  {
    if s == [] then 0
    else DigitsValue(s[..|s| - 1]) * 10 + ((s[|s| - 1] as int) - ('0' as int))
  }

  /** The decimal spelling of a natural number, without leading zeros. */
  function NatText(n: nat): (s: string)
    ensures |s| > 0 && AllDigits(s)
  {
    if n < 10 then [DigitChar(n)] else NatText(n / 10) + [DigitChar(n % 10)]
  }

  /** `str(i)` for a Python int. */
  function IntText(i: int): string {
    if i < 0 then "-" + NatText(-i) else NatText(i)
  }

  /** What a TEXT column keeps when the value is bound as a statement parameter. */
  function StoredText(v: Value): string {
    match v
    case Text(s) => s
    case Int(i) => IntText(i)
  }

  /**
   * `int(s)` for a string: an optional sign followed by one or more ASCII
   * digits; anything else raises ValueError (None here).
   */
  function ParseInt(s: string): (r: Option<int>)
    ensures r.Some? ==> |s| > 0
  {
    if |s| > 0 && (s[0] == '-' || s[0] == '+') then
      var digits := s[1..];
      if |digits| > 0 && AllDigits(digits) then
        Some(if s[0] == '-' then -(DigitsValue(digits) as int) else DigitsValue(digits))
      else None
    else if |s| > 0 && AllDigits(s) then Some(DigitsValue(s))
    else None
  }

  /** Python's `int(v)` on a JSON scalar; None stands for the ValueError it raises. */
  function ToInt(v: Value): (r: Option<int>)
    ensures v.Int? ==> r == Some(v.i)
  {
    match v
    case Int(i) => Some(i)
    case Text(s) => ParseInt(s)
  }

  lemma {:induction false} NatTextValue(n: nat)
    ensures DigitsValue(NatText(n)) == n
  {
    if n >= 10 {
      var s := NatText(n);
      assert s[..|s| - 1] == NatText(n / 10);
      NatTextValue(n / 10);
    }
  }

  /**
   * A number kept as text by the store converts back to the same number:
   * `int(str(i)) == i`, so a level that went through a TEXT column still
   * yields the same `setLevel` argument.
   */
  lemma StoredIntParsesBack(i: int)
    ensures ToInt(Text(StoredText(Int(i)))) == Some(i)
  {
    var s := IntText(i);
    if i < 0 {
      var digits := NatText(-i);
      assert s == "-" + digits;
      assert s[1..] == digits;
      NatTextValue(-i);
      assert ParseInt(s) == Some(-(DigitsValue(digits) as int));
    } else {
      assert s == NatText(i);
      assert IsDigit(s[0]);
      NatTextValue(i);
      assert ParseInt(s) == Some(DigitsValue(s));
    }
  }
}
