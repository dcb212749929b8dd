/**
 * Python's built-in `int(x)` on the values a decoded JSON payload can hold:
 * integers pass through, booleans become 0 or 1, floats are truncated
 * toward zero, strings are parsed as base-10 literals, and `None`, lists and
 * dicts raise `TypeError`.
 */
module PyInt {
  import opened Wrappers
  import opened JsonValue

  /**
   * The characters `int()` skips around an ASCII literal: space and `\t`,
   * `\n`, `\v`, `\f`, `\r` (the C locale's `isspace`).
   */
  predicate IsSpace(c: char)
  {
    c == ' ' || 9 <= c as int <= 13
  }

  /**
   * The default limit on the number of digits `int()` converts from a
   * base-10 string (`sys.get_int_max_str_digits()`); a longer literal raises
   * `ValueError`.
   */
  const MaxStrDigits: nat := 4300

  predicate IsDigit(c: char)
  {
    '0' <= c <= '9'
  }

  function DigitValue(c: char): nat
    requires IsDigit(c)
  {
    c as int - '0' as int
  }

  function Digit(d: nat): (c: char)
    requires d < 10
    ensures IsDigit(c) && DigitValue(c) == d
  {
    ('0' as int + d) as char
  }

  /** `s` without its leading whitespace. */
  function TrimStart(s: string): (r: string)
    ensures |r| <= |s| && r == s[|s| - |r|..]
    ensures r == [] || !IsSpace(r[0])
    ensures forall i :: 0 <= i < |s| - |r| ==> IsSpace(s[i])
  {
    if |s| > 0 && IsSpace(s[0]) then
      var r := TrimStart(s[1..]);
      assert forall i :: 1 <= i < |s| - |r| ==> s[i] == s[1..][i - 1];
      assert s[1..][|s[1..]| - |r|..] == s[|s| - |r|..];
      r
    else s
  }

  /** `s` without its trailing whitespace. */
  function TrimEnd(s: string): (r: string)
    ensures |r| <= |s| && r == s[..|r|]
    ensures r == [] || !IsSpace(r[|r| - 1])
    ensures forall i :: |r| <= i < |s| ==> IsSpace(s[i])
  {
    if |s| > 0 && IsSpace(s[|s| - 1]) then
      var r := TrimEnd(s[..|s| - 1]);
      assert forall i :: |r| <= i < |s| - 1 ==> s[i] == s[..|s| - 1][i];
      assert s[..|s| - 1][..|r|] == s[..|r|];
      r
    else s
  }

  function Strip(s: string): string
  {
    TrimEnd(TrimStart(s))
  }

  /** A base-10 literal body: digits, with single underscores allowed between two digits. */
  predicate IsDigitGroups(b: string)
  {
    && |b| > 0
    && IsDigit(b[0])
    && IsDigit(b[|b| - 1])
    && (forall i :: 0 <= i < |b| ==> IsDigit(b[i]) || b[i] == '_')
    && (forall i :: 0 <= i < |b| - 1 ==> b[i] == '_' ==> b[i + 1] != '_')
  }

  /** The number a digit string denotes, underscores skipped. */
  function DigitsValue(b: string): nat
    requires forall i :: 0 <= i < |b| ==> IsDigit(b[i]) || b[i] == '_'
  {
    if b == [] then 0
    else if b[|b| - 1] == '_' then DigitsValue(b[..|b| - 1])
    else 10 * DigitsValue(b[..|b| - 1]) + DigitValue(b[|b| - 1])
  }

  /** The number of digits in `b`, underscores not counted. */
  function DigitCount(b: string): (n: nat)
    ensures (forall i :: 0 <= i < |b| ==> IsDigit(b[i])) ==> n == |b|
  {
    if b == [] then 0
    else DigitCount(b[..|b| - 1]) + (if IsDigit(b[|b| - 1]) then 1 else 0)
  }

  /** `int(s)` for a string: surrounding whitespace, an optional sign, then digit groups. */
  function ParseIntLiteral(s: string): Option<int>
  {
    ParseSigned(Strip(s))
  }

  /**
   * An optional sign followed by digit groups, with nothing around them and
   * at most `MaxStrDigits` digits.
   */
  function ParseSigned(t: string): Option<int>
  {
    var signed := |t| > 0 && (t[0] == '+' || t[0] == '-');
    var body := if signed then t[1..] else t;
    if !IsDigitGroups(body) || DigitCount(body) > MaxStrDigits then None
    else
      var magnitude: int := DigitsValue(body);
      Some(if signed && t[0] == '-' then -magnitude else magnitude)
  }

  /** `int(x)` for a float: truncation toward zero. */
  function Truncate(x: real): (n: int)
    ensures 0.0 <= x ==> 0 <= n && n as real <= x < n as real + 1.0
    ensures x < 0.0 ==> n <= 0 && n as real - 1.0 < x <= n as real
  {
    if x >= 0.0 then x.Floor else -((-x).Floor)
  }

  /** `int(v)` */
  function ToInt(v: Json): (r: Result<int, PyError>)
    ensures v.Int? ==> r == Success(v.i)
    ensures v.Bool? ==> r == Success(if v.b then 1 else 0)
    ensures v.Float? ==> r.Success? && (0.0 <= v.r ==> r.value as real <= v.r < r.value as real + 1.0)
    ensures v.Float? ==> r.Success? && (v.r < 0.0 ==> r.value as real - 1.0 < v.r <= r.value as real)
    ensures v.Str? ==> (r.Success? <==> ParseIntLiteral(v.s).Some?)
    ensures v.Str? && r.Success? ==> ParseIntLiteral(v.s) == Some(r.value)
    ensures v.Str? && r.Failure? ==> r.error == ValueError
    ensures v.Null? || v.Arr? || v.Obj? ==> r == Failure(TypeError)
  {
    match v
    case Int(i) => Success(i)
    case Bool(b) => Success(if b then 1 else 0)
    case Float(x) => Success(Truncate(x))
    case Str(s) =>
      (match ParseIntLiteral(s)
       case Some(n) => Success(n)
       case None => Failure(ValueError))
    case _ => Failure(TypeError)
  }

  /** `str(n)` for a natural number. */
  function Decimal(n: nat): string
  {
    if n < 10 then [Digit(n)] else Decimal(n / 10) + [Digit(n % 10)]
  }

  /** `str(n)` */
  function Render(n: int): string
  {
    if n < 0 then "-" + Decimal(-n) else Decimal(n)
  }

  lemma {:induction false} DecimalDenotes(n: nat)
    ensures forall i :: 0 <= i < |Decimal(n)| ==> IsDigit(Decimal(n)[i])
    ensures IsDigitGroups(Decimal(n))
    ensures DigitsValue(Decimal(n)) == n
    ensures DigitCount(Decimal(n)) == |Decimal(n)|
  {
    if n >= 10 {
      DecimalDenotes(n / 10);
      var s := Decimal(n);
      assert s[..|s| - 1] == Decimal(n / 10);
    }
  }

  lemma {:induction false} TrimStartPadding(pre: string, t: string)
    requires forall i :: 0 <= i < |pre| ==> IsSpace(pre[i])
    requires |t| > 0 && !IsSpace(t[0])
    ensures TrimStart(pre + t) == t
  {
    if pre != [] {
      assert (pre + t)[1..] == pre[1..] + t;
      TrimStartPadding(pre[1..], t);
    }
  }

  lemma {:induction false} TrimEndPadding(t: string, post: string)
    requires forall i :: 0 <= i < |post| ==> IsSpace(post[i])
    requires |t| > 0 && !IsSpace(t[|t| - 1])
    ensures TrimEnd(t + post) == t
  {
    if post != [] {
      var s := t + post;
      assert s[..|s| - 1] == t + post[..|post| - 1];
      TrimEndPadding(t, post[..|post| - 1]);
    }
  }

  /** The decimal digits of `|n|`, without the sign. */
  function Magnitude(n: int): string
  {
    Decimal(if n < 0 then -n else n)
  }

  /** `str(n)` parses back to `n` exactly when it has at most `MaxStrDigits` digits. */
  lemma ParseRender(n: int)
    ensures ParseSigned(Render(n)) == if |Magnitude(n)| <= MaxStrDigits then Some(n) else None
  {
    var m: nat := if n < 0 then -n else n;
    var d := Decimal(m);
    DecimalDenotes(m);
    var t := Render(n);
    var signed := |t| > 0 && (t[0] == '+' || t[0] == '-');
    var body := if signed then t[1..] else t;
    if n < 0 {
      assert t[1..] == d;
    } else {
      assert IsDigit(d[0]);
    }
    assert signed == (n < 0) && body == d;
  }

  lemma RenderEnds(n: int)
    ensures |Render(n)| > 0 && !IsSpace(Render(n)[0]) && !IsSpace(Render(n)[|Render(n)| - 1])
  {
    var m: nat := if n < 0 then -n else n;
    DecimalDenotes(m);
    var t := Render(n);
    assert t[|t| - 1] == Decimal(m)[|Decimal(m)| - 1];
  }

  lemma StripPadded(pre: string, t: string, post: string)
    requires forall i :: 0 <= i < |pre| ==> IsSpace(pre[i])
    requires forall i :: 0 <= i < |post| ==> IsSpace(post[i])
    requires |t| > 0 && !IsSpace(t[0]) && !IsSpace(t[|t| - 1])
    ensures Strip(pre + t + post) == t
  {
    TrimStartPadding(pre, t + post);
    assert pre + t + post == pre + (t + post);
    TrimEndPadding(t, post);
  }

  /** `int(str(n))` is `n`, also with whitespace around the digits, within the digit limit. */
  lemma RenderRoundTrip(pre: string, n: int, post: string)
    requires forall i :: 0 <= i < |pre| ==> IsSpace(pre[i])
    requires forall i :: 0 <= i < |post| ==> IsSpace(post[i])
    requires |Magnitude(n)| <= MaxStrDigits
    ensures ToInt(Str(pre + Render(n) + post)) == Success(n)
  {
    RenderEnds(n);
    StripPadded(pre, Render(n), post);
    ParseRender(n);
  }

  /** The decimal text of an integer with more than `MaxStrDigits` digits is rejected with `ValueError`. */
  lemma LongRenderRejected(pre: string, n: int, post: string)
    requires forall i :: 0 <= i < |pre| ==> IsSpace(pre[i])
    requires forall i :: 0 <= i < |post| ==> IsSpace(post[i])
    requires |Magnitude(n)| > MaxStrDigits
    ensures ToInt(Str(pre + Render(n) + post)) == Failure(ValueError)
  {
    RenderEnds(n);
    StripPadded(pre, Render(n), post);
    ParseRender(n);
  }
}
