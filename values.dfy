/**
 * The small part of Python's value semantics that the histogram code relies on:
 * the values a variable's series holds once its JSON record is decoded, the
 * exceptions the code raises or lets escape, `str` of a value, `int` of a
 * string, `str.lower` and the ordering `<` on strings.
 */
module PyValues {

  datatype Option<+T> = None | Some(value: T)

  /** The outcome of a computation that may raise one of the exceptions below. */
  datatype Result<+T> = Success(value: T) | Failure(error: Error)

  /** A value of a series or of an enumeration: JSON null, a string or an integer. */
  datatype Value = Null | Str(s: string) | Int(i: int)

  /**
   * What the code can raise. The first two are the program's own `UserError`
   * (with the data its message is formatted from); the others are Python's
   * built-in exceptions that the code does not catch.
   */
  datatype Error =
    | EmptyDependent(variable: string)        // 'Dependent variable {} is empty.'
    | NoIntermediateData(jobIds: seq<string>) // 'Intermediate jobs {} do not have any data.'
    | TypeError
    | ZeroDivisionError
    | AssertionError
    | ValueError

  // ---------------------------------------------------------------------------
  // Decimal rendering of integers: `str(n)` and `"%d" % n`

  predicate IsDigit(c: char) { '0' <= c <= '9' }

  function DigitChar(d: nat): (c: char)
    requires d < 10
    ensures IsDigit(c) && c as int - '0' as int == d
  {
    (d + '0' as int) as char
  }

  function DigitValue(c: char): nat
    requires IsDigit(c)
  {
    c as int - '0' as int
  }

  /** The shortest decimal digits of `n`: no leading zero except for `0` itself. */
  function NatToDecimal(n: nat): (r: string)
    ensures |r| >= 1
    ensures forall i :: 0 <= i < |r| ==> IsDigit(r[i])
    ensures (r[0] == '0') == (n == 0)
  {
    if n < 10 then [DigitChar(n)] else NatToDecimal(n / 10) + [DigitChar(n % 10)]
  }

  /** `str(n)` for a Python `int`: a minus sign before the digits of a negative number. */
  function IntToDecimal(n: int): (r: string)
    ensures |r| >= 1 && (IsDigit(r[0]) || r[0] == '-') && IsDigit(r[|r| - 1])
  {
    if n < 0 then "-" + NatToDecimal(-n) else NatToDecimal(n)
  }

  /**
   * `str(v)`; `str(None)` is `'None'`.
   */
  function PyStr(v: Value): string {
    match v
    case Null => "None"
    case Str(s) => s
    case Int(i) => IntToDecimal(i)
  }

  /** Only `None` and the string `'None'` print as `'None'`. */
  lemma PyStrNone(v: Value)
    ensures PyStr(v) == "None" <==> v == Null || v == Str("None")
  {
    if v.Int? { IntIsNeverNone(v.i); }
  }

  lemma IntIsNeverNone(i: int)
    ensures IntToDecimal(i) != "None"
  {
    var r := IntToDecimal(i);
    assert r[0] != 'N';
  }

  // ---------------------------------------------------------------------------
  // `int(s)` for a string s

  /** The whitespace `int()` strips around its argument (the ASCII part of it). */
  predicate IsSpace(c: char) {
    c == ' ' || c == '\t' || c == '\n' || c == '\r' || c == '\U{B}' || c == '\U{C}'
  }

  function StripLeft(s: string): (r: string)
    ensures |r| <= |s| && r == s[|s| - |r|..]
    ensures |r| > 0 ==> !IsSpace(r[0])
  {
    if |s| > 0 && IsSpace(s[0]) then StripLeft(s[1..]) else s
  }

  function StripRight(s: string): (r: string)
    ensures |r| <= |s| && r == s[..|r|]
    ensures |r| > 0 ==> !IsSpace(r[|r| - 1])
  {
    if |s| > 0 && IsSpace(s[|s| - 1]) then StripRight(s[..|s| - 1]) else s
  }

  function Strip(s: string): string {
    StripRight(StripLeft(s))
  }

  /** Digits, with single underscores allowed between two digits. */
  predicate ValidDigits(t: string) {
    && |t| >= 1
    && IsDigit(t[0])
    && IsDigit(t[|t| - 1])
    && (forall i :: 0 <= i < |t| ==> IsDigit(t[i]) || t[i] == '_')
    && (forall i :: 0 <= i < |t| - 1 ==> !(t[i] == '_' && t[i + 1] == '_'))
  }

  /** The number the digits of `t` spell, underscores ignored. */
  function DigitsValue(t: string): nat
    requires forall i :: 0 <= i < |t| ==> IsDigit(t[i]) || t[i] == '_'
  {
    if t == [] then 0
    else if t[|t| - 1] == '_' then DigitsValue(t[..|t| - 1])
    else DigitsValue(t[..|t| - 1]) * 10 + DigitValue(t[|t| - 1])
  }

  /**
   * `int(s)`: surrounding whitespace is stripped, one optional sign, then
   * decimal digits; `None` stands for the `ValueError` it raises otherwise.
   */
  function ParseInt(s: string): Option<int> {
    var t := Strip(s);
    if |t| == 0 then None
    else if t[0] == '-' then
      match ParseUnsigned(t[1..]) case None => None case Some(v) => Some(-v)
    else if t[0] == '+' then
      match ParseUnsigned(t[1..]) case None => None case Some(v) => Some(v)
    else ParseUnsigned(t)
  }

  function ParseUnsigned(t: string): Option<int> {
    if ValidDigits(t) then Some(DigitsValue(t)) else None
  }

  /**
   * What `int()` accepts: once stripped, the text starts with a digit or a
   * sign and ends with a digit, and only a `-` gives a negative number; text
   * without any digit raises `ValueError`.
   */
  lemma ParseIntAccepts(s: string)
    ensures ParseInt(s).Some? ==>
      var t := Strip(s);
      |t| > 0 && (IsDigit(t[0]) || t[0] == '-' || t[0] == '+') && IsDigit(t[|t| - 1])
    ensures ParseInt(s).Some? && ParseInt(s).value < 0 ==> Strip(s)[0] == '-'
    ensures (forall i :: 0 <= i < |s| ==> !IsDigit(s[i])) ==> ParseInt(s).None?
  {
  }

  lemma {:induction false} DigitsValueOfDecimal(n: nat)
    ensures DigitsValue(NatToDecimal(n)) == n
  {
    var r := NatToDecimal(n);
    if n >= 10 {
      DigitsValueOfDecimal(n / 10);
      assert r[..|r| - 1] == NatToDecimal(n / 10);
    }
  }

  lemma StripUnpadded(s: string)
    requires |s| > 0 && !IsSpace(s[0]) && !IsSpace(s[|s| - 1])
    ensures Strip(s) == s
  {
    assert StripLeft(s) == s;
  }

  lemma DecimalDigitsValid(n: nat)
    ensures ValidDigits(NatToDecimal(n))
  {
  }

  lemma ParseNatDigits(d: string)
    requires ValidDigits(d)
    ensures ParseInt(d) == Some(DigitsValue(d) as int)
  {
    StripUnpadded(d);
  }

  lemma ParseNegatedDigits(d: string)
    requires ValidDigits(d)
    ensures ParseInt("-" + d) == Some(-(DigitsValue(d) as int))
  {
    var t := "-" + d;
    assert t[|t| - 1] == d[|d| - 1];
    StripUnpadded(t);
    assert t[1..] == d;
    assert ParseUnsigned(t[1..]) == Some(DigitsValue(d) as int);
  }

  /** `int(str(n)) == n`. */
  lemma ParseIntOfDecimal(n: int)
    ensures ParseInt(IntToDecimal(n)) == Some(n)
  {
    var m: nat := if n < 0 then -n else n;
    var d := NatToDecimal(m);
    DecimalDigitsValid(m);
    DigitsValueOfDecimal(m);
    if n < 0 {
      assert IntToDecimal(n) == "-" + d;
      ParseNegatedDigits(d);
    } else {
      assert IntToDecimal(n) == d;
      ParseNatDigits(d);
    }
  }

  // ---------------------------------------------------------------------------
  // `str.lower` and `<` on strings

  /**
   * `s.lower()` on the ASCII letters. Other characters are left as they are,
   * which is exact wherever the result is only compared with ASCII words.
   */
  function AsciiLower(s: string): (r: string)
    ensures |r| == |s|
    ensures forall i :: 0 <= i < |s| ==> 'A' <= s[i] <= 'Z' ==> r[i] as int == s[i] as int + 32
    ensures forall i :: 0 <= i < |s| ==> !('A' <= s[i] <= 'Z') ==> r[i] == s[i]
    ensures forall i :: 0 <= i < |r| ==> !('A' <= r[i] <= 'Z')
  {
    if s == [] then []
    else [if 'A' <= s[0] <= 'Z' then (s[0] as int + 32) as char else s[0]] + AsciiLower(s[1..])
  }

  /** Python's `a < b` on strings: lexicographic by code point, a proper prefix first. */
  predicate LexLess(a: string, b: string) {
    if |a| == 0 then |b| > 0
    else if |b| == 0 then false
    else if a[0] != b[0] then a[0] < b[0]
    else LexLess(a[1..], b[1..])
  }

  lemma {:induction false} LexLessIrreflexive(a: string)
    ensures !LexLess(a, a)
  {
    if |a| > 0 { LexLessIrreflexive(a[1..]); }
  }

  lemma {:induction false} LexLessTransitive(a: string, b: string, c: string)
    requires LexLess(a, b) && LexLess(b, c)
    ensures LexLess(a, c)
  {
    if |a| > 0 && a[0] == b[0] && b[0] == c[0] {
      LexLessTransitive(a[1..], b[1..], c[1..]);
    }
  }

  lemma {:induction false} LexLessTotal(a: string, b: string)
    requires a != b
    ensures LexLess(a, b) || LexLess(b, a)
  {
    if |a| > 0 && |b| > 0 && a[0] == b[0] {
      assert a == [a[0]] + a[1..] && b == [b[0]] + b[1..];
      LexLessTotal(a[1..], b[1..]);
    }
  }
}
