/** Python's `str(n)` and `int(s)` for decimal integers: the first gives the key under which a
    user's notes are stored and the labels of rendered items, the second reads item numbers. */
module Numbers {

  datatype Option<T> = None | Some(value: T)

  predicate IsDigit(c: char)
  {
    '0' <= c <= '9'
  }

  function DigitValue(c: char): nat
    requires IsDigit(c)
  {
    c as int - '0' as int
  }

  function DigitChar(d: nat): (c: char)
    requires d < 10
    ensures IsDigit(c) && DigitValue(c) == d
  {
    (d + '0' as int) as char
  }

  /** The characters `int()` strips from both ends: the ASCII blanks space, tab, newline,
      vertical tab, form feed and carriage return, and the non-ASCII characters that
      `str.isspace` accepts. The ASCII separators U+001C..U+001F are not among them: `int()`
      rejects a number next to one. */
  predicate IsSpace(c: char)
  {
    || '\t' <= c <= '\r'
    || c == ' '
    || c == '\U{85}' || c == '\U{A0}' || c == '\U{1680}'
    || '\U{2000}' <= c <= '\U{200A}'
    || c == '\U{2028}' || c == '\U{2029}' || c == '\U{202F}' || c == '\U{205F}' || c == '\U{3000}'
  }

  // ---------------------------------------------------------------------------
  // str(n)

  /** The decimal digits of `n`, most significant first, without leading zeros. */
  function NatToString(n: nat): (s: string)
    ensures |s| > 0
    ensures forall i :: 0 <= i < |s| ==> IsDigit(s[i])
    ensures s[0] == '0' ==> n == 0
  {
    if n < 10 then [DigitChar(n)]
    else
      var high := NatToString(n / 10);
      assert (high + [DigitChar(n % 10)])[0] == high[0];
      high + [DigitChar(n % 10)]
  }

  /** `str(n)`: a minus sign before the digits of a negative number. Never empty; digits only,
      after the sign if there is one; no leading zero, and no "-0". */
  function IntToString(n: int): (r: string)
    ensures |r| > 0
    ensures n >= 0 ==> forall i :: 0 <= i < |r| ==> IsDigit(r[i])
    ensures n < 0 ==> r[0] == '-' && forall i :: 1 <= i < |r| ==> IsDigit(r[i])
    ensures r[0] == '0' ==> n == 0
  {
    if n < 0 then
      var digits := NatToString(-n);
      assert forall i :: 1 <= i < |"-" + digits| ==> ("-" + digits)[i] == digits[i - 1];
      "-" + digits
    else NatToString(n)
  }

  // ---------------------------------------------------------------------------
  // int(s)

  /** The value of a string of decimal digits. */
  function DigitsValue(ds: string): nat
    requires forall i :: 0 <= i < |ds| ==> IsDigit(ds[i])
  {
    if ds == [] then 0 else 10 * DigitsValue(ds[..|ds| - 1]) + DigitValue(ds[|ds| - 1])
  }

  /** What `int()` accepts in base 10 after stripping: digits, possibly with single
      underscores between two digits ("1_000"). */
  predicate IsDigitGroup(s: string)
  {
    && |s| > 0 && IsDigit(s[0]) && IsDigit(s[|s| - 1])
    && (forall i :: 0 <= i < |s| ==> IsDigit(s[i]) || s[i] == '_')
    && (forall i :: 0 <= i < |s| - 1 && s[i] == '_' ==> IsDigit(s[i + 1]))
  }

  function RemoveUnderscores(s: string): (r: string)
    ensures (forall i :: 0 <= i < |s| ==> IsDigit(s[i]) || s[i] == '_') ==> (forall j :: 0 <= j < |r| ==> IsDigit(r[j]))
  {
    if s == [] then "" else (if s[0] == '_' then "" else [s[0]]) + RemoveUnderscores(s[1..])
  }

  /** Leading blanks removed. */
  function TrimStart(s: string): string
  {
    if s != [] && IsSpace(s[0]) then TrimStart(s[1..]) else s
  }

  /** Trailing blanks removed. */
  function TrimEnd(s: string): string
  {
    if s != [] && IsSpace(s[|s| - 1]) then TrimEnd(s[..|s| - 1]) else s
  }

  /** What `TrimStart` leaves is a suffix of the string. */
  lemma {:induction false} TrimStartSuffix(s: string)
    ensures |TrimStart(s)| <= |s| && TrimStart(s) == s[|s| - |TrimStart(s)|..]
  {
    if s != [] && IsSpace(s[0]) {
      TrimStartSuffix(s[1..]);
    }
  }

  /** What `TrimEnd` leaves is a prefix of the string. */
  lemma {:induction false} TrimEndPrefix(s: string)
    ensures |TrimEnd(s)| <= |s| && TrimEnd(s) == s[..|TrimEnd(s)|]
  {
    if s != [] && IsSpace(s[|s| - 1]) {
      TrimEndPrefix(s[..|s| - 1]);
    }
  }

  /** `s.strip()` of the blanks `int()` ignores. */
  function Strip(s: string): string
  {
    TrimEnd(TrimStart(s))
  }

  /** CPython's default `sys.get_int_max_str_digits()`: `int()` refuses a decimal numeral with
      more digits than this (underscores, sign and blanks not counted). */
  const MaxStrDigits: nat := 4300

  /** An unsigned digit group of at most `MaxStrDigits` digits and its value; `None` for
      anything else. */
  function ParseUnsigned(body: string): Option<nat>
  {
    if IsDigitGroup(body) && |RemoveUnderscores(body)| <= MaxStrDigits then
      Some(DigitsValue(RemoveUnderscores(body)))
    else None
  }

  /** `int(s)` in base 10 under the default digit limit: `None` where Python raises
      ValueError. */
  function ParseInt(s: string): Option<int>
  {
    var t := Strip(s);
    if |t| > 0 && t[0] == '-' then
      match ParseUnsigned(t[1..])
      case None => None
      case Some(v) => Some(-(v as int))
    else if |t| > 0 && t[0] == '+' then
      match ParseUnsigned(t[1..])
      case None => None
      case Some(v) => Some(v as int)
    else
      match ParseUnsigned(t)
      case None => None
      case Some(v) => Some(v as int)
  }

  /** Only a string holding a digit parses, and only one holding a minus sign parses to a
      negative number: blanks, signs and underscores alone are rejected. */
  lemma ParseIntNeedsDigit(s: string)
    ensures ParseInt(s).Some? ==> exists i :: 0 <= i < |s| && IsDigit(s[i])
    ensures ParseInt(s).Some? && ParseInt(s).value < 0 ==> '-' in s
  {
    var u := TrimStart(s);
    var t := TrimEnd(u);
    var signed := |t| > 0 && (t[0] == '-' || t[0] == '+');
    var body := if signed then t[1..] else t;
    if ParseInt(s).Some? {
      assert IsDigitGroup(body);
      TrimStartSuffix(s);
      TrimEndPrefix(u);
      var start := |s| - |u|;
      assert t[0] == s[start];
      assert signed ==> t[1] == s[start + 1];
      assert IsDigit(s[if signed then start + 1 else start]);
    }
  }

  /** Blanks around a number are ignored, but an ASCII separator next to it is not a blank. */
  lemma ParseIntBlanks()
    ensures ParseInt(" 7\n") == Some(7)
    ensures ParseInt("\U{1C}7") == None
  {
    assert TrimStart(" 7\n") == "7\n";
    assert TrimEnd("7\n") == "7";
    assert ParseUnsigned("7") == Some(7);
    assert !IsSpace('\U{1C}');
    assert Strip("\U{1C}7") == "\U{1C}7";
    assert !IsDigitGroup("\U{1C}7");
  }

  // ---------------------------------------------------------------------------
  // int(str(n)) == n

  lemma {:induction false} DigitsValueOfNat(n: nat)
    ensures DigitsValue(NatToString(n)) == n
  {
    if n >= 10 {
      var s := NatToString(n);
      DigitsValueOfNat(n / 10);
      assert s[..|s| - 1] == NatToString(n / 10);
    }
  }

  lemma {:induction false} RemoveUnderscoresOfDigits(s: string)
    requires forall i :: 0 <= i < |s| ==> IsDigit(s[i])
    ensures RemoveUnderscores(s) == s
  {
    if s != [] {
      RemoveUnderscoresOfDigits(s[1..]);
      assert [s[0]] + s[1..] == s;
    }
  }

  lemma DigitNotSpace(c: char)
    requires IsDigit(c)
    ensures !IsSpace(c) && c != '-' && c != '+'
  {
  }

  /** A string of digits is a digit group. */
  lemma DigitsAreGroup(digits: string)
    requires |digits| > 0 && forall i :: 0 <= i < |digits| ==> IsDigit(digits[i])
    ensures IsDigitGroup(digits)
  {
  }

  /** A string of digits is its own unsigned value, unless it is over the digit limit. */
  lemma ParseUnsignedDigits(digits: string)
    requires |digits| > 0 && forall i :: 0 <= i < |digits| ==> IsDigit(digits[i])
    ensures ParseUnsigned(digits) == if |digits| <= MaxStrDigits then Some(DigitsValue(digits)) else None
  {
    DigitsAreGroup(digits);
    RemoveUnderscoresOfDigits(digits);
  }

  /** A string of digits parses to its value exactly when it has at most `MaxStrDigits` digits. */
  lemma ParseDigits(digits: string)
    requires |digits| > 0 && forall i :: 0 <= i < |digits| ==> IsDigit(digits[i])
    ensures ParseInt(digits) == if |digits| <= MaxStrDigits then Some(DigitsValue(digits) as int) else None
  {
    DigitNotSpace(digits[0]);
    DigitNotSpace(digits[|digits| - 1]);
    assert TrimStart(digits) == digits;
    assert Strip(digits) == digits;
    ParseUnsignedDigits(digits);
  }

  /** Nothing is stripped from a minus sign followed by digits. */
  lemma NegatedDigitsUnstripped(t: string)
    requires |t| > 1 && t[0] == '-' && forall i :: 1 <= i < |t| ==> IsDigit(t[i])
    ensures Strip(t) == t
  {
    assert !IsSpace('-');
    assert TrimStart(t) == t;
    DigitNotSpace(t[|t| - 1]);
  }

  /** A minus sign before a string of digits parses to the negated value, within the limit. */
  lemma ParseNegatedDigits(t: string)
    requires |t| > 1 && t[0] == '-' && forall i :: 1 <= i < |t| ==> IsDigit(t[i])
    ensures ParseInt(t) == if |t| - 1 <= MaxStrDigits then Some(-(DigitsValue(t[1..]) as int)) else None
  {
    NegatedDigitsUnstripped(t);
    ParseUnsignedDigits(t[1..]);
  }

  /** The number of decimal digits `str(n)` writes, the sign not counted. */
  function DigitCount(n: int): nat
  {
    |NatToString(if n < 0 then -n else n)|
  }

  /** A larger number never has fewer digits. */
  lemma {:induction false} DigitCountMonotone(a: nat, b: nat)
    requires a <= b
    ensures DigitCount(a) <= DigitCount(b)
  {
    if a >= 10 {
      DigitCountMonotone(a / 10, b / 10);
    }
  }

  lemma ParseNatString(n: nat)
    ensures ParseInt(NatToString(n)) == if DigitCount(n) <= MaxStrDigits then Some(n) else None
  {
    ParseDigits(NatToString(n));
    DigitsValueOfNat(n);
  }

  lemma ParseNegatedNatString(n: nat)
    ensures ParseInt("-" + NatToString(n)) == if DigitCount(n) <= MaxStrDigits then Some(-(n as int)) else None
  {
    var digits := NatToString(n);
    var t := "-" + digits;
    assert t[1..] == digits;
    assert forall i :: 1 <= i < |t| ==> t[i] == digits[i - 1];
    ParseNegatedDigits(t);
    DigitsValueOfNat(n);
  }

  /** `int(str(n)) == n` for every integer of at most `MaxStrDigits` digits; a longer numeral
      is refused. */
  lemma ParseIntOfString(n: int)
    ensures ParseInt(IntToString(n)) == if DigitCount(n) <= MaxStrDigits then Some(n) else None
  {
    if n < 0 {
      ParseNegatedNatString(-n);
    } else {
      ParseNatString(n);
    }
  }

  /** The digit limit is exact: the largest accepted numeral of nines parses, one more digit
      does not. */
  lemma ParseIntDigitLimit()
    ensures ParseInt(seq(MaxStrDigits, i => '9')).Some?
    ensures ParseInt(seq(MaxStrDigits + 1, i => '1')) == None
  {
    ParseDigits(seq(MaxStrDigits, i => '9'));
    ParseDigits(seq(MaxStrDigits + 1, i => '1'));
  }

  /** The label characters: `str(n)` holds only digits and a minus sign. */
  lemma IntToStringChars(n: int)
    ensures forall i :: 0 <= i < |IntToString(n)| ==> IsDigit(IntToString(n)[i]) || IntToString(n)[i] == '-'
  {
  }

  /** Different integers print differently, so different user ids get different keys. */
  lemma IntToStringInjective(a: int, b: int)
    requires IntToString(a) == IntToString(b)
    ensures a == b
  {
    if a < 0 && b < 0 {
      assert NatToString(-a) == IntToString(a)[1..] == IntToString(b)[1..] == NatToString(-b);
      DigitsValueOfNat(-a);
      DigitsValueOfNat(-b);
    } else if a >= 0 && b >= 0 {
      DigitsValueOfNat(a);
      DigitsValueOfNat(b);
    }
  }
}
