/** The JavaScript values a JSON request body can carry, and the coercions the
    validators apply to them: truthiness, String(v), parseInt and Number(v).
    A JSON number in a body is an integer here; Number(v) on a string also
    reads decimal fractions, so its result is a real. */
module JsValue {
  import opened Wrappers
  import opened Text

  datatype Value =
    | Undefined
    | Null
    | Bool(b: bool)
    | Num(n: int)
    | Str(s: string)
    | Arr(items: seq<Value>)
    | Obj

  /** The falsy values are undefined, null, false, 0 and the empty string. */
  predicate Truthy(v: Value) {
    match v
    case Undefined => false
    case Null => false
    case Bool(b) => b
    case Num(n) => n != 0
    case Str(s) => s != ""
    case Arr(_) => true
    case Obj => true
  }

  /** WhiteSpace and LineTerminator code points: what String.prototype.trim
      strips, what parseInt skips and what `\s` matches in a regular expression. */
  predicate IsJsSpace(c: char) {
    || c == '\t' || c == '\n' || c == '\U{000B}' || c == '\U{000C}' || c == '\r' || c == ' '
    || c == '\U{00A0}' || c == '\U{1680}' || ('\U{2000}' <= c <= '\U{200A}')
    || c == '\U{2028}' || c == '\U{2029}' || c == '\U{202F}' || c == '\U{205F}'
    || c == '\U{3000}' || c == '\U{FEFF}'
  }

  predicate IsBlank(s: string) {
    forall i :: 0 <= i < |s| ==> IsJsSpace(s[i])
  }

  function TrimStart(s: string): (r: string)
    ensures |r| <= |s| && r == s[|s| - |r|..]
    ensures |r| > 0 ==> !IsJsSpace(r[0])
    ensures IsBlank(s[..|s| - |r|])
  {
    if |s| > 0 && IsJsSpace(s[0]) then
      var r := TrimStart(s[1..]);
      assert s[..|s| - |r|] == [s[0]] + s[1..][..|s[1..]| - |r|];
      r
    else s
  }

  function TrimEnd(s: string): (r: string)
    ensures |r| <= |s| && r == s[..|r|]
    ensures |r| > 0 ==> !IsJsSpace(r[|r| - 1])
    ensures IsBlank(s[|r|..])
  {
    if |s| > 0 && IsJsSpace(s[|s| - 1]) then
      var r := TrimEnd(s[..|s| - 1]);
      assert s[|r|..] == s[..|s| - 1][|r|..] + [s[|s| - 1]];
      r
    else s
  }

  /** String.prototype.trim */
  function Trim(s: string): string {
    TrimEnd(TrimStart(s))
  }

  /** A string trims to nothing exactly when all its characters are white space. */
  lemma TrimEmptyIffBlank(s: string)
    ensures Trim(s) == "" <==> IsBlank(s)
  {
    var t := TrimStart(s);
    if Trim(s) == "" {
      assert IsBlank(t[0..]);
      assert t == "";
      assert s[..|s|] == s;
    } else {
      var k := |Trim(s)| - 1;
      assert t[k] == Trim(s)[k];
      assert t[k] == s[|s| - |t| + k];
    }
  }

  /** String(v), as the regular expression test and parseInt apply it. */
  function ToStr(v: Value): string
    decreases v
  {
    match v
    case Undefined => "undefined"
    case Null => "null"
    case Bool(b) => if b then "true" else "false"
    case Num(n) => IntToString(n)
    case Str(s) => s
    case Arr(items) => JoinItems(items)
    case Obj => "[object Object]"
  }

  /** Array.prototype.join with ',' — null and undefined elements become "". */
  function JoinItems(items: seq<Value>): string
    decreases items
  {
    if |items| == 0 then ""
    else
      var head := if items[0].Null? || items[0].Undefined? then "" else ToStr(items[0]);
      if |items| == 1 then head else head + "," + JoinItems(items[1..])
  }

  /** The value of a digit character in bases up to 36, either case. */
  function DigitValue(c: char): (d: Option<nat>)
    ensures d.Some? ==> d.value < 36
  {
    if '0' <= c <= '9' then Some(c as int - '0' as int)
    else if 'a' <= c <= 'z' then Some(c as int - 'a' as int + 10)
    else if 'A' <= c <= 'Z' then Some(c as int - 'A' as int + 10)
    else None
  }

  predicate IsDigitIn(c: char, base: nat) {
    DigitValue(c).Some? && DigitValue(c).value < base
  }

  /** The longest prefix of s made of digits of the base. */
  function DigitPrefix(s: string, base: nat): (r: string)
    ensures |r| <= |s| && r == s[..|r|]
    ensures forall i :: 0 <= i < |r| ==> IsDigitIn(r[i], base)
    ensures |r| < |s| ==> !IsDigitIn(s[|r|], base)
  {
    if |s| > 0 && IsDigitIn(s[0], base) then [s[0]] + DigitPrefix(s[1..], base) else ""
  }

  /** The number a digit string denotes in the base. */
  function DigitsValue(ds: string, base: nat): nat
    requires forall i :: 0 <= i < |ds| ==> IsDigitIn(ds[i], base)
  {
    if |ds| == 0 then 0
    else
      var last := ds[|ds| - 1];
      assert IsDigitIn(last, base);
      DigitsValue(ds[..|ds| - 1], base) * base + DigitValue(last).value
  }

  /** The number the longest run of leading digits denotes; None when
      there is none. */
  function LeadingNumber(s: string, base: nat): (r: Option<nat>)
    ensures r.None? <==> |s| == 0 || !IsDigitIn(s[0], base)
  {
    var digits := DigitPrefix(s, base);
    if |digits| == 0 then None else Some(DigitsValue(digits, base))
  }

  /** parseInt after the sign: a 0x or 0X prefix selects base 16. */
  function ParseUnsigned(body: string): Option<nat> {
    if |body| >= 2 && body[0] == '0' && (body[1] == 'x' || body[1] == 'X')
    then LeadingNumber(body[2..], 16)
    else LeadingNumber(body, 10)
  }

  /** parseInt(s) with no radix: leading white space is skipped, then an
      optional sign, then ParseUnsigned; None is NaN. */
  function ParseInt(s: string): Option<int>
  {
    var t := TrimStart(s);
    if |t| > 0 && t[0] == '-' then
      match ParseUnsigned(t[1..])
      case None => None
      case Some(m) => Some(0 - m)
    else if |t| > 0 && t[0] == '+' then
      match ParseUnsigned(t[1..])
      case None => None
      case Some(m) => Some(m)
    else
      match ParseUnsigned(t)
      case None => None
      case Some(m) => Some(m)
  }

  lemma {:induction false} DigitPrefixOfDigits(s: string)
    requires forall i :: 0 <= i < |s| ==> IsDecimalDigit(s[i])
    ensures DigitPrefix(s, 10) == s
  {
    if |s| > 0 {
      DigitPrefixOfDigits(s[1..]);
    }
  }

  lemma {:induction false} DigitsValueOfNat(n: nat)
    ensures forall i :: 0 <= i < |NatToString(n)| ==> IsDigitIn(NatToString(n)[i], 10)
    ensures DigitsValue(NatToString(n), 10) == n
    decreases n
  {
    var s := NatToString(n);
    if n >= 10 {
      DigitsValueOfNat(n / 10);
      assert s[..|s| - 1] == NatToString(n / 10);
    }
  }

  /** parseInt reads back every integer that String renders: the round trip
      through the decimal text is the identity. */
  lemma ParseIntOfString(n: int)
    ensures ParseInt(IntToString(n)) == Some(n)
  {
    var m: nat := if n < 0 then -n else n;
    ParseIntOfDigits(m);
    if n < 0 {
      ParseIntOfNegative(NatToString(m), m);
    } else {
      ParseIntOfUnsigned(NatToString(m), m);
    }
  }

  /** A digit string without a sign parses as ParseUnsigned reads it. */
  lemma ParseIntOfUnsigned(digits: string, m: nat)
    requires |digits| > 0 && IsDecimalDigit(digits[0])
    requires ParseUnsigned(digits) == Some(m)
    ensures ParseInt(digits) == Some(m)
  {
    assert !IsJsSpace(digits[0]);
    assert TrimStart(digits) == digits;
  }

  /** A minus sign in front of a digit string negates what it reads. */
  lemma ParseIntOfNegative(digits: string, m: nat)
    requires |digits| > 0 && IsDecimalDigit(digits[0])
    requires ParseUnsigned(digits) == Some(m)
    ensures ParseInt("-" + digits) == Some(0 - m)
  {
    var s := "-" + digits;
    assert TrimStart(s) == s;
    assert s[1..] == digits;
  }

  /** The decimal digits of m, read by parseInt as a body without sign. */
  lemma ParseIntOfDigits(m: nat)
    ensures ParseUnsigned(NatToString(m)) == Some(m)
  {
    var body := NatToString(m);
    DigitsValueOfNat(m);
    DigitPrefixOfDigits(body);
    assert IsDecimalDigit(body[0]);
    if |body| >= 2 {
      assert IsDecimalDigit(body[1]);
    }
  }

  /** parseInt(v), by the kind of v: a number reads back as itself, a string
      or an array is parsed as text, and undefined, null, true, false and an
      object have no leading digits. */
  function ParseIntValue(v: Value): Option<int> {
    match v
    case Num(n) => Some(n)
    case Str(s) => ParseInt(s)
    case Arr(items) => ParseInt(JoinItems(items))
    case _ => None
  }

  /** parseInt gives NaN on text that starts with anything but white space,
      a sign or a decimal digit. */
  lemma ParseIntOfWord(s: string)
    requires |s| > 0 && !IsJsSpace(s[0]) && !IsDigitIn(s[0], 10) && s[0] != '-' && s[0] != '+'
    ensures ParseInt(s).None?
  {
    assert TrimStart(s) == s;
  }

  /** The case split agrees with parseInt applied to String(v). */
  lemma ParseIntValueIsParseIntOfString(v: Value)
    ensures ParseIntValue(v) == ParseInt(ToStr(v))
  {
    match v
    case Undefined => ParseIntOfWord("undefined");
    case Null => ParseIntOfWord("null");
    case Bool(b) => ParseIntOfWord(if b then "true" else "false");
    case Num(n) => ParseIntOfString(n);
    case Str(_) =>
    case Arr(_) =>
    case Obj => ParseIntOfWord("[object Object]");
  }

  predicate AllDigitsIn(s: string, base: nat) {
    |s| > 0 && forall i :: 0 <= i < |s| ==> IsDigitIn(s[i], base)
  }

  function Pow10(n: nat): (p: nat)
    ensures p >= 1
  {
    if n == 0 then 1 else 10 * Pow10(n - 1)
  }

  /** An unsigned decimal literal: digits, optionally a '.' and more digits,
      with at least one digit in all. */
  function UnsignedDecimal(t: string): Option<real>
  {
    var whole := DigitPrefix(t, 10);
    var rest := t[|whole|..];
    if rest == "" then (if |whole| > 0 then Some(DigitsValue(whole, 10) as real) else None)
    else if rest[0] != '.' then None
    else
      var frac := DigitPrefix(rest[1..], 10);
      if |frac| == |rest| - 1 && |whole| + |frac| > 0
      then Some(DigitsValue(whole, 10) as real + DigitsValue(frac, 10) as real / Pow10(|frac|) as real)
      else None
  }

  /** Number(s) on a string: surrounding white space is ignored, "" is 0,
      a decimal literal with an optional sign, or an unsigned 0x/0o/0b
      integer; anything else is NaN (None). */
  function StringToNumber(s: string): Option<real>
  {
    var t := Trim(s);
    if t == "" then Some(0.0)
    else if |t| > 2 && t[0] == '0' && (t[1] == 'x' || t[1] == 'X') && AllDigitsIn(t[2..], 16) then Some(DigitsValue(t[2..], 16) as real)
    else if |t| > 2 && t[0] == '0' && (t[1] == 'o' || t[1] == 'O') && AllDigitsIn(t[2..], 8) then Some(DigitsValue(t[2..], 8) as real)
    else if |t| > 2 && t[0] == '0' && (t[1] == 'b' || t[1] == 'B') && AllDigitsIn(t[2..], 2) then Some(DigitsValue(t[2..], 2) as real)
    else if t[0] == '-' then (match UnsignedDecimal(t[1..]) case Some(x) => Some(-x) case None => None)
    else if t[0] == '+' then UnsignedDecimal(t[1..])
    else UnsignedDecimal(t)
  }

  /** Number(v), as a relational comparison with a number applies it. */
  function ToNumber(v: Value): Option<real> {
    match v
    case Undefined => None
    case Null => Some(0.0)
    case Bool(b) => Some(if b then 1.0 else 0.0)
    case Num(n) => Some(n as real)
    case Str(s) => StringToNumber(s)
    case Arr(_) => StringToNumber(ToStr(v))
    case Obj => None
  }

  /** v > bound; a comparison with NaN is false. */
  predicate GreaterThan(v: Value, bound: int) {
    ToNumber(v).Some? && ToNumber(v).value > bound as real
  }
}
