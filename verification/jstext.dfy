/**
  The few pieces of JavaScript string handling the topology code relies on:
  `String.prototype.startsWith`, `s.split(" ")[1]`, and the global `parseInt`
  with no radix argument.  `parseInt` answers NaN when it finds no digit; here
  that is `None`.
 */
module JsText {

  datatype Option<+T> = None | Some(value: T)

  predicate StartsWith(s: string, prefix: string) {
    |prefix| <= |s| && s[..|prefix|] == prefix
  }

  /** The StrWhiteSpaceChar set of ECMAScript: white space and line terminators. */
  predicate IsJsSpace(c: char) {
    || c == '\t' || c == '\U{B}' || c == '\U{C}' || c == ' ' || c == '\U{A0}' || c == '\U{FEFF}'
    || c == '\n' || c == '\r' || c == '\U{2028}' || c == '\U{2029}'
    || c == '\U{1680}' || ('\U{2000}' <= c <= '\U{200A}')
    || c == '\U{202F}' || c == '\U{205F}' || c == '\U{3000}'
  }

  predicate IsDecDigit(c: char) {
    '0' <= c <= '9'
  }

  predicate IsHexDigit(c: char) {
    IsDecDigit(c) || 'a' <= c <= 'f' || 'A' <= c <= 'F'
  }

  predicate IsDigitIn(c: char, hex: bool) {
    IsHexDigit(c) && (hex || IsDecDigit(c))
  }

  function DigitValue(c: char): (v: nat)
    requires IsHexDigit(c)
    ensures v < 16
    ensures IsDecDigit(c) <==> v < 10
  {
    if IsDecDigit(c) then c as int - '0' as int
    else if 'a' <= c <= 'f' then c as int - 'a' as int + 10
    else c as int - 'A' as int + 10
  }

  /** The characters `parseInt` skips before it looks for a sign. */
  function TrimStart(s: string): (r: string)
    ensures |r| <= |s| && r == s[|s| - |r|..]
    ensures forall i | 0 <= i < |s| - |r| :: IsJsSpace(s[i])
    ensures |r| == 0 || !IsJsSpace(r[0])
  {
    if |s| > 0 && IsJsSpace(s[0]) then TrimStart(s[1..]) else s
  }

  /** The longest prefix of `s` made of digits of the radix. */
  function LeadingDigits(s: string, hex: bool): (r: string)
    ensures |r| <= |s| && r == s[..|r|]
    ensures forall i | 0 <= i < |r| :: IsDigitIn(r[i], hex)
    ensures |r| == |s| || !IsDigitIn(s[|r|], hex)
  {
    if |s| > 0 && IsDigitIn(s[0], hex) then [s[0]] + LeadingDigits(s[1..], hex) else []
  }

  /** The number a digit string denotes, most significant digit first. */
  function DigitsValue(ds: string, hex: bool): nat
    requires forall i | 0 <= i < |ds| :: IsDigitIn(ds[i], hex)
  {
    if |ds| == 0 then 0
    else
      assert IsDigitIn(ds[|ds| - 1], hex);
      DigitsValue(ds[..|ds| - 1], hex) * (if hex then 16 else 10) + DigitValue(ds[|ds| - 1])
  }

  /**
    `parseInt(s)`: skip white space, take an optional sign, switch to base 16
    on a `0x`/`0X` prefix, then read the longest run of digits; no digit at
    all is NaN.  Anything after the digits is ignored.
   */
  function ParseInt(s: string): Option<int> {
    ParseSigned(TrimStart(s))
  }

  function ParseSigned(t: string): Option<int> {
    if |t| > 0 && t[0] == '-' then
      match ParseUnsigned(t[1..])
      case None => None
      case Some(v) => Some(-v)
    else if |t| > 0 && t[0] == '+' then ParseUnsigned(t[1..])
    else ParseUnsigned(t)
  }

  predicate HasHexPrefix(u: string) {
    |u| >= 2 && u[0] == '0' && (u[1] == 'x' || u[1] == 'X')
  }

  function ParseUnsigned(u: string): Option<int> {
    if HasHexPrefix(u) then ParseDigits(u[2..], true) else ParseDigits(u, false)
  }

  function ParseDigits(u: string, hex: bool): Option<int> {
    var ds := LeadingDigits(u, hex);
    if |ds| == 0 then None else Some(DigitsValue(ds, hex))
  }

  /** `s.split(" ")[1]`: the text between the first and second space, if there is a first space. */
  function SecondField(s: string): Option<string> {
    match AfterSpace(s)
    case None => None
    case Some(t) => Some(BeforeSpace(t))
  }

  function AfterSpace(s: string): (r: Option<string>)
    ensures r.None? <==> ' ' !in s
  {
    if |s| == 0 then None
    else if s[0] == ' ' then Some(s[1..])
    else AfterSpace(s[1..])
  }

  function BeforeSpace(s: string): (r: string)
    ensures |r| <= |s| && r == s[..|r|] && ' ' !in r
    ensures |r| == |s| || s[|r|] == ' '
  {
    if |s| == 0 || s[0] == ' ' then [] else [s[0]] + BeforeSpace(s[1..])
  }

  /** The canonical decimal numeral of `k`, as template literals and `String(k)` write it. */
  function DecimalString(k: nat): (r: string)
    ensures |r| > 0
    ensures forall i | 0 <= i < |r| :: IsDecDigit(r[i])
    ensures k > 0 ==> r[0] != '0'
  {
    var last := ['0' + (k % 10) as char];
    if k < 10 then last else DecimalString(k / 10) + last
  }

  lemma {:induction false} DecimalStringValue(k: nat)
    ensures DigitsValue(DecimalString(k), false) == k
  {
    var r := DecimalString(k);
    if k >= 10 {
      DecimalStringValue(k / 10);
      assert r[..|r| - 1] == DecimalString(k / 10);
    }
  }

  lemma {:induction false} LeadingDigitsStop(ds: string, rest: string, hex: bool)
    requires forall i | 0 <= i < |ds| :: IsDigitIn(ds[i], hex)
    requires |rest| == 0 || !IsDigitIn(rest[0], hex)
    ensures LeadingDigits(ds + rest, hex) == ds
  {
    if |ds| > 0 {
      LeadingDigitsStop(ds[1..], rest, hex);
      assert (ds + rest)[1..] == ds[1..] + rest;
    }
  }

  /**
    `parseInt` reads a canonical numeral back and stops at the first character
    that cannot continue it, so `parseInt(String(k) + rest) == k`.  The one
    exception is `"0"` followed by `x`, which switches to hexadecimal.
   */
  lemma ParseIntDecimalPrefix(k: nat, rest: string)
    requires |rest| == 0 || !IsDecDigit(rest[0])
    requires k == 0 && |rest| > 0 ==> rest[0] != 'x' && rest[0] != 'X'
    ensures ParseInt(DecimalString(k) + rest) == Some(k)
  {
    var s := DecimalString(k) + rest;
    ParseUnsignedDecimalPrefix(k, rest);
    assert s[0] == DecimalString(k)[0];
    assert !IsJsSpace(s[0]) && s[0] != '-' && s[0] != '+' by {
      assert IsDecDigit(s[0]);
    }
    assert ParseInt(s) == ParseUnsigned(s);
  }

  /** `parseInt("")` is NaN. */
  lemma ParseIntEmpty()
    ensures ParseInt("") == None
  {
  }

  /** A minus sign in front negates what follows. */
  lemma ParseIntNegative(k: nat, rest: string)
    requires |rest| == 0 || !IsDecDigit(rest[0])
    requires k == 0 && |rest| > 0 ==> rest[0] != 'x' && rest[0] != 'X'
    ensures ParseInt("-" + DecimalString(k) + rest) == Some(-(k as int))
  {
    ParseUnsignedDecimalPrefix(k, rest);
    NegatedParse(DecimalString(k) + rest, k);
    assert "-" + DecimalString(k) + rest == "-" + (DecimalString(k) + rest);
  }

  lemma NegatedParse(s: string, v: nat)
    requires ParseUnsigned(s) == Some(v)
    ensures ParseInt("-" + s) == Some(-(v as int))
  {
    var n := "-" + s;
    assert n[0] == '-' && n[1..] == s;
    assert !IsJsSpace(n[0]);
    assert TrimStart(n) == n;
  }

  /** Without a sign or white space, the digits are read as far as they go. */
  lemma ParseUnsignedDecimalPrefix(k: nat, rest: string)
    requires |rest| == 0 || !IsDecDigit(rest[0])
    requires k == 0 && |rest| > 0 ==> rest[0] != 'x' && rest[0] != 'X'
    ensures ParseUnsigned(DecimalString(k) + rest) == Some(k)
  {
    var ds := DecimalString(k);
    var s := ds + rest;
    assert !HasHexPrefix(s) by {
      assert s[0] == ds[0];
      if k == 0 {
        assert ds == "0";
        assert |s| < 2 || s[1] == rest[0];
      }
    }
    LeadingDigitsStop(ds, rest, false);
    DecimalStringValue(k);
  }

  lemma ParseIntDecimal(k: nat)
    ensures ParseInt(DecimalString(k)) == Some(k)
  {
    ParseIntDecimalPrefix(k, "");
    assert DecimalString(k) + "" == DecimalString(k);
  }

  /** `"P " + t` splits to `t` as its second field whenever neither part holds a space. */
  lemma {:induction false} SecondFieldOfJoin(p: string, t: string)
    requires ' ' !in p && ' ' !in t
    ensures SecondField(p + " " + t) == Some(t)
  {
    if |p| == 0 {
      assert (p + " " + t)[1..] == t;
      BeforeSpaceAll(t);
    } else {
      assert (p + " " + t)[1..] == p[1..] + " " + t;
      SecondFieldOfJoin(p[1..], t);
    }
  }

  lemma {:induction false} BeforeSpaceAll(t: string)
    requires ' ' !in t
    ensures BeforeSpace(t) == t
  {
    if |t| > 0 {
      assert t[1..] == t[1..];
      assert ' ' !in t[1..] by {
        forall i | 0 <= i < |t[1..]| ensures t[1..][i] != ' ' {
          assert t[1..][i] == t[i + 1];
        }
      }
      BeforeSpaceAll(t[1..]);
    }
  }
}
