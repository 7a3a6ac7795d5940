/** The JavaScript string operations the storefront relies on: `trim`,
    `toLowerCase`, `startsWith`, `endsWith`, `includes`, `String(n)` for
    integers and `parseInt(s, 10)`.
 */
module Text {
  import opened Wrappers

  type String = seq<char>

  /** ECMAScript WhiteSpace and LineTerminator code points: the characters
      `String.prototype.trim` removes. */
  predicate IsSpace(c: char) {
    var k := c as int;
    k == 0x09 || k == 0x0A || k == 0x0B || k == 0x0C || k == 0x0D || k == 0x20
    || k == 0xA0 || k == 0x1680 || (0x2000 <= k <= 0x200A) || k == 0x2028 || k == 0x2029
    || k == 0x202F || k == 0x205F || k == 0x3000 || k == 0xFEFF
  }

  /** A string that `trim` turns into the empty string. */
  predicate IsBlank(s: String) {
    forall i :: 0 <= i < |s| ==> IsSpace(s[i])
  }

  /** The number of white-space characters `s` starts with. */
  function LeadingSpaces(s: String): (k: nat)
    ensures k <= |s|
    ensures forall i :: 0 <= i < k ==> IsSpace(s[i])
    ensures k == |s| || !IsSpace(s[k])
  {
    if |s| > 0 && IsSpace(s[0]) then 1 + LeadingSpaces(s[1..]) else 0
  }

  /** The number of white-space characters `s` ends with. */
  function TrailingSpaces(s: String): (k: nat)
    ensures k <= |s|
    ensures forall i :: |s| - k <= i < |s| ==> IsSpace(s[i])
    ensures k == |s| || !IsSpace(s[|s| - k - 1])
  {
    if |s| > 0 && IsSpace(s[|s| - 1]) then 1 + TrailingSpaces(s[..|s| - 1]) else 0
  }

  /** `s.trimStart()`, the first step of `parseInt`. */
  function TrimStart(s: String): (r: String)
    ensures |r| == 0 || !IsSpace(r[0])
  {
    s[LeadingSpaces(s)..]
  }

  /** `s.trim()`: the piece of `s` between its leading and its trailing white
      space, itself neither starting nor ending with white space; it is empty
      exactly when `s` is blank. */
  function Trim(s: String): (r: String)
    ensures r == [] <==> IsBlank(s)
    ensures |r| == 0 || (!IsSpace(r[0]) && !IsSpace(r[|r| - 1]))
    ensures LeadingSpaces(s) + |r| <= |s|
    ensures r == s[LeadingSpaces(s)..LeadingSpaces(s) + |r|]
    ensures IsBlank(s[..LeadingSpaces(s)]) && IsBlank(s[LeadingSpaces(s) + |r|..])
  {
    var a := LeadingSpaces(s);
    if a == |s| then [] else s[a..|s| - TrailingSpaces(s)]
  }

  predicate IsUpper(c: char) { 'A' <= c <= 'Z' }

  function LowerChar(c: char): char {
    if IsUpper(c) then (c as int + 32) as char else c
  }

  /** `s.toLowerCase()` restricted to the ASCII letters A-Z. */
  function ToLower(s: String): (r: String)
    ensures |r| == |s|
    ensures forall i :: 0 <= i < |s| ==> r[i] == LowerChar(s[i])
  {
    seq(|s|, i requires 0 <= i < |s| => LowerChar(s[i]))
  }

  /** Lower-casing changes no length, leaves no upper-case letter behind and
      is idempotent. */
  lemma ToLowerIdempotent(s: String)
    ensures forall i :: 0 <= i < |s| ==> !IsUpper(ToLower(s)[i])
    ensures ToLower(ToLower(s)) == ToLower(s)
  {
  }

  predicate StartsWith(s: String, prefix: String) {
    |prefix| <= |s| && s[..|prefix|] == prefix
  }

  /** A text built as `pre + mid + rest` starts with `pre`, and what
      follows it is `mid + rest`. */
  lemma AfterPrefix(pre: String, mid: String, rest: String)
    ensures StartsWith(pre + mid + rest, pre)
    ensures (pre + mid + rest)[|pre|..] == mid + rest
  {
  }

  predicate EndsWith(s: String, suffix: String) {
    |suffix| <= |s| && s[|s| - |suffix|..] == suffix
  }

  predicate OccursAt(hay: String, needle: String, i: int) {
    0 <= i && i + |needle| <= |hay| && hay[i..i + |needle|] == needle
  }

  /** `hay.includes(needle)`: `needle` occurs at some position of `hay`. */
  predicate Contains(hay: String, needle: String) {
    exists i :: 0 <= i <= |hay| - |needle| && OccursAt(hay, needle, i)
  }

  predicate IsDigit(c: char) { '0' <= c <= '9' }

  function DigitChar(d: nat): char
    requires d < 10
  {
    ('0' as int + d) as char
  }

  function DigitValue(c: char): nat
    requires IsDigit(c)
  {
    c as int - '0' as int
  }

  /** The value of a run of decimal digits, most significant first. */
  function DigitsValue(ds: String): nat
    requires forall i :: 0 <= i < |ds| ==> IsDigit(ds[i])
  {
    if |ds| == 0 then 0 else DigitsValue(ds[..|ds| - 1]) * 10 + DigitValue(ds[|ds| - 1])
  }

  /** Decimal rendering of a natural number without leading zeros. */
  function NatToString(n: nat): (r: String)
    ensures |r| >= 1
    ensures forall i :: 0 <= i < |r| ==> IsDigit(r[i])
    ensures |r| > 1 ==> r[0] != '0'
    ensures DigitsValue(r) == n
  {
    if n < 10 then [DigitChar(n)]
    else
      var r := NatToString(n / 10) + [DigitChar(n % 10)];
      assert r[..|r| - 1] == NatToString(n / 10);
      r
  }

  /** `String(n)` for an integer `n`. */
  function IntToString(n: int): String {
    if n < 0 then "-" + NatToString(-n) else NatToString(n)
  }

  /** The longest prefix of `s` made of decimal digits. */
  function LeadingDigits(s: String): (r: String)
    ensures |r| <= |s| && r == s[..|r|]
    ensures forall i :: 0 <= i < |r| ==> IsDigit(s[i])
    ensures |r| == |s| || !IsDigit(s[|r|])
  {
    if |s| > 0 && IsDigit(s[0]) then [s[0]] + LeadingDigits(s[1..]) else []
  }

  /** `parseInt(s, 10)`: leading white space skipped, an optional sign, then
      the longest run of digits; `None` stands for `NaN` (no digit at all). */
  function ParseInt(s: String): Option<int> {
    ParseSigned(TrimStart(s))
  }

  /** The sign and digits part of `parseInt`, after the white space. */
  function ParseSigned(t: String): Option<int> {
    if |t| > 0 && t[0] == '-' then
      match Magnitude(t[1..])
      case None => None
      case Some(v) => Some(-(v as int))
    else if |t| > 0 && t[0] == '+' then Magnitude(t[1..])
    else Magnitude(t)
  }

  /** The value of the digits `s` starts with; `None` without one. */
  function Magnitude(s: String): (r: Option<nat>)
    ensures r.None? <==> |s| == 0 || !IsDigit(s[0])
  {
    var ds := LeadingDigits(s);
    if |ds| == 0 then None else Some(DigitsValue(ds))
  }

  /** `parseInt` reads back exactly the integer that `String` wrote, also
      when other text not starting with a digit follows it. */
  lemma ParseIntOfIntToString(n: int, rest: String)
    requires |rest| == 0 || !IsDigit(rest[0])
    ensures ParseInt(IntToString(n) + rest) == Some(n)
  {
    if n < 0 {
      ParseNegative(n, rest);
    } else {
      ParseNonNegative(n, rest);
    }
  }

  lemma ParseNegative(n: int, rest: String)
    requires n < 0
    requires |rest| == 0 || !IsDigit(rest[0])
    ensures ParseInt(IntToString(n) + rest) == Some(n)
  {
    NatMagnitude(-n, rest);
    Negated(NatToString(-n), rest, -n);
  }

  lemma ParseNonNegative(m: nat, rest: String)
    requires |rest| == 0 || !IsDigit(rest[0])
    ensures ParseInt(IntToString(m) + rest) == Some(m)
  {
    var s := IntToString(m) + rest;
    NatMagnitude(m, rest);
    Unsigned(s);
    NoLeadingSpace(s);
  }

  /** Text starting with a sign or a digit has no white space to skip. */
  lemma NoLeadingSpace(s: String)
    requires |s| > 0 && (s[0] == '-' || IsDigit(s[0]))
    ensures ParseInt(s) == ParseSigned(s)
  {
    assert LeadingSpaces(s) == 0;
  }

  /** The digits `String` writes for `m`, followed by anything but a digit,
      read as `m`. */
  lemma NatMagnitude(m: nat, rest: String)
    requires |rest| == 0 || !IsDigit(rest[0])
    ensures (NatToString(m) + rest)[0] == NatToString(m)[0]
    ensures Magnitude(NatToString(m) + rest) == Some(m)
  {
    LeadingDigitsStop(NatToString(m), rest);
  }

  /** Without a sign, the digits in front give the value. */
  lemma Unsigned(body: String)
    requires |body| > 0 && IsDigit(body[0])
    ensures ParseSigned(body) == Magnitude(body)
  {
  }

  /** A leading minus sign negates the magnitude that follows it. */
  lemma Negated(digits: String, rest: String, v: int)
    requires Magnitude(digits + rest) == Some(v)
    ensures ParseInt("-" + digits + rest) == Some(-v)
  {
    var s := "-" + digits + rest;
    assert s[1..] == digits + rest;
    NoLeadingSpace(s);
  }

  lemma {:induction false} LeadingDigitsStop(s: String, rest: String)
    requires forall i :: 0 <= i < |s| ==> IsDigit(s[i])
    requires |rest| == 0 || !IsDigit(rest[0])
    ensures LeadingDigits(s + rest) == s
    decreases |s|
  {
    if |s| > 0 {
      LeadingDigitsStop(s[1..], rest);
      assert (s + rest)[1..] == s[1..] + rest;
    } else {
      assert s + rest == rest;
    }
  }
}
