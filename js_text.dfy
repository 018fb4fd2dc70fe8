/**
 * The pieces of the ECMAScript standard library that the game's string handling
 * relies on: the white-space set shared by String.prototype.trim and parseInt,
 * trimming, and parseInt(string, 10) (section 19.2.5 of ECMA-262).
 * A JavaScript NaN result is `None`.
 */
module JsText {
  import opened Wrappers

  /** WhiteSpace (section 12.2) and LineTerminator (section 12.3) code points of ECMA-262. */
  predicate IsWhiteSpace(c: char) {
    || c == '\t' || c == '\U{000B}' || c == '\U{000C}' || c == ' ' || c == '\U{00A0}' || c == '\U{FEFF}'
    || c == '\U{1680}' || ('\U{2000}' <= c <= '\U{200A}') || c == '\U{202F}' || c == '\U{205F}' || c == '\U{3000}'
    || c == '\n' || c == '\r' || c == '\U{2028}' || c == '\U{2029}'
  }

  predicate IsDigit(c: char) {
    '0' <= c <= '9'
  }

  predicate AllDigits(s: string) {
    forall i :: 0 <= i < |s| ==> IsDigit(s[i])
  }

  predicate AllWhiteSpace(s: string) {
    forall i :: 0 <= i < |s| ==> IsWhiteSpace(s[i])
  }

  lemma WhiteSpaceBeforeTail(s: string, n: nat)
    requires 1 <= n <= |s| && IsWhiteSpace(s[0]) && AllWhiteSpace(s[1..][..n - 1])
    ensures AllWhiteSpace(s[..n])
    ensures n < |s| ==> s[1..][n - 1] == s[n]
  {
    assert forall k :: 1 <= k < n ==> s[..n][k] == s[1..][..n - 1][k - 1];
  }

  /** The number of white-space characters `s` starts with. */
  function LeadingSpaces(s: string): (n: nat)
    ensures n <= |s| && AllWhiteSpace(s[..n])
    ensures n == |s| || !IsWhiteSpace(s[n])
  {
    if s != [] && IsWhiteSpace(s[0]) then
      var m := LeadingSpaces(s[1..]);
      WhiteSpaceBeforeTail(s, m + 1);
      m + 1
    else 0
  }

  lemma WhiteSpaceAfterInit(s: string, n: nat)
    requires n < |s| && IsWhiteSpace(s[|s| - 1]) && AllWhiteSpace(s[..|s| - 1][n..])
    ensures AllWhiteSpace(s[n..]) && s[..|s| - 1][..n] == s[..n]
  {
    assert forall k :: 0 <= k < |s| - 1 - n ==> s[n..][k] == s[..|s| - 1][n..][k];
  }

  /** Drops the leading white space: the result is a suffix of `s` and what was dropped is white space. */
  function TrimStart(s: string): (r: string)
    ensures |r| <= |s| && r == s[|s| - |r|..]
    ensures AllWhiteSpace(s[..|s| - |r|])
    ensures r != [] ==> !IsWhiteSpace(r[0])
  {
    s[LeadingSpaces(s)..]
  }

  /** Drops the trailing white space: the result is a prefix of `s` and what was dropped is white space. */
  function TrimEnd(s: string): (r: string)
    ensures |r| <= |s| && r == s[..|r|]
    ensures AllWhiteSpace(s[|r|..])
    ensures r != [] ==> !IsWhiteSpace(r[|r| - 1])
  {
    if s != [] && IsWhiteSpace(s[|s| - 1]) then
      var r := TrimEnd(s[..|s| - 1]);
      WhiteSpaceAfterInit(s, |r|);
      r
    else s
  }

  /** String.prototype.trim. */
  function Trim(s: string): string {
    TrimEnd(TrimStart(s))
  }

  /** Trimming keeps a contiguous slice of the input and removes only white space on either side of it. */
  lemma TrimIsWhiteSpaceFreeSlice(s: string)
    ensures exists i, j ::
      0 <= i <= j <= |s| && Trim(s) == s[i..j] && AllWhiteSpace(s[..i]) && AllWhiteSpace(s[j..])
  {
    var t := TrimStart(s);
    var e := TrimEnd(t);
    var i := |s| - |t|;
    SliceOfSuffix(s, i, |e|);
    assert Trim(s) == s[i..i + |e|] && AllWhiteSpace(s[..i]) && AllWhiteSpace(s[i + |e|..]);
  }

  /** The trimmed text neither starts nor ends with white space. */
  lemma TrimLeavesNoEdgeSpace(s: string)
    ensures Trim(s) != [] ==> !IsWhiteSpace(Trim(s)[0]) && !IsWhiteSpace(Trim(s)[|Trim(s)| - 1])
  {
    var t := TrimStart(s);
    var e := TrimEnd(t);
    if e != [] {
      assert e[0] == t[0];
    }
  }

  /** A prefix of the suffix from `i` is a slice, and what follows it is the suffix from `i + n`. */
  lemma SliceOfSuffix(s: string, i: nat, n: nat)
    requires i + n <= |s|
    ensures s[i..][..n] == s[i..i + n] && s[i..][n..] == s[i + n..]
  {
  }

  /** The longest prefix of `s` made of decimal digits. */
  function DigitPrefix(s: string): (r: string)
    ensures |r| <= |s| && r == s[..|r|] && AllDigits(r)
    ensures |r| == |s| || !IsDigit(s[|r|])
  {
    if s != [] && IsDigit(s[0]) then
      var tail := DigitPrefix(s[1..]);
      assert s[1..][..|tail|] == s[1..|tail| + 1];
      [s[0]] + tail
    else []
  }

  /** The number a string of decimal digits denotes, most significant digit first. */
  function DigitsValue(ds: string): (n: nat)
    requires AllDigits(ds)
  {
    if ds == [] then 0 else DigitsValue(ds[..|ds| - 1]) * 10 + (ds[|ds| - 1] as int - '0' as int)
  }

  /** The value of the longest leading run of decimal digits; None (NaN) when there is none. */
  function ParseDigits(body: string): (r: Option<nat>)
    ensures r.Some? <==> body != [] && IsDigit(body[0])
  {
    var ds := DigitPrefix(body);
    if ds == [] then None else Some(DigitsValue(ds))
  }

  /**
   * parseInt(s, 10): skip leading white space, take an optional sign, then the
   * longest run of decimal digits; no digits gives NaN. The result -0 of "-0" is
   * modelled as 0; magnitudes are unbounded integers (no rounding to a double).
   */
  function ParseInt(s: string): Option<int> {
    ParseSigned(TrimStart(s))
  }

  /** parseInt after the white space: an optional sign, then the digits. */
  function ParseSigned(t: string): Option<int> {
    if t != [] && t[0] == '-' then
      match ParseDigits(t[1..])
      case None => None
      case Some(m) => Some(-(m as int))
    else if t != [] && t[0] == '+' then
      match ParseDigits(t[1..])
      case None => None
      case Some(m) => Some(m as int)
    else
      match ParseDigits(t)
      case None => None
      case Some(m) => Some(m as int)
  }

  function DigitChar(d: nat): (c: char)
    requires d < 10
    ensures IsDigit(c) && c as int - '0' as int == d
  {
    ('0' as int + d) as char
  }

  /** The canonical decimal text of a natural number (Number.prototype.toString). */
  function Decimal(n: nat): (s: string)
    decreases n
  {
    if n < 10 then [DigitChar(n)] else Decimal(n / 10) + [DigitChar(n % 10)]
  }

  lemma {:induction false} DecimalDigits(n: nat)
    ensures Decimal(n) != [] && AllDigits(Decimal(n)) && DigitsValue(Decimal(n)) == n
    decreases n
  {
    if n >= 10 {
      DecimalDigits(n / 10);
      var s := Decimal(n);
      assert s[..|s| - 1] == Decimal(n / 10);
    }
  }

  lemma {:induction false} DigitPrefixOfDigits(ds: string, rest: string)
    requires AllDigits(ds)
    requires rest == [] || !IsDigit(rest[0])
    ensures DigitPrefix(ds + rest) == ds
    decreases |ds|
  {
    if ds != [] {
      assert (ds + rest)[1..] == ds[1..] + rest;
      DigitPrefixOfDigits(ds[1..], rest);
    }
  }

  /** The digits of `n` followed by non-digit text are read back as `n`. */
  lemma ParseDigitsDecimal(n: nat, rest: string)
    requires rest == [] || !IsDigit(rest[0])
    ensures ParseDigits(Decimal(n) + rest) == Some(n)
  {
    DecimalDigits(n);
    DigitPrefixOfDigits(Decimal(n), rest);
  }

  /** parseInt reads the decimal text of `n` back as `n`, whatever non-digit text follows it. */
  lemma ParseIntDecimal(n: nat, rest: string)
    requires rest == [] || !IsDigit(rest[0])
    ensures ParseInt(Decimal(n) + rest) == Some(n)
  {
    DecimalDigits(n);
    var s := Decimal(n) + rest;
    assert s[0] == Decimal(n)[0];
    ParseIntWithoutWhiteSpace(s);
    ParseDigitsDecimal(n, rest);
  }

  /** Text that does not start with white space is read by ParseSigned as it is. */
  lemma ParseIntWithoutWhiteSpace(s: string)
    requires s == [] || !IsWhiteSpace(s[0])
    ensures ParseInt(s) == ParseSigned(s)
  {
  }

  /** A minus sign in front of the digits negates the value. */
  lemma ParseIntNegative(n: nat, rest: string)
    requires rest == [] || !IsDigit(rest[0])
    ensures ParseInt("-" + Decimal(n) + rest) == Some(-(n as int))
  {
    var body := Decimal(n) + rest;
    var s := "-" + Decimal(n) + rest;
    assert s == ['-'] + body;
    ParseIntWithoutWhiteSpace(s);
    assert s[1..] == body;
    ParseDigitsDecimal(n, rest);
  }

  /** Leading white space does not change what parseInt reads. */
  lemma {:induction false} ParseIntSkipsWhiteSpace(c: char, s: string)
    requires IsWhiteSpace(c)
    ensures ParseInt([c] + s) == ParseInt(s)
  {
    var t := [c] + s;
    assert t[1..] == s;
    assert LeadingSpaces(t) == LeadingSpaces(s) + 1;
    assert t[LeadingSpaces(t)..] == s[LeadingSpaces(s)..];
  }

  /** Text that after white space (and an optional sign) does not start with a digit is NaN. */
  lemma ParseIntNaN(s: string)
    requires s == [] || (!IsWhiteSpace(s[0]) && !IsDigit(s[0]) && s[0] != '+' && s[0] != '-')
    ensures ParseInt(s) == None
  {
  }
}
