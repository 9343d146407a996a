/** The few JavaScript string and number primitives the poll code leans on:
    `String.prototype.trim`, `parseInt` on option ids, and `Number.prototype.toString`
    on the non-negative integers the code builds ids from. */
module JsText {

  /** The code points `trim` removes: ECMAScript WhiteSpace and LineTerminator. */
  predicate IsWhitespace(c: char) {
    || c == ' ' || c == '\t' || c == '\n' || c == '\r' || c == '\U{B}' || c == '\U{C}'
    || c == '\U{A0}' || c == '\U{1680}' || ('\U{2000}' <= c <= '\U{200A}')
    || c == '\U{2028}' || c == '\U{2029}' || c == '\U{202F}' || c == '\U{205F}'
    || c == '\U{3000}' || c == '\U{FEFF}'
  }

  /** A string made of whitespace only (the empty string included). */
  predicate IsBlank(s: string) {
    forall i :: 0 <= i < |s| ==> IsWhitespace(s[i])
  }

  /** `s` without its leading whitespace. */
  function TrimStart(s: string): (r: string)
    ensures |r| <= |s|
    ensures r != [] ==> !IsWhitespace(r[0])
  {
    if s != [] && IsWhitespace(s[0]) then TrimStart(s[1..]) else s
  }

  /** `s` without its trailing whitespace. */
  function TrimEnd(s: string): (r: string)
    ensures |r| <= |s|
    ensures r != [] ==> !IsWhitespace(r[|r| - 1])
  {
    if s != [] && IsWhitespace(s[|s| - 1]) then TrimEnd(s[..|s| - 1]) else s
  }

  /** `s.trim()`: neither end of the result is whitespace (`TrimCut` says what is cut off). */
  function Trim(s: string): (r: string)
    ensures |r| <= |s|
    ensures r != [] ==> !IsWhitespace(r[0]) && !IsWhitespace(r[|r| - 1])
  {
    var t := TrimStart(s);
    TrimEndCut(t);
    TrimEnd(t)
  }

  /** `TrimStart` cuts a blank prefix off. */
  lemma {:induction false} TrimStartCut(s: string)
    ensures var r := TrimStart(s); r == s[|s| - |r|..] && IsBlank(s[..|s| - |r|])
  {
    if s != [] && IsWhitespace(s[0]) {
      TrimStartCut(s[1..]);
      var r := TrimStart(s);
      assert s[..|s| - |r|] == [s[0]] + s[1..][..|s| - 1 - |r|];
    }
  }

  /** `TrimEnd` cuts a blank suffix off. */
  lemma {:induction false} TrimEndCut(s: string)
    ensures var r := TrimEnd(s); r == s[..|r|] && IsBlank(s[|r|..])
  {
    if s != [] && IsWhitespace(s[|s| - 1]) {
      var u := s[..|s| - 1];
      TrimEndCut(u);
      var r := TrimEnd(s);
      assert s[|r|..] == u[|r|..] + [s[|s| - 1]];
    }
  }

  /** `s.trim()` is a middle part of `s`; what it cuts off on either side is whitespace. */
  lemma TrimCut(s: string)
    ensures var r := Trim(s);
      exists k :: 0 <= k <= |s| - |r| && r == s[k..k + |r|] && IsBlank(s[..k]) && IsBlank(s[k + |r|..])
  {
    var t := TrimStart(s);
    TrimStartCut(s);
    TrimEndCut(t);
    var r := Trim(s);
    var k := |s| - |t|;
    assert r == s[k..k + |r|] && s[k + |r|..] == t[|r|..];
  }

  lemma {:induction false} TrimStartEmpty(s: string)
    ensures TrimStart(s) == [] <==> IsBlank(s)
  {
    if s != [] {
      if IsWhitespace(s[0]) {
        TrimStartEmpty(s[1..]);
        assert IsBlank(s[1..]) ==> IsBlank(s) by {
          if IsBlank(s[1..]) {
            forall i | 0 <= i < |s| ensures IsWhitespace(s[i]) {
              if i > 0 { assert s[i] == s[1..][i - 1]; }
            }
          }
        }
      } else {
        assert !IsWhitespace(s[0]);
      }
    }
  }

  lemma {:induction false} TrimEndOfNonWhitespaceStart(s: string)
    requires s != [] && !IsWhitespace(s[0])
    ensures TrimEnd(s) != []
  {
    if IsWhitespace(s[|s| - 1]) {
      assert |s| > 1;
      TrimEndOfNonWhitespaceStart(s[..|s| - 1]);
    }
  }

  /** `s.trim() === ''` holds exactly for the blank strings. */
  lemma TrimEmptyIffBlank(s: string)
    ensures Trim(s) == "" <==> IsBlank(s)
  {
    TrimStartEmpty(s);
    var t := TrimStart(s);
    if t != [] {
      TrimEndOfNonWhitespaceStart(t);
    }
  }

  // ---- decimal digits -------------------------------------------------------

  predicate IsDigit(c: char) {
    '0' <= c <= '9'
  }

  function DigitValue(c: char): nat
    requires IsDigit(c)
  {
    (c as int) - ('0' as int)
  }

  function DigitChar(d: nat): (c: char)
    requires d < 10
    ensures IsDigit(c) && DigitValue(c) == d
  {
    ('0' as int + d) as char
  }

  /** A non-empty string of decimal digits, such as the ids the client allocates. */
  predicate IsDecimalNumeral(s: string) {
    s != [] && forall i :: 0 <= i < |s| ==> IsDigit(s[i])
  }

  /** The value of a string of decimal digits, most significant first. */
  function DecimalValue(s: string): nat
    requires forall i :: 0 <= i < |s| ==> IsDigit(s[i])
  {
    if s == [] then 0 else DecimalValue(s[..|s| - 1]) * 10 + DigitValue(s[|s| - 1])
  }

  /** `n.toString()` for a non-negative integer. */
  function NatToDecimal(n: nat): (s: string)
    ensures IsDecimalNumeral(s)
    ensures s[0] == '0' <==> n == 0
    ensures n < 10 <==> |s| == 1
  {
    if n < 10 then [DigitChar(n)] else NatToDecimal(n / 10) + [DigitChar(n % 10)]
  }

  /** A JavaScript number as far as the id allocation needs one. */
  datatype JsNumber = NaN | Finite(value: nat)

  /** The longest prefix of `s` made of decimal digits. */
  function LeadingDigits(s: string): (r: string)
    ensures |r| <= |s| && r == s[..|r|]
    ensures forall i :: 0 <= i < |r| ==> IsDigit(r[i])
    ensures |r| < |s| ==> !IsDigit(s[|r|])
  {
    if s != [] && IsDigit(s[0]) then [s[0]] + LeadingDigits(s[1..]) else []
  }

  /** `parseInt(s)` (radix 10): the value of the leading digits, NaN when there are none. */
  function ParseInt(s: string): (r: JsNumber)
    ensures r.NaN? <==> s == [] || !IsDigit(s[0])
    ensures r.Finite? ==> exists k :: 0 < k <= |s| && IsDecimalNumeral(s[..k]) && r.value == DecimalValue(s[..k])
                                   && (k == |s| || !IsDigit(s[k]))
  {
    var ds := LeadingDigits(s);
    if ds == [] then NaN else Finite(DecimalValue(ds))
  }

  lemma {:induction false} DecimalValueOfNatToDecimal(n: nat)
    ensures DecimalValue(NatToDecimal(n)) == n
  {
    if n >= 10 {
      var s := NatToDecimal(n);
      DecimalValueOfNatToDecimal(n / 10);
      assert s[..|s| - 1] == NatToDecimal(n / 10);
    }
  }

  lemma {:induction false} LeadingDigitsOfNumeral(s: string)
    requires forall i :: 0 <= i < |s| ==> IsDigit(s[i])
    ensures LeadingDigits(s) == s
  {
    if s != [] {
      LeadingDigitsOfNumeral(s[1..]);
    }
  }

  /** `parseInt` reads back a decimal numeral exactly. */
  lemma ParseIntOfNumeral(s: string)
    requires IsDecimalNumeral(s)
    ensures ParseInt(s) == Finite(DecimalValue(s))
  {
    LeadingDigitsOfNumeral(s);
  }

  /** `parseInt(n.toString()) === n` for every non-negative integer. */
  lemma ParseIntNatToDecimal(n: nat)
    ensures ParseInt(NatToDecimal(n)) == Finite(n)
  {
    ParseIntOfNumeral(NatToDecimal(n));
    DecimalValueOfNatToDecimal(n);
  }

  /** Different numbers print differently. */
  lemma NatToDecimalInjective(m: nat, n: nat)
    requires NatToDecimal(m) == NatToDecimal(n)
    ensures m == n
  {
    ParseIntNatToDecimal(m);
    ParseIntNatToDecimal(n);
  }
}
