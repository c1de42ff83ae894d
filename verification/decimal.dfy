/**
 Decimal text for page numbers: `Number.prototype.toString` on integers (for
 integers below 10^21, where JavaScript writes plain digits), and
 a simplified `parseInt` (leading blanks, an optional sign, then the longest
 run of decimal digits; no digits means NaN, here `None`).
 */
module Decimal {
  import opened Wrappers

  predicate IsDigit(c: char)
  {
    '0' <= c <= '9'
  }

  predicate IsBlank(c: char)
  {
    c == ' ' || c == '\t' || c == '\n' || c == '\r'
  }

  function DigitChar(d: int): (c: char)
    requires 0 <= d < 10
    ensures IsDigit(c) && c as int - '0' as int == d
  {
    ('0' as int + d) as char
  }

  /** The decimal rendering of a natural number, most significant digit first, no leading zeros. */
  function NatToString(n: nat): (s: string)
    ensures 1 <= |s|
    ensures forall i :: 0 <= i < |s| ==> IsDigit(s[i])
    ensures |s| > 1 ==> s[0] != '0'
    decreases n
  {
    if n < 10 then [DigitChar(n)] else NatToString(n / 10) + [DigitChar(n % 10)]
  }

  /** `n.toString()` for an integer `n`. */
  function IntToString(n: int): (s: string)
    ensures 1 <= |s|
    ensures (n < 0) <==> s[0] == '-'
    ensures n < 0 ==> s[1..] == NatToString(-n)
    ensures n >= 0 ==> s == NatToString(n)
  {
    if n < 0 then "-" + NatToString(-n) else NatToString(n)
  }

  /** The value of a run of decimal digits. */
  function DigitsValue(ds: string): (v: nat)
    requires forall i :: 0 <= i < |ds| ==> IsDigit(ds[i])
    decreases |ds|
  {
    if ds == [] then 0
    else
      var last := ds[|ds| - 1];
      assert IsDigit(last);
      DigitsValue(ds[..|ds| - 1]) * 10 + (last as int - '0' as int)
  }

  /** The longest prefix of `s` made only of digits. */
  function DigitPrefix(s: string): (p: string)
    ensures |p| <= |s| && p == s[..|p|]
    ensures forall i :: 0 <= i < |p| ==> IsDigit(p[i])
    ensures |p| < |s| ==> !IsDigit(s[|p|])
    decreases |s|
  {
    if s == [] || !IsDigit(s[0]) then [] else [s[0]] + DigitPrefix(s[1..])
  }

  /** `s` without its leading blanks. */
  function TrimStart(s: string): (t: string)
    ensures |t| <= |s| && t == s[|s| - |t|..]
    ensures t != [] ==> !IsBlank(t[0])
    ensures forall i :: 0 <= i < |s| - |t| ==> IsBlank(s[i])
    decreases |s|
  {
    if s != [] && IsBlank(s[0]) then TrimStart(s[1..]) else s
  }

  /** Simplified `parseInt(s)`: `None` plays the part of NaN. */
  function ParseInt(s: string): (r: Option<int>)
    ensures r.None? <==> |DigitPrefix(SkipSign(TrimStart(s)))| == 0
  {
    var t := TrimStart(s);
    var ds := DigitPrefix(SkipSign(t));
    if |ds| == 0 then None
    else
      var v: int := DigitsValue(ds);
      if t[0] == '-' then Some(-v) else Some(v)
  }

  /** `t` without one leading sign character. */
  function SkipSign(t: string): (u: string)
    ensures t != [] && (t[0] == '-' || t[0] == '+') ==> u == t[1..]
    ensures !(t != [] && (t[0] == '-' || t[0] == '+')) ==> u == t
  {
    if t != [] && (t[0] == '-' || t[0] == '+') then t[1..] else t
  }

  /** A string of digits is its own digit prefix. */
  lemma {:induction false} AllDigitsPrefix(s: string)
    requires forall i :: 0 <= i < |s| ==> IsDigit(s[i])
    ensures DigitPrefix(s) == s
    decreases |s|
  {
    if s != [] {
      AllDigitsPrefix(s[1..]);
    }
  }

  /** Reading back the digits of a rendered natural number gives the number. */
  lemma {:induction false} NatDigitsValue(n: nat)
    ensures DigitsValue(NatToString(n)) == n
    decreases n
  {
    var s := NatToString(n);
    if n >= 10 {
      NatDigitsValue(n / 10);
      assert s[..|s| - 1] == NatToString(n / 10);
    }
  }

  /**
   Reading back a rendered integer gives the integer. In JavaScript this holds
   for safe integers (magnitude below 2^53), which covers every page number.
   */
  lemma ParseRender(n: int)
    ensures ParseInt(IntToString(n)) == Some(n)
  {
    var m := if n < 0 then -n else n;
    var s := IntToString(n);
    var digits := NatToString(m);
    assert TrimStart(s) == s;
    assert SkipSign(s) == digits by {
      if n < 0 {
        assert s == "-" + digits;
        assert s[1..] == digits;
      } else {
        assert !IsDigit('-') && !IsDigit('+');
      }
    }
    AllDigitsPrefix(digits);
    NatDigitsValue(m);
  }
}
