/**
 * Text primitives of the source language that the codec and the pipeline
 * rely on: decimal formatting of integers (`format!("{}", v)`), Rust's
 * `FromStr` for signed integers and the syntax its `f64` parser accepts,
 * the UTF-8 byte length of a string (`str::len`), and joining.
 */
module Text {
  import opened Wrappers

  predicate IsDigit(c: char) {
    '0' <= c <= '9'
  }

  predicate AllDigits(s: string) {
    forall i :: 0 <= i < |s| ==> IsDigit(s[i])
  }

  predicate IsSign(c: char) {
    c == '+' || c == '-'
  }

  function DigitChar(d: nat): (c: char)
    requires d < 10
    ensures IsDigit(c)
  {
    (('0' as int) + d) as char
  }

  /** Decimal digits of n, without leading zeros. */
  function NatDigits(n: nat): (s: string)
    ensures |s| >= 1 && AllDigits(s)
  {
    if n < 10 then [DigitChar(n)] else NatDigits(n / 10) + [DigitChar(n % 10)]
  }

  /** `format!("{}", i)` for an integer: an optional minus sign, then the digits. */
  function FormatInt(i: int): (s: string)
    ensures |s| >= 1
    ensures s[0] == '-' || IsDigit(s[0])
    ensures forall k :: 1 <= k < |s| ==> IsDigit(s[k])
  {
    if i < 0 then "-" + NatDigits(-i) else NatDigits(i)
  }

  /** The value of a string of decimal digits. */
  function DigitsValue(s: string): nat
    requires AllDigits(s)
  {
    if s == [] then 0 else DigitsValue(s[..|s| - 1]) * 10 + (s[|s| - 1] as int - '0' as int)
  }

  lemma {:induction false} DigitsValueOfNatDigits(n: nat)
    ensures DigitsValue(NatDigits(n)) == n
  {
    if n >= 10 {
      var s := NatDigits(n);
      assert s[..|s| - 1] == NatDigits(n / 10);
      DigitsValueOfNatDigits(n / 10);
    }
  }

  /**
   * Rust's `str::parse` for a signed integer type whose range is [lo, hi]:
   * an optional `+` or `-`, then at least one ASCII digit, and the value must
   * fit the type; anything else (empty text, a lone sign, any other
   * character, overflow) is an error.
   */
  function ParseInt(s: string, lo: int, hi: int): (r: Option<int>)
    ensures r.Some? ==> lo <= r.value <= hi
  {
    if |s| == 0 then None
    else
      var negative := s[0] == '-';
      var body := if IsSign(s[0]) then s[1..] else s;
      if |body| == 0 || !AllDigits(body) then None
      else
        var d: int := DigitsValue(body);
        var v := if negative then -d else d;
        if lo <= v <= hi then Some(v) else None
  }

  /** Formatting an in-range integer and parsing it back gives the integer. */
  lemma FormatThenParse(i: int, lo: int, hi: int)
    requires lo <= i <= hi
    ensures ParseInt(FormatInt(i), lo, hi) == Some(i)
  {
    if i < 0 {
      var s := FormatInt(i);
      assert s[1..] == NatDigits(-i);
      DigitsValueOfNatDigits(-i);
    } else {
      DigitsValueOfNatDigits(i);
    }
  }

  /** ASCII lower-casing, as Rust's float parser compares `inf`/`nan` case-insensitively. */
  function Lower(s: string): (r: string)
    ensures |r| == |s|
    ensures forall i :: 0 <= i < |s| ==> (IsDigit(s[i]) || s[i] == '.' || IsSign(s[i]) ==> r[i] == s[i])
  {
    seq(|s|, i requires 0 <= i < |s| => if 'A' <= s[i] <= 'Z' then (s[i] as int + 32) as char else s[i])
  }

  /** Index of the first occurrence of c in s, or |s| when there is none. */
  function IndexOf(s: string, c: char): (k: nat)
    ensures k <= |s|
    ensures forall j :: 0 <= j < k ==> s[j] != c
    ensures k < |s| ==> s[k] == c
  {
    if s == [] then 0 else if s[0] == c then 0 else 1 + IndexOf(s[1..], c)
  }

  /** `Digit+ | Digit+ '.' Digit* | Digit* '.' Digit+` */
  predicate IsMantissa(m: string) {
    var d := IndexOf(m, '.');
    if d == |m| then |m| > 0 && AllDigits(m)
    else |m| >= 2 && AllDigits(m[..d]) && AllDigits(m[d + 1..])
  }

  /** `Sign? Digit+`, the part after the exponent marker. */
  predicate IsExponentDigits(x: string) {
    var y := if |x| > 0 && IsSign(x[0]) then x[1..] else x;
    |y| > 0 && AllDigits(y)
  }

  /** `Mantissa ('e' Sign? Digit+)?` on lower-cased text. */
  predicate IsDecimalNumber(t: string) {
    var e := IndexOf(t, 'e');
    IsMantissa(t[..e]) && (e == |t| || IsExponentDigits(t[e + 1..]))
  }

  /**
   * The strings Rust's `str::parse::<f64>()` (and `::<f32>()`) accepts:
   * an optional sign, then `inf`, `infinity`, `nan` (any case) or a decimal
   * number with optional fraction and exponent. Out-of-range magnitudes
   * round to infinity rather than fail, so acceptance is purely syntactic.
   */
  predicate IsFloatLiteral(s: string) {
    var t := if |s| > 0 && IsSign(s[0]) then s[1..] else s;
    var l := Lower(t);
    l == "inf" || l == "infinity" || l == "nan" || IsDecimalNumber(l)
  }

  lemma {:induction false} IndexOfAbsent(t: string, c: char)
    requires AllDigits(t) && !IsDigit(c)
    ensures IndexOf(t, c) == |t|
  {
    if t != [] {
      IndexOfAbsent(t[1..], c);
    }
  }

  lemma DigitsAreDecimalNumber(t: string)
    requires |t| > 0 && AllDigits(t)
    ensures Lower(t) == t && IsDecimalNumber(t)
  {
    IndexOfAbsent(t, 'e');
    IndexOfAbsent(t, '.');
    assert t[..|t|] == t;
  }

  /** Every text an integer `parse` accepts is also a float literal. */
  lemma ParsedIntIsFloatLiteral(s: string, lo: int, hi: int)
    ensures ParseInt(s, lo, hi).Some? ==> IsFloatLiteral(s)
  {
    if ParseInt(s, lo, hi).Some? {
      var t := if IsSign(s[0]) then s[1..] else s;
      DigitsAreDecimalNumber(t);
    }
  }

  lemma EmptyIsNotFloatLiteral()
    ensures !IsFloatLiteral("")
  {
    assert Lower("") == "";
  }

  /** A float literal uses only signs, digits, `.`, `e`/`E` and the letters of `inf`, `infinity`, `nan`; never `;`. */
  lemma {:induction false} FloatLiteralHasNoSemicolon(s: string)
    requires IsFloatLiteral(s)
    ensures forall i :: 0 <= i < |s| ==> s[i] != ';'
  {
    var t := if |s| > 0 && IsSign(s[0]) then s[1..] else s;
    var l := Lower(t);
    assert forall i :: 0 <= i < |t| && t[i] == ';' ==> l[i] == ';';
    if !(l == "inf" || l == "infinity" || l == "nan") {
      DecimalNumberHasNoSemicolon(l);
    }
    assert forall i :: 0 <= i < |l| ==> l[i] != ';';
    assert forall i :: 0 <= i < |t| ==> t[i] != ';';
    if |s| > 0 && IsSign(s[0]) {
      assert forall i :: 1 <= i < |s| ==> s[i] == t[i - 1];
    }
  }

  lemma {:induction false} DecimalNumberHasNoSemicolon(l: string)
    requires IsDecimalNumber(l)
    ensures forall i :: 0 <= i < |l| ==> l[i] != ';'
  {
    var e := IndexOf(l, 'e');
    MantissaHasNoSemicolon(l[..e]);
    assert forall i :: 0 <= i < e ==> l[i] == l[..e][i];
    if e < |l| {
      var x := l[e + 1..];
      assert forall i :: e < i < |l| ==> l[i] == x[i - e - 1];
      var y := if |x| > 0 && IsSign(x[0]) then x[1..] else x;
      assert forall i :: 0 <= i < |x| ==> IsDigit(x[i]) || IsSign(x[i]) by {
        forall i | 0 <= i < |x|
          ensures IsDigit(x[i]) || IsSign(x[i])
        {
          if i > 0 || !IsSign(x[0]) {
            assert x[i] == y[if |x| > 0 && IsSign(x[0]) then i - 1 else i];
          }
        }
      }
    }
  }

  lemma {:induction false} MantissaHasNoSemicolon(m: string)
    requires IsMantissa(m)
    ensures forall i :: 0 <= i < |m| ==> m[i] != ';'
  {
    var d := IndexOf(m, '.');
    if d < |m| {
      assert forall i :: 0 <= i < d ==> m[i] == m[..d][i];
      assert forall i :: d < i < |m| ==> m[i] == m[d + 1..][i - d - 1];
    }
  }

  /** Every formatted integer (`5`, `-12`) is a float literal. */
  lemma FormattedIntIsFloatLiteral(i: int)
    ensures IsFloatLiteral(FormatInt(i))
  {
    FormatThenParse(i, i, i);
    ParsedIntIsFloatLiteral(FormatInt(i), i, i);
  }

  /** Bytes in the UTF-8 encoding of one character. */
  function CharUtf8Len(c: char): (n: nat)
    ensures 1 <= n <= 4
    ensures n == 1 <==> (c as int) < 0x80
  {
    if (c as int) < 0x80 then 1
    else if (c as int) < 0x800 then 2
    else if (c as int) < 0x1_0000 then 3
    else 4
  }

  /** `str::len`: the number of bytes of the UTF-8 encoding of s. */
  function Utf8Len(s: string): (n: nat)
    ensures n >= |s|
  {
    if s == [] then 0 else Utf8Len(s[..|s| - 1]) + CharUtf8Len(s[|s| - 1])
  }

  lemma {:induction false} Utf8LenAppend(a: string, b: string)
    ensures Utf8Len(a + b) == Utf8Len(a) + Utf8Len(b)
  {
    if b != [] {
      assert (a + b)[..|a + b| - 1] == a + b[..|b| - 1];
      Utf8LenAppend(a, b[..|b| - 1]);
    } else {
      assert a + b == a;
    }
  }

  /** An ASCII string has one byte per character. */
  lemma {:induction false} Utf8LenAscii(s: string)
    requires forall i :: 0 <= i < |s| ==> (s[i] as int) < 0x80
    ensures Utf8Len(s) == |s|
  {
    if s != [] {
      Utf8LenAscii(s[..|s| - 1]);
    }
  }

  /** Items separated by sep. */
  function Join(items: seq<string>, sep: string): string {
    if items == [] then ""
    else if |items| == 1 then items[0]
    else items[0] + sep + Join(items[1..], sep)
  }

  /** The concatenation of all items. */
  function Concat(items: seq<string>): string {
    if items == [] then "" else items[0] + Concat(items[1..])
  }
}
