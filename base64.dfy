/**
 * Base64 with the standard alphabet and `=` padding (section 4 of RFC 4648),
 * as configured by the base64 crate's STANDARD engine: encoding always pads,
 * and decoding accepts only canonical text (length a multiple of four,
 * padding only at the end, zero trailing bits).
 */
module Base64 {
  import opened Wrappers
  import opened Ints

  type sextet = x: int | 0 <= x < 64

  /** The character for a 6-bit value: A-Z, a-z, 0-9, '+', '/'. */
  function Symbol(v: sextet): (c: char)
    ensures IsSymbol(c)
  {
    if v < 26 then ((('A' as int) + v) as char)
    else if v < 52 then ((('a' as int) + v - 26) as char)
    else if v < 62 then ((('0' as int) + v - 52) as char)
    else if v == 62 then '+'
    else '/'
  }

  predicate IsSymbol(c: char) {
    ('A' <= c <= 'Z') || ('a' <= c <= 'z') || ('0' <= c <= '9') || c == '+' || c == '/'
  }

  function SymbolValue(c: char): (v: sextet)
    requires IsSymbol(c)
    ensures Symbol(v) == c
  {
    if 'A' <= c <= 'Z' then c as int - 'A' as int
    else if 'a' <= c <= 'z' then c as int - 'a' as int + 26
    else if '0' <= c <= '9' then c as int - '0' as int + 52
    else if c == '+' then 62
    else 63
  }

  lemma SymbolValueOfSymbol(v: sextet)
    ensures SymbolValue(Symbol(v)) == v
  {
  }

  /** Three bytes as four symbols. */
  function EncodeTriple(b0: byte, b1: byte, b2: byte): (q: string)
    ensures |q| == 4
  {
    [Symbol(b0 / 4), Symbol((b0 % 4) * 16 + b1 / 16), Symbol((b1 % 16) * 4 + b2 / 64), Symbol(b2 % 64)]
  }

  /** `BASE64.encode(bytes)`. */
  function Encode(bs: seq<byte>): (s: string)
    ensures |s| % 4 == 0
    ensures |s| == 0 <==> |bs| == 0
    ensures forall i :: 0 <= i < |s| ==> IsSymbol(s[i]) || s[i] == '='
  {
    if |bs| == 0 then ""
    else if |bs| == 1 then [Symbol(bs[0] / 4), Symbol((bs[0] % 4) * 16), '=', '=']
    else if |bs| == 2 then [Symbol(bs[0] / 4), Symbol((bs[0] % 4) * 16 + bs[1] / 16), Symbol((bs[1] % 16) * 4), '=']
    else EncodeTriple(bs[0], bs[1], bs[2]) + Encode(bs[3..])
  }

  predicate AllSymbols(q: string) {
    forall i :: 0 <= i < |q| ==> IsSymbol(q[i])
  }

  /** Four symbols as three bytes. */
  function DecodeQuad(q: string): (r: seq<byte>)
    requires |q| == 4 && AllSymbols(q)
    ensures |r| == 3
  {
    var v0, v1, v2, v3 := SymbolValue(q[0]), SymbolValue(q[1]), SymbolValue(q[2]), SymbolValue(q[3]);
    [v0 * 4 + v1 / 16, (v1 % 16) * 16 + v2 / 4, (v2 % 4) * 64 + v3]
  }

  /** The last group of four: full, or padded with one or two '=' and zero trailing bits. */
  function DecodeFinal(q: string): Option<seq<byte>>
    requires |q| == 4
  {
    if AllSymbols(q) then Some(DecodeQuad(q))
    else if IsSymbol(q[0]) && IsSymbol(q[1]) && q[2] == '=' && q[3] == '=' then
      var v0: int, v1: int := SymbolValue(q[0]), SymbolValue(q[1]);
      if v1 % 16 == 0 then Some([v0 * 4 + v1 / 16]) else None
    else if IsSymbol(q[0]) && IsSymbol(q[1]) && IsSymbol(q[2]) && q[3] == '=' then
      var v0: int, v1: int, v2: int := SymbolValue(q[0]), SymbolValue(q[1]), SymbolValue(q[2]);
      if v2 % 4 == 0 then Some([v0 * 4 + v1 / 16, (v1 % 16) * 16 + v2 / 4]) else None
    else None
  }

  /** `BASE64.decode(text)`: None is the decode error. */
  function Decode(s: string): Option<seq<byte>>
  {
    if |s| == 0 then Some([])
    else if |s| % 4 != 0 then None
    else if |s| == 4 then DecodeFinal(s)
    else if !AllSymbols(s[..4]) then None
    else match Decode(s[4..])
      case None => None
      case Some(rest) => Some(DecodeQuad(s[..4]) + rest)
  }

  /** The bit regrouping of one triple is reversible (bytes to sextets and back). */
  lemma TripleArith(b0: byte, b1: byte, b2: byte, v0: int, v1: int, v2: int, v3: int)
    requires v0 == b0 / 4 && v1 == (b0 % 4) * 16 + b1 / 16 && v2 == (b1 % 16) * 4 + b2 / 64 && v3 == b2 % 64
    ensures 0 <= v0 < 64 && 0 <= v1 < 64 && 0 <= v2 < 64 && 0 <= v3 < 64
    ensures v0 * 4 + v1 / 16 == b0 && (v1 % 16) * 16 + v2 / 4 == b1 && (v2 % 4) * 64 + v3 == b2
  {
    ModUnique(v1, 16, b0 % 4, b1 / 16);
    ModUnique(v2, 4, b1 % 16, b2 / 64);
  }

  lemma TripleRoundTrip(b0: byte, b1: byte, b2: byte)
    ensures AllSymbols(EncodeTriple(b0, b1, b2))
    ensures DecodeQuad(EncodeTriple(b0, b1, b2)) == [b0, b1, b2]
  {
    var v0: int, v1: int, v2: int, v3: int := b0 / 4, (b0 % 4) * 16 + b1 / 16, (b1 % 16) * 4 + b2 / 64, b2 % 64;
    TripleArith(b0, b1, b2, v0, v1, v2, v3);
    var q := EncodeTriple(b0, b1, b2);
    assert q == [Symbol(v0), Symbol(v1), Symbol(v2), Symbol(v3)];
    SymbolValueOfSymbol(v0);
    SymbolValueOfSymbol(v1);
    SymbolValueOfSymbol(v2);
    SymbolValueOfSymbol(v3);
  }

  /** The bit regrouping of a final byte is reversible, and its second sextet has four zero bits. */
  lemma SingleArith(b0: byte, v0: int, v1: int)
    requires v0 == b0 / 4 && v1 == (b0 % 4) * 16
    ensures 0 <= v0 < 64 && 0 <= v1 < 64
    ensures v0 * 4 + v1 / 16 == b0 && v1 % 16 == 0
  {
    ModUnique(v1, 16, b0 % 4, 0);
  }

  /** A group padded with `==` decodes to one byte, with `=` to two. */
  lemma DecodeFinalOne(s: string, v0: sextet, v1: sextet, b0: int)
    requires s == [Symbol(v0), Symbol(v1), '=', '='] && v1 % 16 == 0 && b0 == v0 * 4 + v1 / 16
    ensures DecodeFinal(s) == Some([b0])
  {
    SymbolValueOfSymbol(v0);
    SymbolValueOfSymbol(v1);
    assert !AllSymbols(s) by { assert !IsSymbol(s[3]); }
  }

  lemma DecodeFinalTwo(s: string, v0: sextet, v1: sextet, v2: sextet, b0: int, b1: int)
    requires s == [Symbol(v0), Symbol(v1), Symbol(v2), '='] && v2 % 4 == 0
    requires b0 == v0 * 4 + v1 / 16 && b1 == (v1 % 16) * 16 + v2 / 4
    ensures DecodeFinal(s) == Some([b0, b1])
  {
    SymbolValueOfSymbol(v0);
    SymbolValueOfSymbol(v1);
    SymbolValueOfSymbol(v2);
    assert !AllSymbols(s) by { assert !IsSymbol(s[3]); }
  }

  lemma DecodeEncodeOne(bs: seq<byte>)
    requires |bs| == 1
    ensures Decode(Encode(bs)) == Some(bs)
  {
    var b0 := bs[0];
    var v0: int, v1: int := b0 / 4, (b0 % 4) * 16;
    SingleArith(b0, v0, v1);
    assert bs == [b0];
    EncodeSingle(b0);
    DecodeFinalOne(Encode(bs), v0, v1, b0);
  }

  /** The bit regrouping of a final pair is reversible, and its last sextet has two zero bits. */
  lemma PairArith(b0: byte, b1: byte, v0: int, v1: int, v2: int)
    requires v0 == b0 / 4 && v1 == (b0 % 4) * 16 + b1 / 16 && v2 == (b1 % 16) * 4
    ensures 0 <= v0 < 64 && 0 <= v1 < 64 && 0 <= v2 < 64
    ensures v0 * 4 + v1 / 16 == b0 && (v1 % 16) * 16 + v2 / 4 == b1 && v2 % 4 == 0
  {
    ModUnique(v1, 16, b0 % 4, b1 / 16);
    ModUnique(v2, 4, b1 % 16, 0);
  }

  lemma DecodeEncodeTwo(bs: seq<byte>)
    requires |bs| == 2
    ensures Decode(Encode(bs)) == Some(bs)
  {
    var b0, b1 := bs[0], bs[1];
    var v0: int, v1: int, v2: int := b0 / 4, (b0 % 4) * 16 + b1 / 16, (b1 % 16) * 4;
    PairArith(b0, b1, v0, v1, v2);
    assert bs == [b0, b1];
    EncodePair(b0, b1);
    DecodeFinalTwo(Encode(bs), v0, v1, v2, b0, b1);
  }

  /** Decoding undoes encoding. */
  lemma {:induction false} DecodeEncode(bs: seq<byte>)
    ensures Decode(Encode(bs)) == Some(bs)
  {
    if |bs| == 1 {
      DecodeEncodeOne(bs);
    } else if |bs| == 2 {
      DecodeEncodeTwo(bs);
    } else if |bs| >= 3 {
      DecodeEncode(bs[3..]);
      DecodeEncodeStep(bs);
    }
  }

  lemma SplitThree(bs: seq<byte>)
    requires |bs| >= 3
    ensures bs == [bs[0], bs[1], bs[2]] + bs[3..]
  {
  }

  lemma DecodeEncodeStep(bs: seq<byte>)
    requires |bs| >= 3
    requires Decode(Encode(bs[3..])) == Some(bs[3..])
    ensures Decode(Encode(bs)) == Some(bs)
  {
    var s := Encode(bs);
    var q := EncodeTriple(bs[0], bs[1], bs[2]);
    var t := Encode(bs[3..]);
    assert s == q + t;
    TripleRoundTrip(bs[0], bs[1], bs[2]);
    SplitThree(bs);
    var d := DecodeQuad(q);
    assert d + bs[3..] == bs;
    if |bs| == 3 {
      assert t == [];
      assert s == q;
      assert DecodeFinal(q) == Some(d);
      assert d == bs;
    } else {
      assert s[..4] == q;
      assert s[4..] == t;
      assert Decode(s) == Some(d + bs[3..]);
    }
  }

  /** The regrouping of four sextets into bytes is reversible. */
  lemma QuadArith(v0: sextet, v1: sextet, v2: sextet, v3: sextet, b0: int, b1: int, b2: int)
    requires b0 == v0 * 4 + v1 / 16 && b1 == (v1 % 16) * 16 + v2 / 4 && b2 == (v2 % 4) * 64 + v3
    ensures 0 <= b0 < 256 && 0 <= b1 < 256 && 0 <= b2 < 256
    ensures b0 / 4 == v0 && (b0 % 4) * 16 + b1 / 16 == v1 && (b1 % 16) * 4 + b2 / 64 == v2 && b2 % 64 == v3
  {
    ModUnique(b0, 4, v0, v1 / 16);
    ModUnique(b1, 16, v1 % 16, v2 / 4);
    ModUnique(b2, 64, v2 % 4, v3);
  }

  lemma QuadRoundTrip(q: string)
    requires |q| == 4 && AllSymbols(q)
    ensures var b := DecodeQuad(q); EncodeTriple(b[0], b[1], b[2]) == q
  {
    var v0: int, v1: int, v2: int, v3: int := SymbolValue(q[0]), SymbolValue(q[1]), SymbolValue(q[2]), SymbolValue(q[3]);
    var b0: int, b1: int, b2: int := v0 * 4 + v1 / 16, (v1 % 16) * 16 + v2 / 4, (v2 % 4) * 64 + v3;
    QuadArith(v0, v1, v2, v3, b0, b1, b2);
    assert DecodeQuad(q) == [b0, b1, b2];
    SymbolsOfGroup(q, 4);
    RespellTriple(q, b0, b1, b2);
  }

  lemma RespellTriple(q: string, b0: byte, b1: byte, b2: byte)
    requires [Symbol(b0 / 4), Symbol((b0 % 4) * 16 + b1 / 16), Symbol((b1 % 16) * 4 + b2 / 64), Symbol(b2 % 64)] == q
    ensures EncodeTriple(b0, b1, b2) == q
  {
  }

  lemma OneSymbolArith(v0: sextet, v1: sextet, b0: int)
    requires v1 % 16 == 0 && b0 == v0 * 4 + v1 / 16
    ensures 0 <= b0 < 256 && b0 / 4 == v0 && (b0 % 4) * 16 == v1
  {
    ModUnique(b0, 4, v0, v1 / 16);
  }

  lemma TwoSymbolArith(v0: sextet, v1: sextet, v2: sextet, b0: int, b1: int)
    requires v2 % 4 == 0 && b0 == v0 * 4 + v1 / 16 && b1 == (v1 % 16) * 16 + v2 / 4
    ensures 0 <= b0 < 256 && 0 <= b1 < 256
    ensures b0 / 4 == v0 && (b0 % 4) * 16 + b1 / 16 == v1 && (b1 % 16) * 4 == v2
  {
    QuadArith(v0, v1, v2, 0, b0, b1, (v2 % 4) * 64);
  }

  lemma EncodeSingle(b0: byte)
    ensures Encode([b0]) == [Symbol(b0 / 4), Symbol((b0 % 4) * 16), '=', '=']
  {
  }

  lemma EncodePair(b0: byte, b1: byte)
    ensures Encode([b0, b1]) == [Symbol(b0 / 4), Symbol((b0 % 4) * 16 + b1 / 16), Symbol((b1 % 16) * 4), '=']
  {
  }

  /** A group is its first n symbols' values spelled again, then its padding. */
  lemma SymbolsOfGroup(q: string, n: nat)
    requires |q| == 4 && 2 <= n <= 4
    requires forall i | 0 <= i < n :: IsSymbol(q[i])
    requires forall i | n <= i < 4 :: q[i] == '='
    ensures n == 2 ==> q == [Symbol(SymbolValue(q[0])), Symbol(SymbolValue(q[1])), '=', '=']
    ensures n == 3 ==> q == [Symbol(SymbolValue(q[0])), Symbol(SymbolValue(q[1])), Symbol(SymbolValue(q[2])), '=']
    ensures n == 4 ==> q == [Symbol(SymbolValue(q[0])), Symbol(SymbolValue(q[1])), Symbol(SymbolValue(q[2])), Symbol(SymbolValue(q[3]))]
  {
  }

  /** Encoding a single byte, or a pair, spells the group that was decoded. */
  lemma RespellSingle(q: string, b0: byte)
    requires [Symbol(b0 / 4), Symbol((b0 % 4) * 16), '=', '='] == q
    ensures Encode([b0]) == q
  {
    EncodeSingle(b0);
  }

  lemma RespellPair(q: string, b0: byte, b1: byte)
    requires [Symbol(b0 / 4), Symbol((b0 % 4) * 16 + b1 / 16), Symbol((b1 % 16) * 4), '='] == q
    ensures Encode([b0, b1]) == q
  {
    EncodePair(b0, b1);
  }

  lemma FinalOneRoundTrip(q: string)
    requires |q| == 4 && IsSymbol(q[0]) && IsSymbol(q[1]) && q[2] == '=' && q[3] == '='
    requires SymbolValue(q[1]) % 16 == 0
    ensures DecodeFinal(q).Some? && Encode(DecodeFinal(q).value) == q
  {
    var v0: int, v1: int := SymbolValue(q[0]), SymbolValue(q[1]);
    var b0: int := v0 * 4 + v1 / 16;
    OneSymbolArith(v0, v1, b0);
    assert !AllSymbols(q) by { assert !IsSymbol(q[3]); }
    assert DecodeFinal(q) == Some([b0]);
    SymbolsOfGroup(q, 2);
    RespellSingle(q, b0);
  }

  lemma FinalTwoRoundTrip(q: string)
    requires |q| == 4 && IsSymbol(q[0]) && IsSymbol(q[1]) && IsSymbol(q[2]) && q[3] == '='
    requires SymbolValue(q[2]) % 4 == 0
    ensures DecodeFinal(q).Some? && Encode(DecodeFinal(q).value) == q
  {
    var v0: int, v1: int, v2: int := SymbolValue(q[0]), SymbolValue(q[1]), SymbolValue(q[2]);
    var b0: int, b1: int := v0 * 4 + v1 / 16, (v1 % 16) * 16 + v2 / 4;
    TwoSymbolArith(v0, v1, v2, b0, b1);
    assert !AllSymbols(q) by { assert !IsSymbol(q[3]); }
    assert DecodeFinal(q) == Some([b0, b1]);
    SymbolsOfGroup(q, 3);
    RespellPair(q, b0, b1);
  }

  /** A final group that decodes re-encodes to itself. */
  lemma FinalRoundTrip(q: string)
    requires |q| == 4 && DecodeFinal(q).Some?
    ensures Encode(DecodeFinal(q).value) == q
  {
    if AllSymbols(q) {
      QuadRoundTrip(q);
      var b := DecodeQuad(q);
      assert b[3..] == [];
    } else if q[2] == '=' {
      FinalOneRoundTrip(q);
    } else {
      FinalTwoRoundTrip(q);
    }
  }

  /** Decoding accepts only canonical text: what it accepts re-encodes to the same text. */
  lemma {:induction false} EncodeDecode(s: string)
    requires Decode(s).Some?
    ensures Encode(Decode(s).value) == s
  {
    if |s| == 4 {
      FinalRoundTrip(s);
    } else if |s| > 4 {
      var rest := Decode(s[4..]).value;
      EncodeDecode(s[4..]);
      QuadRoundTrip(s[..4]);
      var b := DecodeQuad(s[..4]) + rest;
      assert Decode(s).value == b;
      assert b[3..] == rest;
      assert |b| >= 3;
      assert Encode(b) == EncodeTriple(b[0], b[1], b[2]) + Encode(b[3..]);
      assert s == s[..4] + s[4..];
    }
  }
}
