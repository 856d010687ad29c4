/**
 * What the tag <-> JSON codec guarantees: every tag the encoder can write
 * faithfully is decoded back to itself, an exact description of the plain
 * strings that survive the as-written codec, and one concrete tag for each
 * way the as-written codec loses information.
 */
module NbtJsonLaws {
  import opened Wrappers
  import opened Ints
  import opened Floats
  import opened Text
  import Base64
  import opened Nbt
  import opened Json
  import opened NbtJson

  // ---------------------------------------------------------------------
  // Array payloads
  // ---------------------------------------------------------------------

  lemma SignedBytesOfBytesOf(a: seq<i8>)
    ensures SignedBytes(BytesOf(a)) == a
  {
    forall i | 0 <= i < |a|
      ensures SignedBytes(BytesOf(a))[i] == a[i]
    {
      I8OfU8OfIdentity(a[i]);
    }
  }

  /** One element: `from_be_bytes(v.to_be_bytes()) == v`. */
  lemma ElementRoundTrip(v: int, bits: nat)
    requires bits == 32 || bits == 64
    requires InWidth(v, bits)
    ensures Signed(BeValue(BeBytes(Unsigned(v, bits), Width(bits))), bits) == v
  {
    Pow256Widths();
    var u := Unsigned(v, bits);
    BeValueOfBeBytes(u, Width(bits));
    if bits == 32 {
      SignedUnsigned32(v);
      ModUnique(u, TWO_32, 0, u);
    } else {
      SignedUnsigned64(v);
      ModUnique(u, TWO_32 * TWO_32, 0, u);
    }
  }

  lemma {:induction false} UnpackPackBe(vals: seq<int>, bits: nat)
    requires bits == 32 || bits == 64
    requires forall i :: 0 <= i < |vals| ==> InWidth(vals[i], bits)
    ensures UnpackBe(PackBe(vals, bits), bits) == vals
  {
    if vals != [] {
      var w := Width(bits);
      var head := BeBytes(Unsigned(vals[0], bits), w);
      var bs := PackBe(vals, bits);
      assert bs == head + PackBe(vals[1..], bits);
      assert bs[..w] == head;
      assert bs[w..] == PackBe(vals[1..], bits);
      ElementRoundTrip(vals[0], bits);
      UnpackPackBe(vals[1..], bits);
    }
  }

  // ---------------------------------------------------------------------
  // Strings
  // ---------------------------------------------------------------------

  /** The escape test, character by character. */
  lemma EscapeChars(s: string)
    ensures EndsWithEscape(s) <==> |s| >= 2 && s[|s| - 2] == '\\' && s[|s| - 1] == '0'
  {
    if |s| >= 2 {
      var t := s[|s| - 2..];
      assert t == [t[0], t[1]];
    }
  }

  /** A string that is neither escaped nor an array text falls through to the suffix parser unchanged. */
  lemma PlainSuffixed(s: string)
    requires !(ByteLen(s) >= 2 && HasNumericSuffix(s) && IsFloatLiteral(Stem(s)))
    ensures ParseSuffixed(s) == Ok(String(s))
  {
    if HasNumericSuffix(s) {
      EmptyIsNotFloatLiteral();
      assert ByteLen(s) < 2 ==> Stem(s) == "";
      ParsedIntIsFloatLiteral(Stem(s), I8_MIN, I8_MAX);
      ParsedIntIsFloatLiteral(Stem(s), I16_MIN, I16_MAX);
      ParsedIntIsFloatLiteral(Stem(s), I64_MIN, I64_MAX);
    }
  }

  /**
   * The plain strings the as-written codec reads back as themselves: those
   * it escapes, and those that neither end with the escape nor have `;` as
   * their second byte with a payload that is not base64.
   */
  predicate StringSurvives(rev: Revision, s: string) {
    || rev == Corrected
    || IsTypeLike(AsWritten, s)
    || (!EndsWithEscape(s) && !(IsArrayText(AsWritten, s) && Base64.Decode(s[2..]).None?))
  }

  lemma StringRoundTrip(rev: Revision, s: string)
    requires StringSurvives(rev, s)
    ensures ParseStringValue(rev, StringText(rev, s)) == Ok(String(s))
  {
    if IsTypeLike(rev, s) {
      var t := s + ESCAPE;
      assert t[|t| - 2..] == ESCAPE;
      assert t[..|t| - 2] == s;
    } else {
      PlainSuffixed(s);
    }
  }

  /** For the as-written codec, StringSurvives is exact: both directions. */
  lemma StringSurvivesExactly(s: string)
    ensures ParseStringValue(AsWritten, StringText(AsWritten, s)) == Ok(String(s)) <==> StringSurvives(AsWritten, s)
  {
    if StringSurvives(AsWritten, s) {
      StringRoundTrip(AsWritten, s);
    } else if EndsWithEscape(s) {
      assert |s[..|s| - 2]| < |s|;
    }
  }

  // ---------------------------------------------------------------------
  // Scalars and arrays
  // ---------------------------------------------------------------------

  /** A text ending with a numeric suffix does not end with the escape. */
  lemma SuffixedIsNotEscaped(s: string)
    requires |s| >= 1 && IsSuffixChar(s[|s| - 1])
    ensures !EndsWithEscape(s)
  {
    EscapeChars(s);
  }

  /** Appending a character keeps the second character when there was one. */
  lemma SecondOfSnoc(t: string, c: char)
    requires |t| >= 1
    requires forall i :: 0 <= i < |t| ==> t[i] != ';'
    ensures |t + [c]| >= 2 ==> (t + [c])[1] != ';' || c == ';'
  {
    if |t| >= 2 {
      assert (t + [c])[1] == t[1];
    }
  }

  /** A suffixed number text is neither escaped nor an array text. */
  lemma SuffixedIsNotArray(rev: Revision, t: string, c: char)
    requires |t| >= 1 && IsSuffixChar(c)
    requires forall i :: 0 <= i < |t| ==> t[i] != ';'
    ensures !EndsWithEscape(t + [c]) && !IsArrayText(rev, t + [c])
    ensures HasNumericSuffix(t + [c]) && Stem(t + [c]) == t
  {
    var s := t + [c];
    assert s[|s| - 1] == c;
    SuffixedIsNotEscaped(s);
    SecondOfSnoc(t, c);
    assert !SecondByteIsSemicolon(s);
    assert s[..|s| - 1] == t;
  }

  lemma FormattedIntHasNoSemicolon(i: int)
    ensures forall k :: 0 <= k < |FormatInt(i)| ==> FormatInt(i)[k] != ';'
  {
  }

  /** An integer written with its suffix reads back as itself. */
  lemma SuffixedIntRoundTrip(rev: Revision, i: int, c: char, lo: int, hi: int)
    requires IsSuffixChar(c) && c != 'f' && lo <= i <= hi
    requires c == 'b' ==> lo == I8_MIN && hi == I8_MAX
    requires c == 's' ==> lo == I16_MIN && hi == I16_MAX
    requires c == 'L' ==> lo == I64_MIN && hi == I64_MAX
    ensures ParseStringValue(rev, FormatInt(i) + [c]) ==
      Ok(if c == 'b' then Byte(i) else if c == 's' then Short(i) else Long(i))
  {
    FormattedIntHasNoSemicolon(i);
    SuffixedIsNotArray(rev, FormatInt(i), c);
    FormatThenParse(i, lo, hi);
  }

  /** A JSON string is read by the string decoder alone. */
  lemma TextDecodes(rev: Revision, s: string)
    ensures JsonToNbt(rev, JString(s)) == ParseStringValue(rev, s)
  {
  }

  /**
   * The JSON forms the encoder never writes for a string: booleans and null
   * become bytes, an integer within i32 range an Int and any other a Long,
   * so an Int tag, written as a JSON integer, reads back as itself.
   */
  lemma NumbersAndFlagsDecode(rev: Revision, n: i64, b: bool, x: i32)
    ensures JsonToNbt(rev, JBool(b)) == Ok(Byte(if b then 1 else 0))
    ensures JsonToNbt(rev, JNull) == Ok(Byte(0))
    ensures I32_MIN <= n <= I32_MAX ==> JsonToNbt(rev, JInt(n)) == Ok(Int(n))
    ensures !(I32_MIN <= n <= I32_MAX) ==> JsonToNbt(rev, JInt(n)) == Ok(Long(n))
    ensures JsonToNbt(rev, NbtToJson(rev, Int(x))) == Ok(Int(x))
  {
  }

  lemma ByteRoundTrip(rev: Revision, b: i8)
    ensures JsonToNbt(rev, NbtToJson(rev, Byte(b))) == Ok(Byte(b))
  {
    SuffixedIntRoundTrip(rev, b, 'b', I8_MIN, I8_MAX);
    TextDecodes(rev, FormatInt(b) + "b");
  }

  lemma ShortRoundTrip(rev: Revision, x: i16)
    ensures JsonToNbt(rev, NbtToJson(rev, Short(x))) == Ok(Short(x))
  {
    SuffixedIntRoundTrip(rev, x, 's', I16_MIN, I16_MAX);
    TextDecodes(rev, FormatInt(x) + "s");
  }

  lemma LongRoundTrip(rev: Revision, l: i64)
    ensures JsonToNbt(rev, NbtToJson(rev, Long(l))) == Ok(Long(l))
  {
    SuffixedIntRoundTrip(rev, l, 'L', I64_MIN, I64_MAX);
    TextDecodes(rev, FormatInt(l) + "L");
  }

  lemma FloatRoundTrip(rev: Revision, f: F32Text)
    ensures JsonToNbt(rev, NbtToJson(rev, Float(f))) == Ok(Float(f))
  {
    FloatLiteralHasNoSemicolon(f);
    SuffixedIsNotArray(rev, f, 'f');
    TextDecodes(rev, f + "f");
  }

  lemma ScalarRoundTrip(rev: Revision, v: Value)
    requires v.Byte? || v.Short? || v.Long? || v.Float?
    ensures JsonToNbt(rev, NbtToJson(rev, v)) == Ok(v)
  {
    match v
    case Byte(b) => ByteRoundTrip(rev, b);
    case Short(x) => ShortRoundTrip(rev, x);
    case Long(l) => LongRoundTrip(rev, l);
    case Float(f) => FloatRoundTrip(rev, f);
  }

  /** An array text is never taken for an escaped string, and its second byte is `;`. */
  lemma ArrayTextShape(p: char, payload: seq<byte>)
    requires IsArrayPrefix(p)
    ensures !EndsWithEscape(ArrayText(p, payload))
    ensures SecondByteIsSemicolon(ArrayText(p, payload))
  {
    var e := Base64.Encode(payload);
    var s := ArrayText(p, payload);
    EscapeChars(s);
    if |e| > 0 {
      assert s[|s| - 2] == e[|e| - 2];
    }
  }

  lemma ArrayTextBytes(p: char, payload: seq<byte>)
    ensures ByteLen(ArrayText(p, payload)) >= 2
    ensures |payload| > 0 ==> ByteLen(ArrayText(p, payload)) > 2
  {
  }

  lemma ArrayTextPayload(p: char, payload: seq<byte>)
    ensures ArrayText(p, payload)[2..] == Base64.Encode(payload)
  {
  }

  /** The decoder reads a well-formed array text as an array text. */
  lemma ArrayTextIsArray(rev: Revision, p: char, payload: seq<byte>)
    requires IsArrayPrefix(p)
    requires rev == AsWritten ==> |payload| > 0
    ensures ParseStringValue(rev, ArrayText(p, payload)) == ParseArrayText(ArrayText(p, payload))
  {
    ArrayTextShape(p, payload);
    ArrayTextBytes(p, payload);
  }

  /** The base64 part of an array text decodes to its payload. */
  lemma ArrayTextPayloadDecodes(p: char, payload: seq<byte>)
    ensures Base64.Decode(ArrayText(p, payload)[2..]) == Some(payload)
  {
    ArrayTextPayload(p, payload);
    Base64.DecodeEncode(payload);
  }

  /** The decoder's reading of an array text whose payload decodes, by its prefix. */
  lemma ArrayTextParses(t: string, bytes: seq<byte>)
    requires |t| >= 2 && Base64.Decode(t[2..]) == Some(bytes)
    ensures t[0] == 'B' ==> ParseArrayText(t) == Ok(ByteArray(SignedBytes(bytes)))
    ensures t[0] == 'I' && |bytes| % 4 == 0 ==> ParseArrayText(t) == Ok(IntArray(UnpackBe(bytes, 32)))
    ensures t[0] == 'L' && |bytes| % 8 == 0 ==> ParseArrayText(t) == Ok(LongArray(UnpackBe(bytes, 64)))
  {
  }

  lemma ByteArrayTextRoundTrip(a: seq<i8>)
    ensures ParseArrayText(ArrayText('B', BytesOf(a))) == Ok(ByteArray(a))
  {
    var t := ArrayText('B', BytesOf(a));
    ArrayTextPayloadDecodes('B', BytesOf(a));
    assert t[0] == 'B';
    ArrayTextParses(t, BytesOf(a));
    SignedBytesOfBytesOf(a);
  }

  lemma IntArrayTextRoundTrip(a: seq<i32>)
    ensures ParseArrayText(ArrayText('I', PackBe(a, 32))) == Ok(IntArray(a))
  {
    var payload := PackBe(a, 32);
    var t := ArrayText('I', payload);
    ArrayTextPayloadDecodes('I', payload);
    assert t[0] == 'I';
    assert Width(32) == 4;
    UnpackPackBe(a, 32);
    ArrayTextParses(t, payload);
  }

  lemma LongArrayTextRoundTrip(a: seq<i64>)
    ensures ParseArrayText(ArrayText('L', PackBe(a, 64))) == Ok(LongArray(a))
  {
    var payload := PackBe(a, 64);
    var t := ArrayText('L', payload);
    ArrayTextPayloadDecodes('L', payload);
    assert t[0] == 'L';
    assert Width(64) == 8;
    UnpackPackBe(a, 64);
    ArrayTextParses(t, payload);
  }

  /** Arrays are read back as themselves; as written, only when they are not empty. */
  lemma ArrayRoundTrip(rev: Revision, v: Value)
    requires v.ByteArray? || v.IntArray? || v.LongArray?
    requires rev == AsWritten ==> |NbtToJson(rev, v).str| > 2
    ensures JsonToNbt(rev, NbtToJson(rev, v)) == Ok(v)
  {
    ArrayTextLength(rev, v);
    TextDecodes(rev, NbtToJson(rev, v).str);
    match v
    case ByteArray(a) =>
      ArrayTextIsArray(rev, 'B', BytesOf(a));
      ByteArrayTextRoundTrip(a);
    case IntArray(a) =>
      ArrayTextIsArray(rev, 'I', PackBe(a, 32));
      IntArrayTextRoundTrip(a);
    case LongArray(a) =>
      ArrayTextIsArray(rev, 'L', PackBe(a, 64));
      LongArrayTextRoundTrip(a);
  }

  /** The array texts are longer than their two-character prefix exactly when the array is not empty. */
  lemma ArrayTextLength(rev: Revision, v: Value)
    requires v.ByteArray? || v.IntArray? || v.LongArray?
    ensures var n := if v.ByteArray? then |v.bytes| else if v.IntArray? then |v.ints| else |v.longs|;
      NbtToJson(rev, v).JString? && (|NbtToJson(rev, v).str| > 2 <==> n > 0)
  {
  }

  // ---------------------------------------------------------------------
  // The whole tree
  // ---------------------------------------------------------------------

  /**
   * The tags the codec writes faithfully: doubles are finite, no compound
   * has the shape of the empty-list sentinel and, as written, strings
   * survive and arrays are not empty.
   */
  predicate Encodable(rev: Revision, v: Value)
    decreases v
  {
    match v
    case Double(d) => IsFinite(d)
    case String(s) => StringSurvives(rev, s)
    case ByteArray(a) => rev == Corrected || |a| > 0
    case IntArray(a) => rev == Corrected || |a| > 0
    case LongArray(a) => rev == Corrected || |a| > 0
    case List(items) => forall i | 0 <= i < |items| :: Encodable(rev, items[i])
    case Compound(m) => !IsEmptyListMarker(m) && forall k | k in m :: Encodable(rev, m[k])
    case _ => true
  }

  lemma DecodeArraySucceeds(rev: Revision, elems: seq<Json>, items: seq<Value>)
    requires |elems| == |items|
    requires forall i | 0 <= i < |elems| :: JsonToNbt(rev, elems[i]) == Ok(items[i])
    ensures JsonToNbt(rev, JArray(elems)) == Ok(List(items))
  {
    assert forall i | 0 <= i < |elems| :: JsonToNbt(rev, elems[i]).Ok?;
    var decoded := seq(|elems|, i requires 0 <= i < |elems| => JsonToNbt(rev, elems[i]).value);
    assert JsonToNbt(rev, JArray(elems)) == Ok(List(decoded));
    assert decoded == items;
  }

  /** Decoding an encoded tag gives the tag back. */
  lemma {:induction false} RoundTrip(rev: Revision, v: Value)
    requires Encodable(rev, v)
    ensures JsonToNbt(rev, NbtToJson(rev, v)) == Ok(v)
    decreases v
  {
    match v
    case Byte(_) => ScalarRoundTrip(rev, v);
    case Short(_) => ScalarRoundTrip(rev, v);
    case Int(_) =>
    case Long(_) => ScalarRoundTrip(rev, v);
    case Float(_) => ScalarRoundTrip(rev, v);
    case Double(_) =>
    case String(s) => StringRoundTrip(rev, s);
    case ByteArray(_) => ArrayTextLength(rev, v); ArrayRoundTrip(rev, v);
    case IntArray(_) => ArrayTextLength(rev, v); ArrayRoundTrip(rev, v);
    case LongArray(_) => ArrayTextLength(rev, v); ArrayRoundTrip(rev, v);
    case List(items) =>
      if |items| > 0 {
        var j := NbtToJson(rev, v);
        forall i | 0 <= i < |items|
          ensures JsonToNbt(rev, j.elems[i]) == Ok(items[i])
        {
          RoundTrip(rev, items[i]);
        }
        DecodeArraySucceeds(rev, j.elems, items);
      }
    case Compound(m) =>
      var j := NbtToJson(rev, v);
      forall k | k in m
        ensures JsonToNbt(rev, j.fields[k]) == Ok(m[k])
      {
        RoundTrip(rev, m[k]);
      }
      DecodeObjectSucceeds(rev, j.fields, m);
  }

  /** The corrected codec reads every string and every array back, whatever it holds. */
  lemma CorrectedRoundTrip(v: Value)
    requires v.String? || v.ByteArray? || v.IntArray? || v.LongArray?
    ensures JsonToNbt(Corrected, NbtToJson(Corrected, v)) == Ok(v)
  {
    RoundTrip(Corrected, v);
  }

  /** The decoder fails only on array texts, and when corrected only on the three array prefixes. */
  lemma DecodeErrorsAreArrayTexts(rev: Revision, s: string)
    ensures ParseStringValue(rev, s).Err? ==> SecondByteIsSemicolon(s) && ByteLen(s) >= 2
    ensures rev == Corrected && ParseStringValue(rev, s).Err? ==> IsArrayPrefix(s[0])
  {
  }

  /**
   * Exactly which strings the decoder rejects: an unescaped array text whose
   * payload is not base64, or an `I` or `L` payload that is not a whole
   * number of elements. As written this includes texts of any first byte.
   */
  lemma DecodeErrorsExactly(rev: Revision, s: string)
    ensures ParseStringValue(rev, s).Err? <==>
      && IsArrayText(rev, s) && !EndsWithEscape(s)
      && (|| Base64.Decode(s[2..]).None?
          || (s[0] == 'I' && |Base64.Decode(s[2..]).value| % 4 != 0)
          || (s[0] == 'L' && |Base64.Decode(s[2..]).value| % 8 != 0))
    ensures ParseStringValue(rev, s).Err? <==> JsonToNbt(rev, JString(s)).Err?
  {
  }

  /** As written, an unescaped text with `;` at byte 1 and a non-base64 tail is rejected whatever its first byte. */
  lemma NonBase64TextIsRejected(s: string)
    requires IsArrayText(AsWritten, s) && !EndsWithEscape(s) && Base64.Decode(s[2..]).None?
    ensures JsonToNbt(AsWritten, JString(s)) == Err(MalformedArray)
  {
  }

  // ---------------------------------------------------------------------
  // What the as-written codec loses (each is a concrete tag)
  // ---------------------------------------------------------------------

  /** A string ending with the two characters `\0` is not escaped, so decoding strips them. */
  lemma EscapedTailIsLost()
    ensures JsonToNbt(AsWritten, NbtToJson(AsWritten, String("a\\0"))) == Ok(String("a"))
  {
    var s := "a\\0";
    assert !IsTypeLike(AsWritten, s);
    assert s[|s| - 2..] == ESCAPE;
    assert s[..|s| - 2] == "a";
  }

  lemma SemicolonTextIsRejected()
    ensures StringText(AsWritten, "x;a") == "x;a"
    ensures ParseStringValue(AsWritten, "x;a") == Err(MalformedArray)
  {
    var s := "x;a";
    assert !IsTypeLike(AsWritten, s);
    assert s[2..] == "a";
  }

  /** A string whose second byte is `;` and whose first is not B, I or L is not escaped, and it does not decode. */
  lemma SemicolonStringIsRejected()
    ensures JsonToNbt(AsWritten, NbtToJson(AsWritten, String("x;a"))) == Err(MalformedArray)
  {
    SemicolonTextIsRejected();
    TextDecodes(AsWritten, "x;a");
  }

  lemma EmptyArrayTextIsString(p: char)
    requires IsArrayPrefix(p)
    ensures ParseStringValue(AsWritten, ArrayText(p, [])) == Ok(String([p, ';']))
  {
    var s := [p, ';'];
    assert ArrayText(p, []) == s;
    Utf8LenAscii(s);
    EscapeChars(s);
    assert !IsArrayText(AsWritten, s);
    assert !HasNumericSuffix(s);
  }

  /** An empty array of either kind is written as its bare prefix and read back as that string. */
  lemma EmptyArrayOf(v: Value, p: char)
    requires (v == ByteArray([]) && p == 'B') || (v == IntArray([]) && p == 'I') || (v == LongArray([]) && p == 'L')
    ensures JsonToNbt(AsWritten, NbtToJson(AsWritten, v)) == Ok(String([p, ';']))
  {
    assert BytesOf([]) == [];
    assert NbtToJson(AsWritten, v) == JString(ArrayText(p, []));
    EmptyArrayTextIsString(p);
    TextDecodes(AsWritten, ArrayText(p, []));
  }

  /** An empty array is written as its bare two-character prefix, which decodes as a string. */
  lemma EmptyArrayBecomesString()
    ensures JsonToNbt(AsWritten, NbtToJson(AsWritten, ByteArray([]))) == Ok(String("B;"))
    ensures JsonToNbt(AsWritten, NbtToJson(AsWritten, IntArray([]))) == Ok(String("I;"))
    ensures JsonToNbt(AsWritten, NbtToJson(AsWritten, LongArray([]))) == Ok(String("L;"))
  {
    EmptyArrayOf(ByteArray([]), 'B');
    EmptyArrayOf(IntArray([]), 'I');
    EmptyArrayOf(LongArray([]), 'L');
    assert "B;" == ['B', ';'] && "I;" == ['I', ';'] && "L;" == ['L', ';'];
  }

  /** In both revisions, a compound whose only key is `[]` reads back as the empty list. */
  lemma MarkerCompoundBecomesList(rev: Revision, v: Value)
    ensures JsonToNbt(rev, NbtToJson(rev, Compound(map[EMPTY_LIST_KEY := v]))) == Ok(List([]))
  {
    var j := NbtToJson(rev, Compound(map[EMPTY_LIST_KEY := v]));
    assert j.fields.Keys == {EMPTY_LIST_KEY};
  }

  /** Every JSON object with exactly the one member `[]` decodes to the empty list, whatever that member holds. */
  lemma MarkerObjectBecomesList(rev: Revision, fields: map<string, Json>)
    ensures IsEmptyListMarker(fields) ==> JsonToNbt(rev, JObject(fields)) == Ok(List([]))
    ensures !IsEmptyListMarker(fields) ==> JsonToNbt(rev, JObject(fields)) != Ok(List([]))
  {
  }

  /** In both revisions, a NaN or an infinity is written as text with a `d` suffix, which reads back as a string. */
  lemma NonFiniteDoubleBecomesString(rev: Revision, d: F64)
    requires !IsFinite(d)
    ensures JsonToNbt(rev, NbtToJson(rev, Double(d))) == Ok(String(NonFiniteText(d) + "d"))
  {
    var s := NonFiniteText(d) + "d";
    assert s[|s| - 1] == 'd';
    assert s[1] == 'a' || s[1] == 'n' || s[1] == 'i';
  }
}
