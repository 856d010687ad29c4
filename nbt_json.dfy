/**
 * The compact tag <-> JSON codec.
 *
 * Tags the JSON number type would lose are written as strings with a type
 * marker: a numeric suffix (`5b`, `-3s`, `7L`, `1.5f`) or an array prefix
 * (`B;`, `I;`, `L;` followed by the base64 of the big-endian elements).
 * A plain string that looks like one of those gets the two-character escape
 * `\0` appended; an empty list becomes the sentinel object {"[]": "End"}.
 *
 * `Revision` selects the codec: `AsWritten` is the code as it stands,
 * `Corrected` closes the three holes the round-trip lemma exposes (see
 * the counterexample lemmas at the end).
 */
module NbtJson {
  import opened Wrappers
  import opened Ints
  import opened Floats
  import Text
  import Base64
  import opened Nbt
  import opened Json

  datatype Revision = AsWritten | Corrected

  /** The decoder's only failure: an array text whose payload is not base64, or not whole elements. */
  datatype CodecError = MalformedArray

  /** The two characters `\` `0` appended to escape a type-like string. */
  const ESCAPE: string := "\\0"
  const EMPTY_LIST_KEY: string := "[]"
  const EMPTY_LIST_TAG: string := "End"

  /** The object an empty list is written as. */
  function EmptyListMarker(): (j: Json)
    ensures j.JObject? && IsEmptyListMarker(j.fields)
  {
    JObject(map[EMPTY_LIST_KEY := JString(EMPTY_LIST_TAG)])
  }

  /** The decoder's test for the sentinel: exactly one member, named `[]`, whatever its value. */
  predicate IsEmptyListMarker<T>(fields: map<string, T>) {
    |fields| == 1 && EMPTY_LIST_KEY in fields
  }

  // ---------------------------------------------------------------------
  // Byte-level tests on strings
  // ---------------------------------------------------------------------

  /** `str::len`. */
  function ByteLen(s: string): nat {
    Text.Utf8Len(s)
  }

  /**
   * `s.as_bytes().get(1) == Some(&b';')`. A multi-byte first character puts
   * a continuation byte (0x80..0xBF) at index 1, so byte 1 is `;` exactly
   * when the first character is ASCII and the second is `;`.
   */
  predicate SecondByteIsSemicolon(s: string) {
    |s| >= 2 && (s[0] as int) < 0x80 && s[1] == ';'
  }

  predicate EndsWithEscape(s: string) {
    |s| >= 2 && s[|s| - 2..] == ESCAPE
  }

  /** The type suffixes of byte, short, long and float: `b`, `s`, `L`, `f`. */
  predicate IsSuffixChar(c: char) {
    c == 'b' || c == 's' || c == 'L' || c == 'f'
  }

  /** The array prefixes of byte, int and long arrays: `B`, `I`, `L`. */
  predicate IsArrayPrefix(c: char) {
    c == 'B' || c == 'I' || c == 'L'
  }

  /** The last character is one of the numeric type suffixes. */
  predicate HasNumericSuffix(s: string) {
    |s| >= 1 && IsSuffixChar(s[|s| - 1])
  }

  /** s without its one-byte suffix. */
  function Stem(s: string): string
    requires |s| >= 1
  {
    s[..|s| - 1]
  }

  /**
   * The decoder's test for entering the array branch. As written it takes
   * any first byte and needs more than two bytes; corrected, it takes only
   * the three array prefixes and also the empty payload.
   */
  predicate IsArrayText(rev: Revision, s: string) {
    match rev
    case AsWritten => ByteLen(s) > 2 && SecondByteIsSemicolon(s)
    case Corrected => ByteLen(s) >= 2 && SecondByteIsSemicolon(s) && IsArrayPrefix(s[0])
  }

  /**
   * The encoder's test for escaping a string: it has at least two bytes and
   * a numeric suffix on a float literal, or the decoder would take it for an
   * array with a known prefix. Corrected, a string that already ends with
   * the escape is escaped too.
   */
  predicate IsTypeLike(rev: Revision, s: string) {
    || (rev == Corrected && EndsWithEscape(s))
    || (ByteLen(s) >= 2 && HasNumericSuffix(s) && Text.IsFloatLiteral(Stem(s)))
    || (IsArrayText(rev, s) && IsArrayPrefix(s[0]))
  }

  // ---------------------------------------------------------------------
  // Array payloads
  // ---------------------------------------------------------------------

  /** Bytes of one element of a 32- or 64-bit array. */
  function Width(bits: nat): nat
    requires bits == 32 || bits == 64
  {
    if bits == 32 then 4 else 8
  }

  predicate InWidth(v: int, bits: nat)
    requires bits == 32 || bits == 64
  {
    if bits == 32 then I32_MIN <= v <= I32_MAX else I64_MIN <= v <= I64_MAX
  }

  /** `b as u8` for every element. */
  function BytesOf(a: seq<i8>): (r: seq<byte>)
    ensures |r| == |a|
  {
    seq(|a|, i requires 0 <= i < |a| => U8Of(a[i]))
  }

  /** `b as i8` for every byte. */
  function SignedBytes(bs: seq<byte>): (r: seq<i8>)
    ensures |r| == |bs|
  {
    seq(|bs|, i requires 0 <= i < |bs| => I8Of(bs[i]))
  }

  /** `v.to_be_bytes()` of every element, concatenated. */
  function PackBe(vals: seq<int>, bits: nat): (r: seq<byte>)
    requires bits == 32 || bits == 64
    ensures |r| % Width(bits) == 0
    ensures |r| == 0 <==> |vals| == 0
  {
    if vals == [] then []
    else BeBytes(Unsigned(vals[0], bits), Width(bits)) + PackBe(vals[1..], bits)
  }

  /** `bytes.chunks(w).map(from_be_bytes)` over a whole number of chunks. */
  function UnpackBe(bs: seq<byte>, bits: nat): (r: seq<int>)
    requires bits == 32 || bits == 64
    requires |bs| % Width(bits) == 0
    ensures forall i :: 0 <= i < |r| ==> InWidth(r[i], bits)
    decreases |bs|
  {
    if bs == [] then []
    else
      var w := Width(bits);
      Pow256Widths();
      [Signed(BeValue(bs[..w]), bits)] + UnpackBe(bs[w..], bits)
  }

  /** The text of an array: its prefix letter, `;`, and the base64 payload. */
  function ArrayText(prefix: char, payload: seq<byte>): string {
    [prefix, ';'] + Base64.Encode(payload)
  }

  // ---------------------------------------------------------------------
  // The codec
  // ---------------------------------------------------------------------

  /** A string tag's JSON text: escaped when it looks like a marker. */
  function StringText(rev: Revision, s: string): string {
    if IsTypeLike(rev, s) then s + ESCAPE else s
  }

  function NbtToJson(rev: Revision, v: Value): (j: Json)
    ensures v.List? && |v.items| > 0 ==> j.JArray? && |j.elems| == |v.items|
    ensures v.Compound? ==> j.JObject? && j.fields.Keys == v.entries.Keys
    decreases v
  {
    match v
    case Byte(b) => JString(Text.FormatInt(b) + "b")
    case Short(x) => JString(Text.FormatInt(x) + "s")
    case Int(n) => JInt(n)
    case Long(l) => JString(Text.FormatInt(l) + "L")
    case Float(f) => JString(f + "f")
    case Double(d) => if IsFinite(d) then JFloat(d) else JString(NonFiniteText(d) + "d")
    case String(s) => JString(StringText(rev, s))
    case ByteArray(a) => JString(ArrayText('B', BytesOf(a)))
    case IntArray(a) => JString(ArrayText('I', PackBe(a, 32)))
    case LongArray(a) => JString(ArrayText('L', PackBe(a, 64)))
    case List(items) =>
      if |items| == 0 then EmptyListMarker()
      else JArray(seq(|items|, i requires 0 <= i < |items| => NbtToJson(rev, items[i])))
    case Compound(m) => JObject(map k | k in m :: NbtToJson(rev, m[k]))
  }

  /** The number a suffix and its stem denote, if the stem parses as that type. */
  function SuffixedNumber(c: char, stem: string): (r: Option<Value>)
    ensures r.Some? ==> IsSuffixChar(c) && !r.value.String?
  {
    if c == 'b' then
      var b := Text.ParseInt(stem, I8_MIN, I8_MAX);
      if b.Some? then Some(Byte(b.value)) else None
    else if c == 's' then
      var h := Text.ParseInt(stem, I16_MIN, I16_MAX);
      if h.Some? then Some(Short(h.value)) else None
    else if c == 'L' then
      var l := Text.ParseInt(stem, I64_MIN, I64_MAX);
      if l.Some? then Some(Long(l.value)) else None
    else if c == 'f' && Text.IsFloatLiteral(stem) then Some(Float(stem))
    else None
  }

  /** A string with a numeric suffix whose stem parses becomes that number; anything else stays a string. */
  function ParseSuffixed(s: string): (r: Result<Value, CodecError>)
    ensures r.Ok?
    ensures r.value.String? ==> r.value.str == s
  {
    if HasNumericSuffix(s) then
      match SuffixedNumber(s[|s| - 1], Stem(s))
      case Some(v) => Ok(v)
      case None => Ok(String(s))
    else Ok(String(s))
  }

  /** The array branch: the base64 payload read as bytes, big-endian ints or big-endian longs. */
  function ParseArrayText(s: string): (r: Result<Value, CodecError>)
    requires |s| >= 2
  {
    match Base64.Decode(s[2..])
    case None => Err(MalformedArray)
    case Some(bytes) =>
      if s[0] == 'B' then Ok(ByteArray(SignedBytes(bytes)))
      else if s[0] == 'I' then
        if |bytes| % 4 == 0 then Ok(IntArray(UnpackBe(bytes, 32))) else Err(MalformedArray)
      else if s[0] == 'L' then
        if |bytes| % 8 == 0 then Ok(LongArray(UnpackBe(bytes, 64))) else Err(MalformedArray)
      else ParseSuffixed(s)
  }

  /** The decoder for a JSON string: escape first, then arrays, then numeric suffixes. */
  function ParseStringValue(rev: Revision, s: string): (r: Result<Value, CodecError>)
    ensures r.Err? ==> IsArrayText(rev, s) && !EndsWithEscape(s)
    ensures IsArrayText(rev, s) && !EndsWithEscape(s) && Base64.Decode(s[2..]).None? ==> r == Err(MalformedArray)
  {
    if EndsWithEscape(s) then Ok(String(s[..|s| - 2]))
    else if IsArrayText(rev, s) then ParseArrayText(s)
    else ParseSuffixed(s)
  }

  function JsonToNbt(rev: Revision, j: Json): (r: Result<Value, CodecError>)
    ensures j.JObject? && !IsEmptyListMarker(j.fields) && r.Ok? ==> r.value.Compound? && r.value.entries.Keys == j.fields.Keys
    decreases j
  {
    match j
    case JObject(fields) =>
      if IsEmptyListMarker(fields) then Ok(List([]))
      else if forall k | k in fields :: JsonToNbt(rev, fields[k]).Ok? then
        Ok(Compound(map k | k in fields :: JsonToNbt(rev, fields[k]).value))
      else Err(MalformedArray)
    case JArray(elems) =>
      if forall i | 0 <= i < |elems| :: JsonToNbt(rev, elems[i]).Ok? then
        Ok(List(seq(|elems|, i requires 0 <= i < |elems| => JsonToNbt(rev, elems[i]).value)))
      else Err(MalformedArray)
    case JString(s) => ParseStringValue(rev, s)
    case JInt(n) => if I32_MIN <= n <= I32_MAX then Ok(Int(n)) else Ok(Long(n))
    case JFloat(d) => Ok(Double(d))
    case JBool(b) => Ok(Byte(if b then 1 else 0))
    case JNull => Ok(Byte(0))
  }

  // ---------------------------------------------------------------------
  // The two loops of the source, proved against the functions above
  // ---------------------------------------------------------------------

  lemma {:induction false} PackBeAppend(a: seq<int>, x: int, bits: nat)
    requires bits == 32 || bits == 64
    ensures PackBe(a + [x], bits) == PackBe(a, bits) + BeBytes(Unsigned(x, bits), Width(bits))
  {
    if a != [] {
      assert (a + [x])[1..] == a[1..] + [x];
      PackBeAppend(a[1..], x, bits);
    } else {
      assert a + [x] == [x];
    }
  }

  /** The `for &v in arr { bytes.extend_from_slice(&v.to_be_bytes()) }` loop of the int and long arrays. */
  method PackArray(vals: seq<int>, bits: nat) returns (bytes: seq<byte>)
    requires bits == 32 || bits == 64
    ensures bytes == PackBe(vals, bits)
  {
    bytes := [];
    var i := 0;
    while i < |vals|
      invariant 0 <= i <= |vals|
      invariant bytes == PackBe(vals[..i], bits)
    {
      assert vals[..i + 1] == vals[..i] + [vals[i]];
      PackBeAppend(vals[..i], vals[i], bits);
      bytes := bytes + BeBytes(Unsigned(vals[i], bits), Width(bits));
      i := i + 1;
    }
    assert vals[..i] == vals;
  }

  lemma DecodeObjectFails(rev: Revision, fields: map<string, Json>, k: string)
    requires !IsEmptyListMarker(fields) && k in fields && JsonToNbt(rev, fields[k]).Err?
    ensures JsonToNbt(rev, JObject(fields)) == Err(MalformedArray)
  {
  }

  lemma DecodeObjectSucceeds(rev: Revision, fields: map<string, Json>, m: map<string, Value>)
    requires !IsEmptyListMarker(fields) && m.Keys == fields.Keys
    requires forall k | k in m :: JsonToNbt(rev, fields[k]) == Ok(m[k])
    ensures JsonToNbt(rev, JObject(fields)) == Ok(Compound(m))
  {
    assert forall k | k in fields :: JsonToNbt(rev, fields[k]).Ok?;
    var decoded := map k | k in fields :: JsonToNbt(rev, fields[k]).value;
    assert JsonToNbt(rev, JObject(fields)) == Ok(Compound(decoded));
    assert m == decoded;
  }

  /**
   * The object branch of the decoder: the sentinel check, then one insertion
   * per member, stopping at the first member that fails to decode.
   */
  method DecodeObject(rev: Revision, fields: map<string, Json>) returns (r: Result<Value, CodecError>)
    ensures r == JsonToNbt(rev, JObject(fields))
  {
    if IsEmptyListMarker(fields) {
      return Ok(List([]));
    }
    var m: map<string, Value> := map[];
    var todo := fields.Keys;
    while todo != {}
      invariant todo <= fields.Keys
      invariant m.Keys == fields.Keys - todo
      invariant forall k | k in m :: JsonToNbt(rev, fields[k]) == Ok(m[k])
      decreases |todo|
    {
      var k :| k in todo;
      var e := JsonToNbt(rev, fields[k]);
      if e.Err? {
        DecodeObjectFails(rev, fields, k);
        return Err(MalformedArray);
      }
      m := m[k := e.value];
      todo := todo - {k};
    }
    DecodeObjectSucceeds(rev, fields, m);
    return Ok(Compound(m));
  }
}
