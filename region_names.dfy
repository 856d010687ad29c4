/**
 * Region file names: `r.<rx>.<rz>.mca` for containers and
 * `r.<rx>.<rz>.<id>.json` for the exported slices. The source finds them
 * with the unanchored patterns `r\.(-?\d+)\.(-?\d+)\.mca` and
 * `r\.(-?\d+)\.(-?\d+)\.(\d+)\.json`. A pattern is written here as a
 * sequence of tokens, and the matcher follows the regular expression
 * engine's leftmost-first search: the first start position with a match,
 * each `-?` and `\d+` as long as it can be. In these patterns every number
 * is followed by a literal starting with '.', so that match is the only
 * one at its start position.
 */
module RegionNames {
  import opened Wrappers
  import opened Ints
  import opened Text

  /** A literal, `-?\d+`, or `\d+`. */
  datatype Token = Lit(text: string) | Num | Digits

  const MCA_PATTERN: seq<Token> := [Lit("r."), Num, Lit("."), Num, Lit(".mca")]
  const SLICE_PATTERN: seq<Token> := [Lit("r."), Num, Lit("."), Num, Lit("."), Digits, Lit(".json")]

  predicate HasAt(s: string, i: nat, lit: string) {
    i + |lit| <= |s| && s[i..i + |lit|] == lit
  }

  /** The text `-?\d+` matches. */
  predicate IsNumberText(t: string) {
    if |t| > 0 && t[0] == '-' then |t| > 1 && AllDigits(t[1..]) else |t| > 0 && AllDigits(t)
  }

  /** What a token accepts as its whole match. */
  predicate Fits(t: Token, cap: string) {
    match t
    case Lit(x) => cap == x
    case Num => IsNumberText(cap)
    case Digits => |cap| > 0 && AllDigits(cap)
  }

  /** End of the longest run of ASCII digits from i. */
  function DigitRunEnd(s: string, i: nat): (e: nat)
    requires i <= |s|
    ensures i <= e <= |s|
    ensures forall k | i <= k < e :: IsDigit(s[k])
    ensures e == |s| || !IsDigit(s[e])
    decreases |s| - i
  {
    if i < |s| && IsDigit(s[i]) then DigitRunEnd(s, i + 1) else i
  }

  /** Where the match of one token at i ends, if the token matches there. */
  function TokenEnd(t: Token, s: string, i: nat): (r: Option<nat>)
    requires i <= |s|
    ensures r.Some? ==> i <= r.value <= |s| && Fits(t, s[i..r.value])
  {
    match t
    case Lit(x) => if HasAt(s, i, x) then Some(i + |x|) else None
    case Digits =>
      var e := DigitRunEnd(s, i);
      assert AllDigits(s[i..e]);
      if e == i then None else Some(e)
    case Num =>
      var j := if i < |s| && s[i] == '-' then i + 1 else i;
      var e := DigitRunEnd(s, j);
      assert AllDigits(s[j..e]);
      if e == j then None
      else
        assert j == i + 1 ==> s[i..e][1..] == s[j..e];
        Some(e)
  }

  /** The match of a token sequence at i: where it ends and the text each token took. */
  function MatchTokens(toks: seq<Token>, s: string, i: nat): (r: Option<(nat, seq<string>)>)
    requires i <= |s|
    ensures r.Some? ==> i <= r.value.0 <= |s| && |r.value.1| == |toks|
    decreases |toks|
  {
    if toks == [] then Some((i, []))
    else
      match TokenEnd(toks[0], s, i)
      case None => None
      case Some(e) =>
        match MatchTokens(toks[1..], s, e)
        case None => None
        case Some(m) => Some((m.0, [s[i..e]] + m.1))
  }

  /** A match spells its captures, one after the other, each fitting its token. */
  lemma {:induction false} MatchTokensSound(toks: seq<Token>, s: string, i: nat)
    requires i <= |s| && MatchTokens(toks, s, i).Some?
    ensures var m := MatchTokens(toks, s, i).value;
      && s[i..m.0] == Concat(m.1)
      && (forall k | 0 <= k < |toks| :: Fits(toks[k], m.1[k]))
    decreases |toks|
  {
    if toks != [] {
      var e := TokenEnd(toks[0], s, i).value;
      MatchTokensSound(toks[1..], s, e);
      var m := MatchTokens(toks[1..], s, e).value;
      var caps := [s[i..e]] + m.1;
      assert caps[1..] == m.1;
      assert s[i..m.0] == s[i..e] + s[e..m.0];
      assert forall k | 1 <= k < |toks| :: toks[k] == toks[1..][k - 1] && caps[k] == m.1[k - 1];
    }
  }

  /**
   * Every number token is followed by a literal whose first character is
   * not a digit, so that no shorter run of digits could be followed by it.
   */
  predicate Delimited(toks: seq<Token>) {
    && (forall k | 0 <= k < |toks| && toks[k].Lit? :: |toks[k].text| > 0)
    && (forall k | 0 <= k < |toks| && !toks[k].Lit? ::
          k + 1 < |toks| && toks[k + 1].Lit? && !IsDigit(toks[k + 1].text[0]))
  }

  /** A run of digits from j that stops at e, at the end or before a non-digit, is the longest run. */
  lemma {:induction false} DigitRunEndAt(s: string, j: nat, e: nat)
    requires j <= e <= |s| && forall k | j <= k < e :: IsDigit(s[k])
    requires e == |s| || !IsDigit(s[e])
    ensures DigitRunEnd(s, j) == e
    decreases e - j
  {
    if j < e {
      DigitRunEndAt(s, j + 1, e);
    }
  }

  /** A number token whose capture is followed in s by a non-digit matches exactly that capture. */
  lemma TokenEndOfCapture(t: Token, s: string, i: nat, cap: string)
    requires !t.Lit? && Fits(t, cap) && HasAt(s, i, cap)
    requires i + |cap| == |s| || !IsDigit(s[i + |cap|])
    ensures TokenEnd(t, s, i) == Some(i + |cap|)
  {
    var e := i + |cap|;
    assert forall k | 0 <= k < |cap| :: s[i + k] == cap[k];
    if t.Num? && cap[0] == '-' {
      assert s[i] == '-' && AllDigits(cap[1..]);
      assert forall k | i + 1 <= k < e :: s[k] == cap[1..][k - i - 1];
      DigitRunEndAt(s, i + 1, e);
    } else {
      assert AllDigits(cap) && |cap| > 0;
      assert IsDigit(s[i]) && s[i] != '-';
      DigitRunEndAt(s, i, e);
    }
  }

  /**
   * The converse of `MatchTokens`' contract for a delimited pattern: text
   * that spells the pattern at i (each capture fitting its token) is
   * matched there, with exactly those captures.
   */
  lemma {:induction false} MatchOfSpelling(toks: seq<Token>, s: string, i: nat, caps: seq<string>)
    requires Delimited(toks) && |caps| == |toks|
    requires forall k | 0 <= k < |toks| :: Fits(toks[k], caps[k])
    requires HasAt(s, i, Concat(caps))
    ensures MatchTokens(toks, s, i) == Some((i + |Concat(caps)|, caps))
    decreases |toks|
  {
    if toks == [] {
      assert caps == [] && Concat(caps) == "";
    } else {
      var rest := caps[1..];
      var e := i + |caps[0]|;
      SpellingSplits(s, i, caps);
      FirstTokenOfSpelling(toks, s, i, caps);
      SpelledTail(toks, caps);
      MatchOfSpelling(toks[1..], s, e, rest);
      var end := e + |Concat(rest)|;
      assert end == i + |Concat(caps)|;
      MatchCons(toks, s, i, e, end, caps);
    }
  }

  /** The first token of a spelled pattern takes exactly its capture. */
  lemma FirstTokenOfSpelling(toks: seq<Token>, s: string, i: nat, caps: seq<string>)
    requires Delimited(toks) && |caps| == |toks| && |toks| > 0
    requires forall k | 0 <= k < |toks| :: Fits(toks[k], caps[k])
    requires HasAt(s, i, caps[0]) && HasAt(s, i + |caps[0]|, Concat(caps[1..]))
    ensures TokenEnd(toks[0], s, i) == Some(i + |caps[0]|) && s[i..i + |caps[0]|] == caps[0]
  {
    if !toks[0].Lit? {
      FollowedByLiteral(toks, s, i, caps);
      TokenEndOfCapture(toks[0], s, i, caps[0]);
    }
  }

  /** `MatchTokens` when the first token takes the first capture, ending at e, and the rest match from e. */
  lemma MatchCons(toks: seq<Token>, s: string, i: nat, e: nat, end: nat, caps: seq<string>)
    requires |toks| > 0 && |caps| > 0 && i <= e <= |s| && TokenEnd(toks[0], s, i) == Some(e) && s[i..e] == caps[0]
    requires MatchTokens(toks[1..], s, e) == Some((end, caps[1..]))
    ensures MatchTokens(toks, s, i) == Some((end, caps))
  {
    assert [caps[0]] + caps[1..] == caps;
  }

  /** Text spelling the captures spells the first, then the rest. */
  lemma SpellingSplits(s: string, i: nat, caps: seq<string>)
    requires |caps| > 0 && HasAt(s, i, Concat(caps))
    ensures |Concat(caps)| == |caps[0]| + |Concat(caps[1..])|
    ensures HasAt(s, i, caps[0]) && HasAt(s, i + |caps[0]|, Concat(caps[1..]))
  {
    var whole := Concat(caps);
    assert whole == caps[0] + Concat(caps[1..]);
    var t := s[i..i + |whole|];
    assert s[i..i + |caps[0]|] == t[..|caps[0]|];
    assert s[i + |caps[0]|..i + |whole|] == t[|caps[0]|..];
  }

  /** After a number's capture the text goes on with the literal that follows it, which starts with a non-digit. */
  lemma FollowedByLiteral(toks: seq<Token>, s: string, i: nat, caps: seq<string>)
    requires Delimited(toks) && |caps| == |toks| && |toks| > 0 && !toks[0].Lit?
    requires forall k | 0 <= k < |toks| :: Fits(toks[k], caps[k])
    requires HasAt(s, i + |caps[0]|, Concat(caps[1..]))
    ensures i + |caps[0]| < |s| && !IsDigit(s[i + |caps[0]|])
  {
    var rest := caps[1..];
    assert toks[1].Lit? && caps[1] == toks[1].text && |caps[1]| > 0;
    assert Concat(rest) == caps[1] + Concat(rest[1..]);
    var e := i + |caps[0]|;
    assert s[e] == s[e..e + |Concat(rest)|][0];
  }

  /** The tail of a delimited pattern is delimited, and the remaining captures fit it. */
  lemma SpelledTail(toks: seq<Token>, caps: seq<string>)
    requires Delimited(toks) && |caps| == |toks| && |toks| > 0
    requires forall k | 0 <= k < |toks| :: Fits(toks[k], caps[k])
    ensures Delimited(toks[1..]) && |caps[1..]| == |toks[1..]|
    ensures forall k | 0 <= k < |toks[1..]| :: Fits(toks[1..][k], caps[1..][k])
  {
    DelimitedTail(toks);
    assert forall k | 0 <= k < |toks[1..]| :: toks[1..][k] == toks[k + 1] && caps[1..][k] == caps[k + 1];
  }

  lemma DelimitedTail(toks: seq<Token>)
    requires Delimited(toks) && |toks| > 0
    ensures Delimited(toks[1..])
  {
    forall k | 0 <= k < |toks[1..]| && !toks[1..][k].Lit?
      ensures k + 1 < |toks[1..]| && toks[1..][k + 1].Lit? && !IsDigit(toks[1..][k + 1].text[0])
    {
      assert toks[1..][k] == toks[k + 1];
    }
  }

  /** The leftmost start position at or after p where the pattern matches. */
  function FirstMatch(toks: seq<Token>, s: string, p: nat): (r: Option<nat>)
    requires p <= |s|
    ensures r.Some? ==> p <= r.value <= |s| && MatchTokens(toks, s, r.value).Some?
    decreases |s| - p
  {
    if MatchTokens(toks, s, p).Some? then Some(p)
    else if p == |s| then None
    else FirstMatch(toks, s, p + 1)
  }

  /** The match found is the leftmost one, and none is found only when there is none. */
  lemma {:induction false} FirstMatchIsLeftmost(toks: seq<Token>, s: string, p: nat, q: nat)
    requires p <= q <= |s|
    ensures FirstMatch(toks, s, p).Some? && q < FirstMatch(toks, s, p).value ==> MatchTokens(toks, s, q).None?
    ensures FirstMatch(toks, s, p).None? ==> MatchTokens(toks, s, q).None?
    decreases |s| - p
  {
    if p < q && MatchTokens(toks, s, p).None? {
      FirstMatchIsLeftmost(toks, s, p + 1, q);
    }
  }

  /** The captures of the leftmost match, `Regex::captures`. */
  function Captures(toks: seq<Token>, s: string): (r: Option<seq<string>>)
    ensures r.Some? ==> |r.value| == |toks| && forall k | 0 <= k < |toks| :: Fits(toks[k], r.value[k])
  {
    match FirstMatch(toks, s, 0)
    case None => None
    case Some(q) =>
      MatchTokensSound(toks, s, q);
      Some(MatchTokens(toks, s, q).value.1)
  }

  // ---------------------------------------------------------------------
  // Container names
  // ---------------------------------------------------------------------

  /** `parse_mca_filename`: the region coordinates, None without a match or when a number does not fit an i32. */
  function ParseMcaFilename(name: string): Option<(i32, i32)> {
    match Captures(MCA_PATTERN, name)
    case None => None
    case Some(caps) =>
      match (ParseInt(caps[1], I32_MIN, I32_MAX), ParseInt(caps[3], I32_MIN, I32_MAX))
      case (Some(rx), Some(rz)) => Some((rx as i32, rz as i32))
      case _ => None
  }

  /** The name of region (rx, rz)'s container. */
  function McaFileName(rx: i32, rz: i32): string {
    Concat(["r.", FormatInt(rx), ".", FormatInt(rz), ".mca"])
  }

  lemma FormatIntIsNumberText(i: int)
    ensures IsNumberText(FormatInt(i))
  {
    var t := FormatInt(i);
    if t[0] == '-' {
      assert forall k | 0 <= k < |t[1..]| :: t[1..][k] == t[k + 1];
    }
  }

  lemma McaPatternDelimited()
    ensures Delimited(MCA_PATTERN)
  {
  }

  lemma SlicePatternDelimited()
    ensures Delimited(SLICE_PATTERN)
  {
  }

  /**
   * A container's name gives back its coordinates, also with anything after
   * it: the pattern is not anchored, so `r.1.2.mca.bak` names region (1, 2).
   */
  lemma {:induction false} McaFileNameRoundTrip(rx: i32, rz: i32, suffix: string)
    ensures ParseMcaFilename(McaFileName(rx, rz) + suffix) == Some((rx, rz))
  {
    var caps := ["r.", FormatInt(rx), ".", FormatInt(rz), ".mca"];
    var s := McaFileName(rx, rz) + suffix;
    FormatIntIsNumberText(rx);
    FormatIntIsNumberText(rz);
    McaPatternDelimited();
    assert s[0..|Concat(caps)|] == Concat(caps);
    MatchOfSpelling(MCA_PATTERN, s, 0, caps);
    FormatThenParse(rx, I32_MIN, I32_MAX);
    FormatThenParse(rz, I32_MIN, I32_MAX);
  }

  /** A coordinate that does not fit an i32 makes the name unusable, even though the pattern matches. */
  lemma {:induction false} OutOfRangeCoordinate(rx: int, rz: i32)
    requires rx < I32_MIN || rx > I32_MAX
    ensures ParseMcaFilename(Concat(["r.", FormatInt(rx), ".", FormatInt(rz), ".mca"])) == None
  {
    var caps := ["r.", FormatInt(rx), ".", FormatInt(rz), ".mca"];
    var s := Concat(caps);
    FormatIntIsNumberText(rx);
    FormatIntIsNumberText(rz);
    McaPatternDelimited();
    assert s[0..|s|] == s;
    MatchOfSpelling(MCA_PATTERN, s, 0, caps);
    FormatThenParse(rx, rx, rx);
    assert ParseInt(FormatInt(rx), I32_MIN, I32_MAX) == None;
  }

  /** Leading zeros are accepted: `r.007.2.mca` is region (7, 2). */
  lemma {:induction false} LeadingZeros(rx: i32, rz: i32, zeros: nat)
    requires rx >= 0
    ensures ParseMcaFilename(Concat(["r.", ZeroDigits(zeros) + FormatInt(rx), ".", FormatInt(rz), ".mca"])) == Some((rx, rz))
  {
    var caps := ["r.", ZeroDigits(zeros) + FormatInt(rx), ".", FormatInt(rz), ".mca"];
    var s := Concat(caps);
    ZerosThenDigits(zeros, FormatInt(rx));
    FormatIntIsNumberText(rz);
    McaPatternDelimited();
    assert s[0..|s|] == s;
    MatchOfSpelling(MCA_PATTERN, s, 0, caps);
    FormatThenParse(rx, I32_MIN, I32_MAX);
    FormatThenParse(rz, I32_MIN, I32_MAX);
  }

  function ZeroDigits(n: nat): (z: string)
    ensures |z| == n && forall k | 0 <= k < n :: z[k] == '0'
  {
    seq(n, _ => '0')
  }

  /** Digits after leading zeros keep their value. */
  lemma {:induction false} ZerosThenDigits(n: nat, t: string)
    requires |t| > 0 && AllDigits(t)
    ensures AllDigits(ZeroDigits(n) + t) && DigitsValue(ZeroDigits(n) + t) == DigitsValue(t)
    ensures ParseInt(ZeroDigits(n) + t, I32_MIN, I32_MAX) == ParseInt(t, I32_MIN, I32_MAX)
    ensures IsNumberText(ZeroDigits(n) + t)
    decreases |t|
  {
    var u := ZeroDigits(n) + t;
    if |t| == 1 {
      ZerosValue(n);
      assert u[..|u| - 1] == ZeroDigits(n);
    } else {
      ZerosThenDigits(n, t[..|t| - 1]);
      assert u[..|u| - 1] == ZeroDigits(n) + t[..|t| - 1];
    }
  }

  lemma {:induction false} ZerosValue(n: nat)
    ensures AllDigits(ZeroDigits(n)) && DigitsValue(ZeroDigits(n)) == 0
  {
    if n > 0 {
      ZerosValue(n - 1);
      assert ZeroDigits(n)[..n - 1] == ZeroDigits(n - 1);
    }
  }

  // ---------------------------------------------------------------------
  // Slice names
  // ---------------------------------------------------------------------

  /** A slice name whose coordinates do not fit an i32 is an error for the whole restore. */
  datatype NameError = CoordinateOutOfRange(name: string)

  /**
   * The grouping key of a slice file: None for a name that is not a slice,
   * an error when a coordinate does not parse as an i32 (the `?` after
   * `parse`).
   */
  function ParseSliceFilename(name: string): Result<Option<(i32, i32)>, NameError> {
    match Captures(SLICE_PATTERN, name)
    case None => Ok(None)
    case Some(caps) =>
      match (ParseInt(caps[1], I32_MIN, I32_MAX), ParseInt(caps[3], I32_MIN, I32_MAX))
      case (Some(rx), Some(rz)) => Ok(Some((rx as i32, rz as i32)))
      case _ => Err(CoordinateOutOfRange(name))
  }

  /** `format!("r.{}.{}.{}.json", rx, rz, slice_id)`. */
  function SliceFileName(rx: i32, rz: i32, id: nat): string {
    Concat(["r.", FormatInt(rx), ".", FormatInt(rz), ".", NatDigits(id), ".json"])
  }

  /** A slice's name gives back the region it belongs to, whatever its number. */
  lemma {:induction false} SliceFileNameRoundTrip(rx: i32, rz: i32, id: nat)
    ensures ParseSliceFilename(SliceFileName(rx, rz, id)) == Ok(Some((rx, rz)))
  {
    var caps := ["r.", FormatInt(rx), ".", FormatInt(rz), ".", NatDigits(id), ".json"];
    var s := SliceFileName(rx, rz, id);
    FormatIntIsNumberText(rx);
    FormatIntIsNumberText(rz);
    SlicePatternDelimited();
    assert s[0..|Concat(caps)|] == Concat(caps);
    MatchOfSpelling(SLICE_PATTERN, s, 0, caps);
    FormatThenParse(rx, I32_MIN, I32_MAX);
    FormatThenParse(rz, I32_MIN, I32_MAX);
  }
}
