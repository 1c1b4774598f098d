/**
 * The string handling behind a shape's image reference: the prefix
 * dispatch of loadImage(), the split of a `data:image` URL, trimming and
 * the hexadecimal decoder parseHexBinary.
 */
module ImageSource {
  import opened Base
  import Base64

  // ---------------------------------------------------------------------
  // Prefixes and splitting

  predicate StartsWith(s: string, p: string) { |p| <= |s| && s[..|p|] == p }

  /** `d` occurs in `s` starting at index `i`. */
  predicate OccursAt(s: string, d: string, i: nat) { i + |d| <= |s| && s[i..i + |d|] == d }

  /** The first index at or after `from` at which `d` occurs in `s`. */
  function IndexFrom(s: string, d: string, from: nat): (r: Option<nat>)
    requires |d| > 0
    ensures r.Some? ==> from <= r.value && OccursAt(s, d, r.value)
    ensures r.Some? ==> forall i :: from <= i < r.value ==> !OccursAt(s, d, i)
    ensures r.None? ==> forall i :: from <= i ==> !OccursAt(s, d, i)
    decreases |s| - from
  {
    if from + |d| > |s| then None
    else if OccursAt(s, d, from) then Some(from)
    else IndexFrom(s, d, from + 1)
  }

  /** The first index at which `d` occurs in `s` (Kotlin's indexOf). */
  function IndexOf(s: string, d: string): (r: Option<nat>)
    requires |d| > 0
    ensures r.Some? ==> OccursAt(s, d, r.value) && forall i :: 0 <= i < r.value ==> !OccursAt(s, d, i)
    ensures r.None? ==> forall i :: 0 <= i ==> !OccursAt(s, d, i)
  {
    IndexFrom(s, d, 0)
  }

  /** Kotlin's `s.split(d)`: every part between occurrences, empty ones kept. */
  function Split(s: string, d: string): (parts: seq<string>)
    requires |d| > 0
    ensures |parts| >= 1
    decreases |s|
  {
    match IndexOf(s, d)
    case None => [s]
    case Some(i) => [s[..i]] + Split(s[i + |d|..], d)
  }

  function Join(parts: seq<string>, d: string): string
    requires |parts| >= 1
  {
    if |parts| == 1 then parts[0] else parts[0] + d + Join(parts[1..], d)
  }

  /** Joining the parts with the delimiter gives the string back. */
  lemma {:induction false} SplitJoin(s: string, d: string)
    requires |d| > 0
    ensures Join(Split(s, d), d) == s
    decreases |s|
  {
    match IndexOf(s, d) {
      case None =>
      case Some(i) =>
        var rest := s[i + |d|..];
        assert Split(s, d)[1..] == Split(rest, d);
        assert s == s[..i] + d + rest;
        SplitJoin(rest, d);
    }
  }

  /** No part contains the delimiter. */
  lemma {:induction false} SplitPartsFree(s: string, d: string)
    requires |d| > 0
    ensures forall k :: 0 <= k < |Split(s, d)| ==> IndexOf(Split(s, d)[k], d).None?
    decreases |s|
  {
    match IndexOf(s, d) {
      case None =>
      case Some(i) =>
        SplitPartsFree(s[i + |d|..], d);
        BeforeFirstIsFree(s, d);
        assert forall k :: 1 <= k < |Split(s, d)| ==> Split(s, d)[k] == Split(s[i + |d|..], d)[k - 1];
    }
  }

  // ---------------------------------------------------------------------
  // Trimming

  function TrimStart(s: string): string {
    if |s| > 0 && s[0] <= ' ' then TrimStart(s[1..]) else s
  }

  function TrimEnd(s: string): string {
    if |s| > 0 && s[|s| - 1] <= ' ' then TrimEnd(s[..|s| - 1]) else s
  }

  /** `s.trim { it <= ' ' }`. */
  function Trim(s: string): string { TrimEnd(TrimStart(s)) }

  lemma {:induction false} TrimStartIsSuffix(s: string)
    ensures var t := TrimStart(s);
      && |t| <= |s| && t == s[|s| - |t|..]
      && (forall i :: 0 <= i < |s| - |t| ==> s[i] <= ' ')
      && (|t| > 0 ==> t[0] > ' ')
  {
    if |s| > 0 && s[0] <= ' ' {
      TrimStartIsSuffix(s[1..]);
    }
  }

  lemma {:induction false} TrimEndIsPrefix(s: string)
    ensures var t := TrimEnd(s);
      && |t| <= |s| && t == s[..|t|]
      && (forall i :: |t| <= i < |s| ==> s[i] <= ' ')
      && (|t| > 0 ==> t[|t| - 1] > ' ')
  {
    if |s| > 0 && s[|s| - 1] <= ' ' {
      TrimEndIsPrefix(s[..|s| - 1]);
    }
  }

  /**
   * Trim removes exactly the characters up to ' ' at both ends: the result
   * is the slice s[i..j], everything outside it is at most ' ', and the
   * result neither starts nor ends with such a character.
   */
  lemma {:induction false} TrimIsSlice(s: string)
    ensures exists i, j ::
      && 0 <= i <= j <= |s| && Trim(s) == s[i..j]
      && (forall k :: 0 <= k < i ==> s[k] <= ' ')
      && (forall k :: j <= k < |s| ==> s[k] <= ' ')
    ensures |Trim(s)| > 0 ==> Trim(s)[0] > ' ' && Trim(s)[|Trim(s)| - 1] > ' '
  {
    TrimStartIsSuffix(s);
    var a := TrimStart(s);
    TrimEndIsPrefix(a);
    var i := |s| - |a|;
    var j := i + |TrimEnd(a)|;
    assert Trim(s) == s[i..j];
    assert forall k :: j <= k < |s| ==> s[k] == a[k - i];
  }

  // ---------------------------------------------------------------------
  // parseHexBinary

  /** Character.digit(c, 16) for the ASCII digits and letters. */
  function HexDigit(c: char): (d: Option<nat>)
    ensures d.Some? ==> d.value < 16
  {
    if '0' <= c <= '9' then Some(c as int - '0' as int)
    else if 'a' <= c <= 'f' then Some(c as int - 'a' as int + 10)
    else if 'A' <= c <= 'F' then Some(c as int - 'A' as int + 10)
    else None
  }

  /**
   * `String.toInt(16)` of a two-character string: two hex digits, or a
   * sign followed by one digit; anything else is a NumberFormatException.
   */
  function PairValue(c1: char, c2: char): (v: Option<int>)
    ensures v.Some? ==> -15 <= v.value <= 255
  {
    match (HexDigit(c1), HexDigit(c2))
    case (Some(hi), Some(lo)) => Some(16 * hi + lo)
    case (None, Some(lo)) => if c1 == '-' then Some(0 - lo) else if c1 == '+' then Some(lo as int) else None
    case _ => None
  }

  /** `toByte()`: the low eight bits, here read unsigned. */
  function ToByte(v: int): Byte { v % 256 }

  /** The bytes of a run of hex pairs, or the first failure; a last odd character is never read. */
  function DecodePairs(t: string): (r: Result<seq<Byte>>)
    ensures r.Ok? ==> |r.value| == |t| / 2
    ensures r.Throws? ==> r.error == NumberFormat
  {
    if |t| < 2 then Ok([])
    else match PairValue(t[0], t[1])
      case None => Throws(NumberFormat)
      case Some(v) =>
        match DecodePairs(t[2..])
        case Ok(rest) => Ok([ToByte(v)] + rest)
        case Throws(e) => Throws(e)
  }

  const OddLength := IllegalArgument("Invalid hex string length.")

  /** Bytes already decoded in front of the outcome of decoding the rest. */
  function Prepend(done: seq<Byte>, r: Result<seq<Byte>>): Result<seq<Byte>> {
    match r
    case Ok(rest) => Ok(done + rest)
    case Throws(e) => Throws(e)
  }

  lemma PrependTwice(a: seq<Byte>, b: seq<Byte>, r: Result<seq<Byte>>)
    ensures Prepend(a, Prepend(b, r)) == Prepend(a + b, r)
  {
    match r {
      case Ok(rest) => assert a + (b + rest) == (a + b) + rest;
      case Throws(_) =>
    }
  }

  /** What parseHexBinary(s) returns or throws. */
  function HexDecode(s: string): Result<seq<Byte>> {
    var t := Trim(s);
    if |t| % 2 != 0 then Throws(OddLength) else DecodePairs(t)
  }

  /** parseHexBinary: trim, reject odd lengths, fill a byte array pair by pair. */
  method ParseHexBinary(s: string) returns (r: Result<seq<Byte>>)
    ensures r == HexDecode(s)
  {
    var t := Trim(s);
    if |t| % 2 != 0 {
      return Throws(OddLength);
    }
    r := FillPairs(t);
  }

  /** The `while (i < length)` loop: byte i / 2 from characters i and i + 1. */
  method FillPairs(t: string) returns (r: Result<seq<Byte>>)
    requires |t| % 2 == 0
    ensures r == DecodePairs(t)
  {
    var length := |t|;
    var result := new Byte[length / 2];
    var i := 0;
    ghost var done := 0;
    DecodeStart(t);
    assert result[..0] == [];
    while i < length
      invariant 0 <= i <= length && i == 2 * done && length == 2 * result.Length
      invariant DecodePairs(t) == Prepend(result[..done], DecodePairs(t[i..]))
    {
      var v := PairValue(t[i], t[i + 1]);
      if v.None? {
        DecodeFails(t, i, result[..done]);
        return Throws(NumberFormat);
      }
      ghost var before := result[..done];
      assert i / 2 == done;
      result[i / 2] := ToByte(v.value);
      assert result[..done + 1] == before + [ToByte(v.value)];
      DecodeStep(t, i, before);
      i := i + 2;
      done := done + 1;
    }
    assert result[..] == result[..done];
    DecodeEnd(t, result[..]);
    return Ok(result[..]);
  }

  lemma DecodeStart(t: string)
    ensures DecodePairs(t) == Prepend([], DecodePairs(t[0..]))
  {
    assert t[0..] == t;
    match DecodePairs(t) {
      case Ok(rest) => assert [] + rest == rest;
      case Throws(_) =>
    }
  }

  /** One more pair decoded moves one byte from the rest to the bytes done. */
  lemma DecodeStep(t: string, i: nat, done: seq<Byte>)
    requires i + 2 <= |t| && PairValue(t[i], t[i + 1]).Some?
    requires DecodePairs(t) == Prepend(done, DecodePairs(t[i..]))
    ensures DecodePairs(t) == Prepend(done + [ToByte(PairValue(t[i], t[i + 1]).value)], DecodePairs(t[i + 2..]))
  {
    var b := ToByte(PairValue(t[i], t[i + 1]).value);
    assert t[i..][2..] == t[i + 2..];
    assert DecodePairs(t[i..]) == Prepend([b], DecodePairs(t[i + 2..]));
    PrependTwice(done, [b], DecodePairs(t[i + 2..]));
  }

  lemma DecodeFails(t: string, i: nat, done: seq<Byte>)
    requires i + 2 <= |t| && PairValue(t[i], t[i + 1]).None?
    requires DecodePairs(t) == Prepend(done, DecodePairs(t[i..]))
    ensures DecodePairs(t) == Throws(NumberFormat)
  {
  }

  lemma DecodeEnd(t: string, done: seq<Byte>)
    requires DecodePairs(t) == Prepend(done, DecodePairs(t[|t|..]))
    ensures DecodePairs(t) == Ok(done)
  {
    assert t[|t|..] == [];
    assert done + [] == done;
  }

  /** Byte k of a decoded string is the value of characters 2k and 2k+1. */
  lemma {:induction false} DecodedPairs(t: string, k: nat)
    requires |t| % 2 == 0 && DecodePairs(t).Ok? && k < |t| / 2
    ensures PairValue(t[2 * k], t[2 * k + 1]).Some?
    ensures DecodePairs(t).value[k] == ToByte(PairValue(t[2 * k], t[2 * k + 1]).value)
  {
    if k > 0 {
      DecodedPairs(t[2..], k - 1);
    }
  }

  /** Decoding succeeds exactly when every pair is a number. */
  lemma DecodeSucceeds(t: string)
    requires |t| % 2 == 0
    ensures DecodePairs(t).Ok? <==> forall k :: 0 <= k < |t| / 2 ==> PairValue(t[2 * k], t[2 * k + 1]).Some?
  {
    if DecodePairs(t).Ok? {
      forall k | 0 <= k < |t| / 2 ensures PairValue(t[2 * k], t[2 * k + 1]).Some? {
        DecodedPairs(t, k);
      }
    } else if forall k :: 0 <= k < |t| / 2 ==> PairValue(t[2 * k], t[2 * k + 1]).Some? {
      PairsDecode(t);
    }
  }

  lemma {:induction false} PairsDecode(t: string)
    requires |t| % 2 == 0
    requires forall k :: 0 <= k < |t| / 2 ==> PairValue(t[2 * k], t[2 * k + 1]).Some?
    ensures DecodePairs(t).Ok?
  {
    if t != [] {
      var rest := t[2..];
      forall k | 0 <= k < |rest| / 2 ensures PairValue(rest[2 * k], rest[2 * k + 1]).Some? {
        assert rest[2 * k] == t[2 * (k + 1)] && rest[2 * k + 1] == t[2 * (k + 1) + 1];
      }
      assert PairValue(t[2 * 0], t[2 * 0 + 1]).Some?;
      PairsDecode(rest);
    }
  }

  // ---------------------------------------------------------------------
  // An encoder, the partner of the decoder

  const HexChars := "0123456789abcdef"

  function HexEncode(bytes: seq<Byte>): (s: string)
    ensures |s| == 2 * |bytes|
  {
    if bytes == [] then []
    else [HexChars[bytes[0] / 16], HexChars[bytes[0] % 16]] + HexEncode(bytes[1..])
  }

  lemma HexCharDigit(d: nat)
    requires d < 16
    ensures HexDigit(HexChars[d]) == Some(d) && HexChars[d] > ' '
  {
  }

  /** Every byte string survives a round trip through the hex encoder. */
  lemma {:induction false} HexRoundTrip(bytes: seq<Byte>)
    ensures HexDecode(HexEncode(bytes)) == Ok(bytes)
  {
    EncodedNotBlank(bytes);
    DecodeEncoded(bytes);
  }

  lemma {:induction false} DecodeEncoded(bytes: seq<Byte>)
    ensures DecodePairs(HexEncode(bytes)) == Ok(bytes)
  {
    if bytes != [] {
      var b := bytes[0];
      var s := HexEncode(bytes);
      assert s[0] == HexChars[b / 16] && s[1] == HexChars[b % 16];
      assert s[2..] == HexEncode(bytes[1..]);
      assert bytes == [b] + bytes[1..];
      PairOfByte(b);
      DecodeEncoded(bytes[1..]);
    }
  }

  /** The two characters the encoder writes for a byte read back as that byte. */
  lemma PairOfByte(b: Byte)
    ensures PairValue(HexChars[b / 16], HexChars[b % 16]) == Some(b) && ToByte(b) == b
  {
    HexCharDigit(b / 16);
    HexCharDigit(b % 16);
  }

  /** A hex string has nothing for Trim to remove. */
  lemma {:induction false} EncodedNotBlank(bytes: seq<Byte>)
    ensures Trim(HexEncode(bytes)) == HexEncode(bytes)
  {
    var s := HexEncode(bytes);
    if bytes != [] {
      HexCharDigit(bytes[0] / 16);
      HexCharDigit(bytes[|bytes| - 1] % 16);
      LastEncoded(bytes);
    }
  }

  lemma {:induction false} LastEncoded(bytes: seq<Byte>)
    requires bytes != []
    ensures HexEncode(bytes)[2 * |bytes| - 1] == HexChars[bytes[|bytes| - 1] % 16]
  {
    if |bytes| > 1 {
      LastEncoded(bytes[1..]);
    }
  }

  // ---------------------------------------------------------------------
  // Where loadImage() takes an image from

  const DataImage := "data:image"
  const FileScheme := "file://"
  const Base64Marker := ";base64,"

  /** The outcome of resolving an image path. */
  datatype Source =
    | Embedded(extension: string, bytes: seq<Byte>)  // a data URL and its decoded payload
    | Undecodable(extension: string)                 // a data URL whose payload does not decode
    | FileSystem(path: string)                       // a file URL, scheme removed
    | NoSource                                       // neither prefix: the path is only cleared

  /**
   * The extension and the payload of a data URL: `parts[0].substring(11)`
   * and `parts[1]` of the split on ";base64,".
   */
  function EmbeddedParts(p: string): (r: Result<(string, string)>)
    ensures r.Throws? ==> r.error == IndexOutOfBounds
  {
    var parts := Split(p, Base64Marker);
    if |parts[0]| < 11 then Throws(IndexOutOfBounds)
    else if |parts| < 2 then Throws(IndexOutOfBounds)
    else Ok((parts[0][11..], parts[1]))
  }

  lemma SplitHead(s: string, d: string)
    requires |d| > 0
    ensures |Split(s, d)| >= 2 <==> IndexOf(s, d).Some?
    ensures IndexOf(s, d).None? ==> Split(s, d)[0] == s
    ensures IndexOf(s, d).Some? ==>
      && Split(s, d)[0] == s[..IndexOf(s, d).value]
      && Split(s, d)[1] == Split(s[IndexOf(s, d).value + |d|..], d)[0]
  {
  }

  /**
   * The parts are found where the first marker is: both index errors
   * happen exactly when there is no marker at or after index 11, and the
   * extension is what lies between the eleventh character and the marker.
   */
  lemma EmbeddedPartsFound(p: string)
    ensures EmbeddedParts(p).Ok? <==> IndexOf(p, Base64Marker).Some? && IndexOf(p, Base64Marker).value >= 11
    ensures EmbeddedParts(p).Ok? ==> EmbeddedParts(p).value.0 == p[11..IndexOf(p, Base64Marker).value]
  {
    SplitHead(p, Base64Marker);
    if IndexOf(p, Base64Marker).Some? && IndexOf(p, Base64Marker).value >= 11 {
      var i := IndexOf(p, Base64Marker).value;
      assert Split(p, Base64Marker)[0][11..] == p[11..i];
    }
  }

  /** The payload runs from the first marker up to the next marker or the end. */
  lemma EmbeddedPayload(p: string)
    requires EmbeddedParts(p).Ok?
    ensures IndexOf(p, Base64Marker).Some?
    ensures var i, data := IndexOf(p, Base64Marker).value, EmbeddedParts(p).value.1;
      && StartsWith(p[i + 8..], data)
      && IndexOf(data, Base64Marker).None?
      && (i + 8 + |data| == |p| || OccursAt(p, Base64Marker, i + 8 + |data|))
  {
    SplitHead(p, Base64Marker);
    var i := IndexOf(p, Base64Marker).value;
    var rest := p[i + 8..];
    var data := EmbeddedParts(p).value.1;
    assert data == Split(rest, Base64Marker)[0];
    FirstPart(rest, Base64Marker);
    if |data| < |rest| {
      assert p[i + 8 + |data|..i + 8 + |data| + 8] == rest[|data|..|data| + 8];
    }
  }

  /** The first part of a split is a prefix free of the delimiter, ended by it or by the end. */
  lemma FirstPart(s: string, d: string)
    requires |d| > 0
    ensures var first := Split(s, d)[0];
      && StartsWith(s, first) && IndexOf(first, d).None?
      && (|first| == |s| || OccursAt(s, d, |first|))
  {
    SplitHead(s, d);
    if IndexOf(s, d).Some? {
      BeforeFirstIsFree(s, d);
    }
  }

  /** What comes before the first occurrence of the delimiter does not contain it. */
  lemma BeforeFirstIsFree(s: string, d: string)
    requires |d| > 0 && IndexOf(s, d).Some?
    ensures IndexOf(s[..IndexOf(s, d).value], d).None?
  {
    var i := IndexOf(s, d).value;
    var p := s[..i];
    forall j: nat | OccursAt(p, d, j) ensures OccursAt(s, d, j) && j < i {
      assert p[j..j + |d|] == s[j..j + |d|];
    }
  }

  /** Whether the decoded image is checked for transparency (gif, png, unknown). */
  predicate NeedsAlphaCheck(extension: string) {
    extension == "gif" || extension == "png" || extension == "unknown"
  }

  /**
   * loadImage() as written: the payload of a data URL goes through the
   * hexadecimal parseHexBinary, whose errors propagate.
   */
  function SourceAsWritten(p: string): Result<Source> {
    if StartsWith(p, DataImage) then
      match EmbeddedParts(p)
      case Throws(e) => Throws(e)
      case Ok((extension, data)) =>
        match HexDecode(data)
        case Throws(e) => Throws(e)
        case Ok(bytes) => Ok(Embedded(extension, bytes))
    else if StartsWith(p, FileScheme) then Ok(FileSystem(p[7..]))
    else Ok(NoSource)
  }

  /**
   * loadImage() with the payload decoded as base64, as the data URL says
   * and as the commented-out parseBase64Binary call did; a payload that is
   * not base64 is reported, not thrown.
   */
  function SourceOf(p: string): Result<Source> {
    if StartsWith(p, DataImage) then
      match EmbeddedParts(p)
      case Throws(e) => Throws(e)
      case Ok((extension, data)) =>
        match Base64.Decode(data)
        case None => Ok(Undecodable(extension))
        case Some(bytes) => Ok(Embedded(extension, bytes))
    else if StartsWith(p, FileScheme) then Ok(FileSystem(p[7..]))
    else Ok(NoSource)
  }

  /** A data URL carrying `bytes` under the given extension. */
  function DataUrl(extension: string, bytes: seq<Byte>): string {
    "data:image/" + extension + Base64Marker + Base64.Encode(bytes)
  }

  lemma {:induction false} EncodedHasNoSemicolon(bytes: seq<Byte>)
    ensures forall k :: 0 <= k < |Base64.Encode(bytes)| ==> Base64.Encode(bytes)[k] != ';'
    decreases |bytes|
  {
    if |bytes| >= 3 {
      EncodedHasNoSemicolon(bytes[3..]);
      var x, y, z := bytes[0], bytes[1], bytes[2];
      assert Base64.Encode(bytes) == Base64.EncodeGroup(x, y, z) + Base64.Encode(bytes[3..]);
    }
  }

  lemma NoSemicolonNoMarker(s: string, lo: nat, hi: nat)
    requires lo <= hi <= |s|
    requires forall k :: lo <= k < hi ==> s[k] != ';'
    ensures forall k :: lo <= k < hi ==> !OccursAt(s, Base64Marker, k)
  {
    forall k | lo <= k < hi ensures !OccursAt(s, Base64Marker, k) {
      if k + 8 <= |s| {
        assert s[k..k + 8][0] == s[k];
      }
    }
  }

  /** The parts of a data URL built from an extension free of ';'. */
  lemma DataUrlParts(extension: string, bytes: seq<Byte>)
    requires forall k :: 0 <= k < |extension| ==> extension[k] != ';'
    ensures StartsWith(DataUrl(extension, bytes), DataImage)
    ensures EmbeddedParts(DataUrl(extension, bytes)) == Ok((extension, Base64.Encode(bytes)))
  {
    var p := DataUrl(extension, bytes);
    var e := Base64.Encode(bytes);
    var i := 11 + |extension|;
    assert p[..10] == DataImage;
    assert p[11..i] == extension;
    assert p[i..i + 8] == Base64Marker;
    assert OccursAt(p, Base64Marker, i);
    assert p[i + 8..] == e;
    NoSemicolonNoMarker(p, 0, i);
    assert IndexOf(p, Base64Marker) == Some(i);
    EncodedHasNoSemicolon(bytes);
    NoSemicolonNoMarker(e, 0, |e|);
    assert IndexOf(e, Base64Marker).None?;
    EmbeddedPartsFound(p);
    EmbeddedPayload(p);
    var data := EmbeddedParts(p).value.1;
    assert StartsWith(e, data);
    NoSemicolonNoMarker(p, i + 8, |p|);
    assert !OccursAt(p, Base64Marker, i + 8 + |data|);
    assert |data| == |e|;
    assert data == e[..|data|] == e;
    assert EmbeddedParts(p).value.0 == extension;
  }

  /**
   * A data URL built from any bytes under any extension free of ';'
   * resolves to those bytes and that extension.
   */
  lemma DataUrlRoundTrip(extension: string, bytes: seq<Byte>)
    requires forall k :: 0 <= k < |extension| ==> extension[k] != ';'
    ensures SourceOf(DataUrl(extension, bytes)) == Ok(Embedded(extension, bytes))
  {
    DataUrlParts(extension, bytes);
    Base64.RoundTrip(bytes);
  }

  /**
   * As written, the "Decode Error" branch is dead: parseHexBinary throws
   * instead of returning null, so the hexadecimal reading never reports an
   * undecodable payload, and every data URL either throws or is embedded.
   */
  lemma AsWrittenNeverUndecodable(p: string)
    ensures SourceAsWritten(p).Ok? ==> !SourceAsWritten(p).value.Undecodable?
    ensures StartsWith(p, DataImage) && SourceAsWritten(p).Ok? ==> SourceAsWritten(p).value.Embedded?
  {
  }

  /**
   * In the corrected reading the "Decode Error" branch is live, and its
   * report prints the first 20 characters of the path: an undecodable
   * payload is not empty, so a path that gets that far always has them.
   */
  lemma ReportPrefixInBounds(p: string)
    requires SourceOf(p).Ok? && SourceOf(p).value.Undecodable?
    ensures |p| >= 20
  {
    assert StartsWith(p, DataImage) && EmbeddedParts(p).Ok?;
    EmbeddedPartsFound(p);
    EmbeddedPayload(p);
    var data := EmbeddedParts(p).value.1;
    assert data != [];
  }

  /** A file URL resolves to the path after the scheme. */
  lemma FileUrl(path: string)
    ensures SourceOf(FileScheme + path) == Ok(FileSystem(path))
    ensures SourceAsWritten(FileScheme + path) == Ok(FileSystem(path))
  {
    assert (FileScheme + path)[..7] == FileScheme;
    assert (FileScheme + path)[7..] == path;
    assert (FileScheme + path)[0] != DataImage[0];
  }

  // ---------------------------------------------------------------------
  // The discrepancy: a standard data URL

  /** The eight-byte PNG file signature. */
  const PngSignature: seq<Byte> := [137, 80, 78, 71, 13, 10, 26, 10]

  /** The data URL "data:image/png;base64,iVBORw0KGgo=" of the PNG signature. */
  const PngUrl := DataUrl("png", PngSignature)

  /** The payload of PngUrl reads "iVBORw0KGgo=". */
  lemma PngPayload()
    ensures Base64.Encode(PngSignature) == "iVBORw0KGgo="
  {
    var tail: seq<Byte> := [71, 13, 10, 26, 10];
    assert PngSignature == [137, 80, 78] + tail;
    assert tail == [71, 13, 10] + [26, 10];
    Base64.EncodeStep(137, 80, 78, tail);
    Base64.EncodeStep(71, 13, 10, [26, 10]);
    PngGroups();
    assert "iVBO" + ("Rw0K" + "Ggo=") == "iVBORw0KGgo=";
  }

  lemma PngGroups()
    ensures Base64.EncodeGroup(137, 80, 78) == "iVBO"
    ensures Base64.EncodeGroup(71, 13, 10) == "Rw0K"
    ensures Base64.Encode([26, 10]) == "Ggo="
  {
  }

  /**
   * Even-length text with no surrounding blanks whose first character is
   * neither a hex digit nor a sign is a NumberFormatException to
   * parseHexBinary.
   */
  lemma NotHexAtStart(s: string)
    requires |s| % 2 == 0 && |s| > 0 && s[0] > ' ' && s[|s| - 1] > ' '
    requires HexDigit(s[0]).None? && s[0] != '-' && s[0] != '+'
    ensures HexDecode(s) == Throws(NumberFormat)
  {
    assert TrimStart(s) == s;
    assert TrimEnd(s) == s;
  }

  /** As written, a data URL resolves to what parseHexBinary makes of its base64 text. */
  lemma AsWrittenDataUrl(extension: string, bytes: seq<Byte>)
    requires forall k :: 0 <= k < |extension| ==> extension[k] != ';'
    ensures HexDecode(Base64.Encode(bytes)).Throws? ==>
      SourceAsWritten(DataUrl(extension, bytes)) == Throws(HexDecode(Base64.Encode(bytes)).error)
  {
    DataUrlParts(extension, bytes);
  }

  /** As written, the base64 payload of PngUrl throws NumberFormatException. */
  lemma AsWrittenRejectsPngUrl()
    ensures SourceAsWritten(PngUrl) == Throws(NumberFormat)
  {
    var data := "iVBORw0KGgo=";
    assert |data| == 12 && data[0] == 'i' && data[11] == '=';
    NotHexAtStart(data);
    assert forall k :: 0 <= k < |"png"| ==> "png"[k] != ';';
    AsWrittenDataUrl("png", PngSignature);
    PngPayload();
  }

  /** Decoded as base64, PngUrl gives the PNG signature back. */
  lemma CorrectedDecodesPngUrl()
    ensures SourceOf(PngUrl) == Ok(Embedded("png", PngSignature))
  {
    DataUrlRoundTrip("png", PngSignature);
  }
}
