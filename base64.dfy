/**
 * Base64 as section 4 of RFC 4648 defines it: the alphabet A-Z a-z 0-9 + /,
 * four characters for every three bytes, '=' padding in the last group.
 * This is the decoding a `data:image/...;base64,` payload calls for; the
 * decoder returns None for text that is not base64.
 */
module Base64 {
  import opened Base

  /** The character of the alphabet that stands for the value v. */
  function Alphabet(v: nat): (c: char)
    requires v < 64
    ensures c != '='
  {
    if v < 26 then ('A' as int + v) as char
    else if v < 52 then ('a' as int + v - 26) as char
    else if v < 62 then ('0' as int + v - 52) as char
    else if v == 62 then '+'
    else '/'
  }

  /** The value 0..63 of a base64 character. */
  function Sextet(c: char): (v: Option<nat>)
    ensures v.Some? ==> v.value < 64 && Alphabet(v.value) == c
  {
    if 'A' <= c <= 'Z' then Some(c as int - 'A' as int)
    else if 'a' <= c <= 'z' then Some(c as int - 'a' as int + 26)
    else if '0' <= c <= '9' then Some(c as int - '0' as int + 52)
    else if c == '+' then Some(62)
    else if c == '/' then Some(63)
    else None
  }

  lemma SextetOfAlphabet(v: nat)
    requires v < 64
    ensures Sextet(Alphabet(v)) == Some(v)
  {
  }

  /** Three bytes as four sextets. */
  function EncodeGroup(x: Byte, y: Byte, z: Byte): string {
    [Alphabet(x / 4), Alphabet((x % 4) * 16 + y / 16), Alphabet((y % 16) * 4 + z / 64), Alphabet(z % 64)]
  }

  function Encode(bytes: seq<Byte>): (s: string)
    ensures |s| % 4 == 0
    decreases |bytes|
  {
    if |bytes| == 0 then ""
    else if |bytes| == 1 then
      [Alphabet(bytes[0] / 4), Alphabet((bytes[0] % 4) * 16)] + "=="
    else if |bytes| == 2 then
      [Alphabet(bytes[0] / 4), Alphabet((bytes[0] % 4) * 16 + bytes[1] / 16), Alphabet((bytes[1] % 16) * 4)] + "="
    else EncodeGroup(bytes[0], bytes[1], bytes[2]) + Encode(bytes[3..])
  }

  /** Four sextets as three bytes. */
  function DecodeGroup(a: nat, b: nat, c: nat, d: nat): seq<Byte>
    requires a < 64 && b < 64 && c < 64 && d < 64
  {
    [a * 4 + b / 16, (b % 16) * 16 + c / 4, (c % 4) * 64 + d]
  }

  /** Whether every character of q is in the alphabet. */
  predicate InAlphabet(q: string) {
    forall k :: 0 <= k < |q| ==> Sextet(q[k]).Some?
  }

  /** A group of four characters without padding. */
  function DecodeQuad(q: string): Option<seq<Byte>>
    requires |q| == 4
  {
    if InAlphabet(q) then
      Some(DecodeGroup(Sextet(q[0]).value, Sextet(q[1]).value, Sextet(q[2]).value, Sextet(q[3]).value))
    else None
  }

  /** The last group of four characters, which may end in '=' padding. */
  function DecodeLast(q: string): Option<seq<Byte>>
    requires |q| == 4
  {
    if q[2..] == "==" then
      if InAlphabet(q[..2]) then
        var a, b := Sextet(q[0]).value, Sextet(q[1]).value;
        Some([a * 4 + b / 16])
      else None
    else if q[3] == '=' then
      if InAlphabet(q[..3]) then
        var a, b, c := Sextet(q[0]).value, Sextet(q[1]).value, Sextet(q[2]).value;
        Some([a * 4 + b / 16, (b % 16) * 16 + c / 4])
      else None
    else DecodeQuad(q)
  }

  function Decode(s: string): Option<seq<Byte>>
    decreases |s|
  {
    if |s| == 0 then Some([])
    else if |s| % 4 != 0 then None
    else if |s| == 4 then DecodeLast(s)
    else match DecodeQuad(s[..4])
      case None => None
      case Some(group) =>
        match Decode(s[4..])
        case Some(rest) => Some(group + rest)
        case None => None
  }

  lemma GroupRoundTrip(x: Byte, y: Byte, z: Byte)
    ensures DecodeGroup(x / 4, (x % 4) * 16 + y / 16, (y % 16) * 4 + z / 64, z % 64) == [x, y, z]
  {
  }

  lemma OneByteRoundTrip(x: Byte)
    ensures Decode(Encode([x])) == Some([x])
  {
    var s := Encode([x]);
    SextetOfAlphabet(x / 4); SextetOfAlphabet((x % 4) * 16);
    assert Sextet(s[2]).None? && Sextet(s[3]).None?;
  }

  lemma TwoBytesRoundTrip(x: Byte, y: Byte)
    ensures Decode(Encode([x, y])) == Some([x, y])
  {
    var s := Encode([x, y]);
    var a, b, c := x / 4, (x % 4) * 16 + y / 16, (y % 16) * 4;
    SextetOfAlphabet(a); SextetOfAlphabet(b); SextetOfAlphabet(c);
    assert s == [Alphabet(a), Alphabet(b), Alphabet(c), '='];
    assert Sextet(s[3]).None?;
    assert DecodeLast(s) == Some([a * 4 + b / 16, (b % 16) * 16 + c / 4]);
    assert a * 4 + b / 16 == x;
    assert (b % 16) * 16 + c / 4 == y;
  }

  lemma QuadOfAlphabet(a: nat, b: nat, c: nat, d: nat)
    requires a < 64 && b < 64 && c < 64 && d < 64
    ensures DecodeQuad([Alphabet(a), Alphabet(b), Alphabet(c), Alphabet(d)]) == Some(DecodeGroup(a, b, c, d))
  {
    var q := [Alphabet(a), Alphabet(b), Alphabet(c), Alphabet(d)];
    SextetOfAlphabet(a); SextetOfAlphabet(b); SextetOfAlphabet(c); SextetOfAlphabet(d);
    assert InAlphabet(q) by {
      forall k | 0 <= k < 4 ensures Sextet(q[k]).Some? {
      }
    }
  }

  /** Four characters of the alphabet as the last group: no padding to strip. */
  lemma LastOfAlphabet(a: nat, b: nat, c: nat, d: nat)
    requires a < 64 && b < 64 && c < 64 && d < 64
    ensures DecodeLast([Alphabet(a), Alphabet(b), Alphabet(c), Alphabet(d)]) == Some(DecodeGroup(a, b, c, d))
  {
    var q := [Alphabet(a), Alphabet(b), Alphabet(c), Alphabet(d)];
    assert q[3] != '=';
    assert q[2..] != "==" by { assert q[2..][1] == Alphabet(d); }
    QuadOfAlphabet(a, b, c, d);
  }

  /** A full leading group decodes on its own, ahead of the rest. */
  lemma DecodeCons(a: nat, b: nat, c: nat, d: nat, t: string)
    requires a < 64 && b < 64 && c < 64 && d < 64 && |t| % 4 == 0
    ensures Decode([Alphabet(a), Alphabet(b), Alphabet(c), Alphabet(d)] + t) ==
      match Decode(t)
      case Some(rest) => Some(DecodeGroup(a, b, c, d) + rest)
      case None => None
  {
    var q := [Alphabet(a), Alphabet(b), Alphabet(c), Alphabet(d)];
    var s := q + t;
    if t == [] {
      assert s == q;
      LastOfAlphabet(a, b, c, d);
      assert DecodeGroup(a, b, c, d) + [] == DecodeGroup(a, b, c, d);
    } else {
      assert s[..4] == q && s[4..] == t;
      LengthStep(|t|);
      QuadOfAlphabet(a, b, c, d);
    }
  }

  /** Prefixing one four-character group keeps the length a multiple of four. */
  lemma LengthStep(n: nat)
    requires n % 4 == 0
    ensures (4 + n) % 4 == 0
  {
  }

  lemma EncodeStep(x: Byte, y: Byte, z: Byte, rest: seq<Byte>)
    ensures Encode([x, y, z] + rest) == EncodeGroup(x, y, z) + Encode(rest)
  {
    assert ([x, y, z] + rest)[3..] == rest;
  }

  lemma GroupStep(x: Byte, y: Byte, z: Byte, rest: seq<Byte>)
    ensures Decode(Encode([x, y, z] + rest)) ==
      match Decode(Encode(rest))
      case Some(r) => Some([x, y, z] + r)
      case None => None
  {
    var a, b, c, d := x / 4, (x % 4) * 16 + y / 16, (y % 16) * 4 + z / 64, z % 64;
    EncodeStep(x, y, z, rest);
    DecodeCons(a, b, c, d, Encode(rest));
    GroupRoundTrip(x, y, z);
  }

  /** Decoding an encoding gives the bytes back. */
  lemma {:induction false} RoundTrip(bytes: seq<Byte>)
    ensures Decode(Encode(bytes)) == Some(bytes)
    decreases |bytes|
  {
    if |bytes| == 0 {
    } else if |bytes| == 1 {
      assert bytes == [bytes[0]];
      OneByteRoundTrip(bytes[0]);
    } else if |bytes| == 2 {
      assert bytes == [bytes[0], bytes[1]];
      TwoBytesRoundTrip(bytes[0], bytes[1]);
    } else {
      GroupStep(bytes[0], bytes[1], bytes[2], bytes[3..]);
      RoundTrip(bytes[3..]);
      assert bytes == [bytes[0], bytes[1], bytes[2]] + bytes[3..];
    }
  }

  /** Text that is not a multiple of four characters long is rejected. */
  lemma RejectsRaggedLength(s: string)
    requires |s| % 4 != 0
    ensures Decode(s).None?
  {
  }
}
