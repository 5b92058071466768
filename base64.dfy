/**
 * Base 64 encoding with the standard alphabet and '=' padding, as in
 * section 4 of RFC 4648, on bytes: what `Base64.encodeToString(bytes,
 * NO_WRAP)` produces (no line breaks).  A decoder is given so that the
 * encoding can be shown to lose nothing.
 */
module Base64 {
  import opened Failures
  import opened Numbers

  const PAD: char := '='

  /** A six-bit group value. */
  type Sextet = v: int | 0 <= v < 64

  /** The alphabet of section 4 of RFC 4648: A-Z, a-z, 0-9, '+', '/'. */
  function SextetChar(v: Sextet): (c: char)
    ensures c != PAD
  {
    if v < 26 then ('A' as int + v) as char
    else if v < 52 then ('a' as int + v - 26) as char
    else if v < 62 then ('0' as int + v - 52) as char
    else if v == 62 then '+'
    else '/'
  }

  /** The value of an alphabet character. */
  function SextetOf(c: char): Option<Sextet> {
    if 'A' <= c <= 'Z' then Some(c as int - 'A' as int)
    else if 'a' <= c <= 'z' then Some(c as int - 'a' as int + 26)
    else if '0' <= c <= '9' then Some(c as int - '0' as int + 52)
    else if c == '+' then Some(62)
    else if c == '/' then Some(63)
    else None
  }

  lemma SextetOfSextetChar(v: Sextet)
    ensures SextetOf(SextetChar(v)) == Some(v)
  {
  }

  // The four sextets of the 24 bits b0 b1 b2, most significant first.
  function S0(b0: Octet): Sextet { b0 / 4 }
  function S1(b0: Octet, b1: Octet): Sextet { b0 % 4 * 16 + b1 / 16 }
  function S2(b1: Octet, b2: Octet): Sextet { b1 % 16 * 4 + b2 / 64 }
  function S3(b2: Octet): Sextet { b2 % 64 }

  // The three bytes of the 24 bits s0 s1 s2 s3.
  function B0(s0: Sextet, s1: Sextet): Octet { s0 * 4 + s1 / 16 }
  function B1(s1: Sextet, s2: Sextet): Octet { s1 % 16 * 16 + s2 / 4 }
  function B2(s2: Sextet, s3: Sextet): Octet { s2 % 4 * 64 + s3 }

  lemma BytesOfSextets(b0: Octet, b1: Octet, b2: Octet)
    ensures B0(S0(b0), S1(b0, b1)) == b0
    ensures B1(S1(b0, b1), S2(b1, b2)) == b1
    ensures B2(S2(b1, b2), S3(b2)) == b2
  {
    assert S1(b0, b1) / 16 == b0 % 4;
    assert S1(b0, b1) % 16 == b1 / 16;
    assert S2(b1, b2) / 4 == b1 % 16;
    assert S2(b1, b2) % 4 == b2 / 64;
  }

  /** A final group holding one byte: two characters and two pads. */
  function Single(b0: Octet): (s: string)
    ensures |s| == 4 && s[2] == PAD && s[3] == PAD
  {
    [SextetChar(S0(b0)), SextetChar(S1(b0, 0)), PAD, PAD]
  }

  /** A final group holding two bytes: three characters and one pad. */
  function Pair(b0: Octet, b1: Octet): (s: string)
    ensures |s| == 4 && s[3] == PAD
  {
    [SextetChar(S0(b0)), SextetChar(S1(b0, b1)), SextetChar(S2(b1, 0)), PAD]
  }

  /** The four characters a full group of three bytes encodes to. */
  function Quad(b0: Octet, b1: Octet, b2: Octet): (s: string)
    ensures |s| == 4
  {
    [SextetChar(S0(b0)), SextetChar(S1(b0, b1)), SextetChar(S2(b1, b2)), SextetChar(S3(b2))]
  }

  function Encode(bytes: seq<Octet>): (s: string)
    ensures |s| == 4 * ((|bytes| + 2) / 3)
  {
    if |bytes| == 0 then ""
    else if |bytes| == 1 then Single(bytes[0])
    else if |bytes| == 2 then Pair(bytes[0], bytes[1])
    else Quad(bytes[0], bytes[1], bytes[2]) + Encode(bytes[3..])
  }

  /** The final group of four characters, which may end in one or two pads. */
  function DecodeLast(group: string): Option<seq<Octet>>
    requires |group| == 4
  {
    match (SextetOf(group[0]), SextetOf(group[1]))
    case (Some(s0), Some(s1)) =>
      if group[2] == PAD && group[3] == PAD then Some([B0(s0, s1)])
      else
        (match SextetOf(group[2])
         case None => None
         case Some(s2) =>
           if group[3] == PAD then Some([B0(s0, s1), B1(s1, s2)])
           else
             (match SextetOf(group[3])
              case None => None
              case Some(s3) => Some([B0(s0, s1), B1(s1, s2), B2(s2, s3)])))
    case _ => None
  }

  /** A group of four alphabet characters that is not the last one. */
  function DecodeFull(group: string): Option<seq<Octet>>
    requires |group| == 4
  {
    match (SextetOf(group[0]), SextetOf(group[1]), SextetOf(group[2]), SextetOf(group[3]))
    case (Some(s0), Some(s1), Some(s2), Some(s3)) => Some([B0(s0, s1), B1(s1, s2), B2(s2, s3)])
    case _ => None
  }

  function Decode(s: string): Option<seq<Octet>>
    decreases |s|
  {
    if |s| == 0 then Some([])
    else if |s| % 4 != 0 then None
    else if |s| == 4 then DecodeLast(s)
    else
      match DecodeFull(s[..4])
      case None => None
      case Some(group) =>
        match Decode(s[4..])
        case None => None
        case Some(rest) => Some(group + rest)
  }

  // Decoding groups of characters made from arbitrary sextets.

  lemma DecodeTwoSextets(x0: Sextet, x1: Sextet)
    ensures DecodeLast([SextetChar(x0), SextetChar(x1), PAD, PAD]) == Some([B0(x0, x1)])
  {
    SextetOfSextetChar(x0);
    SextetOfSextetChar(x1);
  }

  lemma DecodeThreeSextets(x0: Sextet, x1: Sextet, x2: Sextet)
    ensures DecodeLast([SextetChar(x0), SextetChar(x1), SextetChar(x2), PAD]) == Some([B0(x0, x1), B1(x1, x2)])
  {
    SextetOfSextetChar(x0);
    SextetOfSextetChar(x1);
    SextetOfSextetChar(x2);
  }

  lemma DecodeFourSextets(x0: Sextet, x1: Sextet, x2: Sextet, x3: Sextet)
    ensures var g := [SextetChar(x0), SextetChar(x1), SextetChar(x2), SextetChar(x3)];
            DecodeFull(g) == Some([B0(x0, x1), B1(x1, x2), B2(x2, x3)]) &&
            DecodeLast(g) == Some([B0(x0, x1), B1(x1, x2), B2(x2, x3)])
  {
    SextetOfSextetChar(x0);
    SextetOfSextetChar(x1);
    SextetOfSextetChar(x2);
    SextetOfSextetChar(x3);
  }

  lemma DecodeSingle(b0: Octet)
    ensures DecodeLast(Single(b0)) == Some([b0])
  {
    DecodeTwoSextets(S0(b0), S1(b0, 0));
    BytesOfSextets(b0, 0, 0);
  }

  lemma DecodePair(b0: Octet, b1: Octet)
    ensures DecodeLast(Pair(b0, b1)) == Some([b0, b1])
  {
    DecodeThreeSextets(S0(b0), S1(b0, b1), S2(b1, 0));
    BytesOfSextets(b0, b1, 0);
  }

  lemma DecodeQuad(b0: Octet, b1: Octet, b2: Octet)
    ensures DecodeFull(Quad(b0, b1, b2)) == Some([b0, b1, b2])
    ensures DecodeLast(Quad(b0, b1, b2)) == Some([b0, b1, b2])
  {
    DecodeFourSextets(S0(b0), S1(b0, b1), S2(b1, b2), S3(b2));
    BytesOfSextets(b0, b1, b2);
  }

  /** A full group followed by more groups decodes group by group. */
  lemma DecodeFirstGroup(q: string, rest: string)
    requires |q| == 4 && |rest| > 0 && |rest| % 4 == 0
    ensures Decode(q + rest) ==
              match DecodeFull(q)
              case None => None
              case Some(group) =>
                match Decode(rest)
                case None => None
                case Some(tail) => Some(group + tail)
  {
    var s := q + rest;
    assert |s| % 4 == 0 && |s| != 4 by {
      assert |s| == |rest| + 4;
      assert (|rest| + 4) % 4 == |rest| % 4;
    }
    assert s[..4] == q && s[4..] == rest;
  }

  /** Decoding undoes encoding. */
  lemma {:induction false} DecodeEncode(bytes: seq<Octet>)
    ensures Decode(Encode(bytes)) == Some(bytes)
    decreases |bytes|
  {
    if |bytes| == 1 {
      assert bytes == [bytes[0]];
      DecodeSingle(bytes[0]);
    } else if |bytes| == 2 {
      assert bytes == [bytes[0], bytes[1]];
      DecodePair(bytes[0], bytes[1]);
    } else if |bytes| >= 3 {
      var head := bytes[..3];
      var tail := bytes[3..];
      assert bytes == head + tail;
      assert head == [bytes[0], bytes[1], bytes[2]];
      var q := Quad(bytes[0], bytes[1], bytes[2]);
      var rest := Encode(tail);
      assert Encode(bytes) == q + rest;
      DecodeQuad(bytes[0], bytes[1], bytes[2]);
      if |tail| == 0 {
        assert rest == [] && q + rest == q;
        assert bytes == head;
      } else {
        DecodeEncode(tail);
        DecodeFirstGroup(q, rest);
      }
    }
  }
}
