/**
 * `String.toByteArray()` (UTF-8, RFC 3629) on strings of Unicode scalar
 * values, and the matching decoder used to state what the encoding keeps.
 */
module Utf8 {
  import opened Failures
  import opened Numbers

  /** The continuation byte 10xxxxxx carrying the six bits `sixBits`. */
  function Continuation(sixBits: int): Octet
    requires 0 <= sixBits < 64
  {
    0x80 + sixBits
  }

  /** The one to four bytes of one scalar value, shortest form. */
  function EncodeChar(c: char): (bytes: seq<Octet>)
    ensures 1 <= |bytes| <= 4
    ensures c as int < 0x80 ==> bytes == [c as int]
  {
    var cp := c as int;
    if cp < 0x80 then [cp]
    else if cp < 0x800 then [0xC0 + cp / 64, Continuation(cp % 64)]
    else if cp < 0x1_0000 then [0xE0 + cp / 4096, Continuation(cp / 64 % 64), Continuation(cp % 64)]
    else [0xF0 + cp / 262144, Continuation(cp / 4096 % 64), Continuation(cp / 64 % 64), Continuation(cp % 64)]
  }

  function Encode(s: string): (bytes: seq<Octet>)
    ensures |s| <= |bytes| <= 4 * |s|
  {
    if s == [] then [] else EncodeChar(s[0]) + Encode(s[1..])
  }

  /** The six payload bits of a continuation byte, if it is one. */
  function Payload(b: Octet): Option<int> {
    if 0x80 <= b < 0xC0 then Some(b - 0x80) else None
  }

  /** The scalar value `cp`, when it is one and is at least `least` (no over-long forms). */
  function ScalarAtLeast(cp: int, least: int): Option<char> {
    if cp < 0 || cp < least || cp > 0x10FFFF || (0xD800 <= cp <= 0xDFFF) then None else Some(cp as char)
  }

  /** The number of bytes the leading byte announces, or 0 when it cannot start a character. */
  function SequenceLength(lead: Octet): nat {
    if lead < 0x80 then 1
    else if lead < 0xC0 then 0
    else if lead < 0xE0 then 2
    else if lead < 0xF0 then 3
    else if lead < 0xF8 then 4
    else 0
  }

  /** Decodes the first character of `bytes`, which takes `SequenceLength(bytes[0])` bytes. */
  function DecodeChar(bytes: seq<Octet>): Option<char>
    requires |bytes| > 0 && |bytes| == SequenceLength(bytes[0])
  {
    var lead := bytes[0];
    if |bytes| == 1 then Some(lead as char)
    else if exists k :: 1 <= k < |bytes| && Payload(bytes[k]).None? then None
    else if |bytes| == 2 then
      ScalarAtLeast((lead - 0xC0) * 64 + Payload(bytes[1]).value, 0x80)
    else if |bytes| == 3 then
      ScalarAtLeast((lead - 0xE0) * 4096 + Payload(bytes[1]).value * 64 + Payload(bytes[2]).value, 0x800)
    else
      ScalarAtLeast((lead - 0xF0) * 262144 + Payload(bytes[1]).value * 4096
                    + Payload(bytes[2]).value * 64 + Payload(bytes[3]).value, 0x1_0000)
  }

  /** Well-formed UTF-8 back to its characters; None for anything else. */
  function Decode(bytes: seq<Octet>): Option<string>
    decreases |bytes|
  {
    if bytes == [] then Some([])
    else
      var n := SequenceLength(bytes[0]);
      if n == 0 || n > |bytes| then None
      else
        match DecodeChar(bytes[..n])
        case None => None
        case Some(c) =>
          match Decode(bytes[n..])
          case None => None
          case Some(rest) => Some([c] + rest)
  }

  lemma DivModSplit(cp: nat)
    ensures cp / 64 * 64 + cp % 64 == cp
    ensures cp / 4096 * 4096 + cp / 64 % 64 * 64 + cp % 64 == cp
    ensures cp / 262144 * 262144 + cp / 4096 % 64 * 4096 + cp / 64 % 64 * 64 + cp % 64 == cp
  {
    assert cp / 4096 == cp / 64 / 64;
    assert cp / 262144 == cp / 4096 / 64;
  }

  lemma PayloadOfContinuation(sixBits: int)
    requires 0 <= sixBits < 64
    ensures Payload(Continuation(sixBits)) == Some(sixBits)
  {
  }

  lemma DecodeEncodeOne(cp: int)
    requires 0 <= cp < 0x80
    ensures var e: seq<Octet> := [cp]; SequenceLength(e[0]) == 1 && DecodeChar(e) == Some(cp as char)
  {
  }

  lemma DecodeEncodeTwo(cp: int)
    requires 0x80 <= cp < 0x800
    ensures var e: seq<Octet> := [0xC0 + cp / 64, Continuation(cp % 64)];
            SequenceLength(e[0]) == 2 && DecodeChar(e) == Some(cp as char)
  {
    var lead := 0xC0 + cp / 64;
    var e: seq<Octet> := [lead, Continuation(cp % 64)];
    assert SequenceLength(e[0]) == 2;
    PayloadOfContinuation(cp % 64);
    DivModSplit(cp);
    assert (lead - 0xC0) * 64 + cp % 64 == cp;
  }

  lemma DecodeEncodeThree(cp: int)
    requires 0x800 <= cp < 0x1_0000 && !(0xD800 <= cp <= 0xDFFF)
    ensures var e: seq<Octet> := [0xE0 + cp / 4096, Continuation(cp / 64 % 64), Continuation(cp % 64)];
            SequenceLength(e[0]) == 3 && DecodeChar(e) == Some(cp as char)
  {
    var lead, p1, p2 := 0xE0 + cp / 4096, cp / 64 % 64, cp % 64;
    var e: seq<Octet> := [lead, Continuation(p1), Continuation(p2)];
    assert SequenceLength(e[0]) == 3;
    PayloadOfContinuation(p1);
    PayloadOfContinuation(p2);
    assert Payload(e[1]) == Some(p1) && Payload(e[2]) == Some(p2);
    DivModSplit(cp);
    assert (lead - 0xE0) * 4096 + p1 * 64 + p2 == cp;
    assert ScalarAtLeast(cp, 0x800) == Some(cp as char);
    assert DecodeChar(e) == ScalarAtLeast((lead - 0xE0) * 4096 + p1 * 64 + p2, 0x800);
  }

  lemma DecodeCharFour(e: seq<Octet>, p1: int, p2: int, p3: int)
    requires |e| == 4 && SequenceLength(e[0]) == 4
    requires Payload(e[1]) == Some(p1) && Payload(e[2]) == Some(p2) && Payload(e[3]) == Some(p3)
    ensures DecodeChar(e) == ScalarAtLeast((e[0] - 0xF0) * 262144 + p1 * 4096 + p2 * 64 + p3, 0x1_0000)
  {
  }

  lemma DecodeEncodeFour(cp: int)
    requires 0x1_0000 <= cp <= 0x10FFFF
    ensures var e: seq<Octet> := [0xF0 + cp / 262144, Continuation(cp / 4096 % 64), Continuation(cp / 64 % 64), Continuation(cp % 64)];
            SequenceLength(e[0]) == 4 && DecodeChar(e) == Some(cp as char)
  {
    var lead, p1, p2, p3 := 0xF0 + cp / 262144, cp / 4096 % 64, cp / 64 % 64, cp % 64;
    var e: seq<Octet> := [lead, Continuation(p1), Continuation(p2), Continuation(p3)];
    assert SequenceLength(e[0]) == 4;
    PayloadOfContinuation(p1);
    PayloadOfContinuation(p2);
    PayloadOfContinuation(p3);
    DecodeCharFour(e, p1, p2, p3);
    assert (lead - 0xF0) * 262144 + p1 * 4096 + p2 * 64 + p3 == cp by {
      DivModSplit(cp);
    }
  }

  lemma DecodeEncodeChar(c: char)
    ensures var e := EncodeChar(c); SequenceLength(e[0]) == |e| && DecodeChar(e) == Some(c)
  {
    var cp := c as int;
    if cp < 0x80 {
      DecodeEncodeOne(cp);
    } else if cp < 0x800 {
      DecodeEncodeTwo(cp);
    } else if cp < 0x1_0000 {
      DecodeEncodeThree(cp);
    } else {
      DecodeEncodeFour(cp);
    }
  }

  /** Decoding undoes encoding. */
  lemma {:induction false} DecodeEncode(s: string)
    ensures Decode(Encode(s)) == Some(s)
  {
    if s != [] {
      var e := EncodeChar(s[0]);
      DecodeEncodeChar(s[0]);
      DecodeEncode(s[1..]);
      var all := Encode(s);
      assert all[..|e|] == e && all[|e|..] == Encode(s[1..]);
      assert all[0] == e[0];
      assert [s[0]] + s[1..] == s;
    }
  }

  /** An ASCII string encodes to one byte per character, equal to its code. */
  lemma {:induction false} EncodeAscii(s: string)
    requires forall i :: 0 <= i < |s| ==> s[i] as int < 0x80
    ensures |Encode(s)| == |s|
    ensures forall i :: 0 <= i < |s| ==> Encode(s)[i] == s[i] as int
  {
    if s != [] {
      EncodeAscii(s[1..]);
    }
  }
}
