/** Base64 with the standard alphabet and `=` padding, as defined in section 4 of RFC 4648.
    This is the codec behind `Buffer.toString("base64")` and `Buffer.from(text, "base64")`,
    which carry packet payloads, IVs and tags, public keys and signatures as text. */
module Base64 {
  import opened Wrappers
  import opened Bytes

  /** The character for a 6-bit value: A-Z, a-z, 0-9, '+', '/'. */
  function CharOf(v: int): (c: char)
    requires 0 <= v < 64
  {
    if v < 26 then ('A' as int + v) as char
    else if v < 52 then ('a' as int + v - 26) as char
    else if v < 62 then ('0' as int + v - 52) as char
    else if v == 62 then '+'
    else '/'
  }

  /** The 6-bit value of an alphabet character; None for anything else, '=' included. */
  function ValueOf(c: char): (r: Option<int>)
    ensures r.Some? ==> 0 <= r.value < 64
  {
    if 'A' <= c <= 'Z' then Some(c as int - 'A' as int)
    else if 'a' <= c <= 'z' then Some(c as int - 'a' as int + 26)
    else if '0' <= c <= '9' then Some(c as int - '0' as int + 52)
    else if c == '+' then Some(62)
    else if c == '/' then Some(63)
    else None
  }

  lemma ValueOfCharOf(v: int)
    requires 0 <= v < 64
    ensures ValueOf(CharOf(v)) == Some(v) && CharOf(v) != '='
  {
  }

  /** Every character Encode writes: an alphabet character or the pad '='. */
  predicate IsBase64Char(c: char) {
    ValueOf(c).Some? || c == '='
  }

  // The three bit-slicing steps, on the 24-bit group b0 b1 b2 = c0 c1 c2 c3.

  function Sextets(b0: Byte, b1: Byte, b2: Byte): (c: (int, int, int, int))
    ensures 0 <= c.0 < 64 && 0 <= c.1 < 64 && 0 <= c.2 < 64 && 0 <= c.3 < 64
  {
    (b0 / 4, (b0 % 4) * 16 + b1 / 16, (b1 % 16) * 4 + b2 / 64, b2 % 64)
  }

  function Octets(c0: int, c1: int, c2: int, c3: int): (b: (Byte, Byte, Byte))
    requires 0 <= c0 < 64 && 0 <= c1 < 64 && 0 <= c2 < 64 && 0 <= c3 < 64
  {
    (c0 * 4 + c1 / 16, (c1 % 16) * 16 + c2 / 4, (c2 % 4) * 64 + c3)
  }

  lemma OctetsOfSextets(b0: Byte, b1: Byte, b2: Byte)
    ensures var c := Sextets(b0, b1, b2); Octets(c.0, c.1, c.2, c.3) == (b0, b1, b2)
  {
    var c := Sextets(b0, b1, b2);
    assert c.1 / 16 == b0 % 4;
    assert c.1 % 16 == b1 / 16;
    assert c.2 / 4 == b1 % 16;
    assert c.2 % 4 == b2 / 64;
  }

  function EncodeQuad(b0: Byte, b1: Byte, b2: Byte, n: int): (r: string)
    requires 1 <= n <= 3
    ensures |r| == 4
  {
    var c := Sextets(b0, b1, b2);
    [CharOf(c.0), CharOf(c.1),
     if n >= 2 then CharOf(c.2) else '=',
     if n == 3 then CharOf(c.3) else '=']
  }

  /** `Buffer.toString("base64")`: each 3 bytes become 4 characters; a final group of one
      or two bytes is padded with "==" or "=". */
  function Encode(s: Bytes): (r: string)
    ensures |r| == 4 * ((|s| + 2) / 3)
    ensures forall i :: 0 <= i < |r| ==> IsBase64Char(r[i])
    decreases |s|
  {
    if s == [] then ""
    else if |s| == 1 then EncodeQuad(s[0], 0, 0, 1)
    else if |s| == 2 then EncodeQuad(s[0], s[1], 0, 2)
    else
      var head, tail := EncodeQuad(s[0], s[1], s[2], 3), Encode(s[3..]);
      assert (|s| + 2) / 3 == 1 + (|s[3..]| + 2) / 3;
      assert forall i :: 4 <= i < |head + tail| ==> (head + tail)[i] == tail[i - 4];
      head + tail
  }

  /** One group of four characters; `last` says whether '=' padding may appear in it.
      Non-zero bits under the padding are accepted, as RFC 4648 section 3.5 allows. */
  function DecodeQuad(q: string, last: bool): (r: Option<Bytes>)
    requires |q| == 4
    ensures r.Some? ==> 1 <= |r.value| <= 3
  {
    var v0, v1, v2, v3 := ValueOf(q[0]), ValueOf(q[1]), ValueOf(q[2]), ValueOf(q[3]);
    if v0.None? || v1.None? then None
    else if last && q[2] == '=' && q[3] == '=' then
      var b := Octets(v0.value, v1.value, 0, 0); Some([b.0])
    else if v2.None? then None
    else if last && q[3] == '=' then
      var b := Octets(v0.value, v1.value, v2.value, 0); Some([b.0, b.1])
    else if v3.None? then None
    else
      var b := Octets(v0.value, v1.value, v2.value, v3.value); Some([b.0, b.1, b.2])
  }

  /** Strict decoding: None unless the text is a whole number of 4-character groups of
      alphabet characters, with '=' padding only at the end of the last group. */
  function Decode(t: string): (r: Option<Bytes>)
    decreases |t|
  {
    if t == [] then Some([])
    else if |t| < 4 then None
    else
      match DecodeQuad(t[..4], |t| == 4)
      case None => None
      case Some(head) =>
        if |t| == 4 then Some(head)
        else
          match Decode(t[4..])
          case None => None
          case Some(tail) => Some(head + tail)
  }

  lemma DecodeEncodeQuad(b0: Byte, b1: Byte, b2: Byte, n: int, last: bool)
    requires 1 <= n <= 3
    requires n < 3 ==> last
    ensures DecodeQuad(EncodeQuad(b0, b1, b2, n), last) ==
      Some(if n == 1 then [b0] else if n == 2 then [b0, b1] else [b0, b1, b2])
  {
    var c := Sextets(b0, b1, b2);
    ValueOfCharOf(c.0);
    ValueOfCharOf(c.1);
    ValueOfCharOf(c.2);
    ValueOfCharOf(c.3);
    OctetsOfSextets(b0, b1, b2);
    if n == 1 {
      assert Octets(c.0, c.1, 0, 0).0 == Octets(c.0, c.1, c.2, c.3).0;
    } else if n == 2 {
      assert Octets(c.0, c.1, c.2, 0).0 == Octets(c.0, c.1, c.2, c.3).0;
      assert Octets(c.0, c.1, c.2, 0).1 == Octets(c.0, c.1, c.2, c.3).1;
    }
  }

  lemma DecodeGroups(q: string, rest: string, head: Bytes, tail: Bytes)
    requires |q| == 4 && rest != []
    requires DecodeQuad(q, false) == Some(head) && Decode(rest) == Some(tail)
    ensures Decode(q + rest) == Some(head + tail)
  {
    var t := q + rest;
    assert t[..4] == q && t[4..] == rest;
  }

  lemma DecodeOneGroup(q: string)
    requires |q| == 4
    ensures Decode(q) == DecodeQuad(q, true)
  {
    assert q[..4] == q;
  }

  lemma RoundTripOne(b0: Byte)
    ensures Decode(Encode([b0])) == Some([b0])
  {
    var q := EncodeQuad(b0, 0, 0, 1);
    assert Encode([b0]) == q;
    DecodeOneGroup(q);
    DecodeEncodeQuad(b0, 0, 0, 1, true);
  }

  lemma RoundTripTwo(b0: Byte, b1: Byte)
    ensures Decode(Encode([b0, b1])) == Some([b0, b1])
  {
    var q := EncodeQuad(b0, b1, 0, 2);
    assert Encode([b0, b1]) == q;
    DecodeOneGroup(q);
    DecodeEncodeQuad(b0, b1, 0, 2, true);
  }

  lemma RoundTripThree(b0: Byte, b1: Byte, b2: Byte)
    ensures Decode(Encode([b0, b1, b2])) == Some([b0, b1, b2])
  {
    var q := EncodeQuad(b0, b1, b2, 3);
    assert [b0, b1, b2][3..] == [];
    assert Encode([b0, b1, b2]) == q + Encode([]) == q;
    DecodeOneGroup(q);
    DecodeEncodeQuad(b0, b1, b2, 3, true);
  }

  /** Encoding more than three bytes writes the first group, then the rest. */
  lemma EncodeSplit(s: Bytes)
    requires |s| > 3
    ensures Encode(s) == EncodeQuad(s[0], s[1], s[2], 3) + Encode(s[3..])
    ensures Encode(s[3..]) != []
  {
  }

  /** The step of the round trip: one full group in front of a tail that round-trips. */
  lemma RoundTripStep(s: Bytes)
    requires |s| > 3 && Decode(Encode(s[3..])) == Some(s[3..])
    ensures Decode(Encode(s)) == Some(s)
  {
    var head, tail := [s[0], s[1], s[2]], s[3..];
    var q, rest := EncodeQuad(s[0], s[1], s[2], 3), Encode(tail);
    EncodeSplit(s);
    DecodeEncodeQuad(s[0], s[1], s[2], 3, false);
    assert DecodeQuad(q, false) == Some(head);
    DecodeGroups(q, rest, head, tail);
    FirstThree(s);
  }

  lemma FirstThree(s: Bytes)
    requires |s| >= 3
    ensures [s[0], s[1], s[2]] + s[3..] == s
  {
    assert [s[0], s[1], s[2]] == s[..3];
  }

  /** The base64 round trip: decoding what Encode wrote gives back exactly the bytes,
      for every byte string, the empty one included. */
  lemma {:induction false} RoundTrip(s: Bytes)
    ensures Decode(Encode(s)) == Some(s)
    decreases |s|
  {
    if |s| == 1 {
      RoundTripOne(s[0]);
      assert s == [s[0]];
    } else if |s| == 2 {
      RoundTripTwo(s[0], s[1]);
      assert s == [s[0], s[1]];
    } else if |s| == 3 {
      RoundTripThree(s[0], s[1], s[2]);
      assert s == [s[0], s[1], s[2]];
    } else if |s| > 3 {
      RoundTrip(s[3..]);
      RoundTripStep(s);
    }
  }

  /** Encoding is injective (a consequence of the round trip). */
  lemma EncodeInjective(a: Bytes, b: Bytes)
    requires Encode(a) == Encode(b)
    ensures a == b
  {
    RoundTrip(a);
    RoundTrip(b);
  }

  /** Only the empty byte string encodes to the empty text, so every encoded key or
      signature of at least one byte is a non-empty (truthy) string. */
  lemma EncodeEmptyIff(s: Bytes)
    ensures Encode(s) == "" <==> s == []
  {
  }
}
