/**
 * The base 64 encoding of section 4 of RFC 4648 (alphabet A-Z a-z 0-9 + /, with
 * '=' padding), used by the token service to encode the configured secret and to
 * decode it again into signing-key bytes.
 */
module Base64 {
  import opened Wrappers

  type Byte = b: int | 0 <= b < 256
  type Sextet = i: int | 0 <= i < 64

  datatype DecodeError = BadLength | BadCharacter

  /** Table 1 of the RFC: the character that encodes a 6-bit value. */
  function Char64(i: Sextet): (c: char)
    ensures c != '='
  {
    if i < 26 then ('A' as int + i) as char
    else if i < 52 then ('a' as int + i - 26) as char
    else if i < 62 then ('0' as int + i - 52) as char
    else if i == 62 then '+'
    else '/'
  }

  /** The inverse of table 1; `None` for a character outside the alphabet. */
  function Index64(c: char): (r: Option<Sextet>)
    ensures r.Some? ==> Char64(r.value) == c
  {
    if 'A' <= c <= 'Z' then Some(c as int - 'A' as int)
    else if 'a' <= c <= 'z' then Some(c as int - 'a' as int + 26)
    else if '0' <= c <= '9' then Some(c as int - '0' as int + 52)
    else if c == '+' then Some(62)
    else if c == '/' then Some(63)
    else None
  }

  lemma Index64OfChar64(i: Sextet)
    ensures Index64(Char64(i)) == Some(i)
  {
  }

  // ---------------------------------------------------------------------------
  // The bit regrouping: three bytes (24 bits) as four 6-bit values, and back.

  function Sextet0(b0: Byte): Sextet { b0 / 4 }
  function Sextet1(b0: Byte, b1: Byte): Sextet { (b0 % 4) * 16 + b1 / 16 }
  function Sextet2(b1: Byte, b2: Byte): Sextet { (b1 % 16) * 4 + b2 / 64 }
  function Sextet3(b2: Byte): Sextet { b2 % 64 }

  function Byte0(c0: Sextet, c1: Sextet): Byte { c0 * 4 + c1 / 16 }
  function Byte1(c1: Sextet, c2: Sextet): Byte { (c1 % 16) * 16 + c2 / 4 }
  function Byte2(c2: Sextet, c3: Sextet): Byte { (c2 % 4) * 64 + c3 }

  lemma Byte0OfSextets(b0: Byte, b1: Byte)
    ensures Byte0(Sextet0(b0), Sextet1(b0, b1)) == b0
  {
    assert Sextet1(b0, b1) / 16 == b0 % 4;
  }

  lemma Byte1OfSextets(b0: Byte, b1: Byte, b2: Byte)
    ensures Byte1(Sextet1(b0, b1), Sextet2(b1, b2)) == b1
  {
    assert Sextet1(b0, b1) % 16 == b1 / 16;
    assert Sextet2(b1, b2) / 4 == b1 % 16;
  }

  lemma Byte2OfSextets(b1: Byte, b2: Byte)
    ensures Byte2(Sextet2(b1, b2), Sextet3(b2)) == b2
  {
    assert Sextet2(b1, b2) % 4 == b2 / 64;
  }

  // ---------------------------------------------------------------------------
  // Encoding: every 24-bit group of input becomes four characters; a final group
  // of one or two bytes is padded with zero bits and then "==" or "=".

  function EncodeGroup(b0: Byte, b1: Byte, b2: Byte): (s: string)
    ensures |s| == 4
  {
    [Char64(Sextet0(b0)), Char64(Sextet1(b0, b1)), Char64(Sextet2(b1, b2)), Char64(Sextet3(b2))]
  }

  function Encode(b: seq<Byte>): (s: string)
    ensures |s| % 4 == 0
    ensures |s| == 0 <==> |b| == 0
    decreases |b|
  {
    if |b| == 0 then ""
    else if |b| == 1 then [Char64(Sextet0(b[0])), Char64(Sextet1(b[0], 0)), '=', '=']
    else if |b| == 2 then [Char64(Sextet0(b[0])), Char64(Sextet1(b[0], b[1])), Char64(Sextet2(b[1], 0)), '=']
    else EncodeGroup(b[0], b[1], b[2]) + Encode(b[3..])
  }

  // ---------------------------------------------------------------------------
  // Decoding: four characters at a time; only the last quantum may be padded.

  /** Four alphabet characters back to three bytes. */
  function DecodeGroup(q: string): (r: Result<seq<Byte>, DecodeError>)
    requires |q| == 4
    ensures r.Ok? ==> |r.value| == 3
  {
    match (Index64(q[0]), Index64(q[1]), Index64(q[2]), Index64(q[3]))
    case (Some(c0), Some(c1), Some(c2), Some(c3)) => Ok([Byte0(c0, c1), Byte1(c1, c2), Byte2(c2, c3)])
    case _ => Err(BadCharacter)
  }

  /** The final quantum: "xx==" carries one byte, "xxx=" two, "xxxx" three. */
  function DecodeFinal(q: string): (r: Result<seq<Byte>, DecodeError>)
    requires |q| == 4
  {
    if q[2] == '=' && q[3] == '=' then
      match (Index64(q[0]), Index64(q[1]))
      case (Some(c0), Some(c1)) => Ok([Byte0(c0, c1)])
      case _ => Err(BadCharacter)
    else if q[3] == '=' then
      match (Index64(q[0]), Index64(q[1]), Index64(q[2]))
      case (Some(c0), Some(c1), Some(c2)) => Ok([Byte0(c0, c1), Byte1(c1, c2)])
      case _ => Err(BadCharacter)
    else
      DecodeGroup(q)
  }

  function Decode(s: string): (r: Result<seq<Byte>, DecodeError>)
    ensures |s| % 4 != 0 ==> r.Err?
    decreases |s|
  {
    if |s| == 0 then Ok([])
    else if |s| < 4 then Err(BadLength)
    else if |s| == 4 then DecodeFinal(s)
    else
      assert |s[4..]| % 4 == |s| % 4 by { assert |s| == |s[4..]| + 4; }
      match DecodeGroup(s[..4])
      case Err(e) => Err(e)
      case Ok(group) =>
        match Decode(s[4..])
        case Err(e) => Err(e)
        case Ok(rest) => Ok(group + rest)
  }

  // ---------------------------------------------------------------------------
  // Round trip.

  lemma DecodeEncodeGroup(b0: Byte, b1: Byte, b2: Byte)
    ensures DecodeGroup(EncodeGroup(b0, b1, b2)) == Ok([b0, b1, b2])
  {
    Index64OfChar64(Sextet0(b0));
    Index64OfChar64(Sextet1(b0, b1));
    Index64OfChar64(Sextet2(b1, b2));
    Index64OfChar64(Sextet3(b2));
    Byte0OfSextets(b0, b1);
    Byte1OfSextets(b0, b1, b2);
    Byte2OfSextets(b1, b2);
  }

  lemma DecodeEncodeOne(b0: Byte)
    ensures DecodeFinal([Char64(Sextet0(b0)), Char64(Sextet1(b0, 0)), '=', '=']) == Ok([b0])
  {
    Index64OfChar64(Sextet0(b0));
    Index64OfChar64(Sextet1(b0, 0));
    Byte0OfSextets(b0, 0);
  }

  lemma DecodeEncodeTwo(b0: Byte, b1: Byte)
    ensures DecodeFinal([Char64(Sextet0(b0)), Char64(Sextet1(b0, b1)), Char64(Sextet2(b1, 0)), '='])
            == Ok([b0, b1])
  {
    Index64OfChar64(Sextet0(b0));
    Index64OfChar64(Sextet1(b0, b1));
    Index64OfChar64(Sextet2(b1, 0));
    Byte0OfSextets(b0, b1);
    Byte1OfSextets(b0, b1, 0);
  }

  /** Decoding a full quantum followed by more input. */
  lemma DecodeAppend(g: string, rest: string, group: seq<Byte>, tail: seq<Byte>)
    requires |g| == 4 && |rest| > 0
    requires DecodeGroup(g) == Ok(group) && Decode(rest) == Ok(tail)
    ensures Decode(g + rest) == Ok(group + tail)
  {
    var s := g + rest;
    assert s[..4] == g && s[4..] == rest;
  }

  lemma DecodeEncodeShort(b: seq<Byte>)
    requires 1 <= |b| <= 2
    ensures Decode(Encode(b)) == Ok(b)
  {
    if |b| == 1 {
      DecodeEncodeOne(b[0]);
      assert b == [b[0]];
    } else {
      DecodeEncodeTwo(b[0], b[1]);
      assert b == [b[0], b[1]];
    }
  }

  lemma SplitAfterThree(b: seq<Byte>)
    requires |b| >= 3
    ensures [b[0], b[1], b[2]] + b[3..] == b
  {
  }

  lemma DecodeEncodeThree(b: seq<Byte>)
    requires |b| == 3
    ensures Decode(Encode(b)) == Ok(b)
  {
    var g := EncodeGroup(b[0], b[1], b[2]);
    assert Encode(b) == g + Encode(b[3..]);
    assert Encode(b) == g;
    DecodeEncodeGroup(b[0], b[1], b[2]);
    assert g[3] != '=';
    assert b == [b[0], b[1], b[2]];
  }

  lemma DecodeEncodeStep(b: seq<Byte>)
    requires |b| > 3
    requires Decode(Encode(b[3..])) == Ok(b[3..])
    ensures Decode(Encode(b)) == Ok(b)
  {
    var g := EncodeGroup(b[0], b[1], b[2]);
    var rest := Encode(b[3..]);
    assert Encode(b) == g + rest;
    DecodeEncodeGroup(b[0], b[1], b[2]);
    DecodeAppend(g, rest, [b[0], b[1], b[2]], b[3..]);
    SplitAfterThree(b);
  }

  /** Decoding undoes encoding, for every byte string. */
  lemma {:induction false} DecodeEncode(b: seq<Byte>)
    ensures Decode(Encode(b)) == Ok(b)
    decreases |b|
  {
    if |b| == 0 {
    } else if |b| <= 2 {
      DecodeEncodeShort(b);
    } else if |b| == 3 {
      DecodeEncodeThree(b);
    } else {
      DecodeEncode(b[3..]);
      DecodeEncodeStep(b);
    }
  }
}
