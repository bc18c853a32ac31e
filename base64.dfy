/**
 * Base 64 encoding with the standard alphabet and `=` padding, as section 4
 * of RFC 4648 defines it, and the browser's `btoa`/`atob` built on it: they
 * work on "binary strings", strings whose every character code is a byte.
 */
module Base64 {
  import opened Wrappers

  type byte = x: int | 0 <= x < 256
  type sextet = x: int | 0 <= x < 64

  /** The 64-character alphabet of section 4 of RFC 4648 (its Table 1). */
  function EncodeSextet(v: sextet): (c: char)
    ensures c != '='
  {
    if v < 26 then (65 + v) as char
    else if v < 52 then (97 + v - 26) as char
    else if v < 62 then (48 + v - 52) as char
    else if v == 62 then '+'
    else '/'
  }

  /** The value of one alphabet character; nothing for any other character. */
  function DecodeChar(c: char): (r: Option<sextet>)
    ensures r.Some? ==> EncodeSextet(r.value) == c
  {
    if 'A' <= c <= 'Z' then Some(c as int - 65)
    else if 'a' <= c <= 'z' then Some(c as int - 97 + 26)
    else if '0' <= c <= '9' then Some(c as int - 48 + 52)
    else if c == '+' then Some(62)
    else if c == '/' then Some(63)
    else None
  }

  lemma DecodeEncodeSextet(v: sextet)
    ensures DecodeChar(EncodeSextet(v)) == Some(v)
  {
  }

  /** The four sextets of three bytes, high bits first. */
  function Sextet0(b0: byte): sextet { b0 / 4 }
  function Sextet1(b0: byte, b1: byte): sextet { (b0 % 4) * 16 + b1 / 16 }
  function Sextet2(b1: byte, b2: byte): sextet { (b1 % 16) * 4 + b2 / 64 }
  function Sextet3(b2: byte): sextet { b2 % 64 }

  /** The three bytes of four sextets. */
  function Byte0(c0: sextet, c1: sextet): byte { (c0 as int) * 4 + (c1 as int) / 16 }
  function Byte1(c1: sextet, c2: sextet): byte { ((c1 as int) % 16) * 16 + (c2 as int) / 4 }
  function Byte2(c2: sextet, c3: sextet): byte { ((c2 as int) % 4) * 64 + (c3 as int) }

  lemma JoinSplit0(b0: byte, b1: byte)
    ensures Byte0(Sextet0(b0), Sextet1(b0, b1)) == b0
  {
    assert Sextet1(b0, b1) / 16 == b0 % 4;
  }

  lemma JoinSplit1(b0: byte, b1: byte, b2: byte)
    ensures Byte1(Sextet1(b0, b1), Sextet2(b1, b2)) == b1
  {
    assert Sextet1(b0, b1) % 16 == b1 / 16;
    assert Sextet2(b1, b2) / 4 == b1 % 16;
  }

  lemma JoinSplit2(b1: byte, b2: byte)
    ensures Byte2(Sextet2(b1, b2), Sextet3(b2)) == b2
  {
    assert Sextet2(b1, b2) % 4 == b2 / 64;
  }

  /** Three bytes as four characters. */
  function EncodeBlock(b0: byte, b1: byte, b2: byte): string {
    [EncodeSextet(Sextet0(b0)), EncodeSextet(Sextet1(b0, b1)),
     EncodeSextet(Sextet2(b1, b2)), EncodeSextet(Sextet3(b2))]
  }

  /** The encoding of a byte sequence: whole blocks, then a padded final block. */
  function Encode(bs: seq<byte>): (s: string)
    ensures |s| == 4 * ((|bs| + 2) / 3)
    ensures |s| % 4 == 0
  {
    if |bs| == 0 then ""
    else if |bs| == 1 then
      [EncodeSextet(Sextet0(bs[0])), EncodeSextet(Sextet1(bs[0], 0)), '=', '=']
    else if |bs| == 2 then
      [EncodeSextet(Sextet0(bs[0])), EncodeSextet(Sextet1(bs[0], bs[1])),
       EncodeSextet(Sextet2(bs[1], 0)), '=']
    else
      EncodeBlock(bs[0], bs[1], bs[2]) + Encode(bs[3..])
  }

  /** Four alphabet characters as three bytes. */
  function DecodeBlock(s: string): Option<seq<byte>>
    requires |s| == 4
  {
    match (DecodeChar(s[0]), DecodeChar(s[1]), DecodeChar(s[2]), DecodeChar(s[3]))
    case (Some(c0), Some(c1), Some(c2), Some(c3)) =>
      Some([Byte0(c0, c1), Byte1(c1, c2), Byte2(c2, c3)])
    case _ => None
  }

  /** The final block, which may end in one or two padding characters. */
  function DecodeFinal(s: string): Option<seq<byte>>
    requires |s| == 4
  {
    if s[2] == '=' && s[3] == '=' then
      match (DecodeChar(s[0]), DecodeChar(s[1]))
      case (Some(c0), Some(c1)) => Some([Byte0(c0, c1)])
      case _ => None
    else if s[3] == '=' then
      match (DecodeChar(s[0]), DecodeChar(s[1]), DecodeChar(s[2]))
      case (Some(c0), Some(c1), Some(c2)) => Some([Byte0(c0, c1), Byte1(c1, c2)])
      case _ => None
    else
      DecodeBlock(s)
  }

  /** Decoding of a padded encoding; nothing when the text is not one. The
      bits a padded final block leaves over are dropped unchecked. */
  function Decode(s: string): Option<seq<byte>>
    decreases |s|
  {
    if |s| == 0 then Some([])
    else if |s| < 4 then None
    else if |s| == 4 then DecodeFinal(s)
    else
      match DecodeBlock(s[..4])
      case None => None
      case Some(head) =>
        match Decode(s[4..])
        case None => None
        case Some(tail) => Some(head + tail)
  }

  lemma BlockRoundTrip(b0: byte, b1: byte, b2: byte)
    ensures DecodeBlock(EncodeBlock(b0, b1, b2)) == Some([b0, b1, b2])
  {
    var c0, c1, c2, c3 := Sextet0(b0), Sextet1(b0, b1), Sextet2(b1, b2), Sextet3(b2);
    DecodeEncodeSextet(c0);
    DecodeEncodeSextet(c1);
    DecodeEncodeSextet(c2);
    DecodeEncodeSextet(c3);
    assert DecodeBlock(EncodeBlock(b0, b1, b2)) == Some([Byte0(c0, c1), Byte1(c1, c2), Byte2(c2, c3)]);
    JoinSplit0(b0, b1);
    JoinSplit1(b0, b1, b2);
    JoinSplit2(b1, b2);
  }

  /** One byte: two characters and two padding characters decode back to it. */
  lemma OneByteRoundTrip(b0: byte)
    ensures Decode(Encode([b0])) == Some([b0])
  {
    var c0, c1 := Sextet0(b0), Sextet1(b0, 0);
    var s := Encode([b0]);
    assert s == [EncodeSextet(c0), EncodeSextet(c1), '=', '='];
    DecodeEncodeSextet(c0);
    DecodeEncodeSextet(c1);
    assert Decode(s) == Some([Byte0(c0, c1)]);
    JoinSplit0(b0, 0);
  }

  /** Two bytes: three characters and one padding character decode back to them. */
  lemma TwoBytesRoundTrip(b0: byte, b1: byte)
    ensures Decode(Encode([b0, b1])) == Some([b0, b1])
  {
    var c0, c1, c2 := Sextet0(b0), Sextet1(b0, b1), Sextet2(b1, 0);
    var s := Encode([b0, b1]);
    assert s == [EncodeSextet(c0), EncodeSextet(c1), EncodeSextet(c2), '='];
    DecodeEncodeSextet(c0);
    DecodeEncodeSextet(c1);
    DecodeEncodeSextet(c2);
    assert Decode(s) == Some([Byte0(c0, c1), Byte1(c1, c2)]);
    JoinSplit0(b0, b1);
    JoinSplit1(b0, b1, 0);
  }

  /** Three bytes: one unpadded final block. */
  lemma ThreeBytesRoundTrip(bs: seq<byte>)
    requires |bs| == 3
    ensures Decode(Encode(bs)) == Some(bs)
  {
    var block := EncodeBlock(bs[0], bs[1], bs[2]);
    assert Encode(bs[3..]) == "";
    assert Encode(bs) == block;
    BlockRoundTrip(bs[0], bs[1], bs[2]);
    assert DecodeFinal(block) == DecodeBlock(block);
    assert [bs[0], bs[1], bs[2]] == bs;
  }

  /** Decoding undoes encoding. */
  lemma {:induction false} DecodeEncode(bs: seq<byte>)
    ensures Decode(Encode(bs)) == Some(bs)
    decreases |bs|, 1
  {
    if |bs| == 1 {
      OneByteRoundTrip(bs[0]);
      assert [bs[0]] == bs;
    } else if |bs| == 2 {
      TwoBytesRoundTrip(bs[0], bs[1]);
      assert [bs[0], bs[1]] == bs;
    } else if |bs| == 3 {
      ThreeBytesRoundTrip(bs);
    } else if |bs| > 3 {
      DecodeEncodeBlocks(bs);
    }
  }

  /** More than three bytes: a whole block, then the encoding of the rest. */
  lemma {:induction false} DecodeEncodeBlocks(bs: seq<byte>)
    requires |bs| > 3
    ensures Decode(Encode(bs)) == Some(bs)
    decreases |bs|, 0
  {
    var head := [bs[0], bs[1], bs[2]];
    var block := EncodeBlock(bs[0], bs[1], bs[2]);
    var tail := Encode(bs[3..]);
    assert Encode(bs) == block + tail;
    BlockRoundTrip(bs[0], bs[1], bs[2]);
    DecodeEncode(bs[3..]);
    DecodeJoin(block, tail, head, bs[3..]);
    assert head + bs[3..] == bs by {
      assert bs[..3] == head;
      assert bs == bs[..3] + bs[3..];
    }
  }

  /** A whole block followed by more text decodes to the block's bytes
      followed by the rest's. */
  lemma DecodeJoin(block: string, tail: string, head: seq<byte>, rest: seq<byte>)
    requires |block| == 4 && DecodeBlock(block) == Some(head)
    requires tail != [] && Decode(tail) == Some(rest)
    ensures Decode(block + tail) == Some(head + rest)
  {
    var s := block + tail;
    assert s[..4] == block && s[4..] == tail;
  }

  /** Only text whose length is a multiple of four decodes, and it gives at
      most three bytes per four characters. */
  lemma {:induction false} DecodeLength(s: string)
    ensures |s| % 4 != 0 ==> Decode(s).None?
    ensures Decode(s).Some? ==> |Decode(s).value| <= 3 * (|s| / 4)
    decreases |s|
  {
    if |s| > 4 && DecodeBlock(s[..4]).Some? {
      DecodeLength(s[4..]);
      assert |s[4..]| / 4 == |s| / 4 - 1;
    }
  }

  // ---------------------------------------------------------------- binary strings

  /** The string whose character codes are the given bytes (`String.fromCharCode` per byte). */
  function BinaryString(bs: seq<byte>): (s: string)
    ensures |s| == |bs|
    ensures forall i | 0 <= i < |bs| :: s[i] as int == bs[i]
  {
    seq(|bs|, i requires 0 <= i < |bs| => bs[i] as char)
  }

  /** Every character code is a byte. */
  predicate IsBinary(s: string) {
    forall i | 0 <= i < |s| :: s[i] as int < 256
  }

  /** The character codes of a binary string. */
  function Codes(s: string): (bs: seq<byte>)
    requires IsBinary(s)
    ensures BinaryString(bs) == s
  {
    seq(|s|, i requires 0 <= i < |s| => s[i] as int)
  }

  /** `btoa`: encodes a binary string; fails on any character code above 255. */
  function Btoa(s: string): (r: Option<string>)
    ensures r.Some? <==> IsBinary(s)
    ensures r.Some? ==> |r.value| == 4 * ((|s| + 2) / 3)
  {
    if IsBinary(s) then Some(Encode(Codes(s))) else None
  }

  /** `atob` on a padded encoding: the decoded bytes as a binary string; fails
      on anything that is not an encoding. */
  function Atob(s: string): (r: Option<string>)
    ensures r.Some? ==> IsBinary(r.value)
    ensures r.Some? ==> |s| % 4 == 0 && |r.value| <= 3 * (|s| / 4)
  {
    DecodeLength(s);
    match Decode(s)
    case None => None
    case Some(bs) => Some(BinaryString(bs))
  }

  /** `atob` undoes `btoa` on every binary string. */
  lemma AtobBtoa(s: string)
    requires IsBinary(s)
    ensures Btoa(s).Some? && Atob(Btoa(s).value) == Some(s)
  {
    DecodeEncode(Codes(s));
  }
}
