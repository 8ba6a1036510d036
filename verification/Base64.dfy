// Standard base64 without padding (sections 3.2 and 4 of RFC 4648), as encoding/base64 does it:
// the decoder skips line breaks and does not look at the unused bits of the last character.
module Base64 {
  import opened Wrappers

  type Byte = n: nat | n < 256

  type Sextet = n: nat | n < 64

  function EncodeChar(i: Sextet): char {
    if i < 26 then ('A' as int + i) as char
    else if i < 52 then ('a' as int + (i - 26)) as char
    else if i < 62 then ('0' as int + (i - 52)) as char
    else if i == 62 then '+'
    else '/'
  }

  function DecodeChar(c: char): Option<Sextet> {
    if 'A' <= c <= 'Z' then Some(c as int - 'A' as int)
    else if 'a' <= c <= 'z' then Some(c as int - 'a' as int + 26)
    else if '0' <= c <= '9' then Some(c as int - '0' as int + 52)
    else if c == '+' then Some(62)
    else if c == '/' then Some(63)
    else None
  }

  // The alphabet is a bijection.
  lemma CharRoundTrip(i: Sextet, c: char)
    ensures DecodeChar(EncodeChar(i)) == Some(i)
    ensures DecodeChar(c).Some? ==> EncodeChar(DecodeChar(c).value) == c
    ensures !IsLineBreak(EncodeChar(i))
  {
  }

  // The four sextets of three bytes x, y, z ...
  function Sextet0(x: Byte): Sextet { x / 4 }
  function Sextet1(x: Byte, y: Byte): Sextet { x % 4 * 16 + y / 16 }
  function Sextet2(y: Byte, z: Byte): Sextet { y % 16 * 4 + z / 64 }
  function Sextet3(z: Byte): Sextet { z % 64 }

  // ... and the three bytes of four sextets.
  function Byte0(d0: Sextet, d1: Sextet): Byte { d0 * 4 + d1 / 16 }
  function Byte1(d1: Sextet, d2: Sextet): Byte { d1 % 16 * 16 + d2 / 4 }
  function Byte2(d2: Sextet, d3: Sextet): Byte { d2 % 4 * 64 + d3 }

  lemma TripleRoundTrip(x: Byte, y: Byte, z: Byte)
    ensures Byte0(Sextet0(x), Sextet1(x, y)) == x
    ensures Byte1(Sextet1(x, y), Sextet2(y, z)) == y
    ensures Byte2(Sextet2(y, z), Sextet3(z)) == z
  {
  }

  lemma QuadRoundTrip(d0: Sextet, d1: Sextet, d2: Sextet, d3: Sextet)
    ensures Sextet0(Byte0(d0, d1)) == d0
    ensures Sextet1(Byte0(d0, d1), Byte1(d1, d2)) == d1
    ensures Sextet2(Byte1(d1, d2), Byte2(d2, d3)) == d2
    ensures Sextet3(Byte2(d2, d3)) == d3
  {
  }

  // Three bytes are four sextets; one or two bytes at the end are two or three.
  function Unpack(b: seq<Byte>): seq<Sextet> {
    if |b| == 0 then []
    else if |b| == 1 then [Sextet0(b[0]), Sextet1(b[0], 0)]
    else if |b| == 2 then [Sextet0(b[0]), Sextet1(b[0], b[1]), Sextet2(b[1], 0)]
    else [Sextet0(b[0]), Sextet1(b[0], b[1]), Sextet2(b[1], b[2]), Sextet3(b[2])] + Unpack(b[3..])
  }

  function Chars(d: seq<Sextet>): string {
    if d == [] then "" else [EncodeChar(d[0])] + Chars(d[1..])
  }

  function Encode(b: seq<Byte>): string {
    Chars(Unpack(b))
  }

  predicate IsLineBreak(c: char) {
    c == '\r' || c == '\n'
  }

  function SkipLineBreaks(s: string): string {
    if s == "" then ""
    else if IsLineBreak(s[0]) then SkipLineBreaks(s[1..])
    else [s[0]] + SkipLineBreaks(s[1..])
  }

  function Sextets(s: string): Option<seq<Sextet>> {
    if s == "" then Some([])
    else
      match (DecodeChar(s[0]), Sextets(s[1..]))
      case (Some(d), Some(ds)) => Some([d] + ds)
      case (_, _) => None
  }

  // The bytes of a list of sextets; a single sextet left over is an error.
  function Pack(d: seq<Sextet>): Option<seq<Byte>> {
    if |d| == 0 then Some([])
    else if |d| == 1 then None
    else if |d| == 2 then Some([Byte0(d[0], d[1])])
    else if |d| == 3 then Some([Byte0(d[0], d[1]), Byte1(d[1], d[2])])
    else
      match Pack(d[4..])
      case None => None
      case Some(rest) => Some([Byte0(d[0], d[1]), Byte1(d[1], d[2]), Byte2(d[2], d[3])] + rest)
  }

  function Decode(s: string): Option<seq<Byte>> {
    match Sextets(SkipLineBreaks(s))
    case None => None
    case Some(d) => Pack(d)
  }

  lemma {:induction false} SextetsOfChars(d: seq<Sextet>)
    ensures SkipLineBreaks(Chars(d)) == Chars(d)
    ensures Sextets(Chars(d)) == Some(d)
  {
    if d != [] {
      CharRoundTrip(d[0], 'A');
      SextetsOfChars(d[1..]);
      assert Chars(d)[1..] == Chars(d[1..]);
      assert d == [d[0]] + d[1..];
    }
  }

  lemma PackOfFour(d0: Sextet, d1: Sextet, d2: Sextet, d3: Sextet, d: seq<Sextet>, b: seq<Byte>)
    requires Pack(d) == Some(b)
    ensures Pack([d0, d1, d2, d3] + d) == Some([Byte0(d0, d1), Byte1(d1, d2), Byte2(d2, d3)] + b)
  {
    assert ([d0, d1, d2, d3] + d)[4..] == d;
  }

  lemma PackOfThree(d0: Sextet, d1: Sextet, d2: Sextet)
    ensures Pack([d0, d1, d2]) == Some([Byte0(d0, d1), Byte1(d1, d2)])
  {
  }

  lemma PackOfTwo(d0: Sextet, d1: Sextet)
    ensures Pack([d0, d1]) == Some([Byte0(d0, d1)])
  {
  }

  lemma UnpackOfThree(x: Byte, y: Byte, z: Byte, b: seq<Byte>)
    ensures Unpack([x, y, z] + b) == [Sextet0(x), Sextet1(x, y), Sextet2(y, z), Sextet3(z)] + Unpack(b)
    ensures Unpack([x, y]) == [Sextet0(x), Sextet1(x, y), Sextet2(y, 0)]
    ensures Unpack([x]) == [Sextet0(x), Sextet1(x, 0)]
  {
    assert ([x, y, z] + b)[3..] == b;
  }

  lemma {:induction false} PackUnpack(b: seq<Byte>)
    ensures Pack(Unpack(b)) == Some(b)
  {
    if |b| >= 3 {
      PackUnpack(b[3..]);
      assert b == [b[0], b[1], b[2]] + b[3..];
      PackUnpackTriple(b[0], b[1], b[2], b[3..]);
    } else if |b| == 2 {
      assert b == [b[0], b[1]];
      PackUnpackTwo(b[0], b[1]);
    } else if |b| == 1 {
      assert b == [b[0]];
      PackUnpackOne(b[0]);
    }
  }

  lemma PackUnpackTriple(x: Byte, y: Byte, z: Byte, b: seq<Byte>)
    requires Pack(Unpack(b)) == Some(b)
    ensures Pack(Unpack([x, y, z] + b)) == Some([x, y, z] + b)
  {
    TripleRoundTrip(x, y, z);
    UnpackOfThree(x, y, z, b);
    PackOfFour(Sextet0(x), Sextet1(x, y), Sextet2(y, z), Sextet3(z), Unpack(b), b);
  }

  lemma PackUnpackTwo(x: Byte, y: Byte)
    ensures Pack(Unpack([x, y])) == Some([x, y])
  {
    TripleRoundTrip(x, y, 0);
    PackOfThree(Sextet0(x), Sextet1(x, y), Sextet2(y, 0));
  }

  lemma PackUnpackOne(x: Byte)
    ensures Pack(Unpack([x])) == Some([x])
  {
    var d1 := Sextet1(x, 0);
    PackOfTwo(Sextet0(x), d1);
    assert Byte0(Sextet0(x), d1) == x by {
      TripleRoundTrip(x, 0, 0);
    }
  }

  // Every byte sequence comes back, whatever its length modulo three.
  lemma DecodeEncode(b: seq<Byte>)
    ensures Decode(Encode(b)) == Some(b)
  {
    SextetsOfChars(Unpack(b));
    PackUnpack(b);
  }

  // The bits of the last sextet that carry no byte are zero.
  predicate ZeroTail(d: seq<Sextet>) {
    if |d| >= 4 then ZeroTail(d[4..])
    else if |d| == 3 then d[2] % 4 == 0
    else if |d| == 2 then d[1] % 16 == 0
    else true
  }

  lemma TailRoundTrip(d0: Sextet, d1: Sextet, d2: Sextet)
    ensures Sextet0(Byte0(d0, d1)) == d0
    ensures Sextet1(Byte0(d0, d1), 0) == d1 <==> d1 % 16 == 0
    ensures Sextet1(Byte0(d0, d1), Byte1(d1, d2)) == d1
    ensures Sextet2(Byte1(d1, d2), 0) == d2 <==> d2 % 4 == 0
  {
  }

  lemma {:induction false} UnpackPack(d: seq<Sextet>)
    requires Pack(d).Some?
    ensures Unpack(Pack(d).value) == d <==> ZeroTail(d)
  {
    if |d| >= 4 {
      UnpackPack(d[4..]);
      UnpackPackQuad(d);
    } else if |d| >= 2 {
      TailRoundTrip(d[0], d[1], if |d| == 3 then d[2] else 0);
      assert d == if |d| == 3 then [d[0], d[1], d[2]] else [d[0], d[1]];
    }
  }

  lemma UnpackPackQuad(d: seq<Sextet>)
    requires |d| >= 4 && Pack(d).Some?
    ensures Unpack(Pack(d).value) == [d[0], d[1], d[2], d[3]] + Unpack(Pack(d[4..]).value)
    ensures Unpack(Pack(d).value) == d <==> Unpack(Pack(d[4..]).value) == d[4..]
  {
    var rest := Pack(d[4..]).value;
    QuadRoundTrip(d[0], d[1], d[2], d[3]);
    assert ([Byte0(d[0], d[1]), Byte1(d[1], d[2]), Byte2(d[2], d[3])] + rest)[3..] == rest;
    var four := [d[0], d[1], d[2], d[3]];
    assert d == four + d[4..];
    assert (four + Unpack(rest))[4..] == Unpack(rest);
  }

  lemma {:induction false} CharsOfSextets(s: string)
    requires Sextets(s).Some?
    ensures Chars(Sextets(s).value) == s
  {
    if s != "" {
      CharsOfSextets(s[1..]);
      CharRoundTrip(0, s[0]);
    }
  }

  lemma {:induction false} SkipShortens(s: string)
    ensures |SkipLineBreaks(s)| <= |s|
  {
    if s != "" {
      SkipShortens(s[1..]);
    }
  }

  lemma {:induction false} SkipsNothing(s: string)
    ensures SkipLineBreaks(s) == s <==> forall c :: c in s ==> !IsLineBreak(c)
  {
    if s != "" {
      SkipsNothing(s[1..]);
      SkipShortens(s[1..]);
      assert s == [s[0]] + s[1..];
      if IsLineBreak(s[0]) {
        assert s[0] in s;
      }
    }
  }

  // A text that decodes is the one that encoding writes exactly when it has no line break and its
  // unused bits are zero (section 3.5 of RFC 4648).
  lemma EncodeDecode(s: string)
    requires Decode(s).Some?
    ensures Encode(Decode(s).value) == s <==>
      (forall c :: c in s ==> !IsLineBreak(c)) && ZeroTail(Sextets(SkipLineBreaks(s)).value)
  {
    var clean := SkipLineBreaks(s);
    var d := Sextets(clean).value;
    var b := Pack(d).value;
    CharsOfSextets(clean);
    UnpackPack(d);
    SkipsNothing(s);
    if Encode(b) == s {
      SextetsOfChars(Unpack(b));
    }
  }

  // ---- the encoding of RFC 4648 --------------------------------------------------------------

  // Table 1 of section 4, read from the character.
  function RfcValue(c: char): int {
    if 'A' <= c <= 'Z' then c as int - 65
    else if 'a' <= c <= 'z' then c as int - 71
    else if '0' <= c <= '9' then c as int + 4
    else if c == '+' then 62
    else if c == '/' then 63
    else -1
  }

  lemma AlphabetExactly(i: Sextet)
    ensures RfcValue(EncodeChar(i)) == i
  {
  }

  // The number that the bits of some bytes, or of some characters, spell.
  function BytesNumber(b: seq<Byte>): int {
    if b == [] then 0 else 256 * BytesNumber(b[..|b| - 1]) + b[|b| - 1]
  }

  function CharsNumber(s: string): int {
    if s == "" then 0 else 64 * CharsNumber(s[..|s| - 1]) + RfcValue(s[|s| - 1])
  }

  predicate AllRfc(s: string) {
    forall i :: 0 <= i < |s| ==> RfcValue(s[i]) >= 0
  }

  // Three bytes are four characters of the same number; one or two bytes at the end are two or three
  // characters, with zero bits filled in, and there is no padding.
  ghost predicate IsRfcEncoding(b: seq<Byte>, s: string)
    decreases |b|
  {
    if b == [] then s == ""
    else if |b| == 1 then |s| == 2 && AllRfc(s) && CharsNumber(s) == 16 * BytesNumber(b)
    else if |b| == 2 then |s| == 3 && AllRfc(s) && CharsNumber(s) == 4 * BytesNumber(b)
    else
      && |s| >= 4 && AllRfc(s[..4]) && CharsNumber(s[..4]) == BytesNumber(b[..3])
      && IsRfcEncoding(b[3..], s[4..])
  }

  lemma CharsNumberSnoc(s: string, c: char)
    ensures CharsNumber(s + [c]) == 64 * CharsNumber(s) + RfcValue(c)
  {
    assert (s + [c])[..|s|] == s;
  }

  lemma BytesNumberSnoc(b: seq<Byte>, x: Byte)
    ensures BytesNumber(b + [x]) == 256 * BytesNumber(b) + x
  {
    assert (b + [x])[..|b|] == b;
  }

  lemma TwoChars(c: char, d: char)
    ensures CharsNumber([c, d]) == 64 * RfcValue(c) + RfcValue(d)
  {
    CharsNumberSnoc("", c);
    CharsNumberSnoc([c], d);
    assert "" + [c] == [c] && [c] + [d] == [c, d];
  }

  lemma FourChars(c: char, d: char, e: char, f: char)
    ensures CharsNumber([c, d, e]) == 4096 * RfcValue(c) + 64 * RfcValue(d) + RfcValue(e)
    ensures CharsNumber([c, d, e, f]) ==
      262144 * RfcValue(c) + 4096 * RfcValue(d) + 64 * RfcValue(e) + RfcValue(f)
  {
    TwoChars(c, d);
    CharsNumberSnoc([c, d], e);
    CharsNumberSnoc([c, d, e], f);
    assert [c, d] + [e] == [c, d, e] && [c, d, e] + [f] == [c, d, e, f];
  }

  lemma ThreeBytes(x: Byte, y: Byte, z: Byte)
    ensures BytesNumber([x]) == x && BytesNumber([x, y]) == 256 * (x as int) + y
    ensures BytesNumber([x, y, z]) == 65536 * (x as int) + 256 * (y as int) + z
  {
    BytesNumberSnoc([], x);
    BytesNumberSnoc([x], y);
    BytesNumberSnoc([x, y], z);
    assert [] + [x] == [x] && [x] + [y] == [x, y] && [x, y] + [z] == [x, y, z];
  }

  lemma OneByteIsRfc(x: Byte)
    ensures IsRfcEncoding([x], Chars([Sextet0(x), Sextet1(x, 0)]))
  {
    var d := [Sextet0(x), Sextet1(x, 0)];
    CharsAt(d);
    assert Chars(d) == [EncodeChar(d[0]), EncodeChar(d[1])];
    AlphabetExactly(d[0]);
    AlphabetExactly(d[1]);
    TwoChars(EncodeChar(d[0]), EncodeChar(d[1]));
    ThreeBytes(x, 0, 0);
  }

  lemma TwoBytesAreRfc(x: Byte, y: Byte)
    ensures IsRfcEncoding([x, y], Chars([Sextet0(x), Sextet1(x, y), Sextet2(y, 0)]))
  {
    var d := [Sextet0(x), Sextet1(x, y), Sextet2(y, 0)];
    CharsAt(d);
    assert Chars(d) == [EncodeChar(d[0]), EncodeChar(d[1]), EncodeChar(d[2])];
    AlphabetExactly(d[0]);
    AlphabetExactly(d[1]);
    AlphabetExactly(d[2]);
    FourChars(EncodeChar(d[0]), EncodeChar(d[1]), EncodeChar(d[2]), 'A');
    ThreeBytes(x, y, 0);
  }

  lemma ThreeBytesAreRfc(x: Byte, y: Byte, z: Byte)
    ensures var s := Chars([Sextet0(x), Sextet1(x, y), Sextet2(y, z), Sextet3(z)]);
      |s| == 4 && AllRfc(s) && CharsNumber(s) == BytesNumber([x, y, z])
  {
    var d := [Sextet0(x), Sextet1(x, y), Sextet2(y, z), Sextet3(z)];
    CharsAt(d);
    assert Chars(d) == [EncodeChar(d[0]), EncodeChar(d[1]), EncodeChar(d[2]), EncodeChar(d[3])];
    AlphabetExactly(d[0]);
    AlphabetExactly(d[1]);
    AlphabetExactly(d[2]);
    AlphabetExactly(d[3]);
    FourChars(EncodeChar(d[0]), EncodeChar(d[1]), EncodeChar(d[2]), EncodeChar(d[3]));
    ThreeBytes(x, y, z);
  }

  lemma {:induction false} EncodeIsRfc(b: seq<Byte>)
    ensures IsRfcEncoding(b, Encode(b))
    decreases |b|
  {
    if |b| == 1 {
      assert b == [b[0]];
      OneByteIsRfc(b[0]);
    } else if |b| == 2 {
      assert b == [b[0], b[1]];
      TwoBytesAreRfc(b[0], b[1]);
    } else if |b| > 2 {
      var first := [Sextet0(b[0]), Sextet1(b[0], b[1]), Sextet2(b[1], b[2]), Sextet3(b[2])];
      ThreeBytesAreRfc(b[0], b[1], b[2]);
      assert b[..3] == [b[0], b[1], b[2]];
      EncodeIsRfc(b[3..]);
      CharsOfTwo(first, Unpack(b[3..]));
    }
  }

  lemma {:induction false} CharsAt(d: seq<Sextet>)
    ensures |Chars(d)| == |d| && forall i :: 0 <= i < |d| ==> Chars(d)[i] == EncodeChar(d[i])
  {
    if d != [] {
      CharsAt(d[1..]);
    }
  }

  lemma {:induction false} CharsOfTwo(a: seq<Sextet>, d: seq<Sextet>)
    ensures Chars(a + d) == Chars(a) + Chars(d)
    ensures |Chars(a)| == |a| && Chars(a + d)[..|a|] == Chars(a) && Chars(a + d)[|a|..] == Chars(d)
  {
    CharsAt(a);
    CharsAt(d);
    CharsAt(a + d);
  }
}
