/**
 * The server's `encrypt`: `base64.StdEncoding.EncodeToString` over the bytes
 * of its argument, the padded standard alphabet of section 4 of RFC 4648. The
 * result serves as the stored form of user names and passwords.
 *
 * `StdDecode` is not part of the server; it is the inverse used here to prove
 * that the encoding loses nothing, so that equal stored values mean equal
 * inputs.
 */
module Base64 {
  import opened GoStrings

  /** The padding byte `=`. */
  const Pad: byte := '=' as int

  /** The bytes of section 4's alphabet, `A-Z a-z 0-9 + /`. */
  predicate IsAlphabetByte(b: byte) {
    ('A' as int <= b <= 'Z' as int) ||
    ('a' as int <= b <= 'z' as int) ||
    ('0' as int <= b <= '9' as int) ||
    b == '+' as int || b == '/' as int
  }

  /** The letter of the alphabet for a 6-bit value (table 1 of RFC 4648). */
  function Sextet(v: int): (c: byte)
    requires 0 <= v < 64
    ensures IsAlphabetByte(c)
  {
    if v < 26 then 'A' as int + v
    else if v < 52 then 'a' as int + (v - 26)
    else if v < 62 then '0' as int + (v - 52)
    else if v == 62 then '+' as int
    else '/' as int
  }

  /** The 6-bit value of a letter of the alphabet (0 for any other byte). */
  function SextetValue(c: byte): (v: int)
    ensures 0 <= v < 64
  {
    if 'A' as int <= c <= 'Z' as int then c - 'A' as int
    else if 'a' as int <= c <= 'z' as int then c - 'a' as int + 26
    else if '0' as int <= c <= '9' as int then c - '0' as int + 52
    else if c == '+' as int then 62
    else if c == '/' as int then 63
    else 0
  }

  lemma SextetValueOfSextet(v: int)
    requires 0 <= v < 64
    ensures SextetValue(Sextet(v)) == v
  {
  }

  /** The four letters of one full 24-bit group. */
  function EncodeGroup(b0: byte, b1: byte, b2: byte): (r: seq<byte>)
    ensures |r| == 4 && forall i :: 0 <= i < 4 ==> IsAlphabetByte(r[i])
  {
    [Sextet(b0 / 4), Sextet(b0 % 4 * 16 + b1 / 16), Sextet(b1 % 16 * 4 + b2 / 64), Sextet(b2 % 64)]
  }

  /**
   * The padded group that ends the encoding of fewer than three remaining
   * bytes: none for none, two letters and `==` for one, three letters and
   * `=` for two.
   */
  function EncodeLast(s: seq<byte>): (r: seq<byte>)
    requires |s| < 3
    ensures |r| == (if s == [] then 0 else 4)
    ensures forall i :: 0 <= i < |r| ==> (IsAlphabetByte(r[i]) <==> i <= |s|)
    ensures forall i :: 0 <= i < |r| ==> (r[i] == Pad <==> i > |s|)
  {
    if |s| == 0 then []
    else if |s| == 1 then [Sextet(s[0] / 4), Sextet(s[0] % 4 * 16), Pad, Pad]
    else [Sextet(s[0] / 4), Sextet(s[0] % 4 * 16 + s[1] / 16), Sextet(s[1] % 16 * 4), Pad]
  }

  /** `base64.StdEncoding.EncodeToString`. */
  function StdEncode(s: seq<byte>): (r: GoString)
    ensures |r| == 4 * ((|s| + 2) / 3)
    ensures forall i :: 0 <= i < |r| ==> IsAlphabetByte(r[i]) || r[i] == Pad
    decreases |s|
  {
    if |s| < 3 then EncodeLast(s)
    else EncodeGroup(s[0], s[1], s[2]) + StdEncode(s[3..])
  }

  /** The bytes that the sextet values of adjacent letters carry. */
  function JoinFirst(v0: int, v1: int): (b: byte)
    requires 0 <= v0 < 64 && 0 <= v1 < 64
  {
    v0 * 4 + v1 / 16
  }

  function JoinSecond(v1: int, v2: int): (b: byte)
    requires 0 <= v1 < 64 && 0 <= v2 < 64
  {
    v1 % 16 * 16 + v2 / 4
  }

  function JoinThird(v2: int, v3: int): (b: byte)
    requires 0 <= v2 < 64 && 0 <= v3 < 64
  {
    v2 % 4 * 64 + v3
  }

  /** The bytes one group of four letters stands for; `=` ends the data early. */
  function DecodeQuad(c0: byte, c1: byte, c2: byte, c3: byte): (r: seq<byte>)
    ensures |r| == (if c2 == Pad then 1 else if c3 == Pad then 2 else 3)
  {
    var v0, v1, v2, v3 := SextetValue(c0), SextetValue(c1), SextetValue(c2), SextetValue(c3);
    if c2 == Pad then [JoinFirst(v0, v1)]
    else if c3 == Pad then [JoinFirst(v0, v1), JoinSecond(v1, v2)]
    else [JoinFirst(v0, v1), JoinSecond(v1, v2), JoinThird(v2, v3)]
  }

  /** Decoding of text produced by `StdEncode`, four letters at a time. */
  function StdDecode(e: GoString): (r: seq<byte>)
    decreases |e|
  {
    if |e| < 4 then []
    else if e[2] == Pad || e[3] == Pad then DecodeQuad(e[0], e[1], e[2], e[3])
    else DecodeQuad(e[0], e[1], e[2], e[3]) + StdDecode(e[4..])
  }

  /** Splitting a byte at a bit boundary and joining the halves gives it back. */
  lemma SplitJoin(b: byte)
    ensures b / 4 * 4 + b % 4 == b
    ensures b / 16 * 16 + b % 16 == b
    ensures b / 64 * 64 + b % 64 == b
  {
  }

  /** The sextet that straddles a byte boundary gives back the bits on either side. */
  lemma Straddle(hi: int, lo: byte, k: int)
    requires k == 4 || k == 16
    requires 0 <= hi < 64 / k
    ensures (hi * k + lo / (256 / k)) / k == hi
    ensures (hi * k + lo / (256 / k)) % k == lo / (256 / k)
  {
  }

  /** Joining the sextet values of one group gives back its bytes. */
  lemma GroupArithmetic(b0: byte, b1: byte, b2: byte)
    ensures var v1, v2 := b0 % 4 * 16 + b1 / 16, b1 % 16 * 4 + b2 / 64;
            JoinFirst(b0 / 4, v1) == b0 &&
            JoinSecond(v1, v2) == b1 &&
            JoinThird(v2, b2 % 64) == b2
  {
    Straddle(b0 % 4, b1, 16);
    Straddle(b1 % 16, b2, 4);
    SplitJoin(b0);
    SplitJoin(b1);
    SplitJoin(b2);
  }

  /** Decoding the letters of one full group gives back its bytes. */
  lemma DecodeGroup(b0: byte, b1: byte, b2: byte)
    ensures var g := EncodeGroup(b0, b1, b2); DecodeQuad(g[0], g[1], g[2], g[3]) == [b0, b1, b2]
  {
    SextetValueOfSextet(b0 / 4);
    SextetValueOfSextet(b0 % 4 * 16 + b1 / 16);
    SextetValueOfSextet(b1 % 16 * 4 + b2 / 64);
    SextetValueOfSextet(b2 % 64);
    GroupArithmetic(b0, b1, b2);
  }

  /** Decoding the padded last group gives back the one or two bytes it encodes. */
  lemma DecodeLast(s: seq<byte>)
    requires |s| == 1 || |s| == 2
    ensures var g := EncodeLast(s); DecodeQuad(g[0], g[1], g[2], g[3]) == s
  {
    var b1: byte := if |s| == 2 then s[1] else 0;
    SextetValueOfSextet(s[0] / 4);
    SextetValueOfSextet(s[0] % 4 * 16 + b1 / 16);
    SextetValueOfSextet(b1 % 16 * 4);
    GroupArithmetic(s[0], b1, 0);
  }

  /** Decoding undoes encoding: the encoding is lossless. */
  lemma {:induction false} DecodeEncode(s: seq<byte>)
    ensures StdDecode(StdEncode(s)) == s
    decreases |s|
  {
    if |s| == 1 || |s| == 2 {
      DecodeLast(s);
    } else if |s| >= 3 {
      var g, rest := EncodeGroup(s[0], s[1], s[2]), StdEncode(s[3..]);
      var e := g + rest;
      assert e[0] == g[0] && e[1] == g[1] && e[2] == g[2] && e[3] == g[3] && e[4..] == rest;
      DecodeGroup(s[0], s[1], s[2]);
      DecodeEncode(s[3..]);
      assert s == [s[0], s[1], s[2]] + s[3..];
    }
  }

  /** The test vectors of section 10 of RFC 4648 that fit in two groups. */
  lemma RfcTestVectors()
    ensures StdEncode(['f' as int]) == ['Z' as int, 'g' as int, Pad, Pad]
    ensures StdEncode(['f' as int, 'o' as int]) == ['Z' as int, 'm' as int, '8' as int, Pad]
    ensures StdEncode(['f' as int, 'o' as int, 'o' as int]) == ['Z' as int, 'm' as int, '9' as int, 'v' as int]
    ensures StdEncode(['f' as int, 'o' as int, 'o' as int, 'b' as int]) ==
            ['Z' as int, 'm' as int, '9' as int, 'v' as int, 'Y' as int, 'g' as int, Pad, Pad]
  {
    var foob: seq<byte> := ['f' as int, 'o' as int, 'o' as int, 'b' as int];
    assert foob[3..] == ['b' as int];
  }

  /**
   * `encrypt` is injective: two inputs with the same encoding are equal. (It
   * is deterministic as every function is.)
   */
  lemma StdEncodeInjective(a: seq<byte>, b: seq<byte>)
    requires StdEncode(a) == StdEncode(b)
    ensures a == b
  {
    DecodeEncode(a);
    DecodeEncode(b);
  }
}
