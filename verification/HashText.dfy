/** The digest that the data cache uses: SHA-1, then base 64 without line breaks (lib/base64.c). The fixed hashes of
    booleans are the digests of texts like those of the other values. */
module HashText {
  import opened Sha1
  import Sha1Blocks
  import Sha1Examples
  import Merkle
  import Separation

  function Byte(c: char): octet {
    if c < 256 as char then c as octet else 0
  }

  function Bytes(s: string): (r: seq<octet>)
    ensures |r| == |s|
  {
    seq(|s|, i requires 0 <= i < |s| => Byte(s[i]))
  }

  // ----- base64_enc_20

  /** The alphabet of section 4 of RFC 4648. */
  function B64(d: octet): char {
    if d < 26 then (65 + d as int) as char
    else if d < 52 then (71 + d as int) as char
    else if d < 62 then (d as int - 4) as char
    else if d == 62 then '+'
    else '/'
  }

  /** Four characters for three bytes. */
  function Quad(a: octet, b: octet, c: octet): (s: string)
    ensures |s| == 4
  {
    [B64(a >> 2), B64(((a & 0x03) << 4) | (b >> 4)), B64(((b & 0x0F) << 2) | (c >> 6)), B64(c & 0x3F)]
  }

  /** The last two bytes of twenty, padded. */
  function Tail(a: octet, b: octet): (s: string)
    ensures |s| == 4
  {
    [B64(a >> 2), B64(((a & 0x03) << 4) | (b >> 4)), B64((b & 0x0F) << 2), '=']
  }

  function Base64(s: seq<octet>): (r: string)
    requires |s| == 20
    ensures |r| == 28
  {
    Quad(s[0], s[1], s[2]) + Quad(s[3], s[4], s[5]) + Quad(s[6], s[7], s[8]) + Quad(s[9], s[10], s[11])
    + Quad(s[12], s[13], s[14]) + Quad(s[15], s[16], s[17]) + Tail(s[18], s[19])
  }

  function HashOf(x: string): (r: string)
    ensures |r| == 28
  {
    Base64(Digest(Bytes(x)))
  }

  lemma LettersOne()
    ensures Byte('b') == 0x62 && Byte('o') == 0x6F && Byte('l') == 0x6C && Byte('e') == 0x65
  {
  }

  lemma LettersTwo()
    ensures Byte('a') == 0x61 && Byte('n') == 0x6E && Byte(':') == 0x3A && Byte('t') == 0x74
  {
  }

  lemma LettersThree()
    ensures Byte('r') == 0x72 && Byte('u') == 0x75 && Byte('f') == 0x66 && Byte('s') == 0x73
  {
  }

  lemma BytesOfBooleans()
    ensures Bytes("boolean:true") == Sha1Blocks.TrueText && Bytes("boolean:false") == Sha1Blocks.FalseText
  {
    LettersOne();
    LettersTwo();
    LettersThree();
    hide Byte;
  }

  lemma TrueQuads()
    ensures Quad(0x13, 0x9C, 0xFA) == "E5z6"
    ensures Quad(0xD5, 0x03, 0x34) == "1QM0"
    ensures Quad(0x94, 0xDF, 0xD4) == "lN/U"
    ensures Quad(0xD9, 0x6B, 0x0E) == "2WsO"
    ensures Quad(0x9E, 0xEB, 0x2C) == "nuss"
    ensures Quad(0xCC, 0x24, 0xE4) == "zCTk"
    ensures Tail(0x47, 0xC3) == "R8M="
  {
  }

  lemma TrueBase64()
    ensures Base64([0x13, 0x9C, 0xFA, 0xD5, 0x03, 0x34, 0x94, 0xDF, 0xD4, 0xD9,
                    0x6B, 0x0E, 0x9E, 0xEB, 0x2C, 0xCC, 0x24, 0xE4, 0x47, 0xC3]) ==
            "E5z61QM0lN/U2WsOnusszCTkR8M="
  {
    TrueQuads();
    hide Quad, Tail;
  }

  lemma FalseQuads()
    ensures Quad(0x69, 0x24, 0x8D) == "aSSN"
    ensures Quad(0xA2, 0xA7, 0x12) == "oqcS"
    ensures Quad(0xE2, 0x84, 0x30) == "4oQw"
    ensures Quad(0x27, 0x6C, 0x71) == "J2xx"
    ensures Quad(0x1F, 0x6D, 0x2B) == "H20r"
    ensures Quad(0xBE, 0x9A, 0x77) == "vpp3"
    ensures Tail(0xCC, 0xFD) == "zP0="
  {
  }

  lemma FalseBase64()
    ensures Base64([0x69, 0x24, 0x8D, 0xA2, 0xA7, 0x12, 0xE2, 0x84, 0x30, 0x27,
                    0x6C, 0x71, 0x1F, 0x6D, 0x2B, 0xBE, 0x9A, 0x77, 0xCC, 0xFD]) ==
            "aSSNoqcS4oQwJ2xxH20rvpp3zP0="
  {
    FalseQuads();
    hide Quad, Tail;
  }

  /** The hash of a boolean is the digest of "boolean:true" or "boolean:false". */
  lemma BooleanHashes(b: bool)
    ensures Merkle.BoolHash(b) == HashOf(if b then "boolean:true" else "boolean:false")
  {
    hide Digest, Bytes, Base64;
    BytesOfBooleans();
    if b {
      Sha1Examples.TrueDigest();
      TrueBase64();
    } else {
      Sha1Examples.FalseDigest();
      FalseBase64();
    }
  }

  // ----- what the cache's assumption on its digest comes to

  lemma B64Injective(d: octet, e: octet)
    requires d < 64 && e < 64 && B64(d) == B64(e)
    ensures d == e
  {
  }

  lemma QuadInjective(a: octet, b: octet, c: octet, d: octet, e: octet, f: octet)
    requires Quad(a, b, c) == Quad(d, e, f)
    ensures a == d && b == e && c == f
  {
    var s, t := Quad(a, b, c), Quad(d, e, f);
    assert s[0] == t[0] && s[1] == t[1] && s[2] == t[2] && s[3] == t[3];
    hide B64;
    B64Injective(a >> 2, d >> 2);
    B64Injective(((a & 0x03) << 4) | (b >> 4), ((d & 0x03) << 4) | (e >> 4));
    B64Injective(((b & 0x0F) << 2) | (c >> 6), ((e & 0x0F) << 2) | (f >> 6));
    B64Injective(c & 0x3F, f & 0x3F);
    SextetsAgree(a, b, c, d, e, f);
  }

  lemma SextetsAgree(a: octet, b: octet, c: octet, d: octet, e: octet, f: octet)
    requires a >> 2 == d >> 2 && ((a & 0x03) << 4) | (b >> 4) == ((d & 0x03) << 4) | (e >> 4)
    requires ((b & 0x0F) << 2) | (c >> 6) == ((e & 0x0F) << 2) | (f >> 6) && c & 0x3F == f & 0x3F
    ensures a == d && b == e && c == f
  {
  }

  lemma TailInjective(a: octet, b: octet, d: octet, e: octet)
    requires Tail(a, b) == Tail(d, e)
    ensures a == d && b == e
  {
    var s, t := Tail(a, b), Tail(d, e);
    assert s[0] == t[0] && s[1] == t[1] && s[2] == t[2];
    hide B64;
    B64Injective(a >> 2, d >> 2);
    B64Injective(((a & 0x03) << 4) | (b >> 4), ((d & 0x03) << 4) | (e >> 4));
    B64Injective((b & 0x0F) << 2, (e & 0x0F) << 2);
    assert (b & 0x0F) << 2 == (e & 0x0F) << 2;
  }

  /** Base 64 loses nothing. */
  lemma Base64Injective(s: seq<octet>, t: seq<octet>)
    requires |s| == |t| == 20 && Base64(s) == Base64(t)
    ensures s == t
  {
    hide Quad, Tail;
    var a1, b1 := Quad(s[0], s[1], s[2]), Quad(t[0], t[1], t[2]);
    var a2, b2 := a1 + Quad(s[3], s[4], s[5]), b1 + Quad(t[3], t[4], t[5]);
    var a3, b3 := a2 + Quad(s[6], s[7], s[8]), b2 + Quad(t[6], t[7], t[8]);
    var a4, b4 := a3 + Quad(s[9], s[10], s[11]), b3 + Quad(t[9], t[10], t[11]);
    var a5, b5 := a4 + Quad(s[12], s[13], s[14]), b4 + Quad(t[12], t[13], t[14]);
    var a6, b6 := a5 + Quad(s[15], s[16], s[17]), b5 + Quad(t[15], t[16], t[17]);
    Separation.LastPart(a6, Tail(s[18], s[19]), b6, Tail(t[18], t[19]));
    Separation.LastPart(a5, Quad(s[15], s[16], s[17]), b5, Quad(t[15], t[16], t[17]));
    Separation.LastPart(a4, Quad(s[12], s[13], s[14]), b4, Quad(t[12], t[13], t[14]));
    Separation.LastPart(a3, Quad(s[9], s[10], s[11]), b3, Quad(t[9], t[10], t[11]));
    Separation.LastPart(a2, Quad(s[6], s[7], s[8]), b2, Quad(t[6], t[7], t[8]));
    Separation.LastPart(a1, Quad(s[3], s[4], s[5]), b1, Quad(t[3], t[4], t[5]));
    QuadInjective(s[0], s[1], s[2], t[0], t[1], t[2]);
    QuadInjective(s[3], s[4], s[5], t[3], t[4], t[5]);
    QuadInjective(s[6], s[7], s[8], t[6], t[7], t[8]);
    QuadInjective(s[9], s[10], s[11], t[9], t[10], t[11]);
    QuadInjective(s[12], s[13], s[14], t[12], t[13], t[14]);
    QuadInjective(s[15], s[16], s[17], t[15], t[16], t[17]);
    TailInjective(s[18], s[19], t[18], t[19]);
  }

  lemma NotZero(x: string)
    ensures HashOf(x) != Merkle.NoHash()
  {
    hide Quad, Digest, Bytes, B64;
    assert HashOf(x)[27] == '=' && Merkle.NoHash()[27] == 0 as char;
  }

  function Booleans(): set<string> {
    {"boolean:true", "boolean:false"}
  }

  /** SHA-1 does not collide on these texts. */
  ghost predicate NoCollision(texts: set<string>) {
    forall x, y :: x in texts && y in texts && Digest(Bytes(x)) == Digest(Bytes(y)) ==> x == y
  }

  /** The cache tells values apart by this digest if and only if SHA-1 does not collide on the texts it digests and
      the two texts of the booleans. */
  lemma TellsApart(texts: set<string>)
    requires texts !! Booleans()
    ensures Separation.Distinguishes(HashOf, texts) <==> NoCollision(texts + Booleans())
  {
    hide Digest, Bytes, Base64, Merkle.BoolHash, Merkle.NoHash;
    BooleanHashes(true);
    BooleanHashes(false);
    forall x ensures HashOf(x) != Merkle.NoHash() {
      NotZero(x);
    }
    forall x, y | HashOf(x) == HashOf(y) ensures Digest(Bytes(x)) == Digest(Bytes(y)) {
      Base64Injective(Digest(Bytes(x)), Digest(Bytes(y)));
    }
    TrueFalse();
  }

  lemma TrueFalse()
    ensures Digest(Bytes("boolean:true")) != Digest(Bytes("boolean:false"))
  {
    hide Digest, Bytes;
    BytesOfBooleans();
    Sha1Examples.TrueDigest();
    Sha1Examples.FalseDigest();
    assert Digest(Sha1Blocks.TrueText)[0] != Digest(Sha1Blocks.FalseText)[0];
  }
}
