/** Streaming SHA-1 (lib/sha1.c) against the definition of FIPS 180-4. */
module Sha1 {
  type word = bv32
  type octet = bv8

  // ----- FIPS 180-4, sections 2.2.2, 4.1.1 and 4.2.1

  function Rotl1(x: word): word {
    (x << 1) | (x >> 31)
  }

  function Rotl5(x: word): word {
    (x << 5) | (x >> 27)
  }

  function Rotl30(x: word): word {
    (x << 30) | (x >> 2)
  }

  function Ch(x: word, y: word, z: word): word {
    (x & y) ^ (!x & z)
  }

  function Parity(x: word, y: word, z: word): word {
    x ^ y ^ z
  }

  function Maj(x: word, y: word, z: word): word {
    (x & y) ^ (x & z) ^ (y & z)
  }

  function F(t: nat, x: word, y: word, z: word): word {
    if t < 20 then Ch(x, y, z) else if t < 40 then Parity(x, y, z) else if t < 60 then Maj(x, y, z) else Parity(x, y, z)
  }

  function K(t: nat): word {
    if t < 20 then 0x5A827999 else if t < 40 then 0x6ED9EBA1 else if t < 60 then 0x8F1BBCDC else 0xCA62C1D6
  }

  function BigEndian(b0: octet, b1: octet, b2: octet, b3: octet): word {
    (b0 as word << 24) | (b1 as word << 16) | (b2 as word << 8) | b3 as word
  }

  // ----- FIPS 180-4, section 6.1.2: the 80-word schedule and the 80 rounds

  /** Word j of a 64-byte block. */
  function WordOf(block: seq<octet>, j: nat): word
    requires |block| == 64 && j < 16
  {
    BigEndian(block[4 * j], block[4 * j + 1], block[4 * j + 2], block[4 * j + 3])
  }

  function Mix(a: word, b: word, c: word, d: word): word {
    Rotl1(a ^ b ^ c ^ d)
  }

  function W(block: seq<octet>, t: nat): word
    requires |block| == 64
  {
    if t < 16 then WordOf(block, t)
    else Mix(W(block, t - 3), W(block, t - 8), W(block, t - 14), W(block, t - 16))
  }

  datatype Regs = Regs(a: word, b: word, c: word, d: word, e: word)

  function Sum(v: word, f: word, e: word, k: word, w: word): word {
    Rotl5(v) + f + e + k + w
  }

  function Round(r: Regs, t: nat, w: word): Regs {
    Regs(Sum(r.a, F(t, r.b, r.c, r.d), r.e, K(t), w), r.a, Rotl30(r.b), r.c, r.d)
  }

  function Rounds(block: seq<octet>, h: Regs, t: nat): Regs
    requires |block| == 64
  {
    if t == 0 then h else Round(Rounds(block, h, t - 1), t - 1, W(block, t - 1))
  }

  function Add(x: word, y: word): word {
    x + y
  }

  function Plus(h: Regs, r: Regs): Regs {
    Regs(Add(h.a, r.a), Add(h.b, r.b), Add(h.c, r.c), Add(h.d, r.d), Add(h.e, r.e))
  }

  function Compress(h: Regs, block: seq<octet>): Regs
    requires |block| == 64
  {
    Plus(h, Rounds(block, h, 80))
  }

  function Absorb(h: Regs, s: seq<octet>): Regs
    requires |s| % 64 == 0
    decreases |s|
  {
    if s == [] then h else Absorb(Compress(h, s[..64]), s[64..])
  }

  // ----- FIPS 180-4, sections 5.1.1 and 5.3.1: padding and the initial value

  const H0 := Regs(0x67452301, 0xEFCDAB89, 0x98BADCFE, 0x10325476, 0xC3D2E1F0)

  function Be32(x: int): (r: seq<octet>)
    requires 0 <= x < 0x1_0000_0000
    ensures |r| == 4
  {
    [(x / 0x100_0000) as octet, (x / 0x1_0000 % 256) as octet, (x / 0x100 % 256) as octet, (x % 256) as octet]
  }

  /** The 64-bit count of bits; the standard speaks of messages below 2^64 bits, the code counts on modulo 2^64. */
  function LengthField(bytes: nat): (r: seq<octet>)
    ensures |r| == 8
  {
    Be32(8 * bytes / 0x1_0000_0000 % 0x1_0000_0000) + Be32(8 * bytes % 0x1_0000_0000)
  }

  function Zeros(n: nat): (r: seq<octet>)
    ensures |r| == n
  {
    seq(n, _ => 0)
  }

  /** The fewest zero bytes that leave eight free in the last block. */
  function ZeroCount(bytes: nat): (k: nat)
    ensures (bytes + 1 + k) % 64 == 56
    ensures k < 64
  {
    (55 - bytes) % 64
  }

  function Padded(msg: seq<octet>): (r: seq<octet>)
    ensures |r| % 64 == 0
  {
    var k := ZeroCount(|msg|);
    assert (|msg| + 1 + k) % 64 == 56;
    assert (|msg| + 1 + k + 8) % 64 == 0;
    msg + [0x80] + Zeros(k) + LengthField(|msg|)
  }

  function WordBytes(w: word): (r: seq<octet>)
    ensures |r| == 4
  {
    [((w >> 24) & 0xFF) as octet, ((w >> 16) & 0xFF) as octet, ((w >> 8) & 0xFF) as octet, (w & 0xFF) as octet]
  }

  function RegBytes(r: Regs): (s: seq<octet>)
    ensures |s| == 20
  {
    WordBytes(r.a) + WordBytes(r.b) + WordBytes(r.c) + WordBytes(r.d) + WordBytes(r.e)
  }

  function Digest(msg: seq<octet>): (r: seq<octet>)
    ensures |r| == 20
  {
    RegBytes(Absorb(H0, Padded(msg)))
  }

  // ----- the code's own forms of the round functions

  function LittleEndian(b0: octet, b1: octet, b2: octet, b3: octet): word {
    b0 as word | (b1 as word << 8) | (b2 as word << 16) | (b3 as word << 24)
  }

  /** The union of 64 bytes read as sixteen host words, on a little-endian host. */
  function RawWord(block: seq<octet>, j: nat): word
    requires |block| == 64 && j < 16
  {
    LittleEndian(block[4 * j], block[4 * j + 1], block[4 * j + 2], block[4 * j + 3])
  }

  function Swap(x: word): word {
    (((x << 24) | (x >> 8)) & 0xFF00FF00) | (((x << 8) | (x >> 24)) & 0x00FF00FF)
  }

  lemma SwapIsBigEndian(b0: octet, b1: octet, b2: octet, b3: octet)
    ensures Swap(LittleEndian(b0, b1, b2, b3)) == BigEndian(b0, b1, b2, b3)
  {
  }

  function Pick(i: nat, w: word, x: word, y: word): word {
    if i < 20 then (w & (x ^ y)) ^ y
    else if i < 40 then w ^ x ^ y
    else if i < 60 then ((w | x) & y) | (w & x)
    else w ^ x ^ y
  }

  lemma PickIsF(i: nat, w: word, x: word, y: word)
    ensures Pick(i, w, x, y) == F(i, w, x, y)
  {
    hide Ch, Maj;
    Choice(w, x, y);
    Majority(w, x, y);
  }

  lemma Choice(x: word, y: word, z: word)
    ensures (x & (y ^ z)) ^ z == Ch(x, y, z)
  {
  }

  lemma Majority(x: word, y: word, z: word)
    ensures ((x | y) & z) | (x & y) == Maj(x, y, z)
  {
  }

  function Bump(z: word, f: word, w: word, k: word, v: word): word {
    z + (f + w + k + Rotl5(v))
  }

  lemma BumpIsSum(z: word, f: word, w: word, k: word, v: word)
    ensures Bump(z, f, w, k, v) == Sum(v, f, z, k, w)
  {
    hide Rotl5;
  }

  // ----- wc_SHA1Transform

  /** The sixteen words in place before round i: the last sixteen schedule words, each in the slot of its
      index modulo 16, and beyond them the block's words not yet swapped. */
  ghost predicate Window(l: seq<word>, block: seq<octet>, i: nat)
    requires |block| == 64
  {
    && |l| == 16
    && (forall t :: 0 <= t < i <= t + 16 ==> l[t % 16] == W(block, t))
    && (forall j :: i <= j < 16 ==> l[j] == RawWord(block, j))
  }

  lemma WindowSlides(l: seq<word>, block: seq<octet>, i: nat)
    requires |block| == 64 && Window(l, block, i)
    ensures Window(l[i % 16 := W(block, i)], block, i + 1)
  {
    hide W, RawWord;
    var l' := l[i % 16 := W(block, i)];
    forall t | 0 <= t < i + 1 <= t + 16 ensures l'[t % 16] == W(block, t) {
      Slots(t, i);
    }
  }

  lemma Slots(t: nat, i: nat)
    requires t <= i < t + 16
    ensures t % 16 == i % 16 ==> t == i
  {
  }

  lemma WindowRecurs(l: seq<word>, block: seq<octet>, i: nat)
    requires |block| == 64 && Window(l, block, i) && i >= 16
    ensures W(block, i) == Mix(l[(i + 13) % 16], l[(i + 8) % 16], l[(i + 2) % 16], l[i % 16])
  {
    hide Mix;
    assert (i + 13) % 16 == (i - 3) % 16 && (i + 8) % 16 == (i - 8) % 16;
    assert (i + 2) % 16 == (i - 14) % 16 && i % 16 == (i - 16) % 16;
    hide W;
    assert l[(i - 3) % 16] == W(block, i - 3) && l[(i - 8) % 16] == W(block, i - 8);
    assert l[(i - 14) % 16] == W(block, i - 14) && l[(i - 16) % 16] == W(block, i - 16);
  }

  /** One use of a round macro: the named registers stay put and only w and z change, which read in rotated
      order is the standard's round on the standard's schedule word. */
  method Op(l: array<word>, i: nat, v: word, w: word, x: word, y: word, z: word, ghost block: seq<octet>)
    returns (w': word, z': word)
    requires |block| == 64 && Window(l[..], block, i) && i < 80
    modifies l
    ensures Window(l[..], block, i + 1)
    ensures Regs(z', v, w', x, y) == Round(Regs(v, w, x, y, z), i, W(block, i))
  {
    hide W, RawWord, Mix, Pick, F, Bump, Sum, Rotl30, Swap;
    WindowSlides(l[..], block, i);
    if i < 16 {
      Swapped(l[..], block, i);
      l[i] := Swap(l[i]);
    } else {
      WindowRecurs(l[..], block, i);
      l[i % 16] := Mix(l[(i + 13) % 16], l[(i + 8) % 16], l[(i + 2) % 16], l[i % 16]);
    }
    z' := Bump(z, Pick(i, w, x, y), l[i % 16], K(i), v);
    w' := Rotl30(w);
    PickIsF(i, w, x, y);
    BumpIsSum(z, F(i, w, x, y), W(block, i), K(i), v);
  }

  lemma Swapped(l: seq<word>, block: seq<octet>, i: nat)
    requires |block| == 64 && Window(l, block, i) && i < 16
    ensures Swap(l[i]) == W(block, i)
  {
    hide LittleEndian, BigEndian, Swap;
    SwapIsBigEndian(block[4 * i], block[4 * i + 1], block[4 * i + 2], block[4 * i + 3]);
  }

  function RegsOf(s: seq<word>): Regs
    requires |s| == 5
  {
    Regs(s[0], s[1], s[2], s[3], s[4])
  }

  /** The eighty unrolled lines repeat every five, with the register names rotated in between. */
  method FiveOps(l: array<word>, i: nat, r: Regs, ghost block: seq<octet>, ghost h: Regs) returns (r': Regs)
    requires |block| == 64 && i + 5 <= 80 && Window(l[..], block, i) && r == Rounds(block, h, i)
    modifies l
    ensures Window(l[..], block, i + 5) && r' == Rounds(block, h, i + 5)
  {
    hide W, Round, Rounds, Window;
    OneMore(block, h, i);
    OneMore(block, h, i + 1);
    OneMore(block, h, i + 2);
    OneMore(block, h, i + 3);
    OneMore(block, h, i + 4);
    var Regs(a, b, c, d, e) := r;
    b, e := Op(l, i, a, b, c, d, e, block);
    a, d := Op(l, i + 1, e, a, b, c, d, block);
    e, c := Op(l, i + 2, d, e, a, b, c, block);
    d, b := Op(l, i + 3, c, d, e, a, b, block);
    c, a := Op(l, i + 4, b, c, d, e, a, block);
    r' := Regs(a, b, c, d, e);
  }

  lemma OneMore(block: seq<octet>, h: Regs, i: nat)
    requires |block| == 64
    ensures Rounds(block, h, i + 1) == Round(Rounds(block, h, i), i, W(block, i))
  {
  }

  method AddBack(state: array<word>, r: Regs)
    requires state.Length == 5
    modifies state
    ensures RegsOf(state[..]) == Plus(RegsOf(old(state[..])), r)
  {
    hide Add;
    state[0] := Add(state[0], r.a);
    state[1] := Add(state[1], r.b);
    state[2] := Add(state[2], r.c);
    state[3] := Add(state[3], r.d);
    state[4] := Add(state[4], r.e);
  }

  method Transform(state: array<word>, block: seq<octet>)
    requires state.Length == 5 && |block| == 64
    modifies state
    ensures RegsOf(state[..]) == Compress(RegsOf(old(state[..])), block)
  {
    hide W, Round, RawWord, Plus;
    var l := new word[16](j requires 0 <= j < 16 => RawWord(block, j));
    var r := Regs(state[0], state[1], state[2], state[3], state[4]);
    ghost var h := r;
    assert Window(l[..], block, 0);
    hide Window;
    for n := 0 to 16
      invariant Window(l[..], block, 5 * n)
      invariant r == Rounds(block, h, 5 * n)
      invariant state[..] == old(state[..])
    {
      r := FiveOps(l, 5 * n, r, block, h);
    }
    hide Rounds;
    AddBack(state, r);
  }
}
