/** The digests of the one-block and two-block examples of FIPS 180-4, and of the texts that the data cache hashes for
    booleans. */
module Sha1Examples {
  import opened Sha1
  import opened Sha1Blocks

  lemma OneBlock(h: Regs, block: seq<octet>)
    requires |block| == 64
    ensures Absorb(h, block) == Plus(h, Rounds(block, h, 80))
  {
    hide Rounds, Plus;
    assert block[..64] == block && block[64..] == [];
    assert Absorb(Compress(h, block), []) == Compress(h, block);
  }

  lemma TwoBlocks(h: Regs, block: seq<octet>, last: seq<octet>)
    requires |block| == |last| == 64
    ensures Absorb(h, block + last) == Absorb(Plus(h, Rounds(block, h, 80)), last)
  {
    hide Rounds, Plus;
    assert (block + last)[..64] == block && (block + last)[64..] == last;
  }

  lemma ZerosSplit(n: nat, m: nat)
    ensures Zeros(n + m) == Zeros(n) + Zeros(m)
  {
  }

  /** The four quarters of a short message's one block. */
  lemma ShortPadded(msg: seq<octet>)
    requires |msg| <= 15
    ensures Padded(msg) == (msg + [0x80] + Zeros(15 - |msg|)) + Zeros(16) + Zeros(16) + (Zeros(8) + LengthField(|msg|))
  {
    hide LengthField, Zeros;
    var n := |msg|;
    assert ZeroCount(n) == 55 - n;
    ZerosSplit(15 - n, 40);
    ZerosSplit(16, 24);
    ZerosSplit(16, 8);
  }

  /** "abc" */
  lemma AbcDigest()
    ensures Digest(AbcText) ==
            [0xA9, 0x99, 0x3E, 0x36, 0x47, 0x06, 0x81, 0x6A, 0xBA, 0x3E,
             0x25, 0x71, 0x78, 0x50, 0xC2, 0x6C, 0x9C, 0xD0, 0xD8, 0x9D]
  {
    hide Padded, Absorb, Rounds, LengthField, Zeros;
    AbcRounds();
    ShortPadded(AbcText);
    OneBlock(H0, AbcQ0 + AbcQ1 + AbcQ2 + AbcQ3);
  }

  /** "abcdbcdecdefdefgefghfghighijhijkijkljklmklmnlmnomnopnopq" */
  function TwoText(): seq<octet> {
    TwoA + TwoB + TwoC + TwoD
  }

  lemma TwoPadded()
    ensures |TwoText()| == 56
    ensures Padded(TwoText()) == (TwoQ0 + TwoQ1 + TwoQ2 + TwoQ3) + (LastQ0 + LastQ1 + LastQ2 + LastQ3)
  {
    assert |TwoText()| == 56;
    hide LengthField, Zeros, TwoA, TwoB, TwoC, TwoD;
    assert ZeroCount(56) == 63;
    ZerosSplit(7, 56);
    ZerosSplit(16, 40);
    ZerosSplit(16, 24);
    ZerosSplit(16, 8);
  }

  lemma TwoDigest()
    ensures Digest(TwoText()) ==
            [0x84, 0x98, 0x3E, 0x44, 0x1C, 0x3B, 0xD2, 0x6E, 0xBA, 0xAE,
             0x4A, 0xA1, 0xF9, 0x51, 0x29, 0xE5, 0xE5, 0x46, 0x70, 0xF1]
  {
    hide Padded, Absorb, Rounds, LengthField, Zeros, TwoText;
    TwoPadded();
    TwoRounds();
    LastRounds();
    var block, last := TwoQ0 + TwoQ1 + TwoQ2 + TwoQ3, LastQ0 + LastQ1 + LastQ2 + LastQ3;
    TwoBlocks(H0, block, last);
    assert Plus(H0, Rounds(block, H0, 80)) == TwoR;
    OneBlock(TwoR, last);
  }

  /** "boolean:true" */
  lemma TrueDigest()
    ensures Digest(TrueText) ==
            [0x13, 0x9C, 0xFA, 0xD5, 0x03, 0x34, 0x94, 0xDF, 0xD4, 0xD9,
             0x6B, 0x0E, 0x9E, 0xEB, 0x2C, 0xCC, 0x24, 0xE4, 0x47, 0xC3]
  {
    hide Padded, Absorb, Rounds, LengthField, Zeros;
    TrueRounds();
    ShortPadded(TrueText);
    OneBlock(H0, TrueQ0 + TrueQ1 + TrueQ2 + TrueQ3);
  }

  /** "boolean:false" */
  lemma FalseDigest()
    ensures Digest(FalseText) ==
            [0x69, 0x24, 0x8D, 0xA2, 0xA7, 0x12, 0xE2, 0x84, 0x30, 0x27,
             0x6C, 0x71, 0x1F, 0x6D, 0x2B, 0xBE, 0x9A, 0x77, 0xCC, 0xFD]
  {
    hide Padded, Absorb, Rounds, LengthField, Zeros;
    FalseRounds();
    ShortPadded(FalseText);
    OneBlock(H0, FalseQ0 + FalseQ1 + FalseQ2 + FalseQ3);
  }
}
