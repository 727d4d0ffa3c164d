/** The values of FIPS 180-4: the constants are what the standard says they are, and the rounds are evaluated on whole
    blocks, sixteen at a time. */
module Sha1Blocks {
  import opened Sha1

  /** The integer part of 2^30 times the square root of `c`. */
  predicate ScaledRoot(k: int, c: int) {
    k >= 0 && k * k <= c * 0x1000_0000_0000_0000 < (k + 1) * (k + 1)
  }

  lemma KIsRoot(t: nat)
    requires t < 80
    ensures ScaledRoot(K(t) as int, if t < 20 then 2 else if t < 40 then 3 else if t < 60 then 5 else 10)
  {
  }

  // ----- sixteen rounds at a time

  /** The sixteen words after these. */
  function Next16(w: seq<word>): (v: seq<word>)
    requires |w| == 16
    ensures |v| == 16
  {
    var a := Mix(w[13], w[8], w[2], w[0]);
    var b := Mix(w[14], w[9], w[3], w[1]);
    var c := Mix(w[15], w[10], w[4], w[2]);
    var d := Mix(a, w[11], w[5], w[3]);
    var e := Mix(b, w[12], w[6], w[4]);
    var f := Mix(c, w[13], w[7], w[5]);
    var g := Mix(d, w[14], w[8], w[6]);
    var h := Mix(e, w[15], w[9], w[7]);
    var i := Mix(f, a, w[10], w[8]);
    var j := Mix(g, b, w[11], w[9]);
    var k := Mix(h, c, w[12], w[10]);
    var l := Mix(i, d, w[13], w[11]);
    var m := Mix(j, e, w[14], w[12]);
    var n := Mix(k, f, w[15], w[13]);
    var o := Mix(l, g, a, w[14]);
    [a, b, c, d, e, f, g, h, i, j, k, l, m, n, o, Mix(m, h, b, w[15])]
  }

  function Run16(h: Regs, t: nat, w: seq<word>): Regs
    requires |w| == 16
  {
    var r := Round(Round(Round(Round(h, t, w[0]), t + 1, w[1]), t + 2, w[2]), t + 3, w[3]);
    var s := Round(Round(Round(Round(r, t + 4, w[4]), t + 5, w[5]), t + 6, w[6]), t + 7, w[7]);
    var u := Round(Round(Round(Round(s, t + 8, w[8]), t + 9, w[9]), t + 10, w[10]), t + 11, w[11]);
    Round(Round(Round(Round(u, t + 12, w[12]), t + 13, w[13]), t + 14, w[14]), t + 15, w[15])
  }

  /** Sixteen schedule words from t on. */
  function RowAt(block: seq<octet>, t: nat): (w: seq<word>)
    requires |block| == 64
    ensures |w| == 16
  {
    [W(block, t), W(block, t + 1), W(block, t + 2), W(block, t + 3),
     W(block, t + 4), W(block, t + 5), W(block, t + 6), W(block, t + 7),
     W(block, t + 8), W(block, t + 9), W(block, t + 10), W(block, t + 11),
     W(block, t + 12), W(block, t + 13), W(block, t + 14), W(block, t + 15)]
  }

  lemma RowNext(block: seq<octet>, t: nat)
    requires |block| == 64
    ensures Next16(RowAt(block, t)) == RowAt(block, t + 16)
  {
    hide Mix, W;
    Recurs(block, t);
    Recurs(block, t + 4);
    Recurs(block, t + 8);
    Recurs(block, t + 12);
  }

  /** The recurrence of the schedule, for four words. */
  lemma Recurs(block: seq<octet>, t: nat)
    requires |block| == 64
    ensures W(block, t + 16) == Mix(W(block, t + 13), W(block, t + 8), W(block, t + 2), W(block, t))
    ensures W(block, t + 17) == Mix(W(block, t + 14), W(block, t + 9), W(block, t + 3), W(block, t + 1))
    ensures W(block, t + 18) == Mix(W(block, t + 15), W(block, t + 10), W(block, t + 4), W(block, t + 2))
    ensures W(block, t + 19) == Mix(W(block, t + 16), W(block, t + 11), W(block, t + 5), W(block, t + 3))
  {
    hide Mix, W;
    RecursOne(block, t + 16);
    RecursOne(block, t + 17);
    RecursOne(block, t + 18);
    RecursOne(block, t + 19);
  }

  lemma RecursOne(block: seq<octet>, t: nat)
    requires |block| == 64 && t >= 16
    ensures W(block, t) == Mix(W(block, t - 3), W(block, t - 8), W(block, t - 14), W(block, t - 16))
  {
    hide Mix;
  }

  lemma RowRun(block: seq<octet>, h: Regs, t: nat)
    requires |block| == 64
    ensures Run16(Rounds(block, h, t), t, RowAt(block, t)) == Rounds(block, h, t + 16)
  {
    hide W, Rounds, Round;
    forall i | t <= i < t + 16 ensures Rounds(block, h, i + 1) == Round(Rounds(block, h, i), i, W(block, i)) {
      OneMore(block, h, i);
    }
  }

  // ----- the first sixteen words, from the quarters of a block

  function Words4(q: seq<octet>): (w: seq<word>)
    requires |q| == 16
    ensures |w| == 4
  {
    [BigEndian(q[0], q[1], q[2], q[3]), BigEndian(q[4], q[5], q[6], q[7]),
     BigEndian(q[8], q[9], q[10], q[11]), BigEndian(q[12], q[13], q[14], q[15])]
  }

  lemma Quarters(a: seq<octet>, b: seq<octet>, c: seq<octet>, d: seq<octet>)
    requires |a| == |b| == |c| == |d| == 16
    ensures var s := a + b + c + d; s[..16] == a && s[16..32] == b && s[32..48] == c && s[48..] == d
  {
  }

  /** The words of a block from those of its quarters. */
  lemma QuarterWords(a: seq<octet>, b: seq<octet>, c: seq<octet>, d: seq<octet>)
    requires |a| == |b| == |c| == |d| == 16
    ensures var s := a + b + c + d;
            && Four(s, 0, Words4(a)) && Four(s, 4, Words4(b)) && Four(s, 8, Words4(c)) && Four(s, 12, Words4(d))
  {
    hide Words4, Four;
    var s := a + b + c + d;
    Quarters(a, b, c, d);
    OneQuarter(s, 0, a);
    OneQuarter(s, 4, b);
    OneQuarter(s, 8, c);
    OneQuarter(s, 12, d);
  }

  predicate Four(s: seq<octet>, t: nat, w: seq<word>) {
    |s| == 64 && |w| == 4 && W(s, t) == w[0] && W(s, t + 1) == w[1] && W(s, t + 2) == w[2] && W(s, t + 3) == w[3]
  }

  lemma OneQuarter(s: seq<octet>, t: nat, q: seq<octet>)
    requires |s| == 64 && |q| == 16 && t <= 12 && s[4 * t..4 * t + 16] == q
    ensures Four(s, t, Words4(q))
  {
    hide BigEndian;
    assert forall i :: 0 <= i < 16 ==> q[i] == s[4 * t + i];
  }

  lemma ZeroWords()
    ensures Words4(Zeros(16)) == [0, 0, 0, 0]
  {
  }

  /** The length field of a short message. */
  lemma LengthBytes(n: nat, hi: int, lo: int)
    requires n < 0x2000 && 8 * n == 256 * hi + lo && 0 <= lo < 256
    ensures hi < 256 && LengthField(n) == [0, 0, 0, 0, 0, 0, hi as octet, lo as octet]
  {
    hide Be32;
    assert 8 * n / 0x1_0000_0000 == 0 && 8 * n % 0x1_0000_0000 == 8 * n;
    SmallBytes(0, 0, 0);
    SmallBytes(8 * n, hi, lo);
  }

  lemma SmallBytes(x: int, hi: int, lo: int)
    requires 0 <= x < 0x1_0000 && x == 256 * hi + lo && 0 <= lo < 256
    ensures 0 <= hi < 256 && Be32(x) == [0, 0, hi as octet, lo as octet]
  {
    Digits(x, hi, lo);
  }

  lemma Digits(x: int, hi: int, lo: int)
    requires 0 <= x < 0x1_0000 && x == 256 * hi + lo && 0 <= lo < 256
    ensures 0 <= hi < 256 && x / 0x100_0000 == 0 && x / 0x1_0000 % 256 == 0
    ensures x / 0x100 % 256 == hi && x % 256 == lo
  {
  }

  /** Where the evaluation stands after `16 i` rounds: the registers and the next sixteen words. */
  predicate Reached(block: seq<octet>, h: Regs, i: nat, r: Regs, w: seq<word>) {
    |block| == 64 && Rounds(block, h, 16 * i) == r && RowAt(block, 16 * i) == w
  }

  lemma Reach(block: seq<octet>, h: Regs, i: nat)
    requires |block| == 64
    ensures Reached(block, h, i + 1, Run16(Rounds(block, h, 16 * i), 16 * i, RowAt(block, 16 * i)),
                    Next16(RowAt(block, 16 * i)))
  {
    hide Rounds, RowAt, Run16, Next16;
    RowRun(block, h, 16 * i);
    RowNext(block, 16 * i);
  }

  // ----- "abc", padded

  const AbcText: seq<octet> := [0x61, 0x62, 0x63]
  const AbcQ0: seq<octet> := AbcText + [0x80] + Zeros(12)
  const AbcQ1: seq<octet> := Zeros(16)
  const AbcQ2: seq<octet> := Zeros(16)
  const AbcQ3: seq<octet> := Zeros(8) + LengthField(3)

  lemma AbcWords0()
    ensures |AbcQ0| == 16 && Words4(AbcQ0) == [0x61626380, 0x00000000, 0x00000000, 0x00000000]
  {
    hide LengthField;
  }

  lemma AbcWords3()
    ensures |AbcQ3| == 16 && Words4(AbcQ3) == [0x00000000, 0x00000000, 0x00000000, 0x00000018]
  {
    hide LengthField;
    LengthBytes(3, 0, 24);
  }

  lemma AbcWords()
    ensures |AbcQ0| == |AbcQ1| == |AbcQ2| == |AbcQ3| == 16
    ensures RowAt(AbcQ0 + AbcQ1 + AbcQ2 + AbcQ3, 0) ==
            [0x61626380, 0x00000000, 0x00000000, 0x00000000, 0x00000000, 0x00000000, 0x00000000, 0x00000000,
             0x00000000, 0x00000000, 0x00000000, 0x00000000, 0x00000000, 0x00000000, 0x00000000, 0x00000018]
  {
    hide Words4, Zeros, W;
    ZeroWords();
    AbcWords0();
    AbcWords3();
    QuarterWords(AbcQ0, AbcQ1, AbcQ2, AbcQ3);
  }

  lemma AbcRun0(block: seq<octet>)
    requires Reached(block, H0, 0, H0,
                     [0x61626380, 0x00000000, 0x00000000, 0x00000000, 0x00000000, 0x00000000, 0x00000000, 0x00000000,
                      0x00000000, 0x00000000, 0x00000000, 0x00000000, 0x00000000, 0x00000000, 0x00000000, 0x00000018])
    ensures Reached(block, H0, 1, Regs(0x20BDD62F, 0x196BEE77, 0x644A3DA5, 0x1181ED99, 0x18C623F9),
                    [0xC2C4C700, 0x00000000, 0x00000030, 0x85898E01, 0x00000000, 0x00000060, 0x0B131C03, 0x00000030,
                     0x85898EC1, 0x16263806, 0x00000000, 0x00000180, 0x2C4C700C, 0x000000F0, 0x93AFB507, 0x5898E048])
  {
    Reach(block, H0, 0);
    hide Rounds, RowAt;
  }

  lemma AbcRun1(block: seq<octet>)
    requires Reached(block, H0, 1, Regs(0x20BDD62F, 0x196BEE77, 0x644A3DA5, 0x1181ED99, 0x18C623F9),
                     [0xC2C4C700, 0x00000000, 0x00000030, 0x85898E01, 0x00000000, 0x00000060, 0x0B131C03, 0x00000030,
                      0x85898EC1, 0x16263806, 0x00000000, 0x00000180, 0x2C4C700C, 0x000000F0, 0x93AFB507, 0x5898E048])
    ensures Reached(block, H0, 2, Regs(0x3B845D33, 0x1267B407, 0x717EEBD7, 0xA0DC2D4B, 0xD2AA1365),
                    [0x8E9A9202, 0x00000600, 0xB131C0F0, 0x16263BC6, 0x4EBED41E, 0x626380A1, 0x16263806, 0x000018C0,
                     0xD2E138C4, 0x00000F00, 0x3AFB5079, 0x898E04E5, 0xE2BA3C2B, 0x000060C0, 0x053A37CD, 0x74458547])
  {
    Reach(block, H0, 1);
    hide Rounds, RowAt;
  }

  lemma AbcRun2(block: seq<octet>)
    requires Reached(block, H0, 2, Regs(0x3B845D33, 0x1267B407, 0x717EEBD7, 0xA0DC2D4B, 0xD2AA1365),
                     [0x8E9A9202, 0x00000600, 0xB131C0F0, 0x16263BC6, 0x4EBED41E, 0x626380A1, 0x16263806, 0x000018C0,
                      0xD2E138C4, 0x00000F00, 0x3AFB5079, 0x898E04E5, 0xE2BA3C2B, 0x000060C0, 0x053A37CD, 0x74458547])
    ensures Reached(block, H0, 3, Regs(0xBEAD02CA, 0xA01B846C, 0x8714787C, 0x503CA382, 0xFB86C6AB),
                    [0xDA9415ED, 0x26380A16, 0x626383A1, 0x4EBF54DE, 0x3835B44B, 0x0000F600, 0x1E84C7A3, 0x98E04D98,
                     0x651D16A0, 0x62658CA1, 0x458544D6, 0x44584CB7, 0x7BA06619, 0x6380AEA2, 0x0AE55269, 0x627B49A1])
  {
    Reach(block, H0, 2);
    hide Rounds, RowAt;
  }

  lemma AbcRun3(block: seq<octet>)
    requires Reached(block, H0, 3, Regs(0xBEAD02CA, 0xA01B846C, 0x8714787C, 0x503CA382, 0xFB86C6AB),
                     [0xDA9415ED, 0x26380A16, 0x626383A1, 0x4EBF54DE, 0x3835B44B, 0x0000F600, 0x1E84C7A3, 0x98E04D98,
                      0x651D16A0, 0x62658CA1, 0x458544D6, 0x44584CB7, 0x7BA06619, 0x6380AEA2, 0x0AE55269, 0x627B49A1])
    ensures Reached(block, H0, 4, Regs(0x6B61C9E1, 0xB66C020B, 0x9523272C, 0xF5D5B051, 0x8FD4B796),
                    [0x7CD45C9D, 0x000F0000, 0xFB50753A, 0xEC6765E8, 0xBA3C2BE2, 0x0060C000, 0x3A37CD05, 0x458546F4,
                     0xB8599DD6, 0x380A1A26, 0x01E02203, 0xE7CC3456, 0xE6E60B69, 0x00F60A00, 0x5795EF4F, 0x822E0879])
  {
    Reach(block, H0, 3);
    hide Rounds, RowAt;
  }

  lemma AbcRun4(block: seq<octet>)
    requires Reached(block, H0, 4, Regs(0x6B61C9E1, 0xB66C020B, 0x9523272C, 0xF5D5B051, 0x8FD4B796),
                     [0x7CD45C9D, 0x000F0000, 0xFB50753A, 0xEC6765E8, 0xBA3C2BE2, 0x0060C000, 0x3A37CD05, 0x458546F4,
                      0xB8599DD6, 0x380A1A26, 0x01E02203, 0xE7CC3456, 0xE6E60B69, 0x00F60A00, 0x5795EF4F, 0x822E0879])
    ensures Rounds(block, H0, 80) == Regs(0x42541B35, 0x5738D5E1, 0x21834873, 0x681E6DF6, 0xD8FDF6AD)
  {
    Reach(block, H0, 4);
    hide Rounds, RowAt;
  }

  lemma AbcRounds()
    ensures Rounds(AbcQ0 + AbcQ1 + AbcQ2 + AbcQ3, H0, 80) ==
            Regs(0x42541B35, 0x5738D5E1, 0x21834873, 0x681E6DF6, 0xD8FDF6AD)
  {
    hide Run16, Next16, RowAt, W;
    var block := AbcQ0 + AbcQ1 + AbcQ2 + AbcQ3;
    AbcWords();
    assert Rounds(block, H0, 0) == H0;
    hide Rounds;
    AbcRun0(block);
    AbcRun1(block);
    AbcRun2(block);
    AbcRun3(block);
    AbcRun4(block);
  }

  // ----- "abcdbcdecdefdefgefghfghighijhijkijkljklmklmnlmnomnopnopq", padded: the first block

  const TwoA: seq<octet> := [
    0x61, 0x62, 0x63, 0x64, 0x62, 0x63, 0x64, 0x65, 0x63, 0x64, 0x65, 0x66, 0x64, 0x65, 0x66, 0x67]
  const TwoB: seq<octet> := [
    0x65, 0x66, 0x67, 0x68, 0x66, 0x67, 0x68, 0x69, 0x67, 0x68, 0x69, 0x6A, 0x68, 0x69, 0x6A, 0x6B]
  const TwoC: seq<octet> := [
    0x69, 0x6A, 0x6B, 0x6C, 0x6A, 0x6B, 0x6C, 0x6D, 0x6B, 0x6C, 0x6D, 0x6E, 0x6C, 0x6D, 0x6E, 0x6F]
  const TwoD: seq<octet> := [0x6D, 0x6E, 0x6F, 0x70, 0x6E, 0x6F, 0x70, 0x71]
  const TwoQ0: seq<octet> := TwoA
  const TwoQ1: seq<octet> := TwoB
  const TwoQ2: seq<octet> := TwoC
  const TwoQ3: seq<octet> := TwoD + [0x80] + Zeros(7)

  lemma TwoWords0()
    ensures |TwoQ0| == 16 && Words4(TwoQ0) == [0x61626364, 0x62636465, 0x63646566, 0x64656667]
  {
    hide LengthField;
  }

  lemma TwoWords1()
    ensures |TwoQ1| == 16 && Words4(TwoQ1) == [0x65666768, 0x66676869, 0x6768696A, 0x68696A6B]
  {
    hide LengthField;
  }

  lemma TwoWords2()
    ensures |TwoQ2| == 16 && Words4(TwoQ2) == [0x696A6B6C, 0x6A6B6C6D, 0x6B6C6D6E, 0x6C6D6E6F]
  {
    hide LengthField;
  }

  lemma TwoWords3()
    ensures |TwoQ3| == 16 && Words4(TwoQ3) == [0x6D6E6F70, 0x6E6F7071, 0x80000000, 0x00000000]
  {
    hide LengthField;
  }

  lemma TwoWords()
    ensures |TwoQ0| == |TwoQ1| == |TwoQ2| == |TwoQ3| == 16
    ensures RowAt(TwoQ0 + TwoQ1 + TwoQ2 + TwoQ3, 0) ==
            [0x61626364, 0x62636465, 0x63646566, 0x64656667, 0x65666768, 0x66676869, 0x6768696A, 0x68696A6B,
             0x696A6B6C, 0x6A6B6C6D, 0x6B6C6D6E, 0x6C6D6E6F, 0x6D6E6F70, 0x6E6F7071, 0x80000000, 0x00000000]
  {
    hide Words4, Zeros, W;
    ZeroWords();
    TwoWords0();
    TwoWords1();
    TwoWords2();
    TwoWords3();
    QuarterWords(TwoQ0, TwoQ1, TwoQ2, TwoQ3);
  }

  lemma TwoRun0(block: seq<octet>)
    requires Reached(block, H0, 0, H0,
                     [0x61626364, 0x62636465, 0x63646566, 0x64656667, 0x65666768, 0x66676869, 0x6768696A, 0x68696A6B,
                      0x696A6B6C, 0x6A6B6C6D, 0x6B6C6D6E, 0x6C6D6E6F, 0x6D6E6F70, 0x6E6F7071, 0x80000000, 0x00000000])
    ensures Reached(block, H0, 1, Regs(0x42637E39, 0xB2E7A8BE, 0x4CBE52A1, 0xA180D207, 0xB867B2A8),
                    [0x0A063A3E, 0xD8DADCDF, 0xDADCDEC0, 0xC8D2B4BE, 0x6F757B5B, 0x757B5967, 0x8DA16D70, 0xDAEEFABA,
                     0xFAF6CAB6, 0xA6FB675A, 0x0C604CC8, 0x604CC02C, 0x49C0E6E2, 0x2EE8CBBC, 0xCFD72EC4, 0x97E9810E])
  {
    Reach(block, H0, 0);
    hide Rounds, RowAt;
  }

  lemma TwoRun1(block: seq<octet>)
    requires Reached(block, H0, 1, Regs(0x42637E39, 0xB2E7A8BE, 0x4CBE52A1, 0xA180D207, 0xB867B2A8),
                     [0x0A063A3E, 0xD8DADCDF, 0xDADCDEC0, 0xC8D2B4BE, 0x6F757B5B, 0x757B5967, 0x8DA16D70, 0xDAEEFABA,
                      0xFAF6CAB6, 0xA6FB675A, 0x0C604CC8, 0x604CC02C, 0x49C0E6E2, 0x2EE8CBBC, 0xCFD72EC4, 0x97E9810E])
    ensures Reached(block, H0, 2, Regs(0x52E31F60, 0xA9C84BEC, 0x816D15EC, 0x78448908, 0x3549A991),
                    [0x0989CBE8, 0xF24843FE, 0x5C40D0BA, 0xA8D9CC3B, 0xB2B9666E, 0xBA7B71B7, 0x20B28A72, 0xB28AF500,
                     0x8AC87842, 0x289ADDF4, 0x56D51F21, 0xD96B7FD2, 0x3868E778, 0xAB5E4848, 0x7F0E2118, 0xDE87A111])
  {
    Reach(block, H0, 1);
    hide Rounds, RowAt;
  }

  lemma TwoRun2(block: seq<octet>)
    requires Reached(block, H0, 2, Regs(0x52E31F60, 0xA9C84BEC, 0x816D15EC, 0x78448908, 0x3549A991),
                     [0x0989CBE8, 0xF24843FE, 0x5C40D0BA, 0xA8D9CC3B, 0xB2B9666E, 0xBA7B71B7, 0x20B28A72, 0xB28AF500,
                      0x8AC87842, 0x289ADDF4, 0x56D51F21, 0xD96B7FD2, 0x3868E778, 0xAB5E4848, 0x7F0E2118, 0xDE87A111])
    ensures Reached(block, H0, 3, Regs(0xC8A69090, 0xA2AD4F02, 0xB1BA8907, 0x26307A99, 0x58CFA558),
                    [0xE8BE56B0, 0x1A0AE652, 0xCD5611C8, 0x46EF29DC, 0x60D3DA6D, 0xDDF3BA6E, 0x2737F5E9, 0x4888A710,
                     0xD2A1177B, 0x9999633B, 0xD6C69D03, 0xCCF6127B, 0x7C58FE6D, 0xFDD99C68, 0xF8E32074, 0xE0BA3C7D])
  {
    Reach(block, H0, 2);
    hide Rounds, RowAt;
  }

  lemma TwoRun3(block: seq<octet>)
    requires Reached(block, H0, 3, Regs(0xC8A69090, 0xA2AD4F02, 0xB1BA8907, 0x26307A99, 0x58CFA558),
                     [0xE8BE56B0, 0x1A0AE652, 0xCD5611C8, 0x46EF29DC, 0x60D3DA6D, 0xDDF3BA6E, 0x2737F5E9, 0x4888A710,
                      0xD2A1177B, 0x9999633B, 0xD6C69D03, 0xCCF6127B, 0x7C58FE6D, 0xFDD99C68, 0xF8E32074, 0xE0BA3C7D])
    ensures Reached(block, H0, 4, Regs(0x513F9CA0, 0x2BFAF7A8, 0x10203537, 0xCD8952C4, 0xE7BDDD70),
                    [0x152198D6, 0x7B3F1982, 0x37F2D5B7, 0x8596323E, 0x810790D6, 0xBEA0A942, 0x11C7E1B1, 0x6158D101,
                     0x5FCD77D9, 0x7F2F12E6, 0xF868CFB1, 0xD6E997E9, 0xF526B852, 0xB7578DCC, 0x55D99DF4, 0x1FF69958])
  {
    Reach(block, H0, 3);
    hide Rounds, RowAt;
  }

  lemma TwoRun4(block: seq<octet>)
    requires Reached(block, H0, 4, Regs(0x513F9CA0, 0x2BFAF7A8, 0x10203537, 0xCD8952C4, 0xE7BDDD70),
                     [0x152198D6, 0x7B3F1982, 0x37F2D5B7, 0x8596323E, 0x810790D6, 0xBEA0A942, 0x11C7E1B1, 0x6158D101,
                      0x5FCD77D9, 0x7F2F12E6, 0xF868CFB1, 0xD6E997E9, 0xF526B852, 0xB7578DCC, 0x55D99DF4, 0x1FF69958])
    ensures Rounds(block, H0, 80) == Regs(0x8CE34517, 0xD3AD7C25, 0x6B4E1883, 0x74351CD2, 0x86838382)
  {
    Reach(block, H0, 4);
    hide Rounds, RowAt;
  }

  lemma TwoRounds()
    ensures Rounds(TwoQ0 + TwoQ1 + TwoQ2 + TwoQ3, H0, 80) ==
            Regs(0x8CE34517, 0xD3AD7C25, 0x6B4E1883, 0x74351CD2, 0x86838382)
  {
    hide Run16, Next16, RowAt, W;
    var block := TwoQ0 + TwoQ1 + TwoQ2 + TwoQ3;
    TwoWords();
    assert Rounds(block, H0, 0) == H0;
    hide Rounds;
    TwoRun0(block);
    TwoRun1(block);
    TwoRun2(block);
    TwoRun3(block);
    TwoRun4(block);
  }

  // ----- And the second block

  const TwoR := Regs(0xF4286818, 0xC37B27AE, 0x0408F581, 0x84677148, 0x4A566572)

  const LastQ0: seq<octet> := Zeros(16)
  const LastQ1: seq<octet> := Zeros(16)
  const LastQ2: seq<octet> := Zeros(16)
  const LastQ3: seq<octet> := Zeros(8) + LengthField(56)

  lemma LastWords3()
    ensures |LastQ3| == 16 && Words4(LastQ3) == [0x00000000, 0x00000000, 0x00000000, 0x000001C0]
  {
    hide LengthField;
    LengthBytes(56, 1, 192);
  }

  lemma LastWords()
    ensures |LastQ0| == |LastQ1| == |LastQ2| == |LastQ3| == 16
    ensures RowAt(LastQ0 + LastQ1 + LastQ2 + LastQ3, 0) ==
            [0x00000000, 0x00000000, 0x00000000, 0x00000000, 0x00000000, 0x00000000, 0x00000000, 0x00000000,
             0x00000000, 0x00000000, 0x00000000, 0x00000000, 0x00000000, 0x00000000, 0x00000000, 0x000001C0]
  {
    hide Words4, Zeros, W;
    ZeroWords();
    LastWords3();
    QuarterWords(LastQ0, LastQ1, LastQ2, LastQ3);
  }

  lemma LastRun0(block: seq<octet>)
    requires Reached(block, TwoR, 0, TwoR,
                     [0x00000000, 0x00000000, 0x00000000, 0x00000000, 0x00000000, 0x00000000, 0x00000000, 0x00000000,
                      0x00000000, 0x00000000, 0x00000000, 0x00000000, 0x00000000, 0x00000000, 0x00000000, 0x000001C0])
    ensures Reached(block, TwoR, 1, Regs(0xD9772360, 0x258B0BAA, 0x2898132A, 0xFFB35EEF, 0xD0E89E4B),
                    [0x00000000, 0x00000000, 0x00000380, 0x00000000, 0x00000000, 0x00000700, 0x00000000, 0x00000380,
                     0x00000E00, 0x00000000, 0x00000000, 0x00001C00, 0x00000000, 0x00000D80, 0x00003800, 0x00000480])
  {
    Reach(block, TwoR, 0);
    hide Rounds, RowAt;
  }

  lemma LastRun1(block: seq<octet>)
    requires Reached(block, TwoR, 1, Regs(0xD9772360, 0x258B0BAA, 0x2898132A, 0xFFB35EEF, 0xD0E89E4B),
                     [0x00000000, 0x00000000, 0x00000380, 0x00000000, 0x00000000, 0x00000700, 0x00000000, 0x00000380,
                      0x00000E00, 0x00000000, 0x00000000, 0x00001C00, 0x00000000, 0x00000D80, 0x00003800, 0x00000480])
    ensures Reached(block, TwoR, 2, Regs(0x8A4AF384, 0x17986223, 0x028BEC42, 0xC90A6F97, 0xD7105B6B),
                    [0x00000000, 0x00007000, 0x00000E00, 0x00003600, 0x0000E000, 0x00000E00, 0x00000000, 0x0001CE00,
                     0x00000000, 0x0000D800, 0x00038000, 0x00004F00, 0x00000000, 0x00070E00, 0x0000EE00, 0x00037500])
  {
    Reach(block, TwoR, 1);
    hide Rounds, RowAt;
  }

  lemma LastRun2(block: seq<octet>)
    requires Reached(block, TwoR, 2, Regs(0x8A4AF384, 0x17986223, 0x028BEC42, 0xC90A6F97, 0xD7105B6B),
                     [0x00000000, 0x00007000, 0x00000E00, 0x00003600, 0x0000E000, 0x00000E00, 0x00000000, 0x0001CE00,
                      0x00000000, 0x0000D800, 0x00038000, 0x00004F00, 0x00000000, 0x00070E00, 0x0000EE00, 0x00037500])
    ensures Reached(block, TwoR, 3, Regs(0x46F93B68, 0x7316056A, 0xB0F40CFA, 0xCF2BB5EB, 0x7B074F58),
                    [0x000E0000, 0x0000E000, 0x00003600, 0x001CEE00, 0x00000000, 0x000DF000, 0x00380000, 0x0004C600,
                     0x0000E000, 0x0070EE00, 0x000EE000, 0x00369E00, 0x00E00000, 0x000ED600, 0x0000E000, 0x01CEA600])
  {
    Reach(block, TwoR, 2);
    hide Rounds, RowAt;
  }

  lemma LastRun3(block: seq<octet>)
    requires Reached(block, TwoR, 3, Regs(0x46F93B68, 0x7316056A, 0xB0F40CFA, 0xCF2BB5EB, 0x7B074F58),
                     [0x000E0000, 0x0000E000, 0x00003600, 0x001CEE00, 0x00000000, 0x000DF000, 0x00380000, 0x0004C600,
                      0x0000E000, 0x0070EE00, 0x000EE000, 0x00369E00, 0x00E00000, 0x000ED600, 0x0000E000, 0x01CEA600])
    ensures Reached(block, TwoR, 4, Regs(0xD504902B, 0xF66D9BF4, 0x24D85327, 0xDEAAC406, 0xE996063D),
                    [0x00000000, 0x00D80000, 0x0380E000, 0x004F0000, 0x00000000, 0x070E0000, 0x00EE0000, 0x03751C00,
                     0x0E000000, 0x00E0E000, 0x00363800, 0x1CEE9000, 0x00000000, 0x0DF09000, 0x3800E000, 0x04C77400])
  {
    Reach(block, TwoR, 3);
    hide Rounds, RowAt;
  }

  lemma LastRun4(block: seq<octet>)
    requires Reached(block, TwoR, 4, Regs(0xD504902B, 0xF66D9BF4, 0x24D85327, 0xDEAAC406, 0xE996063D),
                     [0x00000000, 0x00D80000, 0x0380E000, 0x004F0000, 0x00000000, 0x070E0000, 0x00EE0000, 0x03751C00,
                      0x0E000000, 0x00E0E000, 0x00363800, 0x1CEE9000, 0x00000000, 0x0DF09000, 0x3800E000, 0x04C77400])
    ensures Rounds(block, TwoR, 80) == Regs(0x906FD62C, 0x58C0AAC0, 0xB6A55520, 0x74E9B89D, 0x9AF00B7F)
  {
    Reach(block, TwoR, 4);
    hide Rounds, RowAt;
  }

  lemma LastRounds()
    ensures Rounds(LastQ0 + LastQ1 + LastQ2 + LastQ3, TwoR, 80) ==
            Regs(0x906FD62C, 0x58C0AAC0, 0xB6A55520, 0x74E9B89D, 0x9AF00B7F)
  {
    hide Run16, Next16, RowAt, W;
    var block := LastQ0 + LastQ1 + LastQ2 + LastQ3;
    LastWords();
    assert Rounds(block, TwoR, 0) == TwoR;
    hide Rounds;
    LastRun0(block);
    LastRun1(block);
    LastRun2(block);
    LastRun3(block);
    LastRun4(block);
  }

  // ----- "boolean:true", padded

  const TrueText: seq<octet> := [0x62, 0x6F, 0x6F, 0x6C, 0x65, 0x61, 0x6E, 0x3A, 0x74, 0x72, 0x75, 0x65]
  const TrueQ0: seq<octet> := TrueText + [0x80] + Zeros(3)
  const TrueQ1: seq<octet> := Zeros(16)
  const TrueQ2: seq<octet> := Zeros(16)
  const TrueQ3: seq<octet> := Zeros(8) + LengthField(12)

  lemma TrueWords0()
    ensures |TrueQ0| == 16 && Words4(TrueQ0) == [0x626F6F6C, 0x65616E3A, 0x74727565, 0x80000000]
  {
    hide LengthField;
  }

  lemma TrueWords3()
    ensures |TrueQ3| == 16 && Words4(TrueQ3) == [0x00000000, 0x00000000, 0x00000000, 0x00000060]
  {
    hide LengthField;
    LengthBytes(12, 0, 96);
  }

  lemma TrueWords()
    ensures |TrueQ0| == |TrueQ1| == |TrueQ2| == |TrueQ3| == 16
    ensures RowAt(TrueQ0 + TrueQ1 + TrueQ2 + TrueQ3, 0) ==
            [0x626F6F6C, 0x65616E3A, 0x74727565, 0x80000000, 0x00000000, 0x00000000, 0x00000000, 0x00000000,
             0x00000000, 0x00000000, 0x00000000, 0x00000000, 0x00000000, 0x00000000, 0x00000000, 0x00000060]
  {
    hide Words4, Zeros, W;
    ZeroWords();
    TrueWords0();
    TrueWords3();
    QuarterWords(TrueQ0, TrueQ1, TrueQ2, TrueQ3);
  }

  lemma TrueRun0(block: seq<octet>)
    requires Reached(block, H0, 0, H0,
                     [0x626F6F6C, 0x65616E3A, 0x74727565, 0x80000000, 0x00000000, 0x00000000, 0x00000000, 0x00000000,
                      0x00000000, 0x00000000, 0x00000000, 0x00000000, 0x00000000, 0x00000000, 0x00000000, 0x00000060])
    ensures Reached(block, H0, 1, Regs(0xA6D66B3A, 0x4996B35A, 0xCE3C3279, 0xF2ACF503, 0xB6F8F10F),
                    [0x2C3A3412, 0xCAC2DC75, 0xE8E4EA0A, 0x58746825, 0x9585B8EB, 0xD1C9D415, 0xB0E8D04A, 0x2B0B7117,
                     0xFBE7C00F, 0xF454187E, 0x87DF363B, 0x47275055, 0xC3A3412A, 0xAC2DC49C, 0xB7EB681B, 0x44D5D850])
  {
    Reach(block, H0, 0);
    hide Rounds, RowAt;
  }

  lemma TrueRun1(block: seq<octet>)
    requires Reached(block, H0, 1, Regs(0xA6D66B3A, 0x4996B35A, 0xCE3C3279, 0xF2ACF503, 0xB6F8F10F),
                     [0x2C3A3412, 0xCAC2DC75, 0xE8E4EA0A, 0x58746825, 0x9585B8EB, 0xD1C9D415, 0xB0E8D04A, 0x2B0B7117,
                      0xFBE7C00F, 0xF454187E, 0x87DF363B, 0x47275055, 0xC3A3412A, 0xAC2DC49C, 0xB7EB681B, 0x44D5D850])
    ensures Reached(block, H0, 2, Regs(0xE7B9E139, 0xA292B404, 0xA96B84EB, 0xCF2DE2AF, 0x6D5EA6AE),
                    [0x2629B517, 0xA213886B, 0x7CD77915, 0xD166B2E5, 0x89BB43C0, 0x54703116, 0x5B059576, 0x2463E5F2,
                     0x1CC2E46A, 0x94CAAA6C, 0x3991D7EC, 0x4D5D848C, 0xD273813A, 0x0A33F46D, 0x0F3599ED, 0x21AC69E6])
  {
    Reach(block, H0, 1);
    hide Rounds, RowAt;
  }

  lemma TrueRun2(block: seq<octet>)
    requires Reached(block, H0, 2, Regs(0xE7B9E139, 0xA292B404, 0xA96B84EB, 0xCF2DE2AF, 0x6D5EA6AE),
                     [0x2629B517, 0xA213886B, 0x7CD77915, 0xD166B2E5, 0x89BB43C0, 0x54703116, 0x5B059576, 0x2463E5F2,
                      0x1CC2E46A, 0x94CAAA6C, 0x3991D7EC, 0x4D5D848C, 0xD273813A, 0x0A33F46D, 0x0F3599ED, 0x21AC69E6])
    ensures Reached(block, H0, 3, Regs(0x1285D493, 0x6992A1FC, 0x8AF15355, 0x10F8EE98, 0x2A7BB54D),
                    [0x981FB80A, 0xD114121F, 0xDAA309BF, 0xA0A97EEA, 0xA3B28B27, 0x4106526D, 0xD0B72C37, 0x656F5ABE,
                     0xF895B3C3, 0xB0682191, 0xA85C0BAE, 0x3EA57B90, 0x9D3964C3, 0x858B8891, 0xF270EC80, 0x11DC8B08])
  {
    Reach(block, H0, 2);
    hide Rounds, RowAt;
  }

  lemma TrueRun3(block: seq<octet>)
    requires Reached(block, H0, 3, Regs(0x1285D493, 0x6992A1FC, 0x8AF15355, 0x10F8EE98, 0x2A7BB54D),
                     [0x981FB80A, 0xD114121F, 0xDAA309BF, 0xA0A97EEA, 0xA3B28B27, 0x4106526D, 0xD0B72C37, 0x656F5ABE,
                      0xF895B3C3, 0xB0682191, 0xA85C0BAE, 0x3EA57B90, 0x9D3964C3, 0x858B8891, 0xF270EC80, 0x11DC8B08])
    ensures Reached(block, H0, 4, Regs(0x098F9342, 0xD0F69C09, 0x0DD24E85, 0xA87427CF, 0x0E9B1E83),
                    [0x7F4515CE, 0x674B43C8, 0x8122047D, 0x409E85B3, 0x12EF0037, 0x4181087E, 0x3599ED8F, 0xAC69E021,
                     0xDC1B4BBA, 0xB83FE88D, 0x305D1662, 0x4F567A10, 0x8B32C1F3, 0xCB163B0B, 0xEFF4DDA3, 0xA399D224])
  {
    Reach(block, H0, 3);
    hide Rounds, RowAt;
  }

  lemma TrueRun4(block: seq<octet>)
    requires Reached(block, H0, 4, Regs(0x098F9342, 0xD0F69C09, 0x0DD24E85, 0xA87427CF, 0x0E9B1E83),
                     [0x7F4515CE, 0x674B43C8, 0x8122047D, 0x409E85B3, 0x12EF0037, 0x4181087E, 0x3599ED8F, 0xAC69E021,
                      0xDC1B4BBA, 0xB83FE88D, 0x305D1662, 0x4F567A10, 0x8B32C1F3, 0xCB163B0B, 0xEFF4DDA3, 0xA399D224])
    ensures Rounds(block, H0, 80) == Regs(0xAC57D7D4, 0x1366E956, 0x3C1E8E10, 0x8EB8D856, 0x611165D3)
  {
    Reach(block, H0, 4);
    hide Rounds, RowAt;
  }

  lemma TrueRounds()
    ensures Rounds(TrueQ0 + TrueQ1 + TrueQ2 + TrueQ3, H0, 80) ==
            Regs(0xAC57D7D4, 0x1366E956, 0x3C1E8E10, 0x8EB8D856, 0x611165D3)
  {
    hide Run16, Next16, RowAt, W;
    var block := TrueQ0 + TrueQ1 + TrueQ2 + TrueQ3;
    TrueWords();
    assert Rounds(block, H0, 0) == H0;
    hide Rounds;
    TrueRun0(block);
    TrueRun1(block);
    TrueRun2(block);
    TrueRun3(block);
    TrueRun4(block);
  }

  // ----- "boolean:false", padded

  const FalseText: seq<octet> := [0x62, 0x6F, 0x6F, 0x6C, 0x65, 0x61, 0x6E, 0x3A, 0x66, 0x61, 0x6C, 0x73, 0x65]
  const FalseQ0: seq<octet> := FalseText + [0x80] + Zeros(2)
  const FalseQ1: seq<octet> := Zeros(16)
  const FalseQ2: seq<octet> := Zeros(16)
  const FalseQ3: seq<octet> := Zeros(8) + LengthField(13)

  lemma FalseWords0()
    ensures |FalseQ0| == 16 && Words4(FalseQ0) == [0x626F6F6C, 0x65616E3A, 0x66616C73, 0x65800000]
  {
    hide LengthField;
  }

  lemma FalseWords3()
    ensures |FalseQ3| == 16 && Words4(FalseQ3) == [0x00000000, 0x00000000, 0x00000000, 0x00000068]
  {
    hide LengthField;
    LengthBytes(13, 0, 104);
  }

  lemma FalseWords()
    ensures |FalseQ0| == |FalseQ1| == |FalseQ2| == |FalseQ3| == 16
    ensures RowAt(FalseQ0 + FalseQ1 + FalseQ2 + FalseQ3, 0) ==
            [0x626F6F6C, 0x65616E3A, 0x66616C73, 0x65800000, 0x00000000, 0x00000000, 0x00000000, 0x00000000,
             0x00000000, 0x00000000, 0x00000000, 0x00000000, 0x00000000, 0x00000000, 0x00000000, 0x00000068]
  {
    hide Words4, Zeros, W;
    ZeroWords();
    FalseWords0();
    FalseWords3();
    QuarterWords(FalseQ0, FalseQ1, FalseQ2, FalseQ3);
  }

  lemma FalseRun0(block: seq<octet>)
    requires Reached(block, H0, 0, H0,
                     [0x626F6F6C, 0x65616E3A, 0x66616C73, 0x65800000, 0x00000000, 0x00000000, 0x00000000, 0x00000000,
                      0x00000000, 0x00000000, 0x00000000, 0x00000000, 0x00000000, 0x00000000, 0x00000000, 0x00000068])
    ensures Reached(block, H0, 1, Regs(0xB3CB7E79, 0x581327D3, 0x3744155E, 0xF2BD7476, 0xCE50EB72),
                    [0x081C063E, 0x01C2DC74, 0xCCC2D836, 0xDB380C7C, 0x0385B8E8, 0x9985B06D, 0xB67018F9, 0x070B7100,
                     0x23336CA7, 0x6F65891B, 0x9793526D, 0xF016C1B7, 0xD9C063E6, 0x1C2DC4D0, 0x9CF5BEE0, 0xBE139DF5])
  {
    Reach(block, H0, 0);
    hide Rounds, RowAt;
  }

  lemma FalseRun1(block: seq<octet>)
    requires Reached(block, H0, 1, Regs(0xB3CB7E79, 0x581327D3, 0x3744155E, 0xF2BD7476, 0xCE50EB72),
                     [0x081C063E, 0x01C2DC74, 0xCCC2D836, 0xDB380C7C, 0x0385B8E8, 0x9985B06D, 0xB67018F9, 0x070B7100,
                      0x23336CA7, 0x6F65891B, 0x9793526D, 0xF016C1B7, 0xD9C063E6, 0x1C2DC4D0, 0x9CF5BEE0, 0xBE139DF5])
    ensures Reached(block, H0, 2, Regs(0x1A55078A, 0x2780DA77, 0x96683A7C, 0xDBBF2269, 0x26AF6301),
                    [0xF780ECFF, 0x52D5CFE6, 0xCD8F5E8D, 0x8A5722B2, 0x7DC01822, 0x9E58B660, 0x07C3D019, 0x577AFB99,
                     0xBAF0C8AB, 0x94CAAEA7, 0xA94D293F, 0xB939DEFD, 0x587ED707, 0x2A578CF5, 0xAB1EB9F7, 0xC784FD1B])
  {
    Reach(block, H0, 1);
    hide Rounds, RowAt;
  }

  lemma FalseRun2(block: seq<octet>)
    requires Reached(block, H0, 2, Regs(0x1A55078A, 0x2780DA77, 0x96683A7C, 0xDBBF2269, 0x26AF6301),
                     [0xF780ECFF, 0x52D5CFE6, 0xCD8F5E8D, 0x8A5722B2, 0x7DC01822, 0x9E58B660, 0x07C3D019, 0x577AFB99,
                      0xBAF0C8AB, 0x94CAAEA7, 0xA94D293F, 0xB939DEFD, 0x587ED707, 0x2A578CF5, 0xAB1EB9F7, 0xC784FD1B])
    ensures Reached(block, H0, 3, Regs(0x744BA176, 0xC23C960E, 0x4A4D1B47, 0x3FB1D1FE, 0xAF131FF5),
                    [0x5551EC59, 0xCEADF409, 0xBD0D2517, 0xF0CF4CED, 0xD9A1D66B, 0xBCF1C836, 0xCDC5DB51, 0xBB2AFC9D,
                     0xF43B8BF7, 0x5D36BE04, 0xEE284F65, 0x2F352A25, 0xEFEE0D3E, 0x7E15ED7B, 0x397F49B4, 0xBBDBF162])
  {
    Reach(block, H0, 2);
    hide Rounds, RowAt;
  }

  lemma FalseRun3(block: seq<octet>)
    requires Reached(block, H0, 3, Regs(0x744BA176, 0xC23C960E, 0x4A4D1B47, 0x3FB1D1FE, 0xAF131FF5),
                     [0x5551EC59, 0xCEADF409, 0xBD0D2517, 0xF0CF4CED, 0xD9A1D66B, 0xBCF1C836, 0xCDC5DB51, 0xBB2AFC9D,
                      0xF43B8BF7, 0x5D36BE04, 0xEE284F65, 0x2F352A25, 0xEFEE0D3E, 0x7E15ED7B, 0x397F49B4, 0xBBDBF162])
    ensures Reached(block, H0, 4, Regs(0xF381EDB7, 0x53D9D497, 0x3C04EC1C, 0x2E33AA6A, 0x89A7E04A),
                    [0xC4E55F84, 0xB4569EA8, 0x62BE9AF6, 0x4FDDE2F5, 0x9FB93D58, 0x36E0864C, 0x9EB9F7CE, 0x84FD1D47,
                     0xD02C3AB5, 0xB1D9FA8E, 0xCF0B8BD5, 0x9DA23E3D, 0xF1E306B9, 0x784A2300, 0xFD03BF87, 0xF526E868])
  {
    Reach(block, H0, 3);
    hide Rounds, RowAt;
  }

  lemma FalseRun4(block: seq<octet>)
    requires Reached(block, H0, 4, Regs(0xF381EDB7, 0x53D9D497, 0x3C04EC1C, 0x2E33AA6A, 0x89A7E04A),
                     [0xC4E55F84, 0xB4569EA8, 0x62BE9AF6, 0x4FDDE2F5, 0x9FB93D58, 0x36E0864C, 0x9EB9F7CE, 0x84FD1D47,
                      0xD02C3AB5, 0xB1D9FA8E, 0xCF0B8BD5, 0x9DA23E3D, 0xF1E306B9, 0x784A2300, 0xFD03BF87, 0xF526E868])
    ensures Rounds(block, H0, 80) == Regs(0x01DF6AA1, 0xB74536FB, 0x976C8F73, 0x0F3AD748, 0xD6A4EB0D)
  {
    Reach(block, H0, 4);
    hide Rounds, RowAt;
  }

  lemma FalseRounds()
    ensures Rounds(FalseQ0 + FalseQ1 + FalseQ2 + FalseQ3, H0, 80) ==
            Regs(0x01DF6AA1, 0xB74536FB, 0x976C8F73, 0x0F3AD748, 0xD6A4EB0D)
  {
    hide Run16, Next16, RowAt, W;
    var block := FalseQ0 + FalseQ1 + FalseQ2 + FalseQ3;
    FalseWords();
    assert Rounds(block, H0, 0) == H0;
    hide Rounds;
    FalseRun0(block);
    FalseRun1(block);
    FalseRun2(block);
    FalseRun3(block);
    FalseRun4(block);
  }
}
