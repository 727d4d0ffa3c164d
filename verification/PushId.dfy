/** Time-ordered push ids (lib/datasync/datasync_utils.c): 48 bits of time and a 72-bit counter in a
    base-64 alphabet whose characters ascend. */
module PushId {
  import opened Keys

  type byte = x: int | 0 <= x < 256

  /** The alphabet "-0123456789A..Z_a..z", cut where the character codes jump. */
  function Digit(d: int): char
    requires 0 <= d < 64
  {
    if d == 0 then '-'
    else if d <= 10 then "0123456789"[d - 1]
    else if d <= 36 then "ABCDEFGHIJKLMNOPQRSTUVWXYZ"[d - 11]
    else if d == 37 then '_'
    else "abcdefghijklmnopqrstuvwxyz"[d - 38]
  }

  lemma AlphabetIs(d: int)
    requires 0 <= d < 64
    ensures var s := "-" + "0123456789" + "ABCDEFGHIJKLMNOPQRSTUVWXYZ" + "_" + "abcdefghijklmnopqrstuvwxyz";
            |s| == 64 && Digit(d) == s[d]
  {
  }

  lemma DigitCode(d: int)
    requires 0 <= d < 64
    ensures Digit(d) as int ==
            if d == 0 then 45 else if d <= 10 then 47 + d else if d <= 36 then 54 + d
            else if d == 37 then 95 else 59 + d
  {
  }

  /** The alphabet ascends, so comparing characters compares digits. */
  lemma DigitAscends(d: int, e: int)
    requires 0 <= d < 64 && 0 <= e < 64
    ensures d < e <==> Digit(d) < Digit(e)
  {
    hide Digit;
    DigitCode(d);
    DigitCode(e);
  }

  // ----- wc_b64ish_encode

  function Group(a: byte, b: byte, c: byte): int {
    a * 0x10000 + b * 0x100 + c
  }

  /** Four characters for the 24 bits of three bytes, most significant first. */
  function Chars(x: int): string
    requires 0 <= x < 0x1000000
  {
    [Digit(x / 0x40000), Digit(x / 0x1000 % 64), Digit(x / 64 % 64), Digit(x % 64)]
  }

  /** Three bytes at a time; the callers pass multiples of three. */
  function Encoded(s: seq<byte>): string {
    if |s| < 3 then [] else Chars(Group(s[0], s[1], s[2])) + Encoded(s[3..])
  }

  lemma {:induction false} EncodedLength(s: seq<byte>, n: nat)
    requires |s| == 3 * n
    ensures |Encoded(s)| == 4 * n
  {
    if n > 0 {
      EncodedLength(s[3..], n - 1);
    }
  }

  method Put4(out: array<char>, o: nat, tmp: int)
    requires 4 <= o <= out.Length && 0 <= tmp < 0x1000000
    modifies out
    ensures out[..] == old(out[..])[..o - 4] + Chars(tmp) + old(out[..])[o..]
  {
    out[o - 1] := Digit(tmp % 64);
    out[o - 2] := Digit(tmp / 64 % 64);
    out[o - 3] := Digit(tmp / 0x1000 % 64);
    out[o - 4] := Digit(tmp / 0x40000);
  }

  /** One turn of the encoder's loop: four characters go in front of what is written. */
  method PutGroup(out: array<char>, o: nat, tmp: int, ghost pre: string, ghost done: string)
    requires 4 <= o <= |pre| && 0 <= tmp < 0x1000000 && out[..] == pre[..o] + done
    modifies out
    ensures out[..] == pre[..o - 4] + (Chars(tmp) + done)
  {
    hide Chars;
    ghost var was := out[..];
    Put4(out, o, tmp);
    assert was[..o - 4] == pre[..o - 4] && was[o..] == done;
    assert pre[..o - 4] + Chars(tmp) + done == pre[..o - 4] + (Chars(tmp) + done);
  }

  /** The encoder walks both buffers backwards, three bytes and four characters at a time. */
  method Encode(out: array<char>, at: nat, inp: seq<byte>, ndiv: nat)
    requires |inp| == 3 * ndiv && at + 4 * ndiv <= out.Length
    modifies out
    ensures out[..] == old(out[..])[..at] + (Encoded(inp) + old(out[..])[at + 4 * ndiv..])
  {
    hide Chars, Encoded, Group;
    ghost var pre, z := out[..], out[at + 4 * ndiv..];
    var g, i, o := ndiv, |inp|, at + 4 * ndiv;
    EncodedFrom(inp, i);
    assert [] + z == z && pre == pre[..o] + z;
    while g > 0
      invariant 0 <= g <= ndiv && i == 3 * g && o == at + 4 * g
      invariant out[..] == pre[..o] + (Encoded(inp[i..]) + z)
    {
      EncodedFrom(inp, i - 3);
      var tmp := Group(inp[i - 3], inp[i - 2], inp[i - 1]);
      PutGroup(out, o, tmp, pre, Encoded(inp[i..]) + z);
      Assoc(Chars(tmp), Encoded(inp[i..]), z);
      g, i, o := g - 1, i - 3, o - 4;
    }
    assert inp[0..] == inp;
  }

  lemma Assoc(a: string, b: string, c: string)
    ensures a + (b + c) == (a + b) + c
  {
  }

  lemma EncodedFrom(s: seq<byte>, i: int)
    requires 0 <= i <= |s|
    ensures i == |s| ==> Encoded(s[i..]) == []
    ensures i + 3 <= |s| ==> 0 <= Group(s[i], s[i + 1], s[i + 2]) < 0x1000000
    ensures i + 3 <= |s| ==> Encoded(s[i..]) == Chars(Group(s[i], s[i + 1], s[i + 2])) + Encoded(s[i + 3..])
  {
    assert i + 3 <= |s| ==> s[i..][3..] == s[i + 3..];
  }

  // ----- the encoding is strictly monotone

  function ByteCmp(a: seq<byte>, b: seq<byte>): int
    requires |a| == |b|
  {
    if a == [] then 0 else if a[0] != b[0] then a[0] - b[0] else ByteCmp(a[1..], b[1..])
  }

  /** Two 24-bit numbers compare like their four base-64 digits. */
  lemma DigitsLess(x: int, y: int)
    requires 0 <= x < y < 0x1000000
    ensures var (x3, y3) := (x / 0x40000, y / 0x40000);
            var (x2, y2) := (x / 0x1000 % 64, y / 0x1000 % 64);
            var (x1, y1) := (x / 64 % 64, y / 64 % 64);
            x3 < y3 || (x3 == y3 && (x2 < y2 || (x2 == y2 && (x1 < y1 || (x1 == y1 && x % 64 < y % 64)))))
  {
    Regroup(x);
    Regroup(y);
  }

  lemma Regroup(x: int)
    ensures x / 64 / 64 == x / 0x1000 && x / 0x1000 / 64 == x / 0x40000
  {
  }

  lemma CharsMonotone(x: int, y: int)
    requires 0 <= x < y < 0x1000000
    ensures StrCmp(Chars(x), Chars(y)) < 0
  {
    hide Digit, StrCmp;
    DigitsLess(x, y);
    DigitAscends(x / 0x40000, y / 0x40000);
    DigitAscends(x / 0x1000 % 64, y / 0x1000 % 64);
    DigitAscends(x / 64 % 64, y / 64 % 64);
    DigitAscends(x % 64, y % 64);
    StrCmpFour(Chars(x), Chars(y));
  }

  /** Comparison of four-character strings, spelled out. */
  lemma StrCmpFour(a: string, b: string)
    requires |a| == |b| == 4
    ensures StrCmp(a, b) < 0 <==>
            || a[0] < b[0]
            || (a[0] == b[0] && a[1] < b[1])
            || (a[0] == b[0] && a[1] == b[1] && a[2] < b[2])
            || (a[0] == b[0] && a[1] == b[1] && a[2] == b[2] && a[3] < b[3])
  {
    assert StrCmp(a, b) == if a[0] == b[0] then StrCmp(a[1..], b[1..]) else if a[0] < b[0] then -1 else 1;
    var a1, b1 := a[1..], b[1..];
    assert StrCmp(a1, b1) == if a1[0] == b1[0] then StrCmp(a1[1..], b1[1..]) else if a1[0] < b1[0] then -1 else 1;
    var a2, b2 := a1[1..], b1[1..];
    assert StrCmp(a2, b2) == if a2[0] == b2[0] then StrCmp(a2[1..], b2[1..]) else if a2[0] < b2[0] then -1 else 1;
    var a3, b3 := a2[1..], b2[1..];
    assert a3[1..] == b3[1..] == [];
    assert StrCmp(a3, b3) == if a3[0] == b3[0] then 0 else if a3[0] < b3[0] then -1 else 1;
  }

  lemma {:induction false} StrCmpConcat(p: string, q: string, a: string, b: string)
    requires |p| == |q|
    ensures StrCmp(p + a, q + b) == if StrCmp(p, q) != 0 then StrCmp(p, q) else StrCmp(a, b)
  {
    if p == [] {
      assert p + a == a && q + b == b;
    } else {
      assert (p + a)[1..] == p[1..] + a && (q + b)[1..] == q[1..] + b;
      StrCmpConcat(p[1..], q[1..], a, b);
    }
  }

  lemma ByteCmpThree(a: seq<byte>, b: seq<byte>)
    requires |a| == |b| >= 3
    ensures var (x, y) := (Group(a[0], a[1], a[2]), Group(b[0], b[1], b[2]));
            && (x == y ==> ByteCmp(a, b) == ByteCmp(a[3..], b[3..]))
            && (x < y ==> ByteCmp(a, b) < 0)
            && (x > y ==> ByteCmp(a, b) > 0)
  {
    var a1, b1 := a[1..], b[1..];
    var a2, b2 := a1[1..], b1[1..];
    assert a2[1..] == a[3..] && b2[1..] == b[3..];
    assert ByteCmp(a, b) == if a[0] != b[0] then a[0] - b[0] else ByteCmp(a1, b1);
    assert ByteCmp(a1, b1) == if a[1] != b[1] then a[1] - b[1] else ByteCmp(a2, b2);
    assert ByteCmp(a2, b2) == if a[2] != b[2] then a[2] - b[2] else ByteCmp(a2[1..], b2[1..]);
  }

  /** The order of the bytes is the order of the characters, in both directions. */
  lemma {:induction false} EncodedMonotone(a: seq<byte>, b: seq<byte>, n: nat)
    requires |a| == |b| == 3 * n
    ensures ByteCmp(a, b) < 0 <==> StrCmp(Encoded(a), Encoded(b)) < 0
    ensures ByteCmp(a, b) == 0 <==> StrCmp(Encoded(a), Encoded(b)) == 0
  {
    hide Chars, StrCmp, ByteCmp;
    if a == [] {
      EncodedEmpty();
    } else {
      var x, y := Group(a[0], a[1], a[2]), Group(b[0], b[1], b[2]);
      ByteCmpThree(a, b);
      EncodedMonotone(a[3..], b[3..], n - 1);
      ChunkLength(x);
      ChunkLength(y);
      StrCmpConcat(Chars(x), Chars(y), Encoded(a[3..]), Encoded(b[3..]));
      StrCmpAntisymmetric(Chars(x), Chars(y));
      if x < y {
        CharsMonotone(x, y);
      } else if y < x {
        CharsMonotone(y, x);
      }
    }
  }

  lemma EncodedEmpty()
    ensures StrCmp(Encoded([]), Encoded([])) == 0 && ByteCmp([], []) == 0
  {
  }

  lemma ChunkLength(x: int)
    requires 0 <= x < 0x1000000
    ensures |Chars(x)| == 4
  {
  }

  // ----- big-endian numbers

  function Pow(n: nat): (p: int)
    ensures p >= 1
  {
    if n == 0 then 1 else 256 * Pow(n - 1)
  }

  lemma Pows()
    ensures Pow(6) == 0x1_0000_0000_0000 && Pow(8) == 0x1_0000_0000_0000_0000
    ensures Pow(9) == 0x100_0000_0000_0000_0000
  {
    assert Pow(2) == 0x1_0000;
    assert Pow(4) == 0x1_0000_0000;
    assert Pow(6) == 0x1_0000_0000_0000;
  }

  /** be64toh and the reading of all nine bytes: most significant byte first. */
  function FromBE(s: seq<byte>): (x: int)
    ensures 0 <= x < Pow(|s|)
  {
    if s == [] then 0 else ShiftBound(s[0], FromBE(s[1..]), Pow(|s| - 1)); s[0] * Pow(|s| - 1) + FromBE(s[1..])
  }

  lemma ShiftBound(d: byte, x: int, p: int)
    requires 0 <= x < p
    ensures 0 <= d * p + x < 256 * p
  {
    assert d * p <= 255 * p;
  }

  /** htobe64 (n = 8) and its kin for other widths. */
  function ToBE(x: int, n: nat): (s: seq<byte>)
    requires 0 <= x < Pow(n)
    ensures |s| == n
  {
    if n == 0 then [] else TopByte(x, Pow(n - 1)); [x / Pow(n - 1)] + ToBE(x % Pow(n - 1), n - 1)
  }

  lemma TopByte(x: int, p: int)
    requires p >= 1 && 0 <= x < 256 * p
    ensures 0 <= x / p < 256 && x == x / p * p + x % p
  {
    var q := x / p;
    assert q >= 256 ==> q * p >= 256 * p;
  }

  /** Writing a number big-endian and reading it back, in both directions. */
  lemma {:induction false} BigEndianRoundTrip(x: int, n: nat)
    requires 0 <= x < Pow(n)
    ensures FromBE(ToBE(x, n)) == x
  {
    if n > 0 {
      TopByte(x, Pow(n - 1));
      BigEndianRoundTrip(x % Pow(n - 1), n - 1);
      assert ToBE(x, n)[1..] == ToBE(x % Pow(n - 1), n - 1);
    }
  }

  /** Bytes compare like the numbers they spell, so equal numbers have equal bytes. */
  lemma {:induction false} BigEndianOrder(a: seq<byte>, b: seq<byte>)
    requires |a| == |b|
    ensures ByteCmp(a, b) < 0 <==> FromBE(a) < FromBE(b)
    ensures ByteCmp(a, b) == 0 <==> FromBE(a) == FromBE(b)
    ensures FromBE(a) == FromBE(b) ==> a == b
  {
    if a != [] {
      BigEndianOrder(a[1..], b[1..]);
      var p := Pow(|a| - 1);
      assert a == [a[0]] + a[1..] && b == [b[0]] + b[1..];
      if a[0] < b[0] {
        Gap(a[0], FromBE(a[1..]), b[0], FromBE(b[1..]), p);
      } else if b[0] < a[0] {
        Gap(b[0], FromBE(b[1..]), a[0], FromBE(a[1..]), p);
      }
    }
  }

  lemma Gap(d: int, x: int, e: int, y: int, p: int)
    requires d < e && 0 <= x < p && 0 <= y < p
    ensures d * p + x < e * p + y
  {
    assert (d + 1) * p <= e * p;
  }

  // ----- wc_datasync_push_id

  const TIME: int := 0x1_0000_0000_0000

  /** The time of the last call and its 72-bit counter; there are nine counter bytes throughout. */
  datatype Stamp = Stamp(time: int, rand: seq<byte>)

  /** The counter starts anew at random when the time changes and counts up by one while it stays. */
  function Advance(s: Stamp, time: int, random: seq<byte>): (r: Stamp)
    requires |s.rand| == |random| == 9
    ensures |r.rand| == 9
  {
    Stamp(time, if s.time != time then random else ToBE((FromBE(s.rand) + 1) % Pow(9), 9))
  }

  /** The counter is the random bytes at a new time, and one more than before, modulo 2^72, at an unchanged one. */
  lemma AdvanceIs(s: Stamp, time: int, random: seq<byte>)
    requires |s.rand| == |random| == 9
    ensures s.time != time ==> Advance(s, time, random).rand == random
    ensures s.time == time ==>
              FromBE(Advance(s, time, random).rand) == (FromBE(s.rand) + 1) % 0x100_0000_0000_0000_0000
  {
    assert Pow(9) == 0x100_0000_0000_0000_0000;
    BigEndianRoundTrip((FromBE(s.rand) + 1) % Pow(9), 9);
  }

  function TimeBytes(time: int): (s: seq<byte>)
    ensures |s| == 6
  {
    Pows(); ToBE(time % TIME, 6)
  }

  /** Eight characters of time and twelve of counter. */
  function Id(s: Stamp): string
    requires |s.rand| == 9
  {
    Encoded(TimeBytes(s.time)) + Encoded(s.rand)
  }

  lemma IdLength(s: Stamp)
    requires |s.rand| == 9
    ensures |Id(s)| == 20
  {
    EncodedLength(TimeBytes(s.time), 2);
    EncodedLength(s.rand, 3);
  }

  /** The wrapping increment of one byte. */
  function Bump(b: byte): byte {
    if b == 255 then 0 else b + 1
  }

  /** The split increment (eight low bytes, then the high byte on wrap) is one big-endian +1 on nine bytes. */
  lemma CarryIsIncrement(s: seq<byte>, low: int, high: byte)
    requires |s| == 9
    requires low == (FromBE(s[1..]) + 1) % Pow(8) && 0 <= low < Pow(8)
    requires high == if low == 0 then Bump(s[0]) else s[0]
    ensures [high] + ToBE(low, 8) == ToBE((FromBE(s) + 1) % Pow(9), 9)
  {
    hide FromBE, ToBE;
    Pows();
    var t := [high] + ToBE(low, 8);
    var u := ToBE((FromBE(s) + 1) % Pow(9), 9);
    BigEndianRoundTrip(low, 8);
    assert |t| == 9 && t[1..] == ToBE(low, 8);
    HeadOfBE(s);
    HeadOfBE(t);
    BigEndianRoundTrip((FromBE(s) + 1) % Pow(9), 9);
    Increments(s[0], FromBE(s[1..]), low, high);
    BigEndianOrder(t, u);
  }

  /** The arithmetic of the split increment. */
  lemma Increments(d: byte, x: int, low: int, high: byte)
    requires 0 <= x < 0x1_0000_0000_0000_0000
    requires low == (x + 1) % 0x1_0000_0000_0000_0000 && high == if low == 0 then Bump(d) else d
    ensures high * 0x1_0000_0000_0000_0000 + low ==
            (d * 0x1_0000_0000_0000_0000 + x + 1) % 0x100_0000_0000_0000_0000
  {
    assert low == 0 <==> x == 0xFFFF_FFFF_FFFF_FFFF;
  }

  lemma HeadOfBE(s: seq<byte>)
    requires |s| == 9
    ensures FromBE(s) == s[0] * 0x1_0000_0000_0000_0000 + FromBE(s[1..])
  {
    Pows();
  }

  lemma Spliced(pre: string, mid: string, post: string, a: string, b: string)
    requires |pre| >= 20 && |a| == 8 && mid == pre[..0] + (a + pre[8..]) && post == mid[..8] + (b + mid[20..])
    ensures post == (a + b) + pre[20..]
  {
    assert mid == a + pre[8..];
    assert mid[..8] == a && mid[20..] == pre[20..];
  }

  class PushState {
    var lastTime: int
    const lastRand: array<byte>

    ghost predicate Valid()
      reads this
    {
      lastRand.Length == 9
    }

    ghost function Abs(): (s: Stamp)
      requires Valid()
      reads this, lastRand
      ensures |s.rand| == 9
    {
      Stamp(lastTime, lastRand[..])
    }

    constructor (time: int, random: seq<byte>)
      requires |random| == 9
      ensures Valid() && fresh(lastRand) && Abs() == Stamp(time, random)
    {
      lastTime := time;
      lastRand := new byte[9](i requires 0 <= i < 9 => random[i]);
    }

    method Increment()
      requires Valid()
      modifies lastRand
      ensures lastRand[..] == ToBE((FromBE(old(lastRand[..])) + 1) % Pow(9), 9)
    {
      hide FromBE, ToBE;
      Pows();
      ghost var was := lastRand[..];
      var low := (FromBE(lastRand[1..]) + 1) % 0x1_0000_0000_0000_0000;
      assert was[1..] == lastRand[1..];
      if low == 0 {
        lastRand[0] := Bump(lastRand[0]);
      }
      ghost var high := lastRand[0];
      var bytes := ToBE(low, 8);
      forall i | 1 <= i < 9 {
        lastRand[i] := bytes[i - 1];
      }
      assert lastRand[..] == [high] + bytes;
      CarryIsIncrement(was, low, high);
    }

    /** The random generator's nine bytes are a parameter, used only when the time has changed. */
    method Refresh(time: int, random: seq<byte>)
      requires Valid() && |random| == 9
      modifies this`lastTime, lastRand
      ensures Abs() == Advance(old(Abs()), time, random)
    {
      hide FromBE, ToBE;
      if lastTime != time {
        lastTime := time;
        forall i | 0 <= i < 9 {
          lastRand[i] := random[i];
        }
        assert lastRand[..] == random;
      } else {
        Increment();
      }
    }

    method PushId(time: int, random: seq<byte>, buf: array<char>)
      requires Valid() && |random| == 9 && buf.Length >= 20
      modifies this, lastRand, buf
      ensures Abs() == Advance(old(Abs()), time, random)
      ensures buf[..] == Id(Abs()) + old(buf[..])[20..]
    {
      hide FromBE, ToBE, Encoded, TimeBytes;
      ghost var pre := buf[..];
      Encode(buf, 0, TimeBytes(time), 2);
      ghost var mid := buf[..];
      Refresh(time, random);
      assert lastTime == time;
      hide Advance;
      Encode(buf, 8, lastRand[..], 3);
      EncodedLength(TimeBytes(time), 2);
      Spliced(pre, mid, buf[..], Encoded(TimeBytes(time)), Encoded(lastRand[..]));
    }
  }

  // ----- ids sort by creation

  /** Ids compare like (time, counter), for times that fit in 48 bits. */
  lemma IdOrder(s: Stamp, t: Stamp)
    requires |s.rand| == |t.rand| == 9 && 0 <= s.time < TIME && 0 <= t.time < TIME
    ensures StrCmp(Id(s), Id(t)) < 0 <==> s.time < t.time || (s.time == t.time && FromBE(s.rand) < FromBE(t.rand))
  {
    hide FromBE, ToBE, Encoded, StrCmp, ByteCmp;
    var a, b := TimeBytes(s.time), TimeBytes(t.time);
    Pows();
    BigEndianRoundTrip(s.time, 6);
    BigEndianRoundTrip(t.time, 6);
    BigEndianOrder(a, b);
    BigEndianOrder(s.rand, t.rand);
    EncodedMonotone(a, b, 2);
    EncodedMonotone(s.rand, t.rand, 3);
    EncodedLength(a, 2);
    EncodedLength(b, 2);
    StrCmpConcat(Encoded(a), Encoded(b), Encoded(s.rand), Encoded(t.rand));
  }

  /** The one way an id fails to follow its predecessor: same time, and all 72 counter bits set. */
  predicate Exhausted(s: Stamp, time: int)
    requires |s.rand| == 9
  {
    s.time == time && forall i :: 0 <= i < 9 ==> s.rand[i] == 255
  }

  lemma {:induction false} AllOnes(s: seq<byte>)
    ensures FromBE(s) == Pow(|s|) - 1 <==> forall i :: 0 <= i < |s| ==> s[i] == 255
  {
    if s != [] {
      AllOnes(s[1..]);
      var p := Pow(|s| - 1);
      assert s == [s[0]] + s[1..];
      LeadingOnes(s[0], FromBE(s[1..]), p);
    }
  }

  lemma LeadingOnes(d: byte, x: int, p: int)
    requires 0 <= x < p
    ensures d * p + x == 256 * p - 1 <==> d == 255 && x == p - 1
  {
    assert d < 255 ==> d * p <= 254 * p;
  }

  /** One call: the new id follows the last one exactly when the counter has not run out. */
  lemma NextIdFollows(s: Stamp, time: int, random: seq<byte>)
    requires |s.rand| == |random| == 9 && 0 <= s.time <= time < TIME
    ensures StrCmp(Id(s), Id(Advance(s, time, random))) < 0 <==> !Exhausted(s, time)
  {
    hide FromBE, ToBE, Encoded, StrCmp, Id;
    Pows();
    IdOrder(s, Advance(s, time, random));
    BigEndianRoundTrip((FromBE(s.rand) + 1) % Pow(9), 9);
    AllOnes(s.rand);
  }

  datatype Draw = Draw(time: int, random: seq<byte>)

  /** Times as the clock gives them: never backwards, within 48 bits. */
  predicate Clocked(s: Stamp, calls: seq<Draw>)
    decreases |calls|
  {
    |s.rand| == 9 && 0 <= s.time < TIME &&
    (calls != [] ==> |calls[0].random| == 9 && s.time <= calls[0].time < TIME &&
                     Clocked(Advance(s, calls[0].time, calls[0].random), calls[1..]))
  }

  /** Some call of the run finds the counter exhausted. */
  predicate RunsOut(s: Stamp, calls: seq<Draw>)
    requires Clocked(s, calls)
    decreases |calls|
  {
    calls != [] && (Exhausted(s, calls[0].time) ||
                    RunsOut(Advance(s, calls[0].time, calls[0].random), calls[1..]))
  }

  /** The ids of a run, that of the starting state first. */
  function Ids(s: Stamp, calls: seq<Draw>): (r: seq<string>)
    requires Clocked(s, calls)
    ensures |r| == |calls| + 1 && r[0] == Id(s)
    decreases |calls|
  {
    if calls == [] then [Id(s)]
    else [Id(s)] + Ids(Advance(s, calls[0].time, calls[0].random), calls[1..])
  }

  ghost predicate Ascending(ids: seq<string>) {
    forall i, j :: 0 <= i < j < |ids| ==> StrCmp(ids[i], ids[j]) < 0
  }

  lemma StrictlyTransitive(a: string, b: string, c: string)
    requires StrCmp(a, b) < 0 && StrCmp(b, c) < 0
    ensures StrCmp(a, c) < 0
  {
    hide StrCmp;
    StrCmpTransitive(a, b, c);
    StrCmpAntisymmetric(a, b);
    StrCmpAntisymmetric(a, c);
  }

  /** Over any run the ids come out in strictly ascending order exactly when the counter never runs out. */
  lemma {:induction false} IdsAscend(s: Stamp, calls: seq<Draw>)
    requires Clocked(s, calls)
    ensures Ascending(Ids(s, calls)) <==> !RunsOut(s, calls)
    decreases |calls|
  {
    hide StrCmp, Id, Advance;
    if calls != [] {
      var t := Advance(s, calls[0].time, calls[0].random);
      var ids, rest := Ids(s, calls), Ids(t, calls[1..]);
      IdsAscend(t, calls[1..]);
      NextIdFollows(s, calls[0].time, calls[0].random);
      assert ids == [Id(s)] + rest;
      if Ascending(ids) {
        forall i, j | 0 <= i < j < |rest| ensures StrCmp(rest[i], rest[j]) < 0 {
          assert rest[i] == ids[i + 1] && rest[j] == ids[j + 1];
        }
        assert StrCmp(ids[0], ids[1]) < 0;
      }
      if !RunsOut(s, calls) {
        forall i, j | 0 <= i < j < |ids| ensures StrCmp(ids[i], ids[j]) < 0 {
          if i > 0 {
            assert ids[i] == rest[i - 1] && ids[j] == rest[j - 1];
          } else if j > 1 {
            assert ids[j] == rest[j - 1];
            StrictlyTransitive(ids[0], rest[0], rest[j - 1]);
          }
        }
      }
    }
  }
}
