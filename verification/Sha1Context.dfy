/** The streaming interface of lib/sha1.c: Init, Update, Final, and the one-call form. */
module Sha1Context {
  import opened Sha1

  const U32: int := 0x1_0000_0000

  function Whole(n: nat): (m: nat)
    ensures m <= n < m + 64 && m % 64 == 0 && n - m == n % 64
  {
    n / 64 * 64
  }

  /** Digesting a message block by block: the blocks of a concatenation are those of its parts. */
  lemma {:induction false} AbsorbConcat(h: Regs, s: seq<octet>, t: seq<octet>)
    requires |s| % 64 == 0 && |t| % 64 == 0
    ensures Absorb(h, s + t) == Absorb(Absorb(h, s), t)
    decreases |s|
  {
    hide Compress;
    if s == [] {
      assert s + t == t;
    } else {
      assert (s + t)[..64] == s[..64] && (s + t)[64..] == s[64..] + t;
      AbsorbConcat(Compress(h, s[..64]), s[64..], t);
    }
  }

  lemma AbsorbNext(h: Regs, s: seq<octet>, n: nat)
    requires n % 64 == 0 && n + 64 <= |s|
    ensures Absorb(h, s[..n + 64]) == Compress(Absorb(h, s[..n]), s[n..n + 64])
  {
    hide Compress;
    var b := s[n..n + 64];
    assert s[..n + 64] == s[..n] + b;
    AbsorbConcat(h, s[..n], b);
    assert b[..64] == b && b[64..] == [];
    var g := Absorb(h, s[..n]);
    assert Absorb(g, b) == Absorb(Compress(g, b), []);
  }

  /** The two 32-bit halves of a 64-bit bit count. */
  ghost predicate Counts(n: nat, c0: int, c1: int) {
    c0 == 8 * n % U32 && c1 == 8 * n / U32 % U32
  }

  /** Adding with a carry noticed by the sum coming out smaller. */
  lemma CountUp(n: nat, len: nat, c0: int, c1: int, d0: int, d1: int)
    requires Counts(n, c0, c1) && len < U32
    requires d0 == (c0 + len * 8 % U32) % U32
    requires d1 == ((if d0 < c0 then (c1 + 1) % U32 else c1) + len / 0x2000_0000) % U32
    ensures Counts(n + len, d0, d1)
  {
    var q, h, l := 8 * n / U32, 8 * len / U32, 8 * len % U32;
    var k := if d0 < c0 then 1 else 0;
    Wrapped(c0, l, d0);
    TopBits(len);
    Total(n, len, q, h, c0, l, d0, k);
    Halves(8 * (n + len), q + h + k, d0);
    ModAdd(q, k, h);
    Carried(q, k);
  }

  lemma Halves(x: int, q: int, r: int)
    requires x == q * U32 + r && 0 <= r < U32
    ensures x / U32 == q && x % U32 == r
  {
    Quotients(q, r);
  }

  lemma Carried(q: int, k: int)
    requires k == 0 || k == 1
    ensures (if k == 1 then (q % U32 + 1) % U32 else q % U32) == (q % U32 + k) % U32
  {
  }

  lemma Total(n: nat, len: nat, q: int, h: int, c0: int, l: int, d0: int, k: int)
    requires 8 * n == q * U32 + c0 && 8 * len == h * U32 + l && c0 + l == d0 + k * U32
    ensures 8 * (n + len) == (q + h + k) * U32 + d0
  {
  }

  lemma Wrapped(x: int, y: int, s: int)
    requires 0 <= x < U32 && 0 <= y < U32 && s == (x + y) % U32
    ensures x + y == s + (if s < x then 1 else 0) * U32
  {
  }

  lemma TopBits(len: nat)
    requires len < U32
    ensures 8 * len / U32 == len / 0x2000_0000
  {
  }

  lemma Eighth(n: nat, q: int, r: int)
    requires 8 * n == q * U32 + r
    ensures n == q * 0x2000_0000 + r / 8
  {
    assert 8 * (n - q * 0x2000_0000) == r;
  }

  lemma Sixties(x: int, m: int)
    ensures (64 * x + m) % 64 == m % 64
  {
  }

  lemma ByteCount(n: nat)
    ensures 8 * n % U32 / 8 % 64 == n % 64
  {
    var q, r := 8 * n / U32, 8 * n % U32;
    Eighth(n, q, r);
    Sixties(q * 0x80_0000, r / 8);
  }

  lemma Quotients(q: int, r: int)
    requires 0 <= r < U32
    ensures (q * U32 + r) / U32 == q && (q * U32 + r) % U32 == r
  {
  }

  lemma ModAdd(q: int, k: int, h: int)
    ensures ((q % U32 + k) % U32 + h) % U32 == (q + h + k) % U32
  {
    var c := q % U32 + k;
    assert q + h + k == c % U32 + h + (q / U32 + c / U32) * U32;
    Shift(c % U32 + h, q / U32 + c / U32);
  }

  lemma Shift(x: int, m: int)
    ensures (x + m * U32) % U32 == x % U32
  {
    Quotients(x / U32 + m, x % U32);
  }

  class Context {
    const state: array<word>
    var count0: int
    var count1: int
    const buffer: array<octet>
    /** All that has been fed in since Init. */
    ghost var msg: seq<octet>

    ghost predicate Valid()
      reads this, state, buffer
    {
      && state.Length == 5 && buffer.Length == 64
      && Counts(|msg|, count0, count1)
      && Holds(msg)
    }

    /** The state has taken in the whole blocks of m and the buffer holds the rest. */
    ghost predicate Holds(m: seq<octet>)
      requires state.Length == 5 && buffer.Length == 64
      reads state, buffer
    {
      && RegsOf(state[..]) == Absorb(H0, m[..Whole(|m|)])
      && buffer[..|m| % 64] == m[Whole(|m|)..]
    }

    constructor Init()
      ensures Valid() && msg == [] && fresh(state) && fresh(buffer)
    {
      state := new word[5] [0x67452301, 0xEFCDAB89, 0x98BADCFE, 0x10325476, 0xC3D2E1F0];
      buffer := new octet[64];
      count0, count1, msg := 0, 0, [];
    }

    method Fill(j: nat, data: seq<octet>)
      requires buffer.Length == 64 && j + |data| <= 64
      modifies buffer
      ensures buffer[..j + |data|] == old(buffer[..j]) + data
    {
      forall k | 0 <= k < |data| {
        buffer[j + k] := data[k];
      }
    }

    method CountIn(len: nat)
      requires Counts(|msg|, count0, count1) && len < U32
      modifies this`count0, this`count1
      ensures Counts(|msg| + len, count0, count1)
    {
      hide Counts;
      var j := count0;
      count0 := (count0 + len * 8 % U32) % U32;
      if count0 < j {
        count1 := (count1 + 1) % U32;
      }
      count1 := (count1 + len / 0x2000_0000) % U32;
      CountUp(|msg|, len, j, old(count1), count0, count1);
    }

    /** The loop over the whole blocks of the input, from byte i on; all is the message with the input at base. */
    method Blocks(data: seq<octet>, from: nat, ghost all: seq<octet>, ghost base: nat) returns (i: nat)
      requires state.Length == 5 && base + |data| == |all| && all[base..] == data && base % 64 + |data| < U32
      requires from <= |data| && (base + from) % 64 == 0
      requires RegsOf(state[..]) == Absorb(H0, all[..base + from])
      modifies state
      ensures i <= |data| < i + 64 && (base + i) % 64 == 0
      ensures RegsOf(state[..]) == Absorb(H0, all[..base + i])
    {
      hide Absorb, Compress, RegsOf;
      i := from;
      NoWrap(base % 64, i, |data|);
      while (i + 63) % U32 < |data|
        invariant i <= |data| && (base + i) % 64 == 0 && i + 63 < U32
        invariant RegsOf(state[..]) == Absorb(H0, all[..base + i])
      {
        var block := data[i..i + 64];
        NextBlock(all, base, data, i);
        Transform(state, block);
        OnGrid(base, i);
        i := i + 64;
        NoWrap(base % 64, i, |data|);
      }
    }

    method FillAndTransform(j: nat, head: seq<octet>, ghost all: seq<octet>, ghost q: nat)
      requires state.Length == 5 && buffer.Length == 64 && j + |head| == 64 && q + 64 <= |all| && q % 64 == 0
      requires all[q..q + 64] == buffer[..j] + head && RegsOf(state[..]) == Absorb(H0, all[..q])
      modifies state, buffer
      ensures RegsOf(state[..]) == Absorb(H0, all[..q + 64])
    {
      hide Absorb, Compress, RegsOf;
      Fill(j, head);
      assert buffer[..] == buffer[..64];
      AbsorbNext(H0, all, q);
      Transform(state, buffer[..]);
    }

    /** The bytes after the last whole block go to the buffer. */
    method Stash(j: nat, rest: seq<octet>, ghost all: seq<octet>, ghost w: nat)
      requires state.Length == 5 && buffer.Length == 64 && j + |rest| < 64
      requires w % 64 == 0 && w + j + |rest| == |all|
      requires all[w..] == buffer[..j] + rest && RegsOf(state[..]) == Absorb(H0, all[..w])
      modifies buffer
      ensures Holds(all)
    {
      hide Absorb, RegsOf;
      Fill(j, rest);
      WholeIs(|all|, w);
    }

    method Feed(j: nat, data: seq<octet>, ghost m: seq<octet>)
      requires state.Length == 5 && buffer.Length == 64 && Holds(m)
      requires j == |m| % 64 && j + |data| < U32
      modifies state, buffer
      ensures Holds(m + data)
    {
      hide Absorb, RegsOf;
      ghost var q, base, all := Whole(|m|), |m|, m + data;
      assert all[..q] == m[..q] && all[q..] == m[q..] + data && all[base..] == data;
      hide Whole;
      if (j + |data|) % U32 > 63 {
        assert all[q..q + 64] == buffer[..j] + data[..64 - j];
        FillAndTransform(j, data[..64 - j], all, q);
        var i := Blocks(data, 64 - j, all, base);
        assert all[base + i..] == buffer[..0] + data[i..];
        Stash(0, data[i..], all, base + i);
      } else {
        Stash(j, data, all, q);
      }
    }

    /** Any bytes may be added, as long as the buffered bytes and the new ones number less than 2^32. */
    method Update(data: seq<octet>)
      requires Valid() && |msg| % 64 + |data| < U32
      modifies this, state, buffer
      ensures Valid() && msg == old(msg) + data
    {
      hide Holds, Counts;
      var j := Filled();
      CountIn(|data|);
      Feed(j, data, msg);
      msg := msg + data;
    }

    method Filled() returns (j: nat)
      requires Valid()
      ensures j == |msg| % 64
    {
      hide Absorb, RegsOf, Whole;
      j := count0 / 8 % 64;
      ByteCount(|msg|);
    }

    /** The padding of the standard is fed in byte by byte, then the length. */
    method Pad()
      requires Valid()
      modifies this, state, buffer
      ensures Valid() && msg == Padded(old(msg))
    {
      hide Valid, Zeros, LengthField, ZeroCount;
      var finalcount := LengthBytes();
      Update([0x80]);
      ghost var n, k := |old(msg)|, 0;
      var j := Filled();
      OneZero(n, 0);
      while j != 56
        invariant Valid() && j == |msg| % 64 && k <= ZeroCount(n)
        invariant msg == old(msg) + [0x80] + Zeros(k)
        decreases ZeroCount(n) - k
      {
        OneZero(n, k);
        Update([0]);
        k := k + 1;
        j := Filled();
      }
      OneZero(n, k);
      Update(finalcount);
    }

    method LengthBytes() returns (r: seq<octet>)
      requires Valid()
      ensures r == LengthField(|msg|)
    {
      hide Be32, Absorb, RegsOf;
      r := Be32(count1) + Be32(count0);
    }

    /** Pads, reads the digest out of the state words and clears the context. */
    method Final(digest: array<octet>)
      requires Valid() && digest.Length >= 20 && digest != buffer
      modifies this, state, buffer, digest
      ensures digest[..20] == Digest(old(msg)) && digest[20..] == old(digest[20..])
      ensures count0 == count1 == 0 && (forall k :: 0 <= k < state.Length ==> state[k] == 0)
    {
      hide Absorb, RegsOf, RegBytes;
      Pad();
      assert msg[..|msg|] == msg;
      ReadOut(digest);
      Wipe();
    }

    method ReadOut(digest: array<octet>)
      requires state.Length == 5 && digest.Length >= 20
      modifies digest
      ensures digest[..20] == RegBytes(RegsOf(old(state[..]))) && digest[20..] == old(digest[20..])
    {
      hide WordBytes;
      var bytes := RegBytes(RegsOf(state[..]));
      forall i | 0 <= i < 20 {
        digest[i] := bytes[i];
      }
    }

    method Wipe()
      modifies this`count0, this`count1, state, buffer
      ensures count0 == count1 == 0 && (forall k :: 0 <= k < state.Length ==> state[k] == 0)
    {
      count0, count1 := 0, 0;
      forall k | 0 <= k < state.Length {
        state[k] := 0;
      }
      forall k | 0 <= k < buffer.Length {
        buffer[k] := 0;
      }
    }
  }

  // ----- wc_SHA1 and every other way of cutting a message up

  method HashString(hashOut: array<octet>, str: seq<octet>)
    requires hashOut.Length >= 21
    modifies hashOut
    ensures hashOut[..20] == Digest(str) && hashOut[20] == 0
  {
    hide Digest, Context.Valid;
    var ctx := new Context.Init();
    for i := 0 to |str|
      invariant ctx.Valid() && ctx.msg == str[..i] && fresh(ctx) && fresh(ctx.state) && fresh(ctx.buffer)
    {
      ctx.Update(str[i..i + 1]);
    }
    assert str[..|str|] == str;
    ctx.Final(hashOut);
    hashOut[20] := 0;
  }

  function Joined(chunks: seq<seq<octet>>): seq<octet> {
    if chunks == [] then [] else Joined(chunks[..|chunks| - 1]) + chunks[|chunks| - 1]
  }

  /** However a message is cut into chunks of less than 2^32 - 63 bytes, the digest is the standard's. */
  method HashChunks(chunks: seq<seq<octet>>, digest: array<octet>)
    requires digest.Length >= 20 && forall c :: c in chunks ==> |c| <= U32 - 64
    modifies digest
    ensures digest[..20] == Digest(Joined(chunks))
  {
    hide Digest, Context.Valid;
    var ctx := new Context.Init();
    for i := 0 to |chunks|
      invariant ctx.Valid() && ctx.msg == Joined(chunks[..i]) && fresh(ctx) && fresh(ctx.state) && fresh(ctx.buffer)
    {
      ctx.Update(chunks[i]);
      assert chunks[..i + 1][..i] == chunks[..i];
    }
    assert chunks[..|chunks|] == chunks;
    ctx.Final(digest);
  }

  lemma OneZero(n: nat, k: nat)
    requires k <= ZeroCount(n)
    ensures k == ZeroCount(n) <==> (n + 1 + k) % 64 == 56
    ensures Zeros(0) == [] && Zeros(k + 1) == Zeros(k) + [0]
  {
  }

  lemma NextBlock(all: seq<octet>, base: nat, data: seq<octet>, i: nat)
    requires base + |data| == |all| && all[base..] == data && i + 64 <= |data| && (base + i) % 64 == 0
    ensures Absorb(H0, all[..base + (i + 64)]) == Compress(Absorb(H0, all[..base + i]), data[i..i + 64])
  {
    hide Absorb, Compress;
    AbsorbNext(H0, all, base + i);
    assert data[i..i + 64] == all[base + i..base + i + 64];
    assert base + i + 64 == base + (i + 64);
  }

  lemma OnGrid(base: nat, i: nat)
    requires (base + i) % 64 == 0
    ensures (base + (i + 64)) % 64 == 0 && (base % 64 + (i + 64)) % 64 == 0
  {
  }

  lemma NoWrap(j: nat, i: nat, len: nat)
    requires (j + i) % 64 == 0 && i <= len && j + len < U32
    ensures i + 63 < U32
  {
  }

  lemma WholeIs(n: nat, m: nat)
    requires m % 64 == 0 && m <= n < m + 64
    ensures Whole(n) == m && n % 64 == n - m
  {
  }
}
