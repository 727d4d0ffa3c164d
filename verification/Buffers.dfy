/** Writing text into a fixed buffer, as the library does through a moving pointer. */
module Buffers {
  const NUL := '\0'

  /** `s` was written at `at`; beside it at most the cell after it, where a terminator goes, has changed. */
  ghost predicate Wrote(was: seq<char>, now: seq<char>, at: nat, s: string) {
    && |now| == |was| && at + |s| <= |was|
    && now[..at + |s|] == was[..at] + s
    && forall i :: at + |s| < i < |was| ==> now[i] == was[i]
  }

  lemma WroteThen(was: seq<char>, mid: seq<char>, now: seq<char>, at: nat, s: string, t: string)
    requires Wrote(was, mid, at, s) && Wrote(mid, now, at + |s|, t)
    ensures Wrote(was, now, at, s + t)
  {
  }

  lemma WroteNothing(was: seq<char>, at: nat)
    requires at <= |was|
    ensures Wrote(was, was, at, "")
  {
  }

  lemma Terminated(was: seq<char>, now: seq<char>, at: nat, s: string)
    requires Wrote(was, now, at, s) && at + |s| < |was|
    ensures Wrote(was, now[at + |s| := NUL], at, s)
  {
    assert now[at + |s| := NUL][..at + |s|] == now[..at + |s|];
  }

  /** `*p++ = ...`, once per character. */
  method Write(buf: array<char>, p: nat, s: string)
    requires p + |s| <= buf.Length
    modifies buf
    ensures Wrote(old(buf[..]), buf[..], p, s)
    ensures buf[p + |s|..] == old(buf[p + |s|..])
  {
    ghost var was := buf[..];
    var i := 0;
    while i < |s|
      invariant 0 <= i <= |s|
      invariant buf[..p + i] == was[..p] + s[..i] && buf[p + i..] == was[p + i..]
    {
      buf[p + i] := s[i];
      assert buf[..p + i + 1] == buf[..p + i] + [s[i]];
      assert buf[p + i + 1..] == was[p + i + 1..];
      i := i + 1;
    }
  }

  /** `sprintf`: the text and its terminator. */
  method Format(buf: array<char>, p: nat, s: string)
    requires p + |s| < buf.Length
    modifies buf
    ensures Wrote(old(buf[..]), buf[..], p, s) && buf[p + |s|] == NUL
  {
    Write(buf, p, s);
    ghost var mid := buf[..];
    buf[p + |s|] := NUL;
    assert buf[..p + |s|] == mid[..p + |s|];
  }
}
