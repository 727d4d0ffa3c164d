/** Printing a treenode as JSON (lib/datasync/cache/treenode.c): how long the text is, and exactly when it
    reads back. */
module JsonDoc {
  import opened Buffers
  import opened JsonText

  /** A treenode as its printer walks it: children in key order, numbers as the text that "%.16g" gives. */
  datatype Doc = DNull | DBool(b: bool) | DNum(text: string) | DStr(s: string) | DObj(ms: seq<Entry>)

  datatype Entry = Entry(key: string, value: Doc)

  // ----- treenode_to_json and treenode_to_json_len

  function Print(d: Doc): string {
    match d
    case DNull => "null"
    case DBool(b) => if b then "true" else "false"
    case DNum(t) => t
    case DStr(s) => Quoted(s)
    case DObj(ms) => "{" + PrintMembers(ms) + "}"
  }

  /** Null children are skipped; a comma follows a printed child when the iterator has more, null or not. */
  function PrintMembers(ms: seq<Entry>): string {
    if ms == [] then [] else PrintMember(ms[0], |ms| > 1) + PrintMembers(ms[1..])
  }

  function PrintMember(m: Entry, more: bool): string {
    if m.value.DNull? then [] else Quoted(m.key) + ":" + Print(m.value) + if more then "," else ""
  }

  function Pair(m: Entry): string {
    Quoted(m.key) + ":" + Print(m.value)
  }

  function Len(d: Doc): nat {
    match d
    case DNull => 4
    case DBool(b) => if b then 4 else 5
    case DNum(t) => |t|
    case DStr(s) => EscapedLen(s) + 2
    case DObj(ms) => MembersLen(ms) + Commas(ms) + 2
  }

  function MembersLen(ms: seq<Entry>): nat {
    if ms == [] then 0 else MemberLen(ms[0]) + MembersLen(ms[1..])
  }

  function MemberLen(m: Entry): nat {
    if m.value.DNull? then 0 else EscapedLen(m.key) + 2 + 1 + Len(m.value)
  }

  function Commas(ms: seq<Entry>): nat {
    if ms == [] then 0 else |ms| - 1
  }

  // ----- the announced length suffices

  /** No long escapes, and no null child except in last place. */
  predicate Tight(d: Doc) {
    match d
    case DStr(s) => NoBare(s)
    case DObj(ms) => TightMembers(ms)
    case _ => true
  }

  predicate TightMembers(ms: seq<Entry>) {
    ms == [] || ((if ms[0].value.DNull? then |ms| == 1 else NoBare(ms[0].key) && Tight(ms[0].value)) &&
                 TightMembers(ms[1..]))
  }

  /** The text never exceeds the announced length, and meets it exactly for tight documents. */
  lemma {:induction false} PrintFits(d: Doc)
    ensures |Print(d)| <= Len(d)
    ensures |Print(d)| == Len(d) <==> Tight(d)
    decreases d
  {
    match d
    case DStr(s) => EscapeFits(s);
    case DObj(ms) => MembersFit(ms);
    case _ =>
  }

  lemma {:induction false} MembersFit(ms: seq<Entry>)
    ensures |PrintMembers(ms)| <= MembersLen(ms) + Commas(ms)
    ensures |PrintMembers(ms)| == MembersLen(ms) + Commas(ms) <==> TightMembers(ms)
    decreases ms
  {
    if ms != [] {
      var m := ms[0];
      MembersFit(ms[1..]);
      if !m.value.DNull? {
        EscapeFits(m.key);
        PrintFits(m.value);
      }
    }
  }

  /** `treenode_to_json`: in a buffer with room for the announced length and a terminator, writes the
      text, terminates it, and touches nothing else. */
  method PrintInto(d: Doc, buf: array<char>, at: nat) returns (n: nat)
    requires at + Len(d) < buf.Length
    modifies buf
    ensures n == |Print(d)| && Wrote(old(buf[..]), buf[..], at, Print(d))
    ensures at + n < buf.Length && buf[at + n] == NUL
    decreases d, 1
  {
    hide Escaped, PrintMembers, MembersLen, Wrote;
    ghost var was := buf[..];
    PrintFits(d);
    match d {
      case DNull => Write(buf, at, "null");
      case DBool(b) => Write(buf, at, if b then "true" else "false");
      case DNum(t) => Format(buf, at, t);
      case DStr(s) => var k := EscapeInto(s, buf, at);
      case DObj(ms) => PrintObjectInto(ms, buf, at);
    }
    n := |Print(d)|;
    ghost var mid := buf[..];
    Terminated(was, mid, at, Print(d));
    buf[at + n] := NUL;
    assert buf[..] == mid[at + n := NUL];
  }

  method PrintObjectInto(ms: seq<Entry>, buf: array<char>, at: nat)
    requires at + MembersLen(ms) + Commas(ms) + 2 < buf.Length
    modifies buf
    ensures Wrote(old(buf[..]), buf[..], at, "{" + PrintMembers(ms) + "}")
    decreases ms, 1
  {
    hide PrintMembers, MembersLen, Wrote;
    ghost var was := buf[..];
    Write(buf, at, "{");
    ghost var open := buf[..];
    var p := PrintMembersInto(ms, buf, at + 1);
    ghost var mid := buf[..];
    WroteThen(was, open, mid, at, "{", PrintMembers(ms));
    Write(buf, p, "}");
    WroteThen(was, mid, buf[..], at, "{" + PrintMembers(ms), "}");
  }

  /** The loop over the children. */
  method PrintMembersInto(ms: seq<Entry>, buf: array<char>, at: nat) returns (p: nat)
    requires at + MembersLen(ms) + Commas(ms) + 1 < buf.Length
    modifies buf
    ensures p == at + |PrintMembers(ms)| && Wrote(old(buf[..]), buf[..], at, PrintMembers(ms))
    ensures p + 1 < buf.Length
    decreases ms, 0
  {
    hide Print, Len, Escaped, PrintMembers, MembersLen, PrintMember, Wrote;
    ghost var was := buf[..];
    ghost var text := "";
    p := at;
    var i := 0;
    assert ms[0..] == ms && ms[|ms|..] == [];
    WroteNothing(was, at);
    NoMembers();
    while i < |ms|
      invariant 0 <= i <= |ms| && p == at + |text|
      invariant p + MembersLen(ms[i..]) + Commas(ms[i..]) + 1 < buf.Length
      invariant text + PrintMembers(ms[i..]) == PrintMembers(ms)
      invariant Wrote(was, buf[..], at, text)
    {
      ghost var mid := buf[..];
      MemberStep(ms, i);
      if !ms[i].value.DNull? {
        p := PrintMemberInto(ms[i], i + 1 < |ms|, buf, p);
        ghost var piece := PrintMember(ms[i], i + 1 < |ms|);
        WroteThen(was, mid, buf[..], at, text, piece);
        assert text + piece + PrintMembers(ms[i + 1..]) == text + (piece + PrintMembers(ms[i + 1..]));
        text := text + piece;
      }
      i := i + 1;
    }
    assert text + [] == text;
  }

  lemma NoMembers()
    ensures PrintMembers([]) == [] && MembersLen([]) == 0
  {
  }

  lemma MemberStep(ms: seq<Entry>, i: nat)
    requires i < |ms|
    ensures PrintMembers(ms[i..]) == PrintMember(ms[i], i + 1 < |ms|) + PrintMembers(ms[i + 1..])
    ensures MembersLen(ms[i..]) == MemberLen(ms[i]) + MembersLen(ms[i + 1..])
    ensures Commas(ms[i..]) == Commas(ms[i + 1..]) + if i + 1 < |ms| then 1 else 0
    ensures ms[i].value.DNull? ==> PrintMember(ms[i], i + 1 < |ms|) == []
  {
    assert ms[i..][1..] == ms[i + 1..];
  }

  /** One pass of the loop: key, colon, value, and a comma when the iterator has more. */
  method PrintMemberInto(m: Entry, more: bool, buf: array<char>, at: nat) returns (p: nat)
    requires !m.value.DNull? && at + MemberLen(m) + (if more then 1 else 0) < buf.Length
    modifies buf
    ensures p == at + |PrintMember(m, more)| <= at + MemberLen(m) + if more then 1 else 0
    ensures Wrote(old(buf[..]), buf[..], at, PrintMember(m, more))
    decreases m, 2
  {
    PairText(m);
    hide Pair, Len, Wrote, PrintMember;
    ghost var was := buf[..];
    p := PrintPairInto(m, buf, at);
    if more {
      ghost var mid := buf[..];
      Write(buf, p, ",");
      WroteThen(was, mid, buf[..], at, Pair(m), ",");
      p := p + 1;
    }
  }

  method PrintPairInto(m: Entry, buf: array<char>, at: nat) returns (p: nat)
    requires !m.value.DNull? && at + MemberLen(m) < buf.Length
    modifies buf
    ensures p == at + |Pair(m)| <= at + MemberLen(m)
    ensures Wrote(old(buf[..]), buf[..], at, Pair(m))
    decreases m, 1
  {
    hide Print, Len, Quoted, Wrote;
    ghost var was := buf[..];
    PrintFits(m.value);
    p := PrintKeyInto(m.key, buf, at);
    ghost var key, mid := Quoted(m.key) + ":", buf[..];
    assert p == at + |key|;
    var k := PrintInto(m.value, buf, p);
    WroteThen(was, mid, buf[..], at, key, Print(m.value));
    p := p + k;
  }

  lemma PairText(m: Entry)
    requires !m.value.DNull?
    ensures PrintMember(m, true) == Pair(m) + "," && PrintMember(m, false) == Pair(m)
  {
    hide Print, Quoted;
    assert Pair(m) + "" == Pair(m);
  }

  method PrintKeyInto(key: string, buf: array<char>, at: nat) returns (p: nat)
    requires at + EscapedLen(key) + 3 <= buf.Length
    modifies buf
    ensures p == at + |Quoted(key)| + 1 <= at + EscapedLen(key) + 3
    ensures Wrote(old(buf[..]), buf[..], at, Quoted(key) + ":")
  {
    EscapeFits(key);
    assert |Quoted(key)| == |Escaped(key)| + 2;
    hide Quoted, Wrote;
    ghost var was := buf[..];
    var k := EscapeInto(key, buf, at);
    ghost var mid := buf[..];
    Write(buf, at + k, ":");
    WroteThen(was, mid, buf[..], at, Quoted(key), ":");
    p := at + k + 1;
  }

  /** `treenode_to_json_len`. */
  method Measure(d: Doc) returns (n: nat)
    ensures n == Len(d) >= |Print(d)|
    decreases d
  {
    PrintFits(d);
    match d {
      case DNull => n := 4;
      case DBool(b) => n := if b then 4 else 5;
      case DNum(t) => n := |t|;
      case DStr(s) => n := MeasureString(s);
      case DObj(ms) =>
        var i, count := 0, 0;
        n := 0;
        assert ms[0..] == ms;
        while i < |ms|
          invariant 0 <= i <= |ms| && count == i && n + MembersLen(ms[i..]) == MembersLen(ms)
        {
          hide Len, MembersLen;
          MemberStep(ms, i);
          if !ms[i].value.DNull? {
            var k := MeasureString(ms[i].key);
            var l := Measure(ms[i].value);
            n := n + k + 1 + l;
          }
          count, i := count + 1, i + 1;
        }
        if count > 0 {
          n := n + count - 1;
        }
        n := n + 2;
    }
  }

  // ----- RFC 8259, sections 3 to 6: reading a document without white space or arrays

  predicate NumChar(c: char) {
    '0' <= c <= '9' || c == '-' || c == '+' || c == '.' || c == 'e' || c == 'E'
  }

  function Digits(t: string): (n: nat)
    ensures n <= |t|
  {
    if t != [] && '0' <= t[0] <= '9' then 1 + Digits(t[1..]) else 0
  }

  /** An integer without leading zeros, then an optional fraction, then an optional exponent. */
  predicate IsNumber(t: string) {
    var u := if t != [] && t[0] == '-' then t[1..] else t;
    var n := Digits(u);
    n > 0 && (u[0] == '0' ==> n == 1) && IsFraction(u[n..])
  }

  predicate IsFraction(t: string) {
    if t != [] && t[0] == '.' then Digits(t[1..]) > 0 && IsExponent(t[1..][Digits(t[1..])..])
    else IsExponent(t)
  }

  predicate IsExponent(t: string) {
    t == [] || ((t[0] == 'e' || t[0] == 'E') &&
                var u := if |t| > 1 && (t[1] == '+' || t[1] == '-') then t[2..] else t[1..];
                Digits(u) == |u| > 0)
  }

  function NumSpan(t: string): (n: nat)
    ensures n <= |t|
  {
    if t != [] && NumChar(t[0]) then 1 + NumSpan(t[1..]) else 0
  }

  function ReadNumber(t: string): (r: Parsed<Doc>)
    ensures r.Got? ==> |r.rest| < |t|
  {
    var n := NumSpan(t);
    if IsNumber(t[..n]) then assert n > 0; Got(DNum(t[..n]), t[n..]) else Fail
  }

  function ReadDoc(t: string): (r: Parsed<Doc>)
    ensures r.Got? ==> |r.rest| < |t|
    decreases |t|
  {
    if "null" <= t then Got(DNull, t[4..])
    else if "true" <= t then Got(DBool(true), t[4..])
    else if "false" <= t then Got(DBool(false), t[5..])
    else if "\"" <= t then
      match ReadChars(t[1..])
      case Fail => Fail
      case Got(s, u) => Got(DStr(s), u)
    else if "{}" <= t then Got(DObj([]), t[2..])
    else if "{" <= t then
      match ReadMembers(t[1..])
      case Fail => Fail
      case Got(ms, u) => Got(DObj(ms), u)
    else ReadNumber(t)
  }

  /** One or more members up to the closing brace. */
  function ReadMembers(t: string): (r: Parsed<seq<Entry>>)
    ensures r.Got? ==> |r.rest| < |t|
    decreases |t|
  {
    if !("\"" <= t) then Fail
    else
      match ReadChars(t[1..])
      case Fail => Fail
      case Got(k, u) =>
        if !(":" <= u) then Fail
        else
          match ReadDoc(u[1..])
          case Fail => Fail
          case Got(d, w) =>
            if "}" <= w then Got([Entry(k, d)], w[1..])
            else if "," <= w then
              match ReadMembers(w[1..])
              case Fail => Fail
              case Got(ms, x) => Got([Entry(k, d)] + ms, x)
            else Fail
  }

  // ----- exactly when printing reads back

  /** What "%.16g" gives for a number that is not finite. */
  predicate NonFinite(t: string) {
    t == "nan" || t == "-nan" || t == "inf" || t == "-inf"
  }

  /** The number texts are texts that "%.16g" gives. */
  predicate Formatted(d: Doc) {
    match d
    case DNum(t) => IsNumber(t) || NonFinite(t)
    case DObj(ms) => forall i :: 0 <= i < |ms| ==> Formatted(ms[i].value)
    case _ => true
  }

  /** The number texts are numbers of the grammar. */
  predicate Finite(d: Doc) {
    match d
    case DNum(t) => IsNumber(t)
    case DObj(ms) => forall i :: 0 <= i < |ms| ==> Finite(ms[i].value)
    case _ => true
  }

  predicate AllNull(ms: seq<Entry>) {
    forall i :: 0 <= i < |ms| ==> ms[i].value.DNull?
  }

  /** Every number is finite, and no child is printed after which only null children follow: there the comma
      would be left hanging. */
  predicate Clean(d: Doc) {
    match d
    case DNum(t) => IsNumber(t)
    case DObj(ms) => CleanMembers(ms)
    case _ => true
  }

  predicate CleanMembers(ms: seq<Entry>) {
    ms == [] || ((ms[0].value.DNull? || (Clean(ms[0].value) && (|ms| == 1 || !AllNull(ms[1..])))) &&
                 CleanMembers(ms[1..]))
  }

  /** The document without its null children. */
  function Pruned(d: Doc): Doc {
    if d.DObj? then DObj(PrunedMembers(d.ms)) else d
  }

  function PrunedMembers(ms: seq<Entry>): seq<Entry> {
    if ms == [] then []
    else (if ms[0].value.DNull? then [] else [Entry(ms[0].key, Pruned(ms[0].value))]) + PrunedMembers(ms[1..])
  }

  predicate AllNum(t: string) {
    forall i :: 0 <= i < |t| ==> NumChar(t[i])
  }

  lemma {:induction false} DigitsAreNum(t: string)
    ensures AllNum(t[..Digits(t)])
  {
    if t != [] && '0' <= t[0] <= '9' {
      DigitsAreNum(t[1..]);
      assert t[..Digits(t)] == [t[0]] + t[1..][..Digits(t[1..])];
    }
  }

  lemma ExponentIsNum(t: string)
    requires IsExponent(t)
    ensures AllNum(t)
  {
    if t != [] {
      var u := if |t| > 1 && (t[1] == '+' || t[1] == '-') then t[2..] else t[1..];
      DigitsAreNum(u);
      assert u[..Digits(u)] == u;
      assert t == t[..|t| - |u|] + u;
    }
  }

  lemma FractionIsNum(t: string)
    requires IsFraction(t)
    ensures AllNum(t)
  {
    hide IsExponent;
    if t != [] && t[0] == '.' {
      var u := t[1..];
      DigitsAreNum(u);
      ExponentIsNum(u[Digits(u)..]);
      assert t == ['.'] + u[..Digits(u)] + u[Digits(u)..];
    } else {
      ExponentIsNum(t);
    }
  }

  lemma NumberIsNum(t: string)
    requires IsNumber(t)
    ensures t != [] && AllNum(t) && (t[0] == '-' || '0' <= t[0] <= '9')
  {
    hide IsFraction;
    var u := if t != [] && t[0] == '-' then t[1..] else t;
    DigitsAreNum(u);
    FractionIsNum(u[Digits(u)..]);
    assert t == t[..|t| - |u|] + u[..Digits(u)] + u[Digits(u)..];
  }

  predicate Stops(u: string) {
    u == [] || !NumChar(u[0])
  }

  lemma {:induction false} SpanIs(t: string, u: string)
    requires AllNum(t) && Stops(u)
    ensures NumSpan(t + u) == |t|
  {
    if t == [] {
      assert t + u == u;
    } else {
      assert (t + u)[1..] == t[1..] + u;
      SpanIs(t[1..], u);
    }
  }

  lemma NumberReadsBack(t: string, u: string)
    requires IsNumber(t) && Stops(u)
    ensures ReadDoc(t + u) == Got(DNum(t), u)
  {
    hide IsNumber;
    NumberIsNum(t);
    SpanIs(t, u);
    assert (t + u)[..|t|] == t && (t + u)[|t|..] == u && (t + u)[0] == t[0];
  }

  /** The texts of numbers that are not finite are no JSON. */
  lemma NonFiniteFails(t: string, u: string)
    requires NonFinite(t)
    ensures !IsNumber(t) && ReadDoc(t + u).Fail?
  {
    var x := t + u;
    assert x[0] == t[0] && x[1] == t[1] && x[2] == t[2];
    assert t[0] == '-' ==> NumSpan(x) == 1 + NumSpan(x[1..]) == 1;
    assert NumSpan(x) <= 1;
  }

  /** Printing reads back to the document without nulls if and only if its numbers are finite and no object leaves
      a comma hanging. */
  lemma {:induction false} PrintReadsBack(d: Doc, u: string)
    requires Formatted(d) && Stops(u)
    ensures ReadDoc(Print(d) + u) == if Clean(d) then Got(Pruned(d), u) else Fail
    decreases d, 1
  {
    hide ReadMembers, ReadChars, ReadNumber, Escaped, ReadDoc, IsNumber, NonFinite;
    match d
    case DNull => WordReadsBack(d, u);
    case DBool(b) => WordReadsBack(d, u);
    case DNum(x) =>
      if IsNumber(x) {
        NumberReadsBack(x, u);
      } else {
        NonFiniteFails(x, u);
      }
    case DStr(s) => StringReadsBack(s, u);
    case DObj(ms) => ObjectReadsBack(ms, u);
  }

  lemma WordReadsBack(d: Doc, u: string)
    requires d.DNull? || d.DBool?
    ensures ReadDoc(Print(d) + u) == Got(d, u)
  {
    var t := Print(d) + u;
    assert t[|Print(d)|..] == u && t[0] == Print(d)[0];
  }

  lemma StringReadsBack(s: string, u: string)
    ensures ReadDoc(Quoted(s) + u) == Got(DStr(s), u)
  {
    hide ReadMembers, ReadChars, Escaped;
    var t := Quoted(s) + u;
    assert t[1..] == Escaped(s) + "\"" + u && t[0] == '"';
    EscapeReadsBack(s, u);
  }

  /** How an object is read, by what follows the brace. */
  lemma ReadObject(t: string)
    ensures "}" <= t ==> ReadDoc("{" + t) == Got(DObj([]), t[1..])
    ensures "\"" <= t ==> ReadDoc("{" + t) == match ReadMembers(t)
                                             case Fail => Fail
                                             case Got(ms, w) => Got(DObj(ms), w)
  {
    hide ReadMembers;
    var x := "{" + t;
    assert x[1..] == t && x[0] == '{';
    assert t != [] ==> x[1] == t[0] && x[2..] == t[1..];
  }

  lemma {:induction false} ObjectReadsBack(ms: seq<Entry>, u: string)
    requires Formatted(DObj(ms))
    ensures ReadDoc(Print(DObj(ms)) + u) == if CleanMembers(ms) then Got(DObj(PrunedMembers(ms)), u) else Fail
    decreases ms, 1
  {
    hide ReadDoc, ReadMembers, CleanMembers, PrunedMembers;
    var t := PrintMembers(ms) + "}" + u;
    assert Print(DObj(ms)) + u == "{" + t;
    ReadObject(t);
    if AllNull(ms) {
      NothingPrinted(ms);
      assert t[1..] == u;
    } else {
      SomethingPrinted(ms);
      MembersReadBack(ms, u);
    }
  }

  lemma {:induction false} NothingPrinted(ms: seq<Entry>)
    requires AllNull(ms)
    ensures PrintMembers(ms) == [] && PrunedMembers(ms) == [] && CleanMembers(ms)
  {
    if ms != [] {
      NothingPrinted(ms[1..]);
    }
  }

  lemma {:induction false} SomethingPrinted(ms: seq<Entry>)
    requires !AllNull(ms)
    ensures "\"" <= PrintMembers(ms)
  {
    hide Print, Escaped;
    if ms[0].value.DNull? {
      assert ms == [ms[0]] + ms[1..];
      SomethingPrinted(ms[1..]);
    }
  }

  lemma {:induction false} MembersReadBack(ms: seq<Entry>, u: string)
    requires !AllNull(ms) && forall i :: 0 <= i < |ms| ==> Formatted(ms[i].value)
    ensures ReadMembers(PrintMembers(ms) + "}" + u) ==
            if CleanMembers(ms) then Got(PrunedMembers(ms), u) else Fail
    decreases ms, 0
  {
    hide ReadMembers, ReadDoc, Print, Quoted, Formatted, Pair, PrintMembers;
    var m, rest := ms[0], ms[1..];
    if m.value.DNull? {
      assert ms == [m] + rest;
      MembersReadBack(rest, u);
      SkipNull(ms);
    } else {
      var tail := PrintMembers(rest) + ("}" + u);
      assert PrintMembers(ms) + "}" + u == PrintMembers(ms) + ("}" + u);
      assert PrintMembers(rest) + "}" + u == tail;
      var w := if |ms| > 1 then "," + tail else tail;
      FirstPair(ms, u);
      NoMembers();
      PrintReadsBack(m.value, w);
      OneMember(m, w);
      if |ms| == 1 {
        assert tail == "}" + u && w[1..] == u;
        assert rest == [] && PrunedMembers(ms) == [Entry(m.key, Pruned(m.value))];
      } else {
        assert w[1..] == tail;
        if AllNull(rest) {
          NothingPrinted(rest);
          HangingComma(tail);
        } else {
          assert forall i :: 0 <= i < |rest| ==> rest[i] == ms[i + 1];
          MembersReadBack(rest, u);
        }
      }
    }
  }

  lemma FirstPair(ms: seq<Entry>, u: string)
    requires ms != [] && !ms[0].value.DNull?
    ensures var tail := PrintMembers(ms[1..]) + ("}" + u);
            PrintMembers(ms) + ("}" + u) == Pair(ms[0]) + if |ms| > 1 then "," + tail else tail
  {
    PairText(ms[0]);
    var rest := PrintMembers(ms[1..]);
    assert PrintMembers(ms) == PrintMember(ms[0], |ms| > 1) + rest;
    hide Pair, PrintMembers, PrintMember;
    Assoc(Pair(ms[0]), if |ms| > 1 then "," else "", rest, "}" + u);
  }

  lemma Assoc(a: string, b: string, c: string, d: string)
    ensures a + b + c + d == a + (b + (c + d))
    ensures a + "" == a && "" + (c + d) == c + d
  {
  }

  lemma SkipNull(ms: seq<Entry>)
    requires ms != [] && ms[0].value.DNull?
    ensures PrintMembers(ms) == PrintMembers(ms[1..])
    ensures PrunedMembers(ms) == PrunedMembers(ms[1..])
    ensures CleanMembers(ms) <==> CleanMembers(ms[1..])
  {
  }

  lemma HangingComma(t: string)
    requires "}" <= t
    ensures ReadMembers(t).Fail?
  {
    assert t[0] == '}';
  }

  lemma OneMember(m: Entry, w: string)
    ensures ReadMembers(Pair(m) + w) ==
            match ReadDoc(Print(m.value) + w)
            case Fail => Fail
            case Got(d, x) =>
              if "}" <= x then Got([Entry(m.key, d)], x[1..])
              else if "," <= x then
                match ReadMembers(x[1..])
                case Fail => Fail
                case Got(es, y) => Got([Entry(m.key, d)] + es, y)
              else Fail
  {
    hide ReadDoc, Print, Escaped, ReadChars;
    var t := Pair(m) + w;
    var u := ":" + Print(m.value) + w;
    assert t[1..] == Escaped(m.key) + "\"" + u;
    EscapeReadsBack(m.key, u);
    assert u[1..] == Print(m.value) + w;
  }

  /** The smallest text that does not read back. */
  lemma HangingCommaExample()
    ensures var d := DObj([Entry("a", DBool(true)), Entry("b", DNull)]);
            Print(d) == "{\"a\":true,}" && ReadDoc(Print(d)).Fail?
  {
    var ms := [Entry("a", DBool(true)), Entry("b", DNull)];
    var d := DObj(ms);
    assert ms[1..] == [Entry("b", DNull)];
    PrintExample();
    assert AllNull(ms[1..]) && !Clean(d);
    hide Print, ReadDoc, Clean, Pruned;
    PrintReadsBack(d, "");
    assert Print(d) + "" == Print(d);
  }

  lemma PrintExample()
    ensures Print(DObj([Entry("a", DBool(true)), Entry("b", DNull)])) == "{\"a\":true,}"
  {
    var ms := [Entry("a", DBool(true)), Entry("b", DNull)];
    PlainLetter();
    hide Escaped;
    assert ms[0..] == ms && ms[1..] == [ms[1]] && ms[2..] == [];
    MemberStep(ms, 0);
    MemberStep(ms, 1);
    NoMembers();
    assert PrintMember(ms[0], true) == "\"a\":true,";
    assert PrintMembers(ms) == "\"a\":true," + [] + [];
  }

  lemma PlainLetter()
    ensures Quoted("a") == "\"a\""
  {
    assert "a"[1..] == "" && EscapedChar('a') == "a";
    assert Escaped("a") == EscapedChar('a') + Escaped("");
  }
}
