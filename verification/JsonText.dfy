/** Printing JSON (lib/datasync/json.c, lib/datasync/cache/treenode.c) and reading it back by the grammar of
    RFC 8259. */
module JsonText {
  import opened Buffers

  const BACKSPACE := '\U{0008}'
  const FORMFEED := '\U{000C}'

  // ----- json_escape_str

  function HexDigit(d: int): char
    requires 0 <= d < 16
  {
    "0123456789abcdef"[d]
  }

  predicate Named(c: char) {
    c == '"' || c == '\\' || c == BACKSPACE || c == FORMFEED || c == '\n' || c == '\r' || c == '\t'
  }

  /** A control character without a short escape. */
  predicate Bare(c: char) {
    c < ' ' && !Named(c)
  }

  function Letter(c: char): char
    requires Named(c)
  {
    if c == BACKSPACE then 'b' else if c == FORMFEED then 'f' else if c == '\n' then 'n'
    else if c == '\r' then 'r' else if c == '\t' then 't' else c
  }

  function EscapedChar(c: char): string {
    if Named(c) then ['\\', Letter(c)]
    else if Bare(c) then ['\\', 'u', '0', '0', HexDigit(c as int / 16), HexDigit(c as int % 16)]
    else [c]
  }

  function Escaped(s: string): string {
    if s == [] then [] else EscapedChar(s[0]) + Escaped(s[1..])
  }

  function Quoted(s: string): string {
    "\"" + Escaped(s) + "\""
  }

  lemma EscapeExamples()
    ensures EscapedChar('"') == "\\\"" && EscapedChar('\\') == "\\\\" && EscapedChar('/') == "/"
    ensures EscapedChar(BACKSPACE) == "\\b" && EscapedChar(FORMFEED) == "\\f" && EscapedChar('\n') == "\\n"
    ensures EscapedChar('\r') == "\\r" && EscapedChar('\t') == "\\t"
    ensures EscapedChar('\U{0001}') == "\\u0001" && EscapedChar('\U{001F}') == "\\u001f"
  {
  }

  // ----- json_escaped_str_len

  function CharLen(c: char): nat {
    if Named(c) then 2 else if Bare(c) then 7 else 1
  }

  function EscapedLen(s: string): nat {
    if s == [] then 0 else CharLen(s[0]) + EscapedLen(s[1..])
  }

  predicate NoBare(s: string) {
    forall i :: 0 <= i < |s| ==> !Bare(s[i])
  }

  /** The announced length is enough, and exact when no character needs the long escape. */
  lemma {:induction false} EscapeFits(s: string)
    ensures |Escaped(s)| <= EscapedLen(s)
    ensures |Escaped(s)| == EscapedLen(s) <==> NoBare(s)
  {
    if s != [] {
      EscapeFits(s[1..]);
      assert s == [s[0]] + s[1..];
    }
  }

  // ----- the same, written into a buffer

  /** `json_escape_str`: in a buffer of the announced length, writes the quoted text and nothing else. */
  method EscapeInto(raw: string, buf: array<char>, at: nat) returns (n: nat)
    requires at + EscapedLen(raw) + 2 <= buf.Length
    modifies buf
    ensures n == |Quoted(raw)| && Wrote(old(buf[..]), buf[..], at, Quoted(raw))
    ensures buf[at + n..] == old(buf[at + n..])
  {
    hide CharLen, EscapedChar, Named, Bare;
    ghost var was := buf[..];
    ghost var text := "\"";
    var p, i := at, 0;
    Write(buf, p, "\"");
    p := p + 1;
    assert raw[0..] == raw;
    while i < |raw|
      invariant 0 <= i <= |raw| && p == at + |text|
      invariant p + EscapedLen(raw[i..]) + 1 <= buf.Length
      invariant text + Escaped(raw[i..]) == "\"" + Escaped(raw)
      invariant Wrote(was, buf[..], at, text)
    {
      ghost var mid := buf[..];
      EscapeStep(raw, i);
      var k := EscapeOne(raw[i], buf, p);
      WroteThen(was, mid, buf[..], at, text, EscapedChar(raw[i]));
      text := text + EscapedChar(raw[i]);
      p, i := p + k, i + 1;
    }
    ghost var mid := buf[..];
    Write(buf, p, "\"");
    WroteThen(was, mid, buf[..], at, text, "\"");
    assert text + "\"" == Quoted(raw);
    n := p + 1 - at;
  }

  lemma EscapeStep(raw: string, i: nat)
    requires i < |raw|
    ensures Escaped(raw[i..]) == EscapedChar(raw[i]) + Escaped(raw[i + 1..])
    ensures EscapedLen(raw[i..]) == CharLen(raw[i]) + EscapedLen(raw[i + 1..])
  {
    assert raw[i..][1..] == raw[i + 1..];
  }

  /** The switch in the loop of `json_escape_str`. The long form goes through `sprintf`, whose
      terminator is overwritten by what follows. */
  method EscapeOne(c: char, buf: array<char>, p: nat) returns (k: nat)
    requires p + CharLen(c) + 1 <= buf.Length
    modifies buf
    ensures k == |EscapedChar(c)| <= CharLen(c) && Wrote(old(buf[..]), buf[..], p, EscapedChar(c))
  {
    hide HexDigit, Wrote;
    if c == '"' {
      Write(buf, p, ['\\', '"']);
    } else if c == '\\' {
      Write(buf, p, ['\\', '\\']);
    } else if c == BACKSPACE {
      Write(buf, p, ['\\', 'b']);
    } else if c == FORMFEED {
      Write(buf, p, ['\\', 'f']);
    } else if c == '\n' {
      Write(buf, p, ['\\', 'n']);
    } else if c == '\r' {
      Write(buf, p, ['\\', 'r']);
    } else if c == '\t' {
      Write(buf, p, ['\\', 't']);
    } else if c < ' ' {
      Format(buf, p, ['\\', 'u', '0', '0', HexDigit(c as int / 16), HexDigit(c as int % 16)]);
    } else {
      Write(buf, p, [c]);
    }
    k := if Named(c) then 2 else if c < ' ' then 6 else 1;
  }

  /** `json_escaped_str_len`. */
  method MeasureString(s: string) returns (n: nat)
    ensures n == EscapedLen(s) + 2 >= |Quoted(s)|
  {
    n := 0;
    var i := 0;
    assert s[0..] == s;
    while i < |s|
      invariant 0 <= i <= |s| && n + EscapedLen(s[i..]) == EscapedLen(s)
    {
      EscapeStep(s, i);
      n := n + if Named(s[i]) then 2 else if s[i] < ' ' then 7 else 1;
      i := i + 1;
    }
    n := n + 2;
    EscapeFits(s);
  }

  // ----- RFC 8259, section 7: reading a string

  datatype Parsed<T> = Fail | Got(value: T, rest: string)

  function HexValue(c: char): int {
    if '0' <= c <= '9' then c as int - 48
    else if 'a' <= c <= 'f' then c as int - 87
    else if 'A' <= c <= 'F' then c as int - 55
    else -1
  }

  function ReadHex(t: string): int
    requires |t| >= 4
  {
    var (a, b, c, d) := (HexValue(t[0]), HexValue(t[1]), HexValue(t[2]), HexValue(t[3]));
    if a < 0 || b < 0 || c < 0 || d < 0 then -1 else ((a * 16 + b) * 16 + c) * 16 + d
  }

  /** What follows a backslash. Halves of surrogate pairs are not read. */
  function ReadEscape(t: string): (r: Parsed<char>)
    ensures r.Got? ==> |r.rest| < |t|
  {
    if t == [] then Fail
    else if t[0] == '"' || t[0] == '\\' || t[0] == '/' then Got(t[0], t[1..])
    else if t[0] == 'b' then Got(BACKSPACE, t[1..])
    else if t[0] == 'f' then Got(FORMFEED, t[1..])
    else if t[0] == 'n' then Got('\n', t[1..])
    else if t[0] == 'r' then Got('\r', t[1..])
    else if t[0] == 't' then Got('\t', t[1..])
    else if t[0] == 'u' && |t| >= 5 then
      var v := ReadHex(t[1..]);
      if v < 0 || 0xD800 <= v < 0xE000 || v > 0xFFFF then Fail else Got(v as char, t[5..])
    else Fail
  }

  /** The rest of a string, its opening quote already read. */
  function ReadChars(t: string): (r: Parsed<string>)
    ensures r.Got? ==> |r.rest| < |t|
    decreases |t|
  {
    if t == [] || t[0] < ' ' then Fail
    else if t[0] == '"' then Got([], t[1..])
    else if t[0] == '\\' then
      match ReadEscape(t[1..])
      case Fail => Fail
      case Got(c, u) => Before(c, ReadChars(u))
    else Before(t[0], ReadChars(t[1..]))
  }

  function Before(c: char, r: Parsed<string>): Parsed<string> {
    if r.Fail? then Fail else Got([c] + r.value, r.rest)
  }

  lemma HexReadsBack(d: int)
    requires 0 <= d < 16
    ensures HexValue(HexDigit(d)) == d
  {
    assert HexDigit(d) as int == if d < 10 then 48 + d else 87 + d;
  }

  lemma NamedReadsBack(c: char, u: string)
    requires Named(c)
    ensures ReadEscape([Letter(c)] + u) == Got(c, u)
  {
    var t := [Letter(c)] + u;
    assert t[0] == Letter(c) && t[1..] == u;
  }

  lemma BareReadsBack(c: char, u: string)
    requires Bare(c)
    ensures ReadEscape(EscapedChar(c)[1..] + u) == Got(c, u)
  {
    hide HexDigit, HexValue;
    var t := EscapedChar(c)[1..] + u;
    assert t[5..] == u && t[0] == 'u';
    var h := t[1..];
    assert h[0] == '0' && h[1] == '0' && h[2] == HexDigit(c as int / 16) && h[3] == HexDigit(c as int % 16);
    HexReadsBack(c as int / 16);
    HexReadsBack(c as int % 16);
    ZeroDigit();
    assert ReadHex(h) == c as int;
  }

  lemma ZeroDigit()
    ensures HexValue('0') == 0
  {
  }

  lemma ReadsBackChar(c: char, u: string)
    ensures ReadChars(EscapedChar(c) + u) == Before(c, ReadChars(u))
  {
    hide ReadEscape, Letter, HexDigit;
    var t := EscapedChar(c) + u;
    assert t[1..] == EscapedChar(c)[1..] + u;
    if Named(c) {
      NamedReadsBack(c, u);
      assert EscapedChar(c)[1..] == [Letter(c)];
    } else if Bare(c) {
      BareReadsBack(c, u);
    } else {
      assert EscapedChar(c)[1..] + u == u;
    }
  }

  /** Escaping reads back, wherever the string stands in a text. */
  lemma {:induction false} EscapeReadsBack(s: string, u: string)
    ensures ReadChars(Escaped(s) + "\"" + u) == Got(s, u)
  {
    hide ReadChars, EscapedChar;
    if s == [] {
      assert Escaped(s) + "\"" + u == ['"'] + u;
      QuoteEnds(u);
    } else {
      var tail := Escaped(s[1..]) + "\"" + u;
      assert Escaped(s) + "\"" + u == EscapedChar(s[0]) + tail;
      ReadsBackChar(s[0], tail);
      EscapeReadsBack(s[1..], u);
      assert s == [s[0]] + s[1..];
    }
  }

  lemma QuoteEnds(u: string)
    ensures ReadChars(['"'] + u) == Got([], u)
  {
    assert (['"'] + u)[1..] == u;
  }
}
