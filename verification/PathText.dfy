/** Path strings (lib/datasync/path.c, lib/hash.c): parsing into parts, the normal form, and hashing with or
    without parsing. Strings are C strings: no NUL before their end. */
module PathText {
  import opened Buffers
  import opened Keys
  import opened Paths

  const MAX_DEPTH := 32
  const OFFSET_SPAN := 0x1_0000

  predicate CString(s: string) {
    forall i :: 0 <= i < |s| ==> s[i] != NUL
  }

  // ----- the reference: maximal runs of characters other than the slash

  datatype Piece = Piece(begin: nat, text: string)

  function EndOf(s: string, i: nat): (e: nat)
    requires i <= |s|
    ensures i <= e <= |s| && (e < |s| ==> s[e] == '/')
    ensures forall j :: i <= j < e ==> s[j] != '/'
    decreases |s| - i
  {
    if i == |s| || s[i] == '/' then i else EndOf(s, i + 1)
  }

  function Pieces(s: string, i: nat): seq<Piece>
    requires i <= |s|
    decreases |s| - i
  {
    if i == |s| then []
    else if s[i] == '/' then Pieces(s, i + 1)
    else [Piece(i, s[i..EndOf(s, i)])] + Pieces(s, EndOf(s, i))
  }

  function Texts(ps: seq<Piece>): seq<string> {
    seq(|ps|, k requires 0 <= k < |ps| => ps[k].text)
  }

  /** All non-empty segments of a path. */
  function Segments(s: string): seq<string> {
    Texts(Pieces(s, 0))
  }

  function Limit<T>(ps: seq<T>): seq<T> {
    if |ps| <= MAX_DEPTH then ps else ps[..MAX_DEPTH]
  }

  lemma LimitIs<T>(ps: seq<T>)
    ensures Limit(ps) <= ps && |Limit(ps)| == if |ps| < 32 then |ps| else 32
  {
  }

  lemma {:induction false} EndUnique(s: string, i: nat, e: nat)
    requires i <= e <= |s| && (e == |s| || s[e] == '/') && forall j :: i <= j < e ==> s[j] != '/'
    ensures EndOf(s, i) == e
    decreases e - i
  {
    if i < e {
      EndUnique(s, i + 1, e);
    }
  }

  // ----- wc_datasync_path_parse

  /** The parsed path: the copy of the string with its separators overwritten, where the parts begin in it, and
      the normal form. */
  datatype Parsed = Parsed(buf: string, offsets: seq<nat>, norm: string)

  /** The C string at an offset. */
  function CStringAt(buf: string, o: nat): string
    decreases |buf| - o
  {
    if o >= |buf| || buf[o] == NUL then "" else [buf[o]] + CStringAt(buf, o + 1)
  }

  function Parts(r: Parsed): seq<string> {
    seq(|r.offsets|, k requires 0 <= k < |r.offsets| => CStringAt(r.buf, r.offsets[k]))
  }

  /** The text of a piece stands at its place, terminated. */
  ghost predicate Stands(buf: seq<char>, p: Piece) {
    p.begin + |p.text| < |buf| && buf[p.begin..p.begin + |p.text|] == p.text && buf[p.begin + |p.text|] == NUL
  }

  lemma {:induction false} StandsAt(buf: seq<char>, p: Piece)
    requires Stands(buf, p) && CString(p.text)
    ensures CStringAt(buf, p.begin) == p.text
    decreases |p.text|
  {
    if p.text != "" {
      var q := Piece(p.begin + 1, p.text[1..]);
      assert buf[q.begin..q.begin + |q.text|] == buf[p.begin..p.begin + |p.text|][1..];
      StandsAt(buf, q);
      assert buf[p.begin] == buf[p.begin..p.begin + |p.text|][0] == p.text[0];
    }
  }

  function Norm(parts: seq<string>): string {
    if parts == [] then "" else "/" + parts[0] + Norm(parts[1..])
  }

  /** `wc_datasync_path_to_str`. */
  function ToStr(parts: seq<string>): string {
    if parts == [] then "/" else Norm(parts)
  }

  /** What the scan has found when it has read `path[..i]`. */
  ghost predicate Found(buf: seq<char>, offsets: seq<nat>, ps: seq<Piece>, i: nat) {
    && |offsets| == |ps|
    && forall k :: 0 <= k < |ps| ==>
         && offsets[k] == ps[k].begin % OFFSET_SPAN
         && Stands(buf, ps[k]) && CString(ps[k].text) && ps[k].begin + |ps[k].text| < i
  }

  lemma FoundKept(buf: seq<char>, offsets: seq<nat>, ps: seq<Piece>, i: nat)
    requires Found(buf, offsets, ps, i) && i < |buf|
    ensures Found(buf[i := NUL], offsets, ps, i + 1)
  {
    forall k | 0 <= k < |ps| ensures Stands(buf[i := NUL], ps[k]) {
      var (b, e) := (ps[k].begin, ps[k].begin + |ps[k].text|);
      assert buf[i := NUL][b..e] == buf[b..e];
    }
  }

  /** The piece from `begin` to the separator or terminator at `i`. */
  lemma FoundOne(path: string, buf: seq<char>, offsets: seq<nat>, ps: seq<Piece>, begin: nat, i: nat)
    requires Found(buf, offsets, ps, i) && |buf| == |path| + 1 && begin < i <= |path|
    requires buf[begin..i] == path[begin..i] && CString(path)
    requires (i == |path| || path[i] == '/') && forall j :: begin <= j < i ==> path[j] != '/'
    ensures var p := Piece(begin, path[begin..i]);
            && Found(buf[i := NUL], offsets + [begin % OFFSET_SPAN], ps + [p], i + 1)
            && Pieces(path, begin) == [p] + Pieces(path, i)
  {
    var p := Piece(begin, path[begin..i]);
    FoundKept(buf, offsets, ps, i);
    EndUnique(path, begin, i);
    assert buf[i := NUL][begin..i] == buf[begin..i];
    assert Stands(buf[i := NUL], p);
  }

  /** The two-state scan: overwrites the separators in the copy and collects the offsets. */
  method ScanParts(path: string, cpy: array<char>) returns (offsets: seq<nat>, ghost found: seq<Piece>)
    requires CString(path) && cpy.Length == |path| + 1 && cpy[..] == path + [NUL]
    modifies cpy
    ensures found == Limit(Pieces(path, 0))
    ensures Found(cpy[..], offsets, found, |path| + 1)
  {
    hide Found, Pieces;
    offsets, found := [], [];
    var i, begin, inside := 0, 0, false;
    ghost var rest := Pieces(path, 0);
    FoundNothing(cpy[..]);
    while |offsets| < MAX_DEPTH
      invariant 0 <= i <= |path| && |offsets| == |found| <= MAX_DEPTH
      invariant Found(cpy[..], offsets, found, i)
      invariant cpy[i..] == path[i..] + [NUL]
      invariant found + rest == Pieces(path, 0)
      invariant !inside ==> rest == Pieces(path, i)
      invariant inside ==> begin < i && rest == Pieces(path, begin) && cpy[begin..i] == path[begin..i]
      invariant inside ==> forall j :: begin <= j < i ==> path[j] != '/'
      decreases |path| - i
    {
      ghost var buf := cpy[..];
      assert cpy[i] == (path[i..] + [NUL])[0] && (i < |path| ==> cpy[i] == path[i]);
      PieceStep(path, i);
      if !inside {
        if cpy[i] == NUL {
          FoundMore(buf, offsets, found, i, |path| + 1);
          return;
        } else if cpy[i] != '/' {
          inside, begin := true, i;
          assert cpy[i..i + 1] == path[i..i + 1];
        }
        FoundMore(buf, offsets, found, i, i + 1);
      } else if cpy[i] == '/' || cpy[i] == NUL {
        FoundOne(path, buf, offsets, found, begin, i);
        offsets := offsets + [begin % OFFSET_SPAN];
        found := found + [Piece(begin, path[begin..i])];
        if cpy[i] == NUL {
          assert buf[i := NUL] == buf;
          return;
        }
        cpy[i] := NUL;
        assert cpy[..] == buf[i := NUL];
        inside, rest := false, Pieces(path, i);
        assert found + rest == Pieces(path, 0);
      } else {
        assert cpy[begin..i + 1] == path[begin..i + 1];
        FoundMore(buf, offsets, found, i, i + 1);
      }
      assert cpy[i + 1..] == buf[i + 1..];
      TailStep(buf, path, i);
      i := i + 1;
    }
    FoundMore(cpy[..], offsets, found, i, |path| + 1);
  }

  lemma TailStep(buf: seq<char>, path: string, i: nat)
    requires i < |path| && |buf| == |path| + 1 && buf[i..] == path[i..] + [NUL]
    ensures buf[i + 1..] == path[i + 1..] + [NUL]
  {
    assert buf[i..][1..] == (path[i..] + [NUL])[1..];
  }

  lemma PieceStep(path: string, i: nat)
    requires i <= |path|
    ensures i == |path| ==> Pieces(path, i) == []
    ensures i < |path| && path[i] == '/' ==> Pieces(path, i) == Pieces(path, i + 1)
  {
  }

  lemma FoundNothing(buf: seq<char>)
    ensures Found(buf, [], [], 0)
  {
  }

  lemma FoundMore(buf: seq<char>, offsets: seq<nat>, ps: seq<Piece>, i: nat, j: nat)
    requires Found(buf, offsets, ps, i) && i <= j
    ensures Found(buf, offsets, ps, j)
  {
  }

  lemma NormStep(parts: seq<string>, i: nat)
    requires i < |parts|
    ensures Norm(parts[i..]) == "/" + parts[i] + Norm(parts[i + 1..])
  {
    assert parts[i..][1..] == parts[i + 1..];
  }

  /** The loop that measures the normal form. */
  method MeasureNorm(parts: seq<string>) returns (len: nat)
    ensures len == |Norm(parts)|
  {
    var i: nat := 0;
    len := 0;
    assert parts[0..] == parts && parts[|parts|..] == [];
    while i < |parts|
      invariant 0 <= i <= |parts| && len + |Norm(parts[i..])| == |Norm(parts)|
    {
      NormStep(parts, i);
      len := len + |parts[i]| + 1;
      i := i + 1;
    }
  }

  /** The loop that writes it: the buffer is exactly filled. */
  method WriteNorm(parts: seq<string>, out: array<char>)
    requires out.Length == |Norm(parts)| + 1
    modifies out
    ensures out[..out.Length - 1] == Norm(parts)
  {
    hide Norm, Wrote;
    ghost var was, text := out[..], "";
    var p, i: nat := 0, 0;
    WroteNothing(was, 0);
    assert parts[0..] == parts && parts[|parts|..] == [];
    while i < |parts|
      invariant 0 <= i <= |parts| && p == |text|
      invariant text + Norm(parts[i..]) == Norm(parts) && Wrote(was, out[..], 0, text)
    {
      NormStep(parts, i);
      assert |text| + |Norm(parts[i..])| == |Norm(parts)|;
      Regroup(text, parts[i], Norm(parts[i + 1..]));
      ghost var mid := out[..];
      Write(out, p, "/");
      WroteThen(was, mid, out[..], 0, text, "/");
      p, mid := p + 1, out[..];
      Format(out, p, parts[i]);
      WroteThen(was, mid, out[..], 0, text + "/", parts[i]);
      p, text := p + |parts[i]|, text + "/" + parts[i];
      i := i + 1;
    }
    WroteAll(was, out[..], parts, text);
  }

  lemma Regroup(a: string, b: string, c: string)
    ensures a + "/" + b + c == a + ("/" + b + c)
  {
  }

  lemma WroteAll(was: seq<char>, now: seq<char>, parts: seq<string>, text: string)
    requires Wrote(was, now, 0, text) && text + Norm([]) == Norm(parts)
    ensures now[..|Norm(parts)|] == Norm(parts)
  {
    assert text + "" == text;
  }

  /** `wc_datasync_path_parse`. */
  method Parse(path: string) returns (r: Parsed)
    requires CString(path)
    ensures |r.offsets| == |Limit(Segments(path))|
    ensures forall k :: 0 <= k < |r.offsets| && Pieces(path, 0)[k].begin < OFFSET_SPAN ==>
              Parts(r)[k] == Segments(path)[k]
    ensures |path| <= OFFSET_SPAN ==> Parts(r) == Limit(Segments(path))
    ensures r.norm == ToStr(Parts(r))
  {
    hide Found, Pieces, Wrote;
    var cpy := new char[|path| + 1];
    Format(cpy, 0, path);
    Copied(cpy[..], path);
    var offsets;
    ghost var found: seq<Piece>;
    offsets, found := ScanParts(path, cpy);
    var parts := GetParts(cpy[..], offsets);
    var norm := "/";
    if |offsets| > 0 {
      var len := MeasureNorm(parts);
      var out := new char[len + 1];
      WriteNorm(parts, out);
      norm := out[..len];
    }
    r := Parsed(cpy[..], offsets, norm);
    assert Parts(r) == parts;
    ParseSpec(path, r, found);
  }

  lemma Copied(buf: seq<char>, path: string)
    requires |buf| == |path| + 1 && buf[|path|] == NUL && exists was :: Wrote(was, buf, 0, path)
    ensures buf == path + [NUL]
  {
    var was :| Wrote(was, buf, 0, path);
    assert buf == buf[..|path|] + [buf[|path|]];
  }

  /** `wc_datasync_path_get_part` for each part. */
  method GetParts(buf: string, offsets: seq<nat>) returns (parts: seq<string>)
    ensures parts == Parts(Parsed(buf, offsets, ""))
  {
    var i := 0;
    parts := [];
    while i < |offsets|
      invariant 0 <= i <= |offsets| && parts == Parts(Parsed(buf, offsets, ""))[..i]
    {
      parts := parts + [CStringAt(buf, offsets[i])];
      i := i + 1;
    }
  }

  lemma ParseSpec(path: string, r: Parsed, found: seq<Piece>)
    requires found == Limit(Pieces(path, 0)) && Found(r.buf, r.offsets, found, |path| + 1)
    ensures |r.offsets| == |Limit(Segments(path))|
    ensures forall k :: 0 <= k < |r.offsets| && Pieces(path, 0)[k].begin < OFFSET_SPAN ==>
              Parts(r)[k] == Segments(path)[k]
    ensures |path| <= OFFSET_SPAN ==> Parts(r) == Limit(Segments(path))
  {
    hide Pieces;
    forall k | 0 <= k < |found|
      ensures found[k].begin < OFFSET_SPAN ==> Parts(r)[k] == found[k].text
      ensures |path| <= OFFSET_SPAN ==> found[k].begin < OFFSET_SPAN
      ensures found[k] == Pieces(path, 0)[k]
    {
      StandsAt(r.buf, found[k]);
      PieceNonEmpty(path, k);
    }
  }

  lemma PieceNonEmpty(path: string, k: nat)
    requires k < |Pieces(path, 0)|
    ensures Pieces(path, 0)[k].text != ""
  {
    PiecesAreParts(path, 0);
  }

  // ----- parsing the normal form

  predicate IsPart(s: string) {
    s != "" && forall i :: 0 <= i < |s| ==> s[i] != '/'
  }

  lemma {:induction false} PiecesAreParts(s: string, i: nat)
    requires i <= |s|
    ensures forall k :: 0 <= k < |Pieces(s, i)| ==> IsPart(Pieces(s, i)[k].text)
    decreases |s| - i
  {
    if i < |s| {
      PiecesAreParts(s, if s[i] == '/' then i + 1 else EndOf(s, i));
    }
  }

  /** Reading the normal form from where part `k` begins. */
  lemma {:induction false} PiecesOfNorm(s: string, i: nat, parts: seq<string>)
    requires i <= |s| && s[i..] == Norm(parts)
    requires forall k :: 0 <= k < |parts| ==> IsPart(parts[k])
    ensures Texts(Pieces(s, i)) == parts
    decreases |parts|
  {
    if parts != [] {
      var (b, e) := (i + 1, i + 1 + |parts[0]|);
      NormHead(s, i, parts);
      hide Pieces, Norm, Texts;
      EndUnique(s, b, e);
      PiecesOfNorm(s, e, parts[1..]);
      PieceStep(s, i);
      SegmentNext(s, b);
      assert parts == [parts[0]] + parts[1..];
    } else {
      PieceStep(s, i);
    }
  }

  /** The first part of a normal form and what is left of it. */
  lemma NormText(s: string, i: nat, parts: seq<string>)
    requires i <= |s| && parts != [] && s[i..] == Norm(parts)
    ensures i + 1 + |parts[0]| <= |s|
    ensures s[i..i + 1] == "/" && s[i + 1..i + 1 + |parts[0]|] == parts[0]
            && s[i + 1 + |parts[0]|..] == Norm(parts[1..])
  {
    var rest := Norm(parts[1..]);
    assert Norm(parts) == "/" + parts[0] + rest == "/" + (parts[0] + rest);
    hide Norm;
    CutOff(s, i, "/", parts[0] + rest);
    CutOff(s, i + 1, parts[0], rest);
  }

  lemma CutOff(s: string, i: nat, a: string, b: string)
    requires i <= |s| && s[i..] == a + b
    ensures i + |a| <= |s| && s[i..i + |a|] == a && s[i + |a|..] == b
  {
    assert |s[i..]| == |a| + |b|;
    assert s[i..i + |a|] == s[i..][..|a|] && s[i + |a|..] == s[i..][|a|..];
  }

  /** Its slash and what ends it. */
  lemma NormHead(s: string, i: nat, parts: seq<string>)
    requires i <= |s| && parts != [] && s[i..] == Norm(parts) && IsPart(parts[0])
    ensures var (b, e) := (i + 1, i + 1 + |parts[0]|);
            && e <= |s| && s[i] == '/' && s[b..e] == parts[0] && s[e..] == Norm(parts[1..])
            && (e < |s| ==> s[e] == '/') && forall j :: b <= j < e ==> s[j] != '/'
  {
    hide Norm;
    var (b, e) := (i + 1, i + 1 + |parts[0]|);
    NormText(s, i, parts);
    assert s[i] == '/' by {
      assert s[i] == s[i..i + 1][0];
    }
    assert forall j :: b <= j < e ==> s[j] != '/' by {
      assert forall j :: b <= j < e ==> s[j] == s[b..e][j - b];
    }
    assert e < |s| ==> s[e] == '/' by {
      NormStarts(parts[1..]);
      assert e < |s| ==> s[e] == s[e..][0];
    }
  }

  lemma NormStarts(parts: seq<string>)
    ensures Norm(parts) == "" || Norm(parts)[0] == '/'
  {
  }

  /** The normal form has the same parts. */
  lemma NormRoundTrip(path: string)
    ensures Segments(ToStr(Limit(Segments(path)))) == Limit(Segments(path))
  {
    hide Pieces;
    var parts := Limit(Segments(path));
    PiecesAreParts(path, 0);
    if parts == [] {
      PieceStep("/", 0);
      PieceStep("/", 1);
    } else {
      var s := Norm(parts);
      assert s[0..] == s;
      forall k | 0 <= k < |parts| ensures IsPart(parts[k]) {
        assert parts[k] == Pieces(path, 0)[k].text;
      }
      PiecesOfNorm(s, 0, parts);
    }
  }

  lemma EndCut(s: string, t: string, i: nat)
    requires i <= |s| < |t| && t[..|s|] == s && t[|s|] == '/'
    ensures EndOf(t, i) == EndOf(s, i) && t[i..EndOf(s, i)] == s[i..EndOf(s, i)]
  {
    var e := EndOf(s, i);
    assert forall j :: 0 <= j < |s| ==> t[j] == t[..|s|][j];
    EndUnique(t, i, e);
  }

  /** The pieces before a slash do not depend on what follows it. */
  lemma {:induction false} PiecesCut(s: string, t: string, i: nat)
    requires i <= |s| < |t| && t[..|s|] == s && t[|s|] == '/'
    ensures Texts(Pieces(t, i)) == Texts(Pieces(s, i)) + Texts(Pieces(t, |s|))
    decreases |s| - i
  {
    hide Pieces;
    PieceStep(s, i);
    PieceStep(t, i);
    if i < |s| {
      assert t[i] == t[..|s|][i];
      if s[i] == '/' {
        PiecesCut(s, t, i + 1);
      } else {
        EndCut(s, t, i);
        SegmentNext(s, i);
        SegmentNext(t, i);
        PiecesCut(s, t, EndOf(s, i));
      }
    }
  }

  lemma EndShift(s: string, t: string, i: nat, d: nat)
    requires d + |s| == |t| && t[d..] == s && i <= |s|
    ensures EndOf(t, d + i) == d + EndOf(s, i)
    ensures t[d + i..d + EndOf(s, i)] == s[i..EndOf(s, i)]
  {
    var e := EndOf(s, i);
    assert forall j :: d <= j < |t| ==> t[j] == s[j - d];
    EndUnique(t, d + i, d + e);
  }

  /** Pieces only look ahead. */
  lemma {:induction false} PiecesShift(s: string, t: string, i: nat, d: nat)
    requires d + |s| == |t| && t[d..] == s && i <= |s|
    ensures Texts(Pieces(t, d + i)) == Texts(Pieces(s, i))
    decreases |s| - i
  {
    hide Pieces, Texts;
    PieceStep(s, i);
    PieceStep(t, d + i);
    if i < |s| {
      assert t[d + i] == s[i];
      if s[i] == '/' {
        PiecesShift(s, t, i + 1, d);
      } else {
        EndShift(s, t, i, d);
        SegmentNext(s, i);
        SegmentNext(t, d + i);
        PiecesShift(s, t, EndOf(s, i), d);
      }
    }
  }

  /** Joining two strings with a slash, as `data_cache_merge` does, joins their segments. */
  lemma SegmentsJoin(a: string, b: string)
    ensures Segments(a + "/" + b) == Segments(a) + Segments(b)
  {
    hide Pieces, Texts;
    var t := a + "/" + b;
    PiecesCut(a, t, 0);
    PieceStep(t, |a|);
    PiecesShift(b, t, 0, |a| + 1);
  }

  const NAME_MAX := 256

  /** The path text that `data_cache_merge` prints for a member, in a buffer with room for a name of 256 bytes. */
  function MemberText(path: string, name: string): string {
    var t := path + "/" + name;
    if |name| <= NAME_MAX then t else t[..|path| + 1 + NAME_MAX]
  }

  function CutName(name: string): string {
    if |name| <= NAME_MAX then name else name[..NAME_MAX]
  }

  /** A member is put at the path of the message or below it, whatever its name is. */
  lemma MergePath(path: string, name: string)
    ensures Limit(Segments(MemberText(path, name))) == Limit(Segments(path) + Segments(CutName(name)))
    ensures Limit(Segments(path)) <= Limit(Segments(MemberText(path, name)))
  {
    hide Segments;
    SegmentsJoin(path, CutName(name));
    assert MemberText(path, name) == path + "/" + CutName(name);
  }

  /** If the name is a part, exactly one level below. */
  lemma MergePathPart(path: string, name: string)
    requires IsPart(name) && |name| <= NAME_MAX && |Segments(path)| < MAX_DEPTH
    ensures Limit(Segments(MemberText(path, name))) == Segments(path) + [name]
  {
    MergePath(path, name);
    EndUnique(name, 0, |name|);
    assert name[0..|name|] == name;
    PieceStep(name, |name|);
    SegmentNext(name, 0);
  }

  // ----- hashes

  const WORD := 0x1_0000_0000_0000_0000

  /** `((hash << 5) + hash) + c` on an unsigned 64-bit word. */
  function Mix(h: nat, c: char): nat {
    (((h * 32) % WORD + h) % WORD + c as nat) % WORD
  }

  function Djb(h: nat, s: string): nat {
    if s == "" then h else Mix(Djb(h, s[..|s| - 1]), s[|s| - 1])
  }

  function HashParts(parts: seq<string>): nat {
    if parts == [] then Mix(5381, '/') else Mix(Djb(HashParts(parts[..|parts| - 1]), parts[|parts| - 1]), '/')
  }

  /** The text that the hash of a path digests: every part between slashes. */
  function Slashed(parts: seq<string>): string {
    if parts == [] then "/" else Slashed(parts[..|parts| - 1]) + parts[|parts| - 1] + "/"
  }

  /** The number that the djb2 hash reads from a text, without the wrap-around: base 33, most significant first. */
  function Base33(h: nat, s: string): nat
    decreases s
  {
    if s == "" then h else Base33(33 * h + s[0] as nat, s[1..])
  }

  lemma MixIs(h: nat, c: char)
    ensures Mix(h % WORD, c) == (33 * h + c as nat) % WORD
  {
    var q, r := h / WORD, h % WORD;
    assert Mix(r, c) == (33 * r + c as nat) % WORD by {
      ModPlus(r * 32, r);
      ModPlus((r * 32) % WORD + r, c as nat);
      ModPlus(r * 32 + r, c as nat);
    }
    assert 33 * h + c as nat == 33 * r + c as nat + (33 * q) * WORD;
    ModMultiple(33 * r + c as nat, 33 * q);
  }

  lemma ModPlus(a: nat, b: nat)
    ensures (a % WORD + b) % WORD == (a + b) % WORD
  {
    ModMultiple(a % WORD + b, a / WORD);
  }

  lemma ModMultiple(a: nat, k: nat)
    ensures (a + k * WORD) % WORD == a % WORD
  {
    var q := a / WORD;
    assert a + k * WORD == (q + k) * WORD + a % WORD;
    QuotientIs(a + k * WORD, q + k, a % WORD);
  }

  lemma QuotientIs(n: nat, q: nat, r: nat)
    requires n == q * WORD + r && r < WORD
    ensures n % WORD == r
  {
    var p := n / WORD;
    assert (p - q) * WORD == r - n % WORD;
  }

  lemma {:induction false} Base33Last(h: nat, s: string)
    requires s != ""
    ensures Base33(h, s) == 33 * Base33(h, s[..|s| - 1]) + s[|s| - 1] as nat
    decreases s
  {
    if |s| > 1 {
      var t := s[1..];
      Base33Last(33 * h + s[0] as nat, t);
      assert t[..|t| - 1] == s[..|s| - 1][1..];
    } else {
      assert s[..0] == "" && s[1..] == "";
    }
  }

  lemma {:induction false} DjbIsBase33(h: nat, s: string)
    requires h < WORD
    ensures Djb(h, s) == Base33(h, s) % WORD
  {
    hide Mix;
    if s != "" {
      DjbIsBase33(h, s[..|s| - 1]);
      Base33Last(h, s);
      MixIs(Base33(h, s[..|s| - 1]), s[|s| - 1]);
    }
  }

  lemma {:induction false} DjbConcat(h: nat, s: string, t: string)
    ensures Djb(h, s + t) == Djb(Djb(h, s), t)
  {
    if t == "" {
      assert s + t == s;
    } else {
      assert (s + t)[..|s + t| - 1] == s + t[..|t| - 1];
      DjbConcat(h, s, t[..|t| - 1]);
    }
  }

  lemma {:induction false} HashPartsIsDjb(parts: seq<string>)
    ensures HashParts(parts) == Djb(5381, Slashed(parts))
  {
    hide Mix;
    if parts == [] {
      assert "/"[..0] == "";
    } else {
      var up, p := parts[..|parts| - 1], parts[|parts| - 1];
      HashPartsIsDjb(up);
      DjbConcat(5381, Slashed(up), p);
      DjbConcat(5381, Slashed(up) + p, "/");
      assert "/"[..0] == "";
    }
  }

  /** The hash of a path is its text between slashes read in base 33 from 5381, modulo 2^64. */
  lemma HashIsBase33(parts: seq<string>)
    ensures HashParts(parts) == Base33(5381, Slashed(parts)) % WORD
  {
    HashPartsIsDjb(parts);
    DjbIsBase33(5381, Slashed(parts));
  }

  lemma HashExamples()
    ensures HashParts([]) == 177620 && HashParts(["a"]) == 193431428
  {
    assert Mix(5381, '/') == 177620 && Mix(177620, 'a') == 5861557 && Mix(5861557, '/') == 193431428;
    hide Mix;
    assert "a"[..0] == "" && ["a"][..0] == [];
    assert Djb(177620, "") == 177620 && Djb(177620, "a") == 5861557;
  }

  lemma DjbNone(h: nat)
    ensures Djb(h, "") == h
  {
  }

  lemma DjbNext(h: nat, s: string, c: char)
    ensures Djb(h, s + [c]) == Mix(Djb(h, s), c)
  {
    assert (s + [c])[..|s|] == s;
  }

  /** `wc_djb2_hash_update`. */
  method DjbUpdate(s: string, h0: nat) returns (h: nat)
    ensures h == Djb(h0, s)
  {
    h := h0;
    var i := 0;
    while i < |s|
      invariant 0 <= i <= |s| && h == Djb(h0, s[..i])
    {
      assert s[..i + 1][..i] == s[..i];
      h := Mix(h, s[i]);
      i := i + 1;
    }
    assert s[..i] == s;
  }

  /** `wc_datasync_path_hash`. */
  method HashParsed(parts: seq<string>) returns (h: nat)
    ensures h == HashParts(parts)
  {
    h := Mix(5381, '/');
    var i := 0;
    while i < |parts|
      invariant 0 <= i <= |parts| && h == HashParts(parts[..i])
    {
      assert parts[..i + 1][..i] == parts[..i];
      h := DjbUpdate(parts[i], h);
      h := Mix(h, '/');
      i := i + 1;
    }
    assert parts[..i] == parts;
  }

  /** `wc_str_path_hash_update`: one segment, up to the slash or the end. */
  method HashSegment(path: string, at: nat, h0: nat) returns (h: nat, i: nat)
    requires at <= |path|
    ensures i == EndOf(path, at) && h == Mix(Djb(h0, path[at..i]), '/')
  {
    hide Mix, Djb;
    h, i := h0, at;
    DjbNone(h0);
    assert path[at..at] == "";
    while i < |path| && path[i] != '/'
      invariant at <= i <= |path| && h == Djb(h0, path[at..i])
      invariant forall j :: at <= j < i ==> path[j] != '/'
    {
      assert path[at..i + 1] == path[at..i] + [path[i]];
      DjbNext(h0, path[at..i], path[i]);
      h := Mix(h, path[i]);
      i := i + 1;
    }
    EndUnique(path, at, i);
    h := Mix(h, '/');
  }

  /** The inner loop of `wc_str_path_hash`. */
  method SkipSlashes(path: string, at: nat) returns (i: nat)
    requires at <= |path|
    ensures at <= i <= |path| && Pieces(path, i) == Pieces(path, at)
    ensures if i < |path| then path[i] != '/' else at == |path| || at < i
  {
    hide Pieces;
    i := at;
    while i < |path| && path[i] == '/'
      invariant at <= i <= |path| && Pieces(path, i) == Pieces(path, at)
    {
      PieceStep(path, i);
      i := i + 1;
    }
  }

  lemma SegmentNext(path: string, i: nat)
    requires i < |path| && path[i] != '/'
    ensures EndOf(path, i) > i
    ensures Texts(Pieces(path, i)) == [path[i..EndOf(path, i)]] + Texts(Pieces(path, EndOf(path, i)))
  {
  }

  lemma HashNext(done: seq<string>, seg: string)
    ensures HashParts(done + [seg]) == Mix(Djb(HashParts(done), seg), '/')
  {
    assert (done + [seg])[..|done|] == done;
  }

  /** One turn of the outer loop of `wc_str_path_hash`. */
  method HashTurn(path: string, at: nat, h0: nat, ghost done: seq<string>)
    returns (i: nat, h: nat, ghost now: seq<string>)
    requires at < |path| && h0 == HashParts(done)
    ensures at < i <= |path| && h == HashParts(now)
    ensures now + Texts(Pieces(path, i)) == done + Texts(Pieces(path, at))
  {
    hide Mix, Djb, HashParts, Pieces, Texts;
    i := SkipSlashes(path, at);
    h, now := h0, done;
    PieceStep(path, i);
    if i < |path| {
      SegmentNext(path, i);
      ghost var seg := path[i..EndOf(path, i)];
      HashNext(done, seg);
      h, i := HashSegment(path, i, h);
      now := done + [seg];
    }
  }

  /** `wc_str_path_hash`: the raw string hashes like its segments, so like the parsed path unless that was cut. */
  method HashRaw(path: string) returns (h: nat)
    ensures h == HashParts(Segments(path))
    ensures |Segments(path)| <= MAX_DEPTH ==> h == HashParts(Limit(Segments(path)))
  {
    h := 177620;
    var i: nat := 0;
    ghost var done: seq<string> := [];
    assert HashParts(done) == 177620;
    assert [] + Texts(Pieces(path, 0)) == Segments(path);
    hide Mix, Djb, HashParts, Pieces;
    while i < |path|
      invariant 0 <= i <= |path| && h == HashParts(done)
      invariant done + Texts(Pieces(path, i)) == Segments(path)
    {
      i, h, done := HashTurn(path, i, h, done);
    }
    PieceStep(path, i);
    assert done + [] == done;
  }

  // ----- the parts as keys

  function KeyPath(parts: seq<string>): Path {
    seq(|parts|, k requires 0 <= k < |parts| => KeyOf(parts[k]))
  }

  predicate AllCanonical(parts: seq<string>, low: int) {
    forall k :: 0 <= k < |parts| ==> Canonical(parts[k], low)
  }

  /** `wc_datasync_path_cmp` on the part strings. */
  function PartsCmp(a: seq<string>, b: seq<string>): int {
    if a == [] || b == [] then |a| - |b|
    else
      var c := KeyCmp(a[0], b[0]);
      if c != 0 then c else PartsCmp(a[1..], b[1..])
  }

  /** On canonical parts the comparison is the path order, and `strcmp` decides prefixes of key paths. */
  lemma {:induction false} PartsAsKeys(a: seq<string>, b: seq<string>, low: int)
    requires AllCanonical(a, low) && AllCanonical(b, low)
    ensures PartsCmp(a, b) == PathCmp(KeyPath(a), KeyPath(b))
    ensures a <= b <==> KeyPath(a) <= KeyPath(b)
  {
    hide KeyCmp, KeyOrd, Canonical, KeyOf;
    if a == [] {
      assert KeyPath(a) == [];
    } else if b != [] {
      KeyCmpIsKeyOrd(a[0], b[0], low);
      KeyOrdAntisymmetric(KeyOf(a[0]), KeyOf(b[0]));
      PartsAsKeys(a[1..], b[1..], low);
      assert KeyPath(a)[1..] == KeyPath(a[1..]) && KeyPath(b)[1..] == KeyPath(b[1..]);
      assert a == [a[0]] + a[1..] && b == [b[0]] + b[1..];
      assert KeyPath(a) == [KeyOf(a[0])] + KeyPath(a[1..]) && KeyPath(b) == [KeyOf(b[0])] + KeyPath(b[1..]);
    }
  }
}
