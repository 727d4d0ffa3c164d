/** What the hashes of the data cache tell apart (lib/datasync/cache/treenode.c): exactly the contents without null
    children, as long as the digest does not collide on the texts involved and no key holds a colon. */
module Separation {
  import opened Keys
  import opened Paths
  import opened AvlTree
  import opened Kids
  import opened CacheTree
  import opened Merkle

  // ----- what a hash can see, and what is assumed of keys and digests

  /** A value without its null children. */
  ghost function Lean(v: Val): Val {
    if v.VMap? then VMap(map k | k in v.m && !v.m[k].VNull? :: Lean(v.m[k])) else v
  }

  /** Keys that are read back from their spelling, which holds no colon. */
  predicate PlainKey(k: Key) {
    match k
    case Index(v) => -INT64_MAX - 1 <= v <= INT64_MAX
    case Name(s) => Scan(s).None? && ':' !in s
  }

  ghost predicate Plain(v: Val) {
    v.VMap? ==> forall k :: k in v.m && !v.m[k].VNull? ==> PlainKey(k) && Plain(v.m[k])
  }

  /** The texts that are digested for a node and what is below it. */
  ghost function Texts(sha: Sha, n: Node): set<string> {
    match n
    case Num(h, _) => {"number:" + h}
    case Str(s, _) => {"string:" + s}
    case Internal(kids, _) => {FreshIn(sha, kids)} + TextsIn(sha, kids)
    case _ => {}
  }

  ghost function TextsIn(sha: Sha, t: Tree<Kid>): set<string> {
    if t.Leaf? then {} else TextsIn(sha, t.left) + Texts(sha, t.data.node) + TextsIn(sha, t.right)
  }

  /** On these texts the digest is 28 characters long, takes none of the fixed hashes, and does not collide. */
  ghost predicate Distinguishes(sha: Sha, texts: set<string>) {
    && (forall x :: x in texts ==>
          |sha(x)| == 28 && sha(x) != NoHash() && sha(x) != BoolHash(true) && sha(x) != BoolHash(false))
    && (forall x, y :: x in texts && y in texts && sha(x) == sha(y) ==> x == y)
  }

  lemma {:induction false} TextsOfKid(sha: Sha, t: Tree<Kid>, i: nat)
    requires i < |InOrder(t)|
    ensures Texts(sha, InOrder(t)[i].node) <= TextsIn(sha, t)
  {
    hide Texts;
    var l := InOrder(t.left);
    if i < |l| {
      assert InOrder(t)[i] == l[i];
      TextsOfKid(sha, t.left, i);
    } else if i > |l| {
      assert InOrder(t)[i] == InOrder(t.right)[i - |l| - 1];
      TextsOfKid(sha, t.right, i - |l| - 1);
    } else {
      assert InOrder(t)[i] == t.data;
    }
  }

  // ----- reading one child's piece off the end of a text

  lemma PlainSpelling(k: Key)
    requires PlainKey(k)
    ensures ':' !in Spell(k) && KeyOf(Spell(k)) == k
  {
    SpellRoundTrip(k);
    if k.Index? {
      NatDecimalDigits(if k.v < 0 then -k.v else k.v);
    }
  }

  lemma NoColonAfter(x: string, a: string, i: nat)
    requires ':' !in a && i < |x + ":" + a| && (x + ":" + a)[i] == ':'
    ensures i <= |x|
  {
    var s := x + ":" + a;
    forall j | |x| < j < |s| ensures s[j] != ':' {
      assert s[j] == a[j - |x| - 1];
    }
  }

  /** The last colon cuts a text in one way only. */
  lemma LastColon(x: string, a: string, y: string, b: string)
    requires x + ":" + a == y + ":" + b && ':' !in a && ':' !in b
    ensures x == y && a == b
  {
    var s, t := x + ":" + a, y + ":" + b;
    assert s[|x|] == ':' && t[|y|] == ':';
    NoColonAfter(x, a, |y|);
    NoColonAfter(y, b, |x|);
    assert x == s[..|x|] && y == t[..|y|] && a == s[|x| + 1..] && b == t[|y| + 1..];
  }

  lemma LastPart(l: string, h: string, m: string, g: string)
    requires l + h == m + g && |h| == |g|
    ensures l == m && h == g
  {
    assert l == (l + h)[..|l|] && m == (m + g)[..|m|] && h == (l + h)[|l|..] && g == (m + g)[|m|..];
  }

  lemma PieceParts(x: string, k: Key, h: string)
    ensures x + Piece(k, false, h) == (x + ":" + Spell(k)) + ":" + h
  {
    hide Spell;
  }

  lemma LastPiece(x: string, j: Key, h: string, y: string, k: Key, g: string)
    requires x + Piece(j, false, h) == y + Piece(k, false, g)
    requires PlainKey(j) && PlainKey(k) && |h| == |g| == 28
    ensures x == y && j == k && h == g
  {
    PlainSpelling(j);
    PlainSpelling(k);
    hide Spell, KeyOf, PlainKey, Piece;
    PieceParts(x, j, h);
    PieceParts(y, k, g);
    var l, m := x + ":" + Spell(j), y + ":" + Spell(k);
    LastPart(l + ":", h, m + ":", g);
    LastPart(l, ":", m, ":");
    LastColon(x, Spell(j), y, Spell(k));
  }

  // ----- the contents that a list of children shows

  /** The lean map of a list of children. */
  ghost function Shown(s: seq<Kid>): map<Key, Val> {
    if s == [] then map[]
    else
      var e := s[|s| - 1];
      if e.node.Null? then Shown(s[..|s| - 1]) else Shown(s[..|s| - 1])[e.key := Lean(Strip(e.node))]
  }

  lemma {:induction false} ShownKeys(s: seq<Kid>, k: Key)
    ensures k in Shown(s) ==> exists i :: 0 <= i < |s| && s[i].key == k && !s[i].node.Null?
  {
    hide Strip, Lean;
    if s != [] && k in Shown(s) {
      var e, up := s[|s| - 1], s[..|s| - 1];
      if k in Shown(up) {
        ShownKeys(up, k);
        var i :| 0 <= i < |up| && up[i].key == k && !up[i].node.Null?;
        assert s[i] == up[i];
      } else {
        assert s[|s| - 1].key == k;
      }
    }
  }

  lemma {:induction false} ShownAt(s: seq<Kid>, i: nat)
    requires Sorted(KidCmp, s) && i < |s|
    ensures s[i].node.Null? ==> s[i].key !in Shown(s)
    ensures !s[i].node.Null? ==> s[i].key in Shown(s) && Shown(s)[s[i].key] == Lean(Strip(s[i].node))
  {
    hide Strip, Lean, KeyOrd;
    if i < |s| - 1 {
      ShownAt(s[..|s| - 1], i);
      assert KidCmp(s[i], s[|s| - 1]) < 0;
      KeyOrdAntisymmetric(s[i].key, s[|s| - 1].key);
    } else {
      LastNew(s);
    }
  }

  lemma LastNew(s: seq<Kid>)
    requires Sorted(KidCmp, s) && s != []
    ensures s[|s| - 1].key !in Shown(s[..|s| - 1])
  {
    hide Strip, Lean, KeyOrd;
    var e, up := s[|s| - 1], s[..|s| - 1];
    ShownKeys(up, e.key);
    forall i | 0 <= i < |up| ensures up[i].key != e.key {
      assert KidCmp(s[i], s[|s| - 1]) < 0;
      KeyOrdAntisymmetric(s[i].key, e.key);
    }
  }

  /** Children in order show the lean map of their node. */
  lemma ShownIsLean(t: Tree<Kid>)
    requires KidsOk(t)
    ensures Lean(VMap(StripIn(t))) == VMap(Shown(InOrder(t)))
  {
    hide Strip, StripIn, Lookup, Exact;
    var s, m := InOrder(t), StripIn(t);
    var l := Lean(VMap(m)).m;
    forall k
      ensures k in l <==> k in Shown(s)
      ensures k in l ==> l[k] == Shown(s)[k]
    {
      StripInAt(t, k);
      ShownKeys(s, k);
      if Lookup(s, k).Some? {
        var i := LookupIndex(s, k);
        ShownAt(s, i);
        NullStrip(s[i].node);
      }
      if k in Shown(s) {
        var i :| 0 <= i < |s| && s[i].key == k && !s[i].node.Null?;
        LookupAt(s, i);
      }
    }
  }

  lemma NullStrip(n: Node)
    ensures Strip(n).VNull? <==> n.Null?
  {
  }

  // ----- equal texts show equal contents

  ghost predicate PlainKids(s: seq<Kid>) {
    forall i :: 0 <= i < |s| && !s[i].node.Null? ==> PlainKey(s[i].key)
  }

  ghost predicate LongHashes(sha: Sha, s: seq<Kid>) {
    forall i :: 0 <= i < |s| ==> |FreshHash(sha, s[i].node)| == 28
  }

  /** Where hashes separate the children pairwise. */
  ghost predicate PairsAgree(sha: Sha, s: seq<Kid>, u: seq<Kid>) {
    forall i, j :: 0 <= i < |s| && 0 <= j < |u| && !s[i].node.Null? && !u[j].node.Null? ==>
      (FreshHash(sha, s[i].node) == FreshHash(sha, u[j].node) <==> Lean(Strip(s[i].node)) == Lean(Strip(u[j].node)))
  }

  lemma {:induction false} EqualTexts(sha: Sha, s: seq<Kid>, u: seq<Kid>)
    requires PlainKids(s) && PlainKids(u) && LongHashes(sha, s) && LongHashes(sha, u) && PairsAgree(sha, s, u)
    requires FreshSeq(sha, s) == FreshSeq(sha, u)
    ensures Shown(s) == Shown(u)
    decreases |s| + |u|
  {
    hide FreshHash, Piece, Lean, Strip, PlainKey;
    if s != [] && s[|s| - 1].node.Null? {
      SkipLast(sha, s);
      EqualTexts(sha, s[..|s| - 1], u);
    } else if u != [] && u[|u| - 1].node.Null? {
      SkipLast(sha, u);
      EqualTexts(sha, s, u[..|u| - 1]);
    } else if s == [] || u == [] {
      TextEmpty(sha, s);
      TextEmpty(sha, u);
    } else {
      var d, e := s[|s| - 1], u[|u| - 1];
      var s', u' := s[..|s| - 1], u[..|u| - 1];
      LastPiece(FreshSeq(sha, s'), d.key, FreshHash(sha, d.node), FreshSeq(sha, u'), e.key, FreshHash(sha, e.node));
      EqualTexts(sha, s', u');
    }
  }

  lemma SkipLast(sha: Sha, s: seq<Kid>)
    requires s != [] && s[|s| - 1].node.Null?
    ensures FreshSeq(sha, s) == FreshSeq(sha, s[..|s| - 1]) && Shown(s) == Shown(s[..|s| - 1])
  {
    assert FreshSeq(sha, s[..|s| - 1]) + "" == FreshSeq(sha, s[..|s| - 1]);
  }

  lemma TextEmpty(sha: Sha, s: seq<Kid>)
    requires s == [] || !s[|s| - 1].node.Null?
    ensures FreshSeq(sha, s) == "" <==> s == []
  {
    hide Spell;
  }

  // ----- equal contents have equal texts

  lemma {:induction false} EqualShown(sha: Sha, s: seq<Kid>, u: seq<Kid>)
    requires Sorted(KidCmp, s) && Sorted(KidCmp, u) && PairsAgree(sha, s, u) && Shown(s) == Shown(u)
    ensures FreshSeq(sha, s) == FreshSeq(sha, u)
    decreases |s| + |u|
  {
    hide FreshHash, Piece, Lean, Strip, KeyOrd;
    if s != [] && s[|s| - 1].node.Null? {
      SkipLast(sha, s);
      EqualShown(sha, s[..|s| - 1], u);
    } else if u != [] && u[|u| - 1].node.Null? {
      SkipLast(sha, u);
      EqualShown(sha, s, u[..|u| - 1]);
    } else if s != [] && u != [] {
      var d, e := s[|s| - 1], u[|u| - 1];
      SameLast(s, u);
      LastNew(s);
      LastNew(u);
      ShownTail(s, u);
      EqualShown(sha, s[..|s| - 1], u[..|u| - 1]);
    } else {
      NothingShown(s);
      NothingShown(u);
    }
  }

  lemma NothingShown(s: seq<Kid>)
    requires s == [] || !s[|s| - 1].node.Null?
    ensures Shown(s) == map[] <==> s == []
  {
    hide Lean, Strip;
    assert s != [] ==> s[|s| - 1].key in Shown(s);
  }

  lemma NotAfterLast(s: seq<Kid>, i: nat)
    requires Sorted(KidCmp, s) && i < |s|
    ensures KeyOrd(s[i].key, s[|s| - 1].key) <= 0
  {
    hide KeyOrd;
    KeyOrdAntisymmetric(s[i].key, s[i].key);
    assert i < |s| - 1 ==> KidCmp(s[i], s[|s| - 1]) < 0;
  }

  /** The greatest shown key is the last one of both lists. */
  lemma SameLast(s: seq<Kid>, u: seq<Kid>)
    requires Sorted(KidCmp, s) && Sorted(KidCmp, u) && Shown(s) == Shown(u) && s != [] && u != []
    requires !s[|s| - 1].node.Null? && !u[|u| - 1].node.Null?
    ensures s[|s| - 1].key == u[|u| - 1].key
    ensures Lean(Strip(s[|s| - 1].node)) == Lean(Strip(u[|u| - 1].node))
  {
    hide Lean, Strip, KeyOrd, Shown;
    var d, e := s[|s| - 1], u[|u| - 1];
    ShownAt(s, |s| - 1);
    ShownAt(u, |u| - 1);
    ShownKeys(s, e.key);
    ShownKeys(u, d.key);
    var i :| 0 <= i < |s| && s[i].key == e.key;
    var j :| 0 <= j < |u| && u[j].key == d.key;
    KeyOrdAntisymmetric(e.key, d.key);
    NotAfterLast(s, i);
    NotAfterLast(u, j);
  }

  lemma ShownTail(s: seq<Kid>, u: seq<Kid>)
    requires s != [] && u != [] && !s[|s| - 1].node.Null? && !u[|u| - 1].node.Null?
    requires Shown(s) == Shown(u) && s[|s| - 1].key == u[|u| - 1].key
    requires s[|s| - 1].key !in Shown(s[..|s| - 1]) && u[|u| - 1].key !in Shown(u[..|u| - 1])
    ensures Shown(s[..|s| - 1]) == Shown(u[..|u| - 1])
  {
    hide Lean, Strip;
    var k := s[|s| - 1].key;
    assert Shown(s) - {k} == Shown(s[..|s| - 1]);
    assert Shown(u) - {k} == Shown(u[..|u| - 1]);
  }

  // ----- the two directions together

  lemma HashLong(sha: Sha, n: Node)
    requires Distinguishes(sha, Texts(sha, n))
    ensures |FreshHash(sha, n)| == 28
  {
    hide FreshIn, TextsIn;
  }

  /** The digests of texts of different kinds differ, and so do the fixed hashes. */
  lemma KindsDiffer(sha: Sha, a: Node, b: Node)
    requires Distinguishes(sha, Texts(sha, a) + Texts(sha, b)) && FreshHash(sha, a) == FreshHash(sha, b)
    ensures a.Null? == b.Null? && a.Bool? == b.Bool? && a.Num? == b.Num? && a.Str? == b.Str?
    ensures a.Bool? ==> a.b == b.b
    ensures a.Num? ==> a.hex == b.hex
    ensures a.Str? ==> a.s == b.s
    ensures a.Internal? ==> FreshIn(sha, a.kids) == FreshIn(sha, b.kids)
  {
    FixedDiffer();
    hide NoHash, BoolHash, TextsIn;
    if a.Internal? {
      InternalText(sha, a.kids);
    }
    if b.Internal? {
      InternalText(sha, b.kids);
    }
    hide FreshIn;
    LeafTexts();
  }

  lemma FixedDiffer()
    ensures NoHash() != BoolHash(true) && NoHash() != BoolHash(false) && BoolHash(true) != BoolHash(false)
  {
    assert NoHash()[0] == 0 as char && BoolHash(true)[0] == 'E' && BoolHash(false)[0] == 'a';
  }

  lemma LeafTexts()
    ensures forall h: string, s: string :: "number:" + h != "string:" + s
    ensures forall h: string, g: string :: "number:" + h == "number:" + g ==> h == g
    ensures forall h: string, g: string :: "string:" + h == "string:" + g ==> h == g
  {
    forall h: string, s: string ensures "number:" + h != "string:" + s {
      assert ("number:" + h)[0] == 'n' && ("string:" + s)[0] == 's';
    }
    forall h: string, g: string | "number:" + h == "number:" + g ensures h == g {
      assert h == ("number:" + h)[7..] && g == ("number:" + g)[7..];
    }
    forall h: string, g: string | "string:" + h == "string:" + g ensures h == g {
      assert h == ("string:" + h)[7..] && g == ("string:" + g)[7..];
    }
  }

  /** The text of a container is empty or begins with a colon. */
  lemma {:induction false} InternalText(sha: Sha, t: Tree<Kid>)
    ensures FreshIn(sha, t) == "" || FreshIn(sha, t)[0] == ':'
    ensures forall h: string :: FreshIn(sha, t) != "number:" + h && FreshIn(sha, t) != "string:" + h
  {
    hide FreshHash, Spell;
    if t.Node? {
      InternalText(sha, t.left);
      InternalText(sha, t.right);
      assert FreshIn(sha, t) != "" ==> FreshIn(sha, t)[0] == ':';
    }
    forall h: string ensures FreshIn(sha, t) != "number:" + h && FreshIn(sha, t) != "string:" + h {
      assert ("number:" + h)[0] == 'n' && ("string:" + h)[0] == 's';
    }
  }

  /** Two nodes have the same hash if and only if they hold the same values, null children aside. */
  lemma {:induction false} HashSeparates(sha: Sha, a: Node, b: Node)
    requires ValidNode(a) && ValidNode(b) && Plain(Strip(a)) && Plain(Strip(b))
    requires Distinguishes(sha, Texts(sha, a) + Texts(sha, b))
    ensures FreshHash(sha, a) == FreshHash(sha, b) <==> Lean(Strip(a)) == Lean(Strip(b))
    decreases Size(a), 1
  {
    if a.Internal? && b.Internal? {
      KidsSeparate(sha, a, b);
    } else if FreshHash(sha, a) == FreshHash(sha, b) {
      hide Distinguishes, Texts, NoHash, BoolHash;
      KindsDiffer(sha, a, b);
    } else {
      hide Distinguishes, Texts, NoHash, BoolHash, StripIn, FreshIn;
    }
  }

  lemma {:induction false} KidsSeparate(sha: Sha, a: Node, b: Node)
    requires a.Internal? && b.Internal?
    requires ValidNode(a) && ValidNode(b) && Plain(Strip(a)) && Plain(Strip(b))
    requires Distinguishes(sha, Texts(sha, a) + Texts(sha, b))
    ensures FreshHash(sha, a) == FreshHash(sha, b) <==> Lean(Strip(a)) == Lean(Strip(b))
    decreases Size(a), 0
  {
    var s, u := InOrder(a.kids), InOrder(b.kids);
    assert Size(a) > SizeIn(a.kids);
    hide Plain, StripIn, Strip, Lean, Texts, Distinguishes, FreshHash, ValidNode, InOrder, Size;
    KidsReady(sha, a, Texts(sha, a) + Texts(sha, b));
    KidsReady(sha, b, Texts(sha, a) + Texts(sha, b));
    forall i, j | 0 <= i < |s| && 0 <= j < |u| && !s[i].node.Null? && !u[j].node.Null?
      ensures FreshHash(sha, s[i].node) == FreshHash(sha, u[j].node) <==>
              Lean(Strip(s[i].node)) == Lean(Strip(u[j].node))
    {
      SizeKid(a.kids, i);
      Narrower(sha, Texts(sha, a) + Texts(sha, b), Texts(sha, s[i].node) + Texts(sha, u[j].node));
      HashSeparates(sha, s[i].node, u[j].node);
    }
    FromKids(sha, a, b);
  }

  lemma Narrower(sha: Sha, wide: set<string>, texts: set<string>)
    requires Distinguishes(sha, wide) && texts <= wide
    ensures Distinguishes(sha, texts)
  {
    hide NoHash, BoolHash;
  }

  /** What the children of a node inherit. */
  lemma KidsReady(sha: Sha, n: Node, texts: set<string>)
    requires n.Internal? && ValidNode(n) && Plain(Strip(n)) && Distinguishes(sha, texts) && Texts(sha, n) <= texts
    ensures Sorted(KidCmp, InOrder(n.kids))
    ensures PlainKids(InOrder(n.kids)) && LongHashes(sha, InOrder(n.kids))
    ensures forall i :: 0 <= i < |InOrder(n.kids)| ==>
              var c := InOrder(n.kids)[i].node;
              ValidNode(c) && Texts(sha, c) <= texts && (!c.Null? ==> Plain(Strip(c)))
  {
    var s := InOrder(n.kids);
    ValidInAll(n.kids);
    assert Strip(n) == VMap(StripIn(n.kids)) && TextsIn(sha, n.kids) <= Texts(sha, n);
    hide StripIn, Strip, Texts, Distinguishes, FreshHash, InOrder, ValidIn, Exact, Lookup, PlainKey;
    forall i | 0 <= i < |s|
      ensures Texts(sha, s[i].node) <= texts && |FreshHash(sha, s[i].node)| == 28
      ensures !s[i].node.Null? ==> Plain(Strip(s[i].node)) && PlainKey(s[i].key)
    {
      TextsOfKid(sha, n.kids, i);
      Narrower(sha, texts, Texts(sha, s[i].node));
      HashLong(sha, s[i].node);
      LookupAt(s, i);
      StripInAt(n.kids, s[i].key);
      NullStrip(s[i].node);
    }
  }

  lemma FromKids(sha: Sha, a: Node, b: Node)
    requires a.Internal? && b.Internal? && ValidNode(a) && ValidNode(b)
    requires Distinguishes(sha, Texts(sha, a) + Texts(sha, b))
    requires var (s, u) := (InOrder(a.kids), InOrder(b.kids));
             && Sorted(KidCmp, s) && Sorted(KidCmp, u) && PlainKids(s) && PlainKids(u)
             && LongHashes(sha, s) && LongHashes(sha, u) && PairsAgree(sha, s, u)
    ensures FreshHash(sha, a) == FreshHash(sha, b) <==> Lean(Strip(a)) == Lean(Strip(b))
  {
    var s, u := InOrder(a.kids), InOrder(b.kids);
    assert FreshIn(sha, a.kids) in Texts(sha, a) && FreshIn(sha, b.kids) in Texts(sha, b);
    assert KidsOk(a.kids) && KidsOk(b.kids);
    hide InOrder, StripIn, Lean, Texts, TextsIn, NoHash, BoolHash, Shown, ValidIn, ValidNode, FreshIn, FreshSeq, Exact;
    hide PlainKids, LongHashes, PairsAgree, Sorted;
    FreshInIsSeq(sha, a.kids);
    FreshInIsSeq(sha, b.kids);
    ShownIsLean(a.kids);
    ShownIsLean(b.kids);
    if FreshSeq(sha, s) == FreshSeq(sha, u) {
      EqualTexts(sha, s, u);
    }
    if Shown(s) == Shown(u) {
      EqualShown(sha, s, u);
    }
  }
}
