/** The hashes of the data cache (lib/datasync/cache/treenode.c): computed on demand, stored in the
    nodes, and dropped along a path by every write. `sha` is the composition of SHA-1 and base 64;
    nothing about it is assumed. */
module Merkle {
  import opened Keys
  import opened Paths
  import opened AvlTree
  import opened Kids
  import opened CacheTree

  type Sha = string -> string

  /** The all-zero hash, which stands for "no value". */
  function NoHash(): string {
    seq(28, _ => 0 as char)
  }

  function BoolHash(b: bool): string {
    if b then "E5z61QM0lN/U2WsOnusszCTkR8M=" else "aSSNoqcS4oQwJ2xxH20rvpp3zP0="
  }

  // ----- the hash from scratch

  ghost function FreshHash(sha: Sha, n: Node): string {
    match n
    case Null => NoHash()
    case Bool(b) => BoolHash(b)
    case Num(h, _) => sha("number:" + h)
    case Str(s, _) => sha("string:" + s)
    case Internal(kids, _) => sha(FreshIn(sha, kids))
  }

  ghost function FreshIn(sha: Sha, t: Tree<Kid>): string {
    if t.Leaf? then ""
    else FreshIn(sha, t.left) + Piece(t.data.key, t.data.node.Null?, FreshHash(sha, t.data.node))
         + FreshIn(sha, t.right)
  }

  /** What a child contributes to its parent's digest; null children are skipped. */
  function Piece(k: Key, isNull: bool, hash: string): string {
    if isNull then "" else ":" + Spell(k) + ":" + hash
  }

  // ----- treenode_hash_get: memoising

  /** The node after the call (memos filled in), and the hash it returned. */
  function HashGet(sha: Sha, n: Node): (Node, string) {
    match n
    case Null => (n, NoHash())
    case Bool(b) => (n, BoolHash(b))
    case Num(h, memo) => if memo.Some? then (n, memo.value) else (Num(h, Some(sha("number:" + h))), sha("number:" + h))
    case Str(s, memo) => if memo.Some? then (n, memo.value) else (Str(s, Some(sha("string:" + s))), sha("string:" + s))
    case Internal(kids, memo) =>
      if memo.Some? then (n, memo.value)
      else
        var (kids', text) := HashIn(sha, kids);
        (Internal(kids', Some(sha(text))), sha(text))
  }

  function HashIn(sha: Sha, t: Tree<Kid>): (Tree<Kid>, string) {
    if t.Leaf? then (Leaf, "")
    else
      var (l, a) := HashIn(sha, t.left);
      var (n, h) := HashGet(sha, t.data.node);
      var (r, c) := HashIn(sha, t.right);
      (Node(l, Kid(t.data.key, n), r, t.height), a + Piece(t.data.key, t.data.node.Null?, h) + c)
  }

  /** Every stored hash is the hash from scratch of its own subtree. */
  ghost predicate Coherent(sha: Sha, n: Node) {
    match n
    case Num(_, memo) => memo.Some? ==> memo.value == FreshHash(sha, n)
    case Str(_, memo) => memo.Some? ==> memo.value == FreshHash(sha, n)
    case Internal(kids, memo) => CoherentIn(sha, kids) && (memo.Some? ==> memo.value == FreshHash(sha, n))
    case _ => true
  }

  ghost predicate CoherentIn(sha: Sha, t: Tree<Kid>) {
    t.Node? ==> CoherentIn(sha, t.left) && Coherent(sha, t.data.node) && CoherentIn(sha, t.right)
  }

  // ----- memos are invisible

  /** The node without its memos. */
  ghost function Erase(n: Node): Node {
    match n
    case Num(h, _) => Num(h, None)
    case Str(s, _) => Str(s, None)
    case Internal(kids, _) => Internal(EraseIn(kids), None)
    case _ => n
  }

  ghost function EraseIn(t: Tree<Kid>): Tree<Kid> {
    if t.Leaf? then Leaf
    else Node(EraseIn(t.left), Kid(t.data.key, Erase(t.data.node)), EraseIn(t.right), t.height)
  }

  lemma {:induction false} EraseHash(sha: Sha, n: Node)
    ensures FreshHash(sha, Erase(n)) == FreshHash(sha, n) && Strip(Erase(n)) == Strip(n)
    ensures Erase(n).Null? <==> n.Null?
  {
    if n.Internal? {
      EraseHashIn(sha, n.kids);
    }
  }

  lemma {:induction false} EraseHashIn(sha: Sha, t: Tree<Kid>)
    ensures FreshIn(sha, EraseIn(t)) == FreshIn(sha, t) && StripIn(EraseIn(t)) == StripIn(t)
  {
    if t.Node? {
      EraseHashIn(sha, t.left);
      EraseHash(sha, t.data.node);
      EraseHashIn(sha, t.right);
    }
  }

  lemma {:induction false} EraseKeys(t: Tree<Kid>)
    ensures |InOrder(EraseIn(t))| == |InOrder(t)|
    ensures forall i :: 0 <= i < |InOrder(t)| ==> InOrder(EraseIn(t))[i].key == InOrder(t)[i].key
    ensures Exact(EraseIn(t)) <==> Exact(t)
    ensures Ht(EraseIn(t)) == Ht(t)
  {
    if t.Node? {
      EraseKeys(t.left);
      EraseKeys(t.right);
    }
  }

  lemma {:induction false} EraseValid(n: Node)
    ensures ValidNode(Erase(n)) <==> ValidNode(n)
  {
    if n.Internal? {
      EraseKeys(n.kids);
      EraseValidIn(n.kids);
    }
  }

  lemma {:induction false} EraseValidIn(t: Tree<Kid>)
    ensures ValidIn(EraseIn(t)) <==> ValidIn(t)
  {
    if t.Node? {
      EraseValidIn(t.left);
      EraseValid(t.data.node);
      EraseValidIn(t.right);
    }
  }

  /** Two nodes that differ in memos only. */
  lemma SameErased(sha: Sha, n: Node, m: Node)
    requires Erase(n) == Erase(m)
    ensures FreshHash(sha, n) == FreshHash(sha, m) && Strip(n) == Strip(m) && (ValidNode(n) <==> ValidNode(m))
  {
    EraseHash(sha, n);
    EraseHash(sha, m);
    EraseValid(n);
    EraseValid(m);
  }

  // ----- reading a hash

  lemma {:induction false} HashGetSpec(sha: Sha, n: Node)
    requires Coherent(sha, n)
    ensures HashGet(sha, n).1 == FreshHash(sha, n)
    ensures Coherent(sha, HashGet(sha, n).0) && Erase(HashGet(sha, n).0) == Erase(n)
  {
    if n.Internal? && n.memo.None? {
      HashInSpec(sha, n.kids);
      SameErased(sha, HashGet(sha, n).0, n);
    }
  }

  lemma {:induction false} HashInSpec(sha: Sha, t: Tree<Kid>)
    requires CoherentIn(sha, t)
    ensures HashIn(sha, t).1 == FreshIn(sha, t)
    ensures CoherentIn(sha, HashIn(sha, t).0) && EraseIn(HashIn(sha, t).0) == EraseIn(t)
  {
    if t.Node? {
      HashInSpec(sha, t.left);
      HashGetSpec(sha, t.data.node);
      HashInSpec(sha, t.right);
    }
  }

  /** `treenode_hash_get` on the node at a path, found through pointers. */
  function HashAt(sha: Sha, n: Node, p: Path): Node
    decreases p
  {
    if p == [] then HashGet(sha, n).0
    else if n.Internal? && KGet(n.kids, p[0]).Some? then
      Internal(KSet(n.kids, p[0], HashAt(sha, KGet(n.kids, p[0]).value, p[1..])), n.memo)
    else n
  }

  lemma {:induction false} CoherentInAll(sha: Sha, t: Tree<Kid>, good: Node -> bool)
    requires forall n :: good(n) <==> Coherent(sha, n)
    ensures CoherentIn(sha, t) <==> AllKids(InOrder(t), good)
  {
    hide Coherent;
    if t.Node? {
      CoherentInAll(sha, t.left, good);
      CoherentInAll(sha, t.right, good);
      AllKidsParts(InOrder(t.left), t.data, InOrder(t.right), good);
    }
  }

  lemma CoherentChild(sha: Sha, t: Tree<Kid>, k: Key)
    requires CoherentIn(sha, t) && ChildAt(t, k).Some?
    ensures Coherent(sha, ChildAt(t, k).value)
  {
    hide CoherentIn, AllKids, Coherent;
    var good := n => Coherent(sha, n);
    CoherentInAll(sha, t, good);
    AllKidsAt(InOrder(t), good, k);
  }

  lemma CoherentFromAt(sha: Sha, t: Tree<Kid>)
    requires KidsOk(t)
    requires forall k :: ChildAt(t, k).Some? ==> Coherent(sha, ChildAt(t, k).value)
    ensures CoherentIn(sha, t)
  {
    hide CoherentIn, AllKids, Coherent;
    var good := n => Coherent(sha, n);
    CoherentInAll(sha, t, good);
    forall k | Lookup(InOrder(t), k).Some? ensures good(Lookup(InOrder(t), k).value) {
      assert ChildAt(t, k).Some?;
    }
    AllKidsFrom(InOrder(t), good);
  }

  /** Rewriting one child with a coherent node keeps a container coherent. */
  lemma CoherentAfter(sha: Sha, t: Tree<Kid>, u: Tree<Kid>, k: Key)
    requires CoherentIn(sha, t) && KidsOk(u)
    requires forall k' :: k' != k ==> ChildAt(u, k') == ChildAt(t, k')
    requires ChildAt(u, k).Some? ==> Coherent(sha, ChildAt(u, k).value)
    ensures CoherentIn(sha, u)
  {
    hide CoherentIn, Coherent, ChildAt, KidsOk;
    forall k' | ChildAt(u, k').Some? ensures Coherent(sha, ChildAt(u, k').value) {
      if k' != k {
        CoherentChild(sha, t, k');
      }
    }
    CoherentFromAt(sha, u);
  }

  lemma KSetErased(t: Tree<Kid>, k: Key, n: Node)
    requires KidsOk(t) && ChildAt(t, k).Some? && Erase(n) == Erase(ChildAt(t, k).value)
    ensures EraseIn(KSet(t, k, n)) == EraseIn(t)
    decreases t
  {
    hide Erase, Lookup, Comparator, Sorted, Has;
    KGetSpec(t, k);
    KSetErasedGet(t, k, n);
  }

  lemma {:induction false} KSetErasedGet(t: Tree<Kid>, k: Key, n: Node)
    requires KGet(t, k).Some? && Erase(n) == Erase(KGet(t, k).value)
    ensures EraseIn(KSet(t, k, n)) == EraseIn(t)
    decreases t
  {
    hide Erase;
    if KeyOrd(k, t.data.key) < 0 {
      KSetErasedGet(t.left, k, n);
    } else if KeyOrd(k, t.data.key) > 0 {
      KSetErasedGet(t.right, k, n);
    }
  }

  lemma {:induction false} HashAtSpec(sha: Sha, n: Node, p: Path)
    requires ValidNode(n) && Coherent(sha, n)
    ensures ValidNode(HashAt(sha, n, p)) && Coherent(sha, HashAt(sha, n, p)) && Erase(HashAt(sha, n, p)) == Erase(n)
    decreases p
  {
    if p == [] {
      HashGetSpec(sha, n);
    } else if n.Internal? && KGet(n.kids, p[0]).Some? {
      var t, k := n.kids, p[0];
      KGetSpec(t, k);
      ValidChild(t, k);
      CoherentChild(sha, t, k);
      var c := KGet(t, k).value;
      HashAtSpec(sha, c, p[1..]);
      var c' := HashAt(sha, c, p[1..]);
      KSetErased(t, k, c');
      KSetSpec(t, k, c');
      CoherentAfter(sha, t, KSet(t, k, c'), k);
      SameErased(sha, Internal(KSet(t, k, c'), n.memo), n);
    }
    SameErased(sha, HashAt(sha, n, p), n);
  }

  // ----- writing

  /** New nodes carry no memo. */
  lemma {:induction false} BuildCoherent(sha: Sha, j: Json)
    requires WellFormed(j)
    ensures Coherent(sha, Build(j))
  {
    match j {
      case JArr(es) => BuildArrCoherent(sha, es, |es|);
      case JObj(ms) => BuildObjCoherent(sha, ms, |ms|);
      case _ =>
    }
  }

  lemma {:induction false} BuildArrCoherent(sha: Sha, es: seq<Json>, n: nat)
    requires n <= |es| && forall i :: 0 <= i < |es| ==> WellFormed(es[i])
    ensures CoherentIn(sha, BuildArr(es, n))
    decreases es, n
  {
    hide Coherent, ChildAt, KidsOk, AddBuilt;
    if n > 0 {
      BuildArrCoherent(sha, es, n - 1);
      BuildCoherent(sha, es[n - 1]);
      BuildArrSpec(es, n - 1);
      BuildSpec(es[n - 1]);
      StripInAt(BuildArr(es, n - 1), Index(n - 1));
      AddBuiltCoherent(sha, BuildArr(es, n - 1), Index(n - 1), Build(es[n - 1]));
    }
  }

  lemma {:induction false} BuildObjCoherent(sha: Sha, ms: seq<Member>, n: nat)
    requires n <= |ms| && Distinct(ms) && forall i :: 0 <= i < |ms| ==> WellFormed(ms[i].value)
    ensures CoherentIn(sha, BuildObj(ms, n))
    decreases ms, n
  {
    hide Coherent, ChildAt, KidsOk, AddBuilt;
    if n > 0 {
      BuildObjCoherent(sha, ms, n - 1);
      var e := ms[n - 1];
      assert e in ms && e.value < e;
      BuildCoherent(sha, e.value);
      BuildObjSpec(ms, n - 1);
      BuildSpec(e.value);
      StripInAt(BuildObj(ms, n - 1), e.key);
      AddBuiltCoherent(sha, BuildObj(ms, n - 1), e.key, Build(e.value));
    }
  }

  lemma AddBuiltCoherent(sha: Sha, t: Tree<Kid>, k: Key, n: Node)
    requires KidsOk(t) && ValidIn(t) && CoherentIn(sha, t) && ChildAt(t, k).None?
    requires ValidNode(n) && Coherent(sha, n)
    ensures CoherentIn(sha, AddBuilt(t, k, n))
  {
    AddBuiltSpec(t, k, n);
    KDelSpec(t, k);
    KAddSpec(t, k, n);
    CoherentAfter(sha, t, AddBuilt(t, k, n), k);
  }

  lemma BaseCoherent(sha: Sha, t: Tree<Kid>, k: Key)
    requires KidsOk(t) && CoherentIn(sha, t)
    ensures Coherent(sha, Base(t, k))
  {
    KGetSpec(t, k);
    if ChildAt(t, k).Some? {
      CoherentChild(sha, t, k);
    }
  }

  lemma KidsOfCoherent(sha: Sha, n: Node)
    requires Coherent(sha, n)
    ensures CoherentIn(sha, KidsOf(n))
  {
  }

  lemma {:induction false} MkPathCoherent(sha: Sha, n: Node, p: Path)
    requires ValidNode(n) && Coherent(sha, n)
    ensures Coherent(sha, MkPath(n, p))
    decreases p
  {
    var t := KidsOf(n);
    KidsOfValid(n);
    KidsOfCoherent(sha, n);
    if p != [] {
      BaseValid(t, p[0]);
      BaseCoherent(sha, t, p[0]);
      var b := Base(t, p[0]);
      MkPathCoherent(sha, b, p[1..]);
      MkPathValid(b, p[1..]);
      AttachSpec(t, p[0], MkPath(b, p[1..]));
      CoherentAfter(sha, t, Attach(t, p[0], MkPath(b, p[1..])), p[0]);
    }
  }

  /** After `MkPath` has dropped the memos along the path, the edit below it leaves no stale one. */
  lemma {:induction false} EditCoherent(sha: Sha, n: Node, up: Path, k: Key, x: Node, keepNull: bool)
    requires ValidNode(n) && Coherent(sha, n) && ValidNode(x) && Coherent(sha, x)
    ensures ValidNode(MkPath(n, up)) && Coherent(sha, Edit(MkPath(n, up), up, k, x, keepNull))
    decreases up
  {
    hide MkPath, Edit, Coherent, ValidNode, KidsOk, CoherentIn, ValidIn, Base;
    MkPathValid(n, up);
    KidsOfValid(n);
    KidsOfCoherent(sha, n);
    if up == [] {
      EditCoherentHere(sha, n, k, x, keepNull);
    } else {
      BaseValid(KidsOf(n), up[0]);
      BaseCoherent(sha, KidsOf(n), up[0]);
      EditCoherent(sha, Base(KidsOf(n), up[0]), up[1..], k, x, keepNull);
      EditCoherentLevel(sha, n, up, k, x, keepNull);
    }
  }

  lemma EditCoherentHere(sha: Sha, n: Node, k: Key, x: Node, keepNull: bool)
    requires ValidNode(n) && Coherent(sha, n) && ValidNode(x) && Coherent(sha, x)
    ensures ValidNode(MkPath(n, [])) && Coherent(sha, Edit(MkPath(n, []), [], k, x, keepNull))
  {
    hide Replace, ValidIn, Exact, Sorted, StripIn, Lookup, ChildAt;
    var t := KidsOf(n);
    KidsOfValid(n);
    KidsOfCoherent(sha, n);
    MkPathValid(n, []);
    ReplaceSpec(t, k, x, keepNull);
    CoherentAfter(sha, t, Replace(t, k, x, keepNull), k);
  }

  lemma EditCoherentLevel(sha: Sha, n: Node, up: Path, k: Key, x: Node, keepNull: bool)
    requires ValidNode(n) && ValidNode(x) && up != [] && ValidNode(MkPath(n, up))
    requires CoherentIn(sha, KidsOf(n)) && ValidNode(Base(KidsOf(n), up[0]))
    requires var m := MkPath(Base(KidsOf(n), up[0]), up[1..]);
             ValidNode(m) && Coherent(sha, Edit(m, up[1..], k, x, keepNull))
    ensures Coherent(sha, Edit(MkPath(n, up), up, k, x, keepNull))
  {
    hide MkPath, Edit, Attach, KSet, Base, Exact, Sorted, ValidIn, StripIn, Lookup, ChildAt, CoherentIn;
    var t, k0, rest := KidsOf(n), up[0], up[1..];
    KidsOfValid(n);
    EditUnfold(n, up, k, x, keepNull);
    EditMkPath(Base(t, k0), rest, k, x, keepNull);
    var m := MkPath(Base(t, k0), rest);
    var e := Edit(m, rest, k, x, keepNull);
    AttachSpec(t, k0, m);
    KSetSpec(Attach(t, k0, m), k0, e);
    CoherentAfter(sha, t, KSet(Attach(t, k0, m), k0, e), k0);
  }

  lemma SetAtCoherent(sha: Sha, n: Node, p: Path, x: Node, keepNull: bool)
    requires ValidNode(n) && Coherent(sha, n) && ValidNode(x) && Coherent(sha, x)
    ensures Coherent(sha, SetAt(n, p, x, keepNull))
  {
    if p != [] {
      EditCoherent(sha, n, p[..|p| - 1], p[|p| - 1], x, keepNull);
    }
  }

  // ----- the hash depends on the contents only

  ghost function FreshSeq(sha: Sha, s: seq<Kid>): string {
    if s == [] then ""
    else
      var d := s[|s| - 1];
      FreshSeq(sha, s[..|s| - 1]) + Piece(d.key, d.node.Null?, FreshHash(sha, d.node))
  }

  lemma {:induction false} FreshSeqConcat(sha: Sha, a: seq<Kid>, b: seq<Kid>)
    ensures FreshSeq(sha, a + b) == FreshSeq(sha, a) + FreshSeq(sha, b)
  {
    hide FreshHash, Piece;
    if b == [] {
      assert a + b == a;
    } else {
      var c := b[..|b| - 1];
      assert (a + b)[..|a + b| - 1] == a + c;
      FreshSeqConcat(sha, a, c);
    }
  }

  lemma {:induction false} FreshInIsSeq(sha: Sha, t: Tree<Kid>)
    ensures FreshIn(sha, t) == FreshSeq(sha, InOrder(t))
  {
    hide FreshHash, Piece;
    if t.Node? {
      FreshInIsSeq(sha, t.left);
      FreshInIsSeq(sha, t.right);
      var l, d, r := InOrder(t.left), t.data, InOrder(t.right);
      FreshSeqConcat(sha, l + [d], r);
      FreshSeqConcat(sha, l, [d]);
      assert [d][..0] == [];
      assert FreshSeq(sha, [d]) == "" + Piece(d.key, d.node.Null?, FreshHash(sha, d.node));
    }
  }

  lemma {:induction false} FreshSeqEqual(sha: Sha, s: seq<Kid>, u: seq<Kid>)
    requires |s| == |u|
    requires forall i :: 0 <= i < |s| ==>
               s[i].key == u[i].key && (s[i].node.Null? <==> u[i].node.Null?)
               && FreshHash(sha, s[i].node) == FreshHash(sha, u[i].node)
    ensures FreshSeq(sha, s) == FreshSeq(sha, u)
  {
    hide FreshHash, Piece;
    if s != [] {
      FreshSeqEqual(sha, s[..|s| - 1], u[..|u| - 1]);
    }
  }

  ghost function KeysOf(s: seq<Kid>): seq<Key> {
    seq(|s|, i requires 0 <= i < |s| => s[i].key)
  }

  lemma KeyOrdIsComparator()
    ensures Comparator(KeyOrd)
  {
    forall a: Key, b: Key, c: Key {:trigger About(a, b, c)}
      ensures KeyOrd(a, b) < 0 <==> KeyOrd(b, a) > 0
      ensures KeyOrd(a, b) <= 0 && KeyOrd(b, c) <= 0 ==> KeyOrd(a, c) <= 0
    {
      KeyOrdAntisymmetric(a, b);
      if KeyOrd(a, b) <= 0 && KeyOrd(b, c) <= 0 {
        KeyOrdTransitive(a, b, c);
      }
    }
  }

  lemma KeyListed(s: seq<Kid>, k: Key)
    requires Sorted(KidCmp, s)
    ensures k in KeysOf(s) <==> Lookup(s, k).Some?
  {
    if k in KeysOf(s) {
      var i :| 0 <= i < |s| && KeysOf(s)[i] == k;
      LookupAt(s, i);
    }
    if Lookup(s, k).Some? {
      var i := LookupIndex(s, k);
      assert KeysOf(s)[i] == k;
    }
  }

  /** Equal contents are walked in the same key order, whatever the shapes of the two trees. */
  lemma SameKeys(t: Tree<Kid>, u: Tree<Kid>)
    requires KidsOk(t) && KidsOk(u) && StripIn(t).Keys == StripIn(u).Keys
    ensures KeysOf(InOrder(t)) == KeysOf(InOrder(u))
  {
    hide Lookup, StripIn, Comparator;
    KeyOrdIsComparator();
    var a, b := KeysOf(InOrder(t)), KeysOf(InOrder(u));
    assert Sorted(KeyOrd, a) by {
      forall i, j | 0 <= i < j < |a| ensures KeyOrd(a[i], a[j]) < 0 {
        assert KidCmp(InOrder(t)[i], InOrder(t)[j]) < 0;
      }
    }
    assert Sorted(KeyOrd, b) by {
      forall i, j | 0 <= i < j < |b| ensures KeyOrd(b[i], b[j]) < 0 {
        assert KidCmp(InOrder(u)[i], InOrder(u)[j]) < 0;
      }
    }
    forall k ensures k in a <==> k in b {
      KeyListed(InOrder(t), k);
      KeyListed(InOrder(u), k);
      StripInAt(t, k);
      StripInAt(u, k);
      assert k in StripIn(t).Keys <==> k in StripIn(u).Keys;
    }
    SortedUnique(KeyOrd, a, b);
  }

  ghost function Size(n: Node): nat {
    if n.Internal? then 1 + SizeIn(n.kids) else 1
  }

  ghost function SizeIn(t: Tree<Kid>): nat {
    if t.Leaf? then 0 else SizeIn(t.left) + Size(t.data.node) + SizeIn(t.right)
  }

  lemma {:induction false} SizeKid(t: Tree<Kid>, i: nat)
    requires i < |InOrder(t)|
    ensures Size(InOrder(t)[i].node) <= SizeIn(t)
  {
    hide Size;
    var l := InOrder(t.left);
    if i < |l| {
      assert InOrder(t)[i] == l[i];
      SizeKid(t.left, i);
    } else if i > |l| {
      assert InOrder(t)[i] == InOrder(t.right)[i - |l| - 1];
      SizeKid(t.right, i - |l| - 1);
    } else {
      assert InOrder(t)[i] == t.data;
    }
  }

  /** Two valid nodes with the same contents have the same hash. */
  lemma {:induction false} HashOfContents(sha: Sha, a: Node, b: Node)
    requires ValidNode(a) && ValidNode(b) && Strip(a) == Strip(b)
    ensures FreshHash(sha, a) == FreshHash(sha, b)
    decreases Size(a)
  {
    if a.Internal? {
      var s, u := InOrder(a.kids), InOrder(b.kids);
      SameKeys(a.kids, b.kids);
      assert |s| == |KeysOf(s)| == |KeysOf(u)| == |u|;
      forall i | 0 <= i < |s|
        ensures s[i].key == u[i].key && (s[i].node.Null? <==> u[i].node.Null?)
        ensures FreshHash(sha, s[i].node) == FreshHash(sha, u[i].node)
      {
        SameKid(a.kids, b.kids, i);
        SizeKid(a.kids, i);
        HashOfContents(sha, s[i].node, u[i].node);
      }
      FreshSeqEqual(sha, s, u);
      FreshInIsSeq(sha, a.kids);
      FreshInIsSeq(sha, b.kids);
    }
  }

  lemma SameKid(t: Tree<Kid>, u: Tree<Kid>, i: nat)
    requires KidsOk(t) && KidsOk(u) && ValidIn(t) && ValidIn(u) && StripIn(t) == StripIn(u)
    requires KeysOf(InOrder(t)) == KeysOf(InOrder(u)) && i < |InOrder(t)| == |InOrder(u)|
    ensures InOrder(t)[i].key == InOrder(u)[i].key
    ensures Strip(InOrder(t)[i].node) == Strip(InOrder(u)[i].node)
    ensures ValidNode(InOrder(t)[i].node) && ValidNode(InOrder(u)[i].node)
  {
    hide Lookup, StripIn, ValidIn, InOrder;
    var s, v := InOrder(t), InOrder(u);
    assert KeysOf(s)[i] == s[i].key && KeysOf(v)[i] == v[i].key;
    LookupAt(s, i);
    LookupAt(v, i);
    StripInAt(t, s[i].key);
    StripInAt(u, v[i].key);
    ValidInAll(t);
    ValidInAll(u);
  }

  // ----- runs of the cache

  /** A member of a merged object: its name, read as a path below that of the merge, and its value. */
  datatype Update = Update(below: Path, value: Json)

  datatype CacheOp =
    | Put(p: Path, doc: Json)                // data_cache_set_ex
    | PutLeaf(p: Path, leaf: Json)           // data_cache_set_leaf
    | Make(p: Path)                          // data_cache_mkpath
    | Merge(p: Path, updates: seq<Update>)   // data_cache_merge of an object
    | Read(p: Path)                          // treenode_hash_get of the node at p

  predicate Proper(op: CacheOp) {
    match op
    case Put(_, j) => WellFormed(j)
    case PutLeaf(_, j) => !j.JArr? && !j.JObj?
    case Merge(_, ms) => forall i :: 0 <= i < |ms| ==> WellFormed(ms[i].value)
    case _ => true
  }

  function ApplyOp(sha: Sha, n: Node, op: CacheOp): Node
    requires ValidNode(n) && Proper(op)
  {
    match op
    case Put(p, j) => BuildSpec(j); SetAt(n, p, Build(j), false)
    case PutLeaf(p, j) => SetAt(n, p, Build(j), true)
    case Make(p) => MkPath(n, p)
    case Merge(p, ms) => MergeFrom(n, p, ms, |ms|)
    case Read(p) => HashAt(sha, n, p)
  }

  function MergeFrom(n: Node, p: Path, ms: seq<Update>, i: nat): Node
    requires ValidNode(n) && i <= |ms| && forall k :: 0 <= k < |ms| ==> WellFormed(ms[k].value)
    ensures ValidNode(MergeFrom(n, p, ms, i))
    decreases i
  {
    if i == 0 then n
    else
      BuildSpec(ms[i - 1].value);
      SetAtSpec(MergeFrom(n, p, ms, i - 1), p + ms[i - 1].below, Build(ms[i - 1].value), false);
      SetAt(MergeFrom(n, p, ms, i - 1), p + ms[i - 1].below, Build(ms[i - 1].value), false)
  }

  /** The same operations on a plain map of maps; reads do nothing. */
  function ApplyVal(v: Val, op: CacheOp): Val {
    match op
    case Put(p, j) => PutVal(v, p, FromJson(j), false)
    case PutLeaf(p, j) => PutVal(v, p, FromJson(j), true)
    case Make(p) => MakeVal(v, p)
    case Merge(p, ms) => MergeVal(v, p, ms, |ms|)
    case Read(_) => v
  }

  function MakeVal(v: Val, p: Path): Val
    decreases p
  {
    if p == [] then VMap(MapOf(v))
    else VMap(MapOf(v)[p[0] := MakeVal(if p[0] in MapOf(v) then MapOf(v)[p[0]] else VNull, p[1..])])
  }

  function MergeVal(v: Val, p: Path, ms: seq<Update>, i: nat): Val
    requires i <= |ms|
  {
    if i == 0 then v
    else PutVal(MergeVal(v, p, ms, i - 1), p + ms[i - 1].below, FromJson(ms[i - 1].value), false)
  }

  /** Making a path puts maps along it and changes nothing else. */
  lemma {:induction false} MakeGet(v: Val, p: Path, q: Path)
    ensures q <= p ==> GetVal(MakeVal(v, p), q).Some? && GetVal(MakeVal(v, p), q).value.VMap?
    ensures !(q <= p) ==> GetVal(MakeVal(v, p), q) == GetVal(v, q)
    decreases p
  {
    if p != [] && q != [] && p[0] == q[0] {
      assert q[1..] <= p[1..] <==> q <= p by {
        assert p == [p[0]] + p[1..] && q == [q[0]] + q[1..];
      }
      MakeGet(if p[0] in MapOf(v) then MapOf(v)[p[0]] else VNull, p[1..], q[1..]);
    }
  }

  lemma {:induction false} MkPathIsMake(n: Node, p: Path)
    requires ValidNode(n)
    ensures Strip(MkPath(n, p)) == MakeVal(Strip(n), p)
    decreases p
  {
    hide Attach, Base, ValidIn, StripIn, Exact, Sorted, Lookup, ChildAt;
    var t := KidsOf(n);
    KidsOfValid(n);
    if p != [] {
      BaseValid(t, p[0]);
      var b := Base(t, p[0]);
      MkPathIsMake(b, p[1..]);
      MkPathValid(b, p[1..]);
      AttachSpec(t, p[0], MkPath(b, p[1..]));
      MakeValBase(if p[0] in MapOf(Strip(n)) then MapOf(Strip(n))[p[0]] else VNull, p[1..]);
    }
  }

  lemma MakeValBase(v: Val, p: Path)
    ensures MakeVal(VMap(MapOf(v)), p) == MakeVal(v, p)
  {
  }

  lemma {:induction false} MergeIsMerge(sha: Sha, n: Node, p: Path, ms: seq<Update>, i: nat)
    requires ValidNode(n) && Coherent(sha, n) && i <= |ms|
    requires forall k :: 0 <= k < |ms| ==> WellFormed(ms[k].value)
    ensures Strip(MergeFrom(n, p, ms, i)) == MergeVal(Strip(n), p, ms, i)
    ensures Coherent(sha, MergeFrom(n, p, ms, i))
    decreases i
  {
    hide Coherent, ValidNode, Strip, SetAt, PutVal, Build, WellFormed;
    if i > 0 {
      MergeIsMerge(sha, n, p, ms, i - 1);
      var e := ms[i - 1];
      var m := MergeFrom(n, p, ms, i - 1);
      BuildSpec(e.value);
      BuildCoherent(sha, e.value);
      SetAtSpec(m, p + e.below, Build(e.value), false);
      SetAtCoherent(sha, m, p + e.below, Build(e.value), false);
    }
  }

  lemma ApplySpec(sha: Sha, n: Node, op: CacheOp)
    requires ValidNode(n) && Coherent(sha, n) && Proper(op)
    ensures ValidNode(ApplyOp(sha, n, op)) && Coherent(sha, ApplyOp(sha, n, op))
    ensures Strip(ApplyOp(sha, n, op)) == ApplyVal(Strip(n), op)
  {
    hide Coherent, ValidNode, Strip, SetAt, PutVal, MkPath, MakeVal, HashAt;
    match op {
      case Put(p, j) =>
        BuildSpec(j);
        BuildCoherent(sha, j);
        SetAtSpec(n, p, Build(j), false);
        SetAtCoherent(sha, n, p, Build(j), false);
      case PutLeaf(p, j) =>
        BuildSpec(j);
        BuildCoherent(sha, j);
        SetAtSpec(n, p, Build(j), true);
        SetAtCoherent(sha, n, p, Build(j), true);
      case Make(p) =>
        MkPathValid(n, p);
        MkPathCoherent(sha, n, p);
        MkPathIsMake(n, p);
      case Merge(p, ms) =>
        MergeIsMerge(sha, n, p, ms, |ms|);
      case Read(p) =>
        HashAtSpec(sha, n, p);
        SameErased(sha, HashAt(sha, n, p), n);
    }
  }

  ghost predicate AllProper(ops: seq<CacheOp>) {
    forall i :: 0 <= i < |ops| ==> Proper(ops[i])
  }

  function RunVal(ops: seq<CacheOp>): Val {
    if ops == [] then VNull else ApplyVal(RunVal(ops[..|ops| - 1]), ops[|ops| - 1])
  }

  /** The cache after a run: it stands for the map of maps that the same operations build, and
      every memo in it is the hash from scratch. */
  ghost function Run(sha: Sha, ops: seq<CacheOp>): (n: Node)
    requires AllProper(ops)
    ensures ValidNode(n) && Coherent(sha, n) && Strip(n) == RunVal(ops)
  {
    if ops == [] then Null
    else
      var m := Run(sha, ops[..|ops| - 1]);
      ApplySpec(sha, m, ops[|ops| - 1]);
      ApplyOp(sha, m, ops[|ops| - 1])
  }

  // ----- what a merge leaves behind

  /** What a member leaves behind, if no later one is put above, at or below its path. */
  lemma {:induction false} MergeGet(v: Val, p: Path, ms: seq<Update>, i: nat, j: nat)
    requires j < i <= |ms|
    requires forall k :: j < k < i ==> !(ms[j].below <= ms[k].below) && !(ms[k].below <= ms[j].below)
    ensures GetVal(MergeVal(v, p, ms, i), p + ms[j].below) ==
            if FromJson(ms[j].value).VNull? && p + ms[j].below != [] then None else Some(FromJson(ms[j].value))
  {
    hide PutVal, GetVal, FromJson;
    var m := MergeVal(v, p, ms, i - 1);
    var e := ms[i - 1];
    if j == i - 1 {
      GetPutSame(m, p + e.below, FromJson(e.value), false);
    } else {
      MergeGet(v, p, ms, i - 1, j);
      BelowPaths(p, ms[j].below, e.below);
      BelowPaths(p, e.below, ms[j].below);
      GetPutOther(m, p + e.below, FromJson(e.value), false, p + ms[j].below);
    }
  }

  lemma BelowPaths(p: Path, a: Path, b: Path)
    ensures p + a <= p + b <==> a <= b
  {
    assert (p + a)[|p|..] == a && (p + b)[|p|..] == b;
    assert p + a <= p + b ==> (p + b)[|p|..][..|a|] == a;
  }

  lemma {:induction false} MergeOther(v: Val, p: Path, ms: seq<Update>, i: nat, q: Path)
    requires i <= |ms|
    requires forall j :: 0 <= j < i ==> !(p + ms[j].below <= q) && !(q <= p + ms[j].below)
    ensures GetVal(MergeVal(v, p, ms, i), q) == GetVal(v, q)
  {
    hide PutVal, GetVal, FromJson;
    if i > 0 {
      MergeOther(v, p, ms, i - 1, q);
      GetPutOther(MergeVal(v, p, ms, i - 1), p + ms[i - 1].below, FromJson(ms[i - 1].value), false, q);
    }
  }
}
