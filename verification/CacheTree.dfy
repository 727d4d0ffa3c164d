/** The data cache (lib/datasync/cache): treenodes, the plain map-of-maps they stand for, and the
    operations that put JSON documents into the tree. */
module CacheTree {
  import opened Keys
  import opened Paths
  import opened AvlTree
  import opened Kids

  // ----- the reference meaning

  /** The value of a subtree: leaves and maps of maps. */
  datatype Val = VNull | VBool(b: bool) | VNum(hex: string) | VStr(s: string) | VMap(m: map<Key, Val>)

  /** A parsed JSON document; members of an object have distinct keys. */
  datatype Json = JNull | JBool(b: bool) | JNum(hex: string) | JStr(s: string)
                  | JArr(es: seq<Json>) | JObj(ms: seq<Member>)

  datatype Member = Member(key: Key, value: Json)

  predicate Distinct(ms: seq<Member>) {
    forall i, j :: 0 <= i < j < |ms| ==> ms[i].key != ms[j].key
  }

  predicate WellFormed(j: Json) {
    match j
    case JArr(es) => forall i :: 0 <= i < |es| ==> WellFormed(es[i])
    case JObj(ms) => Distinct(ms) && forall i :: 0 <= i < |ms| ==> WellFormed(ms[i].value)
    case _ => true
  }

  /** Storing a null deletes the key, unless nulls are kept. */
  function Store(m: map<Key, Val>, k: Key, v: Val, keepNull: bool): map<Key, Val> {
    if v.VNull? && !keepNull then m - {k} else m[k := v]
  }

  /** A document as a value: nulls inside it are pruned, arrays are keyed by index. */
  function FromJson(j: Json): Val {
    match j
    case JNull => VNull
    case JBool(b) => VBool(b)
    case JNum(h) => VNum(h)
    case JStr(s) => VStr(s)
    case JArr(es) => VMap(FromArr(es, |es|))
    case JObj(ms) => VMap(FromObj(ms, |ms|))
  }

  function FromArr(es: seq<Json>, n: nat): map<Key, Val>
    requires n <= |es|
    decreases es, n
  {
    if n == 0 then map[] else Store(FromArr(es, n - 1), Index(n - 1), FromJson(es[n - 1]), false)
  }

  function FromObj(ms: seq<Member>, n: nat): map<Key, Val>
    requires n <= |ms|
    decreases ms, n
  {
    if n == 0 then map[]
    else
      var e := ms[n - 1];
      assert e in ms && e.value < e;
      Store(FromObj(ms, n - 1), e.key, FromJson(e.value), false)
  }

  function MapOf(v: Val): map<Key, Val> {
    if v.VMap? then v.m else map[]
  }

  /** Putting `x` at a path of a map of maps: leaves on the way become maps. */
  function PutVal(v: Val, p: Path, x: Val, keepNull: bool): Val
    decreases p
  {
    if p == [] then x
    else if |p| == 1 then VMap(Store(MapOf(v), p[0], x, keepNull))
    else
      var m := MapOf(v);
      VMap(m[p[0] := PutVal(if p[0] in m then m[p[0]] else VNull, p[1..], x, keepNull)])
  }

  function GetVal(v: Val, p: Path): Option<Val>
    decreases p
  {
    if p == [] then Some(v)
    else if v.VMap? && p[0] in v.m then GetVal(v.m[p[0]], p[1..])
    else None
  }

  // ----- get after put

  lemma {:induction false} GetPutSame(v: Val, p: Path, x: Val, keepNull: bool)
    ensures GetVal(PutVal(v, p, x, keepNull), p) == if x.VNull? && p != [] && !keepNull then None else Some(x)
    decreases p
  {
    if |p| >= 2 {
      var m := MapOf(v);
      GetPutSame(if p[0] in m then m[p[0]] else VNull, p[1..], x, keepNull);
    } else if |p| == 1 {
      assert p[1..] == [];
    }
  }

  lemma {:induction false} GetPutOther(v: Val, p: Path, x: Val, keepNull: bool, q: Path)
    requires !(p <= q) && !(q <= p)
    ensures GetVal(PutVal(v, p, x, keepNull), q) == GetVal(v, q)
    decreases p
  {
    assert p != [] && q != [];
    if p[0] == q[0] {
      assert p == [p[0]] + p[1..] && q == [q[0]] + q[1..];
      var m := MapOf(v);
      assert |p| >= 2;
      GetPutOther(if p[0] in m then m[p[0]] else VNull, p[1..], x, keepNull, q[1..]);
    }
  }

  /** Below `p` only the new value is seen. */
  lemma {:induction false} GetPutBelow(v: Val, p: Path, x: Val, keepNull: bool, q: Path)
    requires p <= q && p != q
    ensures GetVal(PutVal(v, p, x, keepNull), q) == GetVal(x, q[|p|..])
    decreases p
  {
    if p != [] {
      var m := MapOf(v);
      assert q[1..][|p[1..]|..] == q[|p|..];
      if |p| >= 2 {
        GetPutBelow(if p[0] in m then m[p[0]] else VNull, p[1..], x, keepNull, q[1..]);
      } else {
        assert p[1..] == [];
      }
    } else {
      assert q[0..] == q;
    }
  }

  /** Above `p` there is a map, which keeps every sibling of the path. */
  lemma {:induction false} GetPutAbove(v: Val, p: Path, x: Val, keepNull: bool, q: Path)
    requires q <= p && q != p
    ensures GetVal(PutVal(v, p, x, keepNull), q).Some? && GetVal(PutVal(v, p, x, keepNull), q).value.VMap?
    ensures var was := match GetVal(v, q) case Some(w) => MapOf(w) case None => map[];
            MapOf(GetVal(PutVal(v, p, x, keepNull), q).value) - {p[|q|]} == was - {p[|q|]}
    decreases p
  {
    if q != [] {
      var m := MapOf(v);
      assert |p| >= 2 && q[0] == p[0];
      var c := if p[0] in m then m[p[0]] else VNull;
      GetPutAbove(c, p[1..], x, keepNull, q[1..]);
      assert q[1..] == [] ==> q == [q[0]];
    }
  }

  // ----- treenodes and what they stand for

  ghost predicate ValidNode(n: Node) {
    n.Internal? ==> KidsOk(n.kids) && ValidIn(n.kids)
  }

  ghost predicate ValidIn(t: Tree<Kid>) {
    t.Node? ==> ValidIn(t.left) && ValidNode(t.data.node) && ValidIn(t.right)
  }

  ghost function Strip(n: Node): Val {
    match n
    case Null => VNull
    case Bool(b) => VBool(b)
    case Num(h, _) => VNum(h)
    case Str(s, _) => VStr(s)
    case Internal(kids, _) => VMap(StripIn(kids))
  }

  ghost function StripIn(t: Tree<Kid>): map<Key, Val> {
    if t.Leaf? then map[]
    else StripIn(t.left) + map[t.data.key := Strip(t.data.node)] + StripIn(t.right)
  }

  lemma {:induction false} StripInAt(t: Tree<Kid>, k: Key)
    ensures k in StripIn(t) <==> ChildAt(t, k).Some?
    ensures k in StripIn(t) ==> StripIn(t)[k] == Strip(ChildAt(t, k).value)
  {
    if t.Node? {
      StripInAt(t.left, k);
      StripInAt(t.right, k);
      var l, d, r := InOrder(t.left), t.data, InOrder(t.right);
      LookupConcat(l + [d], r, k);
      LookupConcat(l, [d], k);
      assert [d][..0] == [];
      assert Lookup([d], k) == if d.key == k then Some(d.node) else None;
    }
  }

  /** A property of every child node. */
  ghost predicate AllKids(s: seq<Kid>, good: Node -> bool) {
    forall i :: 0 <= i < |s| ==> good(s[i].node)
  }

  lemma AllKidsParts(a: seq<Kid>, d: Kid, b: seq<Kid>, good: Node -> bool)
    ensures AllKids(a + [d] + b, good) <==> AllKids(a, good) && good(d.node) && AllKids(b, good)
  {
    var s := a + [d] + b;
    assert s[|a|] == d;
    assert forall i :: 0 <= i < |a| ==> s[i] == a[i];
    assert forall i :: 0 <= i < |b| ==> s[|a| + 1 + i] == b[i];
  }

  lemma AllKidsAt(s: seq<Kid>, good: Node -> bool, k: Key)
    requires AllKids(s, good) && Lookup(s, k).Some?
    ensures good(Lookup(s, k).value)
  {
    var i := LookupIndex(s, k);
    assert good(s[i].node);
  }

  lemma AllKidsFrom(s: seq<Kid>, good: Node -> bool)
    requires Sorted(KidCmp, s)
    requires forall k :: Lookup(s, k).Some? ==> good(Lookup(s, k).value)
    ensures AllKids(s, good)
  {
    forall i | 0 <= i < |s| ensures good(s[i].node) {
      LookupAt(s, i);
      assert Lookup(s, s[i].key).Some?;
    }
  }

  lemma {:induction false} ValidInAll(t: Tree<Kid>)
    ensures ValidIn(t) <==> AllKids(InOrder(t), ValidNode)
  {
    hide ValidNode;
    if t.Node? {
      ValidInAll(t.left);
      ValidInAll(t.right);
      AllKidsParts(InOrder(t.left), t.data, InOrder(t.right), ValidNode);
    }
  }

  lemma ValidChild(t: Tree<Kid>, k: Key)
    requires ValidIn(t) && ChildAt(t, k).Some?
    ensures ValidNode(ChildAt(t, k).value)
  {
    hide ValidIn, AllKids;
    ValidInAll(t);
    AllKidsAt(InOrder(t), ValidNode, k);
  }

  /** A container whose children are all found among valid nodes is valid throughout. */
  lemma ValidFromAt(t: Tree<Kid>)
    requires KidsOk(t)
    requires forall k :: ChildAt(t, k).Some? ==> ValidNode(ChildAt(t, k).value)
    ensures ValidIn(t)
  {
    hide ValidIn, AllKids;
    ValidInAll(t);
    forall k | Lookup(InOrder(t), k).Some? ensures ValidNode(Lookup(InOrder(t), k).value) {
      assert ChildAt(t, k).Some?;
    }
    AllKidsFrom(InOrder(t), ValidNode);
  }

  /** Adding, removing and rewriting a child, as the reader of the tree sees them. */
  lemma AddKid(t: Tree<Kid>, k: Key, n: Node)
    requires KidsOk(t) && ValidIn(t) && ChildAt(t, k).None? && ValidNode(n)
    ensures KidsOk(KAdd(t, k, n)) && ValidIn(KAdd(t, k, n))
    ensures StripIn(KAdd(t, k, n)) == StripIn(t)[k := Strip(n)]
  {
    hide KAdd, ChildAt, ValidNode, ValidIn, Strip, StripIn, Exact, Sorted;
    KAddSpec(t, k, n);
    var u := KAdd(t, k, n);
    forall k' ensures ChildAt(u, k').Some? ==> ValidNode(ChildAt(u, k').value) {
      if ChildAt(u, k').Some? && k' != k { ValidChild(t, k'); }
    }
    ValidFromAt(u);
    forall k' ensures k' in StripIn(u) <==> k' in StripIn(t)[k := Strip(n)]
      ensures k' in StripIn(u) ==> StripIn(u)[k'] == StripIn(t)[k := Strip(n)][k']
    {
      StripInAt(u, k');
      StripInAt(t, k');
    }
  }

  lemma DelKid(t: Tree<Kid>, k: Key)
    requires KidsOk(t) && ValidIn(t)
    ensures KidsOk(KDel(t, k)) && ValidIn(KDel(t, k)) && ChildAt(KDel(t, k), k).None?
    ensures StripIn(KDel(t, k)) == StripIn(t) - {k}
  {
    hide KDel, ChildAt, ValidNode, ValidIn, Strip, StripIn, Exact, Sorted;
    KDelSpec(t, k);
    var u := KDel(t, k);
    forall k' ensures ChildAt(u, k').Some? ==> ValidNode(ChildAt(u, k').value) {
      if ChildAt(u, k').Some? { ValidChild(t, k'); }
    }
    ValidFromAt(u);
    forall k' ensures k' in StripIn(u) <==> k' in StripIn(t) - {k}
      ensures k' in StripIn(u) ==> StripIn(u)[k'] == (StripIn(t) - {k})[k']
    {
      StripInAt(u, k');
      StripInAt(t, k');
    }
  }

  lemma SetKid(t: Tree<Kid>, k: Key, n: Node)
    requires KidsOk(t) && ValidIn(t) && ChildAt(t, k).Some? && ValidNode(n)
    ensures KidsOk(KSet(t, k, n)) && ValidIn(KSet(t, k, n))
    ensures StripIn(KSet(t, k, n)) == StripIn(t)[k := Strip(n)]
  {
    hide KSet, ChildAt, ValidNode, ValidIn, Strip, StripIn, Exact, Sorted;
    KSetSpec(t, k, n);
    var u := KSet(t, k, n);
    forall k' ensures ChildAt(u, k').Some? ==> ValidNode(ChildAt(u, k').value) {
      if ChildAt(u, k').Some? && k' != k { ValidChild(t, k'); }
    }
    ValidFromAt(u);
    forall k' ensures k' in StripIn(u) <==> k' in StripIn(t)[k := Strip(n)]
      ensures k' in StripIn(u) ==> StripIn(u)[k'] == StripIn(t)[k := Strip(n)][k']
    {
      StripInAt(u, k');
      StripInAt(t, k');
    }
  }

  // ----- building the tree of a document

  /** `treenode_from_json_val` and the containers of `data_cache_set_r`. */
  function Build(j: Json): Node {
    match j
    case JNull => Null
    case JBool(b) => Bool(b)
    case JNum(h) => Num(h, None)
    case JStr(s) => Str(s, None)
    case JArr(es) => Internal(BuildArr(es, |es|), None)
    case JObj(ms) => Internal(BuildObj(ms, |ms|), None)
  }

  function BuildArr(es: seq<Json>, n: nat): Tree<Kid>
    requires n <= |es|
    ensures Exact(BuildArr(es, n))
    decreases es, n
  {
    if n == 0 then Leaf else AddBuilt(BuildArr(es, n - 1), Index(n - 1), Build(es[n - 1]))
  }

  function BuildObj(ms: seq<Member>, n: nat): Tree<Kid>
    requires n <= |ms|
    ensures Exact(BuildObj(ms, n))
    decreases ms, n
  {
    if n == 0 then Leaf
    else
      var e := ms[n - 1];
      assert e in ms && e.value < e;
      AddBuilt(BuildObj(ms, n - 1), e.key, Build(e.value))
  }

  /** One call of `data_cache_set_r` on a container: null removes the key. */
  function AddBuilt(t: Tree<Kid>, k: Key, n: Node): Tree<Kid>
    requires Exact(t)
    ensures Exact(AddBuilt(t, k, n))
  {
    if n.Null? then KDel(t, k) else KAdd(t, k, n)
  }

  lemma AddBuiltSpec(t: Tree<Kid>, k: Key, n: Node)
    requires KidsOk(t) && ValidIn(t) && ChildAt(t, k).None? && ValidNode(n)
    ensures KidsOk(AddBuilt(t, k, n)) && ValidIn(AddBuilt(t, k, n))
    ensures StripIn(AddBuilt(t, k, n)) == Store(StripIn(t), k, Strip(n), false)
  {
    if n.Null? {
      DelKid(t, k);
    } else {
      AddKid(t, k, n);
    }
  }

  lemma {:induction false} BuildSpec(j: Json)
    requires WellFormed(j)
    ensures ValidNode(Build(j)) && Strip(Build(j)) == FromJson(j)
  {
    match j {
      case JArr(es) => BuildArrSpec(es, |es|);
      case JObj(ms) => BuildObjSpec(ms, |ms|);
      case _ =>
    }
  }

  lemma {:induction false} BuildArrSpec(es: seq<Json>, n: nat)
    requires n <= |es| && forall i :: 0 <= i < |es| ==> WellFormed(es[i])
    ensures KidsOk(BuildArr(es, n)) && ValidIn(BuildArr(es, n)) && StripIn(BuildArr(es, n)) == FromArr(es, n)
    ensures forall k :: k in FromArr(es, n) ==> k.Index? && 0 <= k.v < n
    decreases es, n
  {
    hide AddBuilt, ValidNode, Strip, ChildAt, Build, WellFormed, FromJson;
    if n > 0 {
      BuildArrSpec(es, n - 1);
      BuildSpec(es[n - 1]);
      StripInAt(BuildArr(es, n - 1), Index(n - 1));
      AddBuiltSpec(BuildArr(es, n - 1), Index(n - 1), Build(es[n - 1]));
    }
  }

  lemma {:induction false} BuildObjSpec(ms: seq<Member>, n: nat)
    requires n <= |ms| && Distinct(ms) && forall i :: 0 <= i < |ms| ==> WellFormed(ms[i].value)
    ensures KidsOk(BuildObj(ms, n)) && ValidIn(BuildObj(ms, n)) && StripIn(BuildObj(ms, n)) == FromObj(ms, n)
    ensures forall k :: k in FromObj(ms, n) ==> exists i :: 0 <= i < n && ms[i].key == k
    decreases ms, n
  {
    if n > 0 {
      BuildObjSpec(ms, n - 1);
      var e := ms[n - 1];
      assert e in ms && e.value < e;
      BuildSpec(e.value);
      StripInAt(BuildObj(ms, n - 1), e.key);
      AddBuiltSpec(BuildObj(ms, n - 1), e.key, Build(e.value));
    }
  }

  // ----- writing at a path

  function EmptyNode(): Node {
    Internal(Leaf, None)
  }

  function KidsOf(n: Node): Tree<Kid> {
    if n.Internal? then n.kids else Leaf
  }

  /** The internal node that `data_cache_mkpath_w` finds or creates under a key. */
  function Base(t: Tree<Kid>, k: Key): Node {
    match KGet(t, k)
    case Some(c) => if c.Internal? then c else EmptyNode()
    case None => EmptyNode()
  }

  /** Stores the node reached under a key: a missing or leaf child is replaced by a new one. */
  function Attach(t: Tree<Kid>, k: Key, n: Node): Tree<Kid>
    requires Exact(t)
  {
    match KGet(t, k)
    case None => KAdd(t, k, n)
    case Some(c) => if c.Internal? then KSet(t, k, n) else KAdd(KDel(t, k), k, n)
  }

  /** `data_cache_mkpath_w` with `reset_hash`: every node on the path is internal and has no memo. */
  function MkPath(n: Node, p: Path): Node
    requires ValidNode(n)
    decreases p
  {
    var t := KidsOf(n);
    if p == [] then Internal(t, None)
    else
      BaseValid(t, p[0]);
      Internal(Attach(t, p[0], MkPath(Base(t, p[0]), p[1..])), None)
  }

  /** The child is removed, then the new one added; a null is added only by `data_cache_set_leaf`. */
  function Replace(t: Tree<Kid>, k: Key, x: Node, keepNull: bool): Tree<Kid>
    requires Exact(t)
  {
    if keepNull then KAdd(KDel(t, k), k, x) else AddBuilt(KDel(t, k), k, x)
  }

  /** The rest of `data_cache_set_ex` and `data_cache_set_leaf`: at the node `p`, the child `k` is
      removed and the new one added. The nodes above are reached through pointers and not written. */
  function Edit(n: Node, p: Path, k: Key, x: Node, keepNull: bool): Node
    requires ValidNode(n)
    decreases p
  {
    var t := KidsOf(n);
    if p == [] then
      Internal(Replace(t, k, x, keepNull), MemoOf(n))
    else
      BaseValid(t, p[0]);
      Internal(KSet(t, p[0], Edit(Base(t, p[0]), p[1..], k, x, keepNull)), MemoOf(n))
  }

  function MemoOf(n: Node): Option<string> {
    if n.Internal? then n.memo else None
  }

  /** `data_cache_set_ex` (and `data_cache_set_leaf` when `keepNull`). */
  function SetAt(n: Node, p: Path, x: Node, keepNull: bool): Node
    requires ValidNode(n) && ValidNode(x)
  {
    if p == [] then x
    else
      var up := p[..|p| - 1];
      MkPathValid(n, up);
      Edit(MkPath(n, up), up, p[|p| - 1], x, keepNull)
  }

  /** `data_cache_get_r`. */
  function GetNode(n: Node, p: Path): Option<Node>
    decreases p
  {
    if p == [] then Some(n)
    else if n.Internal? then
      match KGet(n.kids, p[0])
      case Some(c) => GetNode(c, p[1..])
      case None => None
    else None
  }

  lemma BaseValid(t: Tree<Kid>, k: Key)
    requires KidsOk(t) && ValidIn(t)
    ensures ValidNode(Base(t, k))
    ensures Strip(Base(t, k)) == VMap(MapOf(if k in StripIn(t) then StripIn(t)[k] else VNull))
  {
    KGetSpec(t, k);
    StripInAt(t, k);
    if ChildAt(t, k).Some? {
      ValidChild(t, k);
    }
  }

  lemma AttachSpec(t: Tree<Kid>, k: Key, n: Node)
    requires KidsOk(t) && ValidIn(t) && ValidNode(n)
    ensures KidsOk(Attach(t, k, n)) && ValidIn(Attach(t, k, n))
    ensures StripIn(Attach(t, k, n)) == StripIn(t)[k := Strip(n)]
    ensures forall k' :: ChildAt(Attach(t, k, n), k') == if k' == k then Some(n) else ChildAt(t, k')
  {
    hide KAdd, KDel, KSet, ChildAt, ValidNode, Strip, StripIn, Exact, Sorted;
    KGetSpec(t, k);
    match KGet(t, k) {
      case None =>
        AddKid(t, k, n);
        KAddSpec(t, k, n);
      case Some(c) =>
        if c.Internal? {
          SetKid(t, k, n);
          KSetSpec(t, k, n);
        } else {
          DelKid(t, k);
          KDelSpec(t, k);
          AddKid(KDel(t, k), k, n);
          KAddSpec(KDel(t, k), k, n);
          assert (StripIn(t) - {k})[k := Strip(n)] == StripIn(t)[k := Strip(n)];
        }
    }
  }

  lemma {:induction false} MkPathValid(n: Node, p: Path)
    requires ValidNode(n)
    ensures ValidNode(MkPath(n, p)) && MkPath(n, p).Internal?
    decreases p
  {
    var t := KidsOf(n);
    if p != [] {
      BaseValid(t, p[0]);
      MkPathValid(Base(t, p[0]), p[1..]);
      AttachSpec(t, p[0], MkPath(Base(t, p[0]), p[1..]));
    }
  }

  lemma ReplaceSpec(t: Tree<Kid>, k: Key, x: Node, keepNull: bool)
    requires KidsOk(t) && ValidIn(t) && ValidNode(x)
    ensures KidsOk(Replace(t, k, x, keepNull)) && ValidIn(Replace(t, k, x, keepNull))
    ensures StripIn(Replace(t, k, x, keepNull)) == Store(StripIn(t), k, Strip(x), keepNull)
    ensures forall k' :: k' != k ==> ChildAt(Replace(t, k, x, keepNull), k') == ChildAt(t, k')
    ensures ChildAt(Replace(t, k, x, keepNull), k) == if x.Null? && !keepNull then None else Some(x)
  {
    hide KAdd, KDel, ChildAt, ValidNode, StripIn, Sorted;
    var d := KDel(t, k);
    DelKid(t, k);
    KDelSpec(t, k);
    KDelSpec(d, k);
    KAddSpec(d, k, x);
    AddKid(d, k, x);
    AddBuiltSpec(d, k, x);
    assert (StripIn(t) - {k})[k := Strip(x)] == StripIn(t)[k := Strip(x)];
    assert (StripIn(t) - {k}) - {k} == StripIn(t) - {k};
  }

  /** One level of the composite: the child below `up[0]` is edited where `MkPath` attached it. */
  lemma EditUnfold(n: Node, up: Path, k: Key, x: Node, keepNull: bool)
    requires ValidNode(n) && up != []
    ensures var (t, k0, rest) := (KidsOf(n), up[0], up[1..]);
            var b := Base(t, k0);
            && ValidNode(b) && ValidNode(MkPath(n, up)) && ValidNode(MkPath(b, rest))
            && Edit(MkPath(n, up), up, k, x, keepNull) ==
               Internal(KSet(Attach(t, k0, MkPath(b, rest)), k0, Edit(MkPath(b, rest), rest, k, x, keepNull)), None)
  {
    hide Attach, ValidIn, KDel, KAdd, KSet, Replace, Exact, Sorted, Strip, StripIn, Lookup;
    var t, k0, rest := KidsOf(n), up[0], up[1..];
    KidsOfValid(n);
    BaseValid(t, k0);
    MkPathValid(n, up);
    var m := MkPath(Base(t, k0), rest);
    MkPathValid(Base(t, k0), rest);
    AttachSpec(t, k0, m);
    KGetSpec(Attach(t, k0, m), k0);
  }

  lemma PutValStep(v: Val, p: Path, x: Val, keepNull: bool)
    requires |p| >= 2
    ensures PutVal(v, p, x, keepNull) ==
            VMap(MapOf(v)[p[0] := PutVal(VMap(MapOf(if p[0] in MapOf(v) then MapOf(v)[p[0]] else VNull)),
                                     p[1..], x, keepNull)])
  {
    PutValBase(if p[0] in MapOf(v) then MapOf(v)[p[0]] else VNull, p[1..], x, keepNull);
  }

  /** The put on treenodes is the put on maps of maps. */
  lemma {:induction false} EditMkPath(n: Node, up: Path, k: Key, x: Node, keepNull: bool)
    requires ValidNode(n) && ValidNode(x)
    ensures ValidNode(MkPath(n, up)) && ValidNode(Edit(MkPath(n, up), up, k, x, keepNull))
    ensures Strip(Edit(MkPath(n, up), up, k, x, keepNull)) == PutVal(Strip(n), up + [k], Strip(x), keepNull)
    decreases up
  {
    MkPathValid(n, up);
    if up == [] {
      KidsOfValid(n);
      ReplaceSpec(KidsOf(n), k, x, keepNull);
      assert up + [k] == [k];
    } else {
      var b := Base(KidsOf(n), up[0]);
      KidsOfValid(n);
      BaseValid(KidsOf(n), up[0]);
      EditMkPath(b, up[1..], k, x, keepNull);
      EditLevel(n, up, k, x, keepNull);
    }
  }

  lemma KidsOfValid(n: Node)
    requires ValidNode(n)
    ensures KidsOk(KidsOf(n)) && ValidIn(KidsOf(n)) && StripIn(KidsOf(n)) == MapOf(Strip(n))
  {
    NoKidsValid();
    hide KidsOk, ValidIn, StripIn;
  }

  lemma NoKidsValid()
    ensures KidsOk(Leaf) && ValidIn(Leaf) && StripIn(Leaf) == map[]
  {
    hide Strip, ValidNode;
  }

  lemma EditLevel(n: Node, up: Path, k: Key, x: Node, keepNull: bool)
    requires ValidNode(n) && ValidNode(x) && up != [] && ValidNode(MkPath(n, up))
    requires ValidNode(Base(KidsOf(n), up[0]))
    requires var m := MkPath(Base(KidsOf(n), up[0]), up[1..]);
             && ValidNode(m) && ValidNode(Edit(m, up[1..], k, x, keepNull))
             && Strip(Edit(m, up[1..], k, x, keepNull)) ==
                PutVal(Strip(Base(KidsOf(n), up[0])), up[1..] + [k], Strip(x), keepNull)
    ensures ValidNode(Edit(MkPath(n, up), up, k, x, keepNull))
    ensures Strip(Edit(MkPath(n, up), up, k, x, keepNull)) == PutVal(Strip(n), up + [k], Strip(x), keepNull)
  {
    hide MkPath, Edit, Attach, KSet, Base, PutVal, Exact, Sorted, ValidIn, StripIn, Lookup;
    var t, k0, rest := KidsOf(n), up[0], up[1..];
    KidsOfValid(n);
    BaseValid(t, k0);
    EditUnfold(n, up, k, x, keepNull);
    var m := MkPath(Base(t, k0), rest);
    AttachSpec(t, k0, m);
    SetKid(Attach(t, k0, m), k0, Edit(m, rest, k, x, keepNull));
    assert (up + [k])[1..] == rest + [k] && (up + [k])[0] == k0;
    PutValStep(Strip(n), up + [k], Strip(x), keepNull);
  }

  /** A put below a node sees only the map part of that node. */
  lemma PutValBase(v: Val, p: Path, x: Val, keepNull: bool)
    requires p != []
    ensures PutVal(VMap(MapOf(v)), p, x, keepNull) == PutVal(v, p, x, keepNull)
  {
  }

  lemma SetAtSpec(n: Node, p: Path, x: Node, keepNull: bool)
    requires ValidNode(n) && ValidNode(x)
    ensures ValidNode(SetAt(n, p, x, keepNull))
    ensures Strip(SetAt(n, p, x, keepNull)) == PutVal(Strip(n), p, Strip(x), keepNull)
  {
    hide MkPath, Edit, ValidNode, Strip, Store, MapOf, KidsOf;
    if p == [] {
      assert PutVal(Strip(n), p, Strip(x), keepNull) == Strip(x);
    } else {
      hide PutVal;
      EditMkPath(n, p[..|p| - 1], p[|p| - 1], x, keepNull);
      assert p[..|p| - 1] + [p[|p| - 1]] == p;
    }
  }

  lemma {:induction false} GetNodeSpec(n: Node, p: Path)
    requires ValidNode(n)
    ensures GetNode(n, p).Some? <==> GetVal(Strip(n), p).Some?
    ensures GetNode(n, p).Some? ==>
              ValidNode(GetNode(n, p).value) && Strip(GetNode(n, p).value) == GetVal(Strip(n), p).value
    decreases p
  {
    if p != [] && n.Internal? {
      KGetSpec(n.kids, p[0]);
      StripInAt(n.kids, p[0]);
      if ChildAt(n.kids, p[0]).Some? {
        ValidChild(n.kids, p[0]);
        GetNodeSpec(ChildAt(n.kids, p[0]).value, p[1..]);
      }
    }
  }
}
