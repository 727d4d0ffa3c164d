/** The cache object (lib/datasync/cache/treenode_cache.c): one root that the operations replace. */
module DataCache {
  import opened Keys
  import opened Paths
  import opened AvlTree
  import opened Kids
  import opened CacheTree
  import opened Merkle
  import opened Documents

  /** A child key with the bytes of its hash. */
  datatype KidHash = KidHash(key: Key, hash: string)

  /** The hash bytes at a path; all zero when nothing is there. */
  ghost function HashBytes(sha: Sha, n: Node, p: Path): string {
    match GetNode(n, p)
    case Some(m) => FreshHash(sha, m)
    case None => NoHash()
  }

  /** The children at a path with their hashes, in key order; none unless the value is internal. */
  ghost function Children(sha: Sha, n: Node, p: Path): seq<KidHash> {
    match GetNode(n, p)
    case Some(m) => if m.Internal? then KidHashes(sha, InOrder(m.kids)) else []
    case None => []
  }

  ghost function KidHashes(sha: Sha, s: seq<Kid>): seq<KidHash> {
    seq(|s|, i requires 0 <= i < |s| => KidHash(s[i].key, FreshHash(sha, s[i].node)))
  }

  /** The hashes at a path depend on the value there only. */
  lemma HashBytesOfValue(sha: Sha, n: Node, m: Node, p: Path)
    requires ValidNode(n) && ValidNode(m) && GetVal(Strip(n), p) == GetVal(Strip(m), p)
    ensures HashBytes(sha, n, p) == HashBytes(sha, m, p)
    ensures Children(sha, n, p) == Children(sha, m, p)
  {
    GetNodeSpec(n, p);
    GetNodeSpec(m, p);
    if GetNode(n, p).Some? {
      var a, b := GetNode(n, p).value, GetNode(m, p).value;
      HashOfContents(sha, a, b);
      if a.Internal? {
        KidHashesOfContents(sha, a.kids, b.kids);
      }
    }
  }

  lemma KidHashesOfContents(sha: Sha, t: Tree<Kid>, u: Tree<Kid>)
    requires KidsOk(t) && KidsOk(u) && ValidIn(t) && ValidIn(u) && StripIn(t) == StripIn(u)
    ensures KidHashes(sha, InOrder(t)) == KidHashes(sha, InOrder(u))
  {
    hide FreshHash, StripIn, ValidIn, InOrder;
    SameKeys(t, u);
    var a, b := InOrder(t), InOrder(u);
    assert |a| == |KeysOf(a)| == |KeysOf(b)| == |b|;
    forall i | 0 <= i < |a| ensures KidHashes(sha, a)[i] == KidHashes(sha, b)[i] {
      SameKid(t, u, i);
      HashOfContents(sha, a[i].node, b[i].node);
    }
  }

  class Cache {
    const sha: Sha
    var root: Node

    ghost predicate Valid()
      reads this
    {
      ValidNode(root) && Coherent(sha, root)
    }

    ghost function Value(): Val
      reads this
    {
      Strip(root)
    }

    constructor (h: Sha)
      ensures Valid() && Value() == VNull && sha == h
    {
      sha, root := h, Null;
    }

    /** `data_cache_set_ex`. */
    method Set(p: Path, doc: Json)
      requires Valid() && WellFormed(doc)
      modifies this
      ensures Valid() && Value() == PutVal(old(Value()), p, FromJson(doc), false)
      ensures forall q :: p + q != [] || !doc.JNull? ==> Shows(GetVal(Value(), p + q), Walk(doc, q))
    {
      forall q ensures p + q != [] || !doc.JNull? ==>
                         Shows(GetVal(PutVal(Value(), p, FromJson(doc), false), p + q), Walk(doc, q))
      {
        PutShows(Value(), p, doc, q);
      }
      hide Strip, ValidNode, Coherent, PutVal, GetVal, Walk;
      ApplySpec(sha, root, Put(p, doc));
      BuildSpec(doc);
      root := SetAt(root, p, Build(doc), false);
    }

    /** `data_cache_merge` of an object: one put per member. */
    method MergeDoc(p: Path, ms: seq<Update>)
      requires Valid() && forall i :: 0 <= i < |ms| ==> WellFormed(ms[i].value)
      modifies this
      ensures Valid() && Value() == MergeVal(old(Value()), p, ms, |ms|)
    {
      hide Shows, Walk, GetVal, PutVal, Strip, ValidNode, Coherent, FromJson, WellFormed;
      var i := 0;
      while i < |ms|
        invariant 0 <= i <= |ms|
        invariant Valid() && Value() == MergeVal(old(Value()), p, ms, i)
      {
        Set(p + ms[i].below, ms[i].value);
        i := i + 1;
      }
    }

    /** `data_cache_get_parsed`. */
    method Get(p: Path) returns (n: Option<Node>)
      requires Valid()
      ensures n == GetNode(root, p)
      ensures n.Some? <==> GetVal(Value(), p).Some?
      ensures n.Some? ==> Strip(n.value) == GetVal(Value(), p).value
    {
      GetNodeSpec(root, p);
      n := GetNode(root, p);
    }

    /** `treenode_hash_get` on the node at a path: memos change, nothing else does. */
    method Hash(p: Path) returns (h: string)
      requires Valid()
      modifies this
      ensures Valid() && Erase(root) == old(Erase(root)) && Value() == old(Value())
      ensures h == HashBytes(sha, root, p) == old(HashBytes(sha, root, p))
    {
      var n := GetNode(root, p);
      HashReadAt(sha, root, p);
      HashAtSpec(sha, root, p);
      SameErased(sha, HashAt(sha, root, p), root);
      HashBytesOfValue(sha, HashAt(sha, root, p), root, p);
      h := if n.Some? then HashGet(sha, n.value).1 else NoHash();
      root := HashAt(sha, root, p);
    }

    /** The children at a path with their hashes, as `on_child_trig` walks them. */
    method ChildHashes(p: Path) returns (a: seq<KidHash>)
      requires Valid()
      ensures a == Children(sha, root, p)
    {
      var n := GetNode(root, p);
      match n {
        case Some(Internal(kids, _)) =>
          CoherentNode(sha, root, p);
          ghost var good := m => Coherent(sha, m);
          CoherentInAll(sha, kids, good);
          assert forall i :: 0 <= i < |InOrder(kids)| ==> good(InOrder(kids)[i].node);
          a := ReadKids(sha, InOrder(kids));
        case _ =>
          a := [];
      }
    }
  }

  lemma {:induction false} CoherentNode(sha: Sha, n: Node, p: Path)
    requires ValidNode(n) && Coherent(sha, n)
    ensures GetNode(n, p).Some? ==> Coherent(sha, GetNode(n, p).value)
    decreases p
  {
    if p != [] && n.Internal? && KGet(n.kids, p[0]).Some? {
      KGetSpec(n.kids, p[0]);
      ValidChild(n.kids, p[0]);
      CoherentChild(sha, n.kids, p[0]);
      CoherentNode(sha, KGet(n.kids, p[0]).value, p[1..]);
    }
  }

  /** The hashes of a list of children, read one by one. */
  method ReadKids(sha: Sha, s: seq<Kid>) returns (out: seq<KidHash>)
    requires forall i :: 0 <= i < |s| ==> Coherent(sha, s[i].node)
    ensures out == KidHashes(sha, s)
  {
    hide Coherent, FreshHash, HashGet;
    out := [];
    var i := 0;
    while i < |s|
      invariant 0 <= i <= |s| && out == KidHashes(sha, s)[..i]
    {
      HashGetSpec(sha, s[i].node);
      out := out + [KidHash(s[i].key, HashGet(sha, s[i].node).1)];
      i := i + 1;
    }
  }

  lemma {:induction false} HashReadAt(sha: Sha, n: Node, p: Path)
    requires ValidNode(n) && Coherent(sha, n)
    ensures GetNode(n, p).Some? ==> HashGet(sha, GetNode(n, p).value).1 == HashBytes(sha, n, p)
    decreases p
  {
    if p == [] {
      HashGetSpec(sha, n);
    } else if n.Internal? && KGet(n.kids, p[0]).Some? {
      KGetSpec(n.kids, p[0]);
      ValidChild(n.kids, p[0]);
      CoherentChild(sha, n.kids, p[0]);
      HashReadAt(sha, KGet(n.kids, p[0]).value, p[1..]);
    }
  }
}
