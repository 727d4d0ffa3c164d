/** The children of a treenode (lib/datasync/cache/treenode.c): an AVL tree of keyed nodes. */
module Kids {
  import opened Keys
  import opened AvlTree

  /** A treenode. `Num` carries the hexadecimal image of its double; `memo` is the hash stored in the
      node when its `hash_cached` bit is set. */
  datatype Node =
    | Null
    | Bool(b: bool)
    | Num(hex: string, memo: Option<string>)
    | Str(s: string, memo: Option<string>)
    | Internal(kids: Tree<Kid>, memo: Option<string>)

  datatype Kid = Kid(key: Key, node: Node)

  function KidCmp(a: Kid, b: Kid): int {
    KeyOrd(a.key, b.key)
  }

  lemma KidCmpIsComparator()
    ensures Comparator(KidCmp)
  {
    forall a: Kid, b: Kid, c: Kid {:trigger About(a, b, c)}
      ensures KidCmp(a, b) < 0 <==> KidCmp(b, a) > 0
      ensures KidCmp(a, b) <= 0 && KidCmp(b, c) <= 0 ==> KidCmp(a, c) <= 0
    {
      KeyOrdAntisymmetric(a.key, b.key);
      if KidCmp(a, b) <= 0 && KidCmp(b, c) <= 0 {
        KeyOrdTransitive(a.key, b.key, c.key);
      }
    }
  }

  /** The container's own invariant. */
  ghost predicate KidsOk(t: Tree<Kid>) {
    Exact(t) && Sorted(KidCmp, InOrder(t))
  }

  function Probe(k: Key): Kid {
    Kid(k, Null)
  }

  /** `internal_get`. */
  function KGet(t: Tree<Kid>, k: Key): Option<Node> {
    var r := Get(KidCmp, t, Probe(k));
    if r.Leaf? then None else Some(r.data.node)
  }

  /** `internal_add_new_*` of an absent key. */
  function KAdd(t: Tree<Kid>, k: Key, n: Node): Tree<Kid>
    requires Exact(t)
  {
    Insert(KidCmp, t, Kid(k, n))
  }

  /** `internal_remove`. */
  function KDel(t: Tree<Kid>, k: Key): Tree<Kid>
    requires Exact(t)
  {
    Remove(KidCmp, t, Probe(k))
  }

  /** The effect of changing a child through its pointer. */
  function KSet(t: Tree<Kid>, k: Key, n: Node): Tree<Kid> {
    if t.Leaf? then Leaf
    else if KeyOrd(k, t.data.key) < 0 then t.(left := KSet(t.left, k, n))
    else if KeyOrd(k, t.data.key) > 0 then t.(right := KSet(t.right, k, n))
    else t.(data := Kid(t.data.key, n))
  }

  // ----- contents

  /** What a sequence of children says about a key. */
  ghost function Lookup(s: seq<Kid>, k: Key): Option<Node> {
    if s == [] then None
    else if s[|s| - 1].key == k then Some(s[|s| - 1].node)
    else Lookup(s[..|s| - 1], k)
  }

  ghost function ChildAt(t: Tree<Kid>, k: Key): Option<Node> {
    Lookup(InOrder(t), k)
  }

  lemma {:induction false} LookupConcat(a: seq<Kid>, b: seq<Kid>, k: Key)
    ensures Lookup(a + b, k) == if Lookup(b, k).Some? then Lookup(b, k) else Lookup(a, k)
  {
    if b == [] {
      assert a + b == a;
    } else {
      var c := b[..|b| - 1];
      assert (a + b)[..|a + b| - 1] == a + c;
      LookupConcat(a, c, k);
    }
  }

  lemma {:induction false} LookupIndex(s: seq<Kid>, k: Key) returns (i: nat)
    requires Lookup(s, k).Some?
    ensures i < |s| && s[i] == Kid(k, Lookup(s, k).value)
  {
    if s[|s| - 1].key == k {
      i := |s| - 1;
    } else {
      i := LookupIndex(s[..|s| - 1], k);
    }
  }

  lemma {:induction false} LookupAt(s: seq<Kid>, i: nat)
    requires Sorted(KidCmp, s) && i < |s|
    ensures Lookup(s, s[i].key) == Some(s[i].node)
  {
    if i < |s| - 1 {
      KeyOrdAntisymmetric(s[i].key, s[|s| - 1].key);
      assert KidCmp(s[i], s[|s| - 1]) < 0;
      LookupAt(s[..|s| - 1], i);
    }
  }

  lemma HasIsLookup(s: seq<Kid>, x: Kid)
    requires Sorted(KidCmp, s)
    ensures Has(KidCmp, s, x) <==> Lookup(s, x.key).Some?
  {
    if Lookup(s, x.key).Some? {
      var i := LookupIndex(s, x.key);
      KeyOrdAntisymmetric(x.key, s[i].key);
      assert KidCmp(x, s[i]) == 0;
    }
    if Has(KidCmp, s, x) {
      var i :| 0 <= i < |s| && KidCmp(x, s[i]) == 0;
      KeyOrdAntisymmetric(x.key, s[i].key);
      LookupAt(s, i);
    }
  }

  lemma KGetSpec(t: Tree<Kid>, k: Key)
    requires KidsOk(t)
    ensures KGet(t, k) == ChildAt(t, k)
  {
    KidCmpIsComparator();
    GetFinds(KidCmp, t, Probe(k));
    HasIsLookup(InOrder(t), Probe(k));
    var r := Get(KidCmp, t, Probe(k));
    if r.Node? {
      KeyOrdAntisymmetric(k, r.data.key);
      var i :| 0 <= i < |InOrder(t)| && InOrder(t)[i] == r.data;
      LookupAt(InOrder(t), i);
    }
  }

  lemma KAddSpec(t: Tree<Kid>, k: Key, n: Node)
    requires KidsOk(t) && ChildAt(t, k).None?
    ensures KidsOk(KAdd(t, k, n))
    ensures forall k' :: ChildAt(KAdd(t, k, n), k') == if k' == k then Some(n) else ChildAt(t, k')
  {
    hide Lookup, Insert, Comparator, Sorted, SplitsAt, Has;
    var s, x := InOrder(t), Kid(k, n);
    KidCmpIsComparator();
    HasIsLookup(s, x);
    var i := InsertInserts(KidCmp, t, x);
    InsertedSorted(KidCmp, s, x, i);
    forall k' ensures ChildAt(KAdd(t, k, n), k') == if k' == k then Some(n) else ChildAt(t, k') {
      assert s[..i] + s[i..] == s;
      LookupInsert(s[..i], x, s[i..], k');
    }
  }

  lemma LookupInsert(a: seq<Kid>, x: Kid, b: seq<Kid>, k: Key)
    requires Lookup(a + b, x.key).None?
    ensures Lookup(a + [x] + b, k) == if k == x.key then Some(x.node) else Lookup(a + b, k)
  {
    LookupConcat(a + [x], b, k);
    LookupConcat(a, [x], k);
    LookupConcat(a, b, k);
    assert [x][..0] == [];
    assert Lookup([x], k) == if k == x.key then Some(x.node) else None;
  }

  lemma KDelSpec(t: Tree<Kid>, k: Key)
    requires KidsOk(t)
    ensures KidsOk(KDel(t, k))
    ensures forall k' :: ChildAt(KDel(t, k), k') == if k' == k then None else ChildAt(t, k')
  {
    hide Lookup, Comparator, Sorted, Has;
    var s := InOrder(t);
    KidCmpIsComparator();
    HasIsLookup(s, Probe(k));
    GetFinds(KidCmp, t, Probe(k));
    if ChildAt(t, k).Some? {
      var i := RemoveRemoves(KidCmp, t, Probe(k));
      CutSorted(KidCmp, s, i);
      KeyOrdAntisymmetric(k, s[i].key);
      var a, b := s[..i], s[i + 1..];
      assert s == a + [s[i]] + b;
      SortedNone(s, i);
      forall k' ensures ChildAt(KDel(t, k), k') == if k' == k then None else ChildAt(t, k') {
        LookupInsert(a, s[i], b, k');
      }
    }
  }

  lemma SortedNone(s: seq<Kid>, i: nat)
    requires Sorted(KidCmp, s) && i < |s|
    ensures Lookup(s[..i] + s[i + 1..], s[i].key).None?
  {
    var u := s[..i] + s[i + 1..];
    if Lookup(u, s[i].key).Some? {
      var j := LookupIndex(u, s[i].key);
      var j' := if j < i then j else j + 1;
      assert u[j] == s[j'];
      KeyOrdAntisymmetric(s[i].key, s[j'].key);
    }
  }

  lemma {:induction false} KSetInOrder(t: Tree<Kid>, k: Key, n: Node) returns (i: nat)
    requires KidsOk(t) && ChildAt(t, k).Some?
    ensures i < |InOrder(t)| && InOrder(t)[i].key == k
    ensures InOrder(KSet(t, k, n)) == InOrder(t)[i := Kid(k, n)]
  {
    KSetDescends(t, k);
    hide Lookup, Sorted, KeyOrd, Exact;
    var l, d, r := InOrder(t.left), t.data, InOrder(t.right);
    if KeyOrd(k, d.key) < 0 {
      i := KSetInOrder(t.left, k, n);
    } else if KeyOrd(k, d.key) > 0 {
      i := KSetInOrder(t.right, k, n);
      i := |l| + 1 + i;
    } else {
      i := |l|;
    }
    hide InOrder;
    UpdateParts(l, d, r, i, Kid(k, n));
  }

  lemma {:induction false} KSetExact(t: Tree<Kid>, k: Key, n: Node)
    requires Exact(t)
    ensures Exact(KSet(t, k, n)) && Ht(KSet(t, k, n)) == Ht(t)
  {
    hide KeyOrd;
    if t.Node? {
      KSetExact(t.left, k, n);
      KSetExact(t.right, k, n);
    }
  }

  /** The search for a present key stays on the side that holds it. */
  lemma KSetDescends(t: Tree<Kid>, k: Key)
    requires KidsOk(t) && ChildAt(t, k).Some?
    ensures t.Node? && KidsOk(t.left) && KidsOk(t.right)
    ensures KeyOrd(k, t.data.key) < 0 ==> ChildAt(t.left, k).Some?
    ensures KeyOrd(k, t.data.key) > 0 ==> ChildAt(t.right, k).Some?
    ensures KeyOrd(k, t.data.key) == 0 ==> k == t.data.key
  {
    assert t.Node?;
    hide Lookup, Comparator, Sorted, Has, KeyOrd;
    var l, d, r := InOrder(t.left), t.data, InOrder(t.right);
    KidCmpIsComparator();
    SortedParts(KidCmp, l, d, r);
    HasIsLookup(l + [d] + r, Probe(k));
    HasIsLookup(l, Probe(k));
    HasIsLookup(r, Probe(k));
    HasSide(KidCmp, l, d, r, Probe(k));
    KeyOrdAntisymmetric(k, d.key);
  }

  lemma UpdateParts(l: seq<Kid>, d: Kid, r: seq<Kid>, i: nat, x: Kid)
    requires i < |l| + 1 + |r|
    ensures (l + [d] + r)[i := x] ==
            if i < |l| then l[i := x] + [d] + r
            else if i == |l| then l + [x] + r
            else l + [d] + r[i - |l| - 1 := x]
    ensures (l + [d] + r)[i] == if i < |l| then l[i] else if i == |l| then d else r[i - |l| - 1]
  {
  }

  lemma KSetSpec(t: Tree<Kid>, k: Key, n: Node)
    requires KidsOk(t) && ChildAt(t, k).Some?
    ensures KidsOk(KSet(t, k, n))
    ensures forall k' :: ChildAt(KSet(t, k, n), k') == if k' == k then Some(n) else ChildAt(t, k')
  {
    hide Lookup;
    var s := InOrder(t);
    var i := KSetInOrder(t, k, n);
    KSetExact(t, k, n);
    var a, b := s[..i], s[i + 1..];
    assert s == a + [s[i]] + b && s[i := Kid(k, n)] == a + [Kid(k, n)] + b;
    SortedNone(s, i);
    forall k' ensures ChildAt(KSet(t, k, n), k') == if k' == k then Some(n) else ChildAt(t, k') {
      LookupInsert(a, s[i], b, k');
      LookupInsert(a, Kid(k, n), b, k');
    }
  }
}
