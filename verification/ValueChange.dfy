/** Notification in terms of values: where the hashes tell values apart, callbacks are invoked exactly when the value
    at their path, or a child of it, has changed (lib/datasync/on/on_registry.c, lib/datasync/datasync.c). */
module ValueChange {
  import opened Keys
  import opened Paths
  import opened PathTable
  import AvlTree
  import opened Kids
  import opened CacheTree
  import opened Merkle
  import opened CacheText
  import opened DataCache
  import opened OnModel
  import opened OnRegistry
  import opened Notify
  import opened ClientRuns
  import opened Separation

  /** Two trees between which the hashes tell every change: plain keys, and no collision among the digested texts. */
  ghost predicate Comparable(sha: Sha, n: Node, m: Node) {
    && ValidNode(n) && ValidNode(m) && Plain(Strip(n)) && Plain(Strip(m))
    && Distinguishes(sha, Texts(sha, n) + Texts(sha, m))
  }

  /** A value without null children, as puts and merges build it. */
  lemma {:induction false} SolidIsLean(v: Val)
    requires Solid(v)
    ensures Lean(v) == v
  {
    if v.VMap? {
      var l := Lean(v).m;
      forall k ensures k in l <==> k in v.m
        ensures k in l ==> l[k] == v.m[k]
      {
        if k in v.m {
          SolidIsLean(v.m[k]);
        }
      }
    }
  }

  // ----- the value at a path

  lemma {:induction false} PlainAt(v: Val, p: Path)
    requires Plain(v) && GetVal(v, p).Some?
    ensures Plain(GetVal(v, p).value)
    decreases p
  {
    hide PlainKey;
    if p != [] {
      var c := v.m[p[0]];
      if c.VNull? {
        assert GetVal(c, p[1..]).Some? ==> p[1..] == [];
      } else {
        PlainAt(c, p[1..]);
      }
    }
  }

  lemma {:induction false} SolidAt(v: Val, p: Path)
    requires Solid(v) && GetVal(v, p).Some?
    ensures Solid(GetVal(v, p).value) && (p != [] ==> !GetVal(v, p).value.VNull?)
    decreases p
  {
    if p != [] {
      SolidAt(v.m[p[0]], p[1..]);
    }
  }

  lemma {:induction false} TextsAt(sha: Sha, n: Node, p: Path)
    requires ValidNode(n) && GetNode(n, p).Some?
    ensures Texts(sha, GetNode(n, p).value) <= Texts(sha, n)
    decreases p
  {
    if p != [] {
      hide Texts, FreshIn;
      var k := p[0];
      KGetSpec(n.kids, k);
      ValidChild(n.kids, k);
      var i := LookupIndex(AvlTree.InOrder(n.kids), k);
      TextsOfKid(sha, n.kids, i);
      TextsInside(sha, n);
      TextsAt(sha, KGet(n.kids, k).value, p[1..]);
    }
  }

  lemma TextsInside(sha: Sha, n: Node)
    requires n.Internal?
    ensures TextsIn(sha, n.kids) <= Texts(sha, n)
  {
  }

  /** Where the hash at a path stands for its value. */
  lemma SameAtPath(sha: Sha, n: Node, m: Node, p: Path)
    requires Comparable(sha, n, m) && Solid(Strip(n)) && Solid(Strip(m))
    ensures HashBytes(sha, n, p) == HashBytes(sha, m, p) <==> GetVal(Strip(n), p) == GetVal(Strip(m), p)
  {
    hide Texts, Distinguishes, Plain, Solid, FreshHash, ValidNode, Strip, NoHash, Lean, GetVal;
    GetNodeSpec(n, p);
    GetNodeSpec(m, p);
    assert Texts(sha, n) + Texts(sha, m) == Texts(sha, m) + Texts(sha, n);
    AbsentHash(sha, n, m, p);
    AbsentHash(sha, m, n, p);
    if GetNode(n, p).Some? && GetNode(m, p).Some? {
      PlainAt(Strip(n), p);
      PlainAt(Strip(m), p);
      SolidAt(Strip(n), p);
      SolidAt(Strip(m), p);
      TextsAt(sha, n, p);
      TextsAt(sha, m, p);
      var a, b := GetNode(n, p).value, GetNode(m, p).value;
      Narrower(sha, Texts(sha, n) + Texts(sha, m), Texts(sha, a) + Texts(sha, b));
      HashSeparates(sha, a, b);
      SolidIsLean(Strip(a));
      SolidIsLean(Strip(b));
    }
  }

  /** Nothing below the root hashes like an absent value. */
  lemma AbsentHash(sha: Sha, n: Node, m: Node, p: Path)
    requires Comparable(sha, n, m) && Solid(Strip(n))
    ensures GetNode(n, p).Some? && GetNode(m, p).None? ==> HashBytes(sha, n, p) != HashBytes(sha, m, p)
  {
    hide Texts, Distinguishes, Plain, Solid, ValidNode, Strip, NoHash, GetVal, FreshHash;
    GetNodeSpec(n, p);
    if GetNode(n, p).Some? && p != [] {
      SolidAt(Strip(n), p);
      TextsAt(sha, n, p);
      var a := GetNode(n, p).value;
      Narrower(sha, Texts(sha, n) + Texts(sha, m), Texts(sha, a));
      NullStrip(a);
      SomeHash(sha, a);
    }
  }

  lemma SomeHash(sha: Sha, n: Node)
    requires Distinguishes(sha, Texts(sha, n)) && !n.Null?
    ensures FreshHash(sha, n) != NoHash()
  {
    FixedDiffer();
    hide NoHash, BoolHash, FreshIn, TextsIn;
  }

  // ----- value callbacks

  /** The value callbacks among `calls` are those of the subscriptions at whose path the value has changed, each as
      often as it is registered. */
  ghost predicate NotifiesValues(calls: seq<Call>, t: seq<Entry<Sub>>, before: Val, after: Val) {
    && (forall k, h :: 0 <= k < |t| ==>
          multiset(calls)[ValueCall(h, t[k].path)] ==
          if GetVal(before, t[k].path) != GetVal(after, t[k].path) then multiset(t[k].v.value)[h] else 0)
    && (forall c :: c in calls && c.kind.Value? ==>
          exists k :: 0 <= k < |t| && t[k].path == c.path && c.handle in t[k].v.value)
  }

  lemma ByValue(calls: seq<Call>, t: seq<Entry<Sub>>, sha: Sha, before: Node, after: Node)
    requires NotifiesExactly(calls, t, sha, before, after)
    requires Comparable(sha, before, after) && Solid(Strip(before)) && Solid(Strip(after))
    ensures NotifiesValues(calls, t, Strip(before), Strip(after))
  {
    hide Comparable, Solid, Strip, HashBytes, GetVal;
    forall p ensures HashBytes(sha, before, p) == HashBytes(sha, after, p) <==>
                     GetVal(Strip(before), p) == GetVal(Strip(after), p)
    {
      SameAtPath(sha, before, after, p);
    }
  }

  // ----- child callbacks

  /** What happened to the child `k` of `p`. */
  function ChildChange(before: Val, after: Val, p: Path, k: Key): Option<Kind> {
    var (x, y) := (GetVal(before, p + [k]), GetVal(after, p + [k]));
    if x.None? && y.Some? then Some(Added)
    else if x.Some? && y.None? then Some(Removed)
    else if x != y then Some(Changed)
    else None
  }

  function KeysAt(v: Val, p: Path): set<Key> {
    if GetVal(v, p).Some? then MapOf(GetVal(v, p).value).Keys else {}
  }

  /** `prev` is the greatest key of `ks` below `k`, or nothing if there is none. */
  ghost predicate IsPrevious(ks: set<Key>, k: Key, prev: Option<Key>) {
    match prev
    case None => forall j :: j in ks ==> KeyOrd(j, k) >= 0
    case Some(i) => i in ks && KeyOrd(i, k) < 0 && forall j :: j in ks && KeyOrd(j, k) < 0 ==> KeyOrd(j, i) <= 0
  }

  /** The child callbacks among `calls` are those of the keys that appeared, vanished or changed their value, each once
      per registration, with the previous key in the new value. */
  ghost predicate NotifiesChildren(calls: seq<Call>, t: seq<Entry<Sub>>, before: Val, after: Val) {
    forall k, h, e: Ev :: 0 <= k < |t| && !e.kind.Value? ==>
      multiset(calls)[ChildCall(h, t[k].path, e)] ==
      if ChildChange(before, after, t[k].path, e.key) == Some(e.kind)
         && IsPrevious(KeysAt(after, t[k].path), e.key, e.prev)
      then multiset(List(t[k].v, e.kind))[h] else 0
  }

  lemma {:induction false} GetBelow(v: Val, p: Path, k: Key)
    ensures GetVal(v, p + [k]) ==
            if k in KeysAt(v, p) then Some(MapOf(GetVal(v, p).value)[k]) else None
    decreases p
  {
    if p == [] {
      assert p + [k] == [k] && [k][1..] == [];
    } else if v.VMap? && p[0] in v.m {
      assert (p + [k])[1..] == p[1..] + [k];
      GetBelow(v.m[p[0]], p[1..], k);
    }
  }

  /** The listed hash of a child is the hash at its path. */
  lemma ListedHash(sha: Sha, n: Node, p: Path, k: Key)
    requires ValidNode(n)
    ensures HashOf(Children(sha, n, p), k) ==
            if k in KeysAt(Strip(n), p) then Some(HashBytes(sha, n, p + [k])) else None
  {
    hide FreshHash, ValidNode, Strip, GetVal;
    GetNodeSpec(n, p);
    GetNodeSpec(n, p + [k]);
    GetBelow(Strip(n), p, k);
    NodeBelow(n, p, k);
    if GetNode(n, p).Some? {
      ListedIn(sha, GetNode(n, p).value, k);
    }
  }

  lemma {:induction false} NodeBelow(n: Node, p: Path, k: Key)
    ensures GetNode(n, p + [k]) ==
            match GetNode(n, p)
            case Some(m) => if m.Internal? then KGet(m.kids, k) else None
            case None => None
    decreases p
  {
    if p == [] {
      assert p + [k] == [k] && [k][1..] == [];
    } else if n.Internal? && KGet(n.kids, p[0]).Some? {
      assert (p + [k])[1..] == p[1..] + [k];
      NodeBelow(KGet(n.kids, p[0]).value, p[1..], k);
    }
  }

  lemma ListedIn(sha: Sha, m: Node, k: Key)
    requires ValidNode(m)
    ensures k in MapOf(Strip(m)) ==> m.Internal? && KGet(m.kids, k).Some?
    ensures HashOf(if m.Internal? then KidHashes(sha, AvlTree.InOrder(m.kids)) else [], k) ==
            if k in MapOf(Strip(m)) then Some(FreshHash(sha, KGet(m.kids, k).value)) else None
  {
    hide FreshHash;
    if m.Internal? {
      StripInAt(m.kids, k);
      KGetSpec(m.kids, k);
      HashOfLookup(sha, AvlTree.InOrder(m.kids), k);
      hide Strip, ValidNode;
    }
  }

  lemma {:induction false} HashOfAt(a: seq<KidHash>, i: nat)
    requires InOrderKeys(a) && i < |a|
    ensures HashOf(a, a[i].key) == Some(a[i].hash)
  {
    hide KeyOrd;
    if i > 0 {
      KeyOrdAntisymmetric(a[0].key, a[i].key);
      assert KeyOrd(a[0].key, a[i].key) < 0;
      HashOfAt(a[1..], i - 1);
    }
  }

  lemma {:induction false} HashOfIndex(a: seq<KidHash>, k: Key) returns (i: nat)
    requires HashOf(a, k).Some?
    ensures i < |a| && a[i].key == k
  {
    if a[0].key == k {
      i := 0;
    } else {
      i := HashOfIndex(a[1..], k);
      i := i + 1;
    }
  }

  lemma HashOfLookup(sha: Sha, s: seq<Kid>, k: Key)
    requires AvlTree.Sorted(KidCmp, s)
    ensures HashOf(KidHashes(sha, s), k) ==
            if Lookup(s, k).Some? then Some(FreshHash(sha, Lookup(s, k).value)) else None
  {
    hide FreshHash, Lookup, KeyOrd, HashOf;
    var a := KidHashes(sha, s);
    forall i, j | 0 <= i < j < |a| ensures KeyOrd(a[i].key, a[j].key) < 0 {
      assert KidCmp(s[i], s[j]) < 0;
    }
    if Lookup(s, k).Some? {
      var i := LookupIndex(s, k);
      HashOfAt(a, i);
    }
    if HashOf(a, k).Some? {
      var i := HashOfIndex(a, k);
      LookupAt(s, i);
    }
  }

  // ----- the previous key

  /** The last key below `k`, or `start` if there is none. */
  lemma {:induction false} PredLast(a: seq<KidHash>, k: Key, start: Option<Key>)
    requires InOrderKeys(a)
    ensures (Pred(a, k, start) == start && forall j :: 0 <= j < |a| ==> KeyOrd(a[j].key, k) >= 0)
            || exists i :: 0 <= i < |a| && Pred(a, k, start) == Some(a[i].key) && KeyOrd(a[i].key, k) < 0
                           && forall j :: i < j < |a| ==> KeyOrd(a[j].key, k) >= 0
  {
    hide KeyOrd;
    if a != [] && KeyOrd(a[0].key, k) < 0 {
      var b := a[1..];
      PredLast(b, k, Some(a[0].key));
      if i :| 0 <= i < |b| && Pred(b, k, Some(a[0].key)) == Some(b[i].key) && KeyOrd(b[i].key, k) < 0
              && forall j :: i < j < |b| ==> KeyOrd(b[j].key, k) >= 0 {
        forall j | i + 1 < j < |a| ensures KeyOrd(a[j].key, k) >= 0 {
          assert a[j] == b[j - 1];
        }
        assert Pred(a, k, start) == Some(a[i + 1].key);
      } else {
        forall j | 0 < j < |a| ensures KeyOrd(a[j].key, k) >= 0 {
          assert a[j] == b[j - 1];
        }
      }
    } else if a != [] {
      forall j | 0 <= j < |a| ensures KeyOrd(a[j].key, k) >= 0 {
        if j > 0 && KeyOrd(a[j].key, k) < 0 {
          KeyOrdTransitive(a[0].key, a[j].key, k);
          KeyOrdAntisymmetric(a[0].key, k);
          KeyOrdAntisymmetric(a[j].key, k);
        }
      }
    }
  }

  lemma OnePrevious(ks: set<Key>, k: Key, x: Option<Key>, y: Option<Key>)
    requires IsPrevious(ks, k, x) && IsPrevious(ks, k, y)
    ensures x == y
  {
    hide KeyOrd;
    if x.Some? && y.Some? {
      KeyOrdAntisymmetric(x.value, y.value);
    }
  }

  lemma PredIsPrevious(a: seq<KidHash>, ks: set<Key>, k: Key, prev: Option<Key>)
    requires InOrderKeys(a) && forall j :: j in ks <==> HashOf(a, j).Some?
    ensures Pred(a, k, None) == prev <==> IsPrevious(ks, k, prev)
  {
    hide KeyOrd, HashOf, Pred;
    PredLast(a, k, None);
    var x := Pred(a, k, None);
    forall j | j in ks ensures exists i :: 0 <= i < |a| && a[i].key == j {
      var i := HashOfIndex(a, j);
    }
    if i :| 0 <= i < |a| && x == Some(a[i].key) && KeyOrd(a[i].key, k) < 0
            && forall j :: i < j < |a| ==> KeyOrd(a[j].key, k) >= 0 {
      HashOfAt(a, i);
      KeyOrdAntisymmetric(a[i].key, a[i].key);
    }
    assert IsPrevious(ks, k, x);
    if IsPrevious(ks, k, prev) {
      OnePrevious(ks, k, x, prev);
    }
  }

  lemma ChangeIsChange(sha: Sha, before: Node, after: Node, p: Path, k: Key)
    requires Comparable(sha, before, after) && Solid(Strip(before)) && Solid(Strip(after))
    ensures Change(Children(sha, after, p), Children(sha, before, p), k) ==
            ChildChange(Strip(before), Strip(after), p, k)
  {
    assert ValidNode(before) && ValidNode(after);
    hide Comparable, Solid, Strip, HashBytes, Children, GetVal, HashOf, KeysAt, ValidNode;
    ListedHash(sha, before, p, k);
    ListedHash(sha, after, p, k);
    GetBelow(Strip(before), p, k);
    GetBelow(Strip(after), p, k);
    SameAtPath(sha, before, after, p + [k]);
  }

  lemma KidsByValue(calls: seq<Call>, t: seq<Entry<Sub>>, sha: Sha, before: Node, after: Node)
    requires NotifiesKids(calls, t, sha, before, after)
    requires Comparable(sha, before, after) && Solid(Strip(before)) && Solid(Strip(after))
    ensures NotifiesChildren(calls, t, Strip(before), Strip(after))
  {
    assert ValidNode(after);
    hide Comparable, Solid, Strip, Children, GetVal, HashOf, Pred, Change, ChildChange, KeysAt, IsPrevious, ValidNode;
    hide InOrderKeys, List;
    forall k, h: Handle, e: Ev | 0 <= k < |t| && !e.kind.Value?
      ensures multiset(calls)[ChildCall(h, t[k].path, e)] ==
              if ChildChange(Strip(before), Strip(after), t[k].path, e.key) == Some(e.kind)
                 && IsPrevious(KeysAt(Strip(after), t[k].path), e.key, e.prev)
              then multiset(List(t[k].v, e.kind))[h] else 0
    {
      var p := t[k].path;
      ChangeIsChange(sha, before, after, p, e.key);
      ChildrenInOrder(sha, after, p);
      forall j ensures j in KeysAt(Strip(after), p) <==> HashOf(Children(sha, after, p), j).Some? {
        ListedHash(sha, after, p, j);
      }
      PredIsPrevious(Children(sha, after, p), KeysAt(Strip(after), p), e.key, e.prev);
    }
  }

  // ----- runs

  lemma PutSolid(v: Val, p: Path, doc: Json)
    requires Solid(v)
    ensures Solid(PutVal(v, p, FromJson(doc), false))
  {
    SolidFromJson(doc);
    SolidPut(v, p, FromJson(doc), false);
  }

  lemma StepSolid(sha: Sha, w: World, a: Act, w': World)
    requires Next(sha, w, a, w') && Solid(Strip(w.root))
    ensures Solid(Strip(w'.root))
  {
    hide Solid, PutVal, MergeVal, FromJson, Strip, Ordered, ToMap, ValidNode, Joined, Told, Dispatched;
    match a
    case PutPush(p, doc, _) => PutSolid(Strip(w.root), p, doc);
    case MergePush(p, ms, _) => SolidMerge(Strip(w.root), p, ms, |ms|);
    case _ =>
  }

  /** The client stores no null children. */
  lemma {:induction false} RunIsSolid(sha: Sha, acts: seq<Act>, ws: seq<World>, k: nat)
    requires IsClientRun(sha, acts, ws) && k < |ws|
    ensures Solid(Strip(ws[k].root))
  {
    hide Next;
    if k > 0 {
      RunIsSolid(sha, acts, ws, k - 1);
      hide Solid, Strip, IsStart;
      StepSolid(sha, ws[k - 1], acts[k - 1], ws[k]);
    }
  }

  /** In every run whose registrations hear, a data push invokes each value callback exactly if the value at its path
      has changed, and each child callback exactly for the children that appeared, vanished or changed, provided that
      the hashes tell the two values apart. */
  lemma RunNotifiesValues(sha: Sha, acts: seq<Act>, ws: seq<World>, k: nat)
    requires IsClientRun(sha, acts, ws) && k < |acts| && (acts[k].PutPush? || acts[k].MergePush?)
    requires forall j :: 0 <= j < k ==> Hears(sha, ws[j], acts[j])
    requires Comparable(sha, ws[k].root, ws[k + 1].root)
    ensures NotifiesValues(NewCalls(ws[k], ws[k + 1]), ws[k].subs, Strip(ws[k].root), Strip(ws[k + 1].root))
    ensures NotifiesChildren(NewCalls(ws[k], ws[k + 1]), ws[k].subs, Strip(ws[k].root), Strip(ws[k + 1].root))
  {
    RunNotifies(sha, acts, ws, k);
    RunIsSolid(sha, acts, ws, k);
    RunIsSolid(sha, acts, ws, k + 1);
    hide IsClientRun, Hears, Comparable, Solid, Strip, NotifiesExactly, NotifiesKids, NewCalls;
    ByValue(NewCalls(ws[k], ws[k + 1]), ws[k].subs, sha, ws[k].root, ws[k + 1].root);
    KidsByValue(NewCalls(ws[k], ws[k + 1]), ws[k].subs, sha, ws[k].root, ws[k + 1].root);
  }

  // ----- a key with a colon

  function TwoKeys(): Json {
    JObj([Member(Name("a"), JBool(true)), Member(Name("b"), JBool(true))])
  }

  /** A key that reads like the text of the first child, and of the second up to its hash. */
  function LongKey(): string {
    "a:" + BoolHash(true) + ":b"
  }

  function OneKey(): Json {
    JObj([Member(Name(LongKey()), JBool(true))])
  }

  lemma ColonValues()
    ensures WellFormed(TwoKeys()) && WellFormed(OneKey())
    ensures FromJson(TwoKeys()) == VMap(map[Name("a") := VBool(true), Name("b") := VBool(true)])
    ensures FromJson(OneKey()) == VMap(map[Name(LongKey()) := VBool(true)])
    ensures FromJson(TwoKeys()) != FromJson(OneKey())
  {
    hide LongKey;
    var ms, ns := TwoKeys().ms, OneKey().ms;
    assert FromObj(ms, 0) == map[] && FromObj(ns, 0) == map[];
    assert FromObj(ms, 1) == map[Name("a") := VBool(true)];
    assert FromObj(ms, 2) == map[Name("a") := VBool(true), Name("b") := VBool(true)];
    assert FromObj(ns, 1) == map[Name(LongKey()) := VBool(true)];
    var m, n := FromJson(TwoKeys()).m, FromJson(OneKey()).m;
    assert |m| == 2 && |n| == 1;
  }

  lemma ColonTexts()
    ensures Piece(Name("a"), false, BoolHash(true)) + Piece(Name("b"), false, BoolHash(true)) ==
            Piece(Name(LongKey()), false, BoolHash(true))
  {
    hide BoolHash;
    var h := BoolHash(true);
    assert ":" + "a" + ":" + h + (":" + "b" + ":" + h) == ":" + ("a:" + h + ":b") + ":" + h;
  }

  function TwoNode(): Node {
    Internal(AvlTree.Node(AvlTree.Leaf, Kid(Name("a"), Bool(true)),
                          AvlTree.Node(AvlTree.Leaf, Kid(Name("b"), Bool(true)), AvlTree.Leaf, 1), 2), None)
  }

  function OneNode(): Node {
    Internal(AvlTree.Node(AvlTree.Leaf, Kid(Name(LongKey()), Bool(true)), AvlTree.Leaf, 1), None)
  }

  lemma ColonNodes()
    ensures ValidNode(TwoNode()) && Strip(TwoNode()) == FromJson(TwoKeys())
    ensures ValidNode(OneNode()) && Strip(OneNode()) == FromJson(OneKey())
  {
    hide LongKey, FromJson;
    ColonValues();
    TwoNodeIs();
    OneNodeIs(Name(LongKey()));
    hide ValidNode, Strip;
  }

  lemma TwoNodeIs()
    ensures ValidNode(TwoNode())
    ensures Strip(TwoNode()) == VMap(map[Name("a") := VBool(true), Name("b") := VBool(true)])
  {
    var t := TwoNode().kids;
    assert AvlTree.InOrder(t.right) == [Kid(Name("b"), Bool(true))];
    assert AvlTree.InOrder(t) == [Kid(Name("a"), Bool(true)), Kid(Name("b"), Bool(true))];
    assert StrCmp("a", "b") < 0;
    assert StripIn(t.right) == map[Name("b") := VBool(true)];
  }

  lemma OneNodeIs(k: Key)
    ensures var n := Internal(AvlTree.Node(AvlTree.Leaf, Kid(k, Bool(true)), AvlTree.Leaf, 1), None);
            ValidNode(n) && Strip(n) == VMap(map[k := VBool(true)])
  {
    NoKidsValid();
    OneKid(k, AvlTree.Leaf);
  }

  lemma OneKid(k: Key, l: AvlTree.Tree<Kid>)
    requires l.Leaf? && ValidIn(l) && StripIn(l) == map[]
    ensures var t := AvlTree.Node(l, Kid(k, Bool(true)), l, 1);
            KidsOk(t) && ValidIn(t) && StripIn(t) == map[k := VBool(true)]
  {
    var t := AvlTree.Node(l, Kid(k, Bool(true)), l, 1);
    assert AvlTree.InOrder(t) == [Kid(k, Bool(true))];
    assert StripIn(t) == StripIn(l) + map[k := Strip(Bool(true))] + StripIn(l);
  }

  lemma ColonHash(sha: Sha)
    ensures FreshHash(sha, TwoNode()) == FreshHash(sha, OneNode())
  {
    hide LongKey, Piece, BoolHash;
    ColonTexts();
    var a, b := Piece(Name("a"), false, BoolHash(true)), Piece(Name("b"), false, BoolHash(true));
    var l: AvlTree.Tree<Kid> := AvlTree.Leaf;
    OneText(sha, Name("b"), l, l, 1);
    OneText(sha, Name(LongKey()), l, l, 1);
    OneText(sha, Name("a"), l, TwoNode().kids.right, 2);
    assert a + (b + "") == a + b;
    assert a + b + "" == a + b;
  }

  lemma OneText(sha: Sha, k: Key, l: AvlTree.Tree<Kid>, r: AvlTree.Tree<Kid>, h: int)
    requires l.Leaf?
    ensures FreshIn(sha, l) == ""
    ensures FreshIn(sha, AvlTree.Node(l, Kid(k, Bool(true)), r, h)) ==
            Piece(k, false, BoolHash(true)) + FreshIn(sha, r)
  {
    hide Piece, BoolHash;
    var p := Piece(k, false, BoolHash(true));
    assert FreshHash(sha, Bool(true)) == BoolHash(true);
    assert FreshIn(sha, AvlTree.Node(l, Kid(k, Bool(true)), r, h)) == "" + p + FreshIn(sha, r);
  }

  /** The texts that are digested for a number and a string. */
  lemma LeafTextsAre(sha: Sha, h: string, s: string)
    ensures FreshHash(sha, Num(h, None)) == sha("number:" + h) && FreshHash(sha, Str(s, None)) == sha("string:" + s)
  {
  }

  /** And for a map. */
  lemma MapTextIs(sha: Sha)
    ensures FreshHash(sha, TwoNode()) == sha(":" + "a" + ":" + BoolHash(true) + ":" + "b" + ":" + BoolHash(true))
  {
    hide Piece, BoolHash;
    var l: AvlTree.Tree<Kid> := AvlTree.Leaf;
    OneText(sha, Name("b"), l, l, 1);
    OneText(sha, Name("a"), l, TwoNode().kids.right, 2);
    var h := BoolHash(true);
    TwoPieces(Name("a"), Name("b"), h);
    assert FreshHash(sha, TwoNode()) == sha(FreshIn(sha, TwoNode().kids));
  }

  lemma TwoPieces(j: Key, k: Key, h: string)
    ensures Piece(j, false, h) + (Piece(k, false, h) + "") == ":" + Spell(j) + ":" + h + ":" + Spell(k) + ":" + h
  {
    hide Spell;
  }

  /** Two different values with one hash, whatever the digest is. */
  lemma ColonHides(sha: Sha, n: Node, m: Node, p: Path)
    requires ValidNode(n) && GetVal(Strip(n), p) == Some(FromJson(TwoKeys()))
    requires ValidNode(m) && GetVal(Strip(m), p) == Some(FromJson(OneKey()))
    ensures GetVal(Strip(n), p) != GetVal(Strip(m), p) && HashBytes(sha, n, p) == HashBytes(sha, m, p)
  {
    hide FromJson, Strip, ValidNode, FreshHash, TwoNode, OneNode, TwoKeys, OneKey, GetVal;
    ColonValues();
    ColonNodes();
    ColonHash(sha);
    GetNodeSpec(n, p);
    GetNodeSpec(m, p);
    HashOfContents(sha, GetNode(n, p).value, TwoNode());
    HashOfContents(sha, GetNode(m, p).value, OneNode());
  }

  /** A put that replaces the one by the other is not notified at its path. */
  lemma ColonUnheard(sha: Sha, w: World, p: Path, answers: Call -> bool, w': World, h: Handle)
    requires Sound(w) && InStep(sha, w) && GetVal(Strip(w.root), p) == Some(FromJson(TwoKeys()))
    requires Next(sha, w, PutPush(p, OneKey(), answers), w')
    ensures GetVal(Strip(w'.root), p) != GetVal(Strip(w.root), p)
    ensures ValueCall(h, p) !in NewCalls(w, w')
  {
    PushNotifies(sha, w, PutPush(p, OneKey(), answers), w');
    assert ValidNode(w.root) && ValidNode(w'.root);
    assert Strip(w'.root) == PutVal(Strip(w.root), p, FromJson(OneKey()), false);
    hide Sound, InStep, Next, Strip, FromJson, HashBytes, TwoKeys, OneKey, PutVal, GetVal, ValidNode, NewCalls;
    ColonValues();
    GetPutSame(Strip(w.root), p, FromJson(OneKey()), false);
    ColonHides(sha, w.root, w'.root, p);
    var calls := NewCalls(w, w');
    assert ValueCall(h, p) in calls ==> ValueCall(h, p) in multiset(calls);
    assert forall k :: 0 <= k < |w.subs| && w.subs[k].path == p ==>
        multiset(calls)[ValueCall(h, w.subs[k].path)] == 0;
  }
}
