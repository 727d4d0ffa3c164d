/** The JSON text of a cached value (lib/datasync/cache/treenode.c): it depends on the contents only, and the
    text of everything that puts and merges build reads back. */
module CacheText {
  import opened Keys
  import opened Paths
  import opened AvlTree
  import opened Kids
  import opened CacheTree
  import opened Merkle
  import opened JsonText
  import JD = JsonDoc

  /** The text "%.16g" of a number, given by its hexadecimal image. */
  type Fmt = string -> string

  /** A treenode as `treenode_to_json` walks it. */
  ghost function DocOf(fmt: Fmt, n: Node): JD.Doc {
    match n
    case Null => JD.DNull
    case Bool(b) => JD.DBool(b)
    case Num(h, _) => JD.DNum(fmt(h))
    case Str(s, _) => JD.DStr(s)
    case Internal(kids, _) => JD.DObj(MembersOf(fmt, kids))
  }

  ghost function MembersOf(fmt: Fmt, t: Tree<Kid>): seq<JD.Entry> {
    if t.Leaf? then []
    else MembersOf(fmt, t.left) + [JD.Entry(Spell(t.data.key), DocOf(fmt, t.data.node))] + MembersOf(fmt, t.right)
  }

  lemma {:induction false} MembersInOrder(fmt: Fmt, t: Tree<Kid>)
    ensures |MembersOf(fmt, t)| == |InOrder(t)|
    ensures forall i :: 0 <= i < |InOrder(t)| ==>
              MembersOf(fmt, t)[i] == JD.Entry(Spell(InOrder(t)[i].key), DocOf(fmt, InOrder(t)[i].node))
  {
    hide DocOf, Spell;
    if t.Node? {
      MembersInOrder(fmt, t.left);
      MembersInOrder(fmt, t.right);
    }
  }

  /** Two valid nodes with the same contents print the same, whatever the shapes of their trees. */
  lemma {:induction false} TextOfContents(fmt: Fmt, a: Node, b: Node)
    requires ValidNode(a) && ValidNode(b) && Strip(a) == Strip(b)
    ensures DocOf(fmt, a) == DocOf(fmt, b)
    decreases Size(a)
  {
    if a.Internal? {
      hide Strip, StripIn, ValidIn, Spell, Sorted, Exact, InOrder;
      var s, u := InOrder(a.kids), InOrder(b.kids);
      KidsOfValid(a);
      KidsOfValid(b);
      SameKeys(a.kids, b.kids);
      assert |s| == |KeysOf(s)| == |KeysOf(u)| == |u|;
      MembersInOrder(fmt, a.kids);
      MembersInOrder(fmt, b.kids);
      forall i | 0 <= i < |s| ensures MembersOf(fmt, a.kids)[i] == MembersOf(fmt, b.kids)[i] {
        SameKid(a.kids, b.kids, i);
        SizeKid(a.kids, i);
        TextOfContents(fmt, s[i].node, u[i].node);
      }
    }
  }

  // ----- values without null children

  ghost predicate Solid(v: Val) {
    v.VMap? ==> forall k :: k in v.m ==> !v.m[k].VNull? && Solid(v.m[k])
  }

  ghost predicate SolidDoc(d: JD.Doc) {
    d.DObj? ==> forall i :: 0 <= i < |d.ms| ==> !d.ms[i].value.DNull? && SolidDoc(d.ms[i].value)
  }

  lemma {:induction false} SolidFromJson(j: Json)
    ensures Solid(FromJson(j))
  {
    match j
    case JArr(es) => SolidFromArr(es, |es|);
    case JObj(ms) => SolidFromObj(ms, |ms|);
    case _ =>
  }

  lemma {:induction false} SolidFromArr(es: seq<Json>, n: nat)
    requires n <= |es|
    ensures Solid(VMap(FromArr(es, n)))
    decreases es, n
  {
    if n > 0 {
      SolidFromArr(es, n - 1);
      SolidFromJson(es[n - 1]);
    }
  }

  lemma {:induction false} SolidFromObj(ms: seq<Member>, n: nat)
    requires n <= |ms|
    ensures Solid(VMap(FromObj(ms, n)))
    decreases ms, n
  {
    if n > 0 {
      SolidFromObj(ms, n - 1);
      assert ms[n - 1] in ms && ms[n - 1].value < ms[n - 1];
      SolidFromJson(ms[n - 1].value);
    }
  }

  lemma {:induction false} SolidPut(v: Val, p: Path, x: Val, keepNull: bool)
    requires Solid(v) && Solid(x) && (x.VNull? ==> !keepNull)
    ensures Solid(PutVal(v, p, x, keepNull))
    decreases p
  {
    if |p| >= 2 {
      var m := MapOf(v);
      SolidPut(if p[0] in m then m[p[0]] else VNull, p[1..], x, keepNull);
    }
  }

  lemma {:induction false} SolidMake(v: Val, p: Path)
    requires Solid(v)
    ensures Solid(MakeVal(v, p))
    decreases p
  {
    if p != [] {
      var m := MapOf(v);
      SolidMake(if p[0] in m then m[p[0]] else VNull, p[1..]);
    }
  }

  lemma {:induction false} SolidMerge(v: Val, p: Path, ms: seq<Update>, i: nat)
    requires Solid(v) && i <= |ms|
    ensures Solid(MergeVal(v, p, ms, i))
  {
    if i > 0 {
      SolidMerge(v, p, ms, i - 1);
      SolidFromJson(ms[i - 1].value);
      SolidPut(MergeVal(v, p, ms, i - 1), p + ms[i - 1].below, FromJson(ms[i - 1].value), false);
    }
  }

  /** Only `data_cache_set_leaf` stores a null, below the root. */
  predicate StoresNull(op: CacheOp) {
    op.PutLeaf? && op.leaf.JNull?
  }

  lemma {:induction false} RunSolid(ops: seq<CacheOp>)
    requires forall i :: 0 <= i < |ops| ==> !StoresNull(ops[i]) && Proper(ops[i])
    ensures Solid(RunVal(ops))
  {
    if ops != [] {
      var v, op := RunVal(ops[..|ops| - 1]), ops[|ops| - 1];
      RunSolid(ops[..|ops| - 1]);
      match op
      case Put(p, j) =>
        SolidFromJson(j);
        SolidPut(v, p, FromJson(j), false);
      case PutLeaf(p, j) =>
        SolidPut(v, p, FromJson(j), true);
      case Make(p) => SolidMake(v, p);
      case Merge(p, ms) => SolidMerge(v, p, ms, |ms|);
      case Read(_) =>
    }
  }

  lemma {:induction false} SolidPrints(fmt: Fmt, n: Node)
    requires ValidNode(n) && Solid(Strip(n))
    ensures SolidDoc(DocOf(fmt, n))
    decreases Size(n)
  {
    if n.Internal? {
      var s := InOrder(n.kids);
      hide Strip, StripIn, ValidIn, Spell, Sorted, Exact, InOrder, Lookup;
      KidsOfValid(n);
      MembersInOrder(fmt, n.kids);
      ValidInAll(n.kids);
      forall i | 0 <= i < |s| ensures !s[i].node.Null? && SolidDoc(DocOf(fmt, s[i].node)) {
        LookupAt(s, i);
        StripInAt(n.kids, s[i].key);
        SizeKid(n.kids, i);
        SolidChild(s[i].node, MapOf(Strip(n)), s[i].key);
        SolidPrints(fmt, s[i].node);
      }
    }
  }

  lemma SolidChild(n: Node, m: map<Key, Val>, k: Key)
    requires Solid(VMap(m)) && k in m && m[k] == Strip(n)
    ensures !n.Null? && Solid(Strip(n))
  {
  }

  lemma {:induction false} SolidIsClean(d: JD.Doc)
    requires SolidDoc(d)
    ensures JD.Clean(d) <==> JD.Finite(d)
    ensures JD.Pruned(d) == d
    decreases d, 1
  {
    if d.DObj? {
      SolidMembers(d.ms);
    }
  }

  lemma {:induction false} SolidMembers(ms: seq<JD.Entry>)
    requires SolidDoc(JD.DObj(ms))
    ensures JD.CleanMembers(ms) <==> JD.Finite(JD.DObj(ms))
    ensures JD.PrunedMembers(ms) == ms
    decreases ms, 0
  {
    if ms != [] {
      hide JD.IsNumber;
      var rest := ms[1..];
      SolidIsClean(ms[0].value);
      SolidMembers(rest);
      assert ms == [ms[0]] + rest;
      assert |ms| > 1 ==> !rest[0].value.DNull?;
      assert JD.Finite(JD.DObj(rest)) <==> forall i :: 1 <= i < |ms| ==> JD.Finite(ms[i].value) by {
        assert forall i :: 1 <= i < |ms| ==> ms[i] == rest[i - 1];
      }
    }
  }

  // ----- the text of the cache

  /** `fmt` gives texts that "%.16g" can give. */
  ghost predicate Formats(fmt: Fmt) {
    forall h :: JD.IsNumber(fmt(h)) || JD.NonFinite(fmt(h))
  }

  lemma {:induction false} FormattedText(fmt: Fmt, n: Node)
    requires Formats(fmt)
    ensures JD.Formatted(DocOf(fmt, n))
    decreases n
  {
    hide JD.IsNumber, JD.NonFinite;
    if n.Internal? {
      FormattedMembers(fmt, n.kids);
    }
  }

  lemma {:induction false} FormattedMembers(fmt: Fmt, t: Tree<Kid>)
    requires Formats(fmt)
    ensures forall i :: 0 <= i < |MembersOf(fmt, t)| ==> JD.Formatted(MembersOf(fmt, t)[i].value)
    decreases t
  {
    hide Formats, JD.Formatted, Spell;
    if t.Node? {
      FormattedMembers(fmt, t.left);
      FormattedText(fmt, t.data.node);
      FormattedMembers(fmt, t.right);
    }
  }

  /** After any run that stores no null, the text of the cache is one JSON document if and only if every stored
      number is finite, and reading it gives back exactly the members that were printed. */
  lemma RunPrintsBack(fmt: Fmt, sha: Sha, ops: seq<CacheOp>)
    requires AllProper(ops) && forall i :: 0 <= i < |ops| ==> !StoresNull(ops[i])
    requires Formats(fmt)
    ensures var d := DocOf(fmt, Merkle.Run(sha, ops));
            JD.ReadDoc(JD.Print(d)) == if JD.Finite(d) then Got(d, "") else Fail
  {
    var n := Merkle.Run(sha, ops);
    RunSolid(ops);
    hide Solid, RunVal, Merkle.Run, Strip, ValidNode, Coherent, DocOf, SolidDoc;
    hide JD.Formatted, JD.Finite, JD.Clean, JD.Print, JD.ReadDoc;
    SolidPrints(fmt, n);
    SolidIsClean(DocOf(fmt, n));
    FormattedText(fmt, n);
    JD.PrintReadsBack(DocOf(fmt, n), "");
    assert JD.Print(DocOf(fmt, n)) + "" == JD.Print(DocOf(fmt, n));
  }

  /** A cache whose text is no JSON: one leaf, and a null stored beside it by `data_cache_set_leaf`. */
  function TwoLeaves(): seq<CacheOp> {
    [PutLeaf([Name("a")], JBool(true)), PutLeaf([Name("b")], JNull)]
  }

  lemma NullLeafHangs(fmt: Fmt, sha: Sha)
    ensures AllProper(TwoLeaves())
    ensures var d := DocOf(fmt, Merkle.Run(sha, TwoLeaves()));
            JD.Print(d) == "{\"a\":true,}" && JD.ReadDoc(JD.Print(d)).Fail?
  {
    hide Merkle.Run, RunVal, Strip, ValidNode, Coherent, MembersOf, JD.Print, JD.ReadDoc;
    var n := Merkle.Run(sha, TwoLeaves());
    var b := Node(Leaf, Kid(Name("b"), Null), Leaf, 1);
    var m := Internal(Node(Leaf, Kid(Name("a"), Bool(true)), b, 2), None);
    TwoLeavesValue();
    TwoLeavesNode(m, b);
    TextOfContents(fmt, n, m);
    TwoMembers(fmt, m, b);
    JD.HangingCommaExample();
  }

  lemma TwoMembers(fmt: Fmt, m: Node, b: Tree<Kid>)
    requires b == Node(Leaf, Kid(Name("b"), Null), Leaf, 1)
    requires m == Internal(Node(Leaf, Kid(Name("a"), Bool(true)), b, 2), None)
    ensures MembersOf(fmt, m.kids) == [JD.Entry("a", JD.DBool(true)), JD.Entry("b", JD.DNull)]
  {
    assert MembersOf(fmt, b) == [JD.Entry("b", JD.DNull)];
  }

  lemma TwoLeavesValue()
    ensures RunVal(TwoLeaves()) == VMap(map[Name("a") := VBool(true), Name("b") := VNull])
  {
    var ops := TwoLeaves();
    assert ops[..1] == [ops[0]] && ops[..0] == [] && ops[..1][..0] == [];
    assert RunVal([]) == VNull;
    assert RunVal(ops[..1]) == VMap(map[Name("a") := VBool(true)]);
  }

  lemma TwoLeavesNode(m: Node, b: Tree<Kid>)
    requires b == Node(Leaf, Kid(Name("b"), Null), Leaf, 1)
    requires m == Internal(Node(Leaf, Kid(Name("a"), Bool(true)), b, 2), None)
    ensures ValidNode(m) && Strip(m) == VMap(map[Name("a") := VBool(true), Name("b") := VNull])
  {
    assert InOrder(b) == [Kid(Name("b"), Null)];
    assert InOrder(m.kids) == [Kid(Name("a"), Bool(true)), Kid(Name("b"), Null)];
    assert StrCmp("a", "b") < 0;
    assert StripIn(b) == map[Name("b") := VNull];
  }
}
