/** lib/collection/avl.c on linked nodes: links and heights are rewritten in place. Each method is
    proved to leave the linked tree that the function of the same name in `AvlTree` computes. */
module AvlHeap {
  import opened T = AvlTree

  class AvlNode<X> {
    var l: AvlNode?<X>
    var r: AvlNode?<X>
    var height: int
    var data: X
    ghost var repr: set<AvlNode<X>>  // the nodes of this subtree
    ghost var tree: Tree<X>          // its value

    constructor (x: X)
      ensures Valid() && tree == Node(Leaf, x, Leaf, 1) && repr == {this}
    {
      l, r, height, data := null, null, 1, x;
      repr := {this};
      tree := Node(Leaf, x, Leaf, 1);
    }

    /** The two subtrees are well formed and share no node with each other or with this one. */
    ghost predicate Shell()
      reads this, l, r, Nodes(l), Nodes(r)
    {
      && (l != null ==> this !in l.repr && l.Valid())
      && (r != null ==> this !in r.repr && r.Valid())
      && (l != null && r != null ==> l.repr !! r.repr)
    }

    ghost predicate Valid()
      reads this, repr
      decreases repr
    {
      && this in repr
      && (l != null ==> l in repr && l.repr <= repr && this !in l.repr && l.Valid())
      && (r != null ==> r in repr && r.repr <= repr && this !in r.repr && r.Valid())
      && (l != null && r != null ==> l.repr !! r.repr)
      && tree == Node(Value(l), data, Value(r), height)
    }
  }

  ghost function Value<X>(n: AvlNode?<X>): Tree<X>
    reads n
  {
    if n == null then Leaf else n.tree
  }

  ghost function Nodes<X>(n: AvlNode?<X>): set<AvlNode<X>>
    reads n
  {
    if n == null then {} else n.repr
  }

  ghost predicate Linked<X>(n: AvlNode?<X>)
    reads n, Nodes(n)
  {
    n != null ==> n.Valid()
  }

  method UpdateHeight<X>(n: AvlNode<X>)
    requires n.Shell()
    modifies n`height, n`repr, n`tree
    ensures n.Valid()
    ensures n.tree == Fix(Value(n.l), n.data, Value(n.r))
    ensures n.repr <= {n} + Nodes(n.l) + Nodes(n.r)
  {
    var h := 0;
    if n.l != null && n.l.height > h {
      h := n.l.height;
    }
    if n.r != null && n.r.height > h {
      h := n.r.height;
    }
    n.height := h + 1;
    n.repr := {n} + Nodes(n.l) + Nodes(n.r);
    n.tree := Node(Value(n.l), n.data, Value(n.r), n.height);
  }

  method RotateLeft<X>(n: AvlNode<X>) returns (r: AvlNode<X>)
    requires n.Shell() && n.r != null
    modifies n, n.r
    ensures r.Valid()
    ensures r.tree == RotL(old(Value(n.l)), old(n.data), old(Value(n.r)))
    ensures r.repr <= {n} + old(Nodes(n.l)) + old(Nodes(n.r))
  {
    r := n.r;
    assert r.l != null ==> r !in r.l.repr && n !in r.l.repr && r.l.Valid();
    n.r := r.l;
    r.l := n;
    UpdateHeight(n);
    UpdateHeight(r);
  }

  method RotateRight<X>(n: AvlNode<X>) returns (l: AvlNode<X>)
    requires n.Shell() && n.l != null
    modifies n, n.l
    ensures l.Valid()
    ensures l.tree == RotR(old(Value(n.l)), old(n.data), old(Value(n.r)))
    ensures l.repr <= {n} + old(Nodes(n.l)) + old(Nodes(n.r))
  {
    l := n.l;
    assert l.r != null ==> l !in l.r.repr && n !in l.r.repr && l.r.Valid();
    n.l := l.r;
    l.r := n;
    UpdateHeight(n);
    UpdateHeight(l);
  }

  function StoredHeight<X>(n: AvlNode?<X>): int
    reads n
  {
    if n == null then 0 else n.height
  }

  lemma StoredHeightIsHt<X>(n: AvlNode?<X>)
    requires Linked(n)
    ensures StoredHeight(n) == Ht(Value(n))
  {
  }

  /** `avl_delta`. */
  function NodeDelta<X>(n: AvlNode<X>): int
    reads n, n.l, n.r
  {
    StoredHeight(n.l) - StoredHeight(n.r)
  }

  /** The first branch of `avl_balance`: the right side is too tall. */
  method RaiseRight<X>(n: AvlNode<X>) returns (m: AvlNode<X>)
    requires n.Shell() && Exact(Value(n.r)) && Ht(Value(n.r)) >= 2
    modifies {n} + Nodes(n.r)
    ensures m.Valid()
    ensures var r := old(n.r.tree);
            m.tree == RotL(old(Value(n.l)), old(n.data), if Delta(r) > 0 then RotR(r.left, r.data, r.right) else r)
    ensures m.repr <= {n} + old(Nodes(n.l)) + old(Nodes(n.r))
  {
    var c := NodeDelta(n.r);
    assert c == Delta(n.r.tree) by {
      StoredHeightIsHt(n.r.l);
      StoredHeightIsHt(n.r.r);
    }
    if c > 0 {
      var m := RotateRight(n.r);
      n.r := m;
      assert n.l != null ==> n.l.Valid();
    }
    m := RotateLeft(n);
  }

  /** The second branch: the left side is too tall. */
  method RaiseLeft<X>(n: AvlNode<X>) returns (m: AvlNode<X>)
    requires n.Shell() && Exact(Value(n.l)) && Ht(Value(n.l)) >= 2
    modifies {n} + Nodes(n.l)
    ensures m.Valid()
    ensures var l := old(n.l.tree);
            m.tree == RotR(if Delta(l) < 0 then RotL(l.left, l.data, l.right) else l, old(n.data), old(Value(n.r)))
    ensures m.repr <= {n} + old(Nodes(n.l)) + old(Nodes(n.r))
  {
    var c := NodeDelta(n.l);
    assert c == Delta(n.l.tree) by {
      StoredHeightIsHt(n.l.l);
      StoredHeightIsHt(n.l.r);
    }
    if c < 0 {
      var m := RotateLeft(n.l);
      n.l := m;
      assert n.r != null ==> n.r.Valid();
    }
    m := RotateRight(n);
  }

  /** `avl_balance`. */
  method Rebalance<X>(n: AvlNode<X>) returns (m: AvlNode<X>)
    requires n.Shell() && Exact(Value(n.l)) && Exact(Value(n.r))
    modifies {n} + Nodes(n.l) + Nodes(n.r)
    ensures m.Valid()
    ensures m.tree == Balance(old(Value(n.l)), old(n.data), old(Value(n.r)))
    ensures m.repr <= {n} + old(Nodes(n.l)) + old(Nodes(n.r))
  {
    var d := NodeDelta(n);
    if d < -1 {
      m := RaiseRight(n);
    } else if d > 1 {
      m := RaiseLeft(n);
    } else {
      UpdateHeight(n);
      m := n;
    }
  }

  /** Stores a rewritten left subtree back into its parent and rebalances the parent. */
  method PutLeft<X>(n: AvlNode<X>, t: AvlNode?<X>) returns (m: AvlNode<X>)
    requires Linked(t) && Linked(n.r) && Nodes(t) !! Nodes(n.r) && n !in Nodes(t) + Nodes(n.r)
    requires Exact(Value(t)) && Exact(Value(n.r))
    modifies {n} + Nodes(t) + Nodes(n.r)
    ensures m.Valid() && m.tree == Balance(old(Value(t)), old(n.data), old(Value(n.r)))
    ensures m.repr <= {n} + old(Nodes(t)) + old(Nodes(n.r))
  {
    n.l := t;
    m := Rebalance(n);
  }

  method PutRight<X>(n: AvlNode<X>, t: AvlNode?<X>) returns (m: AvlNode<X>)
    requires Linked(n.l) && Linked(t) && Nodes(n.l) !! Nodes(t) && n !in Nodes(n.l) + Nodes(t)
    requires Exact(Value(n.l)) && Exact(Value(t))
    modifies {n} + Nodes(n.l) + Nodes(t)
    ensures m.Valid() && m.tree == Balance(old(Value(n.l)), old(n.data), old(Value(t)))
    ensures m.repr <= {n} + old(Nodes(n.l)) + old(Nodes(t))
  {
    n.r := t;
    m := Rebalance(n);
  }

  /** `avl_insert_rec`; the code's `*root = ...` is the result here. */
  method InsertRec<X>(cmp: (X, X) -> int, root: AvlNode?<X>, entry: AvlNode<X>) returns (m: AvlNode<X>)
    requires Linked(root) && Exact(Value(root)) && entry !in Nodes(root)
    modifies Nodes(root), entry
    ensures m.Valid() && m.tree == Insert(cmp, old(Value(root)), old(entry.data))
    ensures m.repr <= old(Nodes(root)) + {entry}
    decreases Nodes(root)
  {
    hide Balance;
    if root == null {
      entry.l, entry.r, entry.height := null, null, 1;
      entry.repr, entry.tree := {entry}, Node(Leaf, entry.data, Leaf, 1);
      return entry;
    }
    var c := cmp(entry.data, root.data);
    assert Linked(root.l) && Linked(root.r) && Nodes(root.l) !! Nodes(root.r);
    if c < 0 {
      var t := InsertRec(cmp, root.l, entry);
      assert Linked(root.r);
      m := PutLeft(root, t);
    } else {
      var t := InsertRec(cmp, root.r, entry);
      assert Linked(root.l);
      m := PutRight(root, t);
    }
  }

  /** `avl_movr`. */
  method MoveRight<X>(n: AvlNode?<X>, r: AvlNode?<X>) returns (m: AvlNode?<X>)
    requires Linked(n) && Linked(r) && Nodes(n) !! Nodes(r) && Exact(Value(n)) && Exact(Value(r))
    modifies Nodes(n), Nodes(r)
    ensures Linked(m) && Value(m) == MovR(old(Value(n)), old(Value(r)))
    ensures Nodes(m) <= old(Nodes(n)) + old(Nodes(r))
    decreases Nodes(n)
  {
    hide Balance;
    if n == null {
      return r;
    }
    assert Linked(n.l) && Nodes(n.l) !! Nodes(n.r) + Nodes(r);
    var t := MoveRight(n.r, r);
    assert Linked(n.l);
    m := PutRight(n, t);
  }

  /** `avl_remove_rec`; `found` is the code's non-null `parent` result. */
  method RemoveRec<X>(cmp: (X, X) -> int, root: AvlNode?<X>, key: X) returns (m: AvlNode?<X>, found: bool)
    requires Linked(root) && Exact(Value(root))
    modifies if Get(cmp, Value(root), key).Node? then Nodes(root) else {}
    ensures Linked(m) && Value(m) == Remove(cmp, old(Value(root)), key)
    ensures Nodes(m) <= old(Nodes(root))
    ensures found <==> Get(cmp, old(Value(root)), key).Node?
    ensures !found ==> m == root
    decreases Nodes(root)
  {
    hide Balance;
    if root == null {
      return null, false;
    }
    var c := cmp(key, root.data);
    assert Linked(root.l) && Linked(root.r) && Nodes(root.l) !! Nodes(root.r);
    m := root;
    if c == 0 {
      m := MoveRight(root.l, root.r);
      found := true;
    } else if c < 0 {
      var t;
      t, found := RemoveRec(cmp, root.l, key);
      if found {
        assert Linked(root.r);
        m := PutLeft(root, t);
      }
    } else {
      var t;
      t, found := RemoveRec(cmp, root.r, key);
      if found {
        assert Linked(root.l);
        m := PutRight(root, t);
      }
    }
  }
}
