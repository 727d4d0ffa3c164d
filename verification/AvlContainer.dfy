/** The public container and iterator of lib/collection/avl.c. The comparison callback is a field;
    `Contents()` is the ordered sequence of stored elements. */
module AvlContainer {
  import opened T = AvlTree
  import opened AvlHeap
  import opened AvlWalk
  import opened Keys

  class AvlSet<X(!new)> {
    var root: AvlNode?<X>
    var count: int
    const cmp: (X, X) -> int

    ghost predicate Valid()
      reads this, root, Nodes(root)
    {
      && Comparator(cmp) && Linked(root) && Exact(Value(root))
      && Sorted(cmp, Contents()) && count == |Contents()|
    }

    ghost function Contents(): seq<X>
      reads this, root
    {
      InOrder(Value(root))
    }

    constructor (keyCmp: (X, X) -> int)
      requires Comparator(keyCmp)
      ensures Valid() && Contents() == [] && cmp == keyCmp && root == null
    {
      root, count, cmp := null, 0, keyCmp;
    }

    /** `avl_get`. */
    method Find(key: X) returns (node: AvlNode?<X>)
      requires Valid()
      ensures node != null <==> Has(cmp, Contents(), key)
      ensures node != null ==> node in Nodes(root) && node.data in Contents() && cmp(key, node.data) == 0
    {
      GetFinds(cmp, Value(root), key);
      node := root;
      while node != null
        invariant Linked(node) && Nodes(node) <= Nodes(root)
        invariant Get(cmp, Value(root), key) == Get(cmp, Value(node), key)
        decreases Nodes(node)
      {
        var c := cmp(key, node.data);
        if c < 0 {
          node := node.l;
        } else if c > 0 {
          node := node.r;
        } else {
          return;
        }
      }
    }

    /** `avl_insert`: a present key is refused. */
    method Insert(x: X) returns (node: AvlNode?<X>)
      requires Valid()
      modifies this, Nodes(root)
      ensures Valid() && fresh(Nodes(root) - old(Nodes(root)))
      ensures T.Avl(Value(root), count) == Apply(cmp, old(T.Avl(Value(root), count)), Ins(x))
      ensures node == null <==> Has(cmp, old(Contents()), x)
      ensures node == null ==> Contents() == old(Contents()) && root == old(root)
      ensures node != null ==> exists k :: SplitsAt(cmp, old(Contents()), x, k)
                                 && Contents() == old(Contents())[..k] + [x] + old(Contents())[k..]
      ensures old(Balanced(Value(root))) ==> Balanced(Value(root))
    {
      hide T.Insert, Balanced, Has;
      ghost var t := Value(root);
      GetFinds(cmp, t, x);
      var present := Find(x);
      if present != null {
        return null;
      }
      node := new AvlNode(x);
      var m := InsertRec(cmp, root, node);
      root := m;
      count := count + 1;
      ghost var k := InsertInserts(cmp, t, x);
      InsertedSorted(cmp, InOrder(t), x, k);
      if Balanced(t) {
        InsertKeepsBalance(cmp, t, x);
      }
    }

    /** `avl_remove`: an absent key changes nothing. */
    method Remove(key: X)
      requires Valid()
      modifies this, Nodes(root)
      ensures Valid() && Nodes(root) <= old(Nodes(root))
      ensures T.Avl(Value(root), count) == Apply(cmp, old(T.Avl(Value(root), count)), Del(key))
      ensures !Has(cmp, old(Contents()), key) ==> Contents() == old(Contents())
      ensures Has(cmp, old(Contents()), key) ==>
                exists k :: 0 <= k < |old(Contents())| && cmp(key, old(Contents())[k]) == 0
                  && Contents() == old(Contents())[..k] + old(Contents())[k + 1..]
    {
      ghost var t := Value(root);
      GetFinds(cmp, t, key);
      var m, found := RemoveRec(cmp, root, key);
      root := m;
      if found {
        count := count - 1;
        ghost var k := RemoveRemoves(cmp, t, key);
        CutSorted(cmp, InOrder(t), k);
      }
    }
  }

  const STACK_SLOTS := 32

  /** `struct avl_it`: slots `_s`, stack pointer `_sp`, right turns `_rt` and `__rt`, current `_c`. */
  class AvlIter<X(!new)> {
    const slots: array<AvlNode?<X>>
    var sp: nat
    var rt: AvlNode?<X>
    var nextRt: AvlNode?<X>
    var cur: AvlNode?<X>
    ghost var nodes: set<AvlNode<X>>  // the nodes of the container
    ghost var st: seq<Tree<X>>        // the values of the stacked nodes
    ghost var s: seq<X>               // the contents of the container
    ghost var i: nat                  // how many of them are behind
    ghost var depth: int              // the height of the container's tree

    ghost predicate Own(n: AvlNode<X>)
      reads this, nodes
    {
      n in nodes && n.repr <= nodes && n.Valid()
    }

    /** The slots below the stack pointer hold the nodes whose values are in `st`, never more than the tree is high. */
    ghost predicate Stacked()
      reads this, slots, nodes
    {
      && slots.Length == STACK_SLOTS && 0 <= depth <= STACK_SLOTS && sp == |st| <= depth
      && (forall k :: 0 <= k < sp ==> slots[k] != null && Own(slots[k]) && slots[k].tree == st[k])
      && Fits(st, depth)
      && (nextRt != null ==> Own(nextRt))
    }

    ghost predicate Valid()
      reads this, slots, nodes
    {
      Stacked() && i <= |s| && Positioned(st, Value(nextRt), s, i)
    }

    /** The element last returned is `s[i - 1]`; the links that lead to `s[i - 2]` are in place. */
    ghost predicate Current()
      reads this, nodes
    {
      && cur != null && Own(cur) && (rt != null ==> Own(rt))
      && i >= 1 && Visits(cur.tree, Value(rt), s, i - 1)
    }

    constructor Init(a: AvlSet<X>)
      requires a.Valid()
      ensures slots.Length == STACK_SLOTS && fresh(slots) && sp == 0 && st == []
      ensures rt == null && nextRt == null && cur == null
      ensures nodes == Nodes(a.root) && s == a.Contents() && i == 0 && depth == Ht(Value(a.root))
    {
      slots := new AvlNode?<X>[STACK_SLOTS](_ => null);
      sp, rt, nextRt, cur := 0, null, null, null;
      nodes, st, s, i := Nodes(a.root), [], InOrder(Value(a.root)), 0;
      depth := Ht(Value(a.root));
    }

    /** A subtree of the container that the free slots can take. */
    ghost predicate Ready(n: AvlNode?<X>)
      reads this, slots, nodes, n
    {
      Stacked() && (n != null ==> Own(n)) && Exact(Value(n)) && Ht(Value(n)) + sp <= depth
    }

    method Push(n: AvlNode<X>)
      requires Ready(n)
      modifies this`sp, this`st, slots
      ensures Ready(n.l) && Value(n.l) == n.tree.left
      ensures st == old(st) + [n.tree]
    {
      slots[sp] := n;
      sp := sp + 1;
      st := st + [n.tree];
    }

    /** The loop that pushes a node and all its left descendants. */
    method PushSpine(n: AvlNode?<X>)
      requires Ready(n)
      modifies this`sp, this`st, slots
      ensures Stacked() && st == PushLeft(old(st), old(Value(n)))
    {
      var c := n;
      while c != null
        invariant Ready(c)
        invariant PushLeft(st, Value(c)) == PushLeft(old(st), old(Value(n)))
        decreases Value(c)
      {
        Push(c);
        c := c.l;
      }
    }

    /** `avl_it_start` on a freshly initialised iterator. */
    method Start(a: AvlSet<X>)
      requires a.Valid() && Ht(Value(a.root)) <= STACK_SLOTS
      requires slots.Length == STACK_SLOTS && sp == 0 && st == [] && nextRt == null
      requires nodes == Nodes(a.root) && s == a.Contents() && i == 0 && depth == Ht(Value(a.root))
      modifies this`sp, this`st, slots
      ensures Valid()
    {
      hide Positioned, Sorted, Comparator;
      PushLeftAt([], Value(a.root), Leaf, s, 0);
      PushSpine(a.root);
    }

    /** The descent of `avl_it_start_at`. */
    method Descend(cmp: (X, X) -> int, key: X, root: AvlNode?<X>)
      requires Ready(root)
      modifies this`sp, this`st, this`rt, this`nextRt, this`cur, slots
      ensures Stacked()
      ensures (st, Value(nextRt)) == Seek(cmp, key, old(st), old(Value(root)), old(Value(nextRt)))
    {
      ghost var goal := Seek(cmp, key, st, Value(root), Value(nextRt));
      var n := root;
      hide Seek, Stacked, Own, Fits;
      while n != null
        invariant Ready(n)
        invariant Seek(cmp, key, st, Value(n), Value(nextRt)) == goal
        decreases Value(n)
      {
        SeekUnfold(cmp, key, st, Value(n), Value(nextRt));
        Mark(n);
        ReadyNode(n);
        var c := cmp(key, n.data);
        if c < 0 {
          Push(n);
          n := n.l;
        } else if c > 0 {
          TurnRight(n);
          n := n.r;
        } else {
          Push(n);
          return;
        }
      }
      SeekUnfold(cmp, key, st, Leaf, Value(nextRt));
    }

    method Mark(n: AvlNode<X>)
      requires Ready(n)
      modifies this`cur, this`rt
      ensures Ready(n) && cur == n && rt == nextRt
    {
      cur, rt := n, nextRt;
    }

    lemma ReadyNode(n: AvlNode<X>)
      requires Ready(n)
      ensures n.tree == Node(Value(n.l), n.data, Value(n.r), n.height)
    {
    }

    method TurnRight(n: AvlNode<X>)
      requires Ready(n)
      modifies this`nextRt
      ensures Ready(n.r) && Value(n.r) == n.tree.right && nextRt == n
    {
      nextRt := n;
    }

    /** `avl_it_start_at` on a freshly initialised iterator. */
    method StartAt(a: AvlSet<X>, key: X)
      requires a.Valid() && Ht(Value(a.root)) <= STACK_SLOTS
      requires slots.Length == STACK_SLOTS && sp == 0 && st == [] && nextRt == null
      requires nodes == Nodes(a.root) && s == a.Contents() && depth == Ht(Value(a.root))
      modifies this`sp, this`st, this`rt, this`nextRt, this`cur, this`i, slots
      ensures Valid() && i <= |s| && IsLowerBound(a.cmp, s, key, i)
    {
      hide Positioned, Sorted, Comparator, IsLowerBound;
      ghost var k := SeekAt(a.cmp, key, [], Value(a.root), Leaf, s, 0);
      Descend(a.cmp, key, a.root);
      i := k;
    }

    method Pop() returns (top: AvlNode<X>)
      requires Stacked() && sp > 0
      modifies this`sp, this`st
      ensures Stacked() && old(st) != [] && st == old(st)[..|old(st)| - 1]
      ensures Own(top) && top.tree == Top(old(st)) && Exact(top.tree) && Ht(top.tree) + sp <= depth
    {
      top := slots[sp - 1];
      sp := sp - 1;
      st := st[..sp];
    }

    /** The stack half of `avl_it_next`. */
    method Advance() returns (top: AvlNode<X>)
      requires Stacked() && sp > 0
      modifies this`sp, this`st, this`rt, this`nextRt, slots
      ensures Stacked() && Own(top) && top.tree == Top(old(st))
      ensures st == NextStack(old(st)) && rt == old(nextRt)
      ensures Value(nextRt) == NextTurn(old(st), old(Value(nextRt)))
    {
      hide Stacked, Fits, PushLeft;
      top := Pop();
      TurnAt(top);
      PushSpine(top.r);
    }

    /** Remembers the last right turn, and makes the popped node one if it has a right child. */
    method TurnAt(top: AvlNode<X>)
      requires Stacked() && Own(top) && Exact(top.tree) && Ht(top.tree) + sp <= depth
      modifies this`rt, this`nextRt
      ensures Ready(top.r) && Own(top) && top.tree.Node? && Value(top.r) == top.tree.right
      ensures rt == old(nextRt) && Value(nextRt) == if top.tree.right.Node? then top.tree else Value(old(nextRt))
    {
      assert top.tree == Node(Value(top.l), top.data, Value(top.r), top.height);
      assert top.r != null ==> top.r.Valid() && top.r.tree.Node?;
      rt := nextRt;
      if top.r != null {
        nextRt := top;
      }
    }

    /** `avl_it_next`. */
    method Next() returns (r: Option<X>)
      requires Valid()
      modifies this`sp, this`st, this`rt, this`nextRt, this`cur, this`i, slots
      ensures Valid()
      ensures old(i) == |s| ==> r == None && i == old(i)
      ensures old(i) < |s| ==> r == Some(s[old(i)]) && i == old(i) + 1 && Current()
    {
      AtEnd(st, Value(nextRt), s, i);
      if sp == 0 {
        return None;
      }
      NextAt(st, Value(nextRt), s, i);
      assert nextRt != null ==> Own(nextRt);
      hide Positioned, NextStack, NextTurn, Stacked, Fits, Visits;
      var top := Advance();
      r := Some(top.data);
      Arrive(top);
    }

    method Arrive(top: AvlNode<X>)
      requires Stacked() && i < |s| && Positioned(st, Value(nextRt), s, i + 1)
      requires Own(top) && (rt != null ==> Own(rt)) && Visits(top.tree, Value(rt), s, i)
      modifies this`cur, this`i
      ensures Valid() && i == old(i) + 1 && Current() && top.data == s[old(i)]
    {
      hide Positioned;
      cur, i := top, i + 1;
    }

    /** `avl_it_peek_prev` after a `Next`: the in-order predecessor in the whole container. */
    method PeekPrev() returns (r: Option<X>)
      requires Current()
      ensures r == if i == 1 then None else Some(s[i - 2])
    {
      if cur.l != null {
        assert cur.l.Valid();
        ghost var prev := s[i - 2];
        var n: AvlNode<X> := cur.l;
        while n.r != null
          invariant Own(n) && InOrder(n.tree) != [] && Last(InOrder(n.tree)) == prev
          decreases n.tree
        {
          n := n.r;
        }
        r := Some(n.data);
      } else if rt != null {
        r := Some(rt.data);
      } else {
        r := None;
      }
    }

    /** Repeated `avl_it_next` until it returns null. */
    method Drain() returns (out: seq<X>)
      requires Valid()
      modifies this`sp, this`st, this`rt, this`nextRt, this`cur, this`i, slots
      ensures out == s[old(i)..]
    {
      hide Positioned, Stacked, Current;
      out := [];
      var done := false;
      while !done
        invariant Valid() && old(i) <= i && out == s[old(i)..i]
        invariant done ==> i == |s|
        decreases |s| - i, !done
      {
        var x := Next();
        match x {
          case None => done := true;
          case Some(v) => out := out + [v];
        }
      }
    }
  }

  /** A whole iteration from a key: exactly the elements not below it, in ascending order. */
  method CollectFrom<X(!new)>(a: AvlSet<X>, key: X) returns (out: seq<X>)
    requires a.Valid() && Ht(Value(a.root)) <= STACK_SLOTS
    ensures exists k :: 0 <= k <= |a.Contents()|
              && IsLowerBound(a.cmp, a.Contents(), key, k) && out == a.Contents()[k..]
  {
    var it := new AvlIter<X>.Init(a);
    it.StartAt(a, key);
    ghost var k := it.i;
    out := it.Drain();
    assert IsLowerBound(a.cmp, a.Contents(), key, k) && out == a.Contents()[k..];
  }
}
