/** The iterator of lib/collection/avl.c on immutable trees: the stack of nodes still to visit and
    the last right turn, `__rt`. `AvlContainer` proves that the linked code computes these. */
module AvlWalk {
  import opened AvlTree

  ghost predicate AllNodes<X>(st: seq<Tree<X>>) {
    forall k :: 0 <= k < |st| ==> st[k].Node?
  }

  /** The elements a stack still yields, top first. */
  ghost function Pending<X>(st: seq<Tree<X>>): seq<X>
    requires AllNodes(st)
  {
    if st == [] then []
    else [Top(st).data] + InOrder(Top(st).right) + Pending(st[..|st| - 1])
  }

  ghost function Top<X>(st: seq<Tree<X>>): Tree<X>
    requires st != []
  {
    st[|st| - 1]
  }

  /** The loop that pushes a node and its left descendants. */
  ghost function PushLeft<X>(st: seq<Tree<X>>, cur: Tree<X>): seq<Tree<X>>
    decreases cur
  {
    if cur.Leaf? then st else PushLeft(st + [cur], cur.left)
  }

  /** The loop of `avl_it_start_at`: the stack and the last right turn. */
  ghost function Seek<X>(cmp: (X, X) -> int, key: X, st: seq<Tree<X>>, cur: Tree<X>, rt: Tree<X>)
    : (seq<Tree<X>>, Tree<X>)
    decreases cur
  {
    if cur.Leaf? then (st, rt)
    else if cmp(key, cur.data) < 0 then Seek(cmp, key, st + [cur], cur.left, rt)
    else if cmp(key, cur.data) > 0 then Seek(cmp, key, st, cur.right, cur)
    else (st + [cur], rt)
  }

  lemma SeekUnfold<X>(cmp: (X, X) -> int, key: X, st: seq<Tree<X>>, cur: Tree<X>, rt: Tree<X>)
    ensures Seek(cmp, key, st, cur, rt) ==
            if cur.Leaf? then (st, rt)
            else if cmp(key, cur.data) < 0 then Seek(cmp, key, st + [cur], cur.left, rt)
            else if cmp(key, cur.data) > 0 then Seek(cmp, key, st, cur.right, cur)
            else (st + [cur], rt)
  {
  }

  // ----- where the stack stands in the whole walk `s`

  /** Every node on the stack follows its left subtree in `s`; all but the top have one. */
  ghost predicate Placed<X>(st: seq<Tree<X>>, s: seq<X>) {
    && AllNodes(st)
    && (st != [] ==>
          var p := |s| - |Pending(st)|;
          var l := InOrder(Top(st).left);
          && |l| <= p && s[p - |l|..p] == l
          && Pending(st) == s[p..]
          && Placed(st[..|st| - 1], s)
          && (|st| >= 2 ==> st[|st| - 2].left.Node?))
  }

  /** `cur` is the part of `s` that begins at `p`, and the stack yields what follows it. */
  ghost predicate Here<X>(st: seq<Tree<X>>, cur: Tree<X>, s: seq<X>, p: nat) {
    && Placed(st, s)
    && p <= |s| && s[p..] == InOrder(cur) + Pending(st)
    && (st != [] && cur.Node? ==> Top(st).left.Node?)
  }

  lemma {:induction false} PendingPush<X>(st: seq<Tree<X>>, t: Tree<X>)
    requires AllNodes(st) && t.Node?
    ensures AllNodes(st + [t]) && Pending(st + [t]) == [t.data] + InOrder(t.right) + Pending(st)
  {
    assert (st + [t])[..|st|] == st;
  }

  lemma SplitTail<X>(s: seq<X>, p: nat, l: seq<X>, rest: seq<X>)
    requires p <= |s| && s[p..] == l + rest
    ensures |s| == p + |l| + |rest| && s[p..p + |l|] == l && s[p + |l|..] == rest
    ensures rest != [] ==> s[p + |l|] == rest[0]
  {
    assert forall j :: p <= j < |s| ==> s[j] == (l + rest)[j - p];
  }

  /** Pushing `cur` and moving to its left child keeps the place. */
  lemma PushPlaced<X>(st: seq<Tree<X>>, cur: Tree<X>, s: seq<X>, p: nat)
    requires Here(st, cur, s, p) && cur.Node?
    ensures Here(st + [cur], cur.left, s, p)
  {
    PendingPush(st, cur);
    var l := InOrder(cur.left);
    var rest := Pending(st + [cur]);
    assert InOrder(cur) + Pending(st) == l + rest;
    hide InOrder, Pending;
    SplitTail(s, p, l, rest);
    assert (st + [cur])[..|st|] == st && Top(st + [cur]) == cur;
  }

  /** Skipping `cur` and its left subtree and moving to its right child keeps the place. */
  lemma SkipPlaced<X>(st: seq<Tree<X>>, cur: Tree<X>, s: seq<X>, p: nat)
    requires Here(st, cur, s, p) && cur.Node?
    ensures Here(st, cur.right, s, p + |InOrder(cur.left)| + 1)
    ensures p + |InOrder(cur.left)| < |s| && s[p + |InOrder(cur.left)|] == cur.data
  {
    var l, r := InOrder(cur.left), InOrder(cur.right);
    assert InOrder(cur) + Pending(st) == l + ([cur.data] + (r + Pending(st)));
    hide InOrder, Pending, Placed;
    SplitTail(s, p, l, [cur.data] + (r + Pending(st)));
    SplitTail(s, p + |l|, [cur.data], r + Pending(st));
  }

  /** What the iterator promises: `s[i..]` is pending, and a top without left child is preceded by
      the last right turn. */
  ghost predicate Positioned<X>(st: seq<Tree<X>>, rt: Tree<X>, s: seq<X>, i: nat) {
    && Placed(st, s)
    && i <= |s| && Pending(st) == s[i..]
    && (st != [] && Top(st).left.Leaf? ==> Turn(rt, s, i))
  }

  /** `rt` is the element just before position `i`. */
  ghost predicate Turn<X>(rt: Tree<X>, s: seq<X>, i: nat) {
    i <= |s| && if i == 0 then rt.Leaf? else rt.Node? && rt.data == s[i - 1]
  }

  lemma AtEnd<X>(st: seq<Tree<X>>, rt: Tree<X>, s: seq<X>, i: nat)
    requires Positioned(st, rt, s, i)
    ensures st == [] <==> i == |s|
  {
    assert |Pending(st)| == |s| - i;
  }

  lemma {:induction false} PushLeftAt<X>(st: seq<Tree<X>>, cur: Tree<X>, rt: Tree<X>, s: seq<X>, p: nat)
    requires Here(st, cur, s, p) && (cur.Node? || st == [] || Top(st).left.Node? || Turn(rt, s, p))
    requires cur.Node? ==> Turn(rt, s, p)
    ensures Positioned(PushLeft(st, cur), rt, s, p)
    decreases cur
  {
    if cur.Node? {
      PushPlaced(st, cur, s, p);
      PushLeftAt(st + [cur], cur.left, rt, s, p);
    }
  }

  /** `avl_it_next` on the stack: pop, then push the right child's left spine. */
  ghost function NextStack<X>(st: seq<Tree<X>>): seq<Tree<X>>
    requires st != [] && Top(st).Node?
  {
    PushLeft(st[..|st| - 1], Top(st).right)
  }

  ghost function NextTurn<X>(st: seq<Tree<X>>, rt: Tree<X>): Tree<X>
    requires st != [] && Top(st).Node?
  {
    if Top(st).right.Node? then Top(st) else rt
  }

  /** `t` holds `s[i]`, and its left subtree or else `rt` leads to `s[i - 1]`. */
  ghost predicate Visits<X>(t: Tree<X>, rt: Tree<X>, s: seq<X>, i: nat) {
    && t.Node? && i < |s| && t.data == s[i]
    && if t.left.Node? then i >= 1 && InOrder(t.left) != [] && Last(InOrder(t.left)) == s[i - 1]
       else Turn(rt, s, i)
  }

  lemma NextAt<X>(st: seq<Tree<X>>, rt: Tree<X>, s: seq<X>, i: nat)
    requires Positioned(st, rt, s, i) && st != []
    ensures Positioned(NextStack(st), NextTurn(st, rt), s, i + 1)
    ensures Visits(Top(st), rt, s, i)
  {
    VisitsTop(st, rt, s, i);
    MovesOn(st, rt, s, i);
    PushLeftAt(st[..|st| - 1], Top(st).right, NextTurn(st, rt), s, i + 1);
  }

  lemma VisitsTop<X>(st: seq<Tree<X>>, rt: Tree<X>, s: seq<X>, i: nat)
    requires Positioned(st, rt, s, i) && st != []
    ensures Visits(Top(st), rt, s, i)
  {
    var top := Top(st);
    var l := InOrder(top.left);
    assert i == |s| - |Pending(st)| && |l| <= i && s[i - |l|..i] == l;
    assert Pending(st)[0] == top.data && s[i] == s[i..][0];
    assert top.left.Node? ==> l != [];
    if top.left.Node? {
      assert s[i - |l|..i][|l| - 1] == s[i - 1];
    }
  }

  /** After the pop, what is left begins with the right subtree of the popped node. */
  lemma MovesOn<X>(st: seq<Tree<X>>, rt: Tree<X>, s: seq<X>, i: nat)
    requires Positioned(st, rt, s, i) && st != []
    ensures var (top, st') := (Top(st), st[..|st| - 1]);
            && top.Node? && Here(st', top.right, s, i + 1)
            && (top.right.Node? || st' == [] || Top(st').left.Node?)
            && (top.right.Node? ==> Turn(NextTurn(st, rt), s, i + 1))
  {
    var top, st' := Top(st), st[..|st| - 1];
    var r := InOrder(top.right);
    assert Pending(st) == [top.data] + (r + Pending(st'));
    assert Placed(st', s);
    hide InOrder, Pending;
    SplitTail(s, i, [top.data], r + Pending(st'));
  }

  ghost function Last<X>(s: seq<X>): X
    requires s != []
  {
    s[|s| - 1]
  }

  /** `k` is the position of the first element not below `key`. */
  ghost predicate IsLowerBound<X(!new)>(cmp: (X, X) -> int, s: seq<X>, key: X, k: nat) {
    && k <= |s|
    && (forall j :: 0 <= j < k ==> cmp(key, s[j]) > 0)
    && (forall j :: k <= j < |s| ==> cmp(key, s[j]) <= 0)
  }

  /** The key lies in `s[lo..hi]`, if anywhere. */
  ghost predicate Brackets<X(!new)>(cmp: (X, X) -> int, s: seq<X>, key: X, lo: int, hi: int) {
    && (forall j :: 0 <= j < lo <= |s| ==> cmp(key, s[j]) > 0)
    && (forall j :: 0 <= hi <= j < |s| ==> cmp(key, s[j]) < 0)
  }

  lemma {:induction false} SeekAt<X(!new)>(cmp: (X, X) -> int, key: X, st: seq<Tree<X>>,
                                     cur: Tree<X>, rt: Tree<X>, s: seq<X>, p: nat)
    returns (k: nat)
    requires Comparator(cmp) && Sorted(cmp, s)
    requires Here(st, cur, s, p) && Turn(rt, s, p)
    requires Brackets(cmp, s, key, p, p + |InOrder(cur)|) && p + |InOrder(cur)| <= |s|
    ensures k <= |s| && IsLowerBound(cmp, s, key, k)
    ensures Positioned(Seek(cmp, key, st, cur, rt).0, Seek(cmp, key, st, cur, rt).1, s, k)
    decreases cur
  {
    hide Here, Brackets, IsLowerBound, Comparator, Sorted, Positioned;
    BracketsEmpty(cmp, s, key, p);
    if cur.Leaf? {
      k := p;
      SeekEnd(st, cur, rt, s, p);
    } else {
      SeekStep(cmp, key, st, cur, rt, s, p);
      var q := p + |InOrder(cur.left)|;
      if cmp(key, cur.data) < 0 {
        k := SeekAt(cmp, key, st + [cur], cur.left, rt, s, p);
      } else if cmp(key, cur.data) > 0 {
        k := SeekAt(cmp, key, st, cur.right, cur, s, q + 1);
      } else {
        k := q;
        SeekFound(st, cur, rt, s, p);
      }
    }
  }

  lemma BracketsEmpty<X(!new)>(cmp: (X, X) -> int, s: seq<X>, key: X, p: nat)
    requires p <= |s|
    ensures Brackets(cmp, s, key, p, p) ==> IsLowerBound(cmp, s, key, p)
  {
  }

  lemma BracketStep<X(!new)>(cmp: (X, X) -> int, s: seq<X>, key: X, lo: nat, q: nat, hi: nat)
    requires Comparator(cmp) && Sorted(cmp, s) && lo <= q < |s| && Brackets(cmp, s, key, lo, hi)
    ensures cmp(key, s[q]) < 0 ==> Brackets(cmp, s, key, lo, q)
    ensures cmp(key, s[q]) > 0 ==> Brackets(cmp, s, key, q + 1, hi)
    ensures cmp(key, s[q]) == 0 ==> IsLowerBound(cmp, s, key, q)
  {
    KeySide(cmp, s, key, q);
  }

  lemma SeekStep<X(!new)>(cmp: (X, X) -> int, key: X, st: seq<Tree<X>>, cur: Tree<X>, rt: Tree<X>, s: seq<X>, p: nat)
    requires Comparator(cmp) && Sorted(cmp, s)
    requires Here(st, cur, s, p) && Turn(rt, s, p) && cur.Node?
    requires Brackets(cmp, s, key, p, p + |InOrder(cur)|) && p + |InOrder(cur)| <= |s|
    ensures var q := p + |InOrder(cur.left)|;
            && q + 1 + |InOrder(cur.right)| == p + |InOrder(cur)|
            && q < |s|
            && Here(st + [cur], cur.left, s, p) && Here(st, cur.right, s, q + 1) && Turn(cur, s, q + 1)
            && (cmp(key, cur.data) < 0 ==> Brackets(cmp, s, key, p, q))
            && (cmp(key, cur.data) > 0 ==> Brackets(cmp, s, key, q + 1, p + |InOrder(cur)|))
            && (cmp(key, cur.data) == 0 ==> IsLowerBound(cmp, s, key, q))
  {
    hide Here, Brackets, IsLowerBound, Comparator, Sorted, InOrder;
    var q := p + |InOrder(cur.left)|;
    SkipPlaced(st, cur, s, p);
    PushPlaced(st, cur, s, p);
    SizeSplit(cur);
    BracketStep(cmp, s, key, p, q, p + |InOrder(cur)|);
  }

  lemma SeekEnd<X>(st: seq<Tree<X>>, cur: Tree<X>, rt: Tree<X>, s: seq<X>, p: nat)
    requires Here(st, cur, s, p) && Turn(rt, s, p) && cur.Leaf?
    ensures Positioned(st, rt, s, p)
  {
    assert s[p..] == Pending(st);
  }

  lemma SeekFound<X>(st: seq<Tree<X>>, cur: Tree<X>, rt: Tree<X>, s: seq<X>, p: nat)
    requires Here(st, cur, s, p) && Turn(rt, s, p) && cur.Node?
    ensures Positioned(st + [cur], rt, s, p + |InOrder(cur.left)|)
  {
    PushPlaced(st, cur, s, p);
    var q := p + |InOrder(cur.left)|;
    assert s[p..] == InOrder(cur.left) + Pending(st + [cur]);
    assert s[q..] == s[p..][q - p..];
    assert Top(st + [cur]) == cur;
  }

  lemma KeySide<X(!new)>(cmp: (X, X) -> int, s: seq<X>, key: X, q: nat)
    requires Comparator(cmp) && Sorted(cmp, s) && q < |s|
    ensures cmp(key, s[q]) <= 0 ==> forall j :: q < j < |s| ==> cmp(key, s[j]) < 0
    ensures cmp(key, s[q]) >= 0 ==> forall j :: 0 <= j < q ==> cmp(key, s[j]) > 0
  {
    assert s == s[..q] + [s[q]] + s[q + 1..];
    SearchStep(cmp, s[..q], s[q], s[q + 1..], key);
    forall j | q < j < |s| && cmp(key, s[q]) <= 0 ensures cmp(key, s[j]) < 0 {
      assert s[j] == s[q + 1..][j - q - 1];
    }
    forall j | 0 <= j < q && cmp(key, s[q]) >= 0 ensures cmp(key, s[j]) > 0 {
      assert s[j] == s[..q][j];
    }
  }

  // ----- the stack never outgrows the tree

  /** The nodes on the stack get lower and lower. */
  ghost predicate Fits<X>(st: seq<Tree<X>>, h: int) {
    forall k :: 0 <= k < |st| ==> st[k].Node? && Exact(st[k]) && Ht(st[k]) + k <= h
  }

  lemma SizeSplit<X>(t: Tree<X>)
    requires t.Node?
    ensures |InOrder(t)| == |InOrder(t.left)| + 1 + |InOrder(t.right)|
  {
  }

  lemma {:induction false} MinNodesOf<X>(t: Tree<X>)
    requires Exact(t) && Balanced(t)
    ensures |InOrder(t)| >= MinNodes(Ht(t))
  {
    hide MinNodes, InOrder;
    MinNodesUnfold(Ht(t));
    if t.Node? {
      SizeSplit(t);
      MinNodesOf(t.left);
      MinNodesOf(t.right);
      MinNodesMonotone(t.height - 2);
    }
  }

  lemma MinNodesUnfold(h: int)
    ensures MinNodes(h) <= if h <= 0 then 0 else 1 + MinNodes(h - 1) + MinNodes(h - 2)
  {
  }

  /** Nodes in the sparsest balanced tree of height `h`. */
  ghost function MinNodes(h: int): nat {
    if h <= 0 then 0 else if h == 1 then 1 else 1 + MinNodes(h - 1) + MinNodes(h - 2)
  }

  lemma {:induction false} MinNodesMonotone(h: int)
    ensures MinNodes(h) <= MinNodes(h + 1)
    decreases h
  {
    if h >= 1 {
      MinNodesMonotone(h - 1);
    }
  }

  lemma {:induction false} MinNodesAtLeast(g: int, h: int)
    requires g <= h
    ensures MinNodes(g) <= MinNodes(h)
    decreases h - g
  {
    if g < h {
      MinNodesAtLeast(g, h - 1);
      MinNodesMonotone(h - 1);
    }
  }

  lemma MinNodes33()
    ensures MinNodes(33) == 9227464
  {
    assert MinNodes(5) == 12 && MinNodes(6) == 20;
    assert MinNodes(8) == 54 && MinNodes(9) == 88;
    assert MinNodes(11) == 232 && MinNodes(12) == 376;
    assert MinNodes(14) == 986 && MinNodes(15) == 1596;
    assert MinNodes(17) == 4180 && MinNodes(18) == 6764;
    assert MinNodes(20) == 17710 && MinNodes(21) == 28656;
    assert MinNodes(23) == 75024 && MinNodes(24) == 121392;
    assert MinNodes(26) == 317810 && MinNodes(27) == 514228;
    assert MinNodes(29) == 1346268 && MinNodes(30) == 2178308;
    assert MinNodes(32) == 5702886 && MinNodes(33) == 9227464;
  }

  /** Thirty-two slots are enough for every balanced tree with fewer than 9227464 nodes. */
  lemma ThirtyTwoSlots<X>(t: Tree<X>)
    requires Exact(t) && Balanced(t) && |InOrder(t)| < 9227464
    ensures Ht(t) <= 32
  {
    MinNodesOf(t);
    var h := Ht(t);
    assert h >= 33 ==> MinNodes(h) >= 9227464 by {
      if h >= 33 {
        MinNodesAtLeast(33, h);
        MinNodes33();
      }
    }
  }
}
