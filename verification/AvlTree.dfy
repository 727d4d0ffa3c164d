/** The shape-level meaning of lib/collection/avl.c: every function below computes on immutable
    trees what the function of the same name does to linked nodes, including the stored `height`
    fields. `AvlHeap` proves that the linked code refines these functions. */
module AvlTree {

  datatype Tree<T> = Leaf | Node(left: Tree<T>, data: T, right: Tree<T>, height: int)

  function InOrder<T>(t: Tree<T>): seq<T> {
    match t
    case Leaf => []
    case Node(l, d, r, _) => InOrder(l) + [d] + InOrder(r)
  }

  /** The stored height, 0 for the null pointer. */
  function Ht<T>(t: Tree<T>): int {
    if t.Leaf? then 0 else t.height
  }

  function Max(a: int, b: int): int {
    if a < b then b else a
  }

  /** Every stored height is the true height of its subtree. */
  predicate Exact<T>(t: Tree<T>)
    ensures Exact(t) ==> Ht(t) >= 0 && (t.Node? ==> Ht(t) >= 1)
  {
    t.Node? ==> Exact(t.left) && Exact(t.right) && t.height == 1 + Max(Ht(t.left), Ht(t.right))
  }

  predicate Balanced<T>(t: Tree<T>) {
    t.Node? ==> Balanced(t.left) && Balanced(t.right) && -1 <= Delta(t) <= 1
  }

  /** `avl_update_height` on a node with these links. */
  function Fix<T>(l: Tree<T>, d: T, r: Tree<T>): Tree<T> {
    Node(l, d, r, 1 + Max(0, Max(Ht(l), Ht(r))))
  }

  function Delta<T>(t: Tree<T>): int
    requires t.Node?
  {
    Ht(t.left) - Ht(t.right)
  }

  function RotL<T>(l: Tree<T>, d: T, r: Tree<T>): Tree<T>
    requires r.Node?
  {
    Fix(Fix(l, d, r.left), r.data, r.right)
  }

  function RotR<T>(l: Tree<T>, d: T, r: Tree<T>): Tree<T>
    requires l.Node?
  {
    Fix(l.left, l.data, Fix(l.right, d, r))
  }

  /** `avl_balance`; exact heights below make every dereference safe. */
  function Balance<T>(l: Tree<T>, d: T, r: Tree<T>): Tree<T>
    requires Exact(l) && Exact(r)
  {
    if Ht(l) - Ht(r) < -1 then
      RotL(l, d, if Delta(r) > 0 then RotR(r.left, r.data, r.right) else r)
    else if Ht(l) - Ht(r) > 1 then
      RotR(if Delta(l) < 0 then RotL(l.left, l.data, l.right) else l, d, r)
    else
      Fix(l, d, r)
  }

  lemma RotLKeepsOrder<T>(l: Tree<T>, d: T, r: Tree<T>)
    requires Exact(l) && Exact(r) && r.Node?
    ensures Exact(RotL(l, d, r)) && RotL(l, d, r).Node?
    ensures InOrder(RotL(l, d, r)) == InOrder(l) + [d] + InOrder(r)
  {
    var a, b, c := InOrder(l), InOrder(r.left), InOrder(r.right);
    assert Exact(Fix(l, d, r.left));
    calc {
      InOrder(RotL(l, d, r));
      InOrder(Fix(l, d, r.left)) + [r.data] + c;
      (a + [d] + b) + [r.data] + c;
      a + [d] + (b + [r.data] + c);
    }
  }

  lemma RotRKeepsOrder<T>(l: Tree<T>, d: T, r: Tree<T>)
    requires Exact(l) && Exact(r) && l.Node?
    ensures Exact(RotR(l, d, r)) && RotR(l, d, r).Node?
    ensures InOrder(RotR(l, d, r)) == InOrder(l) + [d] + InOrder(r)
  {
    var a, b, c := InOrder(l.left), InOrder(l.right), InOrder(r);
    assert Exact(Fix(l.right, d, r));
    calc {
      InOrder(RotR(l, d, r));
      a + [l.data] + InOrder(Fix(l.right, d, r));
      a + [l.data] + (b + [d] + c);
      (a + [l.data] + b) + [d] + c;
    }
  }

  lemma BalanceKeepsOrder<T>(l: Tree<T>, d: T, r: Tree<T>)
    requires Exact(l) && Exact(r)
    ensures Exact(Balance(l, d, r)) && Balance(l, d, r).Node?
    ensures InOrder(Balance(l, d, r)) == InOrder(l) + [d] + InOrder(r)
  {
    if Ht(l) - Ht(r) < -1 {
      if Delta(r) > 0 {
        RotRKeepsOrder(r.left, r.data, r.right);
        RotLKeepsOrder(l, d, RotR(r.left, r.data, r.right));
      } else {
        RotLKeepsOrder(l, d, r);
      }
    } else if Ht(l) - Ht(r) > 1 {
      if Delta(l) < 0 {
        RotLKeepsOrder(l.left, l.data, l.right);
        RotRKeepsOrder(RotL(l.left, l.data, l.right), d, r);
      } else {
        RotRKeepsOrder(l, d, r);
      }
    }
  }

  /** One call repairs an imbalance of two, and adds at most one to the taller side. */
  lemma BalanceRepairs<T>(l: Tree<T>, d: T, r: Tree<T>)
    requires Exact(l) && Exact(r) && Balanced(l) && Balanced(r) && -2 <= Ht(l) - Ht(r) <= 2
    ensures Balanced(Balance(l, d, r))
    ensures 0 <= Ht(Balance(l, d, r)) - Max(Ht(l), Ht(r)) <= 1
    ensures -1 <= Ht(l) - Ht(r) <= 1 ==> Ht(Balance(l, d, r)) == 1 + Max(Ht(l), Ht(r))
  {
    if Ht(l) - Ht(r) == -2 {
      RepairsRight(l, d, r);
    } else if Ht(l) - Ht(r) == 2 {
      RepairsLeft(l, d, r);
    }
  }

  lemma RepairsRight<T>(l: Tree<T>, d: T, r: Tree<T>)
    requires Exact(l) && Exact(r) && Balanced(l) && Balanced(r) && Ht(l) == Ht(r) - 2
    ensures Balanced(Balance(l, d, r))
    ensures Ht(Balance(l, d, r)) == if Delta(r) == 0 then Ht(r) + 1 else Ht(r)
  {
    if Delta(r) > 0 {
      var m := r.left;
      FixBalanced(l, d, m.left);
      FixBalanced(m.right, r.data, r.right);
      FixBalanced(Fix(l, d, m.left), m.data, Fix(m.right, r.data, r.right));
    } else {
      FixBalanced(l, d, r.left);
      FixBalanced(Fix(l, d, r.left), r.data, r.right);
    }
  }

  lemma RepairsLeft<T>(l: Tree<T>, d: T, r: Tree<T>)
    requires Exact(l) && Exact(r) && Balanced(l) && Balanced(r) && Ht(r) == Ht(l) - 2
    ensures Balanced(Balance(l, d, r)) && Ht(l) <= Ht(Balance(l, d, r)) <= Ht(l) + 1
  {
    if Delta(l) < 0 {
      var m := l.right;
      FixBalanced(l.left, l.data, m.left);
      FixBalanced(m.right, d, r);
      FixBalanced(Fix(l.left, l.data, m.left), m.data, Fix(m.right, d, r));
    } else {
      FixBalanced(l.right, d, r);
      FixBalanced(l.left, l.data, Fix(l.right, d, r));
    }
  }

  lemma FixBalanced<T>(l: Tree<T>, d: T, r: Tree<T>)
    requires Exact(l) && Exact(r) && Balanced(l) && Balanced(r) && -1 <= Ht(l) - Ht(r) <= 1
    ensures Exact(Fix(l, d, r)) && Balanced(Fix(l, d, r)) && Ht(Fix(l, d, r)) == 1 + Max(Ht(l), Ht(r))
  {
  }

  // ----- the order given by the container's comparison callback

  /** Instantiates the laws of a comparator; keeps them from firing on every comparison. */
  ghost predicate About<T>(x: T, y: T, z: T) { true }

  /** What the container needs of `key_cmp`: the signs form a total preorder. */
  ghost predicate Comparator<T(!new)>(cmp: (T, T) -> int) {
    forall x, y, z {:trigger About(x, y, z)} :: About(x, y, z) ==>
      && (cmp(x, y) < 0 <==> cmp(y, x) > 0)
      && (cmp(x, y) <= 0 && cmp(y, z) <= 0 ==> cmp(x, z) <= 0)
  }

  lemma StrictTrans<T(!new)>(cmp: (T, T) -> int, x: T, y: T, z: T)
    requires Comparator(cmp)
    ensures cmp(x, y) < 0 && cmp(y, z) <= 0 ==> cmp(x, z) < 0
    ensures cmp(x, y) <= 0 && cmp(y, z) < 0 ==> cmp(x, z) < 0
    ensures cmp(x, y) > 0 && cmp(z, y) <= 0 ==> cmp(x, z) > 0
    ensures cmp(x, y) >= 0 && cmp(z, y) < 0 ==> cmp(x, z) > 0
    ensures cmp(x, y) < 0 <==> cmp(y, x) > 0
  {
    assert About(x, y, z) && About(y, z, x) && About(z, x, y);
    assert About(x, z, y) && About(z, y, x) && About(y, x, z);
  }

  ghost predicate Sorted<T(!new)>(cmp: (T, T) -> int, s: seq<T>) {
    forall i, j :: 0 <= i < j < |s| ==> cmp(s[i], s[j]) < 0
  }

  /** `k` splits `s` into the elements below `x` and those above it. */
  ghost predicate SplitsAt<T(!new)>(cmp: (T, T) -> int, s: seq<T>, x: T, k: int) {
    && 0 <= k <= |s|
    && (forall i :: 0 <= i < k ==> cmp(x, s[i]) > 0)
    && (forall i :: k <= i < |s| ==> cmp(x, s[i]) < 0)
  }

  ghost predicate Has<T(!new)>(cmp: (T, T) -> int, s: seq<T>, x: T) {
    exists i :: 0 <= i < |s| && cmp(x, s[i]) == 0
  }

  lemma SortedParts<T(!new)>(cmp: (T, T) -> int, l: seq<T>, d: T, r: seq<T>)
    requires Sorted(cmp, l + [d] + r)
    ensures Sorted(cmp, l) && Sorted(cmp, r)
    ensures forall i :: 0 <= i < |l| ==> cmp(l[i], d) < 0
    ensures forall i :: 0 <= i < |r| ==> cmp(d, r[i]) < 0
  {
    var s := l + [d] + r;
    assert l == s[..|l|] && s[|l|] == d && r == s[|l| + 1..];
    forall i | 0 <= i < |l| ensures cmp(l[i], d) < 0 {
      assert l[i] == s[i];
    }
    forall i | 0 <= i < |r| ensures cmp(d, r[i]) < 0 {
      assert r[i] == s[|l| + 1 + i];
    }
  }

  /** A search that goes left (right) at `d` misses nothing on the other side. */
  lemma SearchStep<T(!new)>(cmp: (T, T) -> int, l: seq<T>, d: T, r: seq<T>, x: T)
    requires Comparator(cmp) && Sorted(cmp, l + [d] + r)
    ensures cmp(x, d) <= 0 ==> forall i :: 0 <= i < |r| ==> cmp(x, r[i]) < 0
    ensures cmp(x, d) >= 0 ==> forall i :: 0 <= i < |l| ==> cmp(x, l[i]) > 0
  {
    SortedParts(cmp, l, d, r);
    forall i | 0 <= i < |r| && cmp(x, d) <= 0 ensures cmp(x, r[i]) < 0 {
      StrictTrans(cmp, x, d, r[i]);
    }
    forall i | 0 <= i < |l| && cmp(x, d) >= 0 ensures cmp(x, l[i]) > 0 {
      StrictTrans(cmp, x, d, l[i]);
    }
  }

  lemma InsertedSorted<T(!new)>(cmp: (T, T) -> int, s: seq<T>, x: T, k: int)
    requires Comparator(cmp) && Sorted(cmp, s) && SplitsAt(cmp, s, x, k)
    ensures Sorted(cmp, s[..k] + [x] + s[k..])
  {
    forall i | 0 <= i < k ensures cmp(s[i], x) < 0 {
      StrictTrans(cmp, s[i], x, x);
    }
  }

  lemma SplitLeft<T(!new)>(cmp: (T, T) -> int, l: seq<T>, d: T, r: seq<T>, x: T, k: int)
    requires Comparator(cmp) && Sorted(cmp, l + [d] + r)
    requires cmp(x, d) < 0 && SplitsAt(cmp, l, x, k)
    ensures SplitsAt(cmp, l + [d] + r, x, k)
    ensures (l + [d] + r)[..k] + [x] + (l + [d] + r)[k..] == (l[..k] + [x] + l[k..]) + [d] + r
  {
    SearchStep(cmp, l, d, r, x);
    var s := l + [d] + r;
    assert s[..k] == l[..k] && s[k..] == l[k..] + [d] + r;
  }

  lemma SplitRight<T(!new)>(cmp: (T, T) -> int, l: seq<T>, d: T, r: seq<T>, x: T, k: int)
    requires Comparator(cmp) && Sorted(cmp, l + [d] + r)
    requires cmp(x, d) > 0 && SplitsAt(cmp, r, x, k)
    ensures SplitsAt(cmp, l + [d] + r, x, |l| + 1 + k)
    ensures (l + [d] + r)[..|l| + 1 + k] + [x] + (l + [d] + r)[|l| + 1 + k..] == l + [d] + (r[..k] + [x] + r[k..])
  {
    SearchStep(cmp, l, d, r, x);
    var s := l + [d] + r;
    assert s[..|l| + 1 + k] == l + [d] + r[..k] && s[|l| + 1 + k..] == r[k..];
  }

  /** Two sorted sequences with the same elements are equal: contents decide the in-order walk. */
  lemma {:induction false} SortedUnique<T(!new)>(cmp: (T, T) -> int, s: seq<T>, t: seq<T>)
    requires Comparator(cmp) && Sorted(cmp, s) && Sorted(cmp, t)
    requires forall x :: x in s <==> x in t
    ensures s == t
  {
    assert s != [] ==> s[0] in t;
    assert t != [] ==> t[0] in s;
    if s != [] {
      HeadsAgree(cmp, s, t);
      forall x | x in s[1..] ensures x in t[1..] {
        TailHas(cmp, s, t, x);
      }
      forall x | x in t[1..] ensures x in s[1..] {
        TailHas(cmp, t, s, x);
      }
      SortedUnique(cmp, s[1..], t[1..]);
      assert s == [s[0]] + s[1..] && t == [t[0]] + t[1..];
    }
  }

  lemma HeadsAgree<T(!new)>(cmp: (T, T) -> int, s: seq<T>, t: seq<T>)
    requires Comparator(cmp) && Sorted(cmp, s) && Sorted(cmp, t)
    requires s != [] && t != [] && s[0] in t && t[0] in s
    ensures s[0] == t[0]
  {
    var i :| 0 <= i < |t| && t[i] == s[0];
    var j :| 0 <= j < |s| && s[j] == t[0];
    assert About(s[0], t[0], t[0]);
    assert i == 0 || j == 0;
  }

  lemma TailHas<T(!new)>(cmp: (T, T) -> int, s: seq<T>, t: seq<T>, x: T)
    requires Comparator(cmp) && Sorted(cmp, s) && s != [] && t != [] && s[0] == t[0]
    requires forall y :: y in s ==> y in t
    requires x in s[1..]
    ensures x in t[1..]
  {
    var i :| 0 <= i < |s| - 1 && s[1..][i] == x;
    assert cmp(s[0], s[i + 1]) < 0;
    assert x in s && x in t;
    var j :| 0 <= j < |t| && t[j] == x;
    assert About(x, x, x);
    assert t[1..][j - 1] == x;
  }

  // ----- avl_get, avl_insert, avl_remove

  /** `avl_insert_rec`. */
  function Insert<T>(cmp: (T, T) -> int, t: Tree<T>, x: T): Tree<T>
    requires Exact(t)
    ensures Exact(Insert(cmp, t, x)) && Insert(cmp, t, x).Node?
  {
    if t.Leaf? then Node(Leaf, x, Leaf, 1)
    else if cmp(x, t.data) < 0 then
      var l := Insert(cmp, t.left, x);
      BalanceKeepsOrder(l, t.data, t.right);
      Balance(l, t.data, t.right)
    else
      var r := Insert(cmp, t.right, x);
      BalanceKeepsOrder(t.left, t.data, r);
      Balance(t.left, t.data, r)
  }

  lemma {:induction false} InsertInserts<T(!new)>(cmp: (T, T) -> int, t: Tree<T>, x: T) returns (k: nat)
    requires Comparator(cmp) && Exact(t) && Sorted(cmp, InOrder(t)) && !Has(cmp, InOrder(t), x)
    ensures SplitsAt(cmp, InOrder(t), x, k)
    ensures InOrder(Insert(cmp, t, x)) == InOrder(t)[..k] + [x] + InOrder(t)[k..]
  {
    if t.Leaf? {
      k := 0;
    } else {
      var l, d, r := InOrder(t.left), t.data, InOrder(t.right);
      assert InOrder(t) == l + [d] + r;
      SortedParts(cmp, l, d, r);
      HasSplit(cmp, l, d, r, x);
      if cmp(x, d) < 0 {
        k := InsertInserts(cmp, t.left, x);
        BalanceKeepsOrder(Insert(cmp, t.left, x), d, t.right);
        SplitLeft(cmp, l, d, r, x, k);
      } else {
        k := InsertInserts(cmp, t.right, x);
        BalanceKeepsOrder(t.left, d, Insert(cmp, t.right, x));
        SplitRight(cmp, l, d, r, x, k);
        k := |l| + 1 + k;
      }
    }
  }

  lemma {:induction false} InsertKeepsBalance<T>(cmp: (T, T) -> int, t: Tree<T>, x: T)
    requires Exact(t) && Balanced(t)
    ensures Balanced(Insert(cmp, t, x))
    ensures 0 <= Ht(Insert(cmp, t, x)) - Ht(t) <= 1
  {
    if t.Node? {
      if cmp(x, t.data) < 0 {
        InsertKeepsBalance(cmp, t.left, x);
        BalanceRepairs(Insert(cmp, t.left, x), t.data, t.right);
      } else {
        InsertKeepsBalance(cmp, t.right, x);
        BalanceRepairs(t.left, t.data, Insert(cmp, t.right, x));
      }
    }
  }

  /** `avl_movr`: hang `r` below the rightmost node of `n`. */
  function MovR<T>(n: Tree<T>, r: Tree<T>): Tree<T>
    requires Exact(n) && Exact(r)
    ensures Exact(MovR(n, r))
  {
    if n.Leaf? then r
    else
      var m := MovR(n.right, r);
      BalanceKeepsOrder(n.left, n.data, m);
      Balance(n.left, n.data, m)
  }

  lemma {:induction false} MovRConcatenates<T>(n: Tree<T>, r: Tree<T>)
    requires Exact(n) && Exact(r)
    ensures InOrder(MovR(n, r)) == InOrder(n) + InOrder(r)
  {
    if n.Node? {
      MovRConcatenates(n.right, r);
      BalanceKeepsOrder(n.left, n.data, MovR(n.right, r));
    }
  }

  function Get<T>(cmp: (T, T) -> int, t: Tree<T>, key: T): Tree<T> {
    if t.Leaf? then Leaf
    else if cmp(key, t.data) < 0 then Get(cmp, t.left, key)
    else if cmp(key, t.data) > 0 then Get(cmp, t.right, key)
    else t
  }

  lemma {:induction false} GetFinds<T(!new)>(cmp: (T, T) -> int, t: Tree<T>, key: T)
    requires Comparator(cmp) && Sorted(cmp, InOrder(t))
    ensures Get(cmp, t, key).Node? <==> Has(cmp, InOrder(t), key)
    ensures Get(cmp, t, key).Node? ==> cmp(key, Get(cmp, t, key).data) == 0 && Get(cmp, t, key).data in InOrder(t)
  {
    if t.Node? {
      var l, d, r := InOrder(t.left), t.data, InOrder(t.right);
      SortedParts(cmp, l, d, r);
      SearchStep(cmp, l, d, r, key);
      HasSplit(cmp, l, d, r, key);
      if cmp(key, d) < 0 {
        GetFinds(cmp, t.left, key);
      } else if cmp(key, d) > 0 {
        GetFinds(cmp, t.right, key);
      }
    }
  }

  lemma HasSplit<T(!new)>(cmp: (T, T) -> int, l: seq<T>, d: T, r: seq<T>, x: T)
    ensures Has(cmp, l + [d] + r, x) <==> Has(cmp, l, x) || cmp(x, d) == 0 || Has(cmp, r, x)
  {
    var s := l + [d] + r;
    if Has(cmp, l, x) {
      var i :| 0 <= i < |l| && cmp(x, l[i]) == 0;
      assert s[i] == l[i];
    }
    if Has(cmp, r, x) {
      var i :| 0 <= i < |r| && cmp(x, r[i]) == 0;
      assert s[|l| + 1 + i] == r[i];
    }
    assert s[|l|] == d;
  }

  /** `avl_remove_rec`; nothing changes when the key is absent. */
  function Remove<T>(cmp: (T, T) -> int, t: Tree<T>, key: T): Tree<T>
    requires Exact(t)
    ensures Exact(Remove(cmp, t, key))
  {
    if t.Leaf? || Get(cmp, t, key).Leaf? then t
    else if cmp(key, t.data) == 0 then MovR(t.left, t.right)
    else if cmp(key, t.data) < 0 then
      var l := Remove(cmp, t.left, key);
      BalanceKeepsOrder(l, t.data, t.right);
      Balance(l, t.data, t.right)
    else
      var r := Remove(cmp, t.right, key);
      BalanceKeepsOrder(t.left, t.data, r);
      Balance(t.left, t.data, r)
  }

  lemma {:induction false} RemoveRemoves<T(!new)>(cmp: (T, T) -> int, t: Tree<T>, key: T) returns (k: nat)
    requires Comparator(cmp) && Exact(t) && Sorted(cmp, InOrder(t)) && Has(cmp, InOrder(t), key)
    ensures k < |InOrder(t)| && cmp(key, InOrder(t)[k]) == 0
    ensures InOrder(Remove(cmp, t, key)) == InOrder(t)[..k] + InOrder(t)[k + 1..]
    ensures Sorted(cmp, InOrder(Remove(cmp, t, key)))
  {
    var l, d, r := InOrder(t.left), t.data, InOrder(t.right);
    assert InOrder(t) == l + [d] + r;
    SortedParts(cmp, l, d, r);
    HasSide(cmp, l, d, r, key);
    GetFinds(cmp, t, key);
    RemoveStep(cmp, t, key);
    hide Sorted, Has, Comparator, Remove, Get, InOrder;
    if cmp(key, d) == 0 {
      k := |l|;
    } else if cmp(key, d) < 0 {
      k := RemoveRemoves(cmp, t.left, key);
    } else {
      k := RemoveRemoves(cmp, t.right, key);
      CutRight(l, d, r, k);
      k := |l| + 1 + k;
    }
    CutParts(l, d, r, k);
    CutSorted(cmp, l + [d] + r, k);
  }

  /** One level of a removal, on the contents. */
  lemma RemoveStep<T>(cmp: (T, T) -> int, t: Tree<T>, key: T)
    requires Exact(t) && Get(cmp, t, key).Node?
    ensures InOrder(Remove(cmp, t, key)) ==
            if cmp(key, t.data) == 0 then InOrder(t.left) + InOrder(t.right)
            else if cmp(key, t.data) < 0 then InOrder(Remove(cmp, t.left, key)) + [t.data] + InOrder(t.right)
            else InOrder(t.left) + [t.data] + InOrder(Remove(cmp, t.right, key))
  {
    hide Balance, MovR, InOrder;
    if cmp(key, t.data) == 0 {
      MovRConcatenates(t.left, t.right);
    } else if cmp(key, t.data) < 0 {
      BalanceKeepsOrder(Remove(cmp, t.left, key), t.data, t.right);
    } else {
      BalanceKeepsOrder(t.left, t.data, Remove(cmp, t.right, key));
    }
  }

  lemma CutRight<T>(l: seq<T>, d: T, r: seq<T>, j: nat)
    requires j < |r|
    ensures (l + [d] + r)[|l| + 1 + j] == r[j]
  {
  }

  /** A present key is on the side where the search goes. */
  lemma HasSide<T(!new)>(cmp: (T, T) -> int, l: seq<T>, d: T, r: seq<T>, x: T)
    requires Comparator(cmp) && Sorted(cmp, l + [d] + r)
    ensures cmp(x, d) < 0 ==> (Has(cmp, l + [d] + r, x) <==> Has(cmp, l, x))
    ensures cmp(x, d) > 0 ==> (Has(cmp, l + [d] + r, x) <==> Has(cmp, r, x))
  {
    SearchStep(cmp, l, d, r, x);
    HasSplit(cmp, l, d, r, x);
  }

  lemma CutSorted<T(!new)>(cmp: (T, T) -> int, s: seq<T>, k: nat)
    requires Sorted(cmp, s) && k < |s|
    ensures Sorted(cmp, s[..k] + s[k + 1..])
  {
  }

  lemma CutParts<T>(l: seq<T>, d: T, r: seq<T>, k: nat)
    requires k < |l| + 1 + |r|
    ensures var s := l + [d] + r;
            s[..k] + s[k + 1..] ==
            if k < |l| then (l[..k] + l[k + 1..]) + [d] + r
            else if k == |l| then l + r
            else l + [d] + (r[..k - |l| - 1] + r[k - |l|..])
  {
  }

  // ----- removal and balance

  /** Hanging a right subtree of height at most 2 keeps the balance, whatever the left one is. */
  lemma {:induction false} MovRShort<T>(n: Tree<T>, r: Tree<T>)
    requires Exact(n) && Exact(r) && Balanced(n) && Balanced(r) && Ht(r) <= 2
    ensures Balanced(MovR(n, r))
    ensures 0 <= Ht(MovR(n, r)) - Max(Ht(n), Ht(r)) <= 1
  {
    if n.Node? {
      MovRShort(n.right, r);
      if Ht(n.right) == 1 && Ht(r) == 2 && Ht(n.left) <= 1 {
        MovRSmallest(n, r);
      } else {
        var m := MovR(n.right, r);
        assert n.right.Leaf? ==> m == r;
        assert Ht(n.right) >= 1 || Ht(n.right) == 0;
        BalanceRepairs(n.left, n.data, m);
      }
    }
  }

  /** The short spines, where the growth by one needs a look at the rotated shape. */
  lemma MovRSmallest<T>(n: Tree<T>, r: Tree<T>)
    requires Exact(n) && Exact(r) && Balanced(n) && Balanced(r)
    requires n.Node? && Ht(n.left) <= 1 && Ht(n.right) == 1 && Ht(r) == 2
    ensures Balanced(MovR(n, r)) && 2 <= Ht(MovR(n, r)) <= 3
  {
    var l, b := n.left, n.right;
    assert b.left.Leaf? && b.right.Leaf?;
    assert MovR(b.right, r) == r;
    var m := Balance(Leaf, b.data, r);
    assert MovR(b, r) == m;
    BalanceKeepsOrder(Leaf, b.data, r);
    RepairsRight(Leaf, b.data, r);
    assert MovR(n, r) == Balance(l, n.data, m);
    if Ht(m) == 2 {
      BalanceRepairs(l, n.data, m);
    } else {
      assert m == RotL(Leaf, b.data, r);
      assert m.left == Fix(Leaf, b.data, r.left) && m.right == r.right;
      assert Delta(m) == 1;
      if l.Node? {
        RepairsRight(l, n.data, m);
      } else {
        ThreeLevels(n.data, b.data, r.left, r.data, r.right);
      }
    }
  }

  lemma ThreeLevels<T>(a: T, b: T, x: Tree<T>, c: T, y: Tree<T>)
    requires Exact(x) && Exact(y) && Ht(x) == Ht(y) == 1
    ensures var m := RotL(Leaf, b, Fix(x, c, y));
            && Exact(m) && Ht(m) == 3
            && Balanced(Balance(Leaf, a, m)) && Ht(Balance(Leaf, a, m)) == 3
  {
    var m := RotL(Leaf, b, Fix(x, c, y));
    assert m == Fix(Fix(Leaf, b, x), c, y);
    assert Balance(Leaf, a, m) == RotL(Leaf, a, RotR(Fix(Leaf, b, x), c, y));
    assert RotR(Fix(Leaf, b, x), c, y) == Fix(Leaf, b, Fix(x, c, y));
    assert Balance(Leaf, a, m) == Fix(Fix(Leaf, a, Leaf), b, Fix(x, c, y));
    assert x.left.Leaf? && x.right.Leaf? && y.left.Leaf? && y.right.Leaf?;
  }

  /** Removal keeps the balance when the removed node has no left child, or a right subtree of
      height at most 2. */
  lemma {:induction false} RemoveKeepsBalance<T>(cmp: (T, T) -> int, t: Tree<T>, key: T)
    requires Exact(t) && Balanced(t)
    requires Get(cmp, t, key).Node? ==>
               Get(cmp, t, key).left.Leaf? || Ht(Get(cmp, t, key).right) <= 2
    ensures Balanced(Remove(cmp, t, key))
    ensures 0 <= Ht(t) - Ht(Remove(cmp, t, key)) <= 1
  {
    if t.Node? && Get(cmp, t, key).Node? {
      if cmp(key, t.data) == 0 {
        if t.left.Node? {
          MovRShort(t.left, t.right);
        }
      } else if cmp(key, t.data) < 0 {
        RemoveKeepsBalance(cmp, t.left, key);
        BalanceRepairs(Remove(cmp, t.left, key), t.data, t.right);
      } else {
        RemoveKeepsBalance(cmp, t.right, key);
        BalanceRepairs(t.left, t.data, Remove(cmp, t.right, key));
      }
    }
  }

  /** With a right subtree of height 3 the guarantee ends: removing the root `k` of this balanced
      tree of seven nodes leaves a node two levels out of balance. */
  lemma RemovalCanUnbalance<T>(cmp: (T, T) -> int, a: T, b: Tree<T>, k: T, x: Tree<T>, c: T, d: T, y: Tree<T>)
    requires cmp(k, k) == 0
    requires Exact(b) && Exact(x) && Exact(y) && Ht(b) == Ht(x) == Ht(y) == 1
    ensures var t := Fix(Fix(Leaf, a, b), k, Fix(Fix(x, c, Leaf), d, y));
            Exact(t) && Balanced(t) && !Balanced(Remove(cmp, t, k))
  {
    var l, r := Fix(Leaf, a, b), Fix(Fix(x, c, Leaf), d, y);
    assert b.left.Leaf? && b.right.Leaf? && Balanced(x) && Balanced(y);
    assert MovR(b.right, r) == r && MovR(b, r) == Balance(Leaf, b.data, r);
    var m := Fix(Fix(Leaf, b.data, x), c, Fix(Leaf, d, y));
    assert RotR(r.left, d, y) == Fix(x, c, Fix(Leaf, d, y));
    assert Balance(Leaf, b.data, r) == m;
    assert MovR(l, r) == Balance(Leaf, a, m) == RotL(Leaf, a, m);
    assert Delta(RotL(Leaf, a, m).left) == -2;
  }

  // ----- whole runs

  datatype Op<T> = Ins(x: T) | Del(x: T)

  /** The container: its tree and its `count` field. */
  datatype Avl<T> = Avl(root: Tree<T>, count: int)

  /** `avl_insert` and `avl_remove`: inserting a present key changes nothing. */
  function Apply<T>(cmp: (T, T) -> int, a: Avl<T>, op: Op<T>): Avl<T>
    requires Exact(a.root)
    ensures Exact(Apply(cmp, a, op).root)
  {
    var found := Get(cmp, a.root, op.x).Node?;
    match op
    case Ins(x) => if found then a else Avl(Insert(cmp, a.root, x), a.count + 1)
    case Del(x) => Avl(Remove(cmp, a.root, x), if found then a.count - 1 else a.count)
  }

  function Run<T>(cmp: (T, T) -> int, ops: seq<Op<T>>): Avl<T>
    ensures Exact(Run(cmp, ops).root)
  {
    if ops == [] then Avl(Leaf, 0) else Apply(cmp, Run(cmp, ops[..|ops| - 1]), ops[|ops| - 1])
  }

  /** The reference meaning: the last operation on a key decides. */
  predicate Present<T>(cmp: (T, T) -> int, ops: seq<Op<T>>, y: T) {
    ops != [] &&
    if cmp(y, ops[|ops| - 1].x) == 0 then ops[|ops| - 1].Ins? else Present(cmp, ops[..|ops| - 1], y)
  }

  ghost predicate Good<T(!new)>(cmp: (T, T) -> int, a: Avl<T>) {
    Exact(a.root) && Sorted(cmp, InOrder(a.root)) && a.count == |InOrder(a.root)|
  }

  lemma ApplyGood<T(!new)>(cmp: (T, T) -> int, a: Avl<T>, op: Op<T>)
    requires Comparator(cmp) && Good(cmp, a)
    ensures Good(cmp, Apply(cmp, a, op))
    ensures forall y :: Has(cmp, InOrder(Apply(cmp, a, op).root), y) <==>
              if cmp(y, op.x) == 0 then op.Ins? else Has(cmp, InOrder(a.root), y)
  {
    var s := InOrder(a.root);
    GetFinds(cmp, a.root, op.x);
    if Has(cmp, s, op.x) {
      if op.Del? {
        var k := RemoveRemoves(cmp, a.root, op.x);
        forall y ensures Has(cmp, s[..k] + s[k + 1..], y) <==> cmp(y, op.x) != 0 && Has(cmp, s, y) {
          CutHas(cmp, s, k, op.x, y);
        }
      } else {
        forall y | cmp(y, op.x) == 0 ensures Has(cmp, s, y) {
          HasEquivalent(cmp, s, y, op.x);
        }
      }
    } else {
      if op.Ins? {
        var k := InsertInserts(cmp, a.root, op.x);
        InsertedSorted(cmp, s, op.x, k);
        assert s == s[..k] + s[k..];
        forall y ensures Has(cmp, s[..k] + [op.x] + s[k..], y) <==> cmp(y, op.x) == 0 || Has(cmp, s, y) {
          HasSplit(cmp, s[..k], op.x, s[k..], y);
          HasConcat(cmp, s[..k], s[k..], y);
        }
      } else {
        assert Remove(cmp, a.root, op.x) == a.root;
        forall y | cmp(y, op.x) == 0 ensures !Has(cmp, s, y) {
          HasEquivalent(cmp, s, y, op.x);
        }
      }
    }
  }

  lemma HasConcat<T(!new)>(cmp: (T, T) -> int, a: seq<T>, b: seq<T>, y: T)
    ensures Has(cmp, a + b, y) <==> Has(cmp, a, y) || Has(cmp, b, y)
  {
    if Has(cmp, b, y) {
      var i :| 0 <= i < |b| && cmp(y, b[i]) == 0;
      assert (a + b)[|a| + i] == b[i];
    }
    if Has(cmp, a, y) {
      var i :| 0 <= i < |a| && cmp(y, a[i]) == 0;
      assert (a + b)[i] == a[i];
    }
  }

  lemma EqualTrans<T(!new)>(cmp: (T, T) -> int, x: T, y: T, z: T)
    requires Comparator(cmp)
    ensures cmp(x, y) == 0 <==> cmp(y, x) == 0
    ensures cmp(x, y) == 0 ==> (cmp(x, z) == 0 <==> cmp(y, z) == 0)
  {
    assert About(x, y, z) && About(y, z, x) && About(z, x, y);
    assert About(x, z, y) && About(z, y, x) && About(y, x, z);
  }

  lemma HasEquivalent<T(!new)>(cmp: (T, T) -> int, s: seq<T>, x: T, y: T)
    requires Comparator(cmp) && cmp(x, y) == 0
    ensures Has(cmp, s, x) <==> Has(cmp, s, y)
  {
    forall i | 0 <= i < |s| ensures cmp(x, s[i]) == 0 <==> cmp(y, s[i]) == 0 {
      EqualTrans(cmp, x, y, s[i]);
    }
  }

  lemma CutHas<T(!new)>(cmp: (T, T) -> int, s: seq<T>, k: nat, x: T, y: T)
    requires Comparator(cmp) && Sorted(cmp, s) && k < |s| && cmp(x, s[k]) == 0
    ensures Has(cmp, s[..k] + s[k + 1..], y) <==> cmp(y, x) != 0 && Has(cmp, s, y)
  {
    assert s == s[..k] + [s[k]] + s[k + 1..];
    HasSplit(cmp, s[..k], s[k], s[k + 1..], y);
    HasConcat(cmp, s[..k], s[k + 1..], y);
    EqualTrans(cmp, x, s[k], y);
    EqualTrans(cmp, y, x, s[k]);
    EqualTrans(cmp, y, s[k], x);
    SearchStep(cmp, s[..k], s[k], s[k + 1..], y);
  }

  /** AVL refinement over all runs. */
  lemma {:induction false} RunRefines<T(!new)>(cmp: (T, T) -> int, ops: seq<Op<T>>)
    requires Comparator(cmp)
    ensures Good(cmp, Run(cmp, ops))
    ensures forall y :: Has(cmp, InOrder(Run(cmp, ops).root), y) <==> Present(cmp, ops, y)
  {
    if ops != [] {
      RunRefines(cmp, ops[..|ops| - 1]);
      ApplyGood(cmp, Run(cmp, ops[..|ops| - 1]), ops[|ops| - 1]);
    }
  }

  /** A run of insertions stays balanced. */
  lemma {:induction false} InsertRunBalanced<T>(cmp: (T, T) -> int, ops: seq<Op<T>>)
    requires forall i :: 0 <= i < |ops| ==> ops[i].Ins?
    ensures Balanced(Run(cmp, ops).root)
  {
    if ops != [] {
      InsertRunBalanced(cmp, ops[..|ops| - 1]);
      InsertKeepsBalance(cmp, Run(cmp, ops[..|ops| - 1]).root, ops[|ops| - 1].x);
    }
  }
}
