/** A container of path-keyed entries as its in-order contents: `PathContainer` proves that the
    container keeps exactly such a sequence. The registries scan it from a path to the last extension. */
module PathTable {
  import opened Keys
  import opened Paths
  import AvlTree

  datatype Entry<V> = Entry(path: Path, v: V)

  function EntryCmp<V>(a: Entry<V>, b: Entry<V>): int {
    PathCmp(a.path, b.path)
  }

  /** The path order meets the container's demands on its comparison callback. */
  lemma EntryCmpIsComparator<V(!new)>()
    ensures AvlTree.Comparator(EntryCmp<V>)
  {
    forall a: Entry<V>, b: Entry<V>, c: Entry<V> {:trigger AvlTree.About(a, b, c)}
      ensures EntryCmp(a, b) < 0 <==> EntryCmp(b, a) > 0
      ensures EntryCmp(a, b) <= 0 && EntryCmp(b, c) <= 0 ==> EntryCmp(a, c) <= 0
    {
      PathCmpAntisymmetric(a.path, b.path);
      if EntryCmp(a, b) <= 0 && EntryCmp(b, c) <= 0 {
        PathCmpTransitive(a.path, b.path, c.path);
      }
    }
  }

  ghost predicate Ordered<V>(t: seq<Entry<V>>) {
    forall i, j :: 0 <= i < j < |t| ==> Before(t[i].path, t[j].path)
  }

  /** What the table maps each path to. */
  ghost function ToMap<V>(t: seq<Entry<V>>): map<Path, V> {
    if t == [] then map[] else ToMap(t[..|t| - 1])[t[|t| - 1].path := t[|t| - 1].v]
  }

  lemma Distinct<V>(t: seq<Entry<V>>, i: nat, j: nat)
    requires Ordered(t) && i < |t| && j < |t|
    ensures t[i].path == t[j].path <==> i == j
  {
    BeforeIsTotal(t[i].path, t[j].path);
  }

  lemma {:induction false} ToMapAt<V>(t: seq<Entry<V>>, i: nat)
    requires Ordered(t) && i < |t|
    ensures t[i].path in ToMap(t) && ToMap(t)[t[i].path] == t[i].v
  {
    if i < |t| - 1 {
      ToMapAt(t[..|t| - 1], i);
      Distinct(t, i, |t| - 1);
    }
  }

  lemma {:induction false} ToMapIndex<V>(t: seq<Entry<V>>, p: Path) returns (i: nat)
    requires Ordered(t) && p in ToMap(t)
    ensures i < |t| && t[i].path == p && ToMap(t)[p] == t[i].v
  {
    if t[|t| - 1].path == p {
      i := |t| - 1;
    } else {
      i := ToMapIndex(t[..|t| - 1], p);
    }
  }

  /** A map that agrees with every entry and has no other key is the table's map. */
  lemma ToMapUnique<V>(t: seq<Entry<V>>, m: map<Path, V>)
    requires Ordered(t)
    requires forall i :: 0 <= i < |t| ==> t[i].path in m && m[t[i].path] == t[i].v
    requires forall p :: p in m ==> exists i :: 0 <= i < |t| && t[i].path == p
    ensures ToMap(t) == m
  {
    forall p ensures p in ToMap(t) <==> p in m
      ensures p in ToMap(t) ==> ToMap(t)[p] == m[p]
    {
      if p in ToMap(t) {
        var i := ToMapIndex(t, p);
        assert t[i].path == p;
      }
      if p in m {
        var i :| 0 <= i < |t| && t[i].path == p;
        ToMapAt(t, i);
      }
    }
  }

  ghost predicate AllEntries<V(!new)>(t: seq<Entry<V>>, ok: (Path, V) -> bool) {
    forall k :: 0 <= k < |t| ==> ok(t[k].path, t[k].v)
  }

  ghost predicate AllMapped<V(!new)>(m: map<Path, V>, ok: (Path, V) -> bool) {
    forall p :: p in m ==> ok(p, m[p])
  }

  /** What holds of every entry holds of everything mapped, and conversely. */
  lemma EachEntry<V(!new)>(t: seq<Entry<V>>, ok: (Path, V) -> bool)
    requires Ordered(t)
    ensures AllEntries(t, ok) <==> AllMapped(ToMap(t), ok)
  {
    hide ToMap, Ordered;
    if AllEntries(t, ok) {
      forall p | p in ToMap(t) ensures ok(p, ToMap(t)[p]) {
        var k := ToMapIndex(t, p);
        assert ok(t[k].path, t[k].v);
      }
    }
    if AllMapped(ToMap(t), ok) {
      forall k | 0 <= k < |t| ensures ok(t[k].path, t[k].v) {
        ToMapAt(t, k);
      }
    }
  }

  /** Rewriting the values entry by entry rewrites the map key by key. */
  lemma ToMapPointwise<V>(t: seq<Entry<V>>, u: seq<Entry<V>>, f: (Path, V) -> V)
    requires Ordered(t) && |u| == |t|
    requires forall k :: 0 <= k < |t| ==> u[k] == Entry(t[k].path, f(t[k].path, t[k].v))
    ensures Ordered(u)
    ensures ToMap(u) == map q | q in ToMap(t) :: f(q, ToMap(t)[q])
  {
    var m := map q | q in ToMap(t) :: f(q, ToMap(t)[q]);
    forall i | 0 <= i < |u| ensures u[i].path in m && m[u[i].path] == u[i].v {
      ToMapAt(t, i);
    }
    forall p | p in m ensures exists i :: 0 <= i < |u| && u[i].path == p {
      var i := ToMapIndex(t, p);
      assert u[i].path == p;
    }
    ToMapUnique(u, m);
  }

  lemma ToMapUpdate<V>(t: seq<Entry<V>>, k: nat, v: V)
    requires Ordered(t) && k < |t|
    ensures var u := t[k := Entry(t[k].path, v)];
            Ordered(u) && ToMap(u) == ToMap(t)[t[k].path := v]
  {
    var u := t[k := Entry(t[k].path, v)];
    var m := ToMap(t)[t[k].path := v];
    forall i | 0 <= i < |u| ensures u[i].path in m && m[u[i].path] == u[i].v {
      ToMapAt(t, i);
      Distinct(t, i, k);
    }
    forall p | p in m ensures exists i :: 0 <= i < |u| && u[i].path == p {
      if p == t[k].path {
        assert u[k].path == p;
      } else {
        var i := ToMapIndex(t, p);
        assert u[i].path == p;
      }
    }
    ToMapUnique(u, m);
  }

  lemma ToMapRemove<V>(t: seq<Entry<V>>, k: nat)
    requires Ordered(t) && k < |t|
    ensures var u := t[..k] + t[k + 1..];
            Ordered(u) && ToMap(u) == ToMap(t) - {t[k].path}
  {
    var u := t[..k] + t[k + 1..];
    var m := ToMap(t) - {t[k].path};
    assert Ordered(u);
    hide Ordered, ToMap;
    forall i | 0 <= i < |u| ensures u[i].path in m && m[u[i].path] == u[i].v {
      var j := if i < k then i else i + 1;
      ToMapAt(t, j);
      Distinct(t, j, k);
    }
    forall p | p in m ensures exists i :: 0 <= i < |u| && u[i].path == p {
      var j := ToMapIndex(t, p);
      assert u[if j < k then j else j - 1].path == p;
    }
    ToMapUnique(u, m);
  }

  // ----- avl_get, avl_insert and the start of a scan, on the contents

  /** The first entry not before `p`: where `avl_it_start_at` begins. */
  function LowerBound<V>(t: seq<Entry<V>>, p: Path): nat
    ensures LowerBound(t, p) <= |t|
  {
    if t == [] || !Before(t[0].path, p) then 0 else 1 + LowerBound(t[1..], p)
  }

  lemma {:induction false} LowerBoundSplits<V>(t: seq<Entry<V>>, p: Path, i: nat)
    requires Ordered(t) && i < |t|
    ensures Before(t[i].path, p) <==> i < LowerBound(t, p)
  {
    if Before(t[0].path, p) {
      if i > 0 {
        LowerBoundSplits(t[1..], p, i - 1);
      }
    } else if i > 0 && Before(t[i].path, p) {
      BeforeTransitive(t[0].path, t[i].path, p);
    }
  }

  /** `avl_get`: the position of `p`, if present. */
  function Find<V>(t: seq<Entry<V>>, p: Path): Option<nat>
    ensures Find(t, p).Some? ==> Find(t, p).value < |t| && t[Find(t, p).value].path == p
  {
    var k := LowerBound(t, p);
    if k < |t| && t[k].path == p then Some(k) else None
  }

  lemma FindSpec<V>(t: seq<Entry<V>>, p: Path)
    requires Ordered(t)
    ensures Find(t, p).Some? <==> p in ToMap(t)
    ensures Find(t, p).Some? ==> ToMap(t)[p] == t[Find(t, p).value].v
  {
    var k := LowerBound(t, p);
    if p in ToMap(t) {
      var i := ToMapIndex(t, p);
      LowerBoundSplits(t, p, i);
      BeforeIsTotal(p, p);
      if k < i {
        LowerBoundSplits(t, p, k);
      }
    }
    if Find(t, p).Some? {
      ToMapAt(t, k);
    }
  }

  lemma InsertOrdered<V>(t: seq<Entry<V>>, e: Entry<V>)
    requires Ordered(t) && e.path !in ToMap(t)
    ensures Ordered(t[..LowerBound(t, e.path)] + [e] + t[LowerBound(t, e.path)..])
  {
    var k := LowerBound(t, e.path);
    forall i | 0 <= i < |t| ensures if i < k then Before(t[i].path, e.path) else Before(e.path, t[i].path) {
      LowerBoundSplits(t, e.path, i);
      ToMapAt(t, i);
      BeforeIsTotal(t[i].path, e.path);
    }
  }

  lemma InsertedMap<V>(t: seq<Entry<V>>, e: Entry<V>, k: nat)
    requires Ordered(t) && e.path !in ToMap(t) && k <= |t|
    requires Ordered(t[..k] + [e] + t[k..])
    ensures ToMap(t[..k] + [e] + t[k..]) == ToMap(t)[e.path := e.v]
  {
    hide Ordered, ToMap;
    var u := t[..k] + [e] + t[k..];
    var m := ToMap(t)[e.path := e.v];
    forall i | 0 <= i < |u| ensures u[i].path in m && m[u[i].path] == u[i].v {
      if i != k {
        var j := if i < k then i else i - 1;
        assert u[i] == t[j];
        ToMapAt(t, j);
      }
    }
    forall p | p in m ensures exists i :: 0 <= i < |u| && u[i].path == p {
      if p == e.path {
        assert u[k].path == p;
      } else {
        var j := ToMapIndex(t, p);
        assert u[if j < k then j else j + 1] == t[j];
      }
    }
    ToMapUnique(u, m);
  }

  /** `avl_insert` of an absent path. */
  lemma InsertSpec<V>(t: seq<Entry<V>>, e: Entry<V>)
    requires Ordered(t) && e.path !in ToMap(t)
    ensures var k := LowerBound(t, e.path);
            var u := t[..k] + [e] + t[k..];
            Ordered(u) && ToMap(u) == ToMap(t)[e.path := e.v]
  {
    InsertOrdered(t, e);
    InsertedMap(t, e, LowerBound(t, e.path));
  }

  // ----- scanning the extensions of a path

  /** The scan from `LowerBound` that stops at `i` has met exactly the extensions of `p`. */
  lemma ScanStops<V>(t: seq<Entry<V>>, p: Path, i: nat, k: nat)
    requires Ordered(t) && k < |t|
    requires LowerBound(t, p) <= i <= |t|
    requires forall j :: LowerBound(t, p) <= j < i ==> p <= t[j].path
    requires i == |t| || !(p <= t[i].path)
    ensures p <= t[k].path <==> LowerBound(t, p) <= k < i
  {
    LowerBoundSplits(t, p, k);
    PathCmpAntisymmetric(p, t[k].path);
    if p <= t[k].path {
      PrefixFirst(p, t[k].path);
      if i <= k {
        LowerBoundSplits(t, p, i);
        PathCmpAntisymmetric(p, t[i].path);
        if i < k {
          assert Before(t[i].path, t[k].path);
          ExtensionsContiguous(p, t[i].path, t[k].path);
        }
        assert false;
      }
    }
  }
}
