/** The tables of `PathTable` are what the container of lib/collection/avl.c holds when it is ordered by
    paths: its search, insertion, removal and scans land where the tables' do. */
module PathContainer {
  import opened Keys
  import opened Paths
  import opened PathTable
  import T = AvlTree
  import W = AvlWalk
  import H = AvlHeap
  import C = AvlContainer

  lemma OrderedIsSorted<V(!new)>(t: seq<Entry<V>>)
    ensures T.Sorted(EntryCmp<V>, t) <==> Ordered(t)
  {
    assert forall i, j :: 0 <= i < j < |t| ==> (EntryCmp(t[i], t[j]) < 0 <==> Before(t[i].path, t[j].path));
  }

  /** `avl_get`. */
  lemma FindPlace<V(!new)>(t: seq<Entry<V>>, e: Entry<V>)
    requires Ordered(t)
    ensures T.Has(EntryCmp<V>, t, e) <==> Find(t, e.path).Some?
    ensures forall k :: 0 <= k < |t| ==> (EntryCmp(e, t[k]) == 0 <==> Find(t, e.path) == Some(k))
  {
    hide Ordered, ToMap, LowerBound;
    FindSpec(t, e.path);
    forall k | 0 <= k < |t| ensures EntryCmp(e, t[k]) == 0 <==> Find(t, e.path) == Some(k) {
      PathCmpAntisymmetric(e.path, t[k].path);
      ToMapAt(t, k);
      if Find(t, e.path).Some? {
        Distinct(t, k, Find(t, e.path).value);
      }
    }
  }

  /** Where `avl_insert` puts an absent entry. */
  lemma InsertPlace<V(!new)>(t: seq<Entry<V>>, e: Entry<V>, k: nat)
    requires Ordered(t) && T.SplitsAt(EntryCmp<V>, t, e, k)
    ensures k == LowerBound(t, e.path)
  {
    hide Ordered, LowerBound;
    var lo := LowerBound(t, e.path);
    if lo < |t| {
      LowerBoundSplits(t, e.path, lo);
      PathCmpAntisymmetric(e.path, t[lo].path);
      assert lo < k ==> EntryCmp(e, t[lo]) > 0;
    }
    if k < |t| {
      LowerBoundSplits(t, e.path, k);
      PathCmpAntisymmetric(e.path, t[k].path);
      assert EntryCmp(e, t[k]) < 0;
    }
  }

  /** Where `avl_it_start_at` starts. */
  lemma ScanPlace<V(!new)>(t: seq<Entry<V>>, e: Entry<V>, k: nat)
    requires Ordered(t) && W.IsLowerBound(EntryCmp<V>, t, e, k)
    ensures k == LowerBound(t, e.path)
  {
    hide Ordered, LowerBound;
    var lo := LowerBound(t, e.path);
    if lo < |t| {
      LowerBoundSplits(t, e.path, lo);
      PathCmpAntisymmetric(e.path, t[lo].path);
      assert lo < k ==> EntryCmp(e, t[lo]) > 0;
    }
    if k < |t| {
      LowerBoundSplits(t, e.path, k);
      PathCmpAntisymmetric(e.path, t[k].path);
      assert EntryCmp(e, t[k]) <= 0;
    }
  }

  /** A container ordered by paths. */
  method NewTable<V(!new)>() returns (a: C.AvlSet<Entry<V>>)
    ensures a.Valid() && fresh(a) && a.cmp == EntryCmp<V> && a.Contents() == []
  {
    EntryCmpIsComparator<V>();
    a := new C.AvlSet(EntryCmp<V>);
  }

  /** `avl_insert` on it is insertion into the table; a present path is left alone. */
  method TableInsert<V(!new)>(a: C.AvlSet<Entry<V>>, e: Entry<V>)
    requires a.Valid() && a.cmp == EntryCmp<V>
    modifies a, H.Nodes(a.root)
    ensures a.Valid() && Ordered(a.Contents())
    ensures var t := old(a.Contents());
            var k := LowerBound(t, e.path);
            a.Contents() == if Find(t, e.path).Some? then t else t[..k] + [e] + t[k..]
  {
    hide Ordered, LowerBound, T.Sorted, T.Has;
    ghost var t := a.Contents();
    OrderedIsSorted(t);
    FindPlace(t, e);
    var n := a.Insert(e);
    OrderedIsSorted(a.Contents());
    if n != null {
      ghost var k :| T.SplitsAt(a.cmp, t, e, k) && a.Contents() == t[..k] + [e] + t[k..];
      InsertPlace(t, e, k);
    }
  }

  /** `avl_remove` on it takes out the entry of that path. */
  method TableRemove<V(!new)>(a: C.AvlSet<Entry<V>>, e: Entry<V>)
    requires a.Valid() && a.cmp == EntryCmp<V>
    modifies a, H.Nodes(a.root)
    ensures a.Valid() && Ordered(a.Contents())
    ensures var t := old(a.Contents());
            match Find(t, e.path)
            case None => a.Contents() == t
            case Some(k) => a.Contents() == t[..k] + t[k + 1..]
  {
    hide Ordered, LowerBound, T.Sorted, T.Has;
    ghost var t := a.Contents();
    OrderedIsSorted(t);
    FindPlace(t, e);
    a.Remove(e);
    OrderedIsSorted(a.Contents());
  }

  /** A scan from a path yields the table from its lower bound on. */
  method TableScan<V(!new)>(a: C.AvlSet<Entry<V>>, e: Entry<V>) returns (out: seq<Entry<V>>)
    requires a.Valid() && a.cmp == EntryCmp<V> && T.Ht(H.Value(a.root)) <= C.STACK_SLOTS
    ensures out == a.Contents()[LowerBound(a.Contents(), e.path)..]
  {
    hide Ordered, LowerBound, T.Sorted;
    out := C.CollectFrom(a, e);
    ghost var k :| 0 <= k <= |a.Contents()| && W.IsLowerBound(a.cmp, a.Contents(), e, k) && out == a.Contents()[k..];
    OrderedIsSorted(a.Contents());
    ScanPlace(a.Contents(), e, k);
  }
}
