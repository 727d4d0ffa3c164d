/** What lib/datasync/on/on_registry.c computes for one subscription: the child events between the
    stored hashes and the cached children, and the value event. */
module OnModel {
  import opened Keys
  import opened Paths
  import opened DataCache

  datatype Kind = Added | Removed | Changed | Value

  type Handle = nat

  /** A subscription: the four callback lists, the stored value hash, the stored child hashes. */
  datatype Sub = Sub(added: seq<Handle>, removed: seq<Handle>, changed: seq<Handle>, value: seq<Handle>,
                     hash: string, kids: seq<KidHash>)

  /** A child event before it is handed to the callbacks of its kind. */
  datatype Ev = Ev(kind: Kind, key: Key, prev: Option<Key>)

  /** One invocation of a callback. */
  datatype Call = Call(handle: Handle, path: Path, kind: Kind, key: Option<Key>, prev: Option<Key>)

  function List(s: Sub, k: Kind): seq<Handle> {
    match k
    case Added => s.added
    case Removed => s.removed
    case Changed => s.changed
    case Value => s.value
  }

  // ----- the sorted merge of on_child_trig

  ghost predicate InOrderKeys(a: seq<KidHash>) {
    forall i, j :: 0 <= i < j < |a| ==> KeyOrd(a[i].key, a[j].key) < 0
  }

  /** The events of the two-iterator loop, from the elements still ahead of both iterators. */
  function Diff(a: seq<KidHash>, b: seq<KidHash>, prev: Option<Key>): seq<Ev>
    decreases |a| + |b|
  {
    if a == [] && b == [] then []
    else if b == [] || (a != [] && KeyOrd(a[0].key, b[0].key) < 0) then
      [Ev(Added, a[0].key, prev)] + Diff(a[1..], b, Some(a[0].key))
    else if a == [] || KeyOrd(a[0].key, b[0].key) > 0 then
      [Ev(Removed, b[0].key, prev)] + Diff(a, b[1..], prev)
    else
      (if a[0].hash != b[0].hash then [Ev(Changed, a[0].key, prev)] else [])
      + Diff(a[1..], b[1..], Some(a[0].key))
  }

  /** `datasync_key_cmp_null`: an exhausted list compares above everything. */
  function CmpNull(a: seq<KidHash>, b: seq<KidHash>, i: nat, j: nat): int
    requires i <= |a| && j <= |b|
  {
    if i == |a| && j == |b| then 0
    else if i == |a| then 1
    else if j == |b| then -1
    else KeyOrd(a[i].key, b[j].key)
  }

  lemma DiffStep(a: seq<KidHash>, b: seq<KidHash>, i: nat, j: nat, prev: Option<Key>)
    requires i <= |a| && j <= |b| && (i < |a| || j < |b|)
    ensures CmpNull(a, b, i, j) < 0 ==> i < |a| && Diff(a[i..], b[j..], prev) ==
                                         [Ev(Added, a[i].key, prev)] + Diff(a[i + 1..], b[j..], Some(a[i].key))
    ensures CmpNull(a, b, i, j) > 0 ==> j < |b| && Diff(a[i..], b[j..], prev) ==
                                         [Ev(Removed, b[j].key, prev)] + Diff(a[i..], b[j + 1..], prev)
    ensures CmpNull(a, b, i, j) == 0 ==> i < |a| && j < |b| && Diff(a[i..], b[j..], prev) ==
                                          (if a[i].hash != b[j].hash then [Ev(Changed, a[i].key, prev)] else [])
                                          + Diff(a[i + 1..], b[j + 1..], Some(a[i].key))
  {
    hide KeyOrd;
    assert i < |a| ==> a[i..][1..] == a[i + 1..];
    assert j < |b| ==> b[j..][1..] == b[j + 1..];
  }

  /** `on_child_trig` up to the callbacks: `a` is the cached children, `b` the stored ones. */
  method ChildEvents(a: seq<KidHash>, b: seq<KidHash>) returns (evs: seq<Ev>, refresh: bool)
    ensures evs == Diff(a, b, None)
    ensures refresh <==> evs != []
  {
    var i, j := 0, 0;
    var prev: Option<Key> := None;
    evs, refresh := [], false;
    assert a[0..] == a && b[0..] == b && a[|a|..] == [] && b[|b|..] == [];
    DiffNone();
    hide Diff, CmpNull;
    while i < |a| || j < |b|
      invariant 0 <= i <= |a| && 0 <= j <= |b|
      invariant evs + Diff(a[i..], b[j..], prev) == Diff(a, b, None)
      invariant refresh <==> evs != []
      decreases |a| - i + |b| - j
    {
      DiffStep(a, b, i, j, prev);
      var cmp := CmpNull(a, b, i, j);
      if cmp < 0 {
        refresh := true;
        AppendOne(evs, Ev(Added, a[i].key, prev), Diff(a[i + 1..], b[j..], Some(a[i].key)));
        evs := evs + [Ev(Added, a[i].key, prev)];
        prev := Some(a[i].key);
        i := i + 1;
      } else if cmp == 0 {
        ghost var rest := Diff(a[i + 1..], b[j + 1..], Some(a[i].key));
        AppendOne(evs, Ev(Changed, a[i].key, prev), rest);
        if a[i].hash != b[j].hash {
          evs := evs + [Ev(Changed, a[i].key, prev)];
          refresh := true;
        }
        prev := Some(a[i].key);
        i, j := i + 1, j + 1;
      } else {
        refresh := true;
        AppendOne(evs, Ev(Removed, b[j].key, prev), Diff(a[i..], b[j + 1..], prev));
        evs := evs + [Ev(Removed, b[j].key, prev)];
        j := j + 1;
      }
    }
    assert evs + [] == evs;
  }

  lemma AppendOne(evs: seq<Ev>, e: Ev, d: seq<Ev>)
    ensures evs + ([e] + d) == (evs + [e]) + d && [] + d == d
  {
  }

  lemma DiffNone()
    ensures forall prev :: Diff([], [], prev) == []
  {
  }

  // ----- the reference meaning of a child diff

  function HashOf(a: seq<KidHash>, k: Key): Option<string> {
    if a == [] then None else if a[0].key == k then Some(a[0].hash) else HashOf(a[1..], k)
  }

  /** What happened to a key between the stored children `b` and the cached children `a`. */
  function Change(a: seq<KidHash>, b: seq<KidHash>, k: Key): Option<Kind> {
    match (HashOf(a, k), HashOf(b, k))
    case (Some(_), None) => Some(Added)
    case (None, Some(_)) => Some(Removed)
    case (Some(h), Some(g)) => if h != g then Some(Changed) else None
    case (None, None) => None
  }

  /** The greatest cached key below `k`, or `prev` if there is none. */
  function Pred(a: seq<KidHash>, k: Key, prev: Option<Key>): Option<Key> {
    if a == [] || KeyOrd(a[0].key, k) >= 0 then prev else Pred(a[1..], k, Some(a[0].key))
  }

  lemma {:induction false} HashOfNone(a: seq<KidHash>, k: Key)
    requires InOrderKeys(a) && (a != [] ==> KeyOrd(k, a[0].key) < 0)
    ensures HashOf(a, k) == None
  {
    if a != [] {
      KeyOrdAntisymmetric(k, a[0].key);
      if |a| >= 2 {
        KeyOrdTransitive(k, a[0].key, a[1].key);
        KeyOrdAntisymmetric(k, a[1].key);
        KeyOrdAntisymmetric(a[0].key, a[1].key);
      }
      HashOfNone(a[1..], k);
    }
  }

  /** Keys before both lists have not changed. */
  lemma TailNone(a: seq<KidHash>, k: Key)
    requires InOrderKeys(a) && a != [] && KeyOrd(k, a[0].key) <= 0
    ensures InOrderKeys(a[1..]) && HashOf(a[1..], k) == None
  {
    if |a| >= 2 {
      KeyOrdTransitive(k, a[0].key, a[1].key);
      KeyOrdAntisymmetric(k, a[1].key);
      KeyOrdAntisymmetric(a[0].key, a[1].key);
      if k == a[1].key {
        KeyOrdAntisymmetric(a[1].key, a[0].key);
      }
    }
    HashOfNone(a[1..], k);
  }

  /** The loop emits exactly one event per key that is new, gone or rehashed, with the true
      predecessor among the cached children, and no other. */
  lemma {:induction false} DiffExact(a: seq<KidHash>, b: seq<KidHash>, prev: Option<Key>, e: Ev)
    requires InOrderKeys(a) && InOrderKeys(b)
    ensures e in Diff(a, b, prev) <==> Change(a, b, e.key) == Some(e.kind) && e.prev == Pred(a, e.key, prev)
    decreases |a| + |b|
  {
    if a == [] && b == [] {
    } else if b == [] || (a != [] && KeyOrd(a[0].key, b[0].key) < 0) {
      DiffAdded(a, b, prev, e.key);
      DiffExact(a[1..], b, Some(a[0].key), e);
    } else if a == [] || KeyOrd(a[0].key, b[0].key) > 0 {
      DiffRemoved(a, b, prev, e.key);
      DiffExact(a, b[1..], prev, e);
    } else {
      DiffBoth(a, b, prev, e.key);
      DiffExact(a[1..], b[1..], Some(a[0].key), e);
    }
  }

  lemma DiffAdded(a: seq<KidHash>, b: seq<KidHash>, prev: Option<Key>, k: Key)
    requires InOrderKeys(a) && InOrderKeys(b) && a != [] && (b == [] || KeyOrd(a[0].key, b[0].key) < 0)
    ensures InOrderKeys(a[1..])
    ensures k == a[0].key ==> Change(a, b, k) == Some(Added) && Change(a[1..], b, k) == None && Pred(a, k, prev) == prev
    ensures k != a[0].key ==> Change(a, b, k) == Change(a[1..], b, k)
    ensures k != a[0].key && Change(a, b, k).Some? ==> Pred(a, k, prev) == Pred(a[1..], k, Some(a[0].key))
  {
    var k0 := a[0].key;
    KeyOrdAntisymmetric(k, k0);
    KeyOrdAntisymmetric(k0, k0);
    if KeyOrd(k, k0) <= 0 {
      TailNone(a, k);
      if b != [] {
        KeyOrdTransitive(k, k0, b[0].key);
        KeyOrdAntisymmetric(k, b[0].key);
        KeyOrdAntisymmetric(k0, b[0].key);
      }
      HashOfNone(b, k);
    }
  }

  lemma DiffRemoved(a: seq<KidHash>, b: seq<KidHash>, prev: Option<Key>, k: Key)
    requires InOrderKeys(a) && InOrderKeys(b) && b != [] && (a == [] || KeyOrd(a[0].key, b[0].key) > 0)
    ensures InOrderKeys(b[1..])
    ensures k == b[0].key ==>
              Change(a, b, k) == Some(Removed) && Change(a, b[1..], k) == None && Pred(a, k, prev) == prev
    ensures k != b[0].key ==> Change(a, b, k) == Change(a, b[1..], k)
  {
    var k0 := b[0].key;
    if k == k0 {
      KeyOrdAntisymmetric(k0, k0);
      TailNone(b, k);
      if a != [] {
        KeyOrdAntisymmetric(a[0].key, k0);
      }
      HashOfNone(a, k);
    }
  }

  lemma DiffBoth(a: seq<KidHash>, b: seq<KidHash>, prev: Option<Key>, k: Key)
    requires InOrderKeys(a) && InOrderKeys(b) && a != [] && b != [] && KeyOrd(a[0].key, b[0].key) == 0
    ensures InOrderKeys(a[1..]) && InOrderKeys(b[1..]) && a[0].key == b[0].key
    ensures k == a[0].key ==>
              && Change(a, b, k) == (if a[0].hash != b[0].hash then Some(Changed) else None)
              && Change(a[1..], b[1..], k) == None && Pred(a, k, prev) == prev
    ensures k != a[0].key ==> Change(a, b, k) == Change(a[1..], b[1..], k)
    ensures k != a[0].key && Change(a, b, k).Some? ==> Pred(a, k, prev) == Pred(a[1..], k, Some(a[0].key))
  {
    var k0 := a[0].key;
    KeyOrdAntisymmetric(k0, b[0].key);
    KeyOrdAntisymmetric(k, k0);
    KeyOrdAntisymmetric(k0, k0);
    if KeyOrd(k, k0) <= 0 {
      TailNone(a, k);
      TailNone(b, k);
    }
  }

  /** The events come in strictly ascending key order, so no key is reported twice. */
  lemma {:induction false} DiffAscending(a: seq<KidHash>, b: seq<KidHash>, prev: Option<Key>)
    requires InOrderKeys(a) && InOrderKeys(b)
    ensures forall i, j :: 0 <= i < j < |Diff(a, b, prev)| ==>
              KeyOrd(Diff(a, b, prev)[i].key, Diff(a, b, prev)[j].key) < 0
    decreases |a| + |b|
  {
    var d := Diff(a, b, prev);
    if a == [] && b == [] {
    } else if b == [] || (a != [] && KeyOrd(a[0].key, b[0].key) < 0) {
      DiffAscending(a[1..], b, Some(a[0].key));
      DiffAbove(a, b, a[0].key, a[1..], b, Some(a[0].key));
    } else if a == [] || KeyOrd(a[0].key, b[0].key) > 0 {
      if a != [] {
        KeyOrdAntisymmetric(a[0].key, b[0].key);
      }
      DiffAscending(a, b[1..], prev);
      DiffAbove(a, b, b[0].key, a, b[1..], prev);
    } else {
      KeyOrdAntisymmetric(a[0].key, b[0].key);
      DiffAscending(a[1..], b[1..], Some(a[0].key));
      DiffAbove(a, b, a[0].key, a[1..], b[1..], Some(a[0].key));
    }
  }

  /** Events over lists that lie above `k` lie above `k`. */
  lemma DiffAbove(a: seq<KidHash>, b: seq<KidHash>, k: Key, a': seq<KidHash>, b': seq<KidHash>, prev: Option<Key>)
    requires InOrderKeys(a) && InOrderKeys(b)
    requires a' == a || (a != [] && a' == a[1..])
    requires b' == b || (b != [] && b' == b[1..])
    requires a' != [] ==> KeyOrd(k, a'[0].key) < 0
    requires b' != [] ==> KeyOrd(k, b'[0].key) < 0
    ensures forall i :: 0 <= i < |Diff(a', b', prev)| ==> KeyOrd(k, Diff(a', b', prev)[i].key) < 0
  {
    var d := Diff(a', b', prev);
    assert InOrderKeys(a') && InOrderKeys(b');
    forall i | 0 <= i < |d| ensures KeyOrd(k, d[i].key) < 0 {
      DiffExact(a', b', prev, d[i]);
      KeyAbove(a', k, d[i].key);
      KeyAbove(b', k, d[i].key);
    }
  }

  lemma {:induction false} KeyAbove(a: seq<KidHash>, k: Key, q: Key)
    requires InOrderKeys(a) && (a != [] ==> KeyOrd(k, a[0].key) < 0)
    ensures HashOf(a, q).Some? ==> KeyOrd(k, q) < 0
  {
    if a != [] && a[0].key != q {
      if |a| >= 2 {
        KeyOrdTransitive(k, a[0].key, a[1].key);
        KeyOrdAntisymmetric(k, a[1].key);
        KeyOrdAntisymmetric(a[0].key, a[1].key);
        KeyOrdAntisymmetric(k, a[0].key);
      }
      KeyAbove(a[1..], k, q);
    }
  }

  /** No event means nothing to store: `refresh` may be skipped. */
  lemma {:induction false} DiffEmpty(a: seq<KidHash>, b: seq<KidHash>, prev: Option<Key>)
    requires Diff(a, b, prev) == []
    ensures a == b
    decreases |a| + |b|
  {
    if a != [] && b != [] {
      KeyOrdAntisymmetric(a[0].key, b[0].key);
      DiffEmpty(a[1..], b[1..], Some(a[0].key));
      assert a == [a[0]] + a[1..] && b == [b[0]] + b[1..];
    }
  }
}
