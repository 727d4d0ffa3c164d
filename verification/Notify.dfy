/** Exactness of value notification: what a data push does through the cache and the dispatch
    (lib/datasync/datasync.c, lib/datasync/on/on_registry.c). */
module Notify {
  import opened Keys
  import opened Paths
  import opened PathTable
  import opened Kids
  import opened CacheTree
  import opened Merkle
  import opened DataCache
  import opened OnModel
  import opened OnRegistry

  /** Every subscription with a value callback stores the hash of the cached value. */
  ghost predicate Matched(t: seq<Entry<Sub>>, sha: Sha, n: Node) {
    forall k :: 0 <= k < |t| && t[k].v.value != [] ==> t[k].v.hash == HashBytes(sha, n, t[k].path)
  }

  function ValueCall(h: Handle, p: Path): Call {
    Call(h, p, Value, None, None)
  }

  /** The value callbacks among `calls` are those of the subscriptions whose hash differs between the
      two trees, each as often as it is registered. */
  ghost predicate NotifiesExactly(calls: seq<Call>, t: seq<Entry<Sub>>, sha: Sha, before: Node, after: Node) {
    && (forall k, h :: 0 <= k < |t| ==>
          multiset(calls)[ValueCall(h, t[k].path)] ==
          if HashBytes(sha, before, t[k].path) != HashBytes(sha, after, t[k].path)
          then multiset(t[k].v.value)[h] else 0)
    && (forall c :: c in calls && c.kind.Value? ==>
          exists k :: 0 <= k < |t| && t[k].path == c.path && c.handle in t[k].v.value)
  }

  /** Every subscription with a child callback stores the keys and hashes of the cached children. */
  ghost predicate KidsMatched(t: seq<Entry<Sub>>, sha: Sha, n: Node) {
    forall k :: 0 <= k < |t| && HasChildCbs(t[k].v) ==> t[k].v.kids == Children(sha, n, t[k].path)
  }

  function ChildCall(h: Handle, p: Path, e: Ev): Call {
    Call(h, p, e.kind, Some(e.key), e.prev)
  }

  /** The child callbacks among `calls` are those of the keys that appeared, vanished or changed their hash
      between the two trees, each once per registration, with the true predecessor in the new tree. */
  ghost predicate NotifiesKids(calls: seq<Call>, t: seq<Entry<Sub>>, sha: Sha, before: Node, after: Node) {
    forall k, h, e: Ev :: 0 <= k < |t| && !e.kind.Value? ==>
      var (a, b) := (Children(sha, after, t[k].path), Children(sha, before, t[k].path));
      multiset(calls)[ChildCall(h, t[k].path, e)] ==
      if Change(a, b, e.key) == Some(e.kind) && e.prev == Pred(a, e.key, None)
      then multiset(List(t[k].v, e.kind))[h] else 0
  }

  // ----- counting the invocations of a dispatch

  lemma {:induction false} ListCount(hs: seq<Handle>, p: Path, kind: Kind, key: Option<Key>, prev: Option<Key>, c: Call)
    ensures multiset(ListCalls(hs, p, kind, key, prev))[c] ==
            if c == Call(c.handle, p, kind, key, prev) then multiset(hs)[c.handle] else 0
  {
    if hs != [] {
      ListCount(hs[1..], p, kind, key, prev, c);
      assert hs == [hs[0]] + hs[1..];
    }
  }

  lemma {:induction false} DiffNeverValue(a: seq<KidHash>, b: seq<KidHash>, prev: Option<Key>)
    ensures forall i :: 0 <= i < |Diff(a, b, prev)| ==> !Diff(a, b, prev)[i].kind.Value?
    decreases |a| + |b|
  {
    hide KeyOrd;
    if a != [] {
      DiffNeverValue(a[1..], b, Some(a[0].key));
      if b != [] {
        DiffNeverValue(a[1..], b[1..], Some(a[0].key));
      }
    }
    if b != [] {
      DiffNeverValue(a, b[1..], prev);
    }
  }

  lemma {:induction false} EvCount(s: Sub, p: Path, evs: seq<Ev>, c: Call)
    requires c.kind.Value? && forall i :: 0 <= i < |evs| ==> !evs[i].kind.Value?
    ensures multiset(EvCalls(s, p, evs))[c] == 0
  {
    if evs != [] {
      EvCount(s, p, evs[1..], c);
      ListCount(List(s, evs[0].kind), p, evs[0].kind, Some(evs[0].key), evs[0].prev, c);
    }
  }

  lemma CallsOfCount(e: Entry<Sub>, sha: Sha, n: Node, c: Call)
    requires c.kind.Value?
    ensures multiset(CallsOf(e, sha, n))[c] ==
            if c == ValueCall(c.handle, e.path) && HashBytes(sha, n, e.path) != e.v.hash
            then multiset(e.v.value)[c.handle] else 0
  {
    hide HashBytes, Children, EvCalls, ListCalls, Diff;
    var a, h := Children(sha, n, e.path), HashBytes(sha, n, e.path);
    DiffNeverValue(a, e.v.kids, None);
    EvCount(e.v, e.path, Diff(a, e.v.kids, None), c);
    ListCount(e.v.value, e.path, Value, None, None, c);
  }

  lemma {:induction false} CallsAtCount(t: seq<Entry<Sub>>, order: seq<nat>, sha: Sha, n: Node, k: nat, h: Handle)
    requires Ordered(t) && NoRepeat(order) && (forall i :: 0 <= i < |order| ==> order[i] < |t|) && k < |t|
    ensures multiset(CallsAt(t, order, sha, n))[ValueCall(h, t[k].path)] ==
            if k in order && HashBytes(sha, n, t[k].path) != t[k].v.hash then multiset(t[k].v.value)[h] else 0
  {
    hide HashBytes, CallsOf, Ordered;
    if order != [] {
      var j, up := order[|order| - 1], order[..|order| - 1];
      CallsAtCount(t, up, sha, n, k, h);
      CallsOfCount(t[j], sha, n, ValueCall(h, t[k].path));
      PathTable.Distinct(t, j, k);
      assert order == up + [j];
    }
  }

  lemma {:induction false} CallsAtKnown(t: seq<Entry<Sub>>, order: seq<nat>, sha: Sha, n: Node, c: Call)
    requires (forall i :: 0 <= i < |order| ==> order[i] < |t|) && c in CallsAt(t, order, sha, n) && c.kind.Value?
    ensures c == ValueCall(c.handle, c.path)
    ensures exists k :: 0 <= k < |t| && t[k].path == c.path && c.handle in t[k].v.value
  {
    hide HashBytes, CallsOf;
    var j, up := order[|order| - 1], order[..|order| - 1];
    if c in CallsAt(t, up, sha, n) {
      CallsAtKnown(t, up, sha, n, c);
    } else {
      CallsOfCount(t[j], sha, n, c);
      assert multiset(CallsOf(t[j], sha, n))[c] > 0;
      assert t[j].path == c.path && c.handle in multiset(t[j].v.value);
    }
  }

  lemma {:induction false} CallsAtKidKnown(t: seq<Entry<Sub>>, order: seq<nat>, sha: Sha, n: Node, c: Call)
    requires (forall i :: 0 <= i < |order| ==> order[i] < |t|) && c in CallsAt(t, order, sha, n) && !c.kind.Value?
    ensures c.key.Some? && exists k :: 0 <= k < |t| && t[k].path == c.path
  {
    hide HashBytes, Children, EvCalls, ListCalls, Diff;
    var j, up := order[|order| - 1], order[..|order| - 1];
    if c in CallsAt(t, up, sha, n) {
      CallsAtKidKnown(t, up, sha, n, c);
    } else {
      var e := t[j];
      if c in ValueCalls(e.v, e.path, HashBytes(sha, n, e.path)) {
        ListSubscribed(e.v.value, e.path, Value, None, None, c);
      } else {
        EvSubscribed(e.v, e.path, Diff(Children(sha, n, e.path), e.v.kids, None), c);
      }
    }
  }

  lemma ChildrenInOrder(sha: Sha, n: Node, p: Path)
    requires ValidNode(n)
    ensures InOrderKeys(Children(sha, n, p))
  {
    hide FreshHash, Strip, AvlTree.InOrder, AvlTree.Exact;
    GetNodeSpec(n, p);
    if GetNode(n, p).Some? && GetNode(n, p).value.Internal? {
      var s := AvlTree.InOrder(GetNode(n, p).value.kids);
      var a := Children(sha, n, p);
      forall i, j | 0 <= i < j < |a| ensures KeyOrd(a[i].key, a[j].key) < 0 {
        assert KidCmp(s[i], s[j]) < 0;
      }
    }
  }

  ghost predicate NoTwice(evs: seq<Ev>) {
    forall i, j :: 0 <= i < j < |evs| ==> evs[i].key != evs[j].key
  }

  lemma DiffNoTwice(a: seq<KidHash>, b: seq<KidHash>)
    requires InOrderKeys(a) && InOrderKeys(b)
    ensures NoTwice(Diff(a, b, None))
  {
    hide Diff, KeyOrd;
    DiffAscending(a, b, None);
    var d := Diff(a, b, None);
    forall i, j | 0 <= i < j < |d| ensures d[i].key != d[j].key {
      KeyOrdAntisymmetric(d[i].key, d[j].key);
    }
  }

  lemma {:induction false} EvKidCount(s: Sub, p: Path, evs: seq<Ev>, h: Handle, e: Ev)
    requires NoTwice(evs)
    ensures multiset(EvCalls(s, p, evs))[ChildCall(h, p, e)] == if e in evs then multiset(List(s, e.kind))[h] else 0
  {
    if evs != [] {
      EvKidCount(s, p, evs[1..], h, e);
      ListCount(List(s, evs[0].kind), p, evs[0].kind, Some(evs[0].key), evs[0].prev, ChildCall(h, p, e));
      assert evs == [evs[0]] + evs[1..];
    }
  }

  lemma {:induction false} EvElsewhere(s: Sub, p: Path, evs: seq<Ev>, c: Call)
    requires c.path != p
    ensures multiset(EvCalls(s, p, evs))[c] == 0
  {
    if evs != [] {
      EvElsewhere(s, p, evs[1..], c);
      ListCount(List(s, evs[0].kind), p, evs[0].kind, Some(evs[0].key), evs[0].prev, c);
    }
  }

  /** What `trig` on one entry contributes to the count of a child call. */
  lemma CallsOfKid(x: Entry<Sub>, sha: Sha, n: Node, p: Path, h: Handle, e: Ev)
    requires ValidNode(n) && !e.kind.Value? && (HasChildCbs(x.v) ==> InOrderKeys(x.v.kids))
    ensures multiset(CallsOf(x, sha, n))[ChildCall(h, p, e)] ==
            if p == x.path && e in Diff(Children(sha, n, x.path), x.v.kids, None)
            then multiset(List(x.v, e.kind))[h] else 0
  {
    hide HashBytes, Children, EvCalls, ListCalls, Diff, ValidNode, InOrderKeys;
    var c := ChildCall(h, p, e);
    var a, v := Children(sha, n, x.path), HashBytes(sha, n, x.path);
    var evs := Diff(a, x.v.kids, None);
    ChildrenInOrder(sha, n, x.path);
    if HasChildCbs(x.v) {
      DiffNoTwice(a, x.v.kids);
      if p == x.path {
        EvKidCount(x.v, p, evs, h, e);
      } else {
        EvElsewhere(x.v, x.path, evs, c);
      }
    }
    ListCount(x.v.value, x.path, Value, None, None, c);
    assert !HasChildCbs(x.v) ==> List(x.v, e.kind) == [];
  }

  lemma {:induction false} CallsAtKid(t: seq<Entry<Sub>>, order: seq<nat>, sha: Sha, n: Node, k: nat, h: Handle, e: Ev)
    requires Ordered(t) && NoRepeat(order) && (forall i :: 0 <= i < |order| ==> order[i] < |t|) && k < |t|
    requires ValidNode(n) && !e.kind.Value? &&
             forall i :: 0 <= i < |t| && HasChildCbs(t[i].v) ==> InOrderKeys(t[i].v.kids)
    ensures multiset(CallsAt(t, order, sha, n))[ChildCall(h, t[k].path, e)] ==
            if k in order && e in Diff(Children(sha, n, t[k].path), t[k].v.kids, None)
            then multiset(List(t[k].v, e.kind))[h] else 0
  {
    hide HashBytes, CallsOf, Ordered, Children, Diff, ValidNode, InOrderKeys, List;
    if order != [] {
      var j, up := order[|order| - 1], order[..|order| - 1];
      CallsAtKid(t, up, sha, n, k, h, e);
      CallsOfKid(t[j], sha, n, t[k].path, h, e);
      PathTable.Distinct(t, j, k);
      assert order == up + [j];
    }
  }

  // ----- dispatch after a change below `p`

  /** `trig` ran on the tree `n` at the positions in `order`: once on each entry whose path touches `p`, and on no
      other, in the order of the paths. */
  ghost predicate DispatchedIn(t: seq<Entry<Sub>>, u: seq<Entry<Sub>>, order: seq<nat>, sha: Sha, n: Node, p: Path) {
    && |u| == |t| && Ascending(order) && (forall i :: 0 <= i < |order| ==> order[i] < |t|)
    && (forall k: nat :: k in order <==> k < |t| && Touches(t[k].path, p))
    && (forall k :: 0 <= k < |t| ==> u[k] == if k in order then Trigged(t[k], sha, n) else t[k])
  }

  /** A dispatch at `p` that makes these calls. */
  ghost predicate Dispatched(t: seq<Entry<Sub>>, u: seq<Entry<Sub>>, calls: seq<Call>, sha: Sha, n: Node, p: Path) {
    exists order :: DispatchedIn(t, u, order, sha, n, p) && calls == CallsAt(t, order, sha, n)
  }

  /** What a dispatch at `p` does, when the trees agree away from `p`. */
  lemma DispatchExact(t: seq<Entry<Sub>>, u: seq<Entry<Sub>>, calls: seq<Call>, sha: Sha, before: Node, after: Node,
                      p: Path)
    requires Ordered(t) && Dispatched(t, u, calls, sha, after, p) && Matched(t, sha, before)
    requires forall q :: !Touches(q, p) ==> HashBytes(sha, before, q) == HashBytes(sha, after, q)
    ensures Matched(u, sha, after)
    ensures NotifiesExactly(calls, t, sha, before, after)
  {
    hide HashBytes, Children, CallsAt, Touches, Ordered;
    var order :| DispatchedIn(t, u, order, sha, after, p) && calls == CallsAt(t, order, sha, after);
    forall k, h: Handle | 0 <= k < |t|
      ensures multiset(calls)[ValueCall(h, t[k].path)] ==
              if HashBytes(sha, before, t[k].path) != HashBytes(sha, after, t[k].path)
              then multiset(t[k].v.value)[h] else 0
    {
      CallsAtCount(t, order, sha, after, k, h);
    }
    forall c | c in calls && c.kind.Value?
      ensures exists k :: 0 <= k < |t| && t[k].path == c.path && c.handle in t[k].v.value
    {
      CallsAtKnown(t, order, sha, after, c);
    }
  }

  /** The same for the children. */
  lemma DispatchKids(t: seq<Entry<Sub>>, u: seq<Entry<Sub>>, calls: seq<Call>, sha: Sha, before: Node, after: Node,
                     p: Path)
    requires Ordered(t) && Dispatched(t, u, calls, sha, after, p) && KidsMatched(t, sha, before)
    requires forall q :: !Touches(q, p) ==> Children(sha, before, q) == Children(sha, after, q)
    requires ValidNode(before) && ValidNode(after)
    ensures KidsMatched(u, sha, after)
    ensures NotifiesKids(calls, t, sha, before, after)
  {
    hide HashBytes, Children, CallsAt, Touches, Ordered, ValidNode, Diff, Change, Pred, InOrderKeys;
    var order :| DispatchedIn(t, u, order, sha, after, p) && calls == CallsAt(t, order, sha, after);
    forall i | 0 <= i < |t| && HasChildCbs(t[i].v) ensures InOrderKeys(t[i].v.kids) {
      ChildrenInOrder(sha, before, t[i].path);
    }
    forall k, h: Handle, e: Ev | 0 <= k < |t| && !e.kind.Value?
      ensures var (a, b) := (Children(sha, after, t[k].path), Children(sha, before, t[k].path));
              multiset(calls)[ChildCall(h, t[k].path, e)] ==
              if Change(a, b, e.key) == Some(e.kind) && e.prev == Pred(a, e.key, None)
              then multiset(List(t[k].v, e.kind))[h] else 0
    {
      var a, b := Children(sha, after, t[k].path), Children(sha, before, t[k].path);
      CallsAtKid(t, order, sha, after, k, h, e);
      ChildrenInOrder(sha, after, t[k].path);
      ChildrenInOrder(sha, before, t[k].path);
      if HasChildCbs(t[k].v) {
        DiffExact(a, b, None, e);
        SameUnchanged(a, e.key);
      } else {
        assert List(t[k].v, e.kind) == [];
      }
    }
  }

  lemma SameUnchanged(a: seq<KidHash>, k: Key)
    ensures Change(a, a, k) == None
  {
  }

  lemma PutElsewhere(sha: Sha, before: Node, after: Node, p: Path, x: Val, q: Path)
    requires ValidNode(before) && ValidNode(after) && Strip(after) == PutVal(Strip(before), p, x, false)
    requires !Touches(q, p)
    ensures HashBytes(sha, before, q) == HashBytes(sha, after, q)
    ensures Children(sha, before, q) == Children(sha, after, q)
  {
    GetPutOther(Strip(before), p, x, false, q);
    HashBytesOfValue(sha, before, after, q);
  }

  lemma MergeElsewhere(sha: Sha, before: Node, after: Node, p: Path, ms: seq<Update>, q: Path)
    requires ValidNode(before) && ValidNode(after) && Strip(after) == MergeVal(Strip(before), p, ms, |ms|)
    requires !Touches(q, p)
    ensures HashBytes(sha, before, q) == HashBytes(sha, after, q)
    ensures Children(sha, before, q) == Children(sha, after, q)
  {
    hide Strip, ValidNode, MergeVal, HashBytes;
    forall j | 0 <= j < |ms| ensures !(p + ms[j].below <= q) && !(q <= p + ms[j].below) {
      assert p <= p + ms[j].below;
      assert q <= p + ms[j].below && |q| <= |p| ==> q <= p;
    }
    MergeOther(Strip(before), p, ms, |ms|, q);
    HashBytesOfValue(sha, before, after, q);
  }

  /** A push: the cache changed only where paths touch `p`, and the dispatch ran on the new tree. */
  lemma PushExact(t: seq<Entry<Sub>>, u: seq<Entry<Sub>>, calls: seq<Call>, sha: Sha, before: Node, after: Node,
                  p: Path)
    requires Ordered(t) && Dispatched(t, u, calls, sha, after, p) && ValidNode(before) && ValidNode(after)
    requires forall q :: !Touches(q, p) ==>
               && HashBytes(sha, before, q) == HashBytes(sha, after, q)
               && Children(sha, before, q) == Children(sha, after, q)
    ensures Matched(t, sha, before) ==> Matched(u, sha, after) && NotifiesExactly(calls, t, sha, before, after)
    ensures KidsMatched(t, sha, before) ==> KidsMatched(u, sha, after) && NotifiesKids(calls, t, sha, before, after)
  {
    hide Matched, KidsMatched, NotifiesExactly, NotifiesKids, HashBytes, Children, Touches, Ordered, ValidNode;
    hide Dispatched;
    if Matched(t, sha, before) {
      DispatchExact(t, u, calls, sha, before, after, p);
    }
    if KidsMatched(t, sha, before) {
      DispatchKids(t, u, calls, sha, before, after, p);
    }
  }

  /** The memos that a dispatch leaves in the tree change nothing of the above. */
  lemma Settled(t: seq<Entry<Sub>>, u: seq<Entry<Sub>>, order: seq<nat>, sha: Sha, n: Node, n': Node, p: Path)
    requires ValidNode(n) && ValidNode(n') && Strip(n) == Strip(n') && DispatchedIn(t, u, order, sha, n, p)
    ensures DispatchedIn(t, u, order, sha, n', p) && CallsAt(t, order, sha, n) == CallsAt(t, order, sha, n')
  {
    hide Strip, ValidNode, HashBytes, Children, CallsAt;
    forall q ensures HashBytes(sha, n, q) == HashBytes(sha, n', q) && Children(sha, n, q) == Children(sha, n', q) {
      HashBytesOfValue(sha, n, n', q);
    }
    SettledCalls(t, order, sha, n, n');
  }

  lemma {:induction false} SettledCalls(t: seq<Entry<Sub>>, order: seq<nat>, sha: Sha, n: Node, n': Node)
    requires forall i :: 0 <= i < |order| ==> order[i] < |t|
    requires forall q :: HashBytes(sha, n, q) == HashBytes(sha, n', q) && Children(sha, n, q) == Children(sha, n', q)
    ensures CallsAt(t, order, sha, n) == CallsAt(t, order, sha, n')
  {
    hide HashBytes, Children, TrigCalls;
    if order != [] {
      SettledCalls(t, order[..|order| - 1], sha, n, n');
    }
  }

  lemma DispatchedKeepsLists(t: seq<Entry<Sub>>, u: seq<Entry<Sub>>, calls: seq<Call>, sha: Sha, n: Node, p: Path)
    requires Ordered(t) && Dispatched(t, u, calls, sha, n, p)
    ensures Ordered(u) && ListsKept(t, u)
  {
    hide HashBytes, Children, CallsAt, Touches;
    OrderedSame(t, u);
  }

  /** The handler of a data push after the cache has taken it, up to the collection of dropped callbacks. */
  method PushDispatch(reg: Registry, cache: Cache, p: Path, answers: Call -> bool)
    requires reg.Valid() && cache.Valid()
    modifies reg, cache
    ensures reg.Valid() && cache.Valid() && cache.Value() == old(cache.Value())
    ensures old(reg.log) <= reg.log
    ensures var calls := reg.log[|old(reg.log)|..];
            && Dispatched(old(reg.subs), reg.subs, calls, cache.sha, cache.root, p)
            && reg.queue == Dropped(calls, answers) + old(reg.queue)
  {
    hide Strip, ValidNode, Coherent, HashBytes, Children, Dropped, CallsAt, Touches, Ordered, ListsKept, Subscribed;
    ghost var n, t := cache.root, reg.subs;
    ghost var order := reg.Dispatch(p, cache, answers);
    assert reg.log[|old(reg.log)|..] == CallsAt(t, order, cache.sha, n);
    assert DispatchedIn(t, reg.subs, order, cache.sha, n, p);
    Settled(t, reg.subs, order, cache.sha, n, cache.root, p);
  }

  /** What the handler of a put message does to the cache, the subscriptions and the log. */
  method PushPut(reg: Registry, cache: Cache, p: Path, doc: Json, answers: Call -> bool)
    requires reg.Valid() && cache.Valid() && WellFormed(doc)
    modifies reg, cache
    ensures reg.Valid() && cache.Valid() && cache.Value() == PutVal(old(cache.Value()), p, FromJson(doc), false)
    ensures old(reg.log) <= reg.log
    ensures var calls := reg.log[|old(reg.log)|..];
            && Dispatched(old(reg.subs), reg.subs, calls, cache.sha, cache.root, p)
            && reg.queue == Dropped(calls, answers) + old(reg.queue)
            && (old(Matched(reg.subs, cache.sha, cache.root)) ==>
                  && Matched(reg.subs, cache.sha, cache.root)
                  && NotifiesExactly(calls, old(reg.subs), cache.sha, old(cache.root), cache.root))
            && (old(KidsMatched(reg.subs, cache.sha, cache.root)) ==>
                  && KidsMatched(reg.subs, cache.sha, cache.root)
                  && NotifiesKids(calls, old(reg.subs), cache.sha, old(cache.root), cache.root))
  {
    hide Strip, ValidNode, Coherent, PutVal, Matched, NotifiesExactly, KidsMatched, NotifiesKids, HashBytes, Children;
    hide Dropped, Dispatched, Ordered;
    ghost var before, t := cache.root, reg.subs;
    cache.Set(p, doc);
    PushDispatch(reg, cache, p, answers);
    forall q | !Touches(q, p)
      ensures HashBytes(cache.sha, before, q) == HashBytes(cache.sha, cache.root, q)
      ensures Children(cache.sha, before, q) == Children(cache.sha, cache.root, q)
    {
      PutElsewhere(cache.sha, before, cache.root, p, FromJson(doc), q);
    }
    PushExact(t, reg.subs, reg.log[|old(reg.log)|..], cache.sha, before, cache.root, p);
  }

  /** And the handler of a merge message whose document is an object. */
  method PushMerge(reg: Registry, cache: Cache, p: Path, ms: seq<Update>, answers: Call -> bool)
    requires reg.Valid() && cache.Valid() && forall i :: 0 <= i < |ms| ==> WellFormed(ms[i].value)
    modifies reg, cache
    ensures reg.Valid() && cache.Valid() && cache.Value() == MergeVal(old(cache.Value()), p, ms, |ms|)
    ensures old(reg.log) <= reg.log
    ensures var calls := reg.log[|old(reg.log)|..];
            && Dispatched(old(reg.subs), reg.subs, calls, cache.sha, cache.root, p)
            && reg.queue == Dropped(calls, answers) + old(reg.queue)
            && (old(Matched(reg.subs, cache.sha, cache.root)) ==>
                  && Matched(reg.subs, cache.sha, cache.root)
                  && NotifiesExactly(calls, old(reg.subs), cache.sha, old(cache.root), cache.root))
            && (old(KidsMatched(reg.subs, cache.sha, cache.root)) ==>
                  && KidsMatched(reg.subs, cache.sha, cache.root)
                  && NotifiesKids(calls, old(reg.subs), cache.sha, old(cache.root), cache.root))
  {
    hide Strip, ValidNode, Coherent, MergeVal, Matched, NotifiesExactly, KidsMatched, NotifiesKids, HashBytes, Children;
    hide Dropped, Dispatched, Ordered;
    ghost var before, t := cache.root, reg.subs;
    cache.MergeDoc(p, ms);
    PushDispatch(reg, cache, p, answers);
    forall q | !Touches(q, p)
      ensures HashBytes(cache.sha, before, q) == HashBytes(cache.sha, cache.root, q)
      ensures Children(cache.sha, before, q) == Children(cache.sha, cache.root, q)
    {
      MergeElsewhere(cache.sha, before, cache.root, p, ms, q);
    }
    PushExact(t, reg.subs, reg.log[|old(reg.log)|..], cache.sha, before, cache.root, p);
  }
}
