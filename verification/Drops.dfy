/** Which callbacks a dispatch queues for removal (lib/datasync/on/on_registry.c). No invocation is repeated, so
    a handle is queued twice exactly when its callback asks to be dropped in two different invocations. */
module Drops {
  import opened Paths
  import opened PathTable
  import opened Kids
  import opened CacheTree
  import opened Merkle
  import opened DataCache
  import opened OnModel
  import opened OnRegistry
  import opened Notify
  import opened Callbacks

  predicate SameCallback(c: Call, d: Call) {
    c.path == d.path && c.handle == d.handle
  }

  /** Each callback asks to be dropped in at most one of these invocations. */
  ghost predicate AsksOnce(calls: seq<Call>, answers: Call -> bool) {
    forall c, d :: c in calls && d in calls && !answers(c) && !answers(d) && SameCallback(c, d) ==> c == d
  }

  ghost predicate Unique<T(!new)>(s: seq<T>) {
    forall i, j :: 0 <= i < j < |s| ==> s[i] != s[j]
  }

  /** The stored children of every subscription are in key order, as their container keeps them. */
  ghost predicate KidsSorted(t: seq<Entry<Sub>>) {
    forall k :: 0 <= k < |t| ==> InOrderKeys(t[k].v.kids)
  }

  ghost predicate HandlesIn(t: seq<Entry<Sub>>) {
    forall k, h :: 0 <= k < |t| ==> Count(t[k].v, h) <= 1
  }

  lemma ListAtMost(s: Sub, kind: Kind, h: Handle)
    ensures multiset(List(s, kind))[h] <= Count(s, h)
  {
  }

  /** One dispatch makes no invocation twice. */
  lemma CallOnce(t: seq<Entry<Sub>>, order: seq<nat>, sha: Sha, n: Node, c: Call)
    requires Ordered(t) && NoRepeat(order) && (forall i :: 0 <= i < |order| ==> order[i] < |t|)
    requires ValidNode(n) && KidsSorted(t) && HandlesIn(t)
    ensures multiset(CallsAt(t, order, sha, n))[c] <= 1
  {
    hide CallsAt, Ordered, ValidNode, HashBytes, Children, Diff, InOrderKeys, Count;
    if c in CallsAt(t, order, sha, n) {
      if c.kind.Value? {
        CallsAtKnown(t, order, sha, n, c);
        var k :| 0 <= k < |t| && t[k].path == c.path && c.handle in t[k].v.value;
        CallsAtCount(t, order, sha, n, k, c.handle);
        ListAtMost(t[k].v, Value, c.handle);
      } else {
        CallsAtKidKnown(t, order, sha, n, c);
        var k :| 0 <= k < |t| && t[k].path == c.path;
        var e := Ev(c.kind, c.key.value, c.prev);
        assert c == ChildCall(c.handle, t[k].path, e);
        CallsAtKid(t, order, sha, n, k, c.handle, e);
        ListAtMost(t[k].v, c.kind, c.handle);
      }
    }
  }

  /** Some invocation of the callback asks for it to be dropped. */
  ghost predicate Asked(calls: seq<Call>, answers: Call -> bool, q: (Path, Handle)) {
    exists c :: c in calls && !answers(c) && (c.path, c.handle) == q
  }

  lemma {:induction false} DroppedAsked(calls: seq<Call>, answers: Call -> bool, q: (Path, Handle))
    ensures q in Dropped(calls, answers) <==> Asked(calls, answers, q)
  {
    if calls != [] {
      var c, up := calls[|calls| - 1], calls[..|calls| - 1];
      DroppedAsked(up, answers, q);
      AskedLast(up, c, answers, q);
      assert calls == up + [c];
    }
  }

  lemma AskedLast(up: seq<Call>, c: Call, answers: Call -> bool, q: (Path, Handle))
    ensures Asked(up + [c], answers, q) <==> Asked(up, answers, q) || (!answers(c) && (c.path, c.handle) == q)
  {
    assert c in up + [c] && forall d :: d in up + [c] <==> d in up || d == c;
    if Asked(up, answers, q) {
      var d :| d in up && !answers(d) && (d.path, d.handle) == q;
      assert d in up + [c];
    }
  }

  lemma AsksLast(up: seq<Call>, c: Call, answers: Call -> bool)
    requires c !in up
    ensures AsksOnce(up + [c], answers) <==>
            AsksOnce(up, answers) && (answers(c) || !Asked(up, answers, (c.path, c.handle)))
  {
    assert c in up + [c] && forall d :: d in up + [c] <==> d in up || d == c;
  }

  /** The queue repeats nothing exactly when each callback asks once. */
  lemma {:induction false} QueueUnique(calls: seq<Call>, answers: Call -> bool)
    requires forall c :: multiset(calls)[c] <= 1
    ensures Unique(Dropped(calls, answers)) <==> AsksOnce(calls, answers)
  {
    hide Asked, AsksOnce, Unique;
    if calls == [] {
      UniqueNone(answers);
    } else {
      var c, up := calls[|calls| - 1], calls[..|calls| - 1];
      assert calls == up + [c];
      assert forall d :: multiset(calls)[d] == multiset(up)[d] + if c == d then 1 else 0;
      assert c !in up by {
        assert multiset(up)[c] == 0;
      }
      QueueUnique(up, answers);
      AsksLast(up, c, answers);
      DroppedAsked(up, answers, (c.path, c.handle));
      UniqueCons((c.path, c.handle), Dropped(up, answers));
      assert [] + Dropped(up, answers) == Dropped(up, answers);
    }
  }

  lemma UniqueNone(answers: Call -> bool)
    ensures Unique(Dropped([], answers)) && AsksOnce([], answers)
  {
  }

  lemma UniqueCons<T(!new)>(x: T, s: seq<T>)
    ensures Unique([x] + s) <==> x !in s && Unique(s)
  {
    var t := [x] + s;
    assert forall i :: 0 <= i < |s| ==> t[i + 1] == s[i];
    if Unique(t) {
      forall i | 0 <= i < |s| ensures s[i] != x {
        assert t[0] != t[i + 1];
      }
      forall i, j | 0 <= i < j < |s| ensures s[i] != s[j] {
        assert t[i + 1] != t[j + 1];
      }
    }
  }

  /** What a dispatch queues: registered callbacks, none of them twice if each asks once. */
  lemma DispatchQueues(t: seq<Entry<Sub>>, u: seq<Entry<Sub>>, calls: seq<Call>, sha: Sha, n: Node, p: Path,
                       answers: Call -> bool)
    requires Ordered(t) && ValidNode(n) && KidsSorted(t) && HandlesIn(t) && Dispatched(t, u, calls, sha, n, p)
    ensures forall i :: 0 <= i < |Dropped(calls, answers)| ==>
              Subscribed(t, Dropped(calls, answers)[i].0, Dropped(calls, answers)[i].1)
    ensures Unique(Dropped(calls, answers)) <==> AsksOnce(calls, answers)
  {
    hide CallsAt, Ordered, ValidNode, KidsSorted, HandlesIn, Dropped, AsksOnce, Unique, Subscribed;
    var order :| DispatchedIn(t, u, order, sha, n, p) && calls == CallsAt(t, order, sha, n);
    forall i | 0 <= i < |Dropped(calls, answers)|
      ensures Subscribed(t, Dropped(calls, answers)[i].0, Dropped(calls, answers)[i].1)
    {
      DroppedSubscribed(t, order, sha, n, answers, i);
    }
    forall c ensures multiset(calls)[c] <= 1 {
      CallOnce(t, order, sha, n, c);
    }
    QueueUnique(calls, answers);
  }

  /** A dispatch keeps the stored children in order. */
  lemma DispatchSorts(t: seq<Entry<Sub>>, u: seq<Entry<Sub>>, calls: seq<Call>, sha: Sha, n: Node, p: Path)
    requires ValidNode(n) && KidsSorted(t) && Dispatched(t, u, calls, sha, n, p)
    ensures KidsSorted(u)
  {
    hide CallsAt, ValidNode, HashBytes, Children, InOrderKeys;
    forall k | 0 <= k < |u| ensures InOrderKeys(u[k].v.kids) {
      ChildrenInOrder(sha, n, t[k].path);
    }
  }
}
