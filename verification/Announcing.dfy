/** What a registration tells its callback at once, and in which order callbacks are told
    (lib/datasync/on/on_registry.c). */
module Announcing {
  import opened Keys
  import opened Paths
  import opened PathTable
  import opened Kids
  import opened CacheTree
  import opened Merkle
  import opened DataCache
  import opened ListenModel
  import opened OnModel
  import opened OnRegistry
  import opened Notify
  import opened Callbacks
  import opened ClientRuns
  import opened ValueChange

  // ----- the initial invocations

  /** The children that are there, announced: exactly the calls of a dispatch to a subscription that has stored nothing
      and whose only callback this is. */
  lemma {:induction false} KidCallsAreDiff(h: Handle, p: Path, a: seq<KidHash>, s: Sub)
    requires s.added == [h]
    ensures KidCalls(h, p, a) == EvCalls(s, p, Diff(a, [], None))
  {
    KidCallsFrom(h, p, a, 0, s);
    assert a[0..] == a && KidCalls(h, p, a)[0..] == KidCalls(h, p, a);
  }

  lemma {:induction false} KidCallsFrom(h: Handle, p: Path, a: seq<KidHash>, i: nat, s: Sub)
    requires s.added == [h] && i <= |a|
    ensures KidCalls(h, p, a)[i..] ==
            EvCalls(s, p, Diff(a[i..], [], if i == 0 then None else Some(a[i - 1].key)))
    decreases |a| - i
  {
    if i < |a| {
      var prev := if i == 0 then None else Some(a[i - 1].key);
      KidCallsFrom(h, p, a, i + 1, s);
      assert a[i..][1..] == a[i + 1..];
      var e := Ev(Added, a[i].key, prev);
      assert Diff(a[i..], [], prev) == [e] + Diff(a[i + 1..], [], Some(a[i].key));
      OneCall(s, p, e, Diff(a[i + 1..], [], Some(a[i].key)), h);
      assert KidCalls(h, p, a)[i..] == [KidCalls(h, p, a)[i]] + KidCalls(h, p, a)[i + 1..];
    }
  }

  lemma OneCall(s: Sub, p: Path, e: Ev, rest: seq<Ev>, h: Handle)
    requires List(s, e.kind) == [h]
    ensures EvCalls(s, p, [e] + rest) == [Call(h, p, e.kind, Some(e.key), e.prev)] + EvCalls(s, p, rest)
  {
    assert [h][1..] == [];
    assert ([e] + rest)[0] == e && ([e] + rest)[1..] == rest;
    assert ListCalls([], p, e.kind, Some(e.key), e.prev) == [];
  }

  /** What one registration tells: the value to a value callback, if it is announced, and to a callback for added
      children every child that is there, once, with the key before it; and nothing else. */
  ghost predicate Tells(calls: seq<Call>, kind: Kind, p: Path, h: Handle, v: Val, announced: bool) {
    && (forall c :: c in calls ==> c.handle == h && c.path == p && c.kind == kind && (kind.Value? || kind.Added?))
    && multiset(calls)[ValueCall(h, p)] == (if kind.Value? && announced then 1 else 0)
    && forall e: Ev :: !e.kind.Value? ==>
         multiset(calls)[ChildCall(h, p, e)] ==
         if kind.Added? && e.kind.Added? && e.key in KeysAt(v, p) && IsPrevious(KeysAt(v, p), e.key, e.prev)
         then 1 else 0
  }

  lemma ToldTells(sha: Sha, w: World, kind: Kind, p: Path, h: Handle)
    requires ValidNode(w.root)
    ensures Tells(Told(sha, w, kind, p, h), kind, p, h, Strip(w.root), Announced(Strip(w.root), w.s, p))
  {
    hide ValidNode, Strip, GetVal, Children, KeysAt, IsPrevious, IsMasked;
    match kind
    case Value =>
      ValueTold(Told(sha, w, kind, p, h), h, p, Announced(Strip(w.root), w.s, p));
      hide Told, Announced;
    case Added =>
      ChildrenTold(sha, w.root, p, h);
      NoneListed(sha, w.root, p);
      hide KidCalls;
    case _ =>
      assert Told(sha, w, kind, p, h) == [];
  }

  lemma ValueTold(calls: seq<Call>, h: Handle, p: Path, announced: bool)
    requires calls == if announced then [ValueCall(h, p)] else []
    ensures forall c :: c in calls ==> c == ValueCall(h, p)
    ensures multiset(calls)[ValueCall(h, p)] == if announced then 1 else 0
    ensures forall e: Ev :: multiset(calls)[ChildCall(h, p, e)] == 0
  {
  }

  /** Where nothing is announced, nothing is there. */
  lemma NoneListed(sha: Sha, n: Node, p: Path)
    requires ValidNode(n)
    ensures GetVal(Strip(n), p).None? ==> Children(sha, n, p) == []
  {
    hide ValidNode, Strip, GetVal;
    GetNodeSpec(n, p);
  }

  lemma ChildrenTold(sha: Sha, n: Node, p: Path, h: Handle)
    requires ValidNode(n)
    ensures var (a, calls) := (Children(sha, n, p), KidCalls(h, p, Children(sha, n, p)));
            && (forall c :: c in calls ==> c.handle == h && c.path == p && c.kind.Added?)
            && multiset(calls)[ValueCall(h, p)] == 0
            && forall e: Ev :: !e.kind.Value? ==>
                 multiset(calls)[ChildCall(h, p, e)] ==
                 if e.kind.Added? && e.key in KeysAt(Strip(n), p) && IsPrevious(KeysAt(Strip(n), p), e.key, e.prev)
                 then 1 else 0
  {
    var a, calls := Children(sha, n, p), KidCalls(h, p, Children(sha, n, p));
    assert forall c :: c in calls ==> c.handle == h && c.path == p && c.kind.Added?;
    assert ValueCall(h, p) !in calls;
    hide ValidNode, Strip, GetVal, Children, KeysAt, IsPrevious, KidCalls, InOrderKeys, Diff, HashOf, Pred;
    ChildrenInOrder(sha, n, p);
    NothingInOrder();
    DiffNoTwice(a, []);
    forall k ensures k in KeysAt(Strip(n), p) <==> HashOf(a, k).Some? {
      ListedHash(sha, n, p, k);
    }
    var s := NewSub().(added := [h]);
    KidCallsAreDiff(h, p, a, s);
    forall e: Ev | !e.kind.Value?
      ensures multiset(calls)[ChildCall(h, p, e)] ==
              if e.kind.Added? && e.key in KeysAt(Strip(n), p) && IsPrevious(KeysAt(Strip(n), p), e.key, e.prev)
              then 1 else 0
    {
      EvKidCount(s, p, Diff(a, [], None), h, e);
      DiffExact(a, [], None, e);
      FromNothing(a, e.key);
      PredIsPrevious(a, KeysAt(Strip(n), p), e.key, e.prev);
    }
  }

  lemma NothingInOrder()
    ensures InOrderKeys([])
  {
  }

  lemma FromNothing(a: seq<KidHash>, k: Key)
    ensures Change(a, [], k) == if HashOf(a, k).Some? then Some(Added) else None
  {
  }

  /** In every run, every registration tells exactly this. */
  lemma RunTells(sha: Sha, acts: seq<Act>, ws: seq<World>, k: nat)
    requires IsClientRun(sha, acts, ws) && k < |acts| && acts[k].Register?
    ensures var (w, a) := (ws[k], acts[k]);
            Tells(NewCalls(w, ws[k + 1]), a.kind, a.p, a.h, Strip(w.root), Announced(Strip(w.root), w.s, a.p))
  {
    hide Sound, Covered, Tells, Announced;
    RunSound(sha, acts, ws, k);
    RootValid(ws[k]);
    var w, w', a := ws[k], ws[k + 1], acts[k];
    assert Next(sha, w, a, w');
    hide IsClientRun, Told, Joined, Strip, ToMap, Ordered, ValidNode;
    assert w'.log == w.log + Told(sha, w, a.kind, a.p, a.h);
    assert NewCalls(w, w') == Told(sha, w, a.kind, a.p, a.h);
    ToldTells(sha, w, a.kind, a.p, a.h);
  }

  lemma RootValid(w: World)
    requires Sound(w)
    ensures ValidNode(w.root)
  {
  }

  /** Before the first connection every value callback is told; on a connection, one under a listened path is, and one
      at a path that nothing is known of is not. */
  lemma AnnouncedCases(v: Val, s: Session, p: Path)
    ensures Announced(VNull, Init(), p)
    ensures s.cnx.Connected? && IsMasked(s.reg, p) ==> Announced(v, s, p)
    ensures s.cnx.Connected? && s.reg == map[] && p != [] ==> !Announced(VNull, s, p)
  {
  }

  // ----- the order of the invocations of a dispatch

  /** `c` may come before `d`: subscriptions in the order of their paths, prefixes first; for one of them the child
      events in the order of the keys, then the value. */
  ghost predicate InTurn(c: Call, d: Call) {
    || Before(c.path, d.path)
    || (&& c.path == d.path
        && if c.kind.Value? then d.kind.Value?
           else d.kind.Value? || c.key == d.key || (c.key.Some? && d.key.Some? && KeyOrd(c.key.value, d.key.value) < 0))
  }

  ghost predicate AllInTurn(calls: seq<Call>) {
    forall i, j :: 0 <= i < j < |calls| ==> InTurn(calls[i], calls[j])
  }

  lemma TurnsConcat(a: seq<Call>, b: seq<Call>)
    requires AllInTurn(a) && AllInTurn(b) && forall c, d :: c in a && d in b ==> InTurn(c, d)
    ensures AllInTurn(a + b)
  {
    hide InTurn;
    var s := a + b;
    forall i, j | 0 <= i < j < |s| ensures InTurn(s[i], s[j]) {
      if j < |a| {
        assert InTurn(a[i], a[j]);
      } else if i >= |a| {
        assert InTurn(b[i - |a|], b[j - |a|]);
      } else {
        assert a[i] in a && b[j - |a|] in b;
      }
    }
  }

  lemma ListInTurn(hs: seq<Handle>, p: Path, kind: Kind, key: Option<Key>, prev: Option<Key>)
    ensures AllInTurn(ListCalls(hs, p, kind, key, prev))
  {
    hide KeyOrd, Before;
    var s := ListCalls(hs, p, kind, key, prev);
    forall i, j | 0 <= i < j < |s| ensures InTurn(s[i], s[j]) {
      ListSubscribed(hs, p, kind, key, prev, s[i]);
      ListSubscribed(hs, p, kind, key, prev, s[j]);
    }
  }

  ghost predicate Rising(evs: seq<Ev>) {
    && (forall i :: 0 <= i < |evs| ==> !evs[i].kind.Value?)
    && forall i, j :: 0 <= i < j < |evs| ==> KeyOrd(evs[i].key, evs[j].key) < 0
  }

  lemma {:induction false} EvKeys(s: Sub, p: Path, evs: seq<Ev>, c: Call)
    requires c in EvCalls(s, p, evs)
    ensures c.path == p && exists i :: 0 <= i < |evs| && c.kind == evs[i].kind && c.key == Some(evs[i].key)
  {
    var e := evs[0];
    if c in ListCalls(List(s, e.kind), p, e.kind, Some(e.key), e.prev) {
      ListSubscribed(List(s, e.kind), p, e.kind, Some(e.key), e.prev, c);
      assert c.kind == evs[0].kind;
    } else {
      EvKeys(s, p, evs[1..], c);
      var i :| 0 <= i < |evs[1..]| && c.kind == evs[1..][i].kind && c.key == Some(evs[1..][i].key);
      assert evs[1..][i] == evs[i + 1];
    }
  }

  lemma {:induction false} EvInTurn(s: Sub, p: Path, evs: seq<Ev>)
    requires Rising(evs)
    ensures AllInTurn(EvCalls(s, p, evs))
  {
    hide KeyOrd, Before, List, ListCalls, AllInTurn;
    if evs == [] {
      NoTurns();
    } else {
      var e, rest := evs[0], evs[1..];
      var a, b := ListCalls(List(s, e.kind), p, e.kind, Some(e.key), e.prev), EvCalls(s, p, rest);
      assert forall i :: 0 <= i < |rest| ==> rest[i] == evs[i + 1];
      ListInTurn(List(s, e.kind), p, e.kind, Some(e.key), e.prev);
      EvInTurn(s, p, rest);
      forall c, d | c in a && d in b ensures InTurn(c, d) {
        ListSubscribed(List(s, e.kind), p, e.kind, Some(e.key), e.prev, c);
        EvKeys(s, p, rest, d);
      }
      TurnsConcat(a, b);
    }
  }

  lemma NoTurns()
    ensures AllInTurn([])
  {
  }

  /** The invocations on one subscription. */
  lemma CallsOfInTurn(e: Entry<Sub>, sha: Sha, n: Node)
    requires ValidNode(n) && InOrderKeys(e.v.kids)
    ensures AllInTurn(CallsOf(e, sha, n)) && forall c :: c in CallsOf(e, sha, n) ==> c.path == e.path
  {
    hide ValidNode, HashBytes, Children, Diff, KeyOrd, EvCalls, ListCalls, Before, InOrderKeys, AllInTurn, InTurn;
    var a, h := Children(sha, n, e.path), HashBytes(sha, n, e.path);
    var evs := Diff(a, e.v.kids, None);
    ChildrenInOrder(sha, n, e.path);
    DiffAscending(a, e.v.kids, None);
    DiffNeverValue(a, e.v.kids, None);
    EvInTurn(e.v, e.path, evs);
    NoTurns();
    ListInTurn(e.v.value, e.path, Value, None, None);
    var x, y := ChildCalls(e.v, e.path, a), ValueCalls(e.v, e.path, h);
    forall c | c in x ensures c.path == e.path && !c.kind.Value? {
      EvKeys(e.v, e.path, evs, c);
    }
    forall d | d in y ensures d.path == e.path && d.kind.Value? {
      ListSubscribed(e.v.value, e.path, Value, None, None, d);
    }
    ChildThenValue(x, y, e.path);
    TurnsConcat(x, y);
  }

  lemma ChildThenValue(x: seq<Call>, y: seq<Call>, p: Path)
    requires forall c :: c in x ==> c.path == p && !c.kind.Value?
    requires forall d :: d in y ==> d.path == p && d.kind.Value?
    ensures forall c, d :: c in x && d in y ==> InTurn(c, d)
  {
    hide KeyOrd, Before;
  }

  lemma {:induction false} CallsAtInTurn(t: seq<Entry<Sub>>, order: seq<nat>, sha: Sha, n: Node)
    requires Ordered(t) && Ascending(order) && (forall i :: 0 <= i < |order| ==> order[i] < |t|) && ValidNode(n)
    requires forall k :: 0 <= k < |t| ==> InOrderKeys(t[k].v.kids)
    ensures AllInTurn(CallsAt(t, order, sha, n))
    ensures forall c :: c in CallsAt(t, order, sha, n) ==> exists i :: 0 <= i < |order| && t[order[i]].path == c.path
  {
    hide ValidNode, CallsOf, AllInTurn, InOrderKeys, Before;
    if order == [] {
      NoTurns();
    } else {
      var j, up := order[|order| - 1], order[..|order| - 1];
      CallsAtInTurn(t, up, sha, n);
      CallsOfInTurn(t[j], sha, n);
      var a, b := CallsAt(t, up, sha, n), CallsOf(t[j], sha, n);
      forall c, d | c in a && d in b ensures InTurn(c, d) {
        var i :| 0 <= i < |up| && t[up[i]].path == c.path;
        assert up[i] == order[i] < j;
        assert Before(t[order[i]].path, t[j].path);
      }
      TurnsConcat(a, b);
      forall c: Call | c in a + b ensures exists i :: 0 <= i < |order| && t[order[i]].path == c.path {
        if c in a {
          var i :| 0 <= i < |up| && t[up[i]].path == c.path;
          assert t[order[i]].path == c.path;
        } else {
          assert t[order[|order| - 1]].path == c.path;
        }
      }
    }
  }

  /** In every run, every data push invokes its callbacks in turn. */
  lemma RunInTurn(sha: Sha, acts: seq<Act>, ws: seq<World>, k: nat)
    requires IsClientRun(sha, acts, ws) && k < |acts| && (acts[k].PutPush? || acts[k].MergePush?)
    ensures AllInTurn(NewCalls(ws[k], ws[k + 1]))
  {
    hide Covered, AllInTurn;
    RunSound(sha, acts, ws, k);
    var w, w', a := ws[k], ws[k + 1], acts[k];
    assert Next(sha, w, a, w');
    hide IsClientRun, Strip, ToMap, Ordered, ValidNode, InOrderKeys, CallsAt, NewCalls, Touches, Dropped;
    hide PutVal, MergeVal, Conserved, Handles, QueueOk;
    var order :| DispatchedIn(w.subs, w'.subs, order, sha, w'.root, a.p)
                 && NewCalls(w, w') == CallsAt(w.subs, order, sha, w'.root);
    CallsAtInTurn(w.subs, order, sha, w'.root);
  }

  // ----- the order within a callback list

  /** The last act before `k` that registered the handle in this list, or -1. */
  function LastRegistered(acts: seq<Act>, k: nat, p: Path, kind: Kind, h: Handle): (r: int)
    requires k <= |acts|
    ensures r < k
  {
    if k == 0 then -1
    else
      var a := acts[k - 1];
      if a.Register? && a.p == p && a.kind == kind && a.h == h then k - 1 else LastRegistered(acts, k - 1, p, kind, h)
  }

  /** A list from the newest registration to the oldest. */
  ghost predicate NewestFirst(acts: seq<Act>, k: nat, p: Path, kind: Kind, hs: seq<Handle>)
    requires k <= |acts|
  {
    forall i, j :: 0 <= i < j < |hs| ==>
      LastRegistered(acts, k, p, kind, hs[i]) > LastRegistered(acts, k, p, kind, hs[j])
  }

  ghost predicate AllNewestFirst(acts: seq<Act>, k: nat, m: map<Path, Sub>)
    requires k <= |acts|
  {
    forall p, kind :: p in m ==> NewestFirst(acts, k, p, kind, List(m[p], kind))
  }

  lemma {:induction false} StayIn(hs: seq<Handle>, h: Option<Handle>, x: Handle)
    ensures x in Stay(hs, h) ==> x in hs
  {
    if h.Some? && hs != [] {
      StayIn(hs[1..], h, x);
    }
  }

  lemma {:induction false} StayNewest(acts: seq<Act>, k: nat, p: Path, kind: Kind, hs: seq<Handle>, h: Option<Handle>)
    requires k <= |acts| && NewestFirst(acts, k, p, kind, hs)
    ensures NewestFirst(acts, k, p, kind, Stay(hs, h))
  {
    hide LastRegistered;
    if h.Some? && hs != [] {
      var rest := hs[1..];
      StayNewest(acts, k, p, kind, rest, h);
      forall x | x in Stay(rest, h)
        ensures LastRegistered(acts, k, p, kind, hs[0]) > LastRegistered(acts, k, p, kind, x)
      {
        StayIn(rest, h, x);
        var i :| 0 <= i < |rest| && rest[i] == x;
        assert hs[i + 1] == x;
      }
    }
  }

  lemma WithoutNewest(acts: seq<Act>, k: nat, m: map<Path, Sub>, p: Path, mask: set<Kind>, h: Option<Handle>)
    requires k <= |acts| && AllNewestFirst(acts, k, m)
    ensures AllNewestFirst(acts, k, Without(m, p, mask, h))
  {
    hide NewestFirst, Stay, Total;
    if p in m {
      forall kind ensures NewestFirst(acts, k, p, kind, List(Pruned(m[p], mask, h), kind)) {
        StayNewest(acts, k, p, kind, List(m[p], kind), h);
        assert List(Pruned(m[p], mask, h), kind) ==
               if kind in mask then Stay(List(m[p], kind), h) else List(m[p], kind);
      }
    }
  }

  lemma SameRegistered(acts: seq<Act>, k: nat, m: map<Path, Sub>)
    requires k < |acts| && !acts[k].Register? && AllNewestFirst(acts, k, m)
    ensures AllNewestFirst(acts, k + 1, m)
  {
    forall p, kind | p in m ensures NewestFirst(acts, k + 1, p, kind, List(m[p], kind)) {
      assert NewestFirst(acts, k, p, kind, List(m[p], kind));
    }
  }

  lemma RegisterNewest(acts: seq<Act>, k: nat, m: map<Path, Sub>, s': Sub)
    requires k < |acts| && acts[k].Register? && AllNewestFirst(acts, k, m)
    requires acts[k].p in m ==> Count(m[acts[k].p], acts[k].h) == 0
    requires var a := acts[k];
             var s := SubAt(m, a.p);
             SameLists(s', WithList(s, a.kind, [a.h] + List(s, a.kind)))
    ensures AllNewestFirst(acts, k + 1, m[acts[k].p := s'])
  {
    var a := acts[k];
    var m', s := m[a.p := s'], SubAt(m, a.p);
    hide LastRegistered, Count, NewSub;
    forall p, kind | p in m' ensures NewestFirst(acts, k + 1, p, kind, List(m'[p], kind)) {
      var hs := if p in m then List(m[p], kind) else [];
      assert p in m ==> NewestFirst(acts, k, p, kind, hs);
      NewSubEmpty(a.h);
      if p == a.p && kind == a.kind {
        assert List(m'[p], kind) == [a.h] + List(s, kind);
        NotIn(s, a.h, kind);
        JustRegistered(acts, k, p, kind, List(s, kind));
      } else {
        assert List(m'[p], kind) == if p == a.p then List(s, kind) else hs;
        OtherRegistered(acts, k, p, kind, List(m'[p], kind));
      }
    }
  }

  lemma JustRegistered(acts: seq<Act>, k: nat, p: Path, kind: Kind, hs: seq<Handle>)
    requires k < |acts| && acts[k].Register? && acts[k].p == p && acts[k].kind == kind
    requires acts[k].h !in hs && NewestFirst(acts, k, p, kind, hs)
    ensures NewestFirst(acts, k + 1, p, kind, [acts[k].h] + hs)
  {
  }

  lemma OtherRegistered(acts: seq<Act>, k: nat, p: Path, kind: Kind, hs: seq<Handle>)
    requires k < |acts| && acts[k].Register? && (acts[k].p != p || acts[k].kind != kind)
    requires NewestFirst(acts, k, p, kind, hs)
    ensures NewestFirst(acts, k + 1, p, kind, hs)
  {
  }

  lemma NotIn(s: Sub, h: Handle, kind: Kind)
    requires Count(s, h) == 0
    ensures h !in List(s, kind)
  {
    assert multiset(List(s, kind))[h] == 0;
  }

  lemma KeptNewest(acts: seq<Act>, k: nat, t: seq<Entry<Sub>>, u: seq<Entry<Sub>>)
    requires k <= |acts| && Ordered(t) && Ordered(u) && ListsKept(t, u) && AllNewestFirst(acts, k, ToMap(t))
    ensures AllNewestFirst(acts, k, ToMap(u))
  {
    hide ToMap, Ordered, ListsKept, NewestFirst;
    forall p, kind | p in ToMap(u) ensures NewestFirst(acts, k, p, kind, List(ToMap(u)[p], kind)) {
      KeptAt(t, u, p);
      assert List(ToMap(u)[p], kind) == List(ToMap(t)[p], kind);
    }
  }

  lemma StepNewest(sha: Sha, acts: seq<Act>, k: nat, w: World, w': World)
    requires k < |acts| && Sound(w) && Next(sha, w, acts[k], w') && AllNewestFirst(acts, k, ToMap(w.subs))
    ensures AllNewestFirst(acts, k + 1, ToMap(w'.subs))
  {
    hide ToMap, Ordered, ValidNode, Strip, Joined, Told, Dispatched, AllNewestFirst, Conserved, Handles, Count, SubAt;
    var m := ToMap(w.subs);
    match acts[k]
    case Register(kind, p, h) =>
      JoinedLists(sha, w, kind, p, h);
      RegisterNewest(acts, k, m, Joined(sha, w, kind, p, h));
    case Unregister(p, mask, h) =>
      SameRegistered(acts, k, m);
      WithoutNewest(acts, k + 1, m, p, mask, h);
    case Collect =>
      SameRegistered(acts, k, m);
      WithoutNewest(acts, k + 1, m, w.queue[0].0, AllKinds(), Some(w.queue[0].1));
    case PutPush(p, _, _) =>
      SameRegistered(acts, k, m);
      DispatchedKeepsLists(w.subs, w'.subs, NewCalls(w, w'), sha, w'.root, p);
      KeptNewest(acts, k + 1, w.subs, w'.subs);
    case MergePush(p, _, _) =>
      SameRegistered(acts, k, m);
      DispatchedKeepsLists(w.subs, w'.subs, NewCalls(w, w'), sha, w'.root, p);
      KeptNewest(acts, k + 1, w.subs, w'.subs);
    case Happen(_) =>
      SameRegistered(acts, k, m);
  }

  /** In every run each callback list stands from the newest registration to the oldest. */
  lemma {:induction false} RunNewest(sha: Sha, acts: seq<Act>, ws: seq<World>, k: nat)
    requires IsClientRun(sha, acts, ws) && k < |ws|
    ensures AllNewestFirst(acts, k, ToMap(ws[k].subs))
  {
    hide Next, Sound, Covered, AllNewestFirst;
    if k == 0 {
      NoneRegistered(acts, ws[0]);
    } else {
      RunNewest(sha, acts, ws, k - 1);
      RunSound(sha, acts, ws, k - 1);
      assert Next(sha, ws[k - 1], acts[k - 1], ws[k]);
      StepNewest(sha, acts, k - 1, ws[k - 1], ws[k]);
    }
  }

  lemma NoneRegistered(acts: seq<Act>, w: World)
    requires IsStart(w)
    ensures AllNewestFirst(acts, 0, ToMap(w.subs))
  {
  }
}
