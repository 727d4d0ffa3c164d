/** lib/datasync/on/on_registry.c: the subscriptions as an ordered table, dispatch of a data event,
    and exactness of the notifications. User callbacks are entries of a log; `answers` says which
    invocations ask to be kept. */
module OnRegistry {
  import opened Keys
  import opened Paths
  import opened PathTable
  import opened Kids
  import opened CacheTree
  import opened Merkle
  import opened DataCache
  import opened OnModel

  predicate HasChildCbs(s: Sub) {
    s.added != [] || s.changed != [] || s.removed != []
  }

  function ListCalls(hs: seq<Handle>, p: Path, kind: Kind, key: Option<Key>, prev: Option<Key>): seq<Call> {
    if hs == [] then [] else [Call(hs[0], p, kind, key, prev)] + ListCalls(hs[1..], p, kind, key, prev)
  }

  function EvCalls(s: Sub, p: Path, evs: seq<Ev>): seq<Call> {
    if evs == [] then []
    else ListCalls(List(s, evs[0].kind), p, evs[0].kind, Some(evs[0].key), evs[0].prev) + EvCalls(s, p, evs[1..])
  }

  function ChildCalls(s: Sub, p: Path, a: seq<KidHash>): seq<Call> {
    if HasChildCbs(s) then EvCalls(s, p, Diff(a, s.kids, None)) else []
  }

  function ValueCalls(s: Sub, p: Path, h: string): seq<Call> {
    if h != s.hash then ListCalls(s.value, p, Value, None, None) else []
  }

  /** The invocations of `trig`, given the cached children and hash at the subscription's path. */
  function TrigCalls(s: Sub, p: Path, a: seq<KidHash>, h: string): seq<Call> {
    ChildCalls(s, p, a) + ValueCalls(s, p, h)
  }

  /** The subscription after `trig`: what is watched is stored. */
  function TrigSub(s: Sub, a: seq<KidHash>, h: string): Sub {
    s.(kids := if HasChildCbs(s) then a else s.kids, hash := if s.value != [] then h else s.hash)
  }

  /** `trig` on an entry against a cache tree. */
  ghost function Trigged(e: Entry<Sub>, sha: Sha, n: Node): Entry<Sub> {
    Entry(e.path, TrigSub(e.v, Children(sha, n, e.path), HashBytes(sha, n, e.path)))
  }

  ghost function CallsOf(e: Entry<Sub>, sha: Sha, n: Node): seq<Call> {
    TrigCalls(e.v, e.path, Children(sha, n, e.path), HashBytes(sha, n, e.path))
  }

  /** The invocations of `trig` on the entries at these positions, in this order. */
  ghost function CallsAt(t: seq<Entry<Sub>>, order: seq<nat>, sha: Sha, n: Node): seq<Call>
    requires forall i :: 0 <= i < |order| ==> order[i] < |t|
  {
    if order == [] then []
    else CallsAt(t, order[..|order| - 1], sha, n) + CallsOf(t[order[|order| - 1]], sha, n)
  }

  /** The handles whose invocations asked to be dropped, latest first. */
  function Dropped(calls: seq<Call>, answers: Call -> bool): seq<(Path, Handle)> {
    if calls == [] then []
    else
      var c := calls[|calls| - 1];
      (if answers(c) then [] else [(c.path, c.handle)]) + Dropped(calls[..|calls| - 1], answers)
  }

  lemma {:induction false} DroppedConcat(a: seq<Call>, b: seq<Call>, answers: Call -> bool)
    ensures Dropped(a + b, answers) == Dropped(b, answers) + Dropped(a, answers)
  {
    hide Dropped;
    DroppedNone(answers);
    if b == [] {
      assert a + b == a && [] + Dropped(a, answers) == Dropped(a, answers);
    } else {
      var c, d := b[..|b| - 1], b[|b| - 1];
      DroppedConcat(a, c, answers);
      DroppedLast(a + c, d, answers);
      DroppedLast(c, d, answers);
      assert a + b == a + c + [d] && b == c + [d];
      var q := if answers(d) then [] else [(d.path, d.handle)];
      assert q + (Dropped(c, answers) + Dropped(a, answers)) == (q + Dropped(c, answers)) + Dropped(a, answers);
    }
  }

  lemma DroppedLast(calls: seq<Call>, c: Call, answers: Call -> bool)
    ensures Dropped(calls + [c], answers) ==
            (if answers(c) then [] else [(c.path, c.handle)]) + Dropped(calls, answers)
  {
    assert (calls + [c])[..|calls|] == calls;
  }

  predicate Touches(q: Path, p: Path) {
    q <= p || p <= q
  }

  class Registry {
    var subs: seq<Entry<Sub>>
    var log: seq<Call>
    var queue: seq<(Path, Handle)>

    ghost predicate Valid()
      reads this
    {
      Ordered(subs)
    }

    constructor ()
      ensures Valid() && subs == [] && log == [] && queue == []
    {
      subs, log, queue := [], [], [];
    }

    /** The loop over a callback list: each one is invoked once. */
    method Fire(calls: seq<Call>, answers: Call -> bool)
      modifies this`log, this`queue
      ensures log == old(log) + calls
      ensures queue == Dropped(calls, answers) + old(queue)
    {
      var i := 0;
      while i < |calls|
        invariant 0 <= i <= |calls|
        invariant log == old(log) + calls[..i]
        invariant queue == Dropped(calls[..i], answers) + old(queue)
      {
        assert calls[..i + 1][..i] == calls[..i];
        log := log + [calls[i]];
        if !answers(calls[i]) {
          queue := [(calls[i].path, calls[i].handle)] + queue;
        }
        i := i + 1;
      }
      assert calls[..i] == calls;
    }

    /** `on_child_trig` on the entry at position `k`. */
    method TrigChildren(k: nat, cache: Cache, answers: Call -> bool)
      requires Valid() && cache.Valid() && k < |subs| && HasChildCbs(subs[k].v)
      modifies this
      ensures subs == old(subs)[k := Entry(old(subs)[k].path,
                        old(subs)[k].v.(kids := Children(cache.sha, cache.root, old(subs)[k].path)))]
      ensures var calls := ChildCalls(old(subs)[k].v, old(subs)[k].path,
                                Children(cache.sha, cache.root, old(subs)[k].path));
              log == old(log) + calls && queue == Dropped(calls, answers) + old(queue)
    {
      hide FreshHash, GetNode, Strip, ValidNode, Coherent, Ordered, Diff, Dropped;
      var p, s := subs[k].path, subs[k].v;
      var a := cache.ChildHashes(p);
      var evs, refresh := ChildEvents(a, s.kids);
      Fire(EvCalls(s, p, evs), answers);
      if refresh {
        subs := subs[k := Entry(p, s.(kids := a))];
      } else {
        DiffEmpty(a, s.kids, None);
      }
    }

    /** `on_val_trig` on the entry at position `k`. */
    method TrigValue(k: nat, cache: Cache, answers: Call -> bool)
      requires Valid() && cache.Valid() && k < |subs| && subs[k].v.value != []
      modifies this, cache
      ensures cache.Valid() && cache.Value() == old(cache.Value())
      ensures subs == old(subs)[k := Entry(old(subs)[k].path,
                        old(subs)[k].v.(hash := HashBytes(cache.sha, old(cache.root), old(subs)[k].path)))]
      ensures var calls := ValueCalls(old(subs)[k].v, old(subs)[k].path,
                                HashBytes(cache.sha, old(cache.root), old(subs)[k].path));
              log == old(log) + calls && queue == Dropped(calls, answers) + old(queue)
    {
      hide FreshHash, GetNode, Strip, ValidNode, Coherent, Ordered, Dropped;
      var p, s := subs[k].path, subs[k].v;
      var h := cache.Hash(p);
      if h != s.hash {
        Fire(ListCalls(s.value, p, Value, None, None), answers);
        subs := subs[k := Entry(p, s.(hash := h))];
      } else {
        Fire([], answers);
      }
    }

    /** `trig` on the entry at position `k`. */
    method Trig(k: nat, cache: Cache, answers: Call -> bool)
      requires Valid() && cache.Valid() && k < |subs|
      modifies this, cache
      ensures Valid() && cache.Valid() && cache.Value() == old(cache.Value())
      ensures subs == old(subs)[k := Trigged(old(subs)[k], cache.sha, old(cache.root))]
      ensures log == old(log) + CallsOf(old(subs)[k], cache.sha, old(cache.root))
      ensures queue == Dropped(CallsOf(old(subs)[k], cache.sha, old(cache.root)), answers) + old(queue)
    {
      hide FreshHash, GetNode, Strip, ValidNode, Coherent, Ordered, Diff, Dropped, EvCalls, Children, HashBytes;
      var s := subs[k].v;
      ghost var p, log0, queue0 := subs[k].path, log, queue;
      ghost var a, h := Children(cache.sha, cache.root, p), HashBytes(cache.sha, cache.root, p);
      ghost var cc, vc := ChildCalls(s, p, a), ValueCalls(s, p, h);
      DroppedNone(answers);
      if s.added != [] || s.changed != [] || s.removed != [] {
        TrigChildren(k, cache, answers);
      }
      assert log == log0 + cc && queue == Dropped(cc, answers) + queue0;
      OrderedSame(old(subs), subs);
      assert ValueCalls(subs[k].v, p, h) == vc;
      hide ChildCalls;
      if s.value != [] {
        TrigValue(k, cache, answers);
      }
      assert log == log0 + cc + vc && queue == Dropped(vc, answers) + (Dropped(cc, answers) + queue0);
      DroppedConcat(cc, vc, answers);
      OrderedSame(old(subs), subs);
    }

    /** The entries at the positions in `order`, and no others, have been triggered, once each. */
    ghost predicate Progress(was: Registered, order: seq<nat>, answers: Call -> bool)
      reads this
    {
      && Valid() && Ordered(was.subs) && |subs| == |was.subs| && Ascending(order)
      && (forall i :: 0 <= i < |order| ==> order[i] < |subs|)
      && (forall k :: 0 <= k < |subs| ==>
            subs[k] == if k in order then Trigged(was.subs[k], was.sha, was.root) else was.subs[k])
      && log == was.log + CallsAt(was.subs, order, was.sha, was.root)
      && queue == Dropped(CallsAt(was.subs, order, was.sha, was.root), answers) + was.queue
    }

    method TrigNext(k: nat, cache: Cache, answers: Call -> bool, ghost was: Registered, ghost order: seq<nat>)
      requires Progress(was, order, answers) && cache.Valid() && k < |subs|
      requires forall i :: 0 <= i < |order| ==> order[i] < k
      requires cache.sha == was.sha && ValidNode(was.root) && cache.Value() == Strip(was.root)
      modifies this, cache
      ensures Progress(was, order + [k], answers) && cache.Valid() && cache.Value() == old(cache.Value())
    {
      hide FreshHash, GetNode, Strip, ValidNode, Coherent, Ordered, Dropped, TrigSub, TrigCalls, Children, HashBytes;
      HashBytesOfValue(was.sha, cache.root, was.root, subs[k].path);
      Trig(k, cache, answers);
      ghost var order' := order + [k];
      assert order'[..|order'| - 1] == order;
      DroppedConcat(CallsAt(was.subs, order, was.sha, was.root), CallsOf(was.subs[k], was.sha, was.root), answers);
      assert forall j :: j in order' <==> j in order || j == k;
      OrderedSame(was.subs, subs);
    }

    /** Dispatch keeps the table's paths, so positions found before and after agree. */
    lemma ProgressPaths(was: Registered, order: seq<nat>, answers: Call -> bool, p: Path)
      requires Progress(was, order, answers)
      ensures Ordered(subs) && Ordered(was.subs) && |subs| == |was.subs|
      ensures forall k :: 0 <= k < |subs| ==> subs[k].path == was.subs[k].path
      ensures LowerBound(subs, p) == LowerBound(was.subs, p) && Find(subs, p) == Find(was.subs, p)
    {
      LowerBoundSame(was.subs, subs, p);
    }

    /** The first loop of the dispatch: every registered strict prefix, shortest first. */
    method DispatchAbove(p: Path, cache: Cache, answers: Call -> bool, ghost was: Registered)
      returns (ghost order: seq<nat>)
      requires Progress(was, [], answers) && cache.Valid()
      requires cache.sha == was.sha && ValidNode(was.root) && cache.Value() == Strip(was.root)
      modifies this, cache
      ensures cache.Valid() && cache.Value() == old(cache.Value())
      ensures Progress(was, order, answers)
      ensures forall k: nat :: k in order <==> k < |was.subs| && Strict(was.subs[k].path, p)
    {
      order := [];
      var u := 0;
      while u < |p|
        invariant 0 <= u <= |p|
        invariant Progress(was, order, answers) && cache.Valid() && cache.Value() == old(cache.Value())
        invariant forall k: nat :: k in order <==> k < |was.subs| && was.subs[k].path <= p && |was.subs[k].path| < u
      {
        hide Progress, ValidNode, Coherent, Strip, Ordered, LowerBound;
        ProgressPaths(was, order, answers, p[..u]);
        PrefixPositions(was.subs, p, u);
        var k := Find(subs, p[..u]);
        if k.Some? {
          PrefixesBefore(was.subs, order, p, u, k.value);
          TrigNext(k.value, cache, answers, was, order);
          order := order + [k.value];
        }
        u := u + 1;
      }
    }

    /** The second loop: from `p` to the last entry that extends it. */
    method DispatchBelow(p: Path, cache: Cache, answers: Call -> bool, ghost was: Registered, ghost before: seq<nat>)
      returns (ghost order: seq<nat>)
      requires Progress(was, before, answers) && cache.Valid()
      requires cache.sha == was.sha && ValidNode(was.root) && cache.Value() == Strip(was.root)
      requires forall k: nat :: k in before <==> k < |was.subs| && Strict(was.subs[k].path, p)
      modifies this, cache
      ensures cache.Valid() && cache.Value() == old(cache.Value())
      ensures Progress(was, order, answers)
      ensures forall k: nat :: k in order <==> k < |was.subs| && Touches(was.subs[k].path, p)
    {
      hide Progress, ValidNode, Coherent, Strip, Ordered, LowerBound, Touches;
      order := before;
      ProgressPaths(was, order, answers, p);
      var lo := LowerBound(subs, p);
      var i := lo;
      assert forall j :: 0 <= j < |before| ==> before[j] in before;
      StrictBefore(was.subs, before, p);
      while i < |subs| && p <= subs[i].path
        invariant lo == LowerBound(was.subs, p) <= i <= |subs| == |was.subs|
        invariant Progress(was, order, answers) && cache.Valid() && cache.Value() == old(cache.Value())
        invariant forall k :: lo <= k < i ==> p <= was.subs[k].path
        invariant forall k: nat :: k in order <==> k in before || lo <= k < i
        invariant forall j :: 0 <= j < |order| ==> order[j] < i
      {
        ProgressPaths(was, order, answers, p);
        TrigNext(i, cache, answers, was, order);
        order := order + [i];
        ProgressPaths(was, order, answers, p);
        i := i + 1;
      }
      ProgressPaths(was, order, answers, p);
      DispatchTouches(was.subs, p, i, before, order);
    }

    /** `on_registry_dispatch_on_event_ex` up to the collection of dropped callbacks: `order` lists
        the positions on which `trig` ran. */
    method Dispatch(p: Path, cache: Cache, answers: Call -> bool) returns (ghost order: seq<nat>)
      requires Valid() && cache.Valid()
      modifies this, cache
      ensures cache.Valid() && cache.Value() == old(cache.Value())
      ensures Progress(old(Registered(subs, log, queue, cache.sha, cache.root)), order, answers)
      ensures |subs| == old(|subs|)
      ensures forall k: nat :: k in order <==> k < |subs| && Touches(old(subs)[k].path, p)
      ensures ListsKept(old(subs), subs)
      ensures forall i :: 0 <= i < |queue| - |old(queue)| ==> Subscribed(old(subs), queue[i].0, queue[i].1)
      ensures |queue| >= |old(queue)| && queue[|queue| - |old(queue)|..] == old(queue)
    {
      ghost var was := Registered(subs, log, queue, cache.sha, cache.root);
      DroppedNone(answers);
      hide ListsKept, Subscribed, Dropped, Ordered, ValidNode, Coherent, Strip, Touches;
      order := DispatchAbove(p, cache, answers, was);
      order := DispatchBelow(p, cache, answers, was, order);
      QueueFrom(was.subs, order, was.sha, was.root, answers, queue, was.queue);
      KeptLists(was, order, answers);
    }

    lemma KeptLists(was: Registered, order: seq<nat>, answers: Call -> bool)
      requires Progress(was, order, answers)
      ensures ListsKept(was.subs, subs)
    {
    }
  }

  /** What a dispatch queues is subscribed; what was queued before stays behind it. */
  lemma QueueFrom(t: seq<Entry<Sub>>, order: seq<nat>, sha: Sha, n: Node, answers: Call -> bool,
                  now: seq<(Path, Handle)>, was: seq<(Path, Handle)>)
    requires forall i :: 0 <= i < |order| ==> order[i] < |t|
    requires now == Dropped(CallsAt(t, order, sha, n), answers) + was
    ensures |now| >= |was| && now[|now| - |was|..] == was
    ensures forall i :: 0 <= i < |now| - |was| ==> Subscribed(t, now[i].0, now[i].1)
  {
    hide CallsAt, Subscribed, Dropped;
    var d := Dropped(CallsAt(t, order, sha, n), answers);
    forall i | 0 <= i < |now| - |was| ensures Subscribed(t, now[i].0, now[i].1) {
      assert now[i] == d[i];
      DroppedSubscribed(t, order, sha, n, answers, i);
    }
  }

  /** The same subscriptions with the same callbacks. */
  ghost predicate ListsKept(t: seq<Entry<Sub>>, u: seq<Entry<Sub>>) {
    |u| == |t| && forall k :: 0 <= k < |t| ==>
      && u[k].path == t[k].path && u[k].v.added == t[k].v.added && u[k].v.removed == t[k].v.removed
      && u[k].v.changed == t[k].v.changed && u[k].v.value == t[k].v.value
  }

  /** `h` is a callback of the subscription at `p`. */
  ghost predicate Subscribed(t: seq<Entry<Sub>>, p: Path, h: Handle) {
    exists k, kind :: 0 <= k < |t| && t[k].path == p && h in List(t[k].v, kind)
  }

  lemma {:induction false} ListSubscribed(hs: seq<Handle>, p: Path, kind: Kind, key: Option<Key>, prev: Option<Key>,
                                          c: Call)
    requires c in ListCalls(hs, p, kind, key, prev)
    ensures c == Call(c.handle, p, kind, key, prev) && c.handle in hs
  {
    if c != Call(hs[0], p, kind, key, prev) {
      ListSubscribed(hs[1..], p, kind, key, prev, c);
    }
  }

  lemma {:induction false} EvSubscribed(s: Sub, p: Path, evs: seq<Ev>, c: Call)
    requires c in EvCalls(s, p, evs)
    ensures c.path == p && c.key.Some? && c.handle in List(s, c.kind)
  {
    var e := evs[0];
    if c in ListCalls(List(s, e.kind), p, e.kind, Some(e.key), e.prev) {
      ListSubscribed(List(s, e.kind), p, e.kind, Some(e.key), e.prev, c);
    } else {
      EvSubscribed(s, p, evs[1..], c);
    }
  }

  lemma {:induction false} CallsSubscribed(t: seq<Entry<Sub>>, order: seq<nat>, sha: Sha, n: Node, c: Call)
    requires (forall i :: 0 <= i < |order| ==> order[i] < |t|) && c in CallsAt(t, order, sha, n)
    ensures Subscribed(t, c.path, c.handle)
  {
    hide HashBytes, Children, EvCalls, ListCalls, Diff;
    var j, up := order[|order| - 1], order[..|order| - 1];
    if c in CallsAt(t, up, sha, n) {
      CallsSubscribed(t, up, sha, n, c);
    } else {
      var e := t[j];
      if c in ChildCalls(e.v, e.path, Children(sha, n, e.path)) {
        EvSubscribed(e.v, e.path, Diff(Children(sha, n, e.path), e.v.kids, None), c);
      } else {
        ListSubscribed(e.v.value, e.path, Value, None, None, c);
        assert c.handle in List(e.v, Value);
      }
    }
  }

  lemma {:induction false} DroppedFrom(calls: seq<Call>, answers: Call -> bool, i: nat)
    requires i < |Dropped(calls, answers)|
    ensures exists c :: c in calls && !answers(c) && (c.path, c.handle) == Dropped(calls, answers)[i]
  {
    var c, up := calls[|calls| - 1], calls[..|calls| - 1];
    if answers(c) {
      DroppedFrom(up, answers, i);
    } else if i > 0 {
      DroppedFrom(up, answers, i - 1);
    } else {
      assert c in calls;
    }
  }

  /** Only subscribed callbacks are invoked, so only those are queued for removal. */
  lemma DroppedSubscribed(t: seq<Entry<Sub>>, order: seq<nat>, sha: Sha, n: Node, answers: Call -> bool, i: nat)
    requires forall i :: 0 <= i < |order| ==> order[i] < |t|
    requires i < |Dropped(CallsAt(t, order, sha, n), answers)|
    ensures var (p, h) := Dropped(CallsAt(t, order, sha, n), answers)[i]; Subscribed(t, p, h)
  {
    hide CallsAt, Subscribed, Dropped;
    DroppedFrom(CallsAt(t, order, sha, n), answers, i);
    var c :| c in CallsAt(t, order, sha, n) && (c.path, c.handle) == Dropped(CallsAt(t, order, sha, n), answers)[i];
    CallsSubscribed(t, order, sha, n, c);
  }

  /** The registry and the cache before a dispatch. */
  datatype Registered =
    Registered(subs: seq<Entry<Sub>>, log: seq<Call>, queue: seq<(Path, Handle)>, sha: Sha, root: Node)

  ghost predicate NoRepeat(s: seq<nat>) {
    forall i, j :: 0 <= i < j < |s| ==> s[i] != s[j]
  }

  ghost predicate Ascending(s: seq<nat>) {
    forall i, j :: 0 <= i < j < |s| ==> s[i] < s[j]
  }

  /** An entry at a strict prefix of a path stands before the entry at the path, and before where the path belongs. */
  lemma PrefixStandsBefore(t: seq<Entry<Sub>>, i: nat, p: Path)
    requires Ordered(t) && i < |t| && Strict(t[i].path, p)
    ensures i < LowerBound(t, p)
    ensures forall k :: 0 <= k < |t| && t[k].path == p ==> i < k
  {
    PrefixFirst(t[i].path, p);
    PathCmpAntisymmetric(t[i].path, p);
    LowerBoundSplits(t, p, i);
    forall k | 0 <= k < |t| && t[k].path == p ensures i < k {
      BeforeIsTotal(p, t[i].path);
      assert Before(t[i].path, t[k].path);
    }
  }

  lemma DroppedNone(answers: Call -> bool)
    ensures Dropped([], answers) == []
  {
  }

  lemma {:induction false} LowerBoundSame<V>(t: seq<Entry<V>>, u: seq<Entry<V>>, p: Path)
    requires |u| == |t| && forall k :: 0 <= k < |t| ==> u[k].path == t[k].path
    ensures LowerBound(t, p) == LowerBound(u, p)
  {
    if t != [] {
      LowerBoundSame(t[1..], u[1..], p);
    }
  }

  /** At most one entry is a prefix of `p` of a given length: the one found. */
  lemma PrefixPositions(t: seq<Entry<Sub>>, p: Path, u: nat)
    requires Ordered(t) && u < |p|
    ensures forall k :: 0 <= k < |t| ==>
              (Find(t, p[..u]) == Some(k) <==> t[k].path <= p && |t[k].path| == u)
  {
    hide Ordered, ToMap;
    FindSpec(t, p[..u]);
    forall k | 0 <= k < |t| ensures Find(t, p[..u]) == Some(k) <==> t[k].path <= p && |t[k].path| == u {
      ToMapAt(t, k);
      if Find(t, p[..u]).Some? {
        PathTable.Distinct(t, k, Find(t, p[..u]).value);
      }
      assert t[k].path <= p && |t[k].path| == u <==> t[k].path == p[..u];
    }
  }

  lemma StrictBefore(t: seq<Entry<Sub>>, before: seq<nat>, p: Path)
    requires Ordered(t) && forall i :: 0 <= i < |before| ==> before[i] < |t| && Strict(t[before[i]].path, p)
    ensures forall i :: 0 <= i < |before| ==> before[i] < LowerBound(t, p)
  {
    hide Ordered, LowerBound;
    forall i | 0 <= i < |before| ensures before[i] < LowerBound(t, p) {
      PrefixStandsBefore(t, before[i], p);
    }
  }

  lemma PrefixesBefore(t: seq<Entry<Sub>>, order: seq<nat>, p: Path, u: nat, k: nat)
    requires Ordered(t) && u < |p| && k < |t| && t[k].path == p[..u]
    requires forall i :: 0 <= i < |order| ==> order[i] < |t| && t[order[i]].path <= p && |t[order[i]].path| < u
    ensures forall i :: 0 <= i < |order| ==> order[i] < k
  {
    hide Ordered, LowerBound;
    forall i | 0 <= i < |order| ensures order[i] < k {
      var q := t[order[i]].path;
      assert q == p[..u][..|q|];
      PrefixStandsBefore(t, order[i], p[..u]);
    }
  }

  lemma DispatchTouches(t: seq<Entry<Sub>>, p: Path, i: nat, before: seq<nat>, order: seq<nat>)
    requires Ordered(t) && LowerBound(t, p) <= i <= |t|
    requires forall k :: LowerBound(t, p) <= k < i ==> p <= t[k].path
    requires i == |t| || !(p <= t[i].path)
    requires forall k: nat :: k in before <==> k < |t| && Strict(t[k].path, p)
    requires forall k: nat :: k in order <==> k in before || LowerBound(t, p) <= k < i
    ensures forall k: nat :: k in order <==> k < |t| && Touches(t[k].path, p)
  {
    hide Ordered, LowerBound;
    forall k: nat ensures k in order <==> k < |t| && Touches(t[k].path, p) {
      if k < |t| {
        ScanStops(t, p, i, k);
      }
    }
  }

  lemma OrderedSame<V>(t: seq<Entry<V>>, u: seq<Entry<V>>)
    requires Ordered(t) && |u| == |t| && forall k :: 0 <= k < |t| ==> u[k].path == t[k].path
    ensures Ordered(u)
  {
  }
}
