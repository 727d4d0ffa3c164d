/** The callback lists of the subscriptions and how many listen references they stand for
    (lib/datasync/on/on_registry.c, lib/datasync/on/on_api.c). */
module Callbacks {
  import opened Keys
  import opened Paths
  import opened PathTable
  import opened ListenModel
  import K = Kids
  import opened CacheTree
  import opened Merkle
  import opened DataCache
  import opened OnModel
  import opened OnRegistry
  import opened Notify

  // ----- callback lists

  function Total(s: Sub): nat {
    |s.added| + |s.removed| + |s.changed| + |s.value|
  }

  /** How often a handle is registered in the four lists. */
  function Count(s: Sub, h: Handle): nat {
    multiset(s.added)[h] + multiset(s.removed)[h] + multiset(s.changed)[h] + multiset(s.value)[h]
  }

  function WithList(s: Sub, k: Kind, hs: seq<Handle>): Sub {
    match k
    case Added => s.(added := hs)
    case Removed => s.(removed := hs)
    case Changed => s.(changed := hs)
    case Value => s.(value := hs)
  }

  function NewSub(): Sub {
    Sub([], [], [], [], NoHash(), [])
  }

  /** The callbacks that stay: none when no handle is given, all but the handle otherwise. */
  function Stay(hs: seq<Handle>, h: Option<Handle>): seq<Handle> {
    if h.None? || hs == [] then []
    else (if hs[0] == h.value then [] else [hs[0]]) + Stay(hs[1..], h)
  }

  /** The pass over one list of `on_registry_remove`. */
  method Unlink(hs: seq<Handle>, h: Option<Handle>) returns (left: seq<Handle>, removed: nat)
    ensures left == Stay(hs, h) && |left| + removed == |hs|
  {
    hide Stay;
    left, removed := [], 0;
    var i: nat := 0;
    assert hs[0..] == hs && hs[|hs|..] == [];
    StayNone(h);
    while i < |hs|
      invariant 0 <= i <= |hs| && |left| + removed == i
      invariant left + Stay(hs[i..], h) == Stay(hs, h)
    {
      StayStep(hs, h, i);
      if h.None? || hs[i] == h.value {
        removed := removed + 1;
      } else {
        left := left + [hs[i]];
      }
      i := i + 1;
    }
    assert left + [] == left;
  }

  lemma StayNone(h: Option<Handle>)
    ensures Stay([], h) == []
  {
  }

  lemma StayStep(hs: seq<Handle>, h: Option<Handle>, i: nat)
    requires i < |hs|
    ensures h.None? || hs[i] == h.value ==> Stay(hs[i..], h) == Stay(hs[i + 1..], h)
    ensures !(h.None? || hs[i] == h.value) ==> Stay(hs[i..], h) == [hs[i]] + Stay(hs[i + 1..], h)
  {
    assert hs[i..][1..] == hs[i + 1..];
  }

  lemma {:induction false} StayCount(hs: seq<Handle>, h: Option<Handle>, x: Handle)
    ensures multiset(Stay(hs, h))[x] == if h.None? || x == h.value then 0 else multiset(hs)[x]
    ensures h.Some? ==> |Stay(hs, h)| == |hs| - multiset(hs)[h.value]
  {
    if hs != [] && h.Some? {
      StayCount(hs[1..], h, x);
      assert hs == [hs[0]] + hs[1..];
    }
  }

  /** A subscription after `on_registry_remove` over the kinds in `mask`. */
  function Pruned(s: Sub, mask: set<Kind>, h: Option<Handle>): Sub {
    s.(added := if Added in mask then Stay(s.added, h) else s.added,
       removed := if Removed in mask then Stay(s.removed, h) else s.removed,
       changed := if Changed in mask then Stay(s.changed, h) else s.changed,
       value := if Value in mask then Stay(s.value, h) else s.value)
  }

  /** The loop over the event types of `on_registry_remove`. */
  method Prune(s0: Sub, mask: set<Kind>, h: Option<Handle>) returns (s: Sub, removed: nat)
    ensures s == Pruned(s0, mask, h) && Total(s) + removed == Total(s0)
  {
    hide Stay;
    s, removed := s0, 0;
    var left, n;
    if Added in mask {
      left, n := Unlink(s.added, h);
      s, removed := s.(added := left), removed + n;
    }
    if Removed in mask {
      left, n := Unlink(s.removed, h);
      s, removed := s.(removed := left), removed + n;
    }
    if Changed in mask {
      left, n := Unlink(s.changed, h);
      s, removed := s.(changed := left), removed + n;
    }
    if Value in mask {
      left, n := Unlink(s.value, h);
      s, removed := s.(value := left), removed + n;
    }
  }

  function AllKinds(): set<Kind> {
    {Added, Removed, Changed, Value}
  }

  lemma PrunedCount(s: Sub, mask: set<Kind>, h: Option<Handle>, x: Handle)
    ensures Count(Pruned(s, mask, h), x) <= Count(s, x)
    ensures h.Some? && x != h.value ==> Count(Pruned(s, mask, h), x) == Count(s, x)
    ensures mask == AllKinds() && h.Some? ==> Total(Pruned(s, mask, h)) == Total(s) - Count(s, h.value)
  {
    StayCount(s.added, h, x);
    StayCount(s.removed, h, x);
    StayCount(s.changed, h, x);
    StayCount(s.value, h, x);
  }

  // ----- conservation

  /** Callbacks and listen references agree: at every path the four lists hold as many callbacks as
      the listen item has references, and an item exists exactly where there are callbacks. */
  ghost predicate Conserved(m: map<Path, Sub>, r: Reg) {
    && m.Keys == r.Keys
    && (forall p :: p in m ==> Total(m[p]) == r[p].ref && Total(m[p]) > 0)
  }

  /** No handle is registered twice at a path. */
  ghost predicate Handles(m: map<Path, Sub>) {
    forall p, h :: p in m ==> Count(m[p], h) <= 1
  }

  lemma WatchRefs(c: Cnx, r: Reg, p: Path)
    ensures Watch(c, r, p).Keys == r.Keys + {p}
    ensures forall q :: q in r && q != p ==> Watch(c, r, p)[q].ref == r[q].ref
    ensures Watch(c, r, p)[p].ref == if p in r then r[p].ref + 1 else 1
  {
  }

  lemma UnwatchRefs(c: Cnx, r: Reg, p: Path, n: nat)
    requires p in r ==> r[p].ref >= n
    ensures p in r && r[p].ref == n ==> Unwatch(c, r, p, n).Keys == r.Keys - {p}
    ensures !(p in r && r[p].ref == n) ==> Unwatch(c, r, p, n).Keys == r.Keys
    ensures forall q :: q in r && q != p ==> Unwatch(c, r, p, n)[q].ref == r[q].ref
    ensures p in r && r[p].ref > n ==> Unwatch(c, r, p, n)[p].ref == r[p].ref - n
  {
    hide Topmost;
  }

  /** Nothing that happens on the connection changes who is referenced. */
  lemma NetworkRefs(s: Session, e: Event)
    requires Allowed(s, e) && !e.EWatch? && !e.EUnwatch?
    ensures Step(s, e).reg.Keys == s.reg.Keys
    ensures forall p :: p in s.reg ==> Step(s, e).reg[p].ref == s.reg[p].ref
  {
  }

  lemma CountWithin(s: Sub, x: Handle)
    ensures Count(s, x) <= Total(s)
  {
    assert |multiset(s.added)| == |s.added| && |multiset(s.removed)| == |s.removed|;
    assert |multiset(s.changed)| == |s.changed| && |multiset(s.value)| == |s.value|;
  }

  /** What is left of the subscriptions when one handle is dropped. */
  function Without(m: map<Path, Sub>, p: Path, mask: set<Kind>, h: Option<Handle>): map<Path, Sub> {
    if p !in m then m
    else if Total(Pruned(m[p], mask, h)) == 0 then m - {p}
    else m[p := Pruned(m[p], mask, h)]
  }

  /** How many callbacks an unlinking takes out. */
  function Unlinked(m: map<Path, Sub>, p: Path, mask: set<Kind>, h: Option<Handle>): nat {
    if p in m then PrunedTotal(m[p], mask, h); Total(m[p]) - Total(Pruned(m[p], mask, h)) else 0
  }

  lemma PrunedTotal(s: Sub, mask: set<Kind>, h: Option<Handle>)
    ensures Total(Pruned(s, mask, h)) <= Total(s)
  {
    StayShrinks(s.added, h);
    StayShrinks(s.removed, h);
    StayShrinks(s.changed, h);
    StayShrinks(s.value, h);
  }

  lemma {:induction false} StayShrinks(hs: seq<Handle>, h: Option<Handle>)
    ensures |Stay(hs, h)| <= |hs|
  {
    if hs != [] && h.Some? {
      StayShrinks(hs[1..], h);
    }
  }

  /** Unlinking callbacks and dropping as many references keeps the agreement. */
  lemma OffKeeps(c: Cnx, m: map<Path, Sub>, r: Reg, p: Path, mask: set<Kind>, h: Option<Handle>)
    requires Conserved(m, r) && Handles(m)
    ensures p in r ==> r[p].ref >= Unlinked(m, p, mask, h)
    ensures Conserved(Without(m, p, mask, h), Unwatch(c, r, p, Unlinked(m, p, mask, h)))
    ensures Handles(Without(m, p, mask, h))
  {
    hide Stay, Topmost, Count, Pruned, Unwatch;
    var n, m' := Unlinked(m, p, mask, h), Without(m, p, mask, h);
    UnwatchRefs(c, r, p, n);
    forall q, x: Handle | q in m' ensures Count(m'[q], x) <= 1 {
      if q == p {
        PrunedCount(m[p], mask, h, x);
      }
    }
  }

  /** How often a handle is in a list at a path. */
  function In(m: map<Path, Sub>, p: Path, kind: Kind, x: Handle): nat {
    if p in m then multiset(List(m[p], kind))[x] else 0
  }

  /** Unlinking takes out exactly the asked callbacks. */
  lemma WithoutExact(m: map<Path, Sub>, p: Path, mask: set<Kind>, h: Option<Handle>, q: Path, kind: Kind, x: Handle)
    ensures In(Without(m, p, mask, h), q, kind, x) ==
            if q == p && kind in mask && (h.None? || x == h.value) then 0 else In(m, q, kind, x)
  {
    if p in m {
      StayCount(List(m[p], kind), h, x);
      var s := Pruned(m[p], mask, h);
      assert List(s, kind) == if kind in mask then Stay(List(m[p], kind), h) else List(m[p], kind);
      assert Total(s) == 0 ==> List(s, kind) == [];
    }
  }

  /** What is left when a queue of handles has been collected. */
  function DropAll(m: map<Path, Sub>, queue: seq<(Path, Handle)>): map<Path, Sub> {
    if queue == [] then m else DropAll(Without(m, queue[0].0, AllKinds(), Some(queue[0].1)), queue[1..])
  }

  /** Exactly the queued callbacks are gone. */
  lemma {:induction false} DropAllExact(m: map<Path, Sub>, queue: seq<(Path, Handle)>, q: Path, kind: Kind, x: Handle)
    ensures In(DropAll(m, queue), q, kind, x) == if (q, x) in queue then 0 else In(m, q, kind, x)
    decreases |queue|
  {
    hide Without, In;
    if queue != [] {
      var (p, h) := queue[0];
      WithoutExact(m, p, AllKinds(), Some(h), q, kind, x);
      DropAllExact(Without(m, p, AllKinds(), Some(h)), queue[1..], q, kind, x);
      assert queue == [queue[0]] + queue[1..];
    }
  }

  /** Dropping one queued handle keeps the agreement, and every other queued handle registered. */
  lemma CollectKeeps(c: Cnx, m: map<Path, Sub>, r: Reg, p: Path, h: Handle)
    requires Conserved(m, r) && Handles(m) && p in m && Count(m[p], h) == 1
    ensures var m' := Without(m, p, AllKinds(), Some(h));
            && Conserved(m', Unwatch(c, r, p, 1)) && Handles(m')
            && forall q, x: Handle :: (q, x) != (p, h) && q in m && Count(m[q], x) == 1 ==>
                  q in m' && Count(m'[q], x) == 1
  {
    hide Stay, Topmost, Count, Pruned;
    var m' := Without(m, p, AllKinds(), Some(h));
    UnwatchRefs(c, r, p, 1);
    PrunedCount(m[p], AllKinds(), Some(h), h);
    forall q, x: Handle | q in m' ensures Count(m'[q], x) <= 1 {
      PrunedCount(m[p], AllKinds(), Some(h), x);
    }
    forall q, x: Handle | (q, x) != (p, h) && q in m && Count(m[q], x) == 1 ensures q in m' && Count(m'[q], x) == 1 {
      PrunedCount(m[p], AllKinds(), Some(h), x);
      CountWithin(Pruned(m[p], AllKinds(), Some(h)), x);
    }
  }

  /** One invocation per existing child, in key order, each with its predecessor. */
  function KidCalls(h: Handle, p: Path, a: seq<KidHash>): seq<Call> {
    seq(|a|, i requires 0 <= i < |a| =>
      Call(h, p, Added, Some(a[i].key), if i == 0 then None else Some(a[i - 1].key)))
  }

  /** What a new callback is told at once: the value, or the children there are. */
  function FirstCalls(kind: Kind, h: Handle, p: Path, a: seq<KidHash>): seq<Call> {
    if kind.Value? then [ValueCall(h, p)] else if kind.Added? then KidCalls(h, p, a) else []
  }

  /** Whether it is told anything: there is a value, an ancestor is listened to, or there is no connection. */
  ghost predicate Announced(v: Val, s: Session, p: Path) {
    GetVal(v, p).Some? || IsMasked(s.reg, p) || s.cnx.Disconnected?
  }

  predicate SameLists(s: Sub, t: Sub) {
    s.added == t.added && s.removed == t.removed && s.changed == t.changed && s.value == t.value
  }

  lemma LinkedCount(s: Sub, s': Sub, kind: Kind, h: Handle, x: Handle)
    requires SameLists(s', WithList(s, kind, [h] + List(s, kind)))
    ensures Count(s', x) == Count(s, x) + if x == h then 1 else 0
  {
  }

  /** Registering one fresh handle and taking one reference keeps the agreement. */
  lemma OnKeeps(c: Cnx, m: map<Path, Sub>, r: Reg, p: Path, kind: Kind, h: Handle, s': Sub)
    requires Conserved(m, r) && Handles(m) && (p in m ==> Count(m[p], h) == 0)
    requires var s := if p in m then m[p] else NewSub();
             SameLists(s', WithList(s, kind, [h] + List(s, kind)))
    ensures Conserved(m[p := s'], Watch(c, r, p)) && Handles(m[p := s'])
  {
    hide SameLists, WithList, Watch, Count, List, NewSub, Total;
    var s := if p in m then m[p] else NewSub();
    WatchRefs(c, r, p);
    LinkedTotal(s, s', kind, h);
    NewSubEmpty(h);
    var m' := m[p := s'];
    forall q, x: Handle | q in m' ensures Count(m'[q], x) <= 1 {
      LinkedCount(s, s', kind, h, x);
      NewSubEmpty(x);
    }
  }

  lemma NewSubEmpty(x: Handle)
    ensures Total(NewSub()) == 0 && Count(NewSub(), x) == 0
  {
  }

  lemma LinkedTotal(s: Sub, s': Sub, kind: Kind, h: Handle)
    requires SameLists(s', WithList(s, kind, [h] + List(s, kind)))
    ensures Total(s') == Total(s) + 1
  {
  }

  lemma NoHashWithout(sha: Sha, n: K.Node, p: Path)
    requires ValidNode(n)
    ensures GetVal(Strip(n), p).None? ==> HashBytes(sha, n, p) == NoHash()
  {
    GetNodeSpec(n, p);
  }

  lemma NoKids(sha: Sha, n: K.Node, p: Path)
    ensures !(GetNode(n, p).Some? && GetNode(n, p).value.Internal?) ==> Children(sha, n, p) == []
  {
  }

  lemma KeptAt(t: seq<Entry<Sub>>, u: seq<Entry<Sub>>, p: Path)
    requires Ordered(t) && Ordered(u) && ListsKept(t, u)
    ensures p in ToMap(t) <==> p in ToMap(u)
    ensures p in ToMap(t) ==> SameLists(ToMap(u)[p], ToMap(t)[p])
  {
    hide ToMap, Ordered;
    if p in ToMap(t) {
      var k := ToMapIndex(t, p);
      ToMapAt(u, k);
    }
    if p in ToMap(u) {
      var k := ToMapIndex(u, p);
      ToMapAt(t, k);
    }
  }

  lemma KeptConserved(t: seq<Entry<Sub>>, u: seq<Entry<Sub>>, r: Reg)
    requires Ordered(t) && Ordered(u) && ListsKept(t, u) && Conserved(ToMap(t), r) && Handles(ToMap(t))
    ensures Conserved(ToMap(u), r) && Handles(ToMap(u))
  {
    hide ToMap, Ordered, ListsKept;
    forall p ensures p in ToMap(t) <==> p in ToMap(u)
      ensures p in ToMap(t) ==> SameLists(ToMap(u)[p], ToMap(t)[p])
    {
      KeptAt(t, u, p);
    }
    forall p, h: Handle | p in ToMap(u) ensures Count(ToMap(u)[p], h) <= 1 {
      assert Count(ToMap(u)[p], h) == Count(ToMap(t)[p], h);
    }
  }

  lemma KeptSubscribed(t: seq<Entry<Sub>>, u: seq<Entry<Sub>>, p: Path, h: Handle)
    requires Ordered(t) && Ordered(u) && ListsKept(t, u) && Handles(ToMap(u)) && Subscribed(t, p, h)
    ensures p in ToMap(u) && Count(ToMap(u)[p], h) == 1
  {
    hide ToMap, Ordered;
    var k, kind :| 0 <= k < |t| && t[k].path == p && h in List(t[k].v, kind);
    ToMapAt(u, k);
    assert h in multiset(List(u[k].v, kind));
  }

  lemma RefAtLeastOne(m: map<Path, Sub>, r: Reg, p: Path)
    requires Conserved(m, r) && p in m
    ensures p in r && r[p].ref >= 1
  {
  }
}
