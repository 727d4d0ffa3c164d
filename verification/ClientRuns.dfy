/** Whole runs of the client: every order of registering, unregistering, data pushes, collections of dropped
    callbacks and connection events (lib/datasync/on/on_api.c, lib/datasync/datasync.c). The contracts of
    `OnApi.Client` say that its methods take these steps. */
module ClientRuns {
  import opened Keys
  import opened Paths
  import opened PathTable
  import opened Kids
  import opened CacheTree
  import opened Merkle
  import opened DataCache
  import opened ListenModel
  import opened OnModel
  import opened OnRegistry
  import opened Notify
  import opened Callbacks
  import opened Drops

  /** The subscriptions, the callbacks queued for removal, the invocations so far, the listens with their
      connection, and the cache. */
  datatype World =
    World(subs: seq<Entry<Sub>>, queue: seq<(Path, Handle)>, log: seq<Call>, s: Session, root: Node)

  datatype Act =
    | Register(kind: Kind, p: Path, h: Handle)                         // on_value, on_child_*
    | Unregister(p: Path, mask: set<Kind>, only: Option<Handle>)       // off, off_path, off_path_type
    | PutPush(p: Path, doc: Json, answers: Call -> bool)               // a put message, up to deleted_cb_gc
    | MergePush(p: Path, updates: seq<Update>, answers: Call -> bool)  // a merge message, likewise
    | Collect                                                          // one turn of deleted_cb_gc
    | Happen(e: Event)                                                 // a connection event

  ghost predicate IsStart(w: World) {
    w == World([], [], [], Init(), Null)
  }

  /** Callbacks do not call back, so the queue is collected before anything else is called; a registered handle
      is new. */
  ghost predicate Can(w: World, a: Act) {
    match a
    case Register(_, p, h) => w.queue == [] && (p in ToMap(w.subs) ==> Count(ToMap(w.subs)[p], h) == 0)
    case Unregister(_, _, _) => w.queue == []
    case PutPush(_, doc, _) => w.queue == [] && WellFormed(doc)
    case MergePush(_, ms, _) => w.queue == [] && forall i :: 0 <= i < |ms| ==> WellFormed(ms[i].value)
    case Collect => w.queue != []
    case Happen(e) => !e.EWatch? && !e.EUnwatch? && Allowed(w.s, e)
  }

  /** The listen step that comes with an act, if any. */
  ghost function ListenStep(w: World, a: Act): Option<Event>
    requires Can(w, a)
  {
    match a
    case Register(_, p, _) => Some(EWatch(p))
    case Unregister(p, mask, h) => Some(EUnwatch(p, Unlinked(ToMap(w.subs), p, mask, h)))
    case Collect => Some(EUnwatch(w.queue[0].0, 1))
    case Happen(e) => Some(e)
    case _ => None
  }

  function SubAt(m: map<Path, Sub>, p: Path): Sub {
    if p in m then m[p] else NewSub()
  }

  predicate HasChildren(v: Val, p: Path) {
    GetVal(v, p).Some? && GetVal(v, p).value.VMap?
  }

  /** The subscription at `p` after a registration: what is announced is stored, except by callbacks for changed
      or removed children. */
  ghost function Joined(sha: Sha, w: World, kind: Kind, p: Path, h: Handle): Sub {
    var s0 := SubAt(ToMap(w.subs), p);
    var s := WithList(s0, kind, [h] + List(s0, kind));
    if kind.Value? && Announced(Strip(w.root), w.s, p) then s.(hash := HashBytes(sha, w.root, p))
    else if kind.Added? && HasChildren(Strip(w.root), p) then s.(kids := Children(sha, w.root, p))
    else s
  }

  ghost function Told(sha: Sha, w: World, kind: Kind, p: Path, h: Handle): seq<Call> {
    if Announced(Strip(w.root), w.s, p) then FirstCalls(kind, h, p, Children(sha, w.root, p)) else []
  }

  /** The invocations of the last step. */
  function NewCalls(w: World, w': World): seq<Call> {
    if |w.log| <= |w'.log| then w'.log[|w.log|..] else []
  }

  /** A dispatch at `p` on the new tree, in which no callback asks twice to be dropped. */
  ghost predicate Pushed(sha: Sha, w: World, p: Path, answers: Call -> bool, w': World) {
    && w.log <= w'.log && w'.s == w.s
    && Dispatched(w.subs, w'.subs, NewCalls(w, w'), sha, w'.root, p)
    && w'.queue == Dropped(NewCalls(w, w'), answers) && AsksOnce(NewCalls(w, w'), answers)
  }

  /** What an act does to everything but the listens. */
  ghost predicate Effect(sha: Sha, w: World, a: Act, w': World)
    requires Can(w, a)
  {
    match a
    case Register(kind, p, h) =>
      && ToMap(w'.subs) == ToMap(w.subs)[p := Joined(sha, w, kind, p, h)]
      && w'.log == w.log + Told(sha, w, kind, p, h) && w'.queue == w.queue && Strip(w'.root) == Strip(w.root)
    case Unregister(p, mask, h) =>
      && ToMap(w'.subs) == Without(ToMap(w.subs), p, mask, h)
      && w'.log == w.log && w'.queue == w.queue && w'.root == w.root
    case PutPush(p, doc, answers) =>
      Strip(w'.root) == PutVal(Strip(w.root), p, FromJson(doc), false) && Pushed(sha, w, p, answers, w')
    case MergePush(p, ms, answers) =>
      Strip(w'.root) == MergeVal(Strip(w.root), p, ms, |ms|) && Pushed(sha, w, p, answers, w')
    case Collect =>
      && ToMap(w'.subs) == Without(ToMap(w.subs), w.queue[0].0, AllKinds(), Some(w.queue[0].1))
      && w'.log == w.log && w'.queue == w.queue[1..] && w'.root == w.root
    case Happen(_) =>
      w' == w.(s := w'.s)
  }

  /** One step. Nothing is said about the listens where the code's assertion on references fails. */
  ghost predicate Next(sha: Sha, w: World, a: Act, w': World) {
    && Can(w, a) && Ordered(w'.subs) && ValidNode(w'.root) && Effect(sha, w, a, w')
    && (ListenStep(w, a).Some? && Allowed(w.s, ListenStep(w, a).value) ==>
          w'.s == Step(w.s, ListenStep(w, a).value))
  }

  // ----- what every step keeps

  ghost predicate QueueOk(m: map<Path, Sub>, queue: seq<(Path, Handle)>) {
    && Unique(queue)
    && forall i :: 0 <= i < |queue| ==> queue[i].0 in m && Count(m[queue[i].0], queue[i].1) == 1
  }

  /** Callbacks and references agree, no handle is registered twice at a path, stored children are in order, and
      what is queued is registered and queued once. */
  ghost predicate Sound(w: World) {
    && Ordered(w.subs) && ValidNode(w.root) && KidsSorted(w.subs)
    && Conserved(ToMap(w.subs), w.s.reg) && Handles(ToMap(w.subs)) && QueueOk(ToMap(w.subs), w.queue)
  }

  /** The listen step of an act is always allowed: the assertion of `listen_registry_unref` holds. */
  lemma AlwaysAllowed(w: World, a: Act)
    requires Sound(w) && Can(w, a)
    ensures ListenStep(w, a).Some? ==> Allowed(w.s, ListenStep(w, a).value)
  {
    hide Handles, Unlinked, Count, WithList, ToMap, Ordered, ValidNode, KidsSorted, Unique, Conserved;
    var m := ToMap(w.subs);
    match a
    case Unregister(p, mask, h) => OffKeeps(w.s.cnx, m, w.s.reg, p, mask, h);
    case Collect => RefAtLeastOne(m, w.s.reg, w.queue[0].0);
    case _ =>
  }

  // ----- stored children stay in order

  ghost predicate SortedIn(m: map<Path, Sub>) {
    forall p :: p in m ==> InOrderKeys(m[p].kids)
  }

  lemma SortedMap(t: seq<Entry<Sub>>)
    requires Ordered(t)
    ensures KidsSorted(t) <==> SortedIn(ToMap(t))
  {
    hide Ordered, ToMap, InOrderKeys;
    var ok := (p, s: Sub) => InOrderKeys(s.kids);
    EachEntry(t, ok);
    assert KidsSorted(t) <==> AllEntries(t, ok);
    assert SortedIn(ToMap(t)) <==> AllMapped(ToMap(t), ok);
  }

  lemma HandlesMap(t: seq<Entry<Sub>>)
    requires Ordered(t) && Handles(ToMap(t))
    ensures HandlesIn(t)
  {
    hide Ordered, ToMap, Count;
    forall k, h: Handle | 0 <= k < |t| ensures Count(t[k].v, h) <= 1 {
      ToMapAt(t, k);
    }
  }

  lemma SortedWithout(m: map<Path, Sub>, p: Path, mask: set<Kind>, h: Option<Handle>, q: Path)
    requires q in Without(m, p, mask, h)
    ensures q in m && Without(m, p, mask, h)[q].kids == m[q].kids && Without(m, p, mask, h)[q].hash == m[q].hash
  {
  }

  lemma SortedAfterOn(sha: Sha, w: World, kind: Kind, p: Path, h: Handle)
    requires ValidNode(w.root) && (p in ToMap(w.subs) ==> InOrderKeys(ToMap(w.subs)[p].kids))
    ensures InOrderKeys(Joined(sha, w, kind, p, h).kids)
  {
    hide ToMap, ValidNode, HashBytes, Children, Strip, GetVal, Announced;
    ChildrenInOrder(sha, w.root, p);
  }

  lemma StepSorted(sha: Sha, w: World, a: Act, w': World)
    requires Sound(w) && Next(sha, w, a, w')
    ensures KidsSorted(w'.subs)
  {
    hide Ordered, ToMap, ValidNode, Conserved, Handles, QueueOk, InOrderKeys, Joined, Without, Dispatched, Strip;
    hide KidsSorted;
    var m, m' := ToMap(w.subs), ToMap(w'.subs);
    SortedMap(w.subs);
    SortedMap(w'.subs);
    match a
    case Register(kind, p, h) =>
      SortedAfterOn(sha, w, kind, p, h);
    case Unregister(p, mask, h) =>
      forall q | q in m' ensures InOrderKeys(m'[q].kids) {
        SortedWithout(m, p, mask, h, q);
      }
    case Collect =>
      forall q | q in m' ensures InOrderKeys(m'[q].kids) {
        SortedWithout(m, w.queue[0].0, AllKinds(), Some(w.queue[0].1), q);
      }
    case PutPush(p, _, _) => DispatchSorts(w.subs, w'.subs, NewCalls(w, w'), sha, w'.root, p);
    case MergePush(p, _, _) => DispatchSorts(w.subs, w'.subs, NewCalls(w, w'), sha, w'.root, p);
    case Happen(_) =>
  }

  // ----- callbacks and references stay in agreement

  lemma JoinedLists(sha: Sha, w: World, kind: Kind, p: Path, h: Handle)
    ensures var s := SubAt(ToMap(w.subs), p);
            SameLists(Joined(sha, w, kind, p, h), WithList(s, kind, [h] + List(s, kind)))
  {
    hide ToMap, HashBytes, Children, Strip, GetVal, Announced;
  }

  lemma RegisterKeeps(sha: Sha, w: World, kind: Kind, p: Path, h: Handle, w': World)
    requires Sound(w) && Next(sha, w, Register(kind, p, h), w')
    ensures Conserved(ToMap(w'.subs), w'.s.reg) && Handles(ToMap(w'.subs)) && QueueOk(ToMap(w'.subs), w'.queue)
  {
    hide Ordered, ToMap, ValidNode, KidsSorted, Joined, Told, Strip, Conserved, Handles, Count, Watch;
    JoinedLists(sha, w, kind, p, h);
    OnKeeps(w.s.cnx, ToMap(w.subs), w.s.reg, p, kind, h, Joined(sha, w, kind, p, h));
  }

  lemma UnregisterKeeps(sha: Sha, w: World, p: Path, mask: set<Kind>, h: Option<Handle>, w': World)
    requires Sound(w) && Next(sha, w, Unregister(p, mask, h), w')
    ensures Conserved(ToMap(w'.subs), w'.s.reg) && Handles(ToMap(w'.subs)) && QueueOk(ToMap(w'.subs), w'.queue)
  {
    hide Ordered, ToMap, ValidNode, KidsSorted, Conserved, Handles, Count, Unwatch, Without, Unlinked;
    OffKeeps(w.s.cnx, ToMap(w.subs), w.s.reg, p, mask, h);
  }

  lemma CollectionKeeps(sha: Sha, w: World, w': World)
    requires Sound(w) && Next(sha, w, Collect, w')
    ensures Conserved(ToMap(w'.subs), w'.s.reg) && Handles(ToMap(w'.subs)) && QueueOk(ToMap(w'.subs), w'.queue)
  {
    hide Ordered, ToMap, ValidNode, KidsSorted, Conserved, Handles, Count, Unwatch, Without;
    var (p, h) := w.queue[0];
    CollectKeeps(w.s.cnx, ToMap(w.subs), w.s.reg, p, h);
    RefAtLeastOne(ToMap(w.subs), w.s.reg, p);
    forall i | 0 <= i < |w'.queue| ensures w'.queue[i] == w.queue[i + 1] != w.queue[0] {
    }
  }

  lemma PushKeeps(sha: Sha, w: World, p: Path, answers: Call -> bool, w': World)
    requires Sound(w) && ValidNode(w'.root) && Pushed(sha, w, p, answers, w')
    ensures Conserved(ToMap(w'.subs), w'.s.reg) && Handles(ToMap(w'.subs)) && QueueOk(ToMap(w'.subs), w'.queue)
  {
    hide Ordered, ToMap, ValidNode, KidsSorted, HandlesIn, Conserved, Handles, Count, Dispatched, Dropped, AsksOnce;
    hide ListsKept, Subscribed, Unique;
    var calls := NewCalls(w, w');
    HandlesMap(w.subs);
    DispatchedKeepsLists(w.subs, w'.subs, calls, sha, w'.root, p);
    DispatchQueues(w.subs, w'.subs, calls, sha, w'.root, p, answers);
    KeptConserved(w.subs, w'.subs, w.s.reg);
    forall i | 0 <= i < |w'.queue|
      ensures w'.queue[i].0 in ToMap(w'.subs) && Count(ToMap(w'.subs)[w'.queue[i].0], w'.queue[i].1) == 1
    {
      KeptSubscribed(w.subs, w'.subs, w'.queue[i].0, w'.queue[i].1);
    }
  }

  lemma HappenKeeps(sha: Sha, w: World, e: Event, w': World)
    requires Sound(w) && Next(sha, w, Happen(e), w')
    ensures Conserved(ToMap(w'.subs), w'.s.reg)
  {
    hide Step, Total, ToMap, Ordered, ValidNode, KidsSorted, Handles, QueueOk;
    NetworkRefs(w.s, e);
  }

  lemma StepKeeps(sha: Sha, w: World, a: Act, w': World)
    requires Sound(w) && Next(sha, w, a, w')
    ensures Sound(w')
  {
    StepSorted(sha, w, a, w');
    hide Ordered, ToMap, ValidNode, KidsSorted, Conserved, Handles, QueueOk, Pushed, Strip, Step;
    match a
    case Register(kind, p, h) => RegisterKeeps(sha, w, kind, p, h, w');
    case Unregister(p, mask, h) => UnregisterKeeps(sha, w, p, mask, h, w');
    case PutPush(p, _, answers) => PushKeeps(sha, w, p, answers, w');
    case MergePush(p, _, answers) => PushKeeps(sha, w, p, answers, w');
    case Collect => CollectionKeeps(sha, w, w');
    case Happen(e) => HappenKeeps(sha, w, e, w');
  }

  // ----- conservation over runs

  ghost predicate IsClientRun(sha: Sha, acts: seq<Act>, ws: seq<World>) {
    && |ws| == |acts| + 1 && IsStart(ws[0])
    && forall k :: 0 <= k < |acts| ==> Next(sha, ws[k], acts[k], ws[k + 1])
  }

  lemma StartSound(w: World)
    requires IsStart(w)
    ensures Sound(w) && Covered(w.s.reg)
  {
  }

  lemma {:induction false} RunSound(sha: Sha, acts: seq<Act>, ws: seq<World>, k: nat)
    requires IsClientRun(sha, acts, ws) && k < |ws|
    ensures Sound(ws[k]) && Covered(ws[k].s.reg)
  {
    hide Sound, Next, Covered, Step, IsStart;
    if k == 0 {
      StartSound(ws[0]);
    } else {
      RunSound(sha, acts, ws, k - 1);
      assert Next(sha, ws[k - 1], acts[k - 1], ws[k]);
      StepKeeps(sha, ws[k - 1], acts[k - 1], ws[k]);
      StepCovers(sha, ws[k - 1], acts[k - 1], ws[k]);
    }
  }

  lemma StepCovers(sha: Sha, w: World, a: Act, w': World)
    requires Sound(w) && Covered(w.s.reg) && Next(sha, w, a, w')
    ensures Covered(w'.s.reg)
  {
    hide Sound, Covered, Step, ToMap, Ordered, ValidNode, Strip, Dispatched, Joined;
    AlwaysAllowed(w, a);
    if ListenStep(w, a).Some? {
      StepCovered(w.s, ListenStep(w, a).value);
    }
  }

  /** Reference conservation in every run: at each path the four lists hold as many callbacks as the listen has
      references, and a listen exists exactly where there are callbacks. Coverage holds alongside. */
  lemma RunConserved(sha: Sha, acts: seq<Act>, ws: seq<World>, k: nat)
    requires IsClientRun(sha, acts, ws) && k < |ws|
    ensures var (m, r) := (ToMap(ws[k].subs), ws[k].s.reg);
            && (forall p :: p in r <==> p in m && Total(m[p]) > 0)
            && (forall p :: p in r ==> r[p].ref == Total(m[p]))
            && Covered(r)
  {
    hide IsClientRun, ToMap, Ordered, ValidNode, KidsSorted, Handles, QueueOk, Total, Covered;
    RunSound(sha, acts, ws, k);
    var m, r := ToMap(ws[k].subs), ws[k].s.reg;
    forall p ensures p in r <==> p in m {
      assert p in r.Keys <==> p in m.Keys;
    }
  }

  /** And in every run the assertion on references holds, whatever is unregistered next. */
  lemma RunAssertion(sha: Sha, acts: seq<Act>, ws: seq<World>, k: nat, p: Path, mask: set<Kind>, h: Option<Handle>)
    requires IsClientRun(sha, acts, ws) && k < |ws|
    ensures p in ws[k].s.reg ==> ws[k].s.reg[p].ref >= Unlinked(ToMap(ws[k].subs), p, mask, h)
  {
    hide IsClientRun, ToMap, Ordered, ValidNode, KidsSorted, Handles, QueueOk, Covered, Conserved, Unlinked;
    RunSound(sha, acts, ws, k);
    OffKeeps(ws[k].s.cnx, ToMap(ws[k].subs), ws[k].s.reg, p, mask, h);
  }

  // ----- nothing is registered that was not asked for

  ghost predicate Present(w: World, p: Path, h: Handle) {
    p in ToMap(w.subs) && Count(ToMap(w.subs)[p], h) > 0
  }

  lemma StepPresent(sha: Sha, w: World, a: Act, w': World, p: Path, h: Handle)
    requires Sound(w) && Next(sha, w, a, w') && Present(w', p, h)
    ensures Present(w, p, h) || (a.Register? && a.p == p && a.h == h)
  {
    hide Ordered, ToMap, ValidNode, KidsSorted, Conserved, Handles, QueueOk, Joined, Count, Dispatched, Strip, NewSub;
    hide Pruned, SameLists, WithList;
    var m := ToMap(w.subs);
    match a
    case Register(kind, q, x) =>
      JoinedLists(sha, w, kind, q, x);
      LinkedCount(SubAt(m, q), Joined(sha, w, kind, q, x), kind, x, h);
      NewSubEmpty(h);
    case Unregister(q, mask, x) =>
      if p == q {
        PrunedCount(m[q], mask, x, h);
      }
    case Collect =>
      if p == w.queue[0].0 {
        PrunedCount(m[p], AllKinds(), Some(w.queue[0].1), h);
      }
    case Happen(_) =>
    case PutPush(q, _, _) => PushedPresent(sha, w, q, w', p, h);
    case MergePush(q, _, _) => PushedPresent(sha, w, q, w', p, h);
  }

  lemma PushedPresent(sha: Sha, w: World, q: Path, w': World, p: Path, h: Handle)
    requires Ordered(w.subs) && Dispatched(w.subs, w'.subs, NewCalls(w, w'), sha, w'.root, q) && Present(w', p, h)
    ensures Present(w, p, h)
  {
    DispatchedKeepsLists(w.subs, w'.subs, NewCalls(w, w'), sha, w'.root, q);
    hide Ordered, ToMap, Dispatched;
    KeptAt(w.subs, w'.subs, p);
  }

  /** Whatever is registered at a path was registered there by an earlier act of the run. */
  lemma {:induction false} RunPresent(sha: Sha, acts: seq<Act>, ws: seq<World>, k: nat, p: Path, h: Handle)
    requires IsClientRun(sha, acts, ws) && k < |ws| && Present(ws[k], p, h)
    ensures exists j :: 0 <= j < k && acts[j].Register? && acts[j].p == p && acts[j].h == h
  {
    hide Next, Sound, Covered;
    if k > 0 {
      RunSound(sha, acts, ws, k - 1);
      assert Next(sha, ws[k - 1], acts[k - 1], ws[k]);
      StepPresent(sha, ws[k - 1], acts[k - 1], ws[k], p, h);
      if Present(ws[k - 1], p, h) {
        RunPresent(sha, acts, ws, k - 1, p, h);
      }
    }
  }

  // ----- what is stored stays in step with the cache

  /** Every subscription stores what it watches: the hash of the value, the hashes of the children. */
  ghost predicate InStep(sha: Sha, w: World) {
    Matched(w.subs, sha, w.root) && KidsMatched(w.subs, sha, w.root)
  }

  ghost predicate SubInStep(sha: Sha, n: Node, p: Path, s: Sub) {
    && (s.value != [] ==> s.hash == HashBytes(sha, n, p))
    && (HasChildCbs(s) ==> s.kids == Children(sha, n, p))
  }

  ghost predicate AllInStep(sha: Sha, n: Node, m: map<Path, Sub>) {
    forall p :: p in m ==> SubInStep(sha, n, p, m[p])
  }

  lemma InStepMap(sha: Sha, w: World)
    requires Ordered(w.subs)
    ensures InStep(sha, w) <==> AllInStep(sha, w.root, ToMap(w.subs))
  {
    hide Ordered, ToMap, HashBytes, Children, HasChildCbs;
    var ok := (p, s: Sub) => SubInStep(sha, w.root, p, s);
    EachEntry(w.subs, ok);
    assert InStep(sha, w) <==> AllEntries(w.subs, ok);
    assert AllInStep(sha, w.root, ToMap(w.subs)) <==> AllMapped(ToMap(w.subs), ok);
  }

  /** A registration after which the new callback will hear of every change. A value callback is announced, or
      nothing was stored for an earlier one. A child callback finds the children stored, or is one for added
      children and is told all of them. */
  ghost predicate Hears(sha: Sha, w: World, a: Act) {
    a.Register? ==>
      var s := SubAt(ToMap(w.subs), a.p);
      if a.kind.Value? then Announced(Strip(w.root), w.s, a.p) || s.hash == NoHash()
      else s.kids == Children(sha, w.root, a.p) || (a.kind.Added? && HasChildren(Strip(w.root), a.p))
  }

  lemma SameHashes(sha: Sha, n: Node, n': Node)
    requires ValidNode(n) && ValidNode(n') && Strip(n) == Strip(n')
    ensures forall q :: HashBytes(sha, n, q) == HashBytes(sha, n', q) && Children(sha, n, q) == Children(sha, n', q)
  {
    hide ValidNode, Strip, HashBytes, Children;
    forall q ensures HashBytes(sha, n, q) == HashBytes(sha, n', q) && Children(sha, n, q) == Children(sha, n', q) {
      HashBytesOfValue(sha, n, n', q);
    }
  }

  lemma JoinedInStep(sha: Sha, w: World, kind: Kind, p: Path, h: Handle)
    requires ValidNode(w.root) && SubInStep(sha, w.root, p, SubAt(ToMap(w.subs), p))
    ensures SubInStep(sha, w.root, p, Joined(sha, w, kind, p, h)) <==> Hears(sha, w, Register(kind, p, h))
  {
    hide ToMap, ValidNode, HashBytes, Children, GetVal, Strip, IsMasked;
    NoHashWithout(sha, w.root, p);
  }

  lemma NewInStep(sha: Sha, n: Node, p: Path)
    ensures SubInStep(sha, n, p, NewSub())
  {
  }

  /** From a state in step, a registration leads to one exactly when its callback hears. */
  lemma RegisterInStep(sha: Sha, w: World, kind: Kind, p: Path, h: Handle, w': World)
    requires Sound(w) && InStep(sha, w) && Next(sha, w, Register(kind, p, h), w')
    ensures InStep(sha, w') <==> Hears(sha, w, Register(kind, p, h))
  {
    hide Ordered, ToMap, ValidNode, KidsSorted, Conserved, Handles, QueueOk, Joined, Told, Strip, HashBytes, Children;
    hide InStep, Hears, Step, NewSub, HasChildCbs;
    InStepMap(sha, w);
    InStepMap(sha, w');
    NewInStep(sha, w.root, p);
    JoinedInStep(sha, w, kind, p, h);
    SameHashes(sha, w.root, w'.root);
    var m, s := ToMap(w.subs), Joined(sha, w, kind, p, h);
    assert SubInStep(sha, w'.root, p, s) <==> SubInStep(sha, w.root, p, s);
    assert p in ToMap(w'.subs) && ToMap(w'.subs)[p] == s;
  }

  lemma WithoutInStep(sha: Sha, n: Node, m: map<Path, Sub>, p: Path, mask: set<Kind>, h: Option<Handle>)
    requires AllInStep(sha, n, m)
    ensures AllInStep(sha, n, Without(m, p, mask, h))
  {
    hide HashBytes, Children, Stay;
    if p in m {
      StayShrinks(m[p].added, h);
      StayShrinks(m[p].removed, h);
      StayShrinks(m[p].changed, h);
      StayShrinks(m[p].value, h);
    }
  }

  lemma DropInStep(sha: Sha, w: World, p: Path, mask: set<Kind>, h: Option<Handle>, w': World)
    requires Ordered(w.subs) && Ordered(w'.subs) && InStep(sha, w)
    requires w'.root == w.root && ToMap(w'.subs) == Without(ToMap(w.subs), p, mask, h)
    ensures InStep(sha, w')
  {
    hide Ordered, ToMap, InStep, AllInStep, Without;
    InStepMap(sha, w);
    InStepMap(sha, w');
    WithoutInStep(sha, w.root, ToMap(w.subs), p, mask, h);
  }

  ghost predicate AgreesAway(sha: Sha, n: Node, n': Node, p: Path) {
    forall q :: !Touches(q, p) ==>
      HashBytes(sha, n, q) == HashBytes(sha, n', q) && Children(sha, n, q) == Children(sha, n', q)
  }

  /** The trees before and after a push differ only where paths touch that of the push. */
  lemma PushElsewhere(sha: Sha, w: World, a: Act, w': World)
    requires Sound(w) && Next(sha, w, a, w') && (a.PutPush? || a.MergePush?)
    ensures AgreesAway(sha, w.root, w'.root, a.p)
  {
    hide Ordered, ToMap, ValidNode, KidsSorted, Conserved, Handles, QueueOk, Strip, HashBytes, Children, Pushed;
    hide PutVal, MergeVal, Touches;
    forall q | !Touches(q, a.p)
      ensures HashBytes(sha, w.root, q) == HashBytes(sha, w'.root, q)
      ensures Children(sha, w.root, q) == Children(sha, w'.root, q)
    {
      match a
      case PutPush(p, doc, _) => PutElsewhere(sha, w.root, w'.root, p, FromJson(doc), q);
      case MergePush(p, ms, _) => MergeElsewhere(sha, w.root, w'.root, p, ms, q);
    }
  }

  /** A data push from a state in step notifies exactly, of values and of children, and leads to one. */
  lemma PushNotifies(sha: Sha, w: World, a: Act, w': World)
    requires Sound(w) && InStep(sha, w) && Next(sha, w, a, w') && (a.PutPush? || a.MergePush?)
    ensures InStep(sha, w')
    ensures NotifiesExactly(NewCalls(w, w'), w.subs, sha, w.root, w'.root)
    ensures NotifiesKids(NewCalls(w, w'), w.subs, sha, w.root, w'.root)
  {
    PushElsewhere(sha, w, a, w');
    hide Ordered, ToMap, ValidNode, KidsSorted, Conserved, Handles, QueueOk, Strip, HashBytes, Children, Touches;
    hide Dispatched, Dropped, AsksOnce, NotifiesExactly, NotifiesKids, Matched, KidsMatched, NewCalls;
    PushExact(w.subs, w'.subs, NewCalls(w, w'), sha, w.root, w'.root, a.p);
  }

  lemma StepInStep(sha: Sha, w: World, a: Act, w': World)
    requires Sound(w) && InStep(sha, w) && Next(sha, w, a, w')
    ensures InStep(sha, w') <==> Hears(sha, w, a)
  {
    match a
    case Register(kind, p, h) => RegisterInStep(sha, w, kind, p, h, w');
    case Unregister(p, mask, h) =>
      hide InStep, Ordered, ToMap, Without;
      DropInStep(sha, w, p, mask, h, w');
    case Collect =>
      hide InStep, Ordered, ToMap, Without;
      DropInStep(sha, w, w.queue[0].0, AllKinds(), Some(w.queue[0].1), w');
    case Happen(_) =>
    case _ => PushNotifies(sha, w, a, w');
  }

  lemma StartInStep(sha: Sha, w: World)
    requires IsStart(w)
    ensures InStep(sha, w)
  {
  }

  /** What is stored stays in step with the cache for exactly as long as every registration hears. */
  lemma {:induction false} RunInStep(sha: Sha, acts: seq<Act>, ws: seq<World>, k: nat)
    requires IsClientRun(sha, acts, ws) && k < |ws|
    ensures (forall j :: 0 <= j <= k ==> InStep(sha, ws[j]))
            <==> (forall j :: 0 <= j < k ==> Hears(sha, ws[j], acts[j]))
  {
    hide InStep, Hears, Next, IsStart, Sound, Covered;
    if k == 0 {
      StartInStep(sha, ws[0]);
    } else {
      RunInStep(sha, acts, ws, k - 1);
      if forall j :: 0 <= j <= k - 1 ==> InStep(sha, ws[j]) {
        RunSound(sha, acts, ws, k - 1);
        assert Next(sha, ws[k - 1], acts[k - 1], ws[k]);
        StepInStep(sha, ws[k - 1], acts[k - 1], ws[k]);
        assert InStep(sha, ws[k]) <==> Hears(sha, ws[k - 1], acts[k - 1]);
      }
    }
  }

  /** In every run whose registrations hear, every data push notifies exactly: each value callback once if the hash
      at its path changed and not at all otherwise, each child callback once for each key that appeared, vanished
      or changed accordingly. */
  lemma RunNotifies(sha: Sha, acts: seq<Act>, ws: seq<World>, k: nat)
    requires IsClientRun(sha, acts, ws) && k < |acts| && (acts[k].PutPush? || acts[k].MergePush?)
    requires forall j :: 0 <= j < k ==> Hears(sha, ws[j], acts[j])
    ensures NotifiesExactly(NewCalls(ws[k], ws[k + 1]), ws[k].subs, sha, ws[k].root, ws[k + 1].root)
    ensures NotifiesKids(NewCalls(ws[k], ws[k + 1]), ws[k].subs, sha, ws[k].root, ws[k + 1].root)
  {
    hide InStep, Hears, Next, IsStart, Sound, Covered, NotifiesExactly, NotifiesKids, NewCalls;
    RunInStep(sha, acts, ws, k);
    RunSound(sha, acts, ws, k);
    assert Next(sha, ws[k], acts[k], ws[k + 1]);
    PushNotifies(sha, ws[k], acts[k], ws[k + 1]);
  }

  // ----- the collection of a whole queue

  /** The loop of `deleted_cb_gc`: one collection after another until the queue is empty. */
  ghost predicate Collects(sha: Sha, w: World, w': World)
    decreases |w.queue|
  {
    if w.queue == [] then w' == w
    else exists v: World :: v.queue == w.queue[1..] && Next(sha, w, Collect, v) && Collects(sha, v, w')
  }

  /** The listens after one reference has been dropped per queued handle. */
  ghost function Released(s: Session, queue: seq<(Path, Handle)>): Session
    decreases |queue|
  {
    if queue == [] || !Allowed(s, EUnwatch(queue[0].0, 1)) then s
    else Released(Step(s, EUnwatch(queue[0].0, 1)), queue[1..])
  }

  lemma {:induction false} CollectsSpec(sha: Sha, w: World, w': World)
    requires Sound(w) && Collects(sha, w, w')
    ensures Sound(w') && w'.queue == [] && w'.log == w.log && w'.root == w.root
    ensures ToMap(w'.subs) == DropAll(ToMap(w.subs), w.queue)
    ensures w'.s == Released(w.s, w.queue)
    decreases |w.queue|
  {
    hide Sound, ToMap, Ordered, ValidNode, Without, Step;
    if w.queue != [] {
      var v: World :| v.queue == w.queue[1..] && Next(sha, w, Collect, v) && Collects(sha, v, w');
      AlwaysAllowed(w, Collect);
      StepKeeps(sha, w, Collect, v);
      CollectsSpec(sha, v, w');
    }
  }
}
