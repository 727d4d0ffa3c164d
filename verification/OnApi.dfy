/** lib/datasync/on/on_api.c and the message handler of lib/datasync/datasync.c: the calls that tie callbacks to
    listen references. Each method takes the step of `ClientRuns` that models it. */
module OnApi {
  import opened Keys
  import opened Paths
  import opened PathTable
  import opened ListenModel
  import LR = ListenRegistry
  import K = Kids
  import opened CacheTree
  import opened Merkle
  import opened DataCache
  import opened OnModel
  import opened OnRegistry
  import opened Notify
  import opened Callbacks
  import opened Drops
  import opened ClientRuns
  import opened Announcing

  /** Answers by which every callback asks to be dropped in one invocation at most. */
  ghost predicate DropsOnce(answers: Call -> bool) {
    forall c, d :: !answers(c) && !answers(d) && SameCallback(c, d) ==> c == d
  }

  /** The stored part of a subscription after the initial invocations. */
  ghost function Announcement(sha: Sha, n: K.Node, kind: Kind, p: Path, s: Sub): Sub {
    if kind.Value? then s.(hash := HashBytes(sha, n, p))
    else if kind.Added? && GetNode(n, p).Some? && GetNode(n, p).value.Internal? then s.(kids := Children(sha, n, p))
    else s
  }

  lemma InternalHasChildren(n: K.Node, p: Path)
    requires ValidNode(n)
    ensures HasChildren(Strip(n), p) <==> GetNode(n, p).Some? && GetNode(n, p).value.Internal?
  {
    GetNodeSpec(n, p);
  }

  /** Linking and announcing is the registration of `ClientRuns`. */
  lemma AnnouncedIsJoined(sha: Sha, w: World, kind: Kind, p: Path, h: Handle)
    requires ValidNode(w.root)
    ensures var s := SubAt(ToMap(w.subs), p);
            var linked := WithList(s, kind, [h] + List(s, kind));
            Joined(sha, w, kind, p, h) ==
            if Announced(Strip(w.root), w.s, p) then Announcement(sha, w.root, kind, p, linked) else linked
  {
    hide ToMap, ValidNode, Strip, GetNode, HashBytes, Children, IsMasked;
    InternalHasChildren(w.root, p);
  }

  class Client {
    const reg: Registry
    const listens: LR.Listens
    const cache: Cache

    constructor (h: Sha)
      ensures Valid() && IsStart(State()) && cache.sha == h && fresh(reg) && fresh(listens) && fresh(cache)
    {
      reg := new Registry();
      listens := new LR.Listens();
      cache := new Cache(h);
    }

    ghost predicate Valid()
      reads this, reg, listens, cache
    {
      && reg.Valid() && listens.Valid() && cache.Valid() && KidsSorted(reg.subs)
      && Conserved(ToMap(reg.subs), ToMap(listens.items)) && Handles(ToMap(reg.subs))
    }

    ghost function State(): World
      reads reg, listens, cache
    {
      World(reg.subs, reg.queue, reg.log, listens.Abs(), cache.root)
    }

    /** A connection event: connecting, handshake, closing, closed or failed, or the answer to a listen. */
    method Network(e: Event)
      requires Valid() && Can(State(), Happen(e))
      modifies listens
      ensures Valid() && Next(cache.sha, old(State()), Happen(e), State())
    {
      hide ToMap, Ordered, Topmost, LR.Held, Total, Count, Step, KidsSorted;
      NetworkRefs(listens.Abs(), e);
      match e {
        case EResult(p, ok) => listens.ListenResult(p, ok);
        case EConnect => listens.Connect();
        case EHandshake => listens.Handshake();
        case EClose => listens.Close();
        case EClosed => listens.Closed();
      }
    }

    /** The table half of `on_registry_add`: the callback is linked at the head of its list. */
    method Link(kind: Kind, p: Path, h: Handle) returns (k: nat)
      requires reg.Valid()
      modifies reg`subs
      ensures reg.Valid()
      ensures var m := old(ToMap(reg.subs));
              var s := if p in m then m[p] else NewSub();
              ToMap(reg.subs) == m[p := WithList(s, kind, [h] + List(s, kind))]
      ensures k < |reg.subs| && reg.subs[k].path == p
    {
      hide ToMap, Ordered;
      FindSpec(reg.subs, p);
      var at := Find(reg.subs, p);
      if at.Some? {
        k := at.value;
        var s := reg.subs[k].v;
        var s' := WithList(s, kind, [h] + List(s, kind));
        ToMapUpdate(reg.subs, k, s');
        reg.subs := reg.subs[k := Entry(p, s')];
      } else {
        k := LowerBound(reg.subs, p);
        var e := Entry(p, WithList(NewSub(), kind, [h]));
        assert [h] + List(NewSub(), kind) == [h];
        InsertSpec(reg.subs, e);
        reg.subs := reg.subs[..k] + [e] + reg.subs[k..];
      }
    }

    /** `on_registry_remove`: returns how many callbacks were unlinked. */
    method Remove(p: Path, mask: set<Kind>, h: Option<Handle>) returns (removed: nat)
      requires reg.Valid()
      modifies reg`subs
      ensures reg.Valid()
      ensures var m := old(ToMap(reg.subs));
              && ToMap(reg.subs) == Without(m, p, mask, h)
              && if p in m then Total(Pruned(m[p], mask, h)) + removed == Total(m[p]) else removed == 0
    {
      hide ToMap, Ordered, Stay;
      removed := 0;
      FindSpec(reg.subs, p);
      var at := Find(reg.subs, p);
      if at.Some? {
        var k := at.value;
        var s := reg.subs[k].v;
        s, removed := Prune(s, mask, h);
        if s.value != [] || s.added != [] || s.removed != [] || s.changed != [] {
          ToMapUpdate(reg.subs, k, s);
          reg.subs := reg.subs[k := Entry(p, s)];
        } else {
          ToMapRemove(reg.subs, k);
          reg.subs := reg.subs[..k] + reg.subs[k + 1..];
        }
      }
    }

    /** The handler of a put message up to `deleted_cb_gc`: a push step of the run, unless a callback asks twice to
        be dropped. What was in step stays in step, with exact notification. */
    method ReceivePut(p: Path, doc: Json, answers: Call -> bool)
      requires Valid() && Can(State(), PutPush(p, doc, answers))
      modifies reg, cache
      ensures Valid() && ListsKept(old(reg.subs), reg.subs)
      ensures cache.Value() == PutVal(old(cache.Value()), p, FromJson(doc), false)
      ensures AsksOnce(NewCalls(old(State()), State()), answers) <==> Unique(reg.queue)
      ensures AsksOnce(NewCalls(old(State()), State()), answers) ==>
                && QueueOk(ToMap(reg.subs), reg.queue)
                && Next(cache.sha, old(State()), PutPush(p, doc, answers), State())
      ensures old(Matched(reg.subs, cache.sha, cache.root)) ==>
                && Matched(reg.subs, cache.sha, cache.root)
                && NotifiesExactly(NewCalls(old(State()), State()),
                                   old(reg.subs), cache.sha, old(cache.root), cache.root)
      ensures old(KidsMatched(reg.subs, cache.sha, cache.root)) ==>
                && KidsMatched(reg.subs, cache.sha, cache.root)
                && NotifiesKids(NewCalls(old(State()), State()), old(reg.subs), cache.sha, old(cache.root), cache.root)
    {
      hide ToMap, Ordered, Matched, NotifiesExactly, KidsMatched, NotifiesKids, ListsKept, Conserved, Handles, Count;
      hide PutVal, Strip, ValidNode, Coherent, Dispatched, Dropped, AsksOnce, Unique, KidsSorted, QueueOk, LR.Held;
      ghost var w := State();
      PushPut(reg, cache, p, doc, answers);
      PushedState(w, p, answers);
    }

    /** The handler of a merge message, likewise. */
    method ReceiveMerge(p: Path, ms: seq<Update>, answers: Call -> bool)
      requires Valid() && Can(State(), MergePush(p, ms, answers))
      modifies reg, cache
      ensures Valid() && ListsKept(old(reg.subs), reg.subs)
      ensures cache.Value() == MergeVal(old(cache.Value()), p, ms, |ms|)
      ensures AsksOnce(NewCalls(old(State()), State()), answers) <==> Unique(reg.queue)
      ensures AsksOnce(NewCalls(old(State()), State()), answers) ==>
                && QueueOk(ToMap(reg.subs), reg.queue)
                && Next(cache.sha, old(State()), MergePush(p, ms, answers), State())
      ensures old(Matched(reg.subs, cache.sha, cache.root)) ==>
                && Matched(reg.subs, cache.sha, cache.root)
                && NotifiesExactly(NewCalls(old(State()), State()),
                                   old(reg.subs), cache.sha, old(cache.root), cache.root)
      ensures old(KidsMatched(reg.subs, cache.sha, cache.root)) ==>
                && KidsMatched(reg.subs, cache.sha, cache.root)
                && NotifiesKids(NewCalls(old(State()), State()), old(reg.subs), cache.sha, old(cache.root), cache.root)
    {
      hide ToMap, Ordered, Matched, NotifiesExactly, KidsMatched, NotifiesKids, ListsKept, Conserved, Handles, Count;
      hide MergeVal, Strip, ValidNode, Coherent, Dispatched, Dropped, AsksOnce, Unique, KidsSorted, QueueOk, LR.Held;
      ghost var w := State();
      PushMerge(reg, cache, p, ms, answers);
      PushedState(w, p, answers);
    }

    /** What the client keeps through the dispatch of a push. */
    lemma PushedState(w: World, p: Path, answers: Call -> bool)
      requires Ordered(w.subs) && KidsSorted(w.subs) && Conserved(ToMap(w.subs), w.s.reg) && Handles(ToMap(w.subs))
      requires reg.Valid() && listens.Valid() && cache.Valid() && listens.Abs() == w.s && w.log <= reg.log
      requires Dispatched(w.subs, reg.subs, NewCalls(w, State()), cache.sha, cache.root, p)
      requires reg.queue == Dropped(NewCalls(w, State()), answers)
      ensures Valid() && ListsKept(w.subs, reg.subs)
      ensures AsksOnce(NewCalls(w, State()), answers) <==> Unique(reg.queue)
      ensures AsksOnce(NewCalls(w, State()), answers) ==> QueueOk(ToMap(reg.subs), reg.queue)
    {
      hide ToMap, Ordered, ListsKept, Conserved, Handles, HandlesIn, Count, ValidNode, Coherent, Dispatched, Dropped;
      hide AsksOnce, Unique, KidsSorted, Subscribed, LR.Held, NewCalls;
      var calls := NewCalls(w, State());
      HandlesMap(w.subs);
      DispatchSorts(w.subs, reg.subs, calls, cache.sha, cache.root, p);
      DispatchedKeepsLists(w.subs, reg.subs, calls, cache.sha, cache.root, p);
      DispatchQueues(w.subs, reg.subs, calls, cache.sha, cache.root, p, answers);
      KeptConserved(w.subs, reg.subs, w.s.reg);
      forall i | 0 <= i < |reg.queue|
        ensures reg.queue[i].0 in ToMap(reg.subs) && Count(ToMap(reg.subs)[reg.queue[i].0], reg.queue[i].1) == 1
      {
        KeptSubscribed(w.subs, reg.subs, reg.queue[i].0, reg.queue[i].1);
      }
    }

    /** Overwrites what the subscription at position `k` stores. */
    method Remember(k: nat, hash: string, kids: seq<KidHash>)
      requires reg.Valid() && k < |reg.subs|
      modifies reg`subs
      ensures reg.Valid()
      ensures var (m, p) := (old(ToMap(reg.subs)), old(reg.subs[k].path));
              p in m && ToMap(reg.subs) == m[p := m[p].(hash := hash, kids := kids)]
    {
      hide ToMap, Ordered;
      ToMapAt(reg.subs, k);
      ToMapUpdate(reg.subs, k, reg.subs[k].v.(hash := hash, kids := kids));
      reg.subs := reg.subs[k := Entry(reg.subs[k].path, reg.subs[k].v.(hash := hash, kids := kids))];
    }

    /** The initial invocations of `on_registry_add`, whose answers are ignored. Only a value callback and one for
        added children store anything. */
    method Announce(kind: Kind, k: nat, h: Handle, snapshot: Option<K.Node>)
      requires reg.Valid() && cache.Valid() && k < |reg.subs|
      requires snapshot == GetNode(cache.root, reg.subs[k].path)
      modifies reg, cache
      ensures reg.Valid() && cache.Valid() && cache.Value() == old(cache.Value()) && reg.queue == old(reg.queue)
      ensures var (m, p) := (old(ToMap(reg.subs)), old(reg.subs[k].path));
              && reg.log == old(reg.log) + FirstCalls(kind, h, p, Children(cache.sha, old(cache.root), p))
              && p in m && ToMap(reg.subs) == m[p := Announcement(cache.sha, old(cache.root), kind, p, m[p])]
    {
      hide ToMap, Ordered, GetVal, HashBytes, Strip, ValidNode, Coherent, Erase, Children, GetNode;
      ToMapAt(reg.subs, k);
      ghost var m := ToMap(reg.subs);
      var p, s := reg.subs[k].path, reg.subs[k].v;
      if kind.Value? {
        reg.log := reg.log + [ValueCall(h, p)];
        var hash := cache.Hash(p);
        Remember(k, hash, s.kids);
      } else if kind.Added? && snapshot.Some? && snapshot.value.Internal? {
        var a := cache.ChildHashes(p);
        TellKids(h, p, a);
        Remember(k, s.hash, a);
      } else {
        NoKids(cache.sha, cache.root, p);
        assert reg.log + [] == reg.log && m[p := m[p]] == m;
      }
    }

    /** The loop over the children that are there. */
    method TellKids(h: Handle, p: Path, a: seq<KidHash>)
      modifies reg`log
      ensures reg.log == old(reg.log) + KidCalls(h, p, a)
    {
      var i := 0;
      while i < |a|
        invariant 0 <= i <= |a| && reg.log == old(reg.log) + KidCalls(h, p, a)[..i]
      {
        reg.log := reg.log + [Call(h, p, Added, Some(a[i].key), if i == 0 then None else Some(a[i - 1].key))];
        i := i + 1;
      }
    }

    /** `on_registry_add`: the callback is linked and told what there is to tell. */
    method Add(kind: Kind, p: Path, h: Handle)
      requires Valid()
      modifies reg, cache
      ensures reg.Valid() && cache.Valid() && cache.Value() == old(cache.Value()) && reg.queue == old(reg.queue)
      ensures ToMap(reg.subs) == old(ToMap(reg.subs))[p := Joined(cache.sha, old(State()), kind, p, h)]
      ensures reg.log == old(reg.log) + Told(cache.sha, old(State()), kind, p, h)
    {
      hide ToMap, Ordered, GetVal, HashBytes, Children, Strip, ValidNode, Coherent, Count, Total, Handles, Conserved;
      hide IsMasked, LR.Held, KidsSorted, Joined, Announcement, GetNode;
      ghost var w := State();
      var k := Link(kind, p, h);
      var snapshot := cache.Get(p);
      var listening := listens.CheckMasked(p);
      ghost var log0 := reg.log;
      if snapshot.Some? || listening || listens.cnx.Disconnected? {
        Announce(kind, k, h, snapshot);
      } else {
        assert log0 + [] == log0;
      }
      AnnouncedIsJoined(cache.sha, w, kind, p, h);
    }

    /** `wc_datasync_on_value` and the three `wc_datasync_on_child_*`: `on_registry_add`, then watch. `h` is the
        handle of the newly allocated callback. A value registration leaves the stored hash in step with the cache
        exactly when the callback is announced or nothing was stored; a child registration leaves the stored
        children in step exactly when they were, or when the callback is for added children and there is a map. */
    method On(kind: Kind, p: Path, h: Handle)
      requires Valid() && Can(State(), Register(kind, p, h))
      modifies reg, listens, cache
      ensures Valid() && Next(cache.sha, old(State()), Register(kind, p, h), State())
      ensures Tells(NewCalls(old(State()), State()), kind, p, h, old(cache.Value()),
                    Announced(old(cache.Value()), old(listens.Abs()), p))
      ensures p in ToMap(reg.subs)
      ensures kind.Value? ==>
                (ToMap(reg.subs)[p].hash == HashBytes(cache.sha, cache.root, p) <==>
                   || Announced(old(cache.Value()), old(listens.Abs()), p)
                   || SubAt(old(ToMap(reg.subs)), p).hash == NoHash())
      ensures !kind.Value? ==>
                (ToMap(reg.subs)[p].kids == Children(cache.sha, cache.root, p) <==>
                   || SubAt(old(ToMap(reg.subs)), p).kids == Children(cache.sha, old(cache.root), p)
                   || (kind.Added? && HasChildren(old(cache.Value()), p)))
    {
      hide ToMap, Ordered, GetVal, HashBytes, Children, Strip, ValidNode, Coherent, Count, Total, Handles, Conserved;
      hide IsMasked, LR.Held, Watch, KidsSorted, Joined, Told, Tells;
      ghost var w := State();
      Add(kind, p, h);
      ToldTells(cache.sha, w, kind, p, h);
      listens.WatchPath(p);
      assert Next(cache.sha, w, Register(kind, p, h), State());
      JoinedSound(w, kind, p, h);
    }

    lemma JoinedSound(w: World, kind: Kind, p: Path, h: Handle)
      requires Sound(w) && reg.Valid() && listens.Valid() && cache.Valid()
      requires Next(cache.sha, w, Register(kind, p, h), State())
      ensures Valid() && p in ToMap(reg.subs)
      ensures kind.Value? ==>
                (ToMap(reg.subs)[p].hash == HashBytes(cache.sha, cache.root, p) <==>
                   Announced(Strip(w.root), w.s, p) || SubAt(ToMap(w.subs), p).hash == NoHash())
      ensures !kind.Value? ==>
                (ToMap(reg.subs)[p].kids == Children(cache.sha, cache.root, p) <==>
                   || SubAt(ToMap(w.subs), p).kids == Children(cache.sha, w.root, p)
                   || (kind.Added? && HasChildren(Strip(w.root), p)))
    {
      StepKeeps(cache.sha, w, Register(kind, p, h), State());
      hide ToMap, Ordered, GetVal, HashBytes, Children, Strip, ValidNode, Coherent, Handles, Conserved, IsMasked;
      hide LR.Held, Watch, KidsSorted, QueueOk;
      NoHashWithout(cache.sha, w.root, p);
      SameHashes(cache.sha, w.root, cache.root);
    }

    /** `wc_datasync_off_w`: the number of callbacks unlinked is the number of references dropped,
        so the assertion of `listen_registry_unref` holds. */
    method Off(p: Path, mask: set<Kind>, h: Option<Handle>)
      requires Valid() && Can(State(), Unregister(p, mask, h))
      modifies reg, listens
      ensures Valid() && Next(cache.sha, old(State()), Unregister(p, mask, h), State())
      ensures Allowed(old(listens.Abs()), EUnwatch(p, Unlinked(old(ToMap(reg.subs)), p, mask, h)))
    {
      hide ToMap, Ordered, Topmost, Stay, Count, LR.Held, Conserved, Handles, Without, Unwatch, KidsSorted, Step;
      hide ValidNode, Coherent, Strip, Pruned;
      ghost var w := State();
      OffKeeps(listens.cnx, ToMap(reg.subs), ToMap(listens.items), p, mask, h);
      var removed := Remove(p, mask, h);
      listens.UnwatchPath(p, removed);
      assert Next(cache.sha, w, Unregister(p, mask, h), State());
      StepKeeps(cache.sha, w, Unregister(p, mask, h), State());
    }

    /** `deleted_cb_gc`: one reference and one callback per queued handle. */
    method CollectAll()
      requires Valid() && QueueOk(ToMap(reg.subs), reg.queue)
      modifies reg, listens
      ensures Valid() && reg.queue == [] && reg.log == old(reg.log)
      ensures ToMap(reg.subs) == DropAll(old(ToMap(reg.subs)), old(reg.queue))
      ensures listens.Abs() == Released(old(listens.Abs()), old(reg.queue))
      ensures Collects(cache.sha, old(State()), State())
    {
      ghost var w := State();
      while reg.queue != []
        invariant Valid() && QueueOk(ToMap(reg.subs), reg.queue) && cache.root == w.root
        invariant forall v :: Collects(cache.sha, State(), v) ==> Collects(cache.sha, w, v)
        decreases |reg.queue|
      {
        hide Collects, ToMap, Ordered, Conserved, Handles, KidsSorted, QueueOk, ValidNode, Coherent, LR.Held;
        ghost var u := State();
        CollectOne();
        CollectsFirst(cache.sha, u, State());
      }
      hide ToMap, Ordered, Conserved, Handles, KidsSorted, QueueOk, ValidNode, Coherent, LR.Held;
      assert Collects(cache.sha, State(), State());
      CollectsSpec(cache.sha, w, State());
    }

    method CollectOne()
      requires Valid() && reg.queue != [] && QueueOk(ToMap(reg.subs), reg.queue)
      modifies reg, listens
      ensures Valid() && Next(cache.sha, old(State()), Collect, State()) && QueueOk(ToMap(reg.subs), reg.queue)
      ensures reg.queue == old(reg.queue)[1..]
    {
      hide ToMap, Ordered, Topmost, Stay, LR.Held, Conserved, Handles, Count, Without, Unwatch, KidsSorted, Step;
      hide ValidNode, Coherent, Strip, Unique;
      ghost var w := State();
      var (p, h) := reg.queue[0];
      RefAtLeastOne(ToMap(reg.subs), ToMap(listens.items), p);
      listens.UnwatchPath(p, 1);
      var removed := Remove(p, AllKinds(), Some(h));
      reg.queue := reg.queue[1..];
      assert Next(cache.sha, w, Collect, State());
      StepKeeps(cache.sha, w, Collect, State());
    }

    /** A whole put message: the cache, the dispatch, the collection. */
    method PutMessage(p: Path, doc: Json, answers: Call -> bool)
      requires Valid() && Can(State(), PutPush(p, doc, answers)) && DropsOnce(answers)
      modifies reg, listens, cache
      ensures Valid() && reg.queue == []
      ensures exists v :: Next(cache.sha, old(State()), PutPush(p, doc, answers), v) && Collects(cache.sha, v, State())
    {
      hide Next, Collects, ToMap, Ordered, Conserved, Handles, KidsSorted, QueueOk, ValidNode, Coherent, LR.Held;
      ghost var w := State();
      ReceivePut(p, doc, answers);
      ghost var v := State();
      assert Next(cache.sha, w, PutPush(p, doc, answers), v);
      CollectAll();
    }

    /** A whole merge message. */
    method MergeMessage(p: Path, ms: seq<Update>, answers: Call -> bool)
      requires Valid() && Can(State(), MergePush(p, ms, answers)) && DropsOnce(answers)
      modifies reg, listens, cache
      ensures Valid() && reg.queue == []
      ensures exists v :: Next(cache.sha, old(State()), MergePush(p, ms, answers), v) && Collects(cache.sha, v, State())
    {
      hide Next, Collects, ToMap, Ordered, Conserved, Handles, KidsSorted, QueueOk, ValidNode, Coherent, LR.Held;
      ghost var w := State();
      ReceiveMerge(p, ms, answers);
      ghost var v := State();
      assert Next(cache.sha, w, MergePush(p, ms, answers), v);
      CollectAll();
    }
  }

  lemma CollectsFirst(sha: Sha, u: World, w: World)
    requires u.queue != [] && w.queue == u.queue[1..] && Next(sha, u, Collect, w)
    ensures forall v :: Collects(sha, w, v) ==> Collects(sha, u, v)
  {
    hide Next;
  }
}
