/** Two runs in which a registration does not hear what it is for: each is taken by the client, and each breaks the
    exactness of a later notification (lib/datasync/on/on_registry.c). */
module Unheard {
  import opened Keys
  import opened Paths
  import opened PathTable
  import opened Kids
  import opened CacheTree
  import opened Merkle
  import opened DataCache
  import opened ListenModel
  import opened OnModel
  import opened OnRegistry
  import opened Notify
  import opened Callbacks
  import opened Drops
  import opened ClientRuns
  import OnApi

  /** Every callback stays. */
  function KeepAll(): Call -> bool {
    c => true
  }

  // ----- one subscription

  ghost predicate Alone(w: World, p: Path, s: Sub) {
    Ordered(w.subs) && ToMap(w.subs) == map[p := s]
  }

  lemma AloneTable(w: World, p: Path, s: Sub)
    requires Alone(w, p, s)
    ensures w.subs == [Entry(p, s)]
  {
    hide Ordered, ToMap;
    var k := ToMapIndex(w.subs, p);
    if |w.subs| > 1 {
      var i := if k == 0 then 1 else 0;
      ToMapAt(w.subs, i);
      PathTable.Distinct(w.subs, i, k);
    }
    assert w.subs == [w.subs[k]];
  }

  lemma AlonePush(sha: Sha, w: World, q: Path, answers: Call -> bool, w': World, p: Path, s: Sub)
    requires Alone(w, p, s) && Pushed(sha, w, q, answers, w') && Touches(p, q)
    ensures Alone(w', p, TrigSub(s, Children(sha, w'.root, p), HashBytes(sha, w'.root, p)))
    ensures NewCalls(w, w') == TrigCalls(s, p, Children(sha, w'.root, p), HashBytes(sha, w'.root, p))
  {
    hide Ordered, ToMap, HashBytes, Children, AsksOnce, Dropped, TrigCalls, TrigSub, Touches;
    AloneTable(w, p, s);
    var calls := NewCalls(w, w');
    var order :| DispatchedIn(w.subs, w'.subs, order, sha, w'.root, q) && calls == CallsAt(w.subs, order, sha, w'.root);
    assert 0 in order;
    assert forall i :: 0 <= i < |order| ==> order[i] == 0;
    assert order[0] == 0 && order[|order| - 1] == 0;
    assert order == [0];
    var n := w'.root;
    assert order[..0] == [] && CallsAt(w.subs, order[..0], sha, n) == [];
    assert calls == [] + CallsOf(w.subs[0], sha, n);
    assert w'.subs == [Trigged(w.subs[0], sha, w'.root)];
    OneEntry(w'.subs[0]);
  }

  lemma OneEntry(e: Entry<Sub>)
    ensures Ordered([e]) && ToMap([e]) == map[e.path := e.v]
  {
    assert [e][..0] == [];
  }

  lemma NothingDropped(calls: seq<Call>)
    ensures Dropped(calls, KeepAll()) == []
  {
  }

  // ----- a callback for removed children

  function OneChild(k: Key): Json {
    JObj([Member(k, JBool(true))])
  }

  /** The root has a child when a callback for removed children is registered there; then the child vanishes. */
  function RemovalActs(k: Key): seq<Act> {
    [Happen(EConnect), Happen(EHandshake), Register(Value, [], 0), Happen(EResult([], true)),
     PutPush([], OneChild(k), KeepAll()), Register(Removed, [], 1), PutPush([k], JNull, KeepAll())]
  }

  lemma OneChildValue(k: Key)
    ensures WellFormed(OneChild(k)) && FromJson(OneChild(k)) == VMap(map[k := VBool(true)])
  {
    var ms := [Member(k, JBool(true))];
    assert FromObj(ms, 0) == map[];
    assert FromObj(ms, 1) == map[k := VBool(true)];
  }

  /** A tree that stands for a map with one key has one child listed under it. */
  lemma ChildListed(sha: Sha, n: Node, k: Key)
    requires ValidNode(n) && Strip(n).VMap? && k in Strip(n).m
    ensures HashOf(Children(sha, n, []), k).Some? && Children(sha, n, []) != []
  {
    hide FreshHash;
    var t := n.kids;
    StripInAt(t, k);
    var i := LookupIndex(AvlTree.InOrder(t), k);
    HashListed(Children(sha, n, []), i);
  }

  lemma {:induction false} HashListed(a: seq<KidHash>, i: nat)
    requires i < |a|
    ensures HashOf(a, a[i].key).Some?
  {
    if a[0].key != a[i].key {
      HashListed(a[1..], i - 1);
    }
  }

  lemma NothingListed(sha: Sha, n: Node, p: Path)
    requires ValidNode(n) && (GetVal(Strip(n), p) == None || GetVal(Strip(n), p) == Some(VMap(map[])))
    ensures Children(sha, n, p) == []
  {
    hide FreshHash, Strip, ValidNode;
    GetNodeSpec(n, p);
    if GetNode(n, p).Some? {
      NoKidsListed(sha, GetNode(n, p).value);
    }
  }

  lemma NoKidsListed(sha: Sha, n: Node)
    requires ValidNode(n) && Strip(n) == VMap(map[])
    ensures n.Internal? && KidHashes(sha, AvlTree.InOrder(n.kids)) == []
  {
    hide FreshHash;
    assert n.kids.Node? ==> n.kids.data.key in StripIn(n.kids);
  }

  /** A registration where nothing is registered yet, or beside what is. */
  lemma AloneRegister(sha: Sha, w: World, kind: Kind, p: Path, h: Handle, w': World)
    requires Next(sha, w, Register(kind, p, h), w') && (ToMap(w.subs) == map[] || exists s :: Alone(w, p, s))
    ensures Alone(w', p, Joined(sha, w, kind, p, h)) && Strip(w'.root) == Strip(w.root)
  {
    hide Ordered, ToMap, Joined, Strip;
  }

  lemma HappenStep(sha: Sha, w: World, e: Event, w': World)
    requires Next(sha, w, Happen(e), w')
    ensures Allowed(w.s, e) && w' == w.(s := Step(w.s, e))
  {
    hide Ordered, ValidNode, Step;
  }

  lemma StartEmpty(w: World)
    requires IsStart(w)
    ensures ToMap(w.subs) == map[] && Strip(w.root) == VNull && w.s == Init()
  {
  }

  lemma RunShape(sha: Sha, acts: seq<Act>, ws: seq<World>)
    requires IsClientRun(sha, acts, ws)
    ensures |ws| == |acts| + 1 && IsStart(ws[0])
  {
  }

  /** Step by step through a run. */
  lemma StepOf(sha: Sha, acts: seq<Act>, ws: seq<World>, k: nat, a: Act)
    requires IsClientRun(sha, acts, ws) && k < |acts| && acts[k] == a
    ensures Next(sha, ws[k], a, ws[k + 1])
  {
    hide Next, IsStart;
  }

  lemma RemovalBegins(sha: Sha, k: Key, ws: seq<World>, s: Sub)
    requires IsClientRun(sha, RemovalActs(k), ws) && s == Joined(sha, ws[2], Value, [], 0)
    ensures Alone(ws[4], [], s) && SubAt(ToMap(ws[2].subs), []) == NewSub()
  {
    hide IsClientRun, Next, Joined, Strip, Ordered, ToMap, Step, IsStart, Alone, Allowed;
    var acts := RemovalActs(k);
    RunShape(sha, acts, ws);
    StepOf(sha, acts, ws, 0, Happen(EConnect));
    HappenStep(sha, ws[0], EConnect, ws[1]);
    StepOf(sha, acts, ws, 1, Happen(EHandshake));
    HappenStep(sha, ws[1], EHandshake, ws[2]);
    StartEmpty(ws[0]);
    StepOf(sha, acts, ws, 2, Register(Value, [], 0));
    AloneRegister(sha, ws[2], Value, [], 0, ws[3]);
    StepOf(sha, acts, ws, 3, Happen(EResult([], true)));
    HappenStep(sha, ws[3], EResult([], true), ws[4]);
    SameTable(ws[3], ws[4], [], s);
  }

  lemma SameTable(w: World, w': World, p: Path, s: Sub)
    requires Alone(w, p, s) && w'.subs == w.subs
    ensures Alone(w', p, s)
  {
  }

  /** The first registration at a path, for its value. */
  lemma JoinedFirst(sha: Sha, w: World, p: Path, h: Handle)
    requires SubAt(ToMap(w.subs), p) == NewSub()
    ensures var s := Joined(sha, w, Value, p, h);
            SameLists(s, Sub([], [], [], [h], "", [])) && s.kids == []
            && s.hash == if Announced(Strip(w.root), w.s, p) then HashBytes(sha, w.root, p) else NoHash()
  {
    hide ToMap, HashBytes, Children, Strip, Announced;
    assert [h] + [] == [h];
  }

  lemma RemovalPushed(sha: Sha, k: Key, ws: seq<World>) returns (s: Sub)
    requires IsClientRun(sha, RemovalActs(k), ws)
    ensures Alone(ws[5], [], s) && SameLists(s, Sub([], [], [], [0], "", [])) && s.kids == []
    ensures Strip(ws[5].root) == VMap(map[k := VBool(true)])
  {
    hide IsClientRun, Next, Joined, Strip, Ordered, ToMap, IsStart, Alone, HashBytes, Children, Pushed, FromJson;
    hide Announced, SubAt, NewSub;
    RunShape(sha, RemovalActs(k), ws);
    s := Joined(sha, ws[2], Value, [], 0);
    RemovalBegins(sha, k, ws, s);
    JoinedFirst(sha, ws[2], [], 0);
    StepOf(sha, RemovalActs(k), ws, 4, PutPush([], OneChild(k), KeepAll()));
    OneChildValue(k);
    PutStep(sha, ws[4], [], OneChild(k), ws[5]);
    AlonePush(sha, ws[4], [], KeepAll(), ws[5], [], s);
    s := TrigSub(s, Children(sha, ws[5].root, []), HashBytes(sha, ws[5].root, []));
  }

  lemma RemovalRegistered(sha: Sha, k: Key, ws: seq<World>) returns (s: Sub)
    requires IsClientRun(sha, RemovalActs(k), ws)
    ensures Alone(ws[6], [], s) && SameLists(s, Sub([], [1], [], [0], "", [])) && s.kids == []
    ensures Strip(ws[6].root) == VMap(map[k := VBool(true)])
  {
    hide IsClientRun, Next, Joined, Strip, Ordered, ToMap, IsStart, Alone;
    RunShape(sha, RemovalActs(k), ws);
    s := RemovalPushed(sha, k, ws);
    StepOf(sha, RemovalActs(k), ws, 5, Register(Removed, [], 1));
    AloneRegister(sha, ws[5], Removed, [], 1, ws[6]);
    JoinedRemoved(sha, ws[5], [], 1, s);
    s := s.(removed := [1] + s.removed);
  }

  /** The registration leaves nothing stored, and when the child vanishes the callback is not invoked. */
  lemma RemovalUnheard(sha: Sha, k: Key, ws: seq<World>)
    requires IsClientRun(sha, RemovalActs(k), ws)
    ensures !KidsMatched(ws[6].subs, sha, ws[6].root)
    ensures !NotifiesKids(NewCalls(ws[6], ws[7]), ws[6].subs, sha, ws[6].root, ws[7].root)
  {
    hide IsClientRun, Next, Joined, Strip, Ordered, ToMap, IsStart, Alone, Children, HashBytes, ValidNode, Pushed;
    hide Sound, Covered;
    RunShape(sha, RemovalActs(k), ws);
    RunSound(sha, RemovalActs(k), ws, 6);
    SoundTree(ws[6]);
    var s := RemovalRegistered(sha, k, ws);
    AloneTable(ws[6], [], s);
    ChildListed(sha, ws[6].root, k);
    StepOf(sha, RemovalActs(k), ws, 6, PutPush([k], JNull, KeepAll()));
    PutStep(sha, ws[6], [k], JNull, ws[7]);
    AlonePush(sha, ws[6], [k], KeepAll(), ws[7], [], s);
    NoChildLeft(k);
    NothingListed(sha, ws[7].root, []);
    var e := Ev(Removed, k, None);
    assert EvCalls(s, [], Diff([], [], None)) == [];
    Unchanged(s, HashBytes(sha, ws[7].root, []), e);
    assert Change([], Children(sha, ws[6].root, []), k) == Some(Removed);
    assert ws[6].subs[0] == Entry([], s);
    assert multiset(List(s, Removed))[1] == 1;
  }

  lemma SoundTree(w: World)
    requires Sound(w)
    ensures ValidNode(w.root)
  {
  }

  lemma NoChildLeft(k: Key)
    ensures GetVal(PutVal(VMap(map[k := VBool(true)]), [k], FromJson(JNull), false), []) == Some(VMap(map[]))
  {
  }

  /** A value call is no child call. */
  lemma Unchanged(s: Sub, h: string, e: Ev)
    requires e.kind == Removed
    ensures multiset(ValueCalls(s, [], h))[ChildCall(1, [], e)] == 0
  {
    ListCount(s.value, [], Value, None, None, ChildCall(1, [], e));
  }

  lemma PutStep(sha: Sha, w: World, p: Path, doc: Json, w': World)
    requires Next(sha, w, PutPush(p, doc, KeepAll()), w')
    ensures Pushed(sha, w, p, KeepAll(), w') && Strip(w'.root) == PutVal(Strip(w.root), p, FromJson(doc), false)
    ensures Ordered(w'.subs) && ValidNode(w'.root)
  {
  }

  lemma JoinedRemoved(sha: Sha, w: World, p: Path, h: Handle, s: Sub)
    requires Alone(w, p, s)
    ensures Joined(sha, w, Removed, p, h) == s.(removed := [h] + s.removed)
  {
    hide Ordered, ToMap, HashBytes, Children, Strip;
  }

  // ----- a value callback

  /** A value callback leaves its hash behind, because one for changed children stays; then the value vanishes, a
      new value callback comes, and the old value returns. */
  function ReturnActs(k: Key): seq<Act> {
    [Happen(EConnect), Happen(EHandshake), Register(Value, [k], 0), PutPush([k], JBool(true), KeepAll()),
     Register(Changed, [k], 1), Unregister([k], {Value}, None), PutPush([k], JNull, KeepAll()),
     Register(Value, [k], 2), PutPush([k], JBool(true), KeepAll())]
  }

  lemma ReturnConnected(sha: Sha, k: Key, ws: seq<World>)
    requires IsClientRun(sha, ReturnActs(k), ws)
    ensures ToMap(ws[2].subs) == map[] && Strip(ws[2].root) == VNull && ws[2].s.cnx.Connected? && ws[2].s.reg == map[]
  {
    hide IsClientRun, Next, Strip, Ordered, ToMap, IsStart;
    var acts := ReturnActs(k);
    RunShape(sha, acts, ws);
    StartEmpty(ws[0]);
    StepOf(sha, acts, ws, 0, Happen(EConnect));
    HappenStep(sha, ws[0], EConnect, ws[1]);
    StepOf(sha, acts, ws, 1, Happen(EHandshake));
    HappenStep(sha, ws[1], EHandshake, ws[2]);
  }

  /** Up to the first push: its hash is stored. */
  lemma ReturnStored(sha: Sha, k: Key, ws: seq<World>) returns (s: Sub)
    requires IsClientRun(sha, ReturnActs(k), ws)
    ensures Alone(ws[4], [k], s) && SameLists(s, Sub([], [], [], [0], "", [])) && s.kids == []
    ensures s.hash == FreshHash(sha, Bool(true))
    ensures Strip(ws[4].root) == VMap(map[k := VBool(true)]) && ws[4].s.cnx.Connected?
  {
    hide IsClientRun, Next, Joined, Strip, Ordered, ToMap, IsStart, Alone, HashBytes, Children, Pushed, ValidNode;
    hide Announced, SubAt, FreshHash, Watch;
    var acts := ReturnActs(k);
    RunShape(sha, acts, ws);
    ReturnConnected(sha, k, ws);
    s := Joined(sha, ws[2], Value, [k], 0);
    StepOf(sha, acts, ws, 2, Register(Value, [k], 0));
    AloneRegister(sha, ws[2], Value, [k], 0, ws[3]);
    RegisterCnx(sha, ws[2], Value, [k], 0, ws[3]);
    FirstSub(ws[2], [k]);
    JoinedFirst(sha, ws[2], [k], 0);
    StepOf(sha, acts, ws, 3, PutPush([k], JBool(true), KeepAll()));
    PutStep(sha, ws[3], [k], JBool(true), ws[4]);
    PushCnx(sha, ws[3], [k], ws[4]);
    AlonePush(sha, ws[3], [k], KeepAll(), ws[4], [k], s);
    s := TrigSub(s, Children(sha, ws[4].root, [k]), HashBytes(sha, ws[4].root, [k]));
    LeafHash(sha, ws[4].root, k);
  }

  lemma FirstSub(w: World, p: Path)
    requires ToMap(w.subs) == map[]
    ensures SubAt(ToMap(w.subs), p) == NewSub()
  {
  }

  lemma RegisterCnx(sha: Sha, w: World, kind: Kind, p: Path, h: Handle, w': World)
    requires Next(sha, w, Register(kind, p, h), w')
    ensures w'.s.cnx == w.s.cnx
  {
    hide Ordered, ToMap, ValidNode, Joined, Strip, Watch;
  }

  lemma PushCnx(sha: Sha, w: World, p: Path, w': World)
    requires Pushed(sha, w, p, KeepAll(), w')
    ensures w'.s == w.s
  {
  }

  lemma LeafHash(sha: Sha, n: Node, k: Key)
    requires ValidNode(n) && Strip(n) == VMap(map[k := VBool(true)])
    ensures HashBytes(sha, n, [k]) == FreshHash(sha, Bool(true))
    ensures Children(sha, n, [k]) == []
  {
    hide ValidNode, FreshHash;
    GetNodeSpec(n, [k]);
  }

  /** Up to the second value callback: the hash is still there. */
  lemma ReturnKept(sha: Sha, k: Key, ws: seq<World>) returns (s: Sub)
    requires IsClientRun(sha, ReturnActs(k), ws)
    ensures Alone(ws[6], [k], s) && SameLists(s, Sub([], [], [1], [], "", []))
    ensures s.hash == FreshHash(sha, Bool(true))
    ensures Strip(ws[6].root) == VMap(map[k := VBool(true)]) && ws[6].s.cnx.Connected?
  {
    hide IsClientRun, Next, Joined, Strip, Ordered, ToMap, IsStart, Alone, FreshHash, Watch, Sound, Covered;
    var acts := ReturnActs(k);
    RunShape(sha, acts, ws);
    s := ReturnStored(sha, k, ws);
    StepOf(sha, acts, ws, 4, Register(Changed, [k], 1));
    AloneRegister(sha, ws[4], Changed, [k], 1, ws[5]);
    RegisterCnx(sha, ws[4], Changed, [k], 1, ws[5]);
    JoinedChanged(sha, ws[4], [k], 1, s);
    s := s.(changed := [1] + s.changed);
    StepOf(sha, acts, ws, 5, Unregister([k], {Value}, None));
    RunSound(sha, acts, ws, 5);
    AloneUnregister(sha, ws[5], [k], ws[6], s);
    s := s.(value := []);
  }

  lemma JoinedChanged(sha: Sha, w: World, p: Path, h: Handle, s: Sub)
    requires Alone(w, p, s)
    ensures Joined(sha, w, Changed, p, h) == s.(changed := [h] + s.changed)
  {
    hide Ordered, ToMap, HashBytes, Children, Strip;
  }

  lemma AloneUnregister(sha: Sha, w: World, p: Path, w': World, s: Sub)
    requires Sound(w) && Alone(w, p, s) && Next(sha, w, Unregister(p, {Value}, None), w') && s.changed != []
    ensures Alone(w', p, s.(value := [])) && w'.root == w.root && w'.s.cnx == w.s.cnx
  {
    hide Ordered, ToMap, ValidNode, Strip, Unwatch, Sound, Unlinked;
    AlwaysAllowed(w, Unregister(p, {Value}, None));
    assert Pruned(s, {Value}, None) == s.(value := []);
    assert map[p := s][p := s.(value := [])] == map[p := s.(value := [])];
  }

  /** Up to the last push: the second value callback has not been told, and an old hash is stored. */
  lemma ReturnStale(sha: Sha, k: Key, ws: seq<World>) returns (s: Sub)
    requires IsClientRun(sha, ReturnActs(k), ws)
    ensures Alone(ws[8], [k], s) && s.value == [2]
    ensures s.hash == FreshHash(sha, Bool(true)) && HashBytes(sha, ws[8].root, [k]) == NoHash()
    ensures Strip(ws[8].root) == VMap(map[]) && ValidNode(ws[8].root)
  {
    hide IsClientRun, Next, Joined, Strip, Ordered, ToMap, IsStart, Alone, FreshHash, HashBytes, Children, Pushed;
    hide ValidNode, Watch, Sound, Covered, IsMasked;
    var acts := ReturnActs(k);
    RunShape(sha, acts, ws);
    s := ReturnKept(sha, k, ws);
    StepOf(sha, acts, ws, 6, PutPush([k], JNull, KeepAll()));
    PutStep(sha, ws[6], [k], JNull, ws[7]);
    PushCnx(sha, ws[6], [k], ws[7]);
    NoChildLeft(k);
    AlonePush(sha, ws[6], [k], KeepAll(), ws[7], [k], s);
    s := TrigSub(s, Children(sha, ws[7].root, [k]), HashBytes(sha, ws[7].root, [k]));
    StepOf(sha, acts, ws, 7, Register(Value, [k], 2));
    AloneRegister(sha, ws[7], Value, [k], 2, ws[8]);
    RunSound(sha, acts, ws, 7);
    RunSound(sha, acts, ws, 8);
    SoundTree(ws[8]);
    NotMasked(ws[7], k, s);
    JoinedSilent(sha, ws[7], [k], 2, s);
    s := s.(value := [2] + s.value);
    NoHashWithout(sha, ws[8].root, [k]);
  }

  /** With one subscription there is one listen, and nothing above it. */
  lemma NotMasked(w: World, k: Key, s: Sub)
    requires Sound(w) && Alone(w, [k], s)
    ensures !IsMasked(w.s.reg, [k])
  {
    hide Ordered, ToMap, ValidNode, KidsSorted, Handles, QueueOk;
    var p, r := [k], w.s.reg;
    assert r.Keys == map[p := s].Keys;
    forall n | 0 <= n < |p| ensures p[..n] !in r {
      assert p[..n] != p;
      assert p[..n] !in r.Keys;
    }
  }

  lemma JoinedSilent(sha: Sha, w: World, p: Path, h: Handle, s: Sub)
    requires Alone(w, p, s) && !Announced(Strip(w.root), w.s, p)
    ensures Joined(sha, w, Value, p, h) == s.(value := [h] + s.value)
  {
    hide Ordered, ToMap, HashBytes, Children, Strip, Announced;
  }

  /** If the hash of the value is not the empty one, the return of the value is not notified. */
  lemma ReturnUnheard(sha: Sha, k: Key, ws: seq<World>)
    requires IsClientRun(sha, ReturnActs(k), ws) && FreshHash(sha, Bool(true)) != NoHash()
    ensures !Matched(ws[8].subs, sha, ws[8].root)
    ensures !NotifiesExactly(NewCalls(ws[8], ws[9]), ws[8].subs, sha, ws[8].root, ws[9].root)
  {
    hide IsClientRun, Next, Strip, Ordered, ToMap, IsStart, Alone, FreshHash, HashBytes, Children, Pushed, ValidNode;
    var acts := ReturnActs(k);
    RunShape(sha, acts, ws);
    var s := ReturnStale(sha, k, ws);
    AloneTable(ws[8], [k], s);
    StepOf(sha, acts, ws, 8, PutPush([k], JBool(true), KeepAll()));
    PutStep(sha, ws[8], [k], JBool(true), ws[9]);
    AlonePush(sha, ws[8], [k], KeepAll(), ws[9], [k], s);
    LeafHash(sha, ws[9].root, k);
    var a, c := Children(sha, ws[9].root, [k]), ValueCall(2, [k]);
    DiffNeverValue(a, s.kids, None);
    EvCount(s, [k], Diff(a, s.kids, None), c);
    assert ws[8].subs[0] == Entry([k], s);
    assert multiset(s.value)[2] == 1;
    assert multiset(NewCalls(ws[8], ws[9]))[c] == 0;
  }

  // ----- the client takes both runs

  lemma RunExtends(sha: Sha, acts: seq<Act>, ws: seq<World>, a: Act, w: World)
    requires IsClientRun(sha, acts, ws) && Next(sha, ws[|acts|], a, w)
    ensures IsClientRun(sha, acts + [a], ws + [w])
  {
    hide Next, IsStart;
  }

  /** A handle that no act has registered can be. */
  lemma CanRegister(sha: Sha, acts: seq<Act>, ws: seq<World>, kind: Kind, p: Path, h: Handle)
    requires IsClientRun(sha, acts, ws) && ws[|acts|].queue == []
    requires forall j :: 0 <= j < |acts| && acts[j].Register? ==> acts[j].h != h
    ensures Can(ws[|acts|], Register(kind, p, h))
  {
    hide Next, IsStart, ToMap, Count;
    if Present(ws[|acts|], p, h) {
      RunPresent(sha, acts, ws, |acts|, p, h);
    }
  }

  lemma QueueStaysEmpty(sha: Sha, w: World, a: Act, w': World)
    requires Next(sha, w, a, w') && w.queue == [] && !a.MergePush? && (a.PutPush? ==> a.answers == KeepAll())
    ensures w'.queue == [] && (a.Register? ==> a.p in w'.s.reg)
  {
    hide Ordered, ToMap, ValidNode, Joined, Strip, Without, Dispatched;
    NothingDropped(NewCalls(w, w'));
  }

  lemma KeepAllAsksOnce(calls: seq<Call>)
    ensures AsksOnce(calls, KeepAll())
  {
  }

  /** A client together with the run it has taken so far. */
  class Driver {
    const c: OnApi.Client
    ghost const sha: Sha
    ghost var acts: seq<Act>
    ghost var ws: seq<World>
    ghost var used: set<Handle>

    ghost predicate Valid()
      reads this, c, c.reg, c.listens, c.cache
    {
      && c.Valid() && c.cache.sha == sha && c.reg.queue == []
      && IsClientRun(sha, acts, ws) && ws[|acts|] == c.State()
      && forall j :: 0 <= j < |acts| && acts[j].Register? ==> acts[j].h in used
    }

    constructor (h: Sha)
      ensures Valid() && acts == [] && used == {} && sha == h
      ensures fresh(c) && fresh(c.reg) && fresh(c.listens) && fresh(c.cache)
    {
      c := new OnApi.Client(h);
      sha := h;
      acts, used := [], {};
      new;
      ws := [c.State()];
    }

    lemma IsRun()
      requires Valid()
      ensures IsClientRun(sha, acts, ws)
    {
    }

    ghost method Took(a: Act)
      requires IsClientRun(sha, acts, ws) && Next(sha, ws[|acts|], a, c.State()) && c.Valid() && c.cache.sha == sha
      requires ws[|acts|].queue == [] && !a.MergePush? && (a.PutPush? ==> a.answers == KeepAll())
      requires forall j :: 0 <= j < |acts| && acts[j].Register? ==> acts[j].h in used
      modifies this`acts, this`ws, this`used
      ensures Valid() && acts == old(acts) + [a] && (a.Register? ==> a.p in c.listens.Abs().reg)
      ensures used == old(used) + if a.Register? then {a.h} else {}
    {
      hide Next;
      QueueStaysEmpty(sha, ws[|acts|], a, c.State());
      RunExtends(sha, acts, ws, a, c.State());
      acts, ws := acts + [a], ws + [c.State()];
      used := used + if a.Register? then {a.h} else {};
    }

    method Happens(e: Event)
      requires Valid() && !e.EWatch? && !e.EUnwatch? && (e.EResult? ==> e.p in c.listens.Abs().reg)
      modifies this, c.listens
      ensures Valid() && acts == old(acts) + [Happen(e)] && used == old(used)
    {
      hide Next, IsClientRun;
      c.Network(e);
      Took(Happen(e));
    }

    method Registers(kind: Kind, p: Path, h: Handle)
      requires Valid() && h !in used
      modifies this, c.reg, c.listens, c.cache
      ensures Valid() && acts == old(acts) + [Register(kind, p, h)] && used == old(used) + {h}
      ensures p in c.listens.Abs().reg
    {
      hide Next, IsClientRun;
      CanRegister(sha, acts, ws, kind, p, h);
      c.On(kind, p, h);
      Took(Register(kind, p, h));
    }

    method Unregisters(p: Path, mask: set<Kind>, h: Option<Handle>)
      requires Valid()
      modifies this, c.reg, c.listens
      ensures Valid() && acts == old(acts) + [Unregister(p, mask, h)] && used == old(used)
    {
      hide Next, IsClientRun;
      c.Off(p, mask, h);
      Took(Unregister(p, mask, h));
    }

    method Receives(p: Path, doc: Json)
      requires Valid() && WellFormed(doc)
      modifies this, c.reg, c.cache
      ensures Valid() && acts == old(acts) + [PutPush(p, doc, KeepAll())] && used == old(used)
    {
      hide Next, IsClientRun, AsksOnce;
      ghost var w := c.State();
      c.ReceivePut(p, doc, KeepAll());
      KeepAllAsksOnce(NewCalls(w, c.State()));
      Took(PutPush(p, doc, KeepAll()));
    }
  }

  lemma RemovalList(k: Key)
    ensures RemovalActs(k) ==
            [] + [Happen(EConnect)] + [Happen(EHandshake)] + [Register(Value, [], 0)] + [Happen(EResult([], true))]
            + [PutPush([], OneChild(k), KeepAll())] + [Register(Removed, [], 1)] + [PutPush([k], JNull, KeepAll())]
  {
  }

  lemma ReturnList(k: Key)
    ensures ReturnActs(k) ==
            [] + [Happen(EConnect)] + [Happen(EHandshake)] + [Register(Value, [k], 0)]
            + [PutPush([k], JBool(true), KeepAll())] + [Register(Changed, [k], 1)]
            + [Unregister([k], {Value}, None)] + [PutPush([k], JNull, KeepAll())] + [Register(Value, [k], 2)]
            + [PutPush([k], JBool(true), KeepAll())]
  {
  }

  /** A client that takes the first run. */
  method DriveRemoval(sha: Sha, k: Key) returns (ghost ws: seq<World>)
    ensures IsClientRun(sha, RemovalActs(k), ws)
    ensures !NotifiesKids(NewCalls(ws[6], ws[7]), ws[6].subs, sha, ws[6].root, ws[7].root)
  {
    RemovalList(k);
    assert WellFormed(JNull);
    hide *;
    var d := new Driver(sha);
    d.Happens(EConnect);
    d.Happens(EHandshake);
    DriveChild(d, k);
    d.Registers(Removed, [], 1);
    d.Receives([k], JNull);
    ws := d.ws;
    d.IsRun();
    RemovalUnheard(sha, k, ws);
  }

  /** The acts that give the root a child. */
  method DriveChild(d: Driver, k: Key)
    requires d.Valid() && d.used == {}
    modifies d, d.c.reg, d.c.listens, d.c.cache
    ensures d.Valid() && d.used == {0}
    ensures d.acts == old(d.acts) + [Register(Value, [], 0)] + [Happen(EResult([], true))]
                      + [PutPush([], OneChild(k), KeepAll())]
  {
    OneChildValue(k);
    hide *;
    d.Registers(Value, [], 0);
    d.Happens(EResult([], true));
    d.Receives([], OneChild(k));
  }

  /** And one that takes the second. */
  method DriveReturn(sha: Sha, k: Key) returns (ghost ws: seq<World>)
    requires FreshHash(sha, Bool(true)) != NoHash()
    ensures IsClientRun(sha, ReturnActs(k), ws)
    ensures !NotifiesExactly(NewCalls(ws[8], ws[9]), ws[8].subs, sha, ws[8].root, ws[9].root)
  {
    ReturnList(k);
    assert WellFormed(JNull) && WellFormed(JBool(true));
    hide *;
    var d := new Driver(sha);
    d.Happens(EConnect);
    d.Happens(EHandshake);
    DriveStored(d, k);
    d.Receives([k], JNull);
    d.Registers(Value, [k], 2);
    d.Receives([k], JBool(true));
    ws := d.ws;
    d.IsRun();
    ReturnUnheard(sha, k, ws);
  }

  /** The acts that leave a hash behind. */
  method DriveStored(d: Driver, k: Key)
    requires d.Valid() && d.used == {}
    modifies d, d.c.reg, d.c.listens, d.c.cache
    ensures d.Valid() && d.used == {0, 1}
    ensures d.acts == old(d.acts) + [Register(Value, [k], 0)] + [PutPush([k], JBool(true), KeepAll())]
                      + [Register(Changed, [k], 1)] + [Unregister([k], {Value}, None)]
  {
    assert WellFormed(JBool(true));
    hide *;
    d.Registers(Value, [k], 0);
    d.Receives([k], JBool(true));
    d.Registers(Changed, [k], 1);
    d.Unregisters([k], {Value}, None);
  }
}
