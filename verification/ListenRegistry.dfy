/** lib/datasync/listen/listen_registry.c: the registry as the ordered table it is, updated in place
    by scans that start at a path and stop at the first entry that does not extend it. Every method
    is proved to take the step of the same name in `ListenModel`. */
module ListenRegistry {
  import opened Keys
  import opened Paths
  import opened PathTable
  import opened ListenModel

  /** What crosses the wire on the current connection; `Refused` is the server's negative answer. */
  datatype Frame = Listen(p: Path) | Unlisten(p: Path) | Refused(p: Path)

  function After(held: set<Path>, f: Frame): set<Path> {
    if f.Listen? then held + {f.p} else held - {f.p}
  }

  /** The listens the server holds after these frames. */
  function Held(w: seq<Frame>): set<Path> {
    if w == [] then {} else After(Held(w[..|w| - 1]), w[|w| - 1])
  }

  lemma HeldSend(w: seq<Frame>, f: Frame)
    ensures Held(w + [f]) == After(Held(w), f)
  {
    assert (w + [f])[..|w|] == w;
  }

  class Listens {
    var cnx: Cnx
    var items: seq<Entry<Item>>
    var wire: seq<Frame>

    ghost predicate Valid()
      reads this
    {
      Ordered(items)
    }

    ghost function Abs(): Session
      reads this
    {
      Session(cnx, ToMap(items), Held(wire))
    }

    constructor ()
      ensures Valid() && Abs() == Init()
    {
      cnx, items, wire := Disconnected, [], [];
    }

    /** `wc_datasync_send_msg`: frames leave in the connected state only. */
    method Send(f: Frame)
      modifies this`wire
      ensures wire == if cnx.Connected? then old(wire) + [f] else old(wire)
      ensures Held(wire) == if cnx.Connected? then After(old(Held(wire)), f) else old(Held(wire))
    {
      if cnx.Connected? {
        HeldSend(wire, f);
        wire := wire + [f];
      }
    }

    /** `is_masked`, also `wc_is_listening`. */
    method CheckMasked(p: Path) returns (masked: bool)
      requires Valid()
      ensures masked <==> IsMasked(ToMap(items), p)
    {
      var n := 0;
      while n < |p|
        invariant n <= |p|
        invariant forall j :: 0 <= j < n ==> !(p[..j] in ToMap(items) && Live(ToMap(items)[p[..j]]))
      {
        FindSpec(items, p[..n]);
        var k := Find(items, p[..n]);
        if k.Some? && Live(items[k.value].v) {
          assert p[..n] in ToMap(items) && Live(ToMap(items)[p[..n]]);
          return true;
        }
        n := n + 1;
      }
      return false;
    }

    method SetItem(k: nat, i: Item)
      requires Valid() && k < |items|
      modifies this`items
      ensures Valid() && items == old(items)[k := Entry(old(items)[k].path, i)]
      ensures ToMap(items) == old(ToMap(items))[items[k].path := i]
    {
      ToMapUpdate(items, k, i);
      items := items[k := Entry(items[k].path, i)];
    }

    /** `listen_registry_add_ex`; returns the position of the item. */
    method AddItem(p: Path) returns (k: nat)
      requires Valid()
      modifies this`items
      ensures Valid() && ToMap(items) == Add(old(ToMap(items)), p)
      ensures k < |items| && items[k].path == p && items[k].v == ToMap(items)[p]
    {
      FindSpec(items, p);
      var at := Find(items, p);
      if at.Some? {
        k := at.value;
        SetItem(k, items[k].v.(ref := items[k].v.ref + 1));
      } else {
        var masked := CheckMasked(p);
        k := LowerBound(items, p);
        var e := Entry(p, Item(if masked then Masked else Required, 1));
        InsertSpec(items, e);
        items := items[..k] + [e] + items[k..];
      }
    }

    /** The body of the masking loop. */
    method MaskEntry(i: nat)
      requires i < |items|
      modifies this`items, this`wire
      ensures items == old(items)[i := Entry(old(items)[i].path,
                         if Live(old(items)[i].v) then old(items)[i].v.(status := Masked) else old(items)[i].v)]
      ensures Held(wire) == if cnx.Connected? then old(Held(wire)) - ActiveAt(old(items), i) else old(Held(wire))
    {
      var it := items[i].v;
      if it.status.Active? {
        items := items[i := Entry(items[i].path, it.(status := Masked))];
        Send(Unlisten(items[i].path));
      } else if it.status.Pending? || it.status.Required? {
        items := items[i := Entry(items[i].path, it.(status := Masked))];
      }
    }

    /** The masking loop: from the entry after `p` to the last that extends it. */
    method MaskScan(p: Path, lo: nat) returns (i: nat)
      requires Valid() && lo < |items| && items[lo].path == p
      modifies this`items, this`wire
      ensures lo < i <= |items| == |old(items)|
      ensures forall k :: 0 <= k < |items| ==>
                items[k] == if lo < k < i then Entry(old(items)[k].path,
                                                          MaskItem(p, old(items)[k].path, old(items)[k].v))
                            else old(items)[k]
      ensures forall k :: lo <= k < i ==> p <= old(items)[k].path
      ensures i == |items| || !(p <= old(items)[i].path)
      ensures Held(wire) == if cnx.Connected? then old(Held(wire)) - ActiveIn(old(items), lo + 1, i)
                              else old(Held(wire))
    {
      ghost var t := items;
      i := lo + 1;
      assert ActiveIn(t, lo + 1, i) == {};
      hide ToMap, Ordered, Held, ActiveIn, ActiveAt;
      while i < |items| && p <= items[i].path
        invariant lo < i <= |items| == |t|
        invariant forall k :: 0 <= k < |t| ==>
                    items[k] == if lo < k < i then Entry(t[k].path, MaskItem(p, t[k].path, t[k].v)) else t[k]
        invariant forall k :: lo <= k < i ==> p <= t[k].path
        invariant Held(wire) == if cnx.Connected? then old(Held(wire)) - ActiveIn(t, lo + 1, i) else old(Held(wire))
      {
        Distinct(t, lo, i);
        ActiveStep(t, lo + 1, i);
        MaskEntry(i);
        i := i + 1;
      }
    }

    /** `mask_listen_request`. */
    method MaskRequests(p: Path)
      requires Valid() && p in ToMap(items)
      modifies this`items, this`wire
      ensures Valid() && ToMap(items) == MaskBelow(old(ToMap(items)), p)
      ensures Held(wire) == if cnx.Connected? then old(Held(wire)) - ActiveBelow(old(ToMap(items)), p)
                            else old(Held(wire))
    {
      hide ToMap, Ordered, Held, MaskBelow, ActiveBelow, ActiveIn, LowerBound;
      ghost var t := items;
      FindSpec(t, p);
      var lo := LowerBound(items, p);
      var i := MaskScan(p, lo);
      MaskedAll(t, items, p, lo, i);
      DroppedAll(t, p, lo, i);
    }

    /** Opens the listen of entry `i`. */
    method OpenEntry(i: nat)
      requires i < |items|
      modifies this`items, this`wire
      ensures items == old(items)[i := Entry(old(items)[i].path, old(items)[i].v.(status := Opened(cnx)))]
      ensures Held(wire) == if cnx.Connected? then old(Held(wire)) + {items[i].path} else old(Held(wire))
    {
      if cnx.Connected? {
        items := items[i := Entry(items[i].path, items[i].v.(status := Pending))];
        Send(Listen(items[i].path));
      } else {
        items := items[i := Entry(items[i].path, items[i].v.(status := Required))];
      }
    }

    /** `unmask_listen_request`. */
    method UnmaskRequests(p: Path)
      requires Valid()
      modifies this`items, this`wire
      ensures Valid() && ToMap(items) == UnmaskBelow(cnx, old(ToMap(items)), p)
      ensures Held(wire) == if cnx.Connected? then old(Held(wire)) + Reopened(old(ToMap(items)), p)
                            else old(Held(wire))
    {
      hide Topmost, ToMap, Ordered, Held, Reopened, UnmaskBelow, LowerBound;
      ghost var t := items;
      var top: Option<Path> := None;
      var lo := LowerBound(items, p);
      var i := lo;
      assert LastTop(t, p, lo, i, top);
      hide LastTop;
      while i < |items| && p <= items[i].path
        invariant lo <= i <= |items| == |t|
        invariant forall k :: 0 <= k < |t| ==>
                    items[k] == if lo <= k < i then Entry(t[k].path, Reopen(cnx, t, p, k)) else t[k]
        invariant forall k :: lo <= k < i ==> p <= t[k].path
        invariant LastTop(t, p, lo, i, top)
        invariant Held(wire) == if cnx.Connected? then old(Held(wire)) + TopsIn(t, p, lo, i) else old(Held(wire))
      {
        TopmostStep(t, p, lo, i, top);
        if top.Some? && top.value <= items[i].path {
        } else if items[i].v.status.Masked? {
          top := Some(items[i].path);
          OpenEntry(i);
        }
        i := i + 1;
      }
      ReopenedAll(cnx, t, items, p, lo, i);
      OpenedAll(t, p, lo, i);
    }

    /** `wc_datasync_watch`. */
    method WatchPath(p: Path)
      requires Valid()
      modifies this`items, this`wire
      ensures Valid() && Abs() == Step(old(Abs()), EWatch(p))
    {
      var k := AddItem(p);
      ghost var r1 := ToMap(items);
      var st := items[k].v.status;
      if st.Required? || st.Failed? {
        if cnx.Connected? {
          SetItem(k, items[k].v.(status := Pending));
          Send(Listen(p));
        } else {
          SetItem(k, items[k].v.(status := Required));
        }
        assert ActiveBelow(ToMap(items), p) == ActiveBelow(r1, p);
        MaskRequests(p);
        assert p !in ActiveBelow(r1, p);
      }
    }

    /** `listen_registry_unref` and `wc_datasync_unwatch_ex`. */
    method UnwatchPath(p: Path, n: nat)
      requires Valid() && (p in ToMap(items) ==> ToMap(items)[p].ref >= n)
      modifies this`items, this`wire
      ensures Valid() && Abs() == Step(old(Abs()), EUnwatch(p, n))
    {
      hide ToMap, Ordered, Topmost, Held;
      FindSpec(items, p);
      var at := Find(items, p);
      if at.Some? {
        var k := at.value;
        if items[k].v.ref - n > 0 {
          SetItem(k, items[k].v.(ref := items[k].v.ref - n));
        } else {
          ToMapRemove(items, k);
          items := items[..k] + items[k + 1..];
          Send(Unlisten(p));
          UnmaskRequests(p);
        }
      }
    }

    /** `on_listen_result` for a registered item. */
    method ListenResult(p: Path, ok: bool)
      requires Valid() && Allowed(Abs(), EResult(p, ok))
      modifies this`items, this`wire
      ensures Valid() && Abs() == Step(old(Abs()), EResult(p, ok))
    {
      FindSpec(items, p);
      var k := Find(items, p).value;
      SetItem(k, items[k].v.(status := if ok then Active else Failed));
      if !ok {
        HeldSend(wire, Refused(p));
        wire := wire + [Refused(p)];
      }
    }

    /** `wc_listen_suspend_all`. */
    method SuspendAll()
      requires Valid()
      modifies this`items
      ensures Valid() && ToMap(items) == Suspend(old(ToMap(items)))
    {
      ghost var t := items;
      var i := 0;
      while i < |items|
        invariant 0 <= i <= |items| == |t|
        invariant forall k :: 0 <= k < |t| ==> items[k] == if k < i then Entry(t[k].path, SuspendItem(t[k].v)) else t[k]
      {
        if items[i].v.status.Active? || items[i].v.status.Pending? {
          items := items[i := Entry(items[i].path, items[i].v.(status := Required))];
        }
        i := i + 1;
      }
      ToMapPointwise(t, items, (q: Path, v: Item) => SuspendItem(v));
    }

    /** `wc_listen_resume_all`, called in the connected state. */
    method ResumeAll()
      requires Valid() && cnx.Connected?
      modifies this`items, this`wire
      ensures Valid() && ToMap(items) == Resume(old(ToMap(items)))
      ensures Held(wire) == old(Held(wire)) + Waiting(ToMap(items))
    {
      hide ToMap, Ordered, Held;
      ghost var t := items;
      var i := 0;
      while i < |items|
        invariant 0 <= i <= |items| == |t|
        invariant forall k :: 0 <= k < |t| ==> items[k] == if k < i then Entry(t[k].path, ResumeItem(t[k].v)) else t[k]
        invariant Held(wire) == old(Held(wire)) + WaitingIn(t, i)
      {
        if items[i].v.status.Required? || items[i].v.status.Pending? {
          OpenEntry(i);
        }
        i := i + 1;
      }
      ToMapPointwise(t, items, (q: Path, v: Item) => ResumeItem(v));
      WaitingAll(t, items);
    }

    // ----- the connection handlers of lib/datasync/datasync.c

    /** `_wc_datasync_connect`. */
    method Connect()
      requires Valid()
      modifies this`cnx
      ensures Valid() && Abs() == Step(old(Abs()), EConnect)
    {
      if cnx.Disconnected? {
        cnx := Connecting;
      }
    }

    /** A handshake message; nothing is read any more while disconnecting. */
    method Handshake()
      requires Valid()
      modifies this
      ensures Valid() && Abs() == Step(old(Abs()), EHandshake)
    {
      if !cnx.Disconnecting? {
        cnx := Connected;
        ResumeAll();
      }
    }

    /** `wc_datasync_close_cnx`. */
    method Close()
      requires Valid()
      modifies this`cnx
      ensures Valid() && Abs() == Step(old(Abs()), EClose)
    {
      if cnx.Connected? || cnx.Connecting? {
        cnx := Disconnecting;
      }
    }

    /** The connection is closed or failed. */
    method Closed()
      requires Valid()
      modifies this
      ensures Valid() && Abs() == Step(old(Abs()), EClosed)
    {
      cnx := Disconnected;
      wire := [];
      SuspendAll();
    }
  }

  /** The value `UnmaskBelow` gives to entry `k`. */
  ghost function Reopen(c: Cnx, t: seq<Entry<Item>>, p: Path, k: nat): Item
    requires k < |t|
  {
    if Topmost(ToMap(t), p, t[k].path) then t[k].v.(status := Opened(c)) else t[k].v
  }

  /** `top` is the last topmost path met so far, and covers every masked entry met after it. */
  ghost predicate LastTop(t: seq<Entry<Item>>, p: Path, lo: nat, i: nat, top: Option<Path>)
    requires i <= |t|
  {
    match top
    case None => forall k :: lo <= k < i ==> !t[k].v.status.Masked?
    case Some(tp) => exists m :: lo <= m < i && TopAt(t, p, i, tp, m)
  }

  /** `tp` is the topmost path at position `m`, and no masked entry from there to `i` lies outside it. */
  ghost predicate TopAt(t: seq<Entry<Item>>, p: Path, i: nat, tp: Path, m: nat)
    requires m < i <= |t|
  {
    && t[m].path == tp && Topmost(ToMap(t), p, tp)
    && forall k :: m < k < i && t[k].v.status.Masked? ==> Strict(tp, t[k].path)
  }

  /** The code's test against the last top path decides topmost among all entries. */
  lemma TopmostStep(t: seq<Entry<Item>>, p: Path, lo: nat, i: nat, top: Option<Path>)
    requires Ordered(t) && lo == LowerBound(t, p) <= i < |t|
    requires forall k :: lo <= k <= i ==> p <= t[k].path
    requires LastTop(t, p, lo, i, top)
    ensures var yes := t[i].v.status.Masked? && !(top.Some? && top.value <= t[i].path);
            && (Topmost(ToMap(t), p, t[i].path) <==> yes)
            && LastTop(t, p, lo, i + 1, if yes then Some(t[i].path) else top)
  {
    ToMapAt(t, i);
    if Topmost(ToMap(t), p, t[i].path) {
      NotMaskedNotTop(t, p, i);
    }
    hide ToMap, Ordered, Topmost;
    match top {
      case None =>
        if t[i].v.status.Masked? {
          FirstTop(t, p, lo, i);
          assert TopAt(t, p, i + 1, t[i].path, i);
        }
      case Some(tp) =>
        var m :| lo <= m < i && TopAt(t, p, i, tp, m);
        NextTop(t, p, lo, i, m);
        if t[i].v.status.Masked? && !(tp <= t[i].path) {
          assert TopAt(t, p, i + 1, t[i].path, i);
        } else {
          assert TopAt(t, p, i + 1, tp, m);
        }
    }
  }

  lemma NotMaskedNotTop(t: seq<Entry<Item>>, p: Path, i: nat)
    requires Ordered(t) && i < |t| && Topmost(ToMap(t), p, t[i].path)
    ensures t[i].v.status.Masked?
  {
    ToMapAt(t, i);
  }

  lemma FirstTop(t: seq<Entry<Item>>, p: Path, lo: nat, i: nat)
    requires Ordered(t) && lo == LowerBound(t, p) <= i < |t| && p <= t[i].path && t[i].v.status.Masked?
    requires forall k :: lo <= k < i ==> !t[k].v.status.Masked?
    ensures Topmost(ToMap(t), p, t[i].path)
  {
    hide ToMap, Ordered;
    ToMapAt(t, i);
    var u := TopmostExists(ToMap(t), p, t[i].path);
    var k := ToMapIndex(t, u);
    TopIndex(t, p, i, k);
  }

  lemma NextTop(t: seq<Entry<Item>>, p: Path, lo: nat, i: nat, m: nat)
    requires Ordered(t) && lo == LowerBound(t, p) <= m < i < |t| && p <= t[i].path
    requires Topmost(ToMap(t), p, t[m].path)
    requires forall k :: m < k < i && t[k].v.status.Masked? ==> Strict(t[m].path, t[k].path)
    ensures Topmost(ToMap(t), p, t[i].path) <==> t[i].v.status.Masked? && !(t[m].path <= t[i].path)
    ensures t[m].path <= t[i].path ==> Strict(t[m].path, t[i].path)
  {
    hide ToMap, Ordered;
    Distinct(t, m, i);
    ToMapAt(t, i);
    if t[i].v.status.Masked? && !(t[m].path <= t[i].path) {
      var u := TopmostExists(ToMap(t), p, t[i].path);
      TopIsLast(t, p, lo, i, m, u);
    }
  }

  /** A path at or above `t[i].path` and below `p` stands at a position between the two. */
  lemma TopIndex(t: seq<Entry<Item>>, p: Path, i: nat, k: nat)
    requires Ordered(t) && i < |t| && k < |t| && p <= t[k].path <= t[i].path
    ensures LowerBound(t, p) <= k <= i
  {
    LowerBoundSplits(t, p, k);
    PrefixFirst(p, t[k].path);
    PathCmpAntisymmetric(p, t[k].path);
    PrefixFirst(t[k].path, t[i].path);
    if i < k {
      assert Before(t[i].path, t[k].path);
      PathCmpAntisymmetric(t[i].path, t[k].path);
      assert false;
    }
  }

  lemma TopIsLast(t: seq<Entry<Item>>, p: Path, lo: nat, i: nat, m: nat, u: Path)
    requires Ordered(t) && lo == LowerBound(t, p) <= m < i < |t|
    requires Topmost(ToMap(t), p, t[m].path) && !(t[m].path <= t[i].path)
    requires forall k :: m < k < i && t[k].v.status.Masked? ==> Strict(t[m].path, t[k].path)
    requires Topmost(ToMap(t), p, u) && u <= t[i].path
    ensures u == t[i].path
  {
    var k := ToMapIndex(t, u);
    TopIndex(t, p, i, k);
    if k < m {
      assert Before(t[k].path, t[m].path) && Before(t[m].path, t[i].path);
      ExtensionsContiguous(u, t[m].path, t[i].path);
      Distinct(t, k, m);
    }
  }

  lemma ReopenedAll(c: Cnx, t: seq<Entry<Item>>, u: seq<Entry<Item>>, p: Path, lo: nat, i: nat)
    requires Ordered(t) && |u| == |t| && lo == LowerBound(t, p) <= i <= |t|
    requires forall k :: 0 <= k < |t| ==>
               u[k] == if lo <= k < i then Entry(t[k].path, Reopen(c, t, p, k)) else t[k]
    requires forall k :: lo <= k < i ==> p <= t[k].path
    requires i == |t| || !(p <= t[i].path)
    ensures Ordered(u) && ToMap(u) == UnmaskBelow(c, ToMap(t), p)
  {
    var r := UnmaskBelow(c, ToMap(t), p);
    forall k | 0 <= k < |u| ensures u[k].path == t[k].path && u[k].path in r && r[u[k].path] == u[k].v {
      ScanStops(t, p, i, k);
      ToMapAt(t, k);
    }
    forall q | q in r ensures exists k :: 0 <= k < |u| && u[k].path == q {
      var k := ToMapIndex(t, q);
      assert u[k].path == q;
    }
    ToMapUnique(u, r);
  }

  ghost function TopsIn(t: seq<Entry<Item>>, p: Path, lo: nat, i: nat): set<Path>
    requires i <= |t|
  {
    if i <= lo then {}
    else TopsIn(t, p, lo, i - 1) + if Topmost(ToMap(t), p, t[i - 1].path) then {t[i - 1].path} else {}
  }

  lemma {:induction false} TopsInSpec(t: seq<Entry<Item>>, p: Path, lo: nat, i: nat, q: Path)
    requires i <= |t|
    ensures q in TopsIn(t, p, lo, i) <==> Topmost(ToMap(t), p, q) && exists k :: lo <= k < i && t[k].path == q
  {
    hide Topmost;
    if lo < i {
      TopsInSpec(t, p, lo, i - 1, q);
    }
  }

  lemma OpenedAll(t: seq<Entry<Item>>, p: Path, lo: nat, i: nat)
    requires Ordered(t) && lo == LowerBound(t, p) <= i <= |t|
    requires forall k :: lo <= k < i ==> p <= t[k].path
    requires i == |t| || !(p <= t[i].path)
    ensures TopsIn(t, p, lo, i) == Reopened(ToMap(t), p)
  {
    hide Ordered, ToMap, TopsIn, LowerBound;
    forall q ensures q in TopsIn(t, p, lo, i) <==> q in Reopened(ToMap(t), p) {
      TopsInSpec(t, p, lo, i, q);
      if q in Reopened(ToMap(t), p) {
        var k := ToMapIndex(t, q);
        ScanStops(t, p, i, k);
      }
    }
  }

  ghost function WaitingIn(t: seq<Entry<Item>>, i: nat): set<Path>
    requires i <= |t|
  {
    if i == 0 then {}
    else WaitingIn(t, i - 1) + if ResumeItem(t[i - 1].v).status.Pending? then {t[i - 1].path} else {}
  }

  lemma {:induction false} WaitingInSpec(t: seq<Entry<Item>>, i: nat, q: Path)
    requires i <= |t|
    ensures q in WaitingIn(t, i) <==> exists k :: 0 <= k < i && ResumeItem(t[k].v).status.Pending? && t[k].path == q
  {
    if 0 < i {
      WaitingInSpec(t, i - 1, q);
    }
  }

  lemma WaitingAll(t: seq<Entry<Item>>, u: seq<Entry<Item>>)
    requires Ordered(u) && |u| == |t|
    requires forall k :: 0 <= k < |t| ==> u[k] == Entry(t[k].path, ResumeItem(t[k].v))
    ensures WaitingIn(t, |t|) == Waiting(ToMap(u))
  {
    hide Ordered, ToMap, WaitingIn;
    forall q ensures q in WaitingIn(t, |t|) <==> q in Waiting(ToMap(u)) {
      WaitingInSpec(t, |t|, q);
      if q in WaitingIn(t, |t|) {
        var k :| 0 <= k < |t| && ResumeItem(t[k].v).status.Pending? && t[k].path == q;
        ToMapAt(u, k);
      }
      if q in Waiting(ToMap(u)) {
        var k := ToMapIndex(u, q);
      }
    }
  }

  /** The rewritten block is the whole effect of `MaskBelow`. */
  lemma MaskedAll(t: seq<Entry<Item>>, u: seq<Entry<Item>>, p: Path, lo: nat, i: nat)
    requires Ordered(t) && |u| == |t| && lo == LowerBound(t, p) < i <= |t| && t[lo].path == p
    requires forall k :: 0 <= k < |t| ==>
               u[k] == if lo < k < i then Entry(t[k].path, MaskItem(p, t[k].path, t[k].v)) else t[k]
    requires forall k :: lo <= k < i ==> p <= t[k].path
    requires i == |t| || !(p <= t[i].path)
    ensures Ordered(u) && ToMap(u) == MaskBelow(ToMap(t), p)
  {
    var f := (q: Path, v: Item) => MaskItem(p, q, v);
    forall k | 0 <= k < |t| ensures u[k] == Entry(t[k].path, f(t[k].path, t[k].v)) {
      ScanStops(t, p, i, k);
      Distinct(t, lo, k);
    }
    ToMapPointwise(t, u, f);
  }

  ghost function ActiveAt(t: seq<Entry<Item>>, k: nat): set<Path>
    requires k < |t|
  {
    if t[k].v.status.Active? then {t[k].path} else {}
  }

  ghost function ActiveIn(t: seq<Entry<Item>>, lo: nat, i: nat): set<Path>
    requires i <= |t|
  {
    if i <= lo then {} else ActiveIn(t, lo, i - 1) + ActiveAt(t, i - 1)
  }

  lemma ActiveStep(t: seq<Entry<Item>>, lo: nat, i: nat)
    requires lo <= i < |t|
    ensures ActiveIn(t, lo, i + 1) == ActiveIn(t, lo, i) + ActiveAt(t, i)
  {
  }

  lemma {:induction false} ActiveInSpec(t: seq<Entry<Item>>, lo: nat, i: nat, q: Path)
    requires i <= |t|
    ensures q in ActiveIn(t, lo, i) <==> exists k :: lo <= k < i && t[k].v.status.Active? && t[k].path == q
  {
    if lo < i {
      ActiveInSpec(t, lo, i - 1, q);
    }
  }

  lemma DroppedOne(t: seq<Entry<Item>>, p: Path, lo: nat, i: nat, k: nat)
    requires Ordered(t) && lo == LowerBound(t, p) < i <= |t| && t[lo].path == p && k < |t|
    requires forall k :: lo <= k < i ==> p <= t[k].path
    requires i == |t| || !(p <= t[i].path)
    ensures Strict(p, t[k].path) <==> lo + 1 <= k < i
  {
    hide Ordered;
    ScanStops(t, p, i, k);
    Distinct(t, lo, k);
  }

  lemma DroppedAll(t: seq<Entry<Item>>, p: Path, lo: nat, i: nat)
    requires Ordered(t) && lo == LowerBound(t, p) < i <= |t| && t[lo].path == p
    requires forall k :: lo <= k < i ==> p <= t[k].path
    requires i == |t| || !(p <= t[i].path)
    ensures ActiveIn(t, lo + 1, i) == ActiveBelow(ToMap(t), p)
  {
    hide Ordered, ToMap, ActiveIn, Strict, LowerBound;
    forall q ensures q in ActiveIn(t, lo + 1, i) <==> q in ActiveBelow(ToMap(t), p) {
      ActiveInSpec(t, lo + 1, i, q);
      if q in ActiveIn(t, lo + 1, i) {
        var k :| lo + 1 <= k < i && t[k].v.status.Active? && t[k].path == q;
        ToMapAt(t, k);
        DroppedOne(t, p, lo, i, k);
      }
      if q in ActiveBelow(ToMap(t), p) {
        var k := ToMapIndex(t, q);
        DroppedOne(t, p, lo, i, k);
      }
    }
  }
}
