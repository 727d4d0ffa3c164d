/** What lib/datasync/listen/listen_registry.c and the connection states of lib/datasync/datasync.c
    do to the set of listens, one step at a time, and what every run keeps. `ListenRegistry` proves
    that the ordered, early-stopping loops of the code compute these steps. */
module ListenModel {
  import opened Paths

  datatype Status = Required | Pending | Active | Failed | Masked

  datatype Item = Item(status: Status, ref: nat)

  type Reg = map<Path, Item>

  datatype Cnx = Disconnected | Connecting | Connected | Disconnecting

  predicate Live(i: Item) {
    i.status.Required? || i.status.Pending? || i.status.Active?
  }

  /** The status of a listen that must be opened now. */
  function Opened(c: Cnx): Status {
    if c.Connected? then Pending else Required
  }

  // ----- the steps

  /** `is_masked`: some strict prefix is listened to. */
  predicate IsMasked(r: Reg, p: Path) {
    exists n :: 0 <= n < |p| && p[..n] in r && Live(r[p[..n]])
  }

  /** `listen_registry_add_ex`. */
  function Add(r: Reg, p: Path): Reg {
    if p in r then r[p := r[p].(ref := r[p].ref + 1)]
    else r[p := Item(if IsMasked(r, p) then Masked else Required, 1)]
  }

  function MaskItem(p: Path, q: Path, i: Item): Item {
    if Strict(p, q) && Live(i) then i.(status := Masked) else i
  }

  /** `mask_listen_request`. */
  function MaskBelow(r: Reg, p: Path): Reg {
    map q | q in r :: MaskItem(p, q, r[q])
  }

  /** Whether `wc_datasync_watch` opens a listen on the item it found or added. */
  predicate Opens(i: Item) {
    i.status.Required? || i.status.Failed?
  }

  /** `wc_datasync_watch`. */
  function Watch(c: Cnx, r: Reg, p: Path): Reg {
    var r1 := Add(r, p);
    if Opens(r1[p]) then MaskBelow(r1[p := r1[p].(status := Opened(c))], p) else r1
  }

  /** `q` is a masked item at or below `p` with no masked item between them. */
  ghost predicate Topmost(r: Reg, p: Path, q: Path) {
    && q in r && p <= q && r[q].status.Masked?
    && forall t :: t in r && p <= t && Strict(t, q) ==> !r[t].status.Masked?
  }

  /** `unmask_listen_request`. */
  ghost function UnmaskBelow(c: Cnx, r: Reg, p: Path): Reg {
    map q | q in r :: if Topmost(r, p, q) then r[q].(status := Opened(c)) else r[q]
  }

  /** `wc_datasync_unwatch_ex`. */
  ghost function Unwatch(c: Cnx, r: Reg, p: Path, n: nat): Reg
    requires p in r ==> r[p].ref >= n
  {
    if p !in r then r
    else if r[p].ref > n then r[p := r[p].(ref := r[p].ref - n)]
    else UnmaskBelow(c, r - {p}, p)
  }

  function SuspendItem(i: Item): Item {
    if i.status.Active? || i.status.Pending? then i.(status := Required) else i
  }

  function ResumeItem(i: Item): Item {
    if i.status.Required? || i.status.Pending? then i.(status := Pending) else i
  }

  /** `wc_listen_suspend_all`. */
  function Suspend(r: Reg): Reg {
    map q | q in r :: SuspendItem(r[q])
  }

  /** `wc_listen_resume_all`. */
  function Resume(r: Reg): Reg {
    map q | q in r :: ResumeItem(r[q])
  }

  /** `on_listen_result` for an item that is still registered. */
  function Result(r: Reg, p: Path, ok: bool): Reg
    requires p in r
  {
    r[p := r[p].(status := if ok then Active else Failed)]
  }

  // ----- sessions: the connection, the registry, and the listens the server holds

  /** `server`: the paths whose last message on this connection is a listen that was not refused. */
  datatype Session = Session(cnx: Cnx, reg: Reg, server: set<Path>)

  datatype Event =
    | EWatch(p: Path) | EUnwatch(p: Path, n: nat) | EResult(p: Path, ok: bool)
    | EConnect | EHandshake | EClose | EClosed

  function Init(): Session {
    Session(Disconnected, map[], {})
  }

  function Waiting(r: Reg): set<Path> {
    set q | q in r && r[q].status.Pending?
  }

  function ActiveBelow(r: Reg, p: Path): set<Path> {
    set q | q in r && Strict(p, q) && r[q].status.Active?
  }

  ghost function Reopened(r: Reg, p: Path): set<Path> {
    set q | q in r && Topmost(r, p, q)
  }

  /** What the environment may do: drop only references that are held, and answer only items that are
      still registered. */
  predicate Allowed(s: Session, e: Event) {
    match e
    case EUnwatch(p, n) => p in s.reg ==> s.reg[p].ref >= n
    case EResult(p, _) => p in s.reg
    case _ => true
  }

  /** An answer comes while its request stands, on the connection that carried it. */
  predicate Timely(s: Session, e: Event) {
    e.EResult? ==> s.cnx.Connected? && e.p in s.server
  }

  /** One step. Messages go out in the connected state only (`wc_datasync_send_msg`); a closed or
      failed connection drops the server's listens with it. */
  ghost function Step(s: Session, e: Event): Session
    requires Allowed(s, e)
  {
    var c, r := s.cnx, s.reg;
    match e
    case EWatch(p) =>
      var r1 := Add(r, p);
      var server := if c.Connected? && Opens(r1[p]) then s.server + {p} - ActiveBelow(r1, p) else s.server;
      Session(c, Watch(c, r, p), server)
    case EUnwatch(p, n) =>
      var gone := p in r && r[p].ref == n;
      var server := if c.Connected? && gone then s.server - {p} + Reopened(r - {p}, p) else s.server;
      Session(c, Unwatch(c, r, p, n), server)
    case EResult(p, ok) =>
      Session(c, Result(r, p, ok), if ok then s.server else s.server - {p})
    case EConnect =>
      Session(if c.Disconnected? then Connecting else c, r, s.server)
    case EHandshake =>
      if c.Disconnecting? then s
      else Session(Connected, Resume(r), s.server + Waiting(Resume(r)))
    case EClose =>
      Session(if c.Connected? || c.Connecting? then Disconnecting else c, r, s.server)
    case EClosed =>
      Session(Disconnected, Suspend(r), {})
  }

  /** A run of allowed events from a fresh context. */
  ghost predicate IsRun(es: seq<Event>, ss: seq<Session>) {
    && |ss| == |es| + 1 && ss[0] == Init()
    && forall k :: 0 <= k < |es| ==> Allowed(ss[k], es[k]) && ss[k + 1] == Step(ss[k], es[k])
  }

  // ----- coverage

  /** Every masked item has a registered strict prefix that is not masked. */
  ghost predicate Covered(r: Reg) {
    forall q :: q in r && r[q].status.Masked? ==> exists t :: Covers(r, t, q)
  }

  ghost predicate Covers(r: Reg, t: Path, q: Path) {
    t in r && Strict(t, q) && !r[t].status.Masked?
  }

  lemma MaskBelowCovered(r: Reg, p: Path)
    requires Covered(r) && p in r && Live(r[p])
    ensures Covered(MaskBelow(r, p))
  {
    var r' := MaskBelow(r, p);
    forall q | q in r' && r'[q].status.Masked? ensures exists t :: Covers(r', t, q) {
      if Strict(p, q) {
        assert Covers(r', p, q);
      } else {
        var t :| Covers(r, t, q);
        assert Strict(p, t) ==> Strict(p, q);
        assert Covers(r', t, q);
      }
    }
  }

  lemma WatchCovered(c: Cnx, r: Reg, p: Path)
    requires Covered(r)
    ensures Covered(Watch(c, r, p))
  {
    var r1 := Add(r, p);
    forall q | q in r1 && r1[q].status.Masked? ensures exists t :: Covers(r1, t, q) {
      if q == p && p !in r {
        var n :| 0 <= n < |p| && p[..n] in r && Live(r[p[..n]]);
        assert Covers(r1, p[..n], q);
      } else {
        var t :| Covers(r, t, q);
        assert Covers(r1, t, q);
      }
    }
    if Opens(r1[p]) {
      var r2 := r1[p := r1[p].(status := Opened(c))];
      forall q | q in r2 && r2[q].status.Masked? ensures exists t :: Covers(r2, t, q) {
        var t :| Covers(r1, t, q);
        assert Covers(r2, t, q);
      }
      MaskBelowCovered(r2, p);
    }
  }

  /** Under any masked item below `p` there is a topmost one above or at it. */
  lemma {:induction false} TopmostExists(r: Reg, p: Path, q: Path) returns (t: Path)
    requires q in r && p <= q && r[q].status.Masked?
    ensures Topmost(r, p, t) && t <= q
    decreases |q|
  {
    if u :| u in r && p <= u && Strict(u, q) && r[u].status.Masked? {
      t := TopmostExists(r, p, u);
    } else {
      t := q;
    }
  }

  lemma UnwatchCovered(c: Cnx, r: Reg, p: Path, n: nat)
    requires Covered(r) && (p in r ==> r[p].ref >= n)
    ensures Covered(Unwatch(c, r, p, n))
  {
    if p in r && r[p].ref == n {
      var r1 := r - {p};
      var r2 := UnmaskBelow(c, r1, p);
      forall q | q in r2 && r2[q].status.Masked? ensures exists t :: Covers(r2, t, q) {
        if p <= q {
          var t := TopmostExists(r1, p, q);
          assert Covers(r2, t, q);
        } else {
          var t :| Covers(r, t, q);
          assert Covers(r2, t, q);
        }
      }
    } else if p in r {
      var r1 := Unwatch(c, r, p, n);
      forall q | q in r1 && r1[q].status.Masked? ensures exists t :: Covers(r1, t, q) {
        var t :| Covers(r, t, q);
        assert Covers(r1, t, q);
      }
    }
  }

  lemma StepCovered(s: Session, e: Event)
    requires Covered(s.reg) && Allowed(s, e)
    ensures Covered(Step(s, e).reg)
  {
    var r, r' := s.reg, Step(s, e).reg;
    match e {
      case EWatch(p) => WatchCovered(s.cnx, r, p);
      case EUnwatch(p, n) => UnwatchCovered(s.cnx, r, p, n);
      case _ =>
        forall q | q in r' && r'[q].status.Masked? ensures exists t :: Covers(r', t, q) {
          var t :| Covers(r, t, q);
          assert Covers(r', t, q);
        }
    }
  }

  // ----- the connection and the server agree with the registry

  ghost predicate Agrees(s: Session) {
    && (s.cnx.Disconnected? || s.cnx.Connecting? ==>
          && s.server == {}
          && forall q :: q in s.reg ==> !s.reg[q].status.Pending? && !s.reg[q].status.Active?)
    && (s.cnx.Connected? ==>
          && (forall q :: q in s.reg ==> !s.reg[q].status.Required?)
          && (forall q :: q in s.reg && Live(s.reg[q]) ==> q in s.server)
          && (forall q :: q in s.server ==> q in s.reg && !s.reg[q].status.Failed?))
  }

  lemma StepAgrees(s: Session, e: Event)
    requires Agrees(s) && Allowed(s, e) && Timely(s, e)
    ensures Agrees(Step(s, e))
  {
  }

  // ----- the antichain of live listens

  ghost predicate Antichain(r: Reg) {
    forall p, q :: p in r && q in r && Live(r[p]) && Live(r[q]) ==> !Strict(p, q)
  }

  ghost predicate NoneFailed(r: Reg) {
    forall q :: q in r ==> !r[q].status.Failed?
  }

  /** A live item is above or below `q`. */
  ghost predicate Clashes(r: Reg, q: Path) {
    exists t :: t in r && Live(r[t]) && (Strict(t, q) || Strict(q, t))
  }

  /** Watching again where a listen was refused and an ancestor is live. */
  predicate Retries(r: Reg, p: Path) {
    p in r && r[p].status.Failed? && IsMasked(r, p)
  }

  /** Dropping the last reference so that a reopened item has a live one above or below it. */
  ghost predicate Uncovers(r: Reg, p: Path, n: nat) {
    p in r && r[p].ref == n && exists q :: Topmost(r - {p}, p, q) && Clashes(r - {p}, q)
  }

  /** A confirmation of an item that is not live, above or below one that is. */
  ghost predicate Revives(r: Reg, p: Path, ok: bool)
    requires p in r
  {
    ok && !Live(r[p]) && Clashes(r, p)
  }

  /** Watching keeps the antichain, except for one family of cases. */
  lemma WatchAntichain(c: Cnx, r: Reg, p: Path)
    requires Antichain(r)
    ensures Antichain(Watch(c, r, p)) <==> !Retries(r, p)
  {
    var r1, r2 := Add(r, p), Watch(c, r, p);
    if Retries(r, p) {
      var n :| 0 <= n < |p| && p[..n] in r && Live(r[p[..n]]);
      assert Strict(p[..n], p) && Live(r2[p[..n]]) && Live(r2[p]);
    } else {
      forall t, q | t in r2 && q in r2 && Live(r2[t]) && Live(r2[q]) ensures !Strict(t, q) {
        StrictTake(t, q);
      }
    }
  }

  lemma StrictTake(t: Path, q: Path)
    ensures Strict(t, q) <==> |t| < |q| && t == q[..|t|]
  {
  }

  /** Unwatching keeps it, except for one family of cases. */
  lemma UnwatchAntichain(c: Cnx, r: Reg, p: Path, n: nat)
    requires Antichain(r) && (p in r ==> r[p].ref >= n)
    ensures Antichain(Unwatch(c, r, p, n)) <==> !Uncovers(r, p, n)
  {
    if p in r && r[p].ref == n {
      var r1 := r - {p};
      var r2 := UnmaskBelow(c, r1, p);
      if Uncovers(r, p, n) {
        var q :| Topmost(r1, p, q) && Clashes(r1, q);
        var t :| t in r1 && Live(r1[t]) && (Strict(t, q) || Strict(q, t));
        assert Live(r2[t]) && Live(r2[q]);
      } else {
        ReopenedAntichain(c, r1, p);
      }
    }
  }

  lemma ReopenedAntichain(c: Cnx, r: Reg, p: Path)
    requires Antichain(r) && !exists q :: Topmost(r, p, q) && Clashes(r, q)
    ensures Antichain(UnmaskBelow(c, r, p))
  {
    var r2 := UnmaskBelow(c, r, p);
    forall t, q | t in r2 && q in r2 && Live(r2[t]) && Live(r2[q]) ensures !Strict(t, q) {
      assert Topmost(r, p, t) && Topmost(r, p, q) ==> !Strict(t, q);
      assert Topmost(r, p, q) && Live(r[t]) && Strict(t, q) ==> Clashes(r, q);
      assert Topmost(r, p, t) && Live(r[q]) && Strict(t, q) ==> Clashes(r, t);
    }
  }

  /** An answer keeps it, except for one family of cases. */
  lemma ResultAntichain(r: Reg, p: Path, ok: bool)
    requires Antichain(r) && p in r
    ensures Antichain(Result(r, p, ok)) <==> !Revives(r, p, ok)
  {
    var r1 := Result(r, p, ok);
    if Revives(r, p, ok) {
      var t :| t in r && Live(r[t]) && (Strict(t, p) || Strict(p, t));
      assert Live(r1[t]) && Live(r1[p]);
    }
  }

  /** In the absence of refusals, an unwatch fails exactly when it drops a masked item with something below. */
  lemma UncoversMasked(r: Reg, p: Path, n: nat)
    requires Antichain(r) && NoneFailed(r) && Covered(r)
    ensures Uncovers(r, p, n) <==>
            p in r && r[p].ref == n && r[p].status.Masked? && exists q :: q in r && Strict(p, q)
  {
    if p in r && r[p].ref == n {
      var r1 := r - {p};
      if r[p].status.Masked? {
        var t :| Covers(r, t, p);
        if q :| q in r && Strict(p, q) && (Topmost(r1, p, q) || r[q].status.Masked?) {
          var u := TopmostExists(r1, p, q);
          assert Strict(t, u) && t in r1 && Live(r1[t]);
        } else if q :| q in r && Strict(p, q) {
          assert Live(r[q]) && Strict(t, q);
        }
      } else {
        assert Live(r[p]);
        forall q | Topmost(r1, p, q) ensures !Clashes(r1, q) {
          forall t | t in r1 && Live(r1[t]) ensures !Strict(t, q) && !Strict(q, t) {
            assert p <= q && t <= q ==> p <= t || t <= p;
            assert Strict(q, t) ==> Strict(p, t);
          }
        }
      }
    }
  }

  /** And an answer fails exactly when it confirms a masked item. */
  lemma RevivesMasked(r: Reg, p: Path, ok: bool)
    requires Antichain(r) && NoneFailed(r) && Covered(r) && p in r
    ensures Revives(r, p, ok) <==> ok && r[p].status.Masked?
  {
    if r[p].status.Masked? {
      var t :| Covers(r, t, p);
      assert Live(r[t]);
    }
  }

  /** Steps outside the three failing families. */
  ghost predicate Orderly(s: Session, e: Event)
    requires Allowed(s, e)
  {
    match e
    case EWatch(p) => !Retries(s.reg, p)
    case EUnwatch(p, n) => !Uncovers(s.reg, p, n)
    case EResult(p, ok) => !Revives(s.reg, p, ok)
    case _ => true
  }

  lemma StepAntichain(s: Session, e: Event)
    requires Antichain(s.reg) && Allowed(s, e)
    ensures Antichain(Step(s, e).reg) <==> Orderly(s, e)
  {
    hide Topmost, Uncovers, Revives, Retries, Watch, Unwatch;
    match e {
      case EWatch(p) => WatchAntichain(s.cnx, s.reg, p);
      case EUnwatch(p, n) => UnwatchAntichain(s.cnx, s.reg, p, n);
      case EResult(p, ok) => ResultAntichain(s.reg, p, ok);
      case _ =>
    }
  }

  // ----- whole runs

  /** While connected, the server listens on every watched path or on an ancestor of it. */
  ghost predicate Served(s: Session) {
    s.cnx.Connected? ==> forall p :: p in s.reg ==> exists t :: t in s.server && t <= p
  }

  /** Coverage: after any run, refused listens and stray answers included. */
  lemma {:induction false} RunCovered(es: seq<Event>, ss: seq<Session>, k: nat)
    requires IsRun(es, ss) && k < |ss|
    ensures Covered(ss[k].reg)
  {
    if k > 0 {
      RunCovered(es, ss, k - 1);
      StepCovered(ss[k - 1], es[k - 1]);
    }
  }

  /** Agreement of the connection, the registry and the server, when answers come in time. */
  lemma {:induction false} RunAgrees(es: seq<Event>, ss: seq<Session>, k: nat)
    requires IsRun(es, ss) && k < |ss| && forall j :: 0 <= j < k ==> Timely(ss[j], es[j])
    ensures Agrees(ss[k])
  {
    if k > 0 {
      RunAgrees(es, ss, k - 1);
      StepAgrees(ss[k - 1], es[k - 1]);
    }
  }

  lemma StepNoneFailed(s: Session, e: Event)
    requires NoneFailed(s.reg) && Allowed(s, e) && (e.EResult? ==> e.ok)
    ensures NoneFailed(Step(s, e).reg)
  {
  }

  /** If no listen was refused, every watched path has a live registered prefix. */
  lemma {:induction false} RunLive(es: seq<Event>, ss: seq<Session>, k: nat)
    requires IsRun(es, ss) && k < |ss|
    requires forall j :: 0 <= j < k && es[j].EResult? ==> es[j].ok
    ensures NoneFailed(ss[k].reg)
    ensures forall p :: p in ss[k].reg ==> exists t :: t in ss[k].reg && t <= p && Live(ss[k].reg[t])
  {
    if k > 0 {
      RunLive(es, ss, k - 1);
      StepNoneFailed(ss[k - 1], es[k - 1]);
    }
    RunCovered(es, ss, k);
    var r := ss[k].reg;
    forall p | p in r ensures exists t :: t in r && t <= p && Live(r[t]) {
      var t := p;
      if r[p].status.Masked? {
        t :| Covers(r, t, p);
      }
      assert t in r && t <= p && Live(r[t]);
    }
  }

  /** And if the answers came in time, the server serves it while connected. */
  lemma RunServed(es: seq<Event>, ss: seq<Session>, k: nat)
    requires IsRun(es, ss) && k < |ss| && forall j :: 0 <= j < k ==> Timely(ss[j], es[j])
    requires forall j :: 0 <= j < k && es[j].EResult? ==> es[j].ok
    ensures Served(ss[k])
  {
    RunLive(es, ss, k);
    RunAgrees(es, ss, k);
    var s := ss[k];
    forall p | p in s.reg && s.cnx.Connected? ensures exists t :: t in s.server && t <= p {
      var t :| t in s.reg && t <= p && Live(s.reg[t]);
      assert t in s.server;
    }
  }

  /** Refusals included: the live paths of a run stay an antichain for exactly as long as its steps are orderly. */
  lemma {:induction false} RunAntichain(es: seq<Event>, ss: seq<Session>, k: nat)
    requires IsRun(es, ss) && k < |ss|
    ensures (forall j :: 0 <= j <= k ==> Antichain(ss[j].reg)) <==> (forall j :: 0 <= j < k ==> Orderly(ss[j], es[j]))
  {
    hide Antichain, Orderly, Step;
    if k == 0 {
      NothingLive();
    } else {
      RunAntichain(es, ss, k - 1);
      if forall j :: 0 <= j <= k - 1 ==> Antichain(ss[j].reg) {
        StepAntichain(ss[k - 1], es[k - 1]);
        assert Antichain(ss[k].reg) <==> Orderly(ss[k - 1], es[k - 1]);
      }
    }
  }

  lemma NothingLive()
    ensures Antichain(Init().reg)
  {
  }

  /** Nothing is refused or confirmed while masked, and no masked item with something below is dropped. */
  predicate Careful(s: Session, e: Event)
    requires Allowed(s, e)
  {
    match e
    case EUnwatch(p, n) =>
      !(p in s.reg && s.reg[p].ref == n && s.reg[p].status.Masked? && exists q :: q in s.reg && Strict(p, q))
    case EResult(p, ok) => ok && !s.reg[p].status.Masked?
    case _ => true
  }

  /** Such runs are orderly, so no live path is a strict prefix of another. */
  lemma {:induction false} CarefulRunAntichain(es: seq<Event>, ss: seq<Session>, k: nat)
    requires IsRun(es, ss) && k < |ss|
    requires forall j :: 0 <= j < k ==> Careful(ss[j], es[j])
    ensures Antichain(ss[k].reg)
  {
    hide Uncovers, Revives, Covered, Topmost, Step;
    if k > 0 {
      var s, e := ss[k - 1], es[k - 1];
      CarefulRunAntichain(es, ss, k - 1);
      RunCovered(es, ss, k - 1);
      RunLive(es, ss, k - 1);
      match e {
        case EUnwatch(p, n) => UncoversMasked(s.reg, p, n);
        case EResult(p, ok) => RevivesMasked(s.reg, p, ok);
        case _ =>
      }
      StepAntichain(s, e);
    }
  }

  // ----- both failures happen

  lemma MaskedBy(r: Reg, t: Path, p: Path)
    requires t in r && Live(r[t]) && Strict(t, p)
    ensures IsMasked(r, p)
  {
    assert p[..|t|] == t;
  }

  /** Watching a new path below a live one. */
  lemma WatchBelow(c: Cnx, r: Reg, t: Path, p: Path)
    requires t in r && Live(r[t]) && Strict(t, p) && p !in r
    ensures Watch(c, r, p) == r[p := Item(Masked, 1)]
  {
    MaskedBy(r, t, p);
  }

  /** Three nested paths are watched and the middle one is dropped. */
  lemma UncoversHappens(a: Path, b: Path, c: Path) returns (es: seq<Event>, ss: seq<Session>)
    requires Strict(a, b) && Strict(b, c)
    ensures IsRun(es, ss) && es == [EWatch(a), EWatch(b), EWatch(c), EUnwatch(b, 1)]
    ensures !Antichain(ss[4].reg)
  {
    es := [EWatch(a), EWatch(b), EWatch(c), EUnwatch(b, 1)];
    var s1 := Step(Init(), es[0]);
    var s2 := Step(s1, es[1]);
    var s3 := Step(s2, es[2]);
    assert s1.reg == map[a := Item(Required, 1)];
    hide Watch, Unwatch, Antichain, Topmost, IsMasked;
    WatchBelow(s1.cnx, s1.reg, a, b);
    WatchBelow(s2.cnx, s2.reg, a, c);
    var s4 := Step(s3, es[3]);
    Uncovered(s3.cnx, s3.reg, a, b, c);
    hide Step;
    ss := [Init(), s1, s2, s3, s4];
  }

  lemma Uncovered(x: Cnx, r: Reg, a: Path, b: Path, c: Path)
    requires Strict(a, b) && Strict(b, c)
    requires r == map[a := Item(Required, 1), b := Item(Masked, 1), c := Item(Masked, 1)]
    ensures !Antichain(Unwatch(x, r, b, 1))
  {
    assert Topmost(r - {b}, b, c);
    var r' := Unwatch(x, r, b, 1);
    assert Live(r'[a]) && Live(r'[c]) && Strict(a, c);
  }

  /** On a connection, an ancestor is watched before the answer to a listen comes: the answer is in time. */
  lemma RevivesHappens(a: Path, b: Path) returns (es: seq<Event>, ss: seq<Session>)
    requires Strict(a, b)
    ensures IsRun(es, ss) && es == [EConnect, EHandshake, EWatch(b), EWatch(a), EResult(b, true)]
    ensures forall k :: 0 <= k < 5 ==> Timely(ss[k], es[k])
    ensures !Antichain(ss[5].reg)
  {
    es := [EConnect, EHandshake, EWatch(b), EWatch(a), EResult(b, true)];
    var s2 := Session(Connected, map[], {});
    assert Step(Session(Connecting, map[], {}), EHandshake) == s2;
    var s3, s4 := Step(s2, es[2]), Step(Step(s2, es[2]), es[3]);
    WatchAbove(s2, a, b);
    var s5 := Step(s4, es[4]);
    assert Live(s5.reg[a]) && Live(s5.reg[b]);
    assert Step(Init(), es[0]) == Session(Connecting, map[], {});
    hide Step;
    ss := [Init(), Session(Connecting, map[], {}), s2, s3, s4, s5];
  }

  lemma WatchAbove(s: Session, a: Path, b: Path)
    requires s == Session(Connected, map[], {}) && Strict(a, b)
    ensures var s3 := Step(s, EWatch(b));
            var s4 := Step(s3, EWatch(a));
            && s3 == Session(Connected, map[b := Item(Pending, 1)], {b})
            && s4 == Session(Connected, map[a := Item(Pending, 1), b := Item(Masked, 1)], {a, b})
  {
    var s3 := Step(s, EWatch(b));
    assert s3.reg == map[b := Item(Pending, 1)];
    var r1 := Add(s3.reg, a);
    assert r1 == map[a := Item(Required, 1), b := Item(Pending, 1)];
    assert ActiveBelow(r1, a) == {};
  }
}
