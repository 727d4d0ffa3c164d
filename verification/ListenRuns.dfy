/** Runs of the listens against what went over the connection: which listens have been confirmed, which are still
    unanswered, and which connection events have happened (lib/datasync/listen/listen_registry.c,
    lib/datasync/datasync.c). */
module ListenRuns {
  import opened Paths
  import opened ListenModel

  // ----- answers

  /** `unanswered`: the listens sent on this connection whose answer is outstanding. `confirmed`: the paths whose last
      listen was confirmed, and which have not been masked or dropped since. */
  datatype Record = Record(unanswered: multiset<Path>, confirmed: set<Path>)

  function NoRecord(): Record {
    Record(multiset{}, {})
  }

  /** Whether a watch opens a listen. */
  predicate WatchOpens(s: Session, p: Path) {
    Opens(Add(s.reg, p)[p])
  }

  predicate DropsLast(s: Session, p: Path, n: nat) {
    p in s.reg && s.reg[p].ref == n
  }

  /** The paths for which a step sends a listen. */
  ghost function Sent(s: Session, e: Event): set<Path> {
    match e
    case EWatch(p) => if s.cnx.Connected? && WatchOpens(s, p) then {p} else {}
    case EUnwatch(p, n) => if s.cnx.Connected? && DropsLast(s, p, n) then Reopened(s.reg - {p}, p) else {}
    case EHandshake => if s.cnx.Disconnecting? then {} else Waiting(Resume(s.reg))
    case _ => {}
  }

  /** The paths that a step masks or drops. */
  function Silenced(s: Session, e: Event): set<Path> {
    match e
    case EWatch(p) => if WatchOpens(s, p) then set q | q in s.reg && Strict(p, q) else {}
    case EUnwatch(p, n) => if DropsLast(s, p, n) then {p} else {}
    case _ => {}
  }

  /** The record after a step. */
  ghost function Note(s: Session, rec: Record, e: Event): Record {
    match e
    case EResult(p, ok) =>
      Record(rec.unanswered - multiset{p}, if ok then rec.confirmed + {p} else rec.confirmed - {p})
    case EClosed => NoRecord()
    case EUnwatch(p, n) =>
      Record((if DropsLast(s, p, n) then rec.unanswered[p := 0] else rec.unanswered) + multiset(Sent(s, e)),
             rec.confirmed - Sent(s, e) - Silenced(s, e))
    case _ =>
      Record(rec.unanswered + multiset(Sent(s, e)), rec.confirmed - Sent(s, e) - Silenced(s, e))
  }

  /** While connected, an item is active exactly when its last listen was confirmed and it was not masked since, and
      the server holds a path only if it is live, or masked with its answer outstanding. */
  ghost predicate Tracked(s: Session, rec: Record) {
    && (s.cnx.Disconnected? || s.cnx.Connecting? ==> rec == NoRecord())
    && (s.cnx.Connected? ==>
          && (forall q :: q in rec.confirmed <==> q in s.reg && s.reg[q].status.Active?)
          && (forall q :: q in s.reg && s.reg[q].status.Pending? ==> q in rec.unanswered)
          && (forall q :: q in s.server ==>
                q in s.reg && (Live(s.reg[q]) || (s.reg[q].status.Masked? && q in rec.unanswered))))
  }

  lemma StepTracked(s: Session, rec: Record, e: Event)
    requires Agrees(s) && Tracked(s, rec) && Allowed(s, e) && Timely(s, e)
    ensures Tracked(Step(s, e), Note(s, rec, e))
  {
    match e {
      case EWatch(p) => WatchTracked(s, rec, p);
      case EUnwatch(p, n) => UnwatchTracked(s, rec, p, n);
      case EHandshake => HandshakeTracked(s, rec);
      case _ =>
    }
  }

  lemma WatchTracked(s: Session, rec: Record, p: Path)
    requires Agrees(s) && Tracked(s, rec)
    ensures Tracked(Step(s, EWatch(p)), Note(s, rec, EWatch(p)))
  {
    var r1 := Add(s.reg, p);
    if !s.cnx.Connected? {
      hide Add, MaskBelow;
    } else if Opens(r1[p]) {
      WatchOpensTracked(s, rec, p);
    } else {
      hide MaskBelow, IsMasked, Live;
    }
  }

  lemma WatchOpensTracked(s: Session, rec: Record, p: Path)
    requires Agrees(s) && Tracked(s, rec) && s.cnx.Connected? && WatchOpens(s, p)
    ensures Tracked(Step(s, EWatch(p)), Note(s, rec, EWatch(p)))
  {
    assert forall q :: q in s.server ==> q in s.reg;
    assert forall q :: q in s.reg ==> !s.reg[q].status.Required?;
    hide Agrees, Tracked, Step, Note, WatchOpens, OpensItems, OpensRecord;
    WatchOpensReg(s, p);
    WatchOpensNote(s, rec, p);
    OpensKeeps(s, rec, p, Step(s, EWatch(p)), Note(s, rec, EWatch(p)));
  }

  lemma OpensKeeps(s: Session, rec: Record, p: Path, s': Session, rec': Record)
    requires s.cnx.Connected? && Tracked(s, rec) && (forall q :: q in s.server ==> q in s.reg)
    requires forall q :: q in s.reg ==> !s.reg[q].status.Required?
    requires OpensItems(s, p, s') && OpensRecord(s, rec, p, rec')
    ensures Tracked(s', rec')
  {
    forall q | q in s'.server
      ensures q in s'.reg && (Live(s'.reg[q]) || (s'.reg[q].status.Masked? && q in rec'.unanswered))
    {
      assert q == p || q in s.server;
    }
  }

  /** What a watch that opens a listen does to each item and to the server. */
  ghost predicate OpensItems(s: Session, p: Path, s': Session) {
    && s'.cnx == s.cnx
    && (forall q :: q in s'.reg <==> q in s.reg || q == p) && s'.reg[p].status.Pending?
    && (forall q :: q in s.reg && q != p ==>
          s'.reg[q].status == if Strict(p, q) && Live(s.reg[q]) then Masked else s.reg[q].status)
    && (forall q :: q in s'.server <==>
          q == p || (q in s.server && !(q in s.reg && Strict(p, q) && s.reg[q].status.Active?)))
  }

  ghost predicate OpensRecord(s: Session, rec: Record, p: Path, rec': Record) {
    && (forall q :: q in rec'.confirmed <==> q in rec.confirmed && q != p && !(q in s.reg && Strict(p, q)))
    && (forall q :: q in rec'.unanswered <==> q == p || q in rec.unanswered)
  }

  lemma WatchOpensReg(s: Session, p: Path)
    requires s.cnx.Connected? && WatchOpens(s, p)
    ensures OpensItems(s, p, Step(s, EWatch(p)))
  {
    hide IsMasked;
  }

  lemma WatchOpensNote(s: Session, rec: Record, p: Path)
    requires s.cnx.Connected? && WatchOpens(s, p)
    ensures OpensRecord(s, rec, p, Note(s, rec, EWatch(p)))
  {
    hide WatchOpens;
  }

  lemma UnwatchTracked(s: Session, rec: Record, p: Path, n: nat)
    requires Agrees(s) && Tracked(s, rec) && Allowed(s, EUnwatch(p, n))
    ensures Tracked(Step(s, EUnwatch(p, n)), Note(s, rec, EUnwatch(p, n)))
  {
  }

  lemma HandshakeTracked(s: Session, rec: Record)
    requires Agrees(s) && Tracked(s, rec)
    ensures Tracked(Step(s, EHandshake), Note(s, rec, EHandshake))
  {
  }

  /** The record of a run. */
  ghost function RecordAt(es: seq<Event>, ss: seq<Session>, k: nat): Record
    requires k <= |es| && k <= |ss|
  {
    if k == 0 then NoRecord() else Note(ss[k - 1], RecordAt(es, ss, k - 1), es[k - 1])
  }

  /** In every run whose answers come in time. */
  lemma {:induction false} RunTracked(es: seq<Event>, ss: seq<Session>, k: nat)
    requires IsRun(es, ss) && k < |ss| && forall j :: 0 <= j < k ==> Timely(ss[j], es[j])
    ensures Tracked(ss[k], RecordAt(es, ss, k))
  {
    hide Tracked, Agrees, Step, Note;
    if k == 0 {
      NothingTracked();
    } else {
      RunTracked(es, ss, k - 1);
      RunAgrees(es, ss, k - 1);
      StepTracked(ss[k - 1], RecordAt(es, ss, k - 1), es[k - 1]);
    }
  }

  lemma NothingTracked()
    ensures Tracked(Init(), NoRecord())
  {
  }

  /** When every listen is answered, the server holds exactly the live paths, and these are the active ones. */
  lemma RunSettled(es: seq<Event>, ss: seq<Session>, k: nat)
    requires IsRun(es, ss) && k < |ss| && forall j :: 0 <= j < k ==> Timely(ss[j], es[j])
    requires ss[k].cnx.Connected? && RecordAt(es, ss, k).unanswered == multiset{}
    ensures forall p :: p in ss[k].server <==> p in ss[k].reg && Live(ss[k].reg[p])
    ensures forall p :: p in ss[k].server <==> p in ss[k].reg && ss[k].reg[p].status.Active?
  {
    RunTracked(es, ss, k);
    RunAgrees(es, ss, k);
  }

  // ----- connection events

  predicate OpensConnection(e: Event) {
    e.EConnect? || e.EHandshake?
  }

  /** Nothing among the events from `i` to `k` closed or failed the connection. */
  predicate Holds(es: seq<Event>, i: nat, k: nat) {
    forall j :: i <= j < k && j < |es| ==> !es[j].EClosed?
  }

  /** The connection was opened by event `i` and has not been closed or failed since. */
  predicate OpenSince(es: seq<Event>, i: nat, k: nat) {
    i < k <= |es| && OpensConnection(es[i]) && Holds(es, i, k)
  }

  ghost predicate WasOpened(es: seq<Event>, k: nat) {
    exists i: nat :: OpenSince(es, i, k)
  }

  /** After that, it was shut down by the client. */
  ghost predicate WasShut(es: seq<Event>, k: nat) {
    exists i: nat, j: nat :: OpenSince(es, i, k) && i < j < k && es[j].EClose?
  }

  ghost predicate ShookHands(es: seq<Event>, k: nat) {
    exists i: nat :: OpenSince(es, i, k) && es[i].EHandshake?
  }

  /** The state that a history of events leaves. */
  ghost function StateAfter(es: seq<Event>, k: nat): Cnx {
    if !WasOpened(es, k) then Disconnected
    else if WasShut(es, k) then Disconnecting
    else if ShookHands(es, k) then Connected
    else Connecting
  }

  lemma OpenedStep(es: seq<Event>, k: nat)
    requires k < |es|
    ensures WasOpened(es, k + 1) <==> !es[k].EClosed? && (OpensConnection(es[k]) || WasOpened(es, k))
    ensures ShookHands(es, k + 1) <==> !es[k].EClosed? && (es[k].EHandshake? || ShookHands(es, k))
    ensures WasShut(es, k + 1) <==> !es[k].EClosed? && (WasShut(es, k) || (es[k].EClose? && WasOpened(es, k)))
  {
    OneMore(es, k, k);
    if WasOpened(es, k + 1) {
      var i: nat :| OpenSince(es, i, k + 1);
      OneMore(es, i, k);
    }
    if ShookHands(es, k + 1) {
      var i: nat :| OpenSince(es, i, k + 1) && es[i].EHandshake?;
      OneMore(es, i, k);
    }
    if WasShut(es, k + 1) {
      var i: nat, j: nat :| OpenSince(es, i, k + 1) && i < j < k + 1 && es[j].EClose?;
      OneMore(es, i, k);
      assert j < k ==> OpenSince(es, i, k) && i < j < k;
    }
    if WasOpened(es, k) {
      var i: nat :| OpenSince(es, i, k);
      OneMore(es, i, k);
      assert !es[k].EClosed? ==> OpenSince(es, i, k + 1) && i < k < k + 1;
    }
    if ShookHands(es, k) {
      var i: nat :| OpenSince(es, i, k) && es[i].EHandshake?;
      OneMore(es, i, k);
    }
    if WasShut(es, k) {
      var i: nat, j: nat :| OpenSince(es, i, k) && i < j < k && es[j].EClose?;
      OneMore(es, i, k);
      assert !es[k].EClosed? ==> OpenSince(es, i, k + 1) && i < j < k + 1;
    }
  }

  lemma OneMore(es: seq<Event>, i: nat, k: nat)
    requires k < |es|
    ensures OpenSince(es, i, k + 1) <==>
            !es[k].EClosed? && ((i == k && OpensConnection(es[k])) || OpenSince(es, i, k))
    ensures OpenSince(es, i, k) ==> i < k
  {
  }

  /** In every run the state of the connection is that of its history: shut down means disconnecting until it is
      closed or failed, and after that it connects again. */
  lemma {:induction false} RunState(es: seq<Event>, ss: seq<Session>, k: nat)
    requires IsRun(es, ss) && k < |ss|
    ensures ss[k].cnx == StateAfter(es, k)
  {
    hide WasOpened, WasShut, ShookHands;
    if k == 0 {
      NothingHappened(es);
    } else {
      RunState(es, ss, k - 1);
      OpenedStep(es, k - 1);
      ShutIsOpened(es, k - 1);
      StepState(ss[k - 1], es[k - 1]);
    }
  }

  lemma NothingHappened(es: seq<Event>)
    ensures !WasOpened(es, 0)
  {
  }

  lemma ShutIsOpened(es: seq<Event>, k: nat)
    ensures WasShut(es, k) || ShookHands(es, k) ==> WasOpened(es, k)
  {
  }

  lemma StepState(s: Session, e: Event)
    requires Allowed(s, e)
    ensures Step(s, e).cnx ==
            match e
            case EConnect => if s.cnx.Disconnected? then Connecting else s.cnx
            case EHandshake => if s.cnx.Disconnecting? then Disconnecting else Connected
            case EClose => if s.cnx.Disconnected? then Disconnected else Disconnecting
            case EClosed => Disconnected
            case _ => s.cnx
  {
  }

  /** From a shutdown of an open connection until it is closed or failed, the session is disconnecting, and the server
      is sent no listen that it holds afterwards. */
  lemma {:induction false} RunShut(es: seq<Event>, ss: seq<Session>, i: nat, k: nat)
    requires IsRun(es, ss) && i < k < |ss| && es[i].EClose? && !ss[i].cnx.Disconnected? && Holds(es, i, k)
    ensures ss[k].cnx.Disconnecting? && ss[k].server <= ss[i].server
  {
    if k > i + 1 {
      RunShut(es, ss, i, k - 1);
    }
    assert ss[k] == Step(ss[k - 1], es[k - 1]);
  }

  /** After it is closed or failed, a connect and a handshake connect, unless it is shut down again. */
  lemma RunReconnects(es: seq<Event>, ss: seq<Session>, i: nat, h: nat, k: nat)
    requires IsRun(es, ss) && i < h < k < |ss| && es[i].EClosed? && es[h].EHandshake?
    requires forall j :: i < j < k ==> !es[j].EClosed? && !es[j].EClose?
    ensures ss[k].cnx.Connected?
  {
    RunState(es, ss, k);
    assert OpenSince(es, h, k);
    forall m: nat, j: nat | OpenSince(es, m, k) && m < j < k ensures !es[j].EClose? {
      assert m <= i ==> !Holds(es, m, k);
    }
  }
}
