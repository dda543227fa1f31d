/** The reader of `ReaderSpec` composed with the replication slot, the network
    and the broker. Every event is one step of one party, so a sequence of
    events is one interleaving of a whole run, crashes and redeliveries
    included. */
module System {
  import opened Optional
  import opened Events
  import opened ReaderSpec

  /** A committed transaction as the slot delivers it, with the messages that it
      owes to the broker. */
  datatype WalTxn = WalTxn(txid: nat, commitTs: int, body: seq<Frame>, end: nat, owed: seq<Msg>)

  function Frames(t: WalTxn): seq<Frame> {
    [Begin(t.txid, t.commitTs)] + t.body + [Commit(t.end)]
  }

  function OpenOf(t: WalTxn): Open {
    Open(t.txid, t.commitTs, t.body)
  }

  predicate BodyFrame(f: Frame) {
    f.Change? || f.Message? || f.Truncate? || f.Metadata? || f.Unexpected?
  }

  /** Feed hypothesis: whole transactions, in commit order. */
  ghost predicate WellFormed(wal: seq<WalTxn>) {
    && (forall i, k :: 0 <= i < |wal| && 0 <= k < |wal[i].body| ==> BodyFrame(wal[i].body[k]))
    && (forall i, j :: 0 <= i < j < |wal| ==> wal[i].end < wal[j].end)
  }

  /** Each transaction owes what the reader makes of its frames. */
  ghost predicate OwesItsRows(cfg: Config, wal: seq<WalTxn>) {
    forall i :: 0 <= i < |wal| ==> wal[i].owed == MsgsOf(cfg, OpenOf(wal[i]))
  }

  predicate IsRow(wal: seq<WalTxn>, i: int, a: int) {
    0 <= i < |wal| && 0 <= a < |wal[i].owed|
  }

  function RowLsn(wal: seq<WalTxn>, i: int, a: int): nat
    requires IsRow(wal, i, a)
  {
    wal[i].owed[a].row.lsn
  }

  /** Message-id hypothesis: rows that share an LSN are one and the same message. */
  ghost predicate LsnsNameMessages(wal: seq<WalTxn>) {
    forall i, j, a, b ::
      IsRow(wal, i, a) && IsRow(wal, j, b) && RowLsn(wal, i, a) == RowLsn(wal, j, b) ==>
        wal[i].owed[a] == wal[j].owed[b]
  }

  ghost predicate IdsNameMessages(wal: seq<WalTxn>) {
    forall i, j, a, b ::
      IsRow(wal, i, a) && IsRow(wal, j, b) && wal[i].owed[a].id == wal[j].owed[b].id ==>
        wal[i].owed[a] == wal[j].owed[b]
  }

  lemma {:induction false} LsnsMakeIds(cfg: Config, wal: seq<WalTxn>)
    requires OwesItsRows(cfg, wal) && LsnsNameMessages(wal)
    ensures IdsNameMessages(wal)
  {
    forall i, j, a, b | IsRow(wal, i, a) && IsRow(wal, j, b) && wal[i].owed[a].id == wal[j].owed[b].id
      ensures wal[i].owed[a] == wal[j].owed[b]
    {
      MsgIdInjective(cfg, RowLsn(wal, i, a), RowLsn(wal, j, b));
    }
  }

  /** What the run theorems assume of the feed. */
  ghost predicate Hypotheses(cfg: Config, wal: seq<WalTxn>) {
    WellFormed(wal) && OwesItsRows(cfg, wal) && LsnsNameMessages(wal)
  }

  /** Where the server resumes: the first transaction that ends after `position`. */
  function Resume(wal: seq<WalTxn>, position: nat): (next: nat)
    ensures next <= |wal|
    ensures forall i :: 0 <= i < next ==> wal[i].end <= position
    ensures next < |wal| ==> position < wal[next].end
  {
    if wal == [] || position < wal[0].end then 0
    else
      var rest := Resume(wal[1..], position);
      assert forall i :: 1 <= i < |wal| ==> wal[i] == wal[1..][i - 1];
      1 + rest
  }

  /** What one pass of the pipeline has on its way: the messages in the order they
      were sent, and whether the connection has dropped the rest of the pass. */
  datatype Pass = Pass(queue: seq<Msg>, cut: bool)

  const NEW_PASS := Pass([], false)

  /** `seen` is the catalog as the session at hand finds it. `slot` is the
      confirmed position of the server. `cursor` and `pos` are the transaction and
      frame that the server delivers next. `sent` holds every message ever sent and
      `passes` what each pass, also of a process that died, still has on its way.
      `log` is the stream of the broker. `high` is a history variable: the number
      of transactions that have been confirmed at least once. */
  datatype State = State(
    reader: Reader, seen: Catalog, slot: nat, cursor: nat, pos: nat,
    sent: set<Msg>, passes: seq<Pass>, log: seq<Msg>, high: nat)

  /** The configuration of the session at hand. */
  function Local(cfg: Config, s: State): Config {
    cfg.(catalog := s.seen)
  }

  /** A catalog that has no other classification than `whole`. */
  predicate Within(part: Catalog, whole: Catalog) {
    forall oid :: oid in part ==> oid in whole && part[oid] == whole[oid]
  }

  function Latest(passes: seq<Pass>): Pass {
    if passes == [] then NEW_PASS else passes[|passes| - 1]
  }

  /** Put a message on the latest pass, unless the connection drops it. */
  function Append(passes: seq<Pass>, m: Msg): seq<Pass> {
    var pass := Latest(passes);
    if pass.cut then passes
    else (if passes == [] then [] else passes[..|passes| - 1]) + [pass.(queue := pass.queue + [m])]
  }

  datatype Event =
    | Deliver                            // the next frame reaches the reader
    | Stray(frame: Frame)                // a frame between transactions
    | Alive(walEnd: nat)                 // a keepalive
    | Act(step: Label)                   // the publish pipeline takes a step
    | Land(msg: Msg, expired: bool)      // any message ever sent reaches the broker
    | LandNext(pass: nat, expired: bool) // the head of a pass reaches the broker
    | Cut(pass: nat, kept: nat)          // the connection of a pass drops what follows `kept`
    | Feedback(position: nat)            // the server takes a feedback message
    | Recover                            // the session reconnects in place
    | Restart(seen: Catalog)             // a crash or a new session, which finds this catalog

  ghost predicate Stored(log: seq<Msg>, id: string) {
    exists k :: 0 <= k < |log| && log[k].id == id
  }

  /** The broker drops a repeated id, unless its duplicate window has expired. */
  ghost function Store(log: seq<Msg>, m: Msg, expired: bool): seq<Msg> {
    if Stored(log, m.id) && !expired then log else log + [m]
  }

  ghost predicate CanAct(cfg: Config, s: State, l: Label) {
    && !l.Read?
    && Enabled(Local(cfg, s), s.reader, l)
    && (l.Acknowledge? ==>
          l.index < |s.reader.outbox.value.msgs| && Stored(s.log, s.reader.outbox.value.msgs[l.index].id))
  }

  ghost predicate Can(cfg: Config, wal: seq<WalTxn>, s: State, e: Event) {
    match e
    case Deliver =>
      s.cursor < |wal| && s.pos < |Frames(wal[s.cursor])|
      && Enabled(Local(cfg, s), s.reader, Read(Frames(wal[s.cursor])[s.pos]))
    case Stray(f) => s.pos == 0 && (f.Message? || f.Metadata? || f.Unexpected?) && Enabled(Local(cfg, s), s.reader, Read(f))
    case Alive(walEnd) =>
      // Keepalive hypothesis: outside a transaction the server's position does
      // not pass the end of a transaction that it has not delivered.
      (s.pos == 0 && s.cursor < |wal| ==> walEnd < wal[s.cursor].end)
      && Enabled(Local(cfg, s), s.reader, Read(Keepalive(walEnd)))
    case Act(l) => CanAct(cfg, s, l)
    case Land(m, _) => m in s.sent
    case LandNext(p, _) => p < |s.passes| && s.passes[p].queue != []
    case Cut(p, kept) => p < |s.passes| && kept <= |s.passes[p].queue|
    case Feedback(position) => s.slot <= position <= s.reader.flushed
    case Recover => s.reader.outbox.None?
    case Restart(seen) => Within(seen, cfg.catalog)
  }

  ghost function DoAct(cfg: Config, s: State, l: Label): State
    requires CanAct(cfg, s, l)
  {
    var next := s.(reader := Step(Local(cfg, s), s.reader, l));
    match l
    case Send(_, m) => next.(sent := s.sent + {m}, passes := Append(s.passes, m))
    case PassFailed => next.(passes := s.passes + [NEW_PASS])
    case Confirm(_) => next.(high := Max(s.high, s.cursor))
    case _ => next
  }

  ghost function Do(cfg: Config, wal: seq<WalTxn>, s: State, e: Event): State
    requires Can(cfg, wal, s, e)
  {
    match e
    case Deliver =>
      var next := s.(reader := Step(Local(cfg, s), s.reader, Read(Frames(wal[s.cursor])[s.pos])));
      if s.pos + 1 < |Frames(wal[s.cursor])| then next.(pos := s.pos + 1)
      else next.(cursor := s.cursor + 1, pos := 0, passes := s.passes + [NEW_PASS])
    case Stray(f) => s.(reader := Step(Local(cfg, s), s.reader, Read(f)))
    case Alive(walEnd) => s.(reader := Step(Local(cfg, s), s.reader, Read(Keepalive(walEnd))))
    case Act(l) => DoAct(cfg, s, l)
    case Land(m, expired) => s.(log := Store(s.log, m, expired))
    case LandNext(p, expired) =>
      s.(log := Store(s.log, s.passes[p].queue[0], expired),
         passes := s.passes[p := s.passes[p].(queue := s.passes[p].queue[1..])])
    case Cut(p, kept) => s.(passes := s.passes[p := Pass(s.passes[p].queue[..kept], true)])
    case Feedback(position) => s.(slot := position)
    case Recover => s.(cursor := Resume(wal, Max(s.slot, s.reader.flushed)), pos := 0)
    case Restart(seen) => s.(reader := FRESH, seen := seen, cursor := Resume(wal, s.slot), pos := 0)
  }

  /** The slot exists before the first transaction of `wal` commits. */
  predicate FirstSlot(wal: seq<WalTxn>, slot: nat) {
    wal != [] ==> slot < wal[0].end
  }

  /** A run begins with a session that finds the whole catalog. One that finds less
      of it begins with a restart. */
  ghost function Init(cfg: Config, slot: nat): State {
    State(FRESH, cfg.catalog, slot, 0, 0, {}, [], [], 0)
  }

  ghost predicate IsRun(cfg: Config, wal: seq<WalTxn>, s: State, events: seq<Event>)
    decreases |events|, 0
  {
    events == [] ||
    (IsRun(cfg, wal, s, events[..|events| - 1]) &&
     Can(cfg, wal, End(cfg, wal, s, events[..|events| - 1]), events[|events| - 1]))
  }

  ghost function End(cfg: Config, wal: seq<WalTxn>, s: State, events: seq<Event>): State
    requires IsRun(cfg, wal, s, events)
    decreases |events|, 1
  {
    if events == [] then s
    else Do(cfg, wal, End(cfg, wal, s, events[..|events| - 1]), events[|events| - 1])
  }

  // ----- The inductive invariant

  /** The first transaction that the session at hand has not confirmed. */
  function Frontier(s: State): int {
    if s.reader.outbox.Some? then s.cursor - 1 else s.cursor
  }

  ghost predicate Done(t: WalTxn, log: seq<Msg>) {
    forall m :: m in t.owed ==> m in log
  }

  ghost predicate FeedInv(wal: seq<WalTxn>, s: State) {
    && s.cursor <= |wal|
    && (s.cursor == |wal| ==> s.pos == 0)
    && (s.pos > 0 ==>
          var t := wal[s.cursor];
          && s.pos <= |t.body| + 1
          && s.reader.outbox.None?
          && s.reader.open == Some(Open(t.txid, t.commitTs, t.body[..s.pos - 1]))
          && Classified(s.seen, t.body[..s.pos - 1]))
  }

  ghost predicate OutboxInv(wal: seq<WalTxn>, s: State) {
    s.reader.outbox.Some? ==>
      && 0 < s.cursor <= |wal| && s.pos == 0
      && var o, t := s.reader.outbox.value, wal[s.cursor - 1];
         && o.open == OpenOf(t) && o.end == t.end && o.msgs == t.owed
         && o.first <= o.sent <= |o.msgs|
         && (forall k :: 0 <= k < o.first ==> o.msgs[k] in s.log)
  }

  /** A message of one of the first `high + 1` transactions. */
  ghost predicate FromUpTo(wal: seq<WalTxn>, high: nat, m: Msg) {
    exists i :: 0 <= i <= high && i < |wal| && m in wal[i].owed
  }

  ghost predicate OnItsWay(s: State, pass: Pass) {
    forall m :: m in pass.queue ==> m in s.sent
  }

  ghost predicate BrokerInv(wal: seq<WalTxn>, s: State) {
    && Frontier(s) <= s.high <= |wal|
    && (forall i :: 0 <= i < s.high ==> Done(wal[i], s.log))
    && (forall m :: m in s.sent ==> FromUpTo(wal, s.high, m))
    && (forall m :: m in s.log ==> m in s.sent)
    && (forall p :: 0 <= p < |s.passes| ==> OnItsWay(s, s.passes[p]))
  }

  ghost predicate PositionInv(wal: seq<WalTxn>, s: State) {
    0 <= Frontier(s) < |wal| ==> s.slot < wal[Frontier(s)].end && s.reader.flushed < wal[Frontier(s)].end
  }

  ghost predicate Inv(wal: seq<WalTxn>, s: State) {
    FeedInv(wal, s) && OutboxInv(wal, s) && BrokerInv(wal, s) && PositionInv(wal, s)
  }

  /** A broker that holds the id of an owed message holds that message. */
  lemma {:induction false} StoredMeansHeld(wal: seq<WalTxn>, s: State, i: nat, a: nat)
    requires IdsNameMessages(wal) && BrokerInv(wal, s)
    requires IsRow(wal, i, a) && Stored(s.log, wal[i].owed[a].id)
    ensures wal[i].owed[a] in s.log
  {
    var k :| 0 <= k < |s.log| && s.log[k].id == wal[i].owed[a].id;
    assert s.log[k] in s.log;
    var j :| 0 <= j <= s.high && j < |wal| && s.log[k] in wal[j].owed;
    var b :| 0 <= b < |wal[j].owed| && wal[j].owed[b] == s.log[k];
    assert IsRow(wal, j, b);
  }

  lemma {:induction false} SamePendingWithin(part: Catalog, whole: Catalog, body: seq<Frame>)
    requires Within(part, whole) && Classified(part, body)
    ensures PendingRows(part, body) == PendingRows(whole, body)
  {
    if body != [] {
      var rest := body[..|body| - 1];
      assert forall i :: 0 <= i < |rest| ==> rest[i] == body[i];
      SamePendingWithin(part, whole, rest);
    }
  }

  /** A session that finds only part of the catalog, and refuses nothing of a
      transaction, makes of it what the whole catalog makes of it. */
  lemma {:induction false} SameRowsWithin(cfg: Config, part: Catalog, o: Open)
    requires Within(part, cfg.catalog) && Classified(part, o.body)
    ensures MsgsOf(cfg.(catalog := part), o) == MsgsOf(cfg, o)
  {
    SamePendingWithin(part, cfg.catalog, o.body);
    var local := cfg.(catalog := part);
    var rows := PendingRows(part, o.body);
    assert forall i :: 0 <= i < |rows| ==> MsgId(local, rows[i].lsn) == MsgId(cfg, rows[i].lsn);
  }

  lemma {:induction false} DeliverBegin(cfg: Config, wal: seq<WalTxn>, s: State)
    requires Inv(wal, s) && Can(cfg, wal, s, Deliver) && s.pos == 0
    ensures Inv(wal, Do(cfg, wal, s, Deliver))
  {
    var t := wal[s.cursor];
    assert Frames(t)[0] == Begin(t.txid, t.commitTs);
    assert t.body[..0] == [];
  }

  lemma {:induction false} DeliverBody(cfg: Config, wal: seq<WalTxn>, s: State)
    requires WellFormed(wal) && Inv(wal, s) && Can(cfg, wal, s, Deliver) && 0 < s.pos <= |wal[s.cursor].body|
    ensures Inv(wal, Do(cfg, wal, s, Deliver))
  {
    var t := wal[s.cursor];
    var f := t.body[s.pos - 1];
    assert Frames(t)[s.pos] == f && BodyFrame(f);
    assert t.body[..s.pos] == t.body[..s.pos - 1] + [f];
  }

  lemma {:induction false} DeliverCommit(cfg: Config, wal: seq<WalTxn>, s: State)
    requires OwesItsRows(cfg, wal) && Inv(wal, s) && Can(cfg, wal, s, Deliver) && s.pos == |wal[s.cursor].body| + 1
    requires Within(s.seen, cfg.catalog)
    ensures Inv(wal, Do(cfg, wal, s, Deliver))
  {
    var t := wal[s.cursor];
    assert Frames(t)[s.pos] == Commit(t.end);
    assert t.body[..s.pos - 1] == t.body;
    SameRowsWithin(cfg, s.seen, OpenOf(t));
    assert t.owed == MsgsOf(Local(cfg, s), OpenOf(t));
    assert OnItsWay(s, NEW_PASS);
  }

  lemma {:induction false} DeliverKeepsInv(cfg: Config, wal: seq<WalTxn>, s: State)
    requires WellFormed(wal) && OwesItsRows(cfg, wal) && Inv(wal, s) && Can(cfg, wal, s, Deliver)
    requires Within(s.seen, cfg.catalog)
    ensures Inv(wal, Do(cfg, wal, s, Deliver))
  {
    if s.pos == 0 {
      DeliverBegin(cfg, wal, s);
    } else if s.pos <= |wal[s.cursor].body| {
      DeliverBody(cfg, wal, s);
    } else {
      DeliverCommit(cfg, wal, s);
    }
  }

  lemma {:induction false} AppendOnItsWay(s: State, m: Msg)
    requires forall p :: 0 <= p < |s.passes| ==> OnItsWay(s, s.passes[p])
    ensures var next := s.(sent := s.sent + {m}, passes := Append(s.passes, m));
            forall p :: 0 <= p < |next.passes| ==> OnItsWay(next, next.passes[p])
  {
    var next := s.(sent := s.sent + {m}, passes := Append(s.passes, m));
    forall p | 0 <= p < |next.passes| ensures OnItsWay(next, next.passes[p]) {
      if p < |s.passes| {
        assert OnItsWay(s, s.passes[p]);
      }
    }
  }

  lemma {:induction false} SendKeepsInv(cfg: Config, wal: seq<WalTxn>, s: State, l: Label)
    requires Inv(wal, s) && l.Send? && CanAct(cfg, s, l)
    ensures Inv(wal, DoAct(cfg, s, l))
  {
    assert l.msg in wal[s.cursor - 1].owed;
    assert FromUpTo(wal, s.high, l.msg);
    AppendOnItsWay(s, l.msg);
  }

  lemma {:induction false} AckKeepsInv(cfg: Config, wal: seq<WalTxn>, s: State, l: Label)
    requires WellFormed(wal) && IdsNameMessages(wal) && Inv(wal, s) && l.Acknowledge? && CanAct(cfg, s, l)
    ensures Inv(wal, DoAct(cfg, s, l))
  {
    StoredMeansHeld(wal, s, s.cursor - 1, l.index);
    assert s.reader.outbox.value.msgs[l.index] in s.log;
  }

  lemma {:induction false} RaiseHigh(wal: seq<WalTxn>, s: State, high: nat)
    requires forall m :: m in s.sent ==> FromUpTo(wal, s.high, m)
    requires s.high <= high
    ensures forall m :: m in s.sent ==> FromUpTo(wal, high, m)
  {
    forall m | m in s.sent ensures FromUpTo(wal, high, m) {
      var i :| 0 <= i <= s.high && i < |wal| && m in wal[i].owed;
    }
  }

  lemma {:induction false} FullyAckedIsDone(wal: seq<WalTxn>, s: State)
    requires OutboxInv(wal, s) && s.reader.outbox.Some?
    requires s.reader.outbox.value.first == |s.reader.outbox.value.msgs|
    ensures Done(wal[s.cursor - 1], s.log)
  {
    forall m | m in wal[s.cursor - 1].owed ensures m in s.log {
      var k :| 0 <= k < |s.reader.outbox.value.msgs| && s.reader.outbox.value.msgs[k] == m;
    }
  }

  lemma {:induction false} ConfirmKeepsBroker(cfg: Config, wal: seq<WalTxn>, s: State, l: Label)
    requires OutboxInv(wal, s) && BrokerInv(wal, s) && l.Confirm? && CanAct(cfg, s, l)
    ensures BrokerInv(wal, DoAct(cfg, s, l))
  {
    var next := DoAct(cfg, s, l);
    FullyAckedIsDone(wal, s);
    forall i | 0 <= i < next.high ensures Done(wal[i], s.log) {
      if i != s.cursor - 1 {
        assert i < s.high;
      }
    }
    RaiseHigh(wal, s, next.high);
  }

  lemma {:induction false} ConfirmKeepsPosition(cfg: Config, wal: seq<WalTxn>, s: State, l: Label)
    requires WellFormed(wal) && OutboxInv(wal, s) && PositionInv(wal, s) && l.Confirm? && CanAct(cfg, s, l)
    ensures PositionInv(wal, DoAct(cfg, s, l))
  {
    if s.cursor < |wal| {
      assert wal[s.cursor - 1].end < wal[s.cursor].end;
    }
  }

  lemma {:induction false} ConfirmKeepsInv(cfg: Config, wal: seq<WalTxn>, s: State, l: Label)
    requires WellFormed(wal) && Inv(wal, s) && l.Confirm? && CanAct(cfg, s, l)
    ensures Inv(wal, DoAct(cfg, s, l))
  {
    ConfirmKeepsBroker(cfg, wal, s, l);
    ConfirmKeepsPosition(cfg, wal, s, l);
  }

  lemma {:induction false} ActKeepsInv(cfg: Config, wal: seq<WalTxn>, s: State, l: Label)
    requires WellFormed(wal) && IdsNameMessages(wal) && Inv(wal, s) && CanAct(cfg, s, l)
    ensures Inv(wal, DoAct(cfg, s, l))
  {
    match l {
      case Send(_, _) => SendKeepsInv(cfg, wal, s, l);
      case Acknowledge(_, _) => AckKeepsInv(cfg, wal, s, l);
      case PassFailed => assert OnItsWay(s, NEW_PASS);
      case Confirm(_) => ConfirmKeepsInv(cfg, wal, s, l);
    }
  }

  lemma {:induction false} StoreKeepsInv(cfg: Config, wal: seq<WalTxn>, s: State, m: Msg, expired: bool, passes: seq<Pass>)
    requires Inv(wal, s) && m in s.sent
    requires forall p :: 0 <= p < |passes| ==> OnItsWay(s, passes[p])
    ensures Inv(wal, s.(log := Store(s.log, m, expired), passes := passes))
  {
    var log := Store(s.log, m, expired);
    assert forall n :: n in s.log ==> n in log;
  }

  lemma {:induction false} LandNextKeepsInv(cfg: Config, wal: seq<WalTxn>, s: State, e: Event)
    requires Inv(wal, s) && e.LandNext? && Can(cfg, wal, s, e)
    ensures Inv(wal, Do(cfg, wal, s, e))
  {
    assert OnItsWay(s, s.passes[e.pass]) && s.passes[e.pass].queue[0] in s.sent;
    StoreKeepsInv(cfg, wal, s, s.passes[e.pass].queue[0], e.expired, Do(cfg, wal, s, e).passes);
  }

  lemma {:induction false} ServerKeepsInv(cfg: Config, wal: seq<WalTxn>, s: State, e: Event)
    requires Inv(wal, s) && Can(cfg, wal, s, e) && (e.Cut? || e.Feedback?)
    ensures Inv(wal, Do(cfg, wal, s, e))
  {
    if e.Cut? {
      assert OnItsWay(s, s.passes[e.pass]);
    }
  }

  lemma {:induction false} ReadsKeepInv(cfg: Config, wal: seq<WalTxn>, s: State, e: Event)
    requires Inv(wal, s) && Can(cfg, wal, s, e) && (e.Stray? || e.Alive?)
    ensures Inv(wal, Do(cfg, wal, s, e))
  {
  }

  /** The server never resumes past a transaction that is not confirmed. */
  lemma {:induction false} ResumeStaysBehind(cfg: Config, wal: seq<WalTxn>, s: State, position: nat)
    requires Inv(wal, s) && position <= Max(s.slot, s.reader.flushed)
    ensures Resume(wal, position) <= Frontier(s)
  {
    var to := Resume(wal, position);
    assert forall i :: 0 <= i < to ==> wal[i].end <= position;
  }

  lemma {:induction false} ResumesKeepInv(cfg: Config, wal: seq<WalTxn>, s: State, e: Event)
    requires Inv(wal, s) && Can(cfg, wal, s, e) && (e.Recover? || e.Restart?)
    ensures Inv(wal, Do(cfg, wal, s, e))
  {
    ResumeStaysBehind(cfg, wal, s, if e.Recover? then Max(s.slot, s.reader.flushed) else s.slot);
  }

  lemma {:induction false} StepKeepsInv(cfg: Config, wal: seq<WalTxn>, s: State, e: Event)
    requires Hypotheses(cfg, wal) && Inv(wal, s) && Within(s.seen, cfg.catalog) && Can(cfg, wal, s, e)
    ensures Inv(wal, Do(cfg, wal, s, e)) && Within(Do(cfg, wal, s, e).seen, cfg.catalog)
  {
    LsnsMakeIds(cfg, wal);
    match e {
      case Deliver => DeliverKeepsInv(cfg, wal, s);
      case Act(l) => ActKeepsInv(cfg, wal, s, l);
      case Land(m, expired) => StoreKeepsInv(cfg, wal, s, m, expired, s.passes);
      case LandNext(_, _) => LandNextKeepsInv(cfg, wal, s, e);
      case Cut(_, _) => ServerKeepsInv(cfg, wal, s, e);
      case Feedback(_) => ServerKeepsInv(cfg, wal, s, e);
      case Stray(_) => ReadsKeepInv(cfg, wal, s, e);
      case Alive(_) => ReadsKeepInv(cfg, wal, s, e);
      case Recover => ResumesKeepInv(cfg, wal, s, e);
      case Restart(_) => ResumesKeepInv(cfg, wal, s, e);
    }
  }

  lemma {:induction false} RunKeepsInv(cfg: Config, wal: seq<WalTxn>, slot: nat, events: seq<Event>)
    requires Hypotheses(cfg, wal) && FirstSlot(wal, slot)
    requires IsRun(cfg, wal, Init(cfg, slot), events)
    ensures Inv(wal, End(cfg, wal, Init(cfg, slot), events))
    ensures Within(End(cfg, wal, Init(cfg, slot), events).seen, cfg.catalog)
  {
    if events != [] {
      RunKeepsInv(cfg, wal, slot, events[..|events| - 1]);
      StepKeepsInv(cfg, wal, End(cfg, wal, Init(cfg, slot), events[..|events| - 1]), events[|events| - 1]);
    }
  }

  /** Every message of every transaction at or below the confirmed position is
      in the broker, and that position has not reached the end of a transaction
      that is open or not fully acked. */
  ghost predicate NothingLost(wal: seq<WalTxn>, s: State) {
    var confirmed := Max(s.slot, s.reader.flushed);
    && (forall i :: 0 <= i < |wal| && wal[i].end <= confirmed ==> Done(wal[i], s.log))
    && (s.reader.outbox.Some? ==> confirmed < s.reader.outbox.value.end)
    && (s.pos > 0 ==> s.cursor < |wal| && confirmed < wal[s.cursor].end)
  }

  lemma {:induction false} ConfirmedIsBehindFrontier(wal: seq<WalTxn>, s: State, i: nat)
    requires WellFormed(wal) && FeedInv(wal, s) && PositionInv(wal, s) && OutboxInv(wal, s)
    requires i < |wal| && wal[i].end <= Max(s.slot, s.reader.flushed)
    ensures i < Frontier(s)
  {
  }

  lemma {:induction false} InvMeansNothingLost(wal: seq<WalTxn>, s: State)
    requires WellFormed(wal) && Inv(wal, s)
    ensures NothingLost(wal, s)
  {
    forall i | 0 <= i < |wal| && wal[i].end <= Max(s.slot, s.reader.flushed) ensures Done(wal[i], s.log) {
      ConfirmedIsBehindFrontier(wal, s, i);
    }
  }

  /** No loss over whole runs, whatever mix of failed publishes, lost acks, late
      and repeated landings, cancellations, reconnects, crashes and keepalives
      the run holds. */
  lemma {:induction false} NoLoss(cfg: Config, wal: seq<WalTxn>, slot: nat, events: seq<Event>)
    requires Hypotheses(cfg, wal) && FirstSlot(wal, slot)
    requires IsRun(cfg, wal, Init(cfg, slot), events)
    ensures NothingLost(wal, End(cfg, wal, Init(cfg, slot), events))
  {
    RunKeepsInv(cfg, wal, slot, events);
    InvMeansNothingLost(wal, End(cfg, wal, Init(cfg, slot), events));
  }

  /** Within a session the confirmed LSN never decreases, the slot never moves
      back at all, and the broker only grows. */
  lemma {:induction false} ProgressIsKept(cfg: Config, wal: seq<WalTxn>, s: State, e: Event)
    requires WellFormed(wal) && FeedInv(wal, s) && Can(cfg, wal, s, e)
    ensures s.slot <= Do(cfg, wal, s, e).slot
    ensures s.log <= Do(cfg, wal, s, e).log
    ensures !e.Restart? ==> s.reader.flushed <= Do(cfg, wal, s, e).reader.flushed
    ensures s.reader.flushed < Do(cfg, wal, s, e).reader.flushed ==>
              || (e.Act? && e.step.Confirm? && s.reader.outbox.value.first == |s.reader.outbox.value.msgs|)
              || (e.Alive? && s.reader.open.None?)
  {
    if e.Deliver? && 0 < s.pos <= |wal[s.cursor].body| {
      assert BodyFrame(wal[s.cursor].body[s.pos - 1]);
    }
  }

  // ----- The reader inside the system

  /** The label that an event is for the reader, if it is one. */
  ghost function LabelOf(wal: seq<WalTxn>, s: State, e: Event): Option<Label> {
    match e
    case Deliver =>
      if s.cursor < |wal| && s.pos < |Frames(wal[s.cursor])| then Some(Read(Frames(wal[s.cursor])[s.pos])) else None
    case Stray(f) => Some(Read(f))
    case Alive(walEnd) => Some(Read(Keepalive(walEnd)))
    case Act(l) => Some(l)
    case _ => None
  }

  /** The labels of the session at hand: those since the last restart. */
  ghost function SessionTrace(cfg: Config, wal: seq<WalTxn>, s: State, events: seq<Event>): seq<Label>
    requires IsRun(cfg, wal, s, events)
  {
    if events == [] then []
    else
      var rest, e := events[..|events| - 1], events[|events| - 1];
      if e.Restart? then []
      else
        var l := LabelOf(wal, End(cfg, wal, s, rest), e);
        SessionTrace(cfg, wal, s, rest) + (if l.Some? then [l.value] else [])
  }

  lemma {:induction false} StepIsLabel(cfg: Config, wal: seq<WalTxn>, s: State, e: Event)
    requires Can(cfg, wal, s, e) && !e.Restart?
    ensures var l := LabelOf(wal, s, e);
            && Do(cfg, wal, s, e).seen == s.seen
            && if l.Some? then
                 Enabled(Local(cfg, s), s.reader, l.value) &&
                 Do(cfg, wal, s, e).reader == Step(Local(cfg, s), s.reader, l.value)
               else Do(cfg, wal, s, e).reader == s.reader
  {
  }

  /** Every session inside a run is an accepted trace of the reader, so what
      holds of all traces holds of every session of every run. */
  lemma {:induction false} SessionIsAccepted(cfg: Config, wal: seq<WalTxn>, slot: nat, events: seq<Event>)
    requires IsRun(cfg, wal, Init(cfg, slot), events)
    ensures var s := End(cfg, wal, Init(cfg, slot), events);
            Valid(Local(cfg, s), Run(SessionTrace(cfg, wal, Init(cfg, slot), events), s.reader))
  {
    if events != [] {
      var rest, e := events[..|events| - 1], events[|events| - 1];
      SessionIsAccepted(cfg, wal, slot, rest);
      if !e.Restart? {
        var s := End(cfg, wal, Init(cfg, slot), rest);
        StepIsLabel(cfg, wal, s, e);
        var before := SessionTrace(cfg, wal, Init(cfg, slot), rest);
        if LabelOf(wal, s, e).Some? {
          var next := Emit(Local(cfg, s), Run(before, s.reader), LabelOf(wal, s, e).value);
        } else {
          assert before + [] == before;
        }
      }
    }
  }
}
