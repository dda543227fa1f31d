/** Exactly when the run theorems hold: two of their hypotheses are necessary,
    shown by building a run that fails without them. */
module Limits {
  import opened Optional
  import opened Events
  import opened ReaderSpec
  import opened System
  import opened CommitOrder

  /** The reader refuses no frame of the transaction. */
  predicate Readable(cfg: Config, t: WalTxn) {
    forall k :: 0 <= k < |t.body| ==>
      var f := t.body[k];
      f.Change? && !ControlOwned(f) ==>
        f.oid in cfg.catalog && (cfg.catalog[f.oid].Entity? ==> Utf8(f.before) && Utf8(f.after))
  }

  ghost predicate AllReadable(cfg: Config, wal: seq<WalTxn>) {
    forall i :: 0 <= i < |wal| ==> Readable(cfg, wal[i])
  }

  /** A run inside the duplicate window that ends in `s`. */
  ghost predicate Reaches(cfg: Config, wal: seq<WalTxn>, slot: nat, events: seq<Event>, s: State) {
    IsRun(cfg, wal, Init(cfg, slot), events) && InWindow(events) && End(cfg, wal, Init(cfg, slot), events) == s
  }

  lemma {:induction false} Extend(cfg: Config, wal: seq<WalTxn>, slot: nat, events: seq<Event>, s: State, e: Event)
    requires Reaches(cfg, wal, slot, events, s) && Can(cfg, wal, s, e) && Timely(e)
    ensures Reaches(cfg, wal, slot, events + [e], Do(cfg, wal, s, e))
  {
    assert (events + [e])[..|events|] == events;
  }

  /** The state in which every frame of the transaction at the cursor has been
      read and nothing of it has been sent. */
  ghost predicate Committed(cfg: Config, wal: seq<WalTxn>, before: State, after: State) {
    && before.cursor < |wal|
    && var t := wal[before.cursor];
       after == before.(
         reader := before.reader.(open := None, truncates := after.reader.truncates,
           outbox := Some(Outbox(OpenOf(t), t.end, MsgsOf(cfg, OpenOf(t)), 0, 0, 0))),
         cursor := before.cursor + 1, pos := 0, passes := before.passes + [NEW_PASS])
  }

  lemma {:induction false} DeliverOne(cfg: Config, wal: seq<WalTxn>, s: State, t: WalTxn, p: nat)
    requires s.cursor < |wal| && wal[s.cursor] == t && WellFormed(wal) && Readable(cfg, t)
    requires p < |t.body| && s.pos == p + 1 && s.reader.outbox.None? && s.seen == cfg.catalog
    requires s.reader.open == Some(Open(t.txid, t.commitTs, t.body[..p]))
    ensures Can(cfg, wal, s, Deliver)
    ensures var next := Do(cfg, wal, s, Deliver);
            next == s.(pos := p + 2,
                       reader := s.reader.(open := Some(Open(t.txid, t.commitTs, t.body[..p + 1])),
                                           truncates := next.reader.truncates))
  {
    assert Local(cfg, s) == cfg;
    assert Frames(t)[p + 1] == t.body[p];
    assert BodyFrame(t.body[p]);
    assert t.body[..p + 1] == t.body[..p] + [t.body[p]];
  }

  /** The first `p` frames of the body of the transaction at the cursor have been read. */
  ghost predicate Begun(wal: seq<WalTxn>, before: State, s: State, p: nat) {
    && before.cursor < |wal| && p <= |wal[before.cursor].body|
    && var t := wal[before.cursor];
       s == before.(pos := p + 1,
                    reader := before.reader.(open := Some(Open(t.txid, t.commitTs, t.body[..p])),
                                             truncates := s.reader.truncates))
  }

  lemma {:induction false} DeliverFirst(cfg: Config, wal: seq<WalTxn>, s: State)
    requires s.cursor < |wal| && s.pos == 0 && s.reader.outbox.None?
    ensures Can(cfg, wal, s, Deliver) && Begun(wal, s, Do(cfg, wal, s, Deliver), 0)
  {
    var t := wal[s.cursor];
    assert Frames(t)[0] == Begin(t.txid, t.commitTs);
    assert t.body[..0] == [];
  }

  lemma {:induction false} DeliverLast(cfg: Config, wal: seq<WalTxn>, before: State, s: State)
    requires before.cursor < |wal| && Begun(wal, before, s, |wal[before.cursor].body|)
    requires before.reader.outbox.None? && before.seen == cfg.catalog
    ensures Can(cfg, wal, s, Deliver) && Committed(cfg, wal, before, Do(cfg, wal, s, Deliver))
  {
    var t := wal[before.cursor];
    assert Local(cfg, s) == cfg;
    assert t.body[..|t.body|] == t.body;
    assert Frames(t)[|t.body| + 1] == Commit(t.end);
  }

  lemma {:induction false} DeliverAll(cfg: Config, wal: seq<WalTxn>, slot: nat, events0: seq<Event>, s0: State)
    returns (events: seq<Event>, s: State)
    requires WellFormed(wal) && AllReadable(cfg, wal)
    requires Reaches(cfg, wal, slot, events0, s0)
    requires s0.cursor < |wal| && s0.pos == 0 && s0.reader.outbox.None? && s0.seen == cfg.catalog
    ensures Reaches(cfg, wal, slot, events, s) && Committed(cfg, wal, s0, s)
  {
    var t := wal[s0.cursor];
    DeliverFirst(cfg, wal, s0);
    Extend(cfg, wal, slot, events0, s0, Deliver);
    events, s := events0 + [Deliver], Do(cfg, wal, s0, Deliver);
    for p := 0 to |t.body|
      invariant Reaches(cfg, wal, slot, events, s) && Begun(wal, s0, s, p)
    {
      DeliverOne(cfg, wal, s, t, p);
      Extend(cfg, wal, slot, events, s, Deliver);
      events, s := events + [Deliver], Do(cfg, wal, s, Deliver);
    }
    DeliverLast(cfg, wal, s0, s);
    Extend(cfg, wal, slot, events, s, Deliver);
    events, s := events + [Deliver], Do(cfg, wal, s, Deliver);
  }

  /** The reader may send the next message while the pipeline has room. */
  lemma {:induction false} SendNext(cfg: Config, wal: seq<WalTxn>, s: State)
    requires s.reader.outbox.Some?
    requires var o := s.reader.outbox.value; o.sent < |o.msgs| && o.sent < o.first + Max(1, cfg.maxInFlight)
    ensures var o := s.reader.outbox.value;
            var send := Act(Send(o.sent, o.msgs[o.sent]));
            && Can(cfg, wal, s, send)
            && Do(cfg, wal, s, send) ==
               s.(sent := s.sent + {o.msgs[o.sent]}, passes := Append(s.passes, o.msgs[o.sent]),
                  reader := s.reader.(outbox := Some(o.(sent := o.sent + 1))))
  {
  }

  lemma {:induction false} LandIsStored(log: seq<Msg>, m: Msg)
    ensures Stored(Store(log, m, false), m.id)
    ensures !Stored(log, m.id) ==> Store(log, m, false) == log + [m]
    ensures forall n :: n in Store(log, m, false) ==> n in log || n == m
    ensures NoDuplicates(log) ==> NoDuplicates(Store(log, m, false))
  {
    if !Stored(log, m.id) {
      assert (log + [m])[|log|] == m;
      forall p | 0 <= p < |log| ensures log[p].id != m.id {
      }
    }
  }

  lemma {:induction false} AckFirst(cfg: Config, wal: seq<WalTxn>, s: State)
    requires s.reader.outbox.Some?
    requires var o := s.reader.outbox.value; o.first < o.sent <= |o.msgs| && Stored(s.log, o.msgs[o.first].id)
    ensures var o := s.reader.outbox.value;
            var ack := Act(Acknowledge(o.first, false));
            && Can(cfg, wal, s, ack)
            && Do(cfg, wal, s, ack) == s.(reader := s.reader.(outbox := Some(o.(first := o.first + 1))))
  {
  }

  /** Send a message, land it and take its ack. */
  lemma {:induction false} PublishOne(cfg: Config, wal: seq<WalTxn>, slot: nat, events0: seq<Event>, s0: State)
    returns (events: seq<Event>, s: State)
    requires Reaches(cfg, wal, slot, events0, s0) && s0.reader.outbox.Some?
    requires var o := s0.reader.outbox.value; o.first == o.sent < |o.msgs|
    requires NoDuplicates(s0.log)
    ensures Reaches(cfg, wal, slot, events, s) && NoDuplicates(s.log)
    ensures var o := s0.reader.outbox.value;
            && s.sent == s0.sent + {o.msgs[o.first]}
            && s == s0.(sent := s.sent, passes := s.passes, log := s.log,
                        reader := s0.reader.(outbox := Some(o.(first := o.first + 1, sent := o.first + 1))))
    ensures (forall m :: m in s0.log ==> m in s0.sent) ==> forall m :: m in s.log ==> m in s.sent
  {
    var o := s0.reader.outbox.value;
    var m := o.msgs[o.first];
    var send, land, ack := Act(Send(o.first, m)), Land(m, false), Act(Acknowledge(o.first, false));
    SendNext(cfg, wal, s0);
    var s1 := Do(cfg, wal, s0, send);
    Extend(cfg, wal, slot, events0, s0, send);
    LandIsStored(s1.log, m);
    var s2 := s1.(log := Store(s1.log, m, false));
    Extend(cfg, wal, slot, events0 + [send], s1, land);
    AckFirst(cfg, wal, s2);
    Extend(cfg, wal, slot, events0 + [send] + [land], s2, ack);
    events, s := events0 + [send] + [land] + [ack], Do(cfg, wal, s2, ack);
  }

  /** Everything that was sent belongs to the first `n` transactions, and the
      broker holds nothing that was not sent. */
  ghost predicate SentBelow(wal: seq<WalTxn>, s: State, n: nat) {
    && (forall m :: m in s.sent ==> exists i :: 0 <= i < n && i < |wal| && m in wal[i].owed)
    && (forall m :: m in s.log ==> m in s.sent)
  }

  /** Publish a whole transaction whose Commit has been read, and confirm it. */
  lemma {:induction false} PublishAll(cfg: Config, wal: seq<WalTxn>, slot: nat, events0: seq<Event>, s0: State)
    returns (events: seq<Event>, s: State)
    requires Reaches(cfg, wal, slot, events0, s0) && NoDuplicates(s0.log)
    requires 0 < s0.cursor <= |wal| && s0.pos == 0 && SentBelow(wal, s0, s0.cursor)
    requires s0.reader.outbox.Some?
    requires var o := s0.reader.outbox.value; o.msgs == wal[s0.cursor - 1].owed && o.first == o.sent == 0
    ensures Reaches(cfg, wal, slot, events, s) && NoDuplicates(s.log) && SentBelow(wal, s, s0.cursor)
    ensures s.cursor == s0.cursor && s.pos == 0 && s.reader.outbox.None? && s.seen == s0.seen
    ensures s0.reader.outbox.value.end <= s.reader.flushed
  {
    var msgs, end := wal[s0.cursor - 1].owed, s0.reader.outbox.value.end;
    events, s := events0, s0;
    for k := 0 to |msgs|
      invariant Reaches(cfg, wal, slot, events, s) && NoDuplicates(s.log) && SentBelow(wal, s, s0.cursor)
      invariant s.cursor == s0.cursor && s.pos == 0 && s.reader.outbox.Some? && s.seen == s0.seen
      invariant var o := s.reader.outbox.value; o.msgs == msgs && o.end == end && o.first == o.sent == k
    {
      assert msgs[k] in wal[s0.cursor - 1].owed;
      events, s := PublishOne(cfg, wal, slot, events, s);
    }
    var confirm := Act(Confirm(end));
    Extend(cfg, wal, slot, events, s, confirm);
    events, s := events + [confirm], Do(cfg, wal, s, confirm);
  }

  /** A run without any failure that confirms the first `n` transactions. */
  lemma {:induction false} SmoothRun(cfg: Config, wal: seq<WalTxn>, slot: nat, n: nat)
    returns (events: seq<Event>, s: State)
    requires WellFormed(wal) && OwesItsRows(cfg, wal) && AllReadable(cfg, wal) && n <= |wal|
    ensures Reaches(cfg, wal, slot, events, s) && NoDuplicates(s.log) && SentBelow(wal, s, n)
    ensures s.cursor == n && s.pos == 0 && s.reader.outbox.None? && s.seen == cfg.catalog
    ensures n > 0 ==> wal[n - 1].end <= s.reader.flushed
  {
    if n == 0 {
      events, s := [], Init(cfg, slot);
    } else {
      events, s := SmoothRun(cfg, wal, slot, n - 1);
      events, s := DeliverAll(cfg, wal, slot, events, s);
      assert SentBelow(wal, s, n);
      events, s := PublishAll(cfg, wal, slot, events, s);
    }
  }

  /** No run loses a message. */
  ghost predicate NeverLoses(cfg: Config, wal: seq<WalTxn>, slot: nat) {
    forall events :: IsRun(cfg, wal, Init(cfg, slot), events) ==> NothingLost(wal, End(cfg, wal, Init(cfg, slot), events))
  }

  /** The reader never loses a message exactly when rows that share an LSN are
      one and the same message. */
  lemma {:induction false} NoLossExactly(cfg: Config, wal: seq<WalTxn>, slot: nat)
    requires WellFormed(wal) && OwesItsRows(cfg, wal) && AllReadable(cfg, wal) && FirstSlot(wal, slot)
    ensures NeverLoses(cfg, wal, slot) <==> LsnsNameMessages(wal)
  {
    if LsnsNameMessages(wal) {
      forall events | IsRun(cfg, wal, Init(cfg, slot), events)
        ensures NothingLost(wal, End(cfg, wal, Init(cfg, slot), events))
      {
        NoLoss(cfg, wal, slot, events);
      }
    }
    if NeverLoses(cfg, wal, slot) {
      forall i, j, a, b | IsRow(wal, i, a) && IsRow(wal, j, b) && RowLsn(wal, i, a) == RowLsn(wal, j, b)
        ensures wal[i].owed[a] == wal[j].owed[b]
      {
        NeverLosingNamesMessages(cfg, wal, slot, i, j, a, b);
      }
    }
  }

  lemma {:induction false} OneMessagePerId(log: seq<Msg>, m: Msg, n: Msg)
    requires NoDuplicates(log) && m in log && n in log && m.id == n.id
    ensures m == n
  {
    var p :| 0 <= p < |log| && log[p] == m;
    var q :| 0 <= q < |log| && log[q] == n;
    assert p == q;
  }

  lemma {:induction false} NothingLostAt(cfg: Config, wal: seq<WalTxn>, slot: nat, events: seq<Event>, s: State)
    requires NeverLoses(cfg, wal, slot) && Reaches(cfg, wal, slot, events, s)
    ensures NothingLost(wal, s)
  {
  }

  lemma {:induction false} ConfirmedAreDone(wal: seq<WalTxn>, s: State)
    requires WellFormed(wal) && NothingLost(wal, s) && (wal != [] ==> wal[|wal| - 1].end <= s.reader.flushed)
    ensures forall i :: 0 <= i < |wal| ==> Done(wal[i], s.log)
  {
    forall i | 0 <= i < |wal| ensures Done(wal[i], s.log) {
      assert i < |wal| - 1 ==> wal[i].end < wal[|wal| - 1].end;
    }
  }

  /** A reader that never loses a message brings every transaction to a broker
      that holds each id once. */
  lemma {:induction false} EveryRowIsHeld(cfg: Config, wal: seq<WalTxn>, slot: nat) returns (log: seq<Msg>)
    requires WellFormed(wal) && OwesItsRows(cfg, wal) && AllReadable(cfg, wal) && NeverLoses(cfg, wal, slot)
    ensures NoDuplicates(log)
    ensures forall i :: 0 <= i < |wal| ==> Done(wal[i], log)
  {
    var events, s := SmoothRun(cfg, wal, slot, |wal|);
    NothingLostAt(cfg, wal, slot, events, s);
    ConfirmedAreDone(wal, s);
    log := s.log;
  }

  lemma {:induction false} RowIds(cfg: Config, wal: seq<WalTxn>, i: nat, a: nat)
    requires OwesItsRows(cfg, wal) && IsRow(wal, i, a)
    ensures wal[i].owed[a].id == MsgId(cfg, RowLsn(wal, i, a))
  {
    assert wal[i].owed == MsgsOf(cfg, OpenOf(wal[i]));
  }

  lemma {:induction false} NeverLosingNamesMessages(cfg: Config, wal: seq<WalTxn>, slot: nat, i: nat, j: nat, a: nat, b: nat)
    requires WellFormed(wal) && OwesItsRows(cfg, wal) && AllReadable(cfg, wal)
    requires NeverLoses(cfg, wal, slot)
    requires IsRow(wal, i, a) && IsRow(wal, j, b) && RowLsn(wal, i, a) == RowLsn(wal, j, b)
    ensures wal[i].owed[a] == wal[j].owed[b]
  {
    RowIds(cfg, wal, i, a);
    RowIds(cfg, wal, j, b);
    var log := EveryRowIsHeld(cfg, wal, slot);
    assert Done(wal[i], log) && Done(wal[j], log);
    OneMessagePerId(log, wal[i].owed[a], wal[j].owed[b]);
  }

  // ----- Order inside a transaction

  /** The rows of one transaction stand in their own order. */
  ghost predicate InRowOrder(wal: seq<WalTxn>, log: seq<Msg>) {
    forall p, q, i, a, b ::
      (0 <= p < q < |log| && IsRow(wal, i, a) && IsRow(wal, i, b)
       && log[p] == wal[i].owed[a] && log[q] == wal[i].owed[b]) ==>
        a <= b
  }

  /** Every run inside the duplicate window keeps row order, however messages land. */
  ghost predicate AlwaysInRowOrder(cfg: Config, wal: seq<WalTxn>, slot: nat) {
    forall events :: IsRun(cfg, wal, Init(cfg, slot), events) && InWindow(events) ==>
      InRowOrder(wal, End(cfg, wal, Init(cfg, slot), events).log)
  }

  /** A message is sent only when the broker holds all rows before it. */
  ghost predicate PriorRowsHeld(wal: seq<WalTxn>, s: State) {
    forall i, a, b :: IsRow(wal, i, a) && IsRow(wal, i, b) && b < a && wal[i].owed[a] in s.sent ==>
      wal[i].owed[b] in s.log
  }

  lemma {:induction false} OneInFlightSend(cfg: Config, wal: seq<WalTxn>, s: State, l: Label)
    requires cfg.maxInFlight <= 1 && DistinctIds(wal) && OutboxInv(wal, s) && PriorRowsHeld(wal, s)
    requires l.Send? && CanAct(cfg, s, l)
    ensures PriorRowsHeld(wal, DoAct(cfg, s, l))
  {
    forall i, a, b | IsRow(wal, i, a) && IsRow(wal, i, b) && b < a && wal[i].owed[a] in s.sent + {l.msg}
      ensures wal[i].owed[b] in s.log
    {
      if wal[i].owed[a] !in s.sent {
        assert IsRow(wal, s.cursor - 1, l.index) && wal[s.cursor - 1].owed[l.index].id == wal[i].owed[a].id;
      }
    }
  }

  lemma {:induction false} LandKeepsRowOrder(wal: seq<WalTxn>, s: State, m: Msg)
    requires DistinctIds(wal) && BrokerInv(wal, s) && PriorRowsHeld(wal, s) && m in s.sent
    requires InRowOrder(wal, s.log)
    ensures InRowOrder(wal, Store(s.log, m, false))
  {
    var log := Store(s.log, m, false);
    forall p, q, i, a, b | 0 <= p < q < |log| && IsRow(wal, i, a) && IsRow(wal, i, b)
                           && log[p] == wal[i].owed[a] && log[q] == wal[i].owed[b]
      ensures a <= b
    {
      if q < |s.log| {
        assert log[p] == s.log[p] && log[q] == s.log[q];
      } else {
        assert log[p] in s.log && log[p] in s.sent;
      }
    }
  }

  lemma {:induction false} OneInFlightStep(cfg: Config, wal: seq<WalTxn>, s: State, e: Event)
    requires cfg.maxInFlight <= 1 && DistinctIds(wal) && Inv(wal, s) && Can(cfg, wal, s, e) && Timely(e)
    requires PriorRowsHeld(wal, s) && InRowOrder(wal, s.log)
    ensures PriorRowsHeld(wal, Do(cfg, wal, s, e)) && InRowOrder(wal, Do(cfg, wal, s, e).log)
  {
    var next := Do(cfg, wal, s, e);
    match e {
      case Land(m, _) => LandKeepsRowOrder(wal, s, m);
      case LandNext(p, _) =>
        assert OnItsWay(s, s.passes[p]);
        LandKeepsRowOrder(wal, s, s.passes[p].queue[0]);
      case Act(l) =>
        if l.Send? {
          OneInFlightSend(cfg, wal, s, l);
        }
        assert next.log == s.log;
      case _ =>
        assert next.log == s.log && next.sent == s.sent;
    }
  }

  lemma {:induction false} OneInFlightKeepsRowOrder(cfg: Config, wal: seq<WalTxn>, slot: nat, events: seq<Event>)
    requires cfg.maxInFlight <= 1 && Hypotheses(cfg, wal) && DistinctLsns(wal) && FirstSlot(wal, slot)
    requires IsRun(cfg, wal, Init(cfg, slot), events) && InWindow(events)
    ensures PriorRowsHeld(wal, End(cfg, wal, Init(cfg, slot), events))
    ensures InRowOrder(wal, End(cfg, wal, Init(cfg, slot), events).log)
  {
    if events != [] {
      var rest, e := events[..|events| - 1], events[|events| - 1];
      assert e in events && InWindow(rest);
      OneInFlightKeepsRowOrder(cfg, wal, slot, rest);
      RunKeepsInv(cfg, wal, slot, rest);
      DistinctLsnsMakeDistinctIds(cfg, wal);
      OneInFlightStep(cfg, wal, End(cfg, wal, Init(cfg, slot), rest), e);
    }
  }

  lemma {:induction false} NotHeldYet(wal: seq<WalTxn>, s: State, n: nat, a: nat)
    requires DistinctIds(wal) && SentBelow(wal, s, n) && IsRow(wal, n, a)
    ensures !Stored(s.log, wal[n].owed[a].id)
  {
    forall k | 0 <= k < |s.log| ensures s.log[k].id != wal[n].owed[a].id {
      assert s.log[k] in s.log;
      var i :| 0 <= i < n && i < |wal| && s.log[k] in wal[i].owed;
      var b :| 0 <= b < |wal[i].owed| && wal[i].owed[b] == s.log[k];
      assert IsRow(wal, i, b);
    }
  }

  /** Send two messages, then land the second before the first. */
  lemma {:induction false} Overtake(cfg: Config, wal: seq<WalTxn>, slot: nat, events0: seq<Event>, s0: State)
    returns (events: seq<Event>, s: State)
    requires Reaches(cfg, wal, slot, events0, s0) && cfg.maxInFlight > 1 && s0.reader.outbox.Some?
    requires var o := s0.reader.outbox.value;
             && o.first == o.sent == 0 && |o.msgs| > 1 && o.msgs[0].id != o.msgs[1].id
             && !Stored(s0.log, o.msgs[0].id) && !Stored(s0.log, o.msgs[1].id)
    ensures Reaches(cfg, wal, slot, events, s)
    ensures s.log == s0.log + [s0.reader.outbox.value.msgs[1], s0.reader.outbox.value.msgs[0]]
  {
    var m0, m1 := s0.reader.outbox.value.msgs[0], s0.reader.outbox.value.msgs[1];
    SendNext(cfg, wal, s0);
    Extend(cfg, wal, slot, events0, s0, Act(Send(0, m0)));
    events, s := events0 + [Act(Send(0, m0))], Do(cfg, wal, s0, Act(Send(0, m0)));
    SendNext(cfg, wal, s);
    Extend(cfg, wal, slot, events, s, Act(Send(1, m1)));
    events, s := events + [Act(Send(1, m1))], Do(cfg, wal, s, Act(Send(1, m1)));
    LandIsStored(s.log, m1);
    Extend(cfg, wal, slot, events, s, Land(m1, false));
    events, s := events + [Land(m1, false)], Do(cfg, wal, s, Land(m1, false));
    assert !Stored(s.log, m0.id);
    LandIsStored(s.log, m0);
    Extend(cfg, wal, slot, events, s, Land(m0, false));
    events, s := events + [Land(m0, false)], Do(cfg, wal, s, Land(m0, false));
  }

  /** With two messages in flight the second can land first. */
  lemma {:induction false} OvertakingRun(cfg: Config, wal: seq<WalTxn>, slot: nat, n: nat) returns (events: seq<Event>, s: State)
    requires WellFormed(wal) && OwesItsRows(cfg, wal) && AllReadable(cfg, wal) && DistinctLsns(wal)
    requires cfg.maxInFlight > 1 && n < |wal| && |wal[n].owed| > 1
    ensures Reaches(cfg, wal, slot, events, s) && !InRowOrder(wal, s.log)
  {
    DistinctLsnsMakeDistinctIds(cfg, wal);
    assert IsRow(wal, n, 0) && IsRow(wal, n, 1);
    events, s := SmoothRun(cfg, wal, slot, n);
    NotHeldYet(wal, s, n, 0);
    NotHeldYet(wal, s, n, 1);
    var held := |s.log|;
    events, s := DeliverAll(cfg, wal, slot, events, s);
    events, s := Overtake(cfg, wal, slot, events, s);
    assert s.log[held] == wal[n].owed[1] && s.log[held + 1] == wal[n].owed[0];
  }

  /** Without an ordered connection, rows keep their order in every run exactly
      when the pipeline holds one message at a time or no transaction owes two. */
  lemma {:induction false} RowOrderExactly(cfg: Config, wal: seq<WalTxn>, slot: nat)
    requires Hypotheses(cfg, wal) && AllReadable(cfg, wal) && DistinctLsns(wal) && FirstSlot(wal, slot)
    ensures AlwaysInRowOrder(cfg, wal, slot) <==>
            (cfg.maxInFlight <= 1 || forall n :: 0 <= n < |wal| ==> |wal[n].owed| <= 1)
  {
    if cfg.maxInFlight <= 1 {
      forall events | IsRun(cfg, wal, Init(cfg, slot), events) && InWindow(events)
        ensures InRowOrder(wal, End(cfg, wal, Init(cfg, slot), events).log)
      {
        OneInFlightKeepsRowOrder(cfg, wal, slot, events);
      }
    } else if n :| 0 <= n < |wal| && |wal[n].owed| > 1 {
      var events, s := OvertakingRun(cfg, wal, slot, n);
    } else {
      forall events | IsRun(cfg, wal, Init(cfg, slot), events) && InWindow(events)
        ensures InRowOrder(wal, End(cfg, wal, Init(cfg, slot), events).log)
      {
      }
    }
  }
}
