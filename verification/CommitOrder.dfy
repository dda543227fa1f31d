/** Exactly once and in commit order, for the runs of `System` whose repeats
    land inside the duplicate window. */
module CommitOrder {
  import opened Optional
  import opened Events
  import opened ReaderSpec
  import opened System

  /** Message-id hypothesis: no two published rows share an LSN. */
  ghost predicate DistinctLsns(wal: seq<WalTxn>) {
    forall i, j, a, b ::
      IsRow(wal, i, a) && IsRow(wal, j, b) && RowLsn(wal, i, a) == RowLsn(wal, j, b) ==> i == j && a == b
  }

  ghost predicate DistinctIds(wal: seq<WalTxn>) {
    forall i, j, a, b ::
      IsRow(wal, i, a) && IsRow(wal, j, b) && wal[i].owed[a].id == wal[j].owed[b].id ==> i == j && a == b
  }

  /** Distinct LSNs make distinct message ids. */
  lemma {:induction false} DistinctLsnsMakeDistinctIds(cfg: Config, wal: seq<WalTxn>)
    requires OwesItsRows(cfg, wal) && DistinctLsns(wal)
    ensures DistinctIds(wal)
  {
    forall i, j, a, b | IsRow(wal, i, a) && IsRow(wal, j, b) && wal[i].owed[a].id == wal[j].owed[b].id
      ensures i == j && a == b
    {
      MsgIdInjective(cfg, RowLsn(wal, i, a), RowLsn(wal, j, b));
    }
  }

  lemma {:induction false} SameIdSameMessage(wal: seq<WalTxn>, i: nat, j: nat, m: Msg, n: Msg)
    requires DistinctIds(wal)
    requires i < |wal| && j < |wal| && m in wal[i].owed && n in wal[j].owed
    requires m.id == n.id
    ensures m == n && i == j
  {
    var a :| 0 <= a < |wal[i].owed| && wal[i].owed[a] == m;
    var b :| 0 <= b < |wal[j].owed| && wal[j].owed[b] == n;
    assert IsRow(wal, i, a) && IsRow(wal, j, b);
  }

  predicate Timely(e: Event) {
    (e.Land? ==> !e.expired) && (e.LandNext? ==> !e.expired)
  }

  /** Window hypothesis: no landing is past the duplicate window. */
  predicate InWindow(events: seq<Event>) {
    forall e :: e in events ==> Timely(e)
  }

  ghost predicate NoDuplicates(log: seq<Msg>) {
    forall p, q :: 0 <= p < q < |log| ==> log[p].id != log[q].id
  }

  /** All messages of a transaction stand before any message of a later one. */
  ghost predicate InCommitOrder(wal: seq<WalTxn>, log: seq<Msg>) {
    forall p, q, i, j ::
      (0 <= p < q < |log| && 0 <= i < |wal| && 0 <= j < |wal| && log[p] in wal[i].owed && log[q] in wal[j].owed) ==>
        i <= j
  }

  lemma {:induction false} NotOfDone(t: WalTxn, log: seq<Msg>, m: Msg)
    requires Done(t, log) && !Stored(log, m.id)
    ensures m !in t.owed
  {
    forall p | 0 <= p < |log| ensures log[p] != m {
      assert log[p].id != m.id;
    }
  }

  /** A sent message that the broker does not hold yet belongs to the latest
      transaction that was ever published. */
  lemma {:induction false} NewMessageIsLatest(wal: seq<WalTxn>, s: State, m: Msg, i: nat)
    requires DistinctIds(wal) && BrokerInv(wal, s)
    requires m in s.sent && !Stored(s.log, m.id)
    requires i < |wal| && m in wal[i].owed
    ensures i == s.high
  {
    assert FromUpTo(wal, s.high, m);
    var j :| 0 <= j <= s.high && j < |wal| && m in wal[j].owed;
    SameIdSameMessage(wal, i, j, m, m);
    forall h | 0 <= h < s.high ensures m !in wal[h].owed {
      NotOfDone(wal[h], s.log, m);
    }
  }

  /** What the broker holds is of no later transaction than what lands anew. */
  lemma {:induction false} LandsLast(wal: seq<WalTxn>, s: State, m: Msg, n: Msg, i: nat, j: nat)
    requires DistinctIds(wal) && BrokerInv(wal, s) && m in s.sent && !Stored(s.log, m.id) && n in s.log
    requires i < |wal| && j < |wal| && n in wal[i].owed && m in wal[j].owed
    ensures i <= j
  {
    NewMessageIsLatest(wal, s, m, j);
    var h :| 0 <= h <= s.high && h < |wal| && n in wal[h].owed;
    SameIdSameMessage(wal, i, h, n, n);
  }

  lemma {:induction false} StoreKeepsOrder(wal: seq<WalTxn>, s: State, m: Msg)
    requires DistinctIds(wal) && BrokerInv(wal, s) && m in s.sent
    requires NoDuplicates(s.log) && InCommitOrder(wal, s.log)
    ensures NoDuplicates(Store(s.log, m, false)) && InCommitOrder(wal, Store(s.log, m, false))
  {
    var log := Store(s.log, m, false);
    if log != s.log {
      forall p, q, i, j | 0 <= p < q < |log| && 0 <= i < |wal| && 0 <= j < |wal|
                          && log[p] in wal[i].owed && log[q] in wal[j].owed
        ensures i <= j
      {
        if q == |s.log| {
          LandsLast(wal, s, m, s.log[p], i, j);
        } else {
          assert log[p] == s.log[p] && log[q] == s.log[q];
        }
      }
    }
  }

  lemma {:induction false} StepKeepsOrder(cfg: Config, wal: seq<WalTxn>, s: State, e: Event)
    requires DistinctIds(wal) && BrokerInv(wal, s) && Can(cfg, wal, s, e) && Timely(e)
    requires NoDuplicates(s.log) && InCommitOrder(wal, s.log)
    ensures NoDuplicates(Do(cfg, wal, s, e).log) && InCommitOrder(wal, Do(cfg, wal, s, e).log)
  {
    match e {
      case Land(m, _) => StoreKeepsOrder(wal, s, m);
      case LandNext(p, _) =>
        assert OnItsWay(s, s.passes[p]);
        StoreKeepsOrder(wal, s, s.passes[p].queue[0]);
      case _ => assert Do(cfg, wal, s, e).log == s.log;
    }
  }

  lemma {:induction false} RunKeepsOrder(cfg: Config, wal: seq<WalTxn>, slot: nat, events: seq<Event>)
    requires Hypotheses(cfg, wal) && DistinctLsns(wal) && FirstSlot(wal, slot)
    requires IsRun(cfg, wal, Init(cfg, slot), events) && InWindow(events)
    ensures NoDuplicates(End(cfg, wal, Init(cfg, slot), events).log)
    ensures InCommitOrder(wal, End(cfg, wal, Init(cfg, slot), events).log)
  {
    if events != [] {
      var rest, e := events[..|events| - 1], events[|events| - 1];
      assert e in events && InWindow(rest);
      RunKeepsOrder(cfg, wal, slot, rest);
      RunKeepsInv(cfg, wal, slot, rest);
      DistinctLsnsMakeDistinctIds(cfg, wal);
      StepKeepsOrder(cfg, wal, End(cfg, wal, Init(cfg, slot), rest), e);
    }
  }

  /** Exactly once, in commit order. With distinct row LSNs and every repeat
      inside the duplicate window, messages may land in any order and at any
      time, and the broker still holds each message of each confirmed
      transaction exactly once and keeps transactions in commit order. */
  lemma {:induction false} ExactlyOnceInCommitOrder(cfg: Config, wal: seq<WalTxn>, slot: nat, events: seq<Event>)
    requires Hypotheses(cfg, wal) && DistinctLsns(wal) && FirstSlot(wal, slot)
    requires IsRun(cfg, wal, Init(cfg, slot), events) && InWindow(events)
    ensures var s := End(cfg, wal, Init(cfg, slot), events);
            && (forall i, m :: 0 <= i < |wal| && wal[i].end <= Max(s.slot, s.reader.flushed) && m in wal[i].owed ==>
                  multiset(s.log)[m] == 1)
            && InCommitOrder(wal, s.log)
  {
    RunKeepsOrder(cfg, wal, slot, events);
    NoLoss(cfg, wal, slot, events);
    var s := End(cfg, wal, Init(cfg, slot), events);
    forall i, m | 0 <= i < |wal| && wal[i].end <= Max(s.slot, s.reader.flushed) && m in wal[i].owed
      ensures multiset(s.log)[m] == 1
    {
      assert Done(wal[i], s.log);
      HeldOnce(s.log, m);
    }
  }

  lemma {:induction false} HeldOnce(log: seq<Msg>, m: Msg)
    requires NoDuplicates(log) && m in log
    ensures multiset(log)[m] == 1
  {
    var rest, last := log[..|log| - 1], log[|log| - 1];
    assert log == rest + [last];
    assert forall p :: 0 <= p < |rest| ==> rest[p] == log[p];
    if m == last {
      assert m !in rest;
    } else {
      HeldOnce(rest, m);
    }
  }

  // ----- Order inside a transaction, on a connection that keeps order

  /** Order hypothesis: what lands of a pass is a prefix of what the pass sent, in
      that order. Passes, also those of processes that died, land in any
      interleaving. */
  predicate Fifo(events: seq<Event>) {
    forall e :: e in events ==> Timely(e) && !e.Land?
  }

  /** The messages of the first `n` transactions, in commit order. */
  function Flat(wal: seq<WalTxn>, n: nat): seq<Msg>
    requires n <= |wal|
  {
    if n == 0 then [] else Flat(wal, n - 1) + wal[n - 1].owed
  }

  /** How far into `msgs` a broker that holds `k` of them gets when `m` lands. */
  function Next(msgs: seq<Msg>, k: nat, m: Msg): nat {
    if k < |msgs| && msgs[k] == m then k + 1 else k
  }

  /** Landing `channel` in order never skips a message of `msgs`. */
  ghost predicate Smooth(msgs: seq<Msg>, k: nat, channel: seq<Msg>)
    requires k <= |msgs|
    decreases |channel|
  {
    channel == [] ||
    (var m := channel[0];
     (m in msgs ==> m in msgs[..Next(msgs, k, m)]) && Smooth(msgs, Next(msgs, k, m), channel[1..]))
  }

  ghost function Reach(msgs: seq<Msg>, k: nat, channel: seq<Msg>): (r: nat)
    requires k <= |msgs|
    ensures k <= r <= |msgs|
    decreases |channel|
  {
    if channel == [] then k else Reach(msgs, Next(msgs, k, channel[0]), channel[1..])
  }

  lemma {:induction false} SmoothSnoc(msgs: seq<Msg>, k: nat, channel: seq<Msg>, m: Msg)
    requires k <= |msgs| && Smooth(msgs, k, channel)
    requires m in msgs ==> m in msgs[..Next(msgs, Reach(msgs, k, channel), m)]
    ensures Smooth(msgs, k, channel + [m])
    ensures Reach(msgs, k, channel + [m]) == Next(msgs, Reach(msgs, k, channel), m)
    decreases |channel|
  {
    if channel == [] {
      assert (channel + [m])[1..] == [];
    } else {
      SmoothSnoc(msgs, Next(msgs, k, channel[0]), channel[1..], m);
      assert (channel + [m])[1..] == channel[1..] + [m];
    }
  }

  lemma {:induction false} SmoothPrefix(msgs: seq<Msg>, k: nat, channel: seq<Msg>, n: nat)
    requires k <= |msgs| && n <= |channel| && Smooth(msgs, k, channel)
    ensures Smooth(msgs, k, channel[..n])
    decreases |channel|
  {
    if n > 0 {
      SmoothPrefix(msgs, Next(msgs, k, channel[0]), channel[1..], n - 1);
      assert channel[..n][1..] == channel[1..][..n - 1];
    }
  }

  /** A broker that holds more can only land more. */
  lemma {:induction false} SmoothGrows(msgs: seq<Msg>, k: nat, more: nat, channel: seq<Msg>)
    requires k <= more <= |msgs| && Smooth(msgs, k, channel)
    ensures Smooth(msgs, more, channel) && Reach(msgs, k, channel) <= Reach(msgs, more, channel)
    decreases |channel|
  {
    if channel != [] {
      var m := channel[0];
      if m in msgs {
        var a :| 0 <= a < Next(msgs, k, m) && msgs[a] == m;
        assert msgs[..Next(msgs, more, m)][a] == m;
      }
      SmoothGrows(msgs, Next(msgs, k, m), Next(msgs, more, m), channel[1..]);
    }
  }

  lemma {:induction false} SmoothElsewhere(msgs: seq<Msg>, channel: seq<Msg>)
    requires forall m :: m in channel ==> m !in msgs
    ensures Smooth(msgs, 0, channel)
  {
    if channel != [] {
      assert channel[0] in channel;
      assert forall m :: m in channel[1..] ==> m in channel;
      SmoothElsewhere(msgs, channel[1..]);
    }
  }

  function OwedAt(wal: seq<WalTxn>, i: nat): seq<Msg> {
    if i < |wal| then wal[i].owed else []
  }

  ghost predicate AllSmooth(msgs: seq<Msg>, k: nat, passes: seq<Pass>)
    requires k <= |msgs|
  {
    forall p :: 0 <= p < |passes| ==> Smooth(msgs, k, passes[p].queue)
  }

  /** The broker holds the messages of all confirmed transactions and then the
      first `k` messages of the transaction after them. */
  ghost predicate Aligned(wal: seq<WalTxn>, s: State, k: nat) {
    && s.high <= |wal| && k <= |OwedAt(wal, s.high)|
    && s.log == Flat(wal, s.high) + OwedAt(wal, s.high)[..k]
    && AllSmooth(OwedAt(wal, s.high), k, s.passes)
    && (s.reader.outbox.Some? && Frontier(s) == s.high && !Latest(s.passes).cut ==>
          s.reader.outbox.value.sent <= Reach(OwedAt(wal, s.high), k, Latest(s.passes).queue))
  }

  lemma {:induction false} FlatHolds(wal: seq<WalTxn>, n: nat, m: Msg)
    requires n <= |wal|
    ensures m in Flat(wal, n) <==> exists i :: 0 <= i < n && m in wal[i].owed
  {
    if n > 0 {
      FlatHolds(wal, n - 1, m);
    }
  }

  /** The broker holds no message with the id of the one it waits for. */
  lemma {:induction false} NotHeldOfLatest(wal: seq<WalTxn>, s: State, k: nat, p: nat)
    requires DistinctIds(wal) && Aligned(wal, s, k)
    requires k < |OwedAt(wal, s.high)| && p < |s.log|
    ensures s.log[p].id != OwedAt(wal, s.high)[k].id
  {
    HeldIsBelow(wal, s, k, k, p);
  }

  lemma {:induction false} HeldIsBelow(wal: seq<WalTxn>, s: State, k: nat, a: nat, p: nat)
    requires DistinctIds(wal) && Aligned(wal, s, k)
    requires a < |OwedAt(wal, s.high)| && p < |s.log|
    ensures s.log[p].id == OwedAt(wal, s.high)[a].id ==> a < k
  {
    var msgs, flat := OwedAt(wal, s.high), Flat(wal, s.high);
    if p < |flat| {
      assert s.log[p] in flat;
      FlatHolds(wal, s.high, s.log[p]);
      var i :| 0 <= i < s.high && s.log[p] in wal[i].owed;
      DistinctTxnsDistinctIds(wal, i, s.high, s.log[p], msgs[a]);
    } else {
      assert s.log[p] == msgs[p - |flat|];
      assert IsRow(wal, s.high, a) && IsRow(wal, s.high, p - |flat|);
    }
  }

  lemma {:induction false} DistinctTxnsDistinctIds(wal: seq<WalTxn>, i: nat, j: nat, m: Msg, n: Msg)
    requires DistinctIds(wal) && i < |wal| && j < |wal| && i != j && m in wal[i].owed && n in wal[j].owed
    ensures m.id != n.id
  {
    var a :| 0 <= a < |wal[i].owed| && wal[i].owed[a] == m;
    var b :| 0 <= b < |wal[j].owed| && wal[j].owed[b] == n;
    assert IsRow(wal, i, a) && IsRow(wal, j, b);
  }

  /** A message of the latest transaction that the broker holds is among the
      first `k`. */
  lemma {:induction false} HeldOfLatest(wal: seq<WalTxn>, s: State, k: nat, a: nat)
    requires DistinctIds(wal) && Aligned(wal, s, k)
    requires a < |OwedAt(wal, s.high)| && Stored(s.log, OwedAt(wal, s.high)[a].id)
    ensures a < k
  {
    var p :| 0 <= p < |s.log| && s.log[p].id == OwedAt(wal, s.high)[a].id;
    HeldIsBelow(wal, s, k, a, p);
  }

  /** A message on its way either is the next one that the broker waits for, or
      the broker holds it. */
  lemma {:induction false} NextOrHeld(wal: seq<WalTxn>, s: State, k: nat, m: Msg)
    requires BrokerInv(wal, s) && Aligned(wal, s, k) && m in s.sent
    requires m in OwedAt(wal, s.high) ==> m in OwedAt(wal, s.high)[..k]
    ensures Stored(s.log, m.id)
  {
    var msgs := OwedAt(wal, s.high);
    if m in msgs {
      var a :| 0 <= a < k && msgs[..k][a] == m;
      assert s.log[|Flat(wal, s.high)| + a] == m;
    } else {
      assert FromUpTo(wal, s.high, m);
      var j :| 0 <= j <= s.high && j < |wal| && m in wal[j].owed;
      assert Done(wal[j], s.log);
      var p :| 0 <= p < |s.log| && s.log[p] == m;
    }
  }

  lemma {:induction false} LandedLog(wal: seq<WalTxn>, s: State, k: nat, m: Msg)
    requires DistinctIds(wal) && BrokerInv(wal, s) && Aligned(wal, s, k) && m in s.sent
    requires var msgs := OwedAt(wal, s.high); m in msgs ==> m in msgs[..Next(msgs, k, m)]
    ensures var msgs := OwedAt(wal, s.high);
            Store(s.log, m, false) == Flat(wal, s.high) + msgs[..Next(msgs, k, m)]
  {
    var msgs := OwedAt(wal, s.high);
    if k < |msgs| && msgs[k] == m {
      forall p | 0 <= p < |s.log| ensures s.log[p].id != m.id {
        NotHeldOfLatest(wal, s, k, p);
      }
      assert msgs[..k + 1] == msgs[..k] + [m];
    } else {
      NextOrHeld(wal, s, k, m);
    }
  }

  /** What the landing of the head of pass `p` makes of the passes. */
  lemma {:induction false} LandedPasses(msgs: seq<Msg>, k: nat, passes: seq<Pass>, p: nat)
    requires k <= |msgs| && AllSmooth(msgs, k, passes) && p < |passes| && passes[p].queue != []
    ensures var next := passes[p := passes[p].(queue := passes[p].queue[1..])];
            var more := Next(msgs, k, passes[p].queue[0]);
            && AllSmooth(msgs, more, next)
            && Latest(next).cut == Latest(passes).cut
            && Reach(msgs, k, Latest(passes).queue) <= Reach(msgs, more, Latest(next).queue)
  {
    var next := passes[p := passes[p].(queue := passes[p].queue[1..])];
    var more := Next(msgs, k, passes[p].queue[0]);
    forall q | 0 <= q < |next|
      ensures Smooth(msgs, more, next[q].queue)
      ensures Reach(msgs, k, passes[q].queue) <= Reach(msgs, more, next[q].queue)
    {
      assert Smooth(msgs, k, passes[q].queue);
      if q != p {
        SmoothGrows(msgs, k, more, passes[q].queue);
      }
    }
  }

  lemma {:induction false} LandKeepsAligned(cfg: Config, wal: seq<WalTxn>, s: State, k: nat, p: nat)
    requires DistinctIds(wal) && BrokerInv(wal, s) && Aligned(wal, s, k)
    requires p < |s.passes| && s.passes[p].queue != []
    ensures Aligned(wal, Do(cfg, wal, s, LandNext(p, false)), Next(OwedAt(wal, s.high), k, s.passes[p].queue[0]))
  {
    var msgs := OwedAt(wal, s.high);
    assert OnItsWay(s, s.passes[p]) && Smooth(msgs, k, s.passes[p].queue);
    LandedLog(wal, s, k, s.passes[p].queue[0]);
    LandedPasses(msgs, k, s.passes, p);
  }

  /** The message that is sent next lands without a gap. */
  lemma {:induction false} SendIsSmooth(cfg: Config, wal: seq<WalTxn>, s: State, k: nat, l: Label)
    requires DistinctIds(wal) && Inv(wal, s) && Aligned(wal, s, k)
    requires l.Send? && CanAct(cfg, s, l) && !Latest(s.passes).cut
    ensures var msgs := OwedAt(wal, s.high);
            l.msg in msgs ==> l.msg in msgs[..Next(msgs, Reach(msgs, k, Latest(s.passes).queue), l.msg)]
  {
    var msgs := OwedAt(wal, s.high);
    var reach := Reach(msgs, k, Latest(s.passes).queue);
    if Frontier(s) == s.high {
      if l.index < reach {
        assert msgs[..reach][l.index] == l.msg;
      } else {
        assert msgs[..reach + 1][reach] == l.msg;
      }
    } else {
      forall b | 0 <= b < |msgs| ensures msgs[b] != l.msg {
        DistinctTxnsDistinctIds(wal, s.cursor - 1, s.high, l.msg, msgs[b]);
      }
    }
  }

  lemma {:induction false} AppendedPasses(msgs: seq<Msg>, k: nat, passes: seq<Pass>, m: Msg)
    requires k <= |msgs| && AllSmooth(msgs, k, passes)
    requires !Latest(passes).cut ==>
               (m in msgs ==> m in msgs[..Next(msgs, Reach(msgs, k, Latest(passes).queue), m)])
    ensures AllSmooth(msgs, k, Append(passes, m))
    ensures Latest(Append(passes, m)).cut == Latest(passes).cut
    ensures !Latest(passes).cut ==>
              Reach(msgs, k, Latest(Append(passes, m)).queue) == Next(msgs, Reach(msgs, k, Latest(passes).queue), m)
  {
    if !Latest(passes).cut {
      assert Smooth(msgs, k, Latest(passes).queue);
      SmoothSnoc(msgs, k, Latest(passes).queue, m);
    }
  }

  lemma {:induction false} SendKeepsAligned(cfg: Config, wal: seq<WalTxn>, s: State, k: nat, l: Label)
    requires DistinctIds(wal) && Inv(wal, s) && Aligned(wal, s, k)
    requires l.Send? && CanAct(cfg, s, l)
    ensures Aligned(wal, DoAct(cfg, s, l), k)
  {
    if !Latest(s.passes).cut {
      SendIsSmooth(cfg, wal, s, k, l);
    }
    AppendedPasses(OwedAt(wal, s.high), k, s.passes, l.msg);
  }

  /** A confirmed transaction is held whole. */
  lemma {:induction false} ConfirmedLog(wal: seq<WalTxn>, s: State, k: nat)
    requires DistinctIds(wal) && Aligned(wal, s, k) && s.high < |wal| && Done(wal[s.high], s.log)
    ensures s.log == Flat(wal, s.high + 1)
  {
    var msgs := wal[s.high].owed;
    if |msgs| > 0 {
      assert msgs[|msgs| - 1] in s.log;
      HeldOfLatest(wal, s, k, |msgs| - 1);
    }
    assert msgs[..k] == msgs;
  }

  lemma {:induction false} SentIsOlder(wal: seq<WalTxn>, s: State, m: Msg)
    requires DistinctIds(wal) && BrokerInv(wal, s) && m in s.sent
    ensures m !in OwedAt(wal, s.high + 1)
  {
    assert FromUpTo(wal, s.high, m);
    var j :| 0 <= j <= s.high && j < |wal| && m in wal[j].owed;
    var later := OwedAt(wal, s.high + 1);
    forall b | 0 <= b < |later| ensures later[b] != m {
      DistinctTxnsDistinctIds(wal, j, s.high + 1, m, later[b]);
    }
  }

  lemma {:induction false} PassesAreOlder(wal: seq<WalTxn>, s: State)
    requires DistinctIds(wal) && BrokerInv(wal, s)
    ensures AllSmooth(OwedAt(wal, s.high + 1), 0, s.passes)
  {
    var later := OwedAt(wal, s.high + 1);
    forall p | 0 <= p < |s.passes| ensures Smooth(later, 0, s.passes[p].queue) {
      assert OnItsWay(s, s.passes[p]);
      forall m | m in s.passes[p].queue ensures m !in later {
        SentIsOlder(wal, s, m);
      }
      SmoothElsewhere(later, s.passes[p].queue);
    }
  }

  lemma {:induction false} LatestConfirmed(wal: seq<WalTxn>, s: State, next: State, k: nat)
    requires DistinctIds(wal) && BrokerInv(wal, s) && Aligned(wal, s, k)
    requires s.high < |wal| && Done(wal[s.high], s.log)
    requires next.high == s.high + 1 && next.log == s.log && next.passes == s.passes && next.reader.outbox.None?
    ensures Aligned(wal, next, 0)
  {
    ConfirmedLog(wal, s, k);
    assert s.log == s.log + OwedAt(wal, s.high + 1)[..0];
    PassesAreOlder(wal, s);
  }

  lemma {:induction false} ConfirmKeepsAligned(cfg: Config, wal: seq<WalTxn>, s: State, k: nat, l: Label)
    requires DistinctIds(wal) && Inv(wal, s) && Aligned(wal, s, k)
    requires l.Confirm? && CanAct(cfg, s, l)
    ensures Aligned(wal, DoAct(cfg, s, l), if Frontier(s) == s.high then 0 else k)
  {
    if Frontier(s) == s.high {
      assert Done(wal[s.high], s.log);
      LatestConfirmed(wal, s, DoAct(cfg, s, l), k);
    }
  }

  lemma {:induction false} PassFailKeepsAligned(cfg: Config, wal: seq<WalTxn>, s: State, k: nat)
    requires DistinctIds(wal) && Inv(wal, s) && Aligned(wal, s, k)
    requires CanAct(cfg, s, PassFailed)
    ensures Aligned(wal, DoAct(cfg, s, PassFailed), k)
  {
    var o := s.reader.outbox.value;
    if Frontier(s) == s.high && o.first > 0 {
      assert o.msgs[o.first - 1] in s.log;
      HeldOfLatest(wal, s, k, o.first - 1);
    }
  }

  lemma {:induction false} CutKeepsAligned(cfg: Config, wal: seq<WalTxn>, s: State, k: nat, p: nat, kept: nat)
    requires Aligned(wal, s, k) && Can(cfg, wal, s, Cut(p, kept))
    ensures Aligned(wal, Do(cfg, wal, s, Cut(p, kept)), k)
  {
    assert Smooth(OwedAt(wal, s.high), k, s.passes[p].queue);
    SmoothPrefix(OwedAt(wal, s.high), k, s.passes[p].queue, kept);
  }

  /** Only a Commit fills the outbox, and it begins a pass of its own. */
  lemma {:induction false} CommitBeginsPass(cfg: Config, wal: seq<WalTxn>, s: State)
    requires WellFormed(wal) && Inv(wal, s) && Can(cfg, wal, s, Deliver)
    ensures var next := Do(cfg, wal, s, Deliver);
            && next.high == s.high && next.log == s.log
            && (next.passes == s.passes || next.passes == s.passes + [NEW_PASS])
            && (next.reader.outbox.Some? ==>
                  next.reader.outbox.value.sent == 0 && next.passes == s.passes + [NEW_PASS])
  {
    var t := wal[s.cursor];
    if 0 < s.pos <= |t.body| {
      assert Frames(t)[s.pos] == t.body[s.pos - 1] && BodyFrame(t.body[s.pos - 1]);
    }
  }

  lemma {:induction false} DeliverKeepsAligned(cfg: Config, wal: seq<WalTxn>, s: State, k: nat)
    requires WellFormed(wal) && Inv(wal, s) && Aligned(wal, s, k) && Can(cfg, wal, s, Deliver)
    ensures Aligned(wal, Do(cfg, wal, s, Deliver), k)
  {
    CommitBeginsPass(cfg, wal, s);
  }

  lemma {:induction false} StepKeepsAligned(cfg: Config, wal: seq<WalTxn>, s: State, k: nat, e: Event) returns (next: nat)
    requires WellFormed(wal) && DistinctIds(wal) && Inv(wal, s) && Aligned(wal, s, k)
    requires Can(cfg, wal, s, e) && !e.Land? && (e.LandNext? ==> !e.expired)
    ensures Aligned(wal, Do(cfg, wal, s, e), next)
  {
    next := k;
    match e {
      case LandNext(p, _) =>
        LandKeepsAligned(cfg, wal, s, k, p);
        next := Next(OwedAt(wal, s.high), k, s.passes[p].queue[0]);
      case Act(l) =>
        match l {
          case Send(_, _) => SendKeepsAligned(cfg, wal, s, k, l);
          case Acknowledge(_, _) =>
          case PassFailed => PassFailKeepsAligned(cfg, wal, s, k);
          case Confirm(_) =>
            ConfirmKeepsAligned(cfg, wal, s, k, l);
            next := if Frontier(s) == s.high then 0 else k;
        }
      case Cut(p, kept) => CutKeepsAligned(cfg, wal, s, k, p, kept);
      case Deliver => DeliverKeepsAligned(cfg, wal, s, k);
      case Stray(_) =>
      case Alive(_) =>
      case Feedback(_) =>
      case Recover =>
      case Restart(_) =>
    }
  }

  lemma {:induction false} RunKeepsAligned(cfg: Config, wal: seq<WalTxn>, slot: nat, events: seq<Event>) returns (k: nat)
    requires Hypotheses(cfg, wal) && DistinctLsns(wal) && FirstSlot(wal, slot)
    requires IsRun(cfg, wal, Init(cfg, slot), events) && Fifo(events)
    ensures Aligned(wal, End(cfg, wal, Init(cfg, slot), events), k)
  {
    if events == [] {
      k := 0;
    } else {
      var rest, e := events[..|events| - 1], events[|events| - 1];
      assert e in events && Fifo(rest);
      k := RunKeepsAligned(cfg, wal, slot, rest);
      RunKeepsInv(cfg, wal, slot, rest);
      DistinctLsnsMakeDistinctIds(cfg, wal);
      k := StepKeepsAligned(cfg, wal, End(cfg, wal, Init(cfg, slot), rest), k, e);
    }
  }

  lemma {:induction false} FlatGrows(wal: seq<WalTxn>, m: nat, n: nat)
    requires m <= n <= |wal|
    ensures Flat(wal, m) <= Flat(wal, n)
  {
    if m < n {
      FlatGrows(wal, m, n - 1);
    }
  }

  lemma {:induction false} AlignedMeansPrefix(wal: seq<WalTxn>, s: State, k: nat)
    requires Aligned(wal, s, k)
    ensures s.log <= Flat(wal, |wal|)
    ensures forall n :: 0 <= n <= s.high ==> Flat(wal, n) <= s.log
  {
    if s.high < |wal| {
      FlatGrows(wal, s.high + 1, |wal|);
    }
    forall n | 0 <= n <= s.high ensures Flat(wal, n) <= s.log {
      FlatGrows(wal, n, s.high);
    }
  }

  /** On a connection that keeps order, the stream of the broker is at every
      moment a prefix of all owed messages in commit order, row by row, and that
      prefix covers every confirmed transaction. */
  lemma {:induction false} StreamIsPrefixOfWal(cfg: Config, wal: seq<WalTxn>, slot: nat, events: seq<Event>)
    requires Hypotheses(cfg, wal) && DistinctLsns(wal) && FirstSlot(wal, slot)
    requires IsRun(cfg, wal, Init(cfg, slot), events) && Fifo(events)
    ensures var s := End(cfg, wal, Init(cfg, slot), events);
            && s.log <= Flat(wal, |wal|)
            && (forall n :: 0 <= n < |wal| && wal[n].end <= Max(s.slot, s.reader.flushed) ==> Flat(wal, n + 1) <= s.log)
  {
    var s := End(cfg, wal, Init(cfg, slot), events);
    var k := RunKeepsAligned(cfg, wal, slot, events);
    AlignedMeansPrefix(wal, s, k);
    RunKeepsInv(cfg, wal, slot, events);
    forall n | 0 <= n < |wal| && wal[n].end <= Max(s.slot, s.reader.flushed) ensures Flat(wal, n + 1) <= s.log {
      ConfirmedIsBehindFrontier(wal, s, n);
    }
  }
}
