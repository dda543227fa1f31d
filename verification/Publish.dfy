/** The publish pipeline: `settle_all`, `publish_pass` and `publish_txn` of
    services/cdc-reader/src/lib.rs.

    The methods run over the answers of `script` and are proved against the
    machine of `Dialogue`: at every return the code stands where the machine
    stands after the answers used so far. */
module Publish {
  import opened Optional
  import opened Events
  import opened ReaderSpec
  import opened Dialogue

  datatype Tally = Tally(published: nat, deduped: nat)

  /** How a part of the pipeline ended: everything settled, a send or an ack
      failed, the token was cancelled, or the process was killed. */
  datatype Outcome = Done | Failed | Stopped | Killed

  /** The reader still publishes the same transaction, and nothing else of it
      has changed. */
  predicate SameTransaction(a: Reader, b: Reader) {
    && a.outbox.Some? && b.outbox.Some?
    && a == b.(outbox := a.outbox)
    && a.outbox.value.open == b.outbox.value.open
    && a.outbox.value.end == b.outbox.value.end
    && a.outbox.value.msgs == b.outbox.value.msgs
  }

  ghost predicate SameTxn(heard: seq<Machine>, at0: nat, at: nat) {
    && at0 <= at < |heard| && heard[at0].known == heard[at].known
    && SameTransaction(heard[at0].run.reader, heard[at].run.reader)
  }

  /** After `at` answers the machine waits for `wait`, and the local variables of
      the pipeline are what its outbox says: the acks of `msgs[first..sent]` are
      held, and the tally counts the settled ones. */
  ghost predicate Stands(heard: seq<Machine>, at: nat, wait: Wait, msgs: seq<Msg>, first: nat, sent: nat, tally: Tally) {
    && at < |heard|
    && heard[at].wait == wait && heard[at].run.reader.outbox.Some?
    && var o := heard[at].run.reader.outbox.value;
       o.msgs == msgs && o.first == first && o.sent == sent && tally == Tally(first, o.deduped)
  }

  /** The session is over because the token was cancelled. */
  ghost predicate CutShort(script: seq<Answer>, heard: seq<Machine>, at: nat) {
    && 0 < at < |heard| == |script| + 1 && script[at - 1].cancelled
    && heard[at].wait == Over(Shutdown, None) && !heard[at - 1].wait.Over?
  }

  /** The machine waits, and there is no further answer. */
  ghost predicate Died(script: seq<Answer>, heard: seq<Machine>, at: nat) {
    at == |script| < |heard| && Publishing(heard[at].wait)
  }

  function Count(tally: Tally, duplicate: bool): Tally {
    Tally(tally.published + 1, tally.deduped + if duplicate then 1 else 0)
  }

  /** What the pipeline waits for with `n` acks held, once it settles them. */
  function Held(msgs: seq<Msg>, first: nat, n: nat): Wait {
    if n > 0 then Acking else if first == |msgs| then Settled else SendToken
  }

  // ----- What one answer does to the pipeline

  lemma {:induction false} AckStep(cfg: Config, script: seq<Answer>, heard: seq<Machine>, at: nat,
                                   msgs: seq<Msg>, first: nat, sent: nat, tally: Tally)
    requires History(cfg, script, heard) && at < |script| && Stands(heard, at, Acking, msgs, first, sent, tally)
    ensures first < sent <= |msgs| && SameTxn(heard, at, at + 1)
    ensures script[at].failed ==> Stands(heard, at + 1, Sleeping, msgs, first, first, tally)
    ensures !script[at].failed ==>
              Stands(heard, at + 1, Held(msgs, first + 1, sent - first - 1), msgs, first + 1, sent,
                     Count(tally, script[at].duplicate))
  {
    HistoryStep(cfg, script, heard, at);
  }

  lemma {:induction false} SendTokenStep(cfg: Config, script: seq<Answer>, heard: seq<Machine>, at: nat,
                                         msgs: seq<Msg>, first: nat, sent: nat, tally: Tally)
    requires History(cfg, script, heard) && at < |script| && Stands(heard, at, SendToken, msgs, first, sent, tally)
    ensures first <= sent < |msgs| && sent < first + Max(1, cfg.maxInFlight) && SameTxn(heard, at, at + 1)
    ensures script[at].cancelled ==> CutShort(script, heard, at + 1)
    ensures !script[at].cancelled ==> Stands(heard, at + 1, Sending, msgs, first, sent, tally)
  {
    HistoryStep(cfg, script, heard, at);
  }

  lemma {:induction false} SendStep(cfg: Config, script: seq<Answer>, heard: seq<Machine>, at: nat,
                                    msgs: seq<Msg>, first: nat, sent: nat, tally: Tally)
    requires History(cfg, script, heard) && at < |script| && Stands(heard, at, Sending, msgs, first, sent, tally)
    ensures first <= sent < |msgs| && SameTxn(heard, at, at + 1)
    ensures script[at].failed ==> Stands(heard, at + 1, Sleeping, msgs, first, first, tally)
    ensures !script[at].failed ==>
              Stands(heard, at + 1,
                     if sent + 1 - first >= cfg.maxInFlight || sent + 1 == |msgs| then Acking else SendToken,
                     msgs, first, sent + 1, tally)
  {
    HistoryStep(cfg, script, heard, at);
  }

  lemma {:induction false} PassTokenStep(cfg: Config, script: seq<Answer>, heard: seq<Machine>, at: nat,
                                         msgs: seq<Msg>, first: nat, tally: Tally)
    requires History(cfg, script, heard) && at < |script| && Stands(heard, at, PassToken, msgs, first, first, tally)
    ensures first <= |msgs| && SameTxn(heard, at, at + 1)
    ensures script[at].cancelled ==> CutShort(script, heard, at + 1)
    ensures !script[at].cancelled ==>
              Stands(heard, at + 1, Held(msgs, first, 0), msgs, first, first, tally)
  {
    HistoryStep(cfg, script, heard, at);
  }

  lemma {:induction false} SleepStep(cfg: Config, script: seq<Answer>, heard: seq<Machine>, at: nat,
                                     msgs: seq<Msg>, first: nat, tally: Tally)
    requires History(cfg, script, heard) && at < |script| && Stands(heard, at, Sleeping, msgs, first, first, tally)
    ensures first < |msgs| && SameTxn(heard, at, at + 1)
    ensures script[at].cancelled ==> CutShort(script, heard, at + 1)
    ensures !script[at].cancelled ==> Stands(heard, at + 1, PassToken, msgs, first, first, tally)
  {
    HistoryStep(cfg, script, heard, at);
  }

  // ----- The code

  /** Settle the held acks in order. The first failure stops it. */
  method SettleAll(cfg: Config, script: seq<Answer>, msgs: seq<Msg>,
                   first0: nat, held: seq<nat>, tally0: Tally, at0: nat, ghost heard: seq<Machine>)
    returns (outcome: Outcome, first: nat, tally: Tally, at: nat)
    requires History(cfg, script, heard) && |heard| == |script| + 1
    requires forall i :: 0 <= i < |held| ==> held[i] == first0 + i
    requires first0 + |held| <= |msgs|
    requires Stands(heard, at0, Held(msgs, first0, |held|), msgs, first0, first0 + |held|, tally0)
    ensures SameTxn(heard, at0, at)
    ensures first0 <= first <= first0 + |held| <= |msgs|
    ensures match outcome {
              case Done =>
                && first == first0 + |held| && at == at0 + |held|
                && Stands(heard, at, Held(msgs, first, 0), msgs, first, first, tally)
              case Failed =>
                && first < first0 + |held| && at == at0 + (first - first0) + 1
                && Stands(heard, at, Sleeping, msgs, first, first, tally)
              case Stopped => false
              case Killed =>
                at == at0 + (first - first0) && Died(script, heard, at)
            }
    ensures forall i :: at0 <= i < at ==> script[i].failed == (outcome.Failed? && i == at - 1)
  {
    first, tally, at := first0, tally0, at0;
    for k := 0 to |held|
      invariant SameTxn(heard, at0, at)
      invariant first == first0 + k && at == at0 + k
      invariant Stands(heard, at, Held(msgs, first, |held| - k), msgs, first, first0 + |held|, tally)
      invariant forall i :: at0 <= i < at ==> !script[i].failed
    {
      if at == |script| {
        return Killed, first, tally, at;
      }
      AckStep(cfg, script, heard, at, msgs, first, first0 + |held|, tally);
      var answer := script[at];
      at := at + 1;
      if answer.failed {
        return Failed, first, tally, at;
      }
      first := held[k] + 1;
      tally := Tally(tally.published + 1, tally.deduped);
      if answer.duplicate {
        tally := tally.(deduped := tally.deduped + 1);
      }
    }
    outcome := Done;
  }

  /** Check the token, then send the message at `idx` without waiting for its ack. */
  method SendOne(cfg: Config, script: seq<Answer>, msgs: seq<Msg>, first: nat, idx: nat, tally: Tally, at0: nat,
                 ghost heard: seq<Machine>)
    returns (outcome: Outcome, at: nat)
    requires History(cfg, script, heard) && |heard| == |script| + 1
    requires Stands(heard, at0, SendToken, msgs, first, idx, tally)
    ensures first <= idx < |msgs| && SameTxn(heard, at0, at)
    ensures match outcome {
              case Done =>
                && at == at0 + 2 && !script[at0].cancelled && !script[at0 + 1].failed
                && Stands(heard, at,
                          if idx + 1 - first >= cfg.maxInFlight || idx + 1 == |msgs| then Acking else SendToken,
                          msgs, first, idx + 1, tally)
              case Failed =>
                && at == at0 + 2 && !script[at0].cancelled && script[at0 + 1].failed
                && Stands(heard, at, Sleeping, msgs, first, first, tally)
              case Stopped => at == at0 + 1 && CutShort(script, heard, at)
              case Killed => Died(script, heard, at)
            }
  {
    at := at0;
    if at == |script| {
      return Killed, at;
    }
    SendTokenStep(cfg, script, heard, at, msgs, first, idx, tally);
    at := at + 1;
    if script[at0].cancelled {
      return Stopped, at;
    }
    if at == |script| {
      return Killed, at;
    }
    SendStep(cfg, script, heard, at, msgs, first, idx, tally);
    at := at + 1;
    return if script[at0 + 1].failed then Failed else Done, at;
  }

  /** One pass: send from the first unacked message on, settle whenever the
      pipeline is full, and settle the rest at the end. */
  method PublishPass(cfg: Config, script: seq<Answer>, msgs: seq<Msg>,
                     first0: nat, tally0: Tally, at0: nat, ghost heard: seq<Machine>)
    returns (outcome: Outcome, first: nat, tally: Tally, at: nat)
    requires History(cfg, script, heard) && |heard| == |script| + 1
    requires first0 <= |msgs| && Stands(heard, at0, Held(msgs, first0, 0), msgs, first0, first0, tally0)
    ensures SameTxn(heard, at0, at) && first0 <= first <= |msgs|
    ensures match outcome {
              case Done => first == |msgs| && Stands(heard, at, Settled, msgs, first, first, tally)
              case Failed =>
                && first < |msgs| && 0 < at && script[at - 1].failed
                && Stands(heard, at, Sleeping, msgs, first, first, tally)
              case Stopped => CutShort(script, heard, at)
              case Killed => Died(script, heard, at)
            }
  {
    first, tally, at := first0, tally0, at0;
    var held: seq<nat> := [];
    for idx := first0 to |msgs|
      invariant SameTxn(heard, at0, at)
      invariant first0 <= first && idx == first + |held|
      invariant forall i :: 0 <= i < |held| ==> held[i] == first + i
      invariant idx < |msgs| ==> |held| < Max(1, cfg.maxInFlight)
      invariant Stands(heard, at, if idx < |msgs| then SendToken else Held(msgs, first, |held|), msgs, first, idx, tally)
    {
      outcome, at := SendOne(cfg, script, msgs, first, idx, tally, at, heard);
      if !outcome.Done? {
        return;
      }
      held := held + [idx];
      if |held| >= cfg.maxInFlight {
        outcome, first, tally, at := SettleAll(cfg, script, msgs, first, held, tally, at, heard);
        if !outcome.Done? {
          return;
        }
        held := [];
      }
    }
    outcome, first, tally, at := SettleAll(cfg, script, msgs, first, held, tally, at, heard);
  }

  /** Publish one whole transaction, retrying from the first unacked message.
      `stuck` lists the message each failed pass reports. */
  method PublishTxn(cfg: Config, script: seq<Answer>, msgs: seq<Msg>, at0: nat, ghost heard: seq<Machine>)
    returns (outcome: Outcome, tally: Tally, at: nat, stuck: seq<Msg>)
    requires History(cfg, script, heard) && |heard| == |script| + 1
    requires Stands(heard, at0, PassToken, msgs, 0, 0, Tally(0, 0))
    ensures SameTxn(heard, at0, at)
    ensures match outcome {
              case Done => Stands(heard, at, Settled, msgs, |msgs|, |msgs|, tally)
              case Failed => false
              case Stopped => CutShort(script, heard, at)
              case Killed => Died(script, heard, at)
            }
    ensures forall m :: m in stuck ==> m in msgs
  {
    var first := 0;
    tally, at, stuck := Tally(0, 0), at0, [];
    while true
      invariant SameTxn(heard, at0, at) && Stands(heard, at, PassToken, msgs, first, first, tally)
      invariant forall m :: m in stuck ==> m in msgs
      decreases |script| - at
    {
      if at == |script| {
        return Killed, tally, at, stuck;
      }
      PassTokenStep(cfg, script, heard, at, msgs, first, tally);
      at := at + 1;
      if script[at - 1].cancelled {
        return Stopped, tally, at, stuck;
      }
      outcome, first, tally, at := PublishPass(cfg, script, msgs, first, tally, at, heard);
      if !outcome.Failed? {
        return;
      }
      stuck := stuck + [msgs[first]];
      if at == |script| {
        return Killed, tally, at, stuck;
      }
      SleepStep(cfg, script, heard, at, msgs, first, tally);
      at := at + 1;
      if script[at - 1].cancelled {
        return Stopped, tally, at, stuck;
      }
    }
  }

  /** A transaction whose publish is done has had each message settled exactly
      once, in index order, and none sent again after it settled. */
  lemma {:induction false} DoneIsSettledInOrder(cfg: Config, script: seq<Answer>, heard: seq<Machine>, at: nat,
                                                msgs: seq<Msg>, tally: Tally)
    requires History(cfg, script, heard) && at <= |script| && Stands(heard, at, Settled, msgs, |msgs|, |msgs|, tally)
    ensures SettledInOrder(SinceCommit(heard[at].run.trace), |msgs|)
  {
    UptoAt(cfg, script, |script|, at);
    AcksSettleOnceInOrder(cfg, heard[at].run.trace);
  }
}
