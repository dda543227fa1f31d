/** The drain loop of services/cdc-reader/src/lib.rs: it buffers decoded rows,
    caches relation classifications, publishes at Commit and only then moves the
    confirmed LSN. It is proved against the automaton of `ReaderSpec`, which
    keeps raw frames and has no cache. */
module Drain {
  import opened Optional
  import opened Events
  import opened ReaderSpec
  import opened Dialogue
  import opened Publish

  /** A transaction held until its Commit. */
  datatype Txn = Txn(txid: nat, commitTs: int, causation: Option<Causation>,
                     rows: seq<Pending>, excluded: map<string, nat>)

  /** How a drain ends, unless the process dies. */
  datatype DrainOutcome = Finished(ending: Ending) | Dead

  /** The decoded buffer stands for the raw frames of the open transaction. */
  predicate Represents(cfg: Config, txn: Option<Txn>, open: Option<Open>) {
    match txn
    case None => open.None?
    case Some(t) =>
      open.Some? &&
      var o := open.value;
      t == Txn(o.txid, o.commitTs, Stamp(o.body), PendingRows(cfg.catalog, o.body),
               ExcludedCounts(cfg.catalog, o.body))
  }

  /** A cached classification is the one the catalog holds. */
  predicate CacheAgrees(cfg: Config, cache: map<nat, Classification>) {
    forall oid :: oid in cache ==> oid in cfg.catalog && cache[oid] == cfg.catalog[oid]
  }

  lemma {:induction false} SnocFacts(cfg: Config, body: seq<Frame>, f: Frame)
    ensures PendingRows(cfg.catalog, body + [f]) ==
            PendingRows(cfg.catalog, body) + (if Publishable(cfg.catalog, f) then [PendingOf(cfg.catalog, f)] else [])
    ensures Stamp(body + [f]) == if IsStamp(f) then f.content else Stamp(body)
    ensures ExcludedCounts(cfg.catalog, body + [f]) ==
            if IsExcluded(cfg.catalog, f) then Bump(ExcludedCounts(cfg.catalog, body), Identity(cfg.catalog[f.oid]))
            else ExcludedCounts(cfg.catalog, body)
  {
    assert (body + [f])[..|body|] == body;
  }

  /** The wire messages of a transaction, built row by row at its Commit. */
  method PrepareMessages(cfg: Config, txn: Txn) returns (msgs: seq<Msg>)
    ensures msgs == Render(cfg, txn.rows, txn.txid, txn.commitTs, txn.causation)
  {
    msgs := [];
    for i := 0 to |txn.rows|
      invariant |msgs| == i
      invariant forall k :: 0 <= k < i ==>
                  msgs[k] == Msg(MsgId(cfg, txn.rows[k].lsn), txn.rows[k], txn.txid, txn.commitTs, txn.causation)
    {
      var row := txn.rows[i];
      msgs := msgs + [Msg(MsgId(cfg, row.lsn), row, txn.txid, txn.commitTs, txn.causation)];
    }
  }

  method MergeRelationCounts(committed: map<string, nat>, pending: map<string, nat>) returns (merged: map<string, nat>)
    ensures merged == Merge(committed, pending)
  {
    merged := committed;
    var left := pending.Keys;
    while left != {}
      invariant left <= pending.Keys
      invariant merged.Keys == committed.Keys + (pending.Keys - left)
      invariant forall k :: k in merged ==>
                  merged[k] == Get(committed, k) + (if k in left then 0 else Get(pending, k))
      decreases left
    {
      var k :| k in left;
      merged := merged[k := Get(merged, k) + pending[k]];
      left := left - {k};
    }
  }

  /** Resolve a relation through the session cache. A miss asks the catalog and
      remembers the answer. `unreachable` says that the lookup connection fails. */
  method ResolveRelation(cfg: Config, cache0: map<nat, Classification>, oid: nat, unreachable: bool)
    returns (found: Option<Classification>, cache: map<nat, Classification>)
    requires CacheAgrees(cfg, cache0)
    ensures CacheAgrees(cfg, cache)
    ensures found.Some? <==> oid in cache0 || (oid in cfg.catalog && !unreachable)
    ensures found.Some? ==> oid in cfg.catalog && found.value == cfg.catalog[oid] && cache.Keys == cache0.Keys + {oid}
    ensures found.None? ==> cache == cache0
  {
    cache := cache0;
    if oid in cache {
      found := Some(cache[oid]);
    } else if unreachable || oid !in cfg.catalog {
      found := None;
    } else {
      cache := cache[oid := cfg.catalog[oid]];
      found := Some(cfg.catalog[oid]);
    }
  }

  /** Why a change frame is refused, in the order of the checks: the lookup fails,
      there is no classification, no transaction, or a value is not UTF-8. */
  function RefusalOf(cfg: Config, open: bool, f: Frame, unreachable: bool): Option<ErrorKind>
    requires f.Change?
  {
    if ControlOwned(f) then None
    else if unreachable then Some(TransientConnection)
    else if f.oid !in cfg.catalog then Some(Configuration)
    else if !open then Some(Protocol)
    else if cfg.catalog[f.oid].Entity? && !(Utf8(f.before) && Utf8(f.after)) then Some(Configuration)
    else None
  }

  /** Take one change frame into the open transaction. `unreachable` says that the
      lookup of an uncached relation fails. */
  method BufferChange(cfg: Config, txn0: Option<Txn>, cache0: map<nat, Classification>, f: Frame,
                      unreachable: bool, ghost r: Reader)
    returns (refusal: Option<ErrorKind>, txn: Option<Txn>, cache: map<nat, Classification>)
    requires f.Change? && (unreachable ==> f.oid !in cache0)
    requires CacheAgrees(cfg, cache0) && r.outbox.None? && Represents(cfg, txn0, r.open)
    ensures CacheAgrees(cfg, cache)
    ensures refusal == RefusalOf(cfg, r.open.Some?, f, unreachable)
    ensures refusal.None? ==> Enabled(cfg, r, Read(f)) && Represents(cfg, txn, Step(cfg, r, Read(f)).open)
    ensures refusal.None? ==> cache.Keys == cache0.Keys + if ControlOwned(f) then {} else {f.oid}
  {
    refusal, txn, cache := None, txn0, cache0;
    if r.open.Some? {
      SnocFacts(cfg, r.open.value.body, f);
    }
    if f.table == CONTROL_ENTITY_MAP || f.table == CONTROL_EXCLUSION_MAP {
      return;
    }
    var found;
    found, cache := ResolveRelation(cfg, cache, f.oid, unreachable);
    if found.None? {
      return Some(if unreachable then TransientConnection else Configuration), txn, cache;
    }
    if txn.None? {
      return Some(Protocol), txn, cache;
    }
    match found.value {
      case Excluded(_, _) =>
        txn := Some(txn.value.(excluded := Bump(txn.value.excluded, Identity(found.value))));
      case Entity(packageId, entityId) =>
        if !Utf8(f.before) || !Utf8(f.after) {
          return Some(Configuration), txn, cache;
        }
        var row := Pending(f.op, ColumnsOf(f.before), ColumnsOf(f.after), packageId, entityId, f.table, f.lsn);
        txn := Some(txn.value.(rows := txn.value.rows + [row]));
    }
  }

  /** The feedback position only moves forward. */
  function UpdateFlushed(flushed: nat, lsn: nat): (next: nat)
    ensures next == Max(flushed, lsn)
  {
    if lsn <= flushed then flushed else lsn
  }

  /** Count a transaction whose messages are all acked, and move the confirmed
      LSN past it. */
  method CountCommit(cfg: Config, taken: Txn, end: nat, tally: Tally, summary0: Summary, flushed0: nat, ghost r: Reader)
    returns (summary: Summary, flushed: nat)
    requires Enabled(cfg, r, Confirm(end))
    requires summary0 == SummaryOf(cfg, r) && flushed0 == r.flushed
    requires var o := r.outbox.value;
             tally == Tally(|MsgsOf(cfg, o.open)|, o.deduped) && taken.excluded == ExcludedCounts(cfg.catalog, o.open.body)
    ensures summary == SummaryOf(cfg, Step(cfg, r, Confirm(end)))
    ensures flushed == Max(flushed0, end) == Step(cfg, r, Confirm(end)).flushed
  {
    ConfirmCounts(cfg, r, end);
    var excluded := MergeRelationCounts(summary0.excluded, taken.excluded);
    flushed := UpdateFlushed(flushed0, end);
    summary := Summary(summary0.commits + 1, summary0.published + tally.published,
                       summary0.deduped + tally.deduped, summary0.truncates, excluded);
  }

  /** The machine has just read the Commit of the buffered transaction. */
  ghost predicate JustCommitted(cfg: Config, heard: seq<Machine>, at: nat, taken: Txn, end: nat) {
    && at < |heard| && heard[at].wait == PassToken && heard[at].run.reader.outbox.Some?
    && var o := heard[at].run.reader.outbox.value;
       && o == Outbox(o.open, end, MsgsOf(cfg, o.open), 0, 0, 0)
       && Represents(cfg, Some(taken), Some(o.open))
  }

  /** Publish a transaction whose Commit has been read and, once every message
      is acked, count it and move the confirmed LSN past it. */
  method CommitTxn(cfg: Config, script: seq<Answer>, taken: Txn, end: nat,
                   summary0: Summary, flushed0: nat, at0: nat, ghost heard: seq<Machine>)
    returns (outcome: Outcome, summary: Summary, flushed: nat, at: nat)
    requires History(cfg, script, heard) && |heard| == |script| + 1
    requires JustCommitted(cfg, heard, at0, taken, end)
    requires summary0 == SummaryOf(cfg, heard[at0].run.reader) && flushed0 == heard[at0].run.reader.flushed
    ensures at0 <= at <= |script|
    ensures match outcome {
              case Done =>
                && heard[at].wait == Settled && Enabled(cfg, heard[at].run.reader, Confirm(end))
                && summary == SummaryOf(cfg, Step(cfg, heard[at].run.reader, Confirm(end)))
                && flushed == Max(flushed0, end) == Step(cfg, heard[at].run.reader, Confirm(end)).flushed
              case Failed => false
              case Stopped => CutShort(script, heard, at)
              case Killed => Died(script, heard, at)
            }
    ensures SameTxn(heard, at0, at)
    ensures !outcome.Done? ==> summary == summary0 && flushed == flushed0
  {
    summary, flushed := summary0, flushed0;
    var msgs := PrepareMessages(cfg, taken);
    var tally, stuck;
    outcome, tally, at, stuck := PublishTxn(cfg, script, msgs, at0, heard);
    if outcome.Done? {
      summary, flushed := CountCommit(cfg, taken, end, tally, summary, flushed, heard[at].run.reader);
    }
  }

  /** Take a frame that is neither a change nor a Commit. */
  method TakeFrame(cfg: Config, txn0: Option<Txn>, summary0: Summary, flushed0: nat, f: Frame, ghost r: Reader)
    returns (txn: Option<Txn>, summary: Summary, flushed: nat)
    requires !f.Change? && !f.Commit?
    requires r.outbox.None? && Represents(cfg, txn0, r.open)
    requires summary0 == SummaryOf(cfg, r) && flushed0 == r.flushed
    ensures Enabled(cfg, r, Read(f))
    ensures var next := Step(cfg, r, Read(f));
            Represents(cfg, txn, next.open) && summary == SummaryOf(cfg, next) && flushed == next.flushed
  {
    txn, summary, flushed := txn0, summary0, flushed0;
    if r.open.Some? {
      SnocFacts(cfg, r.open.value.body, f);
    }
    match f {
      case Begin(txid, commitTs) =>
        txn := Some(Txn(txid, commitTs, None, [], map[]));
      case Message(flags, prefix, content) =>
        var stamp := ParseCausation(flags, prefix, content);
        if stamp.Some? && txn.Some? {
          txn := Some(txn.value.(causation := stamp));
        }
      case Truncate =>
        summary := summary.(truncates := summary.truncates + 1);
      case Keepalive(walEnd) =>
        if txn.None? && walEnd > flushed {
          flushed := UpdateFlushed(flushed, walEnd);
        }
      case Metadata =>
      case Unexpected =>
    }
  }


  // ----- The machine while frames are read

  /** `m` is the machine after `at` answers, with a settled commit confirmed. */
  ghost predicate Now(cfg: Config, heard: seq<Machine>, at: nat, m: Machine) {
    at < |heard| && Fits(cfg, heard[at]) && m == Confirmed(cfg, heard[at])
  }

  /** What holds between two frames of a drain: the machine waits for the next
      event, the buffer stands for its open transaction, the cache for the
      relations it has resolved, and counts and LSN are those of its reader. */
  ghost predicate InSync(cfg: Config, m: Machine, txn: Option<Txn>, cache: map<nat, Classification>,
                         summary: Summary, flushed: nat) {
    && m.wait == NextEvent && m.run.reader.outbox.None?
    && Represents(cfg, txn, m.run.reader.open)
    && CacheAgrees(cfg, cache) && m.known == cache.Keys
    && summary == SummaryOf(cfg, m.run.reader) && flushed == m.run.reader.flushed
  }

  /** What holds when a drain has stopped after `at` answers: the machine ended with
      the last of them, or it waits and there is no further answer. */
  ghost predicate Left(cfg: Config, script: seq<Answer>, heard: seq<Machine>, m: Machine, at: nat,
                       outcome: DrainOutcome, summary: Summary, flushed: nat) {
    && summary == SummaryOf(cfg, m.run.reader) && flushed == m.run.reader.flushed
    && match outcome
       case Finished(ending) =>
         m.wait.Over? && m.wait.ending == ending && 0 < at < |heard| && heard[at].wait.Over? && !heard[at - 1].wait.Over?
       case Dead => !m.wait.Over? && at == |script|
  }

  lemma {:induction false} ReadStep(cfg: Config, script: seq<Answer>, heard: seq<Machine>, at: nat, m: Machine)
    requires History(cfg, script, heard) && at < |script| && Now(cfg, heard, at, m) && !m.wait.Over?
    ensures |heard| == |script| + 1
    ensures Fits(cfg, m) && !m.wait.Settled? && m.known <= cfg.catalog.Keys
    ensures heard[at + 1] == Respond(cfg, m, script[at])
  {
    HistoryStep(cfg, script, heard, at);
  }

  lemma {:induction false} NowAt(cfg: Config, script: seq<Answer>, heard: seq<Machine>, at: nat)
    requires History(cfg, script, heard) && at <= |script| && |heard| == |script| + 1
    ensures Fits(cfg, heard[at])
    ensures !heard[at].wait.Settled? ==> Now(cfg, heard, at, heard[at])
    ensures heard[at].wait.Settled? ==> Now(cfg, heard, at, Confirmed(cfg, heard[at]))
  {
    UptoAt(cfg, script, |script|, at);
  }

  lemma {:induction false} NextFails(cfg: Config, m: Machine, a: Answer)
    requires Fits(cfg, m) && m.known <= cfg.catalog.Keys && m.wait == NextEvent && a.failed
    ensures var n := Respond(cfg, m, a);
            n.wait == Over(if a.error.kind.Cancelled? then Shutdown else Severed(a.error), None) && n.run == m.run
  {
  }

  lemma {:induction false} NextPlain(cfg: Config, m: Machine, a: Answer)
    requires Fits(cfg, m) && m.known <= cfg.catalog.Keys && m.wait == NextEvent && !a.failed
    requires !a.frame.Change? && !a.frame.Commit?
    ensures Enabled(cfg, m.run.reader, Read(a.frame))
    ensures var n := Respond(cfg, m, a);
            n.wait == NextEvent && n.known == m.known && n.run.reader == Step(cfg, m.run.reader, Read(a.frame))
  {
  }

  lemma {:induction false} NextCommit(cfg: Config, m: Machine, a: Answer)
    requires Fits(cfg, m) && m.known <= cfg.catalog.Keys && m.wait == NextEvent && !a.failed && a.frame.Commit?
    ensures var n, r := Respond(cfg, m, a), m.run.reader;
            if r.open.None? then n.wait == Over(Severed(Error(Protocol, false)), Some(a.frame)) && n.run == m.run
            else
              && n.wait == PassToken && n.known == m.known
              && var o := r.open.value;
                 n.run.reader == r.(open := None, outbox := Some(Outbox(o, a.frame.endLsn, MsgsOf(cfg, o), 0, 0, 0)))
  {
  }

  /** The error of a refused change frame. The text of a refusal carries the names
      in the frame, that of a failed lookup is the lookup's own. */
  function RefusalError(kind: ErrorKind, named: bool, lookup: bool): Error {
    match kind
    case TransientConnection => Error(kind, lookup)
    case Protocol => Error(kind, false)
    case _ => Error(kind, named)
  }

  /** A change frame of a known or control-owned relation. */
  lemma {:induction false} NextKnownChange(cfg: Config, m: Machine, a: Answer)
    requires Fits(cfg, m) && m.known <= cfg.catalog.Keys && m.wait == NextEvent && !a.failed && a.frame.Change?
    requires ControlOwned(a.frame) || a.frame.oid in m.known
    ensures var n, r, f := Respond(cfg, m, a), m.run.reader, a.frame;
            var refusal := RefusalOf(cfg, r.open.Some?, f, false);
            if refusal.Some? then
              n.wait == Over(Severed(RefusalError(refusal.value, a.error.mentionsInvalidation, false)), Some(f)) && n.run == m.run
            else
              && Enabled(cfg, r, Read(f)) && n.wait == NextEvent && n.known == m.known
              && n.run.reader == Step(cfg, r, Read(f))
  {
  }

  lemma {:induction false} NextUnknownChange(cfg: Config, m: Machine, a: Answer)
    requires Fits(cfg, m) && m.known <= cfg.catalog.Keys && m.wait == NextEvent && !a.failed && a.frame.Change?
    requires !ControlOwned(a.frame) && a.frame.oid !in m.known
    ensures Respond(cfg, m, a) ==
            m.(wait := Lookup(a.frame, a.error.mentionsInvalidation), asked := m.asked + [NextEvent])
  {
  }

  lemma {:induction false} LookupAnswer(cfg: Config, m: Machine, a: Answer)
    requires Fits(cfg, m) && m.known <= cfg.catalog.Keys && m.wait.Lookup? && m.wait.frame.oid !in m.known
    ensures var n, r, f := Respond(cfg, m, a), m.run.reader, m.wait.frame;
            var refusal := RefusalOf(cfg, r.open.Some?, f, a.failed);
            if refusal.Some? then
              && n.wait == Over(Severed(RefusalError(refusal.value, m.wait.named, a.error.mentionsInvalidation)), Some(f))
              && n.run == m.run
            else
              && Enabled(cfg, r, Read(f)) && n.wait == NextEvent && n.known == m.known + {f.oid}
              && n.run.reader == Step(cfg, r, Read(f))
  {
  }

  // ----- The drain loop

  /** The relations known once a change frame has been looked at. */
  function Learned(known: set<nat>, f: Frame): set<nat>
    requires f.Change?
  {
    if ControlOwned(f) then known else known + {f.oid}
  }

  /** What a change frame leads to from `m`: it is read, or refused with this error. */
  ghost predicate Changes(cfg: Config, m: Machine, n: Machine, f: Frame, unreachable: bool, named: bool, lookup: bool)
    requires f.Change?
  {
    var r := m.run.reader;
    var refusal := RefusalOf(cfg, r.open.Some?, f, unreachable);
    if refusal.Some? then
      n.wait == Over(Severed(RefusalError(refusal.value, named, lookup)), Some(f)) && n.run == m.run
    else
      && Enabled(cfg, r, Read(f)) && n.wait == NextEvent && n.known == Learned(m.known, f)
      && n.run.reader == Step(cfg, r, Read(f))
  }

  lemma {:induction false} KnownChanges(cfg: Config, script: seq<Answer>, heard: seq<Machine>, at: nat, m: Machine)
    requires History(cfg, script, heard) && |heard| == |script| + 1 && at < |script| && Now(cfg, heard, at, m)
    requires m.wait == NextEvent && !script[at].failed && script[at].frame.Change?
    requires ControlOwned(script[at].frame) || script[at].frame.oid in m.known
    ensures Changes(cfg, m, heard[at + 1], script[at].frame, false, script[at].error.mentionsInvalidation, false)
  {
    ReadStep(cfg, script, heard, at, m);
    NextKnownChange(cfg, m, script[at]);
    assert Learned(m.known, script[at].frame) == m.known;
  }

  lemma {:induction false} AsksRelation(cfg: Config, script: seq<Answer>, heard: seq<Machine>, at: nat, m: Machine)
    requires History(cfg, script, heard) && |heard| == |script| + 1 && at < |script| && Now(cfg, heard, at, m)
    requires m.wait == NextEvent && !script[at].failed && script[at].frame.Change?
    requires !ControlOwned(script[at].frame) && script[at].frame.oid !in m.known
    ensures var n := heard[at + 1];
            n.wait == Lookup(script[at].frame, script[at].error.mentionsInvalidation) && n.run == m.run && n.known == m.known
  {
    ReadStep(cfg, script, heard, at, m);
    NextUnknownChange(cfg, m, script[at]);
  }

  lemma {:induction false} LookupChanges(cfg: Config, script: seq<Answer>, heard: seq<Machine>, at: nat, m: Machine,
                                         f: Frame, named: bool)
    requires History(cfg, script, heard) && |heard| == |script| + 1 && at < |script| && f.Change? && f.oid !in m.known
    requires !ControlOwned(f) && heard[at].wait == Lookup(f, named) && heard[at].run == m.run && heard[at].known == m.known
    ensures Changes(cfg, m, heard[at + 1], f, script[at].failed, named, script[at].error.mentionsInvalidation)
  {
    NowAt(cfg, script, heard, at);
    ReadStep(cfg, script, heard, at, heard[at]);
    LookupAnswer(cfg, heard[at], script[at]);
  }

  /** Await the lookup of a relation that is not cached. `killed` says that there was
      no answer. */
  method AwaitRelation(cfg: Config, script: seq<Answer>, cache: map<nat, Classification>, at0: nat,
                       ghost heard: seq<Machine>, ghost m: Machine)
    returns (killed: bool, unreachable: bool, lookup: bool, at: nat)
    requires History(cfg, script, heard) && |heard| == |script| + 1 && at0 < |script| && Now(cfg, heard, at0, m)
    requires m.wait == NextEvent && m.known == cache.Keys && !script[at0].failed && script[at0].frame.Change?
    ensures at0 < at <= |script|
    ensures killed ==> at == |script| && heard[at].wait.Lookup? && heard[at].run == m.run
    ensures !killed ==>
              var f, named := script[at0].frame, script[at0].error.mentionsInvalidation;
              && (unreachable ==> f.oid !in cache) && (at == at0 + 1 || heard[at - 1].wait.Lookup?)
              && Changes(cfg, m, heard[at], f, unreachable, named, lookup)
  {
    var f := script[at0].frame;
    at := at0 + 1;
    killed, unreachable, lookup := false, false, false;
    if f.table != CONTROL_ENTITY_MAP && f.table != CONTROL_EXCLUSION_MAP && f.oid !in cache {
      AsksRelation(cfg, script, heard, at0, m);
      if at == |script| {
        return true, false, false, at;
      }
      LookupChanges(cfg, script, heard, at, m, f, script[at0].error.mentionsInvalidation);
      unreachable, lookup := script[at].failed, script[at].error.mentionsInvalidation;
      at := at + 1;
    } else {
      KnownChanges(cfg, script, heard, at0, m);
    }
  }

  /** Take a change frame, which is the answer at `at0`. The lookup of an uncached
      relation is awaited in its own right. */
  method TakeChange(cfg: Config, script: seq<Answer>, txn0: Option<Txn>, cache0: map<nat, Classification>,
                    summary: Summary, flushed: nat, at0: nat, ghost heard: seq<Machine>, ghost m: Machine)
    returns (left: Option<DrainOutcome>, txn: Option<Txn>, cache: map<nat, Classification>, at: nat)
    requires History(cfg, script, heard) && |heard| == |script| + 1 && at0 < |script| && Now(cfg, heard, at0, m)
    requires InSync(cfg, m, txn0, cache0, summary, flushed)
    requires !script[at0].failed && script[at0].frame.Change?
    ensures at0 < at <= |script| && !heard[at].wait.Settled?
    ensures left.None? ==> InSync(cfg, heard[at], txn, cache, summary, flushed)
    ensures left.Some? ==> Left(cfg, script, heard, heard[at], at, left.value, summary, flushed)
  {
    var f := script[at0].frame;
    left, txn, cache := None, txn0, cache0;
    var killed, unreachable, lookup;
    killed, unreachable, lookup, at := AwaitRelation(cfg, script, cache, at0, heard, m);
    if killed {
      return Some(Dead), txn, cache, at;
    }
    var refusal;
    refusal, txn, cache := BufferChange(cfg, txn, cache, f, unreachable, m.run.reader);
    if refusal.Some? {
      var error := RefusalError(refusal.value, script[at0].error.mentionsInvalidation, lookup);
      return Some(Finished(Severed(error))), txn, cache, at;
    }
    ReadKeepsSummary(cfg, m.run.reader, f);
  }

  lemma {:induction false} ReadKeepsSummary(cfg: Config, r: Reader, f: Frame)
    requires f.Change? && Enabled(cfg, r, Read(f))
    ensures var next := Step(cfg, r, Read(f));
            SummaryOf(cfg, next) == SummaryOf(cfg, r) && next.flushed == r.flushed && next.outbox == r.outbox
  {
  }

  lemma {:induction false} CommitBegins(cfg: Config, script: seq<Answer>, heard: seq<Machine>, at: nat, m: Machine,
                                        txn: Option<Txn>, cache: map<nat, Classification>, summary: Summary, flushed: nat)
    requires History(cfg, script, heard) && |heard| == |script| + 1 && at < |script| && Now(cfg, heard, at, m)
    requires InSync(cfg, m, txn, cache, summary, flushed) && !script[at].failed && script[at].frame.Commit?
    ensures txn.None? ==>
              && heard[at + 1].wait == Over(Severed(Error(Protocol, false)), Some(script[at].frame))
              && heard[at + 1].run == m.run
    ensures txn.Some? ==>
              && JustCommitted(cfg, heard, at + 1, txn.value, script[at].frame.endLsn)
              && heard[at + 1].known == m.known && heard[at + 1].run.reader.open.None?
    ensures summary == SummaryOf(cfg, heard[at + 1].run.reader) && flushed == heard[at + 1].run.reader.flushed
    ensures !heard[at].wait.Over?
  {
    ReadStep(cfg, script, heard, at, m);
    NextCommit(cfg, m, script[at]);
  }

  /** A settled commit is confirmed, and the drain goes on. */
  lemma {:induction false} CommitConfirmed(cfg: Config, settled: Machine, end: nat, cache: map<nat, Classification>)
    requires Fits(cfg, settled) && settled.wait == Settled && settled.run.reader.open.None?
    requires settled.run.reader.outbox.value.end == end && CacheAgrees(cfg, cache) && settled.known == cache.Keys
    ensures Enabled(cfg, settled.run.reader, Confirm(end))
    ensures var r := Step(cfg, settled.run.reader, Confirm(end));
            InSync(cfg, Confirmed(cfg, settled), None, cache, SummaryOf(cfg, r), r.flushed)
  {
  }

  /** Take a Commit frame, which is the answer at `at0`. */
  method TakeCommit(cfg: Config, script: seq<Answer>, txn0: Option<Txn>, cache: map<nat, Classification>,
                    summary0: Summary, flushed0: nat, at0: nat, ghost heard: seq<Machine>, ghost m: Machine)
    returns (left: Option<DrainOutcome>, txn: Option<Txn>, summary: Summary, flushed: nat, at: nat, ghost next: Machine)
    requires History(cfg, script, heard) && |heard| == |script| + 1 && at0 < |script| && Now(cfg, heard, at0, m)
    requires InSync(cfg, m, txn0, cache, summary0, flushed0)
    requires !script[at0].failed && script[at0].frame.Commit?
    ensures at0 < at <= |script| && Now(cfg, heard, at, next)
    ensures left.None? ==>
              InSync(cfg, next, txn, cache, summary, flushed) && flushed == Max(flushed0, script[at0].frame.endLsn)
    ensures left.Some? ==>
              Left(cfg, script, heard, next, at, left.value, summary, flushed) && summary == summary0 && flushed == flushed0
  {
    left, txn, summary, flushed, at := None, None, summary0, flushed0, at0 + 1;
    var end := script[at0].frame.endLsn;
    CommitBegins(cfg, script, heard, at0, m, txn0, cache, summary0, flushed0);
    if txn0.None? {
      NowAt(cfg, script, heard, at);
      return Some(Finished(Severed(Error(Protocol, false)))), txn, summary, flushed, at, heard[at];
    }
    var published;
    published, summary, flushed, at := CommitTxn(cfg, script, txn0.value, end, summary, flushed, at, heard);
    NowAt(cfg, script, heard, at);
    if published.Done? {
      CommitConfirmed(cfg, heard[at], end, cache);
      next := Confirmed(cfg, heard[at]);
    } else {
      left := Some(if published.Killed? then Dead else Finished(Shutdown));
      next := heard[at];
    }
  }

  /** Where a session ends: the machine is over after exactly `at` answers, or it
      has used every answer and still waits. */
  ghost predicate Ends(cfg: Config, script: seq<Answer>, m: Machine, at: nat,
                       outcome: DrainOutcome, summary: Summary, flushed: nat) {
    && at <= |script| && |m.asked| == at
    && summary == SummaryOf(cfg, m.run.reader) && flushed == m.run.reader.flushed
    && match outcome
       case Finished(ending) => m.wait.Over? && m.wait.ending == ending
       case Dead => !m.wait.Over? && at == |script|
  }

  /** Take a frame that is neither a change nor a Commit, or a failure, which is the
      answer at `at0`. */
  method TakeOther(cfg: Config, script: seq<Answer>, txn0: Option<Txn>, cache: map<nat, Classification>,
                   summary0: Summary, flushed0: nat, at0: nat, ghost heard: seq<Machine>, ghost m: Machine)
    returns (left: Option<DrainOutcome>, txn: Option<Txn>, summary: Summary, flushed: nat)
    requires History(cfg, script, heard) && |heard| == |script| + 1 && at0 < |script| && Now(cfg, heard, at0, m)
    requires InSync(cfg, m, txn0, cache, summary0, flushed0)
    requires script[at0].failed || (!script[at0].frame.Change? && !script[at0].frame.Commit?)
    ensures !heard[at0 + 1].wait.Settled?
    ensures left.None? ==> InSync(cfg, heard[at0 + 1], txn, cache, summary, flushed)
    ensures left.Some? ==> Left(cfg, script, heard, heard[at0 + 1], at0 + 1, left.value, summary, flushed)
  {
    var answer := script[at0];
    left, txn, summary, flushed := None, txn0, summary0, flushed0;
    ReadStep(cfg, script, heard, at0, m);
    if answer.failed {
      NextFails(cfg, m, answer);
      left := Some(Finished(if answer.error.kind.Cancelled? then Shutdown else Severed(answer.error)));
    } else {
      NextPlain(cfg, m, answer);
      txn, summary, flushed := TakeFrame(cfg, txn, summary, flushed, answer.frame, m.run.reader);
    }
  }

  lemma {:induction false} DrainBegins(cfg: Config, script: seq<Answer>, heard: seq<Machine>)
    requires History(cfg, script, heard)
    ensures |heard| == |script| + 1 && Now(cfg, heard, 0, START)
    ensures InSync(cfg, START, None, map[], Summary(0, 0, 0, 0, map[]), 0)
  {
    UptoAt(cfg, script, |script|, 0);
  }

  /** Drain one session. Whatever the environment answers, the session ends where
      the machine that takes one answer at a time ends, after as many answers, with
      the summary and the confirmed LSN of the machine's reader. */
  method DrainSession(cfg: Config, script: seq<Answer>)
    returns (outcome: DrainOutcome, summary: Summary, flushed: nat, at: nat)
    ensures Ends(cfg, script, Confirmed(cfg, Heard(cfg, script, |script|)), at, outcome, summary, flushed)
  {
    ghost var heard, m := Upto(cfg, script, |script|), START;
    DrainBegins(cfg, script, heard);
    var txn: Option<Txn> := None;
    summary, flushed, at := Summary(0, 0, 0, 0, map[]), 0, 0;
    var cache: map<nat, Classification> := map[];
    var left: Option<DrainOutcome> := None;
    while left.None?
      invariant at <= |script| && Now(cfg, heard, at, m)
      invariant left.None? ==> InSync(cfg, m, txn, cache, summary, flushed)
      invariant left.Some? ==> Left(cfg, script, heard, m, at, left.value, summary, flushed)
      decreases left.None?, |script| - at
    {
      if at == |script| {
        left := Some(Dead);
      } else if !script[at].failed && script[at].frame.Commit? {
        left, txn, summary, flushed, at, m := TakeCommit(cfg, script, txn, cache, summary, flushed, at, heard, m);
      } else if !script[at].failed && script[at].frame.Change? {
        left, txn, cache, at := TakeChange(cfg, script, txn, cache, summary, flushed, at, heard, m);
        NowAt(cfg, script, heard, at);
        m := heard[at];
      } else {
        left, txn, summary, flushed := TakeOther(cfg, script, txn, cache, summary, flushed, at, heard, m);
        NowAt(cfg, script, heard, at + 1);
        at, m := at + 1, heard[at + 1];
      }
    }
    outcome := left.value;
    EndOfHearing(cfg, script, heard, m, at, outcome, summary, flushed);
  }

  /** A machine that is over, or out of answers, hears nothing more. */
  lemma {:induction false} EndOfHearing(cfg: Config, script: seq<Answer>, heard: seq<Machine>, m: Machine, at: nat,
                                        outcome: DrainOutcome, summary: Summary, flushed: nat)
    requires History(cfg, script, heard) && |heard| == |script| + 1 && at <= |script| && Now(cfg, heard, at, m)
    requires Left(cfg, script, heard, m, at, outcome, summary, flushed)
    ensures Ends(cfg, script, Confirmed(cfg, Heard(cfg, script, |script|)), at, outcome, summary, flushed)
  {
    if outcome.Finished? {
      FinishedInFull(cfg, script, heard, at);
    } else {
      DeadInFull(cfg, script, heard);
    }
    assert Confirmed(cfg, heard[at]).asked == heard[at].asked;
  }

  lemma {:induction false} FinishedInFull(cfg: Config, script: seq<Answer>, heard: seq<Machine>, at: nat)
    requires History(cfg, script, heard) && |heard| == |script| + 1 && 0 < at <= |script|
    requires heard[at].wait.Over? && !heard[at - 1].wait.Over?
    ensures Heard(cfg, script, |script|) == heard[at] && |heard[at].asked| == at
  {
    UptoAt(cfg, script, |script|, at);
    UptoAt(cfg, script, |script|, at - 1);
    OverInFull(cfg, script, at);
  }

  lemma {:induction false} DeadInFull(cfg: Config, script: seq<Answer>, heard: seq<Machine>)
    requires History(cfg, script, heard) && |heard| == |script| + 1 && !heard[|script|].wait.Over?
    ensures Heard(cfg, script, |script|) == heard[|script|] && |heard[|script|].asked| == |script|
  {
    UptoAt(cfg, script, |script|, |script|);
  }

  lemma {:induction false} AsManyAcked(done: seq<Committed>, acked: seq<Acked>)
    requires AckedOpens(acked) == Opens(done)
    ensures |acked| == |done|
  {
    AckedLength(acked);
    DoneLength(done);
  }

  lemma {:induction false} AckedLength(acked: seq<Acked>)
    ensures |AckedOpens(acked)| == |acked|
  {
    if acked != [] {
      AckedLength(acked[..|acked| - 1]);
    }
  }

  lemma {:induction false} DoneLength(done: seq<Committed>)
    ensures |Opens(done)| == |done|
  {
    if done != [] {
      DoneLength(done[..|done| - 1]);
    }
  }

  /** How many of the frames read are settled: all, or all but the commit that is on
      its way. */
  function SettledFrames(r: Reader, frames: seq<Frame>): nat {
    if r.outbox.Some? && frames != [] then |frames| - 1 else |frames|
  }

  lemma {:induction false} ReportFollows(r: Reader, frames: seq<Frame>)
    requires FollowsFrames(r, frames)
    ensures var n := SettledFrames(r, frames);
            |r.acked| == |Parse(frames[..n]).done| && r.flushed == Parse(frames[..n]).reached
  {
    assert frames[..|frames|] == frames;
    AsManyAcked(Parse(frames[..SettledFrames(r, frames)]).done, r.acked);
  }

  /** What a drained session reports, from the delivered frames alone: there is a
      prefix of them, at most two frames short, whose commits are the commits counted
      and whose highest position is the confirmed one. */
  lemma {:induction false} DrainFollowsTheStream(cfg: Config, script: seq<Answer>, at: nat,
                                                 outcome: DrainOutcome, summary: Summary, flushed: nat)
    returns (n: nat)
    requires Ends(cfg, script, Confirmed(cfg, Heard(cfg, script, |script|)), at, outcome, summary, flushed)
    ensures var frames := Delivered(Facts(Confirmed(cfg, Heard(cfg, script, |script|)).asked, script));
            && n <= |frames| <= n + 2
            && summary.commits == |Parse(frames[..n]).done| && flushed == Parse(frames[..n]).reached
  {
    var m := Confirmed(cfg, Heard(cfg, script, |script|));
    SessionFollowsTheStream(cfg, script, |script|);
    var frames, read := Delivered(Facts(m.asked, script)), FramesTaken(m.run.trace);
    n := SettledFrames(m.run.reader, read);
    assert frames[..n] == read[..n];
    ReportFollows(m.run.reader, read);
  }
}
