/** What the reader may do with one session, as an automaton over labels.

    It keeps raw frames instead of decoded rows and looks every relation up
    afresh, so it is the specification that `Publish` and `Drain` refine and
    the reader that `System` composes with the slot and the broker. */
module ReaderSpec {
  import opened Optional
  import opened Events

  /** A committed transaction on its way to the broker. The acks of
      `msgs[first..sent]` are held. */
  datatype Outbox = Outbox(open: Open, end: nat, msgs: seq<Msg>, first: nat, sent: nat, deduped: nat)

  datatype Acked = Acked(open: Open, deduped: nat)

  datatype Reader = Reader(
    open: Option<Open>,
    outbox: Option<Outbox>,
    flushed: nat,
    acked: seq<Acked>,
    truncates: nat)

  const FRESH := Reader(None, None, 0, [], 0)

  datatype Label =
    | Read(frame: Frame)
    | Send(index: nat, msg: Msg)
    | Acknowledge(index: nat, duplicate: bool)
    | PassFailed
    | Confirm(lsn: nat)

  function Max(a: int, b: int): int {
    if a < b then b else a
  }

  /** A frame that ends the session instead of being taken. */
  predicate Refused(cfg: Config, r: Reader, f: Frame) {
    match f
    case Commit(_) => r.open.None?
    case Change(_, _, before, after, _, oid) =>
      !ControlOwned(f) &&
      (oid !in cfg.catalog || r.open.None? ||
       (cfg.catalog[oid].Entity? && !(Utf8(before) && Utf8(after))))
    case _ => false
  }

  predicate Enabled(cfg: Config, r: Reader, l: Label) {
    match l
    case Read(f) => r.outbox.None? && !Refused(cfg, r, f)
    case Send(i, m) =>
      r.outbox.Some? &&
      var o := r.outbox.value;
      i == o.sent < |o.msgs| && m == o.msgs[i] && o.sent < o.first + Max(1, cfg.maxInFlight)
    case Acknowledge(i, _) =>
      r.outbox.Some? && i == r.outbox.value.first < r.outbox.value.sent
    case PassFailed => r.outbox.Some? && r.outbox.value.first < |r.outbox.value.msgs|
    case Confirm(lsn) =>
      r.outbox.Some? && lsn == r.outbox.value.end && r.outbox.value.first == |r.outbox.value.msgs|
  }

  function TakeFrame(cfg: Config, r: Reader, f: Frame): Reader
    requires Enabled(cfg, r, Read(f))
  {
    match f
    case Begin(txid, commitTs) => r.(open := Some(Open(txid, commitTs, [])))
    case Commit(end) =>
      var o := r.open.value;
      r.(open := None, outbox := Some(Outbox(o, end, MsgsOf(cfg, o), 0, 0, 0)))
    case Keepalive(walEnd) =>
      if r.open.None? then r.(flushed := Max(r.flushed, walEnd)) else r
    case Truncate => Buffer(r, f).(truncates := r.truncates + 1)
    case _ => Buffer(r, f)
  }

  function Buffer(r: Reader, f: Frame): Reader {
    if r.open.Some? then r.(open := Some(r.open.value.(body := r.open.value.body + [f]))) else r
  }

  function Step(cfg: Config, r: Reader, l: Label): Reader
    requires Enabled(cfg, r, l)
  {
    match l
    case Read(f) => TakeFrame(cfg, r, f)
    case Send(_, _) =>
      var o := r.outbox.value;
      r.(outbox := Some(o.(sent := o.sent + 1)))
    case Acknowledge(_, duplicate) =>
      var o := r.outbox.value;
      r.(outbox := Some(o.(first := o.first + 1, deduped := o.deduped + if duplicate then 1 else 0)))
    case PassFailed =>
      var o := r.outbox.value;
      r.(outbox := Some(o.(sent := o.first)))
    case Confirm(lsn) =>
      var o := r.outbox.value;
      r.(outbox := None, flushed := Max(r.flushed, lsn), acked := r.acked + [Acked(o.open, o.deduped)])
  }

  // ----- Traces

  predicate Accepted(cfg: Config, r: Reader, trace: seq<Label>)
    decreases |trace|, 0
  {
    trace == [] ||
    (Accepted(cfg, r, trace[..|trace| - 1]) &&
     Enabled(cfg, After(cfg, r, trace[..|trace| - 1]), trace[|trace| - 1]))
  }

  function After(cfg: Config, r: Reader, trace: seq<Label>): Reader
    requires Accepted(cfg, r, trace)
    decreases |trace|, 1
  {
    if trace == [] then r
    else Step(cfg, After(cfg, r, trace[..|trace| - 1]), trace[|trace| - 1])
  }

  /** A session so far: the labels taken since it opened and the state they lead
      to. */
  datatype Run = Run(trace: seq<Label>, reader: Reader)

  ghost predicate Valid(cfg: Config, run: Run) {
    Accepted(cfg, FRESH, run.trace) && After(cfg, FRESH, run.trace) == run.reader
  }

  /** Take one label. */
  function Emit(cfg: Config, run: Run, l: Label): (next: Run)
    requires Valid(cfg, run)
    requires Enabled(cfg, run.reader, l)
    ensures Valid(cfg, next)
  {
    assert (run.trace + [l])[..|run.trace|] == run.trace;
    Run(run.trace + [l], Step(cfg, run.reader, l))
  }

  // ----- A transaction before its Commit

  predicate InsideTransaction(l: Label) {
    l.Read? && !l.frame.Begin? && !l.frame.Commit?
  }

  /** The frames read by `labels`, without the keepalives among them. */
  function FramesRead(labels: seq<Label>): seq<Frame> {
    if labels == [] then []
    else
      var l := labels[|labels| - 1];
      FramesRead(labels[..|labels| - 1]) + (if l.Read? && !l.frame.Keepalive? then [l.frame] else [])
  }

  /** After a Begin the open transaction is exactly the frames read since, also
      when an earlier transaction was left unfinished, and until its Commit
      nothing is sent, counted or confirmed. */
  lemma {:induction false} UnfinishedTransaction(cfg: Config, r: Reader, begin: Frame, labels: seq<Label>)
    requires begin.Begin? && Accepted(cfg, r, [Read(begin)] + labels)
    requires forall l :: l in labels ==> InsideTransaction(l)
    ensures var after := After(cfg, r, [Read(begin)] + labels);
            after == r.(open := Some(Open(begin.txid, begin.commitTs, FramesRead(labels))),
                        truncates := after.truncates)
    decreases |labels|
  {
    var trace := [Read(begin)] + labels;
    if labels == [] {
      assert trace[..|trace| - 1] == [];
    } else {
      var rest := labels[..|labels| - 1];
      assert trace[..|trace| - 1] == [Read(begin)] + rest;
      assert labels[|labels| - 1] in labels;
      assert FramesRead(rest) + [] == FramesRead(rest);
      UnfinishedTransaction(cfg, r, begin, rest);
    }
  }

  // ----- Counts of a session

  datatype Summary = Summary(commits: nat, published: nat, deduped: nat, truncates: nat, excluded: map<string, nat>)

  function Published(cfg: Config, acked: seq<Acked>): nat {
    if acked == [] then 0
    else Published(cfg, acked[..|acked| - 1]) + |MsgsOf(cfg, acked[|acked| - 1].open)|
  }

  function Deduped(acked: seq<Acked>): nat {
    if acked == [] then 0
    else Deduped(acked[..|acked| - 1]) + acked[|acked| - 1].deduped
  }

  function Exclusions(cfg: Config, acked: seq<Acked>): map<string, nat> {
    if acked == [] then map[]
    else Merge(Exclusions(cfg, acked[..|acked| - 1]),
               ExcludedCounts(cfg.catalog, acked[|acked| - 1].open.body))
  }

  function ControlOwnedRows(acked: seq<Acked>): nat {
    if acked == [] then 0
    else ControlOwnedRows(acked[..|acked| - 1]) + ControlRows(acked[|acked| - 1].open.body)
  }

  function ChangeFrames(acked: seq<Acked>): nat {
    if acked == [] then 0
    else ChangeFrames(acked[..|acked| - 1]) + |Changes(acked[|acked| - 1].open.body)|
  }

  /** The summary that a session owes for its acknowledged transactions. */
  function SummaryOf(cfg: Config, r: Reader): Summary {
    Summary(|r.acked|, Published(cfg, r.acked), Deduped(r.acked), r.truncates, Exclusions(cfg, r.acked))
  }

  lemma {:induction false} ConfirmCounts(cfg: Config, r: Reader, lsn: nat)
    requires Enabled(cfg, r, Confirm(lsn))
    ensures var before, o := SummaryOf(cfg, r), r.outbox.value;
            SummaryOf(cfg, Step(cfg, r, Confirm(lsn))) ==
            Summary(before.commits + 1, before.published + |MsgsOf(cfg, o.open)|, before.deduped + o.deduped,
                    before.truncates, Merge(before.excluded, ExcludedCounts(cfg.catalog, o.open.body)))
  {
    var acked := Step(cfg, r, Confirm(lsn)).acked;
    assert acked[..|acked| - 1] == r.acked;
  }

  /** What one step makes of the counts: Confirm adds one commit, its rows, its
      duplicates and its exclusions, reading a TRUNCATE frame adds that frame, and no
      other step changes a count. */
  lemma {:induction false} CountsMove(cfg: Config, r: Reader, l: Label)
    requires Enabled(cfg, r, l)
    ensures var before, after := SummaryOf(cfg, r), SummaryOf(cfg, Step(cfg, r, l));
            if l.Confirm? then
              var o := r.outbox.value;
              after == Summary(before.commits + 1, before.published + |MsgsOf(cfg, o.open)|, before.deduped + o.deduped,
                               before.truncates, Merge(before.excluded, ExcludedCounts(cfg.catalog, o.open.body)))
            else after == before.(truncates := before.truncates + if l.Read? && l.frame.Truncate? then 1 else 0)
  {
    if l.Confirm? {
      ConfirmCounts(cfg, r, l.lsn);
    }
  }

  /** What every accepted trace keeps. */
  ghost predicate Sound(cfg: Config, r: Reader) {
    && (r.open.Some? ==> Classified(cfg.catalog, r.open.value.body))
    && (r.outbox.Some? ==>
          var o := r.outbox.value;
          && o.msgs == MsgsOf(cfg, o.open) && Classified(cfg.catalog, o.open.body)
          && o.deduped <= o.first <= o.sent <= |o.msgs|
          && o.sent <= o.first + Max(1, cfg.maxInFlight))
    && (forall i :: 0 <= i < |r.acked| ==>
          && Classified(cfg.catalog, r.acked[i].open.body)
          && r.acked[i].deduped <= |MsgsOf(cfg, r.acked[i].open)|)
  }

  lemma {:induction false} ReadKeepsSound(cfg: Config, r: Reader, f: Frame)
    requires Sound(cfg, r) && Enabled(cfg, r, Read(f))
    ensures Sound(cfg, TakeFrame(cfg, r, f))
  {
  }

  lemma {:induction false} ConfirmKeepsSound(cfg: Config, r: Reader, lsn: nat)
    requires Sound(cfg, r) && Enabled(cfg, r, Confirm(lsn))
    ensures Sound(cfg, Step(cfg, r, Confirm(lsn)))
  {
  }

  lemma {:induction false} StepKeepsSound(cfg: Config, r: Reader, l: Label)
    requires Sound(cfg, r) && Enabled(cfg, r, l)
    ensures Sound(cfg, Step(cfg, r, l))
  {
    match l {
      case Read(f) => ReadKeepsSound(cfg, r, f);
      case Confirm(lsn) => ConfirmKeepsSound(cfg, r, lsn);
      case _ =>
    }
  }

  lemma {:induction false} TraceIsSound(cfg: Config, trace: seq<Label>)
    requires Accepted(cfg, FRESH, trace)
    ensures Sound(cfg, After(cfg, FRESH, trace))
  {
    if trace != [] {
      TraceIsSound(cfg, trace[..|trace| - 1]);
      StepKeepsSound(cfg, After(cfg, FRESH, trace[..|trace| - 1]), trace[|trace| - 1]);
    }
  }

  lemma {:induction false} AckedConserved(cfg: Config, acked: seq<Acked>)
    requires forall i :: 0 <= i < |acked| ==>
               && Classified(cfg.catalog, acked[i].open.body)
               && acked[i].deduped <= |MsgsOf(cfg, acked[i].open)|
    ensures ChangeFrames(acked) ==
            Published(cfg, acked) + Total(Exclusions(cfg, acked)) + ControlOwnedRows(acked)
    ensures Deduped(acked) <= Published(cfg, acked)
  {
    if acked != [] {
      var rest, last := acked[..|acked| - 1], acked[|acked| - 1];
      AckedConserved(cfg, rest);
      BodyConserved(cfg, last.open);
      TotalMerge(Exclusions(cfg, rest), ExcludedCounts(cfg.catalog, last.open.body));
    }
  }

  /** Conservation over every session: each change frame of an acknowledged
      transaction is published, excluded or control-owned, and no more messages
      were duplicates than were published. */
  lemma {:induction false} SessionConserved(cfg: Config, run: Run)
    requires Valid(cfg, run)
    ensures var s := SummaryOf(cfg, run.reader);
            && ChangeFrames(run.reader.acked) == s.published + Total(s.excluded) + ControlOwnedRows(run.reader.acked)
            && s.deduped <= s.published
  {
    TraceIsSound(cfg, run.trace);
    AckedConserved(cfg, run.reader.acked);
  }

  // ----- Acks of one transaction

  /** The labels since the last commit was read. */
  function SinceCommit(trace: seq<Label>): seq<Label> {
    if trace == [] then []
    else
      var l := trace[|trace| - 1];
      if l.Read? && l.frame.Commit? then [] else SinceCommit(trace[..|trace| - 1]) + [l]
  }

  function AckIndices(labels: seq<Label>): seq<nat> {
    if labels == [] then []
    else
      var l := labels[|labels| - 1];
      AckIndices(labels[..|labels| - 1]) + (if l.Acknowledge? then [l.index] else [])
  }

  function Range(from: nat, to: nat): (s: seq<nat>)
    requires from <= to
    ensures |s| == to - from
    ensures forall i :: 0 <= i < |s| ==> s[i] == from + i
  {
    seq(to - from, i requires 0 <= i => from + i)
  }

  /** The acks among `labels` are 0, 1, ..., first - 1 in that order, each once,
      and nothing at or below a settled index is sent after it settled. */
  ghost predicate SettledInOrder(labels: seq<Label>, first: nat) {
    && AckIndices(labels) == Range(0, first)
    && (forall a :: 0 <= a < |labels| && labels[a].Acknowledge? ==> labels[a].index < first)
    && (forall a, s :: 0 <= a < s < |labels| && labels[a].Acknowledge? && labels[s].Send? ==>
          labels[a].index < labels[s].index)
  }

  lemma {:induction false} SettledStep(labels: seq<Label>, l: Label, first: nat)
    requires SettledInOrder(labels, first)
    requires l.Send? ==> first <= l.index
    requires l.Acknowledge? ==> l.index == first
    ensures SettledInOrder(labels + [l], if l.Acknowledge? then first + 1 else first)
  {
    var all := labels + [l];
    assert all[..|all| - 1] == labels;
    assert AckIndices(all) == AckIndices(labels) + (if l.Acknowledge? then [l.index] else []);
  }

  /** In every accepted trace the messages of the transaction at hand settle
      exactly once, in index order, and no settled message is sent again. */
  lemma {:induction false} AcksSettleOnceInOrder(cfg: Config, trace: seq<Label>)
    requires Accepted(cfg, FRESH, trace)
    requires After(cfg, FRESH, trace).outbox.Some?
    ensures SettledInOrder(SinceCommit(trace), After(cfg, FRESH, trace).outbox.value.first)
  {
    assert trace != [];
    var rest, l := trace[..|trace| - 1], trace[|trace| - 1];
    if !(l.Read? && l.frame.Commit?) {
      AcksSettleOnceInOrder(cfg, rest);
      TraceIsSound(cfg, rest);
      SettledStep(SinceCommit(rest), l, After(cfg, FRESH, rest).outbox.value.first);
    }
  }

  // ----- What a session acknowledges, from the frames alone

  /** A transaction and the end of its commit. */
  datatype Committed = Committed(open: Open, end: nat)

  /** The transactions that a list of frames commits, the one it leaves open, and
      the highest position it allows to confirm. */
  datatype Parsed = Parsed(done: seq<Committed>, open: Option<Open>, reached: nat)

  function Parse(frames: seq<Frame>): Parsed {
    if frames == [] then Parsed([], None, 0)
    else
      var p, f := Parse(frames[..|frames| - 1]), frames[|frames| - 1];
      match f
      case Begin(txid, commitTs) => p.(open := Some(Open(txid, commitTs, [])))
      case Keepalive(walEnd) => if p.open.None? then p.(reached := Max(p.reached, walEnd)) else p
      case Commit(end) =>
        if p.open.None? then p else Parsed(p.done + [Committed(p.open.value, end)], None, Max(p.reached, end))
      case _ => if p.open.None? then p else p.(open := Some(p.open.value.(body := p.open.value.body + [f])))
  }

  /** Every frame that a trace reads, in order. */
  function FramesTaken(trace: seq<Label>): seq<Frame> {
    if trace == [] then []
    else
      var past, l := FramesTaken(trace[..|trace| - 1]), trace[|trace| - 1];
      if l.Read? then past + [l.frame] else past
  }

  function Opens(done: seq<Committed>): seq<Open> {
    if done == [] then [] else Opens(done[..|done| - 1]) + [done[|done| - 1].open]
  }

  function AckedOpens(acked: seq<Acked>): seq<Open> {
    if acked == [] then [] else AckedOpens(acked[..|acked| - 1]) + [acked[|acked| - 1].open]
  }

  /** The acknowledged transactions are those that the frames commit, all of them and
      in order, but for the last while it is on its way to the broker, and the
      confirmed position is the highest that they allow. */
  ghost predicate FollowsFrames(r: Reader, frames: seq<Frame>) {
    var p := Parse(frames);
    && r.open == p.open
    && match r.outbox
       case None => AckedOpens(r.acked) == Opens(p.done) && r.flushed == p.reached
       case Some(o) =>
         && frames != [] && frames[|frames| - 1] == Commit(o.end)
         && var past := Parse(frames[..|frames| - 1]);
            AckedOpens(r.acked) == Opens(past.done) && past.open == Some(o.open) && r.flushed == past.reached
  }

  lemma {:induction false} OpensStep(done: seq<Committed>, c: Committed)
    ensures Opens(done + [c]) == Opens(done) + [c.open]
  {
    assert (done + [c])[..|done|] == done;
  }

  lemma {:induction false} AckedOpensStep(acked: seq<Acked>, a: Acked)
    ensures AckedOpens(acked + [a]) == AckedOpens(acked) + [a.open]
  {
    assert (acked + [a])[..|acked|] == acked;
  }

  lemma {:induction false} ReadFollowsFrames(cfg: Config, r: Reader, f: Frame, frames: seq<Frame>)
    requires Enabled(cfg, r, Read(f)) && FollowsFrames(r, frames)
    ensures FollowsFrames(TakeFrame(cfg, r, f), frames + [f])
  {
    assert (frames + [f])[..|frames|] == frames;
  }

  lemma {:induction false} ConfirmFollowsFrames(cfg: Config, r: Reader, lsn: nat, frames: seq<Frame>)
    requires Enabled(cfg, r, Confirm(lsn)) && FollowsFrames(r, frames)
    ensures FollowsFrames(Step(cfg, r, Confirm(lsn)), frames)
  {
    var o, past := r.outbox.value, Parse(frames[..|frames| - 1]);
    OpensStep(past.done, Committed(o.open, o.end));
    AckedOpensStep(r.acked, Acked(o.open, o.deduped));
  }

  lemma {:induction false} PublishFollowsFrames(cfg: Config, r: Reader, l: Label, frames: seq<Frame>)
    requires Enabled(cfg, r, l) && !l.Read? && !l.Confirm? && FollowsFrames(r, frames)
    ensures FollowsFrames(Step(cfg, r, l), frames)
  {
  }

  /** In every accepted trace, whatever is sent, acked and sent again in between, the
      acknowledged transactions and the confirmed position follow from the frames
      alone. */
  lemma {:induction false} AckedAreCommitted(cfg: Config, trace: seq<Label>)
    requires Accepted(cfg, FRESH, trace)
    ensures FollowsFrames(After(cfg, FRESH, trace), FramesTaken(trace))
  {
    if trace != [] {
      var rest, l := trace[..|trace| - 1], trace[|trace| - 1];
      AckedAreCommitted(cfg, rest);
      match l {
        case Read(f) => ReadFollowsFrames(cfg, After(cfg, FRESH, rest), f, FramesTaken(rest));
        case Confirm(lsn) => ConfirmFollowsFrames(cfg, After(cfg, FRESH, rest), lsn, FramesTaken(rest));
        case _ => PublishFollowsFrames(cfg, After(cfg, FRESH, rest), l, FramesTaken(rest));
      }
    }
  }
}
