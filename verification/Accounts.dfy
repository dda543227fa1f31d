/** What the traces of a reader session say, read off their frames and labels one by
    one: which transactions the frames commit, which row each message carries, and
    what the counts of the session count. */
module Accounts {
  import opened Optional
  import opened Events
  import opened ReaderSpec

  // ----- What a list of frames commits

  /** A Begin that neither a Commit nor another Begin follows. */
  ghost predicate InProgress(frames: seq<Frame>, b: nat) {
    b < |frames| && frames[b].Begin? && forall i :: b < i < |frames| ==> !frames[i].Begin? && !frames[i].Commit?
  }

  /** The frames that are not keepalives. */
  function Solid(frames: seq<Frame>): seq<Frame> {
    if frames == [] then []
    else
      var past, f := Solid(frames[..|frames| - 1]), frames[|frames| - 1];
      if f.Keepalive? then past else past + [f]
  }

  lemma {:induction false} SolidSnoc(frames: seq<Frame>, f: Frame)
    ensures Solid(frames + [f]) == if f.Keepalive? then Solid(frames) else Solid(frames) + [f]
  {
    assert (frames + [f])[..|frames|] == frames;
  }

  lemma {:induction false} OpenGoesOn(frames: seq<Frame>, f: Frame, o: Open)
    requires Parse(frames).open == Some(o) && !f.Begin? && !f.Commit?
    ensures Parse(frames + [f]).open == Some(if f.Keepalive? then o else o.(body := o.body + [f]))
  {
    assert (frames + [f])[..|frames|] == frames;
  }

  /** A transaction in progress is open, with the data of its Begin and the frames
      since. */
  lemma {:induction false} OpenIsTheFrames(frames: seq<Frame>, b: nat)
    requires InProgress(frames, b)
    ensures Parse(frames).open == Some(Open(frames[b].txid, frames[b].commitTs, Solid(frames[b + 1..])))
  {
    var rest, n := frames[..|frames| - 1], |frames| - 1;
    if b == n {
      assert frames[b + 1..] == [];
    } else {
      var f, since := frames[n], rest[b + 1..];
      OpenIsTheFrames(rest, b);
      OpenGoesOn(rest, f, Open(frames[b].txid, frames[b].commitTs, Solid(since)));
      SolidSnoc(since, f);
      assert rest + [f] == frames && since + [f] == frames[b + 1..];
    }
  }

  /** Without a transaction in progress nothing is open. */
  lemma {:induction false} IdleIsClosed(frames: seq<Frame>)
    requires forall b: nat :: !InProgress(frames, b)
    ensures Parse(frames).open.None?
  {
    if frames != [] {
      var rest, n := frames[..|frames| - 1], |frames| - 1;
      assert !InProgress(frames, n);
      if !frames[n].Commit? {
        forall b: nat ensures !InProgress(rest, b) {
          if InProgress(rest, b) {
            assert InProgress(frames, b);
          }
        }
        IdleIsClosed(rest);
      }
    }
  }

  /** The frame at `c` commits a transaction in progress. */
  ghost predicate Commits(frames: seq<Frame>, c: nat) {
    c < |frames| && frames[c].Commit? && exists b: nat :: InProgress(frames[..c], b)
  }

  /** A keepalive that finds no transaction in progress. */
  ghost predicate Idles(frames: seq<Frame>, k: nat) {
    k < |frames| && frames[k].Keepalive? && forall b: nat :: !InProgress(frames[..k], b)
  }

  lemma {:induction false} OpenAt(frames: seq<Frame>)
    ensures Parse(frames).open.Some? <==> exists b: nat :: InProgress(frames, b)
  {
    if b: nat :| InProgress(frames, b) {
      OpenIsTheFrames(frames, b);
    } else {
      IdleIsClosed(frames);
    }
  }

  /** `c` is the place of the commit of the transaction `d`. */
  ghost predicate CommitOf(frames: seq<Frame>, d: Committed, c: nat) {
    Commits(frames, c) && frames[c].endLsn == d.end && Parse(frames[..c]).open == Some(d.open)
  }

  ghost predicate CommitPlaces(frames: seq<Frame>, done: seq<Committed>, at: seq<nat>) {
    && |at| == |done| && Rising(at)
    && (forall i :: 0 <= i < |at| ==> CommitOf(frames, done[i], at[i]))
    && (forall c: nat :: Commits(frames, c) ==> c in at)
  }

  lemma {:induction false} CommitsStay(frames: seq<Frame>, f: Frame, c: nat)
    requires c < |frames|
    ensures Commits(frames + [f], c) <==> Commits(frames, c)
    ensures Idles(frames + [f], c) <==> Idles(frames, c)
  {
    assert (frames + [f])[..c] == frames[..c];
  }

  lemma {:induction false} CommitOfStays(frames: seq<Frame>, f: Frame, d: Committed, c: nat)
    requires CommitOf(frames, d, c)
    ensures CommitOf(frames + [f], d, c)
  {
    CommitsStay(frames, f, c);
    assert (frames + [f])[..c] == frames[..c];
  }

  lemma {:induction false} PlacesStay(frames: seq<Frame>, f: Frame, done: seq<Committed>, at: seq<nat>)
    requires CommitPlaces(frames, done, at) && !Commits(frames + [f], |frames|)
    ensures CommitPlaces(frames + [f], done, at)
  {
    forall i | 0 <= i < |at| ensures CommitOf(frames + [f], done[i], at[i]) {
      CommitOfStays(frames, f, done[i], at[i]);
    }
    forall c: nat | Commits(frames + [f], c) ensures c in at {
      CommitsStay(frames, f, c);
    }
  }

  lemma {:induction false} PlacesGrow(frames: seq<Frame>, f: Frame, done: seq<Committed>, at: seq<nat>, d: Committed)
    requires CommitPlaces(frames, done, at) && CommitOf(frames + [f], d, |frames|)
    ensures CommitPlaces(frames + [f], done + [d], at + [|frames|])
  {
    var all, places, ends := frames + [f], at + [|frames|], done + [d];
    forall i | 0 <= i < |places| ensures CommitOf(all, ends[i], places[i]) {
      if i < |at| {
        CommitOfStays(frames, f, done[i], at[i]);
      }
    }
    assert places[|at|] == |frames|;
    forall c: nat | Commits(all, c) ensures c in places {
      if c < |frames| {
        CommitsStay(frames, f, c);
      }
    }
    forall i | 0 <= i < |at| ensures at[i] < |frames| {
      assert CommitOf(frames, done[i], at[i]);
    }
  }

  lemma {:induction false} DoneGrows(frames: seq<Frame>, f: Frame, at: seq<nat>) returns (all: seq<nat>)
    requires CommitPlaces(frames, Parse(frames).done, at)
    ensures CommitPlaces(frames + [f], Parse(frames + [f]).done, all)
  {
    assert (frames + [f])[..|frames|] == frames && (frames + [f])[|frames|] == f;
    OpenAt(frames);
    if f.Commit? && Parse(frames).open.Some? {
      PlacesGrow(frames, f, Parse(frames).done, at, Committed(Parse(frames).open.value, f.endLsn));
      all := at + [|frames|];
    } else {
      PlacesStay(frames, f, Parse(frames).done, at);
      all := at;
    }
  }

  /** The transactions that a list of frames commits are those of its Commit frames
      that close a transaction in progress, all of them and in order. */
  lemma {:induction false} DoneExactly(frames: seq<Frame>) returns (at: seq<nat>)
    ensures CommitPlaces(frames, Parse(frames).done, at)
  {
    if frames == [] {
      at := [];
    } else {
      var rest, n := frames[..|frames| - 1], |frames| - 1;
      at := DoneExactly(rest);
      at := DoneGrows(rest, frames[n], at);
      assert rest + [frames[n]] == frames;
    }
  }

  /** A position that the frame at `k` allows to confirm. */
  ghost predicate Allows(frames: seq<Frame>, k: nat, lsn: nat) {
    (Commits(frames, k) && frames[k].endLsn == lsn) || (Idles(frames, k) && frames[k].walEnd == lsn)
  }

  lemma {:induction false} AllowsStays(frames: seq<Frame>, f: Frame, k: nat, lsn: nat)
    requires k < |frames|
    ensures Allows(frames + [f], k, lsn) <==> Allows(frames, k, lsn)
  {
    CommitsStay(frames, f, k);
  }

  lemma {:induction false} ReachedGrows(frames: seq<Frame>, f: Frame)
    ensures var p, q := Parse(frames).reached, Parse(frames + [f]).reached;
            (q == p && forall lsn: nat :: Allows(frames + [f], |frames|, lsn) ==> lsn <= p) ||
            (p < q && Allows(frames + [f], |frames|, q) && forall lsn: nat :: Allows(frames + [f], |frames|, lsn) ==> lsn == q)
  {
    assert (frames + [f])[..|frames|] == frames && (frames + [f])[|frames|] == f;
    OpenAt(frames);
  }

  /** The position that a list of frames allows to confirm is the highest end of a
      commit and idle keepalive among them, or nothing. */
  lemma {:induction false} ReachedExactly(frames: seq<Frame>)
    ensures forall k: nat, lsn: nat :: Allows(frames, k, lsn) ==> lsn <= Parse(frames).reached
    ensures Parse(frames).reached == 0 || exists k: nat :: Allows(frames, k, Parse(frames).reached)
  {
    if frames != [] {
      var rest, n := frames[..|frames| - 1], |frames| - 1;
      var f := frames[n];
      assert rest + [f] == frames;
      ReachedExactly(rest);
      ReachedGrows(rest, f);
      forall k: nat, lsn: nat | Allows(frames, k, lsn) ensures lsn <= Parse(frames).reached {
        if k < n {
          AllowsStays(rest, f, k, lsn);
        }
      }
      if Parse(frames).reached == Parse(rest).reached && Parse(frames).reached != 0 {
        var k: nat :| Allows(rest, k, Parse(rest).reached);
        AllowsStays(rest, f, k, Parse(rest).reached);
      }
    }
  }

  // ----- What a trace sends

  /** The label at `k` sends a message after the frames read end with the Commit of a
      transaction in progress, and the message carries the row of that transaction
      with its index: operation, table, LSN, old and new columns, identity,
      transaction data and last stamp. `at` are the places of the rows. */
  ghost predicate SendsRow(cfg: Config, trace: seq<Label>, k: nat, at: seq<nat>)
    requires k < |trace| && trace[k].Send?
  {
    var frames, m := FramesTaken(trace[..k]), trace[k].msg;
    && frames != [] && Commits(frames, |frames| - 1)
    && var o := Parse(frames[..|frames| - 1]).open;
       && o.Some? && RowPlaces(cfg.catalog, o.value.body, at) && trace[k].index < |at|
       && CarriesRow(cfg, o.value.body[at[trace[k].index]], m)
       && m.txid == o.value.txid && m.commitTs == o.value.commitTs && LastStamp(o.value.body, m.causation)
  }

  /** In every accepted trace each message sent carries its row. */
  lemma {:induction false} SendsCarryTheRows(cfg: Config, trace: seq<Label>, k: nat) returns (at: seq<nat>)
    requires Accepted(cfg, FRESH, trace) && k < |trace| && trace[k].Send?
    ensures SendsRow(cfg, trace, k, at)
  {
    var past := trace[..k];
    PrefixAccepted(cfg, trace, k);
    var r := After(cfg, FRESH, past);
    AckedAreCommitted(cfg, past);
    TraceIsSound(cfg, past);
    var frames := FramesTaken(past);
    OpenAt(frames[..|frames| - 1]);
    at := MessagesAreTheRows(cfg, r.outbox.value.open);
    EveryRowCarriesTheLastStamp(cfg, r.outbox.value.open, trace[k].msg);
  }

  lemma {:induction false} PrefixAccepted(cfg: Config, trace: seq<Label>, k: nat)
    requires Accepted(cfg, FRESH, trace) && k < |trace|
    ensures Accepted(cfg, FRESH, trace[..k]) && Enabled(cfg, After(cfg, FRESH, trace[..k]), trace[k])
  {
    var rest := trace[..|trace| - 1];
    if k < |rest| {
      PrefixAccepted(cfg, rest, k);
      assert rest[..k] == trace[..k];
    }
  }

  // ----- What the counts count

  /** How many labels of each kind a trace has. */
  datatype Labels = Labels(confirms: nat, acks: nat, duplicates: nat, truncates: nat)

  function One(b: bool): nat {
    if b then 1 else 0
  }

  function Noted(past: Labels, l: Label): Labels {
    Labels(past.confirms + One(l.Confirm?), past.acks + One(l.Acknowledge?),
           past.duplicates + One(l.Acknowledge? && l.duplicate), past.truncates + One(l.Read? && l.frame.Truncate?))
  }

  function LabelsOf(trace: seq<Label>): Labels {
    if trace == [] then Labels(0, 0, 0, 0) else Noted(LabelsOf(trace[..|trace| - 1]), trace[|trace| - 1])
  }

  /** The summary counts the labels. The acks of a transaction on its way are not
      counted yet. */
  ghost predicate Counted(r: Reader, s: Summary, labels: Labels) {
    && s.commits == labels.confirms && s.truncates == labels.truncates
    && s.published + (if r.outbox.Some? then r.outbox.value.first else 0) == labels.acks
    && s.deduped + (if r.outbox.Some? then r.outbox.value.deduped else 0) == labels.duplicates
  }

  lemma {:induction false} CountedOn(cfg: Config, r: Reader, l: Label, labels: Labels)
    requires Sound(cfg, r) && Enabled(cfg, r, l) && Counted(r, SummaryOf(cfg, r), labels)
    ensures Counted(Step(cfg, r, l), SummaryOf(cfg, Step(cfg, r, l)), Noted(labels, l))
  {
    CountsMove(cfg, r, l);
  }

  /** The counts of every session are counts of its labels: one commit for each
      Confirm, one published row for each ack, one duplicate for each ack that said
      so, and one for each TRUNCATE frame. */
  lemma {:induction false} CountsAreOfLabels(cfg: Config, trace: seq<Label>)
    requires Accepted(cfg, FRESH, trace)
    ensures var r := After(cfg, FRESH, trace); Counted(r, SummaryOf(cfg, r), LabelsOf(trace))
  {
    if trace != [] {
      var rest := trace[..|trace| - 1];
      CountsAreOfLabels(cfg, rest);
      TraceIsSound(cfg, rest);
      CountedOn(cfg, After(cfg, FRESH, rest), trace[|trace| - 1], LabelsOf(rest));
    }
  }

  /** How many rows of the acknowledged transactions are excluded under `name`. */
  ghost function AckedExcludedAs(cfg: Config, acked: seq<Acked>, name: string): nat {
    if acked == [] then 0
    else
      AckedExcludedAs(cfg, acked[..|acked| - 1], name) +
      RowsExcludedAs(cfg.catalog, acked[|acked| - 1].open.body, name)
  }

  /** The exclusions of a session are counted name by name over its acknowledged
      transactions. */
  lemma {:induction false} ExclusionsByName(cfg: Config, r: Reader, name: string)
    ensures Get(SummaryOf(cfg, r).excluded, name) == AckedExcludedAs(cfg, r.acked, name)
  {
    AckedExclusions(cfg, r.acked, name);
  }

  lemma {:induction false} AckedExclusions(cfg: Config, acked: seq<Acked>, name: string)
    ensures Get(Exclusions(cfg, acked), name) == AckedExcludedAs(cfg, acked, name)
  {
    if acked != [] {
      AckedExclusions(cfg, acked[..|acked| - 1], name);
      ExclusionsAreCounted(cfg.catalog, acked[|acked| - 1].open.body, name);
    }
  }
}
