/** What each answer leads to in a session of services/cdc-reader/src/lib.rs, in the
    terms of the answer and the frame alone, over every session. */
module Answers {
  import opened Optional
  import opened Events
  import opened ReaderSpec
  import opened Dialogue
  import opened Accounts

  // ----- Frames

  predicate BadText(data: Option<RowData>) {
    data.Some? && !data.value.utf8
  }

  predicate OfControl(f: Frame)
    requires f.Change?
  {
    f.table == CONTROL_ENTITY_MAP || f.table == CONTROL_EXCLUSION_MAP
  }

  /** The error with which a change frame of a resolved relation ends the session. */
  predicate RowError(cfg: Config, r: Reader, f: Frame, named: bool, e: Error)
    requires f.Change? && f.oid in cfg.catalog
  {
    if r.open.None? then e == Error(Protocol, false)
    else cfg.catalog[f.oid].Entity? && (BadText(f.before) || BadText(f.after)) && e == Error(Configuration, named)
  }

  /** The answer `a` to the question `w` makes the session refuse `f` with `e`: a
      Commit without a Begin, a lookup that fails, a relation without a
      classification, a row outside a transaction, or a row of an entity whose text is
      not UTF-8. */
  predicate Refuses(cfg: Config, m: Machine, a: Answer, f: Frame, e: Error) {
    var r := m.run.reader;
    match m.wait
    case NextEvent =>
      !a.failed && f == a.frame &&
      ((f.Commit? && r.open.None? && e == Error(Protocol, false)) ||
       (f.Change? && !OfControl(f) && f.oid in m.known && f.oid in cfg.catalog &&
        RowError(cfg, r, f, a.error.mentionsInvalidation, e)))
    case Lookup(asked, named) =>
      f == asked && f.Change? &&
      if a.failed then e == Error(TransientConnection, a.error.mentionsInvalidation)
      else if f.oid !in cfg.catalog then e == Error(Configuration, named)
      else RowError(cfg, r, f, named, e)
    case _ => false
  }

  /** The answer says that the caller wants to stop. */
  predicate Stops(w: Wait, a: Answer) {
    || ((w.PassToken? || w.SendToken? || w.Sleeping?) && a.cancelled)
    || (w.NextEvent? && a.failed && a.error.kind == Cancelled)
  }

  /** Why a session is over after an answer, exactly. */
  ghost predicate EndsRight(cfg: Config, m: Machine, a: Answer, n: Machine) {
    && (n.wait.Over? && n.wait.ending.Shutdown? <==> Stops(m.wait, a))
    && (forall e :: n.wait == Over(Severed(e), None) <==>
          m.wait.NextEvent? && a.failed && a.error.kind != Cancelled && e == a.error)
    && (forall f, e :: n.wait == Over(Severed(e), Some(f)) <==> Refuses(cfg, m, a, f, e))
    && (n.wait.Over? ==> n.run == m.run)
  }

  // ----- What is asked next

  /** The session reads `f` and waits for `w`. */
  ghost predicate Reads(m: Machine, n: Machine, f: Frame, w: Wait) {
    n.run.trace == m.run.trace + [Read(f)] && n.wait == w
  }

  /** What a session that goes on does with a frame: the Commit of a transaction is
      read and published, a change of an unknown relation is looked up first, and
      every other frame is read. A relation is known from its lookup on. */
  ghost predicate ReadsOn(m: Machine, a: Answer, n: Machine)
    requires m.wait.NextEvent? || m.wait.Lookup?
  {
    match m.wait
    case NextEvent =>
      if a.frame.Commit? then Reads(m, n, a.frame, PassToken) && n.known == m.known
      else if a.frame.Change? && !OfControl(a.frame) && a.frame.oid !in m.known then
        n.run == m.run && n.wait == Lookup(a.frame, a.error.mentionsInvalidation) && n.known == m.known
      else Reads(m, n, a.frame, NextEvent) && n.known == m.known
    case Lookup(f, _) => f.Change? && Reads(m, n, f, NextEvent) && n.known == m.known + {f.oid}
  }

  /** What a session that goes on does while it publishes. The token is looked at
      before each pass, before each send and during each sleep. Acks are settled when
      the pipeline is full or everything is sent. A failed send or ack ends the pass,
      and a sleep follows. */
  ghost predicate PublishesOn(cfg: Config, m: Machine, a: Answer, n: Machine)
    requires Publishing(m.wait) && m.run.reader.outbox.Some?
  {
    var o := m.run.reader.outbox.value;
    var all := |o.msgs|;
    match m.wait
    case PassToken => n.run == m.run && n.wait == if o.first == all then Settled else SendToken
    case SendToken => n.run == m.run && n.wait == Sending
    case Sleeping => n.run == m.run && n.wait == PassToken
    case Sending =>
      if a.failed then n.run.trace == m.run.trace + [PassFailed] && n.wait == Sleeping
      else
        && o.sent < all && n.run.trace == m.run.trace + [Send(o.sent, o.msgs[o.sent])]
        && n.wait == if o.sent + 1 == all || o.sent + 1 >= o.first + cfg.maxInFlight then Acking else SendToken
    case Acking =>
      if a.failed then n.run.trace == m.run.trace + [PassFailed] && n.wait == Sleeping
      else
        && n.run.trace == m.run.trace + [Acknowledge(o.first, a.duplicate)]
        && n.wait == if o.first + 1 < o.sent then Acking else if o.sent < all then SendToken else Settled
  }

  /** What an answer leads to. */
  ghost predicate Leads(cfg: Config, m: Machine, a: Answer, n: Machine) {
    && EndsRight(cfg, m, a, n)
    && (!n.wait.Over? && (m.wait.NextEvent? || m.wait.Lookup?) ==> ReadsOn(m, a, n))
    && (!n.wait.Over? && Publishing(m.wait) ==>
          m.run.reader.outbox.Some? && n.known == m.known && PublishesOn(cfg, m, a, n))
  }

  lemma {:induction false} BufferedLeads(cfg: Config, m: Machine, f: Frame, named: bool)
    requires Valid(cfg, m.run) && m.run.reader.outbox.None? && f.Change? && !ControlOwned(f) && f.oid in cfg.catalog
    ensures var n := Buffered(cfg, m, f, named);
            && (n.wait.Over? ==> n.run == m.run && n.wait.ending.Severed? && n.wait.refused == Some(f))
            && (forall e :: n.wait == Over(Severed(e), Some(f)) <==> RowError(cfg, m.run.reader, f, named, e))
            && (!n.wait.Over? ==> Reads(m, n, f, NextEvent))
  {
  }

  lemma {:induction false} LookupLeads(cfg: Config, m: Machine, a: Answer)
    requires Fits(cfg, m) && m.known <= cfg.catalog.Keys && m.wait.Lookup?
    ensures Leads(cfg, m, a, Respond(cfg, m, a))
  {
    var f := m.wait.frame;
    if !a.failed && f.oid in cfg.catalog {
      BufferedLeads(cfg, m.(asked := m.asked + [m.wait], known := m.known + {f.oid}), f, m.wait.named);
    }
  }

  lemma {:induction false} ChangeLeads(cfg: Config, m: Machine, a: Answer)
    requires Fits(cfg, m) && m.known <= cfg.catalog.Keys && m.wait.NextEvent? && !a.failed && a.frame.Change?
    ensures Leads(cfg, m, a, Respond(cfg, m, a))
  {
    if !ControlOwned(a.frame) && a.frame.oid in m.known {
      BufferedLeads(cfg, m.(asked := m.asked + [m.wait]), a.frame, a.error.mentionsInvalidation);
    }
  }

  lemma {:induction false} OtherLeads(cfg: Config, m: Machine, a: Answer)
    requires Fits(cfg, m) && m.known <= cfg.catalog.Keys && m.wait.NextEvent? && (a.failed || !a.frame.Change?)
    ensures Leads(cfg, m, a, Respond(cfg, m, a))
  {
  }

  lemma {:induction false} PublishingLeads(cfg: Config, m: Machine, a: Answer)
    requires Fits(cfg, m) && m.known <= cfg.catalog.Keys && Publishing(m.wait)
    ensures Leads(cfg, m, a, Respond(cfg, m, a))
  {
  }

  lemma {:induction false} AnswerLeads(cfg: Config, m: Machine, a: Answer)
    requires Fits(cfg, m) && m.known <= cfg.catalog.Keys && !m.wait.Over? && !m.wait.Settled?
    ensures Leads(cfg, m, a, Respond(cfg, m, a))
  {
    if Publishing(m.wait) {
      PublishingLeads(cfg, m, a);
    } else if m.wait.Lookup? {
      LookupLeads(cfg, m, a);
    } else if !a.failed && a.frame.Change? {
      ChangeLeads(cfg, m, a);
    } else {
      OtherLeads(cfg, m, a);
    }
  }

  lemma {:induction false} HistoryLeads(cfg: Config, script: seq<Answer>, heard: seq<Machine>, at: nat)
    requires History(cfg, script, heard) && at < |script| && |heard| == |script| + 1 && !heard[at].wait.Over?
    ensures Fits(cfg, heard[at]) && Leads(cfg, Confirmed(cfg, heard[at]), script[at], heard[at + 1])
    ensures heard[at + 1].asked == heard[at].asked + [Confirmed(cfg, heard[at]).wait]
  {
    HistoryStep(cfg, script, heard, at);
    AnswerLeads(cfg, Confirmed(cfg, heard[at]), script[at]);
  }

  /** In every session each answer leads where its own content, the frame and the
      transaction at hand say, and nowhere else. */
  lemma {:induction false} EveryAnswerLeads(cfg: Config, script: seq<Answer>, at: nat)
    requires at < |script| && !Heard(cfg, script, at).wait.Over?
    ensures Leads(cfg, Confirmed(cfg, Heard(cfg, script, at)), script[at], Heard(cfg, script, at + 1))
  {
    var heard := Upto(cfg, script, |script|);
    UptoAt(cfg, script, |script|, at);
    UptoAt(cfg, script, |script|, at + 1);
    HistoryLeads(cfg, script, heard, at);
  }

  // ----- Lookups

  predicate AsksFor(w: Wait, oid: nat) {
    w.Lookup? && w.frame.Change? && w.frame.oid == oid
  }

  /** No relation was asked for twice, those asked for are known unless the session is
      over, and the one asked for now is not. */
  ghost predicate AskedOnce(m: Machine) {
    && (forall i, j, oid :: 0 <= i < j < |m.asked| && AsksFor(m.asked[i], oid) ==> !AsksFor(m.asked[j], oid))
    && (!m.wait.Over? ==> forall i, oid :: 0 <= i < |m.asked| && AsksFor(m.asked[i], oid) ==> oid in m.known)
    && (forall oid :: AsksFor(m.wait, oid) ==> oid !in m.known)
  }

  lemma {:induction false} AsksOn(cfg: Config, m: Machine, a: Answer, n: Machine)
    requires AskedOnce(m) && Leads(cfg, m, a, n) && !m.wait.Over? && !m.wait.Settled? && n.asked == m.asked + [m.wait]
    ensures AskedOnce(n)
  {
    forall i, oid | 0 <= i < |n.asked| && AsksFor(n.asked[i], oid) && !n.wait.Over? ensures oid in n.known {
      if i < |m.asked| {
        assert AsksFor(m.asked[i], oid);
      }
    }
    forall i, j, oid | 0 <= i < j < |n.asked| && AsksFor(n.asked[i], oid) ensures !AsksFor(n.asked[j], oid) {
      assert AsksFor(m.asked[i], oid);
    }
  }

  lemma {:induction false} HistoryAsksOnce(cfg: Config, script: seq<Answer>, heard: seq<Machine>, at: nat)
    requires History(cfg, script, heard) && at <= |script| && |heard| == |script| + 1
    ensures AskedOnce(heard[at])
  {
    if at == 0 {
      UptoAt(cfg, script, |script|, 0);
    } else {
      HistoryAsksOnce(cfg, script, heard, at - 1);
      HistoryStep(cfg, script, heard, at - 1);
      if !heard[at - 1].wait.Over? {
        HistoryLeads(cfg, script, heard, at - 1);
        AsksOn(cfg, Confirmed(cfg, heard[at - 1]), script[at - 1], heard[at]);
      }
    }
  }

  /** In every session no relation is looked up twice. */
  lemma {:induction false} LooksUpOnce(cfg: Config, script: seq<Answer>, at: nat, i: nat, j: nat, oid: nat)
    requires at <= |script| && i < j < |Heard(cfg, script, at).asked|
    requires AsksFor(Heard(cfg, script, at).asked[i], oid)
    ensures !AsksFor(Heard(cfg, script, at).asked[j], oid)
  {
    UptoAt(cfg, script, |script|, at);
    HistoryAsksOnce(cfg, script, Upto(cfg, script, |script|), at);
  }

  // ----- Rows

  /** In every session each message sent carries the row of the transaction whose
      Commit was read last, as its frame says. */
  lemma {:induction false} SessionSendsTheRows(cfg: Config, script: seq<Answer>, at: nat, k: nat) returns (places: seq<nat>)
    requires at <= |script| && k < |Heard(cfg, script, at).run.trace| && Heard(cfg, script, at).run.trace[k].Send?
    ensures SendsRow(cfg, Heard(cfg, script, at).run.trace, k, places)
  {
    places := SendsCarryTheRows(cfg, Heard(cfg, script, at).run.trace, k);
  }
}
