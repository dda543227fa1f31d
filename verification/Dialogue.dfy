/** What one session of services/cdc-reader/src/lib.rs asks of its environment and
    what each answer does.

    The broker, the stream, the catalog connection, the cancellation token and
    the timer answer through `script`, one answer for each thing that is awaited
    or asked. The machine here takes one answer at a time. It is the reference
    that `Publish` and `Drain`, with their loops and local variables, are proved
    against. A script that ends stands for a process that was killed there. */
module Dialogue {
  import opened Optional
  import opened Events
  import opened ReaderSpec

  /** One answer of the environment. Each question reads only its own part. */
  datatype Answer = Answer(frame: Frame, error: Error, failed: bool, cancelled: bool, duplicate: bool)

  datatype Ending = Shutdown | Severed(error: Error)

  /** What the session waits for. `named` says whether the names in a frame would
      make an error text speak of an invalidated slot. `Settled` waits for nothing:
      every message is acked and the commit may be confirmed. A session that is
      over keeps the frame that it refused, if any. */
  datatype Wait =
    | NextEvent
    | Lookup(frame: Frame, named: bool)
    | PassToken
    | SendToken
    | Sending
    | Acking
    | Settled
    | Sleeping
    | Over(ending: Ending, refused: Option<Frame>)

  /** `known` holds the relations resolved so far and `asked` what each answer so
      far answered. */
  datatype Machine = Machine(wait: Wait, known: set<nat>, run: Run, asked: seq<Wait>)

  const START := Machine(NextEvent, {}, Run([], FRESH), [])

  /** The pipeline holds as many acks as it may, or has sent everything. */
  predicate Full(cfg: Config, o: Outbox) {
    o.sent - o.first >= cfg.maxInFlight || o.sent == |o.msgs|
  }

  /** What the session waits for fits the transaction at hand. */
  ghost predicate Fits(cfg: Config, m: Machine) {
    && Valid(cfg, m.run)
    && match m.wait
       case NextEvent => m.run.reader.outbox.None?
       case Lookup(f, _) => m.run.reader.outbox.None? && f.Change? && !ControlOwned(f)
       case Over(_, _) => true
       case _ =>
         && m.run.reader.outbox.Some?
         && var o := m.run.reader.outbox.value;
            match m.wait {
              case PassToken => o.first == o.sent <= |o.msgs|
              case SendToken => o.first <= o.sent < |o.msgs| && o.sent < o.first + Max(1, cfg.maxInFlight)
              case Sending => o.first <= o.sent < |o.msgs| && o.sent < o.first + Max(1, cfg.maxInFlight)
              case Acking => o.first < o.sent <= |o.msgs|
              case Settled => o.first == o.sent == |o.msgs|
              case Sleeping => o.first == o.sent < |o.msgs|
            }
  }

  function Say(cfg: Config, m: Machine, l: Label, wait: Wait): Machine
    requires Valid(cfg, m.run) && Enabled(cfg, m.run.reader, l)
  {
    m.(run := Emit(cfg, m.run, l), wait := wait)
  }

  function End(m: Machine, ending: Ending, refused: Option<Frame>): Machine {
    m.(wait := Over(ending, refused))
  }

  /** A change frame of a known relation is buffered, or refused. */
  function Buffered(cfg: Config, m: Machine, f: Frame, named: bool): (n: Machine)
    requires Valid(cfg, m.run) && m.run.reader.outbox.None? && f.Change? && !ControlOwned(f) && f.oid in cfg.catalog
    ensures Fits(cfg, n) && n.known == m.known && n.asked == m.asked
  {
    if m.run.reader.open.None? then End(m, Severed(Error(Protocol, false)), Some(f))
    else if cfg.catalog[f.oid].Entity? && !(Utf8(f.before) && Utf8(f.after)) then
      End(m, Severed(Error(Configuration, named)), Some(f))
    else Say(cfg, m, Read(f), NextEvent)
  }

  function Taken(cfg: Config, m: Machine, f: Frame, named: bool): (n: Machine)
    requires Valid(cfg, m.run) && m.run.reader.outbox.None?
    requires m.known <= cfg.catalog.Keys
    ensures Fits(cfg, n) && n.known == m.known && n.asked == m.asked
  {
    match f
    case Commit(_) =>
      if m.run.reader.open.None? then End(m, Severed(Error(Protocol, false)), Some(f))
      else Say(cfg, m, Read(f), PassToken)
    case Change(_, _, _, _, _, oid) =>
      if ControlOwned(f) then Say(cfg, m, Read(f), NextEvent)
      else if oid in m.known then Buffered(cfg, m, f, named)
      else m.(wait := Lookup(f, named))
    case _ => Say(cfg, m, Read(f), NextEvent)
  }

  /** What an answer does while frames are read. `m` has it counted already. */
  function WhileReading(cfg: Config, m: Machine, a: Answer): (n: Machine)
    requires Fits(cfg, m) && m.known <= cfg.catalog.Keys && (m.wait.NextEvent? || m.wait.Lookup?)
    ensures Fits(cfg, n) && n.known <= cfg.catalog.Keys && n.asked == m.asked
  {
    match m.wait
    case NextEvent =>
      if a.failed then End(m, if a.error.kind.Cancelled? then Shutdown else Severed(a.error), None)
      else Taken(cfg, m, a.frame, a.error.mentionsInvalidation)
    case Lookup(f, named) =>
      if a.failed then End(m, Severed(Error(TransientConnection, a.error.mentionsInvalidation)), Some(f))
      else if f.oid !in cfg.catalog then End(m, Severed(Error(Configuration, named)), Some(f))
      else Buffered(cfg, m.(known := m.known + {f.oid}), f, named)
  }

  predicate Publishing(w: Wait) {
    w.PassToken? || w.SendToken? || w.Sending? || w.Acking? || w.Sleeping?
  }

  /** What an answer does while a transaction is published. */
  function WhilePublishing(cfg: Config, m: Machine, a: Answer): (n: Machine)
    requires Fits(cfg, m) && Publishing(m.wait)
    ensures Fits(cfg, n) && n.known == m.known && n.asked == m.asked
  {
    var o := m.run.reader.outbox.value;
    match m.wait
    case PassToken =>
      if a.cancelled then End(m, Shutdown, None)
      else m.(wait := if o.first == |o.msgs| then Settled else SendToken)
    case SendToken => if a.cancelled then End(m, Shutdown, None) else m.(wait := Sending)
    case Sending =>
      if a.failed then Say(cfg, m, PassFailed, Sleeping)
      else
        var sent := o.(sent := o.sent + 1);
        Say(cfg, m, Send(o.sent, o.msgs[o.sent]), if Full(cfg, sent) then Acking else SendToken)
    case Acking =>
      if a.failed then Say(cfg, m, PassFailed, Sleeping)
      else
        Say(cfg, m, Acknowledge(o.first, a.duplicate),
            if o.first + 1 < o.sent then Acking else if o.sent == |o.msgs| then Settled else SendToken)
    case Sleeping => if a.cancelled then End(m, Shutdown, None) else m.(wait := PassToken)
  }

  /** What an answer does. */
  function Respond(cfg: Config, m: Machine, a: Answer): (n: Machine)
    requires Fits(cfg, m) && m.known <= cfg.catalog.Keys && !m.wait.Over? && !m.wait.Settled?
    ensures Fits(cfg, n) && n.known <= cfg.catalog.Keys && n.asked == m.asked + [m.wait]
  {
    var n := m.(asked := m.asked + [m.wait]);
    if Publishing(m.wait) then WhilePublishing(cfg, n, a) else WhileReading(cfg, n, a)
  }

  /** A commit whose messages are all acked is confirmed without waiting. */
  function Confirmed(cfg: Config, m: Machine): (n: Machine)
    requires Fits(cfg, m)
    ensures Fits(cfg, n) && !n.wait.Settled? && n.known == m.known && n.asked == m.asked
    ensures !m.wait.Settled? ==> n == m
  {
    if m.wait.Settled? then Say(cfg, m, Confirm(m.run.reader.outbox.value.end), NextEvent) else m
  }

  /** The session after the first `at` answers. Answers after its end go unheard. */
  function Heard(cfg: Config, script: seq<Answer>, at: nat): (m: Machine)
    requires at <= |script|
    ensures Fits(cfg, m) && m.known <= cfg.catalog.Keys
    ensures |m.asked| <= at && (!m.wait.Over? ==> |m.asked| == at)
    decreases at
  {
    if at == 0 then START
    else
      var m := Confirmed(cfg, Heard(cfg, script, at - 1));
      if m.wait.Over? then m else Respond(cfg, m, script[at - 1])
  }

  /** The session after each number of answers up to `n`. */
  function Upto(cfg: Config, script: seq<Answer>, n: nat): (h: seq<Machine>)
    requires n <= |script|
    ensures |h| == n + 1
    decreases n
  {
    (if n == 0 then [] else Upto(cfg, script, n - 1)) + [Heard(cfg, script, n)]
  }

  lemma {:induction false} UptoAt(cfg: Config, script: seq<Answer>, n: nat, i: nat)
    requires i <= n <= |script|
    ensures Upto(cfg, script, n)[i] == Heard(cfg, script, i)
    decreases n
  {
    if i < n {
      UptoAt(cfg, script, n - 1, i);
    }
  }

  /** `heard` is the session after each number of answers of the script. */
  ghost predicate History(cfg: Config, script: seq<Answer>, heard: seq<Machine>) {
    heard == Upto(cfg, script, |script|)
  }

  /** One answer further in the history of a session. */
  lemma {:induction false} HistoryStep(cfg: Config, script: seq<Answer>, heard: seq<Machine>, at: nat)
    requires History(cfg, script, heard) && at < |script|
    ensures |heard| == |script| + 1 && Fits(cfg, heard[at]) && heard[at].known <= cfg.catalog.Keys
    ensures heard[at + 1] ==
            var m := Confirmed(cfg, heard[at]);
            if m.wait.Over? then m else Respond(cfg, m, script[at])
  {
    UptoAt(cfg, script, |script|, at);
    UptoAt(cfg, script, |script|, at + 1);
  }

  lemma {:induction false} NothingAfterTheEnd(cfg: Config, script: seq<Answer>, at: nat, later: nat)
    requires at <= later <= |script| && Heard(cfg, script, at).wait.Over?
    ensures Heard(cfg, script, later) == Heard(cfg, script, at)
    decreases later
  {
    if at < later {
      NothingAfterTheEnd(cfg, script, at, later - 1);
    }
  }

  lemma {:induction false} AskedEach(cfg: Config, script: seq<Answer>, at: nat)
    requires 0 < at <= |script| && !Heard(cfg, script, at - 1).wait.Over?
    ensures |Heard(cfg, script, at).asked| == at
  {
    var before := Heard(cfg, script, at - 1);
    assert |Confirmed(cfg, before).asked| == at - 1 && !Confirmed(cfg, before).wait.Over?;
  }

  lemma {:induction false} OverInFull(cfg: Config, script: seq<Answer>, at: nat)
    requires 0 < at <= |script| && Heard(cfg, script, at).wait.Over? && !Heard(cfg, script, at - 1).wait.Over?
    ensures Heard(cfg, script, |script|) == Heard(cfg, script, at) && |Heard(cfg, script, at).asked| == at
  {
    AskedEach(cfg, script, at);
    NothingAfterTheEnd(cfg, script, at, |script|);
  }

  // ----- The trace says exactly what was heard

  /** What an answer tells: a frame, a send that went out, an ack, or a failure of
      the pass. */
  datatype Fact = GotFrame(frame: Frame) | GotOut | GotAck(duplicate: bool) | GotFailure

  function FactOf(w: Wait, a: Answer): seq<Fact> {
    match w
    case NextEvent => if a.failed then [] else [GotFrame(a.frame)]
    case Sending => if a.failed then [GotFailure] else [GotOut]
    case Acking => if a.failed then [GotFailure] else [GotAck(a.duplicate)]
    case _ => []
  }

  /** The facts in the answers to `asked`, in order. */
  function Facts(asked: seq<Wait>, script: seq<Answer>): seq<Fact>
    requires |asked| <= |script|
  {
    if asked == [] then []
    else Facts(asked[..|asked| - 1], script) + FactOf(asked[|asked| - 1], script[|asked| - 1])
  }

  function LabelFact(l: Label): seq<Fact> {
    match l
    case Read(f) => [GotFrame(f)]
    case Send(_, _) => [GotOut]
    case Acknowledge(_, duplicate) => [GotAck(duplicate)]
    case PassFailed => [GotFailure]
    case Confirm(_) => []
  }

  /** The facts that a trace claims, in order. */
  function Claims(trace: seq<Label>): seq<Fact> {
    if trace == [] then [] else Claims(trace[..|trace| - 1]) + LabelFact(trace[|trace| - 1])
  }

  /** A frame that was delivered and not taken: its relation is being looked up,
      or the session refused it. */
  function Unread(w: Wait): seq<Fact> {
    match w
    case Lookup(f, _) => [GotFrame(f)]
    case Over(_, Some(f)) => [GotFrame(f)]
    case _ => []
  }

  lemma {:induction false} ClaimsStep(trace: seq<Label>, l: Label)
    ensures Claims(trace + [l]) == Claims(trace) + LabelFact(l)
  {
    assert (trace + [l])[..|trace|] == trace;
  }

  lemma {:induction false} FactsStep(asked: seq<Wait>, w: Wait, script: seq<Answer>)
    requires |asked| < |script|
    ensures Facts(asked + [w], script) == Facts(asked, script) + FactOf(w, script[|asked|])
  {
    assert (asked + [w])[..|asked|] == asked;
  }

  /** What a machine claims to have heard. */
  function Told(m: Machine): seq<Fact> {
    Claims(m.run.trace) + Unread(m.wait)
  }

  lemma {:induction false} SayTells(cfg: Config, m: Machine, l: Label, wait: Wait)
    requires Valid(cfg, m.run) && Enabled(cfg, m.run.reader, l) && Unread(wait) == []
    ensures Told(Say(cfg, m, l, wait)) == Claims(m.run.trace) + LabelFact(l)
  {
    ClaimsStep(m.run.trace, l);
  }

  lemma {:induction false} BufferedTells(cfg: Config, m: Machine, f: Frame, named: bool)
    requires Valid(cfg, m.run) && m.run.reader.outbox.None? && f.Change? && !ControlOwned(f) && f.oid in cfg.catalog
    ensures Told(Buffered(cfg, m, f, named)) == Claims(m.run.trace) + [GotFrame(f)]
  {
    if Enabled(cfg, m.run.reader, Read(f)) {
      SayTells(cfg, m, Read(f), NextEvent);
    }
  }

  lemma {:induction false} TakenTells(cfg: Config, m: Machine, f: Frame, named: bool)
    requires Valid(cfg, m.run) && m.run.reader.outbox.None? && m.known <= cfg.catalog.Keys
    ensures Told(Taken(cfg, m, f, named)) == Claims(m.run.trace) + [GotFrame(f)]
  {
    if f.Change? && !ControlOwned(f) {
      if f.oid in m.known {
        BufferedTells(cfg, m, f, named);
      }
    } else if Enabled(cfg, m.run.reader, Read(f)) {
      SayTells(cfg, m, Read(f), if f.Commit? then PassToken else NextEvent);
    }
  }

  lemma {:induction false} ReadingTells(cfg: Config, m: Machine, a: Answer)
    requires Fits(cfg, m) && m.known <= cfg.catalog.Keys && (m.wait.NextEvent? || m.wait.Lookup?)
    ensures Told(WhileReading(cfg, m, a)) == Told(m) + FactOf(m.wait, a)
  {
    if m.wait.NextEvent? {
      if !a.failed {
        TakenTells(cfg, m, a.frame, a.error.mentionsInvalidation);
      }
    } else if !a.failed && m.wait.frame.oid in cfg.catalog {
      BufferedTells(cfg, m.(known := m.known + {m.wait.frame.oid}), m.wait.frame, m.wait.named);
    }
  }

  lemma {:induction false} PublishingTells(cfg: Config, m: Machine, a: Answer)
    requires Fits(cfg, m) && Publishing(m.wait)
    ensures Told(WhilePublishing(cfg, m, a)) == Told(m) + FactOf(m.wait, a)
  {
    var o, wait := m.run.reader.outbox.value, WhilePublishing(cfg, m, a).wait;
    match m.wait {
      case Sending => SayTells(cfg, m, if a.failed then PassFailed else Send(o.sent, o.msgs[o.sent]), wait);
      case Acking => SayTells(cfg, m, if a.failed then PassFailed else Acknowledge(o.first, a.duplicate), wait);
      case _ =>
    }
  }

  /** What one answer adds to the trace and leaves unread is what it tells. */
  lemma {:induction false} RespondTells(cfg: Config, m: Machine, a: Answer)
    requires Fits(cfg, m) && m.known <= cfg.catalog.Keys && !m.wait.Over? && !m.wait.Settled?
    ensures Told(Respond(cfg, m, a)) == Told(m) + FactOf(m.wait, a)
  {
    var n := m.(asked := m.asked + [m.wait]);
    if Publishing(m.wait) {
      PublishingTells(cfg, n, a);
    } else {
      ReadingTells(cfg, n, a);
    }
  }

  lemma {:induction false} ConfirmedTells(cfg: Config, m: Machine)
    requires Fits(cfg, m)
    ensures Told(Confirmed(cfg, m)) == Told(m)
  {
    if m.wait.Settled? {
      SayTells(cfg, m, Confirm(m.run.reader.outbox.value.end), NextEvent);
    }
  }

  /** The trace claims exactly what the answers told, in that order, but for a last
      frame that is not read yet or was refused. */
  ghost predicate TellsRight(script: seq<Answer>, m: Machine) {
    |m.asked| <= |script| && Facts(m.asked, script) == Told(m)
  }

  lemma {:induction false} AnswerTells(cfg: Config, script: seq<Answer>, m: Machine, a: Answer)
    requires Fits(cfg, m) && m.known <= cfg.catalog.Keys && !m.wait.Over? && !m.wait.Settled?
    requires |m.asked| < |script| && script[|m.asked|] == a && Facts(m.asked, script) == Told(m)
    ensures Facts(Respond(cfg, m, a).asked, script) == Told(Respond(cfg, m, a))
  {
    RespondTells(cfg, m, a);
    FactsStep(m.asked, m.wait, script);
  }

  lemma {:induction false} HistoryAt(cfg: Config, script: seq<Answer>, heard: seq<Machine>, at: nat)
    requires History(cfg, script, heard) && at <= |script|
    ensures |heard| == |script| + 1 && Fits(cfg, heard[at])
    ensures |heard[at].asked| <= at && (!heard[at].wait.Over? ==> |heard[at].asked| == at)
  {
    UptoAt(cfg, script, |script|, at);
  }

  lemma {:induction false} HistoryTells(cfg: Config, script: seq<Answer>, heard: seq<Machine>, at: nat)
    requires History(cfg, script, heard) && at < |script| && |heard| == |script| + 1 && TellsRight(script, heard[at])
    ensures TellsRight(script, heard[at + 1])
  {
    HistoryAt(cfg, script, heard, at);
    HistoryStep(cfg, script, heard, at);
    var m := Confirmed(cfg, heard[at]);
    ConfirmedTells(cfg, heard[at]);
    if !m.wait.Over? {
      AnswerTells(cfg, script, m, script[at]);
    }
  }

  lemma {:induction false} HistoryBegins(cfg: Config, script: seq<Answer>, heard: seq<Machine>)
    requires History(cfg, script, heard)
    ensures |heard| == |script| + 1 && TellsRight(script, heard[0])
  {
    UptoAt(cfg, script, |script|, 0);
    assert heard[0] == START;
  }

  lemma {:induction false} HistoryIsRight(cfg: Config, script: seq<Answer>, heard: seq<Machine>, at: nat)
    requires History(cfg, script, heard) && at <= |script|
    ensures |heard| == |script| + 1 && TellsRight(script, heard[at])
  {
    HistoryBegins(cfg, script, heard);
    for i := 0 to at
      invariant TellsRight(script, heard[i])
    {
      HistoryTells(cfg, script, heard, i);
    }
  }

  /** In every session, every frame delivered is read in order, every ack of the
      trace is one that the broker gave, with that duplicate flag, every message
      sent went out, and every failed pass had a failed send or ack. */
  lemma {:induction false} TraceIsHeard(cfg: Config, script: seq<Answer>, at: nat)
    requires at <= |script|
    ensures TellsRight(script, Heard(cfg, script, at))
  {
    HistoryIsRight(cfg, script, Upto(cfg, script, |script|), at);
    UptoAt(cfg, script, |script|, at);
  }

  /** The frames among some facts. */
  function Delivered(facts: seq<Fact>): seq<Frame> {
    if facts == [] then []
    else
      var fact := facts[|facts| - 1];
      Delivered(facts[..|facts| - 1]) + (if fact.GotFrame? then [fact.frame] else [])
  }

  lemma {:induction false} DeliveredStep(facts: seq<Fact>, more: seq<Fact>)
    requires |more| <= 1
    ensures Delivered(facts + more) == Delivered(facts) + (if more != [] && more[0].GotFrame? then [more[0].frame] else [])
  {
    if more == [] {
      assert facts + more == facts;
    } else {
      assert (facts + more)[..|facts|] == facts;
    }
  }

  lemma {:induction false} ClaimsDeliver(trace: seq<Label>)
    ensures Delivered(Claims(trace)) == FramesTaken(trace)
  {
    if trace != [] {
      ClaimsDeliver(trace[..|trace| - 1]);
      DeliveredStep(Claims(trace[..|trace| - 1]), LabelFact(trace[|trace| - 1]));
    }
  }

  /** The session in terms of the frames that the answers delivered: it has read
      them all, but for a last one that waits for its relation or was refused, and
      what it has acknowledged and confirmed follows from those it has read. */
  lemma {:induction false} SessionFollowsTheStream(cfg: Config, script: seq<Answer>, at: nat)
    requires at <= |script|
    ensures var m := Confirmed(cfg, Heard(cfg, script, at));
            && Delivered(Facts(m.asked, script)) ==
               FramesTaken(m.run.trace) + (if Unread(m.wait) == [] then [] else [Unread(m.wait)[0].frame])
            && FollowsFrames(m.run.reader, FramesTaken(m.run.trace))
  {
    var m := Confirmed(cfg, Heard(cfg, script, at));
    TraceIsHeard(cfg, script, at);
    ConfirmedTells(cfg, Heard(cfg, script, at));
    ClaimsDeliver(m.run.trace);
    DeliveredStep(Claims(m.run.trace), Unread(m.wait));
    AckedAreCommitted(cfg, m.run.trace);
  }
}
