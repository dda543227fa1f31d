/** The session loop of services/cdc-reader/src/lib.rs as a machine that takes one
    reply of the environment at a time, and what holds of all its runs.

    `SessionLoop` proves the code, with its nested loops and the ladder object,
    against this machine. Replies that run out stand for a killed process. */
module Session {
  import opened Optional
  import opened Events
  import opened Ladder

  datatype Fate = FateCancelled | SlotIncident | Fatal | FateReopen

  /** What a session error means. The keywords win over the variant. */
  function Classify(e: Error): Fate {
    if e.mentionsInvalidation then SlotIncident
    else
      match e.kind
      case Cancelled => FateCancelled
      case Authentication => Fatal
      case Configuration => Fatal
      case _ => FateReopen
  }

  /** `acceptable` says whether `check_registration` passes. */
  datatype Registration = Registration(slot: string, publication: string, acceptable: bool)

  /** `shutdownCancels` says whether `EventStream::shutdown` cancels the token it
      was built with. `polling` says whether the slot monitor is on. `judge` is the
      verdict that the re-open ladder gives on a history of re-opens. */
  datatype Options = Options(shutdownCancels: bool, polling: bool, judge: seq<Reopen> -> Verdict)

  /** One reply of the environment. `asked` says that the caller has asked to
      stop by now. Each question reads only its own part of the rest. */
  datatype Reply = Reply(
    asked: bool, failed: bool, registration: Registration, gap: bool,
    error: Error, drainedToShutdown: bool, commits: nat, now: nat)

  /** `GapChecked` is the check at the head of the loop, `Polled` the one on the
      registration that a wait has read again. */
  datatype Event =
    | Spawned(slot: string)
    | Retired(slot: string)
    | GapChecked(registration: Registration, clear: bool)
    | GapReported
    | Polled(registration: Registration, clear: bool)
    | Opened(registration: Registration)
    | OpenFailed(error: Error)
    | Severed(error: Error, asked: bool)
    | Slept(delay: nat)

  datatype Exit = Clean | Failure

  // ----- The machine

  /** What the loop waits for. `TokenSeen` marks a reply that was not looked at,
      because the token was found cancelled. */
  datatype Await =
    | AtHead
    | Polling
    | Rereading
    | Opening
    | Draining
    | TokenSeen
    | Over(exit: Exit)

  /** `cancelled` says that the token was cancelled by the shutdown of a stream,
      `asked` that the caller cancelled it. `heard` is what each reply answered. */
  datatype Loop = Loop(
    wait: Await, reg: Registration, reported: bool, cancelled: bool, asked: bool,
    clock: nat, history: seq<Reopen>, trace: seq<Event>, heard: seq<Await>)

  function Begin(o: Options, first: Registration): Loop {
    Loop(AtHead, first, false, false, false, 0, [], if o.polling then [Spawned(first.slot)] else [], [])
  }

  function Note(l: Loop, e: Event): Loop {
    l.(trace := l.trace + [e])
  }

  predicate Stopping(l: Loop) {
    l.cancelled || l.asked
  }

  /** Take one re-open into the ladder: a trip fails the run, and otherwise the
      loop backs off and goes on. */
  function Climb(o: Options, l: Loop, commits: nat, now: nat): Loop {
    var clock := if l.clock < now then now else l.clock;
    var climbed := l.(clock := clock, history := l.history + [Reopen(clock, commits)]);
    Heed(climbed, o.judge(climbed.history))
  }

  function Heed(l: Loop, verdict: Verdict): Loop {
    match verdict
    case Trip => l.(wait := Over(Failure))
    case Backoff(delay) => Note(l, Slept(delay)).(wait := AtHead)
  }

  /** What a session error leads to. */
  function Fated(o: Options, l: Loop, e: Error, commits: nat, now: nat): Loop {
    match Classify(e)
    case FateCancelled => l.(wait := Over(Clean))
    case Fatal => l.(wait := Over(Failure))
    case _ => Climb(o, l, commits, now)
  }

  /** The monitor follows the slot of the registration. */
  function Follow(o: Options, l: Loop, resumed: Registration): Loop {
    if resumed.slot != l.reg.slot && o.polling then
      Note(Note(l, Retired(l.reg.slot)), Spawned(resumed.slot)).(reg := resumed)
    else l.(reg := resumed)
  }

  function Report(l: Loop): Loop {
    if l.reported then l else Note(l, GapReported).(reported := true)
  }

  function HeadReply(l: Loop, r: Reply): Loop {
    if r.failed then l.(wait := Over(Failure))
    else
      var checked := Note(l, GapChecked(l.reg, !r.gap));
      if r.gap then Report(checked).(wait := Polling) else checked.(wait := Opening)
  }

  function RereadReply(o: Options, l: Loop, r: Reply): Loop {
    if r.failed || !r.registration.acceptable then l.(wait := Over(Failure))
    else
      var polled := Note(l, Polled(r.registration, !r.gap));
      if r.gap then polled.(wait := Polling) else Follow(o, polled, r.registration).(wait := AtHead)
  }

  function OpenReply(o: Options, l: Loop, r: Reply): Loop {
    if r.failed then Fated(o, Note(l, OpenFailed(r.error)), r.error, 0, r.now)
    else Note(l, Opened(l.reg)).(wait := Draining)
  }

  /** What the caller wants is read before the stream is shut down, because that may
      cancel the token. */
  function DrainReply(o: Options, l: Loop, r: Reply): Loop {
    if r.drainedToShutdown then l.(wait := Over(Clean))
    else
      var requested := Stopping(l);
      var severed := Note(l, Severed(r.error, l.asked)).(cancelled := o.shutdownCancels || l.cancelled);
      if requested then severed.(wait := Over(Clean)) else Fated(o, severed, r.error, r.commits, r.now)
  }

  /** The reply has arrived and is counted. The token is looked at where the code
      looks at it: at the head of the loop and after a poll interval. */
  function Arrived(l: Loop, r: Reply): Loop {
    var l1 := l.(asked := l.asked || r.asked);
    var what := if Stopping(l1) && (l.wait.AtHead? || l.wait.Polling?) then TokenSeen else l.wait;
    l1.(heard := l.heard + [what])
  }

  /** What a reply does. */
  function Replied(o: Options, l: Loop, r: Reply): Loop {
    var l1 := Arrived(l, r);
    match l.wait
    case AtHead => if Stopping(l1) then l1.(wait := Over(Clean)) else HeadReply(l1, r)
    case Polling => l1.(wait := if Stopping(l1) then Over(Clean) else Rereading)
    case Rereading => RereadReply(o, l1, r)
    case Opening => OpenReply(o, l1, r)
    case Draining => DrainReply(o, l1, r)
    case _ => l
  }

  /** The loop after the first `at` replies. A loop that is over hears no more. */
  function After(o: Options, first: Registration, replies: seq<Reply>, at: nat): Loop
    requires at <= |replies|
    decreases at
  {
    if at == 0 then Begin(o, first) else Replied(o, After(o, first, replies, at - 1), replies[at - 1])
  }

  // ----- The states of a run

  ghost predicate AfterAt(o: Options, first: Registration, replies: seq<Reply>, heard: seq<Loop>, i: nat)
    requires i <= |replies| && |heard| == |replies| + 1
  {
    heard[i] == After(o, first, replies, i)
  }

  /** `heard` holds the states of the machine after each number of replies. */
  ghost predicate History(o: Options, first: Registration, replies: seq<Reply>, heard: seq<Loop>) {
    && |heard| == |replies| + 1
    && forall i: nat {:trigger AfterAt(o, first, replies, heard, i)} :: i <= |replies| ==> AfterAt(o, first, replies, heard, i)
  }

  lemma {:induction false} HistoryStep(o: Options, first: Registration, replies: seq<Reply>, heard: seq<Loop>, i: nat)
    requires History(o, first, replies, heard) && i < |replies|
    ensures heard[i + 1] == Replied(o, heard[i], replies[i])
  {
    assert AfterAt(o, first, replies, heard, i) && AfterAt(o, first, replies, heard, i + 1);
  }

  /** The states of a run after each number of replies. */
  ghost function States(o: Options, first: Registration, replies: seq<Reply>): (heard: seq<Loop>)
    ensures History(o, first, replies, heard)
  {
    var heard := seq(|replies| + 1, i requires 0 <= i <= |replies| => After(o, first, replies, i));
    assert forall i: nat :: i <= |replies| ==> AfterAt(o, first, replies, heard, i);
    heard
  }

  lemma {:induction false} HistoryBegins(o: Options, first: Registration, replies: seq<Reply>, heard: seq<Loop>)
    requires History(o, first, replies, heard)
    ensures heard[0] == Begin(o, first)
  {
    assert AfterAt(o, first, replies, heard, 0);
  }

  // ----- The trace says exactly what was heard

  datatype Fact =
    | GotCheck(clear: bool)
    | GotPoll(registration: Registration, clear: bool)
    | GotSession
    | GotRefusal(error: Error)
    | GotSever(error: Error)

  function FactOf(w: Await, r: Reply): seq<Fact> {
    match w
    case AtHead => if r.failed then [] else [GotCheck(!r.gap)]
    case Rereading => if r.failed || !r.registration.acceptable then [] else [GotPoll(r.registration, !r.gap)]
    case Opening => if r.failed then [GotRefusal(r.error)] else [GotSession]
    case Draining => if r.drainedToShutdown then [] else [GotSever(r.error)]
    case _ => []
  }

  /** The facts in the replies to `heard`, in order. */
  function Facts(heard: seq<Await>, replies: seq<Reply>): seq<Fact>
    requires |heard| <= |replies|
  {
    if heard == [] then []
    else Facts(heard[..|heard| - 1], replies) + FactOf(heard[|heard| - 1], replies[|heard| - 1])
  }

  function EventFact(e: Event): seq<Fact> {
    match e
    case GapChecked(_, clear) => [GotCheck(clear)]
    case Polled(registration, clear) => [GotPoll(registration, clear)]
    case Opened(_) => [GotSession]
    case OpenFailed(error) => [GotRefusal(error)]
    case Severed(error, _) => [GotSever(error)]
    case _ => []
  }

  /** The facts that a trace claims, in order. */
  function Claims(trace: seq<Event>): seq<Fact> {
    if trace == [] then [] else Claims(trace[..|trace| - 1]) + EventFact(trace[|trace| - 1])
  }

  lemma {:induction false} NoteClaims(l: Loop, e: Event)
    ensures Claims(Note(l, e).trace) == Claims(l.trace) + EventFact(e)
  {
    assert (l.trace + [e])[..|l.trace|] == l.trace;
  }

  lemma {:induction false} HeedClaims(l: Loop, verdict: Verdict)
    ensures Claims(Heed(l, verdict).trace) == Claims(l.trace) && Heed(l, verdict).heard == l.heard
  {
    if verdict.Backoff? {
      NoteClaims(l, Slept(verdict.delay));
    }
  }

  lemma {:induction false} ClimbClaims(o: Options, l: Loop, commits: nat, now: nat)
    ensures Claims(Climb(o, l, commits, now).trace) == Claims(l.trace) && Climb(o, l, commits, now).heard == l.heard
  {
    var clock := if l.clock < now then now else l.clock;
    var climbed := l.(clock := clock, history := l.history + [Reopen(clock, commits)]);
    HeedClaims(climbed, o.judge(climbed.history));
  }

  lemma {:induction false} FatedClaims(o: Options, l: Loop, e: Error, commits: nat, now: nat)
    ensures Claims(Fated(o, l, e, commits, now).trace) == Claims(l.trace) && Fated(o, l, e, commits, now).heard == l.heard
  {
    ClimbClaims(o, l, commits, now);
  }

  lemma {:induction false} HeadClaims(l: Loop, r: Reply)
    ensures Claims(HeadReply(l, r).trace) == Claims(l.trace) + FactOf(AtHead, r)
    ensures HeadReply(l, r).heard == l.heard
  {
    if !r.failed {
      var checked := Note(l, GapChecked(l.reg, !r.gap));
      NoteClaims(l, GapChecked(l.reg, !r.gap));
      if r.gap && !l.reported {
        NoteClaims(checked, GapReported);
      }
    }
  }

  lemma {:induction false} FollowClaims(o: Options, l: Loop, resumed: Registration)
    ensures Claims(Follow(o, l, resumed).trace) == Claims(l.trace) && Follow(o, l, resumed).heard == l.heard
  {
    if resumed.slot != l.reg.slot && o.polling {
      NoteClaims(l, Retired(l.reg.slot));
      NoteClaims(Note(l, Retired(l.reg.slot)), Spawned(resumed.slot));
    }
  }

  lemma {:induction false} RereadClaims(o: Options, l: Loop, r: Reply)
    ensures Claims(RereadReply(o, l, r).trace) == Claims(l.trace) + FactOf(Rereading, r)
    ensures RereadReply(o, l, r).heard == l.heard
  {
    if !r.failed && r.registration.acceptable {
      var polled := Note(l, Polled(r.registration, !r.gap));
      NoteClaims(l, Polled(r.registration, !r.gap));
      if !r.gap {
        FollowClaims(o, polled, r.registration);
      }
    }
  }

  lemma {:induction false} OpenClaims(o: Options, l: Loop, r: Reply)
    ensures Claims(OpenReply(o, l, r).trace) == Claims(l.trace) + FactOf(Opening, r)
    ensures OpenReply(o, l, r).heard == l.heard
  {
    if r.failed {
      var failed := Note(l, OpenFailed(r.error));
      NoteClaims(l, OpenFailed(r.error));
      FatedClaims(o, failed, r.error, 0, r.now);
    } else {
      NoteClaims(l, Opened(l.reg));
    }
  }

  lemma {:induction false} DrainClaims(o: Options, l: Loop, r: Reply)
    ensures Claims(DrainReply(o, l, r).trace) == Claims(l.trace) + FactOf(Draining, r)
    ensures DrainReply(o, l, r).heard == l.heard
  {
    if !r.drainedToShutdown {
      var severed := Note(l, Severed(r.error, l.asked)).(cancelled := o.shutdownCancels || l.cancelled);
      NoteClaims(l, Severed(r.error, l.asked));
      FatedClaims(o, severed, r.error, r.commits, r.now);
    }
  }

  lemma {:induction false} RepliedClaims(o: Options, l: Loop, r: Reply)
    requires !l.wait.Over? && !l.wait.TokenSeen?
    ensures Replied(o, l, r).heard == Arrived(l, r).heard && |Arrived(l, r).heard| == |l.heard| + 1
    ensures Claims(Replied(o, l, r).trace) == Claims(l.trace) + FactOf(Arrived(l, r).heard[|l.heard|], r)
  {
    var l1 := Arrived(l, r);
    match l.wait {
      case AtHead => HeadClaims(l1, r);
      case Rereading => RereadClaims(o, l1, r);
      case Opening => OpenClaims(o, l1, r);
      case Draining => DrainClaims(o, l1, r);
      case _ =>
    }
  }

  lemma {:induction false} FactsStep(heard: seq<Await>, w: Await, replies: seq<Reply>)
    requires |heard| < |replies|
    ensures Facts(heard + [w], replies) == Facts(heard, replies) + FactOf(w, replies[|heard|])
  {
    assert (heard + [w])[..|heard|] == heard;
  }

  /** After `at` replies the trace claims exactly what they told, in order. */
  ghost predicate HeardRight(o: Options, first: Registration, replies: seq<Reply>, at: nat)
    requires at <= |replies|
  {
    var l := After(o, first, replies, at);
    && |l.heard| <= at && (!l.wait.Over? ==> |l.heard| == at) && !l.wait.TokenSeen?
    && Facts(l.heard, replies) == Claims(l.trace)
  }

  lemma {:induction false} NeverTokenSeen(o: Options, l: Loop, r: Reply)
    requires !l.wait.Over? && !l.wait.TokenSeen?
    ensures !Replied(o, l, r).wait.TokenSeen?
  {
  }

  lemma {:induction false} HeardRightStep(o: Options, first: Registration, replies: seq<Reply>, at: nat)
    requires at < |replies| && HeardRight(o, first, replies, at)
    ensures HeardRight(o, first, replies, at + 1)
  {
    var l, r := After(o, first, replies, at), replies[at];
    if !l.wait.Over? {
      RepliedClaims(o, l, r);
      NeverTokenSeen(o, l, r);
      FactsStep(l.heard, Arrived(l, r).heard[at], replies);
    }
  }

  /** In every run each gap check, poll, session, failed open and sever of the trace
      is one that a reply told, with its registration, result and error, in order,
      and nothing that a reply told is missing. */
  lemma {:induction false} TraceIsHeard(o: Options, first: Registration, replies: seq<Reply>, at: nat)
    requires at <= |replies|
    ensures HeardRight(o, first, replies, at)
  {
    for i := 0 to at
      invariant HeardRight(o, first, replies, i)
    {
      HeardRightStep(o, first, replies, i);
    }
  }
}
