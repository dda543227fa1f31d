/** What holds of every run of the session loop of services/cdc-reader/src/lib.rs,
    for all replies of the environment. */
module SessionLaws {
  import opened Optional
  import opened Events
  import opened Ladder
  import opened Session

  // ----- What a trace may hold

  /** The slots of the monitors that were spawned and not retired. */
  ghost function Live(trace: seq<Event>): multiset<string> {
    if trace == [] then multiset{}
    else
      var past, e := Live(trace[..|trace| - 1]), trace[|trace| - 1];
      match e
      case Spawned(slot) => past + multiset{slot}
      case Retired(slot) => past - multiset{slot}
      case _ => past
  }

  function Watching(o: Options, slot: string): multiset<string> {
    if o.polling then multiset{slot} else multiset{}
  }

  /** Whether the loop has backed off since the last session failed, and the
      backoffs it has taken. */
  datatype Pace = Pace(rested: bool, delays: seq<nat>)

  ghost function PaceOf(trace: seq<Event>): Pace {
    if trace == [] then Pace(true, [])
    else Paced(PaceOf(trace[..|trace| - 1]), trace[|trace| - 1])
  }

  function Paced(p: Pace, e: Event): Pace {
    match e
    case Slept(delay) => Pace(true, p.delays + [delay])
    case OpenFailed(_) => p.(rested := false)
    case Severed(_, _) => p.(rested := false)
    case _ => p
  }

  /** The registration in force: the one the run began with, or the one on which the
      last wait ended. */
  ghost function InForce(first: Registration, trace: seq<Event>): Registration {
    if trace == [] then first
    else
      var e := trace[|trace| - 1];
      if e.Polled? && e.clear then e.registration else InForce(first, trace[..|trace| - 1])
  }

  /** A wrong credential or configuration, unless the text speaks of an invalidated
      slot. */
  predicate Hopeless(e: Error) {
    !e.mentionsInvalidation && (e.kind == Authentication || e.kind == Configuration)
  }

  /** The error says that the session was cancelled, unless the text speaks of an
      invalidated slot. */
  predicate SaysCancelled(e: Error) {
    !e.mentionsInvalidation && e.kind == Cancelled
  }

  lemma {:induction false} FateOfKinds(e: Error)
    ensures Classify(e).Fatal? <==> Hopeless(e)
    ensures Classify(e).FateCancelled? <==> SaysCancelled(e)
  {
  }

  /** An event that nothing may turn into a clean exit. */
  predicate Deadly(e: Event) {
    (e.OpenFailed? && Hopeless(e.error)) || (e.Severed? && Hopeless(e.error) && !e.asked)
  }

  ghost predicate Harmless(trace: seq<Event>) {
    forall p :: p in trace ==> !Deadly(p)
  }

  ghost predicate HasSevered(trace: seq<Event>) {
    exists p :: p in trace && p.Severed?
  }

  /** The gap check has just failed. */
  predicate FoundGap(trace: seq<Event>) {
    trace != [] && trace[|trace| - 1].GapChecked? && !trace[|trace| - 1].clear
  }

  ghost predicate MayFollow(o: Options, first: Registration, past: seq<Event>, e: Event) {
    && Harmless(past)
    && match e
       case GapChecked(registration, _) => registration == InForce(first, past)
       case Opened(registration) =>
         && past != [] && past[|past| - 1] == GapChecked(registration, true)
         && Live(past) == Watching(o, registration.slot)
         && (o.shutdownCancels ==> !HasSevered(past))
         && PaceOf(past).rested
       case Slept(delay) => !PaceOf(past).rested && BASE_BACKOFF <= delay <= MAX_BACKOFF
       case GapReported => GapReported !in past && FoundGap(past)
       case Spawned(_) => Live(past) == multiset{}
       case _ => true
  }

  ghost predicate Lawful(o: Options, first: Registration, trace: seq<Event>) {
    trace == [] ||
    (Lawful(o, first, trace[..|trace| - 1]) && MayFollow(o, first, trace[..|trace| - 1], trace[|trace| - 1]))
  }

  lemma {:induction false} LawfulAt(o: Options, first: Registration, trace: seq<Event>, k: nat)
    requires Lawful(o, first, trace) && k < |trace|
    ensures MayFollow(o, first, trace[..k], trace[k])
  {
    if k < |trace| - 1 {
      var rest := trace[..|trace| - 1];
      LawfulAt(o, first, rest, k);
      assert rest[..k] == trace[..k];
    }
  }

  lemma {:induction false} Record(o: Options, first: Registration, trace: seq<Event>, e: Event)
    requires Lawful(o, first, trace) && MayFollow(o, first, trace, e)
    ensures Lawful(o, first, trace + [e])
  {
    assert (trace + [e])[..|trace|] == trace;
  }

  /** What one more event makes of monitors, pace and registration. */
  lemma {:induction false} Grown(first: Registration, trace: seq<Event>, e: Event)
    ensures Live(trace + [e]) ==
            match e {
              case Spawned(slot) => Live(trace) + multiset{slot}
              case Retired(slot) => Live(trace) - multiset{slot}
              case _ => Live(trace)
            }
    ensures PaceOf(trace + [e]) == Paced(PaceOf(trace), e)
    ensures InForce(first, trace + [e]) == if e.Polled? && e.clear then e.registration else InForce(first, trace)
  {
    assert (trace + [e])[..|trace|] == trace;
  }

  lemma {:induction false} GrownMembers(trace: seq<Event>, e: Event)
    ensures HasSevered(trace + [e]) <==> HasSevered(trace) || e.Severed?
    ensures Harmless(trace + [e]) <==> Harmless(trace) && !Deadly(e)
    ensures GapReported in trace + [e] <==> GapReported in trace || e == GapReported
  {
    assert forall p :: p in trace + [e] <==> p in trace || p == e;
    assert e in trace + [e];
  }

  // ----- What every state of the loop keeps

  /** The backoffs are those that the ladder calls for on the re-opens so far, and a
      re-open without a backoff tripped it. */
  ghost predicate Climbed(o: Options, delays: seq<nat>, history: seq<Reopen>) {
    && |delays| <= |history| <= |delays| + 1
    && (forall n :: 0 <= n < |delays| ==> o.judge(history[..n + 1]) == Backoff(delays[n]))
    && (|history| == |delays| + 1 ==> o.judge(history).Trip?)
  }

  ghost predicate InTime(history: seq<Reopen>, clock: nat) {
    Ascending(history) && (history != [] ==> history[|history| - 1].at <= clock)
  }

  /** The trace is lawful, and the loop knows what it says. */
  ghost predicate Known(o: Options, first: Registration, trace: seq<Event>, reg: Registration, reported: bool, cancelled: bool) {
    && Lawful(o, first, trace)
    && (GapReported in trace ==> reported)
    && Live(trace) == Watching(o, reg.slot)
    && cancelled == (o.shutdownCancels && HasSevered(trace))
    && reg == InForce(first, trace)
  }

  /** What holds in every state, also when the run is over. */
  ghost predicate Core(o: Options, first: Registration, l: Loop) {
    && Known(o, first, l.trace, l.reg, l.reported, l.cancelled)
    && Climbed(o, PaceOf(l.trace).delays, l.history)
    && InTime(l.history, l.clock)
  }

  /** What holds between two replies of a run that goes on. */
  ghost predicate Sane(o: Options, first: Registration, l: Loop) {
    && Core(o, first, l) && Harmless(l.trace)
    && PaceOf(l.trace).rested && |l.history| == |PaceOf(l.trace).delays|
    && !l.wait.Over? && !l.wait.TokenSeen?
    && (l.wait.Opening? ==> !l.cancelled && l.trace != [] && l.trace[|l.trace| - 1] == GapChecked(l.reg, true))
    && (l.wait.Draining? ==> !l.cancelled)
  }

  predicate IsFailure(e: Event) {
    e.OpenFailed? || e.Severed?
  }

  /** Why a run may fail: a check or a read failed, the registration was not
      acceptable, the last event is a fatal error, or the ladder tripped on it. */
  predicate FailedFor(o: Options, l: Loop, w: Await, r: Reply) {
    || (w.AtHead? && r.failed)
    || (w.Rereading? && (r.failed || !r.registration.acceptable))
    || (l.trace != [] && Deadly(l.trace[|l.trace| - 1]))
    || (l.trace != [] && IsFailure(l.trace[|l.trace| - 1]) && o.judge(l.history).Trip?)
  }

  /** Why a run may end cleanly: the token was found cancelled, a drain saw the
      shutdown, the caller had asked when a drain was severed, or the last event is
      an error that says that the session was cancelled. */
  predicate CleanFor(l: Loop, w: Await, r: Reply) {
    || (w.TokenSeen? && Stopping(l))
    || (w.Draining? && r.drainedToShutdown)
    || (w.Draining? && l.asked)
    || (l.trace != [] && IsFailure(l.trace[|l.trace| - 1]) && SaysCancelled(l.trace[|l.trace| - 1].error))
  }

  /** The exit of a run has one of its reasons in the last reply `r` it heard, and a
      clean one comes after no deadly error. */
  ghost predicate Justified(o: Options, l: Loop, r: Reply)
    requires l.wait.Over? && l.heard != []
  {
    var w := l.heard[|l.heard| - 1];
    match l.wait.exit
    case Clean => Harmless(l.trace) && CleanFor(l, w, r)
    case Failure => FailedFor(o, l, w, r)
  }

  /** What holds of a run that is over, with the last reply it heard. */
  ghost predicate Ended(o: Options, first: Registration, l: Loop, r: Reply) {
    Core(o, first, l) && l.wait.Over? && l.heard != [] && Justified(o, l, r)
  }

  ghost predicate Keeps(o: Options, first: Registration, l: Loop, r: Reply) {
    if l.wait.Over? then Ended(o, first, l, r) else Sane(o, first, l)
  }

  /** The ladder backs off between its bounds. */
  ghost predicate Bounded(o: Options) {
    forall h: seq<Reopen> {:trigger o.judge(h)} ::
      h != [] && o.judge(h).Backoff? ==> BASE_BACKOFF <= o.judge(h).delay <= MAX_BACKOFF
  }

  /** Events that leave monitors, pace and registration alone. */
  predicate Plain(e: Event) {
    e.GapChecked? || e.Opened? || (e.Polled? && !e.clear)
  }

  lemma {:induction false} NotePlain(o: Options, first: Registration, l: Loop, e: Event)
    requires Core(o, first, l) && Plain(e) && MayFollow(o, first, l.trace, e)
    ensures Core(o, first, Note(l, e)) && PaceOf(Note(l, e).trace) == PaceOf(l.trace)
    ensures Harmless(l.trace) ==> Harmless(Note(l, e).trace)
  {
    Record(o, first, l.trace, e);
    Grown(first, l.trace, e);
    GrownMembers(l.trace, e);
  }

  lemma {:induction false} ReportKeeps(o: Options, first: Registration, l: Loop)
    requires Core(o, first, l) && Harmless(l.trace) && FoundGap(l.trace)
    ensures Core(o, first, Report(l)) && PaceOf(Report(l).trace) == PaceOf(l.trace) && Harmless(Report(l).trace)
  {
    if !l.reported {
      Record(o, first, l.trace, GapReported);
      Grown(first, l.trace, GapReported);
      GrownMembers(l.trace, GapReported);
    }
  }

  lemma {:induction false} HeadKeeps(o: Options, first: Registration, l: Loop, r: Reply)
    requires Core(o, first, l) && Harmless(l.trace) && l.wait == AtHead && !l.cancelled
    requires PaceOf(l.trace).rested && |l.history| == |PaceOf(l.trace).delays|
    requires l.heard != [] && l.heard[|l.heard| - 1] == AtHead
    ensures Keeps(o, first, HeadReply(l, r), r)
  {
    if !r.failed {
      var e := GapChecked(l.reg, !r.gap);
      NotePlain(o, first, l, e);
      if r.gap {
        ReportKeeps(o, first, Note(l, e));
      }
    }
  }

  lemma {:induction false} MonitorMoves(o: Options, first: Registration, trace: seq<Event>, left: string, taken: string)
    requires Lawful(o, first, trace) && Harmless(trace) && Live(trace) == multiset{left}
    ensures var moved := trace + [Retired(left)] + [Spawned(taken)];
            && Lawful(o, first, moved) && Harmless(moved) && Live(moved) == multiset{taken}
            && PaceOf(moved) == PaceOf(trace) && InForce(first, moved) == InForce(first, trace)
            && (HasSevered(moved) <==> HasSevered(trace)) && (GapReported in moved <==> GapReported in trace)
  {
    var retired := trace + [Retired(left)];
    Record(o, first, trace, Retired(left));
    Grown(first, trace, Retired(left));
    GrownMembers(trace, Retired(left));
    assert Live(retired) == multiset{};
    Record(o, first, retired, Spawned(taken));
    Grown(first, retired, Spawned(taken));
    GrownMembers(retired, Spawned(taken));
  }

  lemma {:induction false} PollEnds(o: Options, first: Registration, trace: seq<Event>, reg: Registration)
    requires Lawful(o, first, trace) && Harmless(trace)
    ensures var polled := trace + [Polled(reg, true)];
            && Lawful(o, first, polled) && Harmless(polled) && Live(polled) == Live(trace)
            && PaceOf(polled) == PaceOf(trace) && InForce(first, polled) == reg
            && (HasSevered(polled) <==> HasSevered(trace)) && (GapReported in polled <==> GapReported in trace)
  {
    Record(o, first, trace, Polled(reg, true));
    Grown(first, trace, Polled(reg, true));
    GrownMembers(trace, Polled(reg, true));
  }

  /** A wait that ends moves the monitor to the slot of the registration read. */
  lemma {:induction false} FollowKeeps(o: Options, first: Registration, l: Loop, reg: Registration)
    requires Core(o, first, l) && Harmless(l.trace)
    ensures var next := Follow(o, Note(l, Polled(reg, true)), reg);
            Core(o, first, next) && PaceOf(next.trace) == PaceOf(l.trace) && Harmless(next.trace)
  {
    PollEnds(o, first, l.trace, reg);
    if reg.slot != l.reg.slot && o.polling {
      MonitorMoves(o, first, l.trace + [Polled(reg, true)], l.reg.slot, reg.slot);
    }
  }

  lemma {:induction false} RereadKeeps(o: Options, first: Registration, l: Loop, r: Reply)
    requires Core(o, first, l) && Harmless(l.trace) && l.wait == Rereading
    requires PaceOf(l.trace).rested && |l.history| == |PaceOf(l.trace).delays|
    requires l.heard != [] && l.heard[|l.heard| - 1] == Rereading
    ensures Keeps(o, first, RereadReply(o, l, r), r)
  {
    if !r.failed && r.registration.acceptable {
      if r.gap {
        NotePlain(o, first, l, Polled(r.registration, false));
      } else {
        FollowKeeps(o, first, l, r.registration);
      }
    }
  }

  lemma {:induction false} ClimbOn(o: Options, delays: seq<nat>, history: seq<Reopen>, re: Reopen)
    requires Climbed(o, delays, history) && |history| == |delays|
    ensures var next := history + [re];
            match o.judge(next) {
              case Trip => Climbed(o, delays, next)
              case Backoff(delay) => Climbed(o, delays + [delay], next)
            }
  {
    var next := history + [re];
    assert next[..|next|] == next;
    forall n | 0 <= n < |delays| ensures o.judge(next[..n + 1]) == Backoff(delays[n]) {
      assert next[..n + 1] == history[..n + 1];
    }
  }

  /** What holds when a failure has just been noted. */
  ghost predicate Fallen(o: Options, first: Registration, l: Loop) {
    && Core(o, first, l) && !PaceOf(l.trace).rested
    && |l.history| == |PaceOf(l.trace).delays|
    && l.trace != [] && IsFailure(l.trace[|l.trace| - 1])
    && (Harmless(l.trace) <==> !Deadly(l.trace[|l.trace| - 1]))
  }

  lemma {:induction false} HeedKeeps(o: Options, first: Registration, l: Loop, verdict: Verdict, delays: seq<nat>, r: Reply)
    requires Known(o, first, l.trace, l.reg, l.reported, l.cancelled) && InTime(l.history, l.clock) && Harmless(l.trace)
    requires PaceOf(l.trace) == Pace(false, delays) && l.trace != [] && IsFailure(l.trace[|l.trace| - 1]) && l.heard != []
    requires o.judge(l.history) == verdict && |l.history| == |delays| + 1
    requires verdict.Trip? ==> Climbed(o, delays, l.history)
    requires verdict.Backoff? ==>
               Climbed(o, delays + [verdict.delay], l.history) && BASE_BACKOFF <= verdict.delay <= MAX_BACKOFF
    ensures Keeps(o, first, Heed(l, verdict), r)
  {
    if verdict.Backoff? {
      Record(o, first, l.trace, Slept(verdict.delay));
      Grown(first, l.trace, Slept(verdict.delay));
      GrownMembers(l.trace, Slept(verdict.delay));
    }
  }

  lemma {:induction false} ClimbKeeps(o: Options, first: Registration, l: Loop, commits: nat, now: nat, r: Reply)
    requires Bounded(o) && Fallen(o, first, l) && Harmless(l.trace) && l.heard != []
    ensures Keeps(o, first, Climb(o, l, commits, now), r)
  {
    var clock := if l.clock < now then now else l.clock;
    var climbed := l.(clock := clock, history := l.history + [Reopen(clock, commits)]);
    ClimbOn(o, PaceOf(l.trace).delays, l.history, Reopen(clock, commits));
    HeedKeeps(o, first, climbed, o.judge(climbed.history), PaceOf(l.trace).delays, r);
  }

  /** The state with a failure noted. */
  function Failing(o: Options, l: Loop, e: Event): Loop {
    Note(l, e).(cancelled := if e.Severed? then o.shutdownCancels || l.cancelled else l.cancelled)
  }

  lemma {:induction false} FailureNoted(o: Options, first: Registration, l: Loop, e: Event)
    requires Core(o, first, l) && Harmless(l.trace) && |l.history| == |PaceOf(l.trace).delays| && IsFailure(e)
    ensures Fallen(o, first, Failing(o, l, e))
  {
    Record(o, first, l.trace, e);
    Grown(first, l.trace, e);
    GrownMembers(l.trace, e);
  }

  lemma {:induction false} FatedKeeps(o: Options, first: Registration, l: Loop, commits: nat, now: nat, r: Reply)
    requires Bounded(o) && Fallen(o, first, l) && l.heard != []
    requires l.trace[|l.trace| - 1].Severed? ==> !l.trace[|l.trace| - 1].asked
    ensures Keeps(o, first, Fated(o, l, l.trace[|l.trace| - 1].error, commits, now), r)
  {
    var fate := Classify(l.trace[|l.trace| - 1].error);
    if !fate.Fatal? && !fate.FateCancelled? {
      ClimbKeeps(o, first, l, commits, now, r);
    }
  }

  lemma {:induction false} OpenKeeps(o: Options, first: Registration, l: Loop, r: Reply)
    requires Bounded(o) && Sane(o, first, l) && l.wait == Opening && l.heard != []
    ensures Keeps(o, first, OpenReply(o, l, r), r)
  {
    if r.failed {
      FailureNoted(o, first, l, OpenFailed(r.error));
      FatedKeeps(o, first, Failing(o, l, OpenFailed(r.error)), 0, r.now, r);
    } else {
      NotePlain(o, first, l, Opened(l.reg));
    }
  }

  lemma {:induction false} DrainKeeps(o: Options, first: Registration, l: Loop, r: Reply)
    requires Bounded(o) && Sane(o, first, l) && l.wait == Draining
    requires l.heard != [] && l.heard[|l.heard| - 1] == Draining
    ensures Keeps(o, first, DrainReply(o, l, r), r)
  {
    if !r.drainedToShutdown {
      var severed := Failing(o, l, Severed(r.error, l.asked));
      FailureNoted(o, first, l, Severed(r.error, l.asked));
      if !Stopping(l) {
        FatedKeeps(o, first, severed, r.commits, r.now, r);
      }
    }
  }

  lemma {:induction false} ArrivedIsSane(o: Options, first: Registration, l: Loop, r: Reply)
    requires Sane(o, first, l)
    ensures Sane(o, first, Arrived(l, r)) && |Arrived(l, r).heard| == |l.heard| + 1
  {
  }

  lemma {:induction false} TokenStops(o: Options, first: Registration, l: Loop, r: Reply)
    requires Sane(o, first, l) && Stopping(l) && l.heard != [] && l.heard[|l.heard| - 1] == TokenSeen
    ensures Keeps(o, first, l.(wait := Over(Clean)), r)
  {
  }

  /** Every reply keeps what holds of the loop, or ends the run for a known reason. */
  lemma {:induction false} ReplyKeeps(o: Options, first: Registration, l: Loop, r: Reply)
    requires Bounded(o) && Sane(o, first, l)
    ensures Keeps(o, first, Replied(o, l, r), r)
  {
    var l1 := Arrived(l, r);
    ArrivedIsSane(o, first, l, r);
    match l.wait {
      case AtHead =>
        if Stopping(l1) {
          TokenStops(o, first, l1, r);
        } else {
          HeadKeeps(o, first, l1, r);
        }
      case Polling =>
        if Stopping(l1) {
          TokenStops(o, first, l1, r);
        }
      case Rereading => RereadKeeps(o, first, l1, r);
      case Opening => OpenKeeps(o, first, l1, r);
      case Draining => DrainKeeps(o, first, l1, r);
    }
  }

  lemma {:induction false} BeginIsSane(o: Options, first: Registration)
    ensures Sane(o, first, Session.Begin(o, first))
  {
    if o.polling {
      Record(o, first, [], Spawned(first.slot));
      Grown(first, [], Spawned(first.slot));
      GrownMembers([], Spawned(first.slot));
      assert [] + [Spawned(first.slot)] == [Spawned(first.slot)];
    }
  }

  /** The reply that the loop heard last. */
  function LastReply(l: Loop, replies: seq<Reply>): Reply
    requires 0 < |l.heard| <= |replies|
  {
    replies[|l.heard| - 1]
  }

  /** A run that goes on is sane, and one that is over ended for a known reason. */
  ghost predicate Governed(o: Options, first: Registration, replies: seq<Reply>, l: Loop) {
    if l.wait.Over? then 0 < |l.heard| <= |replies| && Ended(o, first, l, LastReply(l, replies))
    else Sane(o, first, l)
  }

  lemma {:induction false} GovernedStep(o: Options, first: Registration, replies: seq<Reply>, at: nat)
    requires Bounded(o) && at < |replies| && Governed(o, first, replies, After(o, first, replies, at))
    ensures Governed(o, first, replies, After(o, first, replies, at + 1))
  {
    var l := After(o, first, replies, at);
    TraceIsHeard(o, first, replies, at);
    if !l.wait.Over? {
      ReplyKeeps(o, first, l, replies[at]);
      RepliedClaims(o, l, replies[at]);
    }
  }

  /** Every run is governed, for all replies. */
  lemma {:induction false} RunIsGoverned(o: Options, first: Registration, replies: seq<Reply>, at: nat)
    requires Bounded(o) && at <= |replies|
    ensures Governed(o, first, replies, After(o, first, replies, at))
  {
    BeginIsSane(o, first);
    for i := 0 to at
      invariant Governed(o, first, replies, After(o, first, replies, i))
    {
      GovernedStep(o, first, replies, i);
    }
  }

  lemma {:induction false} RunIsLawful(o: Options, first: Registration, replies: seq<Reply>, at: nat)
    requires Bounded(o) && at <= |replies|
    ensures Core(o, first, After(o, first, replies, at))
  {
    RunIsGoverned(o, first, replies, at);
  }

  // ----- The ladder of the reader

  ghost predicate Judges(o: Options, history: seq<Reopen>) {
    history != [] ==> o.judge(history) == Judge(history)
  }

  /** The verdicts are those of the re-open ladder. */
  ghost predicate Real(o: Options) {
    forall h: seq<Reopen> {:trigger Judges(o, h)} :: Judges(o, h)
  }

  lemma {:induction false} RealIsBounded(o: Options)
    requires Real(o)
    ensures Bounded(o)
  {
    forall h: seq<Reopen> | h != [] && o.judge(h).Backoff?
      ensures BASE_BACKOFF <= o.judge(h).delay <= MAX_BACKOFF
    {
      assert Judges(o, h);
      BackoffBounds(Streak(h), Streak(h));
    }
  }

  /** In no minute of a run does the reader back off and re-open more than twenty
      times. */
  lemma {:induction false} ReopensAreRare(o: Options, first: Registration, replies: seq<Reply>, at: nat, from: nat)
    requires Real(o) && at <= |replies|
    ensures var l := After(o, first, replies, at);
            && |PaceOf(l.trace).delays| <= |l.history|
            && CountBetween(l.history[..|PaceOf(l.trace).delays|], from, from + RATE_WINDOW) <= RATE_CAP
  {
    var l := After(o, first, replies, at);
    RealIsBounded(o);
    RunIsLawful(o, first, replies, at);
    var delays := PaceOf(l.trace).delays;
    var slept := l.history[..|delays|];
    forall n | 0 < n <= |slept| ensures Judge(slept[..n]).Backoff? {
      assert slept[..n] == l.history[..n];
      assert Judges(o, l.history[..n]) && o.judge(l.history[..(n - 1) + 1]) == Backoff(delays[n - 1]);
    }
    RateIsBounded(slept, from);
  }

  // ----- What every run promises

  lemma {:induction false} OpenIsLawful(o: Options, first: Registration, trace: seq<Event>, k: nat)
    requires Lawful(o, first, trace) && k < |trace| && trace[k].Opened?
    ensures k > 0 && trace[k - 1] == GapChecked(trace[k].registration, true)
    ensures trace[k].registration == InForce(first, trace[..k])
    ensures Live(trace[..k]) == Watching(o, trace[k].registration.slot)
  {
    LawfulAt(o, first, trace, k);
    LawfulAt(o, first, trace, k - 1);
    Grown(first, trace[..k - 1], trace[k - 1]);
    assert trace[..k - 1] + [trace[k - 1]] == trace[..k];
  }

  /** A session opens only right after the gap check, on the registration in force,
      passed, with exactly one monitor, on its slot, when polling is on and none
      when it is off. */
  lemma {:induction false} OpensOnlyAfterClearCheck(o: Options, first: Registration, replies: seq<Reply>, at: nat, k: nat)
    requires Bounded(o) && at <= |replies| && k < |After(o, first, replies, at).trace|
    requires After(o, first, replies, at).trace[k].Opened?
    ensures var trace := After(o, first, replies, at).trace;
            && k > 0 && trace[k - 1] == GapChecked(trace[k].registration, true)
            && trace[k].registration == InForce(first, trace[..k])
            && Live(trace[..k]) == Watching(o, trace[k].registration.slot)
  {
    RunIsLawful(o, first, replies, at);
    OpenIsLawful(o, first, After(o, first, replies, at).trace, k);
  }

  /** Between a failed or severed session and the next one lies a backoff. */
  lemma {:induction false} BacksOffBeforeReopening(o: Options, first: Registration, replies: seq<Reply>, at: nat, j: nat, k: nat)
    requires Bounded(o) && at <= |replies| && j < k < |After(o, first, replies, at).trace|
    requires IsFailure(After(o, first, replies, at).trace[j]) && After(o, first, replies, at).trace[k].Opened?
    ensures var trace := After(o, first, replies, at).trace;
            exists i :: j < i < k && trace[i].Slept? && BASE_BACKOFF <= trace[i].delay <= MAX_BACKOFF
  {
    var trace := After(o, first, replies, at).trace;
    RunIsLawful(o, first, replies, at);
    LawfulAt(o, first, trace, k);
    var i := RestedMeansSlept(trace[..k], j);
    LawfulAt(o, first, trace, i);
  }

  lemma {:induction false} RestedMeansSlept(trace: seq<Event>, j: nat) returns (i: nat)
    requires j < |trace| && IsFailure(trace[j]) && PaceOf(trace).rested
    ensures j < i < |trace| && trace[i].Slept?
  {
    var n := |trace| - 1;
    if trace[n].Slept? {
      i := n;
    } else {
      i := RestedMeansSlept(trace[..n], j);
    }
  }

  /** The monitors whose token is not cancelled. Their tokens are children of the
      token of the loop. */
  ghost function Uncancelled(l: Loop): multiset<string> {
    if Stopping(l) then multiset{} else Live(l.trace)
  }

  /** While the token is not cancelled exactly one monitor runs when polling is on,
      on the slot of the registration in force, and none when it is off. Once the
      token is cancelled none runs. */
  lemma {:induction false} OneMonitor(o: Options, first: Registration, replies: seq<Reply>, at: nat)
    requires Bounded(o) && at <= |replies|
    ensures var l := After(o, first, replies, at);
            && l.reg == InForce(first, l.trace)
            && Uncancelled(l) == if Stopping(l) then multiset{} else Watching(o, l.reg.slot)
  {
    RunIsLawful(o, first, replies, at);
  }

  lemma {:induction false} LawfulMonitors(o: Options, first: Registration, trace: seq<Event>, k: nat)
    requires Lawful(o, first, trace) && k <= |trace|
    ensures |Live(trace[..k])| <= 1
  {
    if k < |trace| {
      LawfulMonitors(o, first, trace[..|trace| - 1], k);
      assert trace[..|trace| - 1][..k] == trace[..k];
    } else if trace != [] {
      var past := trace[..|trace| - 1];
      LawfulMonitors(o, first, past, |past|);
      assert trace[..k] == trace && past[..|past|] == past;
      if trace[|trace| - 1].Retired? {
        assert Live(past) == Live(trace) + (Live(past) - Live(trace));
      }
    }
  }

  /** At no event of a run do two monitors run. */
  lemma {:induction false} NeverTwoMonitors(o: Options, first: Registration, replies: seq<Reply>, at: nat, k: nat)
    requires Bounded(o) && at <= |replies| && k <= |After(o, first, replies, at).trace|
    ensures |Live(After(o, first, replies, at).trace[..k])| <= 1
  {
    RunIsLawful(o, first, replies, at);
    LawfulMonitors(o, first, After(o, first, replies, at).trace, k);
  }

  lemma {:induction false} NotReportedBefore(o: Options, first: Registration, trace: seq<Event>, j: nat, k: nat)
    requires Lawful(o, first, trace) && j < k < |trace| && trace[k].GapReported?
    ensures !trace[j].GapReported?
  {
    LawfulAt(o, first, trace, k);
    assert trace[..k][j] in trace[..k];
  }

  /** A gap is reported at most once, and only right after a failed gap check. */
  lemma {:induction false} ReportsAGapOnce(o: Options, first: Registration, replies: seq<Reply>, at: nat, j: nat, k: nat)
    requires Bounded(o) && at <= |replies| && j < |After(o, first, replies, at).trace| && k < |After(o, first, replies, at).trace|
    requires After(o, first, replies, at).trace[j].GapReported? && After(o, first, replies, at).trace[k].GapReported?
    ensures j == k && FoundGap(After(o, first, replies, at).trace[..j])
  {
    var trace := After(o, first, replies, at).trace;
    RunIsLawful(o, first, replies, at);
    LawfulAt(o, first, trace, j);
    if j < k {
      NotReportedBefore(o, first, trace, j, k);
    } else if k < j {
      NotReportedBefore(o, first, trace, k, j);
    }
  }

  /** A fatal error never ends in a clean exit, unless the caller had asked to stop
      when the drain was severed, and every exit has one of its reasons, whatever
      the shutdown of a stream does to the token. */
  lemma {:induction false} ExitsHaveReasons(o: Options, first: Registration, replies: seq<Reply>, at: nat)
    requires Bounded(o) && at <= |replies| && After(o, first, replies, at).wait.Over?
    ensures var l := After(o, first, replies, at);
            0 < |l.heard| <= |replies| && Justified(o, l, LastReply(l, replies))
  {
    RunIsGoverned(o, first, replies, at);
  }

  /** The backoffs of a run are those that the ladder calls for on the history of
      its re-opens, and a re-open without one tripped it. */
  lemma {:induction false} BackoffsAreTheLadders(o: Options, first: Registration, replies: seq<Reply>, at: nat)
    requires Bounded(o) && at <= |replies|
    ensures var l := After(o, first, replies, at);
            Climbed(o, PaceOf(l.trace).delays, l.history) && Ascending(l.history)
  {
    RunIsLawful(o, first, replies, at);
  }

  // ----- Whether a severed drain is followed by another session

  ghost predicate OpensAfterSever(trace: seq<Event>) {
    exists j, k :: 0 <= j < k < |trace| && trace[j].Severed? && trace[k].Opened?
  }

  /** Some run opens a session after a severed drain. */
  ghost predicate Reopens(o: Options, first: Registration) {
    exists replies: seq<Reply> :: OpensAfterSever(After(o, first, replies, |replies|).trace)
  }

  lemma {:induction false} NoSessionAfterSever(o: Options, first: Registration, replies: seq<Reply>, at: nat, j: nat, k: nat)
    requires Bounded(o) && o.shutdownCancels && at <= |replies| && j < k < |After(o, first, replies, at).trace|
    requires After(o, first, replies, at).trace[j].Severed?
    ensures !After(o, first, replies, at).trace[k].Opened?
  {
    var trace := After(o, first, replies, at).trace;
    RunIsLawful(o, first, replies, at);
    LawfulAt(o, first, trace, k);
    assert trace[..k][j] in trace[..k];
  }

  /** A reply with no gap and no failure, to which a drain answers with a lost
      connection after one commit. */
  function Usual(first: Registration): Reply {
    Reply(false, false, first, false, Error(Io, false), false, 1, 0)
  }

  /** One productive re-open does not trip the ladder. */
  ghost predicate Patient(o: Options) {
    o.judge([Reopen(0, 1)]) == Backoff(BASE_BACKOFF)
  }

  lemma {:induction false} RealIsPatient(o: Options)
    requires Real(o)
    ensures Patient(o)
  {
    var history := [Reopen(0, 1)];
    assert history[..0] == [];
    assert Streak(history) == 0 && |Window(history, 0)| <= 1;
    BackoffTable();
    assert Judges(o, history);
  }

  function SeverTrace(o: Options, first: Registration): seq<Event> {
    Session.Begin(o, first).trace + [GapChecked(first, true)] + [Opened(first)] + [Severed(Error(Io, false), false)] +
    [Slept(BASE_BACKOFF)]
  }

  /** The loop after a check, an open and a sever. */
  lemma {:induction false} SeverRun(o: Options, first: Registration, replies: seq<Reply>)
    requires Patient(o) && |replies| >= 3 && (forall i :: 0 <= i < |replies| ==> replies[i] == Usual(first))
    ensures After(o, first, replies, 3) ==
            Loop(AtHead, first, false, o.shutdownCancels, false, 0, [Reopen(0, 1)], SeverTrace(o, first),
                 [AtHead, Opening, Draining])
  {
    var l0 := Session.Begin(o, first);
    assert After(o, first, replies, 0) == l0;
    var l1 := l0.(wait := Opening, trace := l0.trace + [GapChecked(first, true)], heard := [AtHead]);
    assert After(o, first, replies, 1) == Replied(o, l0, replies[0]) == l1;
    var l2 := l1.(wait := Draining, trace := l1.trace + [Opened(first)], heard := [AtHead, Opening]);
    assert After(o, first, replies, 2) == Replied(o, l1, replies[1]) == l2;
    assert [] + [Reopen(0, 1)] == [Reopen(0, 1)];
    assert After(o, first, replies, 3) == Replied(o, l2, replies[2]);
  }

  /** With a stream whose shutdown leaves the token alone, a drain that lost its
      connection is followed by another session. */
  lemma {:induction false} SeverThenSession(o: Options, first: Registration)
    requires Patient(o) && !o.shutdownCancels
    ensures OpensAfterSever(After(o, first, seq(5, i => Usual(first)), 5).trace)
  {
    var replies := seq(5, i => Usual(first));
    SeverRun(o, first, replies);
    var l3 := After(o, first, replies, 3);
    var l4 := After(o, first, replies, 4);
    assert l4 == Replied(o, l3, replies[3]) && l4.wait == Opening && l4.trace == l3.trace + [GapChecked(first, true)];
    var l5 := After(o, first, replies, 5);
    assert l5 == Replied(o, l4, replies[4]) && l5.trace == l4.trace + [Opened(first)];
    var j := |Session.Begin(o, first).trace| + 2;
    assert l5.trace[j] == Severed(Error(Io, false), false) && l5.trace[|l5.trace| - 1] == Opened(first);
    assert j < |l5.trace| - 1;
  }

  /** With a stream whose shutdown cancels the token, the same replies end the run
      cleanly right after the sever. */
  lemma {:induction false} SeverThenEnd(o: Options, first: Registration)
    requires Patient(o) && o.shutdownCancels
    ensures var l := After(o, first, seq(4, i => Usual(first)), 4);
            l.wait == Over(Clean) && l.trace == SeverTrace(o, first)
  {
    var replies := seq(4, i => Usual(first));
    SeverRun(o, first, replies);
    assert After(o, first, replies, 4) == Replied(o, After(o, first, replies, 3), replies[3]);
  }

  /** A severed drain can be followed by another session if and only if the shutdown
      of a stream leaves the token alone. */
  lemma {:induction false} ReopensExactly(o: Options, first: Registration)
    requires Real(o)
    ensures Reopens(o, first) <==> !o.shutdownCancels
  {
    RealIsBounded(o);
    RealIsPatient(o);
    if o.shutdownCancels {
      forall replies: seq<Reply> ensures !OpensAfterSever(After(o, first, replies, |replies|).trace) {
        var trace := After(o, first, replies, |replies|).trace;
        forall j, k | 0 <= j < k < |trace| && trace[j].Severed? ensures !trace[k].Opened? {
          NoSessionAfterSever(o, first, replies, |replies|, j, k);
        }
      }
    } else {
      SeverThenSession(o, first);
      assert |seq(5, i => Usual(first))| == 5;
    }
  }
}
