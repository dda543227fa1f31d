/** The session loop of services/cdc-reader/src/lib.rs as code: `run_with_shutdown`,
    `wait_out_gap` and `ladder_step_or_bail`, with the ladder they share, proved
    against the machine of `Session`. Every await takes one reply. */
module SessionLoop {
  import opened Optional
  import opened Events
  import opened Ladder
  import opened Session
  import opened SessionLaws

  /** The variables of the loop. `at` counts the replies taken. */
  datatype Vars = Vars(
    reg: Registration, reported: bool, cancelled: bool, asked: bool, clock: nat, at: nat, trace: seq<Event>)

  /** How a piece of the loop goes on: at the head of the loop, out of it, or not at
      all because the process was killed. */
  datatype Next = Onward | Stop(exit: Exit) | Killed

  predicate Ordered(v: Vars) {
    v.cancelled || v.asked
  }

  function Took(v: Vars, r: Reply): Vars {
    v.(at := v.at + 1, asked := v.asked || r.asked)
  }

  function Wrote(v: Vars, e: Event): Vars {
    v.(trace := v.trace + [e])
  }

  // ----- The code and the machine

  /** `l` with the variables and the re-opens of the code. */
  ghost function Of(v: Vars, history: seq<Reopen>, l: Loop): Loop {
    Loop(l.wait, v.reg, v.reported, v.cancelled, v.asked, v.clock, history, v.trace, l.heard)
  }

  /** The code stands where the machine does, waiting for `wait`. */
  ghost predicate Stands(replies: seq<Reply>, heard: seq<Loop>, v: Vars, history: seq<Reopen>, wait: Await) {
    && |heard| == |replies| + 1 && v.at <= |replies|
    && heard[v.at] == Of(v, history, heard[v.at]) && heard[v.at].wait == wait
  }

  /** The code has run out of replies where the machine waits for one. */
  ghost predicate Dead(replies: seq<Reply>, heard: seq<Loop>, v: Vars, history: seq<Reopen>) {
    && v.at == |replies| && |heard| == |replies| + 1
    && Stands(replies, heard, v, history, heard[v.at].wait) && !heard[v.at].wait.Over?
  }

  ghost predicate Went(replies: seq<Reply>, heard: seq<Loop>, v: Vars, history: seq<Reopen>, next: Next) {
    match next
    case Onward => Stands(replies, heard, v, history, AtHead)
    case Stop(exit) => Stands(replies, heard, v, history, Over(exit))
    case Killed => Dead(replies, heard, v, history)
  }

  lemma {:induction false} Arrives(o: Options, first: Registration, replies: seq<Reply>, heard: seq<Loop>,
                                   v: Vars, history: seq<Reopen>, wait: Await)
    requires History(o, first, replies, heard) && Stands(replies, heard, v, history, wait) && v.at < |replies|
    ensures var r := replies[v.at];
            var l := Arrived(heard[v.at], r);
            && heard[v.at + 1] == Replied(o, heard[v.at], r)
            && l == Of(Took(v, r), history, l) && l.wait == wait
  {
    HistoryStep(o, first, replies, heard, v.at);
  }

  lemma {:induction false} HeadStep(o: Options, first: Registration, replies: seq<Reply>, heard: seq<Loop>,
                                    v: Vars, history: seq<Reopen>)
    requires History(o, first, replies, heard) && Stands(replies, heard, v, history, AtHead) && v.at < |replies|
    ensures var r, l := replies[v.at], heard[v.at + 1];
            var took := Took(v, r);
            var checked := Wrote(took, GapChecked(v.reg, !r.gap));
            if Ordered(took) then Stands(replies, heard, took, history, Over(Clean))
            else if r.failed then Stands(replies, heard, took, history, Over(Failure))
            else if r.gap then l == Report(Of(checked, history, l)) && l.wait == Polling
            else Stands(replies, heard, checked, history, Opening)
  {
    Arrives(o, first, replies, heard, v, history, AtHead);
  }

  lemma {:induction false} PollStep(o: Options, first: Registration, replies: seq<Reply>, heard: seq<Loop>,
                                    v: Vars, history: seq<Reopen>)
    requires History(o, first, replies, heard) && Stands(replies, heard, v, history, Polling) && v.at < |replies|
    ensures var took := Took(v, replies[v.at]);
            Stands(replies, heard, took, history, if Ordered(took) then Over(Clean) else Rereading)
  {
    Arrives(o, first, replies, heard, v, history, Polling);
  }

  lemma {:induction false} RereadStep(o: Options, first: Registration, replies: seq<Reply>, heard: seq<Loop>,
                                      v: Vars, history: seq<Reopen>)
    requires History(o, first, replies, heard) && Stands(replies, heard, v, history, Rereading) && v.at < |replies|
    ensures var r, l := replies[v.at], heard[v.at + 1];
            var took := Took(v, r);
            var polled := Wrote(took, Polled(r.registration, !r.gap));
            if r.failed || !r.registration.acceptable then Stands(replies, heard, took, history, Over(Failure))
            else if r.gap then Stands(replies, heard, polled, history, Polling)
            else l == Follow(o, Of(polled, history, l), r.registration) && l.wait == AtHead
  {
    Arrives(o, first, replies, heard, v, history, Rereading);
  }

  lemma {:induction false} FatedAlike(o: Options, l: Loop, wait: Await, e: Error, commits: nat, now: nat)
    ensures Fated(o, l.(wait := wait), e, commits, now) == Fated(o, l, e, commits, now)
  {
    assert Climb(o, l.(wait := wait), commits, now) == Climb(o, l, commits, now);
  }

  lemma {:induction false} OpenStep(o: Options, first: Registration, replies: seq<Reply>, heard: seq<Loop>,
                                    v: Vars, history: seq<Reopen>)
    requires History(o, first, replies, heard) && Stands(replies, heard, v, history, Opening) && v.at < |replies|
    ensures var r, l := replies[v.at], heard[v.at + 1];
            var took := Took(v, r);
            if r.failed then l == Fated(o, Of(Wrote(took, OpenFailed(r.error)), history, l), r.error, 0, r.now)
            else Stands(replies, heard, Wrote(took, Opened(v.reg)), history, Draining)
  {
    var r := replies[v.at];
    Arrives(o, first, replies, heard, v, history, Opening);
    if r.failed {
      var l := Arrived(heard[v.at], r);
      FatedClaims(o, Note(l, OpenFailed(r.error)), r.error, 0, r.now);
      FatedAlike(o, Note(l, OpenFailed(r.error)), heard[v.at + 1].wait, r.error, 0, r.now);
    }
  }

  function SeveredVars(o: Options, v: Vars, error: Error): Vars {
    Wrote(v, Severed(error, v.asked)).(cancelled := o.shutdownCancels || v.cancelled)
  }

  lemma {:induction false} DrainStep(o: Options, first: Registration, replies: seq<Reply>, heard: seq<Loop>,
                                     v: Vars, history: seq<Reopen>)
    requires History(o, first, replies, heard) && Stands(replies, heard, v, history, Draining) && v.at < |replies|
    ensures var r, l := replies[v.at], heard[v.at + 1];
            var took := Took(v, r);
            var severed := SeveredVars(o, took, r.error);
            if r.drainedToShutdown then Stands(replies, heard, took, history, Over(Clean))
            else if Ordered(took) then Stands(replies, heard, severed, history, Over(Clean))
            else l == Fated(o, Of(severed, history, l), r.error, r.commits, r.now)
  {
    var r := replies[v.at];
    Arrives(o, first, replies, heard, v, history, Draining);
    var l := Arrived(heard[v.at], r);
    if !r.drainedToShutdown && !Stopping(l) {
      var severed := Note(l, Severed(r.error, l.asked)).(cancelled := o.shutdownCancels || l.cancelled);
      FatedClaims(o, severed, r.error, r.commits, r.now);
      FatedAlike(o, severed, heard[v.at + 1].wait, r.error, r.commits, r.now);
    }
  }

  // ----- The code

  /** Await one reply. */
  method Await(replies: seq<Reply>, v0: Vars) returns (reply: Option<Reply>, v: Vars)
    requires v0.at <= |replies|
    ensures reply.None? ==> v == v0 && v.at == |replies|
    ensures reply.Some? ==> v0.at < |replies| && reply.value == replies[v0.at] && v == Took(v0, replies[v0.at])
  {
    if v0.at == |replies| {
      return None, v0;
    }
    reply := Some(replies[v0.at]);
    v := v0.(at := v0.at + 1, asked := v0.asked || replies[v0.at].asked);
  }

  /** Report a gap, once. */
  method ReportGap(v0: Vars, ghost history: seq<Reopen>, ghost l: Loop) returns (v: Vars)
    ensures v.at == v0.at && v.clock == v0.clock && Of(v, history, l) == Report(Of(v0, history, l))
  {
    v := v0;
    if !v.reported {
      v := v.(trace := v.trace + [GapReported]);
      v := v.(reported := true);
    }
  }

  /** One poll of the wait. It may end the wait with a registration to resume on. */
  method PollGap(o: Options, ghost first: Registration, replies: seq<Reply>, ghost heard: seq<Loop>,
                 v0: Vars, ghost history: seq<Reopen>)
    returns (stop: Option<Next>, resumed: Option<Registration>, v: Vars)
    requires History(o, first, replies, heard) && Stands(replies, heard, v0, history, Polling)
    ensures stop.Some? ==> !stop.value.Onward? && Went(replies, heard, v, history, stop.value)
    ensures stop.None? ==> v0.at < v.at <= |replies| && v.clock == v0.clock
    ensures stop.None? && resumed.None? ==> Stands(replies, heard, v, history, Polling)
    ensures stop.None? && resumed.Some? ==>
              var l := heard[v.at];
              l == Follow(o, Of(v, history, l), resumed.value) && l.wait == AtHead
  {
    // The poll interval, which a cancelled token cuts short.
    var reply;
    resumed := None;
    reply, v := Await(replies, v0);
    if reply.None? {
      return Some(Killed), resumed, v;
    }
    PollStep(o, first, replies, heard, v0, history);
    if v.cancelled || v.asked {
      return Some(Stop(Clean)), resumed, v;
    }
    ghost var v1 := v;
    reply, v := Await(replies, v);
    if reply.None? {
      return Some(Killed), resumed, v;
    }
    RereadStep(o, first, replies, heard, v1, history);
    if reply.value.failed || !reply.value.registration.acceptable {
      return Some(Stop(Failure)), resumed, v;
    }
    v := v.(trace := v.trace + [Polled(reply.value.registration, !reply.value.gap)]);
    stop := None;
    if !reply.value.gap {
      resumed := Some(reply.value.registration);
    }
  }

  /** Stop capture until the gap closes. Gives the registration to resume on, or
      how the run ends. */
  method WaitOutGap(o: Options, ghost first: Registration, replies: seq<Reply>, ghost heard: seq<Loop>,
                    v0: Vars, ghost history: seq<Reopen>)
    returns (stop: Option<Next>, resumed: Registration, v: Vars)
    requires History(o, first, replies, heard) && v0.at <= |replies|
    requires heard[v0.at] == Report(Of(v0, history, heard[v0.at])) && heard[v0.at].wait == Polling
    ensures stop.Some? ==> !stop.value.Onward? && Went(replies, heard, v, history, stop.value)
    ensures stop.None? ==>
              && v0.at < v.at <= |replies| && v.clock == v0.clock
              && var l := heard[v.at];
                 l == Follow(o, Of(v, history, l), resumed) && l.wait == AtHead
  {
    v := ReportGap(v0, history, heard[v0.at]);
    resumed := v.reg;
    var found: Option<Registration> := None;
    stop := None;
    while stop.None? && found.None?
      invariant stop.None? ==> v0.at <= v.at <= |replies| && v.clock == v0.clock
      invariant stop.Some? ==> !stop.value.Onward? && Went(replies, heard, v, history, stop.value)
      invariant stop.None? && found.None? ==> Stands(replies, heard, v, history, Polling)
      invariant stop.None? && found.Some? ==>
                  v0.at < v.at && heard[v.at] == Follow(o, Of(v, history, heard[v.at]), found.value) && heard[v.at].wait == AtHead
      decreases stop.None? && found.None?, |replies| - v.at
    {
      stop, found, v := PollGap(o, first, replies, heard, v, history);
    }
    if found.Some? {
      resumed := found.value;
    }
  }

  /** Take up the registration that a recovery left, and move the monitor when its
      slot is another one. */
  method ResumeOn(o: Options, v0: Vars, resumed: Registration, ghost history: seq<Reopen>, ghost l: Loop)
    returns (v: Vars)
    ensures v.at == v0.at && v.clock == v0.clock && Of(v, history, l) == Follow(o, Of(v0, history, l), resumed)
  {
    v := v0;
    if resumed.slot != v.reg.slot && o.polling {
      v := v.(trace := v.trace + [Retired(v.reg.slot)]);
      v := v.(trace := v.trace + [Spawned(resumed.slot)]);
    }
    v := v.(reg := resumed);
  }

  /** Wait until the gap closes and resume on what the recovery left. */
  method RideOutGap(o: Options, ghost first: Registration, replies: seq<Reply>, ghost heard: seq<Loop>,
                    v0: Vars, ghost history: seq<Reopen>)
    returns (next: Next, v: Vars)
    requires History(o, first, replies, heard) && v0.at <= |replies|
    requires heard[v0.at] == Report(Of(v0, history, heard[v0.at])) && heard[v0.at].wait == Polling
    ensures Went(replies, heard, v, history, next)
    ensures next.Onward? ==> v0.at < v.at && v.clock == v0.clock
  {
    var stop, resumed;
    stop, resumed, v := WaitOutGap(o, first, replies, heard, v0, history);
    if stop.Some? {
      return stop.value, v;
    }
    v := ResumeOn(o, v, resumed, history, heard[v.at]);
    next := Onward;
  }

  /** The ladder has seen no instant after `clock`. */
  ghost predicate InStep(ladder: ReopenLadder, clock: nat)
    reads ladder
  {
    ladder.Valid() && (ladder.history != [] ==> ladder.history[|ladder.history| - 1].at <= clock)
  }

  /** Record a re-open at the time of the clock, which does not run backwards. */
  method NoteOnClock(o: Options, ladder: ReopenLadder, clock0: nat, now: nat, commits: nat)
    returns (verdict: Verdict, clock: nat)
    requires Real(o) && InStep(ladder, clock0)
    modifies ladder
    ensures InStep(ladder, clock) && clock == if clock0 < now then now else clock0
    ensures ladder.history == old(ladder.history) + [Reopen(clock, commits)]
    ensures verdict == o.judge(ladder.history)
  {
    clock := if clock0 < now then now else clock0;
    verdict := ladder.NoteReopen(clock, commits);
    assert Judges(o, ladder.history);
  }

  /** Act on a verdict: bail when the ladder tripped, and else back off. */
  method Obey(verdict: Verdict, v0: Vars, ghost history: seq<Reopen>, ghost l: Loop) returns (next: Next, v: Vars)
    ensures v.at == v0.at && v.clock == v0.clock && next == (if verdict.Trip? then Stop(Failure) else Onward)
    ensures Heed(Of(v0, history, l), verdict) ==
            Of(v, history, l).(wait := if next.Onward? then AtHead else Over(Failure))
  {
    v := v0;
    match verdict {
      case Trip => next := Stop(Failure);
      case Backoff(delay) =>
        v := v.(trace := v.trace + [Slept(delay)]);
        next := Onward;
    }
  }

  lemma {:induction false} ClimbIsHeed(o: Options, v: Vars, history: seq<Reopen>, l: Loop, commits: nat, now: nat, clock: nat)
    requires clock == if v.clock < now then now else v.clock
    ensures Climb(o, Of(v, history, l), commits, now) ==
            Heed(Of(v.(clock := clock), history + [Reopen(clock, commits)], l), o.judge(history + [Reopen(clock, commits)]))
  {
  }

  /** Take one re-open into the ladder and act on its verdict. */
  method StepOrBail(o: Options, ladder: ReopenLadder, commits: nat, now: nat, v0: Vars, ghost l: Loop)
    returns (next: Next, v: Vars)
    requires Real(o) && InStep(ladder, v0.clock)
    modifies ladder
    ensures InStep(ladder, v.clock) && v.at == v0.at
    ensures next == Onward || next == Stop(Failure)
    ensures ladder.history == old(ladder.history) + [Reopen(v.clock, commits)]
    ensures Climb(o, Of(v0, old(ladder.history), l), commits, now) ==
            Of(v, ladder.history, l).(wait := if next.Onward? then AtHead else Over(Failure))
  {
    var verdict, clock := NoteOnClock(o, ladder, v0.clock, now, commits);
    ClimbIsHeed(o, v0, old(ladder.history), l, commits, now, clock);
    next, v := Obey(verdict, v0.(clock := clock), ladder.history, l);
  }

  lemma {:induction false} ClimbedOn(replies: seq<Reply>, heard: seq<Loop>, v: Vars, history: seq<Reopen>, l: Loop, next: Next)
    requires |heard| == |replies| + 1 && v.at <= |replies| && (next == Onward || next == Stop(Failure))
    requires heard[v.at] == Of(v, history, l).(wait := if next.Onward? then AtHead else Over(Failure)) && l == heard[v.at]
    ensures Went(replies, heard, v, history, next)
  {
  }

  /** What a session error leads to. */
  method HandleError(o: Options, ladder: ReopenLadder, error: Error, commits: nat, now: nat,
                     replies: seq<Reply>, ghost heard: seq<Loop>, v0: Vars)
    returns (next: Next, v: Vars)
    requires Real(o) && InStep(ladder, v0.clock) && |heard| == |replies| + 1 && v0.at <= |replies|
    requires heard[v0.at] == Fated(o, Of(v0, ladder.history, heard[v0.at]), error, commits, now)
    modifies ladder
    ensures InStep(ladder, v.clock) && v.at == v0.at
    ensures Went(replies, heard, v, ladder.history, next)
    ensures Hopeless(error) ==> next == Stop(Failure) && ladder.history == old(ladder.history)
    ensures SaysCancelled(error) ==> next == Stop(Clean) && ladder.history == old(ladder.history)
    ensures !Hopeless(error) && !SaysCancelled(error) ==>
              (next == Onward || next == Stop(Failure)) && ladder.history == old(ladder.history) + [Reopen(v.clock, commits)]
  {
    FateOfKinds(error);
    match Classify(error) {
      case FateCancelled => return Stop(Clean), v0;
      case Fatal => return Stop(Failure), v0;
      case _ =>
        ghost var l := heard[v0.at];
        assert l == Climb(o, Of(v0, ladder.history, l), commits, now);
        next, v := StepOrBail(o, ladder, commits, now, v0, l);
        ClimbedOn(replies, heard, v, ladder.history, l, next);
    }
  }

  /** Drain an open session to its end. What the caller wants is read before the
      stream is shut down, because that may cancel the token. */
  method DrainToEnd(o: Options, ladder: ReopenLadder, ghost first: Registration, replies: seq<Reply>,
                    ghost heard: seq<Loop>, v0: Vars)
    returns (next: Next, v: Vars)
    requires Real(o) && InStep(ladder, v0.clock) && History(o, first, replies, heard)
    requires Stands(replies, heard, v0, ladder.history, Draining)
    modifies ladder
    ensures InStep(ladder, v.clock) && Went(replies, heard, v, ladder.history, next)
    ensures next.Onward? ==> v0.at < v.at
  {
    var reply;
    reply, v := Await(replies, v0);
    if reply.None? {
      return Killed, v;
    }
    DrainStep(o, first, replies, heard, v0, ladder.history);
    if reply.value.drainedToShutdown {
      return Stop(Clean), v;
    }
    var requested := v.cancelled || v.asked;
    v := v.(trace := v.trace + [Severed(reply.value.error, v.asked)]);
    v := v.(cancelled := o.shutdownCancels || v.cancelled);
    if requested {
      return Stop(Clean), v;
    }
    next, v := HandleError(o, ladder, reply.value.error, reply.value.commits, reply.value.now, replies, heard, v);
  }

  /** Open a session and drain it. */
  method OpenAndDrain(o: Options, ladder: ReopenLadder, ghost first: Registration, replies: seq<Reply>,
                      ghost heard: seq<Loop>, v0: Vars)
    returns (next: Next, v: Vars)
    requires Real(o) && InStep(ladder, v0.clock) && History(o, first, replies, heard)
    requires Stands(replies, heard, v0, ladder.history, Opening)
    modifies ladder
    ensures InStep(ladder, v.clock) && Went(replies, heard, v, ladder.history, next)
    ensures next.Onward? ==> v0.at < v.at
  {
    var reply;
    reply, v := Await(replies, v0);
    if reply.None? {
      return Killed, v;
    }
    OpenStep(o, first, replies, heard, v0, ladder.history);
    if reply.value.failed {
      v := v.(trace := v.trace + [OpenFailed(reply.value.error)]);
      next, v := HandleError(o, ladder, reply.value.error, 0, reply.value.now, replies, heard, v);
      return;
    }
    v := v.(trace := v.trace + [Opened(v.reg)]);
    next, v := DrainToEnd(o, ladder, first, replies, heard, v);
  }

  /** The head of the loop: the token, then the gap check on the registration. */
  method CheckGap(o: Options, ghost first: Registration, replies: seq<Reply>, ghost heard: seq<Loop>,
                  v0: Vars, ghost history: seq<Reopen>)
    returns (stop: Option<Next>, gap: bool, v: Vars)
    requires History(o, first, replies, heard) && Stands(replies, heard, v0, history, AtHead)
    ensures stop.Some? ==> !stop.value.Onward? && Went(replies, heard, v, history, stop.value)
    ensures stop.None? ==> v.at == v0.at + 1 <= |replies| && v.clock == v0.clock
    ensures stop.None? && gap ==>
              heard[v.at] == Report(Of(v, history, heard[v.at])) && heard[v.at].wait == Polling
    ensures stop.None? && !gap ==> Stands(replies, heard, v, history, Opening)
  {
    var reply;
    gap := false;
    reply, v := Await(replies, v0);
    if reply.None? {
      return Some(Killed), gap, v;
    }
    HeadStep(o, first, replies, heard, v0, history);
    if v.cancelled || v.asked {
      return Some(Stop(Clean)), gap, v;
    }
    if reply.value.failed {
      return Some(Stop(Failure)), gap, v;
    }
    gap := reply.value.gap;
    v := v.(trace := v.trace + [GapChecked(v.reg, !gap)]);
    stop := None;
  }

  /** One turn of the loop: its head, and then a wait or a session. */
  method Turn(o: Options, ladder: ReopenLadder, ghost first: Registration, replies: seq<Reply>,
              ghost heard: seq<Loop>, v0: Vars)
    returns (next: Next, v: Vars)
    requires Real(o) && InStep(ladder, v0.clock) && History(o, first, replies, heard)
    requires Stands(replies, heard, v0, ladder.history, AtHead)
    modifies ladder
    ensures next.Onward? ==> InStep(ladder, v.clock) && v0.at < v.at
    ensures Went(replies, heard, v, ladder.history, next)
  {
    var stop, gap;
    stop, gap, v := CheckGap(o, first, replies, heard, v0, ladder.history);
    if stop.Some? {
      return stop.value, v;
    }
    if gap {
      next, v := RideOutGap(o, first, replies, heard, v, ladder.history);
    } else {
      next, v := OpenAndDrain(o, ladder, first, replies, heard, v);
    }
  }

  // ----- The whole run

  lemma {:induction false} OverStays(o: Options, l: Loop, r: Reply)
    requires l.wait.Over?
    ensures Replied(o, l, r) == l
  {
  }

  lemma {:induction false} NothingAfterTheEnd(o: Options, first: Registration, replies: seq<Reply>, heard: seq<Loop>,
                                              at: nat, later: nat)
    requires History(o, first, replies, heard) && at <= later <= |replies| && heard[at].wait.Over?
    ensures heard[later] == heard[at]
  {
    if at < later {
      NothingAfterTheEnd(o, first, replies, heard, at, later - 1);
      HistoryStep(o, first, replies, heard, later - 1);
      OverStays(o, heard[at], replies[later - 1]);
    }
  }

  lemma {:induction false} Whole(o: Options, first: Registration, replies: seq<Reply>, heard: seq<Loop>,
                                 v: Vars, history: seq<Reopen>, next: Next)
    requires History(o, first, replies, heard) && Went(replies, heard, v, history, next) && !next.Onward?
    ensures Finished(heard[|replies|], v, next)
  {
    if next.Stop? {
      NothingAfterTheEnd(o, first, replies, heard, v.at, |replies|);
    }
  }

  /** The code ended as the machine did, with its registration, token and trace. */
  predicate Finished(l: Loop, v: Vars, next: Next) {
    && next == (if l.wait.Over? then Stop(l.wait.exit) else Killed)
    && v.trace == l.trace && v.reg == l.reg && v.reported == l.reported
    && v.cancelled == l.cancelled && v.asked == l.asked && v.clock == l.clock
  }

  /** The service loop, from a loaded registration on. Whatever the environment
      replies, it does what the machine does: it exits as the machine says, after the
      same events, and is killed exactly when the replies run out before. */
  method RunWithShutdown(o: Options, replies: seq<Reply>, first: Registration) returns (next: Next, v: Vars)
    requires Real(o)
    ensures Finished(After(o, first, replies, |replies|), v, next)
  {
    ghost var heard := States(o, first, replies);
    var ladder := new ReopenLadder();
    v := Vars(first, false, false, false, 0, 0, []);
    if o.polling {
      v := v.(trace := v.trace + [Spawned(first.slot)]);
    }
    next := Onward;
    HistoryBegins(o, first, replies, heard);
    while next.Onward?
      invariant fresh(ladder) && (next.Onward? ==> InStep(ladder, v.clock)) && v.at <= |replies|
      invariant Went(replies, heard, v, ladder.history, next)
      decreases next.Onward?, |replies| - v.at
    {
      next, v := Turn(o, ladder, first, replies, heard, v);
    }
    Whole(o, first, replies, heard, v, ladder.history, next);
    assert AfterAt(o, first, replies, heard, |replies|);
  }
}
