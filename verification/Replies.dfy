/** What each reply leads to in the session loop of services/cdc-reader/src/lib.rs, in
    the terms of the reply, the variant of an error and its keyword flag, over every
    run. */
module Replies {
  import opened Optional
  import opened Events
  import opened Ladder
  import opened Session
  import opened SessionLaws

  /** The loop ends with `exit` after `trace`, and its ladder has not moved. */
  predicate Stops(l: Loop, trace: seq<Event>, n: Loop, exit: Exit) {
    n.wait == Over(exit) && n.trace == trace && n.history == l.history && n.clock == l.clock
  }

  /** What the error of a session leads to, after the events of `trace`: a wrong
      credential or configuration fails the run, a cancelled session ends it cleanly,
      and after any other error, and any that speaks of an invalidated slot, the
      ladder takes one more re-open, which fails the run or is slept off. */
  ghost predicate Suffers(o: Options, l: Loop, trace: seq<Event>, e: Error, commits: nat, now: nat, n: Loop) {
    if Hopeless(e) then Stops(l, trace, n, Failure)
    else if SaysCancelled(e) then Stops(l, trace, n, Clean)
    else
      && n.clock == (if l.clock < now then now else l.clock)
      && n.history == l.history + [Reopen(n.clock, commits)]
      && match o.judge(n.history)
         case Trip => n.wait == Over(Failure) && n.trace == trace
         case Backoff(delay) => n.wait == AtHead && n.trace == trace + [Slept(delay)]
  }

  /** The loop goes on to `wait` after `trace`. */
  predicate Goes(l: Loop, trace: seq<Event>, n: Loop, wait: Await) {
    n.wait == wait && n.trace == trace && n.history == l.history && n.clock == l.clock
  }

  ghost predicate HeadLeads(l: Loop, r: Reply, stop: bool, n: Loop) {
    var failedCheck := l.trace + [GapChecked(l.reg, false)];
    if stop then Stops(l, l.trace, n, Clean) && n.reported == l.reported
    else if r.failed then Stops(l, l.trace, n, Failure) && n.reported == l.reported
    else if r.gap then
      Goes(l, if l.reported then failedCheck else failedCheck + [GapReported], n, Polling) && n.reported
    else Goes(l, l.trace + [GapChecked(l.reg, true)], n, Opening) && n.reported == l.reported
  }

  ghost predicate RereadLeads(o: Options, l: Loop, r: Reply, n: Loop) {
    var passed := l.trace + [Polled(r.registration, true)];
    if r.failed || !r.registration.acceptable then Stops(l, l.trace, n, Failure)
    else if r.gap then Goes(l, l.trace + [Polled(r.registration, false)], n, Polling)
    else
      Goes(l, if r.registration.slot == l.reg.slot || !o.polling then passed
              else passed + [Retired(l.reg.slot)] + [Spawned(r.registration.slot)], n, AtHead)
  }

  /** Caller intent is what was asked, or cancelled before this drain. */
  ghost predicate DrainLeads(o: Options, l: Loop, r: Reply, asked: bool, n: Loop) {
    var severed := l.trace + [Severed(r.error, asked)];
    if r.drainedToShutdown then Stops(l, l.trace, n, Clean)
    else if l.cancelled || asked then Stops(l, severed, n, Clean)
    else Suffers(o, l, severed, r.error, r.commits, r.now, n)
  }

  /** What a reply leads to. */
  ghost predicate Leads(o: Options, l: Loop, r: Reply, n: Loop) {
    var asked := l.asked || r.asked;
    && n.asked == asked
    && n.cancelled == (l.cancelled || (l.wait.Draining? && !r.drainedToShutdown && o.shutdownCancels))
    && (!l.wait.AtHead? ==> n.reported == l.reported)
    && n.reg == (if l.wait.Rereading? && n.wait.AtHead? then r.registration else l.reg)
    && match l.wait
       case AtHead => HeadLeads(l, r, l.cancelled || asked, n)
       case Polling => if l.cancelled || asked then Stops(l, l.trace, n, Clean) else Goes(l, l.trace, n, Rereading)
       case Rereading => RereadLeads(o, l, r, n)
       case Opening =>
         if r.failed then Suffers(o, l, l.trace + [OpenFailed(r.error)], r.error, 0, r.now, n)
         else Goes(l, l.trace + [Opened(l.reg)], n, Draining)
       case Draining => DrainLeads(o, l, r, asked, n)
       case _ => true
  }

  lemma {:induction false} FatedSuffers(o: Options, l: Loop, before: Loop, e: Error, commits: nat, now: nat)
    requires l.history == before.history && l.clock == before.clock
    ensures var n := Fated(o, l, e, commits, now);
            && Suffers(o, before, l.trace, e, commits, now, n)
            && n.asked == l.asked && n.cancelled == l.cancelled && n.reported == l.reported && n.reg == l.reg
            && (n.wait.AtHead? || n.wait.Over?)
  {
  }

  lemma {:induction false} OpenReplyLeads(o: Options, l: Loop, r: Reply)
    requires l.wait == Opening
    ensures Leads(o, l, r, Replied(o, l, r))
  {
    if r.failed {
      FatedSuffers(o, Note(Arrived(l, r), OpenFailed(r.error)), l, r.error, 0, r.now);
    }
  }

  lemma {:induction false} DrainReplyLeads(o: Options, l: Loop, r: Reply)
    requires l.wait == Draining
    ensures Leads(o, l, r, Replied(o, l, r))
  {
    var l1 := Arrived(l, r);
    if !r.drainedToShutdown && !Stopping(l1) {
      FatedSuffers(o, Note(l1, Severed(r.error, l1.asked)).(cancelled := o.shutdownCancels || l1.cancelled),
                   l, r.error, r.commits, r.now);
    }
  }

  lemma {:induction false} WaitReplyLeads(o: Options, l: Loop, r: Reply)
    requires l.wait == AtHead || l.wait == Polling || l.wait == Rereading
    ensures Leads(o, l, r, Replied(o, l, r))
  {
  }

  lemma {:induction false} ReplyLeads(o: Options, l: Loop, r: Reply)
    requires !l.wait.Over? && !l.wait.TokenSeen?
    ensures Leads(o, l, r, Replied(o, l, r))
  {
    match l.wait {
      case Opening => OpenReplyLeads(o, l, r);
      case Draining => DrainReplyLeads(o, l, r);
      case _ => WaitReplyLeads(o, l, r);
    }
  }

  lemma {:induction false} NeverTokenWait(o: Options, first: Registration, replies: seq<Reply>, heard: seq<Loop>, at: nat)
    requires History(o, first, replies, heard) && at <= |replies|
    ensures !heard[at].wait.TokenSeen?
  {
    assert AfterAt(o, first, replies, heard, at);
    TraceIsHeard(o, first, replies, at);
  }

  lemma {:induction false} HistoryLeads(o: Options, first: Registration, replies: seq<Reply>, heard: seq<Loop>, at: nat)
    requires History(o, first, replies, heard) && at < |replies|
    ensures !heard[at].wait.TokenSeen?
    ensures if heard[at].wait.Over? then heard[at + 1] == heard[at] else Leads(o, heard[at], replies[at], heard[at + 1])
  {
    NeverTokenWait(o, first, replies, heard, at);
    HistoryStep(o, first, replies, heard, at);
    if !heard[at].wait.Over? {
      ReplyLeads(o, heard[at], replies[at]);
    }
  }

  /** In every run each reply leads where its own content says, and nowhere else. */
  lemma {:induction false} EveryReplyLeads(o: Options, first: Registration, replies: seq<Reply>, at: nat)
    requires at < |replies| && !After(o, first, replies, at).wait.Over?
    ensures Leads(o, After(o, first, replies, at), replies[at], After(o, first, replies, at + 1))
  {
    var heard := States(o, first, replies);
    assert AfterAt(o, first, replies, heard, at) && AfterAt(o, first, replies, heard, at + 1);
    HistoryLeads(o, first, replies, heard, at);
  }

  // ----- What the last event of a run means

  /** A wrong credential or configuration is never anything but a failed run, and a
      cancelled session never anything but a clean exit. A run that stands right after
      any other failure has tripped the ladder. */
  ghost predicate LastEventDecides(o: Options, l: Loop) {
    l.trace != [] ==>
      var e := l.trace[|l.trace| - 1];
      e.OpenFailed? || (e.Severed? && !e.asked) ==>
        if Hopeless(e.error) then l.wait == Over(Failure)
        else if SaysCancelled(e.error) then l.wait == Over(Clean)
        else l.wait == Over(Failure) && o.judge(l.history).Trip?
  }

  /** A session is opened and drained only while no earlier one has cancelled the
      token. */
  ghost predicate Decided(o: Options, l: Loop) {
    LastEventDecides(o, l) && (l.wait.Opening? || l.wait.Draining? ==> !l.cancelled)
  }

  lemma {:induction false} ReplyDecides(o: Options, l: Loop, r: Reply, n: Loop)
    requires !l.wait.Over? && !l.wait.TokenSeen? && Decided(o, l) && Leads(o, l, r, n)
    ensures Decided(o, n)
  {
  }

  /** In every run the last event decides as its error says. */
  lemma {:induction false} ErrorsDecide(o: Options, first: Registration, replies: seq<Reply>, at: nat)
    requires at <= |replies|
    ensures LastEventDecides(o, After(o, first, replies, at))
  {
    var heard := States(o, first, replies);
    HistoryBegins(o, first, replies, heard);
    for i := 0 to at
      invariant Decided(o, heard[i])
    {
      HistoryLeads(o, first, replies, heard, i);
      if !heard[i].wait.Over? {
        ReplyDecides(o, heard[i], replies[i], heard[i + 1]);
      }
    }
    assert AfterAt(o, first, replies, heard, at);
  }

  // ----- Gaps

  predicate FailedCheck(e: Event) {
    e.GapChecked? && !e.clear
  }

  predicate NoFailedCheck(trace: seq<Event>) {
    forall k :: 0 <= k < |trace| ==> !FailedCheck(trace[k])
  }

  /** Right after the first failed gap check of a run the gap is reported. */
  ghost predicate FirstReported(trace: seq<Event>) {
    forall k :: 0 <= k < |trace| && FailedCheck(trace[k]) && NoFailedCheck(trace[..k]) ==>
      k + 1 < |trace| && trace[k + 1] == GapReported
  }

  ghost predicate GapsReported(l: Loop) {
    (l.reported <==> !NoFailedCheck(l.trace)) && FirstReported(l.trace)
  }

  lemma {:induction false} CheckStays(trace: seq<Event>, e: Event)
    requires FirstReported(trace) && (FailedCheck(e) ==> !NoFailedCheck(trace))
    ensures FirstReported(trace + [e])
    ensures NoFailedCheck(trace + [e]) <==> NoFailedCheck(trace)
  {
    var all := trace + [e];
    assert all[..|trace|] == trace;
    forall k | 0 <= k < |all| && FailedCheck(all[k]) && NoFailedCheck(all[..k])
      ensures k + 1 < |all| && all[k + 1] == GapReported
    {
      if k < |trace| {
        assert all[..k] == trace[..k] && all[k] == trace[k];
      }
    }
    if !NoFailedCheck(trace) {
      var k :| 0 <= k < |trace| && FailedCheck(trace[k]);
      assert FailedCheck(all[k]);
    } else {
      assert forall k :: 0 <= k < |trace| ==> all[k] == trace[k];
    }
  }

  lemma {:induction false} FirstCheckFails(trace: seq<Event>, e: Event)
    requires FirstReported(trace) && NoFailedCheck(trace) && FailedCheck(e)
    ensures FirstReported(trace + [e] + [GapReported]) && !NoFailedCheck(trace + [e] + [GapReported])
  {
    var all := trace + [e] + [GapReported];
    assert FailedCheck(all[|trace|]);
    assert forall k :: 0 <= k < |trace| ==> all[k] == trace[k];
  }

  lemma {:induction false} HeadReports(l: Loop, r: Reply, stop: bool, n: Loop)
    requires GapsReported(l) && HeadLeads(l, r, stop, n)
    ensures GapsReported(n)
  {
    if !stop && !r.failed {
      if r.gap && !l.reported {
        FirstCheckFails(l.trace, GapChecked(l.reg, false));
      } else {
        CheckStays(l.trace, GapChecked(l.reg, !r.gap));
      }
    }
  }

  lemma {:induction false} RereadReports(o: Options, l: Loop, r: Reply, n: Loop)
    requires GapsReported(l) && RereadLeads(o, l, r, n) && n.reported == l.reported
    ensures GapsReported(n)
  {
    var polled := l.trace + [Polled(r.registration, !r.gap)];
    CheckStays(l.trace, Polled(r.registration, !r.gap));
    CheckStays(polled, Retired(l.reg.slot));
    CheckStays(polled + [Retired(l.reg.slot)], Spawned(r.registration.slot));
  }

  lemma {:induction false} SessionReports(o: Options, l: Loop, e: Event, error: Error, commits: nat, now: nat, n: Loop)
    requires GapsReported(l) && IsFailure(e) && n.reported == l.reported
    requires Suffers(o, l, l.trace + [e], error, commits, now, n) || Stops(l, l.trace + [e], n, Clean)
    ensures GapsReported(n)
  {
    CheckStays(l.trace, e);
    if n.wait.AtHead? {
      CheckStays(l.trace + [e], n.trace[|n.trace| - 1]);
    }
  }

  lemma {:induction false} ReplyReports(o: Options, l: Loop, r: Reply, n: Loop)
    requires !l.wait.Over? && !l.wait.TokenSeen? && GapsReported(l) && Leads(o, l, r, n)
    ensures GapsReported(n)
  {
    match l.wait {
      case AtHead => HeadReports(l, r, l.cancelled || n.asked, n);
      case Polling =>
      case Rereading => RereadReports(o, l, r, n);
      case Opening =>
        if r.failed {
          SessionReports(o, l, OpenFailed(r.error), r.error, 0, r.now, n);
        } else {
          CheckStays(l.trace, Opened(l.reg));
        }
      case Draining =>
        if !r.drainedToShutdown {
          SessionReports(o, l, Severed(r.error, n.asked), r.error, r.commits, r.now, n);
        }
    }
  }

  /** In every run the first failed gap check is followed by its report, and the loop
      knows whether there was one. */
  lemma {:induction false} FirstGapIsReported(o: Options, first: Registration, replies: seq<Reply>, at: nat)
    requires at <= |replies|
    ensures GapsReported(After(o, first, replies, at))
  {
    var heard := States(o, first, replies);
    HistoryBegins(o, first, replies, heard);
    for i := 0 to at
      invariant GapsReported(heard[i])
    {
      HistoryLeads(o, first, replies, heard, i);
      if !heard[i].wait.Over? {
        ReplyReports(o, heard[i], replies[i], heard[i + 1]);
      }
    }
    assert AfterAt(o, first, replies, heard, at);
  }
}
