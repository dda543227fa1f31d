/** The cost guard of deploy/gcp/guard/guard.py: it reads the stored threshold,
    runs the actions of a budget message and replaces the stored threshold only
    if nobody wrote it since the read. Any number of handlers run at once and
    messages are delivered again after a failure. */
module Guard {

  datatype Action = Notify | ScaleToZero | UnlinkBilling

  datatype Threshold = Threshold(level: real, action: Action)

  /** The action of each threshold, in the order to run them. */
  const THRESHOLDS: seq<Threshold> :=
    [Threshold(0.5, Notify), Threshold(0.9, ScaleToZero), Threshold(1.0, UnlinkBilling)]

  /** A budget message without alertThresholdExceeded has `exceeded` 0. */
  datatype Message =
    | Budget(interval: string, exceeded: real)
    | Daily
    | Unknown

  /** The state object. A missing object has generation 0. */
  datatype Stored = Missing | Saved(interval: string, threshold: real)

  /** The threshold that `stored` holds for an interval. */
  function Level(stored: Stored, interval: string): real {
    if stored.Saved? && stored.interval == interval then stored.threshold else 0.0
  }

  function Crossed(table: seq<Threshold>, above: real, upTo: real): seq<Action> {
    if table == [] then []
    else
      (if above < table[0].level <= upTo then [table[0].action] else []) + Crossed(table[1..], above, upTo)
  }

  /** The actions of one budget message, in the order to run them. */
  function Actions(exceeded: real, stored: real): seq<Action> {
    Crossed(THRESHOLDS, stored, exceeded)
  }

  lemma {:induction false} ActionsAre(exceeded: real, stored: real)
    ensures Actions(exceeded, stored) ==
            (if stored < 0.5 <= exceeded then [Notify] else []) +
            (if stored < 0.9 <= exceeded then [ScaleToZero] else []) +
            (if stored < 1.0 <= exceeded then [UnlinkBilling] else [])
  {
    var one, two, three := THRESHOLDS[1..], THRESHOLDS[2..], THRESHOLDS[3..];
    assert THRESHOLDS[1..][1..] == two && two[1..] == three;
    assert Crossed(three, stored, exceeded) == [];
    assert Crossed(two, stored, exceeded) == (if stored < 1.0 <= exceeded then [UnlinkBilling] else []);
    assert Crossed(one, stored, exceeded) ==
           (if stored < 0.9 <= exceeded then [ScaleToZero] else []) + Crossed(two, stored, exceeded);
  }

  /** A message must be stored when its interval is new or it crossed more. */
  predicate NeedsWrite(stored: Stored, interval: string, exceeded: real) {
    !(stored.Saved? && stored.interval == interval) || exceeded > Level(stored, interval)
  }

  // ----- One handler on its own

  /** `picked` holds, in order, exactly the steps whose outcome is `outcome`. `at` are
      their places. */
  ghost predicate Picks(steps: seq<Action>, works: seq<bool>, outcome: bool, picked: seq<Action>, at: seq<nat>) {
    && |at| == |picked| && |works| == |steps|
    && (forall i, j :: 0 <= i < j < |at| ==> at[i] < at[j])
    && (forall j :: 0 <= j < |at| ==> at[j] < |steps| && works[at[j]] == outcome && picked[j] == steps[at[j]])
    && (forall i :: 0 <= i < |steps| && works[i] == outcome ==> i in at)
  }

  lemma {:induction false} PicksStay(steps: seq<Action>, works: seq<bool>, outcome: bool, picked: seq<Action>, at: seq<nat>,
                                     step: Action, worked: bool)
    requires Picks(steps, works, outcome, picked, at) && worked != outcome
    ensures Picks(steps + [step], works + [worked], outcome, picked, at)
  {
  }

  lemma {:induction false} PicksGrow(steps: seq<Action>, works: seq<bool>, picked: seq<Action>, at: seq<nat>,
                                     step: Action, worked: bool)
    requires Picks(steps, works, worked, picked, at)
    ensures Picks(steps + [step], works + [worked], worked, picked + [step], at + [|steps|])
  {
    var places := at + [|steps|];
    assert places[|at|] == |steps|;
  }

  /** The first `i` steps have run: those that worked and those that did not. */
  ghost predicate Performed(steps: seq<Action>, works: seq<bool>, i: nat, succeeded: seq<Action>, failures: seq<Action>,
                            ran: seq<nat>, broke: seq<nat>)
    requires i <= |steps| == |works|
  {
    && Picks(steps[..i], works[..i], true, succeeded, ran) && Picks(steps[..i], works[..i], false, failures, broke)
    && (failures == [] ==> succeeded == steps[..i])
  }

  lemma {:induction false} PerformedOn(steps: seq<Action>, works: seq<bool>, i: nat, succeeded: seq<Action>,
                                       failures: seq<Action>, ran: seq<nat>, broke: seq<nat>)
    requires i < |steps| == |works| && Performed(steps, works, i, succeeded, failures, ran, broke)
    ensures works[i] ==> Performed(steps, works, i + 1, succeeded + [steps[i]], failures, ran + [i], broke)
    ensures !works[i] ==> Performed(steps, works, i + 1, succeeded, failures + [steps[i]], ran, broke + [i])
  {
    var past, done := steps[..i], works[..i];
    assert steps[..i + 1] == past + [steps[i]] && works[..i + 1] == done + [works[i]];
    if works[i] {
      PicksGrow(past, done, succeeded, ran, steps[i], true);
      PicksStay(past, done, false, failures, broke, steps[i], true);
    } else {
      PicksGrow(past, done, failures, broke, steps[i], false);
      PicksStay(past, done, true, succeeded, ran, steps[i], false);
    }
  }

  lemma {:induction false} NoFailure(steps: seq<Action>, works: seq<bool>, failures: seq<Action>, broke: seq<nat>)
    requires Picks(steps, works, false, failures, broke)
    ensures failures == [] <==> forall i :: 0 <= i < |works| ==> works[i]
  {
    if failures != [] {
      assert !works[broke[0]];
    }
  }

  /** Run every action. One failure does not skip the next. `works[i]` says
      whether the i-th action succeeds. */
  method Perform(steps: seq<Action>, works: seq<bool>)
    returns (succeeded: seq<Action>, failures: seq<Action>, ghost ran: seq<nat>, ghost broke: seq<nat>)
    requires |works| == |steps|
    ensures Picks(steps, works, true, succeeded, ran) && Picks(steps, works, false, failures, broke)
    ensures failures == [] ==> succeeded == steps
  {
    succeeded, failures, ran, broke := [], [], [], [];
    for i := 0 to |steps|
      invariant Performed(steps, works, i, succeeded, failures, ran, broke)
    {
      PerformedOn(steps, works, i, succeeded, failures, ran, broke);
      if works[i] {
        succeeded, ran := succeeded + [steps[i]], ran + [i];
      } else {
        failures, broke := failures + [steps[i]], broke + [i];
      }
    }
    assert steps[..|steps|] == steps && works[..|works|] == works;
  }

  /** What a budget message does when nothing fails and nobody interferes. */
  function After(stored: Stored, m: Message): Stored {
    if m.Budget? && NeedsWrite(stored, m.interval, m.exceeded) then Saved(m.interval, m.exceeded) else stored
  }

  function ActionsOf(stored: Stored, m: Message): seq<Action> {
    match m
    case Budget(interval, exceeded) => Actions(exceeded, Level(stored, interval))
    case Daily => [ScaleToZero]
    case Unknown => []
  }

  /** What a message asks for, threshold by threshold. */
  lemma {:induction false} ActionsOfMessage(stored: Stored, m: Message)
    ensures m.Daily? ==> ActionsOf(stored, m) == [ScaleToZero]
    ensures m.Unknown? ==> ActionsOf(stored, m) == []
    ensures m.Budget? ==>
              var level := if stored.Saved? && stored.interval == m.interval then stored.threshold else 0.0;
              ActionsOf(stored, m) ==
              (if level < 0.5 <= m.exceeded then [Notify] else []) +
              (if level < 0.9 <= m.exceeded then [ScaleToZero] else []) +
              (if level < 1.0 <= m.exceeded then [UnlinkBilling] else [])
  {
    if m.Budget? {
      ActionsAre(m.exceeded, Level(stored, m.interval));
    }
  }

  /** Handle one message. `raced` says that another handler wrote the state
      between the read and the write. */
  method Handle(m: Message, stored: Stored, works: seq<bool>, raced: bool)
    returns (ok: bool, succeeded: seq<Action>, failures: seq<Action>, written: bool, next: Stored,
             ghost ran: seq<nat>, ghost broke: seq<nat>)
    requires |works| == |ActionsOf(stored, m)|
    ensures Picks(ActionsOf(stored, m), works, true, succeeded, ran)
    ensures Picks(ActionsOf(stored, m), works, false, failures, broke)
    ensures var grows := m.Budget? &&
                         (!(stored.Saved? && stored.interval == m.interval) || m.exceeded > stored.threshold);
            && (ok <==> !m.Unknown? && failures == [] && (grows ==> !raced))
            && (written <==> ok && grows)
            && next == if written then Saved(m.interval, m.exceeded) else stored
    ensures failures == [] <==> forall i :: 0 <= i < |works| ==> works[i]
    ensures ok ==> succeeded == ActionsOf(stored, m) && next == After(stored, m)
  {
    ok, succeeded, failures, written, next, ran, broke := false, [], [], false, stored, [], [];
    match m {
      case Unknown =>
      case Daily =>
        succeeded, failures, ran, broke := Perform([ScaleToZero], works);
        NoFailure([ScaleToZero], works, failures, broke);
        ok := failures == [];
      case Budget(interval, exceeded) =>
        var level := if stored.Saved? && stored.interval == interval then stored.threshold else 0.0;
        succeeded, failures, ran, broke := Perform(Actions(exceeded, level), works);
        NoFailure(Actions(exceeded, level), works, failures, broke);
        if failures != [] {
          return;
        }
        if !(stored.Saved? && stored.interval == interval) || exceeded > level {
          if raced {
            return;
          }
          written, next := true, Saved(interval, exceeded);
        }
        ok := true;
    }
  }

  // ----- Incremental alerts equal batch alerts

  predicate OfInterval(messages: seq<Message>, interval: string) {
    forall i :: 0 <= i < |messages| ==> messages[i].Budget? && messages[i].interval == interval
  }

  function Replay(stored: Stored, messages: seq<Message>): Stored {
    if messages == [] then stored
    else After(Replay(stored, messages[..|messages| - 1]), messages[|messages| - 1])
  }

  /** All actions that a sequence of messages runs, in order. */
  function ReplayActions(stored: Stored, messages: seq<Message>): seq<Action> {
    if messages == [] then []
    else
      ReplayActions(stored, messages[..|messages| - 1]) +
      ActionsOf(Replay(stored, messages[..|messages| - 1]), messages[|messages| - 1])
  }

  function Max(a: real, b: real): real {
    if a < b then b else a
  }

  /** The largest value among the messages. */
  function Peak(messages: seq<Message>, interval: string): real
    requires OfInterval(messages, interval) && messages != []
  {
    var last := messages[|messages| - 1].exceeded;
    if |messages| == 1 then last
    else Max(Peak(messages[..|messages| - 1], interval), last)
  }

  lemma {:induction false} PeakIsLargest(messages: seq<Message>, interval: string)
    requires OfInterval(messages, interval) && messages != []
    ensures forall i :: 0 <= i < |messages| ==> messages[i].exceeded <= Peak(messages, interval)
    ensures exists i :: 0 <= i < |messages| && messages[i].exceeded == Peak(messages, interval)
  {
    var rest, n := messages[..|messages| - 1], |messages| - 1;
    assert messages[n].exceeded <= Peak(messages, interval);
    if rest != [] {
      assert forall i :: 0 <= i < |rest| ==> rest[i] == messages[i];
      PeakIsLargest(rest, interval);
      if Peak(messages, interval) != messages[n].exceeded {
        var i :| 0 <= i < |rest| && rest[i].exceeded == Peak(rest, interval);
        assert messages[i].exceeded == Peak(messages, interval);
      }
    }
  }

  lemma {:induction false} ActionsCompose(low: real, mid: real, high: real)
    requires low <= mid || (low == 0.0 && mid <= 0.0)
    ensures Actions(mid, low) + Actions(high, mid) == Actions(Max(mid, high), low)
  {
    ActionsAre(mid, low);
    ActionsAre(high, mid);
    ActionsAre(Max(mid, high), low);
  }

  /** Actions run up to `mid`, below what is stored, are none. */
  lemma {:induction false} ActionsBelow(low: real, mid: real, high: real)
    requires mid <= low
    ensures Actions(mid, low) + Actions(high, low) == Actions(Max(mid, high), low)
  {
    ActionsAre(mid, low);
    ActionsAre(high, low);
    ActionsAre(Max(mid, high), low);
  }

  /** From any stored state, for every sequence of budget messages of one interval,
      the actions run one message at a time are the actions of the largest value
      seen above what was stored, each once and in threshold order, and the stored
      threshold is the larger of the two. */
  lemma {:induction false} IncrementalIsBatch(stored: Stored, messages: seq<Message>, interval: string)
    requires OfInterval(messages, interval) && messages != []
    ensures var peak, held := Peak(messages, interval), stored.Saved? && stored.interval == interval;
            && Replay(stored, messages) ==
               Saved(interval, if held && peak < stored.threshold then stored.threshold else peak)
            && ReplayActions(stored, messages) == Actions(peak, if held then stored.threshold else 0.0)
  {
    var rest, last := messages[..|messages| - 1], messages[|messages| - 1].exceeded;
    if |messages| == 1 {
      assert ReplayActions(stored, rest) == [];
    } else {
      assert forall i :: 0 <= i < |rest| ==> rest[i] == messages[i];
      IncrementalIsBatch(stored, rest, interval);
      var peak := Peak(rest, interval);
      if stored.Saved? && stored.interval == interval && peak <= stored.threshold {
        ActionsBelow(stored.threshold, peak, last);
      } else {
        ActionsCompose(Level(stored, interval), peak, last);
      }
    }
  }

  // ----- Any number of handlers at once

  /** A handler that has been given a message, that has read the state and has
      `todo` actions left, or that is over. */
  datatype Handler =
    | Given(message: Message)
    | Acting(message: Message, seen: Stored, generation: nat, todo: seq<Action>, failed: bool)
    | Over(ok: bool)

  /** `succeeded` is a history variable: which action has succeeded for which
      interval. */
  datatype State = State(
    stored: Stored, generation: nat, handlers: map<nat, Handler>, succeeded: set<(string, Action)>)

  datatype Step =
    | Deliver(handler: nat, message: Message)
    | Read(handler: nat)
    | Act(handler: nat, works: bool)
    | Finish(handler: nat)
    | Die(handler: nat)

  predicate Can(s: State, step: Step) {
    match step
    case Deliver(h, _) => h !in s.handlers
    case Read(h) => h in s.handlers && s.handlers[h].Given?
    case Act(h, _) => h in s.handlers && s.handlers[h].Acting? && s.handlers[h].todo != []
    case Finish(h) => h in s.handlers && s.handlers[h].Acting? && s.handlers[h].todo == []
    case Die(h) => h in s.handlers
  }

  function Do(s: State, step: Step): State
    requires Can(s, step)
  {
    match step
    case Deliver(h, m) => s.(handlers := s.handlers[h := Given(m)])
    case Read(h) =>
      var m := s.handlers[h].message;
      s.(handlers := s.handlers[h :=
        if m.Unknown? then Over(false)
        else if m.Daily? then Acting(m, Missing, 0, [ScaleToZero], false)
        else Acting(m, s.stored, s.generation, Actions(m.exceeded, Level(s.stored, m.interval)), false)])
    case Act(h, works) =>
      var a := s.handlers[h];
      s.(handlers := s.handlers[h := a.(todo := a.todo[1..], failed := a.failed || !works)],
         succeeded := if works && a.message.Budget? then s.succeeded + {(a.message.interval, a.todo[0])} else s.succeeded)
    case Finish(h) =>
      var a := s.handlers[h];
      if a.failed then s.(handlers := s.handlers[h := Over(false)])
      else if !a.message.Budget? || !NeedsWrite(a.seen, a.message.interval, a.message.exceeded) then
        s.(handlers := s.handlers[h := Over(true)])
      else if a.generation != s.generation then s.(handlers := s.handlers[h := Over(false)])
      else
        s.(stored := Saved(a.message.interval, a.message.exceeded), generation := s.generation + 1,
           handlers := s.handlers[h := Over(true)])
    case Die(h) => s.(handlers := s.handlers - {h})
  }

  const START := State(Missing, 0, map[], {})

  predicate IsRun(steps: seq<Step>)
    decreases |steps|, 0
  {
    steps == [] || (IsRun(steps[..|steps| - 1]) && Can(End(steps[..|steps| - 1]), steps[|steps| - 1]))
  }

  function End(steps: seq<Step>): State
    requires IsRun(steps)
    decreases |steps|, 1
  {
    if steps == [] then START else Do(End(steps[..|steps| - 1]), steps[|steps| - 1])
  }

  /** Every action at or below the stored threshold has succeeded for its interval. */
  ghost predicate Earned(succeeded: set<(string, Action)>, stored: Stored) {
    stored.Saved? ==>
      forall t :: t in THRESHOLDS && t.level <= stored.threshold ==> (stored.interval, t.action) in succeeded
  }

  /** What a handler that has read the state knows. */
  ghost predicate HandlerInv(s: State, a: Handler) {
    a.Acting? && a.message.Budget? ==>
      && a.generation <= s.generation
      && (a.generation == s.generation ==> a.seen == s.stored)
      && Earned(s.succeeded, a.seen)
      && (!a.failed ==>
            forall t :: t in THRESHOLDS && Level(a.seen, a.message.interval) < t.level <= a.message.exceeded ==>
              t.action in a.todo || (a.message.interval, t.action) in s.succeeded)
  }

  ghost predicate Inv(s: State) {
    && Earned(s.succeeded, s.stored)
    && (forall h :: h in s.handlers ==> HandlerInv(s, s.handlers[h]))
  }

  lemma {:induction false} CrossedHolds(table: seq<Threshold>, above: real, upTo: real, t: Threshold)
    requires t in table && above < t.level <= upTo
    ensures t.action in Crossed(table, above, upTo)
  {
    if t != table[0] {
      CrossedHolds(table[1..], above, upTo, t);
    }
  }

  lemma {:induction false} ReadKeepsInv(s: State, h: nat)
    requires Inv(s) && Can(s, Read(h))
    ensures Inv(Do(s, Read(h)))
  {
    var next := Do(s, Read(h));
    var a := next.handlers[h];
    if a.Acting? && a.message.Budget? {
      var level := Level(s.stored, a.message.interval);
      forall t | t in THRESHOLDS && level < t.level <= a.message.exceeded ensures t.action in a.todo {
        CrossedHolds(THRESHOLDS, level, a.message.exceeded, t);
      }
    }
    forall k | k in next.handlers ensures HandlerInv(next, next.handlers[k]) {
      if k != h {
        assert HandlerInv(s, s.handlers[k]);
      }
    }
  }

  lemma {:induction false} ActKeepsInv(s: State, h: nat, works: bool)
    requires Inv(s) && Can(s, Act(h, works))
    ensures Inv(Do(s, Act(h, works)))
  {
    var next := Do(s, Act(h, works));
    var a := s.handlers[h];
    assert a.todo == [a.todo[0]] + a.todo[1..];
    forall k | k in next.handlers ensures HandlerInv(next, next.handlers[k]) {
      assert HandlerInv(s, s.handlers[k]);
    }
  }

  lemma {:induction false} FinishKeepsInv(s: State, h: nat)
    requires Inv(s) && Can(s, Finish(h))
    ensures Inv(Do(s, Finish(h)))
  {
    var next := Do(s, Finish(h));
    assert HandlerInv(s, s.handlers[h]);
    forall k | k in next.handlers ensures HandlerInv(next, next.handlers[k]) {
      assert HandlerInv(s, s.handlers[k]);
    }
  }

  lemma {:induction false} StepKeepsInv(s: State, step: Step)
    requires Inv(s) && Can(s, step)
    ensures Inv(Do(s, step))
  {
    match step {
      case Read(h) => ReadKeepsInv(s, h);
      case Act(h, works) => ActKeepsInv(s, h, works);
      case Finish(h) => FinishKeepsInv(s, h);
      case _ =>
        var next := Do(s, step);
        forall k | k in next.handlers ensures HandlerInv(next, next.handlers[k]) {
          if k in s.handlers {
            assert HandlerInv(s, s.handlers[k]);
          }
        }
    }
  }

  lemma {:induction false} RunKeepsInv(steps: seq<Step>)
    requires IsRun(steps)
    ensures Inv(End(steps))
  {
    if steps != [] {
      RunKeepsInv(steps[..|steps| - 1]);
      StepKeepsInv(End(steps[..|steps| - 1]), steps[|steps| - 1]);
    }
  }

  /** For every interleaving of reads, actions and conditional writes across any
      number of handlers, with failing actions, dying handlers and redelivery, a
      stored threshold means that every action at or below it has succeeded for
      that interval. */
  lemma {:induction false} StoredIsEarned(steps: seq<Step>)
    requires IsRun(steps)
    ensures Earned(End(steps).succeeded, End(steps).stored)
  {
    RunKeepsInv(steps);
  }

  /** In every run, while the interval stays the same the stored threshold never
      decreases, and the object never goes missing again. */
  lemma {:induction false} StoredNeverFalls(steps: seq<Step>, step: Step)
    requires IsRun(steps + [step])
    ensures var before, after := End((steps + [step])[..|steps|]).stored, End(steps + [step]).stored;
            before.Saved? ==> after.Saved? && (after.interval == before.interval ==> before.threshold <= after.threshold)
  {
    assert (steps + [step])[..|steps|] == steps;
    RunKeepsInv(steps);
    var s := End(steps);
    if step.Finish? {
      assert HandlerInv(s, s.handlers[step.handler]);
    }
  }

  /** The same over any stretch of a run that stays in one interval. */
  lemma {:induction false} StoredNeverFallsOver(steps: seq<Step>, from: nat)
    requires IsRun(steps) && from <= |steps|
    requires IsRun(steps[..from]) && End(steps[..from]).stored.Saved?
    requires forall n :: from <= n <= |steps| && IsRun(steps[..n]) && End(steps[..n]).stored.Saved? ==>
               End(steps[..n]).stored.interval == End(steps[..from]).stored.interval
    ensures End(steps).stored.Saved? && End(steps[..from]).stored.threshold <= End(steps).stored.threshold
  {
    assert steps[..|steps|] == steps;
    if from < |steps| {
      var rest, step := steps[..|steps| - 1], steps[|steps| - 1];
      assert rest[..from] == steps[..from];
      forall n | from <= n <= |rest| && IsRun(rest[..n]) && End(rest[..n]).stored.Saved?
        ensures End(rest[..n]).stored.interval == End(rest[..from]).stored.interval
      {
        assert rest[..n] == steps[..n];
      }
      StoredNeverFallsOver(rest, from);
      assert rest + [step] == steps;
      StoredNeverFalls(rest, step);
    }
  }

  // ----- A handler of the machine on its own

  /** A handler that has read the state runs its actions and finishes, and nobody
      interferes. */
  function RunAlone(s: State, h: nat, works: seq<bool>): State
    requires h in s.handlers && s.handlers[h].Acting? && |works| == |s.handlers[h].todo|
    decreases |works|
  {
    if works == [] then Do(s, Finish(h)) else RunAlone(Do(s, Act(h, works[0])), h, works[1..])
  }

  predicate AllWork(works: seq<bool>) {
    forall i :: 0 <= i < |works| ==> works[i]
  }

  lemma {:induction false} AloneStores(s: State, h: nat, works: seq<bool>)
    requires h in s.handlers && s.handlers[h].Acting? && |works| == |s.handlers[h].todo|
    ensures var a, end := s.handlers[h], RunAlone(s, h, works);
            var ok := !a.failed && AllWork(works);
            var writes := a.message.Budget? && NeedsWrite(a.seen, a.message.interval, a.message.exceeded);
            && h in end.handlers
            && end.handlers[h] == Over(ok && (writes ==> a.generation == s.generation))
            && end.stored == (if ok && writes && a.generation == s.generation
                              then Saved(a.message.interval, a.message.exceeded) else s.stored)
    decreases |works|
  {
    if works != [] {
      AloneStores(Do(s, Act(h, works[0])), h, works[1..]);
      assert works == [works[0]] + works[1..];
      assert AllWork(works) <==> works[0] && AllWork(works[1..]);
    }
  }

  /** A handler of the machine that nobody races does to the stored state what one
      message handled on its own does. */
  lemma {:induction false} AloneIsHandled(s: State, h: nat, m: Message, works: seq<bool>)
    requires h !in s.handlers && !m.Unknown? && |works| == |ActionsOf(s.stored, m)|
    ensures Can(s, Deliver(h, m)) && Can(Do(s, Deliver(h, m)), Read(h))
    ensures var read := Do(Do(s, Deliver(h, m)), Read(h));
            && h in read.handlers && read.handlers[h].Acting? && read.handlers[h].todo == ActionsOf(s.stored, m)
            && RunAlone(read, h, works).stored == if AllWork(works) then After(s.stored, m) else s.stored
  {
    AloneStores(Do(Do(s, Deliver(h, m)), Read(h)), h, works);
  }
}
