# A verified model of the CDC reader and six smaller cores

The CDC reader (`services/cdc-reader/src/lib.rs`) drains a PostgreSQL
replication slot, buffers each transaction, publishes its rows to JetStream when
its Commit arrives, and only then moves the confirmed LSN. The slot redelivers
from the confirmed LSN, the broker drops repeated message ids, acks can be lost,
and the process can die at any step. The project models that protocol and proves
what holds over every run of it. It also covers the cost guard, the package
differ, server paging, the span measurements of the bench tool, the trace reader
of the infrastructure tests, and the form addresses of the platform UI.

`dafny verify dfyconfig.toml` checks everything.

## How the parts fit

* `Events` holds frames, classifications, causation stamps and wire messages.
* `Reader` (module `ReaderSpec`) is the specification of one session: an
  automaton over the labels Read, Send, Acknowledge, PassFailed and Confirm. It
  keeps raw frames and has no cache and no decoded buffer.
* `Accounts` reads off the frames and labels of a trace, one by one, which
  transactions they commit, which row each message carries and what the counts
  count.
* `Dialogue` is one session as a machine that takes one answer of the environment
  at a time. Its trace is accepted by that automaton and claims exactly what the
  answers told. `Answers` says what each answer leads to.
* `Publish` and `Drain` are the code, with its loops, local variables, cache and
  decoded buffer. Each method is proved to stand where the machine stands after the
  answers it has used, and to return what the machine says.
* `System` composes the automaton with the slot, the connections and the broker.
  Its theorems hold for every sequence of events. `CommitOrder` adds order and
  uniqueness, and `Limits` shows which hypotheses cannot be dropped.
* `Ladder` is the re-open ladder. `Session` is the session loop as a machine over
  the replies of the environment, `Replies` says what each reply leads to,
  `SessionLaws` what holds of all its runs, and `SessionLoop` the code, with its nested loops and the ladder object, proved to do
  what the machine does.
* `Guard`, `JsonDiff` with `JsonPointer`, `Paging`, `Sweep` with `SpanTree`,
  `Ancestry` and `Fill` are the smaller cores. `Decimals`, `KeyOrder` and
  `Optional` are shared.

What the code awaits is a parameter: `Publish` and `Drain` take a `script` of
answers, `SessionLoop` a list of `replies`. A list that runs out is a process that
was killed there, so each contract covers every finite prefix of every
execution. Loops that retry for ever are covered in the same way.

## Hypotheses

* Feed shape (`System.WellFormed`): transactions arrive whole and in commit
  order, as `StreamingMode::Off` asks for. A session that reconnects in place can
  leave a transaction unfinished, and the next Begin replaces its buffer.
* Keepalives (`System.Can`, case `Alive`): between transactions the server's
  position does not pass the end of a transaction it has not delivered.
* Message ids: `LsnsNameMessages` (rows that share an LSN are one message) for no
  loss, `DistinctLsns` for exactly once. `Limits.NoLossExactly` proves that the
  first one is needed.
* Duplicate window (`InWindow`): no repeat lands after the broker has forgotten
  the id. No loss does not need it.
* Connection order (`Fifo`): what lands of a pass is a prefix of what that pass
  sent, in that order. Passes, also those of processes that died, land in any
  interleaving. Only row order inside a transaction needs it.
  `Limits.RowOrderExactly` says exactly when row order holds without it.
* Error text: an error is a variant and a flag that says whether its text speaks
  of an invalidated slot, because `classify` searches the whole message.
* Shutdown token: whether `EventStream::shutdown` cancels the token it was built
  with is the parameter `Options.shutdownCancels`. The vendored stream does cancel
  it (`vendor/pg-walstream/src/stream.rs:2376-2377`), and `into_stream` keeps the
  caller's token (`vendor/pg-walstream/src/stream.rs:1852-1862`).
* Catalog (`System.Within`): one catalog holds over the whole run. A session may
  find only part of it, and a later one more, which is the path of a refusal, a
  repair of the catalog and a new session. No session finds another classification
  for an OID than the catalog of the run has. Within a session what it finds does not
  change.
* Ladder of the session loop (`SessionLaws.Bounded`, `SessionLaws.Real`): the laws
  hold for any ladder whose backoffs keep the bounds of 1 s and 30 s. The ladder of
  the reader is one (`SessionLaws.RealIsBounded`).
* Clock: instants given to the ladder do not decrease.

## Findings

* Message ids do not keep all project environments apart: with an underscore in a
  name `a_b`, `c` and `a`, `b_c` share their ids (`Events.UnderscoresCollide`). Two
  ids are equal exactly when LSN and rendered project environment are
  (`Events.SameIdExactly`). The names that provisioning accepts hold no underscore
  (`crates/control/registry/src/identifiers.rs:102-114`), and for them ids never
  collide (`Events.DeclaredIdsAreApart`).
* The comments of the loop describe a re-open after a severed drain. A session can
  follow a severed drain if and only if the shutdown of a stream leaves the shared
  token alone (`SessionLaws.ReopensExactly`). With the vendored stream it does not:
  a lost connection after one commit ends the run cleanly at the loop head
  (`SessionLaws.SeverThenEnd`). With a stream that leaves the token alone the same
  replies open a second session (`SessionLaws.SeverThenSession`).
* JSON pointers of the differ are injective on token texts, not on paths: a key
  `0` and an index 0 render alike (`JsonPointer.KeyAndIndexShareText`). In one
  difference two lines with one pointer always speak of one place
  (`JsonPointer.OnePointerOnePlace`).
* A round trip through a form address is not the identity on all values. It holds
  exactly for `Plain` values whose container kinds fit
  (`Fill.RoundTripExactly`): an object with only numbers for names comes back as
  a list (`Fill.NumberedComesBackAsList`), and empty containers, undefined members, names with dots and a root
  list do not come back at all.
* The descendant walk of the bench tool does not end when its root is its own
  ancestor, and ends in every other case (`SpanTree.WalkEndsExactly`). The smallest
  such root is a span that is its own parent (`SpanTree.SelfParentNeverEnds`).

## Model

| member | source | states |
|---|---|---|
| `Events.MsgIdInjective` | apps/platform/events/wire/src/lib.rs:421-423 | two LSNs of one project environment never share a message id |
| `Events.SameIdExactly` | apps/platform/events/wire/src/lib.rs:414-423 | two message ids are equal if and only if the LSNs are equal and the project environments render alike |
| `Events.DeclaredIdsAreApart` | apps/platform/events/wire/src/lib.rs:411-423 | two project environments whose names hold no underscore never share a message id |
| `Events.UnderscoresCollide` | apps/platform/events/wire/src/lib.rs:414-416 | two project environments with an underscore in a name can share an id |
| `Events.Render` | services/cdc-reader/src/lib.rs:1387-1426 | one message per buffered row, in order, each with the id of its LSN and the shared transaction data and stamp |
| `Events.MessagesAreTheRows` | services/cdc-reader/src/lib.rs:1387-1426 | the messages of a transaction are its application rows, one for each, all of them in order, each with the operation, table, LSN, old columns, new columns and identity of its own frame |
| `Events.CausationIgnoresFrameOrder` | services/cdc-reader/src/lib.rs:1387-1426 | transactions with equal row subsequence and equal message subsequence publish identical messages, however the two interleave |
| `Events.EveryRowCarriesTheLastStamp` | services/cdc-reader/src/lib.rs:521-532 | every message carries the content of the last transactional message frame with the prefix wamn.causation that parses, and none exactly when there is no such frame |
| `Events.StampIsTheLast` | services/cdc-reader/src/lib.rs:1471-1491 | the stamp of a body is that of its last frame with flag 1, the contract's prefix and a content that parses |
| `Events.BodyConserved` | services/cdc-reader/src/lib.rs:1569-1619 | each change frame of a classified transaction is published, excluded or control-owned, and counted once |
| `Events.ExclusionsAreCounted` | services/cdc-reader/src/lib.rs:393-405 | the exclusions of a transaction count, name by name, its rows of relations that the catalog excludes under that name |
| `ReaderSpec.UnfinishedTransaction` | services/cdc-reader/src/lib.rs:1361-1375 | from a Begin until its Commit the open transaction is exactly the frames read since, also after an abandoned one, and nothing is sent, counted or confirmed |
| `ReaderSpec.CountsMove` | services/cdc-reader/src/lib.rs:1443-1458 | an acknowledged transaction adds one commit, its messages, its duplicates and its exclusions to the summary, a TRUNCATE frame adds itself, and no other step of any trace changes a count |
| `ReaderSpec.TraceIsSound` | services/cdc-reader/src/lib.rs:2017-2063 | in every trace the held acks are the range from the first unacked message on and number at most max(1, max_in_flight), and duplicates never exceed acks |
| `ReaderSpec.SessionConserved` | services/cdc-reader/src/lib.rs:1430-1458 | over every session, change frames of acknowledged transactions equal published plus excluded plus control-owned rows, and deduped never exceeds published |
| `ReaderSpec.AcksSettleOnceInOrder` | services/cdc-reader/src/lib.rs:2045-2063 | in every trace the messages of a transaction settle once each in index order, and no settled message is sent again |
| `ReaderSpec.AckedAreCommitted` | services/cdc-reader/src/lib.rs:1361-1470 | in every trace, whatever is sent, acked and sent again in between, the acknowledged transactions are all those that the frames read commit, in order, but for one on its way, and the confirmed LSN is the highest commit end or idle keepalive among them |
| `Accounts.OpenIsTheFrames` | services/cdc-reader/src/lib.rs:1361-1375 | the transaction in progress is its last Begin and the frames since, without keepalives |
| `Accounts.DoneExactly` | services/cdc-reader/src/lib.rs:1361-1386 | the transactions that frames commit are those of the Commit frames that close one in progress, all of them in order |
| `Accounts.ReachedExactly` | services/cdc-reader/src/lib.rs:1453-1458 | the position that frames allow to confirm is the highest end of such a commit or of a keepalive outside a transaction |
| `Accounts.SendsCarryTheRows` | services/cdc-reader/src/lib.rs:1387-1442 | in every trace each message sent follows the Commit of its transaction and carries the row of that index, field by field, with the transaction data and last stamp |
| `Accounts.CountsAreOfLabels` | services/cdc-reader/src/lib.rs:1443-1458 | over every session commits count the confirms, published rows the acks, duplicates the acks that said so, and truncates the TRUNCATE frames |
| `Accounts.ExclusionsByName` | services/cdc-reader/src/lib.rs:407-411 | the exclusions of a session are counted name by name over its acknowledged transactions |
| `Dialogue.Heard` | services/cdc-reader/src/lib.rs:1336-1639 | whatever is answered, the session so far is an accepted trace of the automaton, what it waits for fits the transaction at hand, and each question used one answer |
| `Dialogue.TraceIsHeard` | services/cdc-reader/src/lib.rs:1915-2063 | for every script the frames read, sends that went out, acks with their duplicate flags and failed passes of the trace are exactly those that the answers told, all of them and in order, but for a last frame that waits for its relation or was refused |
| `Dialogue.SessionFollowsTheStream` | services/cdc-reader/src/lib.rs:1343-1470 | for every script the session has read the delivered frames in order, and what it has acknowledged and confirmed follows from those frames alone |
| `Answers.EveryAnswerLeads` | services/cdc-reader/src/lib.rs:1336-1639 | in every session each answer leads exactly where its content says: which frames are read, looked up or refused and with which error kind, when the caller's token ends the session, when acks are settled, and that a failed send or ack ends the pass and is slept off |
| `Answers.LooksUpOnce` | services/cdc-reader/src/lib.rs:1581-1608 | no session looks a relation up twice |
| `Answers.SessionSendsTheRows` | services/cdc-reader/src/lib.rs:1387-1442 | in every session each message sent carries its row, field by field |
| `Publish.SettleAll` | services/cdc-reader/src/lib.rs:2045-2063 | each settled ack used one answer that did not fail, the pass fails exactly on the first failed answer, the number of answers used is exact, and index, tally and trace are those of the machine after them |
| `Publish.SendOne` | services/cdc-reader/src/lib.rs:2018-2032 | a message is sent exactly when the token answer is live and the send answer succeeds, a failed send fails the pass with the first unacked message kept, a cancelled token stops it, and the number of answers used is exact |
| `Publish.PublishPass` | services/cdc-reader/src/lib.rs:2008-2039 | after a pass the code stands where the machine stands: every message settled, or the pass failed at the first unacked message, or cancelled, or out of answers |
| `Publish.PublishTxn` | services/cdc-reader/src/lib.rs:1915-1993 | the publish is Acked exactly where the machine has every message of the transaction settled, over any number of failed passes, with its tally, and otherwise cancelled or out of answers |
| `Publish.DoneIsSettledInOrder` | services/cdc-reader/src/lib.rs:1915-1993 | a publish that is done has settled each message exactly once in index order and sent none again after it settled |
| `Drain.PrepareMessages` | services/cdc-reader/src/lib.rs:1387-1426 | the messages built row by row are the rendered rows of the buffer |
| `Drain.MergeRelationCounts` | services/cdc-reader/src/lib.rs:407-411 | the loop adds both maps name by name |
| `Drain.ResolveRelation` | services/cdc-reader/src/lib.rs:1581-1608 | a relation is resolved if and only if it is cached, or the catalog can be reached and holds it, and then has the classification of the catalog |
| `Drain.BufferChange` | services/cdc-reader/src/lib.rs:1569-1637 | the decoded buffer and the cache keep standing for the raw frames and the catalog, and the refusal is exactly the one that frame, catalog and buffer call for |
| `Drain.AwaitRelation` | services/cdc-reader/src/lib.rs:1581-1608 | an uncached relation costs one more answer, a failed one makes the lookup unreachable, and the machine then reads the frame or ends with the error that the frame calls for |
| `Drain.TakeChange` | services/cdc-reader/src/lib.rs:1569-1637 | a delivered change frame leaves buffer, cache, summary and LSN in step with the machine that was answered that frame, or ends the session with the error of the machine |
| `Drain.TakeFrame` | services/cdc-reader/src/lib.rs:1361-1568 | Begin, Message, Truncate, Keepalive and skipped frames do to buffer, summary and LSN what the automaton does |
| `Drain.TakeOther` | services/cdc-reader/src/lib.rs:1354-1568 | a failed read ends the session as its error says, and Begin, Message, Truncate, Keepalive and skipped frames leave everything in step with the machine |
| `Drain.CountCommit` | services/cdc-reader/src/lib.rs:1443-1458 | counts and confirmed LSN after a publish are those that the acknowledged transaction calls for |
| `Drain.CommitTxn` | services/cdc-reader/src/lib.rs:1376-1470 | a transaction is counted and the LSN becomes the larger of itself and that commit's end only where the machine has all messages settled, and a cancelled or killed publish changes no count and no LSN |
| `Drain.TakeCommit` | services/cdc-reader/src/lib.rs:1376-1470 | a Commit without a Begin severs the session, and otherwise the LSN becomes the larger of itself and the frame's own end and the session goes on in step, or it ends with counts and LSN unchanged |
| `Drain.DrainSession` | services/cdc-reader/src/lib.rs:1336-1639 | for every script the session ends as the machine does, after exactly as many answers, with the same error, and its summary and confirmed LSN are those of the machine's trace |
| `Drain.DrainFollowsTheStream` | services/cdc-reader/src/lib.rs:1336-1470 | what a session reports follows from the delivered frames: all but at most the last two are settled, the commits counted are those that they commit, and the confirmed LSN is the highest they allow |
| `System.Resume` | vendor/pg-walstream/src/stream.rs:1129-1245 | the server resumes at the first transaction that ends after the confirmed position |
| `System.SameRowsWithin` | services/cdc-reader/src/lib.rs:417-486 | a session that finds only part of the catalog and refuses nothing of a transaction publishes the messages that the whole catalog calls for |
| `System.DeliverKeepsInv` | services/cdc-reader/src/lib.rs:1354-1375 | delivering a frame keeps the inductive invariant over slot, reader, connection and broker |
| `System.AckKeepsInv` | services/cdc-reader/src/lib.rs:2052-2061 | settling an ack keeps the invariant, because the broker held the message |
| `System.ConfirmKeepsInv` | services/cdc-reader/src/lib.rs:1453-1458 | confirming a transaction keeps the invariant |
| `System.StoreKeepsInv` | services/cdc-reader/src/lib.rs:1900-1914 | a message that lands late, again or past the duplicate window keeps the invariant |
| `System.ResumeStaysBehind` | vendor/pg-walstream/src/stream.rs:1129-1245 | no redelivery starts past a transaction that is not confirmed |
| `System.ResumesKeepInv` | services/cdc-reader/src/lib.rs:1170-1171 | a crash, a new session that finds another part of the catalog, or a reconnect keeps the invariant |
| `System.RunKeepsInv` | services/cdc-reader/src/lib.rs:1336-1469 | every run keeps the invariant |
| `System.NoLoss` | services/cdc-reader/src/lib.rs:1343-1469 | at every moment of every run each message of each transaction at or below the confirmed position is in the broker, and that position has not reached the end of an open or not fully acked transaction |
| `System.ProgressIsKept` | services/cdc-reader/src/lib.rs:1552-1561 | within a session the confirmed LSN never decreases and moves only for a fully acked Commit or a keepalive outside a transaction, and neither slot nor stream ever goes back |
| `System.SessionIsAccepted` | services/cdc-reader/src/lib.rs:1144-1193 | every session inside every run is an accepted trace of the automaton, so what holds of traces holds of runs |
| `CommitOrder.DistinctLsnsMakeDistinctIds` | services/cdc-reader/src/lib.rs:1408-1408 | distinct row LSNs make distinct message ids |
| `CommitOrder.NewMessageIsLatest` | services/cdc-reader/src/lib.rs:1427-1442 | a sent message that the broker does not hold belongs to the latest transaction ever published |
| `CommitOrder.ExactlyOnceInCommitOrder` | services/cdc-reader/src/lib.rs:1915-2063 | inside the duplicate window, however messages land, the broker holds each confirmed message exactly once and all of a transaction before any of a later one |
| `CommitOrder.StreamIsPrefixOfWal` | services/cdc-reader/src/lib.rs:2008-2039 | when each pass lands in the order it sent, and passes of this and earlier processes interleave in any way, the stream is at every moment a prefix of all owed messages row by row, and covers every confirmed transaction |
| `Limits.SmoothRun` | services/cdc-reader/src/lib.rs:1336-1469 | a failure-free run confirms any number of readable transactions |
| `Limits.NoLossExactly` | services/cdc-reader/src/lib.rs:1408-1408 | for transactions without refused frames, no run loses a message if and only if rows that share an LSN are one message |
| `Limits.OneInFlightKeepsRowOrder` | services/cdc-reader/src/lib.rs:2026-2032 | with one message in flight rows keep their order without any order on the connection |
| `Limits.OvertakingRun` | services/cdc-reader/src/lib.rs:2017-2033 | with two messages in flight there is a run in which the second row of a transaction stands before the first |
| `Limits.RowOrderExactly` | services/cdc-reader/src/lib.rs:2017-2039 | for transactions without refused frames and without an ordered connection, rows keep their order in every run if and only if one message is in flight at a time or no transaction owes two |
| `Ladder.ReopenLadder.constructor` | services/cdc-reader/src/lib.rs:253-268 | a new ladder stands for the empty history |
| `Ladder.ReopenLadder.NoteReopen` | services/cdc-reader/src/lib.rs:281-317 | for every non-decreasing sequence of instants the streak is that of the full history, the deque is the full history filtered to the last 60 s inclusive, and the verdict is the one the history calls for |
| `Ladder.Evict` | services/cdc-reader/src/lib.rs:289-295 | dropping old instants from the front keeps exactly the recent ones of the whole deque |
| `Ladder.ReopenFacts` | services/cdc-reader/src/lib.rs:281-295 | one more re-open changes the streak and the window of the full history as the fields are changed |
| `Ladder.TripsExactly` | services/cdc-reader/src/lib.rs:296-308 | the ladder trips if and only if the last ten re-opens had no commit or more than twenty of the full history lie in the last minute |
| `Ladder.BackoffBounds` | services/cdc-reader/src/lib.rs:309-316 | every backoff lies between 1 s and 30 s and does not shrink as the streak grows |
| `Ladder.BackoffGrows` | services/cdc-reader/src/lib.rs:309-316 | a surviving re-open with a commit, or the first without one, backs off 1 s, and each further one without a commit twice as long as the one before, up to 30 s |
| `Ladder.CommitFreeRunEnds` | services/cdc-reader/src/lib.rs:281-317 | from a zero streak a run of commit-free sessions ends by its tenth re-open, asks for at most 151 s of backoff, and for exactly that when nine survive |
| `Ladder.RateIsBounded` | services/cdc-reader/src/lib.rs:302-308 | a run that never trips has at most twenty re-opens in any closed minute |
| `Session.TraceIsHeard` | services/cdc-reader/src/lib.rs:1144-1229 | for all replies the gap checks, polls, sessions, failed opens and severs of the trace are exactly those that the replies told, with their registration, result and error, all of them and in order |
| `Replies.EveryReplyLeads` | services/cdc-reader/src/lib.rs:1144-1229 | in every run each reply leads exactly where its content says: exits, events, registration, monitors, reports and the re-opens given to the ladder with their commits |
| `Replies.ErrorsDecide` | services/cdc-reader/src/lib.rs:205-217 | in every run an authentication or configuration error without a keyword fails the run, a cancelled error without one ends it cleanly, and a run that stands after any other failure has tripped the ladder |
| `Replies.FirstGapIsReported` | services/cdc-reader/src/lib.rs:669-684 | in every run the first failed gap check is followed by its report |
| `SessionLaws.ReplyKeeps` | services/cdc-reader/src/lib.rs:1144-1229 | every reply keeps what holds of the loop, or ends the run for a known reason |
| `SessionLaws.RunIsGoverned` | services/cdc-reader/src/lib.rs:1144-1229 | every state of every run has a lawful trace, knows its registration, token and monitors, and has climbed the ladder as the trace says |
| `SessionLaws.OpensOnlyAfterClearCheck` | services/cdc-reader/src/lib.rs:1144-1170 | in every run a session opens only right after the gap check passed on the registration in force, with exactly one monitor, on its slot, when polling is on |
| `SessionLaws.BacksOffBeforeReopening` | services/cdc-reader/src/lib.rs:1232-1260 | in every run a backoff of 1 s to 30 s lies between a failed or severed session and the next one |
| `SessionLaws.BackoffsAreTheLadders` | services/cdc-reader/src/lib.rs:1235-1259 | the backoffs of every run are exactly those that the ladder calls for on the history of its re-opens, and a re-open without one tripped it |
| `SessionLaws.ReopensAreRare` | services/cdc-reader/src/lib.rs:1235-1259 | with the ladder of the reader no run backs off and re-opens more than twenty times in a minute |
| `SessionLaws.OneMonitor` | services/cdc-reader/src/lib.rs:1132-1166 | while the token is live exactly one monitor runs, on the slot of the registration in force, when polling is on, and once the token is cancelled none runs |
| `SessionLaws.NeverTwoMonitors` | services/cdc-reader/src/lib.rs:1132-1165 | at no event of any run are two monitors running |
| `SessionLaws.ReportsAGapOnce` | services/cdc-reader/src/lib.rs:675-684 | a run reports a gap at most once, and only right after a failed gap check |
| `SessionLaws.ExitsHaveReasons` | services/cdc-reader/src/lib.rs:1144-1230 | every failed exit has its reason in the last reply or event: a failed check or read, an unacceptable registration, an authentication or configuration error, or a trip of the ladder. Every clean exit has one too, and never follows such an error unless the caller had asked when the drain was severed |
| `SessionLaws.NoSessionAfterSever` | services/cdc-reader/src/lib.rs:1204-1213 | where shutdown cancels the shared token no session follows a severed drain in any run |
| `SessionLaws.SeverThenSession` | services/cdc-reader/src/lib.rs:1204-1226 | with a stream that leaves the token alone, five usual replies give a session after a severed drain |
| `SessionLaws.SeverThenEnd` | services/cdc-reader/src/lib.rs:1204-1213 | with a stream that cancels the token, the same replies end the run cleanly right after the severed drain |
| `SessionLaws.ReopensExactly` | services/cdc-reader/src/lib.rs:1204-1226 | some run opens a session after a severed drain if and only if shutdown leaves the token alone |
| `SessionLoop.CheckGap` | services/cdc-reader/src/lib.rs:1144-1152 | the head of the loop looks at the token, then takes failure and gap from the reply, and stands where the machine does |
| `SessionLoop.ReportGap` | services/cdc-reader/src/lib.rs:675-684 | the gap is reported exactly when it was not before |
| `SessionLoop.PollGap` | services/cdc-reader/src/lib.rs:685-700 | one poll ends the wait exactly as the two replies say: a cancelled token, a failed read, an unacceptable registration, or a passed check on the registration read |
| `SessionLoop.WaitOutGap` | services/cdc-reader/src/lib.rs:669-701 | after any number of polls the wait stands where the machine does, with the registration to resume on |
| `SessionLoop.ResumeOn` | services/cdc-reader/src/lib.rs:1156-1166 | a recovery retires the old monitor and spawns the new one exactly when the slot is another one and polling is on |
| `SessionLoop.NoteOnClock` | services/cdc-reader/src/lib.rs:1235-1241 | the ladder is fed in time order and its verdict is the one of the full history |
| `SessionLoop.StepOrBail` | services/cdc-reader/src/lib.rs:1235-1259 | ladder, clock and trace after one step are those of the machine: a trip fails the run and a backoff is slept |
| `SessionLoop.HandleError` | services/cdc-reader/src/lib.rs:1172-1186 | an authentication or configuration error without a keyword stops with a failure, a cancelled one cleanly, and every other gives the ladder one re-open with these commits |
| `SessionLoop.DrainToEnd` | services/cdc-reader/src/lib.rs:1193-1228 | a drain ends as its reply says: caller intent is read before the stream is shut down, and the error of the reply decides the rest |
| `SessionLoop.OpenAndDrain` | services/cdc-reader/src/lib.rs:1170-1228 | a failed open feeds the ladder with zero commits or ends the run, and an open session is drained |
| `SessionLoop.RunWithShutdown` | services/cdc-reader/src/lib.rs:1131-1230 | for all replies the loop exits as the machine does, with the same trace, registration and token, and is killed exactly when the replies run out first |
| `Guard.ActionsAre` | deploy/gcp/guard/guard.py:36-47 | the actions of a message are those of the thresholds above the stored and up to its own value, in order |
| `Guard.Perform` | deploy/gcp/guard/guard.py:95-105 | every action runs: those that worked are listed in order, those that failed are listed in order, and one failure skips none |
| `Guard.ActionsOfMessage` | deploy/gcp/guard/guard.py:108-128 | the daily message scales to zero, a budget message asks for the thresholds above the one stored for its interval and up to its own value, and anything else asks for nothing |
| `Guard.Handle` | deploy/gcp/guard/guard.py:108-133 | also when the message fails the actions that worked and that failed are listed exactly, the state is written exactly when none failed, nobody raced, and the interval is new or the value larger, and otherwise stays |
| `Guard.IncrementalIsBatch` | deploy/gcp/guard/guard.py:119-133 | from any stored state, for every failure-free sequence of messages of one interval, the actions are those of the largest value above what was stored, each once and in order, and the stored threshold is the larger of the two |
| `Guard.AloneIsHandled` | deploy/gcp/guard/guard.py:108-133 | a handler of the concurrent machine that nobody races does to the stored state what one handled message does |
| `Guard.RunKeepsInv` | deploy/gcp/guard/guard.py:50-66 | every interleaving of handlers keeps the invariant between stored state, generations and what handlers have read |
| `Guard.StoredIsEarned` | deploy/gcp/guard/guard.py:95-133 | for every interleaving with failures, deaths and redelivery, a stored threshold means that every action at or below it succeeded for that interval |
| `Guard.StoredNeverFalls` | deploy/gcp/guard/guard.py:59-66 | no step of any run lowers the stored threshold while the interval stays the same |
| `Guard.StoredNeverFallsOver` | deploy/gcp/guard/guard.py:119-133 | over any stretch of a run in one interval the stored threshold does not decrease |
| `KeyOrder.SortedKeys` | services/ctl/src/artifact_verbs.rs:108-110 | the keys of both objects in ascending order, each once |
| `KeyOrder.LeqExactly` | services/ctl/src/artifact_verbs.rs:108-110 | the order of keys is that of the first code point that differs, with prefixes first |
| `JsonDiff.ScriptWorks` | services/ctl/src/artifact_verbs.rs:99-141 | for all documents the lines, run as an edit script, turn the first into the second |
| `JsonDiff.ObjectsWork` | services/ctl/src/artifact_verbs.rs:107-120 | scripts that work for each member work for the object |
| `JsonDiff.ArraysWork` | services/ctl/src/artifact_verbs.rs:121-130 | scripts that work for each index work for the array, though removals and additions move the elements |
| `JsonDiff.EmptyExactlyWhenEqual` | services/ctl/src/artifact_verbs.rs:131-140 | there are no lines if and only if the documents are equal |
| `JsonPointer.UnescapeEscape` | services/ctl/src/artifact_verbs.rs:112-112 | the two replacements are undone by the rules of section 4 of RFC 6901 and leave no slash |
| `JsonPointer.TokensOfPointer` | services/ctl/src/artifact_verbs.rs:112-124 | reading a rendered pointer by section 3 of RFC 6901 gives the tokens of the path |
| `JsonPointer.SamePointerExactly` | services/ctl/src/artifact_verbs.rs:112-124 | two paths share a pointer if and only if they agree token text by token text |
| `JsonPointer.KeyAndIndexShareText` | services/ctl/src/artifact_verbs.rs:112-124 | a key and an index can share a pointer, so injectivity on all paths fails |
| `JsonPointer.PointerInjectiveInDocument` | services/ctl/src/artifact_verbs.rs:112-124 | among the places of one document pointers are injective |
| `JsonPointer.OnePointerOnePlace` | services/ctl/src/artifact_verbs.rs:96-98 | in one difference lines with one pointer have one path |
| `JsonPointer.PointersNameTheirValues` | services/ctl/src/artifact_verbs.rs:96-98 | each pointer, evaluated by section 4 of RFC 6901, names the removed value in the first document or the added value in the second |
| `JsonPointer.DiffValues` | services/ctl/src/artifact_verbs.rs:105-141 | the recursion appends to the shared buffer exactly the rendered lines below its pointer |
| `JsonPointer.DiffMembers` | services/ctl/src/artifact_verbs.rs:107-120 | the loop over sorted keys appends the lines of the object |
| `JsonPointer.DiffItems` | services/ctl/src/artifact_verbs.rs:121-130 | the loop over indexes appends the lines of the array |
| `JsonPointer.DiffDocuments` | services/ctl/src/artifact_verbs.rs:96-103 | the output is the rendered lines, is empty exactly for equal documents, and each minus line names a value of the first document and each plus line one of the second |
| `Paging.ServerPage.constructor` | apps/platform_ui/src/records.tsx:15-23 | a new page is empty, at the first page, with no request and no event |
| `Paging.ServerPage.Cleanup` | apps/platform_ui/src/records.tsx:24-27 | unmounting ends the current generation |
| `Paging.ServerPage.Restart` | apps/platform_ui/src/records.tsx:28-35 | a restart opens a new generation at the first page and keeps the rows |
| `Paging.ServerPage.Reset` | apps/platform_ui/src/records.tsx:36-40 | a reset also drops the rows |
| `Paging.ServerPage.Request` | apps/platform_ui/src/records.tsx:41-48 | a request opens a new generation and is under way under it with its own history, asks for the last cursor of that history, and an unmounted page issues none |
| `Paging.ServerPage.Arrive` | apps/platform_ui/src/records.tsx:46-61 | a response of the current generation is taken whole, any other changes nothing |
| `Paging.ServerPage.Reject` | apps/platform_ui/src/records.tsx:55-60 | a failure of the current generation sets the error and ends pending, any other changes nothing |
| `Paging.ServerPage.Refresh` | apps/platform_ui/src/records.tsx:62-65 | a refresh restarts, keeps the rows and requests the first page, as the machine does |
| `Paging.ServerPage.OnPrevious` | apps/platform_ui/src/records.tsx:72-74 | exactly when mounted, idle and not at the first page a request goes out with the history without its last cursor, as the machine does |
| `Paging.ServerPage.OnNext` | apps/platform_ui/src/records.tsx:75-78 | exactly when mounted, idle and a cursor is named a request goes out with that cursor appended to the history, as the machine does |
| `Paging.HistoryIsNamed` | apps/platform_ui/src/records.tsx:41-81 | in every run the history of the page and of every request under way starts at the first page, each later cursor was named by a response accepted for exactly the pages before it, and the page shows its last accepted response or stands restarted |
| `Paging.PendingExactly` | apps/platform_ui/src/records.tsx:41-61 | while mounted, pending holds if and only if the request of the current generation is under way |
| `Paging.OnlyTheLatestChangesRows` | apps/platform_ui/src/records.tsx:46-54 | in every run only the response of the latest request of a mounted page changes rows, or a reset |
| `Paging.EveryPageKeeps` | apps/platform_ui/src/records.tsx:15-81 | what holds of every run holds of every page object: named cursors, last accepted response shown, pending exactly while its latest request is under way |
| `Paging.StaleChangesNothing` | apps/platform_ui/src/records.tsx:49-60 | requests of older generations settle without any effect |
| `Paging.LatestWins` | apps/platform_ui/src/records.tsx:41-61 | in whatever order the requests under way settle, the page ends with what the latest one brings |
| `Sweep.Sorted` | tools/bench/app-result.py:45-46 | the sorted list holds the same intervals |
| `Sweep.SortedAscends` | tools/bench/app-result.py:45-46 | the sorted list ascends by left and then right end |
| `Sweep.Covered` | tools/bench/app-result.py:43-50 | for every list of intervals the sweep computes the number of instants of the parent that some child covers |
| `Sweep.OwnTimeBounds` | tools/bench/app-result.py:51-51 | own time lies between nothing and the duration |
| `Sweep.OwnTimeOfCoverage` | tools/bench/app-result.py:44-51 | own time depends only on what the children cover, not on their order or on repeats |
| `Sweep.DisjointAdds` | tools/bench/app-result.py:44-50 | nested, disjoint children cover the sum of their durations |
| `SpanTree.WalkEndsExactly` | tools/bench/app-result.py:32-37 | the descendant walk ends if and only if the root is not above itself |
| `SpanTree.SelfParentNeverEnds` | tools/bench/app-result.py:32-37 | the walk from a span that is its own parent does not end |
| `SpanTree.Select` | tools/bench/app-result.py:32-37 | the walk selects the root and every span below it, each once, and with nested, disjoint children their own times sum to the root's duration |
| `SpanTree.WalkConserves` | tools/bench/app-result.py:34-37 | each step keeps own times of selected spans plus durations of waiting ones |
| `SpanTree.Measure` | tools/bench/app-result.py:31-51 | each selected span gets its own time, and in a neat tree they sum to the duration of the root |
| `Ancestry.IndexSpans` | test-support/infrastructure/telemetry.rs:251-264 | the index is built if and only if every span has the trace identifier and one of its own and no identifier repeats, and then maps each identifier to its span |
| `Ancestry.FindInvocation` | test-support/infrastructure/telemetry.rs:313-324 | the walk ends for every parent map, cyclic ones included, finds an invocation if and only if the chain of present spans reaches one, reports the nearest, and fails on a bad identifier if and only if the chain meets one first |
| `Ancestry.NearestIsUnique` | test-support/infrastructure/telemetry.rs:313-324 | there is one nearest invocation |
| `Ancestry.CheckInvocations` | test-support/infrastructure/telemetry.rs:265-297 | the invocations pass if and only if each is sound |
| `Ancestry.AttributeEffects` | test-support/infrastructure/telemetry.rs:298-326 | the effects are attributed if and only if each is sound, names a parent and reaches an invocation, and are listed in identifier order with their nearest invocation |
| `Ancestry.RequestTrace` | test-support/infrastructure/telemetry.rs:244-334 | a report is given if and only if the trace is non-empty, indexable and complete, and says what the index says |
| `Fill.SplitName` | apps/platform_ui/src/fill.ts:10-14 | splitting the dotted name of a path gives the path back, when no member holds a dot and an empty first member stands alone |
| `Fill.Walk` | apps/platform_ui/src/fill.ts:10-18 | the walk writes exactly the leaves, each under the name of its path, in any order of members |
| `Fill.FillPath` | apps/platform_ui/src/fill.ts:8-22 | the query holds a value for each leaf and nothing else |
| `Fill.FilledValues` | apps/platform_ui/src/fill.ts:25-42 | the loop over query values builds what writing the members one by one builds, skips undefined ones, and fails on a write through a text |
| `Fill.RebuildFailsExactly` | apps/platform_ui/src/fill.ts:25-42 | a query cannot be rebuilt if and only if the path of one value leads through the text of an earlier one |
| `Fill.PutStep` | apps/platform_ui/src/fill.ts:34-39 | each write adds its member to the value that the earlier ones describe |
| `Fill.PutAllGroups` | apps/platform_ui/src/fill.ts:27-40 | for every list of paths of which none leads through another, the in-place build equals grouping by first member, each container of the kind its first member tells |
| `Fill.RoundTripExactly` | apps/platform_ui/src/fill.ts:8-42 | for every value and every listing order the value comes back if and only if it is plain and the kinds of its containers fit the listing |
| `Fill.NumberedComesBackAsList` | apps/platform_ui/src/fill.ts:8-42 | an object whose member is named 0 is written as the list would be and comes back as the list |
| `Fill.RoundTrip` | apps/platform_ui/src/fill.ts:24-42 | plain values whose lists have numbers for names and whose objects have none come back in every listing order |

## Left out

- Network, SQL, TLS and URL handling of the reader, the NATS client and the preflight checks of publication and slot: they are environment steps and replies.
- Payload encoding: JSON and UTF-8 encoding of envelopes and rows are abstract, so the sever on a payload that does not serialise (services/cdc-reader/src/lib.rs:1409-1420) is not modelled.
- Logs, gauges, stall alerts, slot health levels and drift sentences: each is settled by one branch.
- Retry delays of `publish_txn`: a sleep is one answer, its growing length is not modelled.
- Subject names of messages: they do not take part in deduplication or order.
- Counter widths: counts and LSNs are unbounded, so wrap-around of 32-bit and 64-bit counters is not modelled.
- System.Resume: says where the server resumes, and the reconnect attempts and buffers of the vendored stream are not modelled.
- SessionLoop.RunWithShutdown: starts after the first registration was loaded and the streams were checked, and takes the gap check with the token check at the loop head as one reply.
- SessionLoop.DrainToEnd: takes how a drain ended, with its error and its commits, as a reply, so the loop and `Drain.DrainSession` are proved side by side and not composed.
- HTTP calls, message decoding and cluster paths of the guard, and floating-point rounding of its thresholds, which are reals here.
- Number forms of JSON: a number is an integer here, and only equality of numbers matters to the differ. The text of a value on an output line is the value itself.
- Paging.ServerPage.Arrive: takes a signal write as visible at once, so batching of signal writes by the UI library is not modelled.
- SpanTree.Measure: lists own times span by span in nanoseconds. Selection of roots, the filter on the receipt operation, grouping by span name and the division to milliseconds are left out.
- Ancestry.IndexSpans: takes identifiers as already read, so the hexadecimal check and lower-casing are not modelled. Attribute and duration checks of a span are one flag.
- Fill.FilledValues: builds nested containers on values, so sharing of containers in place is not modelled. Names that JavaScript objects and arrays inherit, such as `constructor` or `length`, and percent-encoding of the address are left out.
- Command-line verbs, fixtures, deployment files, the table and other UI components, and metric parsing: they are plumbing or text handling around the cores.
