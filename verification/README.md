# Akerdock: a Dafny model of its schedulers, protocols and compilers

Akerdock deploys containers through an agent on each server. This project models the parts of it
that are hard to get right by reading one function, and proves what they promise for every input,
every run and every interleaving.

| files | what they model |
|---|---|
| `WakeLog`, `Waker` | waking a scaled-to-zero resource: starts along `needs`, readiness, the re-armed deadline, rollback |
| `WireStream`, `WireMux`, `WireConn`, `Executor` | the command channel: calls and streams multiplexed over one wire, bounded queues that shed, the agent's replies |
| `ServiceGraph` | Kahn's start order and the three-colour cycle search over a compose file |
| `Calendar`, `Cron`, `CronDays`, `CronReach`, `CronParse`, `CronLimits`, `CronGrammar` | cron expressions and the skipping search for the next occurrence |
| `RouteRegex`, `AccessRoutes`, `RoutePatterns`, `RouteRules`, `RouteMethods` | public routes: validation, and compilation to a proxy rule |
| `Ingress`, `IngressTokens`, `IngressReasons`, `IngressTable`, `Relay` | attach sessions, the relay connection cache |
| `PushQueue`, `Observations` | the bounded queue of observations and their delivery |
| `Permissions` | prerequisite closure, custom roles, ceilings |
| `EditDistance` | typo suggestions for configuration keys |
| `Text`, `Wrappers` | the order, splitting and sorting of strings, and optional values |

## How it is built

Code that updates state in place is a method or a class, proved against a function or a predicate.
What several goroutines do is a state machine: its steps are the sections the code runs under one
lock and the channel operations between them, any enabled step may come next, and a theorem about a
run holds at every state of every sequence of steps.

- The Docker daemon and the clock of a wake are an arbitrary script of answers; a clock never goes back.
- The channel is a reliable first-in first-out wire that may die at any send. Its peer ends a stream
  at most once and sends nothing of it afterwards; `Executor` proves that the agent is such a peer.
- Strings are sequences of bytes, except that a cron expression and an HTTP method, which the code
  trims rune by rune, are sequences of code points. Map iteration is an arbitrary choice of the next key.
- A schedule is evaluated at a fixed offset from UTC, which need not be a whole number of minutes.
- The SHA-256 of an attach token is passed in beside the token. `serial`, `told` and the serial number
  of a batch are bookkeeping that tells equal values apart.

## Where the code and its promises part

Each of these has a lemma that exhibits it at an input and one that says when the promise holds.

- A cron step near 2^63 wraps the 64-bit counter: `59/9223372036854775807 * * * *` also allows minute 57
  (`HugeStepIsWrong`). A part is right if and only if its counter does not wrap back (`StepsExactly`).
- `Next` is documented to give up only on an expression that can never match. Asked at the end of
  29 February 2096 it gives up on `0 0 29 2 *` (`GivesUpBefore2104`). It gives up wrongly if and only if
  the schedule is confined to 29 February and the window lies in the eight-year gap around a century
  year that is not a leap year (`EmptyWindowExactly`).
- `Covers` trims one slash, so base `/a//` covers the prefix route `/a/`, which serves `/a/x`
  (`DoubleSlashEscapes`; exact in `CoversExactly`).
- `Cut` stops at the first live session of a name. Another live session of that name goes on
  (`SharedNameSurvives`; exact in `CutHitCutsExactly`). When every name is armed once, every cut is
  complete and stays so (`CutIsComplete`).
- A ceiling may lose `read` that both sides grant through different scopes (`CapMayLoseRead`), and
  anything that one side grants as `root` only (`CapMayLoseUnderRoot`). There is no third way
  (`CapKeepsGranular`; `CappedHas` is exact).
- The comment on `PumpReader` says that a cancelled pump reports no end. The code sends an end mark
  (`CancelledPumpEndsCleanly`), so an end mark means the end of the source if and only if the reader did
  not fail under a cancelled command (`CleanEndExactly`).
- A wake that times out should owe it to a container that was started and does not become ready. The
  loop reads the clock once to re-arm its deadline and again to test it; if a whole budget passes in
  between, a wake can fail with nothing started (`JumpWithoutCulprit`). After a pass that released
  nothing there is always a culprit (`TimeoutHasCulprit`). One is there in every final state of a timeout,
  as `WakeResource` describes those, if and only if the set is listed dependencies first
  (`CulpritExactly`).
- `Push` is documented to drop the oldest observation when the queue is full. Its three operations can be
  disturbed in two ways. Another push may take the room it made, and then it is dropped itself
  (`OverlapDrops`): exactly when the queue is full again at its retry (`DropExactly`). And the flusher may
  take an entry before it sheds, so that it sheds from a queue that has room (`NeedlessShed`): exactly when
  more entries left than pushes landed since it was refused (`NeedlessExactly`). Undisturbed by other
  pushes and the flusher, it keeps the newest (`UndisturbedKeepsNewest`, `PushedKeepsNewest`).
- A validated method may hold a back quote, which the rule text quotes with (`BackQuotedMethod`). The rule
  for the methods reads back as the methods if and only if none does (`MethodsReadBackExactly`).

## Model

| member | source | states |
|---|---|---|
| `WakeLog.StartedHadNeeds` | internal/agent/waker.go:601-634 | in every acceptable log, whatever was started is in the wake set and has every need within the set released |
| `WakeLog.StartOrder` | internal/agent/waker.go:595-649 | in every acceptable log, the list of first starts has no duplicate and lists needs before dependents |
| `Waker.Ready` | internal/agent/waker.go:694-707 | each of the three readiness branches, event by event, with its two clock readings and what happens to the stability window |
| `Waker.DepsMetMeansReleased` | internal/agent/waker.go:664-671 | the edge test holds exactly when every need within the set was released; needs outside it do not count |
| `Waker.Examine` | internal/agent/waker.go:604-633 | one turn keeps the log acceptable: starts only with needs released, releases a container it started only when healthy or after an unbroken stable streak; blocked means started and not ready, or stopped with a need missing; failed means the daemon refused a call |
| `Waker.Pass` | internal/agent/waker.go:601-634 | progress means the released set grew; each unreleased container was started and is not ready, or was stopped and lacked a need when examined; `blocked` is the first unreleased one; a failed pass ends with a refused call |
| `Waker.Rollback` | internal/agent/waker.go:677-689 | one stop for each started container and no other, last started first |
| `Waker.WakeResource` | internal/agent/waker.go:585-658 | whatever the daemon answers: an acceptable log, in which no container is inspected twice between waits; success releases all and returns the first starts; failure stops exactly those in reverse, and comes of a refused call, a cancelled wait, or a reading at least the timeout after the one that armed the deadline; the passes, counted by the waits in the log, are at most (n+1)*(ceil(timeout/poll)+1) |
| `Waker.TestDeadline` | internal/agent/waker.go:638-641 | re-arms exactly after a pass that released something, and has expired exactly when the reading is at or past the deadline |
| `Waker.TimeoutHasCulprit` | internal/agent/waker.go:601-644 | an acyclic wake that times out after a pass that released nothing has a container it started, whose needs are all released, and which is not ready: just started, starting, unhealthy, or stable for too short a time |
| `Waker.ProgressMeansJump` | internal/agent/waker.go:638-644 | a timeout after a pass that released something: the deadline was re-armed and a whole budget passed before the next reading |
| `Waker.TimeoutNamesCulprit` | internal/agent/waker.go:601-644 | listed dependencies first, the container named in the timeout error is started, has its needs released and is not ready, clock jump or not |
| `Waker.CulpritExactly` | internal/agent/waker.go:601-644 | every final state of a timeout, as `WakeResource` describes them, has such a container if and only if the acyclic wake set is listed dependencies first; the converse is about that description |
| `Waker.JumpWithoutCulprit` | internal/agent/waker.go:638-644 | `b` needs `a` and is listed first, `a` is found running, the clock jumps: a log and final state of a timeout with nothing started |
| `WireStream.StepKeeps` | internal/agentwire/conn.go:131-154 | every step of peer, wire, delivery, reader and close keeps order, conservation of bytes without loss, and that a loss is told before any clean end |
| `WireStream.RunKeeps` | internal/agentwire/conn.go:131-154 | the invariant holds at every state of every run of one stream |
| `WireStream.CleanEofIsComplete` | internal/agentwire/conn.go:303-330 | a reader told of a clean end has every byte the peer sent, in order; nothing was shed, and the peer did end the stream |
| `WireStream.LossIsNeverSilent` | internal/agentwire/conn.go:139-153 | once a chunk was shed, no later state of the run shows the reader a clean end |
| `WireStream.LossSurfaces` | internal/agentwire/conn.go:139-153 | after a loss, a reader that has not closed the stream finds the error by reading on what is queued |
| `WireStream.PrefixBeforeLoss` | internal/agentwire/conn.go:303-330 | before any loss the bytes returned are a prefix of the bytes sent |
| `WireMux.IdsStayIssued` | internal/agentwire/conn.go:78-89 | ids are issued upward, never twice, and every frame answers an issued id |
| `WireMux.StepProjects` | internal/agentwire/conn.go:97-154 | a step of the shared channel is one step of the call it concerns and leaves every other call as it was |
| `WireMux.OpenIsIdle` | internal/agentwire/conn.go:78-89 | a fresh call starts with an idle stream: nothing on the wire carries its id |
| `WireMux.MuxRunKeeps` | internal/agentwire/conn.go:78-154 | on every run of the channel, every call's stream satisfies the one-stream invariant |
| `WireMux.CleanEofOnChannel` | internal/agentwire/conn.go:303-330 | with any number of calls interleaved, a clean end means the whole stream sent under that very id |
| `WireMux.ResultsStayMatched` | internal/agentwire/conn.go:116-126 | a step never gives a call another call's result; the first result wins |
| `WireMux.ResultsOnChannel` | internal/agentwire/conn.go:116-126 | at every state of every run, a call's result is the first one the peer sent under its id |
| `WireConn.DeliverIsSteps` | internal/agentwire/conn.go:139-153 | delivery without interference is the machine's push, or its shed and push of an error |
| `WireConn.DrainIsSteps` | internal/agentwire/conn.go:303-330 | the read loop is some number of the machine's chunk steps, until none is enabled |
| `WireConn.DrainExactly` | internal/agentwire/conn.go:303-330 | reading on discards the chunks without bytes or end and takes the first that has either, with its bytes and its end |
| `WireConn.Conn.StartCall` | internal/agentwire/conn.go:78-89 | registers an empty call under an id no call has had |
| `WireConn.Conn.Finish` | internal/agentwire/conn.go:91-95 | forgets that call and nothing else |
| `WireConn.Conn.DeliverResult` | internal/agentwire/conn.go:116-126 | touches the call of that id only; a second result is ignored |
| `WireConn.Conn.DeliverChunk` | internal/agentwire/conn.go:131-154 | touches the streaming call of that id only; a full queue sheds its oldest chunk for an error and the peer is told to stop |
| `WireConn.StreamReader.Read` | internal/agentwire/conn.go:303-330 | buffered bytes first, then the recorded end, then the first queued chunk with bytes or an end; it blocks only with nothing buffered, nothing queued and no end, and reports the end only when no bytes come before it or with it |
| `Executor.PumpReader` | internal/agentwire/conn.go:357-377 | chunks of 1 to 32768 bytes that concatenate to the reads, then one terminal chunk, an error only if the reader failed uncancelled; all of it unless a send fails, and nothing after a send that does |
| `Executor.EventChunksDisciplined` | internal/agent/executor.go:242-280 | an event stream has at most one terminal chunk and nothing after it |
| `Executor.EventStreamExactly` | internal/agent/executor.go:257-280 | the chunks carry the encodings of the messages before the end, one each, unencodable ones skipped; the end is clean exactly when the daemon's stream did not fail and the command was not cancelled |
| `Executor.PumpEvents` | internal/agent/executor.go:257-280 | sends the chunks of the events in order, all of them unless a send fails, and nothing after a send that does |
| `Executor.Execute` | internal/agent/executor.go:104-280 | every command, whatever fails, answers with one result and, only after the success of a streaming method, chunks of which at most the last is terminal; sending stops at the first failure, and without one the whole stream goes out |
| `Executor.AttachedWrite` | internal/agentwire/conn.go:258-271 | succeeds exactly when every send does; chunks of 1 to 32768 bytes that concatenate to the input; on a failure the count excludes exactly the chunk that failed |
| `Executor.StreamEndToEnd` | internal/agentwire/conn.go:303-377 | reader, channel and pump together: bytes read to a clean end are the source's bytes up to the read that ended it |
| `Executor.CleanEndExactly` | internal/agentwire/conn.go:354-375 | an end mark means the end of the source if and only if the reader did not fail under a cancelled command |
| `Executor.CancelledPumpEndsCleanly` | internal/agentwire/conn.go:357-377 | the pump, run on a read that fails after a cancellation with every send succeeding: the stream is cut short and ends cleanly |
| `ServiceGraph.StartOrderExactly` | internal/compose/transform.go:383-425 | a start order lists every service once, each after all the services it names |
| `ServiceGraph.ClosedWalkExactly` | internal/compose/transform.go:428-469 | a closed walk follows what services name from one service to another and ends where it began |
| `ServiceGraph.ClosedWalkBlocksOrders` | internal/compose/transform.go:383-425 | a graph with a closed walk of known dependencies has no start order |
| `ServiceGraph.GreedyRuns` | internal/compose/transform.go:409-423 | always starting the least available service respects dependencies and stops only when nothing can start |
| `ServiceGraph.GreedyComplete` | internal/compose/transform.go:424-424 | that order covers every service exactly when some start order exists |
| `ServiceGraph.GreedyIsLeast` | internal/compose/transform.go:383-384 | no start order comes before it lexicographically |
| `ServiceGraph.ListLeExactly` | internal/compose/transform.go:383-384 | the order between lists: one begins the other, or has the lesser name where they first differ |
| `ServiceGraph.CountService` | internal/compose/transform.go:391-399 | one service's edges counted, unknown dependencies skipped, in any iteration order |
| `ServiceGraph.CountEdges` | internal/compose/transform.go:386-399 | the in-degrees count the known dependencies and the lists hold the dependents, once each |
| `ServiceGraph.InitialReady` | internal/compose/transform.go:401-407 | sorted, exactly the services without known dependencies |
| `ServiceGraph.ReleaseDependents` | internal/compose/transform.go:414-422 | after a start the counts and the sorted ready list are those of the larger started set |
| `ServiceGraph.TopologicalOrder` | internal/compose/transform.go:385-425 | whatever the map iterations do: ok exactly when a start order exists, and then the lexicographically least one |
| `ServiceGraph.CycleSearch.Visit` | internal/compose/transform.go:439-469 | finds a genuine closed walk, or blackens everything reachable and restores the stack |
| `ServiceGraph.FindCycle` | internal/compose/transform.go:428-482 | empty exactly when a start order exists; otherwise a closed walk of known dependencies |
| `ServiceGraph.ValidateAndPlan` | internal/compose/transform.go:193-197 | the cycle that survives validation cannot happen |
| `Calendar.DateRoundTrip` | internal/cronexpr/cronexpr.go:147-158 | the date of the day number of a date is that date: the calendar behind `time.Date` and its fields |
| `Calendar.SameMonthUntilNext` | internal/cronexpr/cronexpr.go:150-150 | every day before the first of the next month is in the same month |
| `Calendar.WeekdaysAreKnown` | internal/cronexpr/cronexpr.go:171-171 | weekdays follow each other, Sunday being 0, and 1 January 2000 was a Saturday |
| `Calendar.DayNumbers` | internal/cronexpr/cronexpr.go:150-154 | where each month starts in a common and in a leap year, and how long a year is |
| `Cron.MonthSkip` | internal/cronexpr/cronexpr.go:147-152 | skipping to the next month passes no matching minute and moves on |
| `Cron.DaySkip` | internal/cronexpr/cronexpr.go:153-156 | skipping to the next day passes no matching minute and moves on |
| `Cron.HourSkip` | internal/cronexpr/cronexpr.go:157-160 | skipping to the next hour passes no matching minute and moves on |
| `Cron.StartIsLater` | internal/cronexpr/cronexpr.go:144-144 | the first minute considered is strictly after `after` |
| `Cron.Next` | internal/cronexpr/cronexpr.go:140-166 | the least matching minute strictly after `after` in the window, or none exactly when the window has none; terminates |
| `CronDays.HalvesOnDates` | internal/cronexpr/cronexpr.go:170-176 | with one day field opened, a schedule fires exactly on the dates and times of day the other fields allow |
| `CronDays.EitherDay` | internal/cronexpr/cronexpr.go:168-176 | with both day fields restricted a schedule fires whenever either half does, otherwise when both do |
| `CronDays.NextOfHalves` | internal/cronexpr/cronexpr.go:140-176 | with both restricted, the next occurrence is the earlier of the halves' next ones, in any zone |
| `CronReach.EveryYearIsReached` | internal/cronexpr/cronexpr.go:129-136 | a schedule with an allowed day in common years is found from every start |
| `CronReach.OnlyLeapDays` | internal/cronexpr/cronexpr.go:129-136 | any other schedule fires on 29 February or never |
| `CronReach.GapHasNoMatch` | internal/cronexpr/cronexpr.go:129-132 | a leap-day schedule has no match in a window inside a century gap |
| `CronReach.EmptyWindowIsGap` | internal/cronexpr/cronexpr.go:129-132 | an empty window of a leap-day schedule lies inside such a gap |
| `CronReach.EmptyWindowExactly` | internal/cronexpr/cronexpr.go:134-135 | the window is empty exactly when the schedule never matches or the window lies in a century gap |
| `CronReach.LeapNightGap` | internal/cronexpr/cronexpr.go:129-136 | the window from 1 March 2096 has no firing of a schedule at midnight of 29 February, which fires in 2104 |
| `CronLimits.GivesUpBefore2104` | internal/cronexpr/cronexpr.go:129-136 | the text `0 0 29 2 *`, parsed and searched from 1 March 2096 on: none is found, the window from that start having no match, though it fires in 2104 |
| `CronParse.Expand` | internal/cronexpr/cronexpr.go:108-110 | the loop with 64-bit wrap-around terminates and adds every value its counter takes |
| `CronParse.StepSetIsProgression` | internal/cronexpr/cronexpr.go:101-110 | what a part is meant to allow is the arithmetic progression from its low bound |
| `CronParse.StepsExactly` | internal/cronexpr/cronexpr.go:108-110 | a part allows exactly that progression if and only if its counter does not wrap back into the range |
| `CronParse.HugeStepWalks` | internal/cronexpr/cronexpr.go:108-110 | from 59 by 2^63-1 the counter meets 57, which no progression from 59 holds |
| `CronLimits.HugeStepIsWrong` | internal/cronexpr/cronexpr.go:71-110 | the text `59/9223372036854775807 * * * *` parses to a schedule that allows minute 57 |
| `CronParse.BoundedValue` | internal/cronexpr/cronexpr.go:118-127 | a value that is accepted lies in the field's range |
| `CronParse.ParsePart` | internal/cronexpr/cronexpr.go:68-107 | an accepted part has ordered bounds within the range and a positive step |
| `CronParse.FieldHasValue` | internal/cronexpr/cronexpr.go:108-114 | an accepted field allows some value, so the empty-set error is unreachable |
| `CronParse.ParseField` | internal/cronexpr/cronexpr.go:65-116 | the union of the parts, or the error of the first malformed part |
| `CronParse.NumberRoundTrip` | internal/cronexpr/cronexpr.go:118-122 | every number that fits is read back from its digits |
| `CronParse.PartRoundTrip` | internal/cronexpr/cronexpr.go:68-107 | every part of the grammar, written out, parses to its bounds and step |
| `CronParse.FieldRoundTrip` | internal/cronexpr/cronexpr.go:64-116 | every list of parts, written out, parses to what it denotes |
| `CronParse.FieldMeansProgressions` | internal/cronexpr/cronexpr.go:64-116 | without a wrapping step, that is the union of the progressions the parts spell out |
| `CronParse.StarWithStep` | internal/cronexpr/cronexpr.go:82-110 | the text of a star with a step allows every n-th value from the least, whatever the step |
| `CronParse.ValueWithStep` | internal/cronexpr/cronexpr.go:96-110 | the text `v/n` allows every n-th value from v to the end of the range, `v/1` just v, unless the step wraps back |
| `CronParse.RangeWithStep` | internal/cronexpr/cronexpr.go:84-110 | the text `a-b/n` allows every n-th value from a up to b, unless the step wraps back |
| `CronParse.WithoutStep` | internal/cronexpr/cronexpr.go:82-110 | without a step `*`, `a` and `a-b` allow the range, the value, what lies between |
| `CronParse.StarAllowsAll` | internal/cronexpr/cronexpr.go:82-83 | `*` allows the whole range |
| `CronParse.Parse` | internal/cronexpr/cronexpr.go:44-62 | five fields or an error, the error of the first field that fails; the schedule holds the fields' sets and satisfies what the reach theorem needs |
| `CronLimits.FieldsOfJoin` | internal/cronexpr/cronexpr.go:42-45 | words joined by spaces are found again as the fields |
| `CronLimits.ParseWritten` | internal/cronexpr/cronexpr.go:42-62 | every expression of the grammar, written out, is accepted and parses to what its five fields denote |
| `CronGrammar.FieldsOfSpread` | internal/cronexpr/cronexpr.go:42-48 | however an expression is spaced, its fields are its words |
| `CronGrammar.EveryTextIsSpread` | internal/cronexpr/cronexpr.go:42-48 | every text is its fields with white space around them, and between any two |
| `CronGrammar.AtoiExactly` | internal/cronexpr/cronexpr.go:118-122 | a number is accepted exactly when it is an optional sign and digits, of a value that fits 64 bits |
| `CronGrammar.BoundedExactly` | internal/cronexpr/cronexpr.go:118-127 | a bound is accepted exactly when it is such a number in the range |
| `CronGrammar.ParsePartExactly` | internal/cronexpr/cronexpr.go:68-107 | a part is accepted, with these bounds and this step, if and only if it is a star, an ordered range or a value, alone or before a slash and a positive step |
| `CronGrammar.FieldExactly` | internal/cronexpr/cronexpr.go:65-116 | a field is accepted if and only if every part is, and allows what any part allows |
| `RouteRegex.CharsAccept` | internal/accessroute/accessroute.go:173-176 | a literal accepts itself and nothing else |
| `RouteRegex.ConcatAccepts` | internal/accessroute/accessroute.go:169-194 | two accepted pieces in a row are accepted |
| `RouteRegex.AcceptsConcat` | internal/accessroute/accessroute.go:169-194 | what a concatenation accepts splits into accepted pieces |
| `RouteRegex.ReadWritten` | internal/accessroute/accessroute.go:166-196 | every emitted expression is read back, by a reader that does not share the writer's quoting rules, as the items it was written from |
| `RouteRegex.QuotedChar` | internal/accessroute/accessroute.go:174-190 | every character, quoted, is read back as that literal character by a reader with its own table of operators |
| `RouteRegex.ReadUnreserved` | internal/accessroute/accessroute.go:183-183 | the class written for a free placeholder reads as one or more characters of its four ranges and four single characters |
| `RouteRegex.UnreservedByRanges` | internal/accessroute/accessroute.go:183-183 | those are the letters, digits, `.`, `_`, `~` and `-` |
| `AccessRoutes.ValidateMatchPath` | internal/accessroute/accessroute.go:131-153 | accepts exactly valid segments (with a placeholder for templates) and returns exactly the placeholder names |
| `RoutePatterns.NamePattern` | internal/accessroute/accessroute.go:27-27 | the placeholder-name pattern, read as a regular expression, accepts exactly the names the model accepts |
| `RoutePatterns.MethodPattern` | internal/accessroute/accessroute.go:28-28 | the method pattern accepts exactly the method tokens |
| `RoutePatterns.ValuePattern` | internal/accessroute/accessroute.go:29-29 | the value pattern accepts exactly the segment values, but for `.` and `..` |
| `RoutePatterns.ValidPathExactly` | internal/accessroute/accessroute.go:108-129 | a path is valid exactly when it starts with a slash, has no empty, `.` or `..` segment but for a last empty one, and holds no forbidden character |
| `RoutePatterns.UpperIs` | internal/accessroute/accessroute.go:62-62 | upper-casing changes exactly the lower-case letters, and the two letters beside them whose capital is one of these, each into its capital |
| `AccessRoutes.NormalizeMethods` | internal/accessroute/accessroute.go:56-72 | accepts exactly method tokens; sorted, each upper-cased method once |
| `AccessRoutes.NormalizeValues` | internal/accessroute/accessroute.go:90-101 | accepts exactly segment values; sorted, each once |
| `AccessRoutes.NormalizeParameters` | internal/accessroute/accessroute.go:78-104 | accepts exactly allow-lists of declared placeholders and normalizes every one |
| `AccessRoutes.Validate` | internal/accessroute/accessroute.go:43-106 | accepts exactly acceptable routes; the result is normal, keeps path and meaning, and is accepted again unchanged |
| `RoutePatterns.AcceptableExactly` | internal/accessroute/accessroute.go:43-153 | which routes are accepted, from the text: a known mode, a proper path, segments without colons or, in a template, a colon and a name, at least one such in a template, method tokens, and allow-lists of values for placeholders that occur |
| `RouteRules.WriteGroup` | internal/accessroute/accessroute.go:185-192 | the parenthesized alternatives of an allow-list |
| `RouteRules.WriteSegment` | internal/accessroute/accessroute.go:173-193 | one segment's expression |
| `RouteRules.WriteTemplate` | internal/accessroute/accessroute.go:166-195 | the anchored expression of all segments |
| `RouteRules.PathExpression` | internal/accessroute/accessroute.go:158-200 | the text of the route's matcher |
| `RouteRules.ReadChoiceBack` | internal/accessroute/accessroute.go:164-164 | the two-way choice reads back from its text |
| `RouteRules.ReadSingleBack` | internal/accessroute/accessroute.go:162-198 | a single matcher reads back from its text |
| `RouteRules.TemplateMeaning` | internal/accessroute/accessroute.go:169-194 | the expression accepts a path exactly when its segments match one by one: no segment language holds a slash, so the split is unique |
| `RouteRules.TemplateReads` | internal/accessroute/accessroute.go:166-196 | a validated template's expression reads back and holds no back quote |
| `RouteRules.TemplateRule` | internal/accessroute/accessroute.go:165-196 | a template's rule accepts exactly the paths of the template |
| `RouteRules.PrefixRule` | internal/accessroute/accessroute.go:160-164 | a prefix rule accepts exactly the subtree |
| `RouteRules.RuleMeansRoute` | internal/accessroute/accessroute.go:155-200 | for every validated route and every path, the rule text accepts the path if and only if the route does |
| `RouteRules.TemplateKeepsLead` | internal/accessroute/accessroute.go:222-224 | every path of a template begins with the literal segments before its first placeholder |
| `RouteMethods.MethodExpression` | internal/accessroute/accessroute.go:203-212 | the text of the method alternatives, in order |
| `RouteMethods.MethodsReadBackExactly` | internal/accessroute/accessroute.go:203-212 | the method rule reads back as the methods if and only if none holds a back quote; otherwise it does not read |
| `RouteMethods.MethodRuleMeans` | internal/accessroute/accessroute.go:202-212 | so the method rule of a validated route accepts exactly its methods, or none |
| `RouteMethods.BackQuotedMethod` | internal/accessroute/accessroute.go:28-28 | a validated route whose method rule does not read |
| `RouteRules.CoversExactly` | internal/accessroute/accessroute.go:216-226 | a covered route keeps all its paths at or under the base unless it is the one escape |
| `RouteRules.CoversBySegments` | internal/accessroute/accessroute.go:216-226 | a base covers a validated route exactly when its segments, one trailing slash apart, begin the route's segments before the first placeholder |
| `RouteRules.RootCovers` | internal/accessroute/accessroute.go:216-220 | the empty base and `/` cover every route |
| `RouteRules.DoubleSlashEscapes` | internal/accessroute/accessroute.go:216-226 | base `/a//` covers the validated prefix route `/a/`, which serves `/a/x` |
| `Ingress.StepKeeps` | internal/agent/ingress.go:126-207 | every step keeps occupancy, single use of tokens, and that a reason once sent waits for the run |
| `Ingress.RunKeeps` | internal/agent/ingress.go:126-302 | ... at every state of every run |
| `Ingress.RedeemedOnce` | internal/agent/ingress.go:280-283 | each arming is redeemed at most once |
| `Ingress.OneSessionPerEndpoint` | internal/agent/ingress.go:291-299 | an endpoint has at most one unreleased session |
| `Ingress.OccupiedUntilReleased` | internal/agent/ingress.go:295-299 | whatever else happens, a session keeps its endpoint until its own handler releases it |
| `Ingress.ReleaseFrees` | internal/agent/ingress.go:597-603 | in every run a release frees exactly the session's endpoint |
| `Ingress.EarlyCutIsHonoured` | internal/agent/ingress.go:295-298 | a reason sent between claim and run is there when the session runs |
| `Ingress.CutMissCuts` | internal/agent/ingress.go:177-194 | a cut that finds no live session leaves that name neither armed nor live |
| `Ingress.CutHitCutsExactly` | internal/agent/ingress.go:181-205 | a cut is complete if and only if every other live session of that name has its reason already |
| `Ingress.SharedNameSurvives` | internal/agent/ingress.go:181-187 | a run in which a session shares the name of the one cut and goes on |
| `Ingress.CutStays` | internal/agent/ingress.go:177-207 | every step but a new arming of the name leaves a cut name cut off |
| `Ingress.CutHolds` | internal/agent/ingress.go:177-207 | so does every run |
| `Ingress.CutCompletes` | internal/agent/ingress.go:175-207 | in every run that arms each name once, a cut leaves the session neither armed nor live without an end reason sent or on its way |
| `Ingress.CutIsComplete` | internal/agent/ingress.go:175-207 | ... and so it is at every later state of the run, wherever the handler stands, even if the cut lands between the claim and the run |
| `Ingress.SentIsTold` | internal/agent/ingress.go:196-205 | once its reason has been sent, a session has been told, at every later state |
| `Ingress.SendTells` | internal/agent/ingress.go:196-205 | a reason on its way reaches its session |
| `IngressTokens.LastArming` | internal/agent/ingress.go:159-173 | in every run, a token in the table goes back to its last arming, which nothing has withdrawn |
| `IngressTokens.StaysArmed` | internal/agent/ingress.go:159-194 | an arming stays in the table until the token is armed again, claimed, cut, or forgotten as expired |
| `IngressTokens.GrantedExactly` | internal/agent/ingress.go:273-302 | in every run a claim opens a session if and only if its token was armed for that endpoint, has neither expired nor been withdrawn, and no unreleased session holds the endpoint |
| `IngressTokens.SessionsWereArmed` | internal/agent/ingress.go:273-302 | every session goes back to one claim and from there to an arming of the claim's hash, of the session's endpoint and name, unexpired at the claim |
| `IngressReasons.FirstReasonStays` | internal/agent/ingress.go:196-205 | the first reason sent to a session is there until its run takes it, whatever is sent after |
| `IngressReasons.ReasonsWereGiven` | internal/agent/ingress.go:126-207 | every reason in a session's channel was given by an earlier cut of that session, or by a reload that dropped its endpoint |
| `IngressReasons.ReloadGives` | internal/agent/ingress.go:134-148 | a reload gives a reason to every live session whose endpoint left the table and to no other |
| `IngressReasons.ReloadHolds` | internal/agent/ingress.go:134-148 | at every later state that session has been told, or is about to be |
| `IngressReasons.HandlerCanFinish` | internal/agent/ingress.go:295-388 | wherever an attach stands, at most two steps of its own handler free the endpoint |
| `IngressTable.HostTableHolds` | internal/agent/ingress.go:128-133 | the host table holds the last route of each host and nothing else |
| `IngressTable.Ingress.SetRoutes` | internal/agent/ingress.go:126-148 | the new table; sessions whose endpoint left it are told, all others untouched |
| `IngressTable.Ingress.Arm` | internal/agent/ingress.go:159-173 | forgets what has expired and arms the token |
| `IngressTable.Ingress.Cut` | internal/agent/ingress.go:177-207 | disarms every token of the session, tells one live session of that name and no other, reports whether anything matched |
| `IngressTable.Ingress.Claim` | internal/agent/ingress.go:273-302 | the token is consumed whatever the outcome; exactly a token armed for this endpoint, unexpired, on a free endpoint is granted, with a fresh session of the armed name; expiry and occupancy are refused as such |
| `IngressTable.Ingress.Release` | internal/agent/ingress.go:597-603 | frees the endpoint only for the session that holds it |
| `IngressTable.Ingress.Meanwhile` | internal/agent/ingress.go:126-207 | whatever others arm, cut, reload, claim or release, a session keeps its endpoint |
| `IngressTable.Ingress.AttachWebSocket` | internal/agent/ingress.go:305-388 | on every exit, and whatever others do between claim and release, the endpoint is free again; the claimed and closed notices go out exactly when the session ran |
| `IngressTable.Ingress.AttachControl` | internal/agent/ingress.go:449-522 | the same; a wrong protocol version or attach key does not consume the token |
| `Relay.StepKeeps` | internal/agentrelay/agentrelay.go:110-143 | lookup, dial, install and death keep one owner per connection and lose no live one |
| `Relay.RunKeeps` | internal/agentrelay/agentrelay.go:110-143 | ... at every state of every run |
| `Relay.EveryConnectionAccountedFor` | internal/agentrelay/agentrelay.go:110-143 | a dialed connection is dead, held by exactly one dialer, or cached, and never the last two together |
| `Relay.CallersConverge` | internal/agentrelay/agentrelay.go:128-142 | callers with live connections to one server have the same one, the cached one |
| `Relay.AskReuses` | internal/agentrelay/agentrelay.go:111-121 | in every run, who asks for a server gets the live connection that no dialer holds, and dials exactly when there is none |
| `Relay.InstallSettles` | internal/agentrelay/agentrelay.go:127-142 | in every run, a dialer that finds such a connection takes it and closes its own; otherwise it keeps its own and nothing is closed |
| `Relay.Source.Cached` | internal/agentrelay/agentrelay.go:111-121 | the live cached connection, or none and the dead one forgotten |
| `Relay.Source.Keep` | internal/agentrelay/agentrelay.go:127-142 | a live cached connection wins and the new one is closed; otherwise the new one is cached |
| `Observations.StepKeeps` | internal/agent/agent.go:316-361 | every step of flusher, channel, handler and POST keeps one batch in flight, matched to its acknowledgement |
| `Observations.RunKeeps` | internal/agent/agent.go:316-545 | ... at every state of every run |
| `Observations.OneAckOutstanding` | internal/agent/agent.go:465-545 | at most one frame or acknowledgement is in flight on a channel; none is ever dropped or stale |
| `Observations.AtLeastOnce` | internal/handlers/agent.go:226-256 | batches are completed in order, none skipped or twice; one completed without denial was handed to the ingestion queue, and the channel never denies |
| `Observations.BatchesHoldAll` | internal/agent/agent.go:316-361 | the batches completed and the one in progress hold, together and in order, the observations collected |
| `Observations.OnlyOwnAreHanded` | internal/handlers/agent.go:226-256 | only batches of the flusher reach the ingestion queue, each as it was built |
| `Observations.TransmissionsArriveOnce` | internal/agent/agent.go:465-545 | each frame sent and each POST taken is handed on once or still to be read; every frame has its own number |
| `Observations.DropsAreCounted` | internal/agent/agent.go:465-545 | in any state, an acknowledgement is buffered unless four wait, and then its loss is counted |
| `Observations.AcknowledgesExactly` | internal/agent/agent.go:465-545 | in any state, the acknowledgement of the last frame settles the batch as it says; any other is counted and leaves the flusher waiting |
| `Observations.HandlesExactly` | internal/handlers/agent.go:226-256 | a batch of up to 500 is handed on, a larger one denied; each frame is answered once |
| `PushQueue.PushedKeepsNewest` | internal/agent/agent.go:158-173 | after any series of undisturbed pushes the queue holds the newest observations, in order |
| `PushQueue.Agent.Push` | internal/agent/agent.go:159-173 | whatever others do between its operations: where the observation lands and what the queue then holds; undisturbed, the newest |
| `PushQueue.Agent.CollectBatch` | internal/agent/agent.go:317-338 | whatever others do in each turn of the window: one observation per turn that finds one, in order, up to the limit; what entered the queue left it in order or is still there |
| `PushQueue.QuietWindow` | internal/agent/agent.go:317-338 | if nobody else acts, each turn takes the oldest entry until the queue is empty or the batch full |
| `PushQueue.AfterEach` | internal/agent/agent.go:159-173 | what others do meanwhile takes effect one operation after the other |
| `PushQueue.StepKeeps` | internal/agent/agent.go:159-173 | pushes as three operations each, overlapping one another and the flusher: every step keeps order, accounting and the room that shedding made |
| `PushQueue.RunKeeps` | internal/agent/agent.go:159-173 | ... so does every overlapping run, at each of its states |
| `PushQueue.EveryPushAccountedFor` | internal/agent/agent.go:159-173 | a push is under way, landed once, or dropped, and only one of these; what landed is what left, then the queue, in order |
| `PushQueue.BatchesKeepOrder` | internal/agent/agent.go:316-338 | the batches are what the flusher took, in the order it landed, whatever arrives meanwhile |
| `PushQueue.BatchSizes` | internal/agent/agent.go:316-338 | every batch holds 1 to 100 observations |
| `PushQueue.DropExactly` | internal/agent/agent.go:169-172 | a retry is dropped if and only if the queue is full again: as many more pushes landed than entries left since the shedding as there was room then |
| `PushQueue.DropNeedsOverlap` | internal/agent/agent.go:165-172 | so a push is dropped only if another landed after it had shed |
| `PushQueue.NeedlessExactly` | internal/agent/agent.go:165-168 | a shedding takes from a queue that is not full if and only if more entries left than pushes landed since the push was refused |
| `PushQueue.OverlapDrops` | internal/agent/agent.go:165-172 | a run from the beginning to two overlapping pushes on a full queue: the first sheds, the second lands, the first is dropped |
| `PushQueue.NeedlessShed` | internal/agent/agent.go:160-172 | a run from the beginning to a lone push on a full queue: the flusher takes an entry, and the push sheds another although there is room |
| `PushQueue.UndisturbedKeepsNewest` | internal/agent/agent.go:158-173 | a push with no step of another push or of the flusher between its own lands, and a full queue loses its oldest entry |
| `PushQueue.Fills` | internal/agent/agent.go:159-164 | full queues are reached |
| `Permissions.SplitPerm` | internal/auth/permissions.go:372-388 | a split permission is its two non-empty parts around a colon |
| `Permissions.SplitPermOf` | internal/auth/permissions.go:372-388 | two colon-free parts are found again |
| `Permissions.PrerequisitesAreKnown` | internal/auth/permissions.go:216-225 | prerequisites are in the catalogue and never instance-scoped |
| `Permissions.PrerequisitesExactly` | internal/auth/permissions.go:216-225 | a permission implies its domain's read, if it is another action and the catalogue has that read, and its extras, and nothing else |
| `Permissions.ActionBringsRead` | internal/auth/permissions.go:212-251 | an action on a domain in a closure brings the domain's read |
| `Permissions.ExtrasAreBrought` | internal/auth/permissions.go:199-251 | a permission in a closure brings its extras |
| `Permissions.NothingElseIsBrought` | internal/auth/permissions.go:227-251 | whatever a closure holds that was not asked for is the read or an extra of another member |
| `Permissions.ClosureUnique` | internal/auth/permissions.go:227-230 | a set has one closure |
| `Permissions.ClosureMonotone` | internal/auth/permissions.go:227-230 | more permissions, a larger closure |
| `Permissions.ClosureIdempotent` | internal/auth/permissions.go:227-230 | a closure is its own closure |
| `Permissions.Walk` | internal/auth/permissions.go:232-241 | terminates; adds what the permission implies and nothing that a closed superset lacks |
| `Permissions.Closure` | internal/auth/permissions.go:230-251 | the least prerequisite-closed superset, sorted, without duplicates |
| `Permissions.HasExactly` | internal/auth/auth.go:36-49 | `root` grants everything, a permission itself, and `write`, `read:sensitive` and `deploy` grant `read`; nothing else grants |
| `Permissions.HasMonotone` | internal/auth/auth.go:36-49 | a larger set grants at least as much |
| `Permissions.ClosureStaysInTeam` | internal/auth/permissions.go:291-301 | team-scoped permissions imply nothing instance-scoped |
| `Permissions.ValidateCustomPermissions` | internal/auth/permissions.go:304-321 | an accepted role is the closure asked for, team-scoped throughout and held by the composer; a refusal names the first offender |
| `Permissions.ProjectScopes` | internal/auth/permissions.go:257-275 | for any scope strings: every permission whose coarse scope is among them, all of them for `root`, and what these imply; sorted |
| `Permissions.EffectivePermissions` | internal/auth/permissions.go:351-369 | for any scope strings: the scopes and that closure, sorted; closed when the scopes are coarse, and in general exactly when what they imply is there |
| `Permissions.ExpandGranular` | internal/auth/permissions.go:328-342 | the closure with the coarse scope of each member, sorted; still closed |
| `Permissions.Intersect` | internal/auth/middleware.go:239-251 | exactly the common permissions, in the first list's order |
| `Permissions.ClosedIntersection` | internal/auth/middleware.go:235-251 | two closed sets meet in a closed set |
| `Permissions.CappedHas` | internal/auth/middleware.go:235-251 | a capped set grants exactly what a common permission grants, hence only what both sides grant |
| `Permissions.CapMayLoseRead` | internal/auth/auth.go:41-46 | both sides grant `read` and the capped set does not |
| `Permissions.CapMayLoseUnderRoot` | internal/auth/auth.go:38-40 | one side grants anything as `root`, the other names it, and the capped set does not grant it |
| `Permissions.CapKeepsGranular` | internal/auth/auth.go:36-49 | for any other permission, and without `root`, the cap grants exactly what both grant |
| `Permissions.Identity.BoundToCreator` | internal/auth/middleware.go:214-233 | the capped set is within both the token's and the creator's, and closed if the token's was; nothing for a creator who left |
| `Permissions.CatalogueIsSound` | internal/auth/permissions.go:136-210 | the shipped catalogue satisfies what the theorems ask of one |
| `Text.LeExactly` | internal/auth/permissions.go:249-249 | the order of names: one begins the other, or the first difference is smaller in it |
| `Text.TrimExactly` | internal/cronexpr/cronexpr.go:119-119 | trimming takes white space off both ends, all of it and nothing else |
| `EditDistance.DistanceZero` | internal/config/config.go:596-614 | the distance is zero exactly for equal strings |
| `EditDistance.DistanceSymmetric` | internal/config/config.go:596-614 | it is symmetric |
| `EditDistance.TriangleInequality` | internal/config/config.go:596-614 | it satisfies the triangle inequality |
| `EditDistance.NoShorterChain` | internal/config/config.go:596-614 | no chain of single edits is shorter than the distance |
| `EditDistance.ShortestChain` | internal/config/config.go:596-614 | some chain is as short as the distance |
| `EditDistance.FillRow` | internal/config/config.go:603-610 | one row of the table from the row above it, in place |
| `EditDistance.Levenshtein` | internal/config/config.go:596-614 | the two-row table computes that distance |
| `EditDistance.ClosestKey` | internal/config/config.go:586-594 | the first key at the least distance when that is below four, otherwise nothing |

## Left out

- Waker.CulpritExactly: the converse shows a log and state that satisfy everything `WakeResource` ensures of a timeout; that some run of it ends there is not stated.
- Waker.WakeResource: starts after the resource lookup; the per-resource gate, `OnWake`, the fallback wake set of a resource without one and the thirty-second limit on a rollback are not modelled. It asks for distinct, non-empty container names (with a duplicate the success test at internal/agent/waker.go:635 could never hold) and a positive poll.
- Executor.PumpReader: a pump is run on a finite list of reads; a pump that is still going is the case in which the list ends.
- Executor.Execute: the unary dispatch, the decoding of parameters and the table behind `Cancel` are an outcome or a parameter of the model.
- The routing of input chunks to the stdin of an exec: one table lookup and a write to the daemon's socket, whose failure is only logged.
- Observations.AtLeastOnce: ends where a batch is handed to the control plane's queue; that queue sheds when it is full (internal/handlers/agent.go:60-67), and its worker is not modelled.
- AccessRoutes.Validate: says when a route is refused, not with which message.
- RouteRules.RuleMeansRoute: the rule text is read by a reader for the matchers and the fragment of regular expressions that occur, with its own table of operators, since the proxy's own parser and regular expression engine are foreign code. The same holds of `RouteMethods.MethodRuleMeans`.
- Cron.Next: zones with transitions, such as daylight saving, are not modelled.
- IngressTable.Ingress.AttachWebSocket: others act at one point, between the claim and what follows it; every finer interleaving is a run of `Ingress`. Secondary lanes and HTTP streams, which claim nothing, are not modelled, and neither are the tunnel and the relay behind a session.
- IngressTable.Ingress.Arm: takes the token's hash already in lower case.
- Relay.Source.Keep: the closing of an already dead cached connection shows only as its being dead. `Source.Close` is not modelled.
- Permissions.Identity.BoundToCreator: the creator's permissions are a parameter; roles and the query for them are not modelled.
- ServiceGraph.ValidateAndPlan: the other checks of a compose file, each settled by one branch, and the plan built from the order.
- HTTP handlers, pages, metrics, TLS, JSON and YAML decoding, and cryptography.
