# Verified models of thttpd-rs and its migration proxy

This project models, in Dafny, the parts of the Rust port of thttpd and of its migration proxy that keep state over
long runs, and proves what those parts promise for every input, run and reachable state.

- **Bandwidth throttling and the event loop** (`Glob`, `Throttle`, `EventLoop`, `ServerRuns`, `ServerTheorems`,
  `ServerRates`, `ServerLimits`, `ServerShares`, `ServerProgress`, `ServerAnswers`, `ServerLoop`). A server is a table
  of rules, a slab of connections, a poll registration and a clock. `EventLoop` defines every handler as one step,
  with the bytes each socket accepts chosen freely; `ServerRuns` proves that every step keeps one invariant;
  `ServerTheorems`, `ServerRates`, `ServerLimits`, `ServerShares`, `ServerProgress` and `ServerAnswers` state the
  promises for every sequence of events from an empty server; `ServerLoop` is the loop as an object whose methods
  update the slab, the poller and the rule table in place, each proved to take the step the theorems are about.
- **Circuit breakers, routing and the control plane** (`Breaker`, `Router`, `Handlers`, `Proxy`, `ControlPlane`).
  Breakers are objects proved against step functions; `Router.Pool.Decide` and the methods of `Handlers` follow the
  source branch by branch, with an arbitrary environment acting wherever they read or wait, and state what they have
  told the breakers on each exit. `Proxy` interleaves breaker calls of any number of tasks freely; all it knows of a
  task is what those methods are proved to have done wherever others may act and when they return. `ControlPlane`
  covers every sequence of weight updates and rollbacks.
- **The request recogniser** (`RequestFsm`, `RequestGrammar`): the 13-state scanner against the Simple-Request and
  Full-Request grammar of section 5 of RFC 1945, read as leniently as the source reads it.
- **Fast forms against simple meanings** (`Timers`, `MmapCache`): the lazy-cancel timer heap against a map of live
  timers, the mapping cache against file contents.
- **Printers, parsers and streams** (`Calendar`, `HttpDate`, `Url`, `CappedBody`): HTTP dates of section 7.1.1.1 of
  RFC 7231, percent coding of sections 2.1 and 2.3 of RFC 3986, path normalization, capped copies of streamed bodies.

How the models speak about the world:

- Sockets, files, the clock, CGI programs and random numbers are parameters or free choices of a step. One handler
  sees one time. Times are nanoseconds.
- Breaker calls and control commands are atomic. In `Router` and `Handlers`, `Pool.Interfere` stands for everybody
  else: callers know only its contract, so what is proved holds for every behaviour that contract allows. The ghost
  parameter `others` says how much that is: anything, anything but control commands, or nothing.
- Fields named `wire`, `cgiCharged`, `freeBody`, `retired`, `flushed`, `claimer`, `log` and `acts` record history for
  the statements; no step of the program reads them.

Where a promise is not kept by the code as it stands, the model follows the code and the exact condition is proved:

- A fair share that truncates to 0 switches the cap off, so a rule with more senders than bytes per second is not
  enforced (`ServerTheorems.ZeroLimitIsNotEnforced`, `ServerLimits.CrowdBreaksTheCap`). Every run keeps the plain cap
  if and only if each rule that may admit anybody is at least as large as the connection table
  (`ServerLimits.CapHoldsInEveryRunIff`). `CapHoldsIffShareOrFit` and `ShareIsPositiveIff` give the condition per
  write, `RateBoundWithoutOversubscription` the bound for single runs, and `RateBound` the bound for all runs with the
  uncapped bytes counted apart.
- The shares that a recomputation would give fit a rule's limit, but the shares in force do not: they are only
  recomputed on resumption, and may add up to limit/1 + limit/2 + ... + limit/n, which is exact
  (`ServerShares.SharesInForce`, `ServerShares.SharesInForceAttained`).
- A rule with a positive minimum never admits anybody, since its rate starts at 0 and cannot rise
  (`ServerLimits.MinimumLocksOut`).
- A refusal restores the rule table only if no count on the way was negative (`Throttle.RefusalRestoresIff`); no
  reachable server has a negative count (`ServerRuns.SlotsAreNonNegative`).
- The breaker's comments expect the probe's own outcome to resolve a half-open breaker. A late report of a request
  admitted before the trip does so as well (`Proxy.LateReportResolvesAnothersProbe`); `Proxy.ResolverIsClaimerIff` is
  the exact condition.
- A routing decision may give up with candidates it has not tried: exactly when some round reads weight 0 for all that
  are left (`Router.Pool.Decide`), as after a rollback in between (`ControlPlane.RollbackStarvesADecision`).
- `TimerWheel::reset` documents that it answers `None` unless the timer is live, but it revives a cancelled timer that
  is still in the heap (`Timers.CancelledThenReset`; the condition is in the contract of `Timers.TimerWheel.Reset`).
- A periodic timer is due again in the same run if and only if its period is zero and the clock stood still
  (`Timers.RefiresIff`), and then the loop goes round in place (`Timers.TimerWheel.FireInPlace`).
- The expiry age of the mapping cache reaches zero after 37 cleanups with an oversize file held, and then stays zero
  over every further run (`MmapCache.ExpiryReachesZeroIff`, `MmapCache.ZeroExpiryStays`).
- The weekday of a printed HTTP date is counted from a Sunday, but 1970 began on a Thursday: it is wrong for every
  date of the first 2^31 days (`HttpDate.WeekdayIsWrong`, `HttpDate.SundayIsPrintedAsWednesday`), and right exactly
  under the condition of `HttpDate.WeekdayIsRightIff`. The parser ignores it.
- An RFC 850 date is read back if and only if its year is at most 2069 (`HttpDate.Rfc850RoundTrip`).
- The recogniser takes a request line whose first word is empty; the grammar here says so.

Verify with `dafny verify dfyconfig.toml`.

## Model

| member | source | states |
|---|---|---|
| `ServerTheorems.SlotsCountSenders` | rust/crates/thttpd-core/src/eventloop.rs:2218-2266 | after every sequence of events from an empty server, each rule's `num_sending` is exactly the number of live connections whose `tnums` list it |
| `ServerTheorems.SharesFitTheLimit` | rust/crates/thttpd-core/src/throttle.rs:231-245 | in every reachable state the fair shares that a recomputation would hand to all senders of a rule sum to at most its `max_limit` |
| `ServerShares.SharesInForce` | rust/crates/thttpd-core/src/throttle.rs:184-189 | in every reachable state the shares in force of a rule's n senders, computed when each was admitted or last resumed, add up to at most limit/1 + limit/2 + ... + limit/n |
| `ServerShares.SharesInForceAttained` | rust/crates/thttpd-core/src/throttle.rs:184-189 | that bound is attained: n connections admitted one after the other on a path that only this rule matches hold exactly that sum, for every limit and every n up to the table size |
| `ServerShares.SharesInForceOverrun` | rust/crates/thttpd-core/src/eventloop.rs:2218-2266 | so the shares in force do not fit the limit: two such senders exceed every limit of two or more |
| `ServerShares.StepInOrder` | rust/crates/thttpd-core/src/eventloop.rs:59-207 | every event keeps an order of the senders in which each share is at most the limit divided by the sender's rank |
| `ServerTheorems.RateBound` | rust/crates/thttpd-core/src/eventloop.rs:2001-2153 | in every reachable state `body_bytes == max(0, bytes_sent - header_len)`, and in the time since it started (a first second counted in full, nanoseconds otherwise) a connection has sent at most limit per second under every listed rule, plus only what was written while its share was not positive |
| `ServerTheorems.ElapsedIsTime` | rust/crates/thttpd-core/src/eventloop.rs:2018-2024 | the seconds the send handler reckons with are the whole seconds of the time since the start, from both sides, and at least one |
| `ServerTheorems.PausedHasUsedItsWindow` | rust/crates/thttpd-core/src/eventloop.rs:2030-2044 | a connection that the send handler pauses has sent all its headers and at least its share for every whole second since the start, loses nothing, and is paused for exactly one second |
| `ServerTheorems.SendIsGreedy` | rust/crates/thttpd-core/src/eventloop.rs:2012-2113 | nothing is held back: a socket that takes n bytes gets n, or all that is left, or headers and body up to the share for every whole second; the connection lingers if and only if its response is whole |
| `ServerTheorems.PauseIsKept` | rust/crates/thttpd-core/src/eventloop.rs:2115-2120 | before its deadline no event, resumption or periodic update touches a paused connection |
| `ServerTheorems.ResumeRecomputes` | rust/crates/thttpd-core/src/eventloop.rs:2122-2126 | once its deadline has passed, whoever notices gives the connection the fair share of the present senders |
| `ServerTheorems.TickLeavesNobodyBehind` | rust/crates/thttpd-core/src/eventloop.rs:152-190 | the periodic update resumes every pause that is over and leaves sending, reading and lingering connections alone |
| `ServerTheorems.ConnectionsEnd` | rust/crates/thttpd-core/src/eventloop.rs:265-280 | a hang-up while reading, a failed write and any event while lingering end exactly that connection; a socket that would block changes nothing |
| `ServerRates.RateBoundWithoutOversubscription` | rust/crates/thttpd-core/src/eventloop.rs:2001-2153 | over every run in which no rule has more senders than bytes per second, every sender's share is positive and body bytes times 10^9 are at most the limit times max(10^9, nanoseconds since the start) under every rule it is listed on, across pauses and recomputed shares |
| `ServerTheorems.CapHoldsIffShareOrFit` | rust/crates/thttpd-core/src/eventloop.rs:2010-2028 | from a connection within the cap, every amount the socket may take stays within it if and only if the share is positive or the whole body fits anyway |
| `ServerTheorems.ShareIsPositiveIff` | rust/crates/thttpd-core/src/throttle.rs:231-245 | a recomputed share is positive if and only if every listed rule has at least as many bytes per second as senders |
| `ServerTheorems.ZeroLimitIsNotEnforced` | rust/crates/thttpd-core/src/eventloop.rs:2010-2028 | the plain cap is false of the code: under a limit of 0 a run of three events sends a whole body, of any length, at once |
| `ServerLimits.CapHoldsInEveryRunIff` | rust/crates/thttpd-core/src/eventloop.rs:2010-2028 | the plain cap, limit times time, is kept by every run of every length if and only if each rule that may admit anybody allows at least as many bytes per second as the connection table has slots (4096); both can be read off the loaded rules |
| `ServerLimits.AmpleKeepsTheCap` | rust/crates/thttpd-core/src/eventloop.rs:2010-2028 | with such rules no run sends more than the limit per second of time since the start, under any listed rule |
| `ServerLimits.CrowdBreaksTheCap` | rust/crates/thttpd-core/src/eventloop.rs:210-235 | for every smaller rule that may admit, a run with one sender more than bytes per second sends more than the limit allows |
| `ServerLimits.ClosedPathsStayClosed` | rust/crates/thttpd-core/src/throttle.rs:170-178 | in every run a path that matches a rule with a negative maximum or a positive minimum is refused for ever, and whoever is admitted asked for a path that matches none |
| `ServerLimits.MinimumLocksOut` | rust/crates/thttpd-core/src/throttle.rs:170-178 | in every run a rule with a positive minimum has no sender, is never charged, keeps rate 0 and refuses every request it is matched for |
| `ServerLimits.StepSane` | rust/crates/thttpd-core/src/eventloop.rs:59-207 | every event keeps the rules as configured, at most 4096 slots, listings of rules that may admit, and idle rules idle |
| `ServerLimits.TableIsBounded` | rust/crates/thttpd-core/src/eventloop.rs:210-235 | no run holds more than 4096 connections |
| `ServerLimits.LateNewcomer` | rust/crates/thttpd-core/src/eventloop.rs:210-235 | as many connections as a rule has bytes per second can be open and asking, and the next one's share is then 0 |
| `ServerLimits.ChargeKeepsIdle` | rust/crates/thttpd-core/src/throttle.rs:220-227 | charging never reaches a rule with a positive minimum |
| `ServerTheorems.EveryConnectionHasAWakeSource` | rust/crates/thttpd-core/src/eventloop.rs:2030-2153 | in every reachable state Reading and Lingering slots are armed readable, Sending ones writable, Pausing ones are not registered and have a deadline at most a second ahead; the poller knows nobody else |
| `ServerTheorems.WireIsAResponsePrefix` | rust/crates/thttpd-core/src/eventloop.rs:2046-2113 | in every reachable state the bytes the peer was sent are exactly the first `bytes_sent` bytes of the response |
| `ServerTheorems.LingeringResponsesAreWhole` | rust/crates/thttpd-core/src/eventloop.rs:2313-2333 | in every reachable state a lingering connection has sent its whole response |
| `ServerAnswers.LingeringGotItsPage` | rust/crates/thttpd-core/src/eventloop.rs:1284-1335 | in every reachable state the wire of a lingering connection is, byte for byte, the page of the request it made, or the 503 page exactly when some rule that the path matched was over its limits when it asked |
| `ServerAnswers.EveryAnswerWasAskedFor` | rust/crates/thttpd-core/src/eventloop.rs:1276-1335 | in every reachable state the response of a connection past reading is the one that its own last request was to get, given the rules at that moment |
| `ServerAnswers.StepAnswers` | rust/crates/thttpd-core/src/eventloop.rs:59-207 | one event leaves a response as it was or answers the request that the event carries |
| `ServerAnswers.ReadAnswers` | rust/crates/thttpd-core/src/eventloop.rs:332-436 | an incomplete request changes nothing, a hang-up removes the connection, and every other request starts sending its page, or the 503 page exactly when a matched rule is over its limits, from the first byte, with that page's header length exempt, the clock started and the matched rules listed; nobody else's slot changes |
| `ServerAnswers.AnswerIsGranted` | rust/crates/thttpd-core/src/eventloop.rs:2218-2266 | a throttled answer is sent under exactly the rules, share and floor that the admission check granted |
| `ServerAnswers.CgiCharges` | rust/crates/thttpd-core/src/eventloop.rs:1834-1904 | an admitted CGI request charges 25000 bytes to each rule its script matches if it ran, nothing otherwise, and holds no slot |
| `ServerProgress.EveryResponseFinishes` | rust/crates/thttpd-core/src/eventloop.rs:2001-2153 | from every reachable state a connection that is sending or paused, whatever its share, finishes its response within as many one-second rounds (a second passes, due pauses are resumed, a sending slot is reported writable) as its body has bytes |
| `ServerProgress.LateRoundFinishes` | rust/crates/thttpd-core/src/eventloop.rs:2001-2153 | whatever happened before, one round taken once a connection has been sending for as many seconds as its body has bytes finishes the response |
| `ServerProgress.RoundEffect` | rust/crates/thttpd-core/src/eventloop.rs:2115-2153 | a round leaves an active connection active or finished, and finishes it when its window covers the body or its share is not positive |
| `ServerTheorems.ResumeLeavesNobodyBehind` | rust/crates/thttpd-core/src/eventloop.rs:309-329 | once the collected paused slots were resumed, no pause that is over is left in the table, also for slots that closed or paused again meanwhile |
| `ServerTheorems.ChargesAreBodiesAndCgiRuns` | rust/crates/thttpd-core/src/eventloop.rs:2072-2092 | over every run, everything ever charged to a rule equals the body bytes written by the connections admitted on it, live or closed, plus one flat charge per completed CGI run admitted on it |
| `ServerTheorems.Step` | rust/crates/thttpd-core/src/eventloop.rs:59-207 | every event of the loop keeps the whole invariant (slots, ledger, rate, registrations, prefix) and every rule's limit |
| `ServerTheorems.HandleEvent` | rust/crates/thttpd-core/src/eventloop.rs:265-280 | dispatching a poll event on the slot's phase keeps the invariant and every limit; a slot that is gone is ignored |
| `ServerTheorems.ResumeAll` | rust/crates/thttpd-core/src/eventloop.rs:309-329 | resuming any list of slots, with any socket answers, keeps the invariant, the clock and every limit |
| `ServerRates.StepCapped` | rust/crates/thttpd-core/src/eventloop.rs:2001-2153 | an event between two states without oversubscribed rules keeps every sender's share positive and lets nobody write uncapped |
| `ServerRates.ReadOpens` | rust/crates/thttpd-core/src/eventloop.rs:2218-2266 | on each of the three admission paths the new sender's limit is the fair share of the table that admission leaves behind |
| `ServerRuns.AcceptKeeps` | rust/crates/thttpd-core/src/eventloop.rs:210-262 | accepting a stream, refusing it when full, or failing to register it keeps the invariant |
| `ServerRuns.CloseKeeps` | rust/crates/thttpd-core/src/eventloop.rs:2336-2424 | closing in any phase gives back exactly the slots held and moves what the connection owes to the closed ones |
| `ServerRuns.LingerKeeps` | rust/crates/thttpd-core/src/eventloop.rs:2313-2333 | finishing a response keeps slots and ledger and re-arms the slot for reading |
| `ServerRuns.PauseKeeps` | rust/crates/thttpd-core/src/eventloop.rs:2030-2044 | pausing deregisters the slot, sets its deadline and changes no account |
| `ServerRuns.WriteKeepsRate` | rust/crates/thttpd-core/src/eventloop.rs:2012-2092 | one write within the offered limit keeps the body within `limit * elapsed` of every listed rule |
| `ServerRuns.WriteAccounts` | rust/crates/thttpd-core/src/eventloop.rs:2072-2092 | charging the body part of a write to the listed rules changes each rule by exactly what the connection newly owes it; header bytes are free |
| `ServerRuns.WriteKeeps` | rust/crates/thttpd-core/src/eventloop.rs:2046-2113 | a write of any size the socket may take keeps the invariant, whether or not the response is then complete |
| `ServerRuns.SendKeeps` | rust/crates/thttpd-core/src/eventloop.rs:2001-2113 | the whole send handler keeps the invariant on each of its exits |
| `ServerRuns.HandlePauseKeeps` | rust/crates/thttpd-core/src/eventloop.rs:2115-2153 | resuming after a pause recomputes the share, registers anew and keeps the invariant |
| `ServerRuns.TickKeeps` | rust/crates/thttpd-core/src/eventloop.rs:152-190 | the periodic update moves the averaged bytes out of the windows without losing any, wakes whoever is due, and keeps the invariant |
| `ServerRuns.AdvanceKeeps` | rust/crates/thttpd-core/src/eventloop.rs:2018-2024 | time passing never breaks the rate bound or a deadline |
| `ServerRuns.AdmissionGrants` | rust/crates/thttpd-core/src/throttle.rs:159-206 | an admission lists distinct existing rules, each with a non-negative limit that bounds the granted share |
| `ServerRuns.AnswerKeeps` | rust/crates/thttpd-core/src/eventloop.rs:2181-2310 | starting an answer that was not checked before takes exactly the granted slots, or replaces the page by the 503 page and takes none |
| `ServerRuns.StaticKeeps` | rust/crates/thttpd-core/src/eventloop.rs:1276-1335 | the pre-check for static files takes each slot once although sending passes the admission code again |
| `ServerRuns.CgiKeeps` | rust/crates/thttpd-core/src/eventloop.rs:1666-1708 | a CGI request gives its slots back before its output is sent, is charged at most once, and is not admitted again |
| `ServerRuns.CgiAccounts` | rust/crates/thttpd-core/src/eventloop.rs:1834-1904 | take, charge, give back: what remains of a completed run is the flat charge on each granted rule, and nothing when it did not run |
| `ServerRuns.SlotsAreNonNegative` | rust/crates/thttpd-core/src/throttle.rs:210-217 | the invariant implies that no sender count is negative |
| `ServerLoop.Loop.HandleAccept` | rust/crates/thttpd-core/src/eventloop.rs:210-262 | updates slab and poller as one accept step |
| `ServerLoop.Loop.CloseConnection` | rust/crates/thttpd-core/src/eventloop.rs:2336-2424 | updates table, slab and poller as one close step |
| `ServerLoop.Loop.TransitionToLingering` | rust/crates/thttpd-core/src/eventloop.rs:2313-2333 | updates slab and poller as the lingering step |
| `ServerLoop.Loop.TransitionToSending` | rust/crates/thttpd-core/src/eventloop.rs:2181-2310 | admits, fills the slot's throttle fields in the source's order, and is the sending step on every path |
| `ServerLoop.Loop.ServeStatic` | rust/crates/thttpd-core/src/eventloop.rs:1276-1335 | the pre-check followed by the sending transition is the static step |
| `ServerLoop.Loop.DispatchCgi` | rust/crates/thttpd-core/src/eventloop.rs:1666-1708 | admission, run, charge and release in place are the CGI step |
| `ServerLoop.Loop.HandleRead` | rust/crates/thttpd-core/src/eventloop.rs:332-436 | a readable event takes the step of what the request turned out to be |
| `ServerLoop.Loop.HandleSend` | rust/crates/thttpd-core/src/eventloop.rs:2001-2113 | computing the window, pausing, writing and accounting in place are the send step |
| `ServerLoop.Loop.Account` | rust/crates/thttpd-core/src/eventloop.rs:2072-2113 | the bookkeeping after a write is the write step, also when only header bytes went out |
| `ServerLoop.Loop.HandlePause` | rust/crates/thttpd-core/src/eventloop.rs:2115-2153 | resuming in place is the pause step followed by the send step |
| `ServerLoop.Loop.HandleConnectionEvent` | rust/crates/thttpd-core/src/eventloop.rs:265-280 | under the invariant every handler may be called and the dispatch is the event step |
| `ServerLoop.Loop.ResumeReady` | rust/crates/thttpd-core/src/eventloop.rs:309-329 | whatever order the slab gives, every slot that was due is resumed, and the result is the resume step for that order |
| `ServerLoop.Loop.ThrottleUpdate` | rust/crates/thttpd-core/src/eventloop.rs:152-190 | averages and wake-up loop in place are the tick step |
| `ServerLoop.Loop.WakeAll` | rust/crates/thttpd-core/src/eventloop.rs:162-190 | visiting the slots in any order wakes exactly the due throttled ones |
| `ServerLoop.Loop.WakeOne` | rust/crates/thttpd-core/src/eventloop.rs:164-190 | wakes the slot exactly when it is paused, throttled and over its deadline, with the recomputed share |
| `ServerLoop.Loop.PollTimeout` | rust/crates/thttpd-core/src/eventloop.rs:106-115 | the poll timeout is the least of the pause, timer and throttle deadlines: it bounds each, is one of them, and is 60 s exactly without any |
| `Throttle.ThrottleTable.CheckRequest` | rust/crates/thttpd-core/src/throttle.rs:159-206 | the rule walk with rollback yields the declarative decision on any table: first ten matching rules, refusal if any is over, fair share and floor otherwise, and the table that goes with it, negative counts on the way reset |
| `Throttle.ThrottleTable.WalkRules` | rust/crates/thttpd-core/src/throttle.rs:163-206 | the walk ends with every match up to the tenth taken, or at the first refusing match with every slot given back |
| `Throttle.ThrottleTable.Consider` | rust/crates/thttpd-core/src/throttle.rs:170-196 | one round passes over, refuses with every slot given back, or takes a slot from a count that is not negative |
| `Throttle.CheckTakesListedSlots` | rust/crates/thttpd-core/src/throttle.rs:159-206 | admission adds one sender to exactly the granted rules; refusal or no match leaves every rule as it was |
| `Throttle.RefusalRestoresIff` | rust/crates/thttpd-core/src/throttle.rs:171-181 | a refusal leaves the table as it was if and only if no matching rule in front of the refusing one had a negative count |
| `Throttle.MatchedAreMatches` | rust/crates/thttpd-core/src/throttle.rs:166-170 | every listed rule matches the path |
| `Throttle.MatchedIsComplete` | rust/crates/thttpd-core/src/throttle.rs:166-170 | a matching rule is left out only when ten earlier rules matched |
| `Throttle.AdmittedLimitsAreNonNegative` | rust/crates/thttpd-core/src/throttle.rs:171-178 | with non-negative rates no rule with a negative limit ever admits |
| `Throttle.BumpUndone` | rust/crates/thttpd-core/src/throttle.rs:210-217 | releasing what was taken restores the table, for every list of indexes |
| `Throttle.ThrottleTable.Clear` | rust/crates/thttpd-core/src/throttle.rs:210-217 | takes one sender off per listing; unknown indexes are skipped |
| `Throttle.ThrottleTable.AddBytes` | rust/crates/thttpd-core/src/throttle.rs:220-227 | charges every listed rule once per listing and no other |
| `Throttle.ThrottleTable.FairShareFor` | rust/crates/thttpd-core/src/throttle.rs:231-245 | the loop computes the fold of the per-rule shares over the listings that exist; unknown ones are skipped |
| `Throttle.FairShareIsMinimum` | rust/crates/thttpd-core/src/throttle.rs:231-245 | with non-negative limits that fold, with -1 as its start, is the minimum over the listed rules and is attained |
| `Throttle.ThrottleTable.UpdateAverages` | rust/crates/thttpd-core/src/throttle.rs:249-260 | every rule's rate becomes the rolling average and its window is emptied |
| `Throttle.Averaged` | rust/crates/thttpd-core/src/throttle.rs:256-260 | the window is emptied, limits and senders stay, and the new rate lies between 0 and the larger of the old rate and the window's rate |
| `Throttle.AverageIs` | rust/crates/thttpd-core/src/throttle.rs:256-260 | the new rate is (2 * old + bytes / 2) / 3 rounded down: 6 r' <= 4 r + bytes < 6 r' + 6 |
| `Throttle.DecisionIs` | rust/crates/thttpd-core/src/throttle.rs:159-206 | no limit if and only if no rule matches; refusal if and only if some matched rule's rate is more than twice its maximum or below its minimum; otherwise all matched rules are listed |
| `Throttle.GrantIs` | rust/crates/thttpd-core/src/throttle.rs:184-206 | the share granted is the least of the matched maxima, each divided by its senders with this one counted, the floor the greatest of the matched minima; both are attained |
| `Glob.MatchPattern` | rust/crates/thttpd-match/src/lib.rs:9-18 | true if and only if some alternative between the bars, read as tokens, lets the name be cut into consecutive pieces that the tokens take |
| `Glob.MatchSingle` | rust/crates/thttpd-match/src/lib.rs:25-83 | the backtracking search for one alternative is sound, complete and terminating |
| `Glob.TokensRead` | rust/crates/thttpd-match/src/lib.rs:25-83 | `?`, `**`, `*` and every other byte are read as the four tokens |
| `Glob.TokensTake` | rust/crates/thttpd-match/src/lib.rs:25-83 | `?` takes one byte, `*` a run without a slash, `**` any run, a literal itself |
| `Glob.TryFrom` | rust/crates/thttpd-match/src/lib.rs:38-71 | the star branches try exactly the positions a slash-free, or any, run can reach |
| `Glob.DenotesOneByte` | rust/crates/thttpd-match/src/lib.rs:29-79 | a token for one byte matches if and only if both cursors can move by one |
| `Breaker.AlwaysCoherent` | rust/crates/thttpd-migrate/src/circuit.rs:74-224 | after every sequence of calls the probe flag is set exactly in HalfOpen and `opened_at` exactly when not Closed |
| `Breaker.Admit` | rust/crates/thttpd-migrate/src/circuit.rs:129-185 | in every state admission succeeds if and only if the read-only check says yes, and only a granted admission changes the breaker, to half-open with its probe claimed |
| `Breaker.ProbesAreSpaced` | rust/crates/thttpd-migrate/src/circuit.rs:154-185 | two probe admissions of any history are separated by a resolving call and by at least the cool-off |
| `Breaker.OutageAdmitsFew` | rust/crates/thttpd-migrate/src/circuit.rs:154-185 | a stretch of length L during which the breaker never closes admits at most L / COOL_OFF + 1 requests |
| `Breaker.AdmissionsTakeTime` | rust/crates/thttpd-migrate/src/circuit.rs:154-185 | n admissions of such a stretch take at least n - 1 cool-offs |
| `Breaker.AfterProbe` | rust/crates/thttpd-migrate/src/circuit.rs:74-185 | since a probe: nothing but refused admissions, or it was resolved and any later opening is stamped after it |
| `Breaker.CircuitBreaker.CanRoute` | rust/crates/thttpd-migrate/src/circuit.rs:129-142 | answers the routability of the current state and changes nothing |
| `Breaker.CircuitBreaker.TryAdmit` | rust/crates/thttpd-migrate/src/circuit.rs:154-185 | claims the single probe exactly when cooled off and free |
| `Breaker.CircuitBreaker.Record` | rust/crates/thttpd-migrate/src/circuit.rs:83-115 | the fields after a report are those of the step function that `ClosedIff`, `TripsAtOnce`, `StaleWindowIsForgotten` and `ProbeOutcome` characterise |
| `Breaker.ClosedIff` | rust/crates/thttpd-migrate/src/circuit.rs:83-115 | for any calls within the window of a fresh breaker: it has stayed closed after n of them if and only if after each m <= n fewer than `min_requests` reports were made or the failures are at most threshold times reports; its counters are then those numbers |
| `Breaker.TripsAtOnce` | rust/crates/thttpd-migrate/src/circuit.rs:108-114 | the first report for which that fails opens the breaker, stamped with its time and with an empty window |
| `Breaker.StaleWindowIsForgotten` | rust/crates/thttpd-migrate/src/circuit.rs:96-103 | a report later than `window_secs` after the window's start forgets everything before it: from then on the breaker is that of a history that starts there, whatever follows |
| `Breaker.RecordCounts` | rust/crates/thttpd-migrate/src/circuit.rs:96-115 | within the window a report adds one to the total and a failure one to the errors, and trips exactly when the counts are no longer tolerable |
| `Breaker.ProbeOutcome` | rust/crates/thttpd-migrate/src/circuit.rs:86-94 | a half-open breaker closes with an empty window on success, and opens, stamped anew, on failure or release |
| `Breaker.AdmittedIff` | rust/crates/thttpd-migrate/src/circuit.rs:129-185 | admission succeeds if and only if the breaker is closed, or open for at least five seconds, and then becomes half-open with its probe claimed |
| `Breaker.CircuitBreaker.ReleaseProbe` | rust/crates/thttpd-migrate/src/circuit.rs:74-80 | reopens a half-open breaker and does nothing otherwise |
| `Breaker.CircuitBreaker.Trip` | rust/crates/thttpd-migrate/src/circuit.rs:203-213 | opens, stamps and empties the window; the flag stays |
| `Breaker.CircuitBreaker.Close` | rust/crates/thttpd-migrate/src/circuit.rs:215-224 | closes, unstamps and empties the window; the flag stays |
| `Proxy.HalfOpenHasAProbe` | rust/crates/thttpd-migrate/src/server.rs:96-184 | under every interleaving of breaker calls by tasks whose acts are at every moment what the handlers are proved to have done wherever others may act, a half-open breaker has a task in flight that was admitted on it and must still answer |
| `Proxy.NoStrandedProbe` | rust/crates/thttpd-migrate/src/server.rs:241-365 | once everybody who did anything has left, no breaker is half-open and no probe flag is set |
| `Proxy.AdmissionsBalance` | rust/crates/thttpd-migrate/src/shadow.rs:136-232 | in every such run and for every backend, the admissions granted so far are exactly the answers so far plus the tasks in flight that still owe one |
| `Proxy.OwnStep` | rust/crates/thttpd-migrate/src/server.rs:96-184 | a task stops holding an admission exactly by answering it, and starts holding one exactly by being admitted |
| `Proxy.StepKeeps` | rust/crates/thttpd-migrate/src/shadow.rs:136-232 | a breaker call or departure by anybody, allowed by the handler contracts, keeps every half-open breaker's claimer in flight |
| `Proxy.HolderMustAnswer` | rust/crates/thttpd-migrate/src/server.rs:96-184 | a task that holds an admission can only go on by answering to that backend |
| `Proxy.ResolverIsClaimerIff` | rust/crates/thttpd-migrate/src/circuit.rs:43-48 | a half-open breaker can be resolved by nobody but the task that claimed its probe if and only if no other task admitted on that backend is in flight |
| `Proxy.LateReportResolvesAnothersProbe` | rust/crates/thttpd-migrate/src/circuit.rs:83-95 | a run in which a task admitted before the trip reports late and closes the breaker while the probe of another is still in flight |
| `Handlers.Handle` | rust/crates/thttpd-migrate/src/server.rs:84-184 | on every exit, whatever others do meanwhile: exactly one report, to the backend admitted and with what the client was told, if an admission was claimed, and none otherwise; an excluded path touches no breaker; a mirror is spawned only for a relayed shadow-mode answer |
| `Handlers.HandleShadow` | rust/crates/thttpd-migrate/src/server.rs:224-366 | each of the four exits (request body error, forward error, response body error, answer) reports once to the primary, and only the last spawns the mirror |
| `Handlers.HandleDirect` | rust/crates/thttpd-migrate/src/server.rs:142-184 | both exits report once, a 5xx answer and an error as failures |
| `Handlers.DispatchShadow` | rust/crates/thttpd-migrate/src/shadow.rs:115-249 | a mirror that is refused does nothing more; an admitted one answers exactly once to the shadow, by a release if the primary was not routable and by a report otherwise |
| `Handlers.ResolveMirror` | rust/crates/thttpd-migrate/src/shadow.rs:165-231 | the exits after admission: body read or not, transport error, not routable |
| `Handlers.Forward` | rust/crates/thttpd-migrate/src/forwarder.rs:159-168 | not routable if and only if the primary is unhealthy when asked, and otherwise what the exchange gives |
| `Handlers.GrantIsSettled` | rust/crates/thttpd-migrate/src/server.rs:84-184 | in the trace of a handler that has returned, a granted admission is followed by one answer to the same backend and nothing else |
| `Handlers.ReportIsLast` | rust/crates/thttpd-migrate/src/server.rs:84-184 | in such a trace an answer comes last, right after the admission it answers |
| `Router.DrawsEqualWeight` | rust/crates/thttpd-migrate/src/router.rs:66-86 | each candidate is chosen by exactly `weight` of the `total` possible draws |
| `Router.ChooseIsUnique` | rust/crates/thttpd-migrate/src/router.rs:71-86 | the candidate of a draw is the only one whose weight interval contains it |
| `Router.RoundIsWeighted` | rust/crates/thttpd-migrate/src/router.rs:66-86 | in any round of a decision each remaining candidate is the one tried by exactly `weight` of the `total` possible draws |
| `Router.RollIsFair` | rust/crates/thttpd-migrate/src/router.rs:71-72 | of the first q * total random numbers exactly q make each draw below the total |
| `Router.PositiveNeverStarves` | rust/crates/thttpd-migrate/src/router.rs:67-70 | while weights stay positive no round reads only zeros |
| `Router.Pool.Decide` | rust/crates/thttpd-migrate/src/router.rs:25-121 | whatever others do between its steps: at most one admission is claimed and it is on the returned backend, nobody is tried twice, only candidates (in shadow mode only the primary) are touched, round k draws with the caller's k-th random number below the total it read, and none is returned if and only if every candidate refused or some round read weight 0 for all that were left; while weights stay, each round tries whom that draw lands on; undisturbed, candidates are exactly the eligible backends and one is served if there is any, and shadow mode serves the primary if and only if it is ready and mirrors if and only if the shadow is ready and different |
| `Router.Pool.AdmitOne` | rust/crates/thttpd-migrate/src/router.rs:66-95 | the retry loop terminates with one admission, or with none if and only if every candidate refused or a round starved; while weights stay, the attempts are those that the caller's random numbers prescribe |
| `Router.Pool.TryOne` | rust/crates/thttpd-migrate/src/router.rs:71-89 | exactly one attempt, while weights stay on the candidate of the given draw; undisturbed, only a candidate that is not eligible is refused |
| `Router.Pool.Round` | rust/crates/thttpd-migrate/src/router.rs:66-95 | one round tries the candidate that its random number, reduced below the total read, lands on, and nobody exactly when all weights read 0 |
| `Router.RolledAsSet` | rust/crates/thttpd-migrate/src/router.rs:67-72 | while weights stay, the k-th draw is the k-th random number below the total weight of whoever is left |
| `Router.Pool.Select` | rust/crates/thttpd-migrate/src/router.rs:71-86 | the running sum picks the candidate of the draw, or the last one if weights moved |
| `Router.Pool.TotalWeight` | rust/crates/thttpd-migrate/src/router.rs:67-70 | the total is 0 if and only if every weight read is 0, and while weights stay it is their sum |
| `Router.Pool.Candidates` | rust/crates/thttpd-migrate/src/router.rs:52-59 | undisturbed, exactly the eligible backends, once each, and nothing is claimed |
| `Router.Pool.AdmitPrimary` | rust/crates/thttpd-migrate/src/router.rs:34-44 | shadow mode tries the configured primary at most once and nobody else; undisturbed, it is served if and only if it is known, routable and its breaker admits |
| `Router.Pool.Mirror` | rust/crates/thttpd-migrate/src/router.rs:100-113 | nothing is claimed; a mirror is the configured shadow and differs from the served backend; undisturbed, there is one if and only if the shadow is ready and different |
| `Router.Pool.BreakerAdmit` | rust/crates/thttpd-migrate/src/backend.rs:95-100 | admission touches the breaker of that name only; a backend without a breaker is admitted |
| `Router.Pool.Interfere` | rust/crates/thttpd-migrate/src/router.rs:25-121 | others may change health, breakers, clock and, if free, weights; its precondition is that the request's acts so far are refused attempts, then a granted one, then its answer |
| `Router.AdmitOn` | rust/crates/thttpd-migrate/src/backend.rs:95-100 | admission on the pool's map succeeds exactly when the backend has no breaker or one that can route, and touches no other breaker |
| `Router.RecordOn` | rust/crates/thttpd-migrate/src/backend.rs:121-126 | a report on the pool's map touches no other breaker |
| `Router.ReleaseOn` | rust/crates/thttpd-migrate/src/backend.rs:104-108 | a release on the pool's map touches no other breaker |
| `Router.Pool.RecordOutcome` | rust/crates/thttpd-migrate/src/backend.rs:121-126 | a report touches the breaker of that name only |
| `Router.Pool.ReleaseProbe` | rust/crates/thttpd-migrate/src/backend.rs:104-108 | a release touches the breaker of that name only |
| `Router.Pool.BreakerCanRoute` | rust/crates/thttpd-migrate/src/backend.rs:85-90 | reads the breaker of that name; no breaker means routable |
| `Router.RemainingStep` | rust/crates/thttpd-migrate/src/router.rs:66-95 | after a refusal everybody is still a candidate or has refused, and after a success only the last attempt succeeded |
| `ControlPlane.RollbackPinsTheTarget` | rust/crates/thttpd-migrate/src/state.rs:110-153 | after `rollback(t)` on any plane that knows t, a backend may be served if and only if it is t, in all three modes |
| `ControlPlane.LiveState.DecideAfterRollback` | rust/crates/thttpd-migrate/src/server.rs:479-488 | a request routed any time after a rollback, with requests and health checks interleaved, tries and serves nobody but the target; undisturbed, it serves it if and only if it is ready |
| `ControlPlane.RollbackStarvesADecision` | rust/crates/thttpd-migrate/src/router.rs:57-70 | a running decision whose only candidate loses its weight to a rollback between filter and total gives up without an attempt, although that candidate is ready |
| `ControlPlane.Run` | rust/crates/thttpd-migrate/src/state.rs:65-153 | every sequence of commands keeps pool weights equal to config weights, a positive total, and a distinct known primary and mirror in shadow mode |
| `ControlPlane.SetWeightsKeeps` | rust/crates/thttpd-migrate/src/state.rs:65-103 | a weight update keeps the plane's invariant, also when it fails |
| `ControlPlane.RollbackKeeps` | rust/crates/thttpd-migrate/src/state.rs:110-153 | a rollback keeps the plane's invariant, with the old primary as the new mirror |
| `ControlPlane.CommandFailsIff` | rust/crates/thttpd-migrate/src/state.rs:65-114 | a weight update succeeds if and only if all names are known and some weight stays positive, a rollback if and only if the target is known; a failure changes nothing |
| `ControlPlane.LiveState.SetWeights` | rust/crates/thttpd-migrate/src/state.rs:65-103 | succeeds if and only if all names are known and the prospective weights are not all 0; then every overridden name has exactly its override and every other its old weight, in pool and snapshot; a failure changes nothing; the routing stays |
| `ControlPlane.UpdatedDraws` | rust/crates/thttpd-migrate/src/state.rs:89-98 | after an update each overridden candidate, in any round of any decision, is tried by exactly its override of the possible draws, and every other one by exactly its old weight |
| `ControlPlane.LiveState.ProspectiveTotal` | rust/crates/thttpd-migrate/src/state.rs:80-83 | the sum over the pool's names of the override where there is one and of the present weight otherwise |
| `ControlPlane.LiveState.Rollback` | rust/crates/thttpd-migrate/src/state.rs:110-153 | succeeds if and only if the target is known; then the target has weight 100 and everybody else 0, in pool and snapshot, and in shadow mode the target is the primary, mirrored to the old primary; a failure changes nothing |
| `RequestGrammar.GotExactly` | rust/crates/thttpd-http/src/parse.rs:14-137 | a request is reported complete at i if and only if the first i bytes are the first prefix that is two words and a line end, or a three-word line followed by bytes ending in LF LF, CR CR or CR LF CR LF |
| `RequestGrammar.BadExactly` | rust/crates/thttpd-http/src/parse.rs:14-137 | a request is reported malformed at i if and only if i is the first byte that ends a line of any other shape or starts a fourth word |
| `RequestGrammar.LineShapes` | rust/crates/thttpd-http/src/parse.rs:26-76 | on the request line the state is SecondWord exactly after two words, and ThirdWord or ThirdWs exactly after three |
| `RequestGrammar.TailStates` | rust/crates/thttpd-http/src/parse.rs:77-127 | after the request line the state is a function of the last bytes until the first blank line |
| `RequestFsm.Scan` | rust/crates/thttpd-http/src/parse.rs:14-137 | the byte loop returns verdict, index and state of the transition function, for any start index and state |
| `RequestFsm.ControlBytes` | rust/crates/thttpd-http/src/parse.rs:14-76 | blanks are space and tab, line ends CR and LF |
| `RequestFsm.ResumingIsTransparent` | rust/crates/thttpd-core/src/eventloop.rs:401-416 | however the input is cut into reads, resuming from the saved index and state gives the verdict, index and state of one scan of the whole |
| `Timers.TimerWheel.Run` | rust/crates/thttpd-timers/src/lib.rs:145-195 | if each timer that is due and not cancelled has a positive period or the clock moves while timers fire, it terminates, fires exactly the live timers due at entry, once each, by deadline and then by id, never a cancelled one; one-shot timers go, and each periodic one is armed for exactly its period after the time the clock showed when its callback returned |
| `Timers.TimerWheel.Round` | rust/crates/thttpd-timers/src/lib.rs:149-182 | one round sweeps, fires or stops, and lowers the number of entries that are due or cancelled |
| `Timers.TimerWheel.NextDeadline` | rust/crates/thttpd-timers/src/lib.rs:198-211 | the time to the minimum deadline over live timers, none if and only if there is none |
| `Timers.TimerWheel.CreateOneShot` | rust/crates/thttpd-timers/src/lib.rs:65-75 | adds one live timer under a new id |
| `Timers.TimerWheel.CreatePeriodic` | rust/crates/thttpd-timers/src/lib.rs:78-92 | adds one live periodic timer under a new id |
| `Timers.TimerWheel.Cancel` | rust/crates/thttpd-timers/src/lib.rs:95-97 | marking removes the timer from the live ones, whenever its entry is dropped |
| `Timers.TimerWheel.Reset` | rust/crates/thttpd-timers/src/lib.rs:104-142 | moves the entry to a new id; the documented answer for timers that are not live holds if and only if the entry is not cancelled and still in the heap |
| `Timers.CancelledThenReset` | rust/crates/thttpd-timers/src/lib.rs:104-142 | create, cancel, reset revives the timer, contrary to the method's documentation |
| `Timers.RefiresIff` | rust/crates/thttpd-timers/src/lib.rs:175-181 | a periodic timer is due again in the same run if and only if its period is zero and the clock stood still |
| `Timers.TimerWheel.FireInPlace` | rust/crates/thttpd-timers/src/lib.rs:165-181 | otherwise, with period zero and a clock that stands still, firing again leaves the wheel exactly as it was, with the timer still due |
| `Timers.FireNext` | rust/crates/thttpd-timers/src/lib.rs:165-181 | firing the earliest entry keeps order and exactly-once of what was fired so far |
| `Timers.TimerWheel.SweepTop` | rust/crates/thttpd-timers/src/lib.rs:184-192 | dropping cancelled entries from the top changes no live timer |
| `HttpDate.RoundTrip` | rust/crates/thttpd-tdate/src/lib.rs:12-36 | for every non-negative timestamp whose year fits i32, parsing the printed date gives the timestamp back |
| `HttpDate.EchoIsNotModified` | rust/crates/thttpd-core/src/eventloop.rs:1373-1374 | echoing the printed modification time of an unchanged file passes the not-modified test |
| `HttpDate.FormatHttpDate` | rust/crates/thttpd-tdate/src/lib.rs:180-222 | the printed text is that of the moment of the timestamp, which `PrintedIsFixedLength`, `RoundTrip` and `WeekdayIsRightIff` describe |
| `HttpDate.PrintedIsFixedLength` | rust/crates/thttpd-tdate/src/lib.rs:214-221 | up to the year 9999 the text has 29 characters with every field at its place |
| `HttpDate.WeekdayIsRightIff` | rust/crates/thttpd-tdate/src/lib.rs:214-216 | the printed weekday is the day's own if and only if the cast of the day count to 32 bits wrapped it a number of times that is 6 modulo 7 |
| `HttpDate.WeekdayIsWrong` | rust/crates/thttpd-tdate/src/lib.rs:214-216 | so it is wrong for every day of the first 2^31 since 1970 |
| `HttpDate.SundayIsPrintedAsWednesday` | rust/crates/thttpd-tdate/src/lib.rs:214-216 | 6 November 1994, 08:49:37, a Sunday, is printed as a Wednesday |
| `HttpDate.Rfc850RoundTrip` | rust/crates/thttpd-tdate/src/lib.rs:125-157 | for every timestamp a printed RFC 850 date is read as the moment from 1970 to 2069 with the same two digits, so it is read back if and only if its year is at most 2069 |
| `HttpDate.AsctimeRoundTrip` | rust/crates/thttpd-tdate/src/lib.rs:159-177 | for every timestamp whose year fits i32, a printed asctime date, its day padded with a blank, is read back |
| `HttpDate.MonthsAreNamed` | rust/crates/thttpd-tdate/src/lib.rs:38-54 | the twelve names in order, and no other text names a month |
| `HttpDate.FieldsParse` | rust/crates/thttpd-tdate/src/lib.rs:99-123 | the printed fields parse to the timestamp |
| `HttpDate.PrintedNumbersParse` | rust/crates/thttpd-tdate/src/lib.rs:99-123 | padded and plain decimals are read back by the integer parsers |
| `HttpDate.WordsOfJoin` | rust/crates/thttpd-tdate/src/lib.rs:99-105 | splitting on any class of separators finds the joined words again |
| `Calendar.Civil` | rust/crates/thttpd-tdate/src/lib.rs:180-213 | the year and month loops find a proper moment whose closed-form day number and clock give the timestamp back |
| `Calendar.DateToEpoch` | rust/crates/thttpd-tdate/src/lib.rs:79-97 | the loops compute the closed-form day number of any year, before 1970 as well, and for day zero the same with the wrap-around of `u32` |
| `Calendar.DaysToYmd` | rust/crates/thttpd-http/src/dirlist.rs:225-257 | the listing's day loop ends at the date whose closed-form day number is the count |
| `Calendar.CalendarsAgree` | rust/crates/thttpd-http/src/dirlist.rs:225-261 | any date the listing's calendar finds is the one the HTTP date prints |
| `Calendar.MomentIsUnique` | rust/crates/thttpd-tdate/src/lib.rs:79-97 | two proper moments with the same epoch are equal |
| `Calendar.DateIsUnique` | rust/crates/thttpd-http/src/dirlist.rs:225-257 | a day has one date |
| `Calendar.YearSpanIsGregorian` | rust/crates/thttpd-tdate/src/lib.rs:56-62 | the year-by-year sum equals the closed Gregorian formula |
| `Calendar.YearIsItsMonths` | rust/crates/thttpd-tdate/src/lib.rs:60-77 | the twelve month lengths add up to the year |
| `Calendar.MonthSpanIsCivil` | rust/crates/thttpd-tdate/src/lib.rs:64-77 | the days before a month are (367 (m + 1) - 362) / 12, less one or two from March on, and each month has the length that this formula gives it |
| `Calendar.EarlierYearsAreGregorian` | rust/crates/thttpd-tdate/src/lib.rs:79-90 | the closed formula also holds of the years before 1970 |
| `Calendar.SumsAreDayNumbers` | rust/crates/thttpd-tdate/src/lib.rs:79-97 | year and month sums together are the closed-form day number, for every year and month |
| `Calendar.CivilOfIsCivil` | rust/crates/thttpd-tdate/src/lib.rs:180-213 | the moment that the printer finds is within the closed-form month length and its closed-form day number gives the timestamp back |
| `Url.DecodeUndoesEncode` | rust/crates/thttpd-http/src/dirlist.rs:164-177 | decoding an encoded name gives the name back, for every byte string |
| `Url.EncodedIsSafe` | rust/crates/thttpd-http/src/dirlist.rs:164-177 | encoded names consist of ASCII letters, digits, `-`, `.`, `_`, `~` and `%` |
| `Url.UrlEncode` | rust/crates/thttpd-http/src/dirlist.rs:164-177 | the loop computes the byte-wise encoding |
| `Url.PercentDecode` | rust/crates/thttpd-http/src/url.rs:11-42 | the index loop computes the left-to-right decoding; malformed escapes stay as they are |
| `Url.EscapesDecode` | rust/crates/thttpd-http/src/url.rs:11-51 | `%` and two hexadecimal digits, in either case, are read as the byte they spell |
| `Url.HexDigits` | rust/crates/thttpd-http/src/url.rs:43-51 | the bytes read as hexadecimal are exactly the 22 digits, each for its value |
| `Url.EscapesAreCapital` | rust/crates/thttpd-http/src/dirlist.rs:164-177 | a byte that needs an escape is written with capital digits |
| `Url.PlusIsSpace` | rust/crates/thttpd-http/src/url.rs:29-32 | `+` is read as a space |
| `Url.StrayPercentStays` | rust/crates/thttpd-http/src/url.rs:18-28 | a `%` that no two hexadecimal digits follow stands for itself |
| `Url.PlainTextDecodes` | rust/crates/thttpd-http/src/url.rs:11-42 | text without `%` and `+` is read as it stands |
| `Url.NormalizePath` | rust/crates/thttpd-http/src/url.rs:55-82 | the component stack computes the walk over the components |
| `Url.WalkMeaning` | rust/crates/thttpd-http/src/url.rs:61-73 | the walk fails if and only if some prefix climbs above the root; otherwise the stack holds exactly the names that nothing later climbs out of, in order |
| `Url.NormalizationFailsIff` | rust/crates/thttpd-http/src/url.rs:55-73 | none if and only if `//` occurs or some prefix climbs above the root |
| `Url.NormalizedIsClean` | rust/crates/thttpd-http/src/url.rs:55-82 | no component of a normalized path is empty, `.` or `..`, or holds a slash |
| `Url.NormalizedReads` | rust/crates/thttpd-http/src/url.rs:75-82 | splitting a normalized path at its slashes gives the names that the walk kept, in order |
| `Url.KindsAre` | rust/crates/thttpd-http/src/url.rs:61-73 | `..` climbs one step, an empty or `.` component none, every other one descends |
| `Url.NormalizedIsFixed` | rust/crates/thttpd-http/src/url.rs:55-82 | normalizing a normalized path changes nothing |
| `MmapCache.MapShowsCurrentBytes` | rust/crates/thttpd-mmc/src/lib.rs:75-130 | if keys determine content, then after every sequence of maps, releases, cleanups and file changes a successful map shows the file's current bytes |
| `MmapCache.HeldMappingsStay` | rust/crates/thttpd-mmc/src/lib.rs:142-162 | after every sequence a held mapping is cached, survives a cleanup, is the same for all holders of its key and is shared by the next map; the expiry age is below 240 s |
| `MmapCache.RunKeeps` | rust/crates/thttpd-mmc/src/lib.rs:75-162 | every sequence of operations keeps content, distinct mappings, held entries and the age bound |
| `MmapCache.ExpiryReachesZeroIff` | rust/crates/thttpd-mmc/src/lib.rs:155-161 | while a file larger than the whole cache is held, n cleanups bring the expiry age to zero if and only if n >= 37 |
| `MmapCache.ZeroExpiryStays` | rust/crates/thttpd-mmc/src/lib.rs:155-161 | once zero, the age is zero after every further run, whatever is mapped, released or cleaned up |
| `MmapCache.ExpiryIsLostIff` | rust/crates/thttpd-mmc/src/lib.rs:155-161 | one step takes a positive age to zero if and only if it is an oversize cleanup at one nanosecond |
| `MmapCache.ExpiryRecoversIff` | rust/crates/thttpd-mmc/src/lib.rs:155-161 | after any run with at least 37 cleanups, none of them oversize, the age is back at two minutes if and only if it was not zero before |
| `MmapCache.Store.MapFile` | rust/crates/thttpd-mmc/src/lib.rs:75-130 | lookup, reuse and insertion in place are the map step, with its error results for a missing file, missing metadata and a failed mapping |
| `MmapCache.Store.Drop` | rust/crates/thttpd-mmc/src/lib.rs:134-138 | dropping a handle only changes who holds it |
| `MmapCache.Store.Cleanup` | rust/crates/thttpd-mmc/src/lib.rs:142-162 | eviction and adaptation in place are the cleanup step |
| `MmapCache.CleanupDropsIff` | rust/crates/thttpd-mmc/src/lib.rs:142-153 | a cleanup drops an entry if and only if nobody holds its mapping and it was last used at least the expiry age ago; what stays is unchanged |
| `MmapCache.CleanupAge` | rust/crates/thttpd-mmc/src/lib.rs:155-161 | a cleanup halves the age when what is left is over the size limit, and otherwise doubles it below two minutes |
| `MmapCache.MappedStaysFresh` | rust/crates/thttpd-mmc/src/lib.rs:75-130 | mapping a file, cached or not, renews its entry: released at once it survives every cleanup within the expiry age |
| `MmapCache.MapFails` | rust/crates/thttpd-mmc/src/lib.rs:75-130 | which error a map gives, if and only if; a failure changes nothing |
| `MmapCache.Store.SizeOfAll` | rust/crates/thttpd-mmc/src/lib.rs:155-156 | the sum of the sizes of the remaining entries |
| `CappedBody.ReadCapped` | rust/crates/thttpd-migrate/src/shadow.rs:34-61 | fails if and only if an error comes before the cap; otherwise keeps the first min(total, cap) bytes, reports truncation if and only if total > cap, and prefix and tail are exactly the bytes of the frames polled |
| `CappedBody.Rebuild` | rust/crates/thttpd-migrate/src/server.rs:339-346 | reading up to the cap and chaining prefix, tail and rest delivers exactly what the original body would have, for every cap and frame sequence, and reports a later stream error exactly when there is one |
| `CappedBody.WithoutErrorsAllIsDelivered` | rust/crates/thttpd-migrate/src/shadow.rs:34-61 | without stream errors no cap makes the read fail and every byte of the body is delivered |
| `CappedBody.ChainedBody.PollFrame` | rust/crates/thttpd-migrate/src/forwarder.rs:144-156 | each poll yields the next frame and leaves the others; it ends exactly when nothing is left |
| `CappedBody.ChainedBody.Drain` | rust/crates/thttpd-migrate/src/forwarder.rs:125-157 | a consumer gets every byte up to the first error, in order, and learns of the error exactly when there is one |
| `CappedBody.ChainedBody.constructor` | rust/crates/thttpd-migrate/src/forwarder.rs:131-137 | skipping empty chunks loses nothing |
| `CappedBody.CrossingIsDecisive` | rust/crates/thttpd-migrate/src/shadow.rs:44-59 | once a frame crosses the cap no later error makes the read fail |

## Left out

- Breaker.CircuitBreaker.TryAdmit, Record: interleavings inside one breaker call (separate loads, exchanges and stores) are not modelled; each call is one step, and the `f64` error rate is a real number.
- Handlers.Handle: bodies, headers and metrics are not modelled, only whether a body can be read up to the cap and what the exchange with the backend gives.
- Proxy.NoStrandedProbe: handlers that are cancelled in the middle of a request, by a client disconnect or at the end of a drain, are outside the run model.
- ServerTheorems.Step: 64-bit overflow of limits, byte counts and sums is not modelled; numbers are unbounded. Likewise `u32` totals of weights in Router and window counters in Breaker.
- ServerLoop.Loop.HandleRead: what a request turns out to be (page bytes, header length, 503 page, outcome of a CGI run) is a parameter, so `ServerAnswers` says which of these pages is sent and not what is in it; request parsing beyond the recogniser, header extraction and response building are not part of this model.
- ServerLoop.Loop.HandleConnectionEvent: edge triggering and the poller's own errors are not modelled, only which interest is registered; nor are idle timeouts, statistics and access logging.
- Router.Pool.Candidates: the pool is a sequence of names; the order in which the source's hash map yields them is left open, and no claim depends on it.
- Timers.TimerWheel.Run: asks that each timer to be fired has a positive period or the clock moves; otherwise the source's loop does not end.
- Timers.TimerWheel.Peek: the binary heap is represented by its contract, a map of entries with a minimum; the heap's array layout is not modelled. Callbacks do not touch the wheel, as their context gives them no access to it.
- Timers.TimerWheel.Cancel: asks for an id that the wheel has issued; ids cannot be made outside it.
- HttpDate.FormatHttpDate: no claim is made about negative timestamps. White space is ASCII white space.
- Calendar.Civil: takes timestamps from 0 on, as the printer is meant for; what the source's casts make of negative ones is not modelled.
- HttpDate.RoundTrip, AsctimeRoundTrip: years above the `i32` range, which the parser cannot read, are outside the statement.
- Url.PercentDecode: text is its UTF-8 bytes; the lossy repair of decoded bytes that are not UTF-8 is not modelled. An encoded name always decodes to its own bytes, so the repair does not touch the round trip.
- MmapCache.Store.MapFile: a file is the key and bytes that opening it gives; the operating system's mapping is a handle with an identity.
- CappedBody.ReadCapped: trailer frames are dropped as in the source and carry no bytes; the byte statements do not mention them.
- Range responses and zero-length ranged files, whose slices are only coherent for well-ordered ranges.
- The string normalizers of the response diff, health counters, MIME tables, authentication, directory HTML, log formats, configuration parsing, metrics and control framing, which would only add easy members.
- Signals, daemonizing, chroot, privilege drop and process creation.
