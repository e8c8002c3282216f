/** The promises of the event loop, stated for every run from an empty server. */
module ServerTheorems {
  import opened Common
  import opened Throttle
  import opened EventLoop
  import opened ServerRuns
  import Glob

  datatype Event =
    | Incoming(k: nat, registered: bool)
    | Ready(k: nat, req: Request, io: Io)
    | Resume(order: seq<nat>, ios: seq<Io>)
    | Tick
    | Passed(d: nat)

  lemma CheckKeepsLimits(rules: seq<Rule>, path: seq<Byte>)
    ensures SameLimits(rules, Check(rules, path).1)
  {
    forall r | 0 <= r < |rules| ensures Check(rules, path).1[r].maxLimit == rules[r].maxLimit {
      CheckTakesListedSlots(rules, path, r);
    }
  }

  lemma ToSendingLimits(s: Server, k: nat, path: seq<Byte>, busy: Page)
    requires k in s.conns
    ensures SameLimits(s.rules, ToSending(s, k, path, busy).rules)
  {
    CheckKeepsLimits(s.rules, path);
  }

  lemma StaticLimits(s: Server, k: nat, path: seq<Byte>, page: Page, busy: Page)
    requires k in s.conns
    ensures SameLimits(s.rules, ServeStatic(s, k, path, page, busy).rules)
  {
    var (decision, rules) := Check(s.rules, path);
    CheckKeepsLimits(s.rules, path);
    ToSendingLimits(s.(rules := rules, conns := s.conns[k := Admitted(s.conns[k], decision, page, busy)]), k, path, busy);
  }

  lemma CgiLimits(s: Server, k: nat, req: Request)
    requires k in s.conns && req.Cgi?
    ensures SameLimits(s.rules, DispatchCgi(s, k, req).rules)
  {
    CheckKeepsLimits(s.rules, req.script);
    CheckKeepsLimits(s.rules, req.path);
  }

  lemma ReadKeepsLimits(s: Server, k: nat, req: Request)
    requires k in s.conns
    ensures SameLimits(s.rules, HandleRead(s, k, req).rules)
  {
    match req
    case NeedMore =>
    case Hangup =>
    case Answer(path, page, busy) =>
      ToSendingLimits(s.(conns := s.conns[k := WithPage(s.conns[k], page)]), k, path, busy);
    case Static(path, page, busy) => StaticLimits(s, k, path, page, busy);
    case Cgi(_, _, _, _, _) => CgiLimits(s, k, req);
  }

  /** `handle_connection_event`: dispatch on the phase of a slot that is still there. */
  ghost function HandleEvent(s: Server, k: nat, req: Request, io: Io): (s': Server)
    requires Inv(s)
    ensures Inv(s') && SameLimits(s.rules, s'.rules)
  {
    if k !in s.conns then s
    else
      match s.conns[k].phase
      case Reading => ReadKeeps(s, k, req); ReadKeepsLimits(s, k, req); HandleRead(s, k, req)
      case Sending => SendKeeps(s, k, io); SendFrame(s, k, io); HandleSend(s, k, io)
      case Lingering => CloseKeeps(s, k); Close(s, k)
      case Pausing => HandlePauseKeeps(s, k, io); PauseFrame(s, k, io); HandlePause(s, k, io)
  }

  /** What a handler of slot `k` leaves alone: the clock, the limits and the other slots. */
  ghost predicate OnlySlot(s: Server, s': Server, k: nat) {
    s'.now == s.now && SameLimits(s.rules, s'.rules) && s'.conns - {k} == s.conns - {k}
  }

  lemma WriteFrame(s: Server, k: nat, w: nat)
    requires k in s.conns && s.conns[k].phase.Sending? && s.conns[k].bytesSent + w <= |s.conns[k].response|
    ensures OnlySlot(s, Write(s, k, w), k) && k in Write(s, k, w).conns && !Write(s, k, w).conns[k].phase.Pausing?
  {
    assert Write(s, k, w).conns - {k} == s.conns - {k};
  }

  /** Sending touches no other slot, and a pause it starts is not over yet. */
  lemma SendFrame(s: Server, k: nat, io: Io)
    requires k in s.conns && s.conns[k].phase.Sending? && s.conns[k].bytesSent <= |s.conns[k].response|
    ensures var s' := HandleSend(s, k, io);
      OnlySlot(s, s', k) && (k in s'.conns ==> !Due(s'.conns[k], s.now))
  {
    var c := s.conns[k];
    if c.bytesSent < |c.response| && WriteLimit(c, s.now) > 0 && io.Wrote? {
      WriteFrame(s, k, Taken(c, s.now, io.n));
    }
  }

  lemma PauseFrame(s: Server, k: nat, io: Io)
    requires k in s.conns && s.conns[k].phase.Pausing? && s.conns[k].bytesSent <= |s.conns[k].response|
    requires Within(s.conns[k].throttle.tnums, |s.rules|)
    ensures var s' := HandlePause(s, k, io);
      OnlySlot(s, s', k) && (k in s'.conns ==> !Due(s'.conns[k], s.now))
  {
    if Due(s.conns[k], s.now) {
      SendFrame(Unpause(s, k), k, io);
      assert Unpause(s, k).conns - {k} == s.conns - {k};
    }
  }

  ghost function ResumeOne(s: Server, k: nat, io: Io): (s': Server)
    requires Inv(s)
    ensures Inv(s') && s'.now == s.now && SameLimits(s.rules, s'.rules)
    ensures s'.conns - {k} == s.conns - {k}
    ensures k in s'.conns ==> !Due(s'.conns[k], s.now)
  {
    if k in s.conns && s.conns[k].phase.Pausing? then
      HandlePauseKeeps(s, k, io);
      PauseFrame(s, k, io);
      HandlePause(s, k, io)
    else s
  }

  lemma OthersStay(s: Server, s': Server, k: nat, j: nat)
    requires s'.conns - {k} == s.conns - {k} && j != k
    ensures j in s'.conns <==> j in s.conns
    ensures j in s.conns ==> s'.conns[j] == s.conns[j]
  {
    assert j in s.conns <==> j in s.conns - {k};
    assert j in s'.conns <==> j in s'.conns - {k};
    if j in s.conns {
      assert (s.conns - {k})[j] == (s'.conns - {k})[j];
    }
  }

  /** `resume_ready_paused_connections` over the collected keys. */
  ghost function ResumeAll(s: Server, order: seq<nat>, ios: seq<Io>): (s': Server)
    requires Inv(s) && |ios| == |order|
    ensures Inv(s') && s'.now == s.now && SameLimits(s.rules, s'.rules)
    decreases |order|
  {
    if order == [] then s
    else ResumeAll(ResumeOne(s, order[0], ios[0]), order[1..], ios[1..])
  }

  lemma {:induction false} ResumedAreNotDue(s: Server, order: seq<nat>, ios: seq<Io>, k: nat)
    requires Inv(s) && |ios| == |order|
    ensures var s' := ResumeAll(s, order, ios);
      k in s'.conns && Due(s'.conns[k], s.now) ==> k in s.conns && Due(s.conns[k], s.now) && k !in order
    decreases |order|
  {
    if order != [] {
      var s1 := ResumeOne(s, order[0], ios[0]);
      ResumedAreNotDue(s1, order[1..], ios[1..], k);
      if k != order[0] {
        OthersStay(s, s1, order[0], k);
      }
    }
  }

  /** The steps that are not about one connection's data: a new stream and the periodic update. */
  ghost function Accepted(s: Server, k: nat, registered: bool): (s': Server)
    requires Inv(s)
    ensures Inv(s') && SameLimits(s.rules, s'.rules)
  {
    AcceptKeeps(s, k, registered);
    Accept(s, k, registered)
  }

  ghost function Ticked(s: Server): (s': Server)
    requires Inv(s)
    ensures Inv(s') && SameLimits(s.rules, s'.rules)
  {
    TickKeeps(s);
    ThrottleTick(s)
  }

  ghost function Step(s: Server, e: Event): (s': Server)
    requires Inv(s)
    ensures Inv(s') && SameLimits(s.rules, s'.rules)
  {
    match e
    case Incoming(k, registered) => Accepted(s, k, registered)
    case Ready(k, req, io) => HandleEvent(s, k, req, io)
    case Resume(order, ios) => if |ios| == |order| then ResumeAll(s, order, ios) else s
    case Tick => Ticked(s)
    case Passed(d) => AdvanceKeeps(s, d); s.(now := s.now + d)
  }

  ghost function Run(s: Server, events: seq<Event>): (s': Server)
    requires Inv(s)
    ensures Inv(s') && SameLimits(s.rules, s'.rules)
    decreases |events|
  {
    if events == [] then s else Run(Step(s, events[0]), events[1..])
  }

  /** A rule as loaded: any limits, nothing sent yet. */
  predicate Fresh(rules: seq<Rule>) {
    forall i :: 0 <= i < |rules| ==> rules[i].rate == rules[i].bytesSinceAvg == rules[i].numSending == 0
  }

  ghost function Start(rules: seq<Rule>, now: nat): (s: Server)
    requires Fresh(rules)
    ensures Inv(s)
  {
    Server(rules, map[], map[], now, [], seq(|rules|, i requires 0 <= i < |rules| => 0))
  }

  ghost function After(rules: seq<Rule>, now: nat, events: seq<Event>): (s: Server)
    requires Fresh(rules)
    ensures Inv(s) && SameLimits(rules, s.rules)
  {
    Run(Start(rules, now), events)
  }

  // ----- Sender slots. -----

  /** In every reachable state a rule's sender count is the number of live connections listed on it. */
  lemma SlotsCountSenders(rules: seq<Rule>, now: nat, events: seq<Event>, r: nat)
    requires Fresh(rules)
    ensures var s := After(rules, now, events);
      r < |rules| ==> s.rules[r].numSending == |Holders(s.conns, r)|
  {
    TotalCountsHolders(After(rules, now, events).conns, r);
  }

  /** The share that a recomputation would give a sender of rule `r` now. */
  ghost function ShareNow(rules: seq<Rule>, r: nat): Conn -> int {
    (c: Conn) => if r in c.throttle.tnums && Within(c.throttle.tnums, |rules|) then FairShare(rules, c.throttle.tnums) else 0
  }

  /** A sender's recomputed share is at most its part of any rule it is listed on. */
  lemma ShareWithinPart(s: Server, k: nat, r: nat)
    requires Inv(s) && k in s.conns && r < |s.rules| && r in s.conns[k].throttle.tnums
    ensures s.rules[r].maxLimit >= 0 && s.rules[r].numSending > 0
    ensures ShareNow(s.rules, r)(s.conns[k]) <= Quot(s.rules[r].maxLimit, s.rules[r].numSending)
  {
    var tnums := s.conns[k].throttle.tnums;
    FairShareIsMinimum(s.rules, tnums);
    var i :| 0 <= i < |tnums| && tnums[i] == r;
    TotalCountsHolders(s.conns, r);
    assert k in Holders(s.conns, r);
    assert |Holders(s.conns, r)| > 0;
    assert Share(s.rules[tnums[i]]) == Quot(s.rules[r].maxLimit, s.rules[r].numSending);
  }

  lemma SharesFit(s: Server, r: nat)
    requires Inv(s) && r < |s.rules| && s.rules[r].maxLimit >= 0 && s.rules[r].numSending > 0
    ensures Total(s.conns, ShareNow(s.rules, r)) <= s.rules[r].maxLimit
  {
    var n, part := s.rules[r].numSending, Quot(s.rules[r].maxLimit, s.rules[r].numSending);
    forall j | j in s.conns ensures ShareNow(s.rules, r)(s.conns[j]) <= part * Holds(r)(s.conns[j]) {
      if r in s.conns[j].throttle.tnums {
        ShareWithinPart(s, j, r);
      }
    }
    TotalAtMost(s.conns, ShareNow(s.rules, r), Holds(r), part);
    QuotIsDivision(s.rules[r].maxLimit, n);
    assert part * n == n * part;
  }

  /** The recomputed shares of all senders on a rule fit into its limit. */
  lemma SharesFitTheLimit(rules: seq<Rule>, now: nat, events: seq<Event>, r: nat)
    requires Fresh(rules)
    ensures var s := After(rules, now, events);
      r < |rules| && Holders(s.conns, r) != {} ==> Total(s.conns, ShareNow(s.rules, r)) <= rules[r].maxLimit
  {
    var s := After(rules, now, events);
    if r < |rules| && Holders(s.conns, r) != {} {
      var k :| k in Holders(s.conns, r);
      ShareWithinPart(s, k, r);
      SharesFit(s, r);
    }
  }

  // ----- Rate. -----

  /** The handler's elapsed seconds are whole seconds of time, and at least one. */
  lemma ElapsedIsTime(start: nat, now: nat)
    requires start <= now
    ensures var secs := Elapsed(Some(start), now);
      secs >= 1 && secs * 1_000_000_000 <= Max(1_000_000_000, now - start) && now - start < (secs + 1) * 1_000_000_000
  {}

  lemma ScaleUp(a: nat, b: nat, limit: nat)
    requires a <= b
    ensures limit * a <= limit * b
  {}

  /** `body` bytes in the given time keep a limit per second, but for `free` bytes; the first second counts in full. */
  predicate WithinLimit(limit: int, time: nat, body: int, free: int) {
    body * 1_000_000_000 <= limit * Max(1_000_000_000, time) + free * 1_000_000_000
  }

  lemma SecondsToTime(limit: nat, start: nat, now: nat, body: int, free: int)
    requires start <= now && WithinRate(limit, Elapsed(Some(start), now), body, free)
    ensures WithinLimit(limit, now - start, body, free)
  {
    var secs := Elapsed(Some(start), now);
    TimesIsProduct(limit, secs);
    ElapsedIsTime(start, now);
    ScaleUp(secs * 1_000_000_000, Max(1_000_000_000, now - start), limit);
    assert limit * (secs * 1_000_000_000) == (limit * secs) * 1_000_000_000;
  }

  /** In every reachable state a connection has sent at most `limit` body bytes per second since it started, under
      every rule it is listed on, not counting bytes it wrote while its share was not positive. */
  lemma RateBound(rules: seq<Rule>, now: nat, events: seq<Event>, k: nat, i: nat)
    requires Fresh(rules)
    ensures var s := After(rules, now, events);
      k in s.conns && i < |s.conns[k].throttle.tnums| ==>
        var c := s.conns[k];
        && c.throttle.bodyBytes == c.BodyWritten() == Max(0, c.bytesSent - c.throttle.headerLen)
        && c.throttle.tnums[i] < |rules| && c.throttle.startedAt.Some? && c.throttle.startedAt.value <= s.now
        && WithinLimit(rules[c.throttle.tnums[i]].maxLimit, s.now - c.throttle.startedAt.value, c.BodyWritten(), c.freeBody)
  {
    var s := After(rules, now, events);
    if k in s.conns && i < |s.conns[k].throttle.tnums| {
      var c := s.conns[k];
      assert ConnOk(s.rules, s.now, c);
      SecondsToTime(s.rules[c.throttle.tnums[i]].maxLimit, c.throttle.startedAt.value, s.now, c.throttle.bodyBytes, c.freeBody);
    }
  }

  /** The other side: a connection that the send handler pauses has sent all its headers and at least its share for
      every whole second since it started, the first included; it is paused for one second. */
  lemma PausedHasUsedItsWindow(s: Server, k: nat, io: Io, n: nat)
    requires Inv(s) && k in s.conns && s.conns[k].phase.Sending?
    requires k in HandleSend(s, k, io).conns && HandleSend(s, k, io).conns[k].phase.Pausing?
    ensures var c, c' := s.conns[k], HandleSend(s, k, io).conns[k];
      && c.Throttled() && c.throttle.maxLimit > 0 && c.throttle.startedAt.Some? && c.throttle.startedAt.value <= s.now
      && c.bytesSent >= c.throttle.headerLen && c'.wire == c.wire && c'.throttle.maxLimit == c.throttle.maxLimit
      && c'.throttle.pauseUntil == Some(s.now + 1_000_000_000)
      && (n <= 1 || n * 1_000_000_000 <= s.now - c.throttle.startedAt.value ==> c.BodyWritten() >= c.throttle.maxLimit * n)
  {
    var c := s.conns[k];
    assert ConnOk(s.rules, s.now, c);
    if c.bytesSent < |c.response| && WriteLimit(c, s.now) > 0 && io.Wrote? {
      WriteFrame(s, k, Taken(c, s.now, io.n));
    }
    assert WriteLimit(c, s.now) == 0;
    if n <= 1 || n * 1_000_000_000 <= s.now - c.throttle.startedAt.value {
      UsedUp(c, s.now, n);
    }
  }

  /** All that the share allows for the whole seconds since the start has been sent. */
  ghost predicate WindowUsed(c: Conn, now: nat, sent: nat) {
    && c.Throttled() && c.throttle.maxLimit > 0 && c.throttle.startedAt.Some? && c.throttle.startedAt.value <= now
    && forall m: nat :: m <= 1 || m * 1_000_000_000 <= now - c.throttle.startedAt.value ==> sent >= c.throttle.maxLimit * m
  }

  /** Nothing is held back: a socket that takes `n` bytes gets them, or all that is left, or all that the share
      allows for the whole seconds since the start. The connection lingers exactly when its response is whole. */
  lemma SendIsGreedy(s: Server, k: nat, n: nat)
    requires Inv(s) && k in s.conns && s.conns[k].phase.Sending?
    ensures var c, s' := s.conns[k], HandleSend(s, k, Wrote(n));
      && k in s'.conns
      && var c' := s'.conns[k];
      && c'.wire == c.response[..c'.bytesSent] && (c'.phase.Lingering? <==> c'.bytesSent == |c.response|)
      && (c'.bytesSent == c.bytesSent + n || c'.bytesSent == |c.response| || WindowUsed(c, s.now, c'.BodyWritten()))
  {
    assert ConnOk(s.rules, s.now, s.conns[k]);
    OfferIsGreedy(s, k, n);
  }

  lemma OfferIsGreedy(s: Server, k: nat, n: nat)
    requires k in s.conns && s.conns[k].phase.Sending? && Flows(s.conns[k], s.now)
    ensures var c, s' := s.conns[k], HandleSend(s, k, Wrote(n));
      && k in s'.conns
      && var c' := s'.conns[k];
      && c'.wire == c.response[..c'.bytesSent] && (c'.phase.Lingering? <==> c'.bytesSent == |c.response|)
      && (c'.bytesSent == c.bytesSent + n || c'.bytesSent == |c.response| || WindowUsed(c, s.now, c'.BodyWritten()))
  {
    var c := s.conns[k];
    if c.bytesSent < |c.response| {
      WriteIsGreedy(c, s.now, n);
    }
  }

  /** The bookkeeping of a sender that the next two lemmas need. */
  ghost predicate Flows(c: Conn, now: nat) {
    && c.bytesSent <= |c.response| && c.wire == c.response[..c.bytesSent]
    && (c.Throttled() ==>
         && c.throttle.bodyBytes == BodyPart(c, c.bytesSent)
         && c.throttle.startedAt.Some? && c.throttle.startedAt.value <= now)
  }

  lemma WriteIsGreedy(c: Conn, now: nat, n: nat)
    requires Flows(c, now)
    ensures var w := Taken(c, now, n);
      var c' := AfterWrite(c, w);
      && c'.wire == c.response[..c'.bytesSent]
      && (w == n || c'.bytesSent == |c.response| || WindowUsed(c, now, c'.BodyWritten()))
  {
    var w := Taken(c, now, n);
    var c' := AfterWrite(c, w);
    if w != n && c'.bytesSent != |c.response| {
      assert WriteLimit(c', now) == 0;
      forall m: nat | m <= 1 || m * 1_000_000_000 <= now - c.throttle.startedAt.value
        ensures c'.BodyWritten() >= c.throttle.maxLimit * m
      {
        UsedUp(c', now, m);
      }
    }
  }

  lemma UsedUp(c: Conn, now: nat, n: nat)
    requires c.bytesSent <= |c.response| && c.Throttled() && c.throttle.maxLimit > 0 && WriteLimit(c, now) == 0
    requires c.throttle.startedAt.Some? && c.throttle.startedAt.value <= now
    requires n <= 1 || n * 1_000_000_000 <= now - c.throttle.startedAt.value
    ensures c.throttle.bodyBytes >= c.throttle.maxLimit * n
  {
    var secs := Elapsed(c.throttle.startedAt, now);
    ElapsedIsTime(c.throttle.startedAt.value, now);
    TimesIsProduct(c.throttle.maxLimit, secs);
    ScaleUp(n, secs, c.throttle.maxLimit);
  }

  /** Before its deadline nothing wakes a paused connection. */
  lemma PauseIsKept(s: Server, k: nat, req: Request, io: Io)
    requires Inv(s) && k in s.conns && s.conns[k].phase.Pausing? && s.now < s.conns[k].throttle.pauseUntil.value
    ensures HandleEvent(s, k, req, io) == s && ResumeOne(s, k, io) == s && ThrottleTick(s).conns[k] == s.conns[k]
  {}

  /** A pause that is over is followed by a share for the present senders, wherever it is noticed. */
  lemma ResumeRecomputes(s: Server, k: nat, io: Io)
    requires Inv(s) && k in s.conns && s.conns[k].phase.Pausing? && s.now >= s.conns[k].throttle.pauseUntil.value
    ensures Within(s.conns[k].throttle.tnums, |s.rules|)
    ensures var share := FairShare(s.rules, s.conns[k].throttle.tnums);
      && (k in HandlePause(s, k, io).conns ==> HandlePause(s, k, io).conns[k].throttle.maxLimit == share)
      && ThrottleTick(s).conns[k].throttle.maxLimit == share
  {
    assert ConnOk(s.rules, s.now, s.conns[k]);
    PauseRecomputes(s, k, io);
    TickRecomputes(s, k);
  }

  lemma PauseRecomputes(s: Server, k: nat, io: Io)
    requires k in s.conns && Due(s.conns[k], s.now) && s.conns[k].bytesSent <= |s.conns[k].response|
    requires Within(s.conns[k].throttle.tnums, |s.rules|)
    ensures k in HandlePause(s, k, io).conns ==>
      HandlePause(s, k, io).conns[k].throttle.maxLimit == FairShare(s.rules, s.conns[k].throttle.tnums)
  {}

  lemma TickRecomputes(s: Server, k: nat)
    requires forall j :: j in s.conns ==> Within(s.conns[j].throttle.tnums, |s.rules|)
    requires |s.flushed| == |s.rules| && k in s.conns && Wakes(s.conns[k], s.now)
    ensures ThrottleTick(s).conns[k].throttle.maxLimit == FairShare(s.rules, s.conns[k].throttle.tnums)
  {
    assert Shares(AveragedAll(s.rules), s.conns[k].throttle.tnums) == Shares(s.rules, s.conns[k].throttle.tnums);
  }

  /** The periodic update leaves no pause that is over behind, and starts nothing else. */
  lemma TickLeavesNobodyBehind(s: Server, k: nat)
    requires Inv(s) && k in s.conns
    ensures k in ThrottleTick(s).conns
    ensures s.conns[k].phase.Pausing? && s.now >= s.conns[k].throttle.pauseUntil.value ==>
      ThrottleTick(s).conns[k].phase.Sending?
    ensures !s.conns[k].phase.Pausing? ==> ThrottleTick(s).conns[k] == s.conns[k]
  {
    assert ConnOk(s.rules, s.now, s.conns[k]);
  }

  /** What ends a connection: a hang-up while its request is read, a failed write, and any event while it lingers. */
  lemma ConnectionsEnd(s: Server, k: nat, req: Request, io: Io)
    requires Inv(s) && k in s.conns
    ensures s.conns[k].phase.Reading? && req.Hangup? ==> HandleEvent(s, k, req, io).conns == s.conns - {k}
    ensures s.conns[k].phase.Lingering? ==> HandleEvent(s, k, req, io).conns == s.conns - {k}
    ensures s.conns[k].phase.Sending? && s.conns[k].bytesSent < |s.conns[k].response| && WriteLimit(s.conns[k], s.now) > 0 ==>
      HandleEvent(s, k, req, Failed).conns == s.conns - {k} && HandleEvent(s, k, req, WouldBlock) == s
  {}

  /** A recomputed share is positive exactly when no listed rule has more senders than bytes per second. */
  lemma ShareIsPositiveIff(rules: seq<Rule>, tnums: seq<nat>)
    requires tnums != [] && Within(tnums, |rules|)
    requires forall i :: 0 <= i < |tnums| ==> rules[tnums[i]].maxLimit >= 0
    ensures FairShare(rules, tnums) > 0 <==>
      forall i :: 0 <= i < |tnums| ==> rules[tnums[i]].maxLimit >= Max(1, rules[tnums[i]].numSending)
  {
    FairShareIsMinimum(rules, tnums);
    assert forall i :: 0 <= i < |tnums| ==>
      (Share(rules[tnums[i]]) > 0 <==> rules[tnums[i]].maxLimit >= Max(1, rules[tnums[i]].numSending));
  }

  /** From a connection that is within the cap of one of its rules, every write stays within it exactly
      when the share is positive or the whole body fits anyway. */
  lemma CapHoldsIffShareOrFit(rules: seq<Rule>, now: nat, c: Conn, i: nat)
    requires ConnOk(rules, now, c) && c.phase.Sending? && i < |c.throttle.tnums|
    requires c.throttle.bodyBytes <= Times(rules[c.throttle.tnums[i]].maxLimit, Elapsed(c.throttle.startedAt, now))
    ensures var cap := Times(rules[c.throttle.tnums[i]].maxLimit, Elapsed(c.throttle.startedAt, now));
      (forall n: nat :: AfterWrite(c, Taken(c, now, n)).throttle.bodyBytes <= cap) <==>
      c.throttle.maxLimit > 0 || BodyPart(c, |c.response|) <= cap
  {
    var secs := Elapsed(c.throttle.startedAt, now);
    var cap := Times(rules[c.throttle.tnums[i]].maxLimit, secs);
    TimesMonotone(c.throttle.maxLimit, rules[c.throttle.tnums[i]].maxLimit, secs, secs);
    forall n: nat ensures AfterWrite(c, Taken(c, now, n)).throttle.bodyBytes == BodyPart(c, c.bytesSent + Taken(c, now, n)) {}
    if c.throttle.maxLimit <= 0 {
      assert Taken(c, now, |c.response|) == |c.response| - c.bytesSent;
      assert AfterWrite(c, Taken(c, now, |c.response|)).throttle.bodyBytes == BodyPart(c, |c.response|);
    }
  }

  const WIDE_OPEN := Rule([Glob.STAR, Glob.STAR], 0, 0, 0, 0, 0)

  lemma WideOpenMatches(path: seq<Byte>)
    ensures Glob.Matches(WIDE_OPEN.pattern, path)
  {
    var p := WIDE_OPEN.pattern;
    SplitOfPiece(p, Glob.BAR);
    assert Glob.IsAlternative(p, Split(p, Glob.BAR)[0]);
    assert p[2..] == [];
    assert Glob.Tokens(p) == [Glob.AnyRun];
    assert Concat([path]) == path + Concat([path][1..]);
    assert Glob.CutsInto([Glob.AnyRun], path, [path]);
  }

  /** Under a limit of 0 every request is admitted with a share of 0. */
  lemma WideOpenAdmits()
    ensures Check([WIDE_OPEN], []) == (Allow([0], 0, 0), Bump([WIDE_OPEN], [0], 1))
  {
    WideOpenMatches([]);
    var rules, tnums: seq<nat> := [WIDE_OPEN], [0];
    assert MatchedUpTo(rules, [], 0) == [];
    assert Matched(rules, []) == tnums;
    assert Shares(Bump(rules, tnums, 1), tnums) == [0];
    assert Floors(rules, tnums) == [0];
    assert [0][..0] == [];
  }

  ghost function Unbounded(body: seq<Byte>): seq<Event> {
    [Incoming(0, true), Ready(0, Static([], Page(body, 0), Page([], 0)), WouldBlock), Ready(0, NeedMore, Wrote(|body|))]
  }

  lemma {:induction false} RunAppends(s: Server, events: seq<Event>, e: Event)
    requires Inv(s)
    ensures Run(s, events + [e]) == Step(Run(s, events), e)
    decreases |events|
  {
    if events == [] {
      assert (events + [e])[1..] == [];
    } else {
      RunAppends(Step(s, events[0]), events[1..], e);
      assert (events + [e])[1..] == events[1..] + [e];
    }
  }

  lemma {:induction false} RunOfThree(s: Server, a: Event, b: Event, c: Event)
    requires Inv(s)
    ensures Run(s, [a, b, c]) == Step(Step(Step(s, a), b), c)
  {
    assert [a, b, c][1..] == [b, c] && [b, c][1..] == [c] && [c][1..] == [];
    assert Run(Step(Step(s, a), b), [c]) == Step(Step(Step(s, a), b), c);
    assert Run(Step(s, a), [b, c]) == Run(Step(Step(s, a), b), [c]);
  }

  ghost predicate Uncapped(c: Conn, body: seq<Byte>) {
    && c.phase.Sending? && c.bytesSent == 0 && c.wire == [] && c.response == body
    && c.throttle.headerLen == 0 && c.throttle.tnums == [0] && c.throttle.maxLimit == 0
  }

  lemma WideOpenServes(s: Server, body: seq<Byte>)
    requires s.rules == [WIDE_OPEN] && s.conns == map[0 := FRESH_CONN]
    ensures var s' := HandleRead(s, 0, Static([], Page(body, 0), Page([], 0)));
      0 in s'.conns && Uncapped(s'.conns[0], body)
  {
    WideOpenAdmits();
    var page, busy := Page(body, 0), Page([], 0);
    var c := Admitted(FRESH_CONN, Allow([0], 0, 0), page, busy);
    var c' := Started(c, Unlimited, busy, s.now);
    assert Uncapped(c', body);
    StaticEffect(s, 0, [], page, busy);
  }

  lemma StaticEffect(s: Server, k: nat, path: seq<Byte>, page: Page, busy: Page)
    requires k in s.conns && s.conns[k].throttle == UNTHROTTLED
    ensures var c := Admitted(s.conns[k], Check(s.rules, path).0, page, busy);
      HandleRead(s, k, Static(path, page, busy)).conns == s.conns[k := Started(c, Unlimited, busy, s.now)]
  {
    var c := Admitted(s.conns[k], Check(s.rules, path).0, page, busy);
    assert c.throttle.checked;
    assert s.conns[k := c][k := Started(c, Unlimited, busy, s.now)] == s.conns[k := Started(c, Unlimited, busy, s.now)];
  }

  lemma ReadyOnReading(s: Server, k: nat, req: Request, io: Io)
    requires Inv(s) && k in s.conns && s.conns[k].phase.Reading?
    ensures Step(s, Ready(k, req, io)) == HandleRead(s, k, req)
  {}

  lemma UncappedIsDrained(s: Server, body: seq<Byte>)
    requires Inv(s) && 0 in s.conns && Uncapped(s.conns[0], body) && body != []
    ensures var s' := Step(s, Ready(0, NeedMore, Wrote(|body|)));
      && 0 in s'.conns && s'.conns[0].throttle.tnums == [0]
      && s'.conns[0].BodyWritten() == |body|
  {
    assert Taken(s.conns[0], s.now, |body|) == |body|;
    assert AfterWrite(s.conns[0], |body|).wire == [] + body[0..|body|] == body;
  }

  /** The plain cap is not kept by every run: under a limit of 0 a whole body goes out at once. */
  lemma ZeroLimitIsNotEnforced(body: seq<Byte>)
    requires body != []
    ensures var s := After([WIDE_OPEN], 0, Unbounded(body));
      && 0 in s.conns && s.conns[0].throttle.tnums == [0] && WIDE_OPEN.maxLimit == 0
      && s.conns[0].BodyWritten() == |body| > 0
  {
    var e := Unbounded(body);
    var s0 := Start([WIDE_OPEN], 0);
    RunOfThree(s0, e[0], e[1], e[2]);
    var s1 := Step(s0, Incoming(0, true));
    assert s1 == Accept(s0, 0, true);
    ReadyOnReading(s1, 0, e[1].req, WouldBlock);
    WideOpenServes(s1, body);
    UncappedIsDrained(Step(s1, e[1]), body);
  }

  // ----- Wake sources and the written prefix. -----

  /** In every reachable state each live connection has a way to be woken, and the poller knows nobody else. */
  lemma EveryConnectionHasAWakeSource(rules: seq<Rule>, now: nat, events: seq<Event>, k: nat)
    requires Fresh(rules)
    ensures var s := After(rules, now, events);
      && (k in s.poll ==> k in s.conns)
      && (k in s.conns ==>
           match s.conns[k].phase
           case Reading => k in s.poll && s.poll[k] == Readable
           case Lingering => k in s.poll && s.poll[k] == Readable
           case Sending => k in s.poll && s.poll[k] == Writable
           case Pausing =>
             k !in s.poll && s.conns[k].throttle.pauseUntil.Some?
             && s.conns[k].throttle.pauseUntil.value <= s.now + SECOND)
  {
    var s := After(rules, now, events);
    assert k in s.conns ==> ConnOk(s.rules, s.now, s.conns[k]);
  }

  /** In every reachable state the socket has taken exactly the first `bytesSent` bytes of the response. */
  lemma WireIsAResponsePrefix(rules: seq<Rule>, now: nat, events: seq<Event>, k: nat)
    requires Fresh(rules)
    ensures var s := After(rules, now, events);
      k in s.conns ==>
        s.conns[k].bytesSent <= |s.conns[k].response| &&
        s.conns[k].wire == s.conns[k].response[..s.conns[k].bytesSent]
  {
    var s := After(rules, now, events);
    assert k in s.conns ==> ConnOk(s.rules, s.now, s.conns[k]);
  }

  /** In every reachable state a connection that lingers has sent its whole response. */
  lemma LingeringResponsesAreWhole(rules: seq<Rule>, now: nat, events: seq<Event>, k: nat)
    requires Fresh(rules)
    ensures var s := After(rules, now, events);
      k in s.conns && s.conns[k].phase.Lingering? ==> s.conns[k].wire == s.conns[k].response
  {
    var s := After(rules, now, events);
    assert k in s.conns ==> ConnOk(s.rules, s.now, s.conns[k]);
  }

  /** Once the loop has resumed the collected connections, no pause that is over is left behind. */
  lemma ResumeLeavesNobodyBehind(s: Server, order: seq<nat>, ios: seq<Io>)
    requires Inv(s) && |ios| == |order|
    requires forall k :: k in s.conns && Due(s.conns[k], s.now) ==> k in order
    ensures var s' := Step(s, Resume(order, ios));
      forall k :: k in s'.conns && s'.conns[k].phase.Pausing? ==>
        s'.conns[k].throttle.pauseUntil.Some? && s'.now < s'.conns[k].throttle.pauseUntil.value
  {
    var s' := Step(s, Resume(order, ios));
    forall k | k in s'.conns && s'.conns[k].phase.Pausing?
      ensures s'.conns[k].throttle.pauseUntil.Some? && s'.now < s'.conns[k].throttle.pauseUntil.value
    {
      assert ConnOk(s'.rules, s'.now, s'.conns[k]);
      ResumedAreNotDue(s, order, ios, k);
    }
  }

  // ----- The ledger. -----

  /** Over every run, what a rule was ever charged is the body bytes written by connections admitted
      on it, live or closed, plus the flat charge of every completed CGI run admitted on it. */
  lemma ChargesAreBodiesAndCgiRuns(rules: seq<Rule>, now: nat, events: seq<Event>, r: nat)
    requires Fresh(rules)
    ensures var s := After(rules, now, events);
      r < |rules| ==>
        |s.flushed| == |s.rules| == |rules| &&
        s.flushed[r] + s.rules[r].bytesSinceAvg == Total(s.conns, Owes(r)) + Sum(s.retired, Owes(r))
  {
    var s := After(rules, now, events);
    assert LedgerOk(s);
  }
}
