/** What an operator can read off the loaded rules: which rules ever admit anybody, and when the plain cap
    `limit * elapsed` is kept by every run. */
module ServerLimits {
  import opened Common
  import opened Throttle
  import opened EventLoop
  import opened ServerRuns
  import opened ServerTheorems
  import opened ServerRates
  import Glob

  /** No rule matched by the path has a negative maximum or a positive minimum. */
  ghost predicate Open(rules: seq<Rule>, path: seq<Byte>) {
    var tnums := Matched(rules, path);
    forall i :: 0 <= i < |tnums| ==> rules[tnums[i]].maxLimit >= 0 && rules[tnums[i]].minLimit <= 0
  }

  /** Some open path is matched by the rule. */
  ghost predicate CanAdmit(rules: seq<Rule>, r: nat) {
    exists path :: Open(rules, path) && r in Matched(rules, path)
  }

  lemma {:induction false} MatchedSame(a: seq<Rule>, b: seq<Rule>, path: seq<Byte>, n: nat)
    requires SameLimits(a, b) && n <= |a|
    ensures MatchedUpTo(a, path, n) == MatchedUpTo(b, path, n)
  {
    if n > 0 {
      MatchedSame(a, b, path, n - 1);
    }
  }

  lemma OpenSame(a: seq<Rule>, b: seq<Rule>, path: seq<Byte>)
    requires SameLimits(a, b)
    ensures Matched(a, path) == Matched(b, path) && (Open(a, path) <==> Open(b, path))
  {
    MatchedSame(a, b, path, |a|);
  }

  // ----- The invariant. -----

  /** Nothing has ever been charged to a rule with a positive minimum. */
  ghost predicate Idle(rules: seq<Rule>) {
    forall r :: 0 <= r < |rules| && rules[r].minLimit > 0 ==> rules[r].rate == 0 && rules[r].bytesSinceAvg == 0
  }

  ghost predicate ListsOpen(base: seq<Rule>, tnums: seq<nat>) {
    forall i :: 0 <= i < |tnums| ==> CanAdmit(base, tnums[i])
  }

  ghost predicate Listed(base: seq<Rule>, conns: map<nat, Conn>) {
    forall k :: k in conns ==> ListsOpen(base, conns[k].throttle.tnums)
  }

  ghost predicate Sane(base: seq<Rule>, s: Server) {
    SameLimits(base, s.rules) && Idle(s.rules) && Listed(base, s.conns) && |s.conns| <= MAX_CONNECTIONS
  }

  /** While rules with a minimum are idle, whoever is admitted asked for an open path. */
  lemma AllowedIsOpen(base: seq<Rule>, rules: seq<Rule>, path: seq<Byte>)
    requires SameLimits(base, rules) && Idle(rules) && RulesOk(rules) && Check(rules, path).0.Allow?
    ensures Open(base, path) && ListsOpen(base, Check(rules, path).0.tnums)
  {
    var tnums := Check(rules, path).0.tnums;
    forall i | 0 <= i < |tnums| ensures rules[tnums[i]].maxLimit >= 0 && rules[tnums[i]].minLimit <= 0 {
      assert !Refuses(rules[tnums[i]]);
    }
    OpenSame(base, rules, path);
    forall i | 0 <= i < |tnums| ensures CanAdmit(base, tnums[i]) {
      assert tnums[i] in Matched(base, path);
    }
  }

  lemma ListedHaveNoMinimum(base: seq<Rule>, tnums: seq<nat>, r: nat)
    requires ListsOpen(base, tnums) && r in tnums
    ensures r < |base| && base[r].minLimit <= 0 && base[r].maxLimit >= 0
  {
    var i :| 0 <= i < |tnums| && tnums[i] == r;
    assert CanAdmit(base, tnums[i]);
    var path :| Open(base, path) && r in Matched(base, path);
    var j :| 0 <= j < |Matched(base, path)| && Matched(base, path)[j] == r;
  }

  lemma ChargeKeepsIdle(base: seq<Rule>, rules: seq<Rule>, tnums: seq<nat>, d: int)
    requires SameLimits(base, rules) && Idle(rules) && ListsOpen(base, tnums) && Distinct(tnums)
    ensures Idle(Charge(rules, tnums, d)) && SameLimits(base, Charge(rules, tnums, d))
  {
    forall r | 0 <= r < |rules| && rules[r].minLimit > 0 ensures Charge(rules, tnums, d)[r] == rules[r] {
      DistinctEffects(rules, tnums, d, r);
      if r in tnums {
        ListedHaveNoMinimum(base, tnums, r);
      }
    }
  }

  /** A handler of one slot: it adds no slot and lists only rules that may admit. */
  lemma {:induction false} FewerKeys(a: map<nat, Conn>, b: map<nat, Conn>)
    requires b.Keys <= a.Keys
    ensures |b| <= |a|
    decreases |b|
  {
    if b != map[] {
      var k := Pick(b);
      assert (a - {k}).Keys == a.Keys - {k} && (b - {k}).Keys == b.Keys - {k};
      FewerKeys(a - {k}, b - {k});
    }
  }

  lemma SlotKeeps(base: seq<Rule>, s: Server, s': Server, k: nat)
    requires Sane(base, s) && k in s.conns && s'.conns.Keys <= s.conns.Keys && s'.conns - {k} == s.conns - {k}
    requires SameLimits(base, s'.rules) && Idle(s'.rules)
    requires k in s'.conns ==> ListsOpen(base, s'.conns[k].throttle.tnums)
    ensures Sane(base, s')
  {
    FewerKeys(s.conns, s'.conns);
    forall j | j in s'.conns && j != k ensures s'.conns[j] == s.conns[j] {
      OthersStay(s, s', k, j);
    }
  }

  lemma CloseSane(base: seq<Rule>, s: Server, k: nat)
    requires Sane(base, s) && k in s.conns
    ensures Sane(base, Close(s, k))
  {
    SlotKeeps(base, s, Close(s, k), k);
  }

  lemma WriteSane(base: seq<Rule>, s: Server, k: nat, w: nat)
    requires Inv(s) && Sane(base, s) && k in s.conns && s.conns[k].phase.Sending?
    requires s.conns[k].bytesSent + w <= |s.conns[k].response|
    ensures Sane(base, Write(s, k, w))
  {
    var c := s.conns[k];
    assert ConnOk(s.rules, s.now, c);
    ChargeKeepsIdle(base, s.rules, c.throttle.tnums, BodyDelta(c, w));
    WriteFrame(s, k, w);
    SlotKeeps(base, s, Write(s, k, w), k);
  }

  lemma SendSane(base: seq<Rule>, s: Server, k: nat, io: Io)
    requires Inv(s) && Sane(base, s) && k in s.conns && s.conns[k].phase.Sending?
    ensures Sane(base, HandleSend(s, k, io))
  {
    var c := s.conns[k];
    if c.bytesSent < |c.response| && WriteLimit(c, s.now) > 0 {
      match io
      case WouldBlock =>
      case Failed => CloseSane(base, s, k);
      case Wrote(n) => WriteSane(base, s, k, Taken(c, s.now, n));
    } else {
      SendFrame(s, k, io);
      SlotKeeps(base, s, HandleSend(s, k, io), k);
    }
  }

  lemma PauseSane(base: seq<Rule>, s: Server, k: nat, io: Io)
    requires Inv(s) && Sane(base, s) && k in s.conns && s.conns[k].phase.Pausing?
    ensures Sane(base, HandlePause(s, k, io))
  {
    if Due(s.conns[k], s.now) {
      UnpauseKeeps(s, k);
      UnpauseSane(base, s, k);
      SendSane(base, Unpause(s, k), k, io);
    }
  }

  lemma UnpauseSane(base: seq<Rule>, s: Server, k: nat)
    requires Sane(base, s) && k in s.conns && Within(s.conns[k].throttle.tnums, |s.rules|)
    ensures Sane(base, Unpause(s, k))
  {
    assert Unpause(s, k).conns - {k} == s.conns - {k};
    SlotKeeps(base, s, Unpause(s, k), k);
  }

  lemma CheckSane(base: seq<Rule>, rules: seq<Rule>, path: seq<Byte>)
    requires SameLimits(base, rules) && Idle(rules) && RulesOk(rules)
    ensures var (d, rules') := Check(rules, path);
      SameLimits(base, rules') && Idle(rules') && (d.Allow? ==> ListsOpen(base, d.tnums) && Distinct(d.tnums))
  {
    forall r | 0 <= r < |rules|
      ensures var r' := Check(rules, path).1[r];
        SameLimits([rules[r]], [r']) && r'.rate == rules[r].rate && r'.bytesSinceAvg == rules[r].bytesSinceAvg
    {
      CheckTakesListedSlots(rules, path, r);
    }
    if Check(rules, path).0.Allow? {
      AllowedIsOpen(base, rules, path);
    }
  }

  /** Take, charge and give back on rules that may admit. */
  lemma CgiRulesSane(base: seq<Rule>, rules: seq<Rule>, tnums: seq<nat>, ran: bool)
    requires SameLimits(base, rules) && Idle(rules) && ListsOpen(base, tnums) && Distinct(tnums)
    ensures var rules' := Bump(if ran then Charge(rules, tnums, CGI_BYTECOUNT) else rules, tnums, -1);
      SameLimits(base, rules') && Idle(rules')
  {
    ChargeKeepsIdle(base, rules, tnums, CGI_BYTECOUNT);
  }

  lemma CgiEffect(s: Server, k: nat, req: Request)
    requires Untouched(s, k) && req.Cgi? && !Check(s.rules, req.script).0.Reject?
    ensures var (d, rules) := Check(s.rules, req.script);
      var s' := DispatchCgi(s, k, req);
      && s'.rules == (if d.Allow? then Bump(if req.ran then Charge(rules, d.tnums, CGI_BYTECOUNT) else rules, d.tnums, -1)
                      else rules)
      && k in s'.conns && s'.conns[k].throttle.tnums == [] && s'.conns == s.conns[k := s'.conns[k]]
  {
    var s' := DispatchCgi(s, k, req);
    assert s'.conns == s.conns[k := s'.conns[k]];
  }

  lemma CgiSane(base: seq<Rule>, s: Server, k: nat, req: Request)
    requires RulesOk(s.rules) && Sane(base, s) && Untouched(s, k) && req.Cgi?
    ensures Sane(base, DispatchCgi(s, k, req))
  {
    CheckSane(base, s.rules, req.script);
    var (decision, rules) := Check(s.rules, req.script);
    if decision.Reject? {
      AnswerSane(base, s, k, req.path, req.busy, req.busy);
    } else {
      if decision.Allow? {
        CgiRulesSane(base, rules, decision.tnums, req.ran);
      }
      CgiEffect(s, k, req);
      ReplacedSane(base, s, DispatchCgi(s, k, req), k);
    }
  }

  lemma ReplacedSane(base: seq<Rule>, s: Server, s': Server, k: nat)
    requires Sane(base, s) && k in s.conns && k in s'.conns && s'.conns == s.conns[k := s'.conns[k]]
    requires SameLimits(base, s'.rules) && Idle(s'.rules) && ListsOpen(base, s'.conns[k].throttle.tnums)
    ensures Sane(base, s')
  {
    assert s'.conns - {k} == s.conns - {k};
    SlotKeeps(base, s, s', k);
  }

  lemma AnswerSane(base: seq<Rule>, s: Server, k: nat, path: seq<Byte>, page: Page, busy: Page)
    requires RulesOk(s.rules) && Sane(base, s) && Untouched(s, k)
    ensures Sane(base, ToSending(s.(conns := s.conns[k := WithPage(s.conns[k], page)]), k, path, busy))
  {
    CheckSane(base, s.rules, path);
    AnswerOpens(s, k, path, page, busy);
    ReplacedSane(base, s, ToSending(s.(conns := s.conns[k := WithPage(s.conns[k], page)]), k, path, busy), k);
  }

  lemma StaticSane(base: seq<Rule>, s: Server, k: nat, path: seq<Byte>, page: Page, busy: Page)
    requires RulesOk(s.rules) && Sane(base, s) && Untouched(s, k)
    ensures Sane(base, ServeStatic(s, k, path, page, busy))
  {
    CheckSane(base, s.rules, path);
    StaticOpens(s, k, path, page, busy);
    ReplacedSane(base, s, ServeStatic(s, k, path, page, busy), k);
  }

  lemma EventSane(base: seq<Rule>, s: Server, k: nat, req: Request, io: Io)
    requires Inv(s) && Sane(base, s)
    ensures Sane(base, HandleEvent(s, k, req, io))
  {
    if k in s.conns {
      match s.conns[k].phase
      case Reading =>
        assert ConnOk(s.rules, s.now, s.conns[k]);
        ReadSane(base, s, k, req);
      case Sending => SendSane(base, s, k, io);
      case Lingering => CloseSane(base, s, k);
      case Pausing => PauseSane(base, s, k, io);
    }
  }

  lemma ReadSane(base: seq<Rule>, s: Server, k: nat, req: Request)
    requires Inv(s) && Sane(base, s) && Untouched(s, k)
    ensures Sane(base, HandleRead(s, k, req))
  {
    match req
    case NeedMore =>
    case Hangup => CloseSane(base, s, k);
    case Answer(path, page, busy) => AnswerSane(base, s, k, path, page, busy);
    case Static(path, page, busy) => StaticSane(base, s, k, path, page, busy);
    case Cgi(_, _, _, _, _) => CgiSane(base, s, k, req);
  }

  lemma {:induction false} ResumeSane(base: seq<Rule>, s: Server, order: seq<nat>, ios: seq<Io>)
    requires Inv(s) && Sane(base, s) && |ios| == |order|
    ensures Sane(base, ResumeAll(s, order, ios))
    decreases |order|
  {
    if order != [] {
      if order[0] in s.conns && s.conns[order[0]].phase.Pausing? {
        PauseSane(base, s, order[0], ios[0]);
      }
      ResumeSane(base, ResumeOne(s, order[0], ios[0]), order[1..], ios[1..]);
    }
  }

  lemma AveragedIdle(base: seq<Rule>, rules: seq<Rule>)
    requires SameLimits(base, rules) && Idle(rules)
    ensures SameLimits(base, AveragedAll(rules)) && Idle(AveragedAll(rules))
  {}

  lemma TickSane(base: seq<Rule>, s: Server)
    requires Inv(s) && Sane(base, s)
    ensures Sane(base, ThrottleTick(s))
  {
    var s' := ThrottleTick(s);
    AveragedIdle(base, s.rules);
    assert s'.conns.Keys == s.conns.Keys;
    FewerKeys(s.conns, s'.conns);
    forall k | k in s'.conns ensures ListsOpen(base, s'.conns[k].throttle.tnums) {
      assert s'.conns[k].throttle.tnums == s.conns[k].throttle.tnums;
    }
  }

  lemma AcceptSane(base: seq<Rule>, s: Server, k: nat, registered: bool)
    requires Sane(base, s)
    ensures Sane(base, Accept(s, k, registered))
  {
    var s' := Accept(s, k, registered);
    if s' != s {
      assert s'.conns.Keys == s.conns.Keys + {k};
    }
  }

  lemma ReadyStepSane(base: seq<Rule>, s: Server, k: nat, req: Request, io: Io)
    requires Inv(s) && Sane(base, s)
    ensures Sane(base, Step(s, Ready(k, req, io)))
  {
    EventSane(base, s, k, req, io);
  }

  lemma ResumeStepSane(base: seq<Rule>, s: Server, order: seq<nat>, ios: seq<Io>)
    requires Inv(s) && Sane(base, s)
    ensures Sane(base, Step(s, Resume(order, ios)))
  {
    if |ios| == |order| {
      ResumeSane(base, s, order, ios);
    }
  }

  lemma QuietStepSane(base: seq<Rule>, s: Server, e: Event)
    requires Inv(s) && Sane(base, s) && (e.Incoming? || e.Tick? || e.Passed?)
    ensures Sane(base, Step(s, e))
  {
    if e.Incoming? {
      AcceptSane(base, s, e.k, e.registered);
    } else if e.Tick? {
      TickSane(base, s);
    }
  }

  lemma StepSane(base: seq<Rule>, s: Server, e: Event)
    requires Inv(s) && Sane(base, s)
    ensures Sane(base, Step(s, e))
  {
    if e.Ready? {
      ReadyStepSane(base, s, e.k, e.req, e.io);
    } else if e.Resume? {
      ResumeStepSane(base, s, e.order, e.ios);
    } else {
      QuietStepSane(base, s, e);
    }
  }

  lemma {:induction false} RunSane(base: seq<Rule>, s: Server, events: seq<Event>)
    requires Inv(s) && Sane(base, s)
    ensures Sane(base, Run(s, events))
    decreases |events|
  {
    if events != [] {
      StepSane(base, s, events[0]);
      RunSane(base, Step(s, events[0]), events[1..]);
    }
  }

  // ----- Who never gets in. -----

  /** In every run at most 4096 connections are open at a time. */
  lemma TableIsBounded(rules: seq<Rule>, now: nat, events: seq<Event>)
    requires Fresh(rules)
    ensures |After(rules, now, events).conns| <= 4096
  {
    RunSane(rules, Start(rules, now), events);
  }

  /** In every run, a path that matches a rule with a negative maximum or a positive minimum is refused for ever. */
  lemma ClosedPathsStayClosed(rules: seq<Rule>, now: nat, events: seq<Event>, path: seq<Byte>)
    requires Fresh(rules)
    ensures Check(After(rules, now, events).rules, path).0.Allow? ==> Open(rules, path)
    ensures Matched(rules, path) != [] && !Open(rules, path) ==> Check(After(rules, now, events).rules, path).0.Reject?
  {
    var s := After(rules, now, events);
    RunSane(rules, Start(rules, now), events);
    OpenSame(rules, s.rules, path);
    if Check(s.rules, path).0.Allow? {
      AllowedIsOpen(rules, s.rules, path);
    }
  }

  /** In every run a rule with a positive minimum never has a sender, is never charged, and refuses every request
      for which it is among the matches: its rate starts below its minimum and nothing can raise it. */
  lemma MinimumLocksOut(rules: seq<Rule>, now: nat, events: seq<Event>, r: nat, path: seq<Byte>)
    requires Fresh(rules) && r < |rules| && rules[r].minLimit > 0
    ensures var s := After(rules, now, events);
      && s.rules[r].numSending == 0 && s.rules[r].rate == 0 && s.rules[r].bytesSinceAvg == 0
      && (r in Matched(rules, path) ==> Check(s.rules, path).0.Reject?)
  {
    var s := After(rules, now, events);
    RunSane(rules, Start(rules, now), events);
    forall k | k in s.conns ensures r !in s.conns[k].throttle.tnums {
      if r in s.conns[k].throttle.tnums {
        ListedHaveNoMinimum(rules, s.conns[k].throttle.tnums, r);
      }
    }
    assert Holders(s.conns, r) == {};
    SlotsCountSenders(rules, now, events, r);
    if r in Matched(rules, path) {
      ClosedPathsStayClosed(rules, now, events, path);
    }
  }

  // ----- When the plain cap is kept. -----

  ghost predicate CapHolds(rules: seq<Rule>, s: Server, k: nat, i: nat)
    requires |rules| == |s.rules|
  {
    k in s.conns && i < |s.conns[k].throttle.tnums| ==>
      var c := s.conns[k];
      && c.throttle.tnums[i] < |rules| && c.throttle.startedAt.Some? && c.throttle.startedAt.value <= s.now
      && WithinLimit(rules[c.throttle.tnums[i]].maxLimit, s.now - c.throttle.startedAt.value, c.BodyWritten(), 0)
  }

  /** No rule that may admit is smaller than the connection table. */
  ghost predicate Ample(rules: seq<Rule>) {
    forall r :: 0 <= r < |rules| && CanAdmit(rules, r) ==> rules[r].maxLimit >= 4096
  }

  lemma {:induction false} HoldersAreConns(conns: map<nat, Conn>, r: nat)
    ensures |Holders(conns, r)| <= |conns|
    decreases |conns|
  {
    if conns != map[] {
      var p := Pick(conns);
      assert (conns - {p}).Keys == conns.Keys - {p};
      HoldersAreConns(conns - {p}, r);
      HoldersMinus(conns, r, p);
    }
  }

  lemma AmpleIsRoomy(base: seq<Rule>, s: Server)
    requires Inv(s) && Sane(base, s) && Ample(base)
    ensures Roomy(s.rules)
  {
    forall r | 0 <= r < |s.rules| && s.rules[r].numSending > 0 ensures s.rules[r].maxLimit >= s.rules[r].numSending {
      TotalCountsHolders(s.conns, r);
      HoldersAreConns(s.conns, r);
      assert Holders(s.conns, r) != {};
      var k :| k in Holders(s.conns, r);
      var i :| 0 <= i < |s.conns[k].throttle.tnums| && s.conns[k].throttle.tnums[i] == r;
      assert CanAdmit(base, s.conns[k].throttle.tnums[i]);
    }
  }

  lemma {:induction false} AmpleThroughout(base: seq<Rule>, s: Server, events: seq<Event>)
    requires Inv(s) && Sane(base, s) && Ample(base)
    ensures RoomyThroughout(s, events)
    decreases |events|
  {
    AmpleIsRoomy(base, s);
    if events != [] {
      StepSane(base, s, events[0]);
      AmpleThroughout(base, Step(s, events[0]), events[1..]);
    }
  }

  lemma AmpleKeepsTheCap(rules: seq<Rule>, now: nat, events: seq<Event>, k: nat, i: nat)
    requires Fresh(rules) && Ample(rules)
    ensures CapHolds(rules, After(rules, now, events), k, i)
  {
    AmpleThroughout(rules, Start(rules, now), events);
    RateBoundWithoutOversubscription(rules, now, events, k, i);
  }

  // ----- And when some run breaks it: one sender more than bytes per second. -----

  /** `n` connections, each of which has been admitted on the path and has sent nothing. */
  ghost predicate Crowd(base: seq<Rule>, now: nat, path: seq<Byte>, n: nat, s: Server) {
    && SameLimits(base, s.rules) && s.now == now
    && (forall r :: 0 <= r < |s.rules| ==> s.rules[r].rate == 0)
    && |s.conns| == n && (forall k :: k in s.conns ==> k < n) && AllList(s.conns, Matched(base, path))
  }

  ghost predicate AllList(conns: map<nat, Conn>, tnums: seq<nat>) {
    forall k :: k in conns ==> conns[k].throttle.tnums == tnums
  }

  ghost function Joining(path: seq<Byte>, body: seq<Byte>, n: nat): seq<Event> {
    if n == 0 then [] else Joining(path, body, n - 1) + [Arrival(n - 1)] + [Asks(n - 1, path, body)]
  }

  /** An open path is admitted as long as nothing was sent. */
  lemma OpenIsAllowed(base: seq<Rule>, rules: seq<Rule>, path: seq<Byte>)
    requires SameLimits(base, rules) && Open(base, path) && Matched(base, path) != []
    requires forall r :: 0 <= r < |rules| ==> rules[r].rate == 0
    ensures Check(rules, path).0.Allow? && Check(rules, path).0.tnums == Matched(base, path)
    ensures SameLimits(base, Check(rules, path).1)
    ensures forall r :: 0 <= r < |Check(rules, path).1| ==> Check(rules, path).1[r].rate == 0
  {
    OpenSame(base, rules, path);
  }

  /** The newcomer's slot once it starts to send. */
  ghost predicate Newcomer(s: Server, c: Conn, body: seq<Byte>, tnums: seq<nat>) {
    && c.phase.Sending? && c.bytesSent == 0 && c.wire == [] && c.response == body
    && c.throttle.headerLen == 0 && c.throttle.tnums == tnums && c.throttle.startedAt == Some(s.now)
    && Within(tnums, |s.rules|) && c.throttle.maxLimit == FairShare(s.rules, tnums)
  }

  /** What serving a fresh slot puts there. */
  ghost function Served(rules: seq<Rule>, path: seq<Byte>, body: seq<Byte>, now: nat): Conn {
    Started(Admitted(FRESH_CONN, Check(rules, path).0, Page(body, 0), Page([], 0)), Unlimited, Page([], 0), now)
  }

  lemma ServeFresh(path: seq<Byte>, body: seq<Byte>, conns: map<nat, Conn>, s: Server, n: nat)
    requires s.conns == conns[n := FRESH_CONN]
    ensures var s' := ServeStatic(s, n, path, Page(body, 0), Page([], 0));
      && s'.rules == Check(s.rules, path).1 && s'.now == s.now
      && s'.conns == conns[n := Served(s.rules, path, body, s.now)]
  {
    StaticEffect(s, n, path, Page(body, 0), Page([], 0));
    var c := Served(s.rules, path, body, s.now);
    assert conns[n := FRESH_CONN][n := c] == conns[n := c];
  }

  lemma ServedIsNewcomer(base: seq<Rule>, path: seq<Byte>, body: seq<Byte>, s: Server, s': Server)
    requires SameLimits(base, s.rules) && Open(base, path) && Matched(base, path) != []
    requires forall r :: 0 <= r < |s.rules| ==> s.rules[r].rate == 0
    requires s'.rules == Check(s.rules, path).1 && s'.now == s.now
    ensures Newcomer(s', Served(s.rules, path, body, s.now), body, Matched(base, path))
  {
    OpenIsAllowed(base, s.rules, path);
    GrantIsShare(s.rules, path);
  }

  lemma CrowdGrows(base: seq<Rule>, now: nat, path: seq<Byte>, n: nat, s: Server, s': Server)
    requires Crowd(base, now, path, n, s) && s'.now == now && SameLimits(base, s'.rules)
    requires forall r :: 0 <= r < |s'.rules| ==> s'.rules[r].rate == 0
    requires n in s'.conns && s'.conns == s.conns[n := s'.conns[n]] && s'.conns[n].throttle.tnums == Matched(base, path)
    ensures Crowd(base, now, path, n + 1, s')
  {
    assert s'.conns.Keys == s.conns.Keys + {n};
  }

  /** Accept one stream and serve it the path. */
  ghost function Admission(s: Server, n: nat, path: seq<Byte>, body: seq<Byte>): Server
    requires n !in s.conns && |s.conns| < MAX_CONNECTIONS
  {
    ServeStatic(Accept(s, n, true), n, path, Page(body, 0), Page([], 0))
  }

  lemma OneMore(base: seq<Rule>, now: nat, path: seq<Byte>, n: nat, body: seq<Byte>, s: Server)
    requires Crowd(base, now, path, n, s) && n < MAX_CONNECTIONS && Open(base, path) && Matched(base, path) != []
    ensures n !in s.conns
    ensures var s' := Admission(s, n, path, body);
      && Crowd(base, now, path, n + 1, s') && n in s'.conns && Newcomer(s', s'.conns[n], body, Matched(base, path))
      && s'.conns == s.conns[n := s'.conns[n]]
  {
    ServeFresh(path, body, s.conns, Accept(s, n, true), n);
    ServedIsNewcomer(base, path, body, s, Admission(s, n, path, body));
    OpenIsAllowed(base, s.rules, path);
    CrowdGrows(base, now, path, n, s, Admission(s, n, path, body));
  }

  /** The newcomer's two events. */
  ghost function Arrival(n: nat): Event { Incoming(n, true) }
  ghost function Asks(n: nat, path: seq<Byte>, body: seq<Byte>): Event {
    Ready(n, Static(path, Page(body, 0), Page([], 0)), WouldBlock)
  }

  lemma AdmissionIsTwoSteps(s: Server, n: nat, path: seq<Byte>, body: seq<Byte>)
    requires Inv(s) && n !in s.conns && |s.conns| < MAX_CONNECTIONS
    ensures Step(Step(s, Arrival(n)), Asks(n, path, body)) == Admission(s, n, path, body)
  {
    ArrivalIsAccepted(s, n);
    AskingIsServed(Accept(s, n, true), n, path, body);
  }

  lemma AskingIsServed(s: Server, n: nat, path: seq<Byte>, body: seq<Byte>)
    requires Inv(s) && n in s.conns && s.conns[n].phase.Reading?
    ensures Step(s, Asks(n, path, body)) == ServeStatic(s, n, path, Page(body, 0), Page([], 0))
  {
    ReadyOnReading(s, n, Static(path, Page(body, 0), Page([], 0)), WouldBlock);
  }

  lemma ArrivalIsAccepted(s: Server, n: nat)
    requires Inv(s) && n !in s.conns && |s.conns| < MAX_CONNECTIONS
    ensures Step(s, Arrival(n)) == Accept(s, n, true) && Inv(Accept(s, n, true))
    ensures n in Accept(s, n, true).conns && Accept(s, n, true).conns[n] == FRESH_CONN
  {
    AcceptKeeps(s, n, true);
  }

  lemma RunAppendsTwo(s: Server, events: seq<Event>, e: Event, f: Event)
    requires Inv(s)
    ensures Run(s, events + [e] + [f]) == Step(Step(Run(s, events), e), f)
  {
    RunAppends(s, events, e);
    RunAppends(s, events + [e], f);
  }

  lemma CrowdStep(rules: seq<Rule>, now: nat, path: seq<Byte>, body: seq<Byte>, n: nat, events: seq<Event>, s: Server)
    requires Fresh(rules) && Open(rules, path) && Matched(rules, path) != [] && n < MAX_CONNECTIONS
    requires Crowd(rules, now, path, n, After(rules, now, events))
    requires s == After(rules, now, events + [Arrival(n)] + [Asks(n, path, body)])
    ensures Crowd(rules, now, path, n + 1, s) && n in s.conns && Newcomer(s, s.conns[n], body, Matched(rules, path))
    ensures n !in After(rules, now, events).conns && s.conns == After(rules, now, events).conns[n := s.conns[n]]
  {
    RunAppendsTwo(Start(rules, now), events, Arrival(n), Asks(n, path, body));
    OneMore(rules, now, path, n, body, After(rules, now, events));
    AdmissionIsTwoSteps(After(rules, now, events), n, path, body);
  }

  lemma CrowdStarts(rules: seq<Rule>, now: nat, path: seq<Byte>)
    requires Fresh(rules)
    ensures Crowd(rules, now, path, 0, After(rules, now, []))
  {
    assert After(rules, now, []) == Start(rules, now);
  }

  lemma {:induction false} CrowdGathers(rules: seq<Rule>, now: nat, path: seq<Byte>, body: seq<Byte>, n: nat)
    requires Fresh(rules) && Open(rules, path) && Matched(rules, path) != [] && n <= MAX_CONNECTIONS
    ensures Crowd(rules, now, path, n, After(rules, now, Joining(path, body, n)))
  {
    if n == 0 {
      CrowdStarts(rules, now, path);
    } else {
      CrowdGathers(rules, now, path, body, n - 1);
      CrowdStep(rules, now, path, body, n - 1, Joining(path, body, n - 1), After(rules, now, Joining(path, body, n)));
    }
  }

  lemma CrowdCounts(base: seq<Rule>, now: nat, path: seq<Byte>, n: nat, s: Server, r: nat)
    requires SlotsOk(s) && Crowd(base, now, path, n, s) && r in Matched(base, path)
    ensures s.rules[r].numSending == n
  {
    TotalCountsHolders(s.conns, r);
    assert Holders(s.conns, r) == s.conns.Keys;
  }

  /** With more senders than bytes per second on one of the matched rules, the share is zero. */
  lemma NoShareLeft(base: seq<Rule>, rules: seq<Rule>, path: seq<Byte>, r: nat)
    requires SameLimits(base, rules) && Open(base, path) && r in Matched(base, path)
    requires rules[r].numSending > base[r].maxLimit
    ensures Within(Matched(base, path), |rules|) && FairShare(rules, Matched(base, path)) == 0
  {
    var tnums := Matched(base, path);
    var i :| 0 <= i < |tnums| && tnums[i] == r;
    FairShareIsMinimum(rules, tnums);
    assert Share(rules[tnums[i]]) == 0;
  }

  lemma NewcomerDrains(s: Server, k: nat, body: seq<Byte>, tnums: seq<nat>)
    requires Inv(s) && k in s.conns && Newcomer(s, s.conns[k], body, tnums) && tnums != [] && body != []
    requires FairShare(s.rules, tnums) == 0
    ensures var s' := Step(s, Ready(k, NeedMore, Wrote(|body|)));
      && k in s'.conns && s'.conns[k].throttle.tnums == tnums && s'.conns[k].BodyWritten() == |body|
      && s'.conns[k].throttle.startedAt == Some(s'.now)
  {
    var c := s.conns[k];
    assert Taken(c, s.now, |body|) == |body|;
    assert AfterWrite(c, |body|).wire == [] + body[0..|body|] == body;
  }

  lemma OverrunBreaks(rules: seq<Rule>, s: Server, k: nat, i: nat)
    requires |rules| == |s.rules| && k in s.conns && i < |s.conns[k].throttle.tnums|
    requires s.conns[k].throttle.tnums[i] < |rules| && s.conns[k].throttle.startedAt == Some(s.now)
    requires 0 <= rules[s.conns[k].throttle.tnums[i]].maxLimit < s.conns[k].BodyWritten()
    ensures !CapHolds(rules, s, k, i)
  {}

  /** `n` newcomers have gathered, and the last one finds no share left. */
  lemma LateNewcomer(rules: seq<Rule>, now: nat, path: seq<Byte>, body: seq<Byte>, r: nat, k: nat) returns (joined: seq<Event>)
    requires Fresh(rules) && Open(rules, path) && r in Matched(rules, path) && k == rules[r].maxLimit < MAX_CONNECTIONS
    ensures var s := After(rules, now, joined);
      && k in s.conns && Newcomer(s, s.conns[k], body, Matched(rules, path))
      && FairShare(s.rules, Matched(rules, path)) == 0
  {
    var before := Joining(path, body, k);
    joined := before + [Arrival(k)] + [Asks(k, path, body)];
    var s := After(rules, now, joined);
    CrowdGathers(rules, now, path, body, k);
    CrowdStep(rules, now, path, body, k, before, s);
    CrowdCounts(rules, now, path, k + 1, s, r);
    NoShareLeft(rules, s.rules, path, r);
  }

  /** A rule that may admit and is smaller than the connection table is overrun: some run sends more under it
      than its limit allows. */
  lemma CrowdBreaksTheCap(rules: seq<Rule>, now: nat, r: nat) returns (events: seq<Event>, k: nat, i: nat)
    requires Fresh(rules) && r < |rules| && CanAdmit(rules, r) && rules[r].maxLimit < 4096
    ensures !CapHolds(rules, After(rules, now, events), k, i)
  {
    var path :| Open(rules, path) && r in Matched(rules, path);
    i :| 0 <= i < |Matched(rules, path)| && Matched(rules, path)[i] == r;
    k := rules[r].maxLimit;
    var body: seq<Byte> := seq(k + 1, _ => 0 as Byte);
    var joined := LateNewcomer(rules, now, path, body, r, k);
    NewcomerDrains(After(rules, now, joined), k, body, Matched(rules, path));
    events := joined + [Ready(k, NeedMore, Wrote(|body|))];
    RunAppends(Start(rules, now), joined, Ready(k, NeedMore, Wrote(|body|)));
    OverrunBreaks(rules, After(rules, now, events), k, i);
  }

  /** The plain cap is kept by every run if and only if every rule that may admit anybody allows at least as many
      bytes per second as the table has slots. */
  lemma CapHoldsInEveryRunIff(rules: seq<Rule>, now: nat)
    requires Fresh(rules)
    ensures (forall events, k, i :: CapHolds(rules, After(rules, now, events), k, i)) <==> Ample(rules)
  {
    if Ample(rules) {
      forall events, k, i ensures CapHolds(rules, After(rules, now, events), k, i) {
        AmpleKeepsTheCap(rules, now, events, k, i);
      }
    } else {
      var r :| 0 <= r < |rules| && CanAdmit(rules, r) && rules[r].maxLimit < 4096;
      var events, k, i := CrowdBreaksTheCap(rules, now, r);
    }
  }
}
