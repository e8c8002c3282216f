/** When the plain cap `limit * elapsed` is kept: in every run that never puts more senders on a rule
    than the rule has bytes per second. */
module ServerRates {
  import opened Common
  import opened Throttle
  import opened EventLoop
  import opened ServerRuns
  import opened ServerTheorems

  /** No rule has more senders than its limit has bytes per second. */
  predicate Roomy(rules: seq<Rule>) {
    forall r :: 0 <= r < |rules| && rules[r].numSending > 0 ==> rules[r].maxLimit >= rules[r].numSending
  }

  /** Every sender has a positive share and has never written without one. */
  predicate Capped(c: Conn) {
    c.Throttled() ==> c.throttle.maxLimit > 0 && c.freeBody == 0
  }

  ghost predicate AllCapped(s: Server) {
    forall k :: k in s.conns ==> Capped(s.conns[k])
  }

  /** Rules whose sender counts did not grow. */
  ghost predicate Fewer(rules: seq<Rule>, rules': seq<Rule>) {
    |rules| == |rules'| && forall r :: 0 <= r < |rules| ==>
      rules'[r].maxLimit == rules[r].maxLimit && rules'[r].numSending <= rules[r].numSending
  }

  lemma RoomyShares(rules: seq<Rule>, tnums: seq<nat>)
    requires Roomy(rules) && tnums != [] && Within(tnums, |rules|)
    requires forall i :: 0 <= i < |tnums| ==> rules[tnums[i]].maxLimit >= 0 && rules[tnums[i]].numSending > 0
    ensures FairShare(rules, tnums) > 0
  {
    ShareIsPositiveIff(rules, tnums);
  }

  /** Whoever is listed on a rule is counted there. */
  lemma ListedIsCounted(s: Server, k: nat, i: nat)
    requires Inv(s) && k in s.conns && i < |s.conns[k].throttle.tnums|
    ensures s.conns[k].throttle.tnums[i] < |s.rules|
    ensures s.rules[s.conns[k].throttle.tnums[i]].maxLimit >= 0 && s.rules[s.conns[k].throttle.tnums[i]].numSending > 0
  {
    var r := s.conns[k].throttle.tnums[i];
    assert ConnOk(s.rules, s.now, s.conns[k]);
    ShareWithinPart(s, k, r);
  }

  lemma ResumedIsCapped(s: Server, k: nat, rules: seq<Rule>)
    requires Inv(s) && k in s.conns && s.conns[k].phase.Pausing? && Capped(s.conns[k])
    requires Fewer(s.rules, rules) && Fewer(rules, s.rules) && Roomy(s.rules)
    ensures Capped(Resumed(rules, s.conns[k]))
  {
    var tnums := s.conns[k].throttle.tnums;
    assert ConnOk(s.rules, s.now, s.conns[k]);
    forall i | 0 <= i < |tnums| ensures rules[tnums[i]].maxLimit >= 0 && rules[tnums[i]].numSending > 0 {
      ListedIsCounted(s, k, i);
    }
    RoomyShares(rules, tnums);
  }

  lemma {:induction false} AddedSign(tnums: seq<nat>, t: nat, n: nat)
    requires n <= |tnums|
    ensures Added(tnums, t, -1, n) <= 0
  {
    if n > 0 {
      AddedSign(tnums, t, n - 1);
    }
  }

  lemma ChargeFewer(rules: seq<Rule>, tnums: seq<nat>, n: int)
    ensures Fewer(rules, Charge(rules, tnums, n)) && Fewer(rules, Bump(rules, tnums, -1))
  {
    forall r | 0 <= r < |rules| ensures Added(tnums, r, -1, |tnums|) <= 0 {
      AddedSign(tnums, r, |tnums|);
    }
  }

  lemma CloseCapped(s: Server, k: nat)
    requires k in s.conns && AllCapped(s)
    ensures AllCapped(Close(s, k)) && Fewer(s.rules, Close(s, k).rules)
  {
    ChargeFewer(s.rules, s.conns[k].throttle.tnums, 0);
  }

  lemma WriteCapped(s: Server, k: nat, w: nat)
    requires k in s.conns && AllCapped(s) && s.conns[k].bytesSent + w <= |s.conns[k].response|
    ensures AllCapped(Write(s, k, w)) && Fewer(s.rules, Write(s, k, w).rules)
  {
    ChargeFewer(s.rules, s.conns[k].throttle.tnums, BodyDelta(s.conns[k], w));
  }

  lemma SendCapped(s: Server, k: nat, io: Io)
    requires Inv(s) && k in s.conns && s.conns[k].phase.Sending? && AllCapped(s)
    ensures AllCapped(HandleSend(s, k, io)) && Fewer(s.rules, HandleSend(s, k, io).rules)
  {
    var c := s.conns[k];
    if c.bytesSent < |c.response| && WriteLimit(c, s.now) > 0 {
      match io
      case WouldBlock =>
      case Failed => CloseCapped(s, k);
      case Wrote(n) => WriteCapped(s, k, Taken(c, s.now, n));
    }
  }

  lemma PauseCapped(s: Server, k: nat, io: Io)
    requires Inv(s) && k in s.conns && s.conns[k].phase.Pausing? && AllCapped(s) && Roomy(s.rules)
    ensures AllCapped(HandlePause(s, k, io)) && Fewer(s.rules, HandlePause(s, k, io).rules)
  {
    if Due(s.conns[k], s.now) {
      UnpauseKeeps(s, k);
      ResumedIsCapped(s, k, s.rules);
      SendCapped(Unpause(s, k), k, io);
    }
  }

  /** What a slot looks like when it starts to send: its share is the one of the table it leaves. */
  ghost predicate Opened(s: Server, s': Server, k: nat) {
    && k in s'.conns && s'.conns == s.conns[k := s'.conns[k]] && s'.conns[k].freeBody == 0
    && (s'.conns[k].Throttled() ==>
         Within(s'.conns[k].throttle.tnums, |s'.rules|) &&
         s'.conns[k].throttle.maxLimit == FairShare(s'.rules, s'.conns[k].throttle.tnums))
  }

  ghost predicate Untouched(s: Server, k: nat) {
    k in s.conns && s.conns[k].throttle == UNTHROTTLED && s.conns[k].freeBody == 0 && !s.conns[k].isCgi
  }

  lemma GrantIsShare(rules: seq<Rule>, path: seq<Byte>)
    requires Check(rules, path).0.Allow?
    ensures var (d, rules') := Check(rules, path);
      Within(d.tnums, |rules'|) && d.maxLimit == FairShare(rules', d.tnums)
  {}

  lemma AnswerOpens(s: Server, k: nat, path: seq<Byte>, page: Page, busy: Page)
    requires Untouched(s, k)
    ensures Opened(s, ToSending(s.(conns := s.conns[k := WithPage(s.conns[k], page)]), k, path, busy), k)
  {
    var c := WithPage(s.conns[k], page);
    var c' := Started(c, Check(s.rules, path).0, busy, s.now);
    assert s.conns[k := c][k := c'] == s.conns[k := c'];
    if Check(s.rules, path).0.Allow? {
      GrantIsShare(s.rules, path);
    }
  }

  lemma StaticOpens(s: Server, k: nat, path: seq<Byte>, page: Page, busy: Page)
    requires Untouched(s, k)
    ensures Opened(s, ServeStatic(s, k, path, page, busy), k)
  {
    var c := Admitted(s.conns[k], Check(s.rules, path).0, page, busy);
    var c' := Started(c, Unlimited, busy, s.now);
    assert s.conns[k := c][k := c'] == s.conns[k := c'];
    if Check(s.rules, path).0.Allow? {
      GrantIsShare(s.rules, path);
    }
  }

  lemma CgiOpens(s: Server, k: nat, req: Request)
    requires Untouched(s, k) && req.Cgi?
    ensures Opened(s, DispatchCgi(s, k, req), k)
  {
    if Check(s.rules, req.script).0.Reject? {
      AnswerOpens(s, k, req.path, req.busy, req.busy);
    } else {
      var s' := DispatchCgi(s, k, req);
      assert s'.conns == s.conns[k := s'.conns[k]];
      assert !s'.conns[k].Throttled();
    }
  }

  lemma ReadOpens(s: Server, k: nat, req: Request)
    requires Untouched(s, k) && !req.NeedMore? && !req.Hangup?
    ensures Opened(s, HandleRead(s, k, req), k)
  {
    match req
    case Answer(path, page, busy) => AnswerOpens(s, k, path, page, busy);
    case Static(path, page, busy) => StaticOpens(s, k, path, page, busy);
    case Cgi(_, _, _, _, _) => CgiOpens(s, k, req);
  }

  lemma ReadCapped(s: Server, k: nat, req: Request)
    requires Inv(s) && k in s.conns && s.conns[k].phase.Reading? && AllCapped(s)
    requires Roomy(HandleRead(s, k, req).rules)
    ensures AllCapped(HandleRead(s, k, req))
  {
    if req.Hangup? {
      CloseCapped(s, k);
    } else if !req.NeedMore? {
      var s' := HandleRead(s, k, req);
      ReadKeeps(s, k, req);
      assert ConnOk(s.rules, s.now, s.conns[k]);
      ReadOpens(s, k, req);
      if s'.conns[k].Throttled() {
        forall i | 0 <= i < |s'.conns[k].throttle.tnums|
          ensures s'.rules[s'.conns[k].throttle.tnums[i]].maxLimit >= 0
          ensures s'.rules[s'.conns[k].throttle.tnums[i]].numSending > 0
        {
          ListedIsCounted(s', k, i);
        }
        RoomyShares(s'.rules, s'.conns[k].throttle.tnums);
      }
    }
  }

  lemma EventCapped(s: Server, k: nat, req: Request, io: Io)
    requires Inv(s) && AllCapped(s) && Roomy(s.rules) && Roomy(HandleEvent(s, k, req, io).rules)
    ensures AllCapped(HandleEvent(s, k, req, io))
  {
    if k in s.conns {
      match s.conns[k].phase
      case Reading => ReadCapped(s, k, req);
      case Sending => SendCapped(s, k, io);
      case Lingering => CloseCapped(s, k);
      case Pausing => PauseCapped(s, k, io);
    }
  }

  lemma {:induction false} ResumeCapped(s: Server, order: seq<nat>, ios: seq<Io>)
    requires Inv(s) && |ios| == |order| && AllCapped(s) && Roomy(s.rules)
    ensures AllCapped(ResumeAll(s, order, ios))
    decreases |order|
  {
    if order != [] {
      if order[0] in s.conns && s.conns[order[0]].phase.Pausing? {
        PauseCapped(s, order[0], ios[0]);
      }
      ResumeCapped(ResumeOne(s, order[0], ios[0]), order[1..], ios[1..]);
    }
  }

  lemma TickCapped(s: Server)
    requires Inv(s) && AllCapped(s) && Roomy(s.rules)
    ensures AllCapped(ThrottleTick(s))
  {
    var s' := ThrottleTick(s);
    forall k | k in s'.conns ensures Capped(s'.conns[k]) {
      if Wakes(s.conns[k], s.now) {
        ResumedIsCapped(s, k, s'.rules);
      }
    }
  }

  lemma StepCapped(s: Server, e: Event)
    requires Inv(s) && AllCapped(s) && Roomy(s.rules) && Roomy(Step(s, e).rules)
    ensures AllCapped(Step(s, e))
  {
    match e
    case Incoming(k, registered) =>
    case Ready(k, req, io) => EventCapped(s, k, req, io);
    case Resume(order, ios) =>
      if |ios| == |order| {
        ResumeCapped(s, order, ios);
      }
    case Tick => TickCapped(s);
    case Passed(d) =>
  }

  ghost predicate RoomyThroughout(s: Server, events: seq<Event>)
    requires Inv(s)
    decreases |events|
  {
    Roomy(s.rules) && (events != [] ==> RoomyThroughout(Step(s, events[0]), events[1..]))
  }

  lemma {:induction false} RunCapped(s: Server, events: seq<Event>)
    requires Inv(s) && AllCapped(s) && RoomyThroughout(s, events)
    ensures AllCapped(Run(s, events))
    decreases |events|
  {
    if events != [] {
      StepCapped(s, events[0]);
      RunCapped(Step(s, events[0]), events[1..]);
    }
  }

  /** Over every run in which no rule is oversubscribed, every sender's share is positive and it has sent at
      most `limit` body bytes per second under every rule it is listed on. */
  lemma RateBoundWithoutOversubscription(rules: seq<Rule>, now: nat, events: seq<Event>, k: nat, i: nat)
    requires Fresh(rules) && RoomyThroughout(Start(rules, now), events)
    ensures var s := After(rules, now, events);
      k in s.conns && i < |s.conns[k].throttle.tnums| ==>
        var c := s.conns[k];
        && c.throttle.maxLimit > 0 && c.throttle.tnums[i] < |rules|
        && c.throttle.startedAt.Some? && c.throttle.startedAt.value <= s.now
        && WithinLimit(rules[c.throttle.tnums[i]].maxLimit, s.now - c.throttle.startedAt.value, c.BodyWritten(), 0)
  {
    RunCapped(Start(rules, now), events);
    RateBound(rules, now, events, k, i);
  }
}
