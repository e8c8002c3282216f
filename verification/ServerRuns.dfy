/** What every run of the event loop keeps: sender slots, the byte ledger, the rate bound,
    poll registrations and the written prefix. */
module ServerRuns {
  import opened Common
  import opened Throttle
  import opened EventLoop

  // ----- Sums over the connection table. -----

  lemma TotalPut(conns: map<nat, Conn>, k: nat, c: Conn, f: Conn -> int)
    ensures Total(conns[k := c], f) == f(c) + (if k in conns then Total(conns, f) - f(conns[k]) else Total(conns, f))
  {
    TotalMinus(conns[k := c], k, f);
    assert conns[k := c] - {k} == conns - {k};
    if k in conns {
      TotalMinus(conns, k, f);
    } else {
      assert conns - {k} == conns;
    }
  }

  lemma {:induction false} TotalSame(a: map<nat, Conn>, b: map<nat, Conn>, f: Conn -> int)
    requires a.Keys == b.Keys && forall k :: k in a ==> f(a[k]) == f(b[k])
    ensures Total(a, f) == Total(b, f)
    decreases |a|
  {
    if a == map[] {
      assert b == map[];
    } else {
      var p := Pick(a);
      assert (a - {p}).Keys == a.Keys - {p} && (b - {p}).Keys == b.Keys - {p};
      TotalSame(a - {p}, b - {p}, f);
      TotalMinus(b, p, f);
    }
  }

  lemma {:induction false} TotalAtMost(conns: map<nat, Conn>, f: Conn -> int, g: Conn -> int, b: int)
    requires forall k :: k in conns ==> f(conns[k]) <= b * g(conns[k])
    ensures Total(conns, f) <= b * Total(conns, g)
    decreases |conns|
  {
    if conns != map[] {
      var p := Pick(conns);
      assert (conns - {p}).Keys == conns.Keys - {p};
      TotalAtMost(conns - {p}, f, g, b);
      assert b * Total(conns, g) == b * g(conns[p]) + b * Total(conns - {p}, g);
    }
  }

  ghost function Sum(cs: seq<Conn>, f: Conn -> int): int {
    if cs == [] then 0 else Sum(cs[..|cs| - 1], f) + f(cs[|cs| - 1])
  }

  /** Whether a connection holds a sender slot of rule `r`, as a number. */
  function Holds(r: nat): Conn -> int {
    (c: Conn) => if r in c.throttle.tnums then 1 else 0
  }

  /** What a connection owes rule `r`: the body bytes its peer was sent, and a flat charge for its CGI run. */
  function Owes(r: nat): Conn -> int {
    (c: Conn) =>
      (if r in c.throttle.tnums then c.BodyWritten() else 0)
      + (if r in c.cgiCharged then 25_000 else 0)
  }

  ghost function Holders(conns: map<nat, Conn>, r: nat): set<nat> {
    set k | k in conns && r in conns[k].throttle.tnums
  }

  lemma HoldersMinus(conns: map<nat, Conn>, r: nat, p: nat)
    requires p in conns
    ensures |Holders(conns, r)| == |Holders(conns - {p}, r)| + Holds(r)(conns[p])
  {
    if r in conns[p].throttle.tnums {
      assert Holders(conns, r) == Holders(conns - {p}, r) + {p};
    } else {
      assert Holders(conns, r) == Holders(conns - {p}, r);
    }
  }

  lemma {:induction false} TotalCountsHolders(conns: map<nat, Conn>, r: nat)
    ensures Total(conns, Holds(r)) == |Holders(conns, r)|
    decreases |conns|
  {
    if conns != map[] {
      var p := Pick(conns);
      assert (conns - {p}).Keys == conns.Keys - {p};
      TotalCountsHolders(conns - {p}, r);
      HoldersMinus(conns, r, p);
    }
  }

  // ----- The invariant. -----

  predicate WithinRate(limit: int, secs: nat, body: int, free: int) {
    body <= Times(limit, secs) + free
  }

  /** Throttle bookkeeping of a connection that holds sender slots. */
  ghost predicate ThrottledOk(rules: seq<Rule>, now: nat, c: Conn)
    requires Within(c.throttle.tnums, |rules|)
  {
    && c.throttle.startedAt.Some? && c.throttle.startedAt.value <= now
    && c.throttle.bodyBytes == c.BodyWritten()
    && forall i :: 0 <= i < |c.throttle.tnums| ==>
         var limit := rules[c.throttle.tnums[i]].maxLimit;
         && limit >= 0 && c.throttle.maxLimit <= limit
         && WithinRate(limit, Elapsed(c.throttle.startedAt, now), c.throttle.bodyBytes, c.freeBody)
  }

  ghost predicate ConnOk(rules: seq<Rule>, now: nat, c: Conn) {
    && Distinct(c.throttle.tnums) && Within(c.throttle.tnums, |rules|)
    && c.bytesSent <= |c.response| && c.wire == c.response[..c.bytesSent]
    && (c.phase.Reading? ==>
         c.throttle == UNTHROTTLED && c.bytesSent == 0 && !c.isCgi && c.freeBody == 0 && c.cgiCharged == [])
    && (c.phase.Lingering? ==> c.bytesSent == |c.response|)
    && (c.phase.Pausing? <==> c.throttle.pauseUntil.Some?)
    && (c.phase.Pausing? ==> c.Throttled() && c.throttle.pauseUntil.value <= now + SECOND)
    && (c.Throttled() ==> ThrottledOk(rules, now, c))
  }

  function Wanted(phase: Phase): Interest
    requires !phase.Pausing?
  {
    if phase.Sending? then Writable else Readable
  }

  ghost predicate PollOk(conns: map<nat, Conn>, poll: map<nat, Interest>) {
    && (forall k :: k in poll <==> k in conns && !conns[k].phase.Pausing?)
    && (forall k :: k in poll ==> poll[k] == Wanted(conns[k].phase))
  }

  ghost predicate RulesOk(rules: seq<Rule>) {
    forall i :: 0 <= i < |rules| ==> rules[i].rate >= 0 && rules[i].bytesSinceAvg >= 0
  }

  ghost predicate SlotsOk(s: Server) {
    forall r :: 0 <= r < |s.rules| ==> s.rules[r].numSending == Total(s.conns, Holds(r))
  }

  ghost predicate LedgerOk(s: Server) {
    && |s.flushed| == |s.rules|
    && forall r :: 0 <= r < |s.rules| ==>
         s.flushed[r] + s.rules[r].bytesSinceAvg == Total(s.conns, Owes(r)) + Sum(s.retired, Owes(r))
  }

  ghost predicate Inv(s: Server) {
    && RulesOk(s.rules)
    && (forall k :: k in s.conns ==> ConnOk(s.rules, s.now, s.conns[k]))
    && PollOk(s.conns, s.poll)
    && SlotsOk(s)
    && LedgerOk(s)
  }

  // ----- How one connection's change carries over to the whole table. -----

  /** The same rules as configured; only rates and counts may differ. */
  ghost predicate SameLimits(a: seq<Rule>, b: seq<Rule>) {
    |a| == |b| && forall i :: 0 <= i < |a| ==>
      a[i].maxLimit == b[i].maxLimit && a[i].minLimit == b[i].minLimit && a[i].pattern == b[i].pattern
  }

  lemma ConnOkFrame(rules: seq<Rule>, other: seq<Rule>, now: nat, c: Conn)
    requires ConnOk(rules, now, c) && SameLimits(rules, other)
    ensures ConnOk(other, now, c)
  {}

  /** The rules that differ from `rules` exactly by what slot `c` becoming `c'` accounts for. */
  ghost predicate Accounts(rules: seq<Rule>, rules': seq<Rule>, c: Conn, c': Conn) {
    && SameLimits(rules, rules') && RulesOk(rules')
    && forall r :: 0 <= r < |rules| ==>
         && rules'[r].numSending - rules[r].numSending == Holds(r)(c') - Holds(r)(c)
         && rules'[r].bytesSinceAvg - rules[r].bytesSinceAvg == Owes(r)(c') - Owes(r)(c)
  }

  lemma ReplaceKeepsSums(s: Server, k: nat, rules': seq<Rule>, c': Conn, s': Server)
    requires SlotsOk(s) && LedgerOk(s) && k in s.conns && Accounts(s.rules, rules', s.conns[k], c')
    requires s'.rules == rules' && s'.conns == s.conns[k := c'] && s'.flushed == s.flushed && s'.retired == s.retired
    ensures SlotsOk(s') && LedgerOk(s')
  {
    forall r | 0 <= r < |rules'|
      ensures rules'[r].numSending == Total(s'.conns, Holds(r))
      ensures s'.flushed[r] + rules'[r].bytesSinceAvg == Total(s'.conns, Owes(r)) + Sum(s'.retired, Owes(r))
    {
      TotalPut(s.conns, k, c', Holds(r));
      TotalPut(s.conns, k, c', Owes(r));
    }
  }

  lemma ReplaceKeepsConns(rules: seq<Rule>, rules': seq<Rule>, now: nat,
                          conns: map<nat, Conn>, k: nat, c': Conn, conns': map<nat, Conn>)
    requires forall j :: j in conns ==> ConnOk(rules, now, conns[j])
    requires SameLimits(rules, rules') && ConnOk(rules', now, c') && conns' == conns[k := c']
    ensures forall j :: j in conns' ==> ConnOk(rules', now, conns'[j])
  {
    forall j | j in conns && j != k ensures ConnOk(rules', now, conns[j]) {
      ConnOkFrame(rules, rules', now, conns[j]);
    }
  }

  lemma ReplaceKeeps(s: Server, k: nat, rules': seq<Rule>, c': Conn, poll': map<nat, Interest>)
    requires Inv(s) && k in s.conns
    requires ConnOk(rules', s.now, c') && Accounts(s.rules, rules', s.conns[k], c')
    requires PollOk(s.conns[k := c'], poll')
    ensures Inv(s.(rules := rules', conns := s.conns[k := c'], poll := poll'))
  {
    var s' := s.(rules := rules', conns := s.conns[k := c'], poll := poll');
    ReplaceKeepsConns(s.rules, rules', s.now, s.conns, k, c', s'.conns);
    ReplaceKeepsSums(s, k, rules', c', s');
  }

  lemma AcceptKeepsSums(s: Server, k: nat)
    requires SlotsOk(s) && LedgerOk(s) && k !in s.conns
    ensures SlotsOk(s.(conns := s.conns[k := FRESH_CONN])) && LedgerOk(s.(conns := s.conns[k := FRESH_CONN]))
  {
    forall r | 0 <= r < |s.rules|
      ensures Total(s.conns[k := FRESH_CONN], Holds(r)) == Total(s.conns, Holds(r))
      ensures Total(s.conns[k := FRESH_CONN], Owes(r)) == Total(s.conns, Owes(r))
    {
      TotalPut(s.conns, k, FRESH_CONN, Holds(r));
      TotalPut(s.conns, k, FRESH_CONN, Owes(r));
    }
  }

  lemma AcceptKeeps(s: Server, k: nat, registered: bool)
    requires Inv(s)
    ensures Inv(Accept(s, k, registered))
  {
    if Accept(s, k, registered) != s {
      AcceptKeepsSums(s, k);
    }
  }

  lemma CloseKeeps(s: Server, k: nat)
    requires Inv(s) && k in s.conns
    ensures Inv(Close(s, k))
  {
    var c, s' := s.conns[k], Close(s, k);
    assert s'.retired[..|s.retired|] == s.retired;
    forall r | 0 <= r < |s.rules|
      ensures s'.rules[r].numSending == Total(s'.conns, Holds(r))
      ensures s'.flushed[r] + s'.rules[r].bytesSinceAvg == Total(s'.conns, Owes(r)) + Sum(s'.retired, Owes(r))
      ensures s'.rules[r].maxLimit == s.rules[r].maxLimit && s'.rules[r].rate >= 0 && s'.rules[r].bytesSinceAvg >= 0
    {
      TotalMinus(s.conns, k, Holds(r));
      TotalMinus(s.conns, k, Owes(r));
      DistinctEffects(s.rules, c.throttle.tnums, -1, r);
    }
    forall j | j in s'.conns ensures ConnOk(s'.rules, s.now, s'.conns[j]) {
      ConnOkFrame(s.rules, s'.rules, s.now, s.conns[j]);
    }
  }

  lemma SameRulesAccount(rules: seq<Rule>, c: Conn, c': Conn)
    requires RulesOk(rules) && c'.throttle.tnums == c.throttle.tnums && c'.cgiCharged == c.cgiCharged
    requires c'.BodyWritten() == c.BodyWritten()
    ensures Accounts(rules, rules, c, c')
  {}

  /** Only slot `k`'s registration changes, and it fits the new phase. */
  lemma PollReplaced(conns: map<nat, Conn>, poll: map<nat, Interest>, k: nat, c': Conn, poll': map<nat, Interest>)
    requires PollOk(conns, poll) && k in conns
    requires poll' - {k} == poll - {k}
    requires k in poll' <==> !c'.phase.Pausing?
    requires k in poll' ==> poll'[k] == Wanted(c'.phase)
    ensures PollOk(conns[k := c'], poll')
  {
    forall j | j != k ensures j in poll' <==> j in poll {
      assert j in poll' <==> j in poll' - {k};
      assert j in poll <==> j in poll - {k};
    }
    forall j | j != k && j in poll' ensures poll'[j] == poll[j] {
      assert (poll' - {k})[j] == (poll - {k})[j];
    }
  }

  lemma LingerKeeps(s: Server, k: nat)
    requires Inv(s) && k in s.conns && s.conns[k].phase.Sending? && s.conns[k].bytesSent == |s.conns[k].response|
    ensures Inv(ToLingering(s, k))
  {
    var c' := s.conns[k].(phase := Lingering);
    SameRulesAccount(s.rules, s.conns[k], c');
    PollReplaced(s.conns, s.poll, k, c', Reregister(s.poll, k, Readable));
    ReplaceKeeps(s, k, s.rules, c', Reregister(s.poll, k, Readable));
  }

  lemma PausedConnOk(rules: seq<Rule>, now: nat, c: Conn)
    requires ConnOk(rules, now, c) && c.phase.Sending? && c.Throttled()
    ensures ConnOk(rules, now, Paused(c, now))
  {}

  lemma PauseKeeps(s: Server, k: nat)
    requires Inv(s) && k in s.conns && s.conns[k].phase.Sending? && s.conns[k].Throttled()
    ensures Inv(Pause(s, k))
  {
    var c, c' := s.conns[k], Paused(s.conns[k], s.now);
    PausedConnOk(s.rules, s.now, c);
    SameRulesAccount(s.rules, c, c');
    assert Deregister(s.poll, k) - {k} == s.poll - {k};
    PollReplaced(s.conns, s.poll, k, c', Deregister(s.poll, k));
    ReplaceKeeps(s, k, s.rules, c', Deregister(s.poll, k));
  }

  // ----- Writing. -----

  /** The wire stays a prefix of the response. */
  lemma WireStaysPrefix(c: Conn, w: nat)
    requires c.bytesSent + w <= |c.response| && c.wire == c.response[..c.bytesSent]
    ensures AfterWrite(c, w).wire == c.response[..c.bytesSent + w]
  {}

  /** One write within the limit keeps the body within `limit * elapsed`, except for bytes
      written while the share was not positive. */
  lemma WriteKeepsRate(rules: seq<Rule>, now: nat, c: Conn, w: nat, i: nat)
    requires ConnOk(rules, now, c) && c.Throttled() && i < |c.throttle.tnums|
    requires w <= WriteLimit(c, now) && c.bytesSent + w <= |c.response|
    ensures var c' := AfterWrite(c, w);
      WithinRate(rules[c.throttle.tnums[i]].maxLimit, Elapsed(c.throttle.startedAt, now), c'.throttle.bodyBytes, c'.freeBody)
  {
    var secs := Elapsed(c.throttle.startedAt, now);
    TimesMonotone(c.throttle.maxLimit, rules[c.throttle.tnums[i]].maxLimit, secs, secs);
  }

  lemma {:induction false} TimesMonotone(rate: int, rate': int, secs: nat, secs': nat)
    requires rate <= rate' && secs <= secs' && rate' >= 0
    ensures Times(rate, secs) <= Times(rate', secs')
    decreases secs'
  {
    if secs' > secs {
      TimesMonotone(rate, rate', secs, secs' - 1);
    } else if secs > 0 {
      TimesMonotone(rate, rate', secs - 1, secs' - 1);
    }
  }

  lemma WrittenConnOk(rules: seq<Rule>, now: nat, c: Conn, w: nat)
    requires ConnOk(rules, now, c) && c.phase.Sending?
    requires w <= WriteLimit(c, now) && c.bytesSent + w <= |c.response|
    ensures ConnOk(rules, now, AfterWrite(c, w))
  {
    WireStaysPrefix(c, w);
    if c.Throttled() {
      forall i | 0 <= i < |c.throttle.tnums|
        ensures WithinRate(rules[c.throttle.tnums[i]].maxLimit, Elapsed(c.throttle.startedAt, now),
                           AfterWrite(c, w).throttle.bodyBytes, AfterWrite(c, w).freeBody)
      {
        WriteKeepsRate(rules, now, c, w, i);
      }
    }
  }

  /** Charging the body bytes of a write to the listed rules is what the write accounts for. */
  lemma WriteAccounts(rules: seq<Rule>, now: nat, c: Conn, w: nat)
    requires RulesOk(rules) && ConnOk(rules, now, c) && c.bytesSent + w <= |c.response|
    ensures var rules' := if c.Throttled() then Charge(rules, c.throttle.tnums, BodyDelta(c, w)) else rules;
      Accounts(rules, rules', c, AfterWrite(c, w))
  {
    WireStaysPrefix(c, w);
    if c.Throttled() {
      var d := BodyDelta(c, w);
      assert AfterWrite(c, w).BodyWritten() == c.BodyWritten() + d;
      var rules' := Charge(rules, c.throttle.tnums, d);
      forall r | 0 <= r < |rules|
        ensures rules'[r].numSending == rules[r].numSending && rules'[r].maxLimit == rules[r].maxLimit
        ensures rules'[r].rate == rules[r].rate
        ensures rules'[r].bytesSinceAvg == rules[r].bytesSinceAvg + (if r in c.throttle.tnums then d else 0)
      {
        DistinctEffects(rules, c.throttle.tnums, d, r);
      }
    }
  }

  ghost function Accounted(s: Server, k: nat, w: nat): Server
    requires k in s.conns && s.conns[k].bytesSent + w <= |s.conns[k].response|
  {
    var c := s.conns[k];
    s.(rules := if c.Throttled() then Charge(s.rules, c.throttle.tnums, BodyDelta(c, w)) else s.rules,
       conns := s.conns[k := AfterWrite(c, w)])
  }

  lemma AccountedKeeps(s: Server, k: nat, w: nat)
    requires Inv(s) && k in s.conns && s.conns[k].phase.Sending?
    requires s.conns[k].bytesSent + w <= |s.conns[k].response| && w <= WriteLimit(s.conns[k], s.now)
    ensures Inv(Accounted(s, k, w))
  {
    var c, c' := s.conns[k], AfterWrite(s.conns[k], w);
    var rules' := Accounted(s, k, w).rules;
    WrittenConnOk(s.rules, s.now, c, w);
    WriteAccounts(s.rules, s.now, c, w);
    ConnOkFrame(s.rules, rules', s.now, c');
    PollReplaced(s.conns, s.poll, k, c', s.poll);
    ReplaceKeeps(s, k, rules', c', s.poll);
    assert Accounted(s, k, w) == s.(rules := rules', conns := s.conns[k := c'], poll := s.poll);
  }

  lemma WriteKeeps(s: Server, k: nat, w: nat)
    requires Inv(s) && k in s.conns && s.conns[k].phase.Sending?
    requires s.conns[k].bytesSent + w <= |s.conns[k].response| && w <= WriteLimit(s.conns[k], s.now)
    ensures Inv(Write(s, k, w))
  {
    AccountedKeeps(s, k, w);
    var wrote := Accounted(s, k, w);
    var c' := wrote.conns[k];
    if c'.bytesSent >= |c'.response| {
      LingerKeeps(wrote, k);
    } else {
      assert Reregister(s.poll, k, Writable) == s.poll;
    }
  }

  lemma OfferKeeps(s: Server, k: nat, io: Io)
    requires Inv(s) && k in s.conns && s.conns[k].phase.Sending?
    ensures Inv(Offer(s, k, io))
  {
    match io
    case WouldBlock =>
    case Failed => CloseKeeps(s, k);
    case Wrote(n) => WriteKeeps(s, k, Taken(s.conns[k], s.now, n));
  }

  lemma SendKeeps(s: Server, k: nat, io: Io)
    requires Inv(s) && k in s.conns && s.conns[k].phase.Sending?
    ensures Inv(HandleSend(s, k, io))
  {
    var c := s.conns[k];
    if c.bytesSent >= |c.response| {
      LingerKeeps(s, k);
    } else if WriteLimit(c, s.now) == 0 {
      assert c.Throttled();
      PauseKeeps(s, k);
    } else {
      OfferKeeps(s, k, io);
    }
  }

  // ----- Pausing and waking. -----

  lemma ResumedConnOk(rules: seq<Rule>, now: nat, c: Conn)
    requires ConnOk(rules, now, c) && c.phase.Pausing?
    ensures ConnOk(rules, now, Resumed(rules, c))
  {
    FairShareIsMinimum(rules, c.throttle.tnums);
    forall i | 0 <= i < |c.throttle.tnums|
      ensures FairShare(rules, c.throttle.tnums) <= rules[c.throttle.tnums[i]].maxLimit
    {
      assert Share(rules[c.throttle.tnums[i]]) <= rules[c.throttle.tnums[i]].maxLimit;
    }
  }

  lemma UnpauseKeeps(s: Server, k: nat)
    requires Inv(s) && k in s.conns && s.conns[k].phase.Pausing?
    ensures Inv(Unpause(s, k))
  {
    var c' := Resumed(s.rules, s.conns[k]);
    ResumedConnOk(s.rules, s.now, s.conns[k]);
    SameRulesAccount(s.rules, s.conns[k], c');
    PollReplaced(s.conns, s.poll, k, c', Register(s.poll, k, Writable));
    ReplaceKeeps(s, k, s.rules, c', Register(s.poll, k, Writable));
  }

  lemma HandlePauseKeeps(s: Server, k: nat, io: Io)
    requires Inv(s) && k in s.conns && s.conns[k].phase.Pausing?
    ensures Inv(HandlePause(s, k, io))
  {
    if Due(s.conns[k], s.now) {
      UnpauseKeeps(s, k);
      SendKeeps(Unpause(s, k), k, io);
    }
  }

  lemma AdvancedConnOk(rules: seq<Rule>, now: nat, now': nat, c: Conn)
    requires ConnOk(rules, now, c) && now <= now'
    ensures ConnOk(rules, now', c)
  {
    if c.Throttled() {
      var secs, secs' := Elapsed(c.throttle.startedAt, now), Elapsed(c.throttle.startedAt, now');
      assert secs <= secs';
      forall i | 0 <= i < |c.throttle.tnums|
        ensures WithinRate(rules[c.throttle.tnums[i]].maxLimit, secs', c.throttle.bodyBytes, c.freeBody)
      {
        var limit := rules[c.throttle.tnums[i]].maxLimit;
        TimesMonotone(limit, limit, secs, secs');
      }
    }
  }

  lemma AdvanceKeeps(s: Server, d: nat)
    requires Inv(s)
    ensures Inv(s.(now := s.now + d))
  {
    forall k | k in s.conns ensures ConnOk(s.rules, s.now + d, s.conns[k]) {
      AdvancedConnOk(s.rules, s.now, s.now + d, s.conns[k]);
    }
  }

  lemma TickKeepsConns(s: Server)
    requires Inv(s)
    ensures forall k :: k in ThrottleTick(s).conns ==> ConnOk(ThrottleTick(s).rules, s.now, ThrottleTick(s).conns[k])
  {
    var s' := ThrottleTick(s);
    forall k | k in s'.conns ensures ConnOk(s'.rules, s.now, s'.conns[k]) {
      ConnOkFrame(s.rules, s'.rules, s.now, s.conns[k]);
      if Wakes(s.conns[k], s.now) {
        ResumedConnOk(s'.rules, s.now, s.conns[k]);
      }
    }
  }

  lemma TickKeepsSums(s: Server)
    requires Inv(s)
    ensures SlotsOk(ThrottleTick(s)) && LedgerOk(ThrottleTick(s))
  {
    var s' := ThrottleTick(s);
    forall r | 0 <= r < |s'.rules|
      ensures s'.rules[r].numSending == Total(s'.conns, Holds(r))
      ensures s'.flushed[r] + s'.rules[r].bytesSinceAvg == Total(s'.conns, Owes(r)) + Sum(s'.retired, Owes(r))
    {
      forall k | k in s.conns
        ensures Holds(r)(s.conns[k]) == Holds(r)(s'.conns[k]) && Owes(r)(s.conns[k]) == Owes(r)(s'.conns[k])
      {
        assert s'.conns[k].throttle.tnums == s.conns[k].throttle.tnums;
      }
      TotalSame(s.conns, s'.conns, Holds(r));
      TotalSame(s.conns, s'.conns, Owes(r));
    }
  }

  lemma TickKeepsPoll(s: Server)
    requires Inv(s)
    ensures PollOk(ThrottleTick(s).conns, ThrottleTick(s).poll)
  {
    var s' := ThrottleTick(s);
    forall k
      ensures k in s'.poll <==> k in s'.conns && !s'.conns[k].phase.Pausing?
      ensures k in s'.poll ==> s'.poll[k] == Wanted(s'.conns[k].phase)
    {
      if k in s.conns && Wakes(s.conns[k], s.now) {
        assert k !in s.poll;
      }
    }
  }

  lemma TickKeeps(s: Server)
    requires Inv(s)
    ensures Inv(ThrottleTick(s))
  {
    TickKeepsConns(s);
    TickKeepsSums(s);
    TickKeepsPoll(s);
  }

  // ----- Starting a response. -----

  /** What admission grants: distinct rules, each with a limit that bounds the granted share. */
  lemma AdmissionGrants(rules: seq<Rule>, path: seq<Byte>)
    requires RulesOk(rules) && Check(rules, path).0.Allow?
    requires forall i :: 0 <= i < |rules| ==> rules[i].numSending >= 0
    ensures var d := Check(rules, path).0;
      && d.tnums != [] && Distinct(d.tnums) && Within(d.tnums, |rules|)
      && forall i :: 0 <= i < |d.tnums| ==>
           rules[d.tnums[i]].maxLimit >= 0 && d.maxLimit <= rules[d.tnums[i]].maxLimit
  {
    AdmittedLimitsAreNonNegative(rules, path);
    var d := Check(rules, path).0;
    var admitted := Bump(rules, d.tnums, 1);
    FairShareIsMinimum(admitted, d.tnums);
    forall i | 0 <= i < |d.tnums| ensures d.maxLimit <= rules[d.tnums[i]].maxLimit {
      assert Share(admitted[d.tnums[i]]) <= admitted[d.tnums[i]].maxLimit;
    }
  }

  /** A connection about to send its first byte. */
  ghost predicate Opening(rules: seq<Rule>, now: nat, c: Conn) {
    && c.phase.Sending? && c.bytesSent == 0 && c.wire == []
    && c.throttle.bodyBytes == 0 && c.throttle.pauseUntil.None?
    && Distinct(c.throttle.tnums) && Within(c.throttle.tnums, |rules|)
    && (c.Throttled() ==> c.throttle.startedAt == Some(now))
    && forall i :: 0 <= i < |c.throttle.tnums| ==>
         rules[c.throttle.tnums[i]].maxLimit >= 0 && c.throttle.maxLimit <= rules[c.throttle.tnums[i]].maxLimit
  }

  lemma OpeningConnOk(rules: seq<Rule>, now: nat, c: Conn)
    requires Opening(rules, now, c)
    ensures ConnOk(rules, now, c)
  {
    forall i | 0 <= i < |c.throttle.tnums|
      ensures WithinRate(rules[c.throttle.tnums[i]].maxLimit, Elapsed(c.throttle.startedAt, now), 0, c.freeBody)
    {
      TimesMonotone(0, rules[c.throttle.tnums[i]].maxLimit, 0, Elapsed(c.throttle.startedAt, now));
    }
  }

  lemma OpenKeeps(s: Server, k: nat, rules': seq<Rule>, c': Conn)
    requires Inv(s) && k in s.conns && s.conns[k].phase.Reading?
    requires Opening(s.rules, s.now, c') && Accounts(s.rules, rules', s.conns[k], c')
    ensures Inv(s.(rules := rules', conns := s.conns[k := c'], poll := Reregister(s.poll, k, Writable)))
  {
    OpeningConnOk(s.rules, s.now, c');
    ConnOkFrame(s.rules, rules', s.now, c');
    assert Reregister(s.poll, k, Writable) - {k} == s.poll - {k};
    PollReplaced(s.conns, s.poll, k, c', Reregister(s.poll, k, Writable));
    ReplaceKeeps(s, k, rules', c', Reregister(s.poll, k, Writable));
  }

  /** Taking the slots that the admitted connection lists is what admission accounts for. */
  lemma TakingAccounts(rules: seq<Rule>, rules': seq<Rule>, c: Conn, c': Conn)
    requires RulesOk(rules) && c.throttle.tnums == [] && c.cgiCharged == [] && c'.cgiCharged == [] && c'.wire == []
    requires |rules'| == |rules|
    requires forall r :: 0 <= r < |rules| ==>
      rules'[r] == if r in c'.throttle.tnums then rules[r].(numSending := rules[r].numSending + 1) else rules[r]
    ensures Accounts(rules, rules', c, c')
  {}

  lemma AdmissionAccounts(rules: seq<Rule>, path: seq<Byte>, c: Conn, c': Conn)
    requires RulesOk(rules) && c.throttle.tnums == [] && c.cgiCharged == [] && c'.cgiCharged == [] && c'.wire == []
    requires c'.throttle.tnums == if Check(rules, path).0.Allow? then Check(rules, path).0.tnums else []
    ensures Accounts(rules, Check(rules, path).1, c, c')
  {
    forall r | 0 <= r < |rules|
      ensures Check(rules, path).1[r] ==
        if r in c'.throttle.tnums then rules[r].(numSending := rules[r].numSending + 1) else rules[r]
    {
      CheckTakesListedSlots(rules, path, r);
    }
    TakingAccounts(rules, Check(rules, path).1, c, c');
  }

  lemma SlotsAreNonNegative(s: Server)
    requires Inv(s)
    ensures forall r :: 0 <= r < |s.rules| ==> s.rules[r].numSending >= 0
  {
    forall r | 0 <= r < |s.rules| ensures s.rules[r].numSending >= 0 {
      TotalCountsHolders(s.conns, r);
    }
  }

  /** The slot of a connection whose response starts under `decision`. */
  lemma AdmittedKeeps(s: Server, k: nat, path: seq<Byte>, c': Conn)
    requires Inv(s) && k in s.conns && s.conns[k].phase.Reading?
    requires c'.phase.Sending? && c'.bytesSent == 0 && c'.wire == [] && c'.cgiCharged == []
    requires c'.throttle.bodyBytes == 0 && c'.throttle.pauseUntil.None?
    requires var d := Check(s.rules, path).0;
      if d.Allow? then
        c'.throttle.tnums == d.tnums && c'.throttle.maxLimit == d.maxLimit && c'.throttle.startedAt == Some(s.now)
      else c'.throttle.tnums == []
    ensures Inv(s.(rules := Check(s.rules, path).1, conns := s.conns[k := c'], poll := Reregister(s.poll, k, Writable)))
  {
    if Check(s.rules, path).0.Allow? {
      SlotsAreNonNegative(s);
      AdmissionGrants(s.rules, path);
    }
    AdmissionAccounts(s.rules, path, s.conns[k], c');
    OpenKeeps(s, k, Check(s.rules, path).1, c');
  }

  lemma AnswerKeeps(s: Server, k: nat, path: seq<Byte>, page: Page, busy: Page)
    requires Inv(s) && k in s.conns && s.conns[k].phase.Reading?
    ensures Inv(ToSending(s.(conns := s.conns[k := WithPage(s.conns[k], page)]), k, path, busy))
  {
    var c := WithPage(s.conns[k], page);
    var c' := Started(c, Check(s.rules, path).0, busy, s.now);
    AdmittedKeeps(s, k, path, c');
    assert s.conns[k := c][k := c'] == s.conns[k := c'];
  }

  lemma StaticKeeps(s: Server, k: nat, path: seq<Byte>, page: Page, busy: Page)
    requires Inv(s) && k in s.conns && s.conns[k].phase.Reading?
    ensures Inv(ServeStatic(s, k, path, page, busy))
  {
    var c := Admitted(s.conns[k], Check(s.rules, path).0, page, busy);
    var c' := Started(c, Unlimited, busy, s.now);
    AdmittedKeeps(s, k, path, c');
    assert s.conns[k := c][k := c'] == s.conns[k := c'];
  }

  /** A completed CGI run has given its slots back; what remains is the flat charge. */
  lemma CgiAccounts(rules: seq<Rule>, tnums: seq<nat>, ran: bool, c: Conn, c': Conn)
    requires RulesOk(rules) && Distinct(tnums) && tnums != []
    requires c.throttle.tnums == [] && c.cgiCharged == [] && c'.throttle.tnums == []
    requires c'.cgiCharged == if ran then tnums else []
    ensures var taken := Bump(rules, tnums, 1);
      Accounts(rules, Bump(if ran then Charge(taken, tnums, CGI_BYTECOUNT) else taken, tnums, -1), c, c')
  {
    var taken := Bump(rules, tnums, 1);
    var charged := if ran then Charge(taken, tnums, CGI_BYTECOUNT) else taken;
    var rules' := Bump(charged, tnums, -1);
    forall r | 0 <= r < |rules|
      ensures rules'[r] ==
        if ran && r in tnums then rules[r].(bytesSinceAvg := rules[r].bytesSinceAvg + CGI_BYTECOUNT) else rules[r]
    {
      DistinctEffects(rules, tnums, 1, r);
      DistinctEffects(taken, tnums, CGI_BYTECOUNT, r);
      DistinctEffects(charged, tnums, -1, r);
    }
  }

  lemma CgiKeeps(s: Server, k: nat, req: Request)
    requires Inv(s) && k in s.conns && s.conns[k].phase.Reading? && req.Cgi?
    ensures Inv(DispatchCgi(s, k, req))
  {
    var (decision, rules) := Check(s.rules, req.script);
    if decision.Reject? {
      AnswerKeeps(s, k, req.path, req.busy, req.busy);
    } else {
      var s' := DispatchCgi(s, k, req);
      var c' := s'.conns[k];
      assert s'.conns == s.conns[k := c'];
      if decision.Allow? {
        CgiAccounts(s.rules, decision.tnums, req.ran, s.conns[k], c');
      } else {
        SameRulesAccount(s.rules, s.conns[k], c');
      }
      OpenKeeps(s, k, s'.rules, c');
      assert s' == s.(rules := s'.rules, conns := s.conns[k := c'], poll := Reregister(s.poll, k, Writable));
    }
  }

  lemma ReadKeeps(s: Server, k: nat, req: Request)
    requires Inv(s) && k in s.conns && s.conns[k].phase.Reading?
    ensures Inv(HandleRead(s, k, req))
  {
    match req
    case NeedMore =>
    case Hangup => CloseKeeps(s, k);
    case Answer(path, page, busy) => AnswerKeeps(s, k, path, page, busy);
    case Static(path, page, busy) => StaticKeeps(s, k, path, page, busy);
    case Cgi(_, _, _, _, _) => CgiKeeps(s, k, req);
  }
}
