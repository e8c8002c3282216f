/** The shares in force. A share is computed when a connection is admitted and again when it is resumed, so the shares
    of a rule's senders may add up to more than its limit. They never add up to more than the limit divided by one,
    two, three and so on up to the number of senders, and sequential admissions attain that. */
module ServerShares {
  import opened Common
  import opened Throttle
  import opened EventLoop
  import opened ServerRuns
  import opened ServerTheorems
  import opened ServerRates
  import opened ServerLimits

  // ----- Counting. -----

  function Lists(conns: map<nat, Conn>, k: nat, r: nat): nat {
    if k in conns && r in conns[k].throttle.tnums then 1 else 0
  }

  /** How many of the keys are connections listed on rule `r`. */
  function CountIn(conns: map<nat, Conn>, keys: seq<nat>, r: nat): nat {
    if keys == [] then 0 else CountIn(conns, keys[..|keys| - 1], r) + Lists(conns, keys[|keys| - 1], r)
  }

  /** limit / 1 + limit / 2 + ... + limit / n. */
  function Harmonic(limit: int, n: nat): int {
    if n == 0 then 0 else Harmonic(limit, n - 1) + Quot(limit, n)
  }

  lemma {:induction false} QuotAntitone(a: int, b: int, c: int)
    requires a >= 0 && 0 < b <= c
    ensures Quot(a, c) <= Quot(a, b)
    decreases a
  {
    if a >= c {
      QuotAntitone(a - c, b, c);
      QuotMonotone(a - c, a - b, b);
    }
  }

  lemma {:induction false} QuotMonotone(a: int, a': int, b: int)
    requires 0 <= a <= a' && b > 0
    ensures Quot(a, b) <= Quot(a', b)
    decreases a'
  {
    if a >= b {
      QuotMonotone(a - b, a' - b, b);
    }
  }

  // ----- The ranking by admission. -----

  /** The share of a listed slot is at most its rule's limit divided by its rank. */
  ghost predicate FitsRank(rules: seq<Rule>, c: Conn, rank: nat -> nat) {
    forall i :: 0 <= i < |c.throttle.tnums| ==>
      var r := c.throttle.tnums[i];
      r < |rules| && rules[r].maxLimit >= 0 && c.throttle.maxLimit <= Quot(rules[r].maxLimit, Max(1, rank(r)))
  }

  /** `order` lists throttled slots, each once, and each share fits the rank of its slot among those before it. */
  ghost predicate Ranked(rules: seq<Rule>, conns: map<nat, Conn>, order: seq<nat>) {
    order != [] ==>
      var init, k := order[..|order| - 1], order[|order| - 1];
      && Ranked(rules, conns, init) && k !in init && k in conns && conns[k].Throttled()
      && FitsRank(rules, conns[k], (r: nat) => CountIn(conns, order, r))
  }

  /** Every throttled slot is in the list. */
  ghost predicate Covers(conns: map<nat, Conn>, order: seq<nat>) {
    forall k :: k in conns && conns[k].Throttled() ==> k in order
  }

  lemma {:induction false} RankedKeys(rules: seq<Rule>, conns: map<nat, Conn>, order: seq<nat>)
    requires Ranked(rules, conns, order)
    ensures Distinct(order) && forall i :: 0 <= i < |order| ==> order[i] in conns && conns[order[i]].Throttled()
  {
    if order != [] {
      RankedKeys(rules, conns, order[..|order| - 1]);
    }
  }

  /** A rank is at most the number of holders. */
  lemma {:induction false} CountWithin(conns: map<nat, Conn>, keys: seq<nat>, r: nat)
    requires Distinct(keys) && forall i :: 0 <= i < |keys| ==> keys[i] in conns
    ensures CountIn(conns, keys, r) <= Total(conns, Holds(r))
    decreases |keys|
  {
    if keys == [] {
      TotalCountsHolders(conns, r);
    } else {
      var init, k := keys[..|keys| - 1], keys[|keys| - 1];
      CountSame(conns, conns - {k}, init, r);
      CountWithin(conns - {k}, init, r);
      TotalMinus(conns, k, Holds(r));
    }
  }

  lemma {:induction false} CountSame(a: map<nat, Conn>, b: map<nat, Conn>, keys: seq<nat>, r: nat)
    requires forall i :: 0 <= i < |keys| ==> Lists(a, keys[i], r) == Lists(b, keys[i], r)
    ensures CountIn(a, keys, r) == CountIn(b, keys, r)
  {
    if keys != [] {
      CountSame(a, b, keys[..|keys| - 1], r);
    }
  }

  // ----- The bound. -----

  /** The share in force of a connection listed on rule `r`. */
  function InForce(r: nat): Conn -> int {
    (c: Conn) => if r in c.throttle.tnums then c.throttle.maxLimit else 0
  }

  lemma {:induction false} RankedSum(rules: seq<Rule>, conns: map<nat, Conn>, order: seq<nat>, r: nat)
    requires Ranked(rules, conns, order) && r < |rules|
    requires forall k :: k in conns && k !in order ==> InForce(r)(conns[k]) == 0 && Holds(r)(conns[k]) == 0
    ensures CountIn(conns, order, r) == Total(conns, Holds(r))
    ensures Total(conns, InForce(r)) <= Harmonic(rules[r].maxLimit, CountIn(conns, order, r))
    decreases |order|
  {
    if order == [] {
      TotalZero(conns, InForce(r));
      TotalZero(conns, Holds(r));
    } else {
      var init, k := order[..|order| - 1], order[|order| - 1];
      RankedKeys(rules, conns, order);
      RankedWithout(rules, conns, init, k);
      CountSame(conns, conns - {k}, init, r);
      RankedSum(rules, conns - {k}, init, r);
      TotalMinus(conns, k, InForce(r));
      TotalMinus(conns, k, Holds(r));
      LastFits(rules, conns, order, r);
    }
  }

  /** The last slot adds at most the next term. */
  lemma LastFits(rules: seq<Rule>, conns: map<nat, Conn>, order: seq<nat>, r: nat)
    requires Ranked(rules, conns, order) && order != [] && r < |rules|
    ensures var k := order[|order| - 1];
      r in conns[k].throttle.tnums ==> InForce(r)(conns[k]) <= Quot(rules[r].maxLimit, Max(1, CountIn(conns, order, r)))
  {
    var k := order[|order| - 1];
    if r in conns[k].throttle.tnums {
      var i :| 0 <= i < |conns[k].throttle.tnums| && conns[k].throttle.tnums[i] == r;
    }
  }

  lemma {:induction false} TotalZero(conns: map<nat, Conn>, f: Conn -> int)
    requires forall k :: k in conns ==> f(conns[k]) == 0
    ensures Total(conns, f) == 0
    decreases |conns|
  {
    if conns != map[] {
      var p := Pick(conns);
      assert (conns - {p}).Keys == conns.Keys - {p};
      TotalZero(conns - {p}, f);
    }
  }

  /** Slots outside the list do not matter to it. */
  lemma {:induction false} RankedWithout(rules: seq<Rule>, conns: map<nat, Conn>, order: seq<nat>, k: nat)
    requires Ranked(rules, conns, order) && k !in order
    ensures Ranked(rules, conns - {k}, order)
  {
    if order != [] {
      RankedWithout(rules, conns, order[..|order| - 1], k);
      forall r: nat ensures CountIn(conns - {k}, order, r) == CountIn(conns, order, r) {
        CountSame(conns, conns - {k}, order, r);
      }
    }
  }

  // ----- What changes do to the ranking. -----

  /** A share that was computed with the present counts. */
  ghost predicate Recomputed(rules: seq<Rule>, conns: map<nat, Conn>, c: Conn) {
    FitsRank(rules, c, (r: nat) => |Holders(conns, r)|)
  }

  lemma RecomputedFits(rules: seq<Rule>, conns: map<nat, Conn>, keys: seq<nat>, c: Conn)
    requires Distinct(keys) && (forall i :: 0 <= i < |keys| ==> keys[i] in conns) && Recomputed(rules, conns, c)
    ensures FitsRank(rules, c, (r: nat) => CountIn(conns, keys, r))
  {
    forall i | 0 <= i < |c.throttle.tnums|
      ensures var r := c.throttle.tnums[i];
        c.throttle.maxLimit <= Quot(rules[r].maxLimit, Max(1, CountIn(conns, keys, r)))
    {
      var r := c.throttle.tnums[i];
      CountWithin(conns, keys, r);
      TotalCountsHolders(conns, r);
      QuotAntitone(rules[r].maxLimit, Max(1, CountIn(conns, keys, r)), Max(1, |Holders(conns, r)|));
    }
  }

  /** The same listings, and shares that are as before or freshly computed. */
  ghost predicate SameListings(rules': seq<Rule>, conns: map<nat, Conn>, conns': map<nat, Conn>, order: seq<nat>) {
    forall i :: 0 <= i < |order| ==>
      var k := order[i];
      && k in conns && k in conns' && conns'[k].throttle.tnums == conns[k].throttle.tnums
      && (conns'[k].throttle.maxLimit == conns[k].throttle.maxLimit || Recomputed(rules', conns, conns'[k]))
  }

  lemma {:induction false} RankedChange(rules: seq<Rule>, rules': seq<Rule>, conns: map<nat, Conn>, conns': map<nat, Conn>,
                                        order: seq<nat>)
    requires Ranked(rules, conns, order) && SameLimits(rules, rules') && SameListings(rules', conns, conns', order)
    ensures Ranked(rules', conns', order)
    decreases |order|
  {
    if order != [] {
      var init, k := order[..|order| - 1], order[|order| - 1];
      assert forall i :: 0 <= i < |init| ==> init[i] == order[i];
      RankedChange(rules, rules', conns, conns', init);
      RankedKeys(rules, conns, order);
      forall r: nat ensures CountIn(conns', order, r) == CountIn(conns, order, r) {
        CountSame(conns, conns', order, r);
      }
      if conns'[k].throttle.maxLimit != conns[k].throttle.maxLimit {
        RecomputedFits(rules', conns, order, conns'[k]);
      }
    }
  }

  function Remove(order: seq<nat>, k: nat): (rest: seq<nat>)
    ensures forall j :: j in rest <==> j in order && j != k
  {
    if order == [] then []
    else
      var init, last := Remove(order[..|order| - 1], k), order[|order| - 1];
      if last == k then init else init + [last]
  }

  lemma {:induction false} CountRemoved(conns: map<nat, Conn>, order: seq<nat>, k: nat, r: nat)
    ensures CountIn(conns - {k}, Remove(order, k), r) <= CountIn(conns, order, r)
  {
    if order != [] {
      CountRemoved(conns, order[..|order| - 1], k, r);
      var rest := Remove(order, k);
      if order[|order| - 1] != k {
        assert rest[..|rest| - 1] == Remove(order[..|order| - 1], k);
      }
    }
  }

  lemma SmallerRankFits(rules: seq<Rule>, c: Conn, rank: nat -> nat, rank': nat -> nat)
    requires FitsRank(rules, c, rank) && forall r :: rank'(r) <= rank(r)
    ensures FitsRank(rules, c, rank')
  {
    forall i | 0 <= i < |c.throttle.tnums|
      ensures var r := c.throttle.tnums[i]; c.throttle.maxLimit <= Quot(rules[r].maxLimit, Max(1, rank'(r)))
    {
      var r := c.throttle.tnums[i];
      QuotAntitone(rules[r].maxLimit, Max(1, rank'(r)), Max(1, rank(r)));
    }
  }

  /** When a slot is closed the others keep their order, and their ranks can only fall. */
  lemma {:induction false} RankedRemoved(rules: seq<Rule>, conns: map<nat, Conn>, order: seq<nat>, k: nat)
    requires Ranked(rules, conns, order)
    ensures Ranked(rules, conns - {k}, Remove(order, k))
  {
    if order != [] {
      var init, last := order[..|order| - 1], order[|order| - 1];
      RankedRemoved(rules, conns, init, k);
      if last != k {
        var rest := Remove(order, k);
        assert rest[..|rest| - 1] == Remove(init, k);
        forall r: nat ensures CountIn(conns - {k}, rest, r) <= CountIn(conns, order, r) {
          CountRemoved(conns, order, k, r);
        }
        SmallerRankFits(rules, conns[last], (r: nat) => CountIn(conns, order, r), (r: nat) => CountIn(conns - {k}, rest, r));
      }
    }
  }

  // ----- The steps. -----

  ghost predicate InOrder(s: Server, order: seq<nat>) {
    Ranked(s.rules, s.conns, order) && Covers(s.conns, order)
  }

  /** A share computed from a table whose counts are right. */
  lemma FreshShare(s: Server, c: Conn, rules: seq<Rule>)
    requires SlotsOk(s) && SameLimits(s.rules, rules) && Within(c.throttle.tnums, |rules|) && c.Throttled()
    requires forall r :: 0 <= r < |rules| ==> rules[r].numSending == s.rules[r].numSending
    requires forall i :: 0 <= i < |c.throttle.tnums| ==> rules[c.throttle.tnums[i]].maxLimit >= 0
    requires c.throttle.maxLimit == FairShare(rules, c.throttle.tnums)
    ensures Recomputed(rules, s.conns, c)
  {
    FairShareIsMinimum(rules, c.throttle.tnums);
    forall i | 0 <= i < |c.throttle.tnums|
      ensures var r := c.throttle.tnums[i];
        c.throttle.maxLimit <= Quot(rules[r].maxLimit, Max(1, |Holders(s.conns, r)|))
    {
      TotalCountsHolders(s.conns, c.throttle.tnums[i]);
      assert c.throttle.maxLimit <= Share(rules[c.throttle.tnums[i]]);
    }
  }

  /** One slot changes, with the same listings. */
  lemma SlotChanged(s: Server, s': Server, order: seq<nat>, k: nat)
    requires InOrder(s, order) && SameLimits(s.rules, s'.rules) && s'.conns - {k} == s.conns - {k}
    requires k in s.conns && k in s'.conns && s'.conns[k].throttle.tnums == s.conns[k].throttle.tnums
    requires s'.conns[k].throttle.maxLimit == s.conns[k].throttle.maxLimit || Recomputed(s'.rules, s.conns, s'.conns[k])
    ensures InOrder(s', order)
  {
    RankedKeys(s.rules, s.conns, order);
    forall j | j != k ensures j in s'.conns <==> j in s.conns
                      ensures j in s.conns ==> s'.conns[j] == s.conns[j]
    {
      OthersStay(s, s', k, j);
    }
    RankedChange(s.rules, s'.rules, s.conns, s'.conns, order);
  }

  lemma ClosedInOrder(s: Server, order: seq<nat>, k: nat)
    requires InOrder(s, order) && k in s.conns
    ensures InOrder(Close(s, k), Remove(order, k))
  {
    var s' := Close(s, k);
    RankedRemoved(s.rules, s.conns, order, k);
    RankedKeys(s.rules, s'.conns, Remove(order, k));
    RankedChange(s.rules, s'.rules, s'.conns, s'.conns, Remove(order, k));
  }

  lemma SentInOrder(s: Server, order: seq<nat>, k: nat, io: Io) returns (order': seq<nat>)
    requires Inv(s) && InOrder(s, order) && k in s.conns && s.conns[k].phase.Sending?
    ensures InOrder(HandleSend(s, k, io), order')
  {
    var c, s' := s.conns[k], HandleSend(s, k, io);
    order' := order;
    assert ConnOk(s.rules, s.now, c);
    SendFrame(s, k, io);
    if k in s'.conns {
      SlotChanged(s, s', order, k);
    } else {
      order' := Remove(order, k);
      ClosedInOrder(s, order, k);
    }
  }

  lemma ResumedInOrder(s: Server, order: seq<nat>, k: nat)
    requires Inv(s) && InOrder(s, order) && k in s.conns && s.conns[k].phase.Pausing?
    ensures InOrder(Unpause(s, k), order)
  {
    ResumedShare(s, k);
    UnpausedInOrder(s, order, k);
  }

  lemma UnpausedInOrder(s: Server, order: seq<nat>, k: nat)
    requires InOrder(s, order) && k in s.conns && Within(s.conns[k].throttle.tnums, |s.rules|)
    requires Recomputed(s.rules, s.conns, Resumed(s.rules, s.conns[k]))
    ensures InOrder(Unpause(s, k), order)
  {
    assert Unpause(s, k).conns - {k} == s.conns - {k};
    SlotChanged(s, Unpause(s, k), order, k);
  }

  lemma ResumedShare(s: Server, k: nat)
    requires Inv(s) && k in s.conns && s.conns[k].phase.Pausing?
    ensures Within(s.conns[k].throttle.tnums, |s.rules|)
    ensures Recomputed(s.rules, s.conns, Resumed(s.rules, s.conns[k]))
  {
    assert ConnOk(s.rules, s.now, s.conns[k]);
    FreshShare(s, Resumed(s.rules, s.conns[k]), s.rules);
  }

  lemma PausedInOrder(s: Server, order: seq<nat>, k: nat, io: Io) returns (order': seq<nat>)
    requires Inv(s) && InOrder(s, order) && k in s.conns && s.conns[k].phase.Pausing?
    ensures InOrder(HandlePause(s, k, io), order')
  {
    order' := order;
    if Due(s.conns[k], s.now) {
      ResumedInOrder(s, order, k);
      UnpauseKeeps(s, k);
      order' := SentInOrder(Unpause(s, k), order, k, io);
    }
  }

  /** A newcomer joins at the end, with a share for the table it leaves. */
  lemma Joined(s: Server, s': Server, order: seq<nat>, k: nat)
    requires InOrder(s, order) && SameLimits(s.rules, s'.rules) && k !in order
    requires k in s'.conns && s'.conns == s.conns[k := s'.conns[k]] && s'.conns[k].Throttled()
    requires Recomputed(s'.rules, s'.conns, s'.conns[k])
    ensures InOrder(s', order + [k])
  {
    var more := order + [k];
    RankedKeys(s.rules, s.conns, order);
    RankedChange(s.rules, s'.rules, s.conns, s'.conns, order);
    assert more[..|order|] == order;
    RankedKeys(s'.rules, s'.conns, order);
    RecomputedFits(s'.rules, s'.conns, more, s'.conns[k]);
  }

  lemma ReadInOrder(s: Server, order: seq<nat>, k: nat, req: Request) returns (order': seq<nat>)
    requires Inv(s) && InOrder(s, order) && k in s.conns && s.conns[k].phase.Reading?
    ensures InOrder(HandleRead(s, k, req), order')
  {
    order' := order;
    var s' := HandleRead(s, k, req);
    if req.Hangup? {
      order' := Remove(order, k);
      ClosedInOrder(s, order, k);
    } else if !req.NeedMore? {
      assert ConnOk(s.rules, s.now, s.conns[k]);
      ReadKeeps(s, k, req);
      ReadKeepsLimits(s, k, req);
      ReadOpens(s, k, req);
      order' := Opens(s, s', order, k);
    }
  }

  lemma Opens(s: Server, s': Server, order: seq<nat>, k: nat) returns (order': seq<nat>)
    requires InOrder(s, order) && Untouched(s, k) && SameLimits(s.rules, s'.rules) && Inv(s') && Opened(s, s', k)
    ensures InOrder(s', order')
  {
    RankedKeys(s.rules, s.conns, order);
    assert k !in order;
    assert ConnOk(s'.rules, s'.now, s'.conns[k]);
    if s'.conns[k].Throttled() {
      order' := order + [k];
      FreshShare(s', s'.conns[k], s'.rules);
      Joined(s, s', order, k);
    } else {
      order' := order;
      RankedChange(s.rules, s'.rules, s.conns, s'.conns, order);
    }
  }

  lemma EventInOrder(s: Server, order: seq<nat>, k: nat, req: Request, io: Io) returns (order': seq<nat>)
    requires Inv(s) && InOrder(s, order)
    ensures InOrder(HandleEvent(s, k, req, io), order')
  {
    order' := order;
    if k in s.conns {
      match s.conns[k].phase
      case Reading => order' := ReadInOrder(s, order, k, req);
      case Sending => order' := SentInOrder(s, order, k, io);
      case Lingering =>
        order' := Remove(order, k);
        ClosedInOrder(s, order, k);
      case Pausing => order' := PausedInOrder(s, order, k, io);
    }
  }

  lemma {:induction false} ResumeInOrder(s: Server, order: seq<nat>, keys: seq<nat>, ios: seq<Io>) returns (order': seq<nat>)
    requires Inv(s) && InOrder(s, order) && |ios| == |keys|
    ensures InOrder(ResumeAll(s, keys, ios), order')
    decreases |keys|
  {
    order' := order;
    if keys != [] {
      if keys[0] in s.conns && s.conns[keys[0]].phase.Pausing? {
        order' := PausedInOrder(s, order, keys[0], ios[0]);
      }
      order' := ResumeInOrder(ResumeOne(s, keys[0], ios[0]), order', keys[1..], ios[1..]);
    }
  }

  lemma TickInOrder(s: Server, order: seq<nat>)
    requires Inv(s) && InOrder(s, order)
    ensures InOrder(ThrottleTick(s), order)
  {
    var s' := ThrottleTick(s);
    RankedKeys(s.rules, s.conns, order);
    forall k | k in s.conns && Wakes(s.conns[k], s.now) ensures Recomputed(s'.rules, s.conns, s'.conns[k]) {
      TickShare(s, k);
    }
    RankedChange(s.rules, s'.rules, s.conns, s'.conns, order);
  }

  lemma TickShare(s: Server, k: nat)
    requires Inv(s) && k in s.conns && Wakes(s.conns[k], s.now)
    ensures Recomputed(ThrottleTick(s).rules, s.conns, ThrottleTick(s).conns[k])
  {
    assert ConnOk(s.rules, s.now, s.conns[k]);
    FreshShare(s, Resumed(AveragedAll(s.rules), s.conns[k]), AveragedAll(s.rules));
  }

  lemma AcceptInOrder(s: Server, order: seq<nat>, k: nat, registered: bool)
    requires InOrder(s, order)
    ensures InOrder(Accept(s, k, registered), order)
  {
    RankedKeys(s.rules, s.conns, order);
    RankedChange(s.rules, s.rules, s.conns, Accept(s, k, registered).conns, order);
  }

  lemma StepInOrder(s: Server, order: seq<nat>, e: Event) returns (order': seq<nat>)
    requires Inv(s) && InOrder(s, order)
    ensures InOrder(Step(s, e), order')
  {
    order' := order;
    match e
    case Incoming(k, registered) => AcceptInOrder(s, order, k, registered);
    case Ready(k, req, io) => order' := EventInOrder(s, order, k, req, io);
    case Resume(keys, ios) =>
      if |ios| == |keys| {
        order' := ResumeInOrder(s, order, keys, ios);
      }
    case Tick => TickInOrder(s, order);
    case Passed(d) =>
  }

  lemma {:induction false} RunInOrder(s: Server, order: seq<nat>, events: seq<Event>) returns (order': seq<nat>)
    requires Inv(s) && InOrder(s, order)
    ensures InOrder(Run(s, events), order')
    decreases |events|
  {
    order' := order;
    if events != [] {
      order' := StepInOrder(s, order, events[0]);
      order' := RunInOrder(Step(s, events[0]), order', events[1..]);
    }
  }

  /** In every reachable state the shares in force of a rule's senders add up to at most
      limit / 1 + limit / 2 + ... + limit / n for its n senders. */
  lemma SharesInForce(rules: seq<Rule>, now: nat, events: seq<Event>, r: nat)
    requires Fresh(rules) && r < |rules|
    ensures var s := After(rules, now, events);
      Total(s.conns, InForce(r)) <= Harmonic(rules[r].maxLimit, |Holders(s.conns, r)|)
  {
    var s := After(rules, now, events);
    var order := RunInOrder(Start(rules, now), [], events);
    RankedSum(s.rules, s.conns, order, r);
    TotalCountsHolders(s.conns, r);
  }

  // ----- Admissions one after the other attain it. -----

  lemma NewcomersShare(rules: seq<Rule>, now: nat, path: seq<Byte>, body: seq<Byte>, n: nat, s: Server, r: nat)
    requires r < |rules| && SlotsOk(s) && Crowd(rules, now, path, n, s) && Matched(rules, path) == [r] && n > 0
    requires n - 1 in s.conns && Newcomer(s, s.conns[n - 1], body, [r])
    ensures InForce(r)(s.conns[n - 1]) == Quot(rules[r].maxLimit, n)
  {
    CrowdCounts(rules, now, path, n, s, r);
    FairShareAppends(s.rules, [], r);
    assert [] + [r] == [r];
  }

  lemma OneMoreShare(rules: seq<Rule>, now: nat, path: seq<Byte>, body: seq<Byte>, n: nat, before: map<nat, Conn>, s: Server, r: nat)
    requires r < |rules| && SlotsOk(s) && Crowd(rules, now, path, n + 1, s) && Matched(rules, path) == [r]
    requires n in s.conns && Newcomer(s, s.conns[n], body, [r]) && n !in before && s.conns == before[n := s.conns[n]]
    requires Total(before, InForce(r)) == Harmonic(rules[r].maxLimit, n)
    ensures Total(s.conns, InForce(r)) == Harmonic(rules[r].maxLimit, n + 1)
  {
    NewcomersShare(rules, now, path, body, n + 1, s, r);
    TotalPut(before, n, s.conns[n], InForce(r));
  }

  /** The events gather `n` senders whose shares add up to the whole sum. */
  ghost predicate Gathers(rules: seq<Rule>, now: nat, path: seq<Byte>, n: nat, r: nat, events: seq<Event>)
    requires Fresh(rules) && r < |rules|
  {
    var s := After(rules, now, events);
    Crowd(rules, now, path, n, s) && Total(s.conns, InForce(r)) == Harmonic(rules[r].maxLimit, n)
  }

  lemma GathersNobody(rules: seq<Rule>, now: nat, path: seq<Byte>, r: nat)
    requires Fresh(rules) && r < |rules|
    ensures Gathers(rules, now, path, 0, r, [])
  {
    CrowdStarts(rules, now, path);
    assert After(rules, now, []) == Start(rules, now);
  }

  lemma GathersOneMore(rules: seq<Rule>, now: nat, path: seq<Byte>, body: seq<Byte>, n: nat, r: nat, events: seq<Event>,
                       more: seq<Event>)
    requires Fresh(rules) && r < |rules| && Open(rules, path) && Matched(rules, path) == [r] && n < MAX_CONNECTIONS
    requires Gathers(rules, now, path, n, r, events) && more == events + [Arrival(n)] + [Asks(n, path, body)]
    ensures Gathers(rules, now, path, n + 1, r, more)
  {
    CrowdStep(rules, now, path, body, n, events, After(rules, now, more));
    OneMoreShare(rules, now, path, body, n, After(rules, now, events).conns, After(rules, now, more), r);
  }

  /** Under a rule that is alone on an open path, `n` connections admitted one after the other hold shares that add
      up to exactly limit / 1 + limit / 2 + ... + limit / n. */
  lemma {:induction false} SharesInForceAttained(rules: seq<Rule>, now: nat, path: seq<Byte>, body: seq<Byte>, n: nat, r: nat)
    returns (events: seq<Event>)
    requires Fresh(rules) && r < |rules| && Open(rules, path) && Matched(rules, path) == [r] && n <= MAX_CONNECTIONS
    ensures Gathers(rules, now, path, n, r, events)
    decreases n
  {
    if n == 0 {
      GathersNobody(rules, now, path, r);
      events := [];
    } else {
      var before := SharesInForceAttained(rules, now, path, body, n - 1, r);
      events := before + [Arrival(n - 1)] + [Asks(n - 1, path, body)];
      GathersOneMore(rules, now, path, body, n - 1, r, before, events);
    }
  }

  lemma {:induction false} QuotOne(a: int)
    requires a >= 0
    ensures Quot(a, 1) == a
  {
    if a > 0 {
      QuotOne(a - 1);
    }
  }

  /** So two senders overrun every such limit of two or more. */
  lemma SharesInForceOverrun(rules: seq<Rule>, now: nat, path: seq<Byte>, r: nat) returns (events: seq<Event>)
    requires Fresh(rules) && r < |rules| && Open(rules, path) && Matched(rules, path) == [r] && rules[r].maxLimit >= 2
    ensures Total(After(rules, now, events).conns, InForce(r)) > rules[r].maxLimit
  {
    var limit := rules[r].maxLimit;
    events := SharesInForceAttained(rules, now, path, [], 2, r);
    QuotOne(limit);
    assert Harmonic(limit, 1) == Harmonic(limit, 0) + Quot(limit, 1);
    assert Quot(limit, 2) == 1 + Quot(limit - 2, 2);
  }
}
