/** No response is stuck: however a connection was paused and its share cut, it needs at most as many
    one-second rounds as its body has bytes. */
module ServerProgress {
  import opened Common
  import opened Throttle
  import opened EventLoop
  import opened ServerRuns
  import opened ServerTheorems

  predicate Active(c: Conn) {
    c.phase.Sending? || c.phase.Pausing?
  }

  /** The body that the response has, as the throttle counts it. */
  function BodyLength(c: Conn): nat {
    BodyPart(c, |c.response|)
  }

  /** The response is out and the slot waits for the peer. */
  predicate Finished(s: Server, k: nat) {
    k in s.conns && s.conns[k].phase.Lingering? && s.conns[k].wire == s.conns[k].response
  }

  /** What stays the same about a response while it is sent. */
  predicate SameResponse(c: Conn, c': Conn) {
    && c'.response == c.response && c'.throttle.headerLen == c.throttle.headerLen
    && c'.throttle.startedAt == c.throttle.startedAt && c'.throttle.tnums == c.throttle.tnums
  }

  /** Nothing holds the rest of the response back: it is not capped, or its window covers the body. */
  predicate Unhindered(c: Conn, now: nat) {
    c.Throttled() && c.throttle.maxLimit > 0 ==>
      Times(c.throttle.maxLimit, Elapsed(c.throttle.startedAt, now)) >= BodyLength(c)
  }

  /** An unhindered connection may write all that is left. */
  lemma LimitCoversRest(rules: seq<Rule>, now: nat, c: Conn)
    requires ConnOk(rules, now, c) && c.phase.Sending? && Unhindered(c, now)
    ensures WriteLimit(c, now) >= |c.response| - c.bytesSent
  {}

  /** What a socket that takes all it is offered leaves of the slot. */
  lemma WriteAll(rules: seq<Rule>, now: nat, c: Conn, n: nat)
    requires ConnOk(rules, now, c) && c.phase.Sending? && n >= |c.response|
    ensures var c' := AfterWrite(c, Taken(c, now, n));
      && SameResponse(c, c') && c'.phase == c.phase && c'.wire == c.response[..c'.bytesSent]
      && (Unhindered(c, now) ==> c'.bytesSent == |c.response|)
  {
    WireStaysPrefix(c, Taken(c, now, n));
    if Unhindered(c, now) {
      LimitCoversRest(rules, now, c);
    }
  }

  /** One send with a socket that takes all it is offered. */
  lemma SendAll(s: Server, k: nat, n: nat)
    requires k in s.conns && ConnOk(s.rules, s.now, s.conns[k]) && s.conns[k].phase.Sending? && n >= |s.conns[k].response|
    ensures var s' := HandleSend(s, k, Wrote(n));
      Moved(s.conns[k], s.now, Unhindered(s.conns[k], s.now), s', k)
  {
    var c := s.conns[k];
    WriteAll(s.rules, s.now, c, n);
    if Unhindered(c, s.now) {
      LimitCoversRest(s.rules, s.now, c);
    }
  }

  lemma ResumeAndSend(s: Server, k: nat, n: nat)
    requires Inv(s) && k in s.conns && s.conns[k].phase.Pausing? && Due(s.conns[k], s.now) && n >= |s.conns[k].response|
    ensures var s' := HandlePause(s, k, Wrote(n));
      Moved(s.conns[k], s.now, Unhindered(Resumed(s.rules, s.conns[k]), s.now), s', k)
  {
    UnpauseKeeps(s, k);
    assert ConnOk(s.rules, s.now, Unpause(s, k).conns[k]);
    SendAll(Unpause(s, k), k, n);
  }

  /** One round: a second passes, the loop resumes the slot if its pause is over, and the poller reports it
      writable if it is sending; the socket takes all it is offered. */
  ghost function Round(s: Server, k: nat): (s': Server)
    requires Inv(s) && k in s.conns
    ensures Inv(s')
  {
    var io := Wrote(|s.conns[k].response|);
    var resumed := Step(Step(s, Passed(SECOND)), Resume([k], [io]));
    if k in resumed.conns && resumed.conns[k].phase.Sending? then Step(resumed, Ready(k, NeedMore, io)) else resumed
  }

  lemma ResumeStep(s: Server, k: nat, io: Io)
    requires Inv(s)
    ensures Step(s, Resume([k], [io])) == ResumeOne(s, k, io)
  {
    assert [k][1..] == [] && [io][1..] == [];
    assert ResumeAll(ResumeOne(s, k, io), [], []) == ResumeOne(s, k, io);
  }

  /** The share that a round will use. */
  ghost function ShareOf(s: Server, k: nat): int
    requires Inv(s) && k in s.conns
  {
    assert ConnOk(s.rules, s.now, s.conns[k]);
    if s.conns[k].phase.Pausing? then FairShare(s.rules, s.conns[k].throttle.tnums) else s.conns[k].throttle.maxLimit
  }

  /** The slot as a round will send from it. */
  ghost predicate WillFinish(s: Server, k: nat)
    requires Inv(s) && k in s.conns
  {
    var c := s.conns[k];
    c.Throttled() && ShareOf(s, k) > 0 ==>
      Times(ShareOf(s, k), Elapsed(c.throttle.startedAt, s.now + SECOND)) >= BodyLength(c)
  }

  /** From a pause: the deadline is at most a second ahead, so the round resumes the slot. */
  lemma RoundFromPause(s: Server, k: nat)
    requires Inv(s) && k in s.conns && s.conns[k].phase.Pausing?
    ensures var io, s1 := Wrote(|s.conns[k].response|), s.(now := s.now + SECOND);
      && Inv(s1) && Due(s1.conns[k], s1.now)
      && Step(Step(s, Passed(SECOND)), Resume([k], [io])) == HandlePause(s1, k, io)
  {
    var io, s1 := Wrote(|s.conns[k].response|), s.(now := s.now + SECOND);
    AdvanceKeeps(s, SECOND);
    assert ConnOk(s.rules, s.now, s.conns[k]);
    assert Step(s, Passed(SECOND)) == s1;
    ResumeStep(s1, k, io);
  }

  lemma RoundWhileSending(s: Server, k: nat)
    requires Inv(s) && k in s.conns && s.conns[k].phase.Sending?
    ensures var io, s1 := Wrote(|s.conns[k].response|), s.(now := s.now + SECOND);
      Inv(s1) && Round(s, k) == HandleSend(s1, k, io)
  {
    var io, s1 := Wrote(|s.conns[k].response|), s.(now := s.now + SECOND);
    AdvanceKeeps(s, SECOND);
    assert Step(s, Passed(SECOND)) == s1;
    ResumeStep(s1, k, io);
  }

  /** What a step does to a slot that was `c`: it stays active or is finished, and finished if it must be. */
  predicate Moved(c: Conn, now: nat, must: bool, s': Server, k: nat) {
    && k in s'.conns && SameResponse(c, s'.conns[k]) && s'.now == now
    && (Active(s'.conns[k]) || Finished(s', k))
    && (must ==> Finished(s', k))
  }

  lemma WillFinishSending(s: Server, k: nat)
    requires Inv(s) && k in s.conns && s.conns[k].phase.Sending?
    ensures WillFinish(s, k) <==> Unhindered(s.conns[k], s.now + SECOND)
  {}

  lemma SendingEffect(s: Server, k: nat)
    requires Inv(s) && k in s.conns && s.conns[k].phase.Sending?
    ensures Moved(s.conns[k], s.now + SECOND, WillFinish(s, k), Round(s, k), k)
  {
    RoundWhileSending(s, k);
    WillFinishSending(s, k);
    LaterSend(s.(now := s.now + SECOND), k);
  }

  lemma LaterSend(s: Server, k: nat)
    requires Inv(s) && k in s.conns && s.conns[k].phase.Sending?
    ensures var c := s.conns[k];
      Moved(c, s.now, Unhindered(c, s.now), HandleSend(s, k, Wrote(|c.response|)), k)
  {
    SlotOk(s, k);
    SendAll(s, k, |s.conns[k].response|);
  }

  lemma SlotOk(s: Server, k: nat)
    requires Inv(s) && k in s.conns
    ensures ConnOk(s.rules, s.now, s.conns[k])
  {}

  /** A slot that is still sending after it was resumed gets one more send. */
  lemma AfterResume(s: Server, k: nat, c: Conn, must: bool)
    requires Inv(s) && Moved(c, s.now, must, s, k)
    ensures var io := Wrote(|c.response|);
      Moved(c, s.now, must, if s.conns[k].phase.Sending? then HandleSend(s, k, io) else s, k)
  {
    if s.conns[k].phase.Sending? {
      SlotOk(s, k);
      SendAll(s, k, |c.response|);
    }
  }

  /** What a round is once the resume pass has led to `s2`. */
  lemma RoundAfterResume(s: Server, k: nat, s2: Server)
    requires Inv(s) && k in s.conns && Inv(s2) && k in s2.conns
    requires s2 == Step(Step(s, Passed(SECOND)), Resume([k], [Wrote(|s.conns[k].response|)]))
    ensures Round(s, k) ==
      if s2.conns[k].phase.Sending? then HandleSend(s2, k, Wrote(|s.conns[k].response|)) else s2
  {}

  lemma ResumeMoves(s: Server, k: nat) returns (s2: Server)
    requires Inv(s) && k in s.conns && s.conns[k].phase.Pausing?
    ensures Inv(s2) && s2 == Step(Step(s, Passed(SECOND)), Resume([k], [Wrote(|s.conns[k].response|)]))
    ensures Moved(s.conns[k], s.now + SECOND, WillFinish(s, k), s2, k)
  {
    var c, s1 := s.conns[k], s.(now := s.now + SECOND);
    RoundFromPause(s, k);
    ResumeAndSend(s1, k, |c.response|);
    HandlePauseKeeps(s1, k, Wrote(|c.response|));
    s2 := HandlePause(s1, k, Wrote(|c.response|));
  }

  lemma PausedEffect(s: Server, k: nat)
    requires Inv(s) && k in s.conns && s.conns[k].phase.Pausing?
    ensures Moved(s.conns[k], s.now + SECOND, WillFinish(s, k), Round(s, k), k)
  {
    var s2 := ResumeMoves(s, k);
    RoundAfterResume(s, k, s2);
    AfterResume(s2, k, s.conns[k], WillFinish(s, k));
  }

  /** A round leaves an active connection active or finished, and finishes it when nothing hinders it. */
  lemma RoundEffect(s: Server, k: nat)
    requires Inv(s) && k in s.conns && Active(s.conns[k])
    ensures Moved(s.conns[k], s.now + SECOND, WillFinish(s, k), Round(s, k), k)
  {
    if s.conns[k].phase.Sending? {
      SendingEffect(s, k);
    } else {
      PausedEffect(s, k);
    }
  }

  lemma WindowGrows(share: int, secs: nat, body: nat)
    requires share > 0 && secs >= body
    ensures Times(share, secs) >= body
  {
    TimesMonotone(1, share, secs, secs);
    TimesIsProduct(1, secs);
  }

  lemma LateWillFinish(s: Server, k: nat)
    requires Inv(s) && k in s.conns
    requires Elapsed(s.conns[k].throttle.startedAt, s.now + SECOND) >= BodyLength(s.conns[k])
    ensures WillFinish(s, k)
  {
    if ShareOf(s, k) > 0 {
      WindowGrows(ShareOf(s, k), Elapsed(s.conns[k].throttle.startedAt, s.now + SECOND), BodyLength(s.conns[k]));
    }
  }

  /** Whatever happened before, in any state of the invariant: a round that is taken once the connection has been
      sending for as many seconds as its body has bytes finishes the response. */
  lemma LateRoundFinishes(s: Server, k: nat)
    requires Inv(s) && k in s.conns && Active(s.conns[k])
    requires Elapsed(s.conns[k].throttle.startedAt, s.now + SECOND) >= BodyLength(s.conns[k])
    ensures Finished(Round(s, k), k)
  {
    LateWillFinish(s, k);
    RoundEffect(s, k);
  }

  /** An unthrottled response needs one round. */
  lemma UnthrottledFinishes(s: Server, k: nat)
    requires Inv(s) && k in s.conns && Active(s.conns[k]) && !s.conns[k].Throttled()
    ensures Finished(Round(s, k), k)
  {
    RoundEffect(s, k);
  }

  /** A slot that was `c` is still active, `n` seconds after `now`, or it is finished. */
  predicate Onward(c: Conn, now: nat, n: nat, s: Server, k: nat) {
    && k in s.conns && SameResponse(c, s.conns[k])
    && (Finished(s, k) || (Active(s.conns[k]) && s.now == now + n * SECOND))
  }

  /** `n` rounds, or fewer if the response is out before. */
  ghost function Rounds(s: Server, k: nat, n: nat): (s': Server)
    requires Inv(s) && k in s.conns && Active(s.conns[k])
    ensures Inv(s') && Onward(s.conns[k], s.now, n, s', k)
  {
    if n == 0 then s
    else
      var before := Rounds(s, k, n - 1);
      if Finished(before, k) then before
      else
        RoundGoesOn(s.conns[k], s.now, n - 1, before, k);
        Round(before, k)
  }

  lemma RoundGoesOn(c: Conn, now: nat, n: nat, s: Server, k: nat)
    requires Inv(s) && Onward(c, now, n, s, k) && !Finished(s, k)
    ensures Onward(c, now, n + 1, Round(s, k), k)
  {
    RoundEffect(s, k);
  }

  /** The round that starts `n` seconds after `now` finishes a response of at most `n + 1` body bytes. */
  lemma RoundIsLate(c: Conn, now: nat, n: nat, s: Server, k: nat)
    requires Inv(s) && Onward(c, now, n, s, k) && !Finished(s, k) && BodyLength(c) <= n + 1
    requires c.Throttled() ==> c.throttle.startedAt.Some? && c.throttle.startedAt.value <= now
    ensures Finished(Round(s, k), k)
  {
    if c.Throttled() {
      assert Elapsed(c.throttle.startedAt, now + (n + 1) * SECOND) >= n + 1;
      LateRoundFinishes(s, k);
    } else {
      UnthrottledFinishes(s, k);
    }
  }

  /** In every reachable state, a connection that is sending or paused finishes its response within as many
      rounds as its body has bytes, and within one if the body is empty. */
  lemma EveryResponseFinishes(rules: seq<Rule>, now: nat, events: seq<Event>, k: nat)
    requires Fresh(rules)
    ensures var s := After(rules, now, events);
      k in s.conns && Active(s.conns[k]) ==>
        var s' := Rounds(s, k, Max(1, BodyLength(s.conns[k])));
        Finished(s', k) && s'.conns[k].response == s.conns[k].response
  {
    var s := After(rules, now, events);
    if k in s.conns && Active(s.conns[k]) {
      SlotOk(s, k);
      FinishesWithin(s, k, Max(1, BodyLength(s.conns[k])));
    }
  }

  lemma FinishesWithin(s: Server, k: nat, n: nat)
    requires Inv(s) && k in s.conns && Active(s.conns[k]) && n >= 1 && n >= BodyLength(s.conns[k])
    ensures Finished(Rounds(s, k, n), k)
  {
    var before := Rounds(s, k, n - 1);
    if !Finished(before, k) {
      SlotOk(s, k);
      RoundIsLate(s.conns[k], s.now, n - 1, before, k);
    }
  }
}
