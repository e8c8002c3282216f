/** The event loop as the source runs it: handlers that update the slab, the poller and the
    throttle table in place, each proved to take the step that the run theorems speak about. */
module ServerLoop {
  import opened Common
  import opened Throttle
  import opened EventLoop
  import opened ServerRuns
  import T = ServerTheorems

  /** What each socket would answer this round. */
  function Reply(sockets: map<nat, Io>, k: nat): Io {
    if k in sockets then sockets[k] else WouldBlock
  }

  function Replies(sockets: map<nat, Io>, order: seq<nat>): (ios: seq<Io>)
    ensures |ios| == |order|
  {
    seq(|order|, i requires 0 <= i < |order| => Reply(sockets, order[i]))
  }

  /** Resuming a list is resuming its first key and then the others. */
  lemma ResumeAllFirst(s: Server, order: seq<nat>, rest: seq<nat>, sockets: map<nat, Io>)
    requires Inv(s) && order != [] && rest == order[1..]
    ensures T.ResumeAll(s, order, Replies(sockets, order)) ==
      T.ResumeAll(T.ResumeOne(s, order[0], Reply(sockets, order[0])), rest, Replies(sockets, rest))
  {
    assert Replies(sockets, order)[1..] == Replies(sockets, rest);
  }

  lemma {:induction false} ResumeAllAppends(s: Server, order: seq<nat>, sockets: map<nat, Io>, k: nat)
    requires Inv(s)
    ensures T.ResumeAll(s, order + [k], Replies(sockets, order + [k])) ==
      T.ResumeOne(T.ResumeAll(s, order, Replies(sockets, order)), k, Reply(sockets, k))
    decreases |order|
  {
    var more := order + [k];
    ResumeAllFirst(s, more, more[1..], sockets);
    if order != [] {
      ResumeAllFirst(s, order, order[1..], sockets);
      assert more[1..] == order[1..] + [k];
      ResumeAllAppends(T.ResumeOne(s, order[0], Reply(sockets, order[0])), order[1..], sockets, k);
    }
  }

  lemma {:induction false} AddedNothing(tnums: seq<nat>, t: nat, n: nat)
    requires n <= |tnums|
    ensures Added(tnums, t, 0, n) == 0
  {
    if n > 0 {
      AddedNothing(tnums, t, n - 1);
    }
  }

  lemma ChargeNothing(rules: seq<Rule>, tnums: seq<nat>)
    ensures Charge(rules, tnums, 0) == rules
  {
    forall i | 0 <= i < |rules| ensures Charge(rules, tnums, 0)[i] == rules[i] {
      AddedNothing(tnums, i, |tnums|);
    }
  }

  class Loop {
    const table: ThrottleTable
    var conns: map<nat, Conn>
    var poll: map<nat, Interest>
    var now: nat
    ghost var retired: seq<Conn>
    ghost var flushed: seq<int>

    ghost function View(): Server
      reads this, table
    {
      Server(table.entries, conns, poll, now, retired, flushed)
    }

    constructor (rules: seq<Rule>, start: nat)
      requires T.Fresh(rules)
      ensures fresh(table) && View() == T.Start(rules, start)
    {
      table := new ThrottleTable(rules);
      conns, poll, now, retired := map[], map[], start, [];
      flushed := seq(|rules|, i requires 0 <= i < |rules| => 0);
    }

    /** Accept one stream into a free slot. */
    method HandleAccept(k: nat, registered: bool)
      modifies this
      ensures View() == EventLoop.Accept(old(View()), k, registered)
    {
      if k in conns || |conns| >= MAX_CONNECTIONS || !registered {
        return;
      }
      conns := conns[k := FRESH_CONN];
      poll := EventLoop.Register(poll, k, Readable);
    }

    method CloseConnection(k: nat)
      requires k in conns
      modifies this, table
      ensures View() == EventLoop.Close(old(View()), k)
    {
      var slot := conns[k];
      if slot.Throttled() {
        table.Clear(slot.throttle.tnums);
      }
      poll := EventLoop.Deregister(poll, k);
      retired := retired + [slot];
      conns := conns - {k};
    }

    method TransitionToLingering(k: nat)
      requires k in conns
      modifies this
      ensures View() == EventLoop.ToLingering(old(View()), k)
    {
      conns := conns[k := conns[k].(phase := Lingering)];
      poll := EventLoop.Reregister(poll, k, Readable);
    }

    /** Admission for responses that were not checked upstream, then start sending. */
    method TransitionToSending(k: nat, path: seq<Byte>, busy: Page)
      requires k in conns && (conns[k].isCgi || conns[k].throttle.checked || table.Valid())
      modifies this, table
      ensures View() == EventLoop.ToSending(old(View()), k, path, busy)
    {
      var decision := Unlimited;
      var slot := conns[k];
      if !slot.isCgi && !slot.throttle.checked {
        decision := table.CheckRequest(path);
      }
      slot := slot.(phase := Sending, bytesSent := 0);
      if slot.throttle.checked && slot.Throttled() {
        slot := slot.(throttle := slot.throttle.(headerLen := slot.headerLen, startedAt := Some(now)));
      }
      match decision {
        case Allow(tnums, maxLimit, minLimit) =>
          slot := slot.(throttle := slot.throttle.(
            tnums := tnums, maxLimit := maxLimit, minLimit := minLimit,
            headerLen := slot.headerLen, startedAt := Some(now)));
        case Reject =>
          slot := slot.(response := busy.bytes, headerLen := busy.headerLen);
        case Unlimited =>
      }
      conns := conns[k := slot];
      poll := EventLoop.Reregister(poll, k, Writable);
    }

    /** Static files: admission before the body is mapped. */
    method ServeStatic(k: nat, path: seq<Byte>, page: Page, busy: Page)
      requires k in conns && table.Valid()
      modifies this, table
      ensures View() == EventLoop.ServeStatic(old(View()), k, path, page, busy)
    {
      var decision := table.CheckRequest(path);
      var slot := WithPage(conns[k], if decision.Reject? then busy else page);
      if decision.Allow? {
        slot := slot.(throttle := slot.throttle.(
          tnums := decision.tnums, maxLimit := decision.maxLimit, minLimit := decision.minLimit));
      }
      slot := slot.(throttle := slot.throttle.(checked := true));
      assert slot == EventLoop.Admitted(conns[k], decision, page, busy);
      conns := conns[k := slot];
      TransitionToSending(k, path, busy);
    }

    /** CGI programs: admission, the run, the flat charge, and the slots given back. */
    method DispatchCgi(k: nat, req: Request)
      requires k in conns && conns[k].throttle == UNTHROTTLED && conns[k].cgiCharged == []
      requires table.Valid() && req.Cgi?
      modifies this, table
      ensures View() == EventLoop.DispatchCgi(old(View()), k, req)
    {
      var decision := table.CheckRequest(req.script);
      if decision.Reject? {
        conns := conns[k := WithPage(conns[k], req.busy)];
        TransitionToSending(k, req.path, req.busy);
        return;
      }
      var slot := conns[k];
      if decision.Allow? {
        slot := slot.(throttle := slot.throttle.(tnums := decision.tnums));
      }
      slot := slot.(isCgi := true);
      if slot.Throttled() {
        if req.ran {
          table.AddBytes(slot.throttle.tnums, CGI_BYTECOUNT);
          slot := slot.(cgiCharged := slot.throttle.tnums);
        }
        table.Clear(slot.throttle.tnums);
        slot := slot.(throttle := UNTHROTTLED);
      }
      conns := conns[k := WithPage(slot, req.page)];
      TransitionToSending(k, req.path, req.busy);
    }

    /** The response side of a readable event. */
    method HandleRead(k: nat, req: Request)
      requires k in conns && conns[k].throttle == UNTHROTTLED && conns[k].cgiCharged == [] && table.Valid()
      modifies this, table
      ensures View() == EventLoop.HandleRead(old(View()), k, req)
    {
      match req {
        case NeedMore =>
        case Hangup => CloseConnection(k);
        case Answer(path, page, busy) =>
          conns := conns[k := WithPage(conns[k], page)];
          TransitionToSending(k, path, busy);
        case Static(path, page, busy) => ServeStatic(k, path, page, busy);
        case Cgi(_, _, _, _, _) => DispatchCgi(k, req);
      }
    }

    /** Send response bytes, never more body than the window allows. */
    method HandleSend(k: nat, io: Io)
      requires k in conns && conns[k].bytesSent <= |conns[k].response|
      modifies this, table
      ensures View() == EventLoop.HandleSend(old(View()), k, io)
    {
      var slot := conns[k];
      if slot.bytesSent >= |slot.response| {
        TransitionToLingering(k);
        return;
      }
      var writeLimit := |slot.response| - slot.bytesSent;
      if slot.Throttled() && slot.throttle.maxLimit > 0 {
        var elapsed := Elapsed(slot.throttle.startedAt, now);
        TimesIsProduct(slot.throttle.maxLimit, elapsed);
        writeLimit := Max(0, slot.throttle.headerLen - slot.bytesSent)
        + Max(0, slot.throttle.maxLimit * elapsed - slot.throttle.bodyBytes);
      }
      assert writeLimit == WriteLimit(slot, now);
      if writeLimit == 0 {
        conns := conns[k := slot.(phase := Pausing, throttle := slot.throttle.(pauseUntil := Some(now + SECOND)))];
        poll := EventLoop.Deregister(poll, k);
        return;
      }
      match io {
        case WouldBlock =>
        case Failed => CloseConnection(k);
        case Wrote(n) => Account(k, Min(n, Min(writeLimit, |slot.response| - slot.bytesSent)));
      }
    }

    /** The bookkeeping after the socket took `w` bytes. */
    method Account(k: nat, w: nat)
      requires k in conns && conns[k].bytesSent + w <= |conns[k].response|
      modifies this, table
      ensures View() == EventLoop.Write(old(View()), k, w)
    {
      var slot := conns[k];
      var before, after := slot.bytesSent, slot.bytesSent + w;
      slot := slot.(bytesSent := after, wire := slot.wire + slot.response[before..after]);
      if slot.Throttled() {
        var delta := Max(0, after - slot.throttle.headerLen) - Max(0, before - slot.throttle.headerLen);
        assert delta == BodyDelta(conns[k], w);
        if delta > 0 {
          table.AddBytes(slot.throttle.tnums, delta);
          slot := slot.(throttle := slot.throttle.(bodyBytes := slot.throttle.bodyBytes + delta));
          if slot.throttle.maxLimit <= 0 {
            slot := slot.(freeBody := slot.freeBody + delta);
          }
        } else {
          ChargeNothing(table.entries, slot.throttle.tnums);
        }
      }
      assert slot == AfterWrite(conns[k], w);
      conns := conns[k := slot];
      if after >= |slot.response| {
        TransitionToLingering(k);
      } else {
        poll := EventLoop.Reregister(poll, k, Writable);
      }
    }

    /** Resume a paused connection once its deadline has passed. */
    method HandlePause(k: nat, io: Io)
      requires k in conns && conns[k].phase.Pausing?
      requires Within(conns[k].throttle.tnums, |table.entries|) && conns[k].bytesSent <= |conns[k].response|
      modifies this, table
      ensures View() == EventLoop.HandlePause(old(View()), k, io)
    {
      var pauseUntil := conns[k].throttle.pauseUntil;
      if pauseUntil.Some? && now < pauseUntil.value {
        return;
      }
      var newMax := table.FairShareFor(conns[k].throttle.tnums);
      var slot := conns[k];
      slot := slot.(throttle := slot.throttle.(maxLimit := newMax));
      slot := slot.(phase := Sending, throttle := slot.throttle.(pauseUntil := None));
      conns := conns[k := slot];
      poll := EventLoop.Register(poll, k, Writable);
      assert View() == EventLoop.Unpause(old(View()), k);
      HandleSend(k, io);
    }

    /** Dispatch a poll event on the phase of its slot, if the slot is still there. */
    method HandleConnectionEvent(k: nat, req: Request, io: Io)
      requires Inv(View())
      modifies this, table
      ensures View() == T.HandleEvent(old(View()), k, req, io)
    {
      if k !in conns {
        return;
      }
      SlotsAreNonNegative(View());
      assert ConnOk(table.entries, now, conns[k]);
      match conns[k].phase {
        case Reading => HandleRead(k, req);
        case Sending => HandleSend(k, io);
        case Lingering => CloseConnection(k);
        case Pausing => HandlePause(k, io);
      }
    }

    /** Resume every connection whose pause is over, in some order. */
    method ResumeReady(sockets: map<nat, Io>) returns (ghost order: seq<nat>)
      requires Inv(View())
      modifies this, table
      ensures forall k :: k in old(conns) && Due(old(conns)[k], now) ==> k in order
      ensures View() == T.ResumeAll(old(View()), order, Replies(sockets, order))
    {
      var ready := set k | k in conns && conns[k].phase.Pausing?
                          && (conns[k].throttle.pauseUntil.Some? ==> now >= conns[k].throttle.pauseUntil.value);
      order := [];
      while ready != {}
        invariant now == old(now)
        invariant forall k :: k in old(conns) && Due(old(conns)[k], now) ==> k in ready || k in order
        invariant View() == T.ResumeAll(old(View()), order, Replies(sockets, order))
        decreases ready
      {
        var k :| k in ready;
        ResumeAllAppends(old(View()), order, sockets, k);
        ResumeOneOf(k, Reply(sockets, k));
        ready, order := ready - {k}, order + [k];
      }
    }

    method ResumeOneOf(k: nat, io: Io)
      requires Inv(View())
      modifies this, table
      ensures View() == T.ResumeOne(old(View()), k, io)
    {
      if k in conns && conns[k].phase.Pausing? {
        assert ConnOk(table.entries, now, conns[k]);
        HandlePause(k, io);
      }
    }

    /** The periodic update: averages first, then wake every pause that is over. */
    method ThrottleUpdate()
      requires Inv(View())
      modifies this, table
      ensures View() == EventLoop.ThrottleTick(old(View()))
    {
      ghost var s := View();
      WakeableAreUnregistered(s);
      flushed := EventLoop.ThrottleTick(s).flushed;
      table.UpdateAverages();
      WakeAll(s);
      WokenAll(s, table.entries, conns, poll);
    }

    /** The wake-up loop over the slab. */
    method WakeAll(ghost s: Server)
      requires conns == s.conns && poll == s.poll && now == s.now && Wakeable(s, table.entries)
      modifies this`conns, this`poll
      ensures Woken(s, table.entries, s.conns.Keys, conns, poll)
    {
      var todo := conns.Keys;
      assert s.conns.Keys - todo == {};
      while todo != {}
        invariant todo <= s.conns.Keys
        invariant Woken(s, table.entries, s.conns.Keys - todo, conns, poll)
        decreases todo
      {
        var k :| k in todo;
        WokenStep(s, table.entries, s.conns.Keys - todo, conns, poll, k);
        assert s.conns.Keys - todo + {k} == s.conns.Keys - (todo - {k});
        WakeOne(k);
        todo := todo - {k};
      }
      assert s.conns.Keys - todo == s.conns.Keys;
    }

    /** Wake one slot if its pause is over. */
    method WakeOne(k: nat)
      requires k in conns && Within(conns[k].throttle.tnums, |table.entries|)
      modifies this`conns, this`poll
      ensures !Wakes(old(conns)[k], now) ==> conns == old(conns) && poll == old(poll)
      ensures Wakes(old(conns)[k], now) ==>
        conns == old(conns)[k := Resumed(table.entries, old(conns)[k])] && poll == Register(old(poll), k, Writable)
    {
      var slot := conns[k];
      if slot.phase.Pausing? && slot.Throttled() && slot.throttle.pauseUntil.Some?
         && now >= slot.throttle.pauseUntil.value {
        var newMax := table.FairShareFor(slot.throttle.tnums);
        slot := slot.(phase := Sending, throttle := slot.throttle.(maxLimit := newMax, pauseUntil := None));
        conns := conns[k := slot];
        poll := EventLoop.Register(poll, k, Writable);
      }
    }

    /** The poll timeout: the nearest of the timer, pause and throttle deadlines, or 60 seconds. */
    method PollTimeout(timers: Option<nat>, throttleDue: Option<nat>) returns (timeout: nat)
      requires Inv(View())
      ensures forall k :: k in conns && conns[k].phase.Pausing? ==>
        timeout <= Max(0, conns[k].throttle.pauseUntil.value - now)
      ensures timers.Some? ==> timeout <= timers.value
      ensures throttleDue.Some? ==> timeout <= throttleDue.value
      ensures
        || timers == Some(timeout) || throttleDue == Some(timeout) || IsPauseWait(conns, now, timeout)
        || (timeout == 60 * SECOND && timers.None? && throttleDue.None? && forall k :: k in conns ==> !conns[k].phase.Pausing?)
    {
      var best: Option<nat> := None;
      var todo := conns.Keys;
      while todo != {}
        invariant todo <= conns.Keys
        invariant forall k :: k in conns && k !in todo && conns[k].phase.Pausing? ==>
          best.Some? && best.value <= Max(0, conns[k].throttle.pauseUntil.value - now)
        invariant best.Some? ==> IsPauseWait(conns, now, best.value)
        decreases todo
      {
        var k :| k in todo;
        assert ConnOk(table.entries, now, conns[k]);
        if conns[k].phase.Pausing? {
          best := Earlier(best, Some(Max(0, conns[k].throttle.pauseUntil.value - now)));
        }
        todo := todo - {k};
      }
      best := Earlier(Earlier(best, timers), throttleDue);
      return if best.Some? then best.value else 60 * SECOND;
    }
  }

  /** Some paused connection is due in `wait`. */
  ghost predicate IsPauseWait(conns: map<nat, Conn>, now: nat, wait: nat) {
    exists k :: k in conns && conns[k].phase.Pausing? && conns[k].throttle.pauseUntil.Some?
                && wait == Max(0, conns[k].throttle.pauseUntil.value - now)
  }

  function Earlier(a: Option<nat>, b: Option<nat>): Option<nat> {
    if a.None? then b else if b.None? then a else Some(Min(a.value, b.value))
  }

  /** Every listed rule exists and whoever is about to be woken is not registered. */
  ghost predicate Wakeable(s: Server, rules: seq<Rule>) {
    forall k :: k in s.conns ==>
      Within(s.conns[k].throttle.tnums, |rules|) && (Wakes(s.conns[k], s.now) ==> k !in s.poll)
  }

  lemma WakeableAreUnregistered(s: Server)
    requires Inv(s)
    ensures Wakeable(s, AveragedAll(s.rules))
  {
    forall k | k in s.conns
      ensures Within(s.conns[k].throttle.tnums, |s.rules|) && (Wakes(s.conns[k], s.now) ==> k !in s.poll)
    {
      assert ConnOk(s.rules, s.now, s.conns[k]);
    }
  }

  /** Where the wake-up loop stands once it has visited the slots in `seen`. */
  ghost predicate Woken(s: Server, rules: seq<Rule>, seen: set<nat>, conns: map<nat, Conn>, poll: map<nat, Interest>)
    requires Wakeable(s, rules)
  {
    && conns.Keys == s.conns.Keys
    && (forall k :: k in s.conns ==>
         conns[k] == if k in seen && Wakes(s.conns[k], s.now) then Resumed(rules, s.conns[k]) else s.conns[k])
    && (forall k :: k in poll <==> k in s.poll || (k in seen && k in s.conns && Wakes(s.conns[k], s.now)))
    && (forall k :: k in poll ==> poll[k] == if k in s.poll then s.poll[k] else Writable)
  }

  lemma WokenStep(s: Server, rules: seq<Rule>, seen: set<nat>, conns: map<nat, Conn>, poll: map<nat, Interest>, k: nat)
    requires Wakeable(s, rules) && k in s.conns && k !in seen
    requires Woken(s, rules, seen, conns, poll)
    ensures !Wakes(s.conns[k], s.now) ==> Woken(s, rules, seen + {k}, conns, poll)
    ensures Wakes(s.conns[k], s.now) ==>
      Woken(s, rules, seen + {k}, conns[k := Resumed(rules, s.conns[k])], EventLoop.Register(poll, k, Writable))
  {}

  lemma WokenAll(s: Server, rules: seq<Rule>, conns: map<nat, Conn>, poll: map<nat, Interest>)
    requires rules == AveragedAll(s.rules) && |s.flushed| == |s.rules|
    requires Wakeable(s, rules) && Woken(s, rules, s.conns.Keys, conns, poll)
    ensures conns == EventLoop.ThrottleTick(s).conns && poll == EventLoop.ThrottleTick(s).poll
  {
    assert conns.Keys == EventLoop.ThrottleTick(s).conns.Keys;
    assert poll.Keys == EventLoop.ThrottleTick(s).poll.Keys;
  }
}
