/** What a connection is answered with: the page of the request it made, or the busy page exactly when a rule that
    the path matches was over its limits at that moment. */
module ServerAnswers {
  import opened Common
  import opened Throttle
  import opened EventLoop
  import opened ServerRuns
  import opened ServerTheorems
  import opened ServerRates

  /** Whether reading a request leads to a response. */
  predicate IsAnswered(req: Request) {
    req.Answer? || req.Static? || req.Cgi?
  }

  /** The page that the request is to be answered with, given the rules at that moment. */
  ghost function PageFor(rules: seq<Rule>, req: Request): Page
    requires IsAnswered(req)
  {
    if OverLimit(rules, if req.Cgi? then req.script else req.path) then req.busy else req.page
  }

  /** The rules that the sender is then listed on: none for CGI output, whose program was charged instead. */
  ghost function ListingFor(rules: seq<Rule>, req: Request): seq<nat>
    requires IsAnswered(req)
  {
    if (req.Cgi? && !OverLimit(rules, req.script)) || OverLimit(rules, req.path) then [] else Matched(rules, req.path)
  }

  /** The slot starts to send this page under these rules: nothing sent yet, the page's headers exempt, the clock
      started. */
  ghost predicate Answers(c: Conn, page: Page, tnums: seq<nat>, now: nat) {
    && c.phase.Sending? && c.bytesSent == 0 && c.wire == [] && c.freeBody == 0
    && c.response == page.bytes && c.headerLen == page.headerLen && c.throttle.tnums == tnums
    && (c.Throttled() ==>
         c.throttle.headerLen == page.headerLen && c.throttle.bodyBytes == 0 && c.throttle.startedAt == Some(now))
  }

  ghost predicate Asking(s: Server, k: nat) {
    Untouched(s, k) && s.conns[k].wire == []
  }

  lemma AnswerIs(s: Server, k: nat, path: seq<Byte>, page: Page, busy: Page)
    requires Asking(s, k)
    ensures var s' := HandleRead(s, k, Answer(path, page, busy));
      && k in s'.conns && s'.conns - {k} == s.conns - {k}
      && Answers(s'.conns[k], if OverLimit(s.rules, path) then busy else page,
                 if OverLimit(s.rules, path) then [] else Matched(s.rules, path), s.now)
  {
    DecisionIs(s.rules, path);
    var s' := HandleRead(s, k, Answer(path, page, busy));
    assert s'.conns - {k} == s.conns - {k};
  }

  lemma StaticIs(s: Server, k: nat, path: seq<Byte>, page: Page, busy: Page)
    requires Asking(s, k)
    ensures var s' := HandleRead(s, k, Static(path, page, busy));
      && k in s'.conns && s'.conns - {k} == s.conns - {k}
      && Answers(s'.conns[k], if OverLimit(s.rules, path) then busy else page,
                 if OverLimit(s.rules, path) then [] else Matched(s.rules, path), s.now)
  {
    DecisionIs(s.rules, path);
    var s' := HandleRead(s, k, Static(path, page, busy));
    assert s'.conns - {k} == s.conns - {k};
  }

  lemma CgiRefusedIs(s: Server, k: nat, req: Request)
    requires Asking(s, k) && req.Cgi? && OverLimit(s.rules, req.script)
    ensures var s' := HandleRead(s, k, req);
      && k in s'.conns && s'.conns - {k} == s.conns - {k}
      && Answers(s'.conns[k], req.busy, if OverLimit(s.rules, req.path) then [] else Matched(s.rules, req.path), s.now)
  {
    DecisionIs(s.rules, req.script);
    AnswerIs(s, k, req.path, req.busy, req.busy);
  }

  lemma CgiRunIs(s: Server, k: nat, req: Request)
    requires Asking(s, k) && req.Cgi? && !OverLimit(s.rules, req.script)
    ensures var s' := HandleRead(s, k, req);
      && k in s'.conns && s'.conns - {k} == s.conns - {k} && Answers(s'.conns[k], req.page, [], s.now)
  {
    DecisionIs(s.rules, req.script);
    var s' := HandleRead(s, k, req);
    assert s'.conns - {k} == s.conns - {k};
  }

  /** What a readable event does: nothing while the request is incomplete, the connection's end on a hang-up, and
      otherwise the answer that the request is to get, for this connection only. */
  lemma ReadAnswers(s: Server, k: nat, req: Request)
    requires Asking(s, k)
    ensures req.NeedMore? ==> HandleRead(s, k, req) == s
    ensures req.Hangup? ==> HandleRead(s, k, req).conns == s.conns - {k}
    ensures IsAnswered(req) ==>
      var s' := HandleRead(s, k, req);
      && k in s'.conns && s'.conns - {k} == s.conns - {k}
      && Answers(s'.conns[k], PageFor(s.rules, req), ListingFor(s.rules, req), s.now)
  {
    match req
    case NeedMore =>
    case Hangup =>
    case Answer(path, page, busy) => AnswerIs(s, k, path, page, busy);
    case Static(path, page, busy) => StaticIs(s, k, path, page, busy);
    case Cgi(_, _, _, _, _) =>
      if OverLimit(s.rules, req.script) {
        CgiRefusedIs(s, k, req);
      } else {
        CgiRunIs(s, k, req);
      }
  }

  /** A throttled answer is sent under the limits that the admission check granted for its path. */
  lemma AnswerIsGranted(s: Server, k: nat, req: Request)
    requires Asking(s, k) && IsAnswered(req)
    ensures k in HandleRead(s, k, req).conns
    ensures var c := HandleRead(s, k, req).conns[k];
      c.Throttled() ==> Check(s.rules, req.path).0 == Allow(c.throttle.tnums, c.throttle.maxLimit, c.throttle.minLimit)
  {}

  /** What a CGI request leaves in the table: each rule that the script matches is charged 25000 bytes if the program
      was admitted and ran, and no slot is held. */
  lemma CgiCharges(s: Server, k: nat, req: Request, r: nat)
    requires Asking(s, k) && req.Cgi? && r < |s.rules| && !OverLimit(s.rules, req.script)
    ensures var s' := HandleRead(s, k, req);
      && |s'.rules| == |s.rules| && k in s'.conns
      && s'.conns[k].cgiCharged == (if req.ran then Matched(s.rules, req.script) else [])
      && s'.rules[r] == if req.ran && r in Matched(s.rules, req.script)
                        then s.rules[r].(bytesSinceAvg := s.rules[r].bytesSinceAvg + 25000) else s.rules[r]
  {
    DecisionIs(s.rules, req.script);
    var tnums := Matched(s.rules, req.script);
    if tnums != [] {
      CgiTable(s.rules, tnums, req.ran, r);
    }
  }

  lemma CgiTable(rules: seq<Rule>, tnums: seq<nat>, ran: bool, r: nat)
    requires Distinct(tnums) && r < |rules|
    ensures var taken := Bump(rules, tnums, 1);
      Bump(if ran then Charge(taken, tnums, 25000) else taken, tnums, -1)[r] ==
      if ran && r in tnums then rules[r].(bytesSinceAvg := rules[r].bytesSinceAvg + 25000) else rules[r]
  {
    var taken := Bump(rules, tnums, 1);
    var charged := if ran then Charge(taken, tnums, 25000) else taken;
    DistinctEffects(rules, tnums, 1, r);
    DistinctEffects(taken, tnums, 25000, r);
    DistinctEffects(charged, tnums, -1, r);
  }

  // ----- What happens to an answer afterwards. -----

  predicate SameAnswer(c: Conn, c': Conn) {
    c'.response == c.response && c'.headerLen == c.headerLen && (c'.phase.Reading? <==> c.phase.Reading?)
  }

  ghost predicate KeepsAnswers(s: Server, s': Server) {
    forall k :: k in s'.conns ==> k in s.conns && SameAnswer(s.conns[k], s'.conns[k])
  }

  lemma SlotKeepsAnswer(s: Server, s': Server, k: nat)
    requires s'.conns - {k} == s.conns - {k} && (k in s'.conns ==> k in s.conns && SameAnswer(s.conns[k], s'.conns[k]))
    ensures KeepsAnswers(s, s')
  {
    forall j | j in s'.conns && j != k ensures j in s.conns && s'.conns[j] == s.conns[j] {
      OthersStay(s, s', k, j);
    }
  }

  lemma SendKeepsAnswer(s: Server, k: nat, io: Io)
    requires k in s.conns && s.conns[k].phase.Sending? && s.conns[k].bytesSent <= |s.conns[k].response|
    ensures KeepsAnswers(s, HandleSend(s, k, io))
  {
    SendFrame(s, k, io);
    SlotKeepsAnswer(s, HandleSend(s, k, io), k);
  }

  lemma PauseKeepsAnswer(s: Server, k: nat, io: Io)
    requires k in s.conns && s.conns[k].phase.Pausing? && s.conns[k].bytesSent <= |s.conns[k].response|
    requires Within(s.conns[k].throttle.tnums, |s.rules|)
    ensures KeepsAnswers(s, HandlePause(s, k, io))
  {
    if Due(s.conns[k], s.now) {
      var s1 := Unpause(s, k);
      assert s1.conns - {k} == s.conns - {k};
      SlotKeepsAnswer(s, s1, k);
      SendKeepsAnswer(s1, k, io);
    }
  }

  lemma {:induction false} ResumeKeepsAnswers(s: Server, order: seq<nat>, ios: seq<Io>)
    requires Inv(s) && |ios| == |order|
    ensures KeepsAnswers(s, ResumeAll(s, order, ios))
    decreases |order|
  {
    if order != [] {
      var s1 := ResumeOne(s, order[0], ios[0]);
      if order[0] in s.conns && s.conns[order[0]].phase.Pausing? {
        assert ConnOk(s.rules, s.now, s.conns[order[0]]);
        PauseKeepsAnswer(s, order[0], ios[0]);
      }
      ResumeKeepsAnswers(s1, order[1..], ios[1..]);
    }
  }

  /** Event `e` asks for an answer on slot `k`, and the slot gets it. */
  ghost predicate AnsweredNow(s: Server, e: Event, k: nat, c: Conn) {
    && e.Ready? && e.k == k && IsAnswered(e.req) && k in s.conns && s.conns[k].phase.Reading?
    && c.response == PageFor(s.rules, e.req).bytes && c.headerLen == PageFor(s.rules, e.req).headerLen
  }

  lemma EventAnswers(s: Server, j: nat, req: Request, io: Io, k: nat)
    requires Inv(s) && k in HandleEvent(s, j, req, io).conns
    ensures var c := HandleEvent(s, j, req, io).conns[k];
      (k in s.conns && SameAnswer(s.conns[k], c)) || AnsweredNow(s, Ready(j, req, io), k, c)
  {
    if j in s.conns {
      assert ConnOk(s.rules, s.now, s.conns[j]);
      match s.conns[j].phase
      case Reading => ReadEventAnswers(s, j, req, io, k);
      case Sending => SendKeepsAnswer(s, j, io);
      case Lingering =>
      case Pausing => PauseKeepsAnswer(s, j, io);
    }
  }

  lemma ReadEventAnswers(s: Server, j: nat, req: Request, io: Io, k: nat)
    requires Inv(s) && j in s.conns && s.conns[j].phase.Reading? && k in HandleRead(s, j, req).conns
    ensures var c := HandleRead(s, j, req).conns[k];
      (k in s.conns && SameAnswer(s.conns[k], c)) || AnsweredNow(s, Ready(j, req, io), k, c)
  {
    assert ConnOk(s.rules, s.now, s.conns[j]);
    ReadAnswers(s, j, req);
    if IsAnswered(req) && k != j {
      OthersStay(s, HandleRead(s, j, req), j, k);
    }
  }

  /** In one step a slot keeps its answer, is fresh, or is answered now. */
  lemma StepAnswers(s: Server, e: Event, k: nat)
    requires Inv(s) && k in Step(s, e).conns && !Step(s, e).conns[k].phase.Reading?
    ensures var c := Step(s, e).conns[k];
      (k in s.conns && SameAnswer(s.conns[k], c)) || AnsweredNow(s, e, k, c)
  {
    match e
    case Incoming(_, _) =>
    case Ready(j, req, io) => EventAnswers(s, j, req, io, k);
    case Resume(order, ios) =>
      if |ios| == |order| {
        ResumeKeepsAnswers(s, order, ios);
      }
    case Tick =>
    case Passed(_) =>
  }

  // ----- Over runs. -----

  /** Event `i` of the run asked for the answer that slot `k` has now, and the slot was busy with it ever since. */
  ghost predicate AnsweredAt(rules: seq<Rule>, now: nat, events: seq<Event>, i: nat, k: nat, c: Conn)
    requires Fresh(rules)
  {
    && i < |events| && AnsweredNow(After(rules, now, events[..i]), events[i], k, c)
    && forall j :: i < j <= |events| ==> BusyAfter(rules, now, events[..j], k)
  }

  ghost predicate BusyAfter(rules: seq<Rule>, now: nat, events: seq<Event>, k: nat)
    requires Fresh(rules)
  {
    k in After(rules, now, events).conns && !After(rules, now, events).conns[k].phase.Reading?
  }

  lemma AnswerCarriesOver(rules: seq<Rule>, now: nat, events: seq<Event>, e: Event, i: nat, k: nat, c: Conn, c': Conn)
    requires Fresh(rules) && AnsweredAt(rules, now, events, i, k, c) && SameAnswer(c, c')
    requires BusyAfter(rules, now, events + [e], k)
    ensures AnsweredAt(rules, now, events + [e], i, k, c')
  {
    var more := events + [e];
    assert more[..i] == events[..i] && more[i] == events[i];
    forall j | i < j <= |more| ensures BusyAfter(rules, now, more[..j], k) {
      if j <= |events| {
        assert more[..j] == events[..j];
      } else {
        assert more[..j] == more;
      }
    }
  }

  lemma AnsweredByLast(rules: seq<Rule>, now: nat, events: seq<Event>, e: Event, k: nat, c: Conn)
    requires Fresh(rules) && AnsweredNow(After(rules, now, events), e, k, c) && BusyAfter(rules, now, events + [e], k)
    ensures AnsweredAt(rules, now, events + [e], |events|, k, c)
  {
    var more := events + [e];
    assert more[..|events|] == events && more[..|more|] == more;
  }

  lemma NobodyAtFirst(rules: seq<Rule>, now: nat)
    requires Fresh(rules)
    ensures After(rules, now, []).conns == map[]
  {}

  /** In every run, what a connection past its request is sending is the page that its last request was to get, given
      the rules at that moment. */
  lemma {:induction false} EveryAnswerWasAskedFor(rules: seq<Rule>, now: nat, events: seq<Event>, k: nat) returns (i: nat)
    requires Fresh(rules) && BusyAfter(rules, now, events, k)
    ensures AnsweredAt(rules, now, events, i, k, After(rules, now, events).conns[k])
    decreases |events|
  {
    NobodyAtFirst(rules, now);
    var init, e := events[..|events| - 1], events[|events| - 1];
    assert events == init + [e];
    i := AskedFor(rules, now, init, e, k);
  }

  lemma {:induction false} AskedFor(rules: seq<Rule>, now: nat, events: seq<Event>, e: Event, k: nat) returns (i: nat)
    requires Fresh(rules) && BusyAfter(rules, now, events + [e], k)
    ensures AnsweredAt(rules, now, events + [e], i, k, After(rules, now, events + [e]).conns[k])
    decreases |events| + 1, 0
  {
    var s := After(rules, now, events);
    RunAppends(Start(rules, now), events, e);
    StepAnswers(s, e, k);
    var c' := Step(s, e).conns[k];
    if AnsweredNow(s, e, k, c') {
      i := |events|;
      AnsweredByLast(rules, now, events, e, k, c');
    } else {
      i := EveryAnswerWasAskedFor(rules, now, events, k);
      AnswerCarriesOver(rules, now, events, e, i, k, s.conns[k], c');
    }
  }

  /** In every run, the bytes that a lingering connection's peer was sent are exactly the page its request asked for,
      or the busy page, which it got exactly when a rule that the path matches was over its limits at that moment. */
  lemma LingeringGotItsPage(rules: seq<Rule>, now: nat, events: seq<Event>, k: nat) returns (i: nat)
    requires Fresh(rules)
    requires k in After(rules, now, events).conns && After(rules, now, events).conns[k].phase.Lingering?
    ensures i < |events| && events[i].Ready? && events[i].k == k && IsAnswered(events[i].req)
    ensures var asked, req := After(rules, now, events[..i]), events[i].req;
      After(rules, now, events).conns[k].wire ==
      if OverLimit(asked.rules, if req.Cgi? then req.script else req.path) then req.busy.bytes else req.page.bytes
  {
    i := EveryAnswerWasAskedFor(rules, now, events, k);
    LingeringResponsesAreWhole(rules, now, events, k);
  }
}
