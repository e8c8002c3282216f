/** The event loop's handlers as steps on the server state (rust/crates/thttpd-core/src/eventloop.rs):
    connections, sender slots, poll registrations and the clock. Socket results, file contents
    and clock advances are parameters of the events. */
module EventLoop {
  import opened Common
  import opened Throttle

  const MAX_CONNECTIONS: nat := 4096

  /** A closed slot (`Free`) is one that is no longer in the table. */
  datatype Phase = Reading | Sending | Pausing | Lingering
  datatype Interest = Readable | Writable

  datatype ConnThrottle = ConnThrottle(
    tnums: seq<nat>,
    maxLimit: int,
    minLimit: int,
    headerLen: nat,
    bodyBytes: int,
    startedAt: Option<nat>,
    pauseUntil: Option<nat>,
    checked: bool)

  const UNTHROTTLED := ConnThrottle([], NOLIMIT, NOLIMIT, 0, 0, None, None, false)

  /** A connection slot, together with what its socket has accepted so far (`wire`), the rules its
      completed CGI program was charged to, and the body bytes it sent while its share was not positive. */
  datatype Conn = Conn(
    phase: Phase,
    response: seq<Byte>,
    headerLen: nat,
    bytesSent: nat,
    throttle: ConnThrottle,
    isCgi: bool,
    wire: seq<Byte>,
    cgiCharged: seq<nat>,
    freeBody: nat)
  {
    predicate Throttled() { throttle.tnums != [] }

    /** Body bytes the peer has been sent. */
    function BodyWritten(): (n: nat) { Max(0, |wire| - throttle.headerLen) }
  }

  const FRESH_CONN := Conn(Reading, [], 0, 0, UNTHROTTLED, false, [], [], 0)

  datatype Page = Page(bytes: seq<Byte>, headerLen: nat)

  /** What a readable event on a `Reading` connection leads to; `busy` is the 503 page. */
  datatype Request =
    | NeedMore
    | Hangup
    | Answer(path: seq<Byte>, page: Page, busy: Page)
    | Static(path: seq<Byte>, page: Page, busy: Page)
    | Cgi(script: seq<Byte>, ran: bool, page: Page, path: seq<Byte>, busy: Page)

  /** The result of handing a slice to the socket. */
  datatype Io = Wrote(n: nat) | WouldBlock | Failed

  /** `retired` holds the closed connections as they were at close, `flushed` the bytes that the
      rolling averages have already consumed per rule. */
  datatype Server = Server(
    rules: seq<Rule>,
    conns: map<nat, Conn>,
    poll: map<nat, Interest>,
    now: nat,
    retired: seq<Conn>,
    flushed: seq<int>)

  // ----- The poller: errors of these three calls are ignored by the source. -----

  /** `register` fails on a registered source. */
  function Register(poll: map<nat, Interest>, k: nat, i: Interest): map<nat, Interest> {
    if k in poll then poll else poll[k := i]
  }

  /** `reregister` fails on an unregistered source. */
  function Reregister(poll: map<nat, Interest>, k: nat, i: Interest): map<nat, Interest> {
    if k in poll then poll[k := i] else poll
  }

  function Deregister(poll: map<nat, Interest>, k: nat): map<nat, Interest> {
    poll - {k}
  }

  // ----- The handlers. -----

  /** Whole seconds since sending started, at least one. */
  function Elapsed(startedAt: Option<nat>, now: nat): (secs: nat)
    ensures secs >= 1
  {
    if startedAt.None? || now < startedAt.value then 1 else Max(1, (now - startedAt.value) / SECOND)
  }

  /** `rate * secs`, second by second. */
  function Times(rate: int, secs: nat): int {
    if secs == 0 then 0 else Times(rate, secs - 1) + rate
  }

  lemma {:induction false} TimesIsProduct(rate: int, secs: nat)
    ensures Times(rate, secs) == rate * secs
  {
    if secs > 0 {
      TimesIsProduct(rate, secs - 1);
      assert rate * secs == rate * (secs - 1) + rate;
    }
  }

  /** How many bytes this round may hand to the socket: headers are free, the body is capped by
      `max_limit * elapsed` when the share is positive. */
  function WriteLimit(c: Conn, now: nat): nat
    requires c.bytesSent <= |c.response|
  {
    if c.Throttled() && c.throttle.maxLimit > 0 then
      Max(0, c.throttle.headerLen - c.bytesSent)
      + Max(0, Times(c.throttle.maxLimit, Elapsed(c.throttle.startedAt, now)) - c.throttle.bodyBytes)
    else |c.response| - c.bytesSent
  }

  /** `max(0, sent - header)`, the part of the first `sent` bytes that is body. */
  function BodyPart(c: Conn, sent: int): nat {
    Max(0, sent - c.throttle.headerLen)
  }

  function BodyDelta(c: Conn, w: nat): nat {
    BodyPart(c, c.bytesSent + w) - BodyPart(c, c.bytesSent)
  }

  /** The slot after the socket took `w` more bytes. */
  function AfterWrite(c: Conn, w: nat): Conn
    requires c.bytesSent + w <= |c.response|
  {
    var body := if c.Throttled() then BodyDelta(c, w) else 0;
    c.(bytesSent := c.bytesSent + w,
       wire := c.wire + c.response[c.bytesSent..c.bytesSent + w],
       throttle := c.throttle.(bodyBytes := c.throttle.bodyBytes + body),
       freeBody := c.freeBody + (if c.throttle.maxLimit <= 0 then body else 0))
  }

  function ToLingering(s: Server, k: nat): Server
    requires k in s.conns
  {
    s.(conns := s.conns[k := s.conns[k].(phase := Lingering)], poll := Reregister(s.poll, k, Readable))
  }

  function Close(s: Server, k: nat): Server
    requires k in s.conns
  {
    var c := s.conns[k];
    s.(rules := if c.Throttled() then Bump(s.rules, c.throttle.tnums, -1) else s.rules,
       conns := s.conns - {k},
       poll := Deregister(s.poll, k),
       retired := s.retired + [c])
  }

  function Paused(c: Conn, now: nat): Conn {
    c.(phase := Pausing, throttle := c.throttle.(pauseUntil := Some(now + SECOND)))
  }

  function Pause(s: Server, k: nat): Server
    requires k in s.conns
  {
    s.(conns := s.conns[k := Paused(s.conns[k], s.now)], poll := Deregister(s.poll, k))
  }

  /** The write itself, its accounting, and what follows it. */
  function Write(s: Server, k: nat, w: nat): Server
    requires k in s.conns && s.conns[k].bytesSent + w <= |s.conns[k].response|
  {
    var c := s.conns[k];
    var c' := AfterWrite(c, w);
    var wrote := s.(
      rules := if c.Throttled() then Charge(s.rules, c.throttle.tnums, BodyDelta(c, w)) else s.rules,
      conns := s.conns[k := c']);
    if c'.bytesSent >= |c'.response| then ToLingering(wrote, k)
    else wrote.(poll := Reregister(s.poll, k, Writable))
  }

  function HandleSend(s: Server, k: nat, io: Io): Server
    requires k in s.conns && s.conns[k].bytesSent <= |s.conns[k].response|
  {
    var c := s.conns[k];
    if c.bytesSent >= |c.response| then ToLingering(s, k)
    else if WriteLimit(c, s.now) == 0 then Pause(s, k)
    else Offer(s, k, io)
  }

  /** Hand the allowed slice to the socket, which takes at most what it is offered. */
  function Offer(s: Server, k: nat, io: Io): Server
    requires k in s.conns && s.conns[k].bytesSent <= |s.conns[k].response|
  {
    match io
    case WouldBlock => s
    case Failed => Close(s, k)
    case Wrote(n) => Write(s, k, Taken(s.conns[k], s.now, n))
  }

  function Taken(c: Conn, now: nat, n: nat): (w: nat)
    requires c.bytesSent <= |c.response|
    ensures w <= WriteLimit(c, now) && c.bytesSent + w <= |c.response|
  {
    Min(n, Min(WriteLimit(c, now), |c.response| - c.bytesSent))
  }

  /** The slot after a pause: new share, sending again, no deadline. */
  function Resumed(rules: seq<Rule>, c: Conn): Conn
    requires Within(c.throttle.tnums, |rules|)
  {
    c.(phase := Sending,
       throttle := c.throttle.(maxLimit := FairShare(rules, c.throttle.tnums), pauseUntil := None))
  }

  predicate Due(c: Conn, now: nat) {
    c.phase.Pausing? && (c.throttle.pauseUntil.Some? ==> now >= c.throttle.pauseUntil.value)
  }

  function Unpause(s: Server, k: nat): Server
    requires k in s.conns && Within(s.conns[k].throttle.tnums, |s.rules|)
  {
    s.(conns := s.conns[k := Resumed(s.rules, s.conns[k])], poll := Register(s.poll, k, Writable))
  }

  function HandlePause(s: Server, k: nat, io: Io): Server
    requires k in s.conns && s.conns[k].phase.Pausing?
    requires Within(s.conns[k].throttle.tnums, |s.rules|) && s.conns[k].bytesSent <= |s.conns[k].response|
  {
    if !Due(s.conns[k], s.now) then s
    else HandleSend(Unpause(s, k), k, io)
  }

  /** `transition_to_sending`: admission unless it already happened or the response is CGI output. */
  ghost function ToSending(s: Server, k: nat, path: seq<Byte>, busy: Page): Server
    requires k in s.conns
  {
    var c := s.conns[k];
    var (decision, rules) := if c.isCgi || c.throttle.checked then (Unlimited, s.rules) else Check(s.rules, path);
    s.(rules := rules,
       conns := s.conns[k := Started(c, decision, busy, s.now)],
       poll := Reregister(s.poll, k, Writable))
  }

  function Started(c: Conn, decision: Decision, busy: Page, now: nat): Conn {
    var c1 := c.(phase := Sending, bytesSent := 0);
    match decision
    case Allow(tnums, maxLimit, minLimit) =>
      c1.(throttle := c.throttle.(tnums := tnums, maxLimit := maxLimit, minLimit := minLimit,
                                  headerLen := c.headerLen, startedAt := Some(now)))
    case Reject => c1.(response := busy.bytes, headerLen := busy.headerLen)
    case Unlimited =>
      if c.throttle.checked && c.Throttled() then
        c1.(throttle := c.throttle.(headerLen := c.headerLen, startedAt := Some(now)))
      else c1
  }

  function WithPage(c: Conn, page: Page): Conn {
    c.(response := page.bytes, headerLen := page.headerLen)
  }

  /** `serve_static` from its admission pre-check on. */
  ghost function ServeStatic(s: Server, k: nat, path: seq<Byte>, page: Page, busy: Page): Server
    requires k in s.conns
  {
    var (decision, rules) := Check(s.rules, path);
    var c := Admitted(s.conns[k], decision, page, busy);
    ToSending(s.(rules := rules, conns := s.conns[k := c]), k, path, busy)
  }

  /** The slot after the pre-check: its page, its grant if any, and the mark that it was checked. */
  function Admitted(c: Conn, decision: Decision, page: Page, busy: Page): Conn {
    match decision
    case Reject => WithPage(c, busy).(throttle := c.throttle.(checked := true))
    case Unlimited => WithPage(c, page).(throttle := c.throttle.(checked := true))
    case Allow(tnums, maxLimit, minLimit) =>
      WithPage(c, page).(throttle :=
        c.throttle.(tnums := tnums, maxLimit := maxLimit, minLimit := minLimit, checked := true))
  }

  /** `dispatch_cgi` from its admission check on: the program runs to its end inside the handler. */
  ghost function DispatchCgi(s: Server, k: nat, req: Request): Server
    requires k in s.conns && req.Cgi?
  {
    var (decision, rules) := Check(s.rules, req.script);
    var c := s.conns[k];
    if decision.Reject? then
      ToSending(s.(conns := s.conns[k := WithPage(c, req.busy)]), k, req.path, req.busy)
    else
      var tnums := if decision.Allow? then decision.tnums else c.throttle.tnums;
      var charged := if req.ran then Charge(rules, tnums, CGI_BYTECOUNT) else rules;
      var c' := WithPage(c, req.page).(
        isCgi := true,
        throttle := if tnums == [] then c.throttle else UNTHROTTLED,
        cgiCharged := if req.ran then tnums else []);
      ToSending(s.(rules := if tnums == [] then rules else Bump(charged, tnums, -1), conns := s.conns[k := c']),
                k, req.path, req.busy)
  }

  ghost function HandleRead(s: Server, k: nat, req: Request): Server
    requires k in s.conns
  {
    match req
    case NeedMore => s
    case Hangup => Close(s, k)
    case Answer(path, page, busy) =>
      ToSending(s.(conns := s.conns[k := WithPage(s.conns[k], page)]), k, path, busy)
    case Static(path, page, busy) => ServeStatic(s, k, path, page, busy)
    case Cgi(_, _, _, _, _) => DispatchCgi(s, k, req)
  }

  /** `handle_accept` for one incoming stream; `registered` tells whether the poller took it. */
  function Accept(s: Server, k: nat, registered: bool): Server {
    if k in s.conns || |s.conns| >= MAX_CONNECTIONS || !registered then s
    else s.(conns := s.conns[k := FRESH_CONN], poll := Register(s.poll, k, Readable))
  }

  /** The rule averages are refreshed and every connection whose pause is over is woken. */
  function ThrottleTick(s: Server): Server
    requires forall k :: k in s.conns ==> Within(s.conns[k].throttle.tnums, |s.rules|)
    requires |s.flushed| == |s.rules|
  {
    var rules := AveragedAll(s.rules);
    var woken := set k | k in s.conns && Wakes(s.conns[k], s.now);
    s.(rules := rules,
       conns := map k | k in s.conns :: if k in woken then Resumed(rules, s.conns[k]) else s.conns[k],
       poll := s.poll + map k | k in woken - s.poll.Keys :: Writable,
       flushed := seq(|s.rules|, i requires 0 <= i < |s.rules| => s.flushed[i] + s.rules[i].bytesSinceAvg))
  }

  predicate Wakes(c: Conn, now: nat) {
    c.phase.Pausing? && c.Throttled() && c.throttle.pauseUntil.Some? && now >= c.throttle.pauseUntil.value
  }
}
