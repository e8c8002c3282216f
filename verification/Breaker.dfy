/** The per-backend circuit breaker (rust/crates/thttpd-migrate/src/circuit.rs). Every call is one
    atomic step; times are nanoseconds of a clock that does not run backwards. */
module Breaker {
  import opened Common

  const COOL_OFF: nat := 5 * SECOND

  datatype State = Closed | Open | HalfOpen
  datatype Window = Window(errors: nat, total: nat, started: nat)
  datatype Config = Config(threshold: real, windowSecs: nat, minRequests: nat)

  datatype Snapshot = Snapshot(state: State, openedAt: Option<nat>, probeInFlight: bool, window: Window)

  function Initial(now: nat): Snapshot {
    Snapshot(Closed, None, false, Window(0, 0, now))
  }

  function Tripped(b: Snapshot, now: nat): Snapshot {
    b.(state := Open, openedAt := Some(now), window := Window(0, 0, now))
  }

  function Healed(b: Snapshot, now: nat): Snapshot {
    b.(state := Closed, openedAt := None, window := Window(0, 0, now))
  }

  /** `t.elapsed() >= COOL_OFF`. */
  predicate Cooled(b: Snapshot, now: nat) {
    b.openedAt.Some? && now >= b.openedAt.value + COOL_OFF
  }

  predicate Routable(b: Snapshot, now: nat) {
    match b.state
    case Closed => true
    case Open => Cooled(b, now) && !b.probeInFlight
    case HalfOpen => false
  }

  /** Whether admission succeeds, and the breaker it leaves. In every state admission succeeds exactly when the
      read-only check says so, and a breaker that changes is half-open with its probe claimed. */
  function Admit(b: Snapshot, now: nat): (r: (bool, Snapshot))
    ensures r.0 <==> Routable(b, now)
    ensures r.1 != b ==> r.0 && r.1.state.HalfOpen? && r.1.probeInFlight
  {
    match b.state
    case Closed => (true, b)
    case Open =>
      if Cooled(b, now) && !b.probeInFlight then (true, b.(state := HalfOpen, probeInFlight := true)) else (false, b)
    case HalfOpen => (false, b)
  }

  function Sampled(w: Window, cfg: Config, success: bool, now: nat): (w': Window)
    ensures w'.total >= 1
  {
    var w0 := if now - w.started > cfg.windowSecs * SECOND then Window(0, 0, now) else w;
    Window(w0.errors + (if success then 0 else 1), w0.total + 1, w0.started)
  }

  predicate OverThreshold(w: Window, cfg: Config)
    requires w.total >= 1
  {
    w.total >= cfg.minRequests && w.errors as real / w.total as real > cfg.threshold
  }

  function Recorded(b: Snapshot, cfg: Config, success: bool, now: nat): Snapshot {
    if b.state.HalfOpen? then
      var b1 := b.(probeInFlight := false);
      if success then Healed(b1, now) else Tripped(b1, now)
    else
      var w := Sampled(b.window, cfg, success, now);
      if OverThreshold(w, cfg) then Tripped(b, now) else b.(window := w)
  }

  function Released(b: Snapshot, now: nat): Snapshot {
    if b.state.HalfOpen? then Tripped(b.(probeInFlight := false), now) else b
  }

  // ----- Any interleaving of calls is a sequence of timed calls. -----

  datatype Call = TryAdmit | Record(success: bool) | ReleaseProbe
  datatype Timed = Timed(at: nat, call: Call)

  function Apply(b: Snapshot, cfg: Config, t: Timed): Snapshot {
    match t.call
    case TryAdmit => Admit(b, t.at).1
    case Record(success) => Recorded(b, cfg, success, t.at)
    case ReleaseProbe => Released(b, t.at)
  }

  /** The breaker after the first `n` calls of a history that starts at time `t0`. */
  function After(t0: nat, cfg: Config, history: seq<Timed>, n: nat): Snapshot
    requires n <= |history|
  {
    if n == 0 then Initial(t0) else Apply(After(t0, cfg, history, n - 1), cfg, history[n - 1])
  }

  predicate Monotone(t0: nat, history: seq<Timed>) {
    && (forall i :: 0 <= i < |history| ==> t0 <= history[i].at)
    && (forall i, j :: 0 <= i < j < |history| ==> history[i].at <= history[j].at)
  }

  /** Call `i` was an admission that succeeded; a probe admission is one out of an open breaker. */
  predicate Admitted(t0: nat, cfg: Config, history: seq<Timed>, i: nat)
    requires i < |history|
  {
    history[i].call.TryAdmit? && Admit(After(t0, cfg, history, i), history[i].at).0
  }

  predicate Probed(t0: nat, cfg: Config, history: seq<Timed>, i: nat)
    requires i < |history|
  {
    Admitted(t0, cfg, history, i) && After(t0, cfg, history, i).state.Open?
  }

  /** The flag and the timestamp always agree with the state. */
  predicate Coherent(b: Snapshot) {
    && (b.probeInFlight <==> b.state.HalfOpen?)
    && (b.openedAt.Some? <==> !b.state.Closed?)
  }

  lemma {:induction false} AlwaysCoherent(t0: nat, cfg: Config, history: seq<Timed>, n: nat)
    requires n <= |history|
    ensures Coherent(After(t0, cfg, history, n))
  {
    if n > 0 {
      AlwaysCoherent(t0, cfg, history, n - 1);
    }
  }

  /** Since a probe was admitted at call `i`: either its state stands, or the breaker has been stamped since. */
  lemma {:induction false} AfterProbe(t0: nat, cfg: Config, history: seq<Timed>, i: nat, n: nat)
    requires Monotone(t0, history) && i < n <= |history| && Probed(t0, cfg, history, i)
    ensures var b := After(t0, cfg, history, n);
      || (b.state.HalfOpen? && forall j :: i < j < n ==> history[j].call.TryAdmit?)
      || ((exists j :: i < j < n && Resolves(t0, cfg, history, j)) && (b.openedAt.Some? ==> history[i].at <= b.openedAt.value))
    decreases n
  {
    if n > i + 1 {
      AfterProbe(t0, cfg, history, i, n - 1);
      AlwaysCoherent(t0, cfg, history, n - 1);
      var b := After(t0, cfg, history, n - 1);
      if b.state.HalfOpen? && !history[n - 1].call.TryAdmit? {
        assert Resolves(t0, cfg, history, n - 1);
      }
    }
  }

  /** Call `j` took the breaker out of the half-open state. */
  predicate Resolves(t0: nat, cfg: Config, history: seq<Timed>, j: nat)
    requires j < |history|
  {
    && (history[j].call.Record? || history[j].call.ReleaseProbe?)
    && After(t0, cfg, history, j).state.HalfOpen?
    && !After(t0, cfg, history, j + 1).state.HalfOpen?
  }

  /** Two probe admissions are separated by a resolving call and by at least the cool-off. */
  lemma ProbesAreSpaced(t0: nat, cfg: Config, history: seq<Timed>, i: nat, k: nat)
    requires Monotone(t0, history) && i < k < |history|
    requires Probed(t0, cfg, history, i) && Probed(t0, cfg, history, k)
    ensures history[k].at >= history[i].at + COOL_OFF
    ensures exists j :: i < j < k && Resolves(t0, cfg, history, j)
  {
    AfterProbe(t0, cfg, history, i, k);
  }

  /** How many of the calls in `[lo, hi)` were successful admissions. */
  function Admissions(t0: nat, cfg: Config, history: seq<Timed>, lo: nat, hi: nat): nat
    requires lo <= hi <= |history|
    decreases hi
  {
    if lo == hi then 0
    else Admissions(t0, cfg, history, lo, hi - 1) + (if Admitted(t0, cfg, history, hi - 1) then 1 else 0)
  }

  /** The last admission of a stretch comes at least one cool-off per earlier admission after the first. */
  lemma {:induction false} AdmissionsTakeTime(t0: nat, cfg: Config, history: seq<Timed>, lo: nat, hi: nat) returns (last: nat)
    requires Monotone(t0, history) && lo < hi <= |history|
    requires forall i :: lo <= i < hi ==> !After(t0, cfg, history, i).state.Closed?
    requires Admissions(t0, cfg, history, lo, hi) > 0
    ensures lo <= last < hi && Admitted(t0, cfg, history, last)
    ensures history[last].at >= history[lo].at + (Admissions(t0, cfg, history, lo, hi) - 1) * COOL_OFF
    decreases hi
  {
    if Admitted(t0, cfg, history, hi - 1) {
      last := hi - 1;
      assert Probed(t0, cfg, history, hi - 1);
      if Admissions(t0, cfg, history, lo, hi - 1) > 0 {
        var previous := AdmissionsTakeTime(t0, cfg, history, lo, hi - 1);
        assert Probed(t0, cfg, history, previous);
        ProbesAreSpaced(t0, cfg, history, previous, last);
      }
    } else {
      last := AdmissionsTakeTime(t0, cfg, history, lo, hi - 1);
    }
  }

  /** While the breaker never closes, a stretch of calls admits at most one request per cool-off, plus one. */
  lemma OutageAdmitsFew(t0: nat, cfg: Config, history: seq<Timed>, lo: nat, hi: nat)
    requires Monotone(t0, history) && lo < hi <= |history|
    requires forall i :: lo <= i < hi ==> !After(t0, cfg, history, i).state.Closed?
    ensures Admissions(t0, cfg, history, lo, hi) <= (history[hi - 1].at - history[lo].at) / COOL_OFF + 1
  {
    if Admissions(t0, cfg, history, lo, hi) > 0 {
      var last := AdmissionsTakeTime(t0, cfg, history, lo, hi);
    }
  }

  // ----- When a breaker trips. -----

  /** How many of the first `n` calls were records, and how many of those were failures. */
  function Records(history: seq<Timed>, n: nat): nat
    requires n <= |history|
  {
    if n == 0 then 0 else Records(history, n - 1) + (if history[n - 1].call.Record? then 1 else 0)
  }

  function Failures(history: seq<Timed>, n: nat): nat
    requires n <= |history|
  {
    if n == 0 then 0 else Failures(history, n - 1) + (if history[n - 1].call == Record(false) then 1 else 0)
  }

  /** Too few records to judge, or failures within the threshold. */
  predicate Tolerable(cfg: Config, records: nat, failures: nat) {
    records < cfg.minRequests || failures as real <= cfg.threshold * records as real
  }

  lemma RateIsRatio(e: nat, t: nat, threshold: real)
    requires t >= 1
    ensures e as real / t as real > threshold <==> e as real > threshold * t as real
  {
    var rate := e as real / t as real;
    assert rate * t as real == e as real;
    ScaleReals(rate, threshold, t as real);
  }

  lemma ScaleReals(a: real, b: real, t: real)
    requires t > 0.0
    ensures a > b <==> a * t > b * t
  {
    if a > b {
      assert (a - b) * t > 0.0;
    } else {
      assert (b - a) * t >= 0.0;
    }
  }

  /** One record within the window of a breaker that is not half-open: it counts, and it trips the breaker exactly
      when the counts are no longer tolerable. */
  lemma RecordCounts(b: Snapshot, cfg: Config, success: bool, now: nat)
    requires !b.state.HalfOpen? && now - b.window.started <= cfg.windowSecs * 1_000_000_000
    ensures var errors, total := b.window.errors + (if success then 0 else 1), b.window.total + 1;
      Recorded(b, cfg, success, now) ==
      if Tolerable(cfg, total, errors) then b.(window := Window(errors, total, b.window.started))
      else b.(state := Open, openedAt := Some(now), window := Window(0, 0, now))
  {
    RateIsRatio(b.window.errors + (if success then 0 else 1), b.window.total + 1, cfg.threshold);
  }

  ghost predicate StaysClosed(t0: nat, cfg: Config, history: seq<Timed>, n: nat)
    requires n <= |history|
  {
    forall m :: 0 <= m <= n ==> After(t0, cfg, history, m).state.Closed?
  }

  ghost predicate StaysTolerable(cfg: Config, history: seq<Timed>, n: nat)
    requires n <= |history|
  {
    forall m :: 0 <= m <= n ==> Tolerable(cfg, Records(history, m), Failures(history, m))
  }

  predicate WithinWindow(t0: nat, cfg: Config, history: seq<Timed>) {
    forall i :: 0 <= i < |history| ==> t0 <= history[i].at <= t0 + cfg.windowSecs * 1_000_000_000
  }

  /** Within one window a fresh breaker stays closed through the first `n` calls exactly when, after each of them,
      there were fewer than `minRequests` records or at most `threshold` of them had failed; and while it stays
      closed its window holds exactly those counts. */
  lemma {:induction false} ClosedIff(t0: nat, cfg: Config, history: seq<Timed>, n: nat)
    requires n <= |history| && WithinWindow(t0, cfg, history)
    ensures StaysClosed(t0, cfg, history, n) <==> StaysTolerable(cfg, history, n)
    ensures StaysClosed(t0, cfg, history, n) ==>
      After(t0, cfg, history, n) == Snapshot(Closed, None, false, Window(Failures(history, n), Records(history, n), t0))
  {
    if n > 0 {
      ClosedIff(t0, cfg, history, n - 1);
      assert StaysClosed(t0, cfg, history, n) <==>
        StaysClosed(t0, cfg, history, n - 1) && After(t0, cfg, history, n).state.Closed?;
      assert StaysTolerable(cfg, history, n) <==>
        StaysTolerable(cfg, history, n - 1) && Tolerable(cfg, Records(history, n), Failures(history, n));
      if StaysClosed(t0, cfg, history, n - 1) && history[n - 1].call.Record? {
        RecordCounts(After(t0, cfg, history, n - 1), cfg, history[n - 1].call.success, history[n - 1].at);
      }
    } else {
      assert cfg.threshold * 0.0 == 0.0;
    }
  }

  /** The record that makes the counts intolerable opens the breaker at its own time. */
  lemma TripsAtOnce(t0: nat, cfg: Config, history: seq<Timed>, n: nat)
    requires n < |history| && WithinWindow(t0, cfg, history) && StaysTolerable(cfg, history, n)
    requires history[n].call.Record? && !Tolerable(cfg, Records(history, n + 1), Failures(history, n + 1))
    ensures After(t0, cfg, history, n + 1) == Snapshot(Open, Some(history[n].at), false, Window(0, 0, history[n].at))
  {
    ClosedIff(t0, cfg, history, n);
    RecordCounts(After(t0, cfg, history, n), cfg, history[n].call.success, history[n].at);
  }

  /** A record after the window has run out counts as the first of a new one, closed or open. */
  lemma StaleRecordIsFirst(b: Snapshot, cfg: Config, success: bool, now: nat)
    requires !b.state.HalfOpen? && now > b.window.started + cfg.windowSecs * 1_000_000_000
    ensures Recorded(b, cfg, success, now) == Recorded(b.(window := Window(0, 0, now)), cfg, success, now)
  {}

  /** A record later than the window's length after its start forgets everything before it: from then on the
      breaker is one that was fresh at that moment. */
  lemma {:induction false} StaleWindowIsForgotten(t0: nat, cfg: Config, history: seq<Timed>, i: nat, n: nat)
    requires i < n <= |history| && history[i].call.Record? && After(t0, cfg, history, i).state.Closed?
    requires history[i].at > After(t0, cfg, history, i).window.started + cfg.windowSecs * 1_000_000_000
    ensures After(t0, cfg, history, n) == After(history[i].at, cfg, history[i..], n - i)
    decreases n
  {
    AlwaysCoherent(t0, cfg, history, i);
    if n == i + 1 {
      var start := history[i].at;
      assert After(start, cfg, history[i..], 1) == Apply(After(start, cfg, history[i..], 0), cfg, history[i]);
    } else {
      StaleWindowIsForgotten(t0, cfg, history, i, n - 1);
      assert history[i..][n - i - 1] == history[n - 1];
    }
  }

  /** What a probe's answer does: success makes the breaker a fresh one, failure and release open it anew. */
  lemma ProbeOutcome(b: Snapshot, cfg: Config, now: nat)
    requires Coherent(b) && b.state.HalfOpen?
    ensures Recorded(b, cfg, true, now) == Snapshot(Closed, None, false, Window(0, 0, now))
    ensures Recorded(b, cfg, false, now) == Released(b, now) == Snapshot(Open, Some(now), false, Window(0, 0, now))
  {}

  /** Who is admitted: everybody by a closed breaker, nobody by a half-open one, and by an open one whoever comes five
      seconds after it opened, or later. */
  lemma AdmittedIff(b: Snapshot, now: nat)
    requires Coherent(b)
    ensures Admit(b, now).0 <==>
      b.state.Closed? || (b.state.Open? && now >= b.openedAt.value + 5_000_000_000)
    ensures Admit(b, now).1 ==
      if b.state.Open? && now >= b.openedAt.value + 5_000_000_000 then b.(state := HalfOpen, probeInFlight := true) else b
  {}

  // ----- The object itself. -----

  class CircuitBreaker {
    const cfg: Config
    var state: State
    var openedAt: Option<nat>
    var probeInFlight: bool
    var window: Window

    ghost function View(): Snapshot
      reads this
    {
      Snapshot(state, openedAt, probeInFlight, window)
    }

    constructor (cfg: Config, now: nat)
      ensures this.cfg == cfg && View() == Initial(now)
    {
      this.cfg := cfg;
      state, openedAt, probeInFlight := Closed, None, false;
      window := Window(0, 0, now);
    }

    method CanRoute(now: nat) returns (ok: bool)
      ensures ok == Routable(View(), now)
    {
      match state {
        case Closed => ok := true;
        case Open =>
          var cooled := openedAt.Some? && now >= openedAt.value + COOL_OFF;
          ok := cooled && !probeInFlight;
        case HalfOpen => ok := false;
      }
    }

    method TryAdmit(now: nat) returns (ok: bool)
      modifies this
      ensures (ok, View()) == Admit(old(View()), now)
    {
      match state {
        case Closed => ok := true;
        case Open =>
          var elapsed := openedAt.Some? && now >= openedAt.value + COOL_OFF;
          ok := false;
          if elapsed {
            if !probeInFlight {
              probeInFlight := true;
              state := HalfOpen;
              ok := true;
            }
          }
        case HalfOpen => ok := false;
      }
    }

    method Record(success: bool, now: nat)
      modifies this
      ensures View() == Recorded(old(View()), cfg, success, now)
    {
      if state == HalfOpen {
        probeInFlight := false;
        if success {
          Close(now);
        } else {
          Trip(now);
        }
        return;
      }
      var w := window;
      if now - w.started > cfg.windowSecs * SECOND {
        w := Window(0, 0, now);
      }
      w := w.(total := w.total + 1);
      if !success {
        w := w.(errors := w.errors + 1);
      }
      window := w;
      if w.total >= cfg.minRequests {
        var rate := w.errors as real / w.total as real;
        if rate > cfg.threshold {
          Trip(now);
        }
      }
    }

    method ReleaseProbe(now: nat)
      modifies this
      ensures View() == Released(old(View()), now)
    {
      if state == HalfOpen {
        probeInFlight := false;
        Trip(now);
      }
    }

    method Trip(now: nat)
      modifies this
      ensures View() == Tripped(old(View()), now)
    {
      state := Open;
      openedAt := Some(now);
      window := Window(0, 0, now);
    }

    method Close(now: nat)
      modifies this
      ensures View() == Healed(old(View()), now)
    {
      state := Closed;
      openedAt := None;
      window := Window(0, 0, now);
    }
  }
}
