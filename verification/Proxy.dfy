/** Any number of requests and mirrors sharing the breakers (rust/crates/thttpd-migrate/src/server.rs, shadow.rs).
    A run is an arbitrary interleaving of breaker calls. The model itself lets anybody call anything and leave at any
    time; what tasks do is known only from the handlers: wherever others may act, a handler's acts so far are
    `Underway`, and when it returns they are `Settled`. */
module Proxy {
  import opened Common
  import opened Breaker
  import opened Router
  import opened Handlers

  datatype Entry = Did(id: nat, act: Act) | Left(id: nat)

  /** `claimer` remembers who last turned a breaker half-open, `log` what everybody did. */
  datatype World = World(
    cfg: Config,
    breakers: map<Name, Snapshot>,
    now: nat,
    claimer: map<Name, nat>,
    log: seq<Entry>)

  datatype Event =
    | Try(id: nat, backend: Name)
    | Tell(id: nat, backend: Name, success: bool)
    | GiveBack(id: nat, backend: Name)
    | Leave(id: nat)
    | Wait(d: nat)

  function Tried(w: World, id: nat, backend: Name): World {
    var (ok, breakers) := AdmitOn(w.breakers, backend, w.now);
    w.(breakers := breakers,
       claimer := if breakers != w.breakers then w.claimer[backend := id] else w.claimer,
       log := w.log + [Did(id, Attempt(backend, ok))])
  }

  function Told(w: World, id: nat, backend: Name, success: bool): World {
    w.(breakers := RecordOn(w.breakers, w.cfg, backend, success, w.now),
       log := w.log + [Did(id, Act(Report, backend, success))])
  }

  function GivenBack(w: World, id: nat, backend: Name): World {
    w.(breakers := ReleaseOn(w.breakers, backend, w.now), log := w.log + [Did(id, Act(Release, backend, false))])
  }

  /** One step; only a task that has left does nothing any more. */
  function Step(w: World, e: Event): World {
    if e.Wait? then w.(now := w.now + e.d)
    else if HasLeft(w.log, e.id) then w
    else
      match e
      case Try(id, backend) => Tried(w, id, backend)
      case Tell(id, backend, success) => Told(w, id, backend, success)
      case GiveBack(id, backend) => GivenBack(w, id, backend)
      case Leave(id) => w.(log := w.log + [Left(id)])
  }

  function Start(cfg: Config, names: set<Name>, now: nat): World {
    World(cfg, map n | n in names :: Initial(now), now, map[], [])
  }

  function After(w: World, events: seq<Event>): World {
    if events == [] then w else Step(After(w, events[..|events| - 1]), events[|events| - 1])
  }

  // ----- What is known of the tasks. -----

  predicate HasLeft(log: seq<Entry>, id: nat) {
    Left(id) in log
  }

  /** What one task did, in order. */
  function ActsOf(log: seq<Entry>, id: nat): seq<Act> {
    if log == [] then []
    else
      var before, last := ActsOf(log[..|log| - 1], id), log[|log| - 1];
      if last.Did? && last.id == id then before + [last.act] else before
  }

  lemma ActsAppend(log: seq<Entry>, e: Entry, id: nat)
    ensures ActsOf(log + [e], id) == if e.Did? && e.id == id then ActsOf(log, id) + [e.act] else ActsOf(log, id)
    ensures HasLeft(log + [e], id) <==> HasLeft(log, id) || e == Left(id)
  {
    assert (log + [e])[..|log|] == log;
  }

  /** The acts so far are what a handler may have done, or after leaving what it leaves behind. */
  ghost predicate OnTrack(acts: seq<Act>, left: bool) {
    if left then exists claimed :: Settled(acts, claimed) else Underway(acts)
  }

  ghost predicate Disciplined(log: seq<Entry>) {
    forall id :: OnTrack(ActsOf(log, id), HasLeft(log, id))
  }

  /** At every moment of the run all tasks do as the handlers do. */
  ghost predicate Follows(w: World, events: seq<Event>) {
    && Disciplined(After(w, events).log)
    && (events != [] ==> Follows(w, events[..|events| - 1]))
  }

  /** The task was admitted on `b`, has not reported, and has not left. */
  predicate Holding(log: seq<Entry>, id: nat, b: Name) {
    !HasLeft(log, id) && ActsOf(log, id) != [] && ActsOf(log, id)[|ActsOf(log, id)| - 1] == Attempt(b, true)
  }

  /** Whoever holds can only go on by telling or giving back to that backend: it may neither leave nor try again. */
  lemma HolderMustAnswer(acts: seq<Act>, next: Act, b: Name)
    requires acts != [] && acts[|acts| - 1] == Attempt(b, true) && Underway(acts + [next])
    ensures !next.kind.Admission? && next.name == b
  {
    var more := acts + [next];
    assert more[|acts| - 1] == Attempt(b, true) && more[..|acts|] == acts;
  }

  lemma HolderMayNotLeave(acts: seq<Act>, b: Name)
    requires acts != [] && acts[|acts| - 1] == Attempt(b, true)
    ensures !OnTrack(acts, true)
  {}

  /** Only a holder tells or gives back. */
  lemma OnlyHoldersAnswer(acts: seq<Act>, next: Act)
    requires Underway(acts + [next]) && !next.kind.Admission?
    ensures acts != [] && acts[|acts| - 1] == Attempt(next.name, true)
  {
    var more := acts + [next];
    assert more[|acts|] == next && more[..|acts|] == acts;
  }

  /** A holder may answer next. */
  lemma HolderMayAnswer(acts: seq<Act>, b: Name, success: bool)
    requires acts != [] && acts[|acts| - 1] == Attempt(b, true) && Underway(acts)
    ensures Underway(acts + [Act(Report, b, success)])
  {
    ReportSettles(acts, Act(Report, b, success));
  }

  // ----- The invariant. -----

  ghost predicate Inv(w: World) {
    && (forall b :: b in w.breakers ==> Coherent(w.breakers[b]))
    && forall b :: b in w.breakers && w.breakers[b].state.HalfOpen? ==>
         b in w.claimer && Holding(w.log, w.claimer[b], b)
  }

  /** A step by `id` leaves the claims of others standing; its own it may only end as the handlers do. */
  lemma ClaimStays(w: World, e: Event, b: Name)
    requires Inv(w) && Disciplined(Step(w, e).log) && !e.Wait? && !HasLeft(w.log, e.id)
    requires b in w.breakers && w.breakers[b].state.HalfOpen? && Step(w, e).breakers[b].state.HalfOpen?
    ensures Holding(Step(w, e).log, w.claimer[b], b)
  {
    var w', c := Step(w, e), w.claimer[b];
    var entry := w'.log[|w.log|];
    assert w'.log == w.log + [entry];
    ActsAppend(w.log, entry, c);
    if c == e.id {
      OwnStep(w.log, entry, b);
      AnswerResolves(w, e, b);
    }
  }

  /** An answer takes a half-open breaker out of that state. */
  lemma AnswerResolves(w: World, e: Event, b: Name)
    requires !e.Wait? && !HasLeft(w.log, e.id) && b in w.breakers && w.breakers[b].state.HalfOpen?
    requires IsAnswer(Step(w, e).log[|w.log|], b)
    ensures !Step(w, e).breakers[b].state.HalfOpen?
  {}

  /** A step turns at most the breaker it is about half-open, and that only by a granted attempt. */
  lemma BreakersStep(w: World, e: Event, b: Name)
    requires b in w.breakers && Coherent(w.breakers[b])
    ensures Step(w, e).breakers.Keys == w.breakers.Keys && Coherent(Step(w, e).breakers[b])
    ensures Step(w, e).breakers[b].state.HalfOpen? && !w.breakers[b].state.HalfOpen? ==>
      e.Try? && e.backend == b && Step(w, e).log == w.log + [Did(e.id, Attempt(b, true))]
      && Step(w, e).claimer == w.claimer[b := e.id] && !HasLeft(w.log, e.id)
    ensures Step(w, e).breakers[b].state.HalfOpen? && w.breakers[b].state.HalfOpen? && b in w.claimer ==>
      b in Step(w, e).claimer && Step(w, e).claimer[b] == w.claimer[b]
  {}

  lemma StepKeeps(w: World, e: Event)
    requires Inv(w) && Disciplined(Step(w, e).log)
    ensures Inv(Step(w, e))
  {
    var w' := Step(w, e);
    forall b | b in w'.breakers
      ensures Coherent(w'.breakers[b])
      ensures w'.breakers[b].state.HalfOpen? ==> b in w'.claimer && Holding(w'.log, w'.claimer[b], b)
    {
      assert b in w.breakers;
      BreakersStep(w, e, b);
      if w'.breakers[b].state.HalfOpen? {
        if !w.breakers[b].state.HalfOpen? {
          ActsAppend(w.log, Did(e.id, Attempt(b, true)), e.id);
        } else if !e.Wait? && !HasLeft(w.log, e.id) {
          ClaimStays(w, e, b);
        }
      }
    }
  }

  lemma {:induction false} RunKeeps(cfg: Config, names: set<Name>, now: nat, events: seq<Event>)
    requires Follows(Start(cfg, names, now), events)
    ensures Inv(After(Start(cfg, names, now), events))
  {
    if events != [] {
      RunKeeps(cfg, names, now, events[..|events| - 1]);
      StepKeeps(After(Start(cfg, names, now), events[..|events| - 1]), events[|events| - 1]);
    }
  }

  // ----- The theorems. -----

  /** In every run a half-open breaker has an admitted task in flight that still has to answer to it. */
  lemma HalfOpenHasAProbe(cfg: Config, names: set<Name>, now: nat, events: seq<Event>, b: Name)
    requires Follows(Start(cfg, names, now), events)
    ensures var w := After(Start(cfg, names, now), events);
      b in w.breakers && w.breakers[b].state.HalfOpen? ==> exists id :: Holding(w.log, id, b)
  {
    RunKeeps(cfg, names, now, events);
  }

  /** Once everybody who was admitted has left, no breaker is half-open and no probe flag is left set. */
  lemma NoStrandedProbe(cfg: Config, names: set<Name>, now: nat, events: seq<Event>, b: Name)
    requires Follows(Start(cfg, names, now), events)
    ensures var w := After(Start(cfg, names, now), events);
      (forall id :: ActsOf(w.log, id) != [] ==> HasLeft(w.log, id)) && b in w.breakers ==>
        !w.breakers[b].state.HalfOpen? && !w.breakers[b].probeInFlight
  {
    RunKeeps(cfg, names, now, events);
  }

  // ----- The books. -----

  /** How often somebody was admitted on `b`. */
  function Grants(log: seq<Entry>, b: Name): nat {
    if log == [] then 0
    else Grants(log[..|log| - 1], b) + (if log[|log| - 1].Did? && log[|log| - 1].act == Attempt(b, true) then 1 else 0)
  }

  /** How often somebody told or gave back to `b`. */
  function Answers(log: seq<Entry>, b: Name): nat {
    if log == [] then 0
    else Answers(log[..|log| - 1], b) + (if IsAnswer(log[|log| - 1], b) then 1 else 0)
  }

  predicate IsAnswer(e: Entry, b: Name) {
    e.Did? && !e.act.kind.Admission? && e.act.name == b
  }

  function Ids(log: seq<Entry>): set<nat> {
    set i | 0 <= i < |log| :: log[i].id
  }

  /** The tasks in flight that were admitted on `b` and have not answered. */
  function Holders(log: seq<Entry>, b: Name): set<nat> {
    set id | id in Ids(log) && Holding(log, id, b)
  }

  lemma {:induction false} ActorsAreKnown(log: seq<Entry>, id: nat)
    requires ActsOf(log, id) != []
    ensures id in Ids(log)
  {
    var init := log[..|log| - 1];
    if !(log[|log| - 1].Did? && log[|log| - 1].id == id) {
      ActorsAreKnown(init, id);
      var i :| 0 <= i < |init| && init[i].id == id;
      assert log[i].id == id;
    }
  }

  lemma HoldersAre(log: seq<Entry>, b: Name, id: nat)
    ensures id in Holders(log, b) <==> Holding(log, id, b)
  {
    if Holding(log, id, b) {
      ActorsAreKnown(log, id);
    }
  }

  /** How one more entry changes who holds. */
  lemma HoldersStep(log: seq<Entry>, e: Entry, b: Name)
    requires Disciplined(log) && Disciplined(log + [e]) && !HasLeft(log, e.id)
    ensures Holders(log + [e], b) ==
      if e.Did? && e.act == Attempt(b, true) then Holders(log, b) + {e.id}
      else if IsAnswer(e, b) then Holders(log, b) - {e.id} else Holders(log, b)
    ensures e.Did? && e.act == Attempt(b, true) ==> e.id !in Holders(log, b)
    ensures IsAnswer(e, b) ==> e.id in Holders(log, b)
  {
    forall id ensures id in Holders(log, b) <==> Holding(log, id, b)
              ensures id in Holders(log + [e], b) <==> Holding(log + [e], id, b)
    {
      HoldersAre(log, b, id);
      HoldersAre(log + [e], b, id);
    }
    forall id | id != e.id ensures Holding(log + [e], id, b) <==> Holding(log, id, b) {
      ActsAppend(log, e, id);
    }
    OwnStep(log, e, b);
  }

  /** What an entry does to the claim of the task that made it. */
  lemma OwnStep(log: seq<Entry>, e: Entry, b: Name)
    requires Disciplined(log + [e]) && !HasLeft(log, e.id)
    ensures Holding(log + [e], e.id, b) <==> e.Did? && e.act == Attempt(b, true)
    ensures Holding(log, e.id, b) <==> IsAnswer(e, b)
  {
    var acts := ActsOf(log, e.id);
    ActsAppend(log, e, e.id);
    assert OnTrack(ActsOf(log + [e], e.id), HasLeft(log + [e], e.id));
    if e.Left? {
      if Holding(log, e.id, b) {
        HolderMayNotLeave(acts, b);
      }
    } else {
      if Holding(log, e.id, b) {
        HolderMustAnswer(acts, e.act, b);
      }
      if !e.act.kind.Admission? {
        OnlyHoldersAnswer(acts, e.act);
      }
    }
  }

  lemma BalanceStep(log: seq<Entry>, e: Entry, b: Name)
    requires Disciplined(log) && Disciplined(log + [e]) && !HasLeft(log, e.id)
    requires Grants(log, b) == Answers(log, b) + |Holders(log, b)|
    ensures Grants(log + [e], b) == Answers(log + [e], b) + |Holders(log + [e], b)|
  {
    assert (log + [e])[..|log|] == log;
    HoldersStep(log, e, b);
  }

  /** In every run the admissions on a backend are exactly its answers so far plus the tasks in flight that still
      owe one; so once everybody has left there are as many answers as admissions. */
  lemma {:induction false} AdmissionsBalance(cfg: Config, names: set<Name>, now: nat, events: seq<Event>, b: Name)
    requires Follows(Start(cfg, names, now), events)
    ensures var log := After(Start(cfg, names, now), events).log;
      Grants(log, b) == Answers(log, b) + |Holders(log, b)|
  {
    if events != [] {
      var init, e := events[..|events| - 1], events[|events| - 1];
      var w := After(Start(cfg, names, now), init);
      AdmissionsBalance(cfg, names, now, init, b);
      assert Disciplined(w.log);
      if !e.Wait? && !HasLeft(w.log, e.id) {
        var entry := Step(w, e).log[|w.log|];
        assert Step(w, e).log == w.log + [entry];
        BalanceStep(w.log, entry, b);
      }
    }
  }

  // ----- Whose answer resolves a probe. -----

  /** A next step that the handlers allow and that takes `b` out of the half-open state. */
  ghost predicate Resolves(w: World, e: Event, b: Name)
    requires b in w.breakers
  {
    w.breakers[b].state.HalfOpen? && !Step(w, e).breakers[b].state.HalfOpen? && Disciplined(Step(w, e).log)
  }

  lemma ResolverHolds(w: World, e: Event, b: Name)
    requires b in w.breakers && Resolves(w, e, b)
    ensures !e.Wait? && Holding(w.log, e.id, b)
  {
    var w' := Step(w, e);
    var entry := w'.log[|w.log|];
    assert w'.log == w.log + [entry];
    ActsAppend(w.log, entry, e.id);
    assert OnTrack(ActsOf(w'.log, e.id), HasLeft(w'.log, e.id));
    OnlyHoldersAnswer(ActsOf(w.log, e.id), entry.act);
  }

  lemma HolderResolves(w: World, id: nat, b: Name)
    requires Inv(w) && Disciplined(w.log) && b in w.breakers && w.breakers[b].state.HalfOpen? && Holding(w.log, id, b)
    ensures Resolves(w, Tell(id, b, true), b)
  {
    MayTell(w.log, id, b, true);
  }

  lemma MayTell(log: seq<Entry>, id: nat, b: Name, success: bool)
    requires Disciplined(log) && Holding(log, id, b)
    ensures Disciplined(log + [Did(id, Act(Report, b, success))])
  {
    var entry := Did(id, Act(Report, b, success));
    forall j ensures OnTrack(ActsOf(log + [entry], j), HasLeft(log + [entry], j)) {
      StaysOnTrack(log, entry, j);
      if j == id {
        HolderMayAnswer(ActsOf(log, id), b, success);
      }
    }
  }

  /** What somebody else does leaves a task on track; what it does itself is its own next act. */
  lemma StaysOnTrack(log: seq<Entry>, e: Entry, j: nat)
    requires Disciplined(log) && e.Did?
    ensures HasLeft(log + [e], j) <==> HasLeft(log, j)
    ensures OnTrack(ActsOf(log, j), HasLeft(log, j))
    ensures ActsOf(log + [e], j) == if j == e.id then ActsOf(log, j) + [e.act] else ActsOf(log, j)
  {
    ActsAppend(log, e, j);
  }

  /** A half-open breaker is resolved by the task that claimed its probe, and by nobody else, exactly when no
      other task admitted on that backend is still in flight. */
  lemma ResolverIsClaimerIff(w: World, b: Name)
    requires Inv(w) && Disciplined(w.log) && b in w.breakers && w.breakers[b].state.HalfOpen?
    ensures (forall e :: Resolves(w, e, b) ==> !e.Wait? && e.id == w.claimer[b]) <==>
      (forall id :: Holding(w.log, id, b) ==> id == w.claimer[b])
  {
    forall e | Resolves(w, e, b) ensures !e.Wait? && Holding(w.log, e.id, b) {
      ResolverHolds(w, e, b);
    }
    forall id | Holding(w.log, id, b) ensures Resolves(w, Tell(id, b, true), b) {
      HolderResolves(w, id, b);
    }
  }

  // ----- A run in which it is not. -----

  lemma MayTry(log: seq<Entry>, id: nat, b: Name)
    requires Disciplined(log) && ActsOf(log, id) == [] && !HasLeft(log, id)
    ensures Disciplined(log + [Did(id, Attempt(b, true))])
  {
    var entry := Did(id, Attempt(b, true));
    forall j ensures OnTrack(ActsOf(log + [entry], j), HasLeft(log + [entry], j)) {
      StaysOnTrack(log, entry, j);
      if j == id {
        SingleAttempt(b, true);
      }
    }
  }

  lemma FollowsStep(w: World, events: seq<Event>, e: Event)
    requires Follows(w, events) && Disciplined(Step(After(w, events), e).log)
    ensures Follows(w, events + [e]) && After(w, events + [e]) == Step(After(w, events), e)
  {
    assert (events + [e])[..|events|] == events;
  }

  /** A fresh task that finds the breaker routable is admitted. */
  lemma TryStep(w: World, events: seq<Event>, id: nat, b: Name)
    requires var s := After(w, events);
      Follows(w, events) && b in s.breakers && Routable(s.breakers[b], s.now) && ActsOf(s.log, id) == [] && !HasLeft(s.log, id)
    ensures var s, s' := After(w, events), After(w, events + [Try(id, b)]);
      && Follows(w, events + [Try(id, b)]) && s' == Tried(s, id, b) && Holding(s'.log, id, b)
      && forall j :: j != id ==> ActsOf(s'.log, j) == ActsOf(s.log, j) && (HasLeft(s'.log, j) <==> HasLeft(s.log, j))
  {
    var s := After(w, events);
    MayTry(s.log, id, b);
    FollowsStep(w, events, Try(id, b));
    forall j {
      ActsAppend(s.log, Did(id, Attempt(b, true)), j);
    }
  }

  lemma TellStep(w: World, events: seq<Event>, id: nat, b: Name, success: bool)
    requires Follows(w, events) && Holding(After(w, events).log, id, b)
    ensures var s, s' := After(w, events), After(w, events + [Tell(id, b, success)]);
      && Follows(w, events + [Tell(id, b, success)]) && s' == Told(s, id, b, success)
      && forall j :: j != id ==> ActsOf(s'.log, j) == ActsOf(s.log, j) && (HasLeft(s'.log, j) <==> HasLeft(s.log, j))
  {
    var s := After(w, events);
    MayTell(s.log, id, b, success);
    FollowsStep(w, events, Tell(id, b, success));
    forall j {
      ActsAppend(s.log, Did(id, Act(Report, b, success)), j);
    }
  }

  const TOUCHY := Config(0.5, 10, 1)

  /** Two tasks are admitted, and the first fails and trips the breaker. */
  ghost function UntilTrip(b: Name): seq<Event> {
    [Try(1, b)] + [Try(2, b)] + [Tell(1, b, false)]
  }

  lemma TripBesideAnother(b: Name, now: nat)
    ensures var w := After(Start(TOUCHY, {b}, now), UntilTrip(b));
      && Follows(Start(TOUCHY, {b}, now), UntilTrip(b)) && w.breakers.Keys == {b} && w.now == now
      && w.breakers[b].state.Open? && w.breakers[b].openedAt == Some(now) && !w.breakers[b].probeInFlight
      && Holding(w.log, 2, b) && ActsOf(w.log, 3) == [] && !HasLeft(w.log, 3)
  {
    var s0 := Start(TOUCHY, {b}, now);
    forall id ensures OnTrack(ActsOf(s0.log, id), HasLeft(s0.log, id)) {
      assert WellAttempted([], None);
    }
    assert Follows(s0, []);
    TryStep(s0, [], 1, b);
    assert [] + [Try(1, b)] == [Try(1, b)];
    TryStep(s0, [Try(1, b)], 2, b);
    TellStep(s0, [Try(1, b)] + [Try(2, b)], 1, b, false);
  }

  /** After the cool-off a third task claims the probe. */
  ghost function UntilProbe(b: Name): seq<Event> {
    UntilTrip(b) + [Wait(COOL_OFF)] + [Try(3, b)]
  }

  lemma ProbeBesideAnother(b: Name, now: nat)
    ensures var w := After(Start(TOUCHY, {b}, now), UntilProbe(b));
      && Follows(Start(TOUCHY, {b}, now), UntilProbe(b)) && b in w.breakers && w.breakers[b].state.HalfOpen?
      && b in w.claimer && w.claimer[b] == 3 && Holding(w.log, 2, b) && Holding(w.log, 3, b)
  {
    var s0 := Start(TOUCHY, {b}, now);
    TripBesideAnother(b, now);
    FollowsStep(s0, UntilTrip(b), Wait(COOL_OFF));
    TryStep(s0, UntilTrip(b) + [Wait(COOL_OFF)], 3, b);
  }

  /** A task that was admitted before the trip and reports late resolves the probe of another, who is still in flight. */
  lemma LateReportResolvesAnothersProbe(b: Name, now: nat)
    ensures var w, events := Start(TOUCHY, {b}, now), UntilProbe(b) + [Tell(2, b, true)];
      && Follows(w, events)
      && b in After(w, UntilProbe(b)).claimer && After(w, UntilProbe(b)).claimer[b] == 3
      && b in After(w, events).breakers && After(w, events).breakers[b].state.Closed? && Holding(After(w, events).log, 3, b)
  {
    ProbeBesideAnother(b, now);
    TellStep(Start(TOUCHY, {b}, now), UntilProbe(b), 2, b, true);
  }
}
