/** Live weights and rollback (rust/crates/thttpd-migrate/src/state.rs). Commands run one at a
    time under the control lock. */
module ControlPlane {
  import opened Common
  import opened Router
  import Breaker

  /** The mirrored configuration snapshot. */
  datatype ProxyConfig = ProxyConfig(weights: map<Name, nat>, routing: Routing)

  /** The pool's weights, which the router reads, beside the snapshot. */
  datatype Plane = Plane(names: seq<Name>, weights: map<Name, nat>, config: ProxyConfig)

  datatype Command = SetWeights(overrides: map<Name, nat>) | Rollback(target: Name)

  function Override(weights: map<Name, nat>, overrides: map<Name, nat>): map<Name, nat> {
    map n | n in weights :: if n in overrides then overrides[n] else weights[n]
  }

  ghost predicate PlaneOk(p: Plane) {
    && NoDuplicates(p.names)
    && (forall n :: n in p.weights <==> n in p.names)
    && p.config.weights == p.weights
    && TotalOf(p.weights, p.names) > 0
    && RoutingOk(p.names, p.config.routing)
  }

  /** In shadow mode the primary and the mirror are two different known backends. */
  predicate RoutingOk(names: seq<Name>, routing: Routing) {
    routing.mode.Shadow? ==>
      && routing.primary.Some? && routing.shadow.Some? && routing.primary != routing.shadow
      && routing.primary.value in names && routing.shadow.value in names
  }

  function SetWeightsSpec(p: Plane, overrides: map<Name, nat>): (bool, Plane)
    requires Known(p.weights, p.names)
  {
    if exists n :: n in overrides && n !in p.names then (false, p)
    else if TotalOf(Override(p.weights, overrides), p.names) == 0 then (false, p)
    else (true, p.(weights := Override(p.weights, overrides),
                   config := p.config.(weights := Override(p.config.weights, overrides))))
  }

  function FirstOther(names: seq<Name>, target: Name): (o: Option<Name>)
    ensures o.Some? ==> o.value in names && o.value != target
  {
    if names == [] then None else if names[0] != target then Some(names[0]) else FirstOther(names[1..], target)
  }

  /** The routing after a rollback: in shadow mode the target becomes the primary and is mirrored to
      the previous primary. */
  function RolledBack(routing: Routing, names: seq<Name>, target: Name): Routing {
    if !routing.mode.Shadow? || routing.primary == Some(target) then routing
    else
      var mirror :=
        if routing.primary.Some? && routing.primary.value != target then routing.primary
        else if routing.shadow.Some? && routing.shadow.value != target then routing.shadow
        else FirstOther(names, target);
      routing.(primary := Some(target), shadow := mirror)
  }

  function Pinned(weights: map<Name, nat>, target: Name): map<Name, nat> {
    map n | n in weights :: if n == target then 100 else 0
  }

  function RollbackSpec(p: Plane, target: Name): (bool, Plane) {
    if target !in p.names then (false, p)
    else (true, p.(weights := Pinned(p.weights, target),
                   config := ProxyConfig(Pinned(p.config.weights, target),
                                         RolledBack(p.config.routing, p.names, target))))
  }

  lemma {:induction false} PositiveMember(ws: seq<nat>, i: nat)
    requires i < |ws|
    ensures Prefix(ws, |ws|) >= ws[i]
  {
    PrefixMonotone(ws, i + 1, |ws|);
  }

  lemma SetWeightsKeeps(p: Plane, overrides: map<Name, nat>)
    requires PlaneOk(p)
    ensures PlaneOk(SetWeightsSpec(p, overrides).1)
  {}

  lemma RollbackKeeps(p: Plane, target: Name)
    requires PlaneOk(p)
    ensures PlaneOk(RollbackSpec(p, target).1)
  {
    if target in p.names {
      var p' := RollbackSpec(p, target).1;
      var i :| 0 <= i < |p.names| && p.names[i] == target;
      PositiveMember(WeightsOf(p'.weights, p.names), i);
    }
  }

  ghost function Run(p: Plane, commands: seq<Command>): (p': Plane)
    requires PlaneOk(p)
    ensures PlaneOk(p') && p'.names == p.names && p'.config.routing.mode == p.config.routing.mode
    decreases |commands|
  {
    if commands == [] then p
    else Run(Apply(p, commands[0]), commands[1..])
  }

  ghost function Apply(p: Plane, c: Command): (p': Plane)
    requires PlaneOk(p)
    ensures PlaneOk(p') && p'.names == p.names && p'.config.routing.mode == p.config.routing.mode
  {
    match c
    case SetWeights(overrides) => SetWeightsKeeps(p, overrides); SetWeightsSpec(p, overrides).1
    case Rollback(target) => RollbackKeeps(p, target); RollbackSpec(p, target).1
  }

  /** Once a known backend is rolled back to, it is the only one that a decision may serve, in all three modes. */
  lemma RollbackPinsTheTarget(p: Plane, target: Name, b: Name)
    requires target in p.names && target in p.weights
    ensures var p' := RollbackSpec(p, target).1;
      MayServe(p'.weights, p'.config.routing, b) <==> b == target
  {}

  /** A failed command leaves everything as it was; which commands fail is known beforehand. */
  lemma CommandFailsIff(p: Plane, overrides: map<Name, nat>, target: Name)
    requires PlaneOk(p)
    ensures SetWeightsSpec(p, overrides).0 <==>
      (forall n :: n in overrides ==> n in p.names)
      && exists n :: n in p.names && (if n in overrides then overrides[n] else p.weights[n]) > 0
    ensures RollbackSpec(p, target).0 <==> target in p.names
    ensures !SetWeightsSpec(p, overrides).0 ==> SetWeightsSpec(p, overrides).1 == p
    ensures !RollbackSpec(p, target).0 ==> RollbackSpec(p, target).1 == p
  {
    var ws := WeightsOf(Override(p.weights, overrides), p.names);
    forall n | n in p.names && (if n in overrides then overrides[n] else p.weights[n]) > 0 ensures Prefix(ws, |ws|) > 0 {
      var i :| 0 <= i < |p.names| && p.names[i] == n;
      PositiveMember(ws, i);
    }
    if Prefix(ws, |ws|) > 0 {
      var i := PositiveOne(ws, |ws|);
      assert p.names[i] in p.names;
    }
  }

  lemma {:induction false} PositiveOne(ws: seq<nat>, n: nat) returns (i: nat)
    requires n <= |ws| && Prefix(ws, n) > 0
    ensures i < n && ws[i] > 0
  {
    if ws[n - 1] > 0 {
      i := n - 1;
    } else {
      i := PositiveOne(ws, n - 1);
    }
  }

  // ----- What the commands leave, in plain terms. -----

  /** The weights that an update would give the backends, in the pool's order. */
  function Prospects(names: seq<Name>, weights: map<Name, nat>, overrides: map<Name, nat>): (ws: seq<nat>)
    requires Known(weights, names)
    ensures |ws| == |names|
    ensures forall i :: 0 <= i < |names| ==> ws[i] == if names[i] in overrides then overrides[names[i]] else weights[names[i]]
  {
    seq(|names|, i requires 0 <= i < |names| => if names[i] in overrides then overrides[names[i]] else weights[names[i]])
  }

  /** Every overridden name has exactly its override and every other name its old weight. */
  predicate Updated(before: map<Name, nat>, overrides: map<Name, nat>, after: map<Name, nat>) {
    && after.Keys == before.Keys
    && (forall n :: n in after && n in overrides ==> after[n] == overrides[n])
    && (forall n :: n in after && n !in overrides ==> after[n] == before[n])
  }

  lemma OverrideUpdates(weights: map<Name, nat>, overrides: map<Name, nat>)
    ensures Updated(weights, overrides, Override(weights, overrides))
  {}

  lemma ProspectsTotal(names: seq<Name>, weights: map<Name, nat>, overrides: map<Name, nat>)
    requires Known(weights, names)
    ensures TotalOf(Override(weights, overrides), names) == SumOf(Prospects(names, weights, overrides))
  {
    assert WeightsOf(Override(weights, overrides), names) == Prospects(names, weights, overrides);
  }

  /** The target has weight 100 and everybody else 0. */
  predicate AllOn(target: Name, before: map<Name, nat>, after: map<Name, nat>) {
    && after.Keys == before.Keys
    && (forall n :: n in after ==> after[n] == if n == target then 100 else 0)
  }

  /** In shadow mode the target is the primary and the old primary, if it was another, the mirror; other modes keep
      their routing. */
  predicate Promoted(before: Routing, target: Name, after: Routing) {
    && after.mode == before.mode
    && (!before.mode.Shadow? || before.primary == Some(target) ==> after == before)
    && (before.mode.Shadow? ==> after.primary == Some(target))
    && (before.mode.Shadow? && before.primary.Some? && before.primary.value != target ==> after.shadow == before.primary)
  }

  /** After an update each overridden candidate of any round of a decision is tried by exactly `overrides[n]` of the
      possible draws, and every other one by as many as its weight was. */
  lemma UpdatedDraws(before: map<Name, nat>, overrides: map<Name, nat>, after: map<Name, nat>, all: seq<Name>,
                     draws: seq<nat>, i: nat)
    requires Updated(before, overrides, after) && Known(after, all) && i < |LeftAfter(after, all, draws)|
    ensures var left := LeftAfter(after, all, draws);
      |set pick | 0 <= pick < TotalOf(after, left) && Drawn(after, left, pick) == Some(i)|
      == if left[i] in overrides then overrides[left[i]] else before[left[i]]
  {
    RoundIsWeighted(after, all, draws, i);
  }

  class LiveState {
    const pool: Pool
    var config: ProxyConfig

    ghost function View(): Plane
      reads this, pool
    {
      Plane(pool.names, pool.weights, config)
    }

    constructor (pool: Pool, config: ProxyConfig)
      ensures this.pool == pool && this.config == config
    {
      this.pool := pool;
      this.config := config;
    }

    /** The total the pool would have under the overrides. */
    method ProspectiveTotal(overrides: map<Name, nat>) returns (total: nat)
      requires pool.Valid()
      ensures total == SumOf(Prospects(pool.names, pool.weights, overrides))
    {
      total := 0;
      ghost var ws := Prospects(pool.names, pool.weights, overrides);
      for i := 0 to |pool.names|
        invariant total == Prefix(ws, i)
      {
        var n := pool.names[i];
        total := total + if n in overrides then overrides[n] else pool.weights[n];
      }
    }

    /** Store the overrides in the pool and in the snapshot. */
    method Store(overrides: map<Name, nat>)
      requires pool.Valid()
      modifies this, pool`weights
      ensures pool.Valid()
      ensures pool.weights == Override(old(pool.weights), overrides)
      ensures config == old(config).(weights := Override(old(config).weights, overrides))
    {
      pool.weights := map n | n in pool.weights :: if n in overrides then overrides[n] else pool.weights[n];
      config := config.(weights := map n | n in config.weights :: if n in overrides then overrides[n] else config.weights[n]);
    }

    method SetWeights(overrides: map<Name, nat>) returns (ok: bool)
      requires pool.Valid()
      modifies this, pool`weights
      ensures pool.Valid() && (ok, View()) == SetWeightsSpec(old(View()), overrides)
      ensures ok <==>
        (forall n :: n in overrides ==> n in pool.names) && SumOf(Prospects(pool.names, old(pool.weights), overrides)) > 0
      ensures !ok ==> pool.weights == old(pool.weights) && config == old(config)
      ensures ok ==> Updated(old(pool.weights), overrides, pool.weights) && Updated(old(config).weights, overrides, config.weights)
      ensures config.routing == old(config).routing
    {
      if exists n :: n in overrides && n !in pool.names {
        return false;
      }
      var total := ProspectiveTotal(overrides);
      ProspectsTotal(pool.names, pool.weights, overrides);
      if total == 0 {
        return false;
      }
      OverrideUpdates(pool.weights, overrides);
      OverrideUpdates(config.weights, overrides);
      Store(overrides);
      return true;
    }

    method Rollback(target: Name) returns (ok: bool)
      requires pool.Valid()
      modifies this, pool`weights
      ensures pool.Valid() && (ok, View()) == RollbackSpec(old(View()), target)
      ensures ok <==> target in pool.names
      ensures !ok ==> pool.weights == old(pool.weights) && config == old(config)
      ensures ok ==> AllOn(target, old(pool.weights), pool.weights) && AllOn(target, old(config).weights, config.weights)
      ensures ok ==> Promoted(old(config).routing, target, config.routing)
    {
      if target !in pool.names {
        return false;
      }
      pool.weights := map n | n in pool.weights :: if n == target then 100 else 0;
      var snap := config.(weights := map n | n in config.weights :: if n == target then 100 else 0);
      if snap.routing.mode.Shadow? {
        var previous := snap.routing.primary;
        if previous != Some(target) {
          var mirror := previous;
          if mirror.None? {
            mirror := if snap.routing.shadow != Some(target) then snap.routing.shadow else None;
          }
          if mirror.None? {
            mirror := FirstOther(pool.names, target);
          }
          snap := snap.(routing := snap.routing.(primary := Some(target), shadow := mirror));
        }
      }
      config := snap;
      return true;
    }

    /** A request that starts any time after a rollback serves the target or nothing, whatever requests and
        health checks did in between and do meanwhile, as long as no further command comes. If nothing moves,
        it serves the target exactly when the target is ready. */
    method DecideAfterRollback(target: Name, rng: nat -> nat, ghost others: Others) returns (r: Option<Decision>)
      requires pool.Valid() && target in pool.names && pool.acts == [] && !others.Free?
      modifies this, pool
      ensures r.Some? ==> r.value.backend == target
      ensures forall i :: 0 <= i < |pool.acts| ==> pool.acts[i].name == target
      ensures others.Quiet? ==> (r.Some? <==> Ready(old(pool.health), old(pool.breakers), old(pool.now), target))
    {
      ghost var before := View();
      var ok := Rollback(target);
      RollbackPinsTheTarget(before, target, target);
      pool.Interfere(others);
      assert others.Quiet? && Ready(old(pool.health), old(pool.breakers), old(pool.now), target) ==>
        Eligible(pool.weights, pool.health, pool.breakers, pool.now, target);
      ghost var t;
      r, t := pool.Decide(config.routing, rng, others);
      if r.Some? {
        RollbackPinsTheTarget(before, target, r.value.backend);
      }
      if others.Quiet? && !config.routing.mode.Shadow? && t.candidates != [] {
        assert t.candidates[0] in t.candidates;
        RollbackPinsTheTarget(before, target, t.candidates[0]);
      }
      forall i | 0 <= i < |pool.acts| ensures pool.acts[i].name == target {
        if !config.routing.mode.Shadow? {
          TriedHaveWeight(pool.weights, t.candidates, pool.acts, t.draws, i);
        }
        RollbackPinsTheTarget(before, target, pool.acts[i].name);
      }
    }
  }

  /** Whoever a draw lands on has a positive weight. */
  lemma TriedHaveWeight(weights: map<Name, nat>, all: seq<Name>, acts: seq<Act>, draws: seq<nat>, k: nat)
    requires Explained(weights, all, acts, draws) && k < |acts|
    ensures acts[k].name in weights && weights[acts[k].name] > 0
  {
    var left := LeftAfter(weights, all, draws[..k]);
    assert DrawnAt(weights, all, draws, k) == Some(acts[k].name);
    var i := Drawn(weights, left, draws[k]).value;
    assert Prefix(WeightsOf(weights, left), i + 1) > Prefix(WeightsOf(weights, left), i);
  }

  /** A decision that is running may give up without trying anybody: here its only candidate loses its weight
      to a rollback, to a backend that is down, between the filter and the first total. */
  method RollbackStarvesADecision(now: nat, rng: nat -> nat) returns (pool: Pool, candidates: seq<Name>, chosen: Option<Name>)
    ensures candidates == ["old"] && pool.acts == [] && chosen.None?
    ensures Ready(pool.health, pool.breakers, pool.now, "old")
  {
    var live;
    live, candidates := OneCandidate(now);
    pool := live.pool;
    var ok := live.Rollback("new");
    ghost var t;
    chosen, t := pool.AdmitOne(candidates, rng, Quiet);
    assert t.draws[..0] == [];
    assert t.readings[0] == ReadingAt(pool.weights, candidates, t.draws, 0) == [pool.weights["old"]];
    assert AllZero(t.readings[0]);
  }

  method OneCandidate(now: nat) returns (live: LiveState, candidates: seq<Name>)
    ensures candidates == ["old"] && live.pool.names == ["old", "new"] && live.pool.Valid() && live.pool.acts == []
    ensures Ready(live.pool.health, live.pool.breakers, live.pool.now, "old")
    ensures fresh(live) && fresh(live.pool)
  {
    var weights, health := map["old" := 1, "new" := 0], map["old" := Healthy, "new" := Unhealthy];
    var pool := new Pool(Breaker.Config(0.5, 10, 5), ["old", "new"], weights, health, now);
    live := new LiveState(pool, ProxyConfig(weights, Routing(ActiveActive, None, None)));
    candidates := pool.Candidates(Quiet);
    OnlyOne(candidates);
  }

  lemma OnlyOne(candidates: seq<Name>)
    requires NoDuplicates(candidates) && forall n :: n in candidates <==> n == "old"
    ensures candidates == ["old"]
  {
    assert |candidates| > 1 ==> candidates[0] != candidates[1];
    assert "old" in candidates;
    forall i | 0 <= i < |candidates| ensures candidates[i] == "old" {
      assert candidates[i] in candidates;
    }
  }
}
