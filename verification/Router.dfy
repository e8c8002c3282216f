/** Weighted routing over the shared pool (rust/crates/thttpd-migrate/src/router.rs, backend.rs).
    Other requests, the health checker and the control plane may act between any two steps. */
module Router {
  import opened Common
  import opened Breaker

  type Name = string

  datatype Health = Healthy | Degraded | Unhealthy
  datatype Mode = ActiveActive | Canary | Shadow
  datatype Routing = Routing(mode: Mode, primary: Option<Name>, shadow: Option<Name>)
  datatype Decision = Decision(backend: Name, mirror: Option<Name>)

  predicate NoDuplicates(names: seq<Name>) {
    forall i, j :: 0 <= i < j < |names| ==> names[i] != names[j]
  }

  // ----- The weighted draw. -----

  predicate Known(weights: map<Name, nat>, names: seq<Name>) {
    forall i :: 0 <= i < |names| ==> names[i] in weights
  }

  function WeightsOf(weights: map<Name, nat>, names: seq<Name>): (ws: seq<nat>)
    requires Known(weights, names)
    ensures |ws| == |names|
  {
    seq(|names|, i requires 0 <= i < |names| => weights[names[i]])
  }

  /** The sum of the first `n` weights. */
  function Prefix(ws: seq<nat>, n: nat): nat
    requires n <= |ws|
  {
    if n == 0 then 0 else Prefix(ws, n - 1) + ws[n - 1]
  }

  lemma {:induction false} PrefixMonotone(ws: seq<nat>, i: nat, j: nat)
    requires i <= j <= |ws|
    ensures Prefix(ws, i) <= Prefix(ws, j)
  {
    if i < j {
      PrefixMonotone(ws, i, j - 1);
    }
  }

  /** The index a draw lands on: the first one whose running total exceeds it. */
  function Choose(ws: seq<nat>, pick: nat, i: nat): (c: nat)
    requires i < |ws| && pick < Prefix(ws, |ws|)
    ensures i <= c < |ws|
    ensures Prefix(ws, i) <= pick ==> Prefix(ws, c) <= pick < Prefix(ws, c + 1)
    decreases |ws| - i
  {
    if pick < Prefix(ws, i + 1) then i
    else if i + 1 == |ws| then i
    else Choose(ws, pick, i + 1)
  }

  lemma ChooseIsUnique(ws: seq<nat>, pick: nat, i: nat)
    requires i < |ws| && Prefix(ws, i) <= pick < Prefix(ws, i + 1)
    ensures pick < Prefix(ws, |ws|) && Choose(ws, pick, 0) == i
  {
    PrefixMonotone(ws, i + 1, |ws|);
    var c := Choose(ws, pick, 0);
    if c < i {
      PrefixMonotone(ws, c + 1, i);
    } else if c > i {
      PrefixMonotone(ws, i + 1, c);
    }
  }

  ghost function Draws(ws: seq<nat>, i: nat): set<nat>
    requires i < |ws|
  {
    set pick | 0 <= pick < Prefix(ws, |ws|) && Choose(ws, pick, 0) == i
  }

  ghost function Interval(lo: nat, hi: nat): (s: set<nat>)
    requires lo <= hi
    ensures |s| == hi - lo && forall p :: p in s <==> lo <= p < hi
  {
    if lo == hi then {} else Interval(lo, hi - 1) + {hi - 1}
  }

  /** Each candidate is chosen by exactly `weight` of the `total` possible draws. */
  lemma DrawsEqualWeight(ws: seq<nat>, i: nat)
    requires i < |ws|
    ensures |Draws(ws, i)| == ws[i]
  {
    var total := Prefix(ws, |ws|);
    PrefixMonotone(ws, i + 1, |ws|);
    forall pick | 0 <= pick < total
      ensures Choose(ws, pick, 0) == i <==> Prefix(ws, i) <= pick < Prefix(ws, i + 1)
    {
      if Prefix(ws, i) <= pick < Prefix(ws, i + 1) {
        ChooseIsUnique(ws, pick, i);
      }
    }
    assert Draws(ws, i) == Interval(Prefix(ws, i), Prefix(ws, i + 1));
  }

  function TotalOf(weights: map<Name, nat>, names: seq<Name>): nat
    requires Known(weights, names)
  {
    Prefix(WeightsOf(weights, names), |names|)
  }

  /** The index that a draw among these candidates lands on, if it is below their total. */
  function Drawn(weights: map<Name, nat>, names: seq<Name>, pick: nat): (i: Option<nat>)
    requires Known(weights, names)
    ensures i.Some? ==> i.value < |names|
  {
    if pick < TotalOf(weights, names) then Some(Choose(WeightsOf(weights, names), pick, 0)) else None
  }

  function Without(names: seq<Name>, i: nat): (rest: seq<Name>)
    requires i < |names|
    ensures |rest| == |names| - 1
    ensures forall j :: 0 <= j < |rest| ==> rest[j] == names[if j < i then j else j + 1]
  {
    names[..i] + names[i + 1..]
  }

  /** Who is still a candidate after these draws, each of which dropped whom it landed on. */
  function LeftAfter(weights: map<Name, nat>, all: seq<Name>, draws: seq<nat>): (left: seq<Name>)
    requires Known(weights, all)
    ensures Known(weights, left)
  {
    if draws == [] then all
    else
      var before := LeftAfter(weights, all, draws[..|draws| - 1]);
      var i := Drawn(weights, before, draws[|draws| - 1]);
      if i.None? then before else Without(before, i.value)
  }

  /** The candidate that round `k` tries. */
  function DrawnAt(weights: map<Name, nat>, all: seq<Name>, draws: seq<nat>, k: nat): (n: Option<Name>)
    requires Known(weights, all) && k < |draws|
  {
    var left := LeftAfter(weights, all, draws[..k]);
    var i := Drawn(weights, left, draws[k]);
    if i.None? then None else Some(left[i.value])
  }

  /** In any round each remaining candidate is the one tried by exactly `weight` of the `total` possible draws. */
  lemma RoundIsWeighted(weights: map<Name, nat>, all: seq<Name>, draws: seq<nat>, i: nat)
    requires Known(weights, all) && i < |LeftAfter(weights, all, draws)|
    ensures var left := LeftAfter(weights, all, draws);
      |set pick | 0 <= pick < TotalOf(weights, left) && Drawn(weights, left, pick) == Some(i)| == weights[left[i]]
  {
    var left := LeftAfter(weights, all, draws);
    DrawsEqualWeight(WeightsOf(weights, left), i);
    assert Draws(WeightsOf(weights, left), i) ==
      set pick | 0 <= pick < TotalOf(weights, left) && Drawn(weights, left, pick) == Some(i);
  }

  // ----- What a decision may be, given weights and routing. -----

  predicate MayServe(weights: map<Name, nat>, routing: Routing, b: Name) {
    if routing.mode.Shadow? then routing.primary == Some(b) else b in weights && weights[b] > 0
  }

  /** Whether a backend is healthy enough and its breaker would admit. */
  predicate Ready(health: map<Name, Health>, breakers: map<Name, Snapshot>, now: nat, n: Name) {
    n in health && health[n] != Unhealthy && (n in breakers ==> Routable(breakers[n], now))
  }

  /** Whether a backend passes the candidate filter. */
  predicate Eligible(weights: map<Name, nat>, health: map<Name, Health>, breakers: map<Name, Snapshot>, now: nat, n: Name) {
    n in weights && weights[n] > 0 && Ready(health, breakers, now, n)
  }

  // ----- What a request does to breakers. -----

  datatype Kind = Admission | Report | Release

  /** One thing a request does to a breaker: an admission attempt and whether it was granted, a report and
      whether it was a success, or the release of a probe. */
  datatype Act = Act(kind: Kind, name: Name, ok: bool)

  function Attempt(name: Name, ok: bool): Act {
    Act(Admission, name, ok)
  }

  predicate AllRefused(acts: seq<Act>) {
    forall i :: 0 <= i < |acts| ==> !acts[i].ok
  }

  predicate Attempted(acts: seq<Act>, name: Name) {
    exists i :: 0 <= i < |acts| && acts[i].name == name
  }

  /** Only attempts: nobody is tried twice, and only the last one may have been granted, on `chosen`. */
  ghost predicate WellAttempted(acts: seq<Act>, chosen: Option<Name>) {
    && (forall i :: 0 <= i < |acts| ==> acts[i].kind.Admission?)
    && (forall i, j :: 0 <= i < j < |acts| ==> acts[i].name != acts[j].name)
    && (chosen.None? ==> AllRefused(acts))
    && (chosen.Some? ==>
         |acts| > 0 && acts[|acts| - 1] == Attempt(chosen.value, true) && AllRefused(acts[..|acts| - 1]))
  }

  /** What a request that is over leaves behind: refused attempts only, or attempts of which the last was granted,
      followed by one report or release on that same backend. */
  ghost predicate Settled(acts: seq<Act>, claimed: Option<Name>) {
    if claimed.None? then WellAttempted(acts, None)
    else
      && |acts| > 0 && WellAttempted(acts[..|acts| - 1], claimed)
      && !acts[|acts| - 1].kind.Admission? && acts[|acts| - 1].name == claimed.value
  }

  /** What a request may have done so far: refused attempts, then a granted one, then its answer. */
  ghost predicate Underway(acts: seq<Act>) {
    || WellAttempted(acts, None)
    || (acts != [] && WellAttempted(acts, Some(acts[|acts| - 1].name)))
    || (acts != [] && Settled(acts, Some(acts[|acts| - 1].name)))
  }

  lemma SingleAttempt(name: Name, ok: bool)
    ensures WellAttempted([Attempt(name, ok)], if ok then Some(name) else None)
  {}

  /** Every candidate was tried and refused. */
  predicate Exhausted(all: seq<Name>, acts: seq<Act>) {
    AllRefused(acts) && forall i :: 0 <= i < |all| ==> Attempted(acts, all[i])
  }

  // ----- Breaker calls on the pool's map; a backend without a breaker is always admitted. -----

  function AdmitOn(breakers: map<Name, Snapshot>, name: Name, now: nat): (r: (bool, map<Name, Snapshot>))
    ensures r.1.Keys == breakers.Keys && OnlyAt(breakers, r.1, name)
    ensures r.0 <==> (name in breakers ==> Routable(breakers[name], now))
  {
    if name !in breakers then (true, breakers)
    else
      var (ok, b) := Admit(breakers[name], now);
      (ok, breakers[name := b])
  }

  function RecordOn(breakers: map<Name, Snapshot>, cfg: Config, name: Name, success: bool, now: nat): (r: map<Name, Snapshot>)
    ensures r.Keys == breakers.Keys && OnlyAt(breakers, r, name)
  {
    if name in breakers then breakers[name := Recorded(breakers[name], cfg, success, now)] else breakers
  }

  function ReleaseOn(breakers: map<Name, Snapshot>, name: Name, now: nat): (r: map<Name, Snapshot>)
    ensures r.Keys == breakers.Keys && OnlyAt(breakers, r, name)
  {
    if name in breakers then breakers[name := Released(breakers[name], now)] else breakers
  }

  predicate OnlyAt(before: map<Name, Snapshot>, after: map<Name, Snapshot>, name: Name) {
    after == before || (name in before && name in after && after == before[name := after[name]])
  }

  predicate AllZero(ws: seq<nat>) {
    forall i :: 0 <= i < |ws| ==> ws[i] == 0
  }

  /** Some round read a weight of 0 for each of its candidates. */
  predicate Starved(readings: seq<seq<nat>>) {
    exists k :: 0 <= k < |readings| && AllZero(readings[k])
  }

  lemma {:induction false} ZeroTotal(ws: seq<nat>, n: nat)
    requires n <= |ws|
    ensures Prefix(ws, n) == 0 <==> AllZero(ws[..n])
  {
    if n > 0 {
      ZeroTotal(ws, n - 1);
      assert ws[..n][..n - 1] == ws[..n - 1];
      assert forall i :: 0 <= i < n - 1 ==> ws[..n][i] == ws[..n - 1][i];
    }
  }

  /** What the retry loop drew and read, round by round. */
  ghost predicate Explained(weights: map<Name, nat>, all: seq<Name>, acts: seq<Act>, draws: seq<nat>) {
    && Known(weights, all) && |acts| == |draws|
    && forall k :: 0 <= k < |draws| ==> DrawnAt(weights, all, draws, k) == Some(acts[k].name)
  }

  lemma ExplainedStep(weights: map<Name, nat>, all: seq<Name>, acts: seq<Act>, draws: seq<nat>, pick: nat, i: nat, ok: bool)
    requires Explained(weights, all, acts, draws)
    requires Drawn(weights, LeftAfter(weights, all, draws), pick) == Some(i)
    ensures var left := LeftAfter(weights, all, draws);
      && Explained(weights, all, acts + [Attempt(left[i], ok)], draws + [pick])
      && LeftAfter(weights, all, draws + [pick]) == Without(left, i)
  {
    var more := draws + [pick];
    assert more[..|draws|] == draws;
    forall k | 0 <= k < |draws| ensures DrawnAt(weights, all, more, k) == DrawnAt(weights, all, draws, k) {
      assert more[..k] == draws[..k];
    }
  }

  /** What others may do between two steps: anything, anything but control commands, or nothing. */
  datatype Others = Free | NoControl | Quiet

  /** What a decision went through: who was a candidate, and what each round drew and read. */
  datatype Trace = Trace(candidates: seq<Name>, draws: seq<nat>, readings: seq<seq<nat>>)

  class Pool {
    const cfg: Config
    const names: seq<Name>
    var weights: map<Name, nat>
    var health: map<Name, Health>
    var breakers: map<Name, Snapshot>
    var now: nat
    /** What the request under study has done to breakers; nobody else writes here. */
    ghost var acts: seq<Act>

    constructor (cfg: Config, names: seq<Name>, weights: map<Name, nat>, health: map<Name, Health>, now: nat)
      ensures this.cfg == cfg && this.names == names && this.weights == weights && this.health == health
      ensures breakers == map n | n in names :: Initial(now)
      ensures this.now == now && acts == []
    {
      this.cfg, this.names, this.weights, this.health, this.now := cfg, names, weights, health, now;
      breakers := map n | n in names :: Initial(now);
      acts := [];
    }

    ghost predicate Valid()
      reads this
    {
      && NoDuplicates(names)
      && (forall n :: n in weights <==> n in names)
      && (forall n :: n in health <==> n in names)
      && (forall n :: n in breakers ==> Coherent(breakers[n]))
    }

    /** The pool may have moved from the given state in ways that `others` allows. */
    ghost predicate Moved(others: Others, weights0: map<Name, nat>, health0: map<Name, Health>,
                          breakers0: map<Name, Snapshot>, now0: nat)
      reads this
    {
      && Valid() && now0 <= now
      && (!others.Free? ==> weights == weights0)
      && (others.Quiet? ==> health == health0 && breakers == breakers0 && now == now0)
    }

    /** Anything others may do here. Wherever they may, what this request has done is what a request may do. */
    method Interfere(ghost others: Others)
      requires Valid() && Underway(acts)
      modifies this`weights, this`health, this`breakers, this`now
      ensures Moved(others, old(weights), old(health), old(breakers), old(now))
    {}

    method IsRoutable(name: Name) returns (ok: bool)
      requires Valid() && name in names
      ensures ok <==> health[name] != Unhealthy
    {
      ok := health[name] != Unhealthy;
    }

    method BreakerCanRoute(name: Name) returns (ok: bool)
      ensures ok <==> (name in breakers ==> Routable(breakers[name], now))
    {
      ok := if name in breakers then Routable(breakers[name], now) else true;
    }

    /** Claims an admission on `name` and touches no other breaker. */
    method BreakerAdmit(name: Name) returns (ok: bool)
      requires Valid()
      modifies this`breakers, this`acts
      ensures Valid() && acts == old(acts) + [Attempt(name, ok)]
      ensures (ok, breakers) == AdmitOn(old(breakers), name, now)
    {
      ok := true;
      if name in breakers {
        var (granted, b) := Admit(breakers[name], now);
        ok, breakers := granted, breakers[name := b];
      }
      acts := acts + [Attempt(name, ok)];
    }

    /** Reports an outcome to the breaker of `name` and touches no other. */
    method RecordOutcome(name: Name, success: bool)
      requires Valid()
      modifies this`breakers, this`acts
      ensures Valid() && acts == old(acts) + [Act(Report, name, success)]
      ensures breakers == RecordOn(old(breakers), cfg, name, success, now)
    {
      if name in breakers {
        breakers := breakers[name := Recorded(breakers[name], cfg, success, now)];
      }
      acts := acts + [Act(Report, name, success)];
    }

    /** Releases a probe on `name` without an outcome. */
    method ReleaseProbe(name: Name)
      requires Valid()
      modifies this`breakers, this`acts
      ensures Valid() && acts == old(acts) + [Act(Release, name, false)]
      ensures breakers == ReleaseOn(old(breakers), name, now)
    {
      if name in breakers {
        breakers := breakers[name := Released(breakers[name], now)];
      }
      acts := acts + [Act(Release, name, false)];
    }

    /** Whether one backend passes the filter, read piece by piece. */
    method Passes(name: Name, ghost others: Others) returns (ok: bool)
      requires Valid() && Underway(acts) && name in names
      modifies this`weights, this`health, this`breakers, this`now
      ensures Moved(others, old(weights), old(health), old(breakers), old(now))
      ensures ok && !others.Free? ==> weights[name] > 0
      ensures others.Quiet? ==> (ok <==> Eligible(weights, health, breakers, now, name))
    {
      ok := IsRoutable(name);
      Interfere(others);
      ok := ok && weights[name] > 0;
      Interfere(others);
      var open := BreakerCanRoute(name);
      ok := ok && open;
    }

    /** Enumerate candidates without claiming anything. */
    method Candidates(ghost others: Others) returns (candidates: seq<Name>)
      requires Valid() && Underway(acts)
      modifies this`weights, this`health, this`breakers, this`now
      ensures Moved(others, old(weights), old(health), old(breakers), old(now))
      ensures NoDuplicates(candidates)
      ensures forall n :: n in candidates ==> n in names
      ensures !others.Free? ==> forall n :: n in candidates ==> weights[n] > 0
      ensures others.Quiet? ==>
        forall n :: n in names ==> (n in candidates <==> Eligible(weights, health, breakers, now, n))
    {
      candidates := [];
      assert names[..0] == [];
      for i := 0 to |names|
        invariant Moved(others, old(weights), old(health), old(breakers), old(now))
        invariant NoDuplicates(candidates) && forall n :: n in candidates ==> n in names[..i]
        invariant !others.Free? ==> forall n :: n in candidates ==> n in weights && weights[n] > 0
        invariant others.Quiet? ==>
          forall n :: n in names[..i] && Eligible(weights, health, breakers, now, n) ==> n in candidates
        invariant others.Quiet? ==> forall n :: n in candidates ==> Eligible(weights, health, breakers, now, n)
      {
        assert names[i] !in names[..i];
        assert names[..i + 1] == names[..i] + [names[i]];
        var ok := Passes(names[i], others);
        if ok {
          candidates := candidates + [names[i]];
        }
      }
      assert names[..|names|] == names;
    }

    /** The total weight of the candidates, and what was read for each of them. */
    method TotalWeight(candidates: seq<Name>, ghost others: Others) returns (total: nat, ghost readings: seq<nat>)
      requires Valid() && Underway(acts) && forall i :: 0 <= i < |candidates| ==> candidates[i] in names
      modifies this`weights, this`health, this`breakers, this`now
      ensures Moved(others, old(weights), old(health), old(breakers), old(now))
      ensures |readings| == |candidates| && total == SumOf(readings) && (total == 0 <==> AllZero(readings))
      ensures !others.Free? ==> readings == WeightsOf(weights, candidates) && total == TotalOf(weights, candidates)
    {
      total, readings := 0, [];
      ghost var ws := WeightsOf(weights, candidates);
      for i := 0 to |candidates|
        invariant Moved(others, old(weights), old(health), old(breakers), old(now))
        invariant |readings| == i && total == SumOf(readings)
        invariant !others.Free? ==> readings <= ws
      {
        var weight := weights[candidates[i]];
        PrefixAppends(readings, weight);
        total, readings := total + weight, readings + [weight];
        Interfere(others);
      }
      ZeroTotal(readings, |readings|);
      assert readings[..|readings|] == readings;
    }

    /** Select by a draw below `total`; the last candidate is the fallback when weights moved meanwhile. */
    method Select(candidates: seq<Name>, total: nat, pick: nat, ghost others: Others) returns (selected: nat)
      requires Valid() && Underway(acts) && candidates != [] && pick < total
      requires forall i :: 0 <= i < |candidates| ==> candidates[i] in names
      requires !others.Free? ==> total == TotalOf(weights, candidates)
      modifies this`weights, this`health, this`breakers, this`now
      ensures Moved(others, old(weights), old(health), old(breakers), old(now))
      ensures selected < |candidates|
      ensures !others.Free? ==> Drawn(weights, candidates, pick) == Some(selected)
    {
      var acc := 0;
      ghost var ws := WeightsOf(weights, candidates);
      for i := 0 to |candidates|
        invariant Moved(others, old(weights), old(health), old(breakers), old(now))
        invariant !others.Free? ==> acc == Prefix(ws, i) <= pick < Prefix(ws, |ws|)
      {
        assert !others.Free? ==> weights[candidates[i]] == ws[i];
        if !others.Free? && pick < acc + ws[i] {
          ChooseIsUnique(ws, pick, i);
        }
        acc := acc + weights[candidates[i]];
        if pick < acc {
          return i;
        }
        Interfere(others);
      }
      selected := |candidates| - 1;
    }

    /** Try to admit the candidate that the draw lands on. */
    method TryOne(candidates: seq<Name>, total: nat, draw: nat, ghost others: Others) returns (i: nat, ok: bool)
      requires Valid() && Underway(acts) && candidates != [] && draw < total
      requires forall j :: 0 <= j < |candidates| ==> candidates[j] in names
      requires !others.Free? ==> total == TotalOf(weights, candidates)
      modifies this`weights, this`health, this`breakers, this`now, this`acts
      ensures Valid() && old(now) <= now && (!others.Free? ==> weights == old(weights))
      ensures i < |candidates| && acts == old(acts) + [Attempt(candidates[i], ok)]
      ensures !others.Free? ==> Drawn(weights, candidates, draw) == Some(i)
      ensures !ok && others.Quiet? ==>
        health == old(health) && breakers == old(breakers) && now == old(now)
        && !Eligible(weights, health, breakers, now, candidates[i])
    {
      i := Select(candidates, total, draw, others);
      Interfere(others);
      ok := BreakerAdmit(candidates[i]);
    }

    /** One round of the retry loop: total the weights, and unless they all read 0 draw and try. */
    method Round(candidates: seq<Name>, random: nat, ghost others: Others)
      returns (i: Option<nat>, ok: bool, ghost reading: seq<nat>)
      requires Valid() && Underway(acts) && candidates != []
      requires forall j :: 0 <= j < |candidates| ==> candidates[j] in names
      modifies this`weights, this`health, this`breakers, this`now, this`acts
      ensures Valid() && (!others.Free? ==> weights == old(weights))
      ensures |reading| == |candidates| && (i.None? <==> AllZero(reading))
      ensures i.None? ==> acts == old(acts)
      ensures i.Some? ==> i.value < |candidates| && acts == old(acts) + [Attempt(candidates[i.value], ok)]
      ensures !others.Free? ==>
        reading == WeightsOf(weights, candidates)
        && (i.Some? ==> Drawn(weights, candidates, Roll(random, SumOf(reading))) == i)
      ensures others.Quiet? && (i.None? || !ok) ==> health == old(health) && breakers == old(breakers) && now == old(now)
      ensures others.Quiet? && i.Some? && !ok ==> !Eligible(weights, health, breakers, now, candidates[i.value])
    {
      var total;
      total, reading := TotalWeight(candidates, others);
      if total == 0 {
        return None, false, reading;
      }
      var k;
      k, ok := TryOne(candidates, total, Roll(random, total), others);
      i := Some(k);
    }

    /** Draw, admit, and retry among the rest until an admission succeeds, nobody is left, or every remaining
        weight reads 0. Round `k` draws with `rng(k)`. */
    method AdmitOne(all: seq<Name>, rng: nat -> nat, ghost others: Others) returns (chosen: Option<Name>, ghost t: Trace)
      requires Valid() && acts == [] && NoDuplicates(all)
      requires forall n :: n in all ==> n in names
      modifies this`weights, this`health, this`breakers, this`now, this`acts
      ensures Valid() && (!others.Free? ==> weights == old(weights))
      ensures Concluded(weights, !others.Free?, all, acts, t, chosen) && Rolled(rng, t)
      ensures others.Quiet? && chosen.None? ==> health == old(health) && breakers == old(breakers) && now == old(now)
      ensures others.Quiet? && acts != [] && !acts[0].ok ==>
        !Eligible(old(weights), old(health), old(breakers), old(now), acts[0].name)
    {
      var candidates, round := all, 0;
      t := Trace(all, [], []);
      while candidates != []
        invariant Valid() && (!others.Free? ==> weights == old(weights))
        invariant Looping(weights, !others.Free?, all, candidates, acts, t)
        invariant Rolled(rng, t) && round == |t.draws|
        invariant others.Quiet? ==> health == old(health) && breakers == old(breakers) && now == old(now)
        invariant others.Quiet? && acts != [] ==>
          !Eligible(old(weights), old(health), old(breakers), old(now), acts[0].name)
        decreases |candidates|
      {
        var i, ok;
        i, ok, t := Retry(all, candidates, rng, round, t, others);
        if i.None? {
          return None, t;
        }
        if ok {
          return Some(candidates[i.value]), t;
        }
        candidates, round := Without(candidates, i.value), round + 1;
      }
      LoopEnds(weights, !others.Free?, all, acts, t);
      return None, t;
    }

    /** A round and what it does to the loop's bookkeeping. */
    method Retry(ghost all: seq<Name>, candidates: seq<Name>, rng: nat -> nat, round: nat, ghost t: Trace, ghost others: Others)
      returns (i: Option<nat>, ok: bool, ghost t': Trace)
      requires Valid() && candidates != [] && forall n :: n in all ==> n in names
      requires Looping(weights, !others.Free?, all, candidates, acts, t)
      requires Rolled(rng, t) && round == |t.draws|
      modifies this`weights, this`health, this`breakers, this`now, this`acts
      ensures Valid() && (!others.Free? ==> weights == old(weights))
      ensures i.None? ==> acts == old(acts) && Concluded(weights, !others.Free?, all, acts, t', None)
      ensures i.Some? ==>
        && i.value < |candidates| && acts == old(acts) + [Attempt(candidates[i.value], ok)]
        && if ok then Concluded(weights, !others.Free?, all, acts, t', Some(candidates[i.value]))
           else Looping(weights, !others.Free?, all, Without(candidates, i.value), acts, t')
      ensures Rolled(rng, t') && |t'.draws| == round + (if i.None? then 0 else 1)
      ensures others.Quiet? && (i.None? || !ok) ==> health == old(health) && breakers == old(breakers) && now == old(now)
      ensures others.Quiet? && i.Some? && !ok ==> !Eligible(weights, health, breakers, now, candidates[i.value])
    {
      assert forall j :: 0 <= j < |candidates| ==> candidates[j] in all;
      ghost var reading;
      i, ok, reading := Round(candidates, rng(round), others);
      ghost var pick := Roll(rng(round), SumOf(reading));
      LoopStep(weights, !others.Free?, all, candidates, old(acts), t, i, ok, pick, reading);
      RolledStep(rng, t, reading);
      t' := Trace(all, if i.None? then t.draws else t.draws + [pick], t.readings + [reading]);
    }

    /** Selection in shadow mode: the primary or nobody. */
    method AdmitPrimary(routing: Routing, ghost others: Others) returns (chosen: Option<Name>)
      requires Valid() && acts == []
      modifies this`weights, this`health, this`breakers, this`now, this`acts
      ensures Valid() && (!others.Free? ==> weights == old(weights))
      ensures WellAttempted(acts, chosen) && forall i :: 0 <= i < |acts| ==> routing.primary == Some(acts[i].name)
      ensures chosen.Some? ==> chosen == routing.primary && chosen.value in names
      ensures others.Quiet? ==>
        && (chosen.Some? <==> routing.primary.Some? && Ready(old(health), old(breakers), old(now), routing.primary.value))
        && health == old(health) && now == old(now)
        && (chosen.Some? ==> OnlyAt(old(breakers), breakers, chosen.value))
    {
      if routing.primary.None? || routing.primary.value !in names {
        return None;
      }
      var tried, ok := AdmitKnown(routing.primary.value, others);
      if !tried {
        return None;
      }
      SingleAttempt(routing.primary.value, ok);
      return if ok then routing.primary else None;
    }

    /** Check a known backend, and try to admit it if it looks ready. */
    method AdmitKnown(name: Name, ghost others: Others) returns (tried: bool, ok: bool)
      requires Valid() && Underway(acts) && name in names
      modifies this`weights, this`health, this`breakers, this`now, this`acts
      ensures Valid() && (!others.Free? ==> weights == old(weights))
      ensures acts == if tried then old(acts) + [Attempt(name, ok)] else old(acts)
      ensures others.Quiet? ==>
        && health == old(health) && now == old(now) && OnlyAt(old(breakers), breakers, name)
        && (tried && ok <==> Ready(old(health), old(breakers), old(now), name))
    {
      tried, ok := false, false;
      var routable := IsRoutable(name);
      Interfere(others);
      var open := BreakerCanRoute(name);
      if routable && open {
        Interfere(others);
        tried := true;
        ok := BreakerAdmit(name);
      }
    }

    /** The shadow backend, if it may be mirrored to; nothing is claimed for it here. */
    method Mirror(routing: Routing, chosen: Name, ghost others: Others) returns (mirror: Option<Name>)
      requires Valid() && Underway(acts)
      modifies this`weights, this`health, this`breakers, this`now
      ensures Moved(others, old(weights), old(health), old(breakers), old(now))
      ensures mirror.Some? ==> routing.mode.Shadow? && mirror == routing.shadow && mirror.value != chosen && mirror.value in names
      ensures others.Quiet? ==>
        (mirror.Some? <==> routing.mode.Shadow? && routing.shadow.Some? && routing.shadow.value != chosen
                           && Ready(old(health), old(breakers), old(now), routing.shadow.value))
    {
      mirror := None;
      if routing.mode.Shadow? && routing.shadow.Some? && routing.shadow.value in names && routing.shadow.value != chosen {
        var routable := IsRoutable(routing.shadow.value);
        Interfere(others);
        var open := BreakerCanRoute(routing.shadow.value);
        if routable && open {
          mirror := routing.shadow;
        }
      }
    }

    /** The decision, for every mode and whatever happens in between: it claims at most one admission, on
        the backend it returns; it tries nobody twice; and it gives up exactly when every candidate refused or
        the weights of all that were left read 0. */
    method Decide(routing: Routing, rng: nat -> nat, ghost others: Others) returns (r: Option<Decision>, ghost t: Trace)
      requires Valid() && acts == []
      modifies this`weights, this`health, this`breakers, this`now, this`acts
      ensures Valid() && (!others.Free? ==> weights == old(weights))
      ensures WellAttempted(acts, if r.Some? then Some(r.value.backend) else None)
      ensures r.Some? ==> r.value.backend in names
      ensures r.Some? && !others.Free? ==> MayServe(weights, routing, r.value.backend)
      ensures r.Some? && r.value.mirror.Some? ==>
        && routing.mode.Shadow? && r.value.mirror == routing.shadow
        && r.value.mirror.value != r.value.backend && r.value.mirror.value in names
      ensures !routing.mode.Shadow? ==>
        && (forall i :: 0 <= i < |acts| ==> acts[i].name in t.candidates)
        && (r.None? <==> Exhausted(t.candidates, acts) || Starved(t.readings))
        && Rolled(rng, t)
        && (!others.Free? ==>
             Explained(weights, t.candidates, acts, t.draws) && DrawnBy(rng, weights, t.candidates, t.draws)
             && !Starved(t.readings))
      ensures !routing.mode.Shadow? && others.Quiet? ==>
        && (forall n :: n in t.candidates <==>
             && n in names && old(weights)[n] > 0 && old(health)[n] != Unhealthy
             && (n in old(breakers) ==> Routable(old(breakers)[n], old(now))))
        && (r.Some? <==> t.candidates != [])
      ensures routing.mode.Shadow? ==> forall i :: 0 <= i < |acts| ==> routing.primary == Some(acts[i].name)
      ensures routing.mode.Shadow? && others.Quiet? ==>
        && (r.Some? <==> routing.primary.Some? && Ready(old(health), old(breakers), old(now), routing.primary.value))
        && (r.Some? ==>
             && r.value.backend == routing.primary.value
             && (r.value.mirror.Some? <==>
                   && routing.shadow.Some? && routing.shadow != routing.primary && routing.shadow.value in names
                   && old(health)[routing.shadow.value] != Unhealthy
                   && (routing.shadow.value in old(breakers) ==> Routable(old(breakers)[routing.shadow.value], old(now)))))
    {
      var chosen: Option<Name> := None;
      t := Trace([], [], []);
      if routing.mode.Shadow? {
        chosen := AdmitPrimary(routing, others);
      } else {
        chosen, t := AdmitWeighted(rng, others);
      }
      if chosen.None? {
        return None, t;
      }
      var mirror := Mirror(routing, chosen.value, others);
      r := Some(Decision(chosen.value, mirror));
    }

    /** Weighted selection: filter, then draw and retry. */
    method AdmitWeighted(rng: nat -> nat, ghost others: Others) returns (chosen: Option<Name>, ghost t: Trace)
      requires Valid() && acts == []
      modifies this`weights, this`health, this`breakers, this`now, this`acts
      ensures Valid() && (!others.Free? ==> weights == old(weights))
      ensures WellAttempted(acts, chosen) && forall i :: 0 <= i < |acts| ==> acts[i].name in t.candidates
      ensures chosen.Some? ==> chosen.value in names && (!others.Free? ==> weights[chosen.value] > 0)
      ensures chosen.None? <==> Exhausted(t.candidates, acts) || Starved(t.readings)
      ensures Rolled(rng, t)
      ensures !others.Free? ==>
        Explained(weights, t.candidates, acts, t.draws) && DrawnBy(rng, weights, t.candidates, t.draws)
        && !Starved(t.readings)
      ensures others.Quiet? ==>
        && (forall n :: n in t.candidates <==> Eligible(old(weights), old(health), old(breakers), old(now), n))
        && (chosen.Some? <==> t.candidates != [])
    {
      var found := Candidates(others);
      chosen, t := AdmitOne(found, rng, others);
      if chosen.Some? {
        assert acts[|acts| - 1].name == chosen.value;
      }
      if !others.Free? {
        PositiveNeverStarves(weights, found, t, |acts|);
        RolledAsSet(rng, weights, found, t);
      }
      if found != [] && acts == [] {
        assert AllZero(t.readings[0]);
      }
      assert acts != [] ==> acts[0].name in found;
    }
  }

  // ----- The retry loop's bookkeeping. -----

  /** Where the retry loop stands at the start of a round; `fixed` tells that weights do not move. */
  ghost predicate Looping(weights: map<Name, nat>, fixed: bool, all: seq<Name>, candidates: seq<Name>, acts: seq<Act>, t: Trace) {
    && Remaining(all, candidates, acts) && |candidates| == |all| - |acts|
    && t.candidates == all && Rounds(t.readings, |all|, |acts|) && |t.readings| == |acts|
    && |t.draws| == |acts|
    && (fixed ==>
         Explained(weights, all, acts, t.draws) && ReadAsSet(weights, all, t)
         && candidates == LeftAfter(weights, all, t.draws))
  }

  /** How the retry loop ends: with one admission, or with none exactly when everybody refused or starved. */
  ghost predicate Concluded(weights: map<Name, nat>, fixed: bool, all: seq<Name>, acts: seq<Act>, t: Trace, chosen: Option<Name>) {
    && WellAttempted(acts, chosen) && (forall i :: 0 <= i < |acts| ==> acts[i].name in all)
    && (chosen.None? <==> Exhausted(all, acts) || Starved(t.readings))
    && t.candidates == all && Rounds(t.readings, |all|, |acts|) && (all != [] ==> t.readings != [])
    && (fixed ==> Explained(weights, all, acts, t.draws) && ReadAsSet(weights, all, t))
  }

  lemma LoopStep(weights: map<Name, nat>, fixed: bool, all: seq<Name>, candidates: seq<Name>, acts: seq<Act>, t: Trace,
                 i: Option<nat>, ok: bool, pick: nat, reading: seq<nat>)
    requires Looping(weights, fixed, all, candidates, acts, t) && candidates != []
    requires |reading| == |candidates| && (i.None? <==> AllZero(reading)) && (i.Some? ==> i.value < |candidates|)
    requires fixed ==> Known(weights, candidates) && reading == WeightsOf(weights, candidates)
    requires fixed && i.Some? ==> Drawn(weights, candidates, pick) == i
    ensures i.None? ==> Concluded(weights, fixed, all, acts, t.(readings := t.readings + [reading]), None)
    ensures i.Some? ==>
      var more, t' := acts + [Attempt(candidates[i.value], ok)], Trace(all, t.draws + [pick], t.readings + [reading]);
      if ok then Concluded(weights, fixed, all, more, t', Some(candidates[i.value]))
      else Looping(weights, fixed, all, Without(candidates, i.value), more, t')
  {
    var read := t.readings + [reading];
    assert read[|t.readings|] == reading;
    if fixed {
      ReadStep(weights, all, t.draws, t.readings, reading);
    }
    if i.Some? {
      RemainingStep(all, candidates, acts, i.value, ok);
      if fixed {
        ExplainedStep(weights, all, acts, t.draws, pick, i.value, ok);
        MoreDraws(weights, all, t.draws, read, pick);
      }
    }
  }

  /** The draw that a random number makes below a total. */
  function Roll(random: nat, total: nat): (draw: nat)
    ensures total > 0 ==> draw < total
  {
    if total == 0 then 0 else random % total
  }

  /** Of the first `turns * total` random numbers each draw below the total is made by exactly `turns`. */
  lemma {:induction false} RollIsFair(total: nat, turns: nat, draw: nat)
    requires draw < total
    ensures |set random: nat | random < turns * total && Roll(random, total) == draw| == turns
  {
    if turns > 0 {
      var before := set random: nat | random < (turns - 1) * total && Roll(random, total) == draw;
      RollIsFair(total, turns - 1, draw);
      forall random: nat | (turns - 1) * total <= random < turns * total
        ensures Roll(random, total) == draw <==> random == (turns - 1) * total + draw
      {
        RemainderIs(random, total, turns - 1);
      }
      assert (set random: nat | random < turns * total && Roll(random, total) == draw)
          == before + {(turns - 1) * total + draw};
    }
  }

  lemma RemainderIs(x: nat, d: nat, q: nat)
    requires q * d <= x < (q + 1) * d
    ensures x % d == x - q * d
  {
    assert (x / d) * d + x % d == x;
    ApartBy(x / d, q, d);
    ApartBy(q, x / d, d);
  }

  lemma {:induction false} ApartBy(a: nat, b: nat, d: nat)
    ensures a < b ==> a * d + d <= b * d
    decreases b
  {
    if a < b {
      assert b * d == (b - 1) * d + d;
      ApartBy(a, b - 1, d);
    }
  }

  function SumOf(ws: seq<nat>): nat {
    Prefix(ws, |ws|)
  }

  /** Every round drew with its own random number, below the total that it read. */
  ghost predicate Rolled(rng: nat -> nat, t: Trace) {
    |t.draws| <= |t.readings| && forall k :: 0 <= k < |t.draws| ==> t.draws[k] == Roll(rng(k), SumOf(t.readings[k]))
  }

  lemma RolledStep(rng: nat -> nat, t: Trace, reading: seq<nat>)
    requires Rolled(rng, t) && |t.readings| == |t.draws|
    ensures Rolled(rng, Trace(t.candidates, t.draws, t.readings + [reading]))
    ensures Rolled(rng, Trace(t.candidates, t.draws + [Roll(rng(|t.draws|), SumOf(reading))], t.readings + [reading]))
  {}

  /** Every round drew with its own random number, below the total weight of whoever was left. */
  ghost predicate DrawnBy(rng: nat -> nat, weights: map<Name, nat>, all: seq<Name>, draws: seq<nat>) {
    && Known(weights, all)
    && forall k :: 0 <= k < |draws| ==> draws[k] == Roll(rng(k), TotalOf(weights, LeftAfter(weights, all, draws[..k])))
  }

  lemma RolledAsSet(rng: nat -> nat, weights: map<Name, nat>, all: seq<Name>, t: Trace)
    requires Rolled(rng, t) && ReadAsSet(weights, all, t)
    ensures DrawnBy(rng, weights, all, t.draws)
  {
    forall k | 0 <= k < |t.draws|
      ensures t.draws[k] == Roll(rng(k), TotalOf(weights, LeftAfter(weights, all, t.draws[..k])))
    {
      assert t.readings[k] == ReadingAt(weights, all, t.draws, k);
    }
  }

  lemma LoopEnds(weights: map<Name, nat>, fixed: bool, all: seq<Name>, acts: seq<Act>, t: Trace)
    requires Looping(weights, fixed, all, [], acts, t)
    ensures Concluded(weights, fixed, all, acts, t, None)
  {}

  /** What the rounds read among `n` candidates when `m` of them have made an attempt: each round one candidate
      fewer, and only a last round without an attempt reads all zeros. */
  predicate Rounds(readings: seq<seq<nat>>, n: nat, m: nat) {
    && m <= |readings| <= m + 1
    && (forall k :: 0 <= k < |readings| ==> 0 < |readings[k]| == n - k)
    && (forall k :: 0 <= k < |readings| ==> (AllZero(readings[k]) <==> k == m))
  }

  /** The readings are the weights as set. */
  ghost predicate ReadAsSet(weights: map<Name, nat>, all: seq<Name>, t: Trace) {
    && Known(weights, all) && |t.draws| <= |t.readings| <= |t.draws| + 1
    && forall k :: 0 <= k < |t.readings| ==> t.readings[k] == ReadingAt(weights, all, t.draws, k)
  }

  function ReadingAt(weights: map<Name, nat>, all: seq<Name>, draws: seq<nat>, k: nat): seq<nat>
    requires Known(weights, all) && k <= |draws|
  {
    WeightsOf(weights, LeftAfter(weights, all, draws[..k]))
  }

  lemma ReadStep(weights: map<Name, nat>, all: seq<Name>, draws: seq<nat>, readings: seq<seq<nat>>, reading: seq<nat>)
    requires ReadAsSet(weights, all, Trace(all, draws, readings)) && |readings| == |draws|
    requires reading == WeightsOf(weights, LeftAfter(weights, all, draws))
    ensures ReadAsSet(weights, all, Trace(all, draws, readings + [reading]))
  {
    assert draws[..|draws|] == draws;
  }

  lemma MoreDraws(weights: map<Name, nat>, all: seq<Name>, draws: seq<nat>, readings: seq<seq<nat>>, pick: nat)
    requires ReadAsSet(weights, all, Trace(all, draws, readings)) && |readings| == |draws| + 1
    ensures ReadAsSet(weights, all, Trace(all, draws + [pick], readings))
  {
    assert forall k :: 0 <= k <= |draws| ==> (draws + [pick])[..k] == draws[..k];
  }

  lemma {:induction false} LeftAreCandidates(weights: map<Name, nat>, all: seq<Name>, draws: seq<nat>, j: nat)
    requires Known(weights, all) && j < |LeftAfter(weights, all, draws)|
    ensures LeftAfter(weights, all, draws)[j] in all
    decreases |draws|
  {
    if draws != [] {
      var before := LeftAfter(weights, all, draws[..|draws| - 1]);
      var i := Drawn(weights, before, draws[|draws| - 1]);
      LeftAreCandidates(weights, all, draws[..|draws| - 1], if i.None? || j < i.value then j else j + 1);
    }
  }

  /** With weights that stay positive no round reads only zeros. */
  lemma PositiveNeverStarves(weights: map<Name, nat>, all: seq<Name>, t: Trace, m: nat)
    requires Rounds(t.readings, |all|, m) && ReadAsSet(weights, all, t)
    requires forall i :: 0 <= i < |all| ==> weights[all[i]] > 0
    ensures !Starved(t.readings)
  {
    forall k | 0 <= k < |t.readings| ensures !AllZero(t.readings[k]) {
      var left := LeftAfter(weights, all, t.draws[..k]);
      assert t.readings[k] == ReadingAt(weights, all, t.draws, k) == WeightsOf(weights, left);
      assert |left| == |t.readings[k]| > 0;
      LeftAreCandidates(weights, all, t.draws[..k], 0);
      assert t.readings[k][0] == weights[left[0]];
    }
  }

  lemma PrefixAppends(ws: seq<nat>, w: nat)
    ensures Prefix(ws + [w], |ws + [w]|) == Prefix(ws, |ws|) + w
  {
    PrefixOfLonger(ws, ws + [w], |ws|);
  }

  lemma {:induction false} PrefixOfLonger(ws: seq<nat>, longer: seq<nat>, n: nat)
    requires n <= |ws| && ws <= longer
    ensures Prefix(ws, n) == Prefix(longer, n)
  {
    if n > 0 {
      PrefixOfLonger(ws, longer, n - 1);
    }
  }

  /** Where the retry loop stands: everybody is either still a candidate or has refused. */
  ghost predicate Remaining(all: seq<Name>, candidates: seq<Name>, acts: seq<Act>) {
    && NoDuplicates(candidates) && WellAttempted(acts, None)
    && (forall n :: n in candidates ==> n in all)
    && (forall i :: 0 <= i < |all| ==> all[i] in candidates || Attempted(acts, all[i]))
    && (forall i :: 0 <= i < |acts| ==> acts[i].name in all && acts[i].name !in candidates)
  }

  lemma RemainingStep(all: seq<Name>, candidates: seq<Name>, acts: seq<Act>, k: nat, ok: bool)
    requires Remaining(all, candidates, acts) && k < |candidates|
    ensures var more := acts + [Attempt(candidates[k], ok)];
      && (forall i :: 0 <= i < |more| ==> more[i].name in all)
      && (ok ==> WellAttempted(more, Some(candidates[k])))
      && (!ok ==> Remaining(all, Without(candidates, k), more))
  {
    var a, rest := Attempt(candidates[k], ok), Without(candidates, k);
    var more := acts + [a];
    assert more[..|acts|] == acts && more[|acts|] == a;
    assert a.name !in rest;
    forall n | n in candidates && n != a.name ensures n in rest {
      var j :| 0 <= j < |candidates| && candidates[j] == n;
      assert rest[if j < k then j else j - 1] == n;
    }
    forall i | 0 <= i < |all| ensures all[i] in rest || Attempted(more, all[i]) {
      if Attempted(acts, all[i]) {
        var j :| 0 <= j < |acts| && acts[j].name == all[i];
        assert more[j].name == all[i];
      }
    }
  }
}
