/** The lazy-cancel timer heap (rust/crates/thttpd-timers) against a plain map of live timers.
    The binary heap is represented by its entries; `Peek` is its minimum. Times are nanoseconds. */
module Timers {
  import opened Common

  datatype Timer = Timer(deadline: nat, period: Option<nat>, callback: nat)

  /** The heap order: deadline first, then id. */
  predicate Earlier(timers: map<nat, Timer>, i: nat, j: nat)
    requires i in timers && j in timers
  {
    timers[i].deadline < timers[j].deadline || (timers[i].deadline == timers[j].deadline && i < j)
  }

  ghost predicate IsTop(timers: map<nat, Timer>, id: nat) {
    id in timers && forall j :: j in timers && j != id ==> Earlier(timers, id, j)
  }

  /** The plain meaning: entries that are in the heap and not marked cancelled. */
  ghost function LiveOf(heap: map<nat, Timer>, cancelled: set<nat>): (live: map<nat, Timer>)
    ensures forall id :: id in live <==> id in heap && id !in cancelled
    ensures forall id :: id in live ==> live[id] == heap[id]
  {
    map id | id in heap && id !in cancelled :: heap[id]
  }

  /** The timer after it fired with the clock at `later`. */
  function Rearmed(t: Timer, later: nat): Timer
    requires t.period.Some?
  {
    t.(deadline := later + t.period.value)
  }

  /** A timer that fired is due again in the same run exactly when its period is zero and the clock
      stood still, so a run ends when each period is positive or the clock moves. */
  lemma RefiresIff(t: Timer, now: nat, later: nat)
    requires t.period.Some? && now <= later
    ensures Rearmed(t, later).deadline <= now <==> t.period.value == 0 && later == now
    ensures t.deadline == now && t.period.value == 0 && later == now ==> Rearmed(t, later) == t
  {}

  /** `fired` lists the due live timers, each once, by deadline and, where those are equal, by id. */
  ghost predicate FiresDue(live: map<nat, Timer>, now: nat, fired: seq<nat>) {
    && (forall i :: 0 <= i < |fired| ==> fired[i] in live && live[fired[i]].deadline <= now)
    && (forall id :: id in live && live[id].deadline <= now ==> id in fired)
    && (forall i, j :: 0 <= i < j < |fired| ==>
         && fired[i] in live && fired[j] in live
         && live[fired[i]].deadline <= live[fired[j]].deadline
         && (live[fired[i]].deadline == live[fired[j]].deadline ==> fired[i] < fired[j]))
  }

  /** The live timers afterwards: one-shot ones that fired are gone, and a periodic one is armed for a period after
      the time the clock showed when its callback returned. */
  ghost predicate Settled(
    live: map<nat, Timer>, now: nat, fired: seq<nat>, times: seq<nat>, live': map<nat, Timer>)
  {
    && |times| == |fired| && (forall i :: 0 <= i < |times| ==> now <= times[i])
    && (forall id :: id in live' <==> id in live && (id in fired ==> live[id].period.Some?))
    && (forall id :: id in live' && id !in fired ==> live'[id] == live[id])
    && (forall i :: 0 <= i < |fired| && fired[i] in live' ==>
         && live'[fired[i]] == live[fired[i]].(deadline := times[i] + live[fired[i]].period.value)
         && live'[fired[i]].deadline > now)
  }

  /** Where the firing loop stands. */
  ghost predicate Firing(live: map<nat, Timer>, now: nat, fired: seq<nat>, times: seq<nat>, live': map<nat, Timer>) {
    && Settled(live, now, fired, times, live')
    && (forall i :: 0 <= i < |fired| ==> fired[i] in live && live[fired[i]].deadline <= now)
    && (forall i, j :: 0 <= i < j < |fired| ==> fired[i] in live && fired[j] in live && Earlier(live, fired[i], fired[j]))
    && (forall i, id :: 0 <= i < |fired| && id in live && id !in fired ==> fired[i] in live && Earlier(live, fired[i], id))
  }

  /** Re-arming moves every timer that is to fire past the run: its period is positive, or the clock moves
      while it fires. */
  predicate Progresses(timers: map<nat, Timer>, cancelled: set<nat>, now: nat, moving: bool) {
    forall id :: id in timers && id !in cancelled && timers[id].deadline <= now && timers[id].period.Some? ==>
      timers[id].period.value > 0 || moving
  }

  /** The live timers after the top one fired. */
  function AfterFiring(live: map<nat, Timer>, id: nat, later: nat): map<nat, Timer>
    requires id in live
  {
    if live[id].period.Some? then live[id := Rearmed(live[id], later)] else live - {id}
  }

  lemma FiringSettles(
    live: map<nat, Timer>, now: nat, fired: seq<nat>, times: seq<nat>, live': map<nat, Timer>, id: nat, later: nat)
    requires Settled(live, now, fired, times, live') && id in live' && live'[id].deadline <= now <= later
    requires live'[id].period.Some? ==> Rearmed(live'[id], later).deadline > now
    ensures id in live && id !in fired && live'[id] == live[id]
    ensures Settled(live, now, fired + [id], times + [later], AfterFiring(live', id, later))
  {
    assert forall j :: j in fired + [id] <==> j in fired || j == id;
  }

  /** Firing the earliest unfired timer keeps the loop's invariant. */
  lemma FireNext(
    live: map<nat, Timer>, now: nat, fired: seq<nat>, times: seq<nat>, live': map<nat, Timer>, id: nat, later: nat)
    requires Firing(live, now, fired, times, live')
    requires IsTop(live', id) && live'[id].deadline <= now <= later
    requires live'[id].period.Some? ==> Rearmed(live'[id], later).deadline > now
    ensures id in live && id !in fired
    ensures Firing(live, now, fired + [id], times + [later], AfterFiring(live', id, later))
  {
    FiringSettles(live, now, fired, times, live', id, later);
    var more := fired + [id];
    assert forall j :: j in more <==> j in fired || j == id;
    forall j | j in live && j !in more ensures Earlier(live, id, j) {
      assert j in live' && live'[j] == live[j];
    }
  }

  class TimerWheel {
    var heap: map<nat, Timer>
    var nextId: nat
    var cancelled: set<nat>

    ghost predicate Valid()
      reads this
    {
      && (forall id :: id in heap ==> id < nextId)
      && (forall id :: id in cancelled ==> id < nextId)
    }

    ghost function Live(): map<nat, Timer>
      reads this
    {
      LiveOf(heap, cancelled)
    }

    constructor ()
      ensures Valid() && Live() == map[]
    {
      heap, nextId, cancelled := map[], 0, {};
    }

    method Create(now: nat, delay: nat, period: Option<nat>, callback: nat) returns (id: nat)
      requires Valid()
      modifies this
      ensures Valid() && id !in old(Live())
      ensures Live() == old(Live())[id := Timer(now + delay, period, callback)]
    {
      id := nextId;
      nextId := nextId + 1;
      heap := heap[id := Timer(now + delay, period, callback)];
    }

    method CreateOneShot(now: nat, delay: nat, callback: nat) returns (id: nat)
      requires Valid()
      modifies this
      ensures Valid() && id !in old(Live()) && Live() == old(Live())[id := Timer(now + delay, None, callback)]
    {
      id := Create(now, delay, None, callback);
    }

    method CreatePeriodic(now: nat, period: nat, callback: nat) returns (id: nat)
      requires Valid()
      modifies this
      ensures Valid() && id !in old(Live()) && Live() == old(Live())[id := Timer(now + period, Some(period), callback)]
    {
      id := Create(now, period, Some(period), callback);
    }

    /** Marking is enough: the timer is no longer live, whenever its entry is dropped. */
    method Cancel(id: nat)
      requires Valid() && id < nextId
      modifies this`cancelled
      ensures Valid() && Live() == old(Live()) - {id}
    {
      cancelled := cancelled + {id};
      assert Live() == old(Live()) - {id};
    }

    /** Moves the callback to a new id. The answer tells a live timer from a dead one, as documented, exactly
        when the entry is not cancelled with its mark still in the heap: such an entry is revived. */
    method Reset(id: nat, now: nat, delay: nat) returns (newId: Option<nat>)
      requires Valid()
      modifies this
      ensures Valid()
      ensures newId.None? <==> id !in old(heap)
      ensures newId.None? ==> Live() == old(Live())
      ensures (newId.None? <==> id !in old(Live())) <==> !(id in old(heap) && id in old(cancelled))
      ensures newId.Some? ==>
        && newId.value !in old(heap)
        && Live() == (old(Live()) - {id})[newId.value := old(heap)[id].(deadline := now + delay)]
    {
      if id !in heap {
        return None;
      }
      var entry := heap[id];
      heap := heap - {id};
      cancelled := cancelled - {id};
      newId := Some(nextId);
      nextId := nextId + 1;
      heap := heap[newId.value := entry.(deadline := now + delay)];
      assert Live() == (old(Live()) - {id})[newId.value := entry.(deadline := now + delay)];
    }

    /** The heap's minimum. */
    method Peek() returns (top: Option<nat>)
      ensures top.None? <==> heap == map[]
      ensures top.Some? ==> IsTop(heap, top.value)
    {
      top := None;
      var todo := heap.Keys;
      while todo != {}
        invariant todo <= heap.Keys
        invariant top.None? <==> todo == heap.Keys
        invariant top.Some? ==> top.value in heap && top.value !in todo
        invariant top.Some? ==> forall j :: j in heap && j !in todo && j != top.value ==> Earlier(heap, top.value, j)
        decreases todo
      {
        var k :| k in todo;
        if top.None? || Earlier(heap, k, top.value) {
          top := Some(k);
        }
        todo := todo - {k};
      }
    }

    /** Drop a cancelled entry together with its mark. */
    method Sweep(id: nat)
      requires Valid() && id in heap && id in cancelled
      modifies this`heap, this`cancelled
      ensures Valid() && heap == old(heap) - {id} && Live() == old(Live())
      ensures cancelled == old(cancelled) - {id}
    {
      heap := heap - {id};
      cancelled := cancelled - {id};
      assert Live() == old(Live());
    }

    /** Fire the top entry; the clock may have moved on to `later` by the time it is re-armed. */
    method Fire(id: nat, later: nat)
      requires Valid() && id in heap && id !in cancelled
      modifies this`heap
      ensures Valid()
      ensures heap == AfterFiring(old(heap), id, later) && Live() == AfterFiring(old(Live()), id, later)
    {
      var entry := heap[id];
      heap := heap - {id};
      if entry.period.Some? {
        entry := entry.(deadline := later + entry.period.value);
        heap := heap[id := entry];
        assert heap == old(heap)[id := entry];
        assert Live() == old(Live())[id := entry];
      } else {
        assert Live() == old(Live()) - {id};
      }
    }

    /** Why a run needs periods or a moving clock: when neither helps, firing the same timer again leaves the wheel
        exactly as it was, so the loop goes round for ever. */
    method FireInPlace(id: nat, now: nat)
      requires Valid() && id in heap && id !in cancelled
      requires heap[id].period == Some(0) && heap[id].deadline <= now
      modifies this`heap
      ensures Valid() && id in Live() && Live()[id].deadline <= now
      ensures old(heap)[id].deadline == now ==> heap == old(heap)
      ensures heap == old(heap)[id := old(heap)[id].(deadline := now)]
    {
      Fire(id, now);
    }

    /** The entries that still make the firing loop go round. */
    ghost function Pending(now: nat): set<nat>
      reads this
    {
      set id | id in heap && (id in cancelled || heap[id].deadline <= now)
    }

    /** Fire the top entry, which is due. After the callback the clock is read again; when it is `moving` it has
        passed the time the run started at. */
    method FireTop(id: nat, now: nat, moving: bool, ghost live: map<nat, Timer>, ghost fired: seq<nat>,
        ghost shown: seq<nat>)
      returns (ghost later: nat)
      requires Valid() && Progresses(heap, cancelled, now, moving) && Firing(live, now, fired, shown, Live())
      requires IsTop(heap, id) && id !in cancelled && heap[id].deadline <= now
      modifies this`heap
      ensures Valid() && Progresses(heap, cancelled, now, moving)
      ensures Firing(live, now, fired + [id], shown + [later], Live())
      ensures Pending(now) < old(Pending(now))
    {
      var read: nat :| now <= read;
      var time := if moving then read + 1 else read;
      later := time;
      FireNext(live, now, fired, shown, Live(), id, time);
      Fire(id, time);
      assert id !in Pending(now);
    }

    /** One round of the firing loop: sweep a cancelled top, fire a due one, or stop. */
    method Round(now: nat, moving: bool, ghost live: map<nat, Timer>, before: seq<nat>, ghost shown: seq<nat>)
      returns (more: bool, fired: seq<nat>, ghost times: seq<nat>)
      requires Valid() && Progresses(heap, cancelled, now, moving) && Firing(live, now, before, shown, Live())
      modifies this`heap, this`cancelled
      ensures Valid() && Progresses(heap, cancelled, now, moving) && Firing(live, now, fired, times, Live())
      ensures more ==> Pending(now) < old(Pending(now))
      ensures !more ==> forall id :: id in Live() ==> Live()[id].deadline > now
    {
      fired, times := before, shown;
      var top := Peek();
      if top.None? {
        return false, fired, times;
      }
      var id := top.value;
      if id in cancelled {
        Sweep(id);
        assert id !in Pending(now);
        return true, fired, times;
      }
      if heap[id].deadline > now {
        return false, fired, times;
      }
      ghost var later := FireTop(id, now, moving, live, fired, times);
      return true, fired + [id], times + [later];
    }

    /** Fires exactly the live timers that are due on entry, once each, in (deadline, id) order; `times` is what the
        clock showed after each. */
    method Run(now: nat, moving: bool) returns (fired: seq<nat>, ghost times: seq<nat>)
      requires Valid() && Progresses(heap, cancelled, now, moving)
      modifies this`heap, this`cancelled
      ensures Valid()
      ensures FiresDue(old(Live()), now, fired)
      ensures Settled(old(Live()), now, fired, times, Live())
    {
      fired, times := [], [];
      ghost var live := Live();
      var more := true;
      while more
        invariant Valid() && Progresses(heap, cancelled, now, moving) && Firing(live, now, fired, times, Live())
        invariant !more ==> forall id :: id in Live() ==> Live()[id].deadline > now
        decreases more, Pending(now)
      {
        more, fired, times := Round(now, moving, live, fired, times);
      }
      SweepTop();
      NothingElseIsDue(live, now, fired, times, Live());
    }

    /** Drop entries from the top while they are marked cancelled. */
    method SweepTop()
      requires Valid()
      modifies this`heap, this`cancelled
      ensures Valid() && Live() == old(Live())
    {
      while true
        invariant Valid() && Live() == old(Live())
        decreases |heap|
      {
        var top := Peek();
        if top.None? || top.value !in cancelled {
          break;
        }
        assert (heap - {top.value}).Keys == heap.Keys - {top.value};
        Sweep(top.value);
      }
    }

    /** The time until the earliest live timer. */
    method NextDeadline(now: nat) returns (wait: Option<nat>)
      ensures wait.None? <==> Live() == map[]
      ensures wait.Some? ==>
        && (exists id :: id in Live() && wait.value == Max(0, Live()[id].deadline - now))
        && forall id :: id in Live() ==> wait.value <= Max(0, Live()[id].deadline - now)
    {
      var earliest: Option<nat> := None;
      var todo := heap.Keys;
      while todo != {}
        invariant todo <= heap.Keys
        invariant earliest.Some? ==> exists id :: id in Live() && Live()[id].deadline == earliest.value
        invariant forall id :: id in Live() && id !in todo ==> earliest.Some? && earliest.value <= Live()[id].deadline
        decreases todo
      {
        var k :| k in todo;
        if k !in cancelled {
          assert k in Live();
          if earliest.None? || heap[k].deadline < earliest.value {
            earliest := Some(heap[k].deadline);
          }
        }
        todo := todo - {k};
      }
      if earliest.None? {
        assert Live() == map[];
        return None;
      }
      return Some(Max(0, earliest.value - now));
    }
  }

  /** The documented contract of a reset, "none if no live timer has this id", fails here: the cancelled
      timer is still in the heap, so it is revived under the new id. */
  method CancelledThenReset() returns (wheel: TimerWheel, id: nat, revived: Option<nat>)
    ensures revived.Some? && id !in wheel.Live()
    ensures wheel.Live() == map[revived.value := Timer(3, None, 7)]
  {
    wheel := new TimerWheel();
    id := wheel.CreateOneShot(0, 5, 7);
    wheel.Cancel(id);
    assert wheel.Live() == map[];
    assert id in wheel.heap;
    revived := wheel.Reset(id, 1, 2);
  }

  lemma NothingElseIsDue(live: map<nat, Timer>, now: nat, fired: seq<nat>, times: seq<nat>, live': map<nat, Timer>)
    requires Firing(live, now, fired, times, live')
    requires forall id :: id in live' ==> live'[id].deadline > now
    ensures FiresDue(live, now, fired)
  {
    assert forall id :: id in live && id !in fired ==> id in live' && live[id] == live'[id];
  }
}
