/** The request handlers (rust/crates/thttpd-migrate/src/server.rs, shadow.rs): every exit, and what the handler
    has told the breakers by the time it takes it. What the sockets give is a parameter; others may act wherever
    a handler waits, and there its acts so far are `Underway`. */
module Handlers {
  import opened Common
  import opened Router

  /** What the client call gives: an answer, whose body can be read up to the cap or not, or an error. */
  datatype Exchange = Replied(is5xx: bool, bodyReads: bool) | Lost

  /** How forwarding ended; the routability it checks is the primary's. */
  datatype Forwarded = Answered(is5xx: bool, bodyReads: bool) | NotRoutable | RequestError

  datatype Reply = NotFound | Unavailable | BadGateway | Relayed(is5xx: bool)

  /** A report after a granted admission settles it. */
  lemma ReportSettles(acts: seq<Act>, last: Act)
    requires WellAttempted(acts, Some(last.name)) && !last.kind.Admission?
    ensures Settled(acts + [last], Some(last.name))
  {
    assert (acts + [last])[..|acts|] == acts;
  }

  /** Forward to a backend, unless the primary is down by now. */
  method Forward(pool: Pool, primary: Name, exchange: Exchange, ghost others: Others) returns (f: Forwarded)
    requires pool.Valid() && Underway(pool.acts) && primary in pool.names
    modifies pool`weights, pool`health, pool`breakers, pool`now
    ensures pool.Moved(others, old(pool.weights), old(pool.health), old(pool.breakers), old(pool.now))
    ensures f.NotRoutable? <==> old(pool.health)[primary] == Unhealthy
    ensures f.RequestError? ==> exchange.Lost?
    ensures f.Answered? ==> exchange == Replied(f.is5xx, f.bodyReads)
  {
    var routable := pool.IsRoutable(primary);
    if !routable {
      return NotRoutable;
    }
    pool.Interfere(others);
    match exchange {
      case Replied(is5xx, bodyReads) => f := Answered(is5xx, bodyReads);
      case Lost => f := RequestError;
    }
  }

  /** Shadow mode: serve the primary in full and mirror capped copies. Each of the four exits reports once. */
  method HandleShadow(pool: Pool, backend: Name, shadow: Name, requestReads: bool, exchange: Exchange, ghost others: Others)
    returns (reply: Reply, spawned: Option<Name>, ghost forwarded: Option<Forwarded>)
    requires pool.Valid() && WellAttempted(pool.acts, Some(backend)) && backend in pool.names
    modifies pool`weights, pool`health, pool`breakers, pool`now, pool`acts
    ensures pool.Valid()
    ensures pool.acts == old(pool.acts) + [Act(Report, backend, reply == Relayed(false))]
    ensures forwarded.Some? <==> requestReads
    ensures reply == if forwarded.Some? && forwarded.value.Answered? && forwarded.value.bodyReads
                     then Relayed(forwarded.value.is5xx) else BadGateway
    ensures spawned == if reply.Relayed? then Some(shadow) else None
    ensures forwarded.Some? && forwarded.value.Answered? ==>
      exchange == Replied(forwarded.value.is5xx, forwarded.value.bodyReads)
  {
    forwarded := None;
    pool.Interfere(others);
    if !requestReads {
      pool.RecordOutcome(backend, false);
      return BadGateway, None, None;
    }
    var f := Forward(pool, backend, exchange, others);
    forwarded := Some(f);
    if f.Answered? {
      pool.Interfere(others);
      if !f.bodyReads {
        pool.RecordOutcome(backend, false);
        return BadGateway, None, forwarded;
      }
      spawned := Some(shadow);
      pool.Interfere(others);
      pool.RecordOutcome(backend, !f.is5xx);
      return Relayed(f.is5xx), spawned, forwarded;
    }
    pool.RecordOutcome(backend, false);
    return BadGateway, None, forwarded;
  }

  /** Active-active and canary: stream through. Both exits report once. */
  method HandleDirect(pool: Pool, backend: Name, exchange: Exchange, ghost others: Others)
    returns (reply: Reply, ghost forwarded: Forwarded)
    requires pool.Valid() && WellAttempted(pool.acts, Some(backend)) && backend in pool.names
    modifies pool`weights, pool`health, pool`breakers, pool`now, pool`acts
    ensures pool.Valid()
    ensures pool.acts == old(pool.acts) + [Act(Report, backend, reply == Relayed(false))]
    ensures reply == if forwarded.Answered? then Relayed(forwarded.is5xx) else BadGateway
    ensures forwarded.Answered? ==> exchange == Replied(forwarded.is5xx, forwarded.bodyReads)
  {
    var f := Forward(pool, backend, exchange, others);
    forwarded := f;
    if f.Answered? {
      pool.RecordOutcome(backend, !f.is5xx);
      return Relayed(f.is5xx), forwarded;
    }
    pool.RecordOutcome(backend, false);
    return BadGateway, forwarded;
  }

  /** The whole request: on every exit it has reported exactly once, to the backend it was admitted on and with
      what the client was told, if it was admitted, and not at all otherwise. */
  method Handle(pool: Pool, excluded: bool, routing: Routing, rng: nat -> nat, requestReads: bool, exchange: Exchange,
                ghost others: Others)
    returns (reply: Reply, spawned: Option<Name>, ghost claimed: Option<Name>)
    requires pool.Valid() && pool.acts == []
    modifies pool`weights, pool`health, pool`breakers, pool`now, pool`acts
    ensures pool.Valid() && Settled(pool.acts, claimed)
    ensures (reply.NotFound? <==> excluded) && (excluded ==> pool.acts == [])
    ensures claimed.None? <==> reply.NotFound? || reply.Unavailable?
    ensures claimed.Some? ==> claimed.value in pool.names
    ensures claimed.Some? ==> pool.acts[|pool.acts| - 1] == Act(Report, claimed.value, reply == Relayed(false))
    ensures spawned.Some? ==>
      && reply.Relayed? && routing.mode.Shadow? && claimed == routing.primary
      && spawned == routing.shadow && spawned != claimed && spawned.value in pool.names
  {
    if excluded {
      return NotFound, None, None;
    }
    ghost var t;
    var decision;
    decision, t := pool.Decide(routing, rng, others);
    if decision.None? {
      return Unavailable, None, None;
    }
    var backend, mirror := decision.value.backend, decision.value.mirror;
    ghost var attempts := pool.acts;
    claimed := Some(backend);
    pool.Interfere(others);
    if mirror.Some? {
      ghost var forwarded;
      reply, spawned, forwarded := HandleShadow(pool, backend, mirror.value, requestReads, exchange, others);
    } else {
      ghost var forwarded;
      reply, forwarded := HandleDirect(pool, backend, exchange, others);
      spawned := None;
    }
    ReportSettles(attempts, Act(Report, backend, reply == Relayed(false)));
  }

  /** The detached mirror task: it claims the shadow's probe itself. Refused, it does nothing more; otherwise each
      exit reports once, except that an unroutable primary, which says nothing about the shadow, releases. */
  method DispatchShadow(pool: Pool, primary: Name, shadow: Name, exchange: Exchange, ghost others: Others)
    returns (ghost claimed: Option<Name>, ghost forwarded: Option<Forwarded>)
    requires pool.Valid() && pool.acts == [] && primary in pool.names
    modifies pool`weights, pool`health, pool`breakers, pool`now, pool`acts
    ensures pool.Valid() && Settled(pool.acts, claimed)
    ensures claimed.None? ==> pool.acts == [Attempt(shadow, false)] && forwarded.None?
    ensures claimed.Some? ==> claimed == Some(shadow) && forwarded.Some?
    ensures forwarded.Some? ==> pool.acts == [Attempt(shadow, true), MirrorAct(shadow, forwarded.value)]
    ensures forwarded.Some? && forwarded.value.Answered? ==>
      exchange == Replied(forwarded.value.is5xx, forwarded.value.bodyReads)
  {
    pool.Interfere(others);
    claimed, forwarded := None, None;
    var admitted := pool.BreakerAdmit(shadow);
    SingleAttempt(shadow, admitted);
    assert pool.acts == [Attempt(shadow, admitted)];
    if !admitted {
      return;
    }
    var f := RunMirror(pool, primary, shadow, exchange, others);
    claimed, forwarded := Some(shadow), Some(f);
    ReportSettles([Attempt(shadow, true)], MirrorAct(shadow, f));
  }

  /** What a mirror tells the shadow's breaker. */
  function MirrorAct(shadow: Name, f: Forwarded): Act {
    if f.NotRoutable? then Act(Release, shadow, false) else Act(Report, shadow, f == Answered(false, true))
  }

  /** The mirror task after its admission. */
  method RunMirror(pool: Pool, primary: Name, shadow: Name, exchange: Exchange, ghost others: Others) returns (f: Forwarded)
    requires pool.Valid() && Underway(pool.acts) && primary in pool.names
    modifies pool`weights, pool`health, pool`breakers, pool`now, pool`acts
    ensures pool.Valid() && pool.acts == old(pool.acts) + [MirrorAct(shadow, f)]
    ensures f.Answered? ==> exchange == Replied(f.is5xx, f.bodyReads)
  {
    pool.Interfere(others);
    f := Forward(pool, primary, exchange, others);
    ResolveMirror(pool, shadow, f, others);
  }

  /** Its exits. */
  method ResolveMirror(pool: Pool, shadow: Name, f: Forwarded, ghost others: Others)
    requires pool.Valid() && Underway(pool.acts)
    modifies pool`weights, pool`health, pool`breakers, pool`now, pool`acts
    ensures pool.Valid() && pool.acts == old(pool.acts) + [MirrorAct(shadow, f)]
  {
    match f {
      case Answered(is5xx, bodyReads) =>
        pool.Interfere(others);
        if bodyReads {
          pool.RecordOutcome(shadow, !is5xx);
        } else {
          pool.RecordOutcome(shadow, false);
        }
      case NotRoutable => pool.ReleaseProbe(shadow);
      case RequestError => pool.RecordOutcome(shadow, false);
    }
  }

  // ----- What a settled trace says, act by act. -----

  /** A granted admission is the last but one act, and the last is its report or release. */
  lemma GrantIsSettled(acts: seq<Act>, claimed: Option<Name>, i: nat)
    requires Settled(acts, claimed) && i < |acts| && acts[i].kind.Admission? && acts[i].ok
    ensures i + 2 == |acts| && claimed == Some(acts[i].name)
    ensures !acts[i + 1].kind.Admission? && acts[i + 1].name == acts[i].name
  {
    assert i < |acts| - 1 ==> acts[..|acts| - 1][i] == acts[i];
  }

  /** A report or release is the last act, right after the admission it answers. */
  lemma ReportIsLast(acts: seq<Act>, claimed: Option<Name>, i: nat)
    requires Settled(acts, claimed) && i < |acts| && !acts[i].kind.Admission?
    ensures i + 1 == |acts| && i > 0 && acts[i - 1] == Attempt(acts[i].name, true) && claimed == Some(acts[i].name)
  {}
}
