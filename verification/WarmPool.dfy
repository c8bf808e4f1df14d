/**
 The warm connection pool: one parked connection, consumed at most once.

 Every block that the pool runs under its lock is a function from the pool's
 fields to its fields; the class runs the same blocks in place. What happens
 between the blocks, and how the blocks of many threads interleave, is the
 subject of the module `WarmPoolRuns`.
 */
module WarmPool {
  import opened Wrappers

  type Fingerprint = nat

  /**
   `born` records the generation in force when the connection's authentication was decided on;
   the service does not store it.
   */
  datatype Conn = Conn(id: nat, fingerprint: Fingerprint, born: nat, authenticatedAt: int)

  datatype Pool = Pool(
    ready: Option<Conn>,
    fingerprint: Option<Fingerprint>,
    refilling: bool,
    closed: bool,
    generation: nat)

  const EMPTY: Pool := Pool(None, None, false, false, 0)

  // ---------------------------------------------------------- the locked blocks

  /** A new session fingerprint starts a new generation and gives up the parked connection. */
  function Adopt(p: Pool, fingerprint: Fingerprint): (Pool, Option<Conn>) {
    if p.fingerprint == Some(fingerprint) then (p, None)
    else (p.(ready := None, fingerprint := Some(fingerprint), generation := p.generation + 1, refilling := false), p.ready)
  }

  /** What the first block of `_schedule_refill` decided. */
  datatype Decision = Refused | Enough | Start(generation: nat)

  /** The first block of `_schedule_refill`: the new fields, the decision and the connection to close. */
  function ScheduleBlock(p: Pool, fingerprint: Fingerprint, expected: Option<nat>): (Pool, Decision, Option<Conn>) {
    if p.closed then (p, Refused, None)
    else if expected.Some? && (expected.value != p.generation || p.fingerprint != Some(fingerprint)) then (p, Refused, None)
    else
      var (q, stale) := Adopt(p, fingerprint);
      if q.ready.Some? || q.refilling then (q, Enough, stale)
      else (q.(refilling := true), Start(q.generation), stale)
  }

  /** The block that runs when the background thread could not be started. */
  function ResetBlock(p: Pool): Pool {
    p.(refilling := false)
  }

  /** The block of `_refill`: the new fields, and what to close of the new and of the parked connection. */
  function RefillBlock(p: Pool, generation: nat, warm: Option<Conn>): (Pool, Option<Conn>, Option<Conn>) {
    if generation != p.generation then (p, warm, None)
    else if warm.Some? && !p.closed && p.fingerprint == Some(warm.value.fingerprint) && p.ready.None? then
      (p.(refilling := false, ready := warm), None, None)
    else if p.ready.Some? && p.closed then
      (p.(refilling := false, ready := None), warm, p.ready)
    else
      (p.(refilling := false), warm, None)
  }

  /** What the first block of `acquire` leaves: its generation, a usable connection, and those to close. */
  datatype Taken = Taken(generation: nat, warm: Option<Conn>, stale: Option<Conn>, expired: Option<Conn>)

  /** The first block of `acquire`, at time `now`; None when the pool is closed. */
  function AcquireBlock(p: Pool, fingerprint: Fingerprint, now: int, maxIdle: int): (Pool, Option<Taken>) {
    if p.closed then (p, None)
    else
      var (q, stale) := Adopt(p, fingerprint);
      var emptied := q.(ready := None);
      if q.ready.Some? && now - q.ready.value.authenticatedAt > maxIdle then
        if stale.None? then (emptied, Some(Taken(q.generation, None, q.ready, None)))
        else (emptied, Some(Taken(q.generation, None, stale, q.ready)))
      else
        (emptied, Some(Taken(q.generation, q.ready, stale, None)))
  }

  /** The second block of `acquire`. */
  predicate ConfirmBlock(p: Pool, generation: nat, fingerprint: Fingerprint) {
    !p.closed && generation == p.generation && p.fingerprint == Some(fingerprint)
  }

  /** The block of `invalidate`. */
  function InvalidateBlock(p: Pool): (Pool, Option<Conn>) {
    (p.(ready := None, fingerprint := None, generation := p.generation + 1, refilling := false), p.ready)
  }

  /** The block of `close`. */
  function CloseBlock(p: Pool): (Pool, Option<Conn>) {
    (Pool(None, None, false, true, p.generation + 1), p.ready)
  }

  // ------------------------------------------------------------- the invariant

  /** The parked connection belongs to the current session and generation; a closed pool parks nothing. */
  predicate Sound(p: Pool) {
    && (p.ready.Some? ==> p.fingerprint == Some(p.ready.value.fingerprint) && p.ready.value.born == p.generation)
    && (p.closed ==> p.ready.None? && p.fingerprint.None?)
  }

  /** Every block keeps the pool sound, never goes back a generation, and never reopens the pool. */
  lemma BlocksKeepSound(p: Pool, fingerprint: Fingerprint, expected: Option<nat>, generation: nat, warm: Option<Conn>, now: int, maxIdle: int)
    requires Sound(p) && (warm.Some? ==> warm.value.born == generation)
    ensures Sound(EMPTY)
    ensures forall q <- [ScheduleBlock(p, fingerprint, expected).0, ResetBlock(p), RefillBlock(p, generation, warm).0,
                         AcquireBlock(p, fingerprint, now, maxIdle).0, InvalidateBlock(p).0, CloseBlock(p).0] ::
              Sound(q) && q.generation >= p.generation && (p.closed ==> q.closed)
  {
  }

  /** A sound pool never has both a stale and an expired connection: that branch of `acquire` cannot run. */
  lemma NeverStaleAndExpired(p: Pool, fingerprint: Fingerprint, now: int, maxIdle: int)
    requires Sound(p)
    ensures var taken := AcquireBlock(p, fingerprint, now, maxIdle).1;
            taken.Some? ==> taken.value.expired.None? && (taken.value.stale.Some? ==> taken.value.warm.None?)
  {
  }

  /** Nor does `_refill` ever find a parked connection in a closed pool. */
  lemma RefillFindsNothingStale(p: Pool, generation: nat, warm: Option<Conn>)
    requires Sound(p)
    ensures RefillBlock(p, generation, warm).2 == None
  {
  }

  // ------------------------------------------------------- the blocks in words

  /** A request is refused by a closed pool and for a session that is no longer the expected one. */
  predicate Refuses(p: Pool, fingerprint: Fingerprint, expected: Option<nat>) {
    p.closed || (expected.Some? && !(p.generation == expected.value && p.fingerprint == Some(fingerprint)))
  }

  /** A refill starts exactly when nothing is parked or on its way for the session; another session gives up what was parked. */
  lemma ScheduleMeans(p: Pool, fingerprint: Fingerprint, expected: Option<nat>)
    ensures
      var (q, decision, stale) := ScheduleBlock(p, fingerprint, expected);
      if Refuses(p, fingerprint, expected) then q == p && decision.Refused? && stale.None?
      else if p.fingerprint == Some(fingerprint) then
        && stale.None? && q == p.(refilling := p.refilling || p.ready.None?)
        && decision == if p.ready.None? && !p.refilling then Start(p.generation) else Enough
      else
        && stale == p.ready && decision == Start(q.generation)
        && q == Pool(None, Some(fingerprint), true, false, p.generation + 1)
  {
  }

  /** A refill of the open, empty pool's own session parks its connection; every other one gets it back to close it. */
  lemma RefillMeans(p: Pool, generation: nat, conn: Conn)
    requires Sound(p)
    ensures
      var (q, unused, stale) := RefillBlock(p, generation, Some(conn));
      && stale.None? && q.fingerprint == p.fingerprint && q.closed == p.closed && q.generation == p.generation
      && (generation == p.generation ==> !q.refilling)
      && (generation != p.generation ==> q == p)
      && (if generation == p.generation && !p.closed && p.ready.None? && p.fingerprint == Some(conn.fingerprint)
          then q.ready == Some(conn) && unused.None?
          else q.ready == p.ready && unused == Some(conn))
  {
  }

  /** A refill that could not authenticate only ends. */
  lemma FailedRefillMeans(p: Pool, generation: nat)
    requires Sound(p)
    ensures RefillBlock(p, generation, None) == (if generation == p.generation then p.(refilling := false) else p, None, None)
  {
  }

  /** The parked connection of the session is what is taken, unless it was parked too long ago; then it is closed. */
  lemma AcquireMeans(p: Pool, fingerprint: Fingerprint, now: int, maxIdle: int)
    requires Sound(p)
    ensures
      var (q, taken) := AcquireBlock(p, fingerprint, now, maxIdle);
      if p.closed then q == p && taken.None?
      else if p.fingerprint != Some(fingerprint) then
        && q == Pool(None, Some(fingerprint), false, false, p.generation + 1)
        && taken == Some(Taken(p.generation + 1, None, p.ready, None))
      else
        var fits := p.ready.Some? && now <= p.ready.value.authenticatedAt + maxIdle;
        && q == p.(ready := None)
        && taken == Some(Taken(p.generation, if fits then p.ready else None, if fits then None else p.ready, None))
  {
  }

  /** Invalidating and closing give up what was parked, for a session nobody has yet. */
  lemma EndingMeans(p: Pool)
    ensures InvalidateBlock(p) == (Pool(None, None, false, p.closed, p.generation + 1), p.ready)
    ensures CloseBlock(p) == (Pool(None, None, false, true, p.generation + 1), p.ready)
    ensures ResetBlock(p) == Pool(p.ready, p.fingerprint, false, p.closed, p.generation)
  {
  }

  // ---------------------------------------------------------------- the object

  class Core9528WarmPool {
    const maxIdle: int
    var ready: Option<Conn>
    var sessionFingerprint: Option<Fingerprint>
    var refilling: bool
    var closed: bool
    var generation: nat

    function View(): Pool
      reads this
    {
      Pool(ready, sessionFingerprint, refilling, closed, generation)
    }

    /** The parked connection is of the current session and generation; a closed pool parks nothing. */
    predicate Valid()
      reads this
    {
      Sound(View())
    }

    constructor (maxIdle: int)
      requires maxIdle > 0
      ensures Valid() && View() == EMPTY && this.maxIdle == maxIdle
    {
      this.maxIdle := maxIdle;
      ready, sessionFingerprint, refilling, closed, generation := None, None, false, false, 0;
    }

    method AdoptLocked(fingerprint: Fingerprint) returns (stale: Option<Conn>)
      requires Valid() && !closed
      modifies this
      ensures Valid() && !closed && (View(), stale) == Adopt(old(View()), fingerprint)
    {
      stale := None;
      if sessionFingerprint != Some(fingerprint) {
        stale := ready;
        ready := None;
        sessionFingerprint := Some(fingerprint);
        generation := generation + 1;
        refilling := false;
      }
    }

    method ScheduleLocked(fingerprint: Fingerprint, expected: Option<nat>) returns (decision: Decision, stale: Option<Conn>)
      requires Valid()
      modifies this
      ensures Valid() && (View(), decision, stale) == ScheduleBlock(old(View()), fingerprint, expected)
    {
      if closed {
        return Refused, None;
      }
      if expected.Some? && (expected.value != generation || sessionFingerprint != Some(fingerprint)) {
        return Refused, None;
      }
      stale := AdoptLocked(fingerprint);
      if ready.Some? || refilling {
        decision := Enough;
      } else {
        refilling := true;
        decision := Start(generation);
      }
    }

    method ResetLocked()
      requires Valid()
      modifies this
      ensures Valid() && View() == ResetBlock(old(View()))
    {
      refilling := false;
    }

    method RefillLocked(expected: nat, connection: Option<Conn>) returns (warm: Option<Conn>, stale: Option<Conn>)
      modifies this
      ensures (View(), warm, stale) == RefillBlock(old(View()), expected, connection)
      ensures old(Valid()) && (connection.Some? ==> connection.value.born == expected) ==> Valid() && stale.None?
      ensures connection.Some? && !old(closed) && old(ready).None? && expected == old(generation)
              && old(sessionFingerprint) == Some(connection.value.fingerprint) ==>
                ready == connection && warm.None? && stale.None? && !refilling
      ensures expected != old(generation) ==> View() == old(View()) && warm == connection && stale.None?
    {
      warm, stale := connection, None;
      if expected == generation {
        refilling := false;
        if warm.Some? && !closed && sessionFingerprint == Some(warm.value.fingerprint) && ready.None? {
          ready := warm;
          warm := None;
        } else if ready.Some? && closed {
          stale := ready;
          ready := None;
        }
      }
    }

    method AcquireLocked(fingerprint: Fingerprint, now: int) returns (taken: Option<Taken>)
      requires Valid()
      modifies this
      ensures Valid() && (View(), taken) == AcquireBlock(old(View()), fingerprint, now, maxIdle)
      ensures taken.Some? ==> ready.None? && taken.value.expired.None?
      ensures taken.Some? && taken.value.warm.Some? ==>
                var warm := taken.value.warm.value;
                old(ready) == Some(warm) && warm.fingerprint == fingerprint && warm.born == taken.value.generation
                && now - warm.authenticatedAt <= maxIdle
      ensures !old(closed) && old(ready).Some? && old(sessionFingerprint) == Some(fingerprint)
              && now - old(ready).value.authenticatedAt <= maxIdle ==>
                taken.Some? && taken.value.warm == old(ready) && taken.value.stale.None? && taken.value.generation == old(generation)
    {
      if closed {
        return None;
      }
      var stale := AdoptLocked(fingerprint);
      var warm, expired := ready, None;
      ready := None;
      if warm.Some? && now - warm.value.authenticatedAt > maxIdle {
        if stale.None? {
          stale := warm;
        } else {
          expired := warm;
        }
        warm := None;
      }
      return Some(Taken(generation, warm, stale, expired));
    }

    /** Whether nothing replaced, invalidated or closed the session since a connection of it was taken. */
    method ConfirmLocked(expected: nat, fingerprint: Fingerprint) returns (valid: bool)
      requires Valid()
      ensures valid == ConfirmBlock(View(), expected, fingerprint)
    {
      valid := !closed && expected == generation && sessionFingerprint == Some(fingerprint);
    }

    method InvalidateLocked() returns (stale: Option<Conn>)
      requires Valid()
      modifies this
      ensures Valid() && ready.None? && (View(), stale) == InvalidateBlock(old(View()))
    {
      stale := ready;
      ready := None;
      sessionFingerprint := None;
      generation := generation + 1;
      refilling := false;
    }

    method CloseLocked() returns (stale: Option<Conn>)
      requires Valid()
      modifies this
      ensures Valid() && ready.None? && (View(), stale) == CloseBlock(old(View()))
    {
      closed := true;
      stale := ready;
      ready := None;
      sessionFingerprint := None;
      generation := generation + 1;
      refilling := false;
    }
  }
}
