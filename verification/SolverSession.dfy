/**
 * The shared solver session of one transport: every region of the code that runs
 * under its lock, as a method on the fields the lock guards.
 *
 * Time is in seconds. A channel is known by the order it was made in; closing one
 * is reported to the caller of End.
 */
module SolverSession {
  import opened Common

  /** After a failed create, none is tried for this long. */
  const COOLDOWN: int := 30

  /** An empty session name is no session; idle is the channel made when work began. */
  datatype Shared = Shared(
    session: string,
    closed: bool,
    inflight: int,
    idle: Option<nat>,
    made: nat,
    retryAt: Option<int>)

  const NEW := Shared("", false, 0, None, 0, None)

  datatype Cached = Ready(session: string) | RefusedClosed | CoolingDown | TryCreate

  function Look(s: Shared, now: int): Cached {
    if s.session != "" then Ready(s.session)
    else if s.closed then RefusedClosed
    else if s.retryAt.Some? && now < s.retryAt.value then CoolingDown
    else TryCreate
  }

  /** One more unit of work that can leave a browser behind. */
  function Begun(s: Shared): Shared {
    if s.inflight == 0 then s.(inflight := 1, idle := Some(s.made), made := s.made + 1)
    else s.(inflight := s.inflight + 1)
  }

  function Ended(s: Shared): Shared {
    if s.inflight == 1 then s.(inflight := 0, idle := None) else s.(inflight := s.inflight - 1)
  }

  /** The end of a create: an error starts the cooldown, a name is installed unless Close came first. */
  function Settled(s: Shared, name: string, now: int): Shared {
    if name == "" then s.(retryAt := Some(now + COOLDOWN))
    else if s.closed then s
    else s.(session := name, retryAt := None)
  }

  function Dropped(s: Shared, name: string): Shared {
    if s.session == name then Begun(s.(session := "")) else s
  }

  function Closed(s: Shared): Shared {
    s.(session := "", closed := true)
  }

  class Transport {
    var session: string
    var closed: bool
    var inflight: int
    var idle: Option<nat>
    var made: nat
    var nextCreateAttempt: Option<int>

    ghost function State(): Shared
      reads this
    {
      Shared(session, closed, inflight, idle, made, nextCreateAttempt)
    }

    constructor ()
      ensures State() == NEW
    {
      session, closed, inflight, idle, made, nextCreateAttempt := "", false, 0, None, 0, None;
    }

    method CachedSession(now: int) returns (r: Cached)
      ensures r == Look(State(), now)
    {
      if session != "" { return Ready(session); }
      if closed { return RefusedClosed; }
      if nextCreateAttempt.Some? && now < nextCreateAttempt.value { return CoolingDown; }
      return TryCreate;
    }

    method BeginLocked()
      modifies this
      ensures State() == Begun(old(State()))
    {
      if inflight == 0 {
        idle := Some(made);
        made := made + 1;
      }
      inflight := inflight + 1;
    }

    /** The region of ensureSession that starts a create; false when Close came first. */
    method BeginCreate() returns (begun: bool)
      modifies this
      ensures begun <==> !old(closed)
      ensures State() == if begun then Begun(old(State())) else old(State())
    {
      if closed { return false; }
      BeginLocked();
      return true;
    }

    /** Reports the channel it closed, if it did. */
    method End() returns (drained: Option<nat>)
      modifies this
      ensures State() == Ended(old(State()))
      ensures drained == if old(inflight) == 1 then old(idle) else None
    {
      inflight := inflight - 1;
      drained := None;
      if inflight == 0 {
        drained := idle;
        idle := None;
      }
    }

    /** The region of ensureSession after the solver answered; an empty name is a failed create. */
    method FinishCreate(name: string, now: int) returns (abandoned: bool)
      modifies this
      ensures State() == Settled(old(State()), name, now)
      ensures abandoned <==> name != "" && old(closed)
    {
      if name == "" {
        nextCreateAttempt := Some(now + COOLDOWN);
        return false;
      }
      if closed { return true; }
      session := name;
      nextCreateAttempt := None;
      return false;
    }

    /** The region of dropSession; false when name is not the active session any more. */
    method DropLocked(name: string) returns (stale: bool)
      modifies this
      ensures State() == Dropped(old(State()), name)
      ensures stale <==> old(session) == name
    {
      stale := session == name;
      if stale {
        session := "";
        BeginLocked();
      }
    }

    /** The region of Close: takes the session and one snapshot of idle. */
    method CloseLocked() returns (name: string, waitFor: Option<nat>)
      modifies this
      ensures State() == Closed(old(State()))
      ensures name == old(session) && waitFor == old(idle)
    {
      name, waitFor := session, idle;
      session, closed := "", true;
    }
  }
}
