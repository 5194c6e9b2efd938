/**
 * Sign-ins of one user on one tracker: any number of EnsureSession and Establish
 * calls, interleaved at every point where the one-slot lock or the tracker lets
 * another one run.
 *
 * A fingerprint stands for one credential (module Fingerprint); the hash is taken to
 * tell credentials apart. Verify asks whether the plugin's session is signed in, not
 * as whom.
 */
module SignIn {
  import opened Common

  type Fp = int

  /** None is a nil error. */
  type Err = Option<string>

  datatype Outcome = Outcome(fp: Fp, at: int, err: Err)

  // ---- the slot ---------------------------------------------------------------------

  class SessionSlot {
    var owner: Option<Fp>
    var last: Option<Outcome>

    constructor ()
      ensures owner == None && last == None
    {
      owner, last := None, None;
    }

    method Settle(fp: Fp, err: Err, ended: bool, now: int)
      modifies this
      ensures owner == OwnerAfter(fp, err)
      ensures last == LastAfter(fp, err, ended, now)
    {
      if err.None? {
        owner := Some(fp);
      } else {
        owner := None;
      }
      if ended {
        last := None;
        return;
      }
      last := Some(Outcome(fp, now, err));
    }

    /** The answer a caller that arrived then may take over. */
    method Inherit(fp: Fp, arrived: int) returns (answer: Option<Err>)
      ensures answer == Inherited(last, fp, arrived)
    {
      if last.Some? && last.value.fp == fp && last.value.at > arrived {
        return Some(last.value.err);
      }
      return None;
    }
  }

  function OwnerAfter(fp: Fp, err: Err): Option<Fp> {
    if err.None? then Some(fp) else None
  }

  /** An attempt its own caller's context ended is not handed on. */
  function LastAfter(fp: Fp, err: Err, ended: bool, now: int): Option<Outcome> {
    if ended then None else Some(Outcome(fp, now, err))
  }

  function Inherited(last: Option<Outcome>, fp: Fp, arrived: int): Option<Err> {
    if last.Some? && last.value.fp == fp && last.value.at > arrived then Some(last.value.err) else None
  }

  // ---- callers as steps ---------------------------------------------------------------

  /** Where a caller is; `own` is Establish, which always signs in itself. */
  datatype Phase =
    | Waiting(fp: Fp, arrived: int, own: bool)
    | Holding(fp: Fp, arrived: int, own: bool)
    | Verifying(fp: Fp)
    | LoggingIn(fp: Fp)
    | Settling(fp: Fp, err: Err)
    | Answered(fp: Fp, err: Err)
    | Done

  datatype World = World(
    owner: Option<Fp>,
    last: Option<Outcome>,
    lock: Option<nat>,
    /** Whose successful login the session the plugin holds is from, if from any. */
    plugin: Option<Fp>,
    callers: map<nat, Phase>,
    clock: int)

  const START := World(None, None, None, None, map[], 0)

  datatype Event =
    | Arrive(id: nat, fp: Fp, own: bool, now: int)
    | Acquire(id: nat)
    | GiveUp(id: nat)
    | Decide(id: nat)
    | VerifyDone(id: nat, live: bool)
    | LoginDone(id: nat, err: Err, left: Option<Fp>)
    | Settle(id: nat, ended: bool, now: int)
    | Release(id: nat)

  predicate Enabled(w: World, e: Event) {
    match e
    case Arrive(id, _, _, now) => id !in w.callers && w.clock <= now
    case Acquire(id) => id in w.callers && w.callers[id].Waiting? && w.lock.None?
    case GiveUp(id) => id in w.callers && w.callers[id].Waiting?
    case Decide(id) => id in w.callers && w.callers[id].Holding?
    case VerifyDone(id, _) => id in w.callers && w.callers[id].Verifying?
    // A login that succeeded is the one the session is from; one that failed may leave any.
    case LoginDone(id, err, left) =>
      id in w.callers && w.callers[id].LoggingIn? && (err.None? ==> left == Some(w.callers[id].fp))
    case Settle(id, _, now) => id in w.callers && w.callers[id].Settling? && w.clock <= now
    case Release(id) => id in w.callers && w.callers[id].Answered?
  }

  function PhaseAfter(w: World, e: Event): Phase
    requires Enabled(w, e)
  {
    match e
    case Arrive(_, fp, own, now) => Waiting(fp, now, own)
    case Acquire(id) => Holding(w.callers[id].fp, w.callers[id].arrived, w.callers[id].own)
    case GiveUp(_) => Done
    case Decide(id) =>
      var p := w.callers[id];
      if p.own then LoggingIn(p.fp)
      else if Inherited(w.last, p.fp, p.arrived).Some? then
        Answered(p.fp, Inherited(w.last, p.fp, p.arrived).value)
      else if w.owner == Some(p.fp) then Verifying(p.fp)
      else LoggingIn(p.fp)
    case VerifyDone(id, live) => if live then Settling(w.callers[id].fp, None) else LoggingIn(w.callers[id].fp)
    case LoginDone(id, err, _) => Settling(w.callers[id].fp, err)
    case Settle(id, _, _) => Answered(w.callers[id].fp, w.callers[id].err)
    case Release(_) => Done
  }

  function Next(w: World, e: Event): World
    requires Enabled(w, e)
  {
    World(
      if e.Settle? then OwnerAfter(w.callers[e.id].fp, w.callers[e.id].err) else w.owner,
      if e.Settle? then LastAfter(w.callers[e.id].fp, w.callers[e.id].err, e.ended, e.now) else w.last,
      if e.Acquire? then Some(e.id) else if e.Release? then None else w.lock,
      if e.LoginDone? then e.left else w.plugin,
      w.callers[e.id := PhaseAfter(w, e)],
      if e.Arrive? || e.Settle? then e.now else w.clock)
  }

  predicate Reachable(events: seq<Event>)
    decreases |events|, 0
  {
    events == [] ||
    (Reachable(events[..|events| - 1]) && Enabled(After(events[..|events| - 1]), events[|events| - 1]))
  }

  function After(events: seq<Event>): World
    requires Reachable(events)
    decreases |events|, 1
  {
    if events == [] then START else Next(After(events[..|events| - 1]), events[|events| - 1])
  }

  // ---- the invariant ---------------------------------------------------------------------

  predicate HoldsLock(p: Phase) {
    p.Holding? || p.Verifying? || p.LoggingIn? || p.Settling? || p.Answered?
  }

  /** A sign-in request to the tracker is under way. */
  predicate InFlight(p: Phase) { p.Verifying? || p.LoggingIn? }

  ghost predicate LockInv(w: World) {
    && (w.lock.Some? ==> w.lock.value in w.callers)
    && forall id | id in w.callers :: HoldsLock(w.callers[id]) <==> w.lock == Some(id)
  }

  /** Some caller is between sending a login and recording how it ended. */
  predicate Unrecorded(p: Phase) { p.LoggingIn? || p.Settling? }

  ghost predicate Busy(w: World) { w.lock.Some? && w.lock.value in w.callers && Unrecorded(w.callers[w.lock.value]) }

  ghost predicate OwnerInv(w: World) {
    // The owner is who the plugin's session is from, unless a login is being recorded.
    && (w.owner.Some? && !Busy(w) ==> w.plugin == w.owner)
    // The last answer is the last attempt's, so a success in it is the owner's.
    && (w.last.Some? && w.last.value.err.None? ==> w.owner == Some(w.last.value.fp))
  }

  ghost predicate PhaseInv(w: World) {
    forall id | id in w.callers ::
      && (w.callers[id].Verifying? ==> w.owner == Some(w.callers[id].fp))
      && (w.callers[id].Settling? && w.callers[id].err.None? ==> w.plugin == Some(w.callers[id].fp))
      && (w.callers[id].Answered? && w.callers[id].err.None? ==> w.plugin == Some(w.callers[id].fp) && w.owner == w.plugin)
  }

  ghost predicate Inv(w: World) { LockInv(w) && OwnerInv(w) && PhaseInv(w) }

  lemma LockKept(w: World, e: Event)
    requires LockInv(w) && Enabled(w, e)
    ensures LockInv(Next(w, e))
  {
    hide Inherited, OwnerAfter, LastAfter;
  }

  /** Whoever takes a step that needs the lock has it, and so nobody else is past taking it. */
  lemma OnlyHolder(w: World, id: nat)
    requires LockInv(w) && id in w.callers && HoldsLock(w.callers[id])
    ensures w.lock == Some(id) && forall j | j in w.callers && HoldsLock(w.callers[j]) :: j == id
  {}

  lemma OwnerKept(w: World, e: Event)
    requires Inv(w) && Enabled(w, e)
    ensures OwnerInv(Next(w, e))
  {
    hide Inherited, LockInv;
    LockKept(w, e);
    if !e.Arrive? && !e.Acquire? && !e.GiveUp? { OnlyHolder(w, e.id); }
  }

  lemma PhaseKept(w: World, e: Event)
    requires Inv(w) && Enabled(w, e)
    ensures PhaseInv(Next(w, e))
  {
    hide LockInv;
    var v := Next(w, e);
    if !e.Arrive? && !e.Acquire? && !e.GiveUp? { OnlyHolder(w, e.id); }
    forall id | id in v.callers
      ensures v.callers[id].Verifying? ==> v.owner == Some(v.callers[id].fp)
      ensures v.callers[id].Settling? && v.callers[id].err.None? ==> v.plugin == Some(v.callers[id].fp)
      ensures v.callers[id].Answered? && v.callers[id].err.None? ==> v.plugin == Some(v.callers[id].fp) && v.owner == v.plugin
    {
      if id != e.id { assert v.callers[id] == w.callers[id]; }
    }
  }

  lemma {:induction false} InvAlways(events: seq<Event>)
    requires Reachable(events)
    ensures Inv(After(events))
    decreases |events|
  {
    hide LockInv, OwnerInv, PhaseInv, Next, Enabled;
    if events == [] {
      assert Inv(START) by { StartInv(); }
    } else {
      var w, e := After(events[..|events| - 1]), events[|events| - 1];
      InvAlways(events[..|events| - 1]);
      LockKept(w, e);
      OwnerKept(w, e);
      PhaseKept(w, e);
    }
  }

  lemma StartInv()
    ensures LockInv(START) && OwnerInv(START) && PhaseInv(START)
  {}

  // ---- what every interleaving guarantees ---------------------------------------------------

  /** At most one Verify or Login is in flight. */
  lemma OneSignInAtATime(events: seq<Event>, i: nat, j: nat)
    requires Reachable(events) && i in After(events).callers && j in After(events).callers
    requires InFlight(After(events).callers[i]) && InFlight(After(events).callers[j])
    ensures i == j
  {
    hide Reachable, After, OwnerInv, PhaseInv;
    InvAlways(events);
  }

  /**
   * Whoever is answered with no error, by its own attempt or another's, finds the
   * plugin signed in by a login with its own credential.
   */
  lemma NilMeansOwnSession(events: seq<Event>, id: nat)
    requires Reachable(events) && id in After(events).callers
    requires After(events).callers[id].Answered? && After(events).callers[id].err.None?
    ensures After(events).plugin == Some(After(events).callers[id].fp)
  {
    hide Reachable, After, LockInv, OwnerInv;
    InvAlways(events);
  }

  // ---- answers taken over -----------------------------------------------------------------------

  /** Step j ended an attempt with this credential's answer, at that time, not cut short by its caller. */
  ghost predicate EndedAt(events: seq<Event>, j: nat, o: Outcome)
    requires Reachable(events)
  {
    && j < |events| && events[j].Settle? && !events[j].ended && events[j].now == o.at
    && (PrefixReachable(events, j);
        var w := After(events[..j]);
        events[j].id in w.callers && w.callers[events[j].id] == Settling(o.fp, o.err))
  }

  /** Step i is when the caller came. */
  ghost predicate CameAt(events: seq<Event>, i: nat, id: nat, arrived: int) {
    i < |events| && events[i].Arrive? && events[i].id == id && events[i].now == arrived
  }

  lemma {:induction false} PrefixReachable(events: seq<Event>, k: nat)
    requires Reachable(events) && k <= |events|
    ensures Reachable(events[..k])
    ensures k < |events| ==> Enabled(After(events[..k]), events[k])
    decreases |events|
  {
    hide Enabled, After;
    var n := |events| - 1;
    if k == |events| {
      assert events[..k] == events;
    } else if k < n {
      PrefixReachable(events[..n], k);
      assert events[..n][..k] == events[..k];
    }
  }

  /** The clock never runs back. */
  lemma {:induction false} ClockGrows(events: seq<Event>, i: nat, k: nat)
    requires Reachable(events) && i <= k <= |events|
    ensures Reachable(events[..i]) && Reachable(events[..k])
    ensures After(events[..i]).clock <= After(events[..k]).clock
    decreases k
  {
    hide PhaseAfter, OwnerAfter, LastAfter;
    PrefixReachable(events, i);
    PrefixReachable(events, k);
    if i < k {
      ClockGrows(events, i, k - 1);
      PrefixReachable(events, k - 1);
      assert events[..k][..k - 1] == events[..k - 1];
    }
  }

  /** The clock right after step i, when the step read it. */
  lemma ClockRead(events: seq<Event>, i: nat)
    requires Reachable(events) && i < |events| && (events[i].Arrive? || events[i].Settle?)
    ensures Reachable(events[..i + 1]) && After(events[..i + 1]).clock == events[i].now
    ensures Reachable(events[..i]) && After(events[..i]).clock <= events[i].now
  {
    hide PhaseAfter, OwnerAfter, LastAfter;
    PrefixReachable(events, i);
    PrefixReachable(events, i + 1);
    assert events[..i + 1][..i] == events[..i];
  }

  lemma EndedStays(events: seq<Event>, n: nat, j: nat, o: Outcome)
    requires Reachable(events) && n <= |events| && Reachable(events[..n]) && EndedAt(events[..n], j, o)
    ensures EndedAt(events, j, o)
  {
    hide After, Enabled;
    PrefixReachable(events, j);
    assert events[..n][..j] == events[..j];
  }

  /** The slot's last answer is that of a step that ended an attempt. */
  lemma {:induction false} LastIsSome(events: seq<Event>) returns (j: nat)
    requires Reachable(events) && After(events).last.Some?
    ensures EndedAt(events, j, After(events).last.value)
    decreases |events|
  {
    hide PhaseAfter;
    var n := |events| - 1;
    var e := events[n];
    if e.Settle? {
      j := n;
      PrefixReachable(events, n);
    } else {
      j := LastIsSome(events[..n]);
      EndedStays(events, n, j, After(events).last.value);
    }
  }

  /** A caller's phase remembers when it came. */
  lemma {:induction false} ArrivalKnown(events: seq<Event>, id: nat) returns (i: nat)
    requires Reachable(events) && id in After(events).callers
    requires After(events).callers[id].Waiting? || After(events).callers[id].Holding?
    ensures CameAt(events, i, id, After(events).callers[id].arrived)
    decreases |events|
  {
    hide Inherited, OwnerAfter, LastAfter;
    var n := |events| - 1;
    var e := events[n];
    if e.Arrive? && e.id == id {
      i := n;
    } else {
      i := ArrivalKnown(events[..n], id);
    }
  }

  /**
   * An answer taken over from another attempt is the answer of an attempt with the same
   * credential that ran to its end after this caller had come.
   */
  lemma InheritedIsFresh(events: seq<Event>, id: nat) returns (i: nat, j: nat)
    requires Reachable(events) && Enabled(After(events), Decide(id))
    requires PhaseAfter(After(events), Decide(id)).Answered?
    ensures var w := After(events);
      && CameAt(events, i, id, w.callers[id].arrived)
      && i < j < |events| && events[j].Settle?
      && EndedAt(events, j, Outcome(w.callers[id].fp, events[j].now, PhaseAfter(w, Decide(id)).err))
  {
    hide Next, Reachable, EndedAt;
    var w := After(events);
    i := ArrivalKnown(events, id);
    j := LastIsSome(events);
    InTime(events, i, j, id, w.callers[id].arrived, w.last.value);
  }

  lemma InTime(events: seq<Event>, i: nat, j: nat, id: nat, arrived: int, o: Outcome)
    requires Reachable(events) && CameAt(events, i, id, arrived) && EndedAt(events, j, o) && arrived < o.at
    ensures i < j < |events| && events[j].Settle? && events[j].now == o.at
  {
    hide Reachable, After, Enabled, Next;
    if j < i {
      ClockRead(events, j);
      ClockRead(events, i);
      ClockGrows(events, j + 1, i);
    }
  }
}
