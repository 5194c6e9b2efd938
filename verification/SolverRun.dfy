/**
 * Any number of callers of ensureSession, dropSession and Close on one transport,
 * interleaved at every point where the lock, the one-slot semaphore or the solver
 * lets another one run.
 *
 * The solver names a session it makes, and never gives out a name twice.
 */
module SolverRun {
  import opened Common
  import opened SolverSession

  datatype Phase =
    // ensureSession, from its first look at the cache to the release of the slot.
    | Calling | Waiting | Holding | Rechecked | Creating | Created(name: string) | Failed
    | Discarding(name: string) | Ending | Releasing
    // The detached destroy started by dropSession.
    | Destroying(name: string) | DestroyEnding
    // Close: its own destroy, then the wait.
    | Closing(name: string, idle: Option<nat>) | CloseWaiting(idle: Option<nat>) | ClosedIdle | ClosedEarly
    | Done

  datatype World = World(
    shared: Shared,
    slot: Option<nat>,
    threads: map<nat, Phase>,
    issued: set<string>,
    destroyed: set<string>,
    drained: set<nat>,
    failedAt: Option<int>)

  const START := World(NEW, None, map[], {}, {}, {}, None)

  datatype Event =
    | Call(id: nat)
    | LookFirst(id: nat, now: int)
    | Acquire(id: nat)
    | GiveUp(id: nat)
    | LookAgain(id: nat, now: int)
    | Begin(id: nat)
    | Answer(id: nat, name: string)
    | Settle(id: nat, now: int)
    | DestroySent(id: nat)
    | End(id: nat)
    | Release(id: nat)
    | Drop(id: nat, name: string)
    | CloseCall(id: nat)
    | SeeIdle(id: nat)
    | TimeOut(id: nat)

  predicate HoldsSlot(p: Phase) {
    p.Holding? || p.Rechecked? || p.Creating? || p.Created? || p.Failed? || p.Discarding? || p.Ending? || p.Releasing?
  }

  /** Work counted in inflight. */
  predicate Counts(p: Phase) {
    p.Creating? || p.Created? || p.Failed? || p.Discarding? || p.Ending? || p.Destroying? || p.DestroyEnding?
  }

  /** Past its second look and not yet done with the create. */
  predicate Making(p: Phase) { p.Rechecked? || p.Creating? || p.Created? || p.Failed? }

  /** The session this thread alone is responsible for, "" when none. */
  function Carries(p: Phase): string {
    match p
    case Created(n) => n
    case Discarding(n) => n
    case Destroying(n) => n
    case Closing(n, _) => n
    case _ => ""
  }

  predicate At(w: World, id: nat) { id in w.threads }

  predicate Enabled(w: World, e: Event) {
    match e
    case Call(id) => !At(w, id)
    case LookFirst(id, _) => At(w, id) && w.threads[id].Calling?
    case Acquire(id) => At(w, id) && w.threads[id].Waiting? && w.slot.None?
    case GiveUp(id) => At(w, id) && w.threads[id].Waiting?
    case LookAgain(id, _) => At(w, id) && w.threads[id].Holding?
    case Begin(id) => At(w, id) && w.threads[id].Rechecked?
    case Answer(id, name) => At(w, id) && w.threads[id].Creating? && name !in w.issued
    case Settle(id, _) => At(w, id) && (w.threads[id].Created? || w.threads[id].Failed?)
    case DestroySent(id) =>
      At(w, id) && (w.threads[id].Discarding? || w.threads[id].Destroying? || w.threads[id].Closing?)
    case End(id) => At(w, id) && (w.threads[id].Ending? || w.threads[id].DestroyEnding?)
    case Release(id) => At(w, id) && w.threads[id].Releasing?
    case Drop(id, name) => !At(w, id) && name != ""
    case CloseCall(id) => !At(w, id)
    case SeeIdle(id) =>
      && At(w, id) && w.threads[id].CloseWaiting?
      && (w.threads[id].idle.None? || w.threads[id].idle.value in w.drained)
    case TimeOut(id) => At(w, id) && w.threads[id].CloseWaiting?
  }

  /** What the step makes of its thread. */
  function PhaseAfter(w: World, e: Event): Phase
    requires Enabled(w, e)
  {
    match e
    case Call(_) => Calling
    case LookFirst(_, now) => if Look(w.shared, now) == TryCreate then Waiting else Done
    case Acquire(_) => Holding
    case GiveUp(_) => Done
    case LookAgain(_, now) => if Look(w.shared, now) == TryCreate then Rechecked else Releasing
    case Begin(_) => if w.shared.closed then Releasing else Creating
    case Answer(_, name) => if name == "" then Failed else Created(name)
    case Settle(id, _) =>
      if w.threads[id].Created? && w.shared.closed then Discarding(w.threads[id].name) else Ending
    case DestroySent(id) =>
      if w.threads[id].Discarding? then Ending
      else if w.threads[id].Destroying? then DestroyEnding
      else CloseWaiting(w.threads[id].idle)
    case End(id) => if w.threads[id].Ending? then Releasing else Done
    case Release(_) => Done
    case Drop(_, name) => if w.shared.session == name then Destroying(name) else Done
    case CloseCall(_) => Closing(w.shared.session, w.shared.idle)
    case SeeIdle(_) => ClosedIdle
    case TimeOut(_) => ClosedEarly
  }

  function SharedAfter(w: World, e: Event): Shared
    requires Enabled(w, e)
  {
    match e
    case Begin(_) => if w.shared.closed then w.shared else Begun(w.shared)
    case Settle(id, now) => Settled(w.shared, Carries(w.threads[id]), now)
    case End(_) => Ended(w.shared)
    case Drop(_, name) => Dropped(w.shared, name)
    case CloseCall(_) => Closed(w.shared)
    case _ => w.shared
  }

  function SlotAfter(w: World, e: Event): Option<nat>
    requires Enabled(w, e)
  {
    match e
    case Acquire(id) => Some(id)
    case Release(_) => None
    case _ => w.slot
  }

  function Next(w: World, e: Event): World
    requires Enabled(w, e)
  {
    World(
      SharedAfter(w, e),
      SlotAfter(w, e),
      w.threads[e.id := PhaseAfter(w, e)],
      if e.Answer? && e.name != "" then w.issued + {e.name} else w.issued,
      if e.DestroySent? && Carries(w.threads[e.id]) != "" then w.destroyed + {Carries(w.threads[e.id])} else w.destroyed,
      if e.End? && w.shared.inflight == 1 && w.shared.idle.Some? then w.drained + {w.shared.idle.value} else w.drained,
      if e.Settle? then (if w.threads[e.id].Failed? then Some(e.now) else if w.shared.closed then w.failedAt else None)
      else w.failedAt)
  }

  predicate Reachable(events: seq<Event>)
    decreases |events|, 0
  {
    events == [] ||
    (Reachable(events[..|events| - 1]) && Enabled(After(events[..|events| - 1]), events[|events| - 1]))
  }

  function After(events: seq<Event>): World
    requires Reachable(events)
    decreases |events|, 1
  {
    if events == [] then START else Next(After(events[..|events| - 1]), events[|events| - 1])
  }

  // ---- the invariant --------------------------------------------------------------------

  /** The slot belongs to exactly the thread that is between taking and releasing it. */
  ghost predicate SlotInv(w: World) {
    && (w.slot.Some? ==> w.slot.value in w.threads)
    && forall id | id in w.threads :: HoldsSlot(w.threads[id]) <==> w.slot == Some(id)
  }

  ghost function Counted(threads: map<nat, Phase>): set<nat> {
    set id | id in threads && Counts(threads[id])
  }

  /** inflight is exactly the number of threads with counted work. */
  ghost predicate CountInv(w: World) { w.shared.inflight == |Counted(w.threads)| }

  /** An idle channel is open exactly while something is inflight, and only old ones are closed. */
  ghost predicate IdleInv(w: World) {
    && w.shared.inflight >= 0 && (w.shared.idle.Some? <==> w.shared.inflight > 0)
    && (w.shared.idle.Some? ==> w.shared.idle.value < w.shared.made)
    && forall c | c in w.drained :: c < w.shared.made && w.shared.idle != Some(c)
  }

  /** No session while one is being made, or once closed. */
  ghost predicate EmptyInv(w: World) {
    && (w.shared.closed ==> w.shared.session == "")
    && forall id | id in w.threads && Making(w.threads[id]) :: w.shared.session == ""
  }

  /** A Close still to return waits for all there is to wait for. */
  ghost predicate WaitInv(w: World) {
    && (forall id | id in w.threads && (w.threads[id].Closing? || w.threads[id].CloseWaiting?) ::
          w.shared.closed && (w.shared.idle.None? || w.shared.idle == w.threads[id].idle))
    && (forall id | id in w.threads && w.threads[id].ClosedIdle? :: w.shared.closed && w.shared.idle.None?)
  }

  /** Every session the solver gave out is in exactly one place. */
  ghost predicate NamesInv(session: string, threads: map<nat, Phase>, issued: set<string>, destroyed: set<string>) {
    && "" !in issued && destroyed <= issued
    && (session != "" ==> session in issued && session !in destroyed)
    && (forall id | id in threads && Carries(threads[id]) != "" ::
          && Carries(threads[id]) in issued && Carries(threads[id]) !in destroyed && Carries(threads[id]) != session)
    && (forall i, j | i in threads && j in threads && Carries(threads[i]) != "" && Carries(threads[i]) == Carries(threads[j]) :: i == j)
    && (forall n | n in issued :: n in destroyed || n == session || CarriedBySome(threads, n))
  }

  ghost predicate CarriedBySome(threads: map<nat, Phase>, n: string) {
    exists id :: id in threads && Carries(threads[id]) == n
  }

  ghost predicate NamesOf(w: World) { NamesInv(w.shared.session, w.threads, w.issued, w.destroyed) }

  /** The retry time follows the last failure; an answered create has a name. */
  ghost predicate CoolInv(w: World) {
    && (w.failedAt.Some? ==> w.shared.retryAt == Some(w.failedAt.value + COOLDOWN))
    && forall id | id in w.threads && w.threads[id].Created? :: w.threads[id].name != ""
  }

  ghost predicate Inv(w: World) {
    SlotInv(w) && CountInv(w) && IdleInv(w) && EmptyInv(w) && WaitInv(w) && NamesOf(w) && CoolInv(w)
  }

  // ---- each part is kept by every step ---------------------------------------------------------

  lemma SlotKept(w: World, e: Event)
    requires SlotInv(w) && Enabled(w, e)
    ensures SlotInv(Next(w, e))
  {
    hide SharedAfter, Look, Carries;
  }

  lemma CountMove(threads: map<nat, Phase>, id: nat, p: Phase)
    ensures |Counted(threads[id := p])|
            == |Counted(threads)| + (if Counts(p) then 1 else 0) - (if id in threads && Counts(threads[id]) then 1 else 0)
  {
    var was, now := Counted(threads), Counted(threads[id := p]);
    assert now - {id} == was - {id};
    assert |now| == |now - {id}| + (if id in now then 1 else 0) by { Without(now, id); }
    assert |was| == |was - {id}| + (if id in was then 1 else 0) by { Without(was, id); }
  }

  lemma Without(s: set<nat>, x: nat)
    ensures |s| == |s - {x}| + (if x in s then 1 else 0)
  {
    if x in s { assert s == (s - {x}) + {x}; } else { assert s == s - {x}; }
  }

  lemma CountKept(w: World, e: Event)
    requires CountInv(w) && EmptyInv(w) && Enabled(w, e)
    ensures CountInv(Next(w, e))
  {
    hide Counted, Look, SlotAfter;
    CountMove(w.threads, e.id, PhaseAfter(w, e));
    if e.Drop? && w.shared.session == e.name { assert !w.shared.closed; }
  }

  lemma IdleKept(w: World, e: Event)
    requires IdleInv(w) && CountInv(w) && Enabled(w, e)
    ensures IdleInv(Next(w, e))
  {
    hide Counted, Look, SlotAfter, PhaseAfter, Carries;
    if e.End? { EndCounted(w, e.id); }
  }

  lemma EndCounted(w: World, id: nat)
    requires CountInv(w) && id in w.threads && Counts(w.threads[id])
    ensures w.shared.inflight > 0
  {
    assert id in Counted(w.threads);
  }

  lemma EmptyKept(w: World, e: Event)
    requires EmptyInv(w) && SlotInv(w) && Enabled(w, e)
    ensures EmptyInv(Next(w, e))
  {
    hide SlotAfter;
  }

  /** Once closed, nothing begins and no session appears. */
  lemma ClosedStays(w: World, e: Event)
    requires w.shared.closed && EmptyInv(w) && Enabled(w, e)
    ensures Next(w, e).shared.closed && Next(w, e).shared.session == ""
    ensures Next(w, e).shared.idle.None? || Next(w, e).shared.idle == w.shared.idle
    ensures Counted(Next(w, e).threads) <= Counted(w.threads)
  {
    hide SlotAfter, Look;
  }

  lemma WaitKept(w: World, e: Event)
    requires WaitInv(w) && IdleInv(w) && EmptyInv(w) && Enabled(w, e)
    ensures WaitInv(Next(w, e))
  {
    hide SlotAfter, Look, Counted, Carries, EmptyInv;
    if w.shared.closed { ClosedStays(w, e); }
    var v := Next(w, e);
    forall id | id in v.threads && (v.threads[id].Closing? || v.threads[id].CloseWaiting?)
      ensures v.shared.closed && (v.shared.idle.None? || v.shared.idle == v.threads[id].idle)
    {}
    forall id | id in v.threads && v.threads[id].ClosedIdle? ensures v.shared.closed && v.shared.idle.None? {}
  }

  lemma CoolKept(w: World, e: Event)
    requires CoolInv(w) && Enabled(w, e)
    ensures CoolInv(Next(w, e))
  {
    hide SlotAfter, Look;
  }

  // ---- names move from place to place ----------------------------------------------------------------

  /** A step that leaves what its thread carries alone. */
  lemma NamesSame(session: string, threads: map<nat, Phase>, issued: set<string>, destroyed: set<string>, id: nat, p: Phase)
    requires NamesInv(session, threads, issued, destroyed)
    requires Carries(p) == if id in threads then Carries(threads[id]) else ""
    ensures NamesInv(session, threads[id := p], issued, destroyed)
  {
    var after := threads[id := p];
    forall n | n in issued ensures n in destroyed || n == session || CarriedBySome(after, n) {
      if CarriedBySome(threads, n) {
        var i :| i in threads && Carries(threads[i]) == n;
        assert i in after && Carries(after[i]) == n;
      }
    }
  }

  lemma NameIssued(session: string, threads: map<nat, Phase>, issued: set<string>, destroyed: set<string>, id: nat, p: Phase)
    requires NamesInv(session, threads, issued, destroyed)
    requires id in threads && Carries(threads[id]) == "" && Carries(p) != "" && Carries(p) !in issued
    ensures NamesInv(session, threads[id := p], issued + {Carries(p)}, destroyed)
  {
    var after := threads[id := p];
    forall n | n in issued + {Carries(p)} ensures n in destroyed || n == session || CarriedBySome(after, n) {
      if n == Carries(p) {
        assert id in after && Carries(after[id]) == n;
      } else if CarriedBySome(threads, n) {
        var i :| i in threads && Carries(threads[i]) == n;
        assert i in after && Carries(after[i]) == n;
      }
    }
  }

  /** The thread hands its name over: to the session, or to the destroyed. */
  lemma NameLeaves(session: string, threads: map<nat, Phase>, issued: set<string>, destroyed: set<string>, id: nat, p: Phase)
    requires NamesInv(session, threads, issued, destroyed)
    requires id in threads && Carries(threads[id]) != "" && Carries(p) == ""
    ensures NamesInv(session, threads[id := p], issued, destroyed + {Carries(threads[id])})
    ensures session == "" ==> NamesInv(Carries(threads[id]), threads[id := p], issued, destroyed)
  {
    var after, name := threads[id := p], Carries(threads[id]);
    forall n | n in issued && n != name ensures n in destroyed || n == session || CarriedBySome(after, n) {
      if CarriedBySome(threads, n) {
        var i :| i in threads && Carries(threads[i]) == n;
        assert i in after && Carries(after[i]) == n;
      }
    }
  }

  /** A new thread takes the session over. */
  lemma SessionTaken(session: string, threads: map<nat, Phase>, issued: set<string>, destroyed: set<string>, id: nat, p: Phase)
    requires NamesInv(session, threads, issued, destroyed) && id !in threads && Carries(p) == session
    ensures NamesInv("", threads[id := p], issued, destroyed)
  {
    var after := threads[id := p];
    forall n | n in issued ensures n in destroyed || n == "" || CarriedBySome(after, n) {
      if n == session {
        assert id in after && Carries(after[id]) == n;
      } else if CarriedBySome(threads, n) {
        var i :| i in threads && Carries(threads[i]) == n;
        assert i in after && Carries(after[i]) == n;
      }
    }
  }

  lemma NamesKept(w: World, e: Event)
    requires NamesOf(w) && EmptyInv(w) && Enabled(w, e)
    ensures NamesOf(Next(w, e))
  {
    hide NamesInv, SlotAfter, Look;
    var s, p := w.shared.session, PhaseAfter(w, e);
    if e.Answer? && e.name != "" {
      NameIssued(s, w.threads, w.issued, w.destroyed, e.id, p);
    } else if (e.Settle? && w.threads[e.id].Created? && w.threads[e.id].name != "" && !w.shared.closed)
              || (e.DestroySent? && Carries(w.threads[e.id]) != "") {
      NameLeaves(s, w.threads, w.issued, w.destroyed, e.id, p);
    } else if (e.Drop? && s == e.name) || e.CloseCall? {
      SessionTaken(s, w.threads, w.issued, w.destroyed, e.id, p);
    } else {
      NamesSame(s, w.threads, w.issued, w.destroyed, e.id, p);
    }
  }

  lemma InvKept(w: World, e: Event)
    requires Inv(w) && Enabled(w, e)
    ensures Inv(Next(w, e))
  {
    hide SlotInv, CountInv, IdleInv, EmptyInv, WaitInv, NamesOf, CoolInv, Enabled, Next;
    SlotKept(w, e);
    CountKept(w, e);
    IdleKept(w, e);
    EmptyKept(w, e);
    WaitKept(w, e);
    NamesKept(w, e);
    CoolKept(w, e);
  }

  lemma {:induction false} InvAlways(events: seq<Event>)
    requires Reachable(events)
    ensures Inv(After(events))
    decreases |events|
  {
    hide Inv, Next, Enabled;
    if events == [] {
      StartInv();
    } else {
      InvAlways(events[..|events| - 1]);
      InvKept(After(events[..|events| - 1]), events[|events| - 1]);
    }
  }

  lemma StartInv()
    ensures Inv(START)
  {
    assert Counted(map[]) == {};
  }

  // ---- what every interleaving guarantees ---------------------------------------------------------------

  /** Where one session is. */
  datatype Place = Installed | With(id: nat) | Destroyed

  ghost predicate IsAt(w: World, n: string, place: Place) {
    match place
    case Installed => w.shared.session == n
    case With(id) => id in w.threads && Carries(w.threads[id]) == n
    case Destroyed => n in w.destroyed
  }

  /**
   * Every session the solver ever gave out is in exactly one place: installed, or the
   * business of exactly one create, detached destroy or Close, or already destroyed.
   */
  lemma SessionInOnePlace(events: seq<Event>, n: string) returns (place: Place)
    requires Reachable(events) && n in After(events).issued
    ensures IsAt(After(events), n, place)
    ensures forall other | IsAt(After(events), n, other) :: other == place
  {
    var w := After(events);
    InvAlways(events);
    place := PlaceOf(w, n);
    OnePlace(w, n, place);
  }

  lemma PlaceOf(w: World, n: string) returns (place: Place)
    requires NamesOf(w) && n in w.issued
    ensures IsAt(w, n, place)
  {
    if n in w.destroyed {
      place := Destroyed;
    } else if n == w.shared.session {
      place := Installed;
    } else {
      var id :| id in w.threads && Carries(w.threads[id]) == n;
      place := With(id);
    }
  }

  lemma OnePlace(w: World, n: string, place: Place)
    requires NamesOf(w) && n in w.issued && IsAt(w, n, place)
    ensures forall other | IsAt(w, n, other) :: other == place
  {}

  /** A thread that carries a session is counted, or is a Close about to destroy it. */
  lemma CarriedIsCounted(w: World, id: nat)
    requires id in w.threads && Carries(w.threads[id]) != ""
    ensures Counts(w.threads[id]) || w.threads[id].Closing?
  {}

  /** Installing a session never overwrites one. */
  lemma NothingOverwritten(events: seq<Event>, id: nat, now: int)
    requires Reachable(events) && Enabled(After(events), Settle(id, now))
    ensures After(events).shared.session == ""
  {
    hide Reachable, After, NamesInv, CountInv;
    InvAlways(events);
    assert Making(After(events).threads[id]);
  }

  /** At most one create is under way, whoever asks. */
  lemma OneCreateAtATime(events: seq<Event>, i: nat, j: nat)
    requires Reachable(events) && i in After(events).threads && j in After(events).threads
    requires Making(After(events).threads[i]) && Making(After(events).threads[j])
    ensures i == j
  {
    hide Reachable, After, NamesInv, CountInv;
    InvAlways(events);
  }

  /** After Close nothing begins: the work inflight only ever gets less. */
  lemma {:induction false} NothingBeginsAfterClose(events: seq<Event>, k: nat)
    requires Reachable(events) && k <= |events|
    requires Reachable(events[..k]) && After(events[..k]).shared.closed
    ensures After(events).shared.closed && After(events).shared.session == ""
    ensures Counted(After(events).threads) <= Counted(After(events[..k]).threads)
    decreases |events|
  {
    hide Enabled, Next, Counted, Inv;
    if k == |events| {
      assert events[..k] == events;
      InvAlways(events);
      ClosedIsEmpty(After(events));
    } else {
      var n := |events| - 1;
      assert events[..n][..k] == events[..k];
      NothingBeginsAfterClose(events[..n], k);
      InvAlways(events[..n]);
      ClosedStep(After(events[..n]), events[n]);
    }
  }

  lemma ClosedIsEmpty(w: World)
    requires Inv(w) && w.shared.closed
    ensures w.shared.session == ""
  {}

  lemma ClosedStep(w: World, e: Event)
    requires Inv(w) && Enabled(w, e) && w.shared.closed
    ensures Next(w, e).shared.closed && Next(w, e).shared.session == ""
    ensures Counted(Next(w, e).threads) <= Counted(w.threads)
  {
    hide Next, Enabled, Counted;
    ClosedStays(w, e);
  }

  /**
   * When the wait of some Close ends because all work drained, nothing is inflight
   * and every session ever created has been sent a destroy, or is taken by another
   * Close that is about to send one. It stays so.
   */
  lemma IdleCloseLeavesNoOrphan(events: seq<Event>, id: nat, n: string)
    requires Reachable(events) && id in After(events).threads && After(events).threads[id].ClosedIdle?
    requires n in After(events).issued
    ensures After(events).shared.inflight == 0
    ensures n in After(events).destroyed
            || exists j :: j in After(events).threads && After(events).threads[j].Closing? && After(events).threads[j].name == n
  {
    hide Reachable, After;
    InvAlways(events);
    DrainedHasNoOrphan(After(events), id, n);
  }

  lemma DrainedHasNoOrphan(w: World, id: nat, n: string)
    requires Inv(w) && id in w.threads && w.threads[id].ClosedIdle? && n in w.issued
    ensures w.shared.inflight == 0
    ensures n in w.destroyed || exists j :: j in w.threads && w.threads[j].Closing? && w.threads[j].name == n
  {
    hide Counted, SlotInv, CoolInv;
    assert n != "" && w.shared.session == "";
    if n !in w.destroyed {
      assert CarriedBySome(w.threads, n);
      var j :| j in w.threads && Carries(w.threads[j]) == n;
      if Counts(w.threads[j]) { EndCounted(w, j); }
    }
  }

  /** After a failed create, no caller tries another until the cooldown has passed. */
  lemma CreatesAreSpaced(events: seq<Event>, id: nat, now: int)
    requires Reachable(events) && Enabled(After(events), LookAgain(id, now))
    requires After(events).failedAt.Some?
    requires Next(After(events), LookAgain(id, now)).threads[id].Rechecked?
    ensures now >= After(events).failedAt.value + COOLDOWN
  {
    hide Reachable, After, SlotInv, CountInv, IdleInv, EmptyInv, WaitInv, NamesOf;
    InvAlways(events);
  }
}
