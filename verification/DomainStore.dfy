/**
 * The cache of domain configurations and the rows it is persisted to, under any
 * number of Set and ReportFailure calls interleaved at every point where one of the
 * two locks or the database lets another one run.
 *
 * Each written value is known by the step that decided it.
 */
module DomainStore {
  import opened Common
  import opened DomainRing

  /** Decided by the boot load, by the Upsert of a Set, or by a rotation, at that step. */
  datatype Source = Loaded | SetAt(step: nat) | RotatedAt(step: nat)

  datatype Cell = Cell(cfg: Config, from: Source)

  const NOTHING := Cell(NO_CONFIG, Loaded)

  datatype Phase =
    | SetWaiting(tracker: string, cfg: Config)
    | SetHolding(tracker: string, cfg: Config)
    | SetUpserted(tracker: string, cell: Cell)
    | Rotated(tracker: string)
    | RotatedHolding(tracker: string)
    | RotatedRead(tracker: string, seen: Cell)
    | Releasing
    | Done

  datatype World = World(
    cache: map<string, Cell>,
    rows: map<string, Cell>,
    persist: Option<nat>,
    calls: map<nat, Phase>,
    /** What the last write of a tracker's row was to store, a rotation's also when it failed. */
    tried: map<string, Cell>,
    /** The step at which a Set last wrote the cache. */
    lastSet: map<string, nat>,
    steps: nat)

  datatype Event =
    | SetCall(id: nat, tracker: string, cfg: Config)
    | Rotate(id: nat, tracker: string, to: string)
    | TakePersist(id: nat)
    | SetUpsert(id: nat, ok: bool)
    | SetCache(id: nat)
    | ReadCache(id: nat)
    | RotationUpsert(id: nat, ok: bool)
    | Release(id: nat)

  function Get(m: map<string, Cell>, t: string): Cell { if t in m then m[t] else NOTHING }

  /** At boot: every row taken over, except that a row's removed mirror is dropped. */
  predicate Boots(w: World) {
    && w.persist.None? && w.calls == map[] && w.lastSet == map[] && w.steps == 0
    && (forall t | t in w.cache :: w.cache[t].from.Loaded?)
    && (forall t | t in w.rows :: w.rows[t].from.Loaded?)
    && w.cache.Keys == w.rows.Keys && w.tried == w.cache
    && forall t | t in w.rows :: w.cache[t] == w.rows[t] || w.cache[t].cfg == w.rows[t].cfg.(active := "")
  }

  predicate Enabled(w: World, e: Event) {
    match e
    case SetCall(id, _, _) => id !in w.calls
    case Rotate(id, _, _) => id !in w.calls
    case TakePersist(id) => id in w.calls && (w.calls[id].SetWaiting? || w.calls[id].Rotated?) && w.persist.None?
    case SetUpsert(id, _) => id in w.calls && w.calls[id].SetHolding?
    case SetCache(id) => id in w.calls && w.calls[id].SetUpserted?
    case ReadCache(id) => id in w.calls && w.calls[id].RotatedHolding?
    case RotationUpsert(id, _) => id in w.calls && w.calls[id].RotatedRead?
    case Release(id) => id in w.calls && w.calls[id].Releasing?
  }

  function PhaseAfter(w: World, e: Event): Phase
    requires Enabled(w, e)
  {
    match e
    case SetCall(_, t, cfg) => SetWaiting(t, cfg)
    case Rotate(_, t, _) => Rotated(t)
    case TakePersist(id) =>
      if w.calls[id].SetWaiting? then SetHolding(w.calls[id].tracker, w.calls[id].cfg)
      else RotatedHolding(w.calls[id].tracker)
    case SetUpsert(id, ok) =>
      if ok then SetUpserted(w.calls[id].tracker, Cell(w.calls[id].cfg, SetAt(w.steps))) else Releasing
    case SetCache(_) => Releasing
    case ReadCache(id) => RotatedRead(w.calls[id].tracker, Get(w.cache, w.calls[id].tracker))
    case RotationUpsert(_, _) => Releasing
    case Release(_) => Done
  }

  function CacheAfter(w: World, e: Event): map<string, Cell>
    requires Enabled(w, e)
  {
    match e
    case Rotate(_, t, to) => w.cache[t := Cell(Get(w.cache, t).cfg.(active := to), RotatedAt(w.steps))]
    case SetCache(id) => w.cache[w.calls[id].tracker := w.calls[id].cell]
    case _ => w.cache
  }

  function RowsAfter(w: World, e: Event): map<string, Cell>
    requires Enabled(w, e)
  {
    match e
    case SetUpsert(id, ok) =>
      if ok then w.rows[w.calls[id].tracker := Cell(w.calls[id].cfg, SetAt(w.steps))] else w.rows
    case RotationUpsert(id, ok) => if ok then w.rows[w.calls[id].tracker := w.calls[id].seen] else w.rows
    case _ => w.rows
  }

  /** The step writes the row of t, or would have: a Set that fails changes nothing, a rotation is cached already. */
  predicate Writes(w: World, e: Event, t: string)
    requires Enabled(w, e)
  {
    ((e.SetUpsert? && e.ok) || e.RotationUpsert?) && w.calls[e.id].tracker == t
  }

  /** What it is to store there. */
  function ToStore(w: World, e: Event): Cell
    requires Enabled(w, e) && (e.SetUpsert? || e.RotationUpsert?)
  {
    if e.SetUpsert? then Cell(w.calls[e.id].cfg, SetAt(w.steps)) else w.calls[e.id].seen
  }

  function TriedAfter(w: World, e: Event): map<string, Cell>
    requires Enabled(w, e)
  {
    if (e.SetUpsert? && e.ok) || e.RotationUpsert? then w.tried[w.calls[e.id].tracker := ToStore(w, e)] else w.tried
  }

  function Next(w: World, e: Event): World
    requires Enabled(w, e)
  {
    World(
      CacheAfter(w, e),
      RowsAfter(w, e),
      if e.TakePersist? then Some(e.id) else if e.Release? then None else w.persist,
      w.calls[e.id := PhaseAfter(w, e)],
      TriedAfter(w, e),
      if e.SetCache? then w.lastSet[w.calls[e.id].tracker := w.steps] else w.lastSet,
      w.steps + 1)
  }

  predicate Reachable(boot: World, events: seq<Event>)
    decreases |events|, 0
  {
    Boots(boot) &&
    (events == [] ||
     (Reachable(boot, events[..|events| - 1]) && Enabled(After(boot, events[..|events| - 1]), events[|events| - 1])))
  }

  function After(boot: World, events: seq<Event>): World
    requires Reachable(boot, events)
    decreases |events|, 1
  {
    if events == [] then boot else Next(After(boot, events[..|events| - 1]), events[|events| - 1])
  }

  // ---- the invariant ---------------------------------------------------------------------

  predicate HoldsPersist(p: Phase) {
    p.SetHolding? || p.SetUpserted? || p.RotatedHolding? || p.RotatedRead? || p.Releasing?
  }

  ghost predicate LockInv(w: World) {
    && (w.persist.Some? ==> w.persist.value in w.calls)
    && forall id | id in w.calls :: HoldsPersist(w.calls[id]) <==> w.persist == Some(id)
  }

  /** The call will still try to store what the cache of t holds by then. */
  predicate WillTry(w: World, p: Phase, t: string) {
    || (p.Rotated? && p.tracker == t)
    || (p.RotatedHolding? && p.tracker == t)
    || (p.RotatedRead? && p.tracker == t && p.seen == Get(w.cache, t))
    || (p.SetUpserted? && p.tracker == t && p.cell == Get(w.tried, t))
  }

  ghost predicate TriedOrPending(w: World, t: string) {
    || Get(w.tried, t) == Get(w.cache, t)
    || exists id :: id in w.calls && WillTry(w, w.calls[id], t)
  }

  ghost predicate TryInv(w: World) { forall t :: TriedOrPending(w, t) }

  ghost predicate RotationWaits(w: World, t: string) {
    exists id :: id in w.calls && w.calls[id] == Rotated(t)
  }

  /** What a rotation read is still cached, or another rotation of the tracker is yet to persist. */
  ghost predicate ReadInv(w: World) {
    forall id | id in w.calls && w.calls[id].RotatedRead? ::
      w.calls[id].seen == Get(w.cache, w.calls[id].tracker) || RotationWaits(w, w.calls[id].tracker)
  }

  /** Nobody has written a row since the Set that still has to cache it. */
  ghost predicate UpsertedInv(w: World) {
    forall id | id in w.calls && w.calls[id].SetUpserted? :: Get(w.tried, w.calls[id].tracker) == w.calls[id].cell
  }

  /** A value that was rotated in is newer than the last Set of its tracker. */
  predicate NewerThanSet(w: World, t: string, c: Cell) {
    c.from.RotatedAt? && t in w.lastSet ==> c.from.step > w.lastSet[t]
  }

  ghost predicate OrderInv(w: World) {
    && (forall t :: NewerThanSet(w, t, Get(w.cache, t)))
    && (forall id | id in w.calls && w.calls[id].RotatedRead? :: NewerThanSet(w, w.calls[id].tracker, w.calls[id].seen))
    && (forall id | id in w.calls && w.calls[id].SetUpserted? :: w.calls[id].cell.from.SetAt?)
    && (forall t | t in w.lastSet :: w.lastSet[t] < w.steps)
  }

  lemma LockKept(w: World, e: Event)
    requires LockInv(w) && Enabled(w, e)
    ensures LockInv(Next(w, e))
  {
    hide CacheAfter, RowsAfter, TriedAfter;
  }

  lemma OnlyHolder(w: World, id: nat)
    requires LockInv(w) && id in w.calls && HoldsPersist(w.calls[id])
    ensures forall j | j in w.calls && HoldsPersist(w.calls[j]) :: j == id
  {}

  lemma UpsertedKept(w: World, e: Event)
    requires UpsertedInv(w) && LockInv(w) && Enabled(w, e)
    ensures UpsertedInv(Next(w, e))
  {
    hide CacheAfter, RowsAfter, LockInv;
    if !e.SetCall? && !e.Rotate? && !e.TakePersist? { OnlyHolder(w, e.id); }
  }

  lemma ReadKept(w: World, e: Event)
    requires ReadInv(w) && LockInv(w) && Enabled(w, e)
    ensures ReadInv(Next(w, e))
  {
    hide RowsAfter, TriedAfter, RotationWaits;
    var v := Next(w, e);
    forall id | id in v.calls && v.calls[id].RotatedRead?
      ensures v.calls[id].seen == Get(v.cache, v.calls[id].tracker) || RotationWaits(v, v.calls[id].tracker)
    {
      if id != e.id {
        assert HoldsPersist(w.calls[id]);
        if !e.SetCall? && !e.Rotate? && !e.TakePersist? { OnlyHolder(w, id); }
        WaitsStay(w, e, w.calls[id].tracker);
      }
    }
  }

  /** While the lock is held, a waiting rotation waits on; a new one starts to wait. */
  lemma WaitsStay(w: World, e: Event, t: string)
    requires Enabled(w, e) && (e.TakePersist? ==> w.persist.None?)
    ensures RotationWaits(w, t) && !e.TakePersist? ==> RotationWaits(Next(w, e), t)
    ensures e.Rotate? && e.tracker == t ==> RotationWaits(Next(w, e), t)
  {
    hide CacheAfter, RowsAfter, TriedAfter;
    var v := Next(w, e);
    if RotationWaits(w, t) && !e.TakePersist? {
      var id :| id in w.calls && w.calls[id] == Rotated(t);
      assert id in v.calls && v.calls[id] == Rotated(t);
    }
    if e.Rotate? && e.tracker == t { assert e.id in v.calls && v.calls[e.id] == Rotated(t); }
  }

  lemma OrderKept(w: World, e: Event)
    requires OrderInv(w) && LockInv(w) && Enabled(w, e)
    ensures OrderInv(Next(w, e))
  {
    hide RowsAfter, TriedAfter, LockInv, NewerThanSet, HoldsPersist;
    var v := Next(w, e);
    forall t ensures NewerThanSet(v, t, Get(v.cache, t)) { CacheOrder(w, e, t); }
    forall id | id in v.calls && v.calls[id].RotatedRead?
      ensures NewerThanSet(v, v.calls[id].tracker, v.calls[id].seen)
    {
      ReadOrder(w, e, id);
    }
  }

  lemma CacheOrder(w: World, e: Event, t: string)
    requires OrderInv(w) && Enabled(w, e)
    ensures NewerThanSet(Next(w, e), t, Get(Next(w, e).cache, t))
  {
    hide RowsAfter, TriedAfter;
    assert NewerThanSet(w, t, Get(w.cache, t));
  }

  lemma ReadOrder(w: World, e: Event, id: nat)
    requires OrderInv(w) && LockInv(w) && Enabled(w, e)
    requires id in Next(w, e).calls && Next(w, e).calls[id].RotatedRead?
    ensures NewerThanSet(Next(w, e), Next(w, e).calls[id].tracker, Next(w, e).calls[id].seen)
  {
    hide RowsAfter, TriedAfter;
    if id != e.id {
      OnlyHolder(w, id);
      assert NewerThanSet(w, w.calls[id].tracker, w.calls[id].seen);
    } else {
      assert NewerThanSet(w, w.calls[id].tracker, Get(w.cache, w.calls[id].tracker));
    }
  }

  /** Other trackers, and other calls, are as they were. */
  lemma PendingStays(w: World, e: Event, t: string, id: nat)
    requires Enabled(w, e) && id in w.calls && id != e.id && WillTry(w, w.calls[id], t)
    requires LockInv(w) && UpsertedInv(w)
    ensures TriedOrPending(Next(w, e), t)
  {
    hide LockInv, UpsertedInv, RowsAfter;
    var v := Next(w, e);
    assert v.calls[id] == w.calls[id];
    if !e.SetCall? && !e.Rotate? && !e.TakePersist? { OnlyHolder(w, e.id); }
    if e.Rotate? && e.tracker == t {
      assert WillTry(v, v.calls[e.id], t);
    } else {
      assert WillTry(v, v.calls[id], t);
    }
  }

  lemma TryKept(w: World, e: Event, t: string)
    requires LockInv(w) && UpsertedInv(w) && ReadInv(w) && Enabled(w, e) && TriedOrPending(w, t)
    ensures TriedOrPending(Next(w, e), t)
  {
    hide LockInv, UpsertedInv, ReadInv, Next, WillTry;
    if id :| id in w.calls && id != e.id && WillTry(w, w.calls[id], t) {
      PendingStays(w, e, t, id);
    } else if e.RotationUpsert? && w.calls[e.id].tracker == t {
      RotationTries(w, e, t);
    } else {
      StepTries(w, e, t);
    }
  }

  /** A rotation tries to store what is cached, or leaves it to the rotation that came since. */
  lemma RotationTries(w: World, e: Event, t: string)
    requires ReadInv(w) && Enabled(w, e) && e.RotationUpsert? && w.calls[e.id].tracker == t
    ensures TriedOrPending(Next(w, e), t)
  {
    hide RowsAfter;
    var v := Next(w, e);
    if w.calls[e.id].seen != Get(w.cache, t) {
      assert RotationWaits(w, t);
      var id :| id in w.calls && w.calls[id] == Rotated(t);
      assert id in v.calls && WillTry(v, v.calls[id], t);
    }
  }

  /** With no other call pending for t, the step itself keeps the promise. */
  lemma StepTries(w: World, e: Event, t: string)
    requires UpsertedInv(w) && Enabled(w, e) && !(e.RotationUpsert? && w.calls[e.id].tracker == t)
    requires Get(w.tried, t) == Get(w.cache, t) || (e.id in w.calls && WillTry(w, w.calls[e.id], t))
    ensures TriedOrPending(Next(w, e), t)
  {
    hide RowsAfter;
    var v := Next(w, e);
    assert e.id in v.calls;
    if Get(v.tried, t) != Get(v.cache, t) {
      assert WillTry(v, v.calls[e.id], t);
    }
  }

  ghost predicate Inv(w: World) { LockInv(w) && UpsertedInv(w) && ReadInv(w) && OrderInv(w) && TryInv(w) }

  lemma InvKept(w: World, e: Event)
    requires Inv(w) && Enabled(w, e)
    ensures Inv(Next(w, e))
  {
    hide LockInv, UpsertedInv, ReadInv, OrderInv, TriedOrPending, Next, Enabled;
    LockKept(w, e);
    UpsertedKept(w, e);
    ReadKept(w, e);
    OrderKept(w, e);
    forall t ensures TriedOrPending(Next(w, e), t) { TryKept(w, e, t); }
  }

  lemma {:induction false} InvAlways(boot: World, events: seq<Event>)
    requires Reachable(boot, events)
    ensures Inv(After(boot, events))
    decreases |events|
  {
    hide Inv, Next, Enabled, Boots;
    if events == [] {
      BootInv(boot);
    } else {
      InvAlways(boot, events[..|events| - 1]);
      InvKept(After(boot, events[..|events| - 1]), events[|events| - 1]);
    }
  }

  lemma BootInv(w: World)
    requires Boots(w)
    ensures Inv(w)
  {
  }

  // ---- what every interleaving guarantees ------------------------------------------------------

  ghost predicate Quiet(w: World) { forall id | id in w.calls :: w.calls[id].Done? }

  /** Whenever no call is in flight, the cache holds what the last write was to store, whether or not writes fail. */
  lemma QuietMeansTried(boot: World, events: seq<Event>, t: string)
    requires Reachable(boot, events) && Quiet(After(boot, events))
    ensures Get(After(boot, events).tried, t) == Get(After(boot, events).cache, t)
  {
    hide Reachable, After, LockInv, UpsertedInv, ReadInv, OrderInv;
    InvAlways(boot, events);
    assert TriedOrPending(After(boot, events), t);
  }

  /** The last step of the run that writes the row of t, or would have. */
  function LastWrite(boot: World, events: seq<Event>, t: string): (k: Option<nat>)
    requires Reachable(boot, events)
    ensures k.Some? ==> k.value < |events|
    decreases |events|
  {
    if events == [] then None
    else
      var n := |events| - 1;
      if Writes(After(boot, events[..n]), events[n], t) then Some(n) else LastWrite(boot, events[..n], t)
  }

  lemma {:induction false} ReachablePrefix(boot: World, events: seq<Event>, k: nat)
    requires Reachable(boot, events) && k <= |events|
    ensures Reachable(boot, events[..k])
    ensures k < |events| ==> Enabled(After(boot, events[..k]), events[k])
    decreases |events|
  {
    hide Enabled, After, Boots;
    var n := |events| - 1;
    if k == |events| {
      assert events[..k] == events;
    } else if k < n {
      ReachablePrefix(boot, events[..n], k);
      assert events[..n][..k] == events[..k];
    }
  }

  /** The step at k succeeded in writing the row. */
  predicate Landed(e: Event) { (e.SetUpsert? || e.RotationUpsert?) && e.ok }

  /** It is the last step that counts: before it the row is as it was, and it stores what it tried, or nothing. */
  lemma {:induction false} LastWriteDecides(boot: World, events: seq<Event>, t: string)
    requires Reachable(boot, events)
    ensures var w, k := After(boot, events), LastWrite(boot, events, t);
      match k
      case None => Get(w.rows, t) == Get(boot.rows, t) && Get(w.tried, t) == Get(boot.tried, t)
      case Some(k) =>
        && Reachable(boot, events[..k]) && Enabled(After(boot, events[..k]), events[k])
        && Writes(After(boot, events[..k]), events[k], t)
        && Get(w.tried, t) == ToStore(After(boot, events[..k]), events[k])
        && Get(w.rows, t) == if Landed(events[k]) then Get(w.tried, t) else Get(After(boot, events[..k]).rows, t)
    decreases |events|
  {
    hide Next, Boots, Enabled, Writes;
    if events != [] {
      var n := |events| - 1;
      var w, e := After(boot, events[..n]), events[n];
      LastWriteDecides(boot, events[..n], t);
      StepWrites(w, e, t);
      var k := LastWrite(boot, events[..n], t);
      if k.Some? { assert events[..n][..k.value] == events[..k.value] && events[..n][k.value] == events[k.value]; }
    }
  }

  lemma StepWrites(w: World, e: Event, t: string)
    requires Enabled(w, e)
    ensures var v := Next(w, e);
      if Writes(w, e, t) then
        Get(v.tried, t) == ToStore(w, e) && Get(v.rows, t) == if Landed(e) then ToStore(w, e) else Get(w.rows, t)
      else
        Get(v.tried, t) == Get(w.tried, t) && Get(v.rows, t) == Get(w.rows, t)
  {
    hide CacheAfter, PhaseAfter;
  }

  /**
   * Whenever no call is in flight, the row of a tracker is the configuration in use if
   * and only if the last write of it succeeded, or was a rotation's that would have
   * stored what the row held; or, never written, if its mirror was not dropped at boot.
   */
  lemma QuietMeansSaved(boot: World, events: seq<Event>, t: string)
    requires Reachable(boot, events) && Quiet(After(boot, events))
    ensures var w := After(boot, events);
      Get(w.rows, t).cfg == Get(w.cache, t).cfg <==>
        match LastWrite(boot, events, t)
        case None => Get(boot.rows, t).cfg == Get(boot.cache, t).cfg
        case Some(k) => Landed(events[k]) || HeldAlready(boot, events, k, t)
  {
    hide Next, After, Enabled, Quiet, Writes;
    QuietMeansTried(boot, events, t);
    LastWriteDecides(boot, events, t);
    BootTried(boot, events);
  }

  lemma BootTried(boot: World, events: seq<Event>)
    requires Reachable(boot, events)
    ensures boot.tried == boot.cache
  {}

  /** Step k was to store in the row of t what the row held. */
  predicate HeldAlready(boot: World, events: seq<Event>, k: nat, t: string)
    requires Reachable(boot, events) && k < |events|
  {
    ReachablePrefix(boot, events, k);
    var w := After(boot, events[..k]);
    Writes(w, events[k], t) && Get(w.rows, t).cfg == ToStore(w, events[k]).cfg
  }

  /** So with every Upsert of a rotation done and no mirror dropped at boot, every row is the cache. */
  lemma NothingUnsaved(boot: World, events: seq<Event>, t: string)
    requires Reachable(boot, events) && Quiet(After(boot, events)) && boot.rows == boot.cache
    requires forall k | 0 <= k < |events| && events[k].RotationUpsert? :: events[k].ok
    ensures Get(After(boot, events).rows, t) == Get(After(boot, events).cache, t)
  {
    hide Next, After, Enabled, Quiet;
    QuietMeansTried(boot, events, t);
    LastWriteDecides(boot, events, t);
    BootTried(boot, events);
  }

  /** One tracker on one domain, saved. */
  function OneTracker(t: string, a: string): World {
    var cells := map[t := Cell(Config(a, []), Loaded)];
    World(cells, cells, None, map[], cells, map[], 0)
  }

  /**
   * One failed Upsert is enough: no call is left, the cache has rotated and the row holds
   * the old domain, which differs unless the ring lists the new one twice.
   */
  lemma FailedUpsertIsLost(t: string, a: string, b: string)
    ensures var events := [Rotate(0, t, b), TakePersist(0), ReadCache(0), RotationUpsert(0, false), Release(0)];
      && Reachable(OneTracker(t, a), events) && Quiet(After(OneTracker(t, a), events))
      && Get(After(OneTracker(t, a), events).rows, t) == Cell(Config(a, []), Loaded)
      && Get(After(OneTracker(t, a), events).cache, t).cfg == Config(b, [])
  {
    hide Next, Enabled, Boots, Reachable, After;
    var boot, cell := OneTracker(t, a), Cell(Config(b, []), RotatedAt(0));
    var w1 := boot.(cache := map[t := cell], calls := map[0 := Rotated(t)], steps := 1);
    var w2 := w1.(persist := Some(0), calls := map[0 := RotatedHolding(t)], steps := 2);
    var w3 := w2.(calls := map[0 := RotatedRead(t, cell)], steps := 3);
    var w4 := w3.(calls := map[0 := Releasing], tried := map[t := cell], steps := 4);
    var w5 := w4.(persist := None, calls := map[0 := Done], steps := 5);
    FiveSteps(t, a, b, w1, w2, w3, w4, w5);
    RunNone(boot);
    var e1, e2, e3, e4, e5 := Rotate(0, t, b), TakePersist(0), ReadCache(0), RotationUpsert(0, false), Release(0);
    RunOne(boot, [], [e1], e1, boot);
    RunOne(boot, [e1], [e1, e2], e2, w1);
    RunOne(boot, [e1, e2], [e1, e2, e3], e3, w2);
    RunOne(boot, [e1, e2, e3], [e1, e2, e3, e4], e4, w3);
    RunOne(boot, [e1, e2, e3, e4], [e1, e2, e3, e4, e5], e5, w4);
  }

  lemma FiveSteps(t: string, a: string, b: string, w1: World, w2: World, w3: World, w4: World, w5: World)
    requires w1 == OneTracker(t, a).(cache := map[t := Cell(Config(b, []), RotatedAt(0))], calls := map[0 := Rotated(t)], steps := 1)
    requires w2 == w1.(persist := Some(0), calls := map[0 := RotatedHolding(t)], steps := 2)
    requires w3 == w2.(calls := map[0 := RotatedRead(t, Cell(Config(b, []), RotatedAt(0)))], steps := 3)
    requires w4 == w3.(calls := map[0 := Releasing], tried := map[t := Cell(Config(b, []), RotatedAt(0))], steps := 4)
    requires w5 == w4.(persist := None, calls := map[0 := Done], steps := 5)
    ensures Boots(OneTracker(t, a))
    ensures Enabled(OneTracker(t, a), Rotate(0, t, b)) && Next(OneTracker(t, a), Rotate(0, t, b)) == w1
    ensures Enabled(w1, TakePersist(0)) && Next(w1, TakePersist(0)) == w2
    ensures Enabled(w2, ReadCache(0)) && Next(w2, ReadCache(0)) == w3
    ensures Enabled(w3, RotationUpsert(0, false)) && Next(w3, RotationUpsert(0, false)) == w4
    ensures Enabled(w4, Release(0)) && Next(w4, Release(0)) == w5
  {}

  lemma RunNone(boot: World)
    requires Boots(boot)
    ensures Reachable(boot, []) && After(boot, []) == boot
  {}

  lemma RunOne(boot: World, events: seq<Event>, longer: seq<Event>, e: Event, w: World)
    requires Reachable(boot, events) && After(boot, events) == w && Enabled(w, e) && longer == events + [e]
    ensures Reachable(boot, longer) && After(boot, longer) == Next(w, e)
  {
    hide Boots, Enabled, Next;
    assert longer[..|longer| - 1] == events;
  }

  /**
   * A rotation cached before a Set wrote the cache never reaches the row after it:
   * what a rotation persists was decided by that Set, or later.
   */
  lemma OldRotationNeverPersists(boot: World, events: seq<Event>, id: nat)
    requires Reachable(boot, events) && Enabled(After(boot, events), RotationUpsert(id, true))
    ensures var w := After(boot, events);
      var t := w.calls[id].tracker;
      var written := Next(w, RotationUpsert(id, true)).rows[t];
      t in w.lastSet && written.from.RotatedAt? ==> written.from.step > w.lastSet[t]
  {
    hide Reachable, After, LockInv, UpsertedInv, ReadInv, TryInv, TriedAfter, CacheAfter;
    InvAlways(boot, events);
  }
}
