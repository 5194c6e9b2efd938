/**
 * Checks of one topic, any number of them at once, against a row that a reset, a
 * recheck or an edit may change under them at any point.
 *
 * Every write of a check is guarded by the check-state token the worker saw when it
 * took its snapshot. A token is (last checked, next check) at the database's own
 * clock: it moves with every such write and never comes back.
 */
module CheckTick {
  import opened Common

  /** An episode marked downloaded, and the step at which the check that did it took its snapshot. */
  datatype Mark = Mark(packed: string, born: nat)

  datatype Row = Row(token: nat, lastHash: string, hashBorn: nat, marks: seq<Mark>)

  datatype Stage =
    | Dispatched | Draining | Fetched | Verified | Delivered | Announcing | Marking | Recording | Done

  /**
   * One worker's check. `write` is the hash it will record. `failed`: its check, a
   * download, a submission or a mark failed. `stale`: a guard told it so.
   */
  datatype Tick = Tick(
    stage: Stage,
    token: nat,
    last: string,
    born: nat,
    hash: string,
    pending: seq<string>,
    write: string,
    failed: bool,
    stale: bool)

  datatype World = World(row: Row, ticks: map<nat, Tick>, steps: nat, resetAt: nat)

  datatype Fetch = Got | NoMore | FetchError

  datatype Event =
    | Dispatch(id: nat)
    | Reread(id: nat)
    | CheckFails(id: nat)
    | CheckOk(id: nat, hash: string, pending: seq<string>, notifyOnly: bool)
    | Download(id: nat, out: Fetch)
    | Verify(id: nat, readable: bool)
    | Submit(id: nat, ok: bool)
    | MarkOne(id: nat, works: bool, capped: bool)
    | VerifyAnnounce(id: nat, readable: bool)
    | MarkAll(id: nat, works: bool)
    | Record(id: nat, works: bool)
    // The user's reset, and the other writes that move the token: a recheck, a shorter interval.
    | Reset
    | Touch

  predicate Current(w: World, t: Tick) { t.token == w.row.token }

  predicate Owns(e: Event) { !e.Reset? && !e.Touch? }

  predicate Enabled(w: World, e: Event) {
    match e
    case Dispatch(id) => id !in w.ticks
    case Reread(id) => id in w.ticks && w.ticks[id].stage.Dispatched?
    case CheckFails(id) => id in w.ticks && w.ticks[id].stage.Dispatched?
    case CheckOk(id, _, _, _) => id in w.ticks && w.ticks[id].stage.Dispatched?
    case Download(id, _) => id in w.ticks && w.ticks[id].stage.Draining?
    case Verify(id, _) => id in w.ticks && w.ticks[id].stage.Fetched?
    // A submission can fail before the guard is read (no client, a bad config) or at the client.
    case Submit(id, ok) =>
      id in w.ticks && (w.ticks[id].stage.Verified? || (w.ticks[id].stage.Fetched? && !ok))
    case MarkOne(id, _, _) => id in w.ticks && w.ticks[id].stage.Delivered? && w.ticks[id].pending != []
    case VerifyAnnounce(id, _) => id in w.ticks && w.ticks[id].stage.Announcing?
    case MarkAll(id, _) => id in w.ticks && w.ticks[id].stage.Marking?
    case Record(id, _) => id in w.ticks && w.ticks[id].stage.Recording?
    case Reset => true
    case Touch => true
  }

  function Snapshot(w: World): Tick {
    Tick(Dispatched, w.row.token, w.row.lastHash, w.steps, "", [], "", false, false)
  }

  /** A failed download, submission or mark keeps the old hash, so the change is seen again. */
  function Fail(t: Tick): Tick { t.(stage := Recording, write := t.last, failed := true) }

  /** A guard refused: stop, report success, and ask to record the new hash. */
  function Stale(t: Tick): Tick { t.(stage := Recording, write := t.hash, stale := true) }

  function Succeed(t: Tick): Tick { t.(stage := Recording, write := t.hash) }

  function TickAfter(w: World, e: Event): Tick
    requires Enabled(w, e) && Owns(e)
  {
    if e.Dispatch? then Snapshot(w)
    else
      var t := w.ticks[e.id];
      match e
      case Dispatch(_) => Snapshot(w)
      case Reread(_) => Snapshot(w)
      case CheckFails(_) => t.(stage := Recording, write := "", failed := true)
      case CheckOk(_, hash, pending, notifyOnly) =>
        var seen := t.(hash := hash, pending := pending);
        if hash == "" || hash == t.last then Succeed(seen)
        else if notifyOnly then seen.(stage := Announcing)
        else seen.(stage := Draining)
      case Download(_, out) =>
        if out.Got? then t.(stage := Fetched) else if out.NoMore? then Succeed(t) else Fail(t)
      // A read that failed is no evidence the topic moved on: submit anyway.
      case Verify(_, readable) => if readable && !Current(w, t) then Stale(t) else t.(stage := Verified)
      case Submit(_, ok) =>
        if !ok then Fail(t) else if t.pending == [] then Succeed(t) else t.(stage := Delivered)
      case MarkOne(_, works, capped) =>
        if !works then Fail(t)
        else if !Current(w, t) then Stale(t)
        else if |t.pending| <= 1 || capped then Succeed(t.(pending := t.pending[1..]))
        else t.(stage := Draining, pending := t.pending[1..])
      case VerifyAnnounce(_, readable) => if readable && !Current(w, t) then Stale(t) else t.(stage := Marking)
      case MarkAll(_, works) =>
        if t.pending == [] then Succeed(t)
        else if !works then Fail(t)
        else if !Current(w, t) then Stale(t)
        else Succeed(t.(pending := []))
      case Record(_, _) => t.(stage := Done)
  }

  function MarksOf(packed: seq<string>, born: nat): (r: seq<Mark>)
    ensures |r| == |packed| && forall i | 0 <= i < |r| :: r[i] == Mark(packed[i], born)
  {
    seq(|packed|, i requires 0 <= i < |packed| => Mark(packed[i], born))
  }

  function RowAfter(w: World, e: Event): Row
    requires Enabled(w, e)
  {
    match e
    case MarkOne(id, works, _) =>
      var t := w.ticks[id];
      if works && Current(w, t) then w.row.(marks := w.row.marks + [Mark(t.pending[0], t.born)]) else w.row
    case MarkAll(id, works) =>
      var t := w.ticks[id];
      if works && Current(w, t) then w.row.(marks := w.row.marks + MarksOf(t.pending, t.born)) else w.row
    case Record(id, works) =>
      var t := w.ticks[id];
      if !works || !Current(w, t) then w.row
      else if t.write == "" then w.row.(token := w.row.token + 1)
      else Row(w.row.token + 1, t.write, if t.write == w.row.lastHash then w.row.hashBorn else t.born, w.row.marks)
    case Reset => Row(w.row.token + 1, "", 0, [])
    case Touch => w.row.(token := w.row.token + 1)
    case _ => w.row
  }

  function Next(w: World, e: Event): World
    requires Enabled(w, e)
  {
    World(
      RowAfter(w, e),
      if Owns(e) then w.ticks[e.id := TickAfter(w, e)] else w.ticks,
      w.steps + 1,
      if e.Reset? then w.steps + 1 else w.resetAt)
  }

  function Fresh(): World { World(Row(0, "", 0, []), map[], 0, 0) }

  predicate Reachable(events: seq<Event>)
    decreases |events|, 0
  {
    events == [] ||
    (Reachable(events[..|events| - 1]) && Enabled(After(events[..|events| - 1]), events[|events| - 1]))
  }

  function After(events: seq<Event>): World
    requires Reachable(events)
    decreases |events|, 1
  {
    if events == [] then Fresh() else Next(After(events[..|events| - 1]), events[|events| - 1])
  }

  // ---- the invariant --------------------------------------------------------------------

  ghost predicate TickInv(w: World, t: Tick) {
    && t.token <= w.row.token && t.born <= w.steps
    // A snapshot that is still current still is the row, and came after the last reset.
    && (Current(w, t) ==> t.last == w.row.lastHash && t.born >= w.resetAt)
    && (t.failed || t.stale ==> t.stage.Recording? || t.stage.Done?)
    // Once stale, always stale.
    && (t.stale ==> !Current(w, t) && !t.failed && t.write == t.hash)
    // A failed check writes back what it saw, or nothing.
    && (t.failed ==> t.write == t.last || t.write == "")
    && (!t.failed && t.stage.Recording? ==> t.write == t.hash)
  }

  ghost predicate RowInv(w: World) {
    && w.resetAt <= w.steps
    && (w.row.lastHash != "" ==> w.row.hashBorn >= w.resetAt)
    && forall i | 0 <= i < |w.row.marks| :: w.row.marks[i].born >= w.resetAt
  }

  ghost predicate Inv(w: World) { RowInv(w) && forall id | id in w.ticks :: TickInv(w, w.ticks[id]) }

  lemma OthersKept(w: World, e: Event, t: Tick)
    requires Enabled(w, e) && TickInv(w, t)
    requires Owns(e) && !e.Dispatch? ==> TickInv(w, w.ticks[e.id])
    ensures TickInv(Next(w, e), t)
  {
    hide TickAfter, MarksOf;
  }

  lemma OwnKept(w: World, e: Event)
    requires RowInv(w) && Enabled(w, e) && Owns(e)
    requires !e.Dispatch? ==> TickInv(w, w.ticks[e.id])
    ensures TickInv(Next(w, e), TickAfter(w, e))
  {
    hide MarksOf;
  }

  lemma RowKept(w: World, e: Event)
    requires RowInv(w) && Enabled(w, e)
    requires Owns(e) && !e.Dispatch? ==> TickInv(w, w.ticks[e.id])
    ensures RowInv(Next(w, e))
  {
    hide TickAfter;
  }

  lemma InvKept(w: World, e: Event)
    requires Inv(w) && Enabled(w, e)
    ensures Inv(Next(w, e))
  {
    hide RowInv, TickInv, TickAfter, RowAfter;
    RowKept(w, e);
    if Owns(e) { OwnKept(w, e); }
    forall id | id in Next(w, e).ticks ensures TickInv(Next(w, e), Next(w, e).ticks[id]) {
      if !(Owns(e) && id == e.id) { OthersKept(w, e, w.ticks[id]); }
    }
  }

  lemma {:induction false} InvAlways(events: seq<Event>)
    requires Reachable(events)
    ensures Inv(After(events))
    decreases |events|
  {
    hide Inv, Next, Enabled;
    if events == [] {
      assert Inv(Fresh()) by { FreshInv(); }
    } else {
      InvAlways(events[..|events| - 1]);
      InvKept(After(events[..|events| - 1]), events[|events| - 1]);
    }
  }

  lemma FreshInv()
    ensures Inv(Fresh())
  {}

  // ---- what every interleaving guarantees -----------------------------------------------------

  /**
   * The stored hash moves only by a reset, or by a check whose token is still current
   * and in which nothing failed; then it becomes the hash that check saw.
   */
  lemma HashMovesOnlyWhenClean(events: seq<Event>, e: Event)
    requires Reachable(events) && Enabled(After(events), e)
    requires Next(After(events), e).row.lastHash != After(events).row.lastHash
    ensures e.Reset? ||
            (&& e.Record? && Current(After(events), After(events).ticks[e.id])
             && !After(events).ticks[e.id].failed && !After(events).ticks[e.id].stale
             && Next(After(events), e).row.lastHash == After(events).ticks[e.id].hash)
  {
    hide Reachable, After, TickAfter, RowInv;
    InvAlways(events);
    if e.Record? { assert TickInv(After(events), After(events).ticks[e.id]); }
  }

  /** A drain a guard aborted asks to record the new hash, and that write is always discarded. */
  lemma StaleWriteIsDiscarded(events: seq<Event>, id: nat, works: bool)
    requires Reachable(events) && Enabled(After(events), Record(id, works)) && After(events).ticks[id].stale
    ensures !After(events).ticks[id].failed && After(events).ticks[id].write == After(events).ticks[id].hash
    ensures Next(After(events), Record(id, works)).row == After(events).row
  {
    hide Reachable, After, TickAfter, RowInv;
    InvAlways(events);
    assert TickInv(After(events), After(events).ticks[id]);
  }

  /**
   * A check that began before a reset never undoes it: the hash and every episode mark
   * in the row come from checks that took their snapshot after the reset.
   */
  lemma ResetIsNotUndone(events: seq<Event>, k: nat)
    requires Reachable(events) && k < |events| && events[k].Reset?
    ensures After(events).row.lastHash != "" ==> After(events).row.hashBorn > k
    ensures forall i | 0 <= i < |After(events).row.marks| :: After(events).row.marks[i].born > k
  {
    hide Next, Enabled, TickInv;
    InvAlways(events);
    ResetSeen(events, k);
  }

  lemma {:induction false} ResetSeen(events: seq<Event>, k: nat)
    requires Reachable(events) && k < |events| && events[k].Reset?
    ensures After(events).resetAt > k
    decreases |events|
  {
    hide RowAfter, TickAfter;
    StepsCounted(events[..|events| - 1]);
    if k < |events| - 1 { ResetSeen(events[..|events| - 1], k); }
  }

  lemma {:induction false} StepsCounted(events: seq<Event>)
    requires Reachable(events)
    ensures After(events).steps == |events|
    decreases |events|
  {
    hide RowAfter, TickAfter, Enabled;
    if events != [] { StepsCounted(events[..|events| - 1]); }
  }

  /**
   * A payload handed over behind a guard that could be read comes from a check that
   * began after the last reset there had been at that read.
   */
  lemma GuardedSubmitIsFresh(events: seq<Event>, id: nat)
    requires Reachable(events) && Enabled(After(events), Verify(id, true))
    requires Next(After(events), Verify(id, true)).ticks[id].stage.Verified?
    ensures After(events).ticks[id].born >= After(events).resetAt
    ensures After(events).ticks[id].last == After(events).row.lastHash
  {
    hide Reachable, After, RowInv;
    InvAlways(events);
    assert TickInv(After(events), After(events).ticks[id]);
  }
}
