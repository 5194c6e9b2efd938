/**
 * What a check does, told by the events of a run alone: which of its steps may come
 * after which, what its final write leaves in the row, and what it has done by then.
 */
module CheckTrace {
  import opened Common
  import opened CheckTick

  /** The state before step k of the run. */
  function At(events: seq<Event>, k: nat): World
    requires Reachable(events) && k <= |events|
  {
    ReachablePrefix(events, k);
    After(events[..k])
  }

  lemma {:induction false} ReachablePrefix(events: seq<Event>, k: nat)
    requires Reachable(events) && k <= |events|
    ensures Reachable(events[..k])
    decreases |events|
  {
    hide Enabled, After;
    var n := |events| - 1;
    if k == |events| {
      assert events[..k] == events;
    } else if k < n {
      ReachablePrefix(events[..n], k);
      assert events[..n][..k] == events[..k];
    }
  }

  // ---- what came last ------------------------------------------------------------------------

  predicate IsOf(e: Event, id: nat) { Owns(e) && e.id == id }

  /** The step of the worker's last snapshot of the row. */
  function LastSnapshot(events: seq<Event>, id: nat): (k: Option<nat>)
    ensures k.Some? ==> k.value < |events|
  {
    if events == [] then None
    else
      var n := |events| - 1;
      if events[n] == Dispatch(id) || events[n] == Reread(id) then Some(n) else LastSnapshot(events[..n], id)
  }

  /** The step of its last successful check. */
  function LastCheck(events: seq<Event>, id: nat): (k: Option<nat>)
    ensures k.Some? ==> k.value < |events| && events[k.value].CheckOk? && events[k.value].id == id
  {
    if events == [] then None
    else
      var n := |events| - 1;
      if events[n].CheckOk? && events[n].id == id then Some(n) else LastCheck(events[..n], id)
  }

  /** Its last step of any kind. */
  function LastStep(events: seq<Event>, id: nat): (k: Option<nat>)
    ensures k.Some? ==> k.value < |events| && IsOf(events[k.value], id)
  {
    if events == [] then None
    else
      var n := |events| - 1;
      if IsOf(events[n], id) then Some(n) else LastStep(events[..n], id)
  }

  /** No write moved the token between the worker's last snapshot and step k. */
  predicate Undisturbed(events: seq<Event>, id: nat, k: nat)
    requires Reachable(events) && k <= |events|
  {
    var s := LastSnapshot(events[..k], id);
    s.Some? && At(events, s.value).row.token == At(events, k).row.token
  }

  /** How many of its pending episodes it has marked since its last check. */
  function Marked(events: seq<Event>, id: nat): nat
    requires Reachable(events)
  {
    if events == [] then 0
    else
      var n := |events| - 1;
      if events[n].CheckOk? && events[n].id == id then 0
      else Marked(events[..n], id) + if MarksOne(events, id, n) then 1 else 0
  }

  /** Step k marks one episode for the worker, and the mark lands. */
  predicate MarksOne(events: seq<Event>, id: nat, k: nat)
    requires Reachable(events) && k < |events|
  {
    events[k].MarkOne? && events[k].id == id && events[k].works && Undisturbed(events, id, k)
  }

  /**
   * A check as the run tells it: the row at the worker's last snapshot, its last
   * successful check, the episodes marked since, its last step, and whether no write
   * had moved the token when it made that step.
   */
  datatype Reading = Reading(snapshot: nat, token: nat, lastHash: string, check: Option<Event>, marked: nat, last: Event, inTime: bool)

  function ReadingOf(events: seq<Event>, id: nat): Option<Reading>
    requires Reachable(events)
  {
    var s, c, k := LastSnapshot(events, id), LastCheck(events, id), LastStep(events, id);
    if s.None? || k.None? then None
    else
      Some(Reading(s.value, At(events, s.value).row.token, At(events, s.value).row.lastHash,
                   if c.Some? then Some(events[c.value]) else None,
                   Marked(events, id), events[k.value], Undisturbed(events, id, k.value)))
  }

  /** The last check found a hash, and not the one in the row at the snapshot. */
  predicate Changed(r: Reading) {
    r.check.Some? && r.check.value.CheckOk? && r.check.value.hash != "" && r.check.value.hash != r.lastHash
  }

  /** Episodes of the last check that are not marked yet. */
  function Left(r: Reading): seq<string> {
    if r.check.Some? && r.check.value.CheckOk? && r.marked <= |r.check.value.pending| then r.check.value.pending[r.marked..] else []
  }

  /** Whether the check may make step e next, by the last step it made. */
  predicate MayFollow(r: Reading, e: Event) {
    match r.last
    case Dispatch(_) => e.Reread? || e.CheckFails? || e.CheckOk?
    case Reread(_) => e.Reread? || e.CheckFails? || e.CheckOk?
    case CheckFails(_) => e.Record?
    case CheckOk(_, _, _, notifyOnly) =>
      if !Changed(r) then e.Record? else if notifyOnly then e.VerifyAnnounce? else e.Download?
    case Download(_, out) => if out.Got? then e.Verify? || (e.Submit? && !e.ok) else e.Record?
    case Verify(_, readable) => if readable && !r.inTime then e.Record? else e.Submit?
    case Submit(_, ok) => if ok && Left(r) != [] then e.MarkOne? else e.Record?
    case MarkOne(_, works, capped) => if works && r.inTime && !capped && Left(r) != [] then e.Download? else e.Record?
    case VerifyAnnounce(_, readable) => if readable && !r.inTime then e.Record? else e.MarkAll?
    case MarkAll(_, _) => e.Record?
    case _ => false
  }

  /** Nothing went wrong in the last step: the new hash may be recorded. */
  predicate Clean(r: Reading) {
    match r.last
    case CheckOk(_, _, _, _) => true
    case Download(_, out) => out.NoMore?
    case Submit(_, ok) => ok
    case MarkOne(_, works, _) => works
    case MarkAll(_, works) => works || Left(r) == []
    case Verify(_, _) => true
    case VerifyAnnounce(_, _) => true
    case _ => false
  }

  // ---- the worker's state is what the events say ------------------------------------------------

  /** Where the last step leaves the check. */
  function StageBy(r: Reading): Stage {
    match r.last
    case Dispatch(_) => Dispatched
    case Reread(_) => Dispatched
    case CheckFails(_) => Recording
    case CheckOk(_, _, _, notifyOnly) => if !Changed(r) then Recording else if notifyOnly then Announcing else Draining
    case Download(_, out) => if out.Got? then Fetched else Recording
    case Verify(_, readable) => if readable && !r.inTime then Recording else Verified
    case Submit(_, ok) => if ok && Left(r) != [] then Delivered else Recording
    case MarkOne(_, works, capped) => if works && r.inTime && !capped && Left(r) != [] then Draining else Recording
    case VerifyAnnounce(_, readable) => if readable && !r.inTime then Recording else Marking
    case MarkAll(_, _) => Recording
    case _ => Done
  }

  predicate Working(stage: Stage) {
    stage.Draining? || stage.Fetched? || stage.Verified? || stage.Delivered? || stage.Announcing? || stage.Marking?
  }

  predicate Told(r: Reading, t: Tick) {
    && t.stage == StageBy(r) && t.token == r.token && t.last == r.lastHash && t.born == r.snapshot
    && (r.check.Some? ==> r.check.value.CheckOk? && t.hash == r.check.value.hash && !t.stage.Dispatched?
                          && r.marked <= |r.check.value.pending|)
    && (r.check.None? ==> r.marked == 0)
    && (Working(t.stage) ==> Changed(r) && t.pending == Left(r)
                             && r.check.value.notifyOnly == (t.stage.Announcing? || t.stage.Marking?))
    && (t.stage.Recording? ==> if Clean(r) then r.check.Some? && t.write == t.hash else t.write == "" || t.write == t.last)
  }

  /** What one more step of the worker adds, `current` being whether its token still was. */
  function ReadingNext(r: Reading, e: Event, current: bool): Reading {
    if e.CheckOk? then r.(check := Some(e), marked := 0, last := e, inTime := current)
    else r.(marked := r.marked + if e.MarkOne? && e.works && current then 1 else 0, last := e, inTime := current)
  }

  lemma ToldCheck(w: World, e: Event, t: Tick, r: Reading)
    requires Enabled(w, e) && Owns(e) && e.id in w.ticks && w.ticks[e.id] == t && Told(r, t)
    requires e.CheckFails? || e.CheckOk? || e.Record?
    ensures Told(ReadingNext(r, e, Current(w, t)), TickAfter(w, e))
  {}

  lemma ToldFetch(w: World, e: Event, t: Tick, r: Reading)
    requires Enabled(w, e) && Owns(e) && e.id in w.ticks && w.ticks[e.id] == t && Told(r, t)
    requires e.Download? || e.Verify? || e.Submit?
    ensures Told(ReadingNext(r, e, Current(w, t)), TickAfter(w, e))
  {}

  lemma ToldMark(w: World, e: Event, t: Tick, r: Reading)
    requires Enabled(w, e) && Owns(e) && e.id in w.ticks && w.ticks[e.id] == t && Told(r, t)
    requires e.MarkOne? || e.VerifyAnnounce? || e.MarkAll?
    ensures Told(ReadingNext(r, e, Current(w, t)), TickAfter(w, e))
  {}

  lemma ToldMayStep(w: World, e: Event, t: Tick, r: Reading)
    requires Owns(e) && !e.Dispatch? && e.id in w.ticks && w.ticks[e.id] == t && Told(r, t)
    ensures Enabled(w, e) <==> MayFollow(r, e)
  {}

  lemma AtPrefix(events: seq<Event>, n: nat, k: nat)
    requires Reachable(events) && k <= n <= |events|
    ensures Reachable(events[..n]) && At(events[..n], k) == At(events, k)
  {
    hide Reachable, After, Enabled;
    ReachablePrefix(events, n);
    assert events[..n][..k] == events[..k];
  }

  lemma UndisturbedPrefix(events: seq<Event>, id: nat, n: nat, k: nat)
    requires Reachable(events) && k <= n <= |events|
    ensures Reachable(events[..n]) && Undisturbed(events[..n], id, k) == Undisturbed(events, id, k)
  {
    hide At, LastSnapshot;
    ReachablePrefix(events, n);
    assert events[..n][..k] == events[..k];
    AtPrefix(events, n, k);
    var s := LastSnapshot(events[..k], id);
    if s.Some? { AtPrefix(events, n, s.value); }
  }

  lemma SearchStep(events: seq<Event>, id: nat)
    requires Reachable(events) && events != [] && Reachable(events[..|events| - 1])
    ensures var n := |events| - 1; var e, pre := events[n], events[..n];
      && LastSnapshot(events, id) == (if e == Dispatch(id) || e == Reread(id) then Some(n) else LastSnapshot(pre, id))
      && LastCheck(events, id) == (if e.CheckOk? && e.id == id then Some(n) else LastCheck(pre, id))
      && LastStep(events, id) == (if IsOf(e, id) then Some(n) else LastStep(pre, id))
      && Marked(events, id)
         == (if e.CheckOk? && e.id == id then 0 else Marked(pre, id) + if MarksOne(events, id, n) then 1 else 0)
  {
    hide MarksOne, Reachable;
  }

  /** How the reading grows with the run. */
  lemma ReadingStep(events: seq<Event>, id: nat)
    requires Reachable(events) && events != [] && Reachable(events[..|events| - 1])
    requires ReadingOf(events[..|events| - 1], id).Some?
    requires var e := events[|events| - 1]; e != Dispatch(id) && e != Reread(id)
    ensures var n := |events| - 1; var e, r := events[n], ReadingOf(events[..n], id).value;
      ReadingOf(events, id) == Some(if IsOf(e, id) then ReadingNext(r, e, Undisturbed(events, id, n)) else r)
  {
    hide At, Undisturbed, LastSnapshot, LastCheck, LastStep, Marked, Reachable;
    var n := |events| - 1;
    SearchStep(events, id);
    AtPrefix(events, n, LastSnapshot(events[..n], id).value);
    UndisturbedPrefix(events, id, n, LastStep(events[..n], id).value);
  }

  /** The token the worker holds is current exactly while no write moved it. */
  lemma CurrentNow(events: seq<Event>, id: nat, t: Tick)
    requires Reachable(events) && ReadingOf(events, id).Some? && Told(ReadingOf(events, id).value, t)
    ensures Undisturbed(events, id, |events|) <==> Current(After(events), t)
  {
    hide Reachable, After, LastStep, LastCheck, Marked;
    assert events[..|events|] == events;
  }

  lemma {:induction false} NoStepYet(events: seq<Event>, id: nat)
    requires Reachable(events) && id !in After(events).ticks
    ensures LastCheck(events, id).None? && Marked(events, id) == 0 && LastStep(events, id).None?
    decreases |events|
  {
    hide RowAfter, TickAfter, Undisturbed;
    if events != [] { NoStepYet(events[..|events| - 1], id); }
  }

  /** At every moment of every run, a worker's state is what the events tell of it. */
  lemma {:induction false} AlwaysTold(events: seq<Event>, id: nat)
    requires Reachable(events) && id in After(events).ticks
    ensures ReadingOf(events, id).Some? && Told(ReadingOf(events, id).value, After(events).ticks[id])
    decreases |events|
  {
    hide ReadingOf, Told, TickAfter, RowAfter, Undisturbed;
    var n := |events| - 1;
    var pre, e := events[..n], events[n];
    if e == Dispatch(id) {
      NoStepYet(pre, id);
      SnapshotTold(events, id);
    } else if e == Reread(id) {
      AlwaysTold(pre, id);
      RereadUnchecked(pre, id);
      SnapshotTold(events, id);
    } else {
      AlwaysTold(pre, id);
      ReadingStep(events, id);
      if IsOf(e, id) {
        var t := After(pre).ticks[id];
        CurrentNow(pre, id, t);
        UndisturbedPrefix(events, id, n, n);
        if e.CheckFails? || e.CheckOk? || e.Record? { ToldCheck(After(pre), e, t, ReadingOf(pre, id).value); }
        else if e.Download? || e.Verify? || e.Submit? { ToldFetch(After(pre), e, t, ReadingOf(pre, id).value); }
        else { ToldMark(After(pre), e, t, ReadingOf(pre, id).value); }
      }
    }
  }

  lemma RereadUnchecked(events: seq<Event>, id: nat)
    requires Reachable(events) && Enabled(After(events), Reread(id))
    requires ReadingOf(events, id).Some? && Told(ReadingOf(events, id).value, After(events).ticks[id])
    ensures LastCheck(events, id).None? && Marked(events, id) == 0
  {
    hide At, Undisturbed, LastSnapshot, LastStep, Marked, Reachable, After;
  }

  lemma SnapshotTold(events: seq<Event>, id: nat)
    requires Reachable(events) && events != [] && Reachable(events[..|events| - 1])
    requires events[|events| - 1] == Dispatch(id) || events[|events| - 1] == Reread(id)
    requires LastCheck(events[..|events| - 1], id).None? && Marked(events[..|events| - 1], id) == 0
    ensures id in After(events).ticks && ReadingOf(events, id).Some? && Told(ReadingOf(events, id).value, After(events).ticks[id])
  {
    hide Undisturbed, LastSnapshot, LastCheck, LastStep, Marked, RowAfter, Enabled;
    var n := |events| - 1;
    StepsCounted(events[..n]);
    SearchStep(events, id);
    assert At(events, n) == After(events[..n]);
    assert After(events).ticks[id] == Snapshot(After(events[..n]));
  }

  lemma StepAt(events: seq<Event>, k: nat)
    requires Reachable(events) && k < |events|
    ensures Enabled(At(events, k), events[k]) && At(events, k + 1) == Next(At(events, k), events[k])
  {
    hide Enabled, Next;
    ReachablePrefix(events, k);
    ReachablePrefix(events, k + 1);
    assert events[..k + 1][..k] == events[..k];
  }

  lemma AtEnd(events: seq<Event>)
    requires Reachable(events)
    ensures At(events, |events|) == After(events)
  {
    hide Enabled, Next;
    assert events[..|events|] == events;
  }

  // ---- what may follow what ------------------------------------------------------------------------

  /** A worker's next step, in every state of every run, is one its last step allows, and each of those is possible. */
  lemma StepsFollow(events: seq<Event>, e: Event)
    requires Reachable(events) && Owns(e)
    ensures Enabled(After(events), e) <==>
              if e.Dispatch? then ReadingOf(events, e.id).None?
              else ReadingOf(events, e.id).Some? && MayFollow(ReadingOf(events, e.id).value, e)
  {
    hide Reachable, After, LastSnapshot, LastCheck, LastStep, Marked, Undisturbed, At, MayFollow, Told;
    if e.id in After(events).ticks {
      AlwaysTold(events, e.id);
      if !e.Dispatch? { ToldMayStep(After(events), e, After(events).ticks[e.id], ReadingOf(events, e.id).value); }
    } else {
      NoStepYet(events, e.id);
    }
  }

  lemma {:induction false} SnapshotFirst(events: seq<Event>, id: nat)
    requires Reachable(events) && LastCheck(events, id).Some?
    ensures LastSnapshot(events, id).Some? && LastSnapshot(events, id).value < LastCheck(events, id).value
    decreases |events|
  {
    hide At, Undisturbed, Marked, After, LastStep, Told;
    var n := |events| - 1;
    var pre, e := events[..n], events[n];
    SearchStep(events, id);
    if e.CheckOk? && e.id == id {
      AlwaysTold(pre, id);
    } else {
      SnapshotFirst(pre, id);
      if e == Reread(id) {
        AlwaysTold(pre, id);
        RereadUnchecked(pre, id);
      }
      if e == Dispatch(id) { NoStepYet(pre, id); }
    }
  }

  predicate IsWork(e: Event) {
    e.Download? || e.Verify? || e.Submit? || e.MarkOne? || e.VerifyAnnounce? || e.MarkAll?
  }

  /**
   * Nothing is downloaded, submitted or marked unless the check has found a hash other
   * than the one in the row at its last snapshot; an announced topic is only marked.
   */
  lemma WorkNeedsChange(events: seq<Event>, e: Event)
    requires Reachable(events) && Enabled(After(events), e) && IsWork(e)
    ensures var s, c := LastSnapshot(events, e.id), LastCheck(events, e.id);
      && s.Some? && c.Some? && s.value < c.value
      && events[c.value].hash != "" && events[c.value].hash != At(events, s.value).row.lastHash
      && (events[c.value].notifyOnly <==> e.VerifyAnnounce? || e.MarkAll?)
  {
    hide Reachable, After, LastSnapshot, LastCheck, LastStep, Marked, Undisturbed, At;
    AlwaysTold(events, e.id);
    SnapshotFirst(events, e.id);
  }

  // ---- what the final write leaves ------------------------------------------------------------------

  /**
   * The final write leaves the row as it was when another write came in between; else it
   * records the hash of the check when its last step went well, and keeps the old hash
   * when it did not.
   */
  lemma RecordDecides(events: seq<Event>, id: nat, works: bool)
    requires Reachable(events) && Enabled(After(events), Record(id, works))
    ensures ReadingOf(events, id).Some?
    ensures var r, row, after := ReadingOf(events, id).value, After(events).row, Next(After(events), Record(id, works)).row;
      if !works || !Undisturbed(events, id, |events|) then after == row
      else && (Clean(r) ==> r.check.Some? && r.check.value.CheckOk?)
           && after.lastHash == (if Clean(r) && r.check.value.hash != "" then r.check.value.hash else row.lastHash)
           && after.hashBorn == (if after.lastHash == row.lastHash then row.hashBorn else r.snapshot)
           && after.token > row.token && after.marks == row.marks
  {
    hide Reachable, After, LastSnapshot, LastCheck, LastStep, Marked, Undisturbed, Clean;
    AlwaysTold(events, id);
    CurrentNow(events, id, After(events).ticks[id]);
    if Undisturbed(events, id, |events|) { LastIsRow(events, id); }
  }

  /** An undisturbed check still has the row's hash. */
  lemma LastIsRow(events: seq<Event>, id: nat)
    requires Reachable(events) && id in After(events).ticks && Current(After(events), After(events).ticks[id])
    ensures After(events).ticks[id].last == After(events).row.lastHash
  {
    hide Reachable, After, RowInv;
    InvAlways(events);
    assert TickInv(After(events), After(events).ticks[id]);
  }

  /**
   * So the stored hash moves, other than by a reset, only after the new release was
   * submitted, announced, or had nothing to download; to the hash its check found.
   */
  lemma HashMovesAfterWork(events: seq<Event>, e: Event)
    requires Reachable(events) && Enabled(After(events), e) && !e.Reset?
    requires Next(After(events), e).row.lastHash != After(events).row.lastHash
    ensures e.Record? && e.works && Undisturbed(events, e.id, |events|)
    ensures var c, k := LastCheck(events, e.id), LastStep(events, e.id);
      && c.Some? && k.Some? && c.value < k.value
      && Next(After(events), e).row.lastHash == events[c.value].hash != ""
      && match events[k.value]
         case Submit(_, ok) => ok
         case Download(_, out) => out.NoMore?
         case MarkOne(_, works, _) => works
         case MarkAll(_, works) => works || Marked(events, e.id) == |events[c.value].pending|
         case _ => false
  {
    hide Reachable, After, LastSnapshot, LastCheck, LastStep, Undisturbed, TickAfter;
    RecordDecides(events, e.id, e.works);
    AlwaysTold(events, e.id);
    LastIsLater(events, e.id);
    var r := ReadingOf(events, e.id).value;
    StageAtRecord(events, e, r);
  }

  /** The last step is the check, or came after it. */
  lemma {:induction false} LastIsLater(events: seq<Event>, id: nat)
    requires Reachable(events) && LastCheck(events, id).Some?
    ensures LastStep(events, id).Some? && LastStep(events, id).value >= LastCheck(events, id).value
    decreases |events|
  {
    hide Undisturbed, Marked;
    if !IsOf(events[|events| - 1], id) { LastIsLater(events[..|events| - 1], id); }
  }

  lemma StageAtRecord(events: seq<Event>, e: Event, r: Reading)
    requires Reachable(events) && Enabled(After(events), e) && e.Record? && ReadingOf(events, e.id) == Some(r)
    requires Told(r, After(events).ticks[e.id]) && Clean(r) && Undisturbed(events, e.id, |events|)
    requires r.check.Some? && r.check.value.CheckOk?
    requires r.check.value.hash != After(events).row.lastHash && r.check.value.hash != ""
    ensures r.last.Submit? || r.last.Download? || r.last.MarkOne? || r.last.MarkAll?
  {
    hide Reachable, After, LastSnapshot, LastCheck, LastStep, Marked, Undisturbed;
    CurrentNow(events, e.id, After(events).ticks[e.id]);
    LastIsRow(events, e.id);
    StillInTime(events, e.id);
  }

  // ---- what moves the token --------------------------------------------------------------------------

  /** A reset, another write of the user's, or a final write that lands. */
  predicate MovesToken(events: seq<Event>, k: nat)
    requires Reachable(events) && k < |events|
  {
    events[k].Reset? || events[k].Touch? || (events[k].Record? && events[k].works && Undisturbed(events, events[k].id, k))
  }

  lemma TokenStep(events: seq<Event>, k: nat)
    requires Reachable(events) && k < |events|
    ensures At(events, k + 1).row.token == At(events, k).row.token + if MovesToken(events, k) then 1 else 0
  {
    hide Reachable, After, Undisturbed, TickAfter, At, Told, ReadingOf;
    StepAt(events, k);
    var e, pre := events[k], events[..k];
    ReachablePrefix(events, k);
    AtPrefix(events, k, k);
    AtEnd(pre);
    if e.Record? {
      AlwaysTold(pre, e.id);
      CurrentNow(pre, e.id, After(pre).ticks[e.id]);
      UndisturbedPrefix(events, e.id, k, k);
    }
  }

  /** Tokens never come back: two states have the same one exactly when no step between them moves it. */
  lemma {:induction false} SameToken(events: seq<Event>, s: nat, k: nat)
    requires Reachable(events) && s <= k <= |events|
    ensures At(events, s).row.token <= At(events, k).row.token
    ensures At(events, s).row.token == At(events, k).row.token <==> forall j | s <= j < k :: !MovesToken(events, j)
    decreases k - s
  {
    hide At, Reachable, MovesToken;
    if s < k {
      SameToken(events, s, k - 1);
      TokenStep(events, k - 1);
    }
  }

  /** So a worker is undisturbed exactly while no step since its snapshot moved the token. */
  lemma UndisturbedExactly(events: seq<Event>, id: nat, k: nat)
    requires Reachable(events) && k <= |events|
    ensures Undisturbed(events, id, k) <==>
              var s := LastSnapshot(events[..k], id); s.Some? && forall j | s.value <= j < k :: !MovesToken(events, j)
  {
    hide At, Reachable, MovesToken;
    var s := LastSnapshot(events[..k], id);
    if s.Some? { SameToken(events, s.value, k); }
  }

  /** Undisturbed now, undisturbed at the last step. */
  lemma StillInTime(events: seq<Event>, id: nat)
    requires Reachable(events) && ReadingOf(events, id).Some? && Undisturbed(events, id, |events|)
    ensures ReadingOf(events, id).value.last.Dispatch? || ReadingOf(events, id).value.last.Reread? || ReadingOf(events, id).value.inTime
  {
    hide At, Reachable;
    var k := LastStep(events, id).value;
    assert events[..|events|] == events;
    SnapshotBefore(events, id);
    if events[k] != Dispatch(id) && events[k] != Reread(id) {
      SameToken(events, LastSnapshot(events, id).value, k);
      SameToken(events, k, |events|);
    }
  }

  /** The last snapshot is the last step or came before it. */
  lemma {:induction false} SnapshotBefore(events: seq<Event>, id: nat)
    requires LastStep(events, id).Some? && LastSnapshot(events, id).Some?
    ensures LastSnapshot(events, id).value <= LastStep(events, id).value
    ensures var k := LastStep(events, id).value;
      events[k] != Dispatch(id) && events[k] != Reread(id) ==>
        LastSnapshot(events, id).value < k && LastSnapshot(events[..k], id) == LastSnapshot(events, id)
    decreases |events|
  {
    var n := |events| - 1;
    if !IsOf(events[n], id) {
      SnapshotBefore(events[..n], id);
      assert events[..n][..LastStep(events, id).value] == events[..LastStep(events, id).value];
    }
  }

  // ---- nothing pending is left behind -------------------------------------------------------------------

  /** Every episode the check has marked is in the row, as this check's. */
  ghost predicate MarksThere(r: Reading, marks: seq<Mark>) {
    r.check.Some? && r.check.value.CheckOk? ==>
      && (forall i | 0 <= i < |r.check.value.pending| && i < r.marked :: Mark(r.check.value.pending[i], r.snapshot) in marks)
      && (r.last.MarkAll? && r.last.works && r.inTime ==> forall p | p in Left(r) :: Mark(p, r.snapshot) in marks)
  }

  lemma MarksNext(w: World, e: Event, t: Tick, r: Reading)
    requires Enabled(w, e) && Owns(e) && e.id in w.ticks && w.ticks[e.id] == t && Told(r, t)
    requires !e.Dispatch? && !e.Reread? && MarksThere(r, w.row.marks)
    ensures MarksThere(ReadingNext(r, e, Current(w, t)), Next(w, e).row.marks)
  {
    hide TickAfter, StageBy, Clean;
  }

  /** What a mark writes: the next pending episode, or all of them, as of the worker's snapshot. */
  lemma MarkDecides(events: seq<Event>, e: Event)
    requires Reachable(events) && Enabled(After(events), e) && (e.MarkOne? || e.MarkAll?)
    ensures ReadingOf(events, e.id).Some?
    ensures var r, row, after := ReadingOf(events, e.id).value, After(events).row, Next(After(events), e).row;
      if !e.works || !Undisturbed(events, e.id, |events|) then after == row
      else && (e.MarkOne? ==> Left(r) != [])
           && after.marks == row.marks + MarksOf(if e.MarkOne? then Left(r)[..1] else Left(r), r.snapshot)
           && after.lastHash == row.lastHash && after.token == row.token
  {
    hide Reachable, After, LastSnapshot, LastCheck, LastStep, Marked, Undisturbed;
    AlwaysTold(events, e.id);
    CurrentNow(events, e.id, After(events).ticks[e.id]);
  }

  lemma {:induction false} MarksKept(events: seq<Event>, id: nat)
    requires Reachable(events) && id in After(events).ticks && Undisturbed(events, id, |events|)
    ensures ReadingOf(events, id).Some? && MarksThere(ReadingOf(events, id).value, After(events).row.marks)
    decreases |events|
  {
    hide At, Undisturbed, LastSnapshot, LastCheck, LastStep, Marked, MarksThere, TickAfter, RowAfter, Told;
    AlwaysTold(events, id);
    var n := |events| - 1;
    var pre, e := events[..n], events[n];
    if e == Dispatch(id) || e == Reread(id) {
      FreshSnapshot(events, id);
    } else {
      EarlierUndisturbed(events, id);
      MarksKept(pre, id);
      AlwaysTold(pre, id);
      ReadingStep(events, id);
      if IsOf(e, id) {
        CurrentNow(pre, id, After(pre).ticks[id]);
        UndisturbedPrefix(events, id, n, n);
        MarksNext(After(pre), e, After(pre).ticks[id], ReadingOf(pre, id).value);
      } else {
        NoReset(events, id);
        MarksGrow(After(pre), e, ReadingOf(pre, id).value);
      }
    }
  }

  lemma FreshSnapshot(events: seq<Event>, id: nat)
    requires Reachable(events) && events != [] && ReadingOf(events, id).Some?
    requires events[|events| - 1] == Dispatch(id) || events[|events| - 1] == Reread(id)
    ensures MarksThere(ReadingOf(events, id).value, After(events).row.marks)
  {
    hide At, Undisturbed, LastSnapshot, LastStep, After;
    if LastCheck(events, id).Some? { SnapshotFirst(events, id); SearchStep(events, id); }
  }

  lemma EarlierUndisturbed(events: seq<Event>, id: nat)
    requires Reachable(events) && events != [] && Undisturbed(events, id, |events|)
    requires events[|events| - 1] != Dispatch(id) && events[|events| - 1] != Reread(id)
    ensures Reachable(events[..|events| - 1]) && Undisturbed(events[..|events| - 1], id, |events| - 1)
    ensures !MovesToken(events, |events| - 1)
  {
    hide At, Marked, MovesToken;
    var n := |events| - 1;
    assert events[..|events|] == events;
    SearchStep(events, id);
    SameToken(events, LastSnapshot(events, id).value, |events|);
    SameToken(events, LastSnapshot(events, id).value, n);
    UndisturbedPrefix(events, id, n, n);
  }

  lemma NoReset(events: seq<Event>, id: nat)
    requires Reachable(events) && events != [] && !MovesToken(events, |events| - 1)
    ensures !events[|events| - 1].Reset?
  {
    hide Undisturbed;
  }

  lemma MarksGrow(w: World, e: Event, r: Reading)
    requires Enabled(w, e) && !e.Reset? && MarksThere(r, w.row.marks)
    ensures MarksThere(r, Next(w, e).row.marks)
  {
    hide TickAfter;
  }

  /**
   * When the hash moves, no pending episode is left behind: each is marked in the row by
   * this check, unless the tracker had nothing more to fetch or the tick's cap was reached.
   */
  lemma NothingLeftBehind(events: seq<Event>, e: Event, p: string)
    requires Reachable(events) && Enabled(After(events), e) && !e.Reset?
    requires Next(After(events), e).row.lastHash != After(events).row.lastHash
    requires e.Record? && LastCheck(events, e.id).Some? && LastStep(events, e.id).Some? && LastSnapshot(events, e.id).Some?
    requires p in events[LastCheck(events, e.id).value].pending
    ensures var last := events[LastStep(events, e.id).value];
      || last.Download? || (last.MarkOne? && last.capped)
      || Mark(p, LastSnapshot(events, e.id).value) in After(events).row.marks
  {
    hide At, Undisturbed, LastSnapshot, LastCheck, LastStep, Marked, Reachable, After, TickAfter, RowAfter;
    HashMovesAfterWork(events, e);
    RecordDecides(events, e.id, e.works);
    AlwaysTold(events, e.id);
    MarksKept(events, e.id);
    StillInTime(events, e.id);
    if !events[LastStep(events, e.id).value].Download? { AllMarked(After(events), e, ReadingOf(events, e.id).value, p); }
  }

  lemma AllMarked(w: World, e: Event, r: Reading, p: string)
    requires Enabled(w, e) && e.Record? && Told(r, w.ticks[e.id]) && MarksThere(r, w.row.marks)
    requires r.check.Some? && p in r.check.value.pending && (r.last.MarkOne? || r.last.MarkAll? || r.last.Submit?)
    requires Clean(r) && r.inTime
    ensures (r.last.MarkOne? && r.last.capped) || Mark(p, r.snapshot) in w.row.marks
  {
    var pending := r.check.value.pending;
    var i :| 0 <= i < |pending| && pending[i] == p;
    if i >= r.marked { assert Left(r)[i - r.marked] == p; }
  }
}
