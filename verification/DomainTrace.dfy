/**
 * The domain store told by the events of a run alone: which step of a call comes after
 * which, what each puts into the cache and what it is to write to the row.
 */
module DomainTrace {
  import opened Common
  import opened DomainRing
  import opened DomainStore

  /** The state before step k of the run. */
  function At(boot: World, events: seq<Event>, k: nat): World
    requires Reachable(boot, events) && k <= |events|
  {
    ReachablePrefix(boot, events, k);
    After(boot, events[..k])
  }

  /** The first step of a call: what it was asked to do. */
  function FirstOf(events: seq<Event>, id: nat): (e: Option<Event>)
    ensures e.Some? ==> e.value.id == id
  {
    if events == [] then None
    else
      var n := |events| - 1;
      var e := FirstOf(events[..n], id);
      if e.None? && events[n].id == id then Some(events[n]) else e
  }

  /** The place of its last step. */
  function LastStep(events: seq<Event>, id: nat): (k: Option<nat>)
    ensures k.Some? ==> k.value < |events| && events[k.value].id == id
  {
    if events == [] then None
    else if events[|events| - 1].id == id then Some(|events| - 1)
    else LastStep(events[..|events| - 1], id)
  }

  /** Whether a call that began with `first` may make step e after step `last`. */
  predicate MayFollow(first: Event, last: Event, e: Event) {
    match last
    case SetCall(_, _, _) => e.TakePersist?
    case Rotate(_, _, _) => e.TakePersist?
    case TakePersist(_) => if first.SetCall? then e.SetUpsert? else e.ReadCache?
    case SetUpsert(_, ok) => if ok then e.SetCache? else e.Release?
    case SetCache(_) => e.Release?
    case ReadCache(_) => e.RotationUpsert?
    case RotationUpsert(_, _) => e.Release?
    case Release(_) => false
  }

  /** Where a call is, by its first and last step; `read` is the cache at that last step. */
  predicate PhaseBy(first: Event, last: Event, read: map<string, Cell>, p: Phase) {
    if first.SetCall? then
      match last
      case SetCall(_, _, _) => p == SetWaiting(first.tracker, first.cfg)
      case TakePersist(_) => p == SetHolding(first.tracker, first.cfg)
      case SetUpsert(_, ok) =>
        if ok then p.SetUpserted? && p.tracker == first.tracker && p.cell.cfg == first.cfg else p.Releasing?
      case SetCache(_) => p.Releasing?
      case Release(_) => p.Done?
      case _ => false
    else
      first.Rotate? &&
      match last
      case Rotate(_, _, _) => p == Rotated(first.tracker)
      case TakePersist(_) => p == RotatedHolding(first.tracker)
      case ReadCache(_) => p == RotatedRead(first.tracker, Get(read, first.tracker))
      case RotationUpsert(_, _) => p.Releasing?
      case Release(_) => p.Done?
      case _ => false
  }

  lemma PhaseNext(w: World, e: Event, first: Event, last: Event, read: map<string, Cell>)
    requires Enabled(w, e) && e.id in w.calls && PhaseBy(first, last, read, w.calls[e.id])
    ensures PhaseBy(first, e, w.cache, PhaseAfter(w, e))
  {}

  ghost predicate CallTold(boot: World, events: seq<Event>, id: nat)
    requires Reachable(boot, events)
  {
    var w, k, first := After(boot, events), LastStep(events, id), FirstOf(events, id);
    && (id in w.calls <==> k.Some?) && (k.Some? <==> first.Some?)
    && (k.Some? ==> PhaseBy(first.value, events[k.value], At(boot, events, k.value).cache, w.calls[id]))
  }

  lemma AtPrefix(boot: World, events: seq<Event>, n: nat, k: nat)
    requires Reachable(boot, events) && k <= n <= |events|
    ensures Reachable(boot, events[..n]) && At(boot, events[..n], k) == At(boot, events, k)
  {
    hide Reachable, After, Enabled;
    ReachablePrefix(boot, events, n);
    assert events[..n][..k] == events[..k];
  }

  lemma SearchNext(events: seq<Event>, id: nat)
    requires events != []
    ensures var n := |events| - 1; var pre := events[..n];
      && LastStep(events, id) == (if events[n].id == id then Some(n) else LastStep(pre, id))
      && FirstOf(events, id) == (if FirstOf(pre, id).None? && events[n].id == id then Some(events[n]) else FirstOf(pre, id))
  {}

  lemma AtLast(boot: World, events: seq<Event>)
    requires events != [] && Reachable(boot, events)
    ensures var n := |events| - 1;
      && Reachable(boot, events[..n]) && At(boot, events, n) == After(boot, events[..n])
      && Enabled(After(boot, events[..n]), events[n]) && After(boot, events) == Next(After(boot, events[..n]), events[n])
  {
    hide Enabled, Next;
  }

  lemma CallStep(boot: World, events: seq<Event>, id: nat)
    requires events != [] && Reachable(boot, events) && Reachable(boot, events[..|events| - 1])
    requires CallTold(boot, events[..|events| - 1], id)
    ensures CallTold(boot, events, id)
  {
    hide Reachable, After, At, LastStep, FirstOf, PhaseBy, CacheAfter, RowsAfter, TriedAfter;
    var n := |events| - 1;
    SearchNext(events, id);
    AtLast(boot, events);
    var w, e := After(boot, events[..n]), events[n];
    var k := LastStep(events[..n], id);
    if k.Some? {
      AtPrefix(boot, events, n, k.value);
      if e.id == id { PhaseNext(w, e, FirstOf(events[..n], id).value, events[k.value], At(boot, events, k.value).cache); }
    } else if e.id == id {
      PhaseFirst(w, e);
    }
  }

  lemma PhaseFirst(w: World, e: Event)
    requires Enabled(w, e) && e.id !in w.calls
    ensures PhaseBy(e, e, w.cache, PhaseAfter(w, e))
  {}

  lemma {:induction false} CallAlways(boot: World, events: seq<Event>, id: nat)
    requires Reachable(boot, events)
    ensures CallTold(boot, events, id)
    decreases |events|
  {
    hide CallTold, Enabled, Next, Boots;
    if events == [] {
      NoCall(boot, id);
    } else {
      CallAlways(boot, events[..|events| - 1], id);
      CallStep(boot, events, id);
    }
  }

  lemma NoCall(boot: World, id: nat)
    requires Boots(boot)
    ensures CallTold(boot, [], id)
  {}

  /** A call's next step, in every state of every run, is the one after its last; only the write lock makes it wait. */
  lemma StepsFollow(boot: World, events: seq<Event>, e: Event)
    requires Reachable(boot, events)
    ensures Enabled(After(boot, events), e) <==>
              var k, first := LastStep(events, e.id), FirstOf(events, e.id);
              if k.None? then e.SetCall? || e.Rotate?
              else first.Some? && MayFollow(first.value, events[k.value], e) && (e.TakePersist? ==> After(boot, events).persist.None?)
  {
    hide Reachable, After, At, LastStep, FirstOf;
    CallAlways(boot, events, e.id);
  }

  /**
   * What a step puts into the cache: a rotation its target, with the custom domains as they
   * were; a Set that has reached the row the configuration it was called with.
   */
  lemma CacheStep(boot: World, events: seq<Event>, k: nat, t: string)
    requires Reachable(boot, events) && k < |events|
    ensures var was, now := Get(At(boot, events, k).cache, t), Get(At(boot, events, k + 1).cache, t);
      var e, first := events[k], FirstOf(events[..k], events[k].id);
      if e.Rotate? && e.tracker == t then now.cfg == was.cfg.(active := e.to)
      else if e.SetCache? && first.Some? && first.value.SetCall? && first.value.tracker == t then now.cfg == first.value.cfg
      else now == was
  {
    hide After, LastStep, FirstOf, Reachable, RowsAfter, TriedAfter, PhaseAfter;
    StepAt(boot, events, k);
    CallAlways(boot, events[..k], events[k].id);
  }

  lemma StepAt(boot: World, events: seq<Event>, k: nat)
    requires Reachable(boot, events) && k < |events|
    ensures Reachable(boot, events[..k]) && At(boot, events, k) == After(boot, events[..k])
    ensures Enabled(At(boot, events, k), events[k]) && At(boot, events, k + 1) == Next(At(boot, events, k), events[k])
  {
    hide Enabled, Next, Boots;
    ReachablePrefix(boot, events, k);
    ReachablePrefix(boot, events, k + 1);
    assert events[..k + 1][..k] == events[..k];
  }

  /** What a write is to store: the configuration of its Set, or the cache as its rotation read it just before. */
  lemma WriteStores(boot: World, events: seq<Event>, k: nat)
    requires Reachable(boot, events) && k < |events| && (events[k].SetUpsert? || events[k].RotationUpsert?)
    ensures Enabled(At(boot, events, k), events[k])
    ensures var first, j := FirstOf(events[..k], events[k].id), LastStep(events[..k], events[k].id);
      && first.Some? && j.Some? && (first.value.SetCall? || first.value.Rotate?)
      && At(boot, events, k).calls[events[k].id].tracker == first.value.tracker
      && if events[k].SetUpsert? then first.value.SetCall? && ToStore(At(boot, events, k), events[k]).cfg == first.value.cfg
         else events[j.value].ReadCache?
              && ToStore(At(boot, events, k), events[k]).cfg == Get(At(boot, events, j.value).cache, first.value.tracker).cfg
  {
    hide After, LastStep, FirstOf, Reachable, RowsAfter, TriedAfter, PhaseAfter, CacheAfter;
    StepAt(boot, events, k);
    CallAlways(boot, events[..k], events[k].id);
    var j := LastStep(events[..k], events[k].id);
    if j.Some? { AtPrefix(boot, events, k, j.value); }
  }
}
