/**
 * The cached clearance of one host: any number of callers asking for it and throwing
 * it away, interleaved at every point where the entry's slot, its value lock or the
 * solver lets another one run.
 */
module ClearanceMinter {
  import opened Common

  /** A clearance is valid or it is the empty one; only a valid one is ever stored by a mint. */
  datatype Value = Empty | Valid(cookie: string)

  class ClearanceEntry {
    var value: Value

    constructor ()
      ensures value == Empty
    {
      value := Empty;
    }

    method Cached() returns (c: Value)
      ensures c == value
    {
      c := value;
    }

    method Store(c: Value)
      modifies this
      ensures value == c
    {
      value := c;
    }
  }

  datatype Phase =
    | Calling | Waiting | Holding | Minting | Minted(cookie: string) | Releasing(answer: Value) | Returned(answer: Value)

  datatype World = World(
    value: Value,
    slot: Option<nat>,
    callers: map<nat, Phase>,
    /** Solves begun, solves that gave no clearance, clearances stored, and calls of InvalidateClearance. */
    started: nat,
    failed: nat,
    stored: nat,
    invalidated: nat)

  const START := World(Empty, None, map[], 0, 0, 0, 0)

  datatype Event =
    | Call(id: nat)
    | LookFirst(id: nat)
    | Acquire(id: nat)
    | GiveUp(id: nat)
    | LookAgain(id: nat)
    | Solved(id: nat, cookie: Option<string>)
    | Store(id: nat)
    | Release(id: nat)
    | Invalidate

  predicate Enabled(w: World, e: Event) {
    match e
    case Call(id) => id !in w.callers
    case LookFirst(id) => id in w.callers && w.callers[id].Calling?
    case Acquire(id) => id in w.callers && w.callers[id].Waiting? && w.slot.None?
    case GiveUp(id) => id in w.callers && w.callers[id].Waiting?
    case LookAgain(id) => id in w.callers && w.callers[id].Holding?
    case Solved(id, _) => id in w.callers && w.callers[id].Minting?
    case Store(id) => id in w.callers && w.callers[id].Minted?
    case Release(id) => id in w.callers && w.callers[id].Releasing?
    case Invalidate => true
  }

  function PhaseAfter(w: World, e: Event): Phase
    requires Enabled(w, e) && !e.Invalidate?
  {
    match e
    case Call(_) => Calling
    case LookFirst(_) => if w.value.Valid? then Returned(w.value) else Waiting
    case Acquire(_) => Holding
    case GiveUp(_) => Returned(Empty)
    case LookAgain(_) => if w.value.Valid? then Releasing(w.value) else Minting
    case Solved(_, cookie) => if cookie.Some? then Minted(cookie.value) else Releasing(Empty)
    case Store(id) => Releasing(Valid(w.callers[id].cookie))
    case Release(id) => Returned(w.callers[id].answer)
  }

  function Next(w: World, e: Event): World
    requires Enabled(w, e)
  {
    if e.Invalidate? then w.(value := Empty, invalidated := w.invalidated + 1)
    else
      World(
        if e.Store? then Valid(w.callers[e.id].cookie) else w.value,
        if e.Acquire? then Some(e.id) else if e.Release? then None else w.slot,
        w.callers[e.id := PhaseAfter(w, e)],
        if e.LookAgain? && !w.value.Valid? then w.started + 1 else w.started,
        if e.Solved? && e.cookie.None? then w.failed + 1 else w.failed,
        if e.Store? then w.stored + 1 else w.stored,
        w.invalidated)
  }

  predicate Reachable(events: seq<Event>)
    decreases |events|, 0
  {
    events == [] ||
    (Reachable(events[..|events| - 1]) && Enabled(After(events[..|events| - 1]), events[|events| - 1]))
  }

  function After(events: seq<Event>): World
    requires Reachable(events)
    decreases |events|, 1
  {
    if events == [] then START else Next(After(events[..|events| - 1]), events[|events| - 1])
  }

  // ---- the invariant --------------------------------------------------------------------

  predicate HoldsSlot(p: Phase) { p.Holding? || p.Minting? || p.Minted? || p.Releasing? }

  /** A solve is under way, or done and not yet stored. */
  predicate InFlight(p: Phase) { p.Minting? || p.Minted? }

  ghost predicate Busy(w: World) { w.slot.Some? && w.slot.value in w.callers && InFlight(w.callers[w.slot.value]) }

  ghost predicate Inv(w: World) {
    && (w.slot.Some? ==> w.slot.value in w.callers)
    && (forall id | id in w.callers :: HoldsSlot(w.callers[id]) <==> w.slot == Some(id))
    // Every solve is under way, failed or stored.
    && w.started == w.failed + w.stored + (if Busy(w) then 1 else 0)
    // Nothing valid is ever solved for again.
    && (Busy(w) ==> w.value == Empty)
    && w.stored <= w.invalidated + (if w.value.Valid? then 1 else 0)
  }

  lemma InvKept(w: World, e: Event)
    requires Inv(w) && Enabled(w, e)
    ensures Inv(Next(w, e))
  {}

  lemma {:induction false} InvAlways(events: seq<Event>)
    requires Reachable(events)
    ensures Inv(After(events))
    decreases |events|
  {
    hide Inv, Next, Enabled;
    if events == [] {
      assert Inv(START) by { StartInv(); }
    } else {
      InvAlways(events[..|events| - 1]);
      InvKept(After(events[..|events| - 1]), events[|events| - 1]);
    }
  }

  lemma StartInv()
    ensures Inv(START)
  {}

  // ---- what every interleaving guarantees ---------------------------------------------------

  /** One solve of a host at a time, however many callers want its clearance. */
  lemma OneSolveAtATime(events: seq<Event>, i: nat, j: nat)
    requires Reachable(events) && i in After(events).callers && j in After(events).callers
    requires InFlight(After(events).callers[i]) && InFlight(After(events).callers[j])
    ensures i == j
  {
    hide Reachable, After;
    InvAlways(events);
  }

  /**
   * A burst solves once: every solve but the first is owed to a solve that failed or to
   * a clearance that was thrown away.
   */
  lemma SolvesAreOwed(events: seq<Event>)
    requires Reachable(events)
    ensures After(events).started <= 1 + After(events).failed + After(events).invalidated
  {
    hide Reachable, After;
    InvAlways(events);
  }

  // ---- what the events say ------------------------------------------------------------------

  lemma {:induction false} ReachablePrefix(events: seq<Event>, k: nat)
    requires Reachable(events) && k <= |events|
    ensures Reachable(events[..k])
    decreases |events|
  {
    hide Enabled, After;
    var n := |events| - 1;
    if k == |events| {
      assert events[..k] == events;
    } else if k < n {
      ReachablePrefix(events[..n], k);
      assert events[..n][..k] == events[..k];
    }
  }

  predicate IsOf(e: Event, id: nat) { !e.Invalidate? && e.id == id }

  /** The place of a caller's last step. */
  function LastStep(events: seq<Event>, id: nat): (k: Option<nat>)
    ensures k.Some? ==> k.value < |events| && IsOf(events[k.value], id)
  {
    if events == [] then None
    else if IsOf(events[|events| - 1], id) then Some(|events| - 1)
    else LastStep(events[..|events| - 1], id)
  }

  /** The clearance that was last stored and not thrown away since. */
  function Kept(events: seq<Event>): Value {
    if events == [] then Empty
    else
      var n := |events| - 1;
      match events[n]
      case Invalidate => Empty
      case Store(id) => SolvedWith(events, n)
      case _ => Kept(events[..n])
  }

  /** What the solve that step k stores gave. */
  function SolvedWith(events: seq<Event>, k: nat): Value
    requires k < |events| && events[k].Store?
  {
    var j := LastStep(events[..k], events[k].id);
    if j.Some? && events[j.value].Solved? && events[j.value].cookie.Some? then Valid(events[j.value].cookie.value) else Empty
  }

  /** Whether a caller may make step e next, its last step being at k. */
  predicate MayFollow(events: seq<Event>, k: nat, e: Event)
    requires k < |events|
  {
    match events[k]
    case Call(_) => e.LookFirst?
    case LookFirst(_) => Kept(events[..k]) == Empty && (e.Acquire? || e.GiveUp?)
    case Acquire(_) => e.LookAgain?
    case LookAgain(_) => if Kept(events[..k]) == Empty then e.Solved? else e.Release?
    case Solved(_, cookie) => if cookie.Some? then e.Store? else e.Release?
    case Store(_) => e.Release?
    case _ => false
  }

  /** What a caller is answered: what it found, what it had solved, or nothing. */
  function AnswerBy(events: seq<Event>, k: nat): Value
    requires k < |events|
  {
    match events[k]
    case LookFirst(_) => Kept(events[..k])
    case LookAgain(_) => Kept(events[..k])
    case Store(_) => SolvedWith(events, k)
    case _ => Empty
  }

  ghost predicate CallerTold(events: seq<Event>, id: nat)
    requires Reachable(events)
  {
    var w, k := After(events), LastStep(events, id);
    && (id in w.callers <==> k.Some?)
    && (k.Some? ==>
          match events[k.value]
          case Call(_) => w.callers[id].Calling?
          case LookFirst(_) => if Kept(events[..k.value]) == Empty then w.callers[id].Waiting? else w.callers[id] == Returned(AnswerBy(events, k.value))
          case Acquire(_) => w.callers[id].Holding?
          case GiveUp(_) => w.callers[id] == Returned(Empty)
          case LookAgain(_) =>
            if Kept(events[..k.value]) == Empty then w.callers[id].Minting? else w.callers[id] == Releasing(AnswerBy(events, k.value))
          case Solved(_, cookie) => w.callers[id] == if cookie.Some? then Minted(cookie.value) else Releasing(Empty)
          case Store(_) => w.callers[id] == Releasing(AnswerBy(events, k.value))
          case Release(_) => w.callers[id].Returned?
          case Invalidate => false)
  }

  lemma SearchNext(events: seq<Event>, id: nat)
    requires events != []
    ensures var n := |events| - 1; var pre := events[..n];
      && LastStep(events, id) == (if IsOf(events[n], id) then Some(n) else LastStep(pre, id))
      && Kept(events) == match events[n] {
           case Invalidate => Empty
           case Store(_) => SolvedWith(events, n)
           case _ => Kept(pre) }
  {
    hide SolvedWith;
  }

  lemma AnswerPrefix(events: seq<Event>, n: nat, k: nat)
    requires k < n <= |events|
    ensures AnswerBy(events[..n], k) == AnswerBy(events, k) && events[..n][..k] == events[..k]
  {
    hide Kept, LastStep;
    assert events[..n][..k] == events[..k];
  }

  lemma CallerStep(events: seq<Event>, id: nat)
    requires events != [] && Reachable(events) && Reachable(events[..|events| - 1]) && CallerTold(events[..|events| - 1], id)
    requires After(events[..|events| - 1]).value == Kept(events[..|events| - 1])
    ensures CallerTold(events, id)
    ensures IsOf(events[|events| - 1], id) ==> After(events).value == Kept(events)
  {
    hide Reachable, LastStep, Kept, CallerTold;
    if IsOf(events[|events| - 1], id) { OwnStep(events, id); } else { OtherStep(events, id); }
  }

  lemma OtherStep(events: seq<Event>, id: nat)
    requires events != [] && Reachable(events) && Reachable(events[..|events| - 1]) && CallerTold(events[..|events| - 1], id)
    requires !IsOf(events[|events| - 1], id)
    ensures CallerTold(events, id)
  {
    hide Reachable, LastStep, Kept, SolvedWith, AnswerBy, PhaseAfter;
    var n := |events| - 1;
    SearchNext(events, id);
    var k := LastStep(events[..n], id);
    if k.Some? { AnswerPrefix(events, n, k.value); }
  }

  lemma OwnStep(events: seq<Event>, id: nat)
    requires events != [] && Reachable(events) && Reachable(events[..|events| - 1]) && CallerTold(events[..|events| - 1], id)
    requires After(events[..|events| - 1]).value == Kept(events[..|events| - 1]) && IsOf(events[|events| - 1], id)
    ensures CallerTold(events, id) && After(events).value == Kept(events)
  {
    hide LastStep, Kept;
    var n := |events| - 1;
    SearchNext(events, id);
    var k := LastStep(events[..n], id);
    if k.Some? { assert events[..n][k.value] == events[k.value]; }
  }

  lemma {:induction false} EventsTell(events: seq<Event>, id: nat)
    requires Reachable(events)
    ensures CallerTold(events, id) && After(events).value == Kept(events)
    decreases |events|
  {
    hide CallerTold, Enabled, LastStep, Kept, SolvedWith, Next, PhaseAfter;
    if events == [] {
      NothingTold(id);
    } else {
      var n := |events| - 1;
      EventsTell(events[..n], id);
      CallerStep(events, id);
      SearchNext(events, id);
      if events[n].Store? {
        EventsTell(events[..n], events[n].id);
        CallerStep(events, events[n].id);
      } else {
        ValueStays(After(events[..n]), events[n]);
      }
    }
  }

  lemma ValueStays(w: World, e: Event)
    requires Enabled(w, e) && !e.Store?
    ensures Next(w, e).value == if e.Invalidate? then Empty else w.value
  {}

  lemma NothingTold(id: nat)
    ensures CallerTold([], id) && Kept([]) == Empty
  {}

  /**
   * A caller's next step, in every state of every run, is one that its last step and what
   * it found allow: a valid clearance ends the call, and only an empty one is solved for.
   */
  lemma StepsFollow(events: seq<Event>, e: Event)
    requires Reachable(events) && !e.Invalidate?
    ensures Enabled(After(events), e) <==>
              var k := LastStep(events, e.id);
              if k.None? then e.Call? else MayFollow(events, k.value, e) && (e.Acquire? ==> After(events).slot.None?)
  {
    hide Reachable, After, LastStep, Kept;
    EventsTell(events, e.id);
  }

  /** Whoever returns, or is about to, has the clearance kept when it looked, the one it had solved, or none. */
  lemma AnswerIs(events: seq<Event>, id: nat)
    requires Reachable(events) && id in After(events).callers && After(events).callers[id].Releasing?
    ensures LastStep(events, id).Some? && After(events).callers[id].answer == AnswerBy(events, LastStep(events, id).value)
  {
    hide Reachable, After, LastStep, Kept;
    EventsTell(events, id);
  }
}
