/**
 * Sign-ins told by the events of a run alone: which step of a caller comes after which,
 * when it asks the tracker and what it is answered.
 */
module SignInTrace {
  import opened Common
  import opened SignIn

  /** The state before step k of the run. */
  function At(events: seq<Event>, k: nat): World
    requires Reachable(events) && k <= |events|
  {
    PrefixReachable(events, k);
    After(events[..k])
  }

  /** The steps of one caller, in order. */
  function Steps(events: seq<Event>, id: nat): (r: seq<Event>)
    ensures forall i | 0 <= i < |r| :: r[i].id == id
  {
    if events == [] then []
    else
      var n := |events| - 1;
      Steps(events[..n], id) + if events[n].id == id then [events[n]] else []
  }

  /** The place of a caller's last step. */
  function LastStep(events: seq<Event>, id: nat): (k: Option<nat>)
    ensures k.Some? ==> k.value < |events| && events[k.value].id == id
  {
    if events == [] then None
    else if events[|events| - 1].id == id then Some(|events| - 1)
    else LastStep(events[..|events| - 1], id)
  }

  /** The last attempt that ended, whoever made it. */
  function LastSettle(events: seq<Event>): (k: Option<nat>)
    ensures k.Some? ==> k.value < |events| && events[k.value].Settle?
  {
    if events == [] then None
    else if events[|events| - 1].Settle? then Some(|events| - 1)
    else LastSettle(events[..|events| - 1])
  }

  /** How a caller's attempt ended, by its steps: a session found live, or what the login answered. */
  function AttemptErr(steps: seq<Event>): Err {
    if steps != [] && steps[|steps| - 1].LoginDone? then steps[|steps| - 1].err else None
  }

  /** The attempt that ended at step k: whose credential, and how. */
  function AttemptFp(events: seq<Event>, k: nat): Fp
    requires k < |events|
  {
    var steps := Steps(events[..k], events[k].id);
    if steps != [] && steps[0].Arrive? then steps[0].fp else 0
  }

  function AttemptEnd(events: seq<Event>, k: nat): Err
    requires k < |events|
  {
    AttemptErr(Steps(events[..k], events[k].id))
  }

  /** The answer of the last attempt, when the caller may have it: same credential, not cut short, ended since it came. */
  function TakenOver(events: seq<Event>, arrival: Event): Option<Err>
    requires arrival.Arrive?
  {
    var k := LastSettle(events);
    if k.Some? && !events[k.value].ended && AttemptFp(events, k.value) == arrival.fp && events[k.value].now > arrival.now
    then Some(AttemptEnd(events, k.value)) else None
  }

  /** The last attempt of all was this credential's, and it succeeded. */
  predicate OwnsSession(events: seq<Event>, arrival: Event)
    requires arrival.Arrive?
  {
    var k := LastSettle(events);
    k.Some? && AttemptFp(events, k.value) == arrival.fp && AttemptEnd(events, k.value).None?
  }

  /** Whether a caller that came with `arrival` may make step e next, its last step being at k. */
  predicate MayFollow(events: seq<Event>, arrival: Event, k: nat, e: Event)
    requires k < |events| && arrival.Arrive?
  {
    match events[k]
    case Arrive(_, _, _, _) => e.Acquire? || e.GiveUp?
    case Acquire(_) => e.Decide?
    case Decide(_) =>
      if arrival.own then e.LoginDone?
      else if TakenOver(events[..k], arrival).Some? then e.Release?
      else if OwnsSession(events[..k], arrival) then e.VerifyDone?
      else e.LoginDone?
    case VerifyDone(_, live) => if live then e.Settle? else e.LoginDone?
    case LoginDone(_, _, _) => e.Settle?
    case Settle(_, _, _) => e.Release?
    case _ => false
  }

  /** Conditions on a step beside its turn: a free lock, a clock that runs on, a login that leaves its own session. */
  predicate Sound(w: World, arrival: Event, e: Event)
    requires arrival.Arrive?
  {
    match e
    case Acquire(_) => w.lock.None?
    case Settle(_, _, now) => w.clock <= now
    case LoginDone(_, err, left) => err.None? ==> left == Some(arrival.fp)
    case _ => true
  }

  // ---- the state is what the events say ---------------------------------------------------------

  ghost predicate CallerTold(events: seq<Event>, id: nat)
    requires Reachable(events)
  {
    var w, k, steps := After(events), LastStep(events, id), Steps(events, id);
    && (id in w.callers <==> k.Some?) && (k.Some? <==> steps != [])
    && (k.Some? ==>
          && steps[0].Arrive? && steps[|steps| - 1] == events[k.value]
          && (events[k.value].Arrive? <==> |steps| == 1)
          && Enabled(At(events, k.value), events[k.value])
          && w.callers[id] == PhaseAfter(At(events, k.value), events[k.value])
          && Knows(steps[0], w.callers[id])
          && (!events[k.value].Arrive? ==> id in At(events, k.value).callers && Knows(steps[0], At(events, k.value).callers[id]))
          && (w.callers[id].Settling? ==> w.callers[id].err == AttemptErr(steps)))
  }

  /** A caller never forgets what it came with. */
  predicate Knows(arrival: Event, p: Phase)
    requires arrival.Arrive?
  {
    match p
    case Waiting(fp, arrived, own) => fp == arrival.fp && arrived == arrival.now && own == arrival.own
    case Holding(fp, arrived, own) => fp == arrival.fp && arrived == arrival.now && own == arrival.own
    case Verifying(fp) => fp == arrival.fp
    case LoggingIn(fp) => fp == arrival.fp
    case Settling(fp, _) => fp == arrival.fp
    case Answered(fp, _) => fp == arrival.fp
    case Done => true
  }

  lemma KnowsNext(w: World, e: Event, arrival: Event)
    requires arrival.Arrive? && Enabled(w, e) && !e.Arrive? && e.id in w.callers && Knows(arrival, w.callers[e.id])
    ensures Knows(arrival, PhaseAfter(w, e))
  {
    hide Inherited;
  }

  lemma SearchNext(events: seq<Event>, id: nat)
    requires events != []
    ensures var n := |events| - 1; var pre := events[..n];
      && LastStep(events, id) == (if events[n].id == id then Some(n) else LastStep(pre, id))
      && Steps(events, id) == Steps(pre, id) + (if events[n].id == id then [events[n]] else [])
      && LastSettle(events) == (if events[n].Settle? then Some(n) else LastSettle(pre))
  {}

  lemma AtPrefix(events: seq<Event>, n: nat, k: nat)
    requires Reachable(events) && k <= n <= |events|
    ensures Reachable(events[..n]) && At(events[..n], k) == At(events, k)
  {
    hide Reachable, After, Enabled;
    PrefixReachable(events, n);
    assert events[..n][..k] == events[..k];
  }

  lemma AtLast(events: seq<Event>)
    requires events != [] && Reachable(events) && Reachable(events[..|events| - 1])
    ensures var n := |events| - 1;
      At(events, n) == After(events[..n]) && Enabled(After(events[..n]), events[n])
      && After(events) == Next(After(events[..n]), events[n])
  {
    hide Enabled, Next;
  }

  lemma CallerStep(events: seq<Event>, id: nat)
    requires events != [] && Reachable(events) && Reachable(events[..|events| - 1]) && CallerTold(events[..|events| - 1], id)
    ensures CallerTold(events, id)
  {
    hide Reachable, At, LastStep, Steps, OwnerAfter, LastAfter, Inherited, Knows;
    var n := |events| - 1;
    var pre, e := events[..n], events[n];
    SearchNext(events, id);
    AtLast(events);
    if LastStep(pre, id).Some? {
      AtPrefix(events, n, LastStep(pre, id).value);
      if e.id == id { KnowsNext(After(pre), e, Steps(pre, id)[0]); }
    } else if e.id == id {
      KnowsFirst(e);
    }
  }

  lemma KnowsFirst(e: Event)
    requires e.Arrive?
    ensures Knows(e, Waiting(e.fp, e.now, e.own))
  {}

  lemma {:induction false} CallerAlways(events: seq<Event>, id: nat)
    requires Reachable(events)
    ensures CallerTold(events, id)
    decreases |events|
  {
    hide CallerTold, Enabled, Next;
    if events == [] {
      NoCaller(id);
    } else {
      CallerAlways(events[..|events| - 1], id);
      CallerStep(events, id);
    }
  }

  lemma NoCaller(id: nat)
    ensures CallerTold([], id)
  {}

  /** The slot holds what the last attempt left. */
  ghost predicate SlotTold(events: seq<Event>)
    requires Reachable(events)
  {
    var w, k := After(events), LastSettle(events);
    if k.None? then w.owner == None && w.last == None
    else
      && w.owner == (if AttemptEnd(events, k.value).None? then Some(AttemptFp(events, k.value)) else None)
      && w.last == (if events[k.value].ended then None
                    else Some(Outcome(AttemptFp(events, k.value), events[k.value].now, AttemptEnd(events, k.value))))
  }

  lemma SlotStep(events: seq<Event>)
    requires events != [] && Reachable(events) && Reachable(events[..|events| - 1]) && SlotTold(events[..|events| - 1])
    ensures SlotTold(events)
  {
    hide Reachable, At, LastStep, Steps, AttemptErr, LastSettle, PhaseAfter;
    var n := |events| - 1;
    var pre, e := events[..n], events[n];
    SearchNext(events, e.id);
    AtLast(events);
    if e.Settle? {
      CallerAlways(pre, e.id);
    } else if LastSettle(pre).Some? {
      assert pre[..LastSettle(pre).value] == events[..LastSettle(pre).value];
    }
  }

  lemma {:induction false} SlotAlways(events: seq<Event>)
    requires Reachable(events)
    ensures SlotTold(events)
    decreases |events|
  {
    hide SlotTold, Enabled, Next;
    if events == [] {
      NoSlot();
    } else {
      SlotAlways(events[..|events| - 1]);
      SlotStep(events);
    }
  }

  lemma NoSlot()
    ensures SlotTold([])
  {}

  // ---- what may follow what ------------------------------------------------------------------------

  /**
   * A caller's next step, in every state of every run, is one that its last step and what
   * the attempts before it came to allow: it takes an answer over when it may, verifies
   * only the session its own credential made, and logs in otherwise.
   */
  lemma StepsFollow(events: seq<Event>, e: Event)
    requires Reachable(events)
    ensures Enabled(After(events), e) <==>
              var k, steps := LastStep(events, e.id), Steps(events, e.id);
              if k.None? then e.Arrive? && After(events).clock <= e.now
              else steps != [] && steps[0].Arrive? && MayFollow(events, steps[0], k.value, e) && Sound(After(events), steps[0], e)
  {
    hide Reachable, After, LastStep, Steps, At, AttemptErr, TakenOver, OwnsSession, Inherited;
    CallerAlways(events, e.id);
    var k := LastStep(events, e.id);
    if k.Some? && events[k.value].Decide? { DecidedBy(events, k.value, Steps(events, e.id)[0]); }
  }

  lemma DecidedBy(events: seq<Event>, k: nat, arrival: Event)
    requires Reachable(events) && k < |events| && arrival.Arrive?
    ensures Inherited(At(events, k).last, arrival.fp, arrival.now) == TakenOver(events[..k], arrival)
    ensures At(events, k).owner == Some(arrival.fp) <==> OwnsSession(events[..k], arrival)
  {
    hide After, Steps, AttemptErr, LastSettle;
    PrefixReachable(events, k);
    SlotAlways(events[..k]);
  }

  /** What a caller is answered: what it took over, or how its own attempt ended. */
  lemma AnswerIs(events: seq<Event>, id: nat)
    requires Reachable(events) && Enabled(After(events), Release(id))
    ensures LastStep(events, id).Some? && Steps(events, id) != [] && Steps(events, id)[0].Arrive?
    ensures After(events).callers[id].Answered?
    ensures var k, arrival := LastStep(events, id).value, Steps(events, id)[0];
      Some(After(events).callers[id].err) ==
        if events[k].Decide? then TakenOver(events[..k], arrival) else Some(AttemptEnd(events, k))
  {
    hide Reachable, After, LastStep, Steps, At, AttemptErr, TakenOver, Inherited;
    CallerAlways(events, id);
    var k := LastStep(events, id).value;
    DecidedBy(events, k, Steps(events, id)[0]);
    if events[k].Settle? { SettledWith(events, id, k); }
  }

  lemma SettledWith(events: seq<Event>, id: nat, k: nat)
    requires Reachable(events) && k < |events| && events[k].Settle? && events[k].id == id
    requires id in At(events, k).callers && At(events, k).callers[id].Settling?
    ensures At(events, k).callers[id].err == AttemptEnd(events, k)
  {
    hide Steps, AttemptErr, After;
    PrefixReachable(events, k);
    CallerAlways(events[..k], id);
  }
}
