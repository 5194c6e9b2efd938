/**
 * What the transport does, told by the events of a run alone: what a look at the cache
 * finds, and which step of a caller comes after which.
 */
module SolverTrace {
  import opened Common
  import opened SolverSession
  import opened SolverRun

  lemma {:induction false} ReachablePrefix(events: seq<Event>, k: nat)
    requires Reachable(events) && k <= |events|
    ensures Reachable(events[..k])
    decreases |events|
  {
    hide Enabled, After;
    var n := |events| - 1;
    if k == |events| {
      assert events[..k] == events;
    } else if k < n {
      ReachablePrefix(events[..n], k);
      assert events[..n][..k] == events[..k];
    }
  }

  /** The steps of one caller, in order. */
  function Steps(events: seq<Event>, id: nat): (r: seq<Event>)
    ensures forall i | 0 <= i < |r| :: r[i].id == id
  {
    if events == [] then []
    else
      var n := |events| - 1;
      Steps(events[..n], id) + if events[n].id == id then [events[n]] else []
  }

  function LastOf(steps: seq<Event>): Option<Event> { if steps == [] then None else Some(steps[|steps| - 1]) }

  // ---- what a look at the cache finds -----------------------------------------------------------

  predicate ClosedIn(events: seq<Event>) { exists k :: 0 <= k < |events| && events[k].CloseCall? }

  /** What the solver answered the create that step k settles; "" when it failed. */
  function AnswerTo(events: seq<Event>, k: nat): string
    requires k < |events|
  {
    var last := LastOf(Steps(events[..k], events[k].id));
    if last.Some? && last.value.Answer? then last.value.name else ""
  }

  /** The session made at step k was installed, and nobody has dropped or closed it since. */
  predicate StandsSince(events: seq<Event>, k: nat, name: string) {
    && k < |events| && events[k].Settle? && AnswerTo(events, k) == name != ""
    && !ClosedIn(events)
    && forall j | k < j < |events| :: !(events[j].Drop? && events[j].name == name)
  }

  /** The last create settled. */
  function LastSettle(events: seq<Event>): (k: Option<nat>)
    ensures k.Some? ==> k.value < |events| && events[k.value].Settle?
  {
    if events == [] then None
    else if events[|events| - 1].Settle? then Some(|events| - 1)
    else LastSettle(events[..|events| - 1])
  }

  /** The last create failed, less than thirty seconds before now. */
  predicate FailedLately(events: seq<Event>, now: int) {
    var k := LastSettle(events);
    k.Some? && AnswerTo(events, k.value) == "" && now < events[k.value].now + 30
  }

  function RetryBy(events: seq<Event>): Option<int> {
    var k := LastSettle(events);
    if k.Some? && AnswerTo(events, k.value) == "" then Some(events[k.value].now + 30) else None
  }

  /** What the shared fields are, by the events. */
  ghost predicate SharedTold(events: seq<Event>)
    requires Reachable(events)
  {
    var s := After(events).shared;
    && (s.closed <==> ClosedIn(events))
    && (s.session != "" ==> exists k :: StandsSince(events, k, s.session))
    && (forall k, n | StandsSince(events, k, n) :: s.session == n)
    && (!s.closed ==> s.retryAt == RetryBy(events))
  }

  /** What a caller knows of its create is the solver's answer. */
  ghost predicate AnswersTold(events: seq<Event>)
    requires Reachable(events)
  {
    forall id | id in After(events).threads && (After(events).threads[id].Created? || After(events).threads[id].Failed?) ::
      var last := LastOf(Steps(events, id));
      && last.Some? && last.value.Answer?
      && (if After(events).threads[id].Created? then After(events).threads[id].name == last.value.name != "" else last.value.name == "")
  }

  lemma AnswersStep(events: seq<Event>)
    requires events != [] && Reachable(events) && Reachable(events[..|events| - 1]) && AnswersTold(events[..|events| - 1])
    ensures AnswersTold(events)
  {
    hide SharedAfter, SlotAfter, Look, Steps;
    forall id { StepsNext(events, id); }
  }

  lemma StepsNext(events: seq<Event>, id: nat)
    requires events != []
    ensures var n := |events| - 1;
      Steps(events, id) == Steps(events[..n], id) + if events[n].id == id then [events[n]] else []
  {}

  lemma {:induction false} AnswersAlways(events: seq<Event>)
    requires Reachable(events)
    ensures AnswersTold(events)
    decreases |events|
  {
    hide AnswersTold, Next, Enabled;
    if events == [] {
      NoAnswers();
    } else {
      AnswersAlways(events[..|events| - 1]);
      AnswersStep(events);
    }
  }

  lemma NoAnswers()
    ensures AnswersTold([])
  {}

  lemma AnswerPrefix(events: seq<Event>, n: nat, k: nat)
    requires k < n <= |events|
    ensures AnswerTo(events[..n], k) == AnswerTo(events, k)
  {
    assert events[..n][..k] == events[..k];
  }

  lemma StandsNext(events: seq<Event>, k: nat, name: string)
    requires events != []
    ensures var n := |events| - 1; var e, pre := events[n], events[..n];
      StandsSince(events, k, name) <==>
        if k == n then e.Settle? && AnswerTo(events, n) == name != "" && !ClosedIn(pre)
        else StandsSince(pre, k, name) && !e.CloseCall? && !(e.Drop? && e.name == name)
  {
    hide AnswerTo;
    var n := |events| - 1;
    ClosedNext(events);
    if k < n {
      AnswerPrefix(events, n, k);
      assert forall j | k < j < n :: events[..n][j] == events[j];
    }
  }

  lemma ClosedNext(events: seq<Event>)
    requires events != []
    ensures ClosedIn(events) <==> ClosedIn(events[..|events| - 1]) || events[|events| - 1].CloseCall?
  {
    var n := |events| - 1;
    if ClosedIn(events[..n]) {
      var k :| 0 <= k < n && events[..n][k].CloseCall?;
      assert events[k].CloseCall?;
    }
    if k :| 0 <= k < n && events[k].CloseCall? { assert events[..n][k].CloseCall?; }
  }

  lemma RetryNext(events: seq<Event>)
    requires events != []
    ensures var n := |events| - 1;
      RetryBy(events) == if !events[n].Settle? then RetryBy(events[..n])
                         else if AnswerTo(events, n) == "" then Some(events[n].now + 30) else None
  {
    var n := |events| - 1;
    var k := LastSettle(events[..n]);
    if k.Some? { AnswerPrefix(events, n, k.value); }
  }

  /** What a settling create carries is what the solver answered it. */
  lemma SettleCarries(events: seq<Event>)
    requires events != [] && Reachable(events) && Reachable(events[..|events| - 1]) && events[|events| - 1].Settle?
    ensures Carries(After(events[..|events| - 1]).threads[events[|events| - 1].id]) == AnswerTo(events, |events| - 1)
  {
    hide Steps, Inv;
    AnswersAlways(events[..|events| - 1]);
  }

  /** One step changes the session, the closed flag and the retry time as its kind says. */
  lemma SharedMoves(w: World, e: Event)
    requires Enabled(w, e) && Inv(w)
    ensures var s, t := w.shared, Next(w, e).shared;
      && t.closed == (s.closed || e.CloseCall?)
      && t.session == (if e.CloseCall? || (e.Drop? && e.name == s.session) then ""
                       else if e.Settle? && !s.closed && Carries(w.threads[e.id]) != "" then Carries(w.threads[e.id])
                       else s.session)
      && (!t.closed ==> t.retryAt == if !e.Settle? then s.retryAt
                                     else if Carries(w.threads[e.id]) == "" then Some(e.now + COOLDOWN) else None)
      && (e.Settle? ==> s.session == "")
      && (s.closed ==> s.session == "")
  {
    hide SlotInv, CountInv, IdleInv, WaitInv, NamesOf, CoolInv, Look, PhaseAfter, SlotAfter;
  }

  lemma SharedStep(events: seq<Event>)
    requires events != [] && Reachable(events) && Reachable(events[..|events| - 1]) && SharedTold(events[..|events| - 1])
    ensures SharedTold(events)
  {
    hide StandsSince, ClosedIn, LastSettle, AnswerTo, Inv, Next, Enabled, RetryBy;
    var n := |events| - 1;
    var pre, e := events[..n], events[n];
    InvAlways(pre);
    SharedMoves(After(pre), e);
    ClosedNext(events);
    RetryNext(events);
    if e.Settle? { SettleCarries(events); }
    forall k: nat, name: string ensures StandsSince(events, k, name) <==>
        if k == n then e.Settle? && AnswerTo(events, n) == name != "" && !ClosedIn(pre)
        else StandsSince(pre, k, name) && !e.CloseCall? && !(e.Drop? && e.name == name)
    {
      StandsNext(events, k, name);
    }
    var s, t := After(pre).shared.session, After(events).shared.session;
    forall k: nat, name | StandsSince(events, k, name) ensures t == name {
      StandsName(events, k, name);
      if k < n { assert StandsSince(pre, k, name); }
    }
    if t != "" {
      if t == s && !e.Settle? {
        var k :| StandsSince(pre, k, s);
        StandsName(pre, k, s);
        assert StandsSince(events, k, t);
      } else {
        assert StandsSince(events, n, t);
      }
    }
  }

  lemma StandsName(events: seq<Event>, k: nat, name: string)
    requires StandsSince(events, k, name)
    ensures k < |events| && name != ""
  {}

  lemma {:induction false} SharedAlways(events: seq<Event>)
    requires Reachable(events)
    ensures SharedTold(events)
    decreases |events|
  {
    hide SharedTold, Enabled, Next;
    if events == [] {
      NothingShared();
    } else {
      SharedAlways(events[..|events| - 1]);
      SharedStep(events);
    }
  }

  lemma NothingShared()
    ensures SharedTold([])
  {}

  /**
   * What a look finds, at any moment of any run: the session that was installed and not
   * dropped since; refused once a Close came; cooling down exactly when the last create
   * failed less than thirty seconds ago; and in every other case a create is to be tried.
   */
  lemma LookSays(events: seq<Event>, now: int)
    requires Reachable(events)
    ensures var found := Look(After(events).shared, now);
      && (forall name :: found == Ready(name) <==> exists k :: StandsSince(events, k, name))
      && (found.RefusedClosed? <==> ClosedIn(events))
      && (found.CoolingDown? <==> !ClosedIn(events) && (forall k, name :: !StandsSince(events, k, name)) && FailedLately(events, now))
  {
    hide Reachable, After, StandsSince, ClosedIn, LastSettle, AnswerTo;
    SharedAlways(events);
    ClosedStands(events);
    InvAlways(events);
    ClosedIsEmptyNow(After(events));
    forall k, name | StandsSince(events, k, name) ensures name != "" { StandsName(events, k, name); }
  }

  lemma ClosedStands(events: seq<Event>)
    ensures ClosedIn(events) ==> forall k, name :: !StandsSince(events, k, name)
  {}

  lemma ClosedIsEmptyNow(w: World)
    requires Inv(w)
    ensures w.shared.closed ==> w.shared.session == ""
  {}

  // ---- what may follow what ------------------------------------------------------------------------

  /** The state before step k of the run. */
  function At(events: seq<Event>, k: nat): World
    requires Reachable(events) && k <= |events|
  {
    ReachablePrefix(events, k);
    After(events[..k])
  }

  /** The place of a caller's last step. */
  function LastStep(events: seq<Event>, id: nat): (k: Option<nat>)
    ensures k.Some? ==> k.value < |events| && events[k.value].id == id
  {
    if events == [] then None
    else if events[|events| - 1].id == id then Some(|events| - 1)
    else LastStep(events[..|events| - 1], id)
  }

  /** A look at that moment finds nothing but a create to try. */
  predicate FindsNothing(events: seq<Event>, k: nat, now: int)
    requires Reachable(events) && k <= |events|
  {
    Look(At(events, k).shared, now).TryCreate?
  }

  /**
   * Whether a caller may make step e next: by the last step it made, at k, the first it
   * made, and what that step found. Steps that wait for others are told apart by what
   * they wait for.
   */
  predicate MayFollow(events: seq<Event>, k: nat, e: Event)
    requires Reachable(events) && k < |events|
  {
    var first := Steps(events, events[k].id);
    match events[k]
    case Call(_) => e.LookFirst?
    case LookFirst(_, now) => FindsNothing(events, k, now) && (e.Acquire? || e.GiveUp?)
    case Acquire(_) => e.LookAgain?
    case LookAgain(_, now) => if FindsNothing(events, k, now) then e.Begin? else e.Release?
    case Begin(_) => if ClosedIn(events[..k]) then e.Release? else e.Answer? && e.name !in After(events).issued
    case Answer(_, _) => e.Settle?
    case Settle(_, _) => if AnswerTo(events, k) != "" && ClosedIn(events[..k]) then e.DestroySent? else e.End?
    case DestroySent(_) => if first != [] && first[0].CloseCall? then e.SeeIdle? || e.TimeOut? else e.End?
    case End(_) => first != [] && first[0].Call? && e.Release?
    case Drop(_, name) => name == At(events, k).shared.session && e.DestroySent?
    case CloseCall(_) => e.DestroySent?
    case _ => false
  }

  /** The place of a caller's first step. */
  function FirstStep(events: seq<Event>, id: nat): (k: Option<nat>)
    ensures k.Some? ==> k.value < |events| && events[k.value].id == id
  {
    if events == [] then None
    else
      var k := FirstStep(events[..|events| - 1], id);
      if k.None? && events[|events| - 1].id == id then Some(|events| - 1) else k
  }

  /** The slot is free; what was under way when the Close came has drained. */
  predicate NeedNotWait(events: seq<Event>, e: Event)
    requires Reachable(events)
  {
    match e
    case Acquire(_) => After(events).slot.None?
    case SeeIdle(id) =>
      var k := FirstStep(events, id);
      k.Some? && (At(events, k.value).shared.idle.None? || At(events, k.value).shared.idle.value in After(events).drained)
    case _ => true
  }

  /** What a caller's steps so far make of it. */
  ghost predicate PhaseTold(events: seq<Event>, id: nat)
    requires Reachable(events)
  {
    var w, k, c, steps := After(events), LastStep(events, id), FirstStep(events, id), Steps(events, id);
    && (id in w.threads <==> k.Some?) && (k.Some? <==> c.Some?) && (k.Some? <==> steps != [])
    && (k.Some? ==>
          && Enabled(At(events, k.value), events[k.value])
          && w.threads[id] == PhaseAfter(At(events, k.value), events[k.value])
          && steps[0] == events[c.value]
          && Family(At(events, c.value), steps[0], w.threads[id])
          && (id in At(events, k.value).threads ==> Family(At(events, c.value), steps[0], At(events, k.value).threads[id])))
  }

  /** A create, a detached destroy and a Close never change into each other. */
  predicate Family(w: World, first: Event, p: Phase) {
    match first
    case Call(_) => !p.Destroying? && !p.DestroyEnding? && !p.Closing? && !p.CloseWaiting? && !p.ClosedIdle? && !p.ClosedEarly?
    case Drop(_, _) => p.Destroying? || p.DestroyEnding? || p.Done?
    case CloseCall(_) =>
      || (p.Closing? && p.idle == w.shared.idle) || (p.CloseWaiting? && p.idle == w.shared.idle) || p.ClosedIdle? || p.ClosedEarly?
    case _ => false
  }

  lemma FamilyKept(w: World, v: World, e: Event, first: Event)
    requires Enabled(w, e) && e.id in w.threads && Family(v, first, w.threads[e.id])
    ensures Family(v, first, PhaseAfter(w, e))
  {
    hide Look;
  }

  lemma AtPrefix(events: seq<Event>, n: nat, k: nat)
    requires Reachable(events) && k <= n <= |events|
    ensures Reachable(events[..n]) && At(events[..n], k) == At(events, k)
  {
    hide Reachable, After, Enabled;
    ReachablePrefix(events, n);
    assert events[..n][..k] == events[..k];
  }

  lemma SearchNext(events: seq<Event>, id: nat)
    requires events != []
    ensures var n := |events| - 1; var pre := events[..n];
      && LastStep(events, id) == (if events[n].id == id then Some(n) else LastStep(pre, id))
      && FirstStep(events, id) == (if FirstStep(pre, id).None? && events[n].id == id then Some(n) else FirstStep(pre, id))
      && Steps(events, id) == Steps(pre, id) + (if events[n].id == id then [events[n]] else [])
  {}

  lemma PhaseStep(events: seq<Event>, id: nat)
    requires events != [] && Reachable(events) && Reachable(events[..|events| - 1]) && PhaseTold(events[..|events| - 1], id)
    ensures PhaseTold(events, id)
  {
    hide Reachable, At, SharedAfter, SlotAfter, PhaseAfter, Family, LastStep, FirstStep, Steps, Enabled;
    var n := |events| - 1;
    var pre, e := events[..n], events[n];
    SearchNext(events, id);
    AtLast(events);
    if LastStep(pre, id).Some? {
      AtPrefix(events, n, LastStep(pre, id).value);
      AtPrefix(events, n, FirstStep(pre, id).value);
      if e.id == id { FamilyKept(After(pre), At(pre, FirstStep(pre, id).value), e, Steps(pre, id)[0]); }
    } else if e.id == id {
      FirstFamily(After(pre), e);
    }
  }

  lemma AtLast(events: seq<Event>)
    requires events != [] && Reachable(events) && Reachable(events[..|events| - 1])
    ensures var n := |events| - 1;
      At(events, n) == After(events[..n]) && Enabled(After(events[..n]), events[n])
      && After(events) == Next(After(events[..n]), events[n])
  {
    hide Enabled, Next;
  }

  lemma FirstFamily(w: World, e: Event)
    requires Enabled(w, e) && e.id !in w.threads
    ensures Family(w, e, PhaseAfter(w, e))
  {}

  lemma {:induction false} PhaseAlways(events: seq<Event>, id: nat)
    requires Reachable(events)
    ensures PhaseTold(events, id)
    decreases |events|
  {
    hide PhaseTold, Enabled, Next;
    if events == [] {
      NoPhase(id);
    } else {
      PhaseAlways(events[..|events| - 1], id);
      PhaseStep(events, id);
    }
  }

  lemma NoPhase(id: nat)
    ensures PhaseTold([], id)
  {}

  predicate Opens(e: Event) { e.Call? || (e.Drop? && e.name != "") || e.CloseCall? }

  /**
   * A caller's next step, in every state of every run, is one that its last step and what
   * that found allow, and each of those can be made as soon as what it waits for is there.
   */
  lemma StepsFollow(events: seq<Event>, e: Event)
    requires Reachable(events)
    ensures Enabled(After(events), e) <==>
              var k := LastStep(events, e.id);
              if k.None? then Opens(e) else MayFollow(events, k.value, e) && NeedNotWait(events, e)
  {
    hide Reachable, After, LastStep, FirstStep, Steps, At, ClosedIn;
    PhaseAlways(events, e.id);
    var k := LastStep(events, e.id);
    if k.Some? {
      ClosedAt(events, k.value);
      CreatedAt(events, k.value);
      PhaseAllows(events, k.value, e);
    }
  }

  lemma ClosedAt(events: seq<Event>, k: nat)
    requires Reachable(events) && k <= |events|
    ensures At(events, k).shared.closed <==> ClosedIn(events[..k])
  {
    hide After, ClosedIn, StandsSince, RetryBy;
    ReachablePrefix(events, k);
    SharedAlways(events[..k]);
  }

  lemma CreatedAt(events: seq<Event>, k: nat)
    requires Reachable(events) && k < |events| && Enabled(At(events, k), events[k])
    ensures events[k].Settle? ==>
              (At(events, k).threads[events[k].id].Created? <==> AnswerTo(events, k) != "")
  {
    hide After, Steps;
    ReachablePrefix(events, k);
    AnswersAlways(events[..k]);
  }

  lemma PhaseAllows(events: seq<Event>, k: nat, e: Event)
    requires Reachable(events) && k < |events| && events[k].id == e.id && PhaseTold(events, e.id) && LastStep(events, e.id) == Some(k)
    requires At(events, k).shared.closed <==> ClosedIn(events[..k])
    requires events[k].Settle? ==>
               (At(events, k).threads[events[k].id].Created? <==> AnswerTo(events, k) != "")
    ensures Enabled(After(events), e) <==> MayFollow(events, k, e) && NeedNotWait(events, e)
  {
    hide Reachable, After, LastStep, FirstStep, Steps, At, ClosedIn, AnswerTo, Look;
  }

  // ---- a Close does not wait in vain ---------------------------------------------------------------

  /** Every idle channel ever made is the one of the work in flight, or closed. */
  ghost predicate ChannelsKnown(w: World) {
    && (forall c | 0 <= c < w.shared.made :: w.shared.idle == Some(c) || c in w.drained)
    && (forall id | id in w.threads && (w.threads[id].Closing? || w.threads[id].CloseWaiting?) && w.threads[id].idle.Some? ::
          w.threads[id].idle.value < w.shared.made)
  }

  lemma ChannelsKept(w: World, e: Event)
    requires ChannelsKnown(w) && Inv(w) && Enabled(w, e)
    ensures ChannelsKnown(Next(w, e))
  {
    hide SlotInv, CountInv, EmptyInv, WaitInv, NamesOf, CoolInv, Look, SlotAfter, Carries, Counted;
    if e.Begin? || e.Drop? || e.End? { assert IdleInv(w); }
    if e.End? { EndNow(w, e.id); }
  }

  lemma EndNow(w: World, id: nat)
    requires Inv(w) && Enabled(w, End(id))
    ensures w.shared.inflight > 0 && w.shared.idle.Some?
  {
    EndCounted(w, id);
  }

  lemma {:induction false} ChannelsAlways(events: seq<Event>)
    requires Reachable(events)
    ensures ChannelsKnown(After(events))
    decreases |events|
  {
    hide ChannelsKnown, Enabled, Next, Inv;
    if events == [] {
      NoChannels();
    } else {
      ChannelsAlways(events[..|events| - 1]);
      InvAlways(events[..|events| - 1]);
      ChannelsKept(After(events[..|events| - 1]), events[|events| - 1]);
    }
  }

  lemma NoChannels()
    ensures ChannelsKnown(START)
  {}

  /** Once nothing is in flight, every Close that is still waiting can return. */
  lemma IdleWakesClose(events: seq<Event>, id: nat)
    requires Reachable(events) && After(events).shared.inflight == 0
    requires id in After(events).threads && After(events).threads[id].CloseWaiting?
    ensures Enabled(After(events), SeeIdle(id))
  {
    hide Reachable, After, Inv;
    ChannelsAlways(events);
    InvAlways(events);
    IdleNow(After(events));
  }

  lemma IdleNow(w: World)
    requires Inv(w) && w.shared.inflight == 0
    ensures w.shared.idle.None?
  {}
}
