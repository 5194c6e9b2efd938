/**
 * Which topics are queued or being checked: one dispatcher, the shared job queue, the
 * lanes of spaced trackers and the goroutines that take topics from them. Meanwhile
 * users add and delete topics.
 */
module Dispatch {
  import opened Common

  type Id = nat

  /** The shared workers' queue, or the lane of a spaced tracker. */
  datatype Queue = Shared | Lane(tracker: string)

  /**
   * The topics ever added with their trackers, those deleted since, and where a topic
   * the scheduler has marked is. Which trackers are spaced never changes.
   */
  datatype World = World(
    spaced: set<string>,
    topics: map<Id, string>,
    deleted: set<Id>,
    inflight: set<Id>,
    marked: Option<Id>,
    queues: map<Queue, seq<Id>>,
    running: map<nat, Id>)

  function Start(spaced: set<string>): World { World(spaced, map[], {}, {}, None, map[], map[]) }

  datatype Event =
    | Create(id: Id, tracker: string)
    | Delete(id: Id)
    // The dispatch loop on one topic that was due when read: mark it, then queue it or let it go.
    | MarkNew(id: Id)
    | SkipQueued(id: Id)
    | Enqueue
    | LetGo
    // A goroutine takes the oldest topic of its queue, and unmarks it once the check is over.
    | Take(worker: nat, queue: Queue)
    | Finish(worker: nat)

  function Items(w: World, q: Queue): seq<Id> { if q in w.queues then w.queues[q] else [] }

  /** The lane of the topic's tracker when that tracker asks for spacing. */
  function QueueOf(w: World, id: Id): Queue
    requires id in w.topics
  {
    if w.topics[id] in w.spaced then Lane(w.topics[id]) else Shared
  }

  predicate Enabled(w: World, e: Event) {
    match e
    case Create(id, _) => id !in w.topics
    case Delete(id) => id in w.topics
    case MarkNew(id) => id in w.topics && w.marked.None? && id !in w.inflight
    case SkipQueued(id) => w.marked.None? && id in w.inflight
    // Only known topics are ever marked.
    case Enqueue => w.marked.Some? && w.marked.value in w.topics
    // A lane is never full.
    case LetGo => w.marked.Some? && w.marked.value in w.topics && QueueOf(w, w.marked.value).Shared?
    case Take(k, q) => k !in w.running && Items(w, q) != []
    case Finish(k) => k in w.running
  }

  function Next(w: World, e: Event): World
    requires Enabled(w, e)
  {
    match e
    case Create(id, tracker) => w.(topics := w.topics[id := tracker])
    case Delete(id) => w.(deleted := w.deleted + {id})
    case MarkNew(id) => w.(inflight := w.inflight + {id}, marked := Some(id))
    case SkipQueued(_) => w
    case Enqueue => Queued(w, QueueOf(w, w.marked.value))
    case LetGo => w.(inflight := w.inflight - {w.marked.value}, marked := None)
    case Take(k, q) => w.(queues := w.queues[q := Items(w, q)[1..]], running := w.running[k := Items(w, q)[0]])
    case Finish(k) => w.(inflight := w.inflight - {w.running[k]}, running := w.running - {k})
  }

  function Queued(w: World, q: Queue): World
    requires w.marked.Some?
  {
    w.(marked := None, queues := w.queues[q := Items(w, q) + [w.marked.value]])
  }

  predicate Reachable(spaced: set<string>, events: seq<Event>)
    decreases |events|, 0
  {
    events == [] ||
    var n := |events| - 1;
    Reachable(spaced, events[..n]) && Enabled(After(spaced, events[..n]), events[n])
  }

  function After(spaced: set<string>, events: seq<Event>): World
    requires Reachable(spaced, events)
    decreases |events|, 1
  {
    if events == [] then Start(spaced) else Next(After(spaced, events[..|events| - 1]), events[|events| - 1])
  }

  // ---- the invariant ------------------------------------------------------------------------

  /** In the dispatcher's hand, at a position of a queue, or on a goroutine. */
  datatype Place = InHand | InQueue(queue: Queue, i: nat) | On(worker: nat)

  predicate Holds(w: World, p: Place, id: Id) {
    match p
    case InHand => w.marked == Some(id)
    case InQueue(q, i) => i < |Items(w, q)| && Items(w, q)[i] == id
    case On(k) => k in w.running && w.running[k] == id
  }

  ghost predicate Somewhere(w: World, id: Id) { exists p :: Holds(w, p, id) }

  /** Every marked topic, and no other, is in exactly one place. */
  ghost predicate Inv(w: World) {
    && (forall p, id | Holds(w, p, id) :: id in w.inflight)
    && (forall p, r, id | Holds(w, p, id) && Holds(w, r, id) :: p == r)
    && (forall id | id in w.inflight :: Somewhere(w, id))
  }

  /** A step that only moves topics: what is at p now was at back(p), and nothing is left behind. */
  lemma Moved(w: World, v: World, back: Place -> Place, forth: Place -> Place)
    requires Inv(w) && v.inflight == w.inflight
    requires forall p, id :: Holds(v, p, id) <==> Holds(w, back(p), id)
    requires forall p, r | back(p) == back(r) :: p == r
    requires forall p, id | Holds(w, p, id) :: back(forth(p)) == p
    ensures Inv(v)
  {
    hide Holds;
    forall p, r, id | Holds(v, p, id) && Holds(v, r, id) ensures p == r {
      assert Holds(w, back(p), id) && Holds(w, back(r), id);
    }
    forall id | id in v.inflight ensures Somewhere(v, id) {
      assert Somewhere(w, id);
      var p :| Holds(w, p, id);
      assert Holds(v, forth(p), id);
    }
  }

  /** A step that lets go of the topic at one place. */
  lemma Dropped(w: World, v: World, at: Place, x: Id)
    requires Inv(w) && Holds(w, at, x) && v.inflight == w.inflight - {x}
    requires forall p, id :: Holds(v, p, id) <==> Holds(w, p, id) && p != at
    ensures Inv(v)
  {
    hide Holds;
    forall id | id in v.inflight ensures Somewhere(v, id) {
      assert Somewhere(w, id);
      var p :| Holds(w, p, id);
      assert p == at ==> id == x by { if p == at { OneAt(w, at, id, x); } }
      assert Holds(v, p, id);
    }
  }

  lemma OneAt(w: World, p: Place, a: Id, b: Id)
    requires Holds(w, p, a) && Holds(w, p, b)
    ensures a == b
  {}

  lemma MarkKept(w: World, id: Id)
    requires Inv(w) && Enabled(w, MarkNew(id))
    ensures Inv(Next(w, MarkNew(id)))
  {
    var v := Next(w, MarkNew(id));
    forall p, x ensures Holds(v, p, x) <==> Holds(w, p, x) || (p == InHand && x == id) {}
    Added(w, v, InHand, id);
  }

  lemma Added(w: World, v: World, at: Place, x: Id)
    requires Inv(w) && x !in w.inflight && v.inflight == w.inflight + {x}
    requires forall p, id :: Holds(v, p, id) <==> Holds(w, p, id) || (p == at && id == x)
    ensures Inv(v)
  {
    hide Holds;
    forall id | id in v.inflight ensures Somewhere(v, id) {
      if id == x {
        assert Holds(v, at, x);
      } else {
        assert Somewhere(w, id);
        var p :| Holds(w, p, id);
        assert Holds(v, p, id);
      }
    }
  }

  lemma LetGoKept(w: World)
    requires Inv(w) && Enabled(w, LetGo)
    ensures Inv(Next(w, LetGo))
  {
    var v := Next(w, LetGo);
    forall p, x ensures Holds(v, p, x) <==> Holds(w, p, x) && p != InHand {}
    Dropped(w, v, InHand, w.marked.value);
  }

  lemma FinishKept(w: World, k: nat)
    requires Inv(w) && k in w.running
    ensures Inv(Next(w, Finish(k)))
  {
    hide Inv;
    var v := Next(w, Finish(k));
    forall p, x ensures Holds(v, p, x) <==> Holds(w, p, x) && p != On(k) {}
    Dropped(w, v, On(k), w.running[k]);
  }

  /** The new last position of the queue changes places with the dispatcher's hand. */
  function HandSwap(queue: Queue, n: nat, p: Place): Place {
    if p == InHand then InQueue(queue, n) else if p == InQueue(queue, n) then InHand else p
  }

  lemma QueuedKept(w: World, queue: Queue)
    requires Inv(w) && w.marked.Some?
    ensures Inv(Queued(w, queue))
  {
    hide Inv;
    var v, n := Queued(w, queue), |Items(w, queue)|;
    var swap := (p: Place) => HandSwap(queue, n, p);
    forall p, id ensures Holds(v, p, id) <==> Holds(w, swap(p), id) { EnqueuedAt(w, queue, p, id); }
    Moved(w, v, swap, swap);
  }

  lemma EnqueueKept(w: World)
    requires Inv(w) && Enabled(w, Enqueue)
    ensures Inv(Next(w, Enqueue))
  {
    hide Inv;
    QueuedKept(w, QueueOf(w, w.marked.value));
  }

  lemma EnqueuedAt(w: World, queue: Queue, p: Place, id: Id)
    requires w.marked.Some?
    ensures Holds(Queued(w, queue), p, id) <==> Holds(w, HandSwap(queue, |Items(w, queue)|, p), id)
  {}

  /** The head of the queue goes to the goroutine, and the others move up. */
  function TakeBack(k: nat, queue: Queue, p: Place): Place {
    match p
    case InQueue(q, i) => if q == queue then InQueue(q, i + 1) else p
    case On(l) => if l == k then InQueue(queue, 0) else p
    case InHand => p
  }

  function TakeForth(k: nat, queue: Queue, p: Place): Place {
    match p
    case InQueue(q, i) => if q != queue then p else if i == 0 then On(k) else InQueue(q, i - 1)
    case _ => p
  }

  lemma TakenAt(w: World, k: nat, queue: Queue, p: Place, id: Id)
    requires Enabled(w, Take(k, queue))
    ensures Holds(Next(w, Take(k, queue)), p, id) <==> Holds(w, TakeBack(k, queue, p), id)
  {}

  lemma TakeKept(w: World, k: nat, queue: Queue)
    requires Inv(w) && Enabled(w, Take(k, queue))
    ensures Inv(Next(w, Take(k, queue)))
  {
    hide Inv;
    var v := Next(w, Take(k, queue));
    var back, forth := (p: Place) => TakeBack(k, queue, p), (p: Place) => TakeForth(k, queue, p);
    forall p, id ensures Holds(v, p, id) <==> Holds(w, back(p), id) { TakenAt(w, k, queue, p, id); }
    forall p, id | Holds(w, p, id) ensures back(forth(p)) == p { assert p != On(k); }
    Moved(w, v, back, forth);
  }

  lemma {:induction false} InvAlways(spaced: set<string>, events: seq<Event>)
    requires Reachable(spaced, events)
    ensures Inv(After(spaced, events))
    decreases |events|
  {
    hide Inv, Next;
    if events == [] {
      StartInv(spaced);
    } else {
      var w, e := After(spaced, events[..|events| - 1]), events[|events| - 1];
      InvAlways(spaced, events[..|events| - 1]);
      match e
      case MarkNew(id) => MarkKept(w, id);
      case Create(_, _) => PlacesSame(w, e);
      case Delete(_) => PlacesSame(w, e);
      case SkipQueued(_) => PlacesSame(w, e);
      case Enqueue => EnqueueKept(w);
      case LetGo => LetGoKept(w);
      case Take(k, q) => TakeKept(w, k, q);
      case Finish(k) => FinishKept(w, k);
    }
  }

  lemma PlacesSame(w: World, e: Event)
    requires Inv(w) && Enabled(w, e) && (e.Create? || e.Delete? || e.SkipQueued?)
    ensures Inv(Next(w, e))
  {
    hide Inv;
    var v, same := Next(w, e), (p: Place) => p;
    forall p, id ensures Holds(v, p, id) <==> Holds(w, same(p), id) {}
    Moved(w, v, same, same);
  }

  lemma StartInv(spaced: set<string>)
    ensures Inv(Start(spaced))
  {}

  // ---- what every interleaving guarantees ------------------------------------------------------

  /** A topic is never checked twice at once. */
  lemma OneCheckPerTopic(spaced: set<string>, events: seq<Event>, k: nat, l: nat)
    requires Reachable(spaced, events) && k in After(spaced, events).running && l in After(spaced, events).running
    requires After(spaced, events).running[k] == After(spaced, events).running[l]
    ensures k == l
  {
    hide Reachable, After;
    InvAlways(spaced, events);
    var id := After(spaced, events).running[k];
    assert Holds(After(spaced, events), On(k), id) && Holds(After(spaced, events), On(l), id);
  }

  /** A queue holds each topic once, and none that is being checked. */
  lemma QueuesHoldTopicsOnce(spaced: set<string>, events: seq<Event>, q: Queue, i: nat, r: Queue, j: nat)
    requires Reachable(spaced, events) && i < |Items(After(spaced, events), q)| && j < |Items(After(spaced, events), r)|
    ensures Items(After(spaced, events), q)[i] == Items(After(spaced, events), r)[j] ==> q == r && i == j
    ensures forall k | k in After(spaced, events).running :: After(spaced, events).running[k] != Items(After(spaced, events), q)[i]
  {
    hide Reachable, After;
    InvAlways(spaced, events);
    var w := After(spaced, events);
    var id := Items(w, q)[i];
    assert Holds(w, InQueue(q, i), id) && Holds(w, InQueue(r, j), Items(w, r)[j]);
    forall k | k in w.running ensures w.running[k] != id { assert Holds(w, On(k), w.running[k]); }
  }

  /**
   * Whenever the dispatcher has no topic in hand, the marked topics are exactly those
   * queued or being checked: none is lost, none is held back for ever.
   */
  lemma MarkedIsSomewhere(spaced: set<string>, events: seq<Event>, id: Id)
    requires Reachable(spaced, events) && After(spaced, events).marked.None?
    ensures id in After(spaced, events).inflight <==> exists p: Place :: !p.InHand? && Holds(After(spaced, events), p, id)
  {
    hide Reachable, After;
    InvAlways(spaced, events);
    var w := After(spaced, events);
    if id in w.inflight {
      assert Somewhere(w, id);
      var p :| Holds(w, p, id);
      assert !p.InHand?;
    }
  }

  /** The queue a topic belongs in: its tracker's lane when that tracker is spaced. */
  predicate Belongs(w: World, id: Id, q: Queue) {
    id in w.topics && if w.topics[id] in w.spaced then q == Lane(w.topics[id]) else q == Shared
  }

  /**
   * Nothing waits in vain: a due topic can be marked unless it already is, a marked one
   * queued at the end of its queue, the first of a queue taken by any idle worker, and
   * once its check is over it can be marked again.
   */
  lemma NothingStuck(spaced: set<string>, events: seq<Event>, id: Id, k: nat, q: Queue)
    requires Reachable(spaced, events)
    ensures var w := After(spaced, events);
      && (w.marked.None? && id in w.topics && id !in w.inflight ==> Enabled(w, MarkNew(id)) && Next(w, MarkNew(id)).marked == Some(id))
      && (w.marked == Some(id) && Belongs(w, id, q) ==>
            Enabled(w, Enqueue) && Items(Next(w, Enqueue), q) == Items(w, q) + [id] && Next(w, Enqueue).marked.None?)
      && (w.marked.Some? ==> Belongs(w, w.marked.value, Shared) || exists t :: Belongs(w, w.marked.value, Lane(t)))
      && (k !in w.running && Items(w, q) != [] ==>
            && Enabled(w, Take(k, q)) && k in Next(w, Take(k, q)).running && Next(w, Take(k, q)).running[k] == Items(w, q)[0]
            && Items(Next(w, Take(k, q)), q) == Items(w, q)[1..])
      && (k in w.running && w.running[k] == id ==> Enabled(w, Finish(k)) && id !in Next(w, Finish(k)).inflight)
  {
    hide Reachable, After;
    AtHomeAlways(spaced, events);
    InvAlways(spaced, events);
    var w := After(spaced, events);
    if w.marked.Some? {
      assert Holds(w, InHand, w.marked.value);
      if w.topics[w.marked.value] in w.spaced { assert Belongs(w, w.marked.value, Lane(w.topics[w.marked.value])); }
    }
  }

  // ---- how long a lane gets --------------------------------------------------------------------

  /** Every topic in sight is known, and stands in the queue its tracker asks for. */
  ghost predicate AtHome(w: World) {
    && (forall id | id in w.inflight :: id in w.topics)
    && (forall q, i | 0 <= i < |Items(w, q)| :: Items(w, q)[i] in w.topics && q == QueueOf(w, Items(w, q)[i]))
  }

  lemma AtHomeKept(w: World, e: Event)
    requires AtHome(w) && Enabled(w, e)
    ensures AtHome(Next(w, e))
  {
    var v := Next(w, e);
    forall q, i | 0 <= i < |Items(v, q)| ensures Items(v, q)[i] in v.topics && q == QueueOf(v, Items(v, q)[i]) {
      if e.Take? && q == e.queue {
        assert Items(v, q)[i] == Items(w, q)[i + 1];
      } else if i < |Items(w, q)| {
        assert Items(v, q)[i] == Items(w, q)[i];
      }
    }
  }

  lemma {:induction false} AtHomeAlways(spaced: set<string>, events: seq<Event>)
    requires Reachable(spaced, events)
    ensures AtHome(After(spaced, events)) && After(spaced, events).spaced == spaced
    decreases |events|
  {
    hide AtHome;
    if events == [] {
      StartAtHome(spaced);
    } else {
      AtHomeAlways(spaced, events[..|events| - 1]);
      AtHomeKept(After(spaced, events[..|events| - 1]), events[|events| - 1]);
    }
  }

  lemma StartAtHome(spaced: set<string>)
    ensures AtHome(Start(spaced))
  {}

  function TopicsOf(w: World, tracker: string): set<Id> {
    set id | id in w.topics && w.topics[id] == tracker && id !in w.deleted
  }

  /** The topics of a queue that are no longer there, deleted before they were queued or since. */
  function GoneIn(w: World, q: Queue): set<Id> {
    set id | id in Items(w, q) && id in w.deleted
  }

  /** The other topics of a queue. */
  function WaitingIn(w: World, q: Queue): set<Id> {
    set id | id in Items(w, q) && id !in w.deleted
  }

  lemma {:induction false} NoRepeatsSize(s: seq<Id>, all: set<Id>)
    requires forall i, j | 0 <= i < j < |s| :: s[i] != s[j]
    requires forall id :: id in s <==> id in all
    ensures |s| == |all|
    decreases |s|
  {
    if s == [] {
      assert all == {};
    } else {
      var n := |s| - 1;
      var head := s[..n];
      assert s == head + [s[n]];
      NoRepeatsSize(head, all - {s[n]});
    }
  }

  /**
   * A lane holds topics of its own tracker only, each once, and those that are still
   * there are among its tracker's topics.
   */
  lemma LaneHoldsItsOwn(spaced: set<string>, events: seq<Event>, tracker: string)
    requires Reachable(spaced, events)
    ensures var w, q := After(spaced, events), Lane(tracker);
      && (forall id | id in Items(w, q) :: id in w.topics && w.topics[id] == tracker && tracker in spaced)
      && |Items(w, q)| == |WaitingIn(w, q)| + |GoneIn(w, q)| && WaitingIn(w, q) <= TopicsOf(w, tracker)
  {
    hide Reachable, After, AtHome, TopicsOf, GoneIn, WaitingIn;
    var w, q := After(spaced, events), Lane(tracker);
    var lane := Items(w, q);
    AtHomeAlways(spaced, events);
    forall i, j | 0 <= i < j < |lane| ensures lane[i] != lane[j] {
      QueuesHoldTopicsOnce(spaced, events, q, i, q, j);
    }
    LaneSplit(w, q);
    NoRepeatsSize(lane, WaitingIn(w, q) + GoneIn(w, q));
    forall id | id in lane
      ensures id in w.topics && w.topics[id] == tracker && tracker in spaced
      ensures id in WaitingIn(w, q) ==> id in TopicsOf(w, tracker)
    {
      var i :| 0 <= i < |lane| && lane[i] == id;
      LaneMember(w, tracker, i);
    }
  }

  lemma LaneSplit(w: World, q: Queue)
    ensures WaitingIn(w, q) !! GoneIn(w, q)
    ensures forall id :: id in Items(w, q) <==> id in WaitingIn(w, q) + GoneIn(w, q)
  {}

  lemma LaneMember(w: World, tracker: string, i: nat)
    requires AtHome(w) && i < |Items(w, Lane(tracker))|
    ensures var id := Items(w, Lane(tracker))[i];
      && id in w.topics && w.topics[id] == tracker && tracker in w.spaced
      && (id in WaitingIn(w, Lane(tracker)) ==> id in TopicsOf(w, tracker))
  {
    assert QueueOf(w, Items(w, Lane(tracker))[i]) == Lane(tracker);
  }

  /** The lane is no longer than its tracker has topics. */
  predicate Bounded(w: World, tracker: string) { |Items(w, Lane(tracker))| <= |TopicsOf(w, tracker)| }

  /** The step deletes a topic the scheduler has marked, or marks one that is already deleted. */
  predicate MixesDeleted(w: World, e: Event) {
    (e.Delete? && e.id in w.inflight) || (e.MarkNew? && e.id in w.deleted)
  }

  lemma {:induction false} ReachablePrefix(spaced: set<string>, events: seq<Event>, k: nat)
    requires Reachable(spaced, events) && k <= |events|
    ensures Reachable(spaced, events[..k])
    ensures k < |events| ==>
              && Enabled(After(spaced, events[..k]), events[k]) && Reachable(spaced, events[..k + 1])
              && After(spaced, events[..k + 1]) == Next(After(spaced, events[..k]), events[k])
    decreases |events|
  {
    hide Enabled, Next;
    var n := |events| - 1;
    assert events[..|events|] == events;
    if k == n {
      assert events[..k + 1] == events;
    } else if k < n {
      ReachablePrefix(spaced, events[..n], k);
      assert events[..n][..k] == events[..k] && events[..n][..k + 1] == events[..k + 1];
    }
  }

  /** The state before step k of the run. */
  function At(spaced: set<string>, events: seq<Event>, k: nat): World
    requires Reachable(spaced, events) && k <= |events|
  {
    ReachablePrefix(spaced, events, k);
    After(spaced, events[..k])
  }

  lemma StepAt(spaced: set<string>, events: seq<Event>, k: nat)
    requires Reachable(spaced, events) && k < |events|
    ensures Enabled(At(spaced, events, k), events[k])
    ensures At(spaced, events, k + 1) == Next(At(spaced, events, k), events[k])
  {
    hide Enabled, Next, Reachable, After;
    ReachablePrefix(spaced, events, k);
  }

  lemma AtEnds(spaced: set<string>, events: seq<Event>)
    requires Reachable(spaced, events)
    ensures At(spaced, events, 0) == Start(spaced) && At(spaced, events, |events|) == After(spaced, events)
  {
    hide Enabled, Next;
    assert events[..|events|] == events;
  }

  lemma {:induction false} NoneGone(spaced: set<string>, events: seq<Event>, k: nat)
    requires Reachable(spaced, events) && k <= |events|
    requires forall j | 0 <= j < |events| :: !MixesDeleted(At(spaced, events, j), events[j])
    ensures At(spaced, events, k).inflight !! At(spaced, events, k).deleted
  {
    hide At, Reachable, Items, QueueOf;
    if k == 0 {
      AtEnds(spaced, events);
    } else {
      NoneGone(spaced, events, k - 1);
      StepAt(spaced, events, k - 1);
    }
  }

  /**
   * While no marked topic is deleted and no deleted one marked, a lane never holds more
   * than its tracker's topics.
   */
  lemma LaneIsBounded(spaced: set<string>, events: seq<Event>, tracker: string)
    requires Reachable(spaced, events)
    requires forall k | 0 <= k < |events| :: !MixesDeleted(At(spaced, events, k), events[k])
    ensures Bounded(After(spaced, events), tracker)
  {
    hide Reachable, After, At, MixesDeleted, Inv, TopicsOf, WaitingIn;
    var w, q := After(spaced, events), Lane(tracker);
    NoneGone(spaced, events, |events|);
    AtEnds(spaced, events);
    LaneHoldsItsOwn(spaced, events, tracker);
    forall id | id in Items(w, q) ensures id in w.inflight { QueuedIsMarked(spaced, events, q, id); }
    assert GoneIn(w, q) == {};
    PartIsSmaller(WaitingIn(w, q), TopicsOf(w, tracker));
  }

  lemma QueuedIsMarked(spaced: set<string>, events: seq<Event>, q: Queue, id: Id)
    requires Reachable(spaced, events) && id in Items(After(spaced, events), q)
    ensures id in After(spaced, events).inflight
  {
    hide Reachable, After;
    InvAlways(spaced, events);
    var w := After(spaced, events);
    var i :| 0 <= i < |Items(w, q)| && Items(w, q)[i] == id;
    assert Holds(w, InQueue(q, i), id);
  }

  lemma {:induction false} PartIsSmaller(a: set<Id>, b: set<Id>)
    requires a <= b
    ensures |a| <= |b|
  {
    if x :| x in a {
      PartIsSmaller(a - {x}, b - {x});
    }
  }

  /** The lane is as long as its tracker has topics, and the step takes a topic away or queues one more. */
  predicate Overfills(w: World, e: Event, tracker: string)
    requires Enabled(w, e)
  {
    && |Items(w, Lane(tracker))| == |TopicsOf(w, tracker)|
    && ((e.Delete? && e.id in TopicsOf(w, tracker)) || (e.Enqueue? && QueueOf(w, w.marked.value) == Lane(tracker)))
  }

  lemma BoundStep(w: World, e: Event, tracker: string)
    requires Enabled(w, e) && Bounded(w, tracker)
    ensures Bounded(Next(w, e), tracker) <==> !Overfills(w, e, tracker)
  {
    hide TopicsOf, Next, QueueOf, Items;
    TopicsStep(w, e, tracker);
    LaneStep(w, e, tracker);
    var live := TopicsOf(w, tracker);
    if e.Create? { assert live <= TopicsOf(Next(w, e), tracker); PartIsSmaller(live, TopicsOf(Next(w, e), tracker)); }
    if e.Delete? && e.id in live { assert |live - {e.id}| == |live| - 1; }
    if e.Delete? && e.id !in live { assert live - {e.id} == live; }
  }

  lemma LaneStep(w: World, e: Event, tracker: string)
    requires Enabled(w, e)
    ensures var before, after := |Items(w, Lane(tracker))|, |Items(Next(w, e), Lane(tracker))|;
      if e.Enqueue? && QueueOf(w, w.marked.value) == Lane(tracker) then after == before + 1
      else after <= before && (!e.Take? ==> after == before)
  {}

  lemma TopicsStep(w: World, e: Event, tracker: string)
    requires Enabled(w, e)
    ensures TopicsOf(Next(w, e), tracker) ==
      match e
      case Create(id, t) => if t == tracker && id !in w.deleted then TopicsOf(w, tracker) + {id} else TopicsOf(w, tracker)
      case Delete(id) => TopicsOf(w, tracker) - {id}
      case _ => TopicsOf(w, tracker)
  {
    hide Items, QueueOf;
  }

  /** Over a whole run the lane stays within its tracker's topics exactly when no step overfills it. */
  lemma LaneBoundExactly(spaced: set<string>, events: seq<Event>, tracker: string)
    requires Reachable(spaced, events)
    ensures forall k | 0 <= k < |events| :: Enabled(At(spaced, events, k), events[k])
    ensures (forall k | 0 <= k <= |events| :: Bounded(At(spaced, events, k), tracker)) <==>
              forall k | 0 <= k < |events| :: !Overfills(At(spaced, events, k), events[k], tracker)
  {
    hide At, Reachable, Enabled, Next, Bounded, Overfills;
    forall k | 0 <= k < |events| ensures Enabled(At(spaced, events, k), events[k]) { StepAt(spaced, events, k); }
    if forall k | 0 <= k <= |events| :: Bounded(At(spaced, events, k), tracker) {
      forall k | 0 <= k < |events| ensures !Overfills(At(spaced, events, k), events[k], tracker) {
        StepAt(spaced, events, k);
        assert Bounded(At(spaced, events, k), tracker) && Bounded(At(spaced, events, k + 1), tracker);
        BoundStep(At(spaced, events, k), events[k], tracker);
      }
    }
    if forall k | 0 <= k < |events| :: !Overfills(At(spaced, events, k), events[k], tracker) {
      forall k | 0 <= k <= |events| ensures Bounded(At(spaced, events, k), tracker) {
        BoundedUpTo(spaced, events, k, tracker);
      }
    }
  }

  lemma {:induction false} BoundedUpTo(spaced: set<string>, events: seq<Event>, k: nat, tracker: string)
    requires Reachable(spaced, events) && k <= |events|
    requires forall j | 0 <= j < |events| :: Enabled(At(spaced, events, j), events[j]) && !Overfills(At(spaced, events, j), events[j], tracker)
    ensures Bounded(At(spaced, events, k), tracker)
  {
    hide At, Reachable, Enabled, Next, Overfills;
    if k == 0 {
      AtEnds(spaced, events);
    } else {
      BoundedUpTo(spaced, events, k - 1, tracker);
      StepAt(spaced, events, k - 1);
      BoundStep(At(spaced, events, k - 1), events[k - 1], tracker);
    }
  }

  /** A deleted topic keeps its place: a lane can be longer than its tracker has topics. */
  lemma LaneKeepsDeleted(id: Id, tracker: string)
    ensures var events := [Create(id, tracker), MarkNew(id), Enqueue, Delete(id)];
      && Reachable({tracker}, events)
      && |Items(After({tracker}, events), Lane(tracker))| == 1
      && TopicsOf(After({tracker}, events), tracker) == {}
  {
    hide Reachable, After;
    var e0, e1, e2, e3 := Create(id, tracker), MarkNew(id), Enqueue, Delete(id);
    NoEvents({tracker});
    EventNext({tracker}, [], e0);
    assert [] + [e0] == [e0];
    EventNext({tracker}, [e0], e1);
    assert [e0] + [e1] == [e0, e1];
    EventNext({tracker}, [e0, e1], e2);
    assert [e0, e1] + [e2] == [e0, e1, e2];
    EventNext({tracker}, [e0, e1, e2], e3);
    assert [e0, e1, e2] + [e3] == [e0, e1, e2, e3];
  }

  lemma NoEvents(spaced: set<string>)
    ensures Reachable(spaced, []) && After(spaced, []) == Start(spaced)
  {}

  lemma EventNext(spaced: set<string>, events: seq<Event>, e: Event)
    requires Reachable(spaced, events) && Enabled(After(spaced, events), e)
    ensures Reachable(spaced, events + [e]) && After(spaced, events + [e]) == Next(After(spaced, events), e)
  {
    hide Enabled, Next;
    assert (events + [e])[..|events|] == events;
  }
}
