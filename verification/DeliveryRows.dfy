/**
 * The calls of a topic's deliveries joined to its rows: any number of
 * deliveries, interleaved call by call, with rows pruned in between.
 */
module DeliveryRows {
  import opened Common
  import opened TorrentLayout
  import opened DeliveryPlan
  import opened DeliveryRun
  import opened DeliverySafety
  import History = DeliveryHistory

  /** A payload is planned, a delivery makes a call and gets its answer, or rows are pruned. */
  datatype Act =
    | Arrives(event: History.Event, folder: Folder)
    | Calls(id: nat, call: Call)
    | Prunes(gone: set<string>)

  /** One delivery: what it was decided by and the calls it has made. */
  datatype Run = Run(order: Order, hash: Option<string>, calls: seq<Call>)

  /** A topic: what its store went through and the deliveries that made it so. */
  datatype Joint = Joint(events: seq<History.Event>, runs: map<nat, Run>)

  /**
   * What a call means to the rows. A delivery reports its selection done by
   * storing the list; the store may refuse. A torrent without a hash has no row.
   */
  function EventsOf(id: nat, run: Run, c: Call): seq<History.Event> {
    match c
    case Add(_, true) => [History.Added(id)]
    case Record(_, true) => if run.hash.Some? then [History.Recorded(id)] else []
    case SetFiles(_, ok) => [History.SelectionDone(id)] + if ok then [History.FilesStored(id)] else []
    case _ => []
  }

  predicate HasStored(calls: seq<Call>) {
    exists k :: 0 <= k < |calls| && calls[k].SetFiles?
  }

  ghost predicate Tracks(d: History.Delivery, run: Run) {
    && d.plan == run.order.plan && WellFormed(d.plan) && d.hash == run.hash
    && Lawful(run.order, run.calls)
    && d.added == Seen(run.order, run.calls).added
    && d.selected == HasStored(run.calls)
  }

  /** The rows' history is that of the deliveries. */
  ghost predicate Valid(j: Joint) {
    && History.Possible(j.events)
    && var h := History.After(j.events);
       h.deliveries.Keys == j.runs.Keys && forall id | id in j.runs :: Tracks(h.deliveries[id], j.runs[id])
  }

  ghost predicate MayAct(j: Joint, a: Act) {
    match a
    case Arrives(event, _) => event.Planned? && event.id !in j.runs
    case Calls(id, call) =>
      id in j.runs && Allowed(j.runs[id].order, Seen(j.runs[id].order, j.runs[id].calls), call)
    case Prunes(_) => true
  }

  ghost function Next(j: Joint, a: Act): (r: Joint)
    requires Valid(j) && MayAct(j, a)
  {
    match a
    case Arrives(e, folder) =>
      var order := Order(History.PlanFor(History.After(j.events), e), folder, e.topic.addPausedOnUpdate);
      Joint(j.events + [e], j.runs[e.id := Run(order, e.hash, [])])
    case Calls(id, c) =>
      var run := j.runs[id];
      Joint(j.events + EventsOf(id, run, c), j.runs[id := run.(calls := run.calls + [c])])
    case Prunes(gone) => j.(events := j.events + [History.Pruned(gone)])
  }

  lemma EventNext(events: seq<History.Event>, e: History.Event)
    requires History.Possible(events) && History.Enabled(History.After(events), e)
    ensures History.Possible(events + [e])
    ensures History.After(events + [e]) == History.Step(History.After(events), e)
  {
    assert (events + [e])[..|events|] == events;
  }

  lemma NewRun(order: Order)
    ensures Lawful(order, []) && !Seen(order, []).added && !HasStored([])
  {}

  lemma CallSeen(run: Run, c: Call)
    requires Lawful(run.order, run.calls) && Allowed(run.order, Seen(run.order, run.calls), c)
    ensures var more := run.calls + [c];
      && Lawful(run.order, more)
      && Seen(run.order, more).added == (Seen(run.order, run.calls).added || c == Add(c.Add? && c.paused, true))
      && HasStored(more) == (HasStored(run.calls) || c.SetFiles?)
  {
    hide Allowed, See, Seen;
    LawfulNext(run.order, run.calls, c);
    SeeAdded(run.order, Seen(run.order, run.calls), c);
    var more := run.calls + [c];
    assert c.SetFiles? ==> more[|run.calls|].SetFiles?;
    if HasStored(run.calls) {
      var k :| 0 <= k < |run.calls| && run.calls[k].SetFiles?;
      assert more[k].SetFiles?;
    }
  }

  lemma SeeAdded(o: Order, s: Summary, c: Call)
    ensures See(o, s, c).added == (s.added || (c.Add? && c.ok))
  {}

  /** What the call changes in the store's view of its delivery. */
  function Told(d: History.Delivery, c: Call): History.Delivery {
    d.(added := d.added || (c.Add? && c.ok), selected := d.selected || c.SetFiles?)
  }

  /** What a call means to its delivery keeps the two in step. */
  lemma ToldTracks(d: History.Delivery, run: Run, c: Call)
    requires Tracks(d, run) && Allowed(run.order, Seen(run.order, run.calls), c)
    ensures Tracks(Told(d, c), run.(calls := run.calls + [c]))
    ensures c.Record? || c.SetFiles? ==> d.added
    ensures c.SetFiles? ==> d.plan.selection.Some? && d.plan.files.Some?
    ensures d.hash == run.hash
  {
    hide Seen, Lawful, Allowed, WellFormed, HasStored;
    CallSeen(run, c);
    CallNeeds(run.order, Seen(run.order, run.calls), c);
  }

  /** What an allowed call means to the rows can happen to them, and they keep tracking its delivery. */
  lemma CallTracked(events: seq<History.Event>, id: nat, run: Run, c: Call)
    requires History.Possible(events)
    requires id in History.After(events).deliveries && Tracks(History.After(events).deliveries[id], run)
    requires Allowed(run.order, Seen(run.order, run.calls), c)
    ensures var more := events + EventsOf(id, run, c);
      && History.Possible(more)
      && var h, next := History.After(events).deliveries, History.After(more).deliveries;
         next == h[id := Told(h[id], c)] && Tracks(next[id], run.(calls := run.calls + [c]))
  {
    hide Seen, Allowed, Tracks, History.After, History.Possible, History.Step, History.Enabled;
    var h := History.After(events);
    ToldTracks(h.deliveries[id], run, c);
    match c
    case Add(_, true) => OneEvent(events, id, h.deliveries[id], History.Added(id), c);
    case Record(_, true) =>
      if run.hash.Some? {
        OneEvent(events, id, h.deliveries[id], History.Recorded(id), c);
      } else {
        NoEvent(events, id, run, c);
      }
    case SetFiles(_, ok) =>
      var done := events + [History.SelectionDone(id)];
      OneEvent(events, id, h.deliveries[id], History.SelectionDone(id), c);
      if ok {
        StoreEvent(done, id, History.After(done).deliveries[id]);
        assert done + [History.FilesStored(id)] == events + EventsOf(id, run, c);
      } else {
        assert done == events + EventsOf(id, run, c);
      }
    case _ => NoEvent(events, id, run, c);
  }

  lemma NoEvent(events: seq<History.Event>, id: nat, run: Run, c: Call)
    requires EventsOf(id, run, c) == [] && History.Possible(events) && id in History.After(events).deliveries
    requires !c.SetFiles? && !(c.Add? && c.ok)
    ensures events + EventsOf(id, run, c) == events
    ensures History.After(events).deliveries == History.After(events).deliveries[id := Told(History.After(events).deliveries[id], c)]
  {
    hide History.After;
  }

  /** The one event of a call, and what it tells the store of the delivery. */
  lemma OneEvent(events: seq<History.Event>, id: nat, d: History.Delivery, e: History.Event, c: Call)
    requires History.Possible(events) && id in History.After(events).deliveries && History.After(events).deliveries[id] == d
    requires || (e == History.Added(id) && c.Add? && c.ok)
             || (e == History.Recorded(id) && c.Record? && d.added && d.hash.Some?)
             || (e == History.SelectionDone(id) && c.SetFiles? && d.added && d.plan.selection.Some?)
    ensures History.Possible(events + [e])
    ensures History.After(events + [e]).deliveries == History.After(events).deliveries[id := Told(d, c)]
  {
    hide History.After, History.Insert, History.SetFiles, History.Prune, FilesAtRecord;
    EventNext(events, e);
  }

  lemma StoreEvent(events: seq<History.Event>, id: nat, d: History.Delivery)
    requires History.Possible(events) && id in History.After(events).deliveries && History.After(events).deliveries[id] == d
    requires d.selected && d.plan.selection.Some? && d.plan.files.Some?
    ensures History.Possible(events + [History.FilesStored(id)])
    ensures History.After(events + [History.FilesStored(id)]).deliveries == History.After(events).deliveries
  {
    hide History.After, History.Insert, History.SetFiles, History.Prune, FilesAtRecord;
    EventNext(events, History.FilesStored(id));
  }

  /** The row there is for the hash, if there is one. */
  predicate RowKept(rows: seq<History.Row>, hash: string, list: Option<seq<TorrentFile>>) {
    History.HasRow(rows, hash) && forall i | 0 <= i < |rows| && rows[i].hash == hash :: rows[i].files == list
  }

  /**
   * What a call leaves in the rows: a recorded torrent has a row, with its list unless a
   * selection is still to run or it had one; a stored list is in every row of its torrent.
   */
  lemma CallWritesRows(j: Joint, id: nat, c: Call)
    requires Valid(j) && MayAct(j, Calls(id, c))
    ensures var run, rows, next := j.runs[id], History.After(j.events).rows, Next(j, Calls(id, c)).events;
      && History.Possible(next)
      && (c.Record? && c.ok && run.hash.Some? ==> History.HasRow(History.After(next).rows, run.hash.value))
      && (c.Record? && c.ok && run.hash.Some? && !History.HasRow(rows, run.hash.value) ==>
            RowKept(History.After(next).rows, run.hash.value, if run.order.plan.selection.Some? then None else run.order.plan.files))
      && (c.SetFiles? && c.ok && run.order.plan.selection.Some? && History.HasRow(rows, run.order.plan.selection.value.hash) ==>
            RowKept(History.After(next).rows, run.order.plan.selection.value.hash, Some(c.files)))
      && (!c.Record? && !c.SetFiles? ==> History.After(next).rows == rows)
  {
    hide Seen, Allowed, Tracks, Lawful, History.After, History.Possible, History.Enabled, RowKept, History.HasRow;
    var run, h := j.runs[id], History.After(j.events);
    var d := h.deliveries[id];
    CallTracked(j.events, id, run, c);
    ToldTracks(d, run, c);
    SamePlan(d, run);
    match c
    case Add(_, true) => EventNext(j.events, History.Added(id));
    case Record(_, true) =>
      if run.hash.Some? {
        OneEvent(j.events, id, d, History.Recorded(id), c);
        RecordRows(j.events, id, d);
      } else {
        NoEvent(j.events, id, run, c);
      }
    case SetFiles(files, ok) =>
      StoresPlan(run.order, Seen(run.order, run.calls), c);
      if ok {
        var done := j.events + [History.SelectionDone(id)];
        OneEvent(j.events, id, d, History.SelectionDone(id), c);
        StoreRows(j.events, id, d);
        assert done + [History.FilesStored(id)] == j.events + EventsOf(id, run, c);
      }
    case _ => NoEvent(j.events, id, run, c);
  }

  lemma SamePlan(d: History.Delivery, run: Run)
    requires Tracks(d, run)
    ensures d.plan == run.order.plan && d.hash == run.hash
  {}

  lemma StoresPlan(o: Order, s: Summary, c: Call)
    requires c.SetFiles? && Allowed(o, s, c)
    ensures o.plan.files == Some(c.files)
  {}

  lemma RecordRows(events: seq<History.Event>, id: nat, d: History.Delivery)
    requires History.Possible(events) && id in History.After(events).deliveries && History.After(events).deliveries[id] == d
    requires d.added && d.hash.Some?
    ensures History.Possible(events + [History.Recorded(id)])
    ensures var rows, after := History.After(events).rows, History.After(events + [History.Recorded(id)]).rows;
      && History.HasRow(after, d.hash.value)
      && (!History.HasRow(rows, d.hash.value) ==>
            RowKept(after, d.hash.value, if d.plan.selection.Some? then None else d.plan.files))
  {
    hide History.After, History.Possible;
    EventNext(events, History.Recorded(id));
    var rows, row := History.After(events).rows, History.Row(d.hash.value, FilesAtRecord(d.plan));
    if !History.HasRow(rows, d.hash.value) { assert (rows + [row])[|rows|] == row; }
  }

  lemma StoreRows(events: seq<History.Event>, id: nat, d: History.Delivery)
    requires History.Possible(events) && id in History.After(events).deliveries && History.After(events).deliveries[id] == d
    requires d.added && d.plan.selection.Some? && d.plan.files.Some?
    ensures var done := events + [History.SelectionDone(id)];
      && History.Possible(done) && History.Possible(done + [History.FilesStored(id)])
      && var after := History.After(done + [History.FilesStored(id)]).rows;
         History.HasRow(History.After(events).rows, d.plan.selection.value.hash) ==>
           RowKept(after, d.plan.selection.value.hash, d.plan.files)
  {
    hide History.After, History.Possible;
    var done := events + [History.SelectionDone(id)];
    EventNext(events, History.SelectionDone(id));
    EventNext(done, History.FilesStored(id));
    var rows, after := History.After(events).rows, History.After(done + [History.FilesStored(id)]).rows;
    if History.HasRow(rows, d.plan.selection.value.hash) {
      var i :| 0 <= i < |rows| && rows[i].hash == d.plan.selection.value.hash;
      assert after[i].hash == d.plan.selection.value.hash;
    }
  }

  lemma CallNeeds(o: Order, s: Summary, c: Call)
    requires Allowed(o, s, c)
    ensures c.Record? || c.SetFiles? ==> s.added
    ensures c.SetFiles? ==> o.plan.selection.Some? && o.plan.files.Some?
  {}

  lemma NextValid(j: Joint, a: Act)
    requires Valid(j) && MayAct(j, a)
    ensures Valid(Next(j, a))
  {
    hide Seen, Lawful, Allowed, History.After, History.PlanFor, EventsOf, HasStored;
    match a
    case Arrives(e, folder) =>
      EventNext(j.events, e);
      NewRun(Next(j, a).runs[e.id].order);
      PlanIsWellFormed(History.After(j.events), e);
    case Calls(id, c) => CallTracked(j.events, id, j.runs[id], c);
    case Prunes(gone) => EventNext(j.events, History.Pruned(gone));
  }

  lemma PlanIsWellFormed(h: History.History, e: History.Event)
    requires e.Planned?
    ensures WellFormed(History.PlanFor(h, e))
  {}

  lemma NothingYet()
    ensures Valid(Joint([], map[]))
  {
    assert History.After([]) == History.History([], map[]);
  }

  /** The state after these acts; each of them could happen. */
  ghost predicate Happens(acts: seq<Act>)
    decreases |acts|, 0
  {
    acts == [] ||
    var n := |acts| - 1;
    Happens(acts[..n]) && MayAct(After(acts[..n]), acts[n])
  }

  ghost function After(acts: seq<Act>): (j: Joint)
    requires Happens(acts)
    ensures Valid(j)
    decreases |acts|, 1
  {
    if acts == [] then
      NothingYet();
      Joint([], map[])
    else
      var n := |acts| - 1;
      NextValid(After(acts[..n]), acts[n]);
      Next(After(acts[..n]), acts[n])
  }

  lemma HappensNext(acts: seq<Act>, a: Act)
    requires Happens(acts) && MayAct(After(acts), a)
    ensures Happens(acts + [a]) && After(acts + [a]) == Next(After(acts), a)
  {
    hide MayAct, Next;
    assert (acts + [a])[..|acts|] == acts;
  }

  /** One delivery from its plan on, with nothing else in between. */
  function Alone(e: History.Event, folder: Folder, calls: seq<Call>): seq<Act>
    requires e.Planned?
    decreases |calls|
  {
    if calls == [] then [Arrives(e, folder)]
    else Alone(e, folder, calls[..|calls| - 1]) + [Calls(e.id, calls[|calls| - 1])]
  }

  /** The delivery that an arrival begins. */
  ghost function Begun(j: Joint, e: History.Event, folder: Folder): (r: Run)
    requires Valid(j) && MayAct(j, Arrives(e, folder))
    ensures r.calls == []
    ensures e.id in Next(j, Arrives(e, folder)).runs && Next(j, Arrives(e, folder)).runs[e.id] == r
  {
    Next(j, Arrives(e, folder)).runs[e.id]
  }

  lemma CallNext(j: Joint, id: nat, c: Call)
    requires Valid(j) && id in j.runs && Allowed(j.runs[id].order, Seen(j.runs[id].order, j.runs[id].calls), c)
    ensures MayAct(j, Calls(id, c)) && id in Next(j, Calls(id, c)).runs
    ensures Next(j, Calls(id, c)).runs[id] == j.runs[id].(calls := j.runs[id].calls + [c])
  {
    hide Valid, Allowed, EventsOf;
  }

  /** Every lawful run, so every one the delivery procedure makes, can happen to the topic. */
  lemma {:induction false} LawfulHappens(acts: seq<Act>, e: History.Event, folder: Folder, calls: seq<Call>)
    requires Happens(acts) && MayAct(After(acts), Arrives(e, folder)) && e.Planned?
    requires Lawful(Begun(After(acts), e, folder).order, calls)
    ensures var all := acts + Alone(e, folder, calls);
      && Happens(all) && e.id in After(all).runs
      && After(all).runs[e.id] == Begun(After(acts), e, folder).(calls := calls)
    decreases |calls|
  {
    hide *;
    var begun := Begun(After(acts), e, folder);
    AloneParts(e, folder, calls);
    if calls == [] {
      HappensNext(acts, Arrives(e, folder));
    } else {
      var n := |calls| - 1;
      var before := acts + Alone(e, folder, calls[..n]);
      LastStep(begun.order, calls);
      LawfulHappens(acts, e, folder, calls[..n]);
      CallNext(After(before), e.id, calls[n]);
      HappensNext(before, Calls(e.id, calls[n]));
      assert acts + Alone(e, folder, calls) == before + [Calls(e.id, calls[n])];
      assert calls == calls[..n] + [calls[n]];
    }
  }

  lemma AloneParts(e: History.Event, folder: Folder, calls: seq<Call>)
    requires e.Planned?
    ensures calls == [] ==> Alone(e, folder, calls) == [Arrives(e, folder)]
    ensures calls != [] ==> Alone(e, folder, calls) == Alone(e, folder, calls[..|calls| - 1]) + [Calls(e.id, calls[|calls| - 1])]
  {}

  // ---- the client's files and the rows ------------------------------------------------

  /** Each client names a torrent's files as they are whenever its list fits. */
  ghost predicate HonestClients(j: Joint, truth: map<nat, Mapping>) {
    forall id | id in j.runs && j.runs[id].order.plan.selection.Some? ::
      && id in truth
      && var sel := j.runs[id].order.plan.selection.value;
         Honest(j.runs[id].calls, sel.files, truth[id]) && forall i | i in truth[id] :: truth[id][i] in sel.files
  }

  /** The file was in a torrent that was handed over, and the client was left with it wanted. */
  ghost predicate WantedFrom(run: Run, truth: map<nat, Mapping>, id: nat, f: TorrentFile) {
    && Seen(run.order, run.calls).added && History.HasFile(run.order.plan.files, f)
    && if run.order.plan.selection.None? then SurelySkipped(run.calls) == {}
       else id in truth && LeftWanted(run.calls, truth[id], f)
  }

  /** The torrent of a delivery that offered f has it, and has it wanted. */
  lemma OfferedIsWanted(j: Joint, truth: map<nat, Mapping>, n: nat, f: TorrentFile)
    requires Valid(j) && HonestClients(j, truth) && n < |j.events| && History.Offers(j.events, n, f)
    ensures var id := j.events[n].id; id in j.runs && WantedFrom(j.runs[id], truth, id, f)
  {
    hide Seen, Lawful, Honest, Fits, SurelySkipped, LeftWanted, History.After, History.Step;
    var id := j.events[n].id;
    OfferStands(j.events, n, f);
    var run := j.runs[id];
    if run.order.plan.selection.None? {
      NothingSkipped(run.order, run.calls);
    } else {
      var k :| 0 <= k < |run.calls| && run.calls[k].SetFiles?;
      assert run.calls[..|run.calls|] == run.calls;
      StoredListWasSelected(run.order, run.calls, run.order.plan.selection.value, truth[id], k);
      assert LeftWanted(run.calls[..|run.calls|], truth[id], f);
    }
  }

  /** What an offer says of its delivery stays true of it. */
  lemma OfferStands(events: seq<History.Event>, n: nat, f: TorrentFile)
    requires History.Possible(events) && n < |events| && History.Offers(events, n, f)
    ensures events[n].Added? || events[n].SelectionDone?
    ensures var id, now := events[n].id, History.After(events);
      && id in now.deliveries
      && var d := now.deliveries[id];
         && d.added && History.HasFile(d.plan.files, f)
         && (d.plan.selection.Some? ==> d.selected && f !in d.plan.selection.value.skip)
  {
    hide History.After, History.PlanFor;
    History.PossiblePrefix(events, n);
    History.PossiblePrefix(events, n + 1);
    assert events[..n + 1] == events[..n] + [events[n]];
    EventNext(events[..n], events[n]);
    History.DeliveriesStay(events, n, n + 1);
    History.DeliveriesStay(events, n + 1, |events|);
    assert events[..|events|] == events;
  }

  /**
   * Over any number of interleaved deliveries: a file that a new update will mark "do
   * not download" belongs to an earlier delivery whose torrent was handed over, and
   * whose client was left with that very file wanted.
   */
  lemma SkippedWasWanted(acts: seq<Act>, e: History.Event, folder: Folder, truth: map<nat, Mapping>, f: TorrentFile) returns (id: nat)
    requires Happens(acts) && MayAct(After(acts), Arrives(e, folder)) && HonestClients(After(acts), truth)
    requires var plan := History.PlanFor(History.After(After(acts).events), e);
             plan.selection.Some? && f in plan.selection.value.skip
    ensures id in After(acts).runs && id != e.id && WantedFrom(After(acts).runs[id], truth, id, f)
  {
    hide *;
    var j := After(acts);
    var more := j.events + [e];
    ArrivalEnabled(j, e, folder);
    EventNext(j.events, e);
    assert more[..|j.events|] == j.events;
    History.SkippedWasOffered(more, |j.events|, f);
    var n: nat :| n < |j.events| && History.Offers(more, n, f)
                  && (more[n].Added? || more[n].SelectionDone?) && more[n].id != e.id;
    History.OffersInPrefix(more, |j.events|, n, f);
    id := more[n].id;
    OfferedIsWanted(j, truth, n, f);
  }

  lemma ArrivalEnabled(j: Joint, e: History.Event, folder: Folder)
    requires Valid(j) && MayAct(j, Arrives(e, folder))
    ensures History.Possible(j.events) && e.Planned? && History.Enabled(History.After(j.events), e)
  {
    hide Tracks, History.After;
  }
}
