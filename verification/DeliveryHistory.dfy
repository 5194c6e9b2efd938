/**
 * The delivery rows of one topic over any number of deliveries, with any
 * failure of the client or the store and any pruning of rows in between.
 *
 * A row's file list means "the version that was offered to the user". Whatever
 * an update marks "do not download" is therefore something an earlier delivery
 * offered as wanted.
 */
module DeliveryHistory {
  import opened Common
  import opened TorrentLayout
  import opened SkipSelection
  import opened DeliveryPlan

  datatype Row = Row(hash: string, files: Option<seq<TorrentFile>>)

  // ---- the store's contract ------------------------------------------------------

  /** Rows are kept oldest first; the newest row of another torrent is the baseline, list or no list. */
  function LatestFiles(rows: seq<Row>, exclude: string): (r: Option<seq<TorrentFile>>)
    ensures r.Some? ==> exists i :: 0 <= i < |rows| && rows[i].hash != exclude && rows[i].files == r
  {
    if rows == [] then None
    else
      var last := rows[|rows| - 1];
      if last.hash != exclude then last.files else LatestFiles(rows[..|rows| - 1], exclude)
  }

  /** Record: insert, or nothing when the torrent already has a row. */
  function Insert(rows: seq<Row>, row: Row): seq<Row> {
    if exists i :: 0 <= i < |rows| && rows[i].hash == row.hash then rows else rows + [row]
  }

  function SetFiles(rows: seq<Row>, hash: string, files: seq<TorrentFile>): (r: seq<Row>)
    ensures |r| == |rows|
    ensures forall i | 0 <= i < |rows| :: r[i] == if rows[i].hash == hash then Row(hash, Some(files)) else rows[i]
  {
    seq(|rows|, i requires 0 <= i < |rows| => if rows[i].hash == hash then Row(hash, Some(files)) else rows[i])
  }

  function Prune(rows: seq<Row>, gone: set<string>): (r: seq<Row>)
    ensures forall row | row in r :: row in rows && row.hash !in gone
  {
    if rows == [] then []
    else
      var last := rows[|rows| - 1];
      Prune(rows[..|rows| - 1], gone) + (if last.hash in gone then [] else [last])
  }

  // ---- deliveries as steps ---------------------------------------------------------

  /** A delivery that was planned: whether Add and its selection have succeeded so far. */
  datatype Delivery = Delivery(plan: Plan, hash: Option<string>, added: bool, selected: bool)

  /** What happens. A call that fails, or a process that stops, is a step that never comes. */
  datatype Event =
    | Planned(id: nat, topic: Topic, episodic: bool, canSelect: bool, payload: Payload, hash: Option<string>, readOk: bool)
    | Added(id: nat)
    | Recorded(id: nat)
    | SelectionDone(id: nat)
    | FilesStored(id: nat)
    | Pruned(gone: set<string>)

  datatype History = History(rows: seq<Row>, deliveries: map<nat, Delivery>)

  function PlanFor(h: History, e: Event): Plan
    requires e.Planned?
  {
    var baseline := if e.readOk && e.payload.Torrent? && e.payload.hash.Some?
                    then LatestFiles(h.rows, e.payload.hash.value) else None;
    PlanDelivery(e.topic, e.episodic, e.canSelect, e.payload, baseline)
  }

  predicate Enabled(h: History, e: Event) {
    match e
    case Planned(id, _, _, _, _, _, _) => id !in h.deliveries
    case Added(id) => id in h.deliveries
    case Recorded(id) => id in h.deliveries && h.deliveries[id].added && h.deliveries[id].hash.Some?
    case SelectionDone(id) => id in h.deliveries && h.deliveries[id].added && h.deliveries[id].plan.selection.Some?
    case FilesStored(id) =>
      && id in h.deliveries && h.deliveries[id].selected
      && h.deliveries[id].plan.selection.Some? && h.deliveries[id].plan.files.Some?
    case Pruned(_) => true
  }

  function Step(h: History, e: Event): History
    requires Enabled(h, e)
  {
    match e
    case Planned(id, _, _, _, _, hash, _) => h.(deliveries := h.deliveries[id := Delivery(PlanFor(h, e), hash, false, false)])
    case Added(id) => h.(deliveries := h.deliveries[id := h.deliveries[id].(added := true)])
    case Recorded(id) =>
      var d := h.deliveries[id];
      h.(rows := Insert(h.rows, Row(d.hash.value, FilesAtRecord(d.plan))))
    case SelectionDone(id) => h.(deliveries := h.deliveries[id := h.deliveries[id].(selected := true)])
    case FilesStored(id) =>
      var plan := h.deliveries[id].plan;
      h.(rows := SetFiles(h.rows, plan.selection.value.hash, plan.files.value))
    case Pruned(gone) => h.(rows := Prune(h.rows, gone))
  }

  /** The state after a run; every step of it was enabled. */
  predicate Possible(events: seq<Event>)
    decreases |events|, 0
  {
    events == [] ||
    (Possible(events[..|events| - 1]) && Enabled(After(events[..|events| - 1]), events[|events| - 1]))
  }

  function After(events: seq<Event>): History
    requires Possible(events)
    decreases |events|, 1
  {
    if events == [] then History([], map[])
    else Step(After(events[..|events| - 1]), events[|events| - 1])
  }

  lemma {:induction false} PossiblePrefix(events: seq<Event>, k: nat)
    requires Possible(events) && k <= |events|
    ensures Possible(events[..k])
    ensures k < |events| ==> Enabled(After(events[..k]), events[k])
    decreases |events|
  {
    hide Enabled, After;
    var n := |events| - 1;
    if k == |events| {
      assert events[..k] == events;
    } else if k < n {
      PossiblePrefix(events[..n], k);
      assert events[..n][..k] == events[..k];
    }
  }

  // ---- what was offered --------------------------------------------------------------

  /**
   * Step j offers f as wanted: a delivery without a selection reached the
   * client with f in it, or a delivery's selection succeeded and left f wanted.
   */
  predicate Offers(events: seq<Event>, j: nat, f: TorrentFile)
    requires Possible(events)
  {
    j < |events| &&
    (PossiblePrefix(events, j);
     var h := After(events[..j]);
     match events[j]
     case Added(id) =>
       id in h.deliveries && h.deliveries[id].plan.selection.None? && HasFile(h.deliveries[id].plan.files, f)
     case SelectionDone(id) =>
       && id in h.deliveries && h.deliveries[id].plan.selection.Some?
       && HasFile(h.deliveries[id].plan.files, f) && f !in h.deliveries[id].plan.selection.value.skip
     case _ => false)
  }

  predicate HasFile(files: Option<seq<TorrentFile>>, f: TorrentFile) {
    files.Some? && f in files.value
  }

  /** Some step so far offered f. */
  predicate Offered(events: seq<Event>, f: TorrentFile)
    requires Possible(events)
  {
    exists j: nat :: j < |events| && Offers(events, j, f)
  }

  lemma OffersInPrefix(events: seq<Event>, n: nat, j: nat, f: TorrentFile)
    requires Possible(events) && j < n <= |events|
    ensures Possible(events[..n])
    ensures Offers(events, j, f) <==> Offers(events[..n], j, f)
  {
    hide Enabled, After;
    PossiblePrefix(events, n);
    assert events[..n][..j] == events[..j];
    assert events[..n][j] == events[j];
  }

  lemma OfferedStays(events: seq<Event>, n: nat, f: TorrentFile)
    requires Possible(events) && n <= |events|
    requires Possible(events[..n]) && Offered(events[..n], f)
    ensures Offered(events, f)
  {
    hide Offers;
    var j: nat :| j < n && Offers(events[..n], j, f);
    OffersInPrefix(events, n, j, f);
  }

  // ---- the invariant ------------------------------------------------------------------

  /** Every listed file was offered. */
  ghost predicate Backed(events: seq<Event>, files: Option<seq<TorrentFile>>)
    requires Possible(events)
  {
    forall f | HasFile(files, f) :: Offered(events, f)
  }

  ghost predicate DeliveryBacked(events: seq<Event>, d: Delivery)
    requires Possible(events)
  {
    && WellFormed(d.plan)
    && (d.plan.selection.Some? ==> Backed(events, Some(d.plan.selection.value.skip)))
    && (d.plan.selection.None? && d.added ==> Backed(events, d.plan.files))
    && (d.selected ==> Backed(events, d.plan.files))
  }

  ghost predicate AllBacked(events: seq<Event>, h: History)
    requires Possible(events)
  {
    && (forall i | 0 <= i < |h.rows| :: Backed(events, h.rows[i].files))
    && (forall id | id in h.deliveries :: DeliveryBacked(events, h.deliveries[id]))
  }

  lemma BackedStays(events: seq<Event>, n: nat, files: Option<seq<TorrentFile>>)
    requires Possible(events) && n <= |events| && Possible(events[..n]) && Backed(events[..n], files)
    ensures Backed(events, files)
  {
    hide Offered;
    forall f | HasFile(files, f) ensures Offered(events, f) { OfferedStays(events, n, f); }
  }

  lemma AllBackedStays(events: seq<Event>, n: nat, h: History)
    requires Possible(events) && n <= |events| && Possible(events[..n]) && AllBacked(events[..n], h)
    ensures AllBacked(events, h)
  {
    hide Backed, WellFormed;
    forall i | 0 <= i < |h.rows| ensures Backed(events, h.rows[i].files) { BackedStays(events, n, h.rows[i].files); }
    forall id | id in h.deliveries ensures DeliveryBacked(events, h.deliveries[id]) {
      var d := h.deliveries[id];
      if d.plan.selection.Some? { BackedStays(events, n, Some(d.plan.selection.value.skip)); }
      if Backed(events[..n], d.plan.files) { BackedStays(events, n, d.plan.files); }
    }
  }

  lemma PlanBacked(events: seq<Event>, h: History, e: Event)
    requires Possible(events) && AllBacked(events, h) && e.Planned?
    ensures DeliveryBacked(events, Delivery(PlanFor(h, e), e.hash, false, false))
  {
    hide Offered, PlanDelivery;
  }

  /** Step n itself: what an Added or SelectionDone of a backed delivery offers. */
  lemma OfferBacks(events: seq<Event>, id: nat, d: Delivery)
    requires Possible(events) && events != []
    requires events[|events| - 1] == Added(id) || events[|events| - 1] == SelectionDone(id)
    requires var h := After(events[..|events| - 1]); id in h.deliveries && h.deliveries[id] == d
    requires DeliveryBacked(events, d)
    requires events[|events| - 1].SelectionDone? <==> d.plan.selection.Some?
    ensures Backed(events, d.plan.files)
  {
    hide After, Enabled;
    var n := |events| - 1;
    forall f | HasFile(d.plan.files, f) ensures Offered(events, f) {
      if d.plan.selection.Some? && f in d.plan.selection.value.skip {
        assert HasFile(Some(d.plan.selection.value.skip), f);
      } else {
        assert Offers(events, n, f);
      }
    }
  }

  lemma SetDelivery(events: seq<Event>, h: History, id: nat, d: Delivery)
    requires Possible(events) && AllBacked(events, h) && DeliveryBacked(events, d)
    ensures AllBacked(events, h.(deliveries := h.deliveries[id := d]))
  {
    hide DeliveryBacked, Backed;
  }

  lemma SetRows(events: seq<Event>, h: History, rows: seq<Row>)
    requires Possible(events) && AllBacked(events, h)
    requires forall i | 0 <= i < |rows| :: rows[i] in h.rows || Backed(events, rows[i].files)
    ensures AllBacked(events, h.(rows := rows))
  {
    hide DeliveryBacked, Backed;
  }

  lemma {:induction false} HistoryIsBacked(events: seq<Event>)
    requires Possible(events)
    ensures AllBacked(events, After(events))
    decreases |events|
  {
    hide Backed, DeliveryBacked, Offered, PlanFor, AllBacked;
    if events == [] {
      assert AllBacked(events, History([], map[])) by { NothingYet(events); }
    } else {
      var n := |events| - 1;
      var h, e := After(events[..n]), events[n];
      HistoryIsBacked(events[..n]);
      AllBackedStays(events, n, h);
      if e.Recorded? || e.FilesStored? || e.Pruned? {
        RowsStep(events, h, e);
      } else {
        DeliveryStep(events, h, e);
      }
    }
  }

  lemma NothingYet(events: seq<Event>)
    requires Possible(events)
    ensures AllBacked(events, History([], map[]))
  {}

  lemma RowsStep(events: seq<Event>, h: History, e: Event)
    requires Possible(events) && AllBacked(events, h) && Enabled(h, e)
    requires e.Recorded? || e.FilesStored? || e.Pruned?
    ensures AllBacked(events, Step(h, e))
  {
    hide Backed, Offered, PlanFor, WellFormed;
    if e.Recorded? {
      var d := h.deliveries[e.id];
      var row := Row(d.hash.value, FilesAtRecord(d.plan));
      assert Backed(events, row.files) by { RecordedListBacked(events, d); }
      SetRows(events, h, Insert(h.rows, row));
    } else if e.FilesStored? {
      assert DeliveryBacked(events, h.deliveries[e.id]);
      var plan := h.deliveries[e.id].plan;
      SetRows(events, h, SetFiles(h.rows, plan.selection.value.hash, plan.files.value));
    } else {
      SetRows(events, h, Prune(h.rows, e.gone));
    }
  }

  lemma RecordedListBacked(events: seq<Event>, d: Delivery)
    requires Possible(events) && DeliveryBacked(events, d) && d.added
    ensures Backed(events, FilesAtRecord(d.plan))
  {
    hide Offered;
  }

  lemma DeliveryStep(events: seq<Event>, h: History, e: Event)
    requires events != [] && Possible(events) && AllBacked(events, h) && Enabled(h, e)
    requires e == events[|events| - 1] && h == After(events[..|events| - 1])
    requires e.Planned? || e.Added? || e.SelectionDone?
    ensures AllBacked(events, Step(h, e))
  {
    hide Backed, Offered, PlanFor, WellFormed, After;
    if e.Planned? {
      PlanBacked(events, h, e);
      SetDelivery(events, h, e.id, Delivery(PlanFor(h, e), e.hash, false, false));
    } else {
      var d := h.deliveries[e.id];
      assert DeliveryBacked(events, d);
      if e.SelectionDone? || d.plan.selection.None? { OfferBacks(events, e.id, d); }
      SetDelivery(events, h, e.id, if e.Added? then d.(added := true) else d.(selected := true));
    }
  }

  // ---- the baseline rule ------------------------------------------------------------------

  /**
   * Over every run: when an update is planned, each file it will mark "do not
   * download" was offered as wanted by an earlier step of another delivery.
   */
  lemma SkippedWasOffered(events: seq<Event>, k: nat, f: TorrentFile)
    requires Possible(events) && k < |events| && events[k].Planned?
    requires Possible(events[..k])
    requires var plan := PlanFor(After(events[..k]), events[k]); plan.selection.Some? && f in plan.selection.value.skip
    ensures exists j: nat :: j < k && Offers(events, j, f) && (events[j].Added? || events[j].SelectionDone?) && events[j].id != events[k].id
  {
    hide PlanDelivery, Step, LatestFiles;
    var before := events[..k];
    var h := After(before);
    HistoryIsBacked(before);
    var plan := PlanFor(h, events[k]);
    PlanBacked(before, h, events[k]);
    assert HasFile(Some(plan.selection.value.skip), f);
    var j: nat :| j < k && Offers(before, j, f);
    OffersInPrefix(events, k, j, f);
    PossiblePrefix(events, k);
    DeliveriesStay(events, j, k);
  }

  /** Everything known of the deliveries before still holds now. */
  ghost predicate Remembered(before: History, now: History) {
    forall id | id in before.deliveries ::
      && id in now.deliveries
      && var d, e := before.deliveries[id], now.deliveries[id];
         e.plan == d.plan && e.hash == d.hash && (d.added ==> e.added) && (d.selected ==> e.selected)
  }

  lemma StepRemembers(h: History, e: Event)
    requires Enabled(h, e)
    ensures Remembered(h, Step(h, e))
  {
    hide PlanFor, Insert, FilesAtRecord, SetFiles, Prune;
  }

  /** Deliveries are never forgotten, so a new one is not one that made an offer. */
  lemma {:induction false} DeliveriesStay(events: seq<Event>, j: nat, k: nat)
    requires Possible(events) && j <= k <= |events|
    ensures Possible(events[..j]) && Possible(events[..k])
    ensures Remembered(After(events[..j]), After(events[..k]))
    decreases k - j
  {
    hide Step, Enabled;
    PossiblePrefix(events, j);
    PossiblePrefix(events, k);
    if j < k {
      DeliveriesStay(events, j, k - 1);
      PossiblePrefix(events, k - 1);
      assert events[..k][..k - 1] == events[..k - 1];
      StepRemembers(After(events[..k - 1]), events[k - 1]);
    }
  }

  /**
   * After a selection that did not finish, the next update has nothing to
   * compare with and arrives paused: an older list is never used instead.
   */
  lemma UnfinishedSelectionPauses(rows: seq<Row>, hash: string, older: seq<Row>, t: Topic, payload: Payload)
    requires rows == older + [Row(hash, None)]
    requires payload.Torrent? && payload.hash.Some? && payload.hash.value != hash
    requires StorableFiles(payload).Some? && Applies(t, false) && t.onlyNewFiles
    ensures PlanDelivery(t, false, true, payload, LatestFiles(rows, payload.hash.value))
            == Plan(true, payload.files, None, Some(PausedNoBaseline), false)
  {}

  /** The state before step k of the run. */
  function At(events: seq<Event>, k: nat): History
    requires Possible(events) && k <= |events|
  {
    PossiblePrefix(events, k);
    After(events[..k])
  }

  lemma StepAt(events: seq<Event>, k: nat)
    requires Possible(events) && k < |events|
    ensures Enabled(At(events, k), events[k]) && At(events, k + 1) == Step(At(events, k), events[k])
  {
    hide Enabled, Step;
    PossiblePrefix(events, k);
    PossiblePrefix(events, k + 1);
    assert events[..k + 1][..k] == events[..k];
  }

  predicate HasRow(rows: seq<Row>, hash: string) { exists i :: 0 <= i < |rows| && rows[i].hash == hash }

  predicate NewestIs(rows: seq<Row>, row: Row) { rows != [] && rows[|rows| - 1] == row }

  /** The step adds no row, stores no list for the torrent and does not prune it. */
  predicate LeavesNewest(h: History, e: Event, hash: string)
    requires Enabled(h, e)
  {
    match e
    case Recorded(id) => HasRow(h.rows, h.deliveries[id].hash.value)
    case FilesStored(id) => h.deliveries[id].plan.selection.value.hash != hash
    case Pruned(gone) => hash !in gone
    case _ => true
  }

  lemma NewestStep(h: History, e: Event, row: Row)
    requires Enabled(h, e) && LeavesNewest(h, e, row.hash) && NewestIs(h.rows, row)
    ensures NewestIs(Step(h, e).rows, row)
  {
    hide PlanFor, FilesAtRecord;
  }

  lemma {:induction false} NewestStays(events: seq<Event>, k: nat, n: nat, row: Row)
    requires Possible(events) && k <= n <= |events| && NewestIs(At(events, k).rows, row)
    requires forall j | k <= j < n :: Enabled(At(events, j), events[j]) && LeavesNewest(At(events, j), events[j], row.hash)
    ensures NewestIs(At(events, n).rows, row)
    decreases n - k
  {
    hide At, Possible, Enabled, Step, NewestIs;
    if k < n {
      NewestStays(events, k, n - 1, row);
      StepAt(events, n - 1);
      NewestStep(At(events, n - 1), events[n - 1], row);
    }
  }

  /** A step that records a torrent of which there is no row yet. */
  predicate RecordsNew(h: History, e: Event)
    requires Enabled(h, e)
  {
    e.Recorded? && !HasRow(h.rows, h.deliveries[e.id].hash.value)
  }

  /** An update of another torrent to which only-new-files applies, with a readable list. */
  predicate Comparable(e: Event, hash: string) {
    && e.Planned? && e.payload.Torrent? && e.payload.hash.Some? && e.payload.hash.value != hash
    && StorableFiles(e.payload).Some? && Applies(e.topic, e.episodic) && e.canSelect && e.topic.onlyNewFiles
  }

  /** Nothing after step k adds a row, or changes or prunes the torrent's. */
  ghost predicate Untouched(events: seq<Event>, k: nat, hash: string)
    requires Possible(events)
  {
    forall j | k < j < |events| :: Enabled(At(events, j), events[j]) && LeavesNewest(At(events, j), events[j], hash)
  }

  lemma NewestAfter(events: seq<Event>, k: nat, row: Row)
    requires Possible(events) && k < |events| && Enabled(At(events, k), events[k])
    requires NewestIs(Step(At(events, k), events[k]).rows, row) && Untouched(events, k, row.hash)
    ensures NewestIs(After(events).rows, row)
  {
    hide At, Possible, Enabled, Step, After, LeavesNewest, NewestIs;
    StepAt(events, k);
    NewestStays(events, k + 1, |events|, row);
    AtEnd(events);
  }

  lemma NewestIsBaseline(rows: seq<Row>, row: Row, exclude: string)
    requires NewestIs(rows, row) && exclude != row.hash
    ensures LatestFiles(rows, exclude) == row.files
  {}

  /** The row of a delivery without a selection carries its list, with one it carries none. */
  lemma NewRow(h: History, e: Event)
    requires Enabled(h, e) && RecordsNew(h, e)
    ensures var d := h.deliveries[e.id];
      NewestIs(Step(h, e).rows, Row(d.hash.value, if d.plan.selection.Some? then None else d.plan.files))
  {}

  /**
   * Over every run: once a delivery with a selection is recorded, and until its list is
   * stored, its row is pruned or another row is added, every update of another torrent
   * that the policy applies to arrives paused, without a selection.
   */
  lemma InterruptedSelectionPauses(events: seq<Event>, k: nat, e: Event)
    requires Possible(events) && k < |events| && Enabled(At(events, k), events[k]) && RecordsNew(At(events, k), events[k])
    requires var d := At(events, k).deliveries[events[k].id];
      d.plan.selection.Some? && Untouched(events, k, d.hash.value) && Comparable(e, d.hash.value)
    ensures PlanFor(After(events), e) == Plan(true, e.payload.files, None, Some(PausedNoBaseline), false)
  {
    hide At, Possible, Step, After, LeavesNewest;
    var row := Row(At(events, k).deliveries[events[k].id].hash.value, None);
    NewRow(At(events, k), events[k]);
    NewestAfter(events, k, row);
    var rows := After(events).rows;
    assert rows == rows[..|rows| - 1] + [row];
    UnfinishedSelectionPauses(rows, row.hash, rows[..|rows| - 1], e.topic, e.payload);
    NewestIsBaseline(rows, row, e.payload.hash.value);
  }

  /** What the next update is compared with. */
  ghost predicate ComparedWith(plan: Plan, files: seq<TorrentFile>, payload: Payload)
    requires payload.Torrent? && payload.files.Some? && payload.hash.Some?
  {
    && plan.paused && plan.selection.Some? && plan.fallback.None?
    && plan.selection.value.hash == payload.hash.value && plan.selection.value.files == payload.files.value
    && forall f :: f in plan.selection.value.skip <==> f in files && f in payload.files.value
  }

  /**
   * Over every run: once a delivery without a selection is recorded with its list, and
   * until another row is added or its own is pruned or replaced, every update of another
   * torrent that the policy applies to gets a selection, and skips exactly the files both
   * torrents have.
   */
  lemma RecordedListIsBaseline(events: seq<Event>, k: nat, e: Event)
    requires Possible(events) && k < |events| && Enabled(At(events, k), events[k]) && RecordsNew(At(events, k), events[k])
    requires var d := At(events, k).deliveries[events[k].id];
      d.plan.selection.None? && d.plan.files.Some? && Untouched(events, k, d.hash.value) && Comparable(e, d.hash.value) && e.readOk
    ensures ComparedWith(PlanFor(After(events), e), At(events, k).deliveries[events[k].id].plan.files.value, e.payload)
  {
    hide At, Possible, Step, After, LeavesNewest;
    var d := At(events, k).deliveries[events[k].id];
    var row := Row(d.hash.value, d.plan.files);
    NewRow(At(events, k), events[k]);
    NewestAfter(events, k, row);
    NewestIsBaseline(After(events).rows, row, e.payload.hash.value);
  }

  /** A selection's list, stored while its row is the newest, becomes the baseline in the same way. */
  lemma StoredListIsBaseline(events: seq<Event>, k: nat, e: Event)
    requires Possible(events) && k < |events| && Enabled(At(events, k), events[k]) && events[k].FilesStored?
    requires var h := At(events, k); var plan := h.deliveries[events[k].id].plan;
      && h.rows != [] && h.rows[|h.rows| - 1].hash == plan.selection.value.hash
      && Untouched(events, k, plan.selection.value.hash) && Comparable(e, plan.selection.value.hash) && e.readOk
    ensures ComparedWith(PlanFor(After(events), e), At(events, k).deliveries[events[k].id].plan.files.value, e.payload)
  {
    hide At, Possible, After, LeavesNewest;
    var plan := At(events, k).deliveries[events[k].id].plan;
    var row := Row(plan.selection.value.hash, plan.files);
    NewestAfter(events, k, row);
    NewestIsBaseline(After(events).rows, row, e.payload.hash.value);
  }

  lemma AtEnd(events: seq<Event>)
    requires Possible(events)
    ensures At(events, |events|) == After(events)
  {
    hide Enabled, Step;
    assert events[..|events|] == events;
  }
}
