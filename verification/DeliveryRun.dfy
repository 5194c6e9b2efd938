/**
 * One delivery driving an unreliable torrent client: add, record, wait for the
 * file list, rename the folder, select files, start, recheck.
 *
 * Every call may fail or answer anything. The calls a delivery makes are kept
 * in order, and each is judged by what the calls before it showed.
 */
module DeliveryRun {
  import opened Common
  import opened TorrentLayout
  import opened SkipSelection
  import opened ClientFolder
  import opened DeliveryPlan

  datatype DiskState = DiskState(bytesOnDisk: int, stopped: bool)

  /** A call and its answer; `ok` false is an error, after which its effect is unknown. */
  datatype Call =
    | Add(paused: bool, ok: bool)
    | Record(list: Option<seq<TorrentFile>>, ok: bool)
    | SetFiles(files: seq<TorrentFile>, ok: bool)
    | Files(listing: Option<seq<ClientFile>>)
    | SkipFiles(indices: seq<int>, ok: bool)
    | Start(ok: bool)
    | RenameRoot(from: string, to: string, ok: bool)
    | Disk(state: Option<DiskState>)
    | Recheck(ok: bool)
    | Stop(ok: bool)

  /** The folder part of a delivery: a rename to run after Add, or none. */
  datatype Folder = NoRename | Rename(want: string, manifest: seq<TorrentFile>)

  /** Everything a delivery is decided by. */
  datatype Order = Order(plan: Plan, folder: Folder, addPausedOnUpdate: bool)

  // ---- what a sequence of calls has shown ---------------------------------------------

  /**
   * Untouched: no rename asked for. Asked: the client accepted one. Confirmed:
   * it then listed the torrent under the new name. Broken: a step failed.
   */
  datatype FolderPhase = Untouched | Asked | Confirmed | Broken

  datatype Summary = Summary(
    added: bool,
    starts: nat,
    startOk: bool,
    seenRunning: bool,
    fits: set<Mapping>,
    selected: bool,
    phase: FolderPhase,
    rootShown: bool,
    stoppedEmpty: bool,
    lastChange: Option<Call>)

  /** The mapping a listing has under the manifest, if it has one. */
  ghost function MappingFor(listing: seq<ClientFile>, manifest: seq<TorrentFile>): (r: Option<Mapping>)
    ensures r.Some? ==> Fits(listing, manifest, r.value)
    ensures r.None? ==> forall m :: !Fits(listing, manifest, m)
  {
    if m :| Fits(listing, manifest, m) then Some(m) else None
  }

  /** Exactly the client indices of files in `skip`, in ascending order. */
  ghost predicate ExactlyOld(indices: seq<int>, m: Mapping, skip: seq<TorrentFile>) {
    Ascending(indices) && forall i :: i in indices <==> i in m && m[i] in skip
  }

  predicate ChangesTorrent(c: Call) {
    c.SkipFiles? || c.Start? || c.RenameRoot? || c.Recheck? || c.Stop?
  }

  const NOTHING := Summary(false, 0, false, false, {}, false, Untouched, false, false, None)

  /** The listing shows the torrent under the wanted folder name. */
  ghost predicate Shown(o: Order, listing: seq<ClientFile>) {
    o.folder.Rename? && ShowsRoot(listing, Some(o.folder.manifest), o.folder.want)
  }

  /** The indices are exactly the old ones of some listing seen so far. */
  ghost predicate OldOfSomeListing(o: Order, s: Summary, indices: seq<int>) {
    o.plan.selection.Some? && exists m :: m in s.fits && ExactlyOld(indices, m, o.plan.selection.value.skip)
  }

  ghost function SeeListing(o: Order, s: Summary, listing: seq<ClientFile>): Summary {
    var fit := if o.plan.selection.Some? then MappingFor(listing, o.plan.selection.value.files) else None;
    var shown := Shown(o, listing);
    s.(fits := if fit.Some? then s.fits + {fit.value} else s.fits,
       selected := s.selected || (fit.Some? && o.plan.selection.value.skip == []),
       phase := if shown && s.phase == Asked then Confirmed else s.phase,
       rootShown := s.rootShown || shown)
  }

  /** What one more call adds to what is known. */
  ghost function See(o: Order, s: Summary, c: Call): Summary {
    var t := s.(stoppedEmpty := false, lastChange := if ChangesTorrent(c) then Some(c) else s.lastChange);
    match c
    case Add(_, ok) => t.(added := t.added || ok)
    case Files(Some(listing)) => SeeListing(o, t, listing)
    case SkipFiles(indices, ok) =>
      t.(selected := t.selected || (ok && OldOfSomeListing(o, t, indices)))
    case Start(ok) => t.(starts := t.starts + 1, startOk := t.startOk || ok, seenRunning := false)
    case RenameRoot(_, _, ok) => t.(phase := if ok then Asked else Broken)
    case Disk(None) => if t.starts == 0 && !t.rootShown then t.(phase := Broken) else t
    case Disk(Some(d)) =>
      t.(stoppedEmpty := d.stopped && d.bytesOnDisk <= 0, seenRunning := t.seenRunning || (t.startOk && !d.stopped))
    case _ => t
  }

  ghost function Seen(o: Order, calls: seq<Call>): Summary {
    if calls == [] then NOTHING else See(o, Seen(o, calls[..|calls| - 1]), calls[|calls| - 1])
  }

  predicate FolderFine(s: Summary) {
    s.phase == Untouched || s.phase == Confirmed
  }

  /** The selection left the torrent with the old files skipped and the new ones wanted. */
  ghost predicate TookEffect(o: Order, s: Summary) {
    && o.plan.selection.Some?
    && var sel := o.plan.selection.value;
       sel.files == [] ||
       (s.selected && (|sel.skip| == |sel.files| || o.addPausedOnUpdate || !FolderFine(s) || s.startOk))
  }

  // ---- the rules -------------------------------------------------------------------------

  /** Whether a call may be made, given what the earlier ones showed. */
  ghost predicate Allowed(o: Order, s: Summary, c: Call) {
    match c
    case Add(paused, _) => !s.added && paused == (o.plan.paused || o.folder.Rename?)
    case Record(list, _) => s.added && s.starts == 0 && list == FilesAtRecord(o.plan)
    case SetFiles(files, _) => s.added && o.plan.files == Some(files) && TookEffect(o, s)
    case SkipFiles(indices, _) => s.added && OldOfSomeListing(o, s, indices)
    case Start(_) => s.added && s.starts == 0 && FolderFine(s) && StartWanted(o, s)
    case RenameRoot(_, to, _) =>
      s.added && s.starts == 0 && s.stoppedEmpty && s.phase == Untouched && o.folder.Rename? && to == o.folder.want
    case Recheck(_) => s.added && (s.startOk ==> s.seenRunning) && FolderFine(s) && s.rootShown
    case Stop(_) => s.added && o.folder.Rename? && FolderFine(s) && s.rootShown
    case Files(_) => s.added
    case Disk(_) => s.added && s.phase != Asked
  }

  /**
   * With a selection a start needs the old files skipped, a new one left, and a
   * topic that does not keep updates paused. Without one, only a torrent the
   * rename alone paused is started; a paused fallback never is.
   */
  ghost predicate StartWanted(o: Order, s: Summary) {
    if o.plan.selection.Some? then
      s.selected && !o.addPausedOnUpdate && |o.plan.selection.value.skip| < |o.plan.selection.value.files|
    else
      !o.plan.paused && o.folder.Rename?
  }

  /** Every call was allowed by the calls before it. */
  ghost predicate Lawful(o: Order, calls: seq<Call>) {
    forall k | 0 <= k < |calls| :: Allowed(o, Seen(o, calls[..k]), calls[k])
  }

  /** A confirmed rename ends rechecked, or stopped. */
  predicate Settled(s: Summary) {
    s.phase == Confirmed ==> s.lastChange == Some(Call.Recheck(true)) || (s.lastChange.Some? && s.lastChange.value.Stop?)
  }

  lemma LawfulNext(o: Order, calls: seq<Call>, c: Call)
    requires Lawful(o, calls) && Allowed(o, Seen(o, calls), c)
    ensures Lawful(o, calls + [c])
    ensures Seen(o, calls + [c]) == See(o, Seen(o, calls), c)
  {
    hide Allowed, See;
    var more := calls + [c];
    assert more[..|calls|] == calls;
    forall k | 0 <= k < |more| ensures Allowed(o, Seen(o, more[..k]), more[k]) {
      if k < |calls| {
        assert more[..k] == calls[..k];
      }
    }
  }

  // ---- the client and the delivery store ------------------------------------------------

  /** The client and the delivery rows, as one delivery sees them: any call may answer anything. */
  class World {
    const order: Order
    ghost var calls: seq<Call>

    constructor (order: Order)
      ensures this.order == order && calls == []
    {
      this.order := order;
      calls := [];
    }

    ghost function Now(): Summary
      reads this
    {
      Seen(order, calls)
    }

    ghost predicate Valid()
      reads this
    {
      Lawful(order, calls)
    }

    method Call(ghost c: Call)
      requires Valid() && Allowed(order, Now(), c)
      modifies this
      ensures Valid() && calls == old(calls) + [c] && Now() == See(order, old(Now()), c)
    {
      LawfulNext(order, calls, c);
      calls := calls + [c];
    }

    method AddTorrent(paused: bool) returns (ok: bool)
      requires Valid() && forall ok :: Allowed(order, Now(), Add(paused, ok))
      modifies this
      ensures Valid() && calls == old(calls) + [Add(paused, ok)] && Now() == See(order, old(Now()), Add(paused, ok))
    {
      ok := *;
      Call(Add(paused, ok));
    }

    method RecordDelivery(list: Option<seq<TorrentFile>>)
      requires Valid() && forall ok :: Allowed(order, Now(), Record(list, ok))
      modifies this
      ensures exists ok :: Valid() && calls == old(calls) + [Record(list, ok)] && Now() == See(order, old(Now()), Record(list, ok))
    {
      var ok: bool := *;
      Call(Record(list, ok));
    }

    method StoreFiles(files: seq<TorrentFile>)
      requires Valid() && forall ok :: Allowed(order, Now(), SetFiles(files, ok))
      modifies this
      ensures exists ok :: Valid() && calls == old(calls) + [SetFiles(files, ok)] && Now() == See(order, old(Now()), SetFiles(files, ok))
    {
      var ok: bool := *;
      Call(SetFiles(files, ok));
    }

    method ListFiles() returns (listing: Option<seq<ClientFile>>)
      requires Valid() && Now().added
      modifies this
      ensures Valid() && calls == old(calls) + [Files(listing)] && Now() == See(order, old(Now()), Files(listing))
    {
      listing := *;
      Call(Files(listing));
    }

    method Skip(indices: seq<int>) returns (ok: bool)
      requires Valid() && forall ok :: Allowed(order, Now(), SkipFiles(indices, ok))
      modifies this
      ensures Valid() && calls == old(calls) + [SkipFiles(indices, ok)] && Now() == See(order, old(Now()), SkipFiles(indices, ok))
    {
      ok := *;
      Call(SkipFiles(indices, ok));
    }

    method StartTorrent() returns (ok: bool)
      requires Valid() && forall ok :: Allowed(order, Now(), Start(ok))
      modifies this
      ensures Valid() && calls == old(calls) + [Start(ok)] && Now() == See(order, old(Now()), Start(ok))
    {
      ok := *;
      Call(Start(ok));
    }

    method Rename(from: string, to: string) returns (ok: bool)
      requires Valid() && forall ok :: Allowed(order, Now(), RenameRoot(from, to, ok))
      modifies this
      ensures Valid() && calls == old(calls) + [RenameRoot(from, to, ok)] && Now() == See(order, old(Now()), RenameRoot(from, to, ok))
    {
      ok := *;
      Call(RenameRoot(from, to, ok));
    }

    method ReadDisk() returns (state: Option<DiskState>)
      requires Valid() && Now().added && Now().phase != Asked
      modifies this
      ensures Valid() && calls == old(calls) + [Disk(state)] && Now() == See(order, old(Now()), Disk(state))
    {
      state := *;
      Call(Disk(state));
    }

    method RecheckTorrent() returns (ok: bool)
      requires Valid() && forall ok :: Allowed(order, Now(), Recheck(ok))
      modifies this
      ensures Valid() && calls == old(calls) + [Recheck(ok)] && Now() == See(order, old(Now()), Recheck(ok))
    {
      ok := *;
      Call(Recheck(ok));
    }

    method StopTorrent() returns (ok: bool)
      requires Valid() && forall ok :: Allowed(order, Now(), Stop(ok))
      modifies this
      ensures Valid() && calls == old(calls) + [Stop(ok)] && Now() == See(order, old(Now()), Stop(ok))
    {
      ok := *;
      Call(Stop(ok));
    }
  }
}
