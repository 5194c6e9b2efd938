/**
 * The update policy's plan for one payload: how it is added, whether a file
 * selection follows, and which file list is recorded with the delivery.
 */
module DeliveryPlan {
  import opened Common
  import opened TorrentLayout
  import opened SkipSelection

  const MAX_STORED_FILES: nat := 5000

  /** What a topic asks of its updates. An empty last hash means a first delivery. */
  datatype Topic = Topic(lastHash: string, addPausedOnUpdate: bool, onlyNewFiles: bool)

  /** A magnet link, or torrent bytes with whatever could be read out of them. */
  datatype Payload = Magnet | Torrent(files: Option<seq<TorrentFile>>, hash: Option<string>)

  datatype Fallback = Unsupported | PausedMagnet | PausedUnreadable | PausedNoBaseline

  /** The torrent's whole list, and its entries the previous version already had. */
  datatype Selection = Selection(hash: string, files: seq<TorrentFile>, skip: seq<TorrentFile>)

  datatype Plan = Plan(
    paused: bool,
    files: Option<seq<TorrentFile>>,
    selection: Option<Selection>,
    fallback: Option<Fallback>,
    cannotPause: bool)

  /** The payload's file list when it is known and short enough to store. */
  function StorableFiles(payload: Payload): Option<seq<TorrentFile>> {
    if payload.Torrent? && payload.files.Some? && |payload.files.value| <= MAX_STORED_FILES
    then payload.files else None
  }

  /** The update policy applies: not per-episode, not a first delivery, and asked for. */
  predicate Applies(t: Topic, episodic: bool) {
    !episodic && t.lastHash != "" && (t.addPausedOnUpdate || t.onlyNewFiles)
  }

  /** New files are to be told from old ones. */
  predicate Compares(t: Topic, episodic: bool, canSelect: bool) { Applies(t, episodic) && canSelect && t.onlyNewFiles }

  /**
   * planDelivery. `baseline` is the newest other delivery's list, None when
   * there is none or it could not be read.
   */
  function PlanDelivery(t: Topic, episodic: bool, canSelect: bool, payload: Payload,
                        baseline: Option<seq<TorrentFile>>): (p: Plan)
    ensures WellFormed(p)
    // Only-new-files never adds a running torrent to a client that can pause.
    ensures p.paused <==> !episodic && t.lastHash != "" && (t.addPausedOnUpdate || t.onlyNewFiles) && canSelect
    // A selection runs exactly when everything it needs is known.
    ensures p.selection.Some? <==>
              && Applies(t, episodic) && canSelect && t.onlyNewFiles
              && StorableFiles(payload).Some? && payload.hash.Some? && baseline.Some?
    ensures p.selection.Some? ==>
              && p.selection.value.files == payload.files.value && p.selection.value.hash == payload.hash.value
              && forall f :: f in p.selection.value.skip <==> f in baseline.value && f in payload.files.value
    ensures p.files == StorableFiles(payload)
    ensures p.files.Some? <==> payload.Torrent? && payload.files.Some? && |payload.files.value| <= 5000
    // Each fallback has its own cause, and none is given without one.
    ensures p.cannotPause <==> Applies(t, episodic) && !canSelect && !t.onlyNewFiles
    ensures p.fallback == Some(Unsupported) <==> Applies(t, episodic) && !canSelect && t.onlyNewFiles
    ensures p.fallback == Some(PausedMagnet) <==> Compares(t, episodic, canSelect) && payload.Magnet?
    ensures p.fallback == Some(PausedUnreadable) <==>
              Compares(t, episodic, canSelect) && payload.Torrent? && (p.files.None? || payload.hash.None?)
    ensures p.fallback == Some(PausedNoBaseline) <==>
              Compares(t, episodic, canSelect) && p.files.Some? && payload.hash.Some? && baseline.None?
    // Per-episode topics, first deliveries and topics that did not ask are added as they are.
    ensures episodic || t.lastHash == "" || !(t.addPausedOnUpdate || t.onlyNewFiles) ==>
              p == Plan(false, p.files, None, None, false)
  {
    var files := StorableFiles(payload);
    if !Applies(t, episodic) then Plan(false, files, None, None, false)
    else if !canSelect then
      Plan(false, files, None, if t.onlyNewFiles then Some(Unsupported) else None, !t.onlyNewFiles)
    else if !t.onlyNewFiles then Plan(true, files, None, None, false)
    else if payload.Magnet? then Plan(true, files, None, Some(PausedMagnet), false)
    else if files.None? || payload.hash.None? then Plan(true, files, None, Some(PausedUnreadable), false)
    else if baseline.None? then Plan(true, files, None, Some(PausedNoBaseline), false)
    else
      InBothMembers(baseline.value, files.value);
      Plan(true, files, Some(Selection(payload.hash.value, files.value, InBoth(baseline.value, files.value))), None, false)
  }

  /** What every plan made by PlanDelivery satisfies. */
  predicate WellFormed(p: Plan) {
    p.selection.Some? ==>
      && p.paused && p.fallback.None?
      && p.files == Some(p.selection.value.files)
      && (forall f | f in p.selection.value.skip :: f in p.selection.value.files)
      && |p.selection.value.skip| <= |p.selection.value.files|
  }

  /** The list recorded with the delivery: none while a selection is still to run. */
  function FilesAtRecord(p: Plan): Option<seq<TorrentFile>> {
    if p.selection.Some? then None else p.files
  }
}
