/**
 * The runs of a delivery as a grammar: which calls there are, in which order, and where
 * a delivery ends. Its procedure (module DeliverySteps) keeps to it; nothing here says how.
 */
module DeliveryScript {
  import opened Common
  import opened TorrentLayout
  import opened SkipSelection
  import opened ClientFolder
  import opened DeliveryPlan
  import opened DeliveryRun

  predicate Ends(part: seq<Call>, c: Call) { part != [] && part[|part| - 1] == c }

  /** Empty lists until the last answer, which is `listing`; r is that list when it has files. */
  ghost predicate FilesPolled(part: seq<Call>, r: Option<seq<ClientFile>>) {
    exists listing ::
      && Ends(part, Files(listing)) && (forall k | 0 <= k < |part| - 1 :: part[k] == Files(Some([])))
      && r == if listing.Some? && listing.value != [] then listing else None
  }

  /** Disk states of a running torrent until the last answer, which is `state`. */
  predicate StopPolled(part: seq<Call>, state: Option<DiskState>) {
    && Ends(part, Disk(state))
    && forall k | 0 <= k < |part| - 1 :: part[k].Disk? && part[k].state.Some? && !part[k].state.value.stopped
  }

  /** Disk states of a stopped torrent until the last answer; whether that one shows it running. */
  ghost predicate RunPolled(part: seq<Call>, running: bool) {
    exists state ::
      && Ends(part, Disk(state))
      && (forall k | 0 <= k < |part| - 1 :: part[k].Disk? && part[k].state.Some? && part[k].state.value.stopped)
      && running == (state.Some? && !state.value.stopped)
  }

  /** Lists under another name until the last answer; r is that one when it shows the wanted name. */
  ghost predicate RootPolled(o: Order, part: seq<Call>, r: Option<seq<ClientFile>>) {
    exists listing ::
      && Ends(part, Files(listing))
      && (forall k | 0 <= k < |part| - 1 :: part[k].Files? && part[k].listing.Some? && !Shown(o, part[k].listing.value))
      && r == if listing.Some? && Shown(o, listing.value) then listing else None
  }

  // ---- the folder -------------------------------------------------------------------------------

  /** The torrent may be renamed: nothing runs and nothing is on disk. */
  predicate Renamable(state: DiskState) { state.stopped && state.bytesOnDisk <= 0 }

  /** After the client took the rename: its list under the new name, or no answer of that kind. */
  ghost predicate AfterRename(o: Order, listing: seq<ClientFile>, part: seq<Call>, files: seq<ClientFile>, ok: bool) {
    exists shown :: RootPolled(o, part, shown) && ok == shown.Some? && files == if shown.Some? then shown.value else listing
  }

  /** A torrent shown under the folder `root`, another than the wanted one. */
  ghost predicate RenameTried(o: Order, listing: seq<ClientFile>, root: string, part: seq<Call>, files: seq<ClientFile>, ok: bool, recheck: bool) {
    exists polled: seq<Call>, state: Option<DiskState>, rest: seq<Call> :: part == polled + rest && StopPolled(polled, state) &&
      if state.None? then rest == [] && !ok && !recheck && files == listing
      else if !Renamable(state.value) then rest == [] && ok && !recheck && files == listing
      else
        && o.folder.Rename? && rest != [] && rest[0].RenameRoot? && rest[0].from == root && rest[0].to == o.folder.want
        && recheck == ok
        && if !rest[0].ok then |rest| == 1 && !ok && files == listing else AfterRename(o, listing, rest[1..], files, ok)
  }

  /**
   * The folder step on the client's list: left alone without a folder, looked at when it
   * has the wanted one, else renamed.
   */
  ghost predicate FolderPart(o: Order, listing: seq<ClientFile>, part: seq<Call>, files: seq<ClientFile>, ok: bool, recheck: bool)
    requires o.folder.Rename?
  {
    || ((forall root :: !ShowsRoot(listing, Some(o.folder.manifest), root)) && part == [] && ok && !recheck && files == listing)
    || (Shown(o, listing) && ok && files == listing
        && exists state :: part == [Disk(state)] && recheck == (state == Some(DiskState(0, true))))
    || exists root :: ShowsRoot(listing, Some(o.folder.manifest), root) && root != o.folder.want
                      && RenameTried(o, listing, root, part, files, ok, recheck)
  }

  // ---- the policy --------------------------------------------------------------------------------

  /** The torrent is started when something is new and it may; then, unless that failed, the list is stored. */
  predicate StartPart(o: Order, sel: Selection, part: seq<Call>, mayStart: bool, started: bool) {
    if |sel.skip| == |sel.files| || o.addPausedOnUpdate || !mayStart then
      !started && |part| == 1 && part[0].SetFiles? && part[0].files == sel.files
    else
      && part != [] && part[0] == Start(started)
      && if started then |part| == 2 && part[1].SetFiles? && part[1].files == sel.files else |part| == 1
  }

  /** The old files of a list that fits are skipped, if there are any. */
  ghost predicate SkipPart(o: Order, sel: Selection, m: Mapping, part: seq<Call>, mayStart: bool, started: bool) {
    if sel.skip == [] then StartPart(o, sel, part, mayStart, started)
    else
      && part != [] && part[0].SkipFiles? && ExactlyOld(part[0].indices, m, sel.skip)
      && if part[0].ok then StartPart(o, sel, part[1..], mayStart, started) else |part| == 1 && !started
  }

  ghost predicate ListedPart(o: Order, sel: Selection, listing: seq<ClientFile>, part: seq<Call>, mayStart: bool, started: bool) {
    || ((forall m :: !Fits(listing, sel.files, m)) && part == [] && !started)
    || exists m :: Fits(listing, sel.files, m) && SkipPart(o, sel, m, part, mayStart, started)
  }

  /** The policy's part, on the list it is given, or on the one it waits for. */
  ghost predicate PolicyPart(o: Order, given: Option<seq<ClientFile>>, part: seq<Call>, mayStart: bool, started: bool) {
    match o.plan.selection
    case None => part == [] && !started
    case Some(sel) =>
      if sel.files == [] then |part| == 1 && part[0].SetFiles? && part[0].files == sel.files && !started
      else if given.Some? then ListedPart(o, sel, given.value, part, mayStart, started)
      else
        exists polled: seq<Call>, listing: Option<seq<ClientFile>>, rest: seq<Call> :: part == polled + rest && FilesPolled(polled, listing) &&
          if listing.None? then rest == [] && !started else ListedPart(o, sel, listing.value, rest, mayStart, started)
  }

  // ---- the end ---------------------------------------------------------------------------------------

  /** A recheck, and a stop if it is refused. */
  predicate RecheckTried(part: seq<Call>) {
    part == [Recheck(true)] || (|part| == 2 && part[0] == Recheck(false) && part[1].Stop?)
  }

  /** A started torrent is rechecked once it is seen running, and stopped when it is not. */
  ghost predicate RecheckPart(part: seq<Call>, recheck: bool, started: bool) {
    if !recheck then part == []
    else if !started then RecheckTried(part)
    else
      exists polled: seq<Call>, running: bool, rest: seq<Call> :: part == polled + rest && RunPolled(polled, running) &&
        if running then RecheckTried(rest) else |rest| == 1 && rest[0].Stop?
  }

  /** A torrent that only the rename paused is started here, unless a folder step failed. */
  predicate ResumePart(o: Order, part: seq<Call>, ok: bool, policyStarted: bool, started: bool) {
    if ok && !o.plan.paused then part == [Start(started)] else part == [] && started == policyStarted
  }

  /** From the client's first list on, when there is a folder to name. */
  ghost predicate NamedPart(o: Order, listing: seq<ClientFile>, part: seq<Call>)
    requires o.folder.Rename?
  {
    exists folder: seq<Call>, policy: seq<Call>, resume: seq<Call>, end: seq<Call>,
           files: seq<ClientFile>, ok: bool, recheck: bool, policyStarted: bool, started: bool ::
      && part == folder + policy + resume + end
      && FolderPart(o, listing, folder, files, ok, recheck)
      && PolicyPart(o, Some(files), policy, ok, policyStarted)
      && ResumePart(o, resume, ok, policyStarted, started)
      && RecheckPart(end, recheck, started)
  }

  /** What follows the row of a delivery. */
  ghost predicate FinishPart(o: Order, part: seq<Call>) {
    if o.folder.NoRename? then exists started :: PolicyPart(o, None, part, true, started)
    else
      exists polled: seq<Call>, listing: Option<seq<ClientFile>>, rest: seq<Call> :: part == polled + rest && FilesPolled(polled, listing) &&
        if listing.None? then rest == [] else NamedPart(o, listing.value, rest)
  }

  /** A whole delivery: refused, or added, recorded and finished. */
  ghost predicate Script(o: Order, calls: seq<Call>) {
    && calls != [] && calls[0].Add? && calls[0].paused == (o.plan.paused || o.folder.Rename?)
    && if !calls[0].ok then |calls| == 1
       else |calls| >= 2 && calls[1].Record? && calls[1].list == (if o.plan.selection.Some? then None else o.plan.files)
            && FinishPart(o, calls[2..])
  }
}
