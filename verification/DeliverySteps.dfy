/**
 * The delivery procedure: what runs after a payload is handed to the client.
 * No failure fails the delivery; every one leaves the torrent paused or stopped.
 */
module DeliverySteps {
  import opened Common
  import opened TorrentLayout
  import opened SkipSelection
  import opened ClientFolder
  import opened DeliveryPlan
  import opened DeliveryRun
  import opened DeliveryScript

  /** The note the notification carries about the selection. */
  datatype Note =
    | Downloading(newFiles: int, total: int)
    | PausedWithSelection(newFiles: int, total: int)
    | NoNewFiles
    | SelectionFailed
    | FallbackNote(reason: Fallback)
    | AddedPaused
    | CannotPause
    | NoNote

  /** Only file lists were read between s and t. */
  ghost predicate Listing(s: Summary, t: Summary) {
    && t.added == s.added && t.starts == s.starts && t.startOk == s.startOk
    && t.seenRunning == s.seenRunning && t.lastChange == s.lastChange
    && s.fits <= t.fits && (s.selected ==> t.selected) && (s.rootShown ==> t.rootShown)
    && (t.phase == s.phase || (s.phase == Asked && t.phase == Confirmed && t.rootShown))
  }

  /** `listing` is among the listings summed up in s. */
  ghost predicate Listed(o: Order, s: Summary, listing: seq<ClientFile>) {
    && (o.plan.selection.Some? ==>
          forall m | Fits(listing, o.plan.selection.value.files, m) ::
            m in s.fits && (o.plan.selection.value.skip == [] ==> s.selected))
    && (Shown(o, listing) ==> s.rootShown)
  }

  /** The last call made. */
  function Last(calls: seq<Call>): Call
    requires calls != []
  {
    calls[|calls| - 1]
  }

  /** No layout lays this list over the manifest. */
  ghost predicate FitsNothing(listing: seq<ClientFile>, manifest: seq<TorrentFile>) {
    forall m :: !Fits(listing, manifest, m)
  }

  /** Why a selection may fail: the client gave no usable list, or refused its last order. */
  ghost predicate SelectionExcused(sel: Selection, given: Option<seq<ClientFile>>, calls: seq<Call>) {
    || (given.Some? && FitsNothing(given.value, sel.files))
    || (calls != [] &&
        match Last(calls)
        case Files(listing) => listing.None? || listing.value == [] || FitsNothing(listing.value, sel.files)
        case SkipFiles(_, ok) => !ok
        case Start(ok) => !ok
        case _ => false)
  }

  /** Why a folder step may fail: the disk state or the new name was not to be read, or the rename was refused. */
  ghost predicate FolderExcused(o: Order, calls: seq<Call>) {
    calls != [] &&
    match Last(calls)
    case Disk(state) => state.None?
    case RenameRoot(_, _, ok) => !ok
    case Files(listing) => listing.None? || !Shown(o, listing.value)
    case _ => false
  }

  lemma ListingSeen(o: Order, s: Summary, listing: seq<ClientFile>)
    ensures var t := See(o, s, Files(Some(listing)));
            && Listing(s, t) && Listed(o, t, listing)
            && (t.rootShown <==> s.rootShown || Shown(o, listing))
            && (s.phase == Asked ==> t.phase == if Shown(o, listing) then Confirmed else Asked)
  {
    hide Shown, Fits;
    if o.plan.selection.Some? {
      var files := o.plan.selection.value.files;
      forall m | Fits(listing, files, m)
        ensures MappingFor(listing, files) == Some(m)
      {
        FitsUnique(listing, files, m, MappingFor(listing, files).value);
      }
    }
  }

  /** The first list with files in it, unless the client errs or patience runs out first. */
  method WaitForFiles(w: World) returns (r: Option<seq<ClientFile>>, ghost part: seq<Call>)
    requires w.Valid() && w.Now().added
    modifies w
    ensures w.Valid() && Listing(old(w.Now()), w.Now())
    ensures r.Some? ==> r.value != [] && Listed(w.order, w.Now(), r.value)
    ensures w.Now().rootShown ==> old(w.Now()).rootShown || (r.Some? && Shown(w.order, r.value))
    ensures old(w.calls) <= w.calls && w.calls != [] && Last(w.calls).Files?
    ensures r.Some? ==> Last(w.calls).listing == r
    ensures r.None? ==> Last(w.calls).listing.None? || Last(w.calls).listing.value == []
    ensures w.calls == old(w.calls) + part && FilesPolled(part, r)
  {
    hide See, Seen, Lawful, Listed;
    var patience: nat := *;
    part := [];
    while true
      invariant w.Valid() && Listing(old(w.Now()), w.Now())
      invariant w.Now().rootShown ==> old(w.Now()).rootShown
      invariant w.calls == old(w.calls) + part && forall k | 0 <= k < |part| :: part[k] == Files(Some([]))
      decreases patience
    {
      ghost var before := w.Now();
      var listing := w.ListFiles();
      part := part + [Files(listing)];
      match listing
      case None =>
        NoListingSeen(w.order, before);
        return None, part;
      case Some(files) =>
        ListingSeen(w.order, before, files);
        if files != [] { return Some(files), part; }
        if patience == 0 { return None, part; }
        patience := patience - 1;
    }
  }

  lemma NoListingSeen(o: Order, s: Summary)
    ensures Listing(s, See(o, s, Files(None))) && See(o, s, Files(None)).rootShown == s.rootShown
    ensures See(o, s, Files(None)).phase == s.phase
  {}

  /** Reads the disk state until it reports stopped; the last state read, or None on an error. */
  method WaitForStopped(w: World) returns (state: Option<DiskState>, ghost part: seq<Call>)
    requires w.Valid() && w.Now().added && w.Now().starts == 0 && !w.Now().startOk && !w.Now().rootShown
    requires w.Now().phase != Asked
    modifies w
    ensures w.Valid()
    ensures match state
            case Some(d) => w.Now() == old(w.Now()).(stoppedEmpty := d.stopped && d.bytesOnDisk <= 0)
            case None => w.Now() == old(w.Now()).(stoppedEmpty := false, phase := Broken)
    ensures old(w.calls) <= w.calls && w.calls != [] && Last(w.calls) == Disk(state)
    ensures w.calls == old(w.calls) + part && StopPolled(part, state)
  {
    hide Seen, Lawful;
    var patience: nat := *;
    part := [];
    ghost var s := w.Now();
    while true
      invariant w.calls == old(w.calls) + part
      invariant forall k | 0 <= k < |part| :: part[k].Disk? && part[k].state.Some? && !part[k].state.value.stopped
      invariant w.Valid() && w.Now().(stoppedEmpty := false) == s.(stoppedEmpty := false)
      decreases patience
    {
      state := w.ReadDisk();
      part := part + [Disk(state)];
      if state.None? || state.value.stopped || patience == 0 { return; }
      patience := patience - 1;
    }
  }

  /** Reads the file list until it shows the wanted name; renamed is None when it never does. */
  method WaitForRoot(w: World, want: string, manifest: seq<TorrentFile>) returns (renamed: Option<seq<ClientFile>>, ghost part: seq<Call>)
    requires w.Valid() && w.Now().added && w.order.folder == Rename(want, manifest) && w.Now().phase == Asked
    modifies w
    ensures w.Valid() && Listing(old(w.Now()), w.Now())
    ensures renamed.Some? ==>
              && w.Now().phase == Confirmed && w.Now().rootShown
              && renamed.value != [] && Listed(w.order, w.Now(), renamed.value)
    ensures renamed.None? ==> w.Now().phase == Asked && FolderExcused(w.order, w.calls)
    ensures old(w.calls) <= w.calls
    ensures w.calls == old(w.calls) + part && RootPolled(w.order, part, renamed)
  {
    hide See, Seen, Lawful, Listed, OneToOne;
    var patience: nat := *;
    part := [];
    while true
      invariant w.calls == old(w.calls) + part
      invariant forall k | 0 <= k < |part| :: part[k].Files? && part[k].listing.Some? && !Shown(w.order, part[k].listing.value)
      invariant w.Valid() && Listing(old(w.Now()), w.Now()) && w.Now().phase == Asked
      decreases patience
    {
      ghost var before := w.Now();
      var listing := w.ListFiles();
      part := part + [Files(listing)];
      match listing
      case None =>
        NoListingSeen(w.order, before);
        return None, part;
      case Some(files) =>
        ListingSeen(w.order, before, files);
        var root := ClientRoot(files, Some(manifest));
        assert Shown(w.order, files) <==> root == Some(want);
        if root == Some(want) { return Some(files), part; }
        if patience == 0 { return None, part; }
        patience := patience - 1;
    }
  }

  /**
   * The folder part of a delivery. Whatever happens, `files` is a list the client
   * gave; `ok` is whether a start is still allowed, and `recheck` whether the data
   * in the folder is to be verified before the delivery ends.
   */
  method ApplyFolderName(w: World, want: string, manifest: seq<TorrentFile>, listing: seq<ClientFile>)
    returns (files: seq<ClientFile>, ok: bool, recheck: bool, ghost part: seq<Call>)
    requires w.Valid() && w.Now().added && w.order.folder == Rename(want, manifest)
    requires w.Now().starts == 0 && !w.Now().startOk && w.Now().phase == Untouched
    requires listing != [] && Listed(w.order, w.Now(), listing)
    requires w.Now().rootShown ==> Shown(w.order, listing)
    modifies w
    ensures w.Valid() && w.Now().added && w.Now().starts == 0 && !w.Now().startOk
    ensures files != [] && Listed(w.order, w.Now(), files)
    ensures ok <==> FolderFine(w.Now())
    ensures recheck ==> w.Now().rootShown && FolderFine(w.Now())
    ensures w.Now().phase == Confirmed ==> recheck
    ensures old(w.calls) <= w.calls
    ensures !ok ==> FolderExcused(w.order, w.calls)
    // Left as it is only when it shows no folder, has the wanted one already, or is in use.
    ensures ok && w.Now().phase != Confirmed ==>
              || (forall root :: !ShowsRoot(listing, Some(manifest), root))
              || Shown(w.order, listing)
              || (w.calls != [] && Last(w.calls).Disk? && Last(w.calls).state.Some?
                  && !(Last(w.calls).state.value.stopped && Last(w.calls).state.value.bytesOnDisk <= 0))
    // Already under the wanted name, it is rechecked exactly when it is stopped with nothing on disk.
    ensures ok && Shown(w.order, listing) ==>
              && w.calls != [] && Last(w.calls).Disk?
              && (recheck <==> Last(w.calls) == Disk(Some(DiskState(0, true))))
    // The calls are those of a folder step, to the end.
    ensures w.calls == old(w.calls) + part && FolderPart(w.order, listing, part, files, ok, recheck)
  {
    hide Seen, Lawful, OneToOne, Fits, RenameTried, StopPolled, RootPolled, SeeListing, MappingFor, OldOfSomeListing, TookEffect, StartWanted;
    files, recheck, part := listing, false, [];
    var root := ClientRoot(listing, Some(manifest));
    if root.None? { return files, true, false, []; }
    if root.value == want {
      var state := w.ReadDisk();
      return files, true, state.Some? && state.value.stopped && state.value.bytesOnDisk == 0, [Disk(state)];
    }
    var state, polled := WaitForStopped(w);
    if state.None? {
      LeftAlone(w.order, listing, root.value, polled, state);
      return files, false, false, polled;
    }
    if !state.value.stopped || state.value.bytesOnDisk > 0 {
      LeftAlone(w.order, listing, root.value, polled, state);
      return files, true, false, polled;
    }
    var renamed := w.Rename(root.value, want);
    ghost var asked := RenameRoot(root.value, want, renamed);
    if !renamed {
      RenameRefused(w.order, listing, root.value, polled, state, asked);
      return files, false, false, polled + [asked];
    }
    ghost var before := w.Now();
    var shown, waited := WaitForRoot(w, want, manifest);
    part := polled + ([asked] + waited);
    RenameTaken(w.order, listing, root.value, polled, state, asked, waited, shown);
    if shown.None? {
      StillListed(w.order, before, w.Now(), listing);
      return files, false, false, part;
    }
    return shown.value, true, true, part;
  }

  lemma LeftAlone(o: Order, listing: seq<ClientFile>, root: string, polled: seq<Call>, state: Option<DiskState>)
    requires StopPolled(polled, state) && (state.None? || !Renamable(state.value))
    ensures RenameTried(o, listing, root, polled, listing, state.Some?, false)
  {
    hide StopPolled;
    assert polled == polled + [];
  }

  lemma RenameRefused(o: Order, listing: seq<ClientFile>, root: string, polled: seq<Call>, state: Option<DiskState>, asked: Call)
    requires StopPolled(polled, state) && state.Some? && Renamable(state.value)
    requires o.folder.Rename? && asked == RenameRoot(root, o.folder.want, false)
    ensures RenameTried(o, listing, root, polled + [asked], listing, false, false)
  {
    hide StopPolled;
  }

  lemma RenameTaken(o: Order, listing: seq<ClientFile>, root: string, polled: seq<Call>, state: Option<DiskState>, asked: Call,
                    waited: seq<Call>, shown: Option<seq<ClientFile>>)
    requires StopPolled(polled, state) && state.Some? && Renamable(state.value)
    requires o.folder.Rename? && asked == RenameRoot(root, o.folder.want, true) && RootPolled(o, waited, shown)
    ensures RenameTried(o, listing, root, polled + ([asked] + waited), if shown.Some? then shown.value else listing, shown.Some?, shown.Some?)
  {
    hide StopPolled, RootPolled;
    var rest := [asked] + waited;
    assert rest[1..] == waited;
    assert AfterRename(o, listing, rest[1..], if shown.Some? then shown.value else listing, shown.Some?);
  }

  /** Reading more lists keeps an earlier one listed. */
  lemma StillListed(o: Order, s: Summary, t: Summary, listing: seq<ClientFile>)
    requires Listed(o, s, listing) && Listing(s, t)
    ensures Listed(o, t, listing)
  {
    hide Shown, Fits;
  }

  /** What the torrent's selection must come to for each note. */
  ghost predicate NoteHolds(o: Order, s: Summary, note: Note) {
    match note
    case Downloading(n, total) =>
      && o.plan.selection.Some? && s.startOk && s.selected
      && total == |o.plan.selection.value.files| && n == total - |o.plan.selection.value.skip| && n > 0
    case PausedWithSelection(n, total) =>
      && o.plan.selection.Some? && s.selected && s.starts == 0
      && total == |o.plan.selection.value.files| && n == total - |o.plan.selection.value.skip| && n > 0
    case NoNewFiles =>
      && o.plan.selection.Some? && s.starts == 0
      && (o.plan.selection.value.files == [] ||
          (s.selected && |o.plan.selection.value.skip| == |o.plan.selection.value.files|))
    case SelectionFailed => o.plan.selection.Some? && !s.startOk
    case FallbackNote(reason) => o.plan.fallback == Some(reason) && s.starts == 0
    case AddedPaused => o.plan.paused && s.starts == 0
    case CannotPause => o.plan.cannotPause
    case NoNote => true
  }

  /** The one call that skips the old files, if there are any. */
  ghost predicate Skips(sel: Selection, m: Mapping, part: seq<Call>, skipped: bool) {
    if sel.skip == [] then part == [] && skipped
    else |part| == 1 && part[0].SkipFiles? && part[0].ok == skipped && ExactlyOld(part[0].indices, m, sel.skip)
  }

  /** The list is the one given, or the one waited for. */
  ghost predicate ListFrom(given: Option<seq<ClientFile>>, polled: seq<Call>, listing: seq<ClientFile>) {
    (given == Some(listing) && polled == []) || (given.None? && FilesPolled(polled, Some(listing)))
  }

  lemma NoListCame(o: Order, sel: Selection, polled: seq<Call>, mayStart: bool)
    requires o.plan.selection == Some(sel) && sel.files != [] && FilesPolled(polled, None)
    ensures PolicyPart(o, None, polled, mayStart, false)
  {
    hide FilesPolled;
    assert polled == polled + [];
  }

  lemma ListedFrom(o: Order, sel: Selection, given: Option<seq<ClientFile>>, polled: seq<Call>, listing: seq<ClientFile>, part: seq<Call>, mayStart: bool, started: bool)
    requires o.plan.selection == Some(sel) && sel.files != [] && ListFrom(given, polled, listing)
    requires ListedPart(o, sel, listing, part, mayStart, started)
    ensures PolicyPart(o, given, polled + part, mayStart, started)
  {
    hide FilesPolled, ListedPart;
    if given.Some? {
      assert polled + part == part;
    } else {
      assert FilesPolled(polled, Some(listing));
    }
  }

  lemma SkipRefused(o: Order, sel: Selection, listing: seq<ClientFile>, m: Mapping, skip: seq<Call>, mayStart: bool)
    requires Fits(listing, sel.files, m) && Skips(sel, m, skip, false)
    ensures ListedPart(o, sel, listing, skip, mayStart, false)
  {
    hide Fits, ExactlyOld;
    assert SkipPart(o, sel, m, skip, mayStart, false);
  }

  lemma SkipDone(o: Order, sel: Selection, listing: seq<ClientFile>, m: Mapping, skip: seq<Call>, rest: seq<Call>, mayStart: bool, started: bool)
    requires Fits(listing, sel.files, m) && Skips(sel, m, skip, true) && StartPart(o, sel, rest, mayStart, started)
    ensures ListedPart(o, sel, listing, skip + rest, mayStart, started)
  {
    hide Fits, ExactlyOld, StartPart;
    if sel.skip == [] { assert skip + rest == rest; } else { assert (skip + rest)[1..] == rest; }
    assert SkipPart(o, sel, m, skip + rest, mayStart, started);
  }

  /** The calls of a selection, with the store of its list when it went well. */
  function Stored(part: seq<Call>, ok: bool, sel: Selection, stored: bool): seq<Call> {
    if ok then part + [SetFiles(sel.files, stored)] else part
  }

  /** Skips the old files of a list that fits; with none to skip there is nothing to ask. */
  method SkipOld(w: World, sel: Selection, mapping: Mapping) returns (skipped: bool, ghost part: seq<Call>)
    requires w.Valid() && w.Now().added && w.order.plan.selection == Some(sel)
    requires mapping in w.Now().fits && (sel.skip == [] ==> w.Now().selected)
    modifies w
    ensures w.Valid() && old(w.calls) <= w.calls
    ensures var s, t := old(w.Now()), w.Now();
      && t.added && t.starts == s.starts && t.startOk == s.startOk && t.phase == s.phase && t.rootShown == s.rootShown
      && (skipped ==> t.selected)
    ensures !skipped ==> w.calls != [] && Last(w.calls).SkipFiles? && !Last(w.calls).ok
    ensures w.calls == old(w.calls) + part && Skips(sel, mapping, part, skipped)
  {
    hide Seen, Lawful, Fits, Shown;
    if |sel.skip| == 0 { return true, []; }
    var indices := SkipIndices(mapping, sel.skip);
    assert ExactlyOld(indices, mapping, sel.skip);
    assert OldOfSomeListing(w.order, w.Now(), indices);
    skipped := w.Skip(indices);
    part := [SkipFiles(indices, skipped)];
  }

  /**
   * The selection: list the files unless they are `given`, lay them over the manifest,
   * skip the old ones, and start the torrent if anything is new and it may start.
   */
  method SelectNewFiles(w: World, sel: Selection, given: Option<seq<ClientFile>>, mayStart: bool)
    returns (note: Note, ok: bool, started: bool, ghost part: seq<Call>)
    requires w.Valid() && w.Now().added && w.Now().starts == 0 && !w.Now().startOk
    requires w.order.plan.selection == Some(sel) && WellFormed(w.order.plan)
    requires mayStart <==> FolderFine(w.Now())
    requires given.Some? ==> given.value != [] && Listed(w.order, w.Now(), given.value)
    requires given.None? ==> w.Now().phase == Untouched
    modifies w
    ensures w.Valid() && w.Now().added && w.Now().phase == old(w.Now()).phase
    ensures old(w.Now()).rootShown ==> w.Now().rootShown
    ensures started <==> w.Now().startOk
    ensures started ==> w.Now().starts == 1
    ensures w.Now().starts == 0 || (mayStart && w.Now().starts == 1)
    ensures ok ==> TookEffect(w.order, w.Now())
    ensures NoteHolds(w.order, w.Now(), note)
    ensures old(w.calls) <= w.calls
    ensures note.SelectionFailed? <==> !ok
    ensures !ok ==> SelectionExcused(sel, given, w.calls)
    ensures note.PausedWithSelection? ==> w.order.addPausedOnUpdate || !mayStart
    ensures w.calls == old(w.calls) + part
    ensures forall stored :: PolicyPart(w.order, given, Stored(part, ok, sel, stored), mayStart, started)
  {
    hide Seen, Lawful, Fits, Shown, FilesPolled, ListedPart, PolicyPart, StartPart, Skips, ExactlyOld, SeeListing, MappingFor, OldOfSomeListing;
    var total := |sel.files|;
    var newCount := total - |sel.skip|;
    started, part := false, [];
    if total == 0 {
      NothingToSelect(w.order, sel, given, mayStart);
      return NoNewFiles, true, false, [];
    }
    var listing: seq<ClientFile>;
    if given.Some? {
      listing := given.value;
    } else {
      var read, polled := WaitForFiles(w);
      part := polled;
      if read.None? {
        NoListCame(w.order, sel, polled, mayStart);
        return SelectionFailed, false, false, part;
      }
      listing := read.value;
    }
    ghost var polled := part;
    var mapping := MapClientFiles(listing, sel.files);
    if mapping.Err? {
      NothingFits(w.order, sel, given, polled, listing, mayStart);
      return SelectionFailed, false, false, part;
    }
    var skipped, skip := SkipOld(w, sel, mapping.value);
    part := polled + skip;
    if !skipped {
      SkipRefused(w.order, sel, listing, mapping.value, skip, mayStart);
      ListedFrom(w.order, sel, given, polled, listing, skip, mayStart, false);
      return SelectionFailed, false, false, part;
    }
    if newCount == 0 {
      PausedPart(w.order, sel, given, polled, listing, mapping.value, skip, mayStart);
      return NoNewFiles, true, false, part;
    }
    if w.order.addPausedOnUpdate || !mayStart {
      PausedPart(w.order, sel, given, polled, listing, mapping.value, skip, mayStart);
      return PausedWithSelection(newCount, total), true, false, part;
    }
    started := w.StartTorrent();
    StartedPart(w.order, sel, given, polled, listing, mapping.value, skip, mayStart, started);
    part := polled + skip + [Start(started)];
    if !started { return SelectionFailed, false, false, part; }
    return Downloading(newCount, total), true, true, part;
  }

  lemma NothingToSelect(o: Order, sel: Selection, given: Option<seq<ClientFile>>, mayStart: bool)
    requires o.plan.selection == Some(sel) && sel.files == []
    ensures forall stored :: PolicyPart(o, given, Stored([], true, sel, stored), mayStart, false)
  {}

  lemma NothingFits(o: Order, sel: Selection, given: Option<seq<ClientFile>>, polled: seq<Call>, listing: seq<ClientFile>, mayStart: bool)
    requires o.plan.selection == Some(sel) && sel.files != [] && ListFrom(given, polled, listing) && FitsNothing(listing, sel.files)
    ensures PolicyPart(o, given, polled, mayStart, false)
  {
    hide FilesPolled, Fits;
    ListedFrom(o, sel, given, polled, listing, [], mayStart, false);
    assert polled + [] == polled;
  }

  lemma PausedPart(o: Order, sel: Selection, given: Option<seq<ClientFile>>, polled: seq<Call>, listing: seq<ClientFile>, m: Mapping, skip: seq<Call>, mayStart: bool)
    requires o.plan.selection == Some(sel) && sel.files != [] && ListFrom(given, polled, listing)
    requires Fits(listing, sel.files, m) && Skips(sel, m, skip, true)
    requires |sel.skip| == |sel.files| || o.addPausedOnUpdate || !mayStart
    ensures forall stored :: PolicyPart(o, given, Stored(polled + skip, true, sel, stored), mayStart, false)
  {
    hide FilesPolled, Fits, Skips, ListedPart, PolicyPart, ListFrom;
    forall stored ensures PolicyPart(o, given, Stored(polled + skip, true, sel, stored), mayStart, false) {
      var rest := [SetFiles(sel.files, stored)];
      SkipDone(o, sel, listing, m, skip, rest, mayStart, false);
      ListedFrom(o, sel, given, polled, listing, skip + rest, mayStart, false);
      assert polled + (skip + rest) == polled + skip + rest;
    }
  }

  lemma StartedPart(o: Order, sel: Selection, given: Option<seq<ClientFile>>, polled: seq<Call>, listing: seq<ClientFile>, m: Mapping, skip: seq<Call>, mayStart: bool, started: bool)
    requires o.plan.selection == Some(sel) && sel.files != [] && ListFrom(given, polled, listing)
    requires Fits(listing, sel.files, m) && Skips(sel, m, skip, true)
    requires |sel.skip| != |sel.files| && !o.addPausedOnUpdate && mayStart
    ensures forall stored :: PolicyPart(o, given, Stored(polled + skip + [Start(started)], started, sel, stored), mayStart, started)
  {
    hide FilesPolled, Fits, Skips, ListedPart, PolicyPart, ListFrom;
    forall stored ensures PolicyPart(o, given, Stored(polled + skip + [Start(started)], started, sel, stored), mayStart, started) {
      var rest := Stored([Start(started)], started, sel, stored);
      SkipDone(o, sel, listing, m, skip, rest, mayStart, started);
      ListedFrom(o, sel, given, polled, listing, skip + rest, mayStart, started);
      assert polled + (skip + rest) == Stored(polled + skip + [Start(started)], started, sel, stored);
    }
  }

  /** The selection if there is one to make, else the note for the plan; success makes the list a baseline. */
  method FinishUpdatePolicy(w: World, given: Option<seq<ClientFile>>, mayStart: bool)
    returns (note: Note, started: bool, ghost part: seq<Call>)
    requires w.Valid() && w.Now().added && w.Now().starts == 0 && !w.Now().startOk
    requires WellFormed(w.order.plan)
    requires mayStart <==> FolderFine(w.Now())
    requires given.Some? ==> given.value != [] && Listed(w.order, w.Now(), given.value)
    requires given.None? ==> w.Now().phase == Untouched
    modifies w
    ensures w.Valid() && w.Now().added && w.Now().phase == old(w.Now()).phase
    ensures old(w.Now()).rootShown ==> w.Now().rootShown
    ensures started <==> w.Now().startOk
    ensures started ==> w.Now().starts == 1
    ensures w.Now().starts == 0 || (mayStart && w.order.plan.selection.Some?)
    ensures w.Now().starts <= 1
    ensures NoteHolds(w.order, w.Now(), note)
    ensures old(w.calls) <= w.calls
    ensures w.order.plan.selection.Some? ==>
              if note.SelectionFailed? then SelectionExcused(w.order.plan.selection.value, given, w.calls)
              else w.calls != [] && Last(w.calls).SetFiles? && Some(Last(w.calls).files) == w.order.plan.files
    ensures w.order.plan.selection.None? ==> w.calls == old(w.calls)
    ensures w.calls == old(w.calls) + part && PolicyPart(w.order, given, part, mayStart, started)
  {
    hide Seen, Lawful, Fits, Shown, Listed, ListedPart, FilesPolled;
    part := [];
    if w.order.plan.selection.Some? {
      hide PolicyPart;
      var sel, ok := w.order.plan.selection.value, false;
      note, ok, started, part := SelectNewFiles(w, sel, given, mayStart);
      ghost var stored := false;
      if ok {
        ghost var before := w.calls;
        w.StoreFiles(w.order.plan.files.value);
        stored := Last(w.calls).ok;
        assert w.calls == before + [SetFiles(sel.files, stored)];
      }
      part := Stored(part, ok, sel, stored);
    } else if w.order.plan.fallback.Some? {
      return FallbackNote(w.order.plan.fallback.value), false, [];
    } else if w.order.plan.paused {
      return AddedPaused, false, [];
    } else {
      return if w.order.plan.cannotPause then CannotPause else NoNote, false, [];
    }
  }

  /** Whether the torrent was seen running before patience ran out. */
  method WaitForRunning(w: World) returns (running: bool, ghost part: seq<Call>)
    requires w.Valid() && w.Now().added && w.Now().starts > 0 && w.Now().startOk && w.Now().phase != Asked
    modifies w
    ensures w.Valid() && (running ==> w.Now().seenRunning)
    ensures w.Now().(stoppedEmpty := false, seenRunning := false)
         == old(w.Now()).(stoppedEmpty := false, seenRunning := false)
    ensures old(w.calls) <= w.calls
    ensures w.calls == old(w.calls) + part && RunPolled(part, running)
  {
    hide Seen, Lawful;
    var patience: nat := *;
    part := [];
    while true
      invariant w.Valid() && w.calls == old(w.calls) + part
      invariant forall k | 0 <= k < |part| :: part[k].Disk? && part[k].state.Some? && part[k].state.value.stopped
      invariant w.Now().(stoppedEmpty := false, seenRunning := false)
             == old(w.Now()).(stoppedEmpty := false, seenRunning := false)
      decreases patience
    {
      var state := w.ReadDisk();
      part := part + [Disk(state)];
      if state.None? { return false, part; }
      if !state.value.stopped { return true, part; }
      if patience == 0 { return false, part; }
      patience := patience - 1;
    }
  }

  /** Stops a torrent in a folder nothing was verified in; there is nothing left to do if that fails. */
  method StopUnchecked(w: World)
    requires w.Valid() && w.Now().added && w.order.folder.Rename? && FolderFine(w.Now()) && w.Now().rootShown
    modifies w
    ensures w.Valid() && w.calls != [] && w.calls == old(w.calls) + [Last(w.calls)] && Last(w.calls).Stop?
    ensures w.Now() == old(w.Now()).(stoppedEmpty := false, lastChange := Some(Last(w.calls)))
  {
    hide Seen, Lawful;
    var _ := w.StopTorrent();
  }

  /**
   * The last step: verify the data in the folder. The torrent is stopped only when that is
   * refused, or when it was started and never seen running.
   */
  method RecheckRenamed(w: World, recheck: bool, started: bool) returns (ghost part: seq<Call>)
    requires w.Valid() && w.Now().added && w.order.folder.Rename?
    requires recheck ==> w.Now().rootShown && FolderFine(w.Now())
    requires w.Now().phase == Confirmed ==> recheck
    requires started <==> w.Now().startOk
    requires started ==> w.Now().starts > 0
    modifies w
    ensures w.Valid() && Settled(w.Now()) && w.Now().added
    ensures w.Now().starts == old(w.Now()).starts && w.Now().startOk == old(w.Now()).startOk
    ensures w.Now().phase == old(w.Now()).phase
    ensures old(w.calls) <= w.calls
    ensures if recheck then w.calls != [] && (Last(w.calls) == Recheck(true) || Last(w.calls).Stop?) else w.calls == old(w.calls)
    ensures w.calls == old(w.calls) + part && RecheckPart(part, recheck, started)
  {
    hide Seen, Lawful, RunPolled, RecheckPart, RecheckTried, SeeListing, MappingFor, OldOfSomeListing, Shown, TookEffect, StartWanted;
    part := [];
    NoRecheck(started);
    if !recheck { return; }
    ghost var polled: seq<Call> := [];
    if started {
      var running, waited := WaitForRunning(w);
      polled := waited;
      if !running {
        StopUnchecked(w);
        part := polled + [Last(w.calls)];
        NeverSeenRunning(polled, Last(w.calls));
        return;
      }
    }
    var ok := w.RecheckTorrent();
    ghost var rest := [Recheck(ok)];
    if !ok {
      StopUnchecked(w);
      rest := rest + [Last(w.calls)];
    }
    part := polled + rest;
    Rechecked(polled, rest, started);
  }

  lemma NoRecheck(started: bool)
    ensures RecheckPart([], false, started)
  {}

  lemma NeverSeenRunning(polled: seq<Call>, stop: Call)
    requires RunPolled(polled, false) && stop.Stop?
    ensures RecheckPart(polled + [stop], true, true)
  {
    hide RunPolled;
  }

  lemma Rechecked(polled: seq<Call>, rest: seq<Call>, started: bool)
    requires if started then RunPolled(polled, true) else polled == []
    requires rest == [Recheck(true)] || (|rest| == 2 && rest[0] == Recheck(false) && rest[1].Stop?)
    ensures RecheckPart(polled + rest, true, started)
  {
    hide RunPolled;
    assert RecheckTried(rest);
    if !started { assert polled + rest == rest; }
  }

  /** The client never listed the files of a torrent whose folder was to be named. */
  predicate Unlisted(o: Order, calls: seq<Call>) {
    o.folder.Rename? && calls != [] && Last(calls).Files? && (Last(calls).listing.None? || Last(calls).listing.value == [])
  }

  /** Everything after a successful Add. */
  method FinishDelivery(w: World) returns (note: Option<Note>, ghost part: seq<Call>)
    requires w.Valid() && w.Now().added && w.Now().starts == 0 && !w.Now().startOk
    requires w.Now().phase == Untouched && !w.Now().rootShown
    requires WellFormed(w.order.plan)
    modifies w
    ensures w.Valid() && Settled(w.Now()) && w.Now().starts <= 1 && w.Now().added
    ensures w.order.plan.paused && w.order.plan.selection.None? ==> w.Now().starts == 0
    ensures w.order.folder.NoRename? ==> note.Some? && NoteHolds(w.order, w.Now(), note.value)
    ensures old(w.calls) <= w.calls
    // A torrent that only the rename paused is started, unless a folder step failed.
    ensures note.Some? && w.order.folder.Rename? && !w.order.plan.paused && FolderFine(w.Now()) ==> w.Now().starts == 1
    ensures w.calls == old(w.calls) + part && FinishPart(w.order, part)
    ensures note.None? ==> Unlisted(w.order, w.calls)
  {
    hide Seen, Lawful, Fits, Shown, Listed, FilesPolled, FolderPart, SelectionExcused, FolderExcused, FinishPart, ShowsRoot, PolicyPart, RecheckPart, NamedPart, NoteHolds;
    if w.order.folder.NoRename? {
      var policyNote, policyStarted, policy := FinishUpdatePolicy(w, None, true);
      UnnamedIs(w.order, policy, policyStarted);
      return Some(policyNote), policy;
    }
    var want, manifest := w.order.folder.want, w.order.folder.manifest;
    var listing, polled := WaitForFiles(w);
    if listing.None? {
      NeverListed(w.order, polled);
      return None, polled;
    }
    var files, ok, recheck, folder := ApplyFolderName(w, want, manifest, listing.value);
    var policyNote, policyStarted, policy := FinishUpdatePolicy(w, Some(files), ok);
    var started := policyStarted;
    ghost var resume: seq<Call> := [];
    if ok && !w.order.plan.paused {
      started := w.StartTorrent();
      resume := [Start(started)];
    }
    ghost var end := RecheckRenamed(w, recheck, started);
    NamedIs(w.order, polled, listing.value, folder, policy, resume, end, files, ok, recheck, policyStarted, started);
    part := polled + (folder + policy + resume + end);
    return Some(policyNote), part;
  }

  lemma UnnamedIs(o: Order, policy: seq<Call>, started: bool)
    requires o.folder.NoRename? && PolicyPart(o, None, policy, true, started)
    ensures FinishPart(o, policy)
  {
    hide PolicyPart;
  }

  lemma NeverListed(o: Order, polled: seq<Call>)
    requires o.folder.Rename? && FilesPolled(polled, None)
    ensures FinishPart(o, polled)
  {
    hide FilesPolled;
    assert polled == polled + [];
  }

  lemma NamedIs(o: Order, polled: seq<Call>, listing: seq<ClientFile>, folder: seq<Call>, policy: seq<Call>, resume: seq<Call>, end: seq<Call>,
                files: seq<ClientFile>, ok: bool, recheck: bool, policyStarted: bool, started: bool)
    requires o.folder.Rename? && FilesPolled(polled, Some(listing)) && FolderPart(o, listing, folder, files, ok, recheck)
    requires PolicyPart(o, Some(files), policy, ok, policyStarted)
    requires ResumePart(o, resume, ok, policyStarted, started) && RecheckPart(end, recheck, started)
    ensures FinishPart(o, polled + (folder + policy + resume + end))
  {
    hide FilesPolled, FolderPart, PolicyPart, ResumePart, RecheckPart;
    assert NamedPart(o, listing, folder + policy + resume + end);
  }

  /**
   * One whole delivery. There is no answer of the client or the store to which it
   * reacts with a call that the calls before it forbid, and none after which it stops
   * short of its script.
   */
  method Deliver(order: Order) returns (w: World, delivered: bool, note: Option<Note>)
    requires WellFormed(order.plan)
    ensures fresh(w) && w.order == order
    ensures Lawful(order, w.calls) && Settled(Seen(order, w.calls))
    ensures Script(order, w.calls)
    ensures delivered <==> Seen(order, w.calls).added
    // The row is written before anything that can take long.
    ensures delivered ==> |w.calls| >= 2 && w.calls[1].Record? && w.calls[1].list == FilesAtRecord(order.plan)
    ensures |w.calls| >= 1 && w.calls[0] == Add(order.plan.paused || order.folder.Rename?, delivered)
    // What only the rename paused is started, unless it was never listed or a folder step failed.
    ensures delivered && note.None? ==> Unlisted(order, w.calls)
    ensures note.Some? && order.folder.Rename? && !order.plan.paused && FolderFine(Seen(order, w.calls)) ==>
              Seen(order, w.calls).starts == 1
  {
    hide FinishPart;
    note := None;
    w := new World(order);
    delivered := w.AddTorrent(order.plan.paused || order.folder.Rename?);
    if !delivered { return; }
    w.RecordDelivery(FilesAtRecord(order.plan));
    ghost var begun := w.calls;
    ghost var part;
    note, part := FinishDelivery(w);
    assert w.calls == begun + part && |begun| == 2;
    assert w.calls[2..] == part;
  }

  // ---- where a delivery ends ----------------------------------------------------------------------

  /**
   * A delivery with no folder to name ends with its row when there is nothing to select,
   * and else with its list stored or with the call that failed.
   */
  lemma UnnamedEnds(o: Order, calls: seq<Call>)
    requires Script(o, calls) && calls[0].ok && o.folder.NoRename? && WellFormed(o.plan)
    ensures o.plan.selection.None? ==> |calls| == 2
    ensures o.plan.selection.Some? ==>
              || (Last(calls).SetFiles? && Some(Last(calls).files) == o.plan.files)
              || SelectionExcused(o.plan.selection.value, None, calls)
  {
    hide Fits, ExactlyOld;
    var part := calls[2..];
    assert calls == calls[..2] + part;
    var started :| PolicyPart(o, None, part, true, started);
    if o.plan.selection.Some? && o.plan.selection.value.files != [] {
      var sel := o.plan.selection.value;
      var polled, listing, rest :| part == polled + rest && FilesPolled(polled, listing) &&
        if listing.None? then rest == [] && !started else ListedPart(o, sel, listing.value, rest, true, started);
      if listing.Some? && rest != [] { ListedEnds(o, sel, listing.value, rest, started); }
    }
  }

  lemma ListedEnds(o: Order, sel: Selection, listing: seq<ClientFile>, part: seq<Call>, started: bool)
    requires ListedPart(o, sel, listing, part, true, started) && part != []
    ensures || (Last(part).SetFiles? && Last(part).files == sel.files)
            || (Last(part).SkipFiles? && !Last(part).ok) || (Last(part).Start? && !Last(part).ok)
  {
    hide Fits, ExactlyOld;
    var m :| Fits(listing, sel.files, m) && SkipPart(o, sel, m, part, true, started);
    if sel.skip != [] && part[0].ok { assert Last(part) == Last(part[1..]); }
  }
}
