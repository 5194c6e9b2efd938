/**
 * What lawful deliveries guarantee, in terms of the calls themselves and of the
 * torrent they act on.
 */
module DeliverySafety {
  import opened Common
  import opened TorrentLayout
  import opened SkipSelection
  import opened ClientFolder
  import opened DeliveryPlan
  import opened DeliveryRun

  lemma SeenNext(o: Order, calls: seq<Call>, k: nat)
    requires k < |calls|
    ensures Seen(o, calls[..k + 1]) == See(o, Seen(o, calls[..k]), calls[k])
  {
    hide See;
    assert calls[..k + 1][..k] == calls[..k];
  }

  lemma LawfulPrefix(o: Order, calls: seq<Call>, k: nat)
    requires Lawful(o, calls) && k <= |calls|
    ensures Lawful(o, calls[..k])
  {
    hide Allowed, Seen;
    forall j | 0 <= j < k ensures Allowed(o, Seen(o, calls[..k][..j]), calls[..k][j]) {
      assert calls[..k][..j] == calls[..j] && calls[..k][j] == calls[j];
    }
  }

  /** After this call, whatever it answered, the torrent may be running. */
  predicate LetsRun(c: Call) {
    c.Start? || (c.Add? && !c.paused)
  }

  // ---- starts --------------------------------------------------------------------

  lemma {:induction false} StartsCounted(o: Order, calls: seq<Call>)
    ensures Seen(o, calls).starts > 0 <==> exists j :: 0 <= j < |calls| && calls[j].Start?
    decreases |calls|
  {
    if calls != [] {
      var n := |calls| - 1;
      StartsCounted(o, calls[..n]);
      SeeStarts(o, Seen(o, calls[..n]), calls[n]);
      if Seen(o, calls).starts > 0 && !calls[n].Start? {
        var j :| 0 <= j < |calls[..n]| && calls[..n][j].Start?;
        assert calls[j].Start?;
      }
      if j :| 0 <= j < |calls| && calls[j].Start? {
        if j < n { assert calls[..n][j].Start?; }
      }
    }
  }

  lemma SeeStarts(o: Order, s: Summary, c: Call)
    ensures See(o, s, c).starts == s.starts + if c.Start? then 1 else 0
  {}

  /** A delivery starts the torrent at most once, whatever the calls answer. */
  lemma StartsAtMostOnce(o: Order, calls: seq<Call>, i: nat, j: nat)
    requires Lawful(o, calls) && i < j < |calls| && calls[i].Start?
    ensures !calls[j].Start?
  {
    hide Seen, See;
    assert calls[..j][i].Start?;
    StartsCounted(o, calls[..j]);
    assert Allowed(o, Seen(o, calls[..j]), calls[j]);
  }

  /** A paused delivery without a selection, which every paused fallback is, never runs. */
  lemma PausedFallbackNeverStarts(o: Order, calls: seq<Call>, k: nat)
    requires Lawful(o, calls) && k < |calls|
    requires o.plan.paused && o.plan.selection.None?
    ensures !LetsRun(calls[k])
  {
    assert Allowed(o, Seen(o, calls[..k]), calls[k]);
  }

  // ---- renames -------------------------------------------------------------------

  /**
   * A rename is asked for only when the very call before it read the torrent as
   * stopped with nothing on disk, and no start came earlier.
   */
  lemma RenameIsGuarded(o: Order, calls: seq<Call>, k: nat)
    requires Lawful(o, calls) && k < |calls| && calls[k].RenameRoot?
    ensures k > 0 && calls[k - 1].Disk? && calls[k - 1].state.Some?
    ensures calls[k - 1].state.value.stopped && calls[k - 1].state.value.bytesOnDisk <= 0
    ensures forall j | 0 <= j < k :: !calls[j].Start?
  {
    hide Seen, See;
    assert Allowed(o, Seen(o, calls[..k]), calls[k]);
    StartsCounted(o, calls[..k]);
    forall j | 0 <= j < k ensures !calls[j].Start? {
      assert calls[..k][j] == calls[j];
    }
    StoppedEmptySeen(o, calls, k);
  }

  /** Only the call just made can have read the torrent as stopped and empty. */
  lemma StoppedEmptySeen(o: Order, calls: seq<Call>, k: nat)
    requires k <= |calls| && Seen(o, calls[..k]).stoppedEmpty
    ensures k > 0 && calls[k - 1].Disk? && calls[k - 1].state.Some?
    ensures calls[k - 1].state.value.stopped && calls[k - 1].state.value.bytesOnDisk <= 0
  {
    hide See;
    if k > 0 {
      SeenNext(o, calls, k - 1);
      SeeStoppedEmpty(o, Seen(o, calls[..k - 1]), calls[k - 1]);
    }
  }

  lemma SeeStoppedEmpty(o: Order, s: Summary, c: Call)
    requires See(o, s, c).stoppedEmpty
    ensures c.Disk? && c.state.Some? && c.state.value.stopped && c.state.value.bytesOnDisk <= 0
  {
    hide Shown, MappingFor, OldOfSomeListing;
  }

  /** The rename at i was accepted and the listing at j showed the new name. */
  ghost predicate ConfirmedBy(o: Order, calls: seq<Call>, i: nat, j: nat) {
    && i < j < |calls| && calls[i].RenameRoot? && calls[i].ok
    && calls[j].Files? && calls[j].listing.Some? && Shown(o, calls[j].listing.value)
  }

  lemma {:induction false} ConfirmedPhase(o: Order, calls: seq<Call>, i: nat, j: nat)
    requires Lawful(o, calls) && ConfirmedBy(o, calls, i, j)
    ensures Seen(o, calls).phase == Confirmed && Seen(o, calls).rootShown
    decreases |calls|
  {
    hide Seen, See, Allowed, Lawful, Shown;
    var n := |calls| - 1;
    LastStep(o, calls);
    if j < n {
      ConfirmedPhase(o, calls[..n], i, j);
      PhaseStays(o, Seen(o, calls[..n]), calls[n]);
    } else {
      AskedPhase(o, calls[..n], i);
      PhaseAtListing(o, Seen(o, calls[..n]), calls[n]);
    }
  }

  lemma LastStep(o: Order, calls: seq<Call>)
    requires Lawful(o, calls) && calls != []
    ensures var n := |calls| - 1;
            && Lawful(o, calls[..n]) && Allowed(o, Seen(o, calls[..n]), calls[n])
            && Seen(o, calls) == See(o, Seen(o, calls[..n]), calls[n])
  {
    hide See, Allowed;
    LawfulPrefix(o, calls, |calls| - 1);
  }

  lemma PhaseStays(o: Order, s: Summary, c: Call)
    requires s.phase == Confirmed && s.rootShown && Allowed(o, s, c)
    ensures See(o, s, c).phase == Confirmed && See(o, s, c).rootShown
  {}

  lemma PhaseAtListing(o: Order, s: Summary, c: Call)
    requires s.phase == Asked || (s.phase == Confirmed && s.rootShown)
    requires c.Files? && c.listing.Some? && Shown(o, c.listing.value)
    ensures See(o, s, c).phase == Confirmed && See(o, s, c).rootShown
  {}

  predicate RenameAccepted(s: Summary) {
    s.phase == Asked || (s.phase == Confirmed && s.rootShown)
  }

  lemma RenameStaysAccepted(o: Order, s: Summary, c: Call)
    requires Allowed(o, s, c)
    requires RenameAccepted(s) || (c.RenameRoot? && c.ok)
    ensures RenameAccepted(See(o, s, c))
  {}

  /** After an accepted rename the folder is renamed, or the client is still to show it. */
  lemma {:induction false} AskedPhase(o: Order, calls: seq<Call>, i: nat)
    requires Lawful(o, calls) && i < |calls| && calls[i].RenameRoot? && calls[i].ok
    ensures RenameAccepted(Seen(o, calls))
    decreases |calls|
  {
    hide Seen, See, Allowed, Lawful;
    var n := |calls| - 1;
    LastStep(o, calls);
    if i < n { AskedPhase(o, calls[..n], i); }
    RenameStaysAccepted(o, Seen(o, calls[..n]), calls[n]);
  }

  /** The last call that changes the torrent is the one at r. */
  predicate LastChangeAt(calls: seq<Call>, r: nat) {
    r < |calls| && ChangesTorrent(calls[r]) && forall k | r < k < |calls| :: !ChangesTorrent(calls[k])
  }

  lemma {:induction false} LastChangeFound(o: Order, calls: seq<Call>) returns (r: nat)
    requires Seen(o, calls).lastChange.Some?
    ensures LastChangeAt(calls, r) && Seen(o, calls).lastChange == Some(calls[r])
    decreases |calls|
  {
    hide See;
    var n := |calls| - 1;
    SeeLastChange(o, Seen(o, calls[..n]), calls[n]);
    if ChangesTorrent(calls[n]) {
      r := n;
    } else {
      r := LastChangeFound(o, calls[..n]);
      forall k | r < k < |calls| ensures !ChangesTorrent(calls[k]) {
        if k < n { assert calls[..n][k] == calls[k]; }
      }
    }
  }

  lemma SeeLastChange(o: Order, s: Summary, c: Call)
    ensures See(o, s, c).lastChange == if ChangesTorrent(c) then Some(c) else s.lastChange
  {}

  /** A running torrent was seen after the successful start at s. */
  lemma {:induction false} SeenRunningAfter(o: Order, calls: seq<Call>, s: nat) returns (d: nat)
    requires Lawful(o, calls) && s < |calls| && calls[s].Start? && calls[s].ok
    requires Seen(o, calls).seenRunning
    ensures s < d < |calls| && calls[d].Disk? && calls[d].state.Some? && !calls[d].state.value.stopped
    decreases |calls|
  {
    hide *;
    var n := |calls| - 1;
    SeenNothing(o);
    LastStep(o, calls);
    SeeRunning(o, Seen(o, calls[..n]), calls[n]);
    if calls[n].Disk? && calls[n].state.Some? && !calls[n].state.value.stopped && s < n {
      d := n;
    } else {
      d := SeenRunningAfter(o, calls[..n], s);
    }
  }

  lemma SeenNothing(o: Order)
    ensures !Seen(o, []).seenRunning
  {}

  lemma SeeRunning(o: Order, s: Summary, c: Call)
    requires See(o, s, c).seenRunning
    ensures !c.Start?
    ensures s.seenRunning || (c.Disk? && c.state.Some? && !c.state.value.stopped)
  {
    hide Fits, Shown, OldOfSomeListing;
  }

  lemma {:induction false} StartOkSeen(o: Order, calls: seq<Call>, s: nat)
    requires s < |calls| && calls[s].Start? && calls[s].ok
    ensures Seen(o, calls).startOk
    decreases |calls|
  {
    hide See;
    var n := |calls| - 1;
    SeeStartOk(o, Seen(o, calls[..n]), calls[n]);
    if s < n { StartOkSeen(o, calls[..n], s); }
  }

  lemma SeeStartOk(o: Order, s: Summary, c: Call)
    ensures See(o, s, c).startOk == (s.startOk || (c.Start? && c.ok))
  {}

  /**
   * Once a rename is confirmed, the last call that changes the torrent is a
   * successful recheck, made after any successful start was seen running, or a
   * stop.
   */
  lemma ConfirmedRenameIsSettled(o: Order, calls: seq<Call>, i: nat, j: nat) returns (r: nat)
    requires Lawful(o, calls) && Settled(Seen(o, calls)) && ConfirmedBy(o, calls, i, j)
    ensures LastChangeAt(calls, r) && (calls[r].Stop? || calls[r] == Recheck(true))
    ensures calls[r].Recheck? ==>
              forall s | 0 <= s < |calls| && calls[s].Start? && calls[s].ok ::
                exists d :: s < d < r && calls[d].Disk? && calls[d].state.Some? && !calls[d].state.value.stopped
  {
    hide Seen, See, Lawful, Shown;
    ConfirmedPhase(o, calls, i, j);
    r := LastChangeFound(o, calls);
    if calls[r].Recheck? {
      forall s | 0 <= s < |calls| && calls[s].Start? && calls[s].ok
        ensures exists d :: s < d < r && calls[d].Disk? && calls[d].state.Some? && !calls[d].state.value.stopped
      {
        assert s < r;
        RecheckSawRunning(o, calls, s, r);
      }
    }
  }

  lemma RecheckSawRunning(o: Order, calls: seq<Call>, s: nat, r: nat)
    requires Lawful(o, calls) && s < r < |calls| && calls[s].Start? && calls[s].ok && calls[r].Recheck?
    ensures exists d :: s < d < r && calls[d].Disk? && calls[d].state.Some? && !calls[d].state.value.stopped
  {
    hide Seen, See;
    var before := calls[..r];
    assert before[s] == calls[s];
    assert Allowed(o, Seen(o, before), calls[r]);
    LawfulPrefix(o, calls, r);
    StartOkSeen(o, before, s);
    var d := SeenRunningAfter(o, before, s);
    assert calls[d] == before[d];
  }

  // ---- old files -------------------------------------------------------------------

  /** Indices a successful call marked "do not download". */
  function SurelySkipped(calls: seq<Call>): set<int> {
    if calls == [] then {}
    else
      var c := calls[|calls| - 1];
      SurelySkipped(calls[..|calls| - 1]) + if c.SkipFiles? && c.ok then set i | i in c.indices else {}
  }

  /** The torrent may be running: added unpaused or started, even when the answer was an error. */
  predicate MayRun(calls: seq<Call>) {
    exists j :: 0 <= j < |calls| && LetsRun(calls[j])
  }

  /** Whenever a listing fits the manifest, it names the torrent's files as they are. */
  ghost predicate Honest(calls: seq<Call>, manifest: seq<TorrentFile>, truth: Mapping) {
    forall k, m | 0 <= k < |calls| && calls[k].Files? && calls[k].listing.Some? && Fits(calls[k].listing.value, manifest, m) ::
      m == truth
  }

  /** The old files of the real torrent are all skipped. */
  ghost predicate OldSkipped(truth: Mapping, skip: seq<TorrentFile>, skipped: set<int>) {
    forall i | i in truth && truth[i] in skip :: i in skipped
  }

  lemma SelectedStep(o: Order, s: Summary, c: Call, sel: Selection, truth: Mapping, skipped: set<int>)
    requires o.plan.selection == Some(sel)
    requires forall m | m in s.fits :: m == truth
    requires s.selected ==> OldSkipped(truth, sel.skip, skipped)
    requires c.Files? && c.listing.Some? ==> forall m | Fits(c.listing.value, sel.files, m) :: m == truth
    ensures forall m | m in See(o, s, c).fits :: m == truth
    ensures See(o, s, c).selected ==>
              OldSkipped(truth, sel.skip, skipped + if c.SkipFiles? && c.ok then set i | i in c.indices else {})
  {
    hide Fits, Shown;
  }

  lemma {:induction false} SelectedMeansSkipped(o: Order, calls: seq<Call>, sel: Selection, truth: Mapping)
    requires o.plan.selection == Some(sel) && Honest(calls, sel.files, truth)
    ensures forall m | m in Seen(o, calls).fits :: m == truth
    ensures Seen(o, calls).selected ==> OldSkipped(truth, sel.skip, SurelySkipped(calls))
    decreases |calls|
  {
    hide See, Fits, OldSkipped;
    if calls != [] {
      var n := |calls| - 1;
      HonestPrefix(calls, sel.files, truth, n);
      SelectedMeansSkipped(o, calls[..n], sel, truth);
      SelectedStep(o, Seen(o, calls[..n]), calls[n], sel, truth, SurelySkipped(calls[..n]));
    }
  }

  /**
   * No failure lets an old file download: at every point where the torrent may
   * be running, every index that holds a file of the previous version has been
   * skipped by a call the client confirmed.
   */
  lemma OldFilesNeverRun(o: Order, calls: seq<Call>, sel: Selection, prev: seq<TorrentFile>, truth: Mapping, k: nat)
    requires Lawful(o, calls) && k <= |calls|
    requires o.plan.selection == Some(sel) && WellFormed(o.plan) && Honest(calls, sel.files, truth)
    requires forall f :: f in sel.skip <==> f in prev && f in sel.files
    requires forall i | i in truth :: truth[i] in sel.files
    requires MayRun(calls[..k])
    ensures forall i | i in truth && truth[i] in prev :: i in SurelySkipped(calls[..k])
  {
    hide Seen, See, Fits;
    var j :| 0 <= j < k && LetsRun(calls[..k][j]);
    assert Allowed(o, Seen(o, calls[..j]), calls[j]);
    HonestPrefix(calls, sel.files, truth, j);
    SelectedMeansSkipped(o, calls[..j], sel, truth);
    SkippedGrows(calls, j, k);
  }

  /**
   * No new file is left out: whatever a delivery asks to skip is exactly the torrent's
   * files that the previous version had.
   */
  lemma OnlyOldFilesSkipped(o: Order, calls: seq<Call>, sel: Selection, truth: Mapping, k: nat)
    requires Lawful(o, calls) && k < |calls| && calls[k].SkipFiles?
    requires o.plan.selection == Some(sel) && Honest(calls, sel.files, truth)
    ensures forall i :: i in calls[k].indices <==> i in truth && truth[i] in sel.skip
  {
    hide Seen, See, Fits, Honest, Ascending;
    assert Allowed(o, Seen(o, calls[..k]), calls[k]);
    HonestPrefix(calls, sel.files, truth, k);
    SelectedMeansSkipped(o, calls[..k], sel, truth);
    var m :| m in Seen(o, calls[..k]).fits && ExactlyOld(calls[k].indices, m, sel.skip);
  }

  /** Indices of the torrent's files that are in `skip`. */
  function Old(truth: Mapping, skip: seq<TorrentFile>): set<int> {
    set i | i in truth && truth[i] in skip
  }

  lemma {:induction false} SkippedAreOld(o: Order, calls: seq<Call>, sel: Selection, truth: Mapping)
    requires Lawful(o, calls)
    requires o.plan.selection == Some(sel) && Honest(calls, sel.files, truth)
    ensures SurelySkipped(calls) <= Old(truth, sel.skip)
    decreases |calls|
  {
    hide Allowed, Seen, See, Fits, Honest, Lawful;
    if calls != [] {
      var n := |calls| - 1;
      LastStep(o, calls);
      HonestPrefix(calls, sel.files, truth, n);
      SkippedAreOld(o, calls[..n], sel, truth);
      if calls[n].SkipFiles? {
        OnlyOldFilesSkipped(o, calls, sel, truth, n);
        assert forall i | i in calls[n].indices :: i in Old(truth, sel.skip);
      }
    }
  }

  lemma {:induction false} NothingSkipped(o: Order, calls: seq<Call>)
    requires Lawful(o, calls) && o.plan.selection.None?
    ensures SurelySkipped(calls) == {}
    decreases |calls|
  {
    hide Seen, See;
    if calls != [] {
      LastStep(o, calls);
      NothingSkipped(o, calls[..|calls| - 1]);
    }
  }

  /** The mapping names every file. */
  predicate Covers(m: Mapping, files: seq<TorrentFile>) {
    forall f | f in files :: exists i :: i in m && m[i] == f
  }

  lemma CoverStep(o: Order, s: Summary, c: Call, sel: Selection)
    requires o.plan.selection == Some(sel)
    requires forall m | m in s.fits :: Covers(m, sel.files)
    requires s.selected ==> exists m :: m in s.fits
    ensures forall m | m in See(o, s, c).fits :: Covers(m, sel.files)
    ensures See(o, s, c).selected ==> exists m :: m in See(o, s, c).fits
  {
    hide Fits, Shown, ExactlyOld, Covers;
    if c.Files? && c.listing.Some? && MappingFor(c.listing.value, sel.files).Some? {
      FitsCover(c.listing.value, sel.files, MappingFor(c.listing.value, sel.files).value);
    }
  }

  lemma FitsCover(listing: seq<ClientFile>, files: seq<TorrentFile>, m: Mapping)
    requires Fits(listing, files, m)
    ensures Covers(m, files)
  {
    hide Fits;
    FitsCoversManifest(listing, files, m);
  }

  lemma {:induction false} FitsSeenCover(o: Order, calls: seq<Call>, sel: Selection)
    requires o.plan.selection == Some(sel)
    ensures forall m | m in Seen(o, calls).fits :: Covers(m, sel.files)
    ensures Seen(o, calls).selected ==> exists m :: m in Seen(o, calls).fits
    decreases |calls|
  {
    hide See, Covers;
    if calls != [] {
      var n := |calls| - 1;
      FitsSeenCover(o, calls[..n], sel);
      CoverStep(o, Seen(o, calls[..n]), calls[n], sel);
    }
  }

  /** Some file f of the torrent is not marked "do not download". */
  predicate LeftWanted(calls: seq<Call>, truth: Mapping, f: TorrentFile) {
    exists i :: i in truth && truth[i] == f && i !in SurelySkipped(calls)
  }

  /** The row carries the whole list of the torrent, unless a selection is still to run: then none. */
  lemma RecordCarries(o: Order, calls: seq<Call>, k: nat)
    requires Lawful(o, calls) && k < |calls| && calls[k].Record?
    ensures calls[k].list == if o.plan.selection.Some? then None else o.plan.files
  {
    hide Seen;
    assert Allowed(o, Seen(o, calls[..k]), calls[k]);
  }

  lemma AtStore(o: Order, calls: seq<Call>, sel: Selection, k: nat)
    requires Lawful(o, calls) && k < |calls| && calls[k].SetFiles?
    requires o.plan.selection == Some(sel) && WellFormed(o.plan)
    ensures calls[k].files == sel.files
    ensures sel.files == [] || Seen(o, calls[..k]).selected
    ensures forall j | 0 <= j < |calls| && calls[j].Record? :: calls[j].list.None?
  {
    hide Seen, See, Fits;
    assert Allowed(o, Seen(o, calls[..k]), calls[k]);
    forall j | 0 <= j < |calls| && calls[j].Record? ensures calls[j].list.None? {
      assert Allowed(o, Seen(o, calls[..j]), calls[j]);
    }
  }

  /** A selection that took effect has skipped every old file, and its torrent holds the whole list. */
  lemma SelectedIsWhole(o: Order, calls: seq<Call>, sel: Selection, truth: Mapping)
    requires o.plan.selection == Some(sel) && Honest(calls, sel.files, truth)
    requires sel.files == [] || Seen(o, calls).selected
    requires forall i | i in truth :: truth[i] in sel.files
    ensures Old(truth, sel.skip) <= SurelySkipped(calls) && Covers(truth, sel.files)
  {
    hide *;
    if sel.files != [] {
      SelectedMeansSkipped(o, calls, sel, truth);
      FitsSeenCover(o, calls, sel);
      var m :| m in Seen(o, calls).fits;
      assert m == truth;
      OldAreSkipped(truth, sel.skip, SurelySkipped(calls));
    } else {
      EmptyTorrent(truth, sel);
    }
  }

  lemma OldAreSkipped(truth: Mapping, skip: seq<TorrentFile>, skipped: set<int>)
    requires OldSkipped(truth, skip, skipped)
    ensures Old(truth, skip) <= skipped
  {
    forall i | i in Old(truth, skip) ensures i in skipped {
      assert i in truth && truth[i] in skip;
    }
  }

  lemma EmptyTorrent(truth: Mapping, sel: Selection)
    requires sel.files == [] && forall i | i in truth :: truth[i] in sel.files
    ensures Old(truth, sel.skip) == {} && Covers(truth, sel.files)
  {
    assert forall i :: i !in truth;
  }

  lemma WantedAreNew(calls: seq<Call>, sel: Selection, truth: Mapping, f: TorrentFile)
    requires SurelySkipped(calls) == Old(truth, sel.skip) && Covers(truth, sel.files)
    requires forall i | i in truth :: truth[i] in sel.files
    ensures LeftWanted(calls, truth, f) <==> f in sel.files && f !in sel.skip
  {
    hide SurelySkipped;
    assert forall i | i in truth :: i in SurelySkipped(calls) <==> truth[i] in sel.skip;
    if f in sel.files && f !in sel.skip {
      var i :| i in truth && truth[i] == f;
      assert i !in SurelySkipped(calls);
    }
    if LeftWanted(calls, truth, f) {
      var i :| i in truth && truth[i] == f && i !in SurelySkipped(calls);
    }
  }

  /**
   * A list becomes a baseline only once its selection took effect: from the moment it
   * is stored, what is skipped is exactly the torrent's old files, every other file of
   * the list is left wanted, and the row was recorded without a list.
   */
  lemma StoredListWasSelected(o: Order, calls: seq<Call>, sel: Selection, truth: Mapping, k: nat)
    requires Lawful(o, calls) && k < |calls| && calls[k].SetFiles?
    requires o.plan.selection == Some(sel) && WellFormed(o.plan) && Honest(calls, sel.files, truth)
    requires forall i | i in truth :: truth[i] in sel.files
    ensures calls[k].files == sel.files
    ensures forall n | k <= n <= |calls| :: SurelySkipped(calls[..n]) == Old(truth, sel.skip)
    ensures forall n, f | k <= n <= |calls| :: LeftWanted(calls[..n], truth, f) <==> f in sel.files && f !in sel.skip
    ensures forall j | 0 <= j < |calls| && calls[j].Record? :: calls[j].list.None?
  {
    hide *;
    AtStore(o, calls, sel, k);
    HonestPrefix(calls, sel.files, truth, k);
    SelectedIsWhole(o, calls[..k], sel, truth);
    SkippedAreOld(o, calls, sel, truth);
    assert calls[..|calls|] == calls;
    forall n | k <= n <= |calls|
      ensures SurelySkipped(calls[..n]) == Old(truth, sel.skip)
      ensures forall f :: LeftWanted(calls[..n], truth, f) <==> f in sel.files && f !in sel.skip
    {
      SkippedGrows(calls, k, n);
      SkippedGrows(calls, n, |calls|);
      forall f ensures LeftWanted(calls[..n], truth, f) <==> f in sel.files && f !in sel.skip {
        WantedAreNew(calls[..n], sel, truth, f);
      }
    }
  }

  lemma HonestPrefix(calls: seq<Call>, manifest: seq<TorrentFile>, truth: Mapping, n: nat)
    requires Honest(calls, manifest, truth) && n <= |calls|
    ensures Honest(calls[..n], manifest, truth)
  {
    hide Fits;
    var head := calls[..n];
    forall k, m | 0 <= k < n && head[k].Files? && head[k].listing.Some? && Fits(head[k].listing.value, manifest, m)
      ensures m == truth
    {
      assert calls[k] == head[k];
    }
  }

  lemma {:induction false} SkippedGrows(calls: seq<Call>, j: nat, k: nat)
    requires j <= k <= |calls|
    ensures SurelySkipped(calls[..j]) <= SurelySkipped(calls[..k])
    decreases k - j
  {
    if j < k {
      SkippedGrows(calls, j, k - 1);
      assert calls[..k][..k - 1] == calls[..k - 1];
    }
  }
}
