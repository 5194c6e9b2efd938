# Marauder, modelled and proved

A Dafny model of the parts of Marauder's backend whose correctness does not show in any one
function: how a torrent is handed to a client, how a page is stripped of secrets, how checks are
scheduled, and how shared resources are used by many callers at once. Each module's properties hold
for every input, every run, or every interleaving.

`dafny verify dfyconfig.toml` checks everything.

## Modules

**Torrent delivery.** `TorrentLayout`, `SkipSelection`, `ClientFolder` and `TorrentFiles` model the
matcher that lays a client's file list over a torrent's manifest. `Bencode` (the decoder) and
`InfoHash` (the span scanner) model the two independent readers of bencoding (BEP 3, section "bencoding"); `ReaderAgreement`
proves that they agree, `BencodeRoundTrip` that decoding inverts encoding, and `InfoGrammar` and
`BencodeGrammar` say which spellings each of them accepts. `DeliveryPlan`,
`DeliveryRun` and `DeliverySteps` model one delivery against a client and a store whose every call may
fail or answer anything: `DeliveryRun` says what each call may follow, `DeliveryScript` where a delivery
goes on and where it ends, `DeliverySteps` is the procedure, `DeliverySafety` what its runs guarantee. `DeliveryHistory` is a topic's rows over any
number of deliveries, and `DeliveryRows` joins the two: many deliveries, call by call, with the rows
they leave.

**Page redaction.** `EditMerge`, `RedactEdits` and `RedactPage` are the span algebra: merge, widen over
placeholders, merge, splice. `RedactText` is decoded text with its map back to source bytes.
`TagLexer` reads inside one start tag.

**Scheduling.** `CheckTick` is a topic's checks against the check-state token, `EpisodeDrain` one
tick's download loop, `Backoff` the 64-bit delay, `CheckSpacing` the start times of spaced trackers and
their lanes, `Dispatch` the inflight set, the queues and the workers, while topics come and go.

**Shared resources.** `SolverSession` has the locked regions of the FlareSolverr transport, `SolverRun`
their callers; `ClearanceMinter` is one host's cached clearance; `Fingerprint` and `SignIn` are a user's
sign-ins on one tracker; `DomainRing` and `DomainStore` are the rotation of tracker domains and its
persistence.

The concurrent parts are state machines: a step is what happens between two points where a lock, a
semaphore, a database or the network lets somebody else run. An event list is a run; a lemma about
`After(events)` is about every interleaving. `CheckTrace`, `SolverTrace`, `SignInTrace` and `DomainTrace`
say the same machines from outside: which step may come after which, and what each one finds and leaves,
by the events of the run alone.

## Assumptions

- A client, a tracker, the solver and the database are not modelled inside: each call may answer
  anything its type allows. Timeouts are a "gave up" outcome at any moment.
- The database's guarded writes do what their statements say: check-state tokens never come back, a
  delivery row is inserted only when absent, rows are ordered by delivery time, and a failed write
  leaves a row as it was.
- The solver never gives out the same session name twice. A fingerprint's hash is collision-free and
  never all zero. A failed login may leave any session behind, a successful one its own.
- Resolving one character reference (`html.UnescapeString`) and folding the case of attribute names are
  functions given by the caller.
- `DeliverySafety.OldFilesNeverRun`, `DeliverySafety.StoredListWasSelected` and
  `DeliveryRows.SkippedWasWanted` take a client whose file list, whenever it fits the manifest, names
  the files it really holds.

## Where the code does less than it is said to do

- The comments at backend/internal/torrentmeta/torrentmeta.go:99-101 and 247 want the two recognitions of
  padding to agree. They agree on an entry that carries the `p` attribute exactly when its first path
  component is `.pad` with more below it, or itself starts with `.pad/`; on any other entry exactly when
  its first component does not itself start with `.pad/` (`TorrentFiles.PaddingAgreesExactly`). A client
  that lists every file is matched exactly when they agree on every entry
  (`TorrentFiles.ListedAllMatchesExactly`); `TorrentFiles.MarkedFileRefused` and
  `TorrentFiles.SlashedComponentRefused` are a refused torrent of each kind.
- `ClientRoot` compares paths as they are while `MapClientFiles` replaces backslashes first, so a folder
  can be shown for a list that no layout fits, such as `Root/a\b` (`ClientFolder.BackslashNameRefused`).
  The two agree exactly when neither the root nor a manifest path has a backslash, or the manifest is
  empty and the normalised root is padding (`ClientFolder.RootIsLayoutExactly`).
- A string length near the largest 64-bit number makes the scanner slice out of bounds
  (`InfoHash.OverlongKeyFaults`). The search for the info dictionary does so exactly when the length of a
  string it reads carries the end past that number (`InfoHash.InfoFaultsExactly`), so never when every
  length in the input is at most that number less the input's own size
  (`InfoHash.ModestLengthsNeverFault`).
- The comment at backend/internal/scheduler/spacing.go:159-161 wants a lane never to hold more than its
  tracker's topics. A topic deleted while it waits keeps its place (`Dispatch.LaneKeepsDeleted`). Over a
  run the bound holds exactly when no topic of the tracker is deleted, and none queued in the lane, at a
  moment when the lane is as long as the tracker has topics (`Dispatch.LaneBoundExactly`); so always, when
  no topic is deleted while the scheduler has it marked or marked once it is deleted
  (`Dispatch.LaneIsBounded`).
- A rotation is cached even when its Upsert fails, as backend/internal/domains/store.go:174-176 says, so
  the row need not follow the cache as lines 244-249 want (`DomainStore.FailedUpsertIsLost`). With no call
  in flight the two hold the same configuration exactly when the last write of the row succeeded or would
  have stored what the row held; of a tracker never written, when no mirror was dropped at boot
  (`DomainStore.QuietMeansSaved`).

## Model

| member | source | states |
|---|---|---|
| `TorrentLayout.Bijection` | backend/internal/torrentmeta/torrentmeta.go:213-245 | A reading is accepted exactly when every path is readable under the layout, no client index repeats and the files read are the manifest as a bag; the result is that pairing. |
| `TorrentLayout.CountManifest` | backend/internal/torrentmeta/torrentmeta.go:213-219 | The counts of the manifest: every entry as often as it is listed. |
| `TorrentLayout.LayoutsAgree` | backend/internal/torrentmeta/torrentmeta.go:178-190 | When both readings are one to one their mappings are equal, the manifest is empty, and a non-empty list has the root `.pad`: the "two layouts" error cannot happen. By total path length over bags. |
| `TorrentLayout.MapClientFiles` | backend/internal/torrentmeta/torrentmeta.go:163-175 | Answers with the mapping of a layout that fits, or refuses because no layout fits; it never answers "fits two layouts". |
| `TorrentLayout.FitsUnique` | backend/internal/torrentmeta/torrentmeta.go:150-190 | A client list has at most one fitting mapping, whichever layout it is read under. |
| `TorrentLayout.FitsCoversManifest` | backend/internal/torrentmeta/torrentmeta.go:154-163 | A fitting mapping names every manifest entry, names nothing else, and has as many indices as the manifest has entries. |
| `TorrentLayout.RootedExactly` | backend/internal/torrentmeta/torrentmeta.go:178-212 | A path is read under a root exactly when it is the root, a slash and something more; what is read is that. |
| `SkipSelection.SkipSet` | backend/internal/torrentmeta/torrentmeta.go:121-133 | The loop over a set of known files computes the entries of the update that the previous version had, in order. |
| `SkipSelection.InBothMembers` | backend/internal/torrentmeta/torrentmeta.go:118-133 | A file is in the skip list exactly when it is in both versions, and the list is no longer than the update. |
| `SkipSelection.SkipIndices` | backend/internal/torrentmeta/torrentmeta.go:254-267 | The indices returned are in ascending order exactly those mapped to a file to skip. |
| `SkipSelection.SkipIsExact` | backend/internal/scheduler/update_policy.go:277-325 | For any fitting mapping the skipped indices are exactly those of files the previous version had, as many as the skip list has entries even with repeats, so the "new" count is the number of files left wanted. |
| `ClientFolder.ClientRoot` | backend/internal/torrentmeta/root.go:42-57 | Answers the shared first component exactly when with it removed the list is the manifest. |
| `ClientFolder.RootIsLayout` | backend/internal/torrentmeta/root.go:36-57 | Without backslashes, a client root is also a layout: the list has exactly one fitting mapping, the one read under that root. |
| `ClientFolder.RootIsLayoutExactly` | backend/internal/torrentmeta/root.go:42-57 | A client root is a layout if and only if neither the root nor a manifest path has a backslash, or the manifest is empty and the root, normalised, puts everything below `.pad/`, read whole or without its first component. |
| `ClientFolder.BackslashRootOverNothing` | backend/internal/torrentmeta/root.go:42-57 | Over an empty manifest a root with a backslash is a layout exactly when everything below it is padding. |
| `ClientFolder.BackslashNameRefused` | backend/internal/torrentmeta/torrentmeta.go:163-175 | The list `Root/a\b` over the manifest `a\b`: the client shows the folder `Root`, and no layout fits. |
| `ClientFolder.RenameKeepsMapping` | backend/internal/scheduler/folder_name.go:233-247 | Renaming the shared folder to any non-empty name without slash or backslash makes the root that name and leaves the index-to-file mapping as it was. |
| `TorrentFiles.ListFiles` | backend/internal/torrentmeta/torrentmeta.go:41-62 | Accepts a file list exactly when every entry is acceptable, returns its content files in order without padding, and otherwise the error of the first bad entry. |
| `TorrentFiles.Files` | backend/internal/torrentmeta/torrentmeta.go:26-70 | What an accepted torrent yields in the multi-file and in the single-file form (its name and length), and exactly which torrents are refused with which error. |
| `TorrentFiles.FileOfExactly` | backend/internal/torrentmeta/torrentmeta.go:41-107 | An entry is a content file exactly when it is a dictionary with a path, the UTF-8 one first, that does not pad, and a length that is not negative; padding whatever its length; and each refusal has its exact cause. |
| `TorrentFiles.JoinParts` | backend/internal/torrentmeta/torrentmeta.go:41-62 | A path is its components with one slash between each two. |
| `TorrentFiles.FirstString` | backend/internal/torrentmeta/torrentmeta.go:109-116 | The first of two keys that holds a non-empty string, or the empty string when neither does. |
| `TorrentFiles.PaddingAgreesExactly` | backend/internal/torrentmeta/torrentmeta.go:99-107 | The two recognitions of padding agree on an entry if and only if: when it carries the `p` attribute, its path reads as padding; when it does not, its first component does not itself start with `.pad/`. |
| `TorrentFiles.ListedAllMatchesExactly` | backend/internal/torrentmeta/torrentmeta.go:192-245 | A client that lists every file, padding too, is matched one to one under its layout exactly when the two recognitions agree on every entry. |
| `TorrentFiles.ListedAllMaps` | backend/internal/torrentmeta/torrentmeta.go:163-190 | Where they agree, and no path has a backslash, such a list has a mapping. |
| `TorrentFiles.UnknownFileFitsNothing` | backend/internal/torrentmeta/torrentmeta.go:213-245 | One file that no layout reads as padding or as a manifest entry, and no layout fits the list. |
| `TorrentFiles.MarkedFileRefused` | backend/internal/torrentmeta/torrentmeta.go:102-107 | An entry marked as padding under an ordinary name and listed by the client: the list fits nothing. |
| `TorrentFiles.SlashedComponentRefused` | backend/internal/torrentmeta/torrentmeta.go:102-107 | One component `.pad/0` kept as content: no layout reads it, the list fits nothing. |
| `TorrentFiles.PaddingEntryFitsNothing` | backend/internal/torrentmeta/torrentmeta.go:246-250 | A manifest that kept an entry whose joined path reads as padding can be matched by no client list. |
| `Bencode.Decoder.Str` | backend/internal/torrentmeta/bencode.go:110-125 | The string reader is the grammar's string, and moves to its end. |
| `Bencode.Decoder.Value` | backend/internal/torrentmeta/bencode.go:39-108 | The mutating decoder computes the grammar's value, end and running count, or its error. |
| `Bencode.Decoder.List` | backend/internal/torrentmeta/bencode.go:65-83 | The list loop is the grammar's list with its length cap. |
| `Bencode.Decoder.Dict` | backend/internal/torrentmeta/bencode.go:84-103 | The dictionary loop is the grammar's dictionary; the last of equal keys wins. |
| `Bencode.DecodeValue` | backend/internal/torrentmeta/bencode.go:19-108 | Every accepted value consumes at least one byte, ends inside the input, and values counted never exceed bytes consumed. |
| `Bencode.DictIsLast` | backend/internal/torrentmeta/bencode.go:84-103 | A key has a value exactly when some pair has it, and then the value of the last such pair. |
| `BencodeGrammar.DecodesExactly` | backend/internal/torrentmeta/bencode.go:19-125 | The decoder accepts exactly the spellings the scanner accepts whose integers are 64-bit numbers, with at most 100,000 items in a list and 250,000 values in all, and returns what the spelling means. |
| `Numerals.ParsesExactly` | backend/internal/torrentmeta/bencode.go:110-125 | A number is read exactly from its spellings: a sign or none, any zeros, its digits, within 64 bits. |
| `BencodeRoundTrip.DecodeEncoded` | backend/internal/torrentmeta/bencode.go:19-125 | Wherever the bencoding of a value stands in the input, within the caps it decodes to that value and stops exactly at its end. |
| `BencodeRoundTrip.RoundTrip` | backend/internal/torrentmeta/bencode.go:19-125 | Decoding an encoding, whatever bytes surround it, succeeds if and only if depth, list length and value count are within the caps. |
| `InfoHash.ReadString` | backend/internal/infohash/infohash.go:187-203 | The string scanner computes the string scan, with the sum of position and length wrapping at 64 bits. |
| `InfoHash.IndexByteFrom` | backend/internal/infohash/infohash.go:206-213 | The first position at or after `from` holding the byte, or -1 when there is none. |
| `InfoHash.SkipValue` | backend/internal/infohash/infohash.go:138-160 | The scanner computes the span grammar's end of a value. |
| `InfoHash.SkipContainer` | backend/internal/infohash/infohash.go:160-183 | The list and dictionary loops compute the span grammar's end of a container. |
| `InfoHash.InfoDictBytes` | backend/internal/infohash/infohash.go:112-136 | The loop finds the span of the first `info` value, or reports why not. |
| `InfoGrammar.ScansExactly` | backend/internal/infohash/infohash.go:138-203 | The scanner accepts a value exactly when it is spelled as one, however lengths and integers are written, at most thirty-two deep, and stops at the end of that spelling. |
| `InfoGrammar.InfoExactly` | backend/internal/infohash/infohash.go:112-136 | The span to hash is found exactly when complete fields with other keys lead up to an `info` field: it is the value of that one. |
| `InfoHash.StringFaultsExactly` | backend/internal/infohash/infohash.go:187-203 | Reading a string slices out of bounds exactly when its length prefix carries the end past the largest 64-bit number. |
| `InfoHash.InfoFaultsExactly` | backend/internal/infohash/infohash.go:112-183 | The search for the info value slices out of bounds if and only if one of the strings it reads has a length that carries its end past the largest 64-bit number. |
| `InfoHash.ModestLengthsNeverFault` | backend/internal/infohash/infohash.go:112-203 | Never, when every number before a colon is at most the largest 64-bit number less the input's size. |
| `InfoHash.OverlongKeyFaults` | backend/internal/infohash/infohash.go:187-203 | An input that shows it: `d`, one of the three largest 64-bit numbers, and a colon. |
| `ReaderAgreement.ValueScanned` | backend/internal/infohash/infohash.go:138-183 | Whenever the decoder accepts a value, the scanner at the same position and depth returns exactly the same end. |
| `ReaderAgreement.SpanIsValue` | backend/internal/infohash/infohash.go:112-136 | The bytes of an accepted value, taken alone, decode to that value and nothing is left. |
| `ReaderAgreement.HashedSpanIsInfo` | backend/internal/infohash/infohash.go:112-136 | For every torrent the decoder accepts, the span to hash exists exactly when there is an info entry and decodes to the first one; when the key occurs once it is the decoder's own info dictionary. |
| `DeliveryPlan.PlanDelivery` | backend/internal/scheduler/update_policy.go:110-185 | The decision table: paused exactly when the policy applies to a client that can select; a selection exactly when payload, hash and baseline are all known; its skip list is exactly the files both versions have; each fallback, and the note that a client cannot pause, exactly by its own cause. |
| `DeliverySteps.WaitForFiles` | backend/internal/scheduler/update_policy.go:358-373 | Polls until the client lists files; a failure is the client's last answer. |
| `DeliverySteps.WaitForStopped` | backend/internal/scheduler/folder_name.go:275-290 | Returns the last disk state read. |
| `DeliverySteps.WaitForRoot` | backend/internal/scheduler/folder_name.go:252-271 | Returns a list only when it shows the wanted name; otherwise the last answer did not. |
| `DeliverySteps.ApplyFolderName` | backend/internal/scheduler/folder_name.go:199-248 | Keeps every rule of a run and makes exactly the calls of a folder step: none without a folder, one look when it has the wanted name, else the wait, the rename and the wait for its name as far as they go; what it answers is what those calls came to. |
| `DeliverySteps.SkipOld` | backend/internal/scheduler/update_policy.go:313-318 | Asks to skip exactly the old indices of a list that fits. |
| `DeliverySteps.SelectNewFiles` | backend/internal/scheduler/update_policy.go:276-342 | Keeps every rule; its note is true; its calls are exactly those of a selection: it waits for a list unless given one, skips the old files of a list that fits, starts the torrent when something is new and it may, and ends early only where one of these fails. |
| `DeliverySteps.FinishUpdatePolicy` | backend/internal/scheduler/update_policy.go:248-270 | The file list is stored as the last step exactly when the selection took effect; without a selection nothing is called. |
| `DeliverySteps.WaitForRunning` | backend/internal/scheduler/folder_name.go:345-364 | True only when the client was seen running. |
| `DeliverySteps.StopUnchecked` | backend/internal/scheduler/folder_name.go:325-337 | The last call is a stop. |
| `DeliverySteps.RecheckRenamed` | backend/internal/scheduler/folder_name.go:298-316 | After a rename a torrent is rechecked, a started one once it was seen running; it is stopped only when the recheck was refused or it was never seen running. |
| `DeliverySteps.FinishDelivery` | backend/internal/scheduler/update_policy.go:208-232 | The calls after the row are exactly those of the script: the policy alone without a folder to name; else the list, the folder step, the policy on the list that left, the start of what only the rename paused, and the recheck. |
| `DeliverySteps.Deliver` | backend/internal/scheduler/scheduler.go:1103-1165 | For every outcome of every call the run is lawful, settled and a whole script: refused, or added, recorded and carried on to an end of the script. |
| `DeliverySteps.UnnamedEnds` | backend/internal/scheduler/update_policy.go:208-270 | With no folder to name a delivery is two calls when there is nothing to select, and else ends with its list stored or with the call that failed. |
| `DeliverySafety.StartsAtMostOnce` | backend/internal/scheduler/update_policy.go:208-243 | A delivery starts the torrent at most once. |
| `DeliverySafety.PausedFallbackNeverStarts` | backend/internal/scheduler/update_policy.go:248-270 | A paused delivery without a selection is never added unpaused and never started. |
| `DeliverySafety.RenameIsGuarded` | backend/internal/scheduler/folder_name.go:217-232 | A rename comes directly after a disk state read as stopped with no bytes, and after no start. |
| `DeliverySafety.ConfirmedRenameIsSettled` | backend/internal/scheduler/folder_name.go:291-337 | Once a rename is confirmed, the last call that changes the torrent is a successful recheck, made after any successful start was seen running, or a stop. |
| `DeliverySafety.OldFilesNeverRun` | backend/internal/scheduler/update_policy.go:18-23 | No failure lets an old file download: whenever the torrent may be running, added unpaused or started, every index that holds a file of the previous version was skipped by a call the client confirmed. |
| `DeliverySafety.OnlyOldFilesSkipped` | backend/internal/scheduler/update_policy.go:303-318 | No new file is left out: whatever a delivery asks to skip is exactly the torrent's files the previous version had. |
| `DeliverySafety.StoredListWasSelected` | backend/internal/scheduler/update_policy.go:77-93 | From the moment a list is stored after a selection, the skipped indices are exactly those of old files and the files left wanted exactly the new ones; such a delivery's row is recorded without a list. |
| `DeliverySafety.RecordCarries` | backend/internal/scheduler/update_policy.go:88-93 | The row carries the whole list of the torrent, and none exactly when a selection is still to run. |
| `DeliveryHistory.LatestFiles` | backend/internal/db/repo/deliveries.go:56-101 | The baseline is a row of another torrent, its newest, with or without a list. |
| `DeliveryHistory.HistoryIsBacked` | backend/internal/scheduler/update_policy.go:77-93 | Over every run, every listed row and every skip list holds only files some step offered as wanted. |
| `DeliveryHistory.SkippedWasOffered` | backend/internal/scheduler/update_policy.go:77-93 | Over every run of planning, adding, recording, selecting, storing and pruning, each file an update will mark "do not download" was offered as wanted by an earlier step of another delivery. |
| `DeliveryHistory.InterruptedSelectionPauses` | backend/internal/db/repo/deliveries.go:67-101 | Over every run: once a delivery with a selection is recorded, and until its list is stored, its row pruned or another row added, every update of another torrent that the policy applies to has no baseline and arrives paused. |
| `DeliveryHistory.RecordedListIsBaseline` | backend/internal/db/repo/deliveries.go:67-101 | Over every run: once a delivery without a selection is recorded with its list, and until another row is added or its own is pruned or replaced, every update of another torrent that the policy applies to gets a selection that skips exactly the files both torrents have. |
| `DeliveryHistory.StoredListIsBaseline` | backend/internal/scheduler/update_policy.go:77-93 | The same of a selection's list from the moment it is stored in the newest row. |
| `DeliveryRows.CallTracked` | backend/internal/scheduler/scheduler.go:1137-1205 | Whatever call a lawful delivery makes, its meaning to the rows is a step the history allows, and the two stay in agreement. |
| `DeliveryRows.CallWritesRows` | backend/internal/scheduler/scheduler.go:1176-1205 | A recorded torrent has a row, with its list unless a selection is still to run; a stored list is in every row of its torrent; no other call changes the rows. |
| `DeliveryRows.LawfulHappens` | backend/internal/scheduler/scheduler.go:1137-1165 | Every lawful run of a delivery, so every run of the delivery procedure, can be played against the rows. |
| `DeliveryRows.SkippedWasWanted` | backend/internal/scheduler/update_policy.go:77-93 | Over any number of deliveries interleaved call by call: each file an update will mark "do not download" belongs to an earlier delivery whose torrent was handed over and whose client was left with that very file wanted. |
| `EditMerge.SortEdits` | backend/internal/pageredact/edits.go:66-67 | Sorted by start, the same edits; ties in any order. |
| `EditMerge.MergeEdits` | backend/internal/pageredact/edits.go:66-79 | In place, the edits become their merge: disjoint groups in order, edits that only touch apart, a group dropped only if every edit in it is. |
| `EditMerge.MergeSortedIsMerge` | backend/internal/pageredact/edits.go:66-79 | One pass over the sorted edits yields the merge. |
| `EditMerge.MergeUnique` | backend/internal/pageredact/edits.go:66-79 | A list of edits has one merge, so an unstable sort never shows. |
| `EditMerge.MergeCovers` | backend/internal/pageredact/edits.go:62-79 | The groups cover exactly the bytes the edits cover. |
| `RedactEdits.PlaceholdersApart` | backend/internal/pageredact/edits.go:81-89 | The placeholder has no self-overlap: two occurrences never share a byte. |
| `RedactEdits.IndexPlaceholder` | backend/internal/pageredact/edits.go:93-97 | The first placeholder at or after an offset. |
| `RedactEdits.AbsorbPlaceholders` | backend/internal/pageredact/edits.go:81-109 | The one-pass sweep with its moving index widens every edit to the hull over all placeholders that overlap it, as comparing each with each would. |
| `RedactEdits.WidenFrom` | backend/internal/pageredact/edits.go:101-106 | The inner loop takes exactly the edits that overlap the current placeholder. |
| `RedactPage.EditList.Replace` | backend/internal/pageredact/edits.go:22-26 | Appends one placeholder edit for a non-empty span. |
| `RedactPage.EditList.ReplaceAll` | backend/internal/pageredact/edits.go:28-38 | Appends the non-empty pieces of one secret; only the first keeps its placeholder. |
| `RedactPage.EditList.Apply` | backend/internal/pageredact/edits.go:40-60 | The page written is, position by position, the uncovered bytes in order and one placeholder for each group that is not all drops. |
| `RedactPage.Splice` | backend/internal/pageredact/edits.go:49-59 | The copying loop writes that page. |
| `RedactPage.GroupingExists` | backend/internal/pageredact/edits.go:43-48 | Merging, widening and merging again always has a result. |
| `RedactPage.GroupingUnique` | backend/internal/pageredact/edits.go:43-48 | And only one, whatever order the sort left equal starts in. |
| `RedactPage.GroupsCover` | backend/internal/pageredact/edits.go:43-48 | What is taken out is exactly the recorded edits and the placeholders they overlap. |
| `RedactPage.PlaceholdersAreFixed` | backend/internal/pageredact/edits.go:81-89 | If every recorded edit lies inside a placeholder already in the page, any mix of drop flags, the page comes back unchanged. |
| `RedactText.Mapped.Identity` | backend/internal/pageredact/text.go:30-36 | Appends the page bytes, each tied to itself. |
| `RedactText.Mapped.Reference` | backend/internal/pageredact/text.go:38-44 | Appends decoded text, every byte tied to the whole reference. |
| `RedactText.Mapped.Decode` | backend/internal/pageredact/text.go:46-82 | Appends the left-to-right decoding of the page bytes, with the attribute rule for unclosed named references. |
| `RedactText.RefLengthExactly` | backend/internal/pageredact/text.go:46-46 | What is found at a position is the longest decimal, hexadecimal or named reference there, within the length limits and with its semicolon if there is one; nothing exactly when there is none. |
| `RedactText.DecodedReference` | backend/internal/pageredact/text.go:52-82 | A reference decodes to what it stands for, tied whole to every character; it stays as it is spelled exactly when it is a name without semicolon inside an attribute, or stands for itself. |
| `RedactText.DecodedByte` | backend/internal/pageredact/text.go:52-82 | A byte where no reference begins decodes to itself. |
| `RedactText.Search` | backend/internal/pageredact/text.go:88-88 | The binary search finds the first run that ends after the start; justified by the order of the runs. |
| `RedactText.Mapped.SourceOf` | backend/internal/pageredact/text.go:84-107 | Exactly the source bytes the decoded range came from, in spans that are ordered, disjoint and do not touch; a reference is whole or absent. |
| `RedactText.DecodedCoversSource` | backend/internal/pageredact/text.go:46-82 | Decoding keeps track of every source byte: it is behind a decoded character or inside a reference that decodes to nothing. |
| `TagLexer.LexAttr` | backend/internal/pageredact/tag.go:69-121 | Name, value and quotes of one attribute as the grammar gives them; a value's content holds no closing quote, an unquoted one no space or `>`; no byte is looked at more than three times, and beyond the attribute only white space and the byte behind it. |
| `TagLexer.LexTag` | backend/internal/pageredact/tag.go:35-67 | The tag is its name and a chain of attributes separated only by white space and `/`, closed by `>` or cut at the limit; flags exactly for a repeated name and for a quote or `<` in one; no byte of the page is looked at more than eight times. |
| `TagLexer.ValuesInOrder` | backend/internal/pageredact/tag.go:8-31 | Value spans of one tag are in order, disjoint and inside it. |
| `TagLexer.InnerTags` | backend/internal/pageredact/tag.go:148-153 | Every `<letter` inside a malformed tag, in order, and nothing else. |
| `TagLexer.RescanReadsAll` | backend/internal/pageredact/tag.go:158-164 | Every byte from the first swallowed tag on is in the range of one. |
| `TagLexer.Rescan` | backend/internal/pageredact/tag.go:143-165 | The second pass reads each swallowed tag as the lexer would up to the next one, and however many there are no byte of the page is looked at more than ten times. |
| `CheckTick.HashMovesOnlyWhenClean` | backend/internal/scheduler/scheduler.go:588-640 | Over all interleavings the stored hash moves only by a reset, or by a check with a current token in which no check, download, submission or mark failed, to the hash it saw. |
| `CheckTick.StaleWriteIsDiscarded` | backend/internal/scheduler/scheduler.go:990-1048 | A drain aborted as stale reports success and asks to record the new hash, and that write never lands. |
| `CheckTick.ResetIsNotUndone` | backend/internal/db/repo/topics.go:415-450 | After a reset, the hash and every episode mark in the row come from checks that took their snapshot after it. |
| `CheckTick.GuardedSubmitIsFresh` | backend/internal/scheduler/scheduler.go:1115-1135 | A payload handed over behind a guard that could be read comes from a check dispatched after the last reset. |
| `CheckTick.InvKept` | backend/internal/scheduler/scheduler.go:53-73 | Every step of every worker, reset and recheck keeps the token invariant. |
| `CheckTrace.StepsFollow` | backend/internal/scheduler/scheduler.go:460-640 | In every state of every run a check's next step is exactly one that its last step, what it found and what it has left to do allow, and each of those is possible. |
| `CheckTrace.WorkNeedsChange` | backend/internal/scheduler/scheduler.go:510-512 | Nothing is downloaded, submitted, announced or marked unless the check found a non-empty hash other than the row's at its last snapshot; a notify-only topic is announced and marked, never downloaded. |
| `CheckTrace.HashMovesAfterWork` | backend/internal/scheduler/scheduler.go:588-640 | The stored hash moves, other than by a reset, only after that check submitted, announced or found nothing more to fetch, with no other write since its snapshot; to the hash it found. |
| `CheckTrace.RecordDecides` | backend/internal/scheduler/scheduler.go:588-640 | The final write leaves the row alone when another write came in between; else it records the new hash exactly when the last step went well, and keeps the old one when it did not. |
| `CheckTrace.NothingLeftBehind` | backend/internal/scheduler/scheduler.go:951-1070 | When the hash moves every pending episode is marked in the row by that check, unless the tracker had nothing more to fetch or the cap was reached. |
| `CheckTrace.MarkDecides` | backend/internal/scheduler/scheduler.go:1035-1060 | A mark that lands writes the next pending episode, or all of a notify-only topic's, and nothing else. |
| `CheckTrace.UndisturbedExactly` | backend/internal/db/repo/topics.go:415-450 | A check's token is current exactly while no reset, no other write and no final write that landed came since its snapshot. |
| `EpisodeDrain.DownloadAllPending` | backend/internal/scheduler/scheduler.go:951-1070 | Marks follow the pending list, each for a payload handed over; at most the last one handed over is unmarked; labels, infohashes and the note are those of the payloads handed over; the cap holds; failed exactly when its last turn failed. |
| `EpisodeDrain.HashesAreDelivered` | backend/internal/scheduler/scheduler.go:1022-1027 | An infohash is reported exactly when a payload handed over has it. |
| `Backoff.Delay` | backend/internal/scheduler/scheduler.go:1331-1387 | Strictly positive for every input; the interval itself on success. |
| `Backoff.DurableDelayDoubles` | backend/internal/scheduler/scheduler.go:1340-1374 | In 64-bit arithmetic a durable failure waits min(base * 2^(errors+1), cap) as over unbounded integers. |
| `Backoff.DurableDelayGrows` | backend/internal/scheduler/scheduler.go:1340-1374 | More failures in a row never wait less. |
| `Backoff.RetrySchedule` | backend/internal/scheduler/scheduler.go:1302-1374 | The whole schedule: a network blip waits a minute for the first five failures in a row, every other failure min(interval * 2^(errors+1), the ceiling, six hours when none is set). |
| `CheckSpacing.CheckSpacer.Claim` | backend/internal/scheduler/spacing.go:40-57 | Refuses a start too soon and records one otherwise; other trackers are untouched. |
| `CheckSpacing.CheckSpacer.Reserve` | backend/internal/scheduler/spacing.go:59-74 | Hands out the next slot; other trackers are untouched. |
| `CheckSpacing.StartsAreSpaced` | backend/internal/scheduler/spacing.go:17-57 | No two starts of a tracker are closer than it asks, over any run and whatever the clock does. |
| `CheckSpacing.StartsExactly` | backend/internal/scheduler/spacing.go:40-57 | A check may start exactly when every earlier start is a gap ago; otherwise the wait ends a gap after the latest of them. |
| `CheckSpacing.SlotsAreSpaced` | backend/internal/scheduler/spacing.go:59-74 | Slots are given in the order asked, each a gap after the one before. |
| `CheckSpacing.SlotsExactly` | backend/internal/scheduler/spacing.go:59-74 | A turn is at once, or a gap after the turn given out before it, whichever is later. |
| `CheckSpacing.LaneQueue.Push` | backend/internal/scheduler/spacing.go:175-180 | Appends. |
| `CheckSpacing.LaneQueue.Pop` | backend/internal/scheduler/spacing.go:182-199 | First in, first out; nothing once closed, even with topics left; on an empty open queue the caller is told to wait and nothing changes. |
| `CheckSpacing.LaneQueue.Close` | backend/internal/scheduler/spacing.go:201-206 | Closes and keeps what is queued. |
| `Dispatch.OneCheckPerTopic` | backend/internal/scheduler/scheduler.go:360-367 | Over all interleavings a topic is never checked by two goroutines at once. |
| `Dispatch.QueuesHoldTopicsOnce` | backend/internal/scheduler/spacing.go:150-160 | Queues hold each topic once, in one queue only, and none that is being checked. |
| `Dispatch.LaneIsBounded` | backend/internal/scheduler/spacing.go:150-161 | While no topic is deleted that the scheduler has marked, and no deleted one is marked, a lane never holds more than its tracker's topics. |
| `Dispatch.LaneBoundExactly` | backend/internal/scheduler/spacing.go:150-161 | Over a whole run a lane stays within its tracker's topics if and only if no step deletes a topic of the tracker, or queues one in the lane, while the lane is as long as the tracker has topics. |
| `Dispatch.LaneHoldsItsOwn` | backend/internal/scheduler/spacing.go:208-232 | A lane holds topics of its own spaced tracker only, each once; those not deleted are among the tracker's topics. |
| `Dispatch.LaneKeepsDeleted` | backend/internal/scheduler/spacing.go:150-161 | A topic deleted while it waits keeps its place: a lane of one with no topic left. |
| `Dispatch.MarkedIsSomewhere` | backend/internal/scheduler/scheduler.go:268-290 | The inflight set is exactly the topics queued or being checked, whenever the dispatcher has none in hand. |
| `Dispatch.NothingStuck` | backend/internal/scheduler/scheduler.go:268-290 | A due topic can be marked unless it is, a marked one is queued last in the queue its tracker asks for, the first of a queue can be taken by any idle worker, and after its check it can be marked again. |
| `SolverSession.Transport.CachedSession` | backend/internal/flaresolverr/client.go:289-310 | The cached answer: session, closed, cooling down, or try to create. |
| `SolverSession.Transport.BeginLocked` | backend/internal/flaresolverr/client.go:259-265 | One more unit of work; a new idle channel when it is the first. |
| `SolverSession.Transport.BeginCreate` | backend/internal/flaresolverr/client.go:216-223 | Begins exactly when Close has not run. |
| `SolverSession.Transport.End` | backend/internal/flaresolverr/client.go:267-276 | One unit less; closes the idle channel exactly when it was the last. |
| `SolverSession.Transport.FinishCreate` | backend/internal/flaresolverr/client.go:235-252 | A failure starts the cooldown; a name is installed unless Close came first, and is then the caller's to destroy. |
| `SolverSession.Transport.DropLocked` | backend/internal/flaresolverr/client.go:321-329 | Forgets a session only if it is still the active one, and counts its destroy. |
| `SolverSession.Transport.CloseLocked` | backend/internal/flaresolverr/client.go:347-355 | Takes the session and one snapshot of the idle channel. |
| `SolverRun.InvKept` | backend/internal/flaresolverr/client.go:128-143 | Every step of every caller keeps the session invariant. |
| `SolverRun.SessionInOnePlace` | backend/internal/flaresolverr/client.go:195-368 | Every session the solver ever returned is in exactly one place: installed, the business of one create, detached destroy or Close, or already sent a destroy. |
| `SolverRun.NothingOverwritten` | backend/internal/flaresolverr/client.go:246-250 | Installing a session never overwrites one. |
| `SolverRun.OneCreateAtATime` | backend/internal/flaresolverr/client.go:200-213 | At most one create is under way. |
| `SolverRun.NothingBeginsAfterClose` | backend/internal/flaresolverr/client.go:350-352 | After Close no work begins and no session appears. |
| `SolverRun.IdleCloseLeavesNoOrphan` | backend/internal/flaresolverr/client.go:339-368 | When a Close's wait ends by idle, nothing is inflight and every session created was sent a destroy or is held by another Close about to send one. |
| `SolverRun.CreatesAreSpaced` | backend/internal/flaresolverr/client.go:236-240 | No create is tried within the cooldown of the last failed one. |
| `SolverTrace.LookSays` | backend/internal/flaresolverr/client.go:289-310 | What a look finds, at any moment of any run: exactly the session that was installed and not dropped since; refused exactly once a Close came; cooling down exactly when the last create failed less than thirty seconds ago; and otherwise a create to try. |
| `SolverTrace.StepsFollow` | backend/internal/flaresolverr/client.go:195-368 | A caller's next step is exactly one that its last step and what that found allow, and can be made as soon as the slot is free or the work it waits for has drained. |
| `SolverTrace.IdleWakesClose` | backend/internal/flaresolverr/client.go:339-368 | Once nothing is in flight every Close that still waits can return. |
| `ClearanceMinter.OneSolveAtATime` | backend/internal/flaresolverr/minter.go:84-127 | One solve of a host at a time. |
| `ClearanceMinter.SolvesAreOwed` | backend/internal/flaresolverr/minter.go:84-145 | Every solve but the first is owed to a failed solve or a thrown-away clearance. |
| `ClearanceMinter.StepsFollow` | backend/internal/flaresolverr/minter.go:84-127 | A caller's next step is exactly one that its last step and the clearance kept at that moment allow: a valid one ends the call, only an empty one is solved for. |
| `ClearanceMinter.AnswerIs` | backend/internal/flaresolverr/minter.go:84-127 | A caller is answered the clearance kept when it looked, or the one its own solve gave, or none. |
| `Fingerprint.AppendUvarint` | backend/internal/trackercreds/session.go:165-165 | The varint loop. |
| `Fingerprint.Buffer` | backend/internal/trackercreds/session.go:161-168 | The buffer is the three parts, each behind its length. |
| `Fingerprint.PrefixedInjective` | backend/internal/trackercreds/session.go:159-168 | Different lists of parts never give the same buffer. |
| `Fingerprint.SameBufferSameCredential` | backend/internal/trackercreds/session.go:159-168 | Buffers agree exactly when user name, secret and session all do. |
| `SignIn.SessionSlot.Settle` | backend/internal/trackercreds/session.go:66-82 | A success makes the credential the owner, a failure leaves none; an answer its own caller cut short is not kept. |
| `SignIn.SessionSlot.Inherit` | backend/internal/trackercreds/session.go:128-130 | Takes an answer over only for the same credential and only when it ended after the caller came. |
| `SignIn.OneSignInAtATime` | backend/internal/trackercreds/session.go:84-87 | At most one Verify or Login is in flight. |
| `SignIn.NilMeansOwnSession` | backend/internal/trackercreds/session.go:104-137 | Whoever is answered nil, by its own attempt or another's, finds the plugin signed in by a login with its own credential. |
| `SignIn.InheritedIsFresh` | backend/internal/trackercreds/session.go:96-102 | An answer taken over is that of an attempt with the same credential that ran to its end after the caller came. |
| `SignInTrace.StepsFollow` | backend/internal/trackercreds/session.go:116-160 | A caller takes an answer over exactly when it may, verifies exactly the session its own credential made last, and logs in otherwise; Establish always logs in. |
| `SignInTrace.AnswerIs` | backend/internal/trackercreds/session.go:116-160 | A caller is answered what it took over, or how its own attempt ended. |
| `DomainRing.Store.ReportLocked` | backend/internal/domains/store.go:184-228 | The locked region of ReportFailure: rotates exactly when ring, cooldown and threshold allow, to the next domain, touching no other tracker. |
| `DomainRing.Store.Resolve` | backend/internal/domains/store.go:140-145 | The tracker's current configuration. |
| `DomainRing.Store.SetCached` | backend/internal/domains/store.go:164-166 | The cached configuration becomes the given one; failure counts and cooldown go on, other trackers are untouched. |
| `DomainRing.Position` | backend/internal/domains/store.go:212-218 | The loop finds where the ring stands, or its start. |
| `DomainRing.RingComesRound` | backend/internal/domains/store.go:219-221 | Rotating a ring without repeats reaches every mirror and comes back round. |
| `DomainRing.RotationNeedsTwoFailures` | backend/internal/domains/store.go:32-41 | A rotation is the second failure within the window, neither spent on an earlier rotation. |
| `DomainRing.RotationsAreSpaced` | backend/internal/domains/store.go:27-30 | Two rotations of a tracker are at least a cooldown apart. |
| `DomainRing.RotatesExactly` | backend/internal/domains/store.go:184-228 | Over every run a failure rotates the tracker exactly when there is another mirror, the last rotation is ten minutes old, and an earlier failure opened a window no more than five minutes before. |
| `DomainRing.TwoFailuresRotate` | backend/internal/domains/store.go:32-41 | Two failures in a row no more than five minutes apart, the first opening a window, rotate a ring of two once the cooldown is over. |
| `DomainStore.InvKept` | backend/internal/domains/store.go:155-259 | Every step of every Set and ReportFailure keeps the invariant: the lock has one holder, and the cache holds what the last write was to store, or a call is still to store it. |
| `DomainStore.QuietMeansSaved` | backend/internal/domains/store.go:155-259 | Whenever no call is in flight, row and cache of a tracker hold the same configuration if and only if the last write of the row succeeded or would have stored what the row held, or, with no write, the load took the row over as it was. |
| `DomainStore.QuietMeansTried` | backend/internal/domains/store.go:155-259 | Whenever no call is in flight the cache holds what the last write was to store, whether or not any write fails. |
| `DomainStore.LastWriteDecides` | backend/internal/domains/store.go:155-259 | The row holds what its last write stored, or, when that failed, what it held before; with no write, what the load found. |
| `DomainStore.NothingUnsaved` | backend/internal/domains/store.go:170-178 | With no failed Upsert of a rotation and no mirror dropped at boot, every row is the cache whenever no call is in flight. |
| `DomainStore.FailedUpsertIsLost` | backend/internal/domains/store.go:174-176 | The run that shows it: one failed Upsert, no call left, the cache on the new domain and the row on the old one. |
| `DomainStore.OldRotationNeverPersists` | backend/internal/domains/store.go:241-254 | A rotation cached before a Set's cache write never reaches the row after it. |
| `DomainTrace.StepsFollow` | backend/internal/domains/store.go:155-259 | A call's next step is exactly the one after its last; only the write lock makes it wait. |
| `DomainTrace.CacheStep` | backend/internal/domains/store.go:155-228 | A rotation caches its target with the custom domains as they were, a Set that reached the row the configuration it was called with, and no other step changes the cache. |
| `DomainTrace.WriteStores` | backend/internal/domains/store.go:155-259 | A Set writes its own configuration, a rotation the cache as it read it just before. |
## Left out

- The SQL of the repositories: only the contracts the scheduler and the stores rely on are modelled.
- Tracker, client and notifier plugins, HTTP, metrics, logging, notifications and their wording, configuration, authentication, the frontend.
- Hash functions, ciphers and the regular expressions and substring tables that classify errors.
- Choosing a folder name (planFolderName, keepFolderName, rememberFolderName): a delivery is given the name to rename to, or none.
- The flags `fileSelection.started` and `folderPlan.recheck` are out-parameters of the steps that set them.
- The torrent's own root name (RootName) and the infohash of a magnet link.
- replacePrevious and the removal of torrents by a reset; a reset is its write of the check state.
- Reset's window before its last write: a submission verified while the reset still removes torrents is possible in the source and in the model.
- The tokenizer and the walk over its tokens (scan, finish, recognize) and the detectors of secrets in decoded text: edits and decoded text are modelled for whatever the detectors report.
- The username detector and its Unicode case folding.
- OldFilesNeverRun: counts the adds and starts of its own delivery only; a retried delivery may meet a torrent that an earlier attempt, or the user, already left running.
- LexTag, Rescan: the bounds are on looks at the page; work on the copy of a name (folding its case, searching it for quotes, looking it up among the names seen) is not counted.
- LaneQueue.Pop: one look at the queue; who is woken when, and in which order waiters look again, is not modelled.
- DomainStore: the boot load is its result, each row taken over or its removed mirror dropped; SetUpsert and SetCache are Set's two writes.
- Bencode.Decoder and InfoHash: inputs longer than the largest 64-bit number.
