# A verified model of magnet-to-strm's stateful middle

The service turns magnet links into STRM files: it submits links to a cloud provider, waits for the
downloads, scans the results, keeps a catalogue of contents and their remote copies in SQLite, and
serves the contents through redirects and a read-only WebDAV tree. This project models the code that
decides what happens to a job, a remote file or a cached answer when goroutines, processes or
requests interleave, and proves what that code keeps over all runs, all provider answers and all
inputs.

Each source file has a module of classes and functions, and a module of theorems about them:

- `Bencode`, `BencodeTheorems`, `Torrent`, `TorrentTheorems`: the bencode decoder with its offset and
  depth (BEP 3), an encoder as its inverse, and the step from torrent metadata to a magnet link.
- `PollSchedule`, `OfflineTasks`, `OfflineTheorems`: the offline-task manager, its scheduler and its
  callers as interleaved steps, its paging and its poll rate.
- `SingleFlight`, `SingleFlightTheorems`: the resolution cache and the download URL cache.
- `RecycleBin`: the worker that coalesces requests to empty the recycle bin.
- `Catalogue`, `CatalogueEffects`, `CatalogueTheorems`, `CatalogueIntegrity`, `Reseeding`: the tables,
  every repository call as a transaction, what each changes and leaves alone, and invariants over all
  sequences of calls.
- `Migration`, `MigrationTheorems`: the upgrades from schema version 8 to 11.
- `JobRun`, `TaskQueue`: a job's run against arbitrary other calls, and the queue in front of it.
- `FolderScan`, `FolderScanTheorems`: the recursive scan of a result folder.
- `ResolveProtocol`: resolving a magnet link against a provider that may answer anything.
- `Lease`, `LeaseTheorems`: the token-refresh lease shared by several processes.
- `DavNamespace`: the WebDAV tree, its hrefs and their parser.
- `Texts`, `Wrappers`: lower case, string order, Option and Result.

Concurrency is modelled in two ways. Where several goroutines or processes interleave, a `System`
value and its `Event`s give one step per critical section, and theorems range over every legal
sequence of events. Where one call meets an environment, the methods of a `World`, a `Provider` or a
`Repository` give arbitrary answers, and a trace or a log records what was asked for. Clocks are
numbers that do not run backwards; a reading taken before a lock may be old, but the readings of one
goroutine come in the order of its steps. A context that ends is
a patience that runs out or an arbitrary failure.

`dafny verify dfyconfig.toml` checks the whole project.

## Where the code promises less than it seems

The model follows the code. These are theorems, with the exact condition or a concrete run:

- A sourceless `SaveLocation` can give a content a second live managed copy for one torrent
  (`OldIdComesBack`); it does so exactly when it clashes (`OneLiveAlways`). Saving a row as it was
  found never clashes (`SavedAsFoundNeverClashes`). That the row is live and belongs to the content is
  not enough: an external row saved as managed clashes too (`ExternalSavedAsManagedClashes`).
- A record that is restarted while a poll of it is under way can be polled a fifth and a sixth time
  early, never more (`PollBudget`). A restart keeps the bound of four early polls in every continuation
  exactly when no poll of the record is under way, or the scheduler decided it one minimum interval or more
  after the restart's reading of the clock, or the restart took its lock two or more after that reading
  (`BudgetIffNoOverlap`); from every other state a fifth early poll can follow (`OneTooMany`).
- A lookup in the resolution cache reads the clock before it has the lock, so it can set an entry's last
  access back; it does so exactly if it hits with an older reading (`MovesBackIff`). If the entry is still
  in use by the clock of that moment, the key can be resolved again within the time to live of its last
  use; every lookup that does not do that leaves all runs in time (`InTimeIffHarmless`, `NoEarlyRelaunch`).
- A rescan of a published result asks for an STRM again exactly when the result lists one path with
  two contents (`RescanNeedsNothing`).
- Only cancellation is protected against stale updates: a succeeded row stays succeeded exactly as long
  as nobody deletes it or updates it to another state (`SucceededAlways`), which a second run of the job
  does (`SecondRunReopens`). A scan outside any job overwrites even a canceled direct row (`CanceledStep`).
- The upgrade to version 11 attaches all copies of a torrent to one artifact. They get the artifact of
  their own root exactly when that root is the torrent's work directory or, for a torrent without a
  succeeded job, when they have one root (`UpgradeKeepsRootsIff`). From version 9 it fails exactly when a
  location dangles or two active jobs share a hash up to case (`UpgradeSucceedsIff`).
- A batch of jobs is stored row by row and enqueued afterwards, so a failure leaves queued rows that
  nobody runs until the next start: those before the first job that is refused, or all of them if the
  channel is full or the context over (`SubmitNew`), for as long as no other call changes them
  (`MadeStays`). While others leave the tasks alone it succeeds exactly when every job is `Submittable` and
  the channel takes the batch (`MadeMeans`).
- Running jobs that are queued again at the start are all resumed exactly when the list of sources is not
  the empty one (`ResumesIffListed`); the program itself never passes that.
- The pause after a failed refresh does not hold back the owner (`PauseIsNotForTheOwner`), and an
  import of credentials drops anybody's lease (`ReimportOpens`). Two processes then refresh at once in some
  continuation exactly when the import comes during a refresh (`ImportBreaksIff`).
- The href of an object whose name ends in a dot does not parse (`HrefRoundTrip`).

## Model

| member | source | states |
|---|---|---|
| `Bencode.BDecoder.IndexByte` | internal/transport/qbittorrent/metainfo.go:145-152 | the first position of a byte from the offset on, or none |
| `Bencode.BDecoder.ByteString` | internal/transport/qbittorrent/metainfo.go:127-143 | reads a length-prefixed string as the format has it; no colon, a bad or negative length or too few bytes is an error |
| `Bencode.BDecoder.Value` | internal/transport/qbittorrent/metainfo.go:67-125 | the recursive descent with its moving offset and depth computes the positional reading of the data, leaves the depth as it was and ends at the value's end |
| `Bencode.BDecoder.Items` | internal/transport/qbittorrent/metainfo.go:87-101 | a list is read item after item up to its end mark |
| `Bencode.BDecoder.Entries` | internal/transport/qbittorrent/metainfo.go:102-120 | a dictionary keeps the last value of a repeated key |
| `BencodeTheorems.DecodeEncoded` | internal/transport/qbittorrent/metainfo.go:67-125 | wherever an encoded tree stands in some data, at any depth, it decodes to exactly that tree with the right spans, and fails exactly when an integer, a length or the nesting does not fit |
| `BencodeTheorems.DecodeEncodedEntries` | internal/transport/qbittorrent/metainfo.go:87-120 | the same for the contents of a list or dictionary, up to the end mark |
| `BencodeTheorems.RoundTrip` | internal/transport/qbittorrent/metainfo.go:12-15 | decoding the encoding of any tree gives back the tree and consumes every byte, or fails if the tree does not fit |
| `BencodeTheorems.FitsIffLevels` | internal/transport/qbittorrent/metainfo.go:68-73 | a tree fits exactly when its integers and lengths are 64-bit and it has at most 101 levels |
| `BencodeTheorems.DecodedWellNested` | internal/transport/qbittorrent/metainfo.go:67-125 | in every decoded value the parts lie inside their parent and do not overlap |
| `BencodeTheorems.DecodedFieldsOrdered` | internal/transport/qbittorrent/metainfo.go:87-120 | the fields of a group come in order, each is well nested and decodes to itself where it stands |
| `BencodeTheorems.LastOfEachOccurs` | internal/transport/qbittorrent/metainfo.go:104-115 | every entry of a dictionary is the last field with its key |
| `BencodeTheorems.DecodeIsLocal` | internal/transport/qbittorrent/metainfo.go:67-143 | a decoded part, copied anywhere into other data, decodes there to the same value moved, at any smaller depth |
| `Torrent.MagnetFromTorrent` | internal/transport/qbittorrent/metainfo.go:12-54 | which error each malformed input gives, and otherwise the digest of the info bytes, the preferred name and the trackers; the range guard never fires |
| `Torrent.Trackers` | internal/transport/qbittorrent/metainfo.go:39-52 | the trackers in order, without repetitions of the first |
| `Torrent.AddTiers` | internal/transport/qbittorrent/metainfo.go:42-51 | the loop over tiers continues the list of trackers |
| `Torrent.AddTier` | internal/transport/qbittorrent/metainfo.go:45-49 | the loop over one tier skips what is no text, is empty or equals the first tracker |
| `Torrent.FirstTrackerOnce` | internal/transport/qbittorrent/metainfo.go:46-47 | the first tracker occurs once, every other one as often as announced |
| `Torrent.DigestOfEncoding` | internal/transport/qbittorrent/metainfo.go:22-29 | for an encoded torrent the digested bytes are the encoding of its last info value |
| `Torrent.InfoDecodesAlone` | internal/transport/qbittorrent/metainfo.go:26-29 | the part under any key of the root decodes alone to the same value |
| `TorrentTheorems.NameReads` | internal/transport/qbittorrent/metainfo.go:31-38 | the name is the last name.utf-8 of the info dictionary if that is a text, or else its last name |
| `TorrentTheorems.AnnouncedReads` | internal/transport/qbittorrent/metainfo.go:39-52 | the trackers are the announce, if that is a text, and then the texts of the lists in the announce-list |
| `TorrentTheorems.MagnetOfEncoding` | internal/transport/qbittorrent/metainfo.go:12-54 | digest, name and trackers of every encoded torrent that fits, in terms of the tree that was encoded |
| `PollSchedule.IntervalWithinBounds` | internal/ingest/service.go:956-973 | the interval stays within the effective bounds exactly when these are ordered |
| `PollSchedule.IntervalMonotone` | internal/ingest/service.go:956-973 | it grows with the elapsed time exactly when the effective bounds are ordered |
| `PollSchedule.PollsAtLeastMinApart` | internal/ingest/service.go:965-972 | n polls later at least n minimum intervals have passed |
| `PollSchedule.FewEarlyPolls` | internal/ingest/service.go:956-973 | at most four polls fall before five minimum intervals |
| `PollSchedule.MiddlePollsGrow` | internal/ingest/service.go:965-972 | between the clamps poll times grow by a factor of 6/5 per poll, up to the integer floor |
| `PollSchedule.FewMiddlePolls` | internal/ingest/service.go:965-972 | so the number of polls between the clamps is bounded by a logarithm to base 6/5 |
| `PollSchedule.LatePollsMaxApart` | internal/ingest/service.go:969-971 | past five maximum intervals there is at most one poll per maximum interval |
| `OfflineTasks.OfflineTaskManager.Register` | internal/ingest/offline_tasks.go:126-144 | a waiter joins or creates the record of its task with an empty mailbox; only a newer task replaces the stored one, schedule and other waiters stay |
| `OfflineTasks.OfflineTaskManager.RemoveWaiter` | internal/ingest/offline_tasks.go:347-357 | exactly that waiter leaves its record |
| `OfflineTasks.OfflineTaskManager.Signal` | internal/ingest/offline_tasks.go:359-364 | afterwards the wake token is there |
| `OfflineTasks.OfflineTaskManager.Invalidate` | internal/ingest/offline_tasks.go:165-179 | exactly the named keys, or all of them, leave the snapshot |
| `OfflineTasks.OfflineTaskManager.Restart` | internal/ingest/offline_tasks.go:185-199 | exactly the named records begin a new epoch with a blank task and keep their waiters |
| `OfflineTasks.OfflineTaskManager.NextTargets` | internal/ingest/offline_tasks.go:230-248 | the targets are all waited-for records that are due, next is the earliest other deadline |
| `OfflineTasks.OfflineTaskManager.Publish` | internal/ingest/offline_tasks.go:254-276 | exactly the polled records get their new deadline and task; every waiter of them without a result gets this one, every other mailbox stays |
| `OfflineTasks.OfflineTaskManager.Absorb` | internal/ingest/offline_tasks.go:314-339 | what one page does to snapshot, stamps, targets still wanted and targets found; waiters without a result get the first listed task newer than their record, if there is one, and otherwise nothing |
| `OfflineTasks.OfflineTaskManager.FetchPages` | internal/ingest/offline_tasks.go:304-345 | paging finds first occurrences and reads no page once every target is covered, whatever others do between pages |
| `OfflineTasks.OfflineTaskManager.Cached` | internal/ingest/offline_tasks.go:287-303 | the snapshot answers exactly when it knows every target recently enough |
| `OfflineTasks.OfflineTaskManager.Fetch` | internal/ingest/offline_tasks.go:280-345 | from the snapshot if it is fresh for all targets, else by paging |
| `OfflineTasks.OfflineTaskManager.Poll` | internal/ingest/offline_tasks.go:250-276 | every polled record is rescheduled from its own start and shows what was found, and none of its waiters is left without a result |
| `OfflineTheorems.FetchRefinesWholeList` | internal/ingest/offline_tasks.go:304-345 | with a constant page count and no error the early stop reads the shortest covering prefix, or all, and finds what reading everything finds first |
| `OfflineTheorems.SnapshotIsNewest` | internal/ingest/offline_tasks.go:316-321 | of one list the snapshot of a new key shows the state last listed with the highest update time |
| `OfflineTheorems.SnapshotIsNewestAlways` | internal/ingest/offline_tasks.go:165-179 | over every interleaving of pages and invalidations the snapshot shows the state last listed with the highest update time since the key was forgotten |
| `OfflineTheorems.RecordIsNewest` | internal/ingest/offline_tasks.go:322-331 | a record shows its task or the state last listed with the highest update time, whichever is newer |
| `OfflineTasks.NewerMeans` | internal/ingest/offline_tasks.go:372-379 | a task replaces one without a hash, an older one, and one as old that shows another status, progress or result |
| `OfflineTheorems.StampTells` | internal/ingest/offline_tasks.go:165-179 | over every interleaving of pages and invalidations a stamp is the time of the last page with the key, and there is one exactly if there is such a page |
| `OfflineTheorems.CachedIsRecent` | internal/ingest/offline_tasks.go:287-303 | what the snapshot answers was listed within the age limit and not forgotten since |
| `OfflineTheorems.PollReachesWaiters` | internal/ingest/offline_tasks.go:254-276 | over every run, when a poll of a record ends each of its waiters has a result, its older one or that of the poll, and keeps it until it takes it or leaves |
| `OfflineTheorems.ListingReachesWaiters` | internal/ingest/offline_tasks.go:322-331 | the same for a listed task that is newer than the record |
| `OfflineTheorems.WakeupKept` | internal/ingest/offline_tasks.go:121-248 | every step of scheduler or callers keeps the wake-up invariant |
| `OfflineTheorems.NoWakeupLost` | internal/ingest/offline_tasks.go:121-248 | in no interleaving is the scheduler parked past a due record without a signal, a token or a timer that can fire |
| `OfflineTheorems.PollBudget` | internal/ingest/offline_tasks.go:185-261 | over every run the polls of an epoch are spaced by their intervals, all but the first come after the epoch began, and at most six come before five minimum intervals |
| `OfflineTheorems.BudgetIffNoOverlap` | internal/ingest/offline_tasks.go:185-261 | for all bounds in order, every reachable state, every restart and every budget n of four or more: all continuations keep to n early polls exactly when no poll of the record is under way that can end less than 5 - n minimum intervals after the restart's reading, or that reading is 6 - n of them old |
| `OfflineTheorems.OneTooMany` | internal/ingest/offline_tasks.go:185-261 | from every other state a continuation with n + 1 early polls, in which the scheduler reads the clock anew at every step |
| `SingleFlight.ResolutionCache.CachedResolution` | internal/materialize/service.go:605-624 | a fresh entry is returned and touched, an idle one dropped |
| `SingleFlight.ResolutionCache.StartResolution` | internal/materialize/service.go:657-692 | hit, join or lead, in one critical section |
| `SingleFlight.ResolutionCache.PurgeIdle` | internal/materialize/service.go:637-641 | the purge removes exactly the idle entries |
| `SingleFlight.ResolutionCache.CacheResolution` | internal/materialize/service.go:626-645 | a success is stored after the purge, before its flight is finished |
| `SingleFlight.ResolutionCache.CompleteFlight` | internal/materialize/service.go:707-712 | outcome set and flight removed in one critical section |
| `SingleFlight.DownloadUrlCache.StartDownload` | internal/transport/webdav/handler.go:334-356 | hit on a value that is not empty, else join or lead |
| `SingleFlight.DownloadUrlCache.CompleteDownload` | internal/transport/webdav/handler.go:358-371 | value stored and flight finished in one critical section |
| `SingleFlight.DownloadUrlCache.Invalidate` | internal/transport/webdav/handler.go:374-381 | compare and delete |
| `SingleFlightTheorems.FlightsKept` | internal/materialize/service.go:657-712 | every step keeps flights in step with the flights that are unfinished |
| `SingleFlightTheorems.SingleFlightAlways` | internal/materialize/service.go:657-712 | over every interleaving, for both caches, a key has at most one unfinished flight and is in flights exactly as long |
| `SingleFlightTheorems.HitIsLatest` | internal/materialize/service.go:605-624 | a hit returns what the latest flight that stored anything for the key has stored |
| `SingleFlightTheorems.OutcomeIsFinal` | internal/materialize/service.go:706-712 | a finished flight keeps its outcome for ever, and a success was stored before anybody was told |
| `SingleFlightTheorems.JoinsOwnFlight` | internal/materialize/service.go:657-692 | over every interleaving, for both caches, a caller joins the unfinished flight of its own key, or leads a new one for it if there is none |
| `SingleFlightTheorems.CallerSeesOwnKey` | internal/transport/webdav/handler.go:334-371 | whoever joins or leads a flight is told what that flight found for the caller's own key, stored under that key before |
| `SingleFlightTheorems.RelaunchNeedsRemoval` | internal/materialize/service.go:657-692 | between a stored usable value and the next launch for its key something removed the value |
| `SingleFlightTheorems.NoNeedlessLaunch` | internal/transport/webdav/handler.go:334-381 | over every run that something was an entry idle for at least the time to live, or an invalidation of the value then stored |
| `SingleFlightTheorems.MovesBackIff` | internal/materialize/service.go:609-622 | a step sets an entry's last access back exactly when it is a hit with a clock reading older than that access |
| `SingleFlightTheorems.NoEarlyRelaunch` | internal/materialize/service.go:605-692 | over every run without such a hit on an entry still in use, no key is resolved again within the time to live of its last hit or store |
| `SingleFlightTheorems.SetBackIsFoundIdle` | internal/materialize/service.go:609-622 | every entry that was set back while in use can be found idle within the time to live of its last use |
| `SingleFlightTheorems.InTimeIffHarmless` | internal/materialize/service.go:605-692 | after any such run one more lookup leaves all further ones without an early resolution exactly when it is no such hit |
| `RecycleBin.RecycleBinWorker.Request` | internal/materialize/service.go:502-510 | pending is set; exactly one caller starts the worker |
| `RecycleBin.RecycleBinWorker.BeginRound` | internal/materialize/service.go:513-516 | the worker clears pending before its call |
| `RecycleBin.RecycleBinWorker.EndRound` | internal/materialize/service.go:530-536 | the worker goes round again exactly if somebody asked meanwhile |
| `RecycleBin.Step` | internal/materialize/service.go:497-538 | every step keeps the invariant of flags, workers and log |
| `RecycleBin.NoRequestLost` | internal/materialize/service.go:497-538 | in every interleaving there is at most one worker, and when none is left every request was followed by a call that started after it |
| `RecycleBin.CallsAreCoalesced` | internal/materialize/service.go:494-538 | never more calls than requests, and at most two calls start after the last request |
| `Catalogue.CandidatesDiffer` | internal/storage/sqlite/ingest.go:381-388 | the names that are tried are pairwise different |
| `Catalogue.FirstFree` | internal/storage/sqlite/ingest.go:375-399 | the first candidate that no torrent uses exists |
| `Catalogue.Repository.AvailableStrmRoot` | internal/storage/sqlite/ingest.go:375-399 | the loop ends with the first free candidate |
| `Catalogue.Repository.UpsertManagedArtifact` | internal/storage/sqlite/ingest.go:256-299 | the task's own artifact is filled, or a new one created; empty ids keep what was there |
| `Catalogue.Repository.UpsertContent` | internal/storage/sqlite/ingest.go:301-332 | a content keeps its first size and first name; another size is refused |
| `Catalogue.Repository.UpsertRemoteLocation` | internal/storage/sqlite/ingest.go:334-373 | other live managed copies for the torrent are retired, the row itself revived and its ownership kept |
| `Catalogue.Repository.SaveFile` | internal/storage/sqlite/ingest.go:197-231 | one file of a scan: content, location, file row and whether it needs its STRM |
| `Catalogue.Repository.OpenScan` | internal/storage/sqlite/ingest.go:106-196 | what a scan writes before its files |
| `Catalogue.Repository.SaveFiles` | internal/storage/sqlite/ingest.go:197-231 | the loop over the files, stopped by the first error |
| `Catalogue.Repository.SaveScan` | internal/storage/sqlite/ingest.go:94-254 | the whole transaction; an error changes nothing |
| `Catalogue.Repository.SaveTask` | internal/storage/sqlite/ingest.go:15-92 | torrent, direct row and artifact in one transaction |
| `Catalogue.Repository.SaveLocation` | internal/storage/sqlite/materialize.go:162-228 | with a source other copies are retired, without one the row is only overwritten |
| `Catalogue.Repository.MarkLocationDeleted` | internal/storage/sqlite/materialize.go:230-255 | the row is marked and its artifact dropped when nothing live is left of it |
| `Catalogue.Repository.MarkArtifactDeleted` | internal/storage/sqlite/materialize.go:257-263 | the artifact and, by cascade, its locations are gone |
| `Catalogue.Repository.MarkSourceLocationsDeleted` | internal/storage/sqlite/materialize.go:265-295 | all artifacts of a torrent and their locations are gone |
| `Catalogue.Repository.MarkStrmSeeded` | internal/storage/sqlite/ingest.go:401-434 | all paths are marked, or none if one is missing |
| `Catalogue.Repository.CreateJob` | internal/storage/sqlite/ingest.go:505-554 | a new row, or an error if gid or active source and torrent are taken |
| `Catalogue.Repository.UpdateJob` | internal/storage/sqlite/ingest.go:556-597 | the row is overwritten unless it is canceled and the update is not |
| `Catalogue.Repository.CancelJob` | internal/storage/sqlite/ingest.go:599-624 | queued, running and failed become canceled |
| `Catalogue.Repository.DeleteJob` | internal/storage/sqlite/ingest.go:626-645 | only a row that is over is deleted |
| `Catalogue.Repository.DeleteJobAny` | internal/storage/sqlite/ingest.go:647-650 | the row goes and its artifact loses the reference |
| `Catalogue.Repository.RecoverRunningJobsBySource` | internal/storage/sqlite/ingest.go:763-786 | exactly the running rows of the sources are queued again |
| `CatalogueEffects.FilesLocated` | internal/storage/sqlite/ingest.go:197-231 | after the files of a scan: every file whose row and content no later file takes is a live copy in the artifact, other live copies of the listed contents are marked deleted, every other row stays |
| `CatalogueEffects.ScanPlaces` | internal/storage/sqlite/ingest.go:94-254 | the same after a whole scan, which drops exactly the artifacts of the torrent that it empties and nobody works on, with their rows, and fills its own: an empty id keeps what was there |
| `CatalogueEffects.ScanFiles` | internal/storage/sqlite/ingest.go:192-231 | after a scan exactly the listed paths of its torrent are present, with the content listed last |
| `CatalogueEffects.ScanContents` | internal/storage/sqlite/ingest.go:301-332 | every listed content is stored with its size; known sizes and the first name stay |
| `CatalogueEffects.ScanTorrent` | internal/storage/sqlite/ingest.go:106-168 | the columns of the torrent and the direct task after a scan; other torrents and tasks stay |
| `CatalogueEffects.ScanRoot` | internal/storage/sqlite/ingest.go:169-190 | a torrent keeps its root; a new root begins with the library folder, is no other torrent's, and is that folder exactly if it is free |
| `CatalogueEffects.ScanRunsIff` | internal/storage/sqlite/ingest.go:94-254 | a scan runs exactly when its hash is a hash, its job is known and all files of a content have the size stored |
| `CatalogueEffects.SavedLocated` | internal/storage/sqlite/materialize.go:162-228 | with a source exactly the other live managed copies of the content for the torrent, or for none, are marked deleted; every other row stays |
| `CatalogueEffects.SavedRow` | internal/storage/sqlite/materialize.go:202-228 | the row that is saved: live, of the content and at the place given, managed for good once it is |
| `CatalogueEffects.SavedAttached` | internal/storage/sqlite/materialize.go:177-228 | with a source it goes to the latest artifact of the torrent, if there is one |
| `CatalogueEffects.SavedIff` | internal/storage/sqlite/materialize.go:162-200 | SaveLocation fails exactly for an unknown torrent or content |
| `CatalogueEffects.SaveTaskIff` | internal/storage/sqlite/ingest.go:15-92 | SaveTask fails exactly on a bad hash or size, or on ids for a task that is not there |
| `CatalogueEffects.SaveTaskMeans` | internal/storage/sqlite/ingest.go:15-92 | the torrent keeps name and size where none are given; a torrent without a task gets a direct one outside any job |
| `CatalogueEffects.SaveTaskFills` | internal/storage/sqlite/ingest.go:256-299 | ids that are given fill the artifact of the task, empty ones keep what was there |
| `CatalogueEffects.LocationGone` | internal/storage/sqlite/materialize.go:230-255 | a deleted row takes its artifact with it exactly if it was the last live one there |
| `CatalogueEffects.ArtifactGone` | internal/storage/sqlite/materialize.go:257-263 | exactly the artifact and its rows go |
| `CatalogueEffects.SourceGone` | internal/storage/sqlite/materialize.go:265-295 | exactly the artifacts of the torrent and their rows go |
| `CatalogueEffects.SeedingMeans` | internal/storage/sqlite/ingest.go:401-434 | exactly the named paths are marked if all are there; otherwise the first one missing is the error |
| `CatalogueEffects.CreateMeans` | internal/storage/sqlite/ingest.go:505-554 | when a job is created, with which error it is not, and its row |
| `CatalogueEffects.UpdateMeans` | internal/storage/sqlite/ingest.go:556-597 | when a job is updated, with which error it is not, and its row; no other row changes |
| `CatalogueEffects.CancelMeans` | internal/storage/sqlite/ingest.go:599-624 | every job that is there and has not succeeded is canceled; no other row changes |
| `CatalogueEffects.DeleteMeans` | internal/storage/sqlite/ingest.go:626-650 | the row goes, unless it is active and not forced, and exactly its artifacts forget it |
| `CatalogueEffects.RecoverMeans` | internal/storage/sqlite/ingest.go:763-786 | exactly the running rows of the sources are queued without an error |
| `CatalogueTheorems.ScannedKeepsOneLive` | internal/storage/sqlite/ingest.go:334-373 | scanning a file keeps one live managed copy per content and torrent |
| `CatalogueTheorems.SavedKeepsOneLive` | internal/storage/sqlite/materialize.go:162-228 | SaveLocation keeps it exactly when it does not clash |
| `CatalogueTheorems.SavedAsFoundNeverClashes` | internal/storage/sqlite/materialize.go:202-221 | saving a row as it was found, live, with its content and ownership, never clashes |
| `CatalogueTheorems.ExternalSavedAsManagedClashes` | internal/storage/sqlite/materialize.go:202-221 | saving a live external row of the content as managed makes a second live copy next to a managed one |
| `CatalogueTheorems.OneLiveStep` | internal/storage/sqlite/ingest.go:334-373 | any call keeps one live managed copy exactly when it does not clash |
| `CatalogueTheorems.OneLiveAlways` | internal/storage/sqlite/materialize.go:162-228 | over every run all states have one live managed copy per content and torrent exactly when no sourceless save clashed |
| `CatalogueTheorems.OldIdComesBack` | internal/storage/sqlite/materialize.go:202-221 | a run of three calls that reaches a clash |
| `CatalogueTheorems.ManagedStep` | internal/storage/sqlite/materialize.go:214-217 | no call turns a managed row into an external one |
| `CatalogueTheorems.NeverExternal` | internal/storage/sqlite/ingest.go:360-370 | over every run a managed row stays managed as long as it exists |
| `CatalogueTheorems.RootsStep` | internal/storage/sqlite/ingest.go:169-190 | every call keeps non-empty roots different and assigned roots unchanged |
| `CatalogueTheorems.RootsAlways` | internal/storage/sqlite/ingest.go:375-399 | over every run non-empty roots differ and a torrent keeps its root |
| `CatalogueTheorems.CanceledStep` | internal/storage/sqlite/ingest.go:556-624 | a canceled row stays canceled through a call exactly when the call neither deletes it nor is a scan that overwrites a direct row |
| `CatalogueTheorems.CanceledAbsorbs` | internal/storage/sqlite/ingest.go:556-624 | over every run a canceled job stays canceled until it is deleted |
| `CatalogueTheorems.SucceededStep` | internal/storage/sqlite/ingest.go:556-645 | a succeeded row stays succeeded through a call exactly when the call neither deletes it nor is an accepted update to another state |
| `CatalogueTheorems.SucceededAlways` | internal/storage/sqlite/ingest.go:556-645 | the same over every run |
| `CatalogueTheorems.QueuedStep` | internal/storage/sqlite/ingest.go:556-645 | a queued row stays queued through a call exactly when the call is no forced deletion, no cancellation, no accepted update to another state and no scan that overwrites a direct row |
| `CatalogueTheorems.QueuedAlways` | internal/storage/sqlite/ingest.go:556-645 | the same over every run |
| `CatalogueTheorems.FilesSeed` | internal/storage/sqlite/ingest.go:208-230 | a path stays seeded through a scan exactly if the scan does not list it with another content |
| `CatalogueTheorems.MarksSeed` | internal/storage/sqlite/ingest.go:415-432 | marking seeds exactly the named paths |
| `CatalogueTheorems.SeedStep` | internal/storage/sqlite/ingest.go:192-231 | what any call does to the seeded flag of a path |
| `CatalogueTheorems.SeedingRemembers` | internal/storage/sqlite/ingest.go:401-434 | over every run a path is seeded exactly when some call marked it and no later scan listed it with another content |
| `CatalogueIntegrity.ScanKeepsSound` | internal/storage/sqlite/ingest.go:94-254 | a scan keeps foreign keys, the index of active tasks, one artifact per task and the hash checks |
| `CatalogueIntegrity.JobsKeepSound` | internal/storage/sqlite/db.go:278-279 | job calls keep one active task per source and torrent |
| `CatalogueIntegrity.DeletionKeepsSound` | internal/storage/sqlite/db.go:189-189 | deleting a task leaves no artifact that refers to it |
| `CatalogueIntegrity.ValuesStep` | internal/storage/sqlite/db.go:135-286 | every call keeps sizes non-negative and sources non-empty |
| `CatalogueIntegrity.ConstraintsAlways` | internal/storage/sqlite/db.go:135-286 | over every run foreign keys, unique indexes and the checks of hashes, sizes and sources hold |
| `Reseeding.FlagTells` | internal/storage/sqlite/ingest.go:225-230 | the flag of a scanned file says whether its path was seeded and kept its content up to that file |
| `Reseeding.LastListingStays` | internal/storage/sqlite/ingest.go:208-230 | after a scan a path has the content of its last listing |
| `Reseeding.FittingAreSaved` | internal/storage/sqlite/ingest.go:301-332 | files whose contents are stored with their sizes are always saved |
| `Reseeding.PublishedIsSeeded` | internal/ingest/service.go:626-674 | after publishing, every video path of the scan is seeded |
| `Reseeding.RescanNeedsNothing` | internal/ingest/service.go:626-674 | scanning, publishing and scanning again succeeds and asks for no STRM of a path exactly when the result has one content for it |
| `JobRun.Perform` | internal/storage/sqlite/ingest.go:505-650 | every repository call behaves as one atomic step on the tables |
| `JobRun.RunJobWithResolver` | internal/ingest/service.go:796-834 | the run of a job with arbitrary calls of others in between |
| `JobRun.CanceledRunFails` | internal/ingest/service.go:796-834 | a resolver that finishes after a cancellation gives the cancellation and no result, and the row stays canceled |
| `JobRun.ResultIff` | internal/ingest/service.go:829-833 | a run gives a result exactly when the resolver did and the row is there and not canceled; it is then succeeded |
| `JobRun.StartMeans` | internal/ingest/service.go:802-812 | a run starts exactly if its row is there, not canceled and no other active task is in the way, and then runs without an error; a run that cannot start changes nothing |
| `JobRun.EndMeans` | internal/ingest/service.go:817-832 | the row found at the end is succeeded without an error, or failed with exactly the resolver's error; a row that is gone or canceled stays, and nothing else changes |
| `JobRun.AnswerMeans` | internal/ingest/service.go:817-833 | the answer of a run that started, for every way it can end |
| `JobRun.SucceededIffResult` | internal/ingest/service.go:817-833 | a run that started leaves its row succeeded exactly if it gives a result, and only if the resolver succeeded |
| `JobRun.SecondRunReopens` | internal/ingest/service.go:796-805 | starting a succeeded job again leaves its row succeeded exactly when another active task of the source and torrent is in the way |
| `JobRun.SuccessLasts` | internal/transport/qbittorrent/controller.go:68-75 | after a successful run the row stays succeeded over any further calls exactly when none deletes it or writes another state to it |
| `Texts.LowerAlphabet` | internal/storage/sqlite/migrations.go:113-117 | lower case takes the 26 letters of ASCII to their lower-case letters and leaves everything else |
| `Migration.Database.Aggregate` | internal/storage/sqlite/migrations.go:113-119 | the largest magnet, first and last time of a group of jobs |
| `Migration.Database.AddTorrents` | internal/storage/sqlite/migrations.go:113-119 | one torrent per lower-cased hash that had none, under the ids that follow; old torrents stay |
| `Migration.Database.AddTasks` | internal/storage/sqlite/migrations.go:120-130 | exactly one task per legacy job |
| `Migration.Database.LatestOf` | internal/storage/sqlite/migrations.go:133-137 | the succeeded task with the latest end, the larger id breaking ties |
| `Migration.Database.SetLatest` | internal/storage/sqlite/migrations.go:132-144 | every torrent points to its last successful task and loses the result columns |
| `Migration.Database.MigrateNine` | internal/storage/sqlite/migrations.go:79-155 | 9 to 10, which fails without a trace exactly when a location names neither a torrent id in use nor one that a new torrent gets |
| `Migration.Database.AddTaskArtifacts` | internal/storage/sqlite/migrations.go:33-42 | one artifact per torrent with a last successful task; it fails exactly when two torrents share one |
| `Migration.Database.AddRootArtifacts` | internal/storage/sqlite/migrations.go:43-53 | one artifact per held root of any other torrent |
| `Migration.Database.MigrateTen` | internal/storage/sqlite/migrations.go:14-78 | 10 to 11 for every version 10 database: its error is exactly that of a shared task, of two active tasks of one source and torrent, or of a dangling location or task, in this order, and leaves no trace |
| `Migration.Database.Initialize` | internal/storage/sqlite/db.go:84-133 | each version step commits on its own after its foreign key check; a newer or too old version changes nothing, and a database without tables gets version 11 |
| `MigrationTheorems.TasksMirrorJobs` | internal/storage/sqlite/migrations.go:120-130 | tasks and legacy jobs correspond one to one by gid with the same columns |
| `MigrationTheorems.LatestIffSuccess` | internal/storage/sqlite/migrations.go:133-137 | a torrent has a last successful task exactly when a job of its hash succeeded |
| `MigrationTheorems.ResultMovesToArtifact` | internal/storage/sqlite/migrations.go:33-42 | a torrent with a succeeded job has one artifact with its old result, delete and work directory ids, owned by the successful task that ended last and with its times |
| `MigrationTheorems.LocationsGetArtifacts` | internal/storage/sqlite/migrations.go:55-61 | every live managed p115 location of a torrent ends with an artifact of that torrent |
| `MigrationTheorems.ClashIffJobs` | internal/storage/sqlite/migrations.go:67-68 | the new unique index fails exactly when two active jobs have one hash up to case |
| `MigrationTheorems.OwnRootIff` | internal/storage/sqlite/migrations.go:55-61 | the copies of a torrent get artifacts of their own roots exactly when each root is the last successful task's work directory, or, without one, when they have one root |
| `MigrationTheorems.UpgradeSucceedsIff` | internal/storage/sqlite/db.go:84-133 | a version 9 database opens exactly when no location dangles and no two active jobs share a hash up to case; which error it gives otherwise |
| `MigrationTheorems.UpgradeKeepsMeaning` | internal/storage/sqlite/migrations.go:14-155 | a version 9 database that opens has a task for every job, every result in the artifact of its last successful task, and an artifact for every live copy |
| `MigrationTheorems.UpgradeKeepsRootsIff` | internal/storage/sqlite/migrations.go:14-155 | and its copies get artifacts of their own roots exactly when these are the torrent's work directory, or, without a succeeded job, one root |
| `MigrationTheorems.AttachedIff` | internal/storage/sqlite/migrations.go:54-62 | a location has an artifact afterwards exactly if it is managed, at the provider, and its torrent has one; it is the one with the largest id |
| `MigrationTheorems.RootArtifacts` | internal/storage/sqlite/migrations.go:43-53 | a torrent without a last successful task gets one artifact for each root of its live managed locations, with nothing but that root and the torrent's times |
| `MigrationTheorems.ElevenIsSound` | internal/storage/sqlite/migrations.go:14-78 | whatever version 10 held, a database that gets to version 11 satisfies its foreign keys and unique columns |
| `MigrationTheorems.TenAnswers` | internal/storage/sqlite/migrations.go:14-78 | which error the last step gives for every version 10 database |
| `MigrationTheorems.OpeningMeans` | internal/storage/sqlite/db.go:84-133 | what opening does to databases that need no upgrade, and that every step is done whole or not at all |
| `MigrationTheorems.DanglingMeans` | internal/storage/sqlite/migrations.go:113-119 | a location dangles before 9 to 10 exactly if its torrent is neither there nor among the ids that new torrents get |
| `MigrationTheorems.TorrentsSurvive` | internal/storage/sqlite/migrations.go:113-144 | old torrents keep all but their results |
| `MigrationTheorems.JobsGetTorrents` | internal/storage/sqlite/migrations.go:113-119 | every job has a torrent of its hash in lower case |
| `MigrationTheorems.NewTorrents` | internal/storage/sqlite/migrations.go:113-119 | a new torrent has the largest magnet, first and last time of the jobs of its hash |
| `Migration.TenAfterNine` | internal/storage/sqlite/migrations.go:132-137 | after 9 to 10 no two torrents share a last successful task and no task dangles |
| `FolderScan.Provider.ListFolder` | internal/ingest/service.go:1072-1075 | a page from an offset on, of any size, or a failure |
| `FolderScan.Scanner.ScanPage` | internal/ingest/service.go:1076-1096 | the loop over the items of one page |
| `FolderScan.Scanner.ScanPages` | internal/ingest/service.go:1066-1102 | paging of any sizes gives what the whole folder gives |
| `FolderScan.Scanner.ScanFolder` | internal/ingest/service.go:1051-1103 | always ends; gives the files of the walk, each handed over once, or an error; the visited set is restored |
| `FolderScan.Scanner.ScanResult` | internal/ingest/service.go:1018-1049 | a permutation of the files of the walk, sorted by path; onFile saw each once |
| `FolderScan.SortSorts` | internal/ingest/service.go:1045-1047 | the result is sorted by path |
| `FolderScanTheorems.SucceedsIffAcyclic` | internal/ingest/service.go:1060-1064 | on any finite graph the walk succeeds exactly when no folder reaches itself and none is missing |
| `FolderScanTheorems.WalkedIsClean` | internal/ingest/service.go:1060-1064 | below a walk that succeeds every chain of folders is free of repetitions |
| `FolderScanTheorems.FailureHasChain` | internal/ingest/service.go:1060-1075 | a walk that fails has a chain that repeats a folder or meets a missing one |
| `FolderScanTheorems.ScanIsComplete` | internal/ingest/service.go:1076-1092 | exactly one file per route to a leaf, with the names on the route joined |
| `FolderScanTheorems.ScannedPath` | internal/ingest/service.go:1076-1092 | a path is the names on the route with slashes between them, the remote path the same below the root, with one slash in front |
| `TaskQueue.FreshMeans` | internal/task/manager.go:378-391 | a request marks each gid once, none that is empty or waiting |
| `TaskQueue.Manager.MarkMany` | internal/task/manager.go:379-388 | marks are made for exactly the fresh gids |
| `TaskQueue.Manager.UnmarkMany` | internal/task/manager.go:509-515 | marks are taken back for exactly the given gids |
| `TaskQueue.Manager.EnqueueMany` | internal/task/manager.go:378-402 | either the fresh gids wait in one batch or nothing changed |
| `TaskQueue.ListResumed` | internal/task/manager.go:110-131 | the queued rows of the resumed sources |
| `TaskQueue.NewManager` | internal/task/manager.go:67-136 | at start every running or queued row of a resumed source waits in one batch, once |
| `TaskQueue.RecoveryQueues` | internal/task/manager.go:77-127 | after the recovery the queued rows are those that were active |
| `TaskQueue.ResumesIffListed` | internal/task/manager.go:77-127 | for all tables every running row that is queued again is resumed, exactly when the list of sources is not the empty one |
| `TaskQueue.AcceptedMeans` | internal/task/manager.go:234-239 | while others leave the tasks alone, the first n rows of a batch are made exactly when every hash is a hash, gids are new and differ, and no active row and no earlier job has the source and hash |
| `TaskQueue.MadeMeans` | internal/task/manager.go:234-239 | so exactly the rows before the first job that fails this are made and stay |
| `TaskQueue.MadeStays` | internal/task/manager.go:234-239 | whatever others do between the rows and after them, a made row stays queued exactly as long as no call takes it away or to another state |
| `TaskQueue.CreateAll` | internal/task/manager.go:234-239 | the loop with arbitrary calls of others before each row: the rows before the first refusal are made, that refusal is the error |
| `TaskQueue.SubmitNew` | internal/task/manager.go:234-243 | that loop and the enqueue after it: success exactly when all rows are made and the channel takes the batch; a failure leaves the made rows unmarked |
| `TaskQueue.MarkedStep` | internal/task/manager.go:378-425 | every step keeps each mark in exactly one waiting place |
| `TaskQueue.QueueConserves` | internal/task/manager.go:378-425 | over every interleaving, also of refused requests that have yet to take back their marks, marks are the disjoint union of all waiting batches, and accepted batches are run in order |
| `TaskQueue.RunsPerAcceptance` | internal/task/manager.go:404-425 | a gid runs once per acceptance, but for what the channel and the worker still hold |
| `TaskQueue.RefusalIsExact` | internal/task/manager.go:392-401 | a refused request takes back exactly its own marks, whatever happened since its send failed |
| `Lease.Repository.AcquireLease` | internal/storage/sqlite/credentials.go:146-166 | granted exactly if the row is missing, over or already the owner's |
| `Lease.Repository.ReleaseLease` | internal/storage/sqlite/credentials.go:168-171 | only the owner's row goes |
| `Lease.StoredMeans` | internal/storage/sqlite/credentials.go:46-62 | a credential is stored as it is, its expiry to the microsecond before |
| `Lease.Repository.ReconcileRefreshToken` | internal/storage/sqlite/credentials.go:65-144 | changed credentials are imported and drop the lease of anybody |
| `Lease.Client.Follow` | internal/provider/p115/token.go:310-331 | waiting succeeds only by adopting a stored credential with another access token |
| `Lease.Client.EnsureFresh` | internal/provider/p115/token.go:296-378 | the provider is asked only with the lease; what a success, an adoption and a failure leave behind; the log follows the stages of a refresh and ends outside it |
| `Lease.LeaseStays` | internal/storage/sqlite/credentials.go:146-171 | while nobody's time is past it, the lease row stays |
| `Lease.LeaseExcludes` | internal/storage/sqlite/credentials.go:146-171 | over every run nobody else acquires the lease up to its time, unless credentials are imported |
| `Lease.LeaseEnds` | internal/storage/sqlite/credentials.go:152-160 | another owner is granted the lease exactly from the microsecond after its time on |
| `Lease.PauseIsNotForTheOwner` | internal/provider/p115/token.go:340-347 | the pause after a failure holds back other owners only |
| `Lease.ReimportOpens` | internal/storage/sqlite/credentials.go:133-137 | after an import anybody is granted the lease |
| `LeaseTheorems.BackedStep` | internal/storage/sqlite/credentials.go:146-171 | every step keeps the row with the process that refreshes within its lease |
| `LeaseTheorems.RefreshersExclude` | internal/provider/p115/token.go:296-378 | over every interleaving without an import no two processes are ever both between their call to the provider and the end of their lease |
| `LeaseTheorems.ImportBreaksIff` | internal/storage/sqlite/credentials.go:133-139 | an import breaks this in some continuation exactly when it comes while a process is there |
| `LeaseTheorems.LogIsRun` | internal/provider/p115/token.go:296-378 | whatever others do in between, a log that follows the stages of a refresh replays as a legal run of the process's steps |
| `LeaseTheorems.CallsAreRuns` | internal/provider/p115/token.go:296-378 | any number of calls with such logs as EnsureFresh leaves is a run, the process is outside a refresh after them, and without an import the exclusion holds |
| `ResolveProtocol.Service.DeleteCompletedTaskFiles` | internal/ingest/service.go:58-114 | a file is deleted only if the stored work directory agrees and the file lies in it; the artifact is forgotten after it |
| `ResolveProtocol.Service.DeleteOfflineTaskForRebuild` | internal/ingest/service.go:530-555 | files go only for a task whose wp_path_id is the non-empty work directory, by stored metadata or with the record; the record of that task goes right after, and alone for any other task |
| `ResolveProtocol.Service.ReplaceConflictingOfflineTask` | internal/ingest/service.go:496-528 | one careful deletion and at most one submission |
| `ResolveProtocol.Service.FindTaskWithRetry` | internal/ingest/service.go:881-897 | ends with an answer or with the context |
| `ResolveProtocol.Service.WaitForTask` | internal/ingest/service.go:899-942 | a task that is done, not failed and has a result, with its job and category; only saves on the way, the last one of what is returned |
| `ResolveProtocol.Service.WriteFiles` | internal/ingest/service.go:631-662 | the writes of a prefix of the files, of all of them on success |
| `ResolveProtocol.Service.PublishStrms` | internal/ingest/service.go:626-674 | on success an STRM is written exactly for the videos that need one, every NFO is written, and one mark with exactly those videos in order comes last; no returned file needs an STRM; a failure marks nothing |
| `ResolveProtocol.WrittenIffMarked` | internal/ingest/service.go:630-664 | exactly the STRMs that are written are marked |
| `ResolveProtocol.PublishingMeans` | internal/ingest/service.go:630-664 | writing a list writes exactly the STRMs that its files need and its NFOs, and marks exactly these STRMs, in order and last |
| `ResolveProtocol.SettledMeans` | internal/ingest/service.go:664-674 | after publishing no file needs an STRM, and nothing else about it has changed |
| `ResolveProtocol.TrimMeans` | internal/ingest/service.go:71-76 | trimming takes exactly the white space at both ends |
| `ResolveProtocol.Service.FinishScan` | internal/ingest/service.go:333-394 | save the scan, drop the record without its files, publish what the saved files need, in this order |
| `ResolveProtocol.Service.Obtain` | internal/ingest/service.go:155-196 | at most two submissions; a prepared task is taken as it is exactly if its hash is right up to case, and a replaced one is never reused |
| `ResolveProtocol.Service.Begin` | internal/ingest/service.go:197-211 | the task is saved under the job's gid |
| `ResolveProtocol.Service.ScanTask` | internal/ingest/service.go:220-265 | a scan that must have a file has it, or counts as missing |
| `ResolveProtocol.Service.Rebuild` | internal/ingest/service.go:275-293 | one careful deletion and one submission, then a blank task of the link's own hash and the job |
| `ResolveProtocol.Service.Round` | internal/ingest/service.go:214-270 | one wait and one scan with what follows from it |
| `ResolveProtocol.Service.Pursue` | internal/ingest/service.go:214-294 | at most one rebuild, and a result called reused comes without one |
| `ResolveProtocol.Service.Resolve` | internal/ingest/service.go:138-298 | for every provider: the bound on submissions, no deletion of files but right before the record of a task in the work directory, and the exact order of effects behind a whole result |
| `ResolveProtocol.Service.PrepareOfflineTasks` | internal/ingest/service.go:410-467 | one request for a batch; on success every link has a task, a blank one if it is not reused |
| `ResolveProtocol.Service.RestoreContent` | internal/ingest/service.go:119-136 | the file asked for is returned whenever resolving succeeds; no STRM is touched |
| `ResolveProtocol.Service.FinishBackgroundScan` | internal/ingest/service.go:306-331 | the rest of an early answer harms nothing and does nothing after a failed scan |
| `ResolveProtocol.Service.RunJob` | internal/ingest/service.go:796-834 | a job becomes succeeded only when exactly the STRMs its files need were written and marked |
| `DavNamespace.StablePathIsHref` | internal/materialize/service.go:569-580 | /dav/ and the stable object path make the object's href |
| `DavNamespace.ExtensionMeans` | internal/transport/webdav/handler.go:466-470 | an extension is a dot and text without dots and slashes, and only a dot exactly if the name ends in one |
| `DavNamespace.ExtensionOf` | internal/transport/webdav/handler.go:466-470 | what follows the last dot in lower case, or .bin |
| `DavNamespace.HrefRoundTrip` | internal/transport/webdav/handler.go:412-475 | an object's href parses back to the object exactly when its name does not end in a dot |
| `DavNamespace.FirstRoundTrip` | internal/transport/webdav/handler.go:425-429 | the href of a first bucket parses back to it |
| `DavNamespace.SecondRoundTrip` | internal/transport/webdav/handler.go:430-436 | the href of a second bucket parses back to it |
| `DavNamespace.Entries` | internal/transport/webdav/handler.go:111-180 | a resource's own href first, then each child once; not found exactly for buckets and objects without rows |
| `DavNamespace.TrailIsThere` | internal/storage/sqlite/materialize.go:99-160 | the way from the root to every object is listed step by step |
| `DavNamespace.WalkReachesEachOnce` | internal/transport/webdav/handler.go:111-180 | walking depth-1 listings reaches every object, along one way only, and nothing else |
| `DavNamespace.SelfHrefParses` | internal/transport/webdav/handler.go:412-475 | the own href of every resource parses back to it |
| `DavNamespace.OnlyTheseParse` | internal/transport/webdav/handler.go:412-465 | which paths parse: an object only under its hash in the two buckets it begins with, all in lower-case hexadecimal, with some extension |
| `DavNamespace.IsThere` | internal/transport/webdav/handler.go:111-180 | a bucket is there exactly if some object has its prefix, an object if its content is |
| `DavNamespace.ThereIffOnTrail` | internal/transport/webdav/handler.go:111-180 | a bucket is there exactly if its href is on the way to some object |
| `DavNamespace.NoDeadEnds` | internal/transport/webdav/handler.go:111-180 | what is listed parses to a resource that is there and has the listed href, but for objects whose name ends in a dot |

## Left out

- HTTP handlers, the aria2 and qBittorrent wire formats, response headers, streaming, the rclone process and the web interface: plumbing around libraries.
- The provider's SDK, SQL text and the SQLite driver: a provider gives arbitrary answers, a repository call is one transaction on maps.
- Row ids of torrents, contents, tasks and locations in `Catalogue`: rows are named by their UNIQUE column, since other rows reach them by foreign keys only; a location id that names no row stands for a remote file id that names none.
- Timestamps in `Catalogue`: only whether a nullable time is set is kept, so the order of listings by time is not modelled; provider status and progress columns, categories and the per-source extension tables are left out, and a job's source is the value of its column.
- `CatalogueTheorems.NeverExternal`: says nothing about a row that was deleted by a cascade and inserted again as external, because it is then another row.
- SafeLibraryName is not part of this model: a scan's names are taken as already made safe. `path.Join` is concatenation on ordinary names.
- Lower case is ASCII, as SQLite's `lower` has it and as hashes need it; Go's `strings.ToLower` on other letters is not modelled.
- SHA-1 is a parameter of `MagnetFromTorrent` and URL encoding is left out: a magnet is the list of its query values.
- The receive loop of `wait` in the offline-task manager, its timers and their reset: a parked scheduler may be woken by its token or its deadline.
- `OfflineTheorems.SnapshotIsNewestAlways`: is stated for keys that are not empty, because a task without info hash is always replaced.
- `OfflineTheorems.FetchRefinesWholeList`: is stated for a constant page count and answers that do not fail, since with other counts or a failure the code stops elsewhere; `FetchPages` states what holds for every sequence of answers.
- The context of a joined flight: a waiter whose own context ends leaves without touching the flight.
- `SingleFlightTheorems.NoNeedlessLaunch`: for the URL cache only values that are not empty count as stored, as in the code.
- CleanupTimedOutTask and the offline quota: `Resolve` takes a prepared task as any task.
- `TaskQueue.SubmitNew`: the search for existing jobs and the choice of new gids before the rows are made are left out, so jobs may have any gid. The channel is as it is when the batch reaches it; what others send meanwhile is in the steps of `TaskQueue.System`.
- The choice of sources, the search for existing copies and the two cleanups of the materialize service: loops over the calls modelled here, with shallow branches.
- The order of effects of a scan that goes on in the background, relative to the early answer: `Resolve` returns with nothing saved and `FinishBackgroundScan` is a call of its own.
- Rate limiter slots and the import of tokens through the settings page: `Reimport` stands for both ways to replace credentials.
- Migrations from versions before 8, which the code refuses, and of provider status columns, categories and file rows, which are copied or untouched.
- `Migration.Database.Initialize`: is stated for databases whose info hashes differ, by their UNIQUE column, and which have no tasks before version 10 and no artifacts before version 11, because these tables do not exist before.
- `Migration.Database.MigrateNine`: the old tables are not part of the repository; they are taken to declare the foreign key of a location's torrent, as version 11 does, and no CHECK of info_hash, as the old schema in internal/storage/sqlite/sqlite_test.go:536-562 has none. A location's torrent is the only foreign key checked before version 10.
- `MigrationTheorems.OwnRootIff`: for a torrent without a last successful task the converse needs all its live managed locations at the one provider there is; with others the outcome depends on the order in which SQLite selects the roots.
- `FolderScan.Scanner.ScanResult`: sorting is an insertion sort, so that equal paths keep an order that the source does not promise.
- WebDAV properties, ETags and dates: a listing is its hrefs. `DavNamespace.WalkReachesEachOnce` needs SHA-1 values in lower-case hexadecimal, which the schema checks only in length and case.
- Liveness that needs the provider to finish a task.
