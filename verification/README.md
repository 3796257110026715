# Verified model of the torrent-to-Usenet agent

The agent takes a torrent, downloads it, posts it to Usenet in yEnc articles and reports
the result to its site. This project models the parts of it that are state machines,
concurrent protocols or hand-written codecs, and proves what they promise for every input
and every run.

- **Upload engine.** `YEnc` is the encoder as a loop over bytes, with a line-oriented
  decoder as its specification; `Article` parses whole articles; `DotTransfer` is the dot
  writer that an article is posted through and the data block its reader sees; `Post` joins
  the two; `Reassembly` chunks a file and rebuilds it from the wire; `UploadPool` is the
  dispatcher / worker / collector pool as one state machine, with an action for each channel
  operation; `PoolSuccess` says when it succeeds, `PoolLeak` when it leaves a dispatcher
  behind, and `PoolAccepts` what it leaves at the server; `Upload` puts all of that together,
  and `DirectoryUpload` keeps the running byte count over the files of a directory.
- **Download rules.** `RejectionTimer` is the hysteresis timer on its own, characterised by
  the trace of ticks alone; `DownloadWatch` is the tick loop with its three timers and the
  full-seed gate, a class whose fields are the loop's variables; `WatchRules` says what ends
  a download in terms of bytes, peers and clock readings.
- **Site groups.** `Groups` validates, `GroupStore` is the table, `GroupSync` one poll and
  its exact effect, `SyncRuns` polls interleaved with edits on the site, the operator,
  failed fetches, failed pushes and restarts.
- **Offline jobs.** `JobQueue` is the table, `Watcher` the folder scan, `JobRuns` the
  interleaving of watcher, processor, retries, deletions, crashes and restarts.
- **Tasks.** `DiskLedger` and `TaskRuns` are the disk reservations, first as single calls,
  then with their halves interleaved over any number of tasks; `HastyRelease` is a variant
  with one order reversed, to show what the order is for; `Completion` is the delivery
  of a result through retry loop, backup file and backfill.
- **Small codecs.** `ConfigYml`, `ConfigFile`, `ConfigLeak` and `KeyOrder` for config.yml,
  `LineSplitter` for the par2 output, `PagePicks` for the sample pages; `Text`, `Numbers` and
  `Wrappers` are shared.

Code that changes state in place is modelled by classes and by methods with loops, each
proved against a function of the old state; the lemmas are about those functions. A
protocol is a state machine whose runs are sequences of states and actions.

## What the code does against its own comments

- A full sync compares stored, trimmed names with raw catalog names. A catalog name with
  white space around it is stored and removed again in the same sync
  (`GroupSync.PaddedNameIsLost`); `GroupSync.FullSyncExactIff` says exactly when a full sync
  leaves the catalog's names.
- Pushing a site group at the version it already has stores the next version, because the
  trigger fires when the version is unchanged; the comment in storage/groups.go:233-238 says
  the opposite. Repeated pushes alternate between the two (`GroupSync.VersionAlternates`).
- A group whose upsert fails is passed over while the high-water mark still moves past it
  (`SyncRuns.FailedPushIsMissing`), and an override that the operator deletes is not replaced
  by the site's group at the next poll (`SyncRuns.DeletedOverrideIsMissing`). With a site that
  lists only what is above the version asked for, both last until the site publishes the
  group again or the agent restarts (`SyncRuns.DivergenceLasts`); a poll that lists the group
  repairs it (`SyncRuns.ListingRepairs`).
- The UI resets a job whatever its status. A retry of the job that is running is overwritten
  when that run ends (`JobRuns.RetryWhileRunningIsLost`); a retry counts if and only if the
  processor is not at work on the job (`JobRuns.RetryHoldsIff`).
- A lost status write can make a later claim return the wrong row
  (`JobRuns.LostMarkMixesJobs`, with the exact condition in `JobQueue.QueryFindsClaimedIff`).
- With no NNTP connection configured the pool returns success with no segment
  (`UploadPool.NobodyUploads`).
- Once the pool has returned, its dispatcher may stay blocked for ever on the job channel;
  that can happen if and only if the file has more than three chunks for each worker
  (`PoolLeak.LeakIff`).
- A file name with LF in it, or with an odd number of CRs at its end, does not survive
  posting (`Post.PostRoundTrip`). One with CR LF '.' needs dot-stuffing, and CR LF '.' alone
  puts the terminating line into the encoder's bytes (`Post.WireNeedsNoStuffing`,
  `Post.NameWithTerminator`).
- WriteYml is documented not to let env-only settings into the file, but it checks the key as
  given, while the file is read with keys cut at ':' and trimmed. The update key
  " agent_token" puts agent_token into the file (`ConfigLeak.AgentTokenLeaks`), and it stays
  there in every later write of the process. `ConfigLeak.LeakSinceLoad` says exactly which
  writes do it.
- A value that is written with escapes is read back with them. If what is read back must be
  quoted again, the backslashes at least double in every further round of writing and loading
  (`ConfigYml.GrowsForEver`); every other value comes to rest after two rounds
  (`ConfigYml.SettlesIff`, `ConfigFile.FileRestsIff`).
- A budget of 2^63 bytes or more reads as no space once anything is reserved
  (`DiskLedger.EffectiveIff`), and a check interleaved with another task's check can admit
  more than the budget (`TaskRuns.InterleavedChecksOvercommit`, with the exact condition in
  `TaskRuns.AdmissionIff`).

## Hypotheses

- File names are postable: no LF, and CRs at the end only in pairs; names without CR and LF
  are (`Post.PlainNames`). The header before an article ends with LF.
- Each read fills its buffer except at the end of the file, and the file does not change
  during the upload. `Reassembly.AlignedIffFullReads` shows that the offsets depend on it.
- Ticks of the download loop carry non-decreasing times.
- Site edits take growing versions, a response holds every group above the version asked
  for, its mark is not ahead of the site's own clock, and catalog groups are valid with
  trimmed names (in `SyncRuns`; `GroupSync` covers arbitrary lists). `SyncRuns.DivergenceLasts`
  alone also takes it that a response holds no group at or below the version asked for.
- Status writes of the job queue succeed, and so do backup writes.
- Each statement on a table is atomic; ids are AUTOINCREMENT.

## Model

| member | source | states |
|---|---|---|
| `YEnc.EncodeBody` | services/usenet.go:450-471 | the byte loop with its running line length produces exactly the lines of the line-oriented specification |
| `YEnc.EncodeChunk` | services/usenet.go:435-481 | the article is the begin, part, body and end lines, each followed by CRLF |
| `YEnc.HeaderText` | services/usenet.go:447-474 | the text of the three control lines, keyword by keyword |
| `YEnc.EscapedIff` | services/usenet.go:451-462 | the data bytes that are escaped, by their values: four of them everywhere, one at the start of a line only |
| `YEnc.KnownBytes` | services/usenet.go:451-462 | the characters that sample bytes are sent as, each escaped one among them |
| `YEnc.LinesOfUnlines` | services/usenet.go:447-474 | splitting a wire article at CRLF gives its lines back when none holds a CRLF, so framing is unambiguous |
| `YEnc.DecodeOfEncode` | services/usenet.go:451-471 | decoding the encoded lines gives the data back, and no escape is split over two lines |
| `YEnc.BodyShape` | services/usenet.go:451-471 | no body line holds NUL, CR or LF, starts with a dot or ends in an escape; all but the last have 128 or 129 bytes, the last at most 129 |
| `YEnc.BodySize` | services/usenet.go:436-471 | n bytes give between n and 2n escaped bytes D, and at most D + 2*ceil(D/128) bytes on the wire |
| `YEnc.BodyHasNoMarker` | services/usenet.go:455-471 | "=y" never occurs inside an encoded body line |
| `Article.DecimalRoundTrip` | services/usenet.go:447-474 | a printed number parses back to itself |
| `Article.HexRoundTrip` | services/usenet.go:474 | the fixed-width checksum parses back to itself |
| `Article.BeginRoundTrip` | services/usenet.go:447 | the begin line yields part, total, size and name, whatever the name holds |
| `Article.PartRoundTrip` | services/usenet.go:448 | the part line yields its begin and end offsets |
| `Article.EndRoundTrip` | services/usenet.go:474 | the end line yields size, part number and checksum |
| `Article.ParseLinesOfArticle` | services/usenet.go:447-474 | the parser finds begin, part, body and end among the lines and recovers every field and the data |
| `Article.ArticleRoundTrip` | services/usenet.go:435-481 | parsing the bytes of an article recovers name, part, total, offsets, size, checksum and data if and only if the name holds no CRLF pair |
| `Article.BrokenName` | services/usenet.go:447 | a name with a CRLF pair does not survive |
| `DotTransfer.ReceiveLines` | services/usenet.go:414-428 | lines without LF arrive through the dot writer and the data block as they were sent, leading dots included, except that a line ending in an odd number of CRs gets one more |
| `DotTransfer.ReceivedLines` | services/usenet.go:414-428 | whatever is sent, no line that arrives holds an LF |
| `Post.ReceiveArticle` | services/usenet.go:421 | for a name without LF the article arrives whole, as that of the padded name |
| `Post.PostRoundTrip` | services/usenet.go:406-431 | posting an article and reading it back recovers every field and the data if and only if the name has no LF and only paired CRs at its end |
| `Post.WireNeedsNoStuffing` | services/usenet.go:447-474 | on the lines of the encoder's bytes, dot-stuffing as in section 3.1.1 of RFC 3977 is the identity if and only if the name holds no CRLF followed by a dot; then no line is the terminating dot |
| `Post.NameWithTerminator` | services/usenet.go:447 | the name CR LF '.' puts the terminating line among them, and is not postable |
| `Reassembly.PartRange` | services/usenet.go:140-200 | consecutive parts meet end to end and the last one reaches the end of the file |
| `Reassembly.PartOfPosition` | services/usenet.go:189 | each position of the file lies in exactly one part, the one its offset names |
| `Reassembly.SizesAddUp` | services/usenet.go:140-221 | the sizes of the first n parts add up to n chunks or the whole file |
| `Reassembly.RebuildIsOriginal` | services/usenet.go:157-200 | for a postable name, reading the posted articles off the wire in any order, with any repetition, into any buffer of the right size rebuilds exactly the file |
| `Reassembly.PostedFields` | services/usenet.go:189-200 | for a postable name, part i read back gives the name, i at both ends, the number of parts, the file size, its first and last byte counted from 1 in chunks of 716800, its data, their length and their checksum |
| `Reassembly.AlignedIffFullReads` | services/usenet.go:168-189 | the declared offsets match what was read if and only if every read but the last filled its buffer |
| `UploadPool.StepConserves` | services/usenet.go:156-350 | every step keeps each dispatched chunk in exactly one place: queued, held, delivered, in hand, collected, lost or skipped |
| `UploadPool.ReachableInv` | services/usenet.go:132-350 | in every reachable state of a staffed pool chunks are conserved, nothing is dropped without a recorded error or cancellation, and success means all segments |
| `UploadPool.SuccessIffStaffed` | services/usenet.go:143-280 | a nil-error return has one segment for each number 1..total in every run if and only if there is a worker or nothing to upload |
| `UploadPool.NobodyUploads` | services/usenet.go:143-154 | with no worker a run reaches success with no segment |
| `UploadPool.PostsBounded` | services/usenet.go:306-341 | in every run no chunk is posted more than 3 times |
| `PoolSuccess.PoolSucceedsIff` | services/usenet.go:132-350 | a run of a staffed pool without cancellation that cannot go on has returned; it returned success, with the segments 1..total, if and only if no chunk failed three times and no read failed, counted over the actions |
| `PoolSuccess.ThreePosts` | services/usenet.go:306-341 | a run in which a chunk is posted exactly three times and the third post is accepted |
| `PoolSuccess.CancelledFails` | services/usenet.go:214-280 | a pool cancelled before its results are drained never returns success |
| `PoolSuccess.CancelStops` | services/usenet.go:156-305 | after a cancellation no further chunk is read, so at most one more is sent; no untried chunk is posted and no segment is collected |
| `PoolSuccess.ResultsPile` | services/usenet.go:143-146 | up to two results for each worker can wait for the collector, and a run reaches each number |
| `PoolAccepts.AcceptedExactly` | services/usenet.go:320-349 | over every run the posts that the server accepted are exactly the chunks past their upload: to be delivered, delivered, in hand, collected or drained |
| `PoolAccepts.AcceptedOnce` | services/usenet.go:214-349 | no chunk is accepted twice, every collected segment was accepted, and on success the server has accepted each chunk once and nothing else |
| `UploadPool.StepDown` | services/usenet.go:132-350 | every step of the dispatcher, a worker, the closer or the collector, and a cancellation, lowers a measure |
| `UploadPool.RunLength` | services/usenet.go:132-350 | every run has at most 12*total + workers + 5 steps |
| `UploadPool.NeverStuck` | services/usenet.go:190-280 | until the collector returns some step other than a cancellation is enabled, even with all workers gone and the dispatcher blocked |
| `PoolLeak.LeakStays` | services/usenet.go:190 | a dispatcher blocked with all workers gone and the channel full stays blocked, even when cancelled |
| `PoolLeak.DeadEnd` | services/usenet.go:156-280 | a run that cannot go on has returned and its workers are gone; its dispatcher has stopped or is blocked in that way |
| `PoolLeak.LeakIff` | services/usenet.go:143-206 | a returned pool with such a dispatcher is reachable if and only if there are more than three chunks for each worker |
| `Upload.BytesOfPermutation` | services/usenet.go:209-221 | the byte counts of complete segments in any order add up to the chunk sizes |
| `Upload.DistinctBytes` | services/usenet.go:209-221 | the byte counts of distinct segments never exceed the size of the file |
| `Upload.ArticlesDescribe` | services/usenet.go:189-200 | each article of a complete list of parts, in any order, describes itself and the whole correctly when it is read back |
| `Upload.UploadIsFaithful` | services/usenet.go:132-350 | whenever the pool returns success, for every postable name: its segments number 1..total once each, their bytes sum to the file size, their articles, read off the wire in completion order, rebuild the file, and each article read back names its own part at both ends, the number of articles, the sum of the data bytes in all of them, its range and the checksum of its data |
| `DirectoryUpload.PoolRunOk` | services/usenet.go:209-280 | in every reachable state the collected segments are distinct parts of the file, and on success their bytes are the file's |
| `DirectoryUpload.ReportFile` | services/usenet.go:214-264 | the collector's reports for a file continue the running count, growing with each segment |
| `DirectoryUpload.UploadDirectory` | services/usenet.go:70-129 | succeeds exactly when there are files and all went through; the reported counts grow strictly, never pass the directory's size, and end at it on success |
| `RejectionTimer.RejectIffOverdue` | services/torrent.go:562-594 | a running timer rejects at a tick exactly when an earlier bad tick is overdue with no recovery in between |
| `RejectionTimer.RejectedIff` | services/torrent.go:562-594 | a trace is rejected exactly when some tick of it is overdue |
| `RejectionTimer.FirstRejection` | services/torrent.go:498-594 | the first rejection is the least overdue tick |
| `RejectionTimer.WarningOrigin` | services/torrent.go:659-667 | an emitted expiry is the time of the bad tick that counts, plus the timeout |
| `RejectionTimer.ExpiryFixed` | services/torrent.go:582-593 | the emitted expiry stays the same until three good gated ticks in a row |
| `RejectionTimer.WarningIff` | services/torrent.go:562-594 | a tick emits a warning if and only if its gate is open, nothing was rejected, and some bad tick up to it is not followed by a recovery |
| `RejectionTimer.RejectionAnnounced` | services/torrent.go:571-581 | every rejection was announced on an earlier tick, comes after the announced expiry, and no other expiry was shown since |
| `RejectionTimer.WarningKept` | services/torrent.go:571-581 | unbroken bad gated ticks reject at the first tick after the announced expiry |
| `DownloadWatch.DownloadLoop.CheckSlow` | services/torrent.go:562-594 | the slow rule's variables change as the generic timer on the slow view, with its rejection and warning |
| `DownloadWatch.DownloadLoop.CheckStall` | services/torrent.go:605-629 | the same for the stall rule |
| `DownloadWatch.DownloadLoop.CheckPeers` | services/torrent.go:631-654 | the same for the low-peers rule |
| `DownloadWatch.DownloadLoop.OnTick` | services/torrent.go:531-688 | one tick in the order slow, full seed, stall, low peers, with the warnings it emits |
| `DownloadWatch.TickLaw` | services/torrent.go:562-654 | a tick rejects exactly when a rule is due by the history of the trace, and names the first such rule |
| `DownloadWatch.Watch` | services/torrent.go:515-690 | the loop ends at the earliest tick where any rule is due, with the rule checked first, or runs through all ticks |
| `DownloadWatch.WatchLaw` | services/torrent.go:515-690 | the same for the specification of the loop, over all traces with non-decreasing times |
| `DownloadWatch.WarningsPushed` | services/torrent.go:656-687 | the warnings of a tick are those of the three timers on their own traces |
| `DownloadWatch.CountdownKept` | services/torrent.go:562-687 | a download that a timer rule ends was told so: an earlier running tick pushed a warning of that rule whose expiry has passed on the rule's clock, and no tick since pushed another expiry for it |
| `WatchRules.SlowEnd` | services/torrent.go:564-581 | a download ended as slow had two ticks under 95% that gained less than threshold times 1048576 bytes, or nothing if boosted, further apart than the timeout, the last of them the final tick |
| `WatchRules.StalledEnd` | services/torrent.go:605-629 | one ended as stalled had two ticks that gained nothing, further apart than the timeout |
| `WatchRules.PeersEnd` | services/torrent.go:631-654 | one ended for lack of peers had two ticks under 95% with at most the threshold of peers, further apart than the timeout |
| `WatchRules.FullSeedEnd` | services/torrent.go:596-604 | one ended by the full-seed gate had no byte more than 60 seconds after its start |
| `WatchRules.BoostedAndMoving` | services/torrent.go:565-569 | a boosted download whose bytes change on every tick is never ended as slow or stalled |
| `WatchRules.FastEnough` | services/torrent.go:564-565 | an ordinary one that gains threshold times 1048576 bytes on every tick is never ended as slow |
| `WatchRules.NearlyDone` | services/torrent.go:564-637 | one that is at 95% or more on every tick is never ended as slow or for lack of peers |
| `WatchRules.EnoughPeers` | services/torrent.go:631-654 | one with more peers than the threshold on every tick is never ended for lack of peers |
| `WatchRules.SlowForced` | services/torrent.go:562-594 | one that is slow on every tick under 95% is ended as slow at the first tick past the timeout, unless another rule ended it before |
| `WatchRules.StalledForced` | services/torrent.go:605-629 | one that gains nothing is ended at the first tick past the stall timeout at the latest, and there not for lack of peers |
| `WatchRules.PeersForced` | services/torrent.go:631-654 | one with too few peers on every tick under 95% is ended at the first tick past the timeout at the latest |
| `WatchRules.FullSeedForced` | services/torrent.go:596-604 | one without a byte more than 60 seconds after its start is ended there at the latest, when a full seed is required |
| `Groups.ValidateGroup` | storage/groups.go:43-92 | the normalised group, or the first rule it breaks |
| `Groups.ValidatedIs` | storage/groups.go:43-92 | which groups pass, which of the three errors the others get and in what order, and what each field becomes |
| `Groups.CleanKeeps` | storage/groups.go:51-83 | every newsgroup and every ban that is not blank is kept, in its order and in its normal form, and nothing else |
| `Groups.ExtensionLaw` | storage/groups.go:73-83 | a ban is stored in lower case with one dot put before it where it had none |
| `Groups.ValidationIdempotent` | storage/groups.go:43-92 | a validated group passes again unchanged |
| `GroupStore.UpsertStores` | storage/groups.go:40-43 | a push leaves only rows in the table that validation accepts as they are |
| `GroupStore.GroupsTable.CreateGroup` | storage/groups.go:94-125 | succeeds exactly for a valid group under a free name, with a new id; the entry under the trimmed name is then the normalised content, local unless the group says "site", at version 1, and no other entry changes; otherwise nothing changes |
| `GroupStore.GroupsTable.UpdateGroup` | storage/groups.go:127-164 | succeeds exactly for a valid group, an existing id and a name that is free or its own; the id stays, the entry is the normalised content, local unless the group says "site", and the version grows by one |
| `GroupStore.GroupsTable.DeleteGroup` | storage/groups.go:166-176 | removes that row and no other |
| `GroupStore.GroupsTable.UpsertSiteGroup` | storage/groups.go:190-256 | local rows stay, site rows keep their id and take the content, new names are inserted; versions go through the trigger; names stay unique |
| `GroupStore.GroupsTable.ReconcileSiteGroups` | storage/groups.go:264-293 | exactly the site rows whose names are not live disappear, and the count says how many |
| `GroupSync.SiteGroupsSync.RunOnce` | services/site_groups_sync.go:44-110 | a failed fetch changes nothing; otherwise the table is the synced view of the response, the full flag clears, the mark becomes the maximum, and the count is that of valid groups without an override |
| `GroupSync.SiteGroupsSync.UpsertEach` | services/site_groups_sync.go:62-89 | the upsert loop is the fold of single pushes, errors and overrides passed over |
| `GroupSync.LandedCounts` | services/site_groups_sync.go:62-89 | the count is the number of listed groups that are valid and not shadowed by a local row |
| `GroupSync.PushAllLaw` | services/site_groups_sync.go:62-89 | pushes keep local rows and unmentioned names, and add exactly the trimmed names of valid groups |
| `GroupSync.PushAllContent` | services/site_groups_sync.go:62-89 | a name no local row holds ends with the content of the last valid group for it |
| `GroupSync.OverridesKept` | storage/groups.go:183-231 | no sync creates, changes or deletes a local row |
| `GroupSync.SavedGroupSynced` | storage/groups.go:85-164 | what the operator saves with source "" or "local" stays exactly as saved in every sync; saved as "site" it is removed by a full sync that does not list it |
| `GroupSync.FullSyncNames` | services/site_groups_sync.go:62-103 | which site rows a full sync leaves, for arbitrary lists |
| `GroupSync.FullSyncExactIff` | services/site_groups_sync.go:90-101 | the site rows are the catalog names minus the overrides if and only if each catalog name has a row already or is the trimmed name of a valid group |
| `GroupSync.FullSyncExact` | services/site_groups_sync.go:62-103 | for trimmed valid catalogs the site rows and their contents equal the catalog minus the overrides, and the local rows are as before |
| `GroupSync.EmptyCatalog` | client/client.go:378-381 | the empty answer to a full sync leaves the local rows only; to a poll it changes nothing |
| `GroupSync.PaddedNameIsLost` | services/site_groups_sync.go:93-97 | a full sync stores a padded name trimmed and removes it again |
| `GroupSync.VersionAlternates` | storage/migrations/005_groups_type_bans_version.sql:34-39 | pushing one group k times stores its version for odd k and the next one for even k |
| `SyncRuns.StepKeeps` | services/site_groups_sync.go:41-110 | every step of site, operator and agent keeps the replication invariant |
| `SyncRuns.Convergence` | services/site_groups_sync.go:41-122 | after every successful poll of every run, each catalog name not published since the fetch, and neither touched by the operator nor missed by a push since it was last listed, has its row, an override or the catalog's settings |
| `SyncRuns.ListingRepairs` | services/site_groups_sync.go:62-89 | a poll that lists a name ends with its row right, whatever happened to it before |
| `SyncRuns.UnlistedStays` | services/site_groups_sync.go:62-89 | until a fetch lists it, the row under a name stays as it is |
| `SyncRuns.DivergenceLasts` | services/site_groups_sync.go:77-106 | with a site that lists only what is above the mark, a name behind the mark stays as it is through any number of polls, until it is published, operated on or the agent restarts |
| `SyncRuns.DeletedOverrideIsMissing` | storage/groups.go:183-186 | a run in which an override deleted after the full sync is missing after the next poll |
| `SyncRuns.FailedPushIsMissing` | services/site_groups_sync.go:77-106 | a run in which a failed push leaves its name missing with the mark past it |
| `SyncRuns.NoStrayRows` | services/site_groups_sync.go:90-103 | after every successful poll each site row was listed by the site since the last full fetch, or touched by the operator |
| `SyncRuns.PollIsRunOnce` | services/site_groups_sync.go:44-110 | the steps of a poll with nothing in between do what `RunOnce` does |
| `JobQueue.QueryFindsClaimedIff` | storage/jobs.go:80-82 | the second query of a claim must return the claimed row if and only if every other processing row started earlier or has no start time |
| `JobQueue.JobsTable.CreateOfflineJob` | storage/jobs.go:35-55 | succeeds exactly for a path without a row, with a new id; otherwise nothing changes |
| `JobQueue.JobsTable.ClaimUpdate` | storage/jobs.go:63-79 | starts a queued row with the least creation time, or changes nothing when none is queued |
| `JobQueue.JobsTable.ClaimNextJob` | storage/jobs.go:62-83 | with no other row processing it returns the oldest queued row, now started |
| `JobQueue.JobsTable.MarkJob` | storage/jobs.go:99-116 | the row with that id, if it is there, is completed with the nzb path or failed with the error, at the given time; nothing else changes |
| `JobQueue.JobsTable.ResetQueuedJob` | storage/jobs.go:121-135 | queues the row again with start, end, error and nzb path cleared, or reports that it is missing |
| `JobQueue.JobsTable.RequeueStuckJobs` | storage/jobs.go:140-150 | afterwards no row is processing and all others are as before |
| `JobQueue.JobsTable.DeleteJob` | storage/jobs.go:152-162 | removes that row only, and frees its path |
| `Watcher.ScanOneWatch` | services/offline_watcher.go:66-112 | old rows stay, each eligible path has one row afterwards, new rows are queued, and a scan without new paths changes nothing |
| `Watcher.EligibleIff` | services/offline_watcher.go:79-89 | an entry becomes a job if and only if its name does not start with a dot or end in .part or .tmp and it is readable and at least 30 seconds old |
| `JobRuns.StepInv` | services/offline_processor.go:33-76 | every step keeps ids below the counter, paths unique, and processing rows within the processor's job |
| `JobRuns.OnlyTheCurrentJob` | services/offline_processor.go:33-76 | while a processor is up, a processing row is its own job under the path it was claimed with; an idle one strands nothing |
| `JobRuns.QueryReturnsClaimed` | storage/jobs.go:62-83 | in every run the second query returns the row the first statement claimed |
| `JobRuns.QueryMissesIff` | storage/jobs.go:76-83 | while the claim is under way it finds nothing exactly when an action since the first statement deleted or retried the row |
| `JobRuns.MarkHitsOwnRow` | services/offline_processor.go:64-76 | a Mark, however late, changes at most the claimed row |
| `JobRuns.FinishShows` | services/offline_processor.go:64-76 | over every run, the end of a run completes its job with the nzb path or fails it with the error, stamps the time, and changes nothing else of it |
| `JobRuns.EndedBy` | storage/jobs.go:99-135 | over every run, a job is completed or failed only by the end of its own last run, with no retry since, and shows the outcome of that run |
| `JobRuns.IdsNeverReused` | storage/migrations/003_offline_jobs.sql:11-12 | along every run a row found under an old id is the old row with its old path |
| `JobRuns.RequeuedPathIsSafe` | services/offline_watcher.go:90-109 | a path queued again after its running job was deleted has an id given out after the claim, and the old run's Mark leaves its row alone |
| `JobRuns.NoOvertaking` | storage/jobs.go:64-72 | while a job waits, at most as many claims happen as older jobs were queued, unless an older row enters the queue or is put back into it |
| `JobRuns.ProcessorMoves` | services/offline_processor.go:33-54 | a processor that is up can move if and only if it is not idle with an empty queue |
| `JobRuns.QueueDrains` | services/offline_processor.go:33-76 | left alone, from every reachable state it takes at most three steps for each queued job and two more, and where it stops every row is completed or failed |
| `JobRuns.RetryHoldsIff` | storage/jobs.go:118-135 | after a retry the job stays queued in every continuation that neither claims nor deletes it, if and only if the processor is not at work on it |
| `JobRuns.RetryWhileRunningIsLost` | services/localui.go:935-954 | a run in which a retry comes while the job runs and is overwritten by that run's Mark |
| `JobRuns.LostMarkMixesJobs` | storage/jobs.go:80-82 | with a row left in processing by a lost write and a clock behind its start, the claim returns the stale row |
| `DiskLedger.DiskReservations.ReserveDisk` | services/disk_reserve.go:35-46 | adds the amount to the int64 total and records it for the job |
| `DiskLedger.DiskReservations.ReleaseDisk` | services/disk_reserve.go:49-63 | removes the job's entry and its amount, or nothing when there is none |
| `DiskLedger.DiskReservations.FreeDiskAfterReservations` | services/disk_reserve.go:81-105 | the capped free space less the reservations, not below 0, exactly when it is below 2^63 or nothing is reserved |
| `DiskLedger.EffectiveIff` | services/disk_reserve.go:97-104 | when the int64 conversion does not spoil the result, for all budgets and totals |
| `DiskLedger.BudgetIs` | services/disk_reserve.go:81-96 | with a cap, the budget is the lesser of the free space and what the cap leaves, not below 0; without one, the free space |
| `DiskLedger.AdmitIff` | services/torrent.go:326-341 | a check passes exactly when the request fits beside what is reserved, or asks for nothing |
| `DiskLedger.ReleaseUndoesReserve` | services/disk_reserve.go:35-63 | reserve and release restore the ledger, whatever wrapped around |
| `DiskLedger.SecondReserveLeaks` | services/disk_reserve.go:24-46 | reserving twice under one name leaves the first amount in the total |
| `TaskRuns.ActiveTasks.ClaimTask` | main.go:427-435 | exactly one claimer of an id succeeds until it is released |
| `TaskRuns.StepTotal` | services/disk_reserve.go:35-63 | every step of every task keeps the total equal to the tasks' shares, as int64 |
| `TaskRuns.LedgerBalanced` | services/disk_reserve.go:35-63 | in every run the total is the map's sum plus the amounts in flight |
| `TaskRuns.NeverNegative` | services/disk_reserve.go:14-18 | the total is never negative while the reservations fit an int64 |
| `TaskRuns.IdleMeansZero` | main.go:810-813 | with no task active the total is 0 and the map empty |
| `TaskRuns.CheckDecides` | services/torrent.go:326-341 | in every run a check admits its task exactly when the space could not be measured, nothing is asked for, or the request fits into the budget beside all reservations |
| `TaskRuns.AdmissionLaw` | services/torrent.go:326-344 | from a passed check to its reserve, over every interleaving, the reservations grow by the amount and by what others added less what others released |
| `TaskRuns.AdmissionIff` | services/torrent.go:326-344 | the total is then within the measured budget if and only if the others' net additions fit into what the request left free |
| `TaskRuns.AdmissionBound` | services/torrent.go:326-344 | when nobody else adds between a passed check and its reserve, the total stays within the measured budget |
| `TaskRuns.InterleavedChecksOvercommit` | services/torrent.go:326-344 | two interleaved checks admit more than the budget |
| `HastyRelease.ReleasedTooEarlyLeaks` | main.go:810-864 | with the order of the two releases reversed, some run of two tasks for one request ends with no task and no claim and the first amount in the total |
| `Completion.ReportCompletion` | main.go:1327-1365 | the loop stops at the first attempt that is accepted, in maintenance after a cancellation, or the third error, and reports delivery exactly in the first case |
| `Completion.EndsAfterCancel` | main.go:1336-1363 | once cancelled it stops within three further attempts |
| `Completion.MaintenanceWaits` | main.go:1335-1356 | maintenance alone never ends it |
| `Completion.Agent.RunBackfill` | main.go:486-522 | accepted requests are fulfilled, and exactly the accepted and removable files disappear |
| `Completion.BackupsAreSubmitted` | main.go:486-522 | over every run, a backup present at a start can be submitted until it is or the agent stops; once accepted and removed, its request is fulfilled and the backup gone |
| `Completion.StepInv` | main.go:1327-1376 | every step keeps finished requests fulfilled or backed up, and never takes back a fulfilment |
| `Completion.NothingLost` | main.go:1366-1375 | in every run with lost replies, crashes and restarts, a request whose task left the loop is fulfilled or has its backup |
| `Completion.RemovedOnlyAccepted` | main.go:509-518 | a backup disappears only by a backfill's removal after the site recorded the request |
| `Completion.AtMostThreeErrors` | main.go:1358-1364 | in every run a task sees at most three ordinary errors |
| `Completion.TurnsFollowLoop` | main.go:1327-1365 | from its beginning a task of the machine reports exactly as long as the retry loop runs, with the same error count, and leaves exactly when it is accepted |
| `ConfigYml.ParsePrinted` | config/layered.go:104-115 | a printed line parses to its key and the re-read value, for every good key |
| `ConfigYml.ValueRoundTrip` | config/layered.go:250-257 | a value survives printing and loading if and only if it is trimmed or, when quoted, needs no escape and has no quote at its ends |
| `ConfigYml.QuotedIff` | config/layered.go:250-257 | a value is quoted if and only if it holds a colon, a hash, a quote or a newline; a line is the key, a colon, a space and the value |
| `ConfigYml.EscapeSamples` | config/layered.go:250-257 | the escapes of sample characters |
| `ConfigYml.LoadStrips` | config/layered.go:113-114 | quotes of either kind around a value are stripped |
| `ConfigFile.LoadOfRender` | config/layered.go:96-117 | loading a written file gives each key its re-read value |
| `ConfigFile.ConfigRoundTrip` | config/layered.go:225-266 | a map with good keys survives write and load if and only if all its values do; its keys always do |
| `ConfigLeak.RoundTripIff` | config/layered.go:225-266 | any map survives write and load if and only if all its keys are good and all its values survive |
| `ConfigFile.MergeEntries` | config/layered.go:231-239 | in the map a write changes only the keys it names, lower-cased, the last update of a key winning, and never an env-only key; what the file then declares is `ConfigLeak.LeakSinceLoad` |
| `ConfigFile.EnvOnlyHas` | config/layered.go:63-78 | the fourteen keys that belong to the environment |
| `ConfigFile.AcceptedIs` | config/layered.go:231-240 | the keys reported as written are those of the updates that are not env-only |
| `ConfigFile.LastLineWins` | config/layered.go:104-116 | of several lines for one key the last one decides |
| `ConfigLeak.ParsedKey` | config/layered.go:104-115 | the key a line declares is what stands before its first ':', trimmed and lower-cased, unless that is a comment |
| `ConfigLeak.WrittenKeys` | config/layered.go:246-257 | the keys found in a written file are exactly those the map's keys yield line by line, for arbitrary keys and values |
| `ConfigLeak.LoadedKeysOk` | config/layered.go:96-117 | every key that a load leaves is lower case, trimmed, without ':' or newline and no comment |
| `ConfigLeak.LeakIff` | config/layered.go:221-257 | on any map, a write makes the file declare a key if and only if a key of the map yields it or an update key that is not env-only does |
| `ConfigLeak.LeakSinceLoad` | config/layered.go:221-257 | from a load on, through any number of writes, the file declares a key, env-only or not, if and only if the loaded file did or some update so far, not env-only by name, yields it |
| `ConfigLeak.YieldsOneLine` | config/layered.go:108-112 | a key without newline yields exactly what it is when cut at its first ':' and trimmed |
| `ConfigLeak.AgentTokenLeaks` | config/layered.go:232-239 | the update key " agent_token" puts agent_token into the file |
| `ConfigFile.Layered.LoadYml` | config/layered.go:96-117 | the line loop binds the file's entries over the map |
| `ConfigFile.Layered.WriteYml` | config/layered.go:225-266 | an unwritable file changes nothing; otherwise the map is the merge, the file its sorted rendering, and the result the sorted list of the keys taken over, with repetitions |
| `ConfigFile.RewriteIsIdempotent` | config/layered.go:240-257 | writing nothing prints the same file, whatever order the map is walked in |
| `ConfigYml.PrintAgainIff` | config/layered.go:250-257 | printing what was read back from a printed value gives the same text exactly for the values that survive |
| `ConfigFile.RewriteIff` | config/layered.go:96-266 | for good keys, write, load and write again gives the same file if and only if every value survives |
| `ConfigYml.GrowsForEver` | config/layered.go:113-114 | for a value that needs escapes and must be quoted again, the backslashes at least double in every round and it never survives |
| `ConfigYml.SettlesIff` | config/layered.go:250-257 | a value comes to rest under writing and loading if and only if it is not of that kind, and then within two rounds |
| `ConfigFile.FileRestsIff` | config/layered.go:96-266 | for good keys, the file is the same from the third writing on if and only if no value is of that kind |
| `KeyOrder.SortList` | config/layered.go:240 | the list in order, nothing added or lost |
| `KeyOrder.Sort` | config/layered.go:241-245 | the keys, sorted, each once |
| `KeyOrder.LessIff` | config/layered.go:245 | the order is that of dictionaries: a proper prefix, or smaller at the first difference |
| `KeyOrder.SortedUnique` | config/layered.go:245 | there is only one sorted list of given keys |
| `LineSplitter.ScanLinesOrCR` | services/par2.go:226-246 | the split function with its index loop, for every buffer |
| `LineSplitter.ScanIsNextLine` | services/par2.go:230-241 | a token is the next line of the whole stream, also when the buffer ends between CR and LF |
| `LineSplitter.PiecesAre` | services/par2.go:226-246 | splitting yields one piece more than there are CRs and LFs, and the pieces together are the stream without them |
| `LineSplitter.PiecesPlain` | services/par2.go:226-246 | no piece holds a CR or an LF |
| `LineSplitter.ScanStream` | services/par2.go:188-201 | the lines kept from the chunks are those of the concatenated stream |
| `LineSplitter.ParseProgress` | services/par2.go:184-201 | however the output is split into buffers, the lines kept are those of splitting the whole stream at CR and LF, trimmed and without blank ones |
| `PagePicks.SpreadStep` | services/manga_screenshots.go:126-128 | consecutive picks differ by at least one on a wide span and by at most one on a narrow one |
| `PagePicks.SpreadGap` | services/manga_screenshots.go:126-128 | neighbouring samples are the span divided by their number apart, rounded down or up |
| `PagePicks.Picks` | services/manga_screenshots.go:98-129 | the picks start at the cover, grow strictly, stay in range, and number min(total, count) from 20 pages on and min(total, count - 1) below; when there are enough pages, the interior ones start at the 5% margin, leave the same margin at the end, and lie evenly apart to within one page |

## Left out

- HTTP client, gzip and multipart bodies, JSON: the site is an environment that answers, loses replies, errs or reports maintenance.
- NNTP dialing, TLS and authentication: a post attempt succeeds or fails. The dot writer follows the behaviour of Go's net/textproto.
- CRC-32, message ids, random names and NZB XML: the checksum is an arbitrary function, the others do not occur.
- A dispatcher read that returns 0 bytes early: the file is taken not to change during the upload.
- The directory walk, the NZB subjects and the percentages of the upload progress: text and ratios that nothing else depends on.
- Floating-point speeds, percentages and ETA text: speeds are byte differences compared with a real threshold, the percent gate is an exact ratio.
- The 2.1 disk multiplier: the reserved amount is a parameter.
- The torrent library, VPN control, seeding and metadata fetch: ticks are inputs.
- SQL failures, and an operator's write between the SELECT and the write of UpsertSiteGroup: each operation on the groups table is one step.
- Titles, phases, progress and group ids of offline jobs, and time stamps of groups: no operation modelled here branches on them.
- Lower-casing outside ASCII: Text.ToLower maps A to Z only.
- The scanner's limit on line length, for config.yml and for par2 output.
- The percentage callback of the par2 parser and its throttle.
- The wording of the config.yml header (any comment lines), and failures of its file writes.
- The env and web tiers of the configuration (Effective, ApplyWeb, snapshots): look-ups only.
- The parsing of request ids out of backup file names, and the contents of backups: a backup is known by its id.
- The watchdog, the pause after aborts, the oversize cooldown, secrets, the local UI and installers.
- Sampling with ffmpeg, 7z, the par2 binaries, file copying and the blocklist walk.
