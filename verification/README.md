# NGAS client and database bookkeeping in Dafny

A model of the parts of NG/AMS (the Next Generation Archive System) that move
data or count it, with proofs of what their documentation promises and, where
the promise does not hold, of exactly when it does.

**The archive client** (`ngamsCClient/ngamsArchiveClient.c`) is a daemon with
one monitor thread, several archive threads and one clean-up thread.
`ArchiveQueue` holds the shared queue as the class it is: a ring, two indices,
two name sets and a counter, changed in place, each method one critical
section. `ArchiveClient` is the whole client with its producers and its server
as a transition system over the three directories; a run is any interleaving
of its steps. `ClientHistory` ties every part of the state to the steps that led to
it; the theorems on lost data are stated over these steps. `ClientExclusion` proves what every interleaving keeps about the
queue and the threads, `ClientNoLoss` that no data is lost, `ClientLosses`
that the condition of that theorem is necessary, `ClientMistakes` exactly when
back-log buffered files are never cleaned up, `ClientRetries` exactly when a file
that waits can still be sent, and `ClientStale` exactly when a thread is handed
the name of a file that is gone.

**The C client library** (`ngamsCClient/ngamsCClientLib.c`): `Failover` is the
cyclic choice of servers shared by threads, `ServerRegistry` the table of
server lists and its parser, `RegistryRace` threads that register lists at the
same time, `UrlCodec` percent-encoding and the rendering of
commands as URLs.

**The database layer** (`ngamsLib/ngamsDb*.py`): `Accounting` is the files and
disks tables with the operations that keep the counters of a disk,
`DiskSemaphore` concurrent updates of one disk at the granularity of queries,
`QueryRetry` the doubly recursive query, `FileDump` the file summary query and
its paged dump, `ServerLists` the interning of server lists. `Text` has the
cutting and joining of strings used by several of them, `Options` the values
that may be absent.

## Where the code departs from what is written about it

- *Clean-up of back-log buffered files.* The manual says that they must be
  deleted by hand (`ngamsCClient/ngamsArchiveClient.doc:258-261`), and the code
  means to pass over them because their status document has no File ID
  (`ngamsCClient/ngamsArchiveClient.c:1052-1079`). But `ngamsGetXmlAttr` reports
  a missing attribute with `ngamsERR_INV_REPLY` and leaves the buffer alone
  (`ngamsCClient/ngamsCClientLib.c:4207-4211`), while its caller compares the
  result with `ngamsSTAT_FAILURE`. The buffers therefore keep the identifiers of
  the previous file of the scan, or what the stack held, and CHECKFILE is asked
  about another file. `ClientMistakes.SparesExactly` says exactly when this never
  removes a file whose document has no identifiers: the server does not
  back-log buffer; or, with buffers that may hold anything when a scan begins
  (`garbage`), no file is looked at; or, with clean buffers, clean-up is immediate
  or looks at one file at most. Data is lost by it exactly if, besides, the
  other file's data differ: `ClientLosses.StaleIdentifiersLose` is the run and
  `ClientLosses.LosslessExactlyWhenHarmless` the exact condition for all ways to
  lose data.
- *File names.* A file `n___STATUS.xml` and the status document of a file `n`
  have one name if both are moved in the same millisecond. One archive thread
  pauses after each file (`ngamsCClient/ngamsArchiveClient.c:528-529`), so this takes
  two threads, or a link moved by the monitor thread. With immediate clean-up,
  `.REMOVED_n` is overwritten when `n` is removed.
- *A full queue.* The comment over `putEntryInQ` speaks of a failure
  (`ngamsCClient/ngamsArchiveClient.c:303-304`); the code reports success and
  leaves the file to a later scan (`ngamsCClient/ngamsArchiveClient.c:314-318`).
- *Links.* The manual allows links in the queue directory
  (`ngamsCClient/ngamsArchiveClient.doc:34-35`); the scan moves everything that
  is not a regular file to the bad files directory
  (`ngamsCClient/ngamsArchiveClient.c:810-827`), and so does the model.
- *Retrying until it succeeds* (`ngamsCClient/ngamsArchiveClient.doc:41-43`). After a
  failed move the name is never taken off the set of files being processed:
  for every file there is such a run (`ClientRetries.MoveFails`), after which it
  is never sent again (`ClientRetries.LeftBehindForEver`). Each such name also
  counts against the limit of twice the number of streams below which a new scan
  starts (`ngamsCClient/ngamsArchiveClient.c:481`); once there are so many, no scan
  ever starts again (`ClientRetries.GateStaysShut`).
  `ClientRetries.SentAgainExactly` is the exact condition under which a waiting
  file can still be sent, in every reachable state.
- *Names of files that are gone.* A scan that was opened before a thread finished a
  file, and checks its name afterwards, queues it again
  (`ngamsCClient/ngamsArchiveClient.c:791-802`), and a thread sends an empty body
  for it (`ngamsCClient/ngamsCClientLib.c:2876-2883`). `ClientStale.StaleListing` is
  such a run for every file, `ClientStale.HandedStaleExactly` the exact condition.
- *Registering server lists.* The slot is searched for and written in two critical
  sections (`ngamsCClient/ngamsCClientLib.c:348-360`, `1131-1154`); two threads with
  different new lists can take one slot (`RegistryRace.RefinesExactly`).
- *No retries.* `query` says that 0 for `maxRetries` means not to retry
  (`ngamsLib/ngamsDbCore.py:920-921`); after one empty result the limit falls
  back to its default, and up to ten retries follow (`QueryRetry.BoundReached`).
  The caller's limit holds exactly if empty results are accepted or it is at
  least ten (`QueryRetry.LimitKeptExactly`).
- *The global semaphore.* If informing the listeners raises, the handler
  releases the semaphore a second time (`ngamsLib/ngamsDbNgasDisks.py:91-95`),
  which lets two updates in at once (`DiskSemaphore.LostUpdate`).
- *Server lists.* A new list is cleaned once for the look-up and again before it
  is stored (`ngamsLib/ngamsDbCore.py:1150`, `1198-1207`). Where cleaning is not
  idempotent the ID does not lead back to the list, and the next call allocates
  another one; `ServerLists.CleanIdempotentExactly`, `SecondCallExactly` and
  `TableFaithfulExactly` say exactly when.
- *Counters.* Updating a file row with another size does not touch the disk
  row, as a comment admits (`ngamsLib/ngamsDbJoin.py:1137-1140`);
  `Accounting.KeepsAccounts` is the exact condition for this and for the
  wildcards, the missing version and the missing disk. The clamps to 0 act only
  for an empty disk ID (`Accounting.ClampsActExactly`).

## Model

| member | source | states |
|---|---|---|
| ArchiveQueue.Registry.constructor | ngamsCClient/ngamsArchiveClient.h:85-99 | the registry of a new client stands for the empty queue, for any ring size from 2 |
| ArchiveQueue.Registry.FileBeingProcessed | ngamsCClient/ngamsArchiveClient.c:287-301 | true exactly for names that are queued or being processed |
| ArchiveQueue.Registry.PutEntryInQ | ngamsCClient/ngamsArchiveClient.c:306-355 | the ring refines a bounded FIFO of one less than its size: the name is appended, or nothing happens when the FIFO is full or the name is queued or being processed |
| ArchiveQueue.Registry.GetNextEntryFromQ | ngamsCClient/ngamsArchiveClient.c:361-429 | returns the oldest name and hands it over to processing, or the empty string exactly when the FIFO is empty; the branches for an empty slot and a missing key are dead |
| ArchiveQueue.Registry.DeleteEntryFromQ | ngamsCClient/ngamsArchiveClient.c:434-458 | takes a name out of processing and out of the counter, or does nothing when it is not there |
| ArchiveQueue.Registry.CheckArchiveQueue | ngamsCClient/ngamsArchiveClient.c:776-832 | an uninterrupted scan does to the queue what Scan says, and moves away exactly the visible entries that are not regular files |
| ArchiveQueue.PutConsistent | ngamsCClient/ngamsArchiveClient.c:306-355 | putting keeps distinct non-empty names, disjoint sets and the counter; the name comes last, or nothing changes when the FIFO is full or the name is queued or being processed |
| ArchiveQueue.GetConsistent | ngamsCClient/ngamsArchiveClient.c:361-429 | getting keeps them and the counter; the name it hands out is the oldest and was nowhere else |
| ArchiveQueue.DeleteConsistent | ngamsCClient/ngamsArchiveClient.c:434-458 | deleting keeps them, and takes this name and no other out of processing |
| ArchiveQueue.SegmentPush | ngamsCClient/ngamsArchiveClient.c:311-348 | writing behind the write index appends to the live segment; the full test is the segment having all but one slots |
| ArchiveQueue.SegmentPop | ngamsCClient/ngamsArchiveClient.c:368-424 | clearing the slot at the read index drops the head of the segment; equal indices mean an empty segment |
| ArchiveQueue.ScanReachesAll | ngamsCClient/ngamsArchiveClient.c:791-829 | after a scan every regular entry without a dot in front is queued or being processed, or the ring is full; names queued before keep their order and place, and no other entry is queued |
| ClientExclusion.ThreadsExclude | ngamsCClient/ngamsArchiveClient.c:306-531 | in every reachable state the queue is consistent, no two archive threads hold one file, and the names being processed are exactly those held and those left behind by failure returns, which are disjoint |
| ClientExclusion.StepKeepsControl | ngamsCClient/ngamsArchiveClient.c:464-531 | one step of any party keeps all of that |
| ClientExclusion.CountBounded | ngamsCClient/ngamsArchiveClient.c:477-487 | the counter that gates the scans is the sum of queued, held and left-behind names, hence at most the capacity plus the streams plus the number of failure returns |
| ClientHistory.CleanerExactly | ngamsCClient/ngamsArchiveClient.c:1034-1119 | in every run, whatever the clean-up is about to ask or remove: its last step but one loaded the document of this very file after the time-out, its buffers then held these identifiers (of the document, or left from before), and it goes on to remove only after a positive CHECKFILE, answered while the server had stored and not dropped the file with them |
| ClientHistory.RemovedWhenConfirmed | ngamsCClient/ngamsArchiveClient.c:1084-1110 | a step that makes anything leave the archived directory is the removal of a file, or of the document beside it, for which CHECKFILE was positive in this way |
| ClientHistory.NegativeKeeps | ngamsCClient/ngamsArchiveClient.c:1112-1119 | after a negative CHECKFILE nothing leaves the archived directory before another file is loaded |
| ClientHistory.ThreadExactly | ngamsCClient/ngamsArchiveClient.c:841-977 | what a thread has in hand and how far it is, is what its steps since its last fetch say: the name at the front of the queue then, the reply, the renaming that this reply demands, and the disposal |
| ClientHistory.FinishedInOrder | ngamsCClient/ngamsArchiveClient.c:888-977 | a thread takes a file off the queue after an error with the file left where it is, and after any other reply with the file moved or removed as that reply demands |
| ClientHistory.RepliesAreFree | ngamsCClient/ngamsArchiveClient.c:876-906 | while a thread sends, any reply that is no acknowledgement can come |
| ClientHistory.LeakedExactly | ngamsCClient/ngamsArchiveClient.c:900-966 | the names left behind are exactly those a thread had when it failed |
| ClientHistory.SourcesExactly | ngamsCClient/ngamsArchiveClient.c:732-762 | every entry of the archived and the bad directory comes from a step of the run: a file from a rename under the name of stamp and file, after a reply for that directory or by the monitor for a link, with the data it was added with; a document from the thread that renamed its file, with the identifiers of the reply and the time it was written |
| ClientHistory.LeavesQueue | ngamsCClient/ngamsArchiveClient.c:900-966 | a step that takes a file out of the queue directory moves it with its data to where the reply of its thread demands, moves a link to the bad directory, or removes it after a positive reply with immediate clean-up, or as the file that has the removal name |
| ClientHistory.ScanReadsAll | ngamsCClient/ngamsArchiveClient.c:791-829 | a scan that closes has read every visible name that was in the queue directory when it was opened and still is |
| ClientHistory.ReadOnce | ngamsCClient/ngamsArchiveClient.c:791-829 | a scan reads no name that it has come to before |
| ClientHistory.PastExactly | ngamsCClient/ngamsArchiveClient.c:791-829 | the names a scan will not come to are those that were gone when it was opened and those it has come to since |
| ClientHistory.QueuedWasRead | ngamsCClient/ngamsArchiveClient.c:791-832 | only names that a scan has read are queued or handed to threads |
| ClientRetries.SentAgainExactly | ngamsCClient/ngamsArchiveClient.c:464-531 | in every reachable state: a file waiting in the queue directory that no thread holds can still be fetched by one in some continuation if and only if its name was not left behind and it is queued, a scan is under way that has not read it yet or has it at hand, or the names left behind or bound to be are fewer than twice the streams |
| ClientRetries.BusyExactly | ngamsCClient/ngamsArchiveClient.c:287-301 | a name is busy exactly because it is queued, held by a thread or left behind, and the three exclude each other |
| ClientRetries.MoveFails | ngamsCClient/ngamsArchiveClient.c:903-911 | for every file that can be sent there is a run that leaves its name behind with the file still in the queue directory |
| ClientRetries.LeftBehindForEver | ngamsCClient/ngamsArchiveClient.c:903-911 | in every continuation such a file stays in the queue directory, left behind, not queued and not held |
| ClientRetries.LeakedForEver | ngamsCClient/ngamsArchiveClient.c:903-911 | a name left behind by a failure return is being processed, but not queued and not held, in the rest of every run |
| ClientRetries.GateStaysShut | ngamsCClient/ngamsArchiveClient.c:477-487 | once the names left behind or bound to be reach twice the streams, the counter never falls below that and no scan starts again |
| ClientRetries.OtherErrorIsRetried | ngamsCClient/ngamsArchiveClient.c:930-976 | after another error the directories are unchanged, the name is free, and the file, if it is there, can be sent again exactly if the scan can still come to it or another one can begin |
| ClientStale.StaleExactly | ngamsCClient/ngamsArchiveClient.c:791-802 | in every reachable state the file of a queued name is gone if and only if a scan that was opened before it was gone found the name free afterwards |
| ClientStale.HandedStaleExactly | ngamsCClient/ngamsArchiveClient.c:508-515 | exactly then a thread is handed the name of a file that is gone |
| ClientStale.StaleListing | ngamsCClient/ngamsArchiveClient.c:791-802 | for every file that can be sent a run in which a thread is handed its name after another has moved it |
| ClientNoLoss.NoDataLost | ngamsCClient/ngamsArchiveClient.c:732-1129 | in every run every file ever added is in one of the three directories with its data, or a step of the run has removed it: a thread with immediate clean-up, while the file was in the queue directory, after a positive reply to that thread; or the clean-up, after loading its document past the time-out and a positive CHECKFILE for it; and in both cases the identifiers are those under which the server was given the same data; under the condition that is shown to be necessary |
| ClientNoLoss.StepKeepsFiles | ngamsCClient/ngamsArchiveClient.c:732-762 | one step of any party keeps each file where the history says and each document beside its own file |
| ClientNoLoss.StepKeepsWorkers | ngamsCClient/ngamsArchiveClient.c:841-977 | what an archive thread knows about its file stays true whatever the others do |
| ClientNoLoss.StepKeepsCleaner | ngamsCClient/ngamsArchiveClient.c:998-1119 | the clean-up thread asks the server about a copy of the data of the very file it goes on to remove |
| ClientNoLoss.LoadAsks | ngamsCClient/ngamsArchiveClient.c:1003-1051 | the identifiers used for an expired file are those of a copy of its data: from its own document, or carried over from a file with the same data |
| ClientNoLoss.StampsKept | ngamsCClient/ngamsArchiveClient.c:500-531 | over every run a single archive thread never gives two files one time stamp, and only links are taken for links |
| ClientNoLoss.PassedOverTarget | ngamsCClient/ngamsArchiveClient.c:1003 | which moved files the clean-up thread mistakes for status documents depends on the original name only |
| ClientNoLoss.TargetInjective | ngamsCClient/ngamsArchiveClient.c:739-742 | time stamp and original name can be read off the name of a moved file |
| ClientLosses.LosslessExactlyWhenHarmless | ngamsCClient/ngamsArchiveClient.c:732-1129 | for every configuration and set of files: no run that adds some of them loses one if and only if no name can be overwritten by the document or removal of another, and back-logging cannot mislead the clean-up: with clean buffers because clean-up is immediate or all files looked at have the same data, with arbitrary buffers because none is looked at |
| ClientLosses.HarmlessIsLossless | ngamsCClient/ngamsArchiveClient.c:732-1129 | the sufficient half, for every subset of the files and every interleaving |
| ClientLosses.StatusOverwrites | ngamsCClient/ngamsArchiveClient.c:739-758 | for any such pair of names, given two threads or a link, a run in which one scan meets both, the two renames follow each other, and the status document overwrites the other file |
| ClientLosses.UnlinkOverwrites | ngamsCClient/ngamsArchiveClient.c:948-953 | for any such pair of names a run in which immediate clean-up destroys the other file, which no step has removed for a good reason |
| ClientLosses.BackLogRemoves | ngamsCClient/ngamsArchiveClient.c:986-1110 | with arbitrary buffers: for any file the clean-up looks at, a run in which it is deleted though the server only buffered it |
| ClientLosses.StaleIdentifiersLose | ngamsCClient/ngamsArchiveClient.c:1034-1110 | with clean buffers: for any two files looked at with different data, a run in which the second is deleted on the strength of the identifiers of the first |
| ClientLosses.CleanUp | ngamsCClient/ngamsArchiveClient.c:1084-1110 | the clean-up removes a file once CHECKFILE finds the identifiers it holds, be they those of the file or not |
| ClientMistakes.SparesExactly | ngamsCClient/ngamsArchiveClient.c:1034-1110 | for every configuration and set of files: no run that adds some of them removes a file whose document has no identifiers if and only if the server does not back-log buffer, or with arbitrary buffers no file is looked at, or with clean ones clean-up is immediate or looks at one file at most |
| ClientMistakes.DocsKept | ngamsCClient/ngamsArchiveClient.c:732-762 | in every reachable state a file has one document at most, and identifiers in clean buffers come from a file that is looked at and whose document has them, with no other document to come |
| ClientMistakes.NeighbourMistakes | ngamsCClient/ngamsArchiveClient.c:1034-1110 | with clean buffers: for any two files that are looked at a run that is about to remove one whose document has no identifiers |
| ClientMistakes.GarbageMistakes | ngamsCClient/ngamsArchiveClient.c:986-1110 | with arbitrary buffers: such a run for any file that is looked at |
| Failover.SrvInfo.GetNextSrv | ngamsCClient/ngamsCClientLib.c:365-383 | the first attempt advances the shared index cyclically, later ones only the caller's; host and port are those of the chosen server |
| Failover.SrvInfo.HttpGet | ngamsCClient/ngamsCClientLib.c:2711-2748 | on a registered list, whatever other threads do to the index: success exactly when some attempt among the first n succeeds, stopping there; servers in cyclic order, none twice, all of them on failure; any other host is contacted once, without touching the index |
| Failover.SrvInfo.HttpPost | ngamsCClient/ngamsCClientLib.c:3083-3134 | the same, and at most one copy in the archive for the success, one for each attempt of unknown outcome, and one for each other error that did ingest the data |
| Failover.TriesStopAtSuccess | ngamsCClient/ngamsCClientLib.c:2728-2741 | attempts stop at the first success and otherwise use every server |
| Failover.CopiesBounded | ngamsCClient/ngamsCClientLib.c:3103-3120 | copies are bounded by the unknown outcomes and the other errors that did ingest, plus one on success; there are none of the latter when other errors mean that nothing was ingested |
| Failover.CyclicFromStart | ngamsCClient/ngamsCClientLib.c:369-373 | the i-th server of a call is i places behind the first, modulo n |
| Failover.CyclicDistinct | ngamsCClient/ngamsCClientLib.c:369-373 | at most n servers in cyclic order are distinct, and n of them are all |
| Failover.TurnsAreFair | ngamsCClient/ngamsCClientLib.c:368-373 | over any interleaving of calls and retries, a call before which k calls of all threads had started makes its i-th attempt at server k + i modulo n, at distinct servers, as often as it has tried, and may go on exactly while there are servers left |
| Failover.ServersShareTheLoad | ngamsCClient/ngamsCClientLib.c:368-373 | after m calls each server was first m / n times or once more, however often calls retried |
| Failover.TurnIsMod | ngamsCClient/ngamsCClientLib.c:370-373 | stepping cyclically from no server is counting modulo n |
| ServerRegistry.Registry.GetSrvInfoObj | ngamsCClient/ngamsCClientLib.c:343-363 | finds the slot of a list or the first free one, and says which |
| ServerRegistry.Registry.ParseSrvListId | ngamsCClient/ngamsCClientLib.c:1120-1159 | replaces the list's slot and no other; fails without effect when there is no slot, and at the first malformed address with the servers before it stored; overruns its arrays exactly when more than 32 addresses are read |
| ServerRegistry.RenderedParses | ngamsCClient/ngamsCClientLib.c:1142-1153 | a list written as host:port pairs is parsed back to the same pairs in order |
| ServerRegistry.AddressReads | ngamsCClient/ngamsCClientLib.c:4416-4425 | an address is split back into its host and port, negative ports included |
| ServerRegistry.SplitExactly | ngamsCClient/ngamsCClientLib.c:4416-4425 | the host is what stands before the first colon, and a text without colon is malformed |
| ServerRegistry.AtoiExactly | ngamsCClient/ngamsCClientLib.c:4416-4425 | a port may have spaces and a sign in front and anything that does not begin with a digit behind; what does not begin like a number is 0 |
| ServerRegistry.TokensExactly | ngamsCClient/ngamsCClientLib.c:1142-1153 | the tokens are the texts between the commas without the empty ones |
| ServerRegistry.ParseExactly | ngamsCClient/ngamsCClientLib.c:1142-1153 | the servers are those of the tokens before the first malformed one, in order; it succeeds exactly when there is no such token |
| ServerRegistry.StoreRefines | ngamsCClient/ngamsCClientLib.c:1131-1140 | storing puts the id, the servers and the index of no server yet into the slot found and changes no other slot; it gives the id its servers, keeps ids unique and used slots a prefix, and changes the meaning of no other id, but for the empty one, whose list it takes exactly if the slot was free and the next does not hold the same |
| ServerRegistry.NoSlotMeansFull | ngamsCClient/ngamsCClientLib.c:351-359 | no slot is found exactly when all slots hold other lists |
| ServerRegistry.FindsStoredExactly | ngamsCClient/ngamsCClientLib.c:351-359 | the search finds what the slots hold for an id if and only if the id is not empty or all free slots are alike |
| RegistryRace.RefinesExactly | ngamsCClient/ngamsCClientLib.c:1131-1154 | in every interleaving of any calls each id leads to the servers of the call that wrote it last in the run, or to those it had, if and only if all calls that need a free slot are for one list, or no slot is free |
| RegistryRace.CompatibleRefines | ngamsCClient/ngamsCClientLib.c:1131-1154 | under that condition every call has found, at whatever time, the slot it would have found at first, only the first free slot changes hands, and no list is lost |
| RegistryRace.ListLost | ngamsCClient/ngamsCClientLib.c:1131-1140 | for any two calls for different new lists and a free slot a run that loses the list written first |
| UrlCodec.EncodeUrlVal | ngamsCClient/ngamsCClientLib.c:3975-4021 | the loop computes the specified encoding |
| UrlCodec.EncodedExactly | ngamsCClient/ngamsCClientLib.c:3979-4020 | exactly thirteen characters become a percent sign and the two upper-case hexadecimal digits of their code, a backslash those of a slash, one by one and in order; only the beginnings http:, file: and ftp: are left alone, when that is asked for |
| UrlCodec.DecodesBack | ngamsCClient/ngamsCClientLib.c:3975-4021 | percent-decoding (section 2.1 of RFC 3986) gives back the value with backslashes turned into slashes, hence the value itself exactly when it has no backslash |
| UrlCodec.EncodingInjective | ngamsCClient/ngamsCClientLib.c:3975-4021 | different values without backslashes have different encodings |
| UrlCodec.EncodedIsClean | ngamsCClient/ngamsCClientLib.c:3990-4020 | every special character left behind the scheme is the percent sign of a triplet |
| UrlCodec.EncodedLength | ngamsCClient/ngamsCClientLib.c:3975-4021 | the encoding is at least as long as the value and at most three times as long |
| UrlCodec.EncodedLacks | ngamsCClient/ngamsCClientLib.c:3979-4020 | no separator of a URL is left, not even in the scheme |
| UrlCodec.BuildUrl | ngamsCClient/ngamsCClientLib.c:2777-2791 | the loop builds the specified URL |
| UrlCodec.UrlExactly | ngamsCClient/ngamsCClientLib.c:2777-2791 | a command without parameters is its URL; each further one comes behind a question mark or an ampersand, with its encoded name, an equals sign, and its encoded value in double quotes |
| UrlCodec.UrlReadsBack | ngamsCClient/ngamsCClientLib.c:2777-2791 | cutting at the separators, stripping the quotes and decoding gives back the command and all parameters in order, but for backslashes |
| UrlCodec.UrlFaithfulExactly | ngamsCClient/ngamsCClientLib.c:2777-2791 | the URL reads back exactly if and only if the command has no question mark and no parameter a backslash |
| Accounting.NgasDb.WriteDiskEntry | ngamsLib/ngamsDbNgasDisks.py:342-375 | writes the row of a disk, new or not, with the given counters |
| Accounting.NgasDb.UpdateDiskFileStatus | ngamsLib/ngamsDbNgasDisks.py:66-95 | adds one file and its size to the disk, or raises without effect when there is no such disk |
| Accounting.NgasDb.WriteFileEntry | ngamsLib/ngamsDbJoin.py:1087-1142 | by the fields of the rows: if exactly one row has the disk, the file and the version (any, when none is given), its size changes and nothing else; otherwise a row with this very key raises without effect, and any other key is inserted as one more row and, when asked to, counted on its disk, or raises with the row inserted when there is no such disk |
| Accounting.NgasDb.DeleteFileInfo | ngamsLib/ngamsDbNgasFiles.py:355-402 | by the fields of the rows: raises without effect when no row is listed; otherwise the rows with exactly this disk, file and version go, all others stay as often as they were, and one file and the size of the first row listed are taken off the counters of the disk, which stop at zero |
| Accounting.NgasDb.DeleteDiskInfo | ngamsLib/ngamsDbNgasDisks.py:681-710 | with file deletion the disk and all its file rows go and nothing else, or it raises without effect when there is no such disk; without, only the disk row goes, and it raises afterwards |
| Accounting.WritesEntry | ngamsLib/ngamsDbJoin.py:1087-1142 | the statements that are issued have this effect on the rows |
| Accounting.DeletesFile | ngamsLib/ngamsDbNgasFiles.py:355-402 | the statements that are issued have this effect on the rows |
| Accounting.ListsFile | ngamsLib/ngamsDbNgasFiles.py:355-368 | a row is listed exactly if its disk and version are those given, if any, and its file ID fits the one given with stars as percent signs: equal when there is neither, any when it is empty |
| Accounting.LikePlain | ngamsLib/ngamsDbNgasFiles.py:355-368 | a pattern without percent sign fits character by character, an underscore any character |
| Accounting.LikeAnyText | ngamsLib/ngamsDbNgasFiles.py:355-368 | a percent sign stands for any text between what the parts around it fit |
| Accounting.NgasDb.GetSumBytesStored | ngamsLib/ngamsDbNgasFiles.py:426-435 | the sizes of the file rows of the disk added up, in any tables; in accounted tables the byte count of the disk row, and 0 for an unknown disk |
| Accounting.AccountsKeptExactly | ngamsLib/ngamsDbNgasFiles.py:355-402 | every operation, returning or raising, keeps unique keys, no orphan rows and exact counters if and only if a condition holds that a caller can check beforehand |
| Accounting.RunKeepsAccounts | ngamsLib/ngamsDbJoin.py:1087-1142 | at every point of every run of documented operations from empty tables: unique keys, no file row without its disk, the file count and byte count of every disk equal what the file rows say, and no clamp acts |
| Accounting.DocumentedKeeps | ngamsLib/ngamsDbNgasFiles.py:355-402 | a documented operation keeps the accounts, no clamp acts, and it raises exactly when what it should delete is not there |
| Accounting.ClampsNeverFire | ngamsLib/ngamsDbNgasFiles.py:384-394 | in accounted tables a deletion from a disk with an ID finds at least one file and enough bytes there |
| Accounting.ClampsActExactly | ngamsLib/ngamsDbNgasFiles.py:384-394 | in accounted tables a clamp to 0 acts if and only if the disk ID is empty, the list is not, and the disk has no files or less than the first size listed |
| Accounting.PlainDeletionKeeps | ngamsLib/ngamsDbNgasFiles.py:343-346 | with a version and a File ID without wildcards, as documented, the list and the deletion have one condition and the accounts are kept |
| Accounting.ResizeExact | ngamsLib/ngamsDbJoin.py:1087-1104 | updating a row keeps the accounts exactly when its size stays |
| Accounting.InsertCounted | ngamsLib/ngamsDbJoin.py:1107-1142 | inserting a new row and counting it keeps the accounts |
| Accounting.InsertUncounted | ngamsLib/ngamsDbJoin.py:1141-1142 | inserting without counting never does |
| Accounting.DeleteRowExact | ngamsLib/ngamsDbNgasFiles.py:371-400 | deleting a row keeps the accounts exactly when the size taken off is its own, or a clamp happens to hide that it is not |
| Accounting.DeleteDiskExact | ngamsLib/ngamsDbNgasDisks.py:703-710 | deleting a disk keeps the accounts exactly when its file rows go too or it has none |
| Accounting.WriteDiskExact | ngamsLib/ngamsDbNgasDisks.py:342-375 | writing a disk row keeps the accounts exactly when the counters are right |
| DiskSemaphore.NoLostUpdate | ngamsLib/ngamsDbNgasDisks.py:66-95 | if informing the listeners does not raise, after every interleaving of any number of calls each disk has grown by exactly the number of updates written for it and by the sizes these calls began with; each reader sees current counters, and the semaphore is taken exactly while one call, and no other, is in the critical section |
| DiskSemaphore.QueriesFail | ngamsLib/ngamsDbNgasDisks.py:91-95 | a query of a call can fail at any time between getting the semaphore and the update, and the handler then gives it back |
| DiskSemaphore.ExtraPermit | ngamsLib/ngamsDbNgasDisks.py:91-95 | a raise after the release leaves the semaphore with two permits |
| DiskSemaphore.LostUpdate | ngamsLib/ngamsDbNgasDisks.py:91-95 | for every table and disk a run with such a raise that writes three updates of the disk and leaves its counter at two more |
| DiskSemaphore.SafeExactlyWhenTriggersReturn | ngamsLib/ngamsDbNgasDisks.py:66-95 | no interleaving loses an update if and only if informing the listeners cannot raise |
| QueryRetry.Driver.QueryAgain | ngamsLib/ngamsDbCore.py:994-1055 | the two recursive calls amount to one attempt after the other: same outcome and same number of driver queries |
| QueryRetry.LinearlyMany | ngamsLib/ngamsDbCore.py:994-1055 | from level 0 at most max(maxRetries, 10) + 1 driver queries, and maxRetries + 1 when empty results are ignored |
| QueryRetry.AnswerOfLast | ngamsLib/ngamsDbCore.py:1039-1055 | the answer is that of the last driver query, and never empty for a SELECT that must not be |
| QueryRetry.EndsAtFirstFinal | ngamsLib/ngamsDbCore.py:1002-1054 | the attempts end exactly at the first answer that is not retried, where the limit is the caller's until the first empty result and the default afterwards |
| QueryRetry.BoundReached | ngamsLib/ngamsDbCore.py:1004-1052 | the bound is reached for every maxRetries; even 0 does not prevent ten retries |
| QueryRetry.LimitKeptExactly | ngamsLib/ngamsDbCore.py:920-1052 | at most maxRetries + 1 driver queries for every behaviour of the driver if and only if empty results are accepted or maxRetries is at least 10 |
| FileDump.BuildFileSummary1Query | ngamsLib/ngamsDbJoin.py:386-411 | the clauses put together accept exactly the rows the parameters describe, an absent parameter being no condition |
| FileDump.GetSummary1NoOfFiles | ngamsLib/ngamsDbJoin.py:354-365 | the number of pairs of a disk and a file of the tables that the parameters describe |
| FileDump.CountFits | ngamsLib/ngamsDbJoin.py:354-365 | a cursor of the listing delivers each disk with each file, if the parameters describe the two, as often as the tables hold them, and nothing else: as many rows as were counted with another projection and without order |
| FileDump.QueryLists | ngamsLib/ngamsDbJoin.py:386-411 | what the query selects from the join is each pair that the parameters describe, as often as the two are in the tables |
| FileDump.DumpCursor | ngamsLib/ngamsDbJoin.py:837-846 | however the cursor cuts its rows into chunks, all rows up to the first empty chunk are stored under their numbers |
| FileDump.FetchedExactly | ngamsLib/ngamsDbJoin.py:837-846 | what comes behind the first empty chunk is not looked at, everything before it is |
| FileDump.NumberedFinds | ngamsLib/ngamsDbJoin.py:844-845 | the i-th row is found under the decimal number i, none is overwritten and there are no others |
| FileDump.DumpFileSummary1 | ngamsLib/ngamsDbJoin.py:818-877 | with verification and recovery on, returns the first of five rounds with the number of rows counted before and raises exactly when there is none; otherwise returns the first round; if the tables are unchanged when the first cursor delivers, does not raise, uses that round and holds exactly the rows asked for |
| ServerLists.CleanJoinsForms | ngamsLib/ngamsDbCore.py:446-448 | for every list, the detour over the text of a Python list comes to joining the forms of the sorted entries with commas, from which they can be read off again |
| ServerLists.FormExactly | ngamsLib/ngamsDbCore.py:446-448 | the form of an entry: backslashes are doubled; single quotes are dropped and, when there are no double quotes, double quotes come around it; when there are, each single quote leaves a backslash |
| ServerLists.CleanIsSortedJoinExactly | ngamsLib/ngamsDbCore.py:446-448 | the sorted entries are the entries, as often as they occur, and of any two the first is the beginning of the second or has the lesser character where they first differ; the canonical form is these joined by commas exactly if no entry has a single quote or a backslash |
| ServerLists.OrderIsIgnored | ngamsLib/ngamsDbCore.py:443-448 | for all lists, the order of the servers and the spaces make no difference |
| ServerLists.SameServersExactly | ngamsLib/ngamsDbCore.py:446-448 | two lists without single quotes have one canonical form exactly when they name the same servers equally often |
| ServerLists.SameFormExactly | ngamsLib/ngamsDbCore.py:446-448 | any two lists have one canonical form exactly when the forms of their sorted entries agree |
| ServerLists.QuotesConfuse | ngamsLib/ngamsDbCore.py:446-448 | for every plain name, the name with a single quote and the name in double quotes are different servers with one canonical form |
| ServerLists.CleanIdempotentExactly | ngamsLib/ngamsDbCore.py:446-448 | for every list, cleaning twice is cleaning once if and only if no entry has a backslash or both kinds of quotes and dropping the single quotes keeps the order |
| ServerLists.BackslashUnsettles | ngamsLib/ngamsDbCore.py:446-448 | without single quotes, if and only if there is no backslash |
| ServerLists.SrvListTable.GetListFromId | ngamsLib/ngamsDbCore.py:1172-1179 | the list stored under an ID; in a faithful table it is its own canonical form and no other ID leads to it |
| ServerLists.SrvListTable.AddSrvList | ngamsLib/ngamsDbCore.py:1143-1157 | stores the canonical form under an id that was free, and changes nothing else |
| ServerLists.SrvListTable.GetIdFromList | ngamsLib/ngamsDbCore.py:1198-1208 | for every list: an ID of its canonical form, or a new one under which the form is stored cleaned again, or -1 |
| ServerLists.SecondCallExactly | ngamsLib/ngamsDbCore.py:1143-1208 | the ID leads back to the canonical form, and a second call gives the same ID, if and only if the form was there before or is its own canonical form; otherwise the second call allocates again |
| ServerLists.TableFaithfulExactly | ngamsLib/ngamsDbCore.py:1143-1208 | in a table filled through calls only, every ID leads back to the canonical form it was given for if and only if each list that was stored was its own canonical form; then lists and IDs are one to one |
| ServerLists.SettledCalls | ngamsLib/ngamsDbCore.py:1143-1208 | calls with settled lists only give such a table, all of whose lists are canonical |
| ServerLists.IdsFaithful | ngamsLib/ngamsDbCore.py:1198-1208 | two calls of such a run give one ID exactly when the canonical forms agree |

## Left out

- Failures of the name sets and of the copying of names in the queue: names are non-empty and fit their buffers, and a key can be put and deleted exactly when it should be.
- Files are told apart by name: a producer uses each name once. Directories in the queue directory are treated like links.
- Hiding a file under its removal name and removing it is one step, as is removing a confirmed file and its document; crashes of the client between system calls are not modelled.
- Time stamps have no underscore, and the clock is not set back across the pause of an archive thread, so that no thread uses one twice; the conversion of full paths to base names is left out.
- Checksum plug-ins, whose failure is one more early return, and the parameters they add.
- The pauses between scans. A scan reads each name once at most, and every name that is there from its opening to its end; it may also read names that were added or went in between.
- The server is any party that gives positive replies for files it was given and finds with CHECKFILE what it has; sockets, HTTP, time-outs and the text of replies are outcomes chosen freely.
- ServerRegistry.Registry.ParseSrvListId: says nothing about the registry after more than 32 addresses, when the code has written behind its arrays; numbers too large for an int and parsing a list again during a request are left out.
- Failover.SrvInfo.HttpGet: following redirects is left out.
- Accounting.NgasDb.WriteFileEntry: the primary key of the files table is modelled as an exception of the insertion; columns other than key, size and the two counters, and the snapshot documents, are left out.
- Accounting.NgasDb.DeleteFileInfo: an unordered SELECT delivers rows in table order, and the verification rounds of the dumped list, which are those of DumpFileSummary1, succeed.
- Concurrent deletions, which do not take the global semaphore.
- QueryRetry.Driver.QueryAgain: pauses, logging and the simulated error of the test mode.
- FileDump.DumpFileSummary1: the file is new in every round; pauses and warnings. The list of one disk is dumped by the same loops.
- ServerLists.CleanJoinsForms: entries of printable characters; how Python shows other characters is not modelled.
- ServerLists.SrvListTable.AddSrvList: the random numbers are a parameter with a free one among them, since the loop has no bound otherwise.
- Logging, log rotation, the command line, XML, the mirroring, cache and subscriber tables.
