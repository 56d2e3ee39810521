# LocalSync: a verified model

LocalSync keeps a directory in sync on several machines. A tracker holds the table of files and of
the peers that have them; peers report changes to it, receive its table, delete and download files
accordingly, and fetch each file in segments from several peers at once. This project models that
logic in Dafny and proves what it promises. Verify with `dafny verify dfyconfig.toml`.

## How it fits together

* **Download** (`Float32`, `Segmentation`, `Transfer`, `Upload`, `Download*`). The threads of one
  download are a transition system with one step per critical section or unlocked access. An
  inductive invariant over every interleaving leads to the file on disk being the file at the
  peers; a measure shows that every fair run of the download ends; and each connection is put
  together with the loop of the uploader at its other end.
* **File table** (`CStrings`, `Table`, `TableLaws`, `FileTable`). `Table` says on sequences of
  entries what each operation does, `TableLaws` what that means for the table as a map, and
  `FileTable` proves the loops over the linked lists against it, including directory removal, which
  recurses while it edits the list it walks.
* **Merging and history** (`MergeLaws`, `History`). Registration is a last-writer-wins join; whom an
  entry lists can be read off the log of what the tracker was told.
* **Tracker** (`TrackerProtocol`, `TrackerHistory`, `PeerTable`, `TrackerServer`). The handlers on the
  linked tables take the steps of a state machine; both tables of every reachable state are read off
  the steps taken.
* **Messages and events** (`Sequences`, `Wire`, `WireCuts`, `Messaging`, `EventQueue`, `Pipeline`).
  A codec over a stream of typed records, what becomes of messages that are cut off, the methods
  that send and receive, and the order in which file events reach the table.
* **Peer** (`Tree`, `Reconcile`, `Deletion`, `Settling`, `Fixpoint`, `Silence`, `Peer`). What a peer
  decides on a table, what the deletion pass and the downloads leave, when a second run has nothing to
  do, and that the monitor does not report the peer's own downloads.

## Hypotheses

* Every connect of a download succeeds; an attempt at a segment fails without effect, or delivers
  all of it, or a part of it because the peer closes the connection; attempts fail finitely often;
  the source file does not change.
* A peer registers once, before it sends anything else.
* `RegisterOrderIrrelevant` assumes that the peers have different ips, that no list has a path
  twice, and that path and time determine the size and the path the kind of a file, directories
  having size 0. `TwoOrdersAgreeIff` drops the last two and gives the exact condition for any table.
* A directory tree does not change while it is listed, and every entry can be examined. The clock
  shows one time during a run of the reconcile.
* `FixpointIff` starts from a peer without downloads under way or ignore marks, and a parent-closed
  table with no time in the future and directories of size 0, and ends when every download of an
  entry with peers has completed, none of its answers cut short. Its second run finds the disk as the
  first one and its downloads left it; in `SecondRunIsIdle` the times of directories may have moved
  on.

## Where the code does less than it is meant to

* Removing a directory removes every path that starts with its bytes, so a sibling whose name
  continues the directory's name goes too (`SiblingIsRemoved`, exact condition `RemoveIsExactIff`).
* The number of segments is computed in `float`: above 2^24 bytes the last segment can be up to 64
  bytes longer than a piece (`LongLastSegment`, `PlanIsExactCeilingIff`). The file is still complete.
* Events read in several batches before the queue is drained arrive with the batches in reverse
  order (`ChronologicalIff`, `DeletionOvertakesCreation`).
* A peer that comes back under another port while the tracker still lists it under the old one is
  not added to the entries whose downloads it completes (`ComebackIsRefused`, exact condition
  `PeersAreHoldersIff`).
* A message that is cut off is not rejected, unless nothing of it arrives: the rest is taken to be
  zeros (`CutArrives`, exact conditions `RejectedIff` and `UnnoticedIff`).
* Nor is an answer that is cut short: the rest of the segment is saved as zeros (`CutAnswerIsSaved`,
  exact condition `SavedFileIsSourceIff`).
* An entry without peers is downloaded all the same: an older copy is truncated and never filled
  again (`LostFileIsTruncated`, exact condition `CanFinishIff`).
* `filetable_remove()` needs the directory before its content, as in a sorted table. In a list where
  the content is just before it, the node it relinks is one that it has removed and freed, and the
  directory stays (`DirectoryAfterContent`, exact condition `RemovedIff`).
* Two peers with equally old files of different sizes: the first to register wins
  (`FirstRegistrationCanWin`, exact condition `TwoOrdersAgreeIff`).
* A received table has files before their directories, and `download_file()` does not complete a
  file whose directory is missing; the mark it leaves blocks later runs
  (`NewDirectoryIsNotCompleted`). Entries deeper than the listing goes are downloaded by every run
  (`SixLevelsAreFetchedAgain`), a directory that contains something too deep is not deleted
  (`NestedIsNotDeleted`), and a directory that is older than in the table is marked and left
  (`OldDirectoryIsMarked`). The exact conditions are `FixpointIff` and `DeletesExactlyIff`.

## Model

| member | source | states |
|---|---|---|
| `Float32.RoundIsNearestEven` | upload_download/download.c:104 | the model of the `(float)` conversion is correct: the result is representable in binary32, nothing representable is nearer, and of two equally near values the even one is taken (section 4.3.1 of IEEE 754-2008) |
| `Float32.RoundKeepsOrder` | upload_download/download.c:104 | rounding never crosses a representable value |
| `Float32.RoundError` | upload_download/download.c:104 | sizes below 2^31 are off by at most 64, sizes up to 2^24 not at all |
| `Segmentation.TilesOrdered` | upload_download/download.c:129-158 | segments that tile a file do not overlap |
| `Segmentation.TilesCover` | upload_download/download.c:129-158 | every byte of the file belongs to exactly one segment |
| `Segmentation.LastSegment` | upload_download/download.c:104 | for every size in 1..2^31-1 the last segment starts inside the file and exceeds the piece length by at most 64 bytes |
| `Segmentation.PlanTiles` | upload_download/download.c:104-158 | for every size in 1..2^31-1 the segments tile the file; each has at most 2048 + 64 bytes, and at most 2048 up to 2^24 bytes |
| `Segmentation.PlanIsExactCeilingIff` | upload_download/download.c:104 | the count is the exact ceiling, and no segment is longer than a piece, exactly when rounding does not drop the size onto a multiple of the piece length |
| `Segmentation.LongLastSegment` | upload_download/download.c:104 | a file of 2^24 + 1 bytes has a last segment of 2049 |
| `Segmentation.ComputeSegments` | upload_download/download.c:129-158 | the loop that fills the sequence table computes the plan, without int overflow |
| `Transfer.ReadSegment` | upload_download/upload.c:185-232 | the byte-by-byte copy loop yields the requested stretch, zero past the end of the file |
| `Transfer.AnswerInside` | upload_download/upload.c:185-232 | a request inside the file is answered with exactly that stretch |
| `Transfer.WriteElsewhere` | upload_download/download.c:422-437 | writing a chunk at its offset leaves everything it does not overlap as it was |
| `Upload.SendFile` | upload_download/upload.c:150-250 | `sent` has as many answers as there are requests before the first end marker, missing file or failed write, and each has the requested length, the bytes of the named file from the offset on, and zeros past its end |
| `Upload.ServedExactly` | upload_download/upload.c:150-250 | the same of the specification, for every stream of requests |
| `Upload.PlanServed` | upload_download/upload.c:150-250 | asked for the segments of a file, then the end marker, then anything, the uploader has sent exactly the file |
| `DownloadInvariant.ClaimerFindsSlot` | upload_download/download.c:253-270 | a thread still looking for a socket has only passed claimed slots, and a filled unclaimed one is left |
| `DownloadInvariant.NextKeeps` | upload_download/download.c:160-184 | every step of every thread keeps the invariant of the protocol |
| `DownloadInvariant.ReachableInv` | upload_download/download.c:160-184 | so it holds in every state that any interleaving reaches |
| `DownloadSafety.SavedFileIsSource` | upload_download/download.c:399-448 | in every run in which no answer is cut short, whatever the interleaving, the number of threads, the push and pop order and the failed attempts, when the saver leaves its loop the bytes on disk are the bytes at the source |
| `DownloadSafety.DownloadedFileIsSource` | upload_download/download.c:84-186 | the same for the segments that `download()` cuts, for every size an int holds |
| `DownloadSafety.SavedFileIsSourceIff` | upload_download/download.c:372-448 | with answers cut short too, whenever the saver has left its loop: the bytes on disk are those at the source if and only if every byte that was lost in an answer cut short is zero there |
| `DownloadSafety.CutAnswerIsSaved` | upload_download/download.c:372-389 | a peer that closes the connection before it has sent the one byte of a file: the download completes with a zero in its place |
| `DownloadSafety.ClaimsMatch` | upload_download/download.c:253-270 | although unfilled slots hold 0 and pass the test, no thread claims one, none runs out of slots, and no two threads have the same slot; each uses the socket stored there |
| `DownloadSafety.EverySocketIsUsed` | upload_download/download.c:165-184 | once all threads have claimed, every slot has its thread |
| `DownloadSafety.SegmentAccounting` | upload_download/download.c:275-310 | `numReceived` is the number of DOWNLOADED segments; each DOWNLOADING one has exactly one worker |
| `DownloadSafety.RequestsAreSegments` | upload_download/download.c:352-369 | no data request carries the end marker: each asks for a segment of the plan |
| `DownloadSafety.ChunkAccounting` | upload_download/download.c:384-448 | chunks are conserved: pushed = written + stacked, and no segment is stacked twice |
| `DownloadSafety.PushedOnce` | upload_download/download.c:384-389 | in every run each segment is pushed at most once, and exactly once if its chunk has been stacked or saved |
| `DownloadSafety.LeaversAreCounted` | upload_download/download.c:320-326 | once slot 0 is claimed, `peers[0]` is -1 minus the number of finished threads, and none finishes before |
| `DownloadSafety.NothingAfterRelease` | upload_download/download.c:326-336 | once the shared state is released, or about to be, no thread touches it but the one that releases it |
| `DownloadSafety.ReleasedAtTheEnd` | upload_download/download.c:326-336 | when all threads have finished it has been released, exactly once |
| `DownloadSafety.QueueIsIdleAfterSaving` | upload_download/download.c:464-470 | when the saver frees the queue, the queue is empty and no thread will use it again |
| `DownloadProgress.StepWorks` | upload_download/download.c:275-310 | claiming, delivering, completing, failing and saving use up a measure; scanning and spinning do not add to it |
| `DownloadProgress.ProgressBounded` | upload_download/download.c:275-310 | with finitely many failures every run, however long, has boundedly many steps other than scanning and spinning, and the bound is given |
| `DownloadProgress.NeverStuck` | upload_download/download.c:275-310 | every unfinished state has a step, needing no failure, that brings it closer to the end |
| `DownloadProgress.CanAlwaysFinish` | upload_download/download.c:84-475 | from every reachable state there is a run without further failures and cuts that ends the download, with the shared state released once and, if nothing was lost before, with the right file |
| `DownloadProgress.WithoutPeersNothingHappens` | upload_download/download.c:84-186 | the download of an entry without peers is never over, and the file, truncated when the saver opened it, stays empty |
| `DownloadProgress.CanFinishIff` | upload_download/download.c:84-475 | from any reachable state a download can be finished if and only if it has a thread, that is, the entry a peer |
| `DownloadFairness.FairStretchProgresses` | upload_download/download.c:275-310 | a stretch of a run in which every thread finishes or gets \|plan\| + 3 steps, and the saver and the creation of threads one if they are not done, is not spent scanning and spinning |
| `DownloadFairness.FairDownloadCompletes` | upload_download/download.c:84-475 | every run of a given number of such stretches, whatever fails finitely often, is over, with one release, and with the right file exactly if nothing was lost in answers cut short |
| `DownloadFairness.FairStretchExists` | upload_download/download.c:84-475 | from every reachable state there is such a stretch, even one that ends the download |
| `DownloadService.ThreadIsServed` | upload_download/upload.c:150-250 | in every run, what a thread whose calls do not fail has read from its socket, and the answer it waits for, is what the upload loop sends for exactly the requests, end marker included, that this thread has written to it |
| `CStrings.LessTransitive` | filetable/filetable.c:89-97 | the order of `strcmp` is transitive |
| `CStrings.PrefixBlock` | filetable/filetable.c:190-195 | whatever lies between a path and one of its extensions is an extension too |
| `Table.Find` | filetable/filetable.c:388-402 | the position of the first entry with the path, or the length |
| `Table.Position` | filetable/filetable.c:89-97 | the position before the first larger path |
| `TableLaws.UpdateModLaw` | filetable/filetable.c:219-265 | updating keeps the table well formed and changes time, size and peers of one path |
| `TableLaws.InsertLaw` | filetable/filetable.c:68-153 | inserting keeps the table well formed and adds or updates one path; dotfiles and over-long addresses are ignored |
| `TableLaws.RemoveLaw` | filetable/filetable.c:156-215 | removing a directory from any well-formed table leaves exactly the entries whose path does not start with its bytes |
| `TableLaws.AddPeerLaw` | filetable/filetable.c:269-313 | a peer is added only to the entry of that path and size, and only if its ip is not listed |
| `TableLaws.RemovePeerAllLaw` | filetable/filetable.c:372-385 | afterwards no entry lists the peer, and nothing else has changed |
| `TableLaws.DropPeerLaw` | filetable/filetable.c:335-369 | removing a peer from an entry removes it and only it |
| `TableLaws.EventMergeKeeps` | filetable/filetable.c:520-548 | any list of events keeps: strictly sorted unique paths, no dotfiles, no ip twice in an entry |
| `TableLaws.LookupsDetermine` | filetable/filetable.c:388-402 | a well-formed table is determined by its answers: it is a finite map |
| `TableLaws.RemoveIsExactIff` | filetable/filetable.c:187-195 | removing a directory removes it and what it contains exactly when no other path continues its name |
| `TableLaws.SiblingIsRemoved` | filetable/filetable.c:187-195 | removing directory `doc` also removes file `document` |
| `FileTables.FileTable.constructor` | filetable/filetable.c:28-42 | a new table is valid and empty |
| `FileTables.FileTable.GetEntry` | filetable/filetable.c:388-402 | finds the first entry with the path, or null |
| `FileTables.FileTable.UpdateMod` | filetable/filetable.c:219-265 | the linked table afterwards holds the updated value; result codes |
| `FileTables.FileTable.AddPeer` | filetable/filetable.c:269-313 | the linked table holds the value with the peer; result codes |
| `FileTables.FileTable.RemovePeerAll` | filetable/filetable.c:372-385 | the loop over all entries removes the peer from each of them |
| `FileTables.FileTable.FileDiff` | filetable/filetable.c:442-516 | the events of the diff, in the reverse order of the files |
| `FileTables.FileTable.FindPlace` | filetable/filetable.c:89-97 | the search for the place of a path ends before the first larger one |
| `FileTables.FileTable.Insert` | filetable/filetable.c:68-153 | relinking the list inserts the entry at its place; the counter stays right; the caller's struct has size 0 afterwards if it is a directory |
| `FileTables.FileTable.RemoveInside` | filetable/filetable.c:190-195 | the loop that removes from the list it walks, through recursive calls, takes from any list exactly the entries that properly extend the path; it terminates because fewer entries are flagged as directories |
| `FileTables.FileTable.RemoveNodes` | filetable/filetable.c:156-215 | on any list: without the entry and what extends it, in order, unless the entry just before a directory is one that extends it; then `prv` is stale, the directory stays as a file and the counter is off |
| `FileTables.FileTable.Remove` | filetable/filetable.c:156-215 | the same in terms of values; a sorted table afterwards holds the value without the entry and its stretch; result codes |
| `FileTables.RemovedIff` | filetable/filetable.c:187-207 | on any list, a path and nothing but what it contains is removed if and only if the path is no directory or the entry just before it is not inside it; otherwise the path stays, as a file |
| `FileTables.SortedIsSound` | filetable/filetable.c:156-215 | in a sorted table it always is, and what goes is what the path is a prefix of |
| `FileTables.DirectoryAfterContent` | filetable/filetable.c:187-207 | in the order in which tables are received, `d/x` before `d`, removing `d` leaves `d` as a file |
| `FileTables.FileTable.EventMerge` | filetable/filetable.c:520-548 | the loop over the events has the effect of applying them one after the other |
| `FileTables.FileTable.Merge` | filetable/filetable.c:427-437 | diff, then apply |
| `FileTables.TableEntry.ContainsPeer` | filetable/filetable.c:317-332 | whether ip and port are listed |
| `FileTables.TableEntry.RemovePeer` | filetable/filetable.c:335-369 | unlinks the first node with ip and port; the counter stays right |
| `FileTables.TableEntry.Clone` | filetable/filetable.c:612-640 | a separate copy with the peers turned around |
| `MergeLaws.EventsLookup` | filetable/filetable.c:520-548 | events on distinct paths act independently |
| `MergeLaws.EventOrderIrrelevant` | filetable/filetable.c:442-548 | so the reversed order of the diff does not matter, nor does any other |
| `MergeLaws.MergeLookup` | filetable/filetable.c:427-548 | diff-then-apply is a per-file join: absent files are created with this peer alone, newer ones replace time, size and peers, equal ones add the peer iff sizes match, older ones and the rest are untouched |
| `MergeLaws.MergeIdempotent` | filetable/filetable.c:427-548 | merging a list twice is merging it once |
| `MergeLaws.RegisterOutcome` | filetable/filetable.c:427-548 | after any registrations each path has the latest version and everyone that offers it |
| `MergeLaws.RegisterOrderIrrelevant` | filetable/filetable.c:427-548 | any two orders of the same registrations give the same entries, times, sizes and peer sets |
| `MergeLaws.VersionsCommuteIff` | filetable/filetable.c:442-548 | exactly when the order of two versions leaves no trace, at any entry or none: new to the table they agree on the kind, on the size when equally old, and the later one is not a directory with a size; otherwise, when both are newer and equally old, they agree on the size |
| `MergeLaws.TwoOrdersAgreeIff` | filetable/filetable.c:427-548 | in any well-formed table two registrations commute exactly if their versions of every common file do at what the table has |
| `MergeLaws.FirstRegistrationCanWin` | filetable/filetable.c:427-548 | with equal times and different sizes the first to register wins |
| `History.LastOp` | filetable/filetable.c:520-548 | how one more report or departure changes what the table says of a path |
| `History.PeersAreHolders` | filetable/filetable.c:219-385 | over every log from the empty table in which no completed download was refused, the peers of an entry are exactly those that wrote it or completed a download of its size and since then were not overwritten, removed or gone |
| `History.PeersAreHoldersIff` | filetable/filetable.c:269-313 | they are so at all times exactly if no completed download was refused because its ip was listed under another port |
| `History.ComebackIsRefused` | filetable/filetable.c:286-293 | a host that comes back under another port before its departure was noticed is refused |
| `History.VersionIsLastWrite` | filetable/filetable.c:219-265 | over every log there is an entry exactly if some write was not followed by a removal, and it has time and size of the last one |
| `History.KindIsFirstWrite` | filetable/filetable.c:219-265 | over every log the entry's kind is that of the first write since it was last absent |
| `TrackerProtocol.NextKeeps` | tracker/tracker.c:62-320 | accept, register, update, keep-alive, hang-up and sweep keep the tracker's invariant |
| `TrackerProtocol.ListedArePresent` | tracker/tracker.c:170-277 | every reachable table is well formed and lists only registered, connected peers of the peer table |
| `TrackerProtocol.SweepEffect` | tracker/tracker.c:285-316 | a sweep keeps exactly the members whose time stamp is at most five seconds old; while some remain each entry keeps its file and exactly those of its peers that are not evicted, otherwise the table is emptied |
| `TrackerProtocol.EmptyingLosesNobody` | tracker/tracker.c:311-316 | when the table is emptied everyone listed was evicted |
| `TrackerProtocol.KeptInOrder` | tracker/tracker.c:287-309 | those kept stay in their order |
| `TrackerHistory.PeerTableIs` | tracker/tracker.c:62-320 | in every reachable state the peer table has exactly the connections that have been accepted and, whenever the tracker swept since then, had sent a message no more than five seconds before; the latest first, each with the ip it was accepted from, the port it registered and the time of its last message, all read off the steps taken |
| `TrackerHistory.SweepKeepsIff` | tracker/tracker.c:287-309 | after a sweep a peer is in the table if and only if it was before and its last register, update or keep-alive message came no more than five seconds ago |
| `TrackerHistory.MessageKeeps` | tracker/tracker.c:223-228 | a message of any of these kinds keeps its sender in the table for the next five seconds |
| `TrackerHistory.UpdateEffect` | tracker/tracker.c:231-247 | an update applies its events one after the other under the ip of the connection and the port it registered: a created file is there with this peer alone, a modified one has the new time and size and this peer alone, a deleted one is gone (with all that a directory's path is a prefix of), a completed one of the same size lists this peer too, all other entries stay |
| `TrackerHistory.RegisterEffect` | tracker/tracker.c:170-199 | a registration joins the list in under the port that the message announces: new files with this peer alone, newer ones with their time and size and this peer alone, equally old ones of the same size with this peer added, everything else as it was |
| `TrackerHistory.HangUpEffect` | tracker/tracker.c:268-271 | a connection that ends is listed nowhere any more, and nothing else changes |
| `TrackerHistory.SweepEffectOnTable` | tracker/tracker.c:285-309 | while somebody is left, a sweep takes those that were silent for more than five seconds off every entry and changes nothing else |
| `TrackerHistory.TableIsTold` | tracker/tracker.c:151-316 | in every reachable state the file table is what the reports and departures in the steps taken since the tracker was last alone make of the empty table |
| `TrackerHistory.FilesAreAsWritten` | tracker/tracker.c:151-316 | so each file has time and size of the last such report that wrote it, and is there exactly if no removal came after |
| `TrackerHistory.HoldersUnlessRefused` | tracker/tracker.c:151-316 | and, unless a completed download was refused, the peers of an entry are exactly those that by these steps hold the file |
| `TrackerHistory.ListedAreHolders` | tracker/tracker.c:151-316 | so it is after every run in which no ip was registered and connected under two ports at once, hosts that leave and come back under another port included |
| `TrackerHistory.RanIffReachable` | tracker/tracker.c:62-320 | the states these theorems speak of are all the reachable ones |
| `PeerTables.PeerTable.Add` | tracker/peertable.c:55-69 | links the peer in at the head |
| `PeerTables.PeerTable.Remove` | tracker/peertable.c:71-103 | unlinks exactly that peer |
| `TrackerServers.Tracker.StartPeer` | tracker/tracker.c:62-83 | takes the accept step |
| `TrackerServers.Tracker.Broadcast` | tracker/tracker.c:135-149 | every peer but the excluded one is sent the table as it is |
| `TrackerServers.Tracker.OnRegister` | tracker/tracker.c:170-218 | takes the register step on the linked tables, acknowledges the peer and sends everyone the new table |
| `TrackerServers.Tracker.OnFileUpdate` | tracker/tracker.c:231-259 | takes the update step on the linked tables and sends everyone else the new table |
| `TrackerServers.Tracker.OnKeepAlive` | tracker/tracker.c:223-228 | takes the keep-alive step |
| `TrackerServers.Tracker.OnHangUp` | tracker/tracker.c:268-271 | takes the hang-up step on the linked tables |
| `TrackerServers.Tracker.EvictExpired` | tracker/tracker.c:287-309 | the loop that takes peers out of the list it walks evicts exactly the expired ones |
| `TrackerServers.Tracker.DoSweep` | tracker/tracker.c:285-316 | takes the sweep step |
| `Wire.MessageArrives` | messaging/segment.c:40-313 | a sent message of any type is received as it was, lists turned around, and exactly its records are consumed |
| `Wire.StreamArrives` | messaging/segment.c:272-313 | messages of any types sent one after the other are received in order |
| `Wire.TwoHops` | messaging/segment.c:40-313 | sent on as it arrived, a message arrives as it was |
| `Wire.TableArrives` | filetable/filetable.c:659-771 | a sent table arrives with its entries and each peer list turned around |
| `Wire.TableArrivesIffCounted` | filetable/filetable.c:659-771 | it does so exactly if `numfiles` is the length of the list |
| `Wire.CutOffUpdate` | messaging/segment.c:40-247 | for example, a message of which only the header arrives is received as an empty one |
| `Wire.CutOffTable` | filetable/filetable.c:659-728 | and a table of which only some entries arrive, however many are missing, is filled up with blank ones |
| `WireCuts.CutArrives` | messaging/segment.c:40-313 | a message of any type cut off after any number k >= 1 of its records is received as the records that arrived say, with zeros for the rest, and nothing is left over |
| `WireCuts.RejectedIff` | messaging/segment.c:272-313 | a message cut off anywhere is rejected if and only if nothing of it arrived |
| `WireCuts.UnnoticedIff` | messaging/segment.c:40-313 | it is received like the whole one if and only if every record that is missing is zero |
| `Wire.ArrivedTableAnswers` | filetable/filetable.c:388-402 | the received table answers every lookup with the same file, though no longer sorted |
| `Wire.ArrivedPeersAnswer` | filetable/filetable.c:317-332 | and with the same set of peers |
| `Wire.ArrivedFilesMerge` | filetable/filetable.c:427-437 | merging a registration as it arrives gives what merging it as sent would |
| `Messaging.Stream.SendTable` | filetable/filetable.c:730-771 | walking the linked table writes its encoding |
| `Messaging.Stream.ReceiveTable` | filetable/filetable.c:659-728 | reads what the decoding says into a new valid linked table, zeroed structs after the end of the stream included |
| `Messaging.Stream.ReceivePeers` | filetable/filetable.c:702-719 | rebuilds the peer list by head insertion |
| `Messaging.Stream.SendInfos` | monitor/fileinfo.c:134-145 | writes the encoding of the list |
| `Messaging.Stream.ReceiveInfos` | monitor/fileinfo.c:108-131 | reads the list, turned around |
| `Messaging.Stream.SendEvents` | monitor/fileevent.c:101-122 | walking the linked list writes its encoding |
| `Messaging.Stream.ReceiveEvents` | monitor/fileevent.c:57-99 | reads the list, turned around |
| `Messaging.Stream.SendRegister` | messaging/segment.c:138-173 | writes the message, its count equal to the length of the list |
| `Messaging.Stream.SendFileUpdate` | messaging/segment.c:196-229 | writes the message, its count equal to the length of the linked list |
| `Messaging.Stream.SendTableUpdate` | messaging/segment.c:58-85 | writes the message |
| `Messaging.Stream.SendRegisterAck` | messaging/segment.c:93-116 | writes the message |
| `Messaging.Stream.SendKeepAlive` | messaging/segment.c:252-263 | writes the message |
| `Messaging.Stream.RecvMessage` | messaging/segment.c:272-313 | reads a header and what belongs to its type, as the decoding says |
| `EventQueues.EventQueue.Add` | monitor/eventqueue.c:54-83 | appends at the tail; head, tail and length stay right |
| `EventQueues.EventQueue.RemoveAll` | monitor/eventqueue.c:87-101 | hands out the whole list in order and leaves the queue empty |
| `EventQueues.EventQueue.Get` | monitor/eventqueue.c:104-121 | once there is something, hands out all of it |
| `EventQueues.ObserverGetEvents` | monitor/fileobserver.c:165-186 | the observer's list has the latest event first, and the new directories get watched in order |
| `EventQueues.Monitor.Enqueue` | monitor/monitor.c:127-165 | the loop queues, in the order of the list, every event that is no dotfile, no creation or change of a path in `ignore_modify` and no deletion of a path in `ignore_delete`, as often as it occurs, and no other, though queueing cuts their links |
| `EventQueues.Monitor.HandleBatch` | monitor/monitor.c:119-168 | one turn of the monitor: the same of what was read, and each new directory is watched |
| `EventQueues.UnignoredExactly` | monitor/monitor.c:127-155 | which events the filter lets through, by action and set |
| `EventQueues.BatchExactly` | monitor/monitor.c:119-168 | which of the events read it lets through, and how often |
| `Silence.StaysTidy` | peer/peer.c:226-280 | at any time in a run, with downloads completing in between, the path of every download under way is marked, and has no other download |
| `Silence.OwnWritesAreSilent` | monitor/monitor.c:127-155 | so the peer does not report what its downloads write, still reports a deletion of such a file by its user, and reports everything of paths that are neither hidden nor marked |
| `Pipeline.UnignoredReverse` | monitor/monitor.c:127-165 | filtering and turning around can be exchanged |
| `Pipeline.QueueBackwards` | monitor/monitor.c:119-168 | the queue read backwards is the last batch, then the one before it, and so on, each in chronological order |
| `Pipeline.DrainArrives` | monitor/fileevent.c:57-122 | that is the list the tracker merges after a drain |
| `Pipeline.Report` | peer/peer.c:401-410 | draining the queue writes one message that arrives so |
| `Pipeline.OneBatchChronological` | peer/peer.c:401-410 | the events of a drain that were all read at once arrive in chronological order |
| `Pipeline.ChronologicalIff` | peer/peer.c:401-410 | if no event occurs twice in the drain, they do so exactly then |
| `Pipeline.RepeatedBatch` | peer/peer.c:401-410 | two equal batches arrive in an order that looks chronological |
| `Pipeline.DeletionOvertakesCreation` | filetable/filetable.c:520-548 | a file created and deleted in two batches of one drain stays in the tracker's table |
| `Trees.WalkInOrder` | monitor/monitor.c:96-99 | in the walk of a tree no path occurs twice, nothing follows what it contains, and a regular file contains nothing |
| `Trees.WalkLevels` | monitor/monitor.c:61-68 | the level of the walk is the depth of the path |
| `Trees.CurrentFiles` | monitor/monitor.c:61-108 | the callback's head insertion yields the listing: last visit first, nothing deeper than the limit |
| `Reconciles.DeletedIff` | peer/peer.c:342-353 | a local file is deleted exactly if the table does not have it and it is not a dotfile |
| `Reconciles.FetchedIff` | peer/peer.c:353-396 | an entry is downloaded exactly if its file is not listed, or the table does not list this peer and the local time is smaller or the sizes differ |
| `Reconciles.EachOnce` | peer/peer.c:333-399 | no path is dealt with twice in a run |
| `Reconciles.ListedComeFirst` | peer/peer.c:340-396 | what concerns a listed file comes before what is missing |
| `Deletion.TreeIsDescribed` | monitor/monitor.c:96-99 | the walk of every tree meets what the deletion theorems assume of a walk |
| `Deletion.DeletionOutcome` | peer/peer.c:287-353 | after the first loop, for every tree and table, a path is there exactly if it is kept or too deep or contains something that is |
| `Deletion.DeletesExactlyIff` | peer/peer.c:287-353 | the pass removes exactly what is not kept, so that every rmdir met an empty directory, if and only if nothing to be removed is too deep or contains something kept |
| `Deletion.NestedIsNotDeleted` | peer/peer.c:287-296 | a directory with a file six levels deep stays although the table is empty |
| `Deletion.ClosedTableDeletesExactly` | peer/peer.c:287-353 | with a parent-closed table and a tree within the depth limit it does |
| `Settling.AllComplete` | upload_download/download.c:450-462 | when every download of an entry with peers has ended, in whatever order, each path has the content that was to be: the fetched file, or for an entry without peers the truncated one |
| `Settling.Serialised` | peer/peer.c:226-280 | downloads that complete during the run might as well complete after it: all that differs is the order of the reports |
| `Fixpoint.RunOutcome` | peer/peer.c:226-399 | what a run and its downloads leave at each path |
| `Fixpoint.ReceivedTableOrder` | filetable/filetable.c:659-728 | in a received table everything comes before the directory that contains it |
| `Fixpoint.TooDeepIsFetchedAgain` | peer/peer.c:375-396 | an entry deeper than the listing goes is downloaded by every run |
| `Fixpoint.SixLevelsAreFetchedAgain` | peer/peer.c:375-396 | such as one six levels deep |
| `Fixpoint.OwnVersionStays` | peer/peer.c:353-367 | if the table lists this peer at an entry whose file is listed, no chore of the plan has that path, and after the run and any downloads that complete meanwhile or later the file is what it was, whatever its time and size |
| `Fixpoint.OtherVersionIsFetchedIff` | peer/peer.c:353-367 | if it does not, the entry is fetched if and only if the local time is smaller or the sizes differ |
| `Fixpoint.LocalEditStays` | peer/peer.c:353-367 | a file just edited here is not overwritten with the version the table still has |
| `Fixpoint.SecondPlan` | peer/peer.c:333-399 | with all parents present, what a second run plans is to delete what contained something that stays, and to fetch what looks stale on the disk it finds |
| `Fixpoint.NoMarksAreLeft` | peer/peer.c:226-280 | with all parents present, nothing in the way and nothing lost, no download is left under way and no ignore mark is left |
| `Fixpoint.SettledAt` | peer/peer.c:333-399 | with all parents present, afterwards every entry is on disk and current unless a directory is in its way or nobody has it, and nothing else is there but what survives the deletion pass |
| `Fixpoint.EachFetchIsReported` | peer/peer.c:183-210 | when all downloads have completed, DOWNLOAD_COMPLETE has been sent exactly once for every file that was fetched |
| `Fixpoint.FetchedIsListed` | filetable/filetable.c:520-548 | and the tracker's table, whatever it has become, then lists this peer for every such file whose size is the same |
| `Fixpoint.OrphanStaysMissing` | peer/peer.c:257-275 | the first entry whose directory is missing is still missing after the run and its downloads |
| `Fixpoint.NewDirectoryIsGood` | peer/peer.c:333-399 | a table and a peer that meet every assumption of `FixpointIff` but that the directory of each missing file is there |
| `Fixpoint.NewDirectoryIsNotCompleted` | peer/peer.c:257-275 | a new directory with a file in it: the directory is made, the file is not fetched, both stay marked, and fetching it again changes nothing |
| `Fixpoint.OldDirectoryIsMarked` | peer/peer.c:226-256 | a directory that is older than in the table is marked, and nothing else happens |
| `Fixpoint.LostFileIsTruncated` | upload_download/download.c:84-186 | an older copy of a file whose last holder has left is truncated, marked, and never filled again |
| `Fixpoint.SecondRunIsIdle` | peer/peer.c:226-399 | under these five conditions on the table and the disk before the run, a second run plans nothing whatever times the directories have by then |
| `Fixpoint.FixpointIff` | peer/peer.c:226-399 | a second run on what the first one left plans nothing if and only if, before the first run, no entry is too deep, the directory of every missing file is there, nothing to be deleted contains something that stays, no directory in the way looks stale, and no file that nobody has is missing or stale |
| `Peers.Peer.DeleteFile` | peer/peer.c:287-331 | removes the file, or the directory if it is empty; the delete mark is gone again |
| `Peers.Peer.DownloadFile` | peer/peer.c:226-280 | the directory, marks and downloads afterwards, on every branch |
| `Peers.Peer.FileExists` | peer/peer.c:376-389 | the inner search loop: whether the listing has the path |
| `Peers.Peer.UpdateFiles` | peer/peer.c:341-367 | the first loop carries out the plan for the local files |
| `Peers.Peer.FetchMissing` | peer/peer.c:373-396 | the second loop carries out the plan for the missing ones |
| `Peers.Peer.UpdateFromTable` | peer/peer.c:333-399 | listing, first loop and second loop carry out the plan |

## Left out

- Download.State: the slot of peer i and stream j is one number, i * stream_num + j; the two nested loops over them are one scan.
- Download.Advanced: a thread whose claim fails and that goes on with an uninitialised socket is a step of the model, shown never to be enabled; connects that fail, and threads left without a socket because of them, are excluded.
- Download.SaverStep: freeing of chunk buffers and queue mutexes is not modelled, nor is the saver's use of the entry after its callback.
- FileTables.FileTable: deallocation; a removed node keeps its link, which on a garbage-collected heap is the successor that the source reads, and writing to a removed node changes nothing in the list. NULL arguments and failed allocations.
- FileTables.FileTable.EventMerge: that an insertion sets the size of a directory to 0 in the list of events too, where only printing reads it.
- FileTables.FileTable.FileDiff: the lists of files and of new events are sequences; only the tables, the peer lists, the peer table and the event queue are linked.
- Wire.TableArrives: struct layout, structs that arrive in part, negative counters of a table on the wire, and structs read as another type than they were sent as; the model's receive then fails.
- TrackerServers.Tracker: the listening socket and shutdown, and sends that fail; each handler is one atomic step, so locks are not modelled.
- EventQueues.EventQueue.Get: waiting is the precondition that the queue is not empty; mutex and condition variable, including the second unlock, are not modelled.
- EventQueues.Monitor: the ignore sets are multisets of paths instead of linked lists, and the array of watched directories has no bound of 255; decoding of inotify events is the caller's, who passes the decoded events.
- Reconciles.Download: the fallback for a missing directory opens the file relative to the working directory of the process; the model records the path and not what becomes of that file.
- DownloadService.ThreadIsServed: says nothing of a thread after a failed call or an answer cut short.
- Peers.Peer: the effect of a completed download is that of the download model, which is not composed with the class.
- eventqueue_remove_name has no caller; monitor/fileobserver-mac.c, printing, signals, process start and the heartbeat are not part of this model.
