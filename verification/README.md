# A verified model of EveBox's hard parts

This project models, in Dafny, the parts of EveBox whose correctness does not show in any
single function: the extraction of packets from rotating captures, the ingestion of EVE
spool files across crashes, the agent's job protocol and the server's registry of agents,
the query language and its translation to SQL, the socket input, the packets made from
event payloads, and the escaping of JSON for a header.

`dafny verify dfyconfig.toml` checks everything.

| files | component |
|---|---|
| `Output`, `PcapFormat`, `PcapMerge`, `PcapFetch`, `PcapExtract`, `PcapWanted`, `PcapSpool` | pcap extraction (`src/pcap`, `src/util/pcap.rs`) |
| `EveIngest`, `EveSpool`, `EveProcessor` | EVE spool ingestion (`src/eve`, `src/bookmark.rs`) |
| `AgentJobs`, `AgentResults`, `AgentUpload`, `AgentRegistry` | agent jobs, upload body and registry (`src/agent/channel.rs`, `src/server/agents.rs`) |
| `QueryParser`, `QueryWriting`, `SqlValues`, `SqlLike`, `SqlBuilder`, `SqlPieces`, `SqlText`, `SqlSentence`, `SqlTranslate` | query strings and their SQL (`src/queryparser.rs`, `src/sqlite/builder.rs`) |
| `SocketIngress` | the EVE socket input (`src/eve/socket.rs`) |
| `Checksum`, `AsciiJson` | payload packets (`src/util/pcap.rs`), header JSON (`src/agent/channel.rs`) |
| `Common` | shared vocabulary |

## How the components are modelled

**Extraction.** A candidate file has vanished, or meets the file-descriptor limit when it is opened,
or is a capture with a link type and packets. Which packets a filter matches and whether it compiles
for a link type are given functions (`Bpf`). The clock is a function that says, for each call
of `live`, whether the run goes on, was cancelled or met its deadline; the periodic flush may
happen at any turn of the loop. The output is the chunking writer of an upload, or any other
writer, which accepts every write or may fail in the middle of one. `Full` is the reference:
repeatedly take the least (time, group) head of the groups' matching packets. `Fetch` runs the
program's cursors and heap against it. What a request asks for is said once more, of packets
alone, in `PcapWanted`, which uses none of the engine's own tests; the reference emits exactly
that.

**Ingestion.** `EveIngest` is a transition system over the directory, the committed records,
the bookmark and one process that can die at any step and be started again. `EveProcessor`
holds the imperative reader and processor; every method is proved to make only steps of that
system, with Suricata appending and rotating in between. A commit succeeds and empties the
queue, or fails and keeps it. A host may be `quiet`: Suricata does nothing and no file operation
fails; of such a host is proved what is done, not only that it is safe.

**Jobs.** Every `select!` arm, spawn, panic, cancellation and message is one step of
`AgentJobs`; `AgentJobs.Connection` is the connection's object, proved to follow those steps.
`AgentResults` says of whole runs which result a job reports, from what happened to it.
`AgentUpload.Upload` runs a whole upload: `Fetch` writes to the chunking writer of `Output`,
and the other threads receive, poll, cancel or go away whenever the writer turns to the
channel, which is all that the two sides share.

**Queries.** What a query asks of a row is said from its keys and values as written: a value
stands for the 64-bit integer that it writes in decimal, or else for its text, and a dotted key for
the path that its parts make. A WHERE condition is a constructor with a three-valued meaning over a
row, and with its SQL text. What the builder means is proved of the constructors; what it says is the text,
which is read back the way SQLite reads it, literals between apostrophes first. Placeholders take
arguments by position. LIKE is defined character by character.

## Findings

- The at-least-once guarantee needs Suricata not to append to a file between the reader's end
  of file and its look for a newer one. `EveIngest.RaceLosesARecord` is a run of the program
  that loses a record otherwise, and deletes its file; `EveIngest.SwitchIsSafeIff` says of
  every switch when all runs that go on from it are safe, and `EveIngest.CleanRunsAreSafe`
  that runs with only such switches are.
- A name can pass from one key to another: through a holder without a key
  (`AgentRegistry.KeyPassesThroughAnUnkeyedHolder`) or a removal, and in no other way
  (`AgentRegistry.KeyPassesOnlyThroughAGap`, `AgentRegistry.AnotherKeyMayFollowIff`).
- Five callers apply a query string without joining the DNS tables
  (`src/sqlite/eventrepo/agg.rs:57`, `:167` and `:192`, `src/sqlite/eventrepo/stats.rs:71`,
  `src/server/api/count.rs:88`). Their statement refers to columns that are not there exactly if
  the query has an unnegated search by `dns.rrname` or a key below `dns.queries.` or
  `dns.answers.` (`SqlBuilder.WithoutJoinsIff`); `dns.rrname:x` is one
  (`SqlBuilder.RrnameNeedsAJoin`).
- Without full-text search, a search and its negation are complements only if they are text
  searches: free text (`SqlBuilder.TextSignsAreComplementsIff`) and the keys `@ip` and `@mac`.
  `SqlBuilder.SignsAreComplementsIff` says for every key which events neither sign selects, and
  which both do; an event whose only name is in `dns.queries` is selected by neither sign of
  another name (`SqlBuilder.OtherNameInQueriesOnly`).
- Keys are spliced into the SQL text as they are. The text says what was meant exactly if no
  spliced key has an apostrophe in it (`SqlTranslate.QueryIsSaidIff`; the keys below
  `dns.authorities` and `dns.additionals` are spliced only when negated). The query `a'b:c` ends
  inside a literal that has swallowed its placeholder (`SqlTranslate.ApostropheInAKey`).
- Full-text searches are put between double quotes as they are. The index is asked for the texts
  searched for exactly if none has a double quote in it (`SqlTranslate.PhrasesAreSaidIff`).
- `%` and `_` in a text search are not escaped. The pattern matches exactly the events that
  contain the text if and only if the text has neither (`SqlLike.PatternMeansContainsIff`).

## Model

| member | source | states |
|---|---|---|
| PcapFormat.StreamSnoc | src/pcap/writer.rs:49-72 | a further packet appends its record, after the file header if it is the first, and changes nothing already written |
| PcapFormat.StreamPrefix | src/pcap/writer.rs:49-72 | the stream of fewer packets is a proper prefix of the stream of more |
| PcapFormat.PcapWriter.WritePacket | src/pcap/writer.rs:49-72 | the output goes from the stream of the packets so far to the stream with this one, growing by what was predicted; a failing output holds something in between |
| PcapFormat.FileHeaderBytes | src/util/pcap.rs:280-293 | the file header byte by byte: magic number and version, little-endian, no time zone, the largest snap length, and the link type last |
| PcapFormat.StreamParsesBack | src/util/pcap.rs:280-318 | a reader of classic pcap gets the link type of the first packet, the snap length, and every packet's record in order from the emitted bytes |
| PcapFormat.ReadBackIsExactIffFieldsFit | src/util/pcap.rs:307-318 | what is read back equals what was written exactly if seconds, microseconds and lengths fit 32 bits |
| PcapMerge.MergeStep | src/pcap/fetch.rs:562-617 | any least head is the one the reference merge takes next; a head of another link type costs its group the rest of the file and emits nothing |
| PcapMerge.MergeEmits | src/pcap/fetch.rs:562-617 | once the output has a link type, each group contributes its matching packets of that link type, in order and without omission |
| PcapMerge.MergeEmitsExactly | src/pcap/fetch.rs:562-617 | the first packet emitted decides the link type; each group contributes exactly its packets of that type; nothing is emitted only if there is nothing |
| PcapMerge.MergeSorted | src/pcap/fetch.rs:539-552 | if each group is in time order so is the output, ties in group order |
| PcapMerge.SortedInterleavingIsUnique | src/pcap/fetch.rs:539-552 | two outputs in that order with the same contribution from each group are equal |
| PcapFetch.TallyCountsGroups | src/pcap/fetch.rs:323-410 | scanned and vanished files add up to the candidates |
| PcapFetch.StampIsKey | src/pcap/fetch.rs:147-151 | the merge key of a packet with a representable time is that time |
| PcapFetch.Control.Live | src/pcap/fetch.rs:57-78 | each look finds what the clock says: the run goes on, or is stopped for that reason; once stopped it looks no more and stays so |
| PcapFetch.OpenGroupFile | src/pcap/fetch.rs:323-410 | opens a file if it is a capture whose filter compiles for its link type, and counts it once as scanned or vanished; fails only at the descriptor limit |
| PcapFetch.GroupCursor.OpenNext | src/pcap/fetch.rs:242-320 | moves to the next file with what the cursor has yet to deliver unchanged |
| PcapFetch.GroupCursor.ReadNext | src/pcap/fetch.rs:242-320 | one more packet of the open file is pending, skipped or at the end, with what the cursor has yet to deliver unchanged |
| PcapFetch.GroupCursor.Refill | src/pcap/fetch.rs:242-320 | unless stopped, the cursor ends with its next matching packet pending, or with nothing left at all; what it has yet to deliver is unchanged and files are accounted for; it fails only after a failed flush or at a file that the descriptor limit keeps closed, and passes none of those |
| PcapExtract.Extraction.constructor | src/pcap/fetch.rs:514-547 | nothing is open, pending, counted or written |
| PcapExtract.Extraction.RefillCursor | src/pcap/fetch.rs:546-561 | keeps the invariant: the heap holds exactly one entry, with the right key, for each cursor with a pending packet |
| PcapExtract.Extraction.Emit | src/pcap/fetch.rs:586-607 | writes the popped packet if it fits under the cap; otherwise nothing is written and the run is truncated |
| PcapExtract.Extraction.TakePacket | src/pcap/fetch.rs:566-607 | the popped cursor has a pending packet, and it is the reference's next one; it is emitted, or its file is given up for its link type |
| PcapExtract.Extraction.Consume | src/pcap/fetch.rs:562-607 | taking the popped packet keeps the invariant but for that cursor, and leaves strictly less to merge |
| PcapExtract.Extraction.Turn | src/pcap/fetch.rs:562-620 | one turn keeps the invariant and gets strictly nearer the end, or ends the loop for a reason it states |
| PcapExtract.Extraction.Prime | src/pcap/fetch.rs:546-561 | every cursor is refilled before the first packet is written |
| PcapExtract.Extraction.Finish | src/pcap/fetch.rs:621-643 | what the outcome says of packets, bytes, files and truncation is so, and an empty outcome means an empty unlimited run |
| PcapExtract.Fetch | src/pcap/fetch.rs:451-643 | whatever stops the run, and at every failure, the output is a prefix of the unlimited run's bytes and never over the cap; only what the last look at the clock found, or the cap, cuts it short, and the outcome says which; the accounting is exact; an I/O error means that a write or flush failed or that a file met the descriptor limit, and a run that ends by itself met none; a flow filter that does not compile for Ethernet ends the run at once |
| PcapExtract.UnlimitedRunEmitsExactlyTheMatches | src/pcap/fetch.rs:562-617 | the reference emits, of every group, exactly the entries of its files of the first packet's link type, and nothing only if no file has one; what those are is said by the next three rows |
| PcapWanted.EmittedIsWanted | src/pcap/fetch.rs:242-320 | every packet emitted by the unlimited run is one of a capture of its group, of the output's link type, with its microseconds within the window, accepted by the expression or by the flow's tagged form, or by the plain flow where the tagged form does not compile; and it is merged by its own time |
| PcapWanted.WantedIsEmitted | src/pcap/fetch.rs:242-320 | and each group's part of the output is the sequence of all such packets of its captures of that link type, file by file, each as often as it occurs |
| PcapWanted.NothingEmittedIff | src/pcap/fetch.rs:242-320 | nothing is emitted exactly if no capture of any link type holds such a packet |
| PcapWanted.WhatAFetchReports | src/pcap/fetch.rs:621-643 | an I/O error apart, a fetch ends normally exactly if it was stopped or some packet was wanted; otherwise it blames the expression exactly if there are captures and it compiles for none, reports no file exactly if there is no capture, and no match in every other case; and the numbers of captures and vanished files are right |
| PcapExtract.UnlimitedRunIsTheSortedInterleaving | src/pcap/fetch.rs:539-617 | if each group's matches are time-sorted, the output is the one time-ordered interleaving of those contributions with ties in group order |
| PcapSpool.SortSorts | src/pcap/spool.rs:47-49 | a group's files in order of rotation time, then path, none lost |
| PcapSpool.KeepsIff | src/pcap/spool.rs:51-71 | a file passes the pruning test exactly if it starts no later than the margin after the window and the next file no earlier than the margin before it; a side not given drops nothing |
| PcapSpool.LoadGroup | src/pcap/spool.rs:47-72 | what pruning keeps is a contiguous run of the sorted group, and a file is in it exactly if it passes the test |
| PcapSpool.DroppedIsOutside | src/pcap/spool.rs:51-71 | no packet of a dropped file lies in the requested window, if packets keep to their file's rotation within the margin |
| PcapSpool.PruningIsInvisible | src/pcap/spool.rs:51-71 | then the kept run of a group has the same matching packets as the whole group |
| PcapSpool.SameMatchesSameOutput | src/pcap/fetch.rs:483-512 | groups with the same matching packets give the same unlimited run |
| PcapSpool.CapDeterminesOutput | src/pcap/fetch.rs:586-594 | the cap alone determines where an otherwise unstopped run ends |
| PcapSpool.LoadFiles | src/pcap/spool.rs:30-81 | every loaded group has the matching packets of the group found, and no file that was not in it |
| PcapSpool.FetchSpool | src/pcap/fetch.rs:479-512 | a fetch over the pruned groups does what `Fetch` says of them, and their unlimited run is that of the groups before pruning |
| PcapSpool.PrunedFetchAgrees | src/pcap/spool.rs:51-71 | under any cap, a fetch with pruning and one without emit the same bytes |
| PcapSpool.Collect | src/pcap/spool.rs:90-126 | each group holds exactly its files in walk order; one name that cannot be parsed makes the result unusable |
| EveIngest.StepInv | src/eve/processor.rs:55-223 | every step of reading, committing, bookmarking, deleting, dying, restarting and rotating keeps the invariant |
| EveIngest.AtLeastOnce | src/eve/processor.rs:186-223 | in every run with crashes and restarts anywhere, every record before the bookmarked line of the bookmarked file, and of every earlier file, is committed, and a deleted file had all its records committed |
| EveIngest.CaughtUpMeansAllCommitted | src/eve/processor.rs:137-178 | a reader at the end of the newest file with nothing in hand or queued has committed every record there is |
| EveIngest.StepCore | src/eve/reader.rs:197-222 | with the race too, a step that leaves no record behind keeps all of the invariant but that a looking reader is at the end of its file |
| EveIngest.CleanRunsAreSafe | src/eve/reader.rs:197-222 | a run with the race is safe in every state as long as each switch leaves no record behind that is neither held nor committed |
| EveIngest.SwitchIsSafeIff | src/eve/reader.rs:197-222 | whatever happens after a switch, the bookmark and the deletions stay safe, exactly if the switch left no such record |
| EveIngest.BookmarkPasses | src/eve/processor.rs:186-223 | after a switch that did leave one, opening the file, committing and writing the bookmark passes it uncommitted |
| EveIngest.RaceLosesARecord | src/eve/reader.rs:197-244 | a run of the program: a record is appended between the end of file and the look for a newer file, the still empty newer file is read to its end, the checkpoint writes the bookmark past the record and deletes its file |
| EveSpool.NamesAreTheirTimes | src/eve/spool.rs:24-47 | two file names of one stream with one timestamp are the same name |
| EveSpool.ParseNameIff | src/eve/spool.rs:24-47 | a name belongs to a stream at a time exactly if it is the stream, not empty before its last dot, and ten digits that are that time |
| EveSpool.NewerFile | src/eve/spool.rs:71-98 | the oldest, or latest, of the files of the same stream that are newer, and none only if there is none |
| EveSpool.Group | src/eve/spool.rs:147-176 | one input per stream: of the kind met first, and for a spool its oldest file, or its newest in tail mode |
| EveSpool.GroupStartsAtOldest | src/eve/spool.rs:147-176 | the file chosen for a stream is the oldest in the directory, where the processor starts |
| EveSpool.UnreadAtSwitch | src/eve/reader.rs:197-255 | at the end of a file, what is unread is what is unread at the start of the next newer one |
| EveSpool.UnreadFromOldest | src/eve/spool.rs:147-176 | what is unread at the start of the oldest file is everything, each file once, in timestamp order |
| EveSpool.MayDieAndStart | src/eve/processor.rs:55-107 | whenever it likes, the process may die and start again at the oldest file, or where a bookmark of a present file says |
| EveSpool.CrashLosesNothing | src/eve/processor.rs:55-107 | and every record not committed by then is still on disk and not before the place where the new process reads on |
| EveProcessor.EveReader.NextLine | src/eve/reader.rs:165-195 | takes the next line and counts it, or nothing at the end; a line that is not UTF-8 is passed but not counted |
| EveProcessor.EveReader.SwitchSpoolFile | src/eve/reader.rs:246-255 | the reader is at the start of the new, unopened file, the old one recorded as completed only if finished files are to be deleted |
| EveProcessor.Processor.GotoLineno | src/eve/reader.rs:94-106 | opens the file and skips the given number of lines, or all there are; on a quiet host it succeeds exactly if none of them is not UTF-8, and ends at that line or the end, or otherwise right after the first line that is not UTF-8 |
| EveProcessor.Processor.NextRecordInner | src/eve/reader.rs:261-294 | the next record of the current file, blank lines passed over, or its end, or an error; the events ahead lose exactly what is reported |
| EveProcessor.Processor.Look | src/eve/reader.rs:197-222 | moves to the oldest newer file in the directory, if there is one, and stays otherwise; the events ahead stay |
| EveProcessor.Processor.NextRecord | src/eve/reader.rs:197-222 | the next record of the stream across files; on a quiet directory end of file is reported only when no newer file is left |
| EveProcessor.Processor.ReadAll | src/eve/reader.rs:197-294 | reading a quiet directory from its oldest file reports the events of all its files, each file once and oldest first |
| EveProcessor.Processor.WriteBookmark | src/eve/processor.rs:207-223 | on success the bookmark is the reader's file and line; after a failed write it is torn or what it was, and without an open file what it was; on a quiet host it succeeds exactly if there is a bookmark file and an open reader |
| EveProcessor.Processor.DeleteCompleted | src/eve/reader.rs:228-244 | only completed files are deleted, on a quiet host all of them, and no failed deletion is retried |
| EveProcessor.Processor.Checkpoint | src/eve/processor.rs:201-205 | a file is deleted only with the bookmark that passes it already written; on a quiet host with a bookmark file and an open reader, the bookmark is then the reader's place and every completed file gone |
| EveProcessor.Processor.Commit | src/eve/processor.rs:186-199 | retried until the sink has everything queued, and checkpointed only then, with what that says of a quiet host |
| EveProcessor.Processor.InitFromBookmark | src/eve/processor.rs:55-93 | without a bookmark of a present file the reader is left at the oldest file; success puts it in the bookmarked file past the bookmarked lines, or at its end if it has fewer; on a quiet host a bookmark of a present file is always used, and it succeeds unless one of the lines to be skipped is not UTF-8 |
| EveProcessor.Processor.StartUp | src/eve/processor.rs:95-107 | after the start a quiet host has ahead of the reader exactly the events from the bookmarked line of the bookmarked file on, or without a bookmark all events |
| EveProcessor.Processor.NothingBeforeTheBookmark | src/eve/processor.rs:95-107 | a reader that resumes at a bookmark submits no record from before it |
| EveProcessor.Processor.Turn | src/eve/processor.rs:119-174 | a turn on a quiet host deals with exactly the next event ahead, submitting it if it is a record, and finds nothing only when nothing is ahead, and then leaves nothing queued; what was submitted is always what is committed and what is queued |
| EveProcessor.Processor.AtEof | src/eve/processor.rs:137-168 | leaves nothing queued; on a quiet host the events ahead stay, and if there was anything to commit or any finished file the bookmark is the reader's place |
| EveProcessor.Processor.Run | src/eve/processor.rs:95-179 | a run killed after any number of turns goes on from the run before it as a run of the transition system, so its bookmark and deletions are safe, and what it submitted is what was committed and fewer than 100 records queued; on a quiet host it submits, in order, exactly the records of the events that it has got through since the bookmark, none from before it, and given more turns than there are events it gets through all of them and has committed all; a oneshot run then ends, with every record of the stream committed |
| AgentJobs.StepInv | src/agent/channel.rs:271-349 | every message, connection end, worker, producer and supervisor step keeps the invariant |
| AgentJobs.Reachable | src/agent/channel.rs:100-136 | the invariant holds in every state of every run, over any number of connections |
| AgentJobs.AtMostOneProducer | src/agent/channel.rs:684-752 | at most one producer runs across all connections, and none of a job whose table entry is gone |
| AgentJobs.TablesAreTheUnsettledJobs | src/agent/channel.rs:497-578 | each connection's table names exactly its jobs without a result, one each, at most 16; only the live connection has uncancelled ones |
| AgentJobs.OneResultPerJob | src/agent/channel.rs:565-595 | a job's result, once there, never changes, and once sent or discarded stays so |
| AgentJobs.ResultsReachTheirConnection | src/agent/channel.rs:326-348 | in every run the results written to a connection are those of its own jobs, each written once, while the connection lasts; a result not written there is discarded |
| AgentJobs.ResultsAreRight | src/agent/channel.rs:950-1011 | a result is reported only with the producer gone; NoMatch and NoCandidateFiles only without output and upload; Complete only with its output uploaded, or with none of a truncated run without packets |
| AgentResults.ResultIsDecided | src/agent/channel.rs:562-1011 | in every run a job with a result has had its worker finish before, once, and what had happened to the job by then decides the result, both ways: Complete, NoMatch and NoCandidateFiles exactly after the producer's own such end with the job not cancelled, no upload failed, no panic and no inverted request; Cancelled exactly if it was cancelled, without panic and inversion; Error in every other case and no other; the upload's status exactly from whether it began and how it ended |
| AgentResults.CancelledInTimeIsReported | src/agent/channel.rs:754-815 | a job cancelled before its worker finishes is reported cancelled, unless its worker panics or the request was inverted, and then an error |
| AgentResults.UploadedIsReported | src/agent/channel.rs:769-867 | a started job comes to Complete with its upload complete, and to an error with its upload failed |
| AgentResults.NothingWrittenIsReported | src/agent/channel.rs:765-767 | a started job whose extraction writes nothing comes to the result that the extraction ended with |
| AgentResults.CancelledIsReported | src/agent/channel.rs:699-711 | a cancelled job comes to Cancelled from each of its phases, and an inverted one to an error |
| AgentResults.PanicIsReported | src/agent/channel.rs:562-605 | a worker that panics, in whatever phase, leads to an error once its producer is gone |
| AgentResults.ResultCanBeDelivered | src/agent/channel.rs:326-342 | while its connection lasts, a settled job's result can be written to it |
| AgentJobs.OnlyServerOrDisconnectCancels | src/agent/channel.rs:422-487 | a job is cancelled by the server naming its id and token, or by the end of its connection, and by nothing else |
| AgentJobs.EveryJobCanMove | src/agent/channel.rs:684-926 | a job whose result is neither sent nor discarded has a step of its own, but for waiting for the extraction permit |
| AgentJobs.StepsAreBounded | src/agent/channel.rs:684-926 | in any run a job takes at most nine steps besides writing chunks, whatever happens meanwhile, and once it has taken as many as its state allows its result is sent or discarded |
| AgentJobs.StillIffAllSent | src/agent/channel.rs:549-595 | in every reachable state some job can take such a step exactly if some job's result is neither sent nor discarded, the holder of the permit included |
| AgentJobs.Connection.AcceptMessage | src/agent/channel.rs:377-405 | exactly one hello comes first, requests need the negotiated capability, unknown messages are tolerated |
| AgentJobs.Connection.TryStart | src/agent/channel.rs:497-532 | a new id is entered if the table has room; a known one is a duplicate or, with another token, a conflict |
| AgentJobs.Connection.HandleMessage | src/agent/channel.rs:422-487 | the connection's new state, table and cancellations are those of the effect of the message |
| AgentJobs.Connection.Receive | src/agent/channel.rs:299-312 | an object that stands for the agent's latest connection stands, after a message and the end a fatal one brings, for that of the agent after the protocol's step |
| AgentJobs.Connection.Settle | src/agent/channel.rs:565-577 | removing by id and token removes the settled job's own entry, as the protocol's step does |
| AgentJobs.Connection.End | src/agent/channel.rs:343-348 | cancelling what is in the table cancels the jobs that the protocol's step cancels |
| Output.Channel.TrySend | src/agent/channel.rs:1023-1060 | a chunk is queued exactly if the receiver is there and the channel, of eight, has room |
| Output.Channel.PollNext | src/agent/channel.rs:645-682 | yields the chunk at hand and then those queued, in order, counting them; ends normally only with the sender gone and nothing left; yields nothing after an end or a cancellation |
| Output.Channel.PollToEnd | src/agent/channel.rs:645-682 | polled on after the sender is gone, an uncancelled stream ends normally, its body being everything sent |
| Output.Sink.Push | src/agent/channel.rs:1023-1060 | the buffer becomes one chunk, unless it is empty; it fails only with the receiver gone or the channel full |
| Output.Sink.Write | src/agent/channel.rs:1062-1082 | sent chunks and buffer are always the bytes accepted; the first bytes are sent before the first write returns; after a failure what was sent is a prefix of what was accepted |
| Output.Sink.Flush | src/agent/channel.rs:1084-1087 | everything accepted has been sent |
| AgentUpload.Produce | src/agent/channel.rs:728-752 | an I/O error is returned whenever a write or flush has failed, and otherwise only if a file met the descriptor limit; with none, the result is good exactly if the fetch was stopped or a packet was wanted, and otherwise blames the filter, the missing files or the missing match exactly as the files call for it; a good result has the number of packets, says exactly whether cap or deadline cut it short, and exactly what was fetched was sent; of any result a beginning of the unlimited run was |
| AgentUpload.Upload | src/agent/channel.rs:607-870 | under any interleaving of the fetch and the body's polls, the result is the one the files and the request call for, but for a failure of the output; a body that is polled to its end after a good fetch is byte for byte what the fetch emitted, and it is unless the receiving side is cancelled or gone; after every poll the body is a beginning of that |
| AgentRegistry.Registry.Register | src/server/agents.rs:239-315 | accepted exactly if the key is not revoked and, where the name's holder and the claim both have a key, it is the same; then the entry has the next generation, the replaced one is cancelled and its pcap semaphore kept |
| AgentRegistry.Registry.Remove | src/server/agents.rs:317-327 | removes the current generation; a stale one changes nothing |
| AgentRegistry.Registry.RevokeKey | src/server/agents.rs:336-356 | the key registers no more, and one entry that holds it is cancelled; all are exactly if every other one already was, and then they stay so |
| AgentRegistry.Registry.RevocationReachesAllIff | src/server/agents.rs:336-356 | whichever entry is met, all current entries of the key end up cancelled exactly if at most one current entry holds the key or all that do were cancelled before |
| AgentRegistry.Registry.TrySendCurrent | src/server/agents.rs:358-374 | a message is queued, once and to this entry, exactly if the entry is current, its receiver there and its queue not at capacity; at capacity, and only there, the queue is full; a cancelled entry still receives |
| AgentRegistry.ChainKeepsIdentity | src/server/agents.rs:260-312 | along a chain of replacements name and pcap semaphore stay, generations grow and every replaced entry is cancelled; a key stays if no link is without one |
| AgentRegistry.KeyPassesOnlyThroughAGap | src/server/agents.rs:246-259 | in every history, between two holders of a name with different keys some holder had no key or was removed |
| AgentRegistry.AnotherKeyMayFollowIff | src/server/agents.rs:246-259 | and the last holder of a name lets an unrevoked other key follow exactly if it has no key or was removed |
| AgentRegistry.KeyPassesThroughAnUnkeyedHolder | src/server/agents.rs:246-259 | a run of registrations under key 1, none and key 2, without a removal |
| AgentRegistry.RevokingASharedKeyMissesAnEntry | src/server/agents.rs:336-356 | the registry by itself, without the endpoint's check of names, can hold a key under two names, and then revoking it leaves one of them uncancelled |
| AgentRegistry.Endpoint.Upgrade | src/server/api/agent.rs:118-147 | a key for another name is refused before it registers, and then nothing changes; otherwise the registry decides, and every connection ever registered under a key has the key's name |
| AgentRegistry.Endpoint.OneHolderPerKey | src/server/api/agent.rs:118-147 | so no key is held under two names |
| AgentRegistry.Endpoint.DeleteKey | src/server/api/admin.rs:195-210 | deleting a key asks every current connection of the key to stop, and none of the key runs again |
| QueryParser.ParseQuotedString | src/queryparser.rs:223-244 | the unescaped text up to the closing quote, and what follows it |
| QueryParser.Parse | src/queryparser.rs:99-176 | the loop yields what the recursive description of the language yields, each turn consuming input |
| QueryParser.QuotedEscape | src/queryparser.rs:223-244 | reading a quoted, escaped string gives the string back |
| QueryParser.ParseOfPrint | src/queryparser.rs:99-176 | for every list of elements, printing and parsing gives the concatenation of what each element reads back as |
| QueryParser.RoundTripIffPrintable | src/cli/test.rs:1251-1254 | it gives the same list exactly if free text is trimmed, not empty and no bare negation, and keys are neither reserved nor negations |
| QueryWriting.ReadAll | src/queryparser.rs:99-221 | elements written with words bare or in quotes, either sign or none, a space between two elements and any blanks before words, signs and values: parsing gives what the words say, one after the other |
| QueryWriting.QuotesDoNotMatter | src/queryparser.rs:178-196 | a word that needs no quotes reads the same with and without them |
| QueryWriting.TrimIs | src/queryparser.rs:163-171 | a free text loses exactly the white space at both ends |
| QueryWriting.SameLetterIff | src/queryparser.rs:151-157 | two characters are the same without regard to ASCII case exactly if they are equal or one is the capital of the other |
| SqlValues.ParseI64Iff | src/sqlite/builder.rs:113-143 | a value is parsed as an integer exactly if it is a decimal writing of one of 64 bits, with or without sign and leading zeros, and as that one |
| SqlValues.BindIff | src/sqlite/builder.rs:113-143 | the value bound is that integer, or if there is none the text itself, and no other |
| SqlValues.PathIff | src/sqlite/builder.rs:253-270 | the path of a key below `dns.queries.` or `dns.answers.` is the one list of parts without dots that, joined by dots, the rest of the key is |
| SqlLike.LikeConcat | src/sqlite/builder.rs:188-216 | a concatenated LIKE pattern matches exactly what splits into a match of each part |
| SqlLike.PatternMeansContains | src/sqlite/builder.rs:188-216 | the pattern for a free text without wildcards matches exactly the texts that contain it, case ignored |
| SqlLike.PatternMeansContainsIff | src/sqlite/builder.rs:188-216 | and it does so only for a text without wildcards |
| SqlBuilder.PushedMeansHolds | src/sqlite/builder.rs:182-323 | the condition meant by what is pushed for a query element, with its arguments, is true of a row exactly if the element holds of it, which is said from the key and value as written: `@sid` asks for the value of `alert.signature_id`, `@sig` for that of `alert.signature`, and so on |
| SqlBuilder.ConjunctionIsAll | src/sqlite/builder.rs:362-400 | under positional binding the conjunction of the conditions meant is true exactly if each is true with its own arguments |
| SqlBuilder.CompilationPreservesMeaning | src/sqlite/builder.rs:182-323 | without full-text search the conditions meant select exactly the rows of which every element holds |
| SqlBuilder.FtsCompilationPreservesMeaning | src/sqlite/builder.rs:362-400 | with full-text search too, the match condition and its argument being last; what that argument says is `SqlTranslate.PhrasesAreSaidIff` |
| SqlBuilder.EveryAliasIsJoined | src/sqlite/builder.rs:151-180 | every DNS alias a condition uses is among the joins made for the query |
| SqlBuilder.NeedsJoinIff | src/sqlite/builder.rs:182-323 | without joins, an element's condition can be evaluated exactly if it is not an unnegated search by `dns.rrname`, `dns.queries.` or `dns.answers.` |
| SqlBuilder.WithoutJoinsIff | src/sqlite/eventrepo/agg.rs:57 | the same of whole queries: a query applied without joins refers to columns that are not there exactly if it has such an element |
| SqlBuilder.RrnameNeedsAJoin | src/sqlite/eventrepo/stats.rs:71 | `dns.rrname:x` is such a query |
| SqlBuilder.SignsAreComplementsIff | src/sqlite/builder.rs:182-323 | for every key, which rows a search and its negation both select and which neither: none and none for a text search; otherwise the rows that lack the field, or, where the search reads another field, those that it misses and whose negated field is absent or equal |
| SqlBuilder.OtherNameInQueriesOnly | src/sqlite/builder.rs:182-323 | a row whose only name is in `dns.queries` is selected by neither sign of another name |
| SqlBuilder.TextSignsAreComplementsIff | src/sqlite/builder.rs:186-198 | a free text and its negation are complements on a row exactly if there is no full-text search or the row has the text |
| SqlBuilder.EventQueryBuilder.LeftJoinFromQueryString | src/sqlite/builder.rs:151-180 | the joins are those of the query's elements, none twice |
| SqlBuilder.EventQueryBuilder.WhereSource | src/sqlite/builder.rs:113-143 | one condition and its one argument are pushed together |
| SqlBuilder.EventQueryBuilder.ApplyQueryString | src/sqlite/builder.rs:182-323 | pushes the conditions, arguments and phrases of all elements in order |
| SqlBuilder.EventQueryBuilder.BuildWhere | src/sqlite/builder.rs:362-400 | the match condition and its argument come after everything else, and the text is that of the conditions joined by ` and ` |
| SqlPieces.ReadsBackIff | src/sqlite/builder.rs:88-94 | a text of fixed code and spliced literals reads back as what it was made of exactly if no spliced content has the quote in it |
| SqlText.ReadsClauseBack | src/sqlite/builder.rs:113-143 | the shape and the literals of a condition's text tell which condition it is |
| SqlText.TextReadsBackIff | src/sqlite/builder.rs:362-400 | the joined text of conditions reads back as those conditions exactly if no literal in it has an apostrophe |
| SqlText.HolesOfWhere | src/sqlite/builder.rs:362-400 | outside its literals the text has as many placeholders as the conditions take arguments |
| SqlSentence.TemplateSays | src/sqlite/builder.rs:113-360 | the text of every kind of condition is, character by character, the SQL of the source with the fields in their places |
| SqlSentence.WhereSays | src/sqlite/builder.rs:376-379 | and the text of several is theirs joined by ` and ` |
| SqlTranslate.PushedCleanIff | src/sqlite/builder.rs:182-323 | an element puts an apostrophe into the text exactly if its key is spliced and has one |
| SqlTranslate.QueryIsSaidIff | src/sqlite/builder.rs:182-400 | the text of a whole query says the conditions meant exactly if no element does, and then has a placeholder for each argument |
| SqlTranslate.OneApostropheLeavesALiteralOpen | src/sqlite/builder.rs:113-127 | a field with one apostrophe leaves a literal open to the end of the text |
| SqlTranslate.ApostropheInAKey | src/sqlite/builder.rs:113-127 | the query `a'b:c` is one, with an argument and no placeholder |
| SqlTranslate.PhrasesAreSaidIff | src/sqlite/builder.rs:88-94 | the full-text argument asks for exactly the texts searched for exactly if none has a double quote |
| SqlTranslate.Translate | src/sqlite/builder.rs:151-400 | the returned text is the SQL of some conditions joined by ` and `, and says them exactly if no element puts an apostrophe into it; then, of all rows that the returned joins make, the text, bound in order, selects exactly those of which the query holds |
| SocketIngress.RecordsAreTheSplit | src/eve/socket.rs:482-551 | the records of a stream are its pieces between newlines in order, and all of it unless a record is over the limit |
| SocketIngress.NumberedIff | src/eve/socket.rs:235-238 | a record of the split is offered exactly if it has a byte that is no ASCII white space, under its number, in the order of the records |
| SocketIngress.ReadStream | src/eve/socket.rs:482-551 | wherever ticks and the processor interrupt, the records offered are that split, blank ones left out; a read error or closed queue only cuts it short; an error is noted exactly for a record over the limit |
| SocketIngress.Ingress.Enqueue | src/eve/socket.rs:235-268 | a non-blank record is queued once if bytes and queue have room, else counted as one drop; a closed queue refuses it and keeps no permit |
| SocketIngress.Ingress.Receive | src/eve/socket.rs:320-339 | the oldest record is taken, its bytes still held |
| SocketIngress.Ingress.Finish | src/eve/socket.rs:341-349 | the record's bytes are given back |
| SocketIngress.KeptIsInOrder | src/eve/socket.rs:235-268 | the records queued are a subsequence of those offered |
| SocketIngress.Ingress.ProcessedInOrder | src/eve/socket.rs:320-356 | the records processed are a subsequence of those offered |
| SocketIngress.Ingress.NothingElseIsLost | src/eve/socket.rs:235-283 | with the queue run dry, offered is processed plus the counted drops |
| Checksum.SumsAgree | src/util/pcap.rs:223-233 | the program's accumulator, started at 0xffff, and the end-around-carry sum of RFC 1071 section 1 agree, but for all zeros |
| Checksum.SummingOn | src/util/pcap.rs:223-233 | adding a word and taking 0xffff off again keeps the accumulator within 1 and 0xffff and its sum with the words left |
| Checksum.IpChecksum | src/util/pcap.rs:223-233 | the complement of the header's ones'-complement sum |
| Checksum.TcpUdpChecksum | src/util/pcap.rs:235-267 | the same over pseudo header and segment, an odd last byte padded |
| Checksum.Ip4Builder.Build | src/util/pcap.rs:186-221 | the patched array is the header and segment with both checksums in place |
| Checksum.PatchedSumChecks | src/util/pcap.rs:209-219 | writing the complement over a field makes the sum check exactly if the field was zero, in either form |
| Checksum.ChecksumsCheck | src/util/pcap.rs:186-267 | over every finished packet the header checksum recomputes to 0, and the segment's does exactly if its field was zero, odd lengths included |
| Checksum.UdpArrives | src/util/pcap.rs:85-221 | a receiver that checks version, lengths and checksums gets ports, addresses and payload back exactly if the packet is at most 65535 bytes long |
| Checksum.TcpArrives | src/util/pcap.rs:118-221 | the same for TCP |
| AsciiJson.AsciiJson | src/agent/channel.rs:1095-1110 | the output is ASCII, an ASCII input comes back as it is, and a reader of JSON takes the same tokens and code units from it as from any well-formed input |
| AsciiJson.ReadEscape | src/agent/channel.rs:1095-1110 | an escape inside a string reads as its code unit |
| AsciiJson.Utf16RoundTrip | src/agent/channel.rs:1095-1110 | code units determine the characters, surrogate pairs included |
| AsciiJson.ReadersAgree | src/agent/channel.rs:1095-1110 | escaped and original text read alike, also after an escaped backslash |
| AsciiJson.ScansAgreeIff | src/agent/channel.rs:1095-1110 | for every text, well-formed or not, both read the same or both are ill-formed, exactly unless the text is ill-formed only in that a character which is not ASCII follows a lone backslash |

## Left out

- EveIngest.AtLeastOnce: assumes that rotation times increase, that closed files end in a newline, and that nothing is appended between the reader's end of file and its look for a newer file; without the last it is false, see `EveIngest.RaceLosesARecord`.
- PcapExtract.Fetch: does not say what the link-type field of the statistics is; byte counts are unbounded integers. The rendering of a flow selector is given; that generated filters compile for Ethernet is libpcap's part.
- PcapSpool.Collect: takes the walk as a list of files whose names have been parsed; the regular expressions of `parse_filename` and the traversal are not modelled.
- PcapSpool.FetchSpool: takes the groups in the order of their keys; the unpruned fallback is the same `Fetch` over one group.
- AgentJobs.StillIffAllSent: says that steps are possible and, with the bound on them, must run out; that the scheduler goes on giving them is not modelled.
- AgentUpload.Upload: an upload counts as successful by the status of the server's response (`src/agent/channel.rs:928-930`), which the program does not hold against the end of the body; that the server answers so only to a body read to its end is the server's part. A panic inside the fetch is a step of `AgentJobs` and not of this run.
- QueryParser.RoundTripIffPrintable: assumes that showing a time and parsing it are inverse; the time formats themselves are given.
- SqlTranslate.Translate: the rest of the statement (columns, order, limit, time bounds) is not modelled, nor what a JSON path means; of SQLite's reading, only string literals and placeholders. GLOB and the full-text match are given functions.
- Checksum.Ip4Builder.Build: lengths wrap as in a release build, a debug build stops instead; a UDP checksum of zero is left as it is by the source, and so here.
- SocketIngress.Ingress.Finish: what the processor does with a parsed record (filters, sink, batches, activity counters) is not modelled.
- libpcap: reading files, compiling and evaluating filters.
- Waiting: sleeps, jitter, backoff, flush intervals, the write credit of a slow receiver; only the resulting stop, tick or time-out is a choice.
- Real files, SQLite, Elasticsearch and HTTP: only their success or failure. The retries and index selection of the Elasticsearch sink are not modelled.
- Tail mode and plain log files rotated by inode: only the spool path from the oldest file is modelled.
- The server's bookkeeping of pcap tasks, its web sockets, TLS, sessions, configuration, logging and the web application.
