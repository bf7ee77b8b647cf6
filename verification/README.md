# Cross Share: verified models of the byte-moving cores

Dafny models of the parts of Cross Share that move bytes under conditions nobody can enumerate:
interleavings of threads, chunk sizes, cuts of a stream. Each module follows one source file or one
component. Code that updates objects step by step is a class whose methods are proved against a
specification function; code that runs concurrently is a step system (a label names the next atomic
thing that happens, `Legal`/`Exec` run a sequence of labels), so a theorem about `Exec` is a theorem
about every interleaving. `dafny verify dfyconfig.toml` checks everything.

| module | models |
|---|---|
| `Bytes` | machine integers, network byte order, `memcpy` |
| `TaskQueue` | the blocking queue of the downloader |
| `Segments` | cutting a file into byte ranges, with the source's 32-bit products |
| `RangeWriter` | the write callback, many tasks writing one file |
| `Pool` | worker threads, `Stop` and its drain loop, as interleaved steps |
| `Download` | the three above composed: the local file is the source |
| `PipeBuffer` | the growable buffer with cheap prepend, over an array |
| `PipeCodec` | the six pipe messages, encoders and decoders on buffers |
| `PipeReader` | the loop that cuts the pipe's byte stream into messages |
| `Transfer` | one peer connection: phase, mutex, reader and writer goroutine, the handlers |
| `TransferPair` | two such nodes over first-in first-out channels, and what every orderly run keeps |
| `TransferRuns` | runs of the two nodes that complete, after a paste or a file drop |
| `TransferFaults` | what spoils a transfer, and exactly when |
| `Echo` | the hash table that keeps a copied text from echoing around a mesh |
| `EchoReach` | who hears of that text when pastes overtake stores, and exactly when everybody does |
| `HandOff` | `MSStream` and `MSImgHandler` between a writing and a reading thread |
| `Bitmap` | the pixel loops between a Windows bitmap and an RGBA image |

## What the proofs found

Some properties hold only under a condition. Where that is so the exact condition is proved, and the
code is modelled as it is.

- `MakeTask` multiplies two `int`s. All products fit, and the pushed ranges partition the file, if and
  only if the file is shorter than 205 * 10 MiB = 2149580800 bytes (`SegmentationLimit`).
- `write_data` leaves `m_startPos == m_stopPos` both when one byte is missing and when none is. The
  proof therefore carries the number of delivered bytes beside the cursor (`Job.got`).
- `onRecvServerData` consumes nothing when a header is complete and its content is not, and its guard
  stays true: the loop then spins. It comes back from every delivery of a stream if and only if no cut
  leaves 11 or more bytes of an unfinished frame (`StreamReassembly`). `PatientLoop` shows that a loop
  that also stops when an iteration makes no progress, which the comment at `global_def.cpp:144` asks
  for, would be right for every cut. The source has no such loop.
- Eleven buffered bytes that do not begin with the tag are never got rid of (`NoResynchronisation`).
- A name comes back through a C string: decoding restores all fields if and only if the name has no
  U+0000 (`RoundTripExact`).
- The message reader never stands in front of payload bytes while the phase is
  PROCESSING_TRAN_ING_ACK (`NodeSafety`), but a receiver can leave that phase too early. After the
  acknowledgement one step of the receiver can do it, and exactly these: an acceptance, a drop, or a
  local copy that leaves a size smaller than the payload (`ExposedExactly`): the size is written
  without the mutex and read when the payload loop starts. In the last case the loop also takes a part
  of the payload for the whole (`CompletedShortExactly`).
- A receiver that copies something else between its acceptance and its request asks for the format of
  the copy: `HandleDataCopyProcess` stores it where `HandleDataTransferWrite` looks. The transfer can
  then complete if and only if the sender has enough in that format (`OfferedExactly`), which for a
  sender with one content means the same format or an empty payload (`OfferedOneContent`). Otherwise
  the receiver waits in its payload loop, its mutex held.
- The same wait follows a local copy that leaves a size larger than the payload (`CompletesExactly`).
- An offer the sender writes during a transfer goes between the payload bytes; it does no harm if and
  only if all of the payload is already on the socket (`OfferInPayloadExactly`).
- A sending that breaks off leaves a prefix of the source if and only if its cancel message is read on
  its own; read together with payload bytes it goes into the file (`CancelReadAlone`).
- The hash table keeps a text from being sent back or on if every paste at another node finds the
  node's entries stored (`NoEcho`), and a paste that does not can be followed by an echo
  (`EchoExactly`; `RaceEchoes` is a whole run). The code starts the paste before it stores. Even so
  each link carries the text at most once (`AtMostOncePerLink`).
- A reader can be left waiting after a `Cancel` (`CancelStrandsExactly`): `MSStream::Read` takes the
  flag down when it answers the `Cancel`, so a further `Read` waits, exactly if the file has not been
  read to its end; `MSImgHandler::Check` tests `mCancel` before it clears the flag, so a `Cancel`
  between the two is lost, exactly if the image is not complete.
- The same race can keep a text from a node for good: it comes back to the node of the copy from one
  that node has not sent it to yet, and the entries its reader then stores stop its own writers. This
  takes four nodes: every node is reached in every run that has come to its end if and only if the
  mesh has at most three (`ReachesExactly`; `RaceLosesPeers` is the run). Without the race every peer
  is sent the text exactly once (`EveryPeerIsSent`).
- A ranged task never writes outside its range, whatever the server sends (`NeverPastRange`), but one
  byte more than the range replaces the range's last byte (`SurplusReplacesLast`).
- A connection response takes twelve bytes off the pipe's buffer whatever length it declares
  (`ResponseTakesTwelve`).
- `AddTask` does not ask whether the pool runs: a task added after `Stop` stays queued for ever
  (`LateTaskStays`).
- An acceptance that does not wait for the mutex and falls into a payload loop is lost when the loop
  ends (`UnlockedAcceptIsLost`).
- `WriteFile` adds two 32-bit sizes; its comparison is right exactly when the sum does not wrap around
  to something that looks small enough (`SizeCheckExact`).
- `Read` evaluates `mProgressSize` three times: the caller gets exactly the bytes between the old and
  the new position, whatever its memory held before, if and only if the writer does not advance
  between them (`CopyBlockUndisturbed`).
- A stopped queue hands out only NULL, so a loop that pops until the queue is empty ends if and only
  if the queue is running or already empty (`DrainLoopEnds`).

## Model

| member | source | states |
|---|---|---|
| TaskQueue.KDeque.PushBack | http_multi_download/common/kdeque.hpp:185-197 | either the caller must sleep, exactly when the queue has a capacity and is full, and nothing changes, or the item is last |
| TaskQueue.KDeque.PopFront | http_multi_download/common/kdeque.hpp:199-214 | NULL and no change when stopped or empty, else the oldest item leaves |
| TaskQueue.BoundedQueue | http_multi_download/common/kdeque.hpp:185-214 | over every run of any producers and consumers: size never above capacity, items leave in arrival order with none lost or repeated, and a producer sleeps only while the queue is full |
| TaskQueue.UnboundedQueue | http_multi_download/common/kdeque.hpp:185-214 | without a capacity, as the pool makes its queue: over every run nobody sleeps, and exactly the items pushed go in, in order, and leave in that order |
| TaskQueue.AllServed | http_multi_download/common/kdeque.hpp:199-214 | a running queue hands out all it holds, in order, and its pops wake everybody |
| TaskQueue.SleeperGetsIn | http_multi_download/common/kdeque.hpp:188-195 | a producer asleep on a full queue gets its item in after one pop, and not after a spurious wake-up |
| TaskQueue.OnObject | http_multi_download/common/kdeque.hpp:185-214 | each step of the step system is what the object's own method does, with its answer |
| TaskQueue.DrainLoopEnds | http_multi_download/src/ThreadPool.cpp:19-25 | popping until empty ends if and only if the queue is running or already empty |
| Segments.MakeTask | http_multi_download/src/DownLoadFactory.cpp:50-120 | each error path pushes nothing; otherwise exactly the tasks of the cut as computed in 32-bit products are pushed, in order |
| Segments.CutIsPartition | http_multi_download/src/DownLoadFactory.cpp:78-119 | the intended ranges are non-empty and consecutive, begin at byte 0, end at the last byte, and number ceil(len / RANGE_SIZE); a Range header is used exactly above RANGE_SIZE |
| Segments.EachByteOnce | http_multi_download/src/DownLoadFactory.cpp:91-119 | a position lies in some range if and only if it is in the file, and in no two ranges |
| Segments.CutWithinLimit | http_multi_download/src/DownLoadFactory.cpp:93-108 | below 205 ranges every product fits an int and the computed cut is the intended one |
| Segments.CutBeyondLimit | http_multi_download/src/DownLoadFactory.cpp:93-108 | from 205 ranges on some product does not fit and the pushed ranges do not partition the file |
| Segments.SegmentationLimit | http_multi_download/src/DownLoadFactory.cpp:91-119 | products in range, and a correct partition pushed, if and only if len < 205 * RANGE_SIZE |
| RangeWriter.CurlHttpTask.WriteData | http_multi_download/src/CurlHttpTask.cpp:11-37 | the cursor, the file and its position afterwards, and the number of bytes accepted, for ranged and plain tasks |
| RangeWriter.DeliverOwn | http_multi_download/src/CurlHttpTask.cpp:15-31 | a call uses the whole chunk and not more, puts it at the task's own next positions and changes no other byte of the file |
| RangeWriter.DeliverKeepsInv | http_multi_download/src/CurlHttpTask.cpp:15-31 | with disjoint ranges and calls in any order, every task's delivered positions go on holding the source bytes |
| RangeWriter.CompleteFile | http_multi_download/src/CurlHttpTask.cpp:11-37 | once every task has its whole range and the ranges cover the file, the file equals the source |
| RangeWriter.NeverPastRange | http_multi_download/src/CurlHttpTask.cpp:15-31 | whatever a server sends for a ranged task: the bytes that fit are taken, no byte outside the range changes, the file does not grow past it |
| RangeWriter.SurplusReplacesLast | http_multi_download/src/CurlHttpTask.cpp:24-31 | a further chunk for a complete range changes exactly the last byte, to the first of the chunk |
| Pool.Conservation | http_multi_download/src/ThreadPool.cpp:148-194 | in every interleaving, task by task: pushed = queued + held by a worker + held by a drain loop + deleted after its run + deleted by a drain loop |
| Pool.AtMostOnce | http_multi_download/src/ThreadPool.cpp:148-194 | no task is started twice or deleted twice, and a deleted task is neither queued nor held |
| Pool.EveryTaskRunOnce | http_multi_download/src/ThreadPool.cpp:148-194 | with no failing run, once all workers have left the queue is empty and every task has been run and deleted exactly once |
| Pool.StartedInOrder | http_multi_download/src/ThreadPool.cpp:142-194 | over every run the tasks started, and then those queued, are in the order of AddTask |
| Pool.InitialInOrder | http_multi_download/src/ThreadPool.cpp:37-48 | a started pool begins like that |
| Pool.FirstInFirstStarted | http_multi_download/src/ThreadPool.cpp:148-194 | with no failing run none is passed over: started and queued together are the pushed tasks in order |
| Pool.AtMostOneMoreStart | http_multi_download/src/ThreadPool.cpp:157-187 | after the running flag is cleared a thread starts at most one more task, and only if it had read the flag before |
| Pool.RunKeepsOneDrainer | http_multi_download/src/ThreadPool.cpp:83-109 | over every run at most one thread is in the drain loop, with the running flag down and the queue still handing out tasks |
| Pool.InitialOneDrainer | http_multi_download/src/ThreadPool.cpp:37-48 | a started pool begins like that |
| Pool.BoundedStop | http_multi_download/src/ThreadPool.cpp:83-109 | from a started pool, whatever has happened: once a thread is at its drain loop and nothing is added, every thread starts at most one more task, the loop takes at most 3 * queued + 2 of its own steps, and leaves the queue empty |
| Pool.ThreadPool.Start | http_multi_download/src/ThreadPool.cpp:37-80 | a pool that runs is left alone; otherwise the threads created are the fewest of the wanted, the queued tasks and 1000, and the queue hands out tasks |
| Pool.ThreadPool.Stop | http_multi_download/src/ThreadPool.cpp:83-109 | a running pool deletes all queued tasks, in order, and stops its queue; any other is left alone |
| Pool.ThreadPool.Destroy | http_multi_download/src/ThreadPool.cpp:6-26 | the destructor's loop, for every pool on which it ends, deletes all queued tasks in order |
| Pool.StopIsRun | http_multi_download/src/ThreadPool.cpp:83-109 | Stop undisturbed is a run of the step system with the same effect |
| Pool.DrainEnds | http_multi_download/src/ThreadPool.cpp:83-109 | if nothing is added, the drain loop takes a bounded number of its own steps whatever the others do, and leaves the queue empty |
| Pool.StoppedForGood | http_multi_download/src/ThreadPool.cpp:83-109 | after that the queue stays empty and nobody drains again |
| Pool.LateTaskStays | http_multi_download/src/ThreadPool.cpp:142-146 | a task added after the queue has been stopped is in the queue in every later state |
| Pool.FailureStops | http_multi_download/src/ThreadPool.cpp:169-187 | one failed segment ends the download: that worker starts nothing more and the running flag goes down for good |
| Pool.FailedRunStops | http_multi_download/src/ThreadPool.cpp:169-187 | the same from the end of the failed run |
| Download.DeliveredBytesStay | http_multi_download/src/CurlHttpTask.cpp:11-37 | in every reachable state, also after failures and a stop half-way, all delivered bytes are in the file at their own positions |
| Download.PoolRefinement | http_multi_download/src/ThreadPool.cpp:148-194 | a run of the download without its chunks is a run of the pool |
| Download.LocalFileIsSource | http_multi_download/src/DownLoadFactory.cpp:78-119 | end to end: for every source shorter than 205 ranges, any number of workers, any chunking and any interleaving, if no run fails then once all workers have left the local file equals the source |
| Download.DownloadEnds | http_multi_download/src/ThreadPool.cpp:148-194 | a run without failures and empty chunks has at most one step a byte, six a task and two a worker |
| Download.NeverStuck | http_multi_download/src/ThreadPool.cpp:148-194 | and while some worker has not left, a further such step is possible |
| PipeBuffer.MoveToFront | data_sharing/windows/CrossShareWindowsClient/windows_clipboard/common/buffer.h:309 | the overlapping move as a forward copy puts the old stretch at the front |
| PipeBuffer.Buffer.constructor | data_sharing/windows/CrossShareWindowsClient/windows_clipboard/common/buffer.cpp:7-15 | an empty buffer with 8 prependable bytes |
| PipeBuffer.Buffer.Peek | data_sharing/windows/CrossShareWindowsClient/windows_clipboard/common/buffer.h:52-55 | the first readable bytes, none consumed |
| PipeBuffer.Buffer.Retrieve | data_sharing/windows/CrossShareWindowsClient/windows_clipboard/common/buffer.h:85-93 | exactly the first len bytes go; the indices return to the start when nothing is left |
| PipeBuffer.Buffer.RetrieveAll | data_sharing/windows/CrossShareWindowsClient/windows_clipboard/common/buffer.h:116-120 | nothing is left and the indices are back at the start |
| PipeBuffer.Buffer.RetrieveAsByteArray | data_sharing/windows/CrossShareWindowsClient/windows_clipboard/common/buffer.h:140-146 | the first len bytes are returned and gone |
| PipeBuffer.Buffer.RetrieveAllAsByteArray | data_sharing/windows/CrossShareWindowsClient/windows_clipboard/common/buffer.h:127-130 | everything is returned and gone |
| PipeBuffer.Buffer.MakeSpace | data_sharing/windows/CrossShareWindowsClient/windows_clipboard/common/buffer.h:301-314 | the readable bytes stay what they were, in both branches, and every assertion of the source holds |
| PipeBuffer.Buffer.EnsureWritableBytes | data_sharing/windows/CrossShareWindowsClient/windows_clipboard/common/buffer.h:165-171 | len bytes fit afterwards and the readable bytes are unchanged |
| PipeBuffer.Buffer.Append | data_sharing/windows/CrossShareWindowsClient/windows_clipboard/common/buffer.h:148-153 | the data follows the old contents, for any length |
| PipeBuffer.Buffer.Unwrite | data_sharing/windows/CrossShareWindowsClient/windows_clipboard/common/buffer.h:189-193 | exactly the last len bytes go |
| PipeBuffer.Buffer.Prepend | data_sharing/windows/CrossShareWindowsClient/windows_clipboard/common/buffer.h:278-283 | the data precedes the old contents |
| PipeBuffer.Buffer.AppendUInt | data_sharing/windows/CrossShareWindowsClient/windows_clipboard/common/buffer.h:195-213 | the big-endian image of the number follows the old contents |
| PipeBuffer.Buffer.PrependUInt | data_sharing/windows/CrossShareWindowsClient/windows_clipboard/common/buffer.h:260-276 | the big-endian image of the number precedes the old contents |
| PipeBuffer.Buffer.PeekUInt | data_sharing/windows/CrossShareWindowsClient/windows_clipboard/common/buffer.h:236-258 | the number whose big-endian image the buffer begins with |
| PipeBuffer.Buffer.ReadUInt | data_sharing/windows/CrossShareWindowsClient/windows_clipboard/common/buffer.h:215-234 | that number, and its bytes are gone |
| Bytes.BigEndianRoundTrip | data_sharing/windows/CrossShareWindowsClient/windows_clipboard/common/buffer.h:195-258 | reading a big-endian image gives the number back, for every width |
| Bytes.BigEndianDigit | data_sharing/windows/CrossShareWindowsClient/windows_clipboard/common/buffer.h:195-258 | the most significant byte comes first, for every width |
| PipeBuffer.Client | data_sharing/windows/CrossShareWindowsClient/windows_clipboard/common/buffer.h:85-314 | refinement over every run of operations within their assertions: the bytes between the indices are what the same operations make of a plain byte string |
| PipeBuffer.SpaceBound | data_sharing/windows/CrossShareWindowsClient/windows_clipboard/common/buffer.h:301-314 | over every run that grows only by append, storage never exceeds max(initial + 8, 2 * peak + 7) |
| PipeCodec.UpdateClientStatusToByteArray | data_sharing/windows/CrossShareWindowsClient/windows_clipboard/common/global_def.cpp:85-107 | the bytes are the frame of the message, with the real content length |
| PipeCodec.SendFileRequestToByteArray | data_sharing/windows/CrossShareWindowsClient/windows_clipboard/common/global_def.cpp:185-208 | the same for a file request |
| PipeCodec.SendFileResponseToByteArray | data_sharing/windows/CrossShareWindowsClient/windows_clipboard/common/global_def.cpp:289-314 | the same for a file response |
| PipeCodec.UpdateProgressToByteArray | data_sharing/windows/CrossShareWindowsClient/windows_clipboard/common/global_def.cpp:403-427 | the same for a progress message |
| PipeCodec.GetConnStatusRequestToByteArray | data_sharing/windows/CrossShareWindowsClient/windows_clipboard/common/global_def.cpp:513-525 | the same for a connection request |
| PipeCodec.GetConnStatusResponseToByteArray | data_sharing/windows/CrossShareWindowsClient/windows_clipboard/common/global_def.cpp:566-582 | the same for a connection response |
| PipeCodec.UpdateClientStatusFromByteArray | data_sharing/windows/CrossShareWindowsClient/windows_clipboard/common/global_def.cpp:109-183 | the decoder working field by field on a local buffer answers what the frame format says: false, a failed assertion, or the message |
| PipeCodec.SendFileRequestFromByteArray | data_sharing/windows/CrossShareWindowsClient/windows_clipboard/common/global_def.cpp:210-287 | the same for a file request |
| PipeCodec.SendFileResponseFromByteArray | data_sharing/windows/CrossShareWindowsClient/windows_clipboard/common/global_def.cpp:316-401 | the same for a file response |
| PipeCodec.UpdateProgressFromByteArray | data_sharing/windows/CrossShareWindowsClient/windows_clipboard/common/global_def.cpp:429-511 | the same for a progress message |
| PipeCodec.GetConnStatusRequestFromByteArray | data_sharing/windows/CrossShareWindowsClient/windows_clipboard/common/global_def.cpp:527-564 | the same for a connection request |
| PipeCodec.GetConnStatusResponseFromByteArray | data_sharing/windows/CrossShareWindowsClient/windows_clipboard/common/global_def.cpp:584-637 | the same for a connection response |
| PipeCodec.GetCodeFromByteArray | data_sharing/windows/CrossShareWindowsClient/windows_clipboard/common/global_def.cpp:33-64 | type and code of what starts in the bytes, exactly from the eleventh byte on and behind the right tag |
| PipeCodec.FramePlaced | data_sharing/windows/CrossShareWindowsClient/windows_clipboard/common/global_def.cpp:85-107 | every encoded message begins with the five tag bytes, type, code and the real content length, most significant byte first |
| PipeCodec.ContentPlaced | data_sharing/windows/CrossShareWindowsClient/windows_clipboard/common/global_def.cpp:85-427 | at which position of the content each field of the four messages with a name lies, byte by byte |
| PipeCodec.DecodesExactly | data_sharing/windows/CrossShareWindowsClient/windows_clipboard/common/global_def.cpp:109-637 | for any bytes: decoding returns false exactly without a header or with too few bytes for the declared length; an assertion fails exactly when the declared length does not fit the fields; a connection request needs its header only |
| PipeCodec.RoundTrip | data_sharing/windows/CrossShareWindowsClient/windows_clipboard/common/global_def.cpp:85-637 | decoding any encoded message, followed by any bytes, gives it back with the real content length, and its length is the frame's |
| PipeCodec.RoundTripExact | data_sharing/windows/CrossShareWindowsClient/windows_clipboard/common/global_def.cpp:85-637 | all fields come back if and only if the name has no U+0000 |
| PipeCodec.PrefixNotYet | data_sharing/windows/CrossShareWindowsClient/windows_clipboard/common/global_def.cpp:109-148 | decoding any proper prefix of a frame returns false |
| PipeReader.ProcessMessage.Body | data_sharing/windows/CrossShareWindowsClient/windows_clipboard/common/process_message.cpp:57-115 | one iteration on the real buffer consumes and dispatches one frame or changes nothing |
| PipeReader.ProcessMessage.OnRecvServerData | data_sharing/windows/CrossShareWindowsClient/windows_clipboard/common/process_message.cpp:50-116 | for deliveries after which the loop leaves: it ends, the complete frames are dispatched in order after the earlier ones, the rest stays buffered |
| PipeReader.LoopLeavesExactly | data_sharing/windows/CrossShareWindowsClient/windows_clipboard/common/process_message.cpp:57 | some number of iterations reaches a false guard if and only if draining ends there |
| PipeReader.TurnOnFrame | data_sharing/windows/CrossShareWindowsClient/windows_clipboard/common/process_message.cpp:57-115 | an iteration consumes a frame whole once it is complete; before that it changes nothing, with the guard true exactly from eleven bytes on |
| PipeReader.DispatchesExactly | data_sharing/windows/CrossShareWindowsClient/windows_clipboard/common/process_message.cpp:58-114 | of the six messages exactly the four a server sends are dispatched; a frame of either of the others runs into an assertion |
| PipeReader.TurnByCode | data_sharing/windows/CrossShareWindowsClient/windows_clipboard/common/process_message.cpp:57-114 | for any bytes: the guard is false exactly without a header; code 2 changes nothing; codes 0 and above 5, and a file message that is no request, run into an assertion |
| PipeReader.ResponseTakesTwelve | data_sharing/windows/CrossShareWindowsClient/windows_clipboard/common/global_def.h:151-152 | a connection response consumes twelve bytes whatever length it declares, so the next iteration begins behind its frame if and only if that is 1 |
| PipeReader.StreamReassembly | data_sharing/windows/CrossShareWindowsClient/windows_clipboard/common/process_message.cpp:50-116 | for any number of server messages and any cuts: every delivery comes back if and only if no cut leaves 11 or more bytes of an unfinished frame, and then exactly the complete messages were dispatched in order and the unfinished frame is buffered |
| PipeReader.WholeStream | data_sharing/windows/CrossShareWindowsClient/windows_clipboard/common/process_message.cpp:50-116 | with the whole stream delivered every message is dispatched and nothing is left |
| PipeReader.PatientLoop | data_sharing/windows/CrossShareWindowsClient/windows_clipboard/common/global_def.cpp:144 | a loop that stops on no progress, as the comment intends, is right for every cut (not in the source) |
| PipeReader.NoResynchronisation | data_sharing/windows/CrossShareWindowsClient/windows_clipboard/common/process_message.cpp:50-57 | behind eleven bytes with a wrong tag nothing is ever dispatched again |
| Transfer.NodeSafety | data_sharing/client/p2p/p2p.go:30-55 | over any run of network and user steps: mutex free implies not SRC_INIT, and in PROCESSING_TRAN_ING_ACK or inside the payload loop the message reader is in front of its gate |
| Transfer.AckOnlyFromProcessing | data_sharing/client/p2p/p2p.go:113-117 | PROCESSING_TRAN_ING_ACK is entered only from PROCESSING_TRAN_ING, by a FILE_REQ_ACK, with the mutex free before |
| Transfer.AckLeftOnlyByUser | data_sharing/client/filedrop/filedrop.go:9-34 | an acknowledged transfer that waits for its payload loop loses its phase exactly by a command of the user |
| Transfer.PayloadIsRun | data_sharing/client/p2p/p2p.go:502-550 | the payload loop, for any reads, is a run of the node's steps |
| Transfer.PayloadEnds | data_sharing/client/p2p/p2p.go:511-551 | in terms of its reads only: which of them go into the file, that each was made while bytes were missing, and that the loop completes if and only if enough bytes were read before a failure or a cancel message |
| Transfer.ServeIsRun | data_sharing/client/p2p/p2p.go:73-87 | serving a request from the acknowledgement to the deferred UNINIT is a run of the node's steps and puts the same on the socket |
| Transfer.Handler.FileDropRequest | data_sharing/client/filedrop/filedrop.go:11-20 | the handler's new state is the node step of a drop request |
| Transfer.Handler.FileDropAccept | data_sharing/client/filedrop/filedrop.go:22-29 | the handler's new state is the node step of an acceptance |
| Transfer.Handler.HandleSrcDataTransfer | data_sharing/client/p2p/p2p.go:148-201 | behind the acknowledgement go the image for an image request, the file for a file request, and nothing for any other; an unopened file or a broken socket is reported, and the phase ends as UNINIT |
| Transfer.Handler.HandleDataTransferRead | data_sharing/client/p2p/p2p.go:62-121 | the state and the output it leaves when it handles the message; nothing changes when it answers false |
| Transfer.Handler.HandleDataPasteToCBProcess | data_sharing/client/p2p/p2p.go:203-240 | a new file or image offer replaces size, format and what this node could send; a known one changes nothing |
| Transfer.Handler.HandleDataCopyProcess | data_sharing/client/p2p/p2p.go:262-301 | a new copy stores its format for the peer and is offered; a known one, or a file appointed to another peer, changes and writes nothing |
| Transfer.Handler.HandleMessage | data_sharing/client/p2p/p2p.go:55-57 | reader turn: exactly one of the two handlers decides what a message does |
| Transfer.Handler.HandleDataTransferWrite | data_sharing/client/p2p/p2p.go:466-583 | request, payload loop and drop announcement: the new state and the messages written, for any reads in the loop |
| TransferPair.TwoNodeTransfer | data_sharing/client/p2p/p2p.go:492-550 | after a paste, at every moment of an orderly run what the receiver has written is a prefix of the source and no payload byte stands before the message reader; on completion it is the whole source, the receiver is back in UNINIT, and the sender has nothing more to send and is in UNINIT unless it still holds its mutex |
| TransferPair.SenderOneStepFromHome | data_sharing/client/p2p/p2p.go:148-155 | a sender still inside its copying when the transfer is over reaches UNINIT by ending it |
| TransferPair.OnlyHomeIsLeft | data_sharing/client/p2p/p2p.go:148-155 | and no other orderly step of that sender changes more than the stored format |
| TransferPair.CancelReadAlone | data_sharing/client/p2p/p2p.go:512-539 | a read in the payload loop keeps a prefix of the source if and only if it takes no cancel message together with payload bytes |
| TransferPair.RunKeepsInv | data_sharing/client/p2p/p2p.go:148-201 | the invariant behind it, from any orderly run: until the request is out the stored format is the one asked for; written, in flight and still to be sent are what the sender has of it, in order, or the sender has broken off and says so last |
| TransferRuns.DropTransfer | data_sharing/client/filedrop/filedrop.go:9-34 | from the moment a dropped file has been announced and accepted, every orderly run is faithful to the file in the same way |
| TransferRuns.DropCanComplete | data_sharing/client/p2p/p2p.go:502-550 | and one of them completes with the whole file written |
| TransferRuns.DropPrepares | data_sharing/client/p2p/p2p.go:551-580 | two nodes at rest have a run of drop, announcement and acceptance that leaves the receiver with the file's size and format |
| TransferRuns.PasteTransfer | data_sharing/client/p2p/p2p.go:190-199 | for an image, or a file, named by its bytes: every orderly run after the paste is faithful to them |
| TransferRuns.PasteCanComplete | data_sharing/client/p2p/p2p.go:190-199 | and one of them completes with exactly these bytes written |
| TransferRuns.PastePrepares | data_sharing/client/p2p/p2p.go:212-239 | two nodes at rest have a run of offer, reading and acceptance that leaves the receiver with the offered size and format and without its own file and image |
| TransferRuns.CopyToPaste | data_sharing/client/p2p/p2p.go:262-300 | from rest, a run that begins with the offer and ends with the sender's file or image written |
| TransferRuns.UserCopyToPaste | data_sharing/client/platform/windows_cgo.go:136-216 | and one that begins with the copy by the sender's user, whatever both nodes had stored before |
| TransferRuns.TransferCanComplete | data_sharing/client/p2p/p2p.go:502-550 | every transfer, of an image or of a file that opens, has an orderly run that completes with the whole source written |
| TransferRuns.AcknowledgedIsReachable | data_sharing/client/p2p/p2p.go:73-117 | and can reach the acknowledged state before the payload loop |
| TransferFaults.ExposedExactly | data_sharing/client/p2p/p2p.go:30-55 | from an acknowledged transfer, after one step of the receiver, an orderly continuation brings the message reader in front of a payload byte if and only if the step was an acceptance, a drop, or a local copy that leaves a size smaller than the payload |
| TransferFaults.CompletedShortExactly | data_sharing/client/p2p/p2p.go:502-511 | after a step that keeps the phase, an orderly continuation is taken for complete without being whole if and only if the step was such a copy |
| TransferFaults.CompletesExactly | data_sharing/client/p2p/p2p.go:502-551 | after a step that keeps the phase, an orderly continuation completes if and only if the size left is at most the payload; with the previous row, it can complete and is then always whole if and only if it is equal |
| TransferFaults.SecondPasteLosesPayload | data_sharing/client/p2p/p2p.go:492-501 | the second paste as a run that begins with it |
| TransferFaults.OfferedExactly | data_sharing/client/p2p/p2p.go:262-300 | an offer of the receiver between acceptance and request overwrites the stored format that the request asks for: an orderly continuation completes if and only if the sender has enough in the offered format to fill the announced size |
| TransferFaults.OfferedOneContent | data_sharing/client/p2p/p2p.go:262-300 | for a sender with nothing in any other format: if and only if the offered format is the one stored, or the payload is empty |
| TransferFaults.OfferInPayloadExactly | data_sharing/client/p2p/p2p.go:262-300 | an offer the sender writes during the transfer: however the receiver reads on, its loop can end with exactly the payload written if and only if all of it was on the socket before the offer |
| TransferFaults.ReaderTakesPayload | data_sharing/client/p2p/p2p.go:349-380 | a message reader in front of payload takes any number of bytes up to 65535, and no more; they are never written |
| TransferFaults.LoopTakesPayload | data_sharing/client/p2p/p2p.go:506-546 | the payload loop takes up to 32768 payload bytes at a time and counts each once |
| TransferFaults.LoneMessageRead | data_sharing/client/p2p/p2p.go:426-444 | a message read alone in the loop interrupts it if and only if it is a cancel message of the sender, and goes into the file otherwise |
| TransferFaults.UnlockedAcceptIsLost | data_sharing/client/filedrop/filedrop.go:22-29 | an acceptance inside the payload loop is gone when the loop ends |
| Echo.AtMostOncePerLink | data_sharing/client/p2p/p2p.go:262-301 | under any order of deliveries, firings, pastes and table updates each directed link carries the text at most once |
| Echo.EchoBound | data_sharing/client/p2p/p2p.go:203-301 | at most n(n-1) messages in a mesh of n |
| Echo.EveryRunEnds | data_sharing/client/p2p/p2p.go:203-301 | a run is no longer than a fixed amount for the mesh and one for each copy the user makes |
| Echo.NoEcho | data_sharing/client/p2p/p2p.go:212-239 | if every paste at another node finds all entries of that node stored, only the node where the text was copied sends it, at most once to each peer: nothing is sent back or on |
| Echo.EchoExactly | data_sharing/client/p2p/p2p.go:212-239 | after any such run, a paste at another node can be followed by that node sending the text, in some continuation, if and only if some entry of it is not yet stored |
| Echo.StoresFirst | data_sharing/client/p2p/p2p.go:234-238 | readers that finish their stores before their pastes land make such a run |
| Echo.EveryPeerIsSent | data_sharing/client/p2p/p2p.go:262-301 | when such a run has come to its end, the text has been sent to each other node exactly once, and all of it from the node of the copy |
| Echo.StoredPastesNoMore | data_sharing/client/p2p/p2p.go:212-239 | over any run a node whose entries are all stored ignores what still reaches it: its pastes do not grow |
| Echo.RaceEchoes | data_sharing/client/p2p/p2p.go:216-238 | in any mesh of two or more there is a run in which a paste overtakes the stores and the text is sent back |
| EchoReach.SmallMeshReaches | data_sharing/client/p2p/p2p.go:203-301 | in a mesh of up to three, whatever overtakes what, every other node has been sent the text when a run has come to its end |
| EchoReach.RaceLosesPeers | data_sharing/client/p2p/p2p.go:216-238 | a run to its end in which the text goes round o, a and b and no further node is ever sent it |
| EchoReach.ReachesExactly | data_sharing/client/p2p/p2p.go:203-301 | every node is reached in every run that has come to its end if and only if the mesh has at most three nodes |
| HandOff.NoLostData | data_sharing/clipboard/MSPaste/MSStream.cpp:83-161 | in every interleaving the reads are a prefix of the accepted writes; unless a Read has already answered a Cancel, unread bytes imply the flag or one side between its two updates, so a waiting reader is woken |
| HandOff.ImageComplete | data_sharing/clipboard/MSPaste/MSImgHandler.cpp:56-87 | GetImg leaves its loop uncancelled only with the whole image in the buffer |
| HandOff.WholeArrives | data_sharing/clipboard/MSPaste/MSStream.cpp:136-161 | for any chunks that together fill the buffer there is a run in which all of them are accepted and read, and GetImg has left its loop |
| HandOff.AcceptsExactly | data_sharing/clipboard/MSPaste/MSStream.cpp:145-155 | data is accepted if and only if it is not empty and reaches at most the end of the buffer |
| HandOff.CancelIsSeen | data_sharing/clipboard/MSPaste/MSStream.cpp:163-167 | after a finished Cancel a waiting reader finds the flag up, outside the named exceptions |
| HandOff.CancelStrandsExactly | data_sharing/clipboard/MSPaste/MSStream.cpp:163-167 | when a Cancel raises the flag, some continuation leaves a reader waiting with the flag down if and only if, for a file stream, it has not been read to its end, and for an image, a Check is past its test of mCancel and the image is not complete |
| HandOff.NextReadStrands | data_sharing/clipboard/MSPaste/MSStream.cpp:91-108 | the file-stream case: the Read that answers the Cancel takes the flag down and the next one waits |
| HandOff.LateCancelIsLost | data_sharing/clipboard/MSPaste/MSImgHandler.cpp:77-87 | the image case as a run: a Cancel between the test and the clearing leaves the next Check spinning |
| HandOff.StuckUntilRaised | data_sharing/clipboard/MSPaste/MSStream.cpp:100 | a waiting reader with the flag down moves only after the next data or the next Cancel |
| HandOff.CopyBlockUndisturbed | data_sharing/clipboard/MSPaste/MSStream.cpp:110-112 | with any steps of the writer and of Cancel between the copy block's three evaluations of the progress, it is exact if and only if no advance of the writer falls between them |
| HandOff.CopyBlockExact | data_sharing/clipboard/MSPaste/MSStream.cpp:110-112 | that is, if and only if the three evaluations agree |
| HandOff.MSStream.constructor | data_sharing/clipboard/MSPaste/MSStream.cpp:6-21 | the initial state of the step system |
| HandOff.SizeCheckExact | data_sharing/clipboard/MSPaste/MSStream.cpp:152 | the 32-bit comparison tells whether the data fits if and only if the sum does not wrap around to something small enough |
| HandOff.MSStream.WriteFile | data_sharing/clipboard/MSPaste/MSStream.cpp:136-161 | accepted exactly if not empty and not past the end: then it stands behind the earlier bytes and the writer's three steps are made; refused data changes nothing |
| HandOff.MSStream.Read | data_sharing/clipboard/MSPaste/MSStream.cpp:83-116 | the reader's steps on the object, its answer, and the bytes it returns |
| HandOff.MSStream.Cancel | data_sharing/clipboard/MSPaste/MSStream.cpp:163-167 | both flags up and nothing else changed |
| HandOff.MSImgHandler.WriteFile | data_sharing/clipboard/MSPaste/MSImgHandler.cpp:96-121 | the same writer's steps on the image block |
| HandOff.MSImgHandler.Check | data_sharing/clipboard/MSPaste/MSImgHandler.cpp:68-87 | the reader's steps on the object, and when GetImg's loop goes on |
| HandOff.MSImgHandler.Cancel | data_sharing/clipboard/MSPaste/MSImgHandler.cpp:123-127 | both flags up and nothing else changed |
| Bitmap.RotateImage | data_sharing/client/utils/Image.go:28-40 | every pixel is at its place under a half turn |
| Bitmap.MirrorHorizontal | data_sharing/client/utils/Image.go:11-24 | every pixel is at its place under a left-right mirror |
| Bitmap.BitmapToImage | data_sharing/client/utils/Image.go:46-66 | byte by byte: the image is the bitmap upside down, B, G, R reordered and 255 in every fourth byte |
| Bitmap.ImageToBitmap | data_sharing/client/utils/Image.go:103-120 | byte by byte: the bitmap is the image upside down, R, G, B reordered and 0 in every fourth byte |
| Bitmap.RotateMirrorIsFlip | data_sharing/client/utils/Image.go:11-40 | half turn and mirror, in either order, are the vertical flip |
| Bitmap.FlipTwice | data_sharing/client/utils/Image.go:11-40 | the vertical flip undoes itself, byte for byte |
| Bitmap.BitmapRoundTrip | data_sharing/client/utils/Image.go:46-120 | bitmap to image and back restores every B, G and R byte and sets every fourth byte to 0, for all sizes |

## Left out

- TransferPair.TwoNodeTransfer: assumes one transfer alone on its socket (`Orderly`): the announced size is the source's; the receiver accepts once, copies nothing before its payload loop has read the size, offers nothing of another format before its request and no file or image before the acknowledgement; the sender offers nothing before the transfer is over; acknowledgement and cancel message are each read on their own (the purpose of the sleep at p2p.go:166-167); no payload chunk parses as a cancel message; the address checks pass and the receiver's reads do not break. The sending may break at any point. `Transfer.NodeSafety` needs none of this; `TransferFaults` and `CancelReadAlone` say exactly what most of it is for.
- TransferRuns.DropTransfer: quantifies over the runs after the acceptance; of the announcing itself `DropPrepares` gives one run, and other interleavings of it are not covered.
- Transfer.Handler.FileDropRequest: the source identity and the file-drop marks of the peers are left out; the address check they feed is the flag `mine`.
- Transfer.Handler.FileDropAccept: the destination path is left out; what is written is the history `written`.
- Transfer.Handler.HandleDataTransferRead: the source identity and the hash table are left out, as the flags `mine` and `isNew`; the table itself is modelled in `Echo`.
- Transfer.Handler.HandleDataPasteToCBProcess: the same, and the asynchronous paste is a step of `Echo`, not of the handler.
- Transfer.Handler.HandleDataTransferWrite: the address checks are taken as passed, and the message written when a read times out is not modelled; the read deadline is commented out in the source.
- Transfer.Handler.HandleSrcDataTransfer: the copy is one write of the payload, cut where the socket breaks; `SendPart` in the step system has it in pieces of any size. The closing of the files and `AppointIpAddr` are left out.
- TransferPair.RunKeepsInv: two nodes with one connection; several connections that share one `Handler` appear only as `AcceptUnlocked` and the unlocked copy step of `Transfer`.
- PipeReader.ProcessMessage.OnRecvServerData: a method cannot spin, so it is stated for deliveries after which the loop leaves; `Drain`, `LoopLeavesExactly` and `StreamReassembly` cover the others.
- PipeReader.ProcessMessage.Body: covers iterations that fail no assertion; a failed assertion is the outcome `Faults` of `OneTurn`, and what a release build does after one is not modelled.
- PipeCodec.RoundTrip: client IDs have the 46 bytes the encoders assert; names are UTF-16 code units and addresses 32-bit numbers, so the conversion of names through UTF-8 (which changes lone surrogates) and of addresses through text is not modelled; lengths are those of a QByteArray.
- HandOff.MSStream.Read: the wait is over or not needed, the copy block is one step (`CopyBlockUndisturbed` says when that matters) and the capacity argument, which the source ignores, is left out. Memory accesses are taken in program order although the flags are plain `bool`.
- HandOff.MSStream.WriteFile: not stated for sizes at which the 32-bit comparison is wrong (`SizeCheckExact`), where the copy would leave the buffer; files with a non-zero high size word are left out, as the source's own comment does.
- HandOff.MSImgHandler.WriteFile: the same.
- HandOff.MSImgHandler.Check: the bitmap header in front of the picture and the allocation in `GetImg` are left out; `GetImg`'s polling is the step system.
- Bitmap.BitmapToImage: PNG encoding and decoding are taken as lossless and an image as its RGBA bytes; an image of size 0, which the encoder refuses, is included as the empty one.
- Bitmap.ImageToBitmap: images that decode to another colour model, and with transparency, are left out.
- RangeWriter.CurlHttpTask.WriteData: items are one byte, as the transfer library calls it; servers that ignore the requested range are left out (`Download` takes the server to deliver exactly the range).
- Segments.MakeTask: the loop counter is not wrapped, which would need a file of 2^31 ranges; task names are left out.
- Pool.ThreadPool.Destroy: stated for the pools on which its loop ends, which `TaskQueue.DrainLoopEnds` characterises; on any other the destructor never returns.
- Pool.EveryTaskRunOnce: CPU affinity, the join inside `Start` and the clamp of the thread count only choose among the modelled interleavings; a run that throws is a failed run.
- TaskQueue.BoundedQueue: `pop_back`, `full`, indexing and the iterators of the queue are left out; the pool does not use them.
- PipeBuffer.Client: moved-from and swapped buffers, the constructor from data, `findCRLF` and `findEOL` are left out.
- Echo.AtMostOncePerLink: one text circulates; several contents are left out. The table and the goroutines are modelled on values, as steps.
- JSON, MD5, sockets, libp2p, mDNS, relays, curl and PNG are abstracted: a JSON message is a cell of a channel, `IsTransferError` a predicate on a chunk, a hash comparison a flag.
- The Qt user interface, Android services, COM plumbing, progress bars and peer lists are left out: they would add only easy members.
