# The algorithms of bitsy, verified

bitsy is a BitTorrent client written in Go. This project models the algorithms between its sockets and its
disk, and proves what they do. SHA-1, the disk, the network and the scheduler are parameters.

- `Basics`, `Numbers`: quotients and multiples, finite index sets, running sums, big-endian numbers.
- `Bits`: the bit field, against the set of indices it stands for.
- `Torrents`: how a stream of files is cut into pieces, and which pieces belong to which file.
- `Assembler`: how the files are put together again from the pieces on disk.
- `Workers`, `Transfers`: the blocks of one piece, and how they get from one client to another.
- `Downloads`, `Clients`: the downloader, as a state machine and as the class whose methods are its steps.
- `Outcomes`, `Completion`: what becomes of a held piece, and that a download can go on to its end.
- `Loops`: what the loop of the client can do of that alone.
- `WholeDownloads`, `WholeRuns`: downloader and assembler together, at one pass and over whole runs.
- `Wire`, `Readers`: the peer messages, and the reader that takes them off a connection chunk by chunk.
- `Exchanges`: requests and blocks of a piece over the wire.
- `Tracker`: the announce response of UDP trackers. `Metadata`: fetching the info dictionary from a peer.
- `FastSets`: the allowed fast set. `Peers`: the state kept for one peer.
- `Connections`: connection slots. `Choking`: rounds of choking. `PieceCache`: the piece manager.

Code that updates state is modelled by classes, methods and loops, each proved to do what a function or a
step relation on values says; the theorems are about those. Where goroutines interleave (downloading,
connection slots, choking) the model is a set of atomic steps, and the theorems hold of every sequence of steps.

## Where the code falls short of its intent

The model follows the code as it is. Where a promise does not hold of it, the condition under which it does is
proved to be exact.

- `assembleFile` slices past the end of a piece when a file shorter than a piece straddles two pieces. Go allows
  that up to the capacity of the buffer the piece was read into. So the file comes out right, whatever lies
  behind the piece in memory, exactly when it is at least as long as a piece or ends within its first piece
  (`Fits`). Otherwise the program panics exactly when too little lies behind; else it writes what lies there
  and marks the file as written, and that is right exactly when those bytes happen to be the missing ones
  (`Clean`). A request past the end of a piece is answered in the same way.
- So every pass goes through, over every run with any blocks and passes, and leaves each marked file right, exactly
  when each file fits, or was marked before, or lists a piece that is ignored and not there.
- A file without pieces, as an empty single-file torrent has it, makes every pass panic until its name is marked.
- Where a piece of a file that is done cannot be loaded, what was there before is overwritten with the part in front of
  that piece; a pass that panics leaves an empty file.
- One map of written files, keyed by base name, serves all torrents. A ready file is in its directory after a
  pass exactly when it is clean, or was marked and there before: a name that another torrent has marked keeps
  it out.
- `getFiles` runs past the list of pieces exactly when the last file is empty and the stream fills its pieces.
- The worker of the last piece gets length 0 when the total is a multiple of the piece length. It then
  counts as complete at the next tick without a byte of the piece. Held pieces are secured in every run with genuine blocks
  exactly when that is not the case or the piece is there already or ignored (`LastPieceSafe`). Otherwise that
  piece never gets on disk, whatever happens, and no file that needs it is ever marked.
- The loop of the client starts a piece only while fewer than `maxPendingPieces` are in flight, and that is 0 for
  pieces longer than 50 MiB. It then finishes the one piece that it started with, and goes on only where peers send
  AllowedFast. Alone it can complete the download exactly when pieces are not so long or no other piece is missing.
- A piece is marked as held when its worker has all its blocks, before it is verified and saved. It is on disk or
  can still be saved exactly when it was there from the start or its worker has had a block, no save of it has
  failed verification, and the worker has taken in no block past the end of the piece, which makes `bytes` panic.
- The length prefix of a Piece message does not count the message type. The model has the prefix as a
  parameter: with the code's 8 no Piece survives the wire, with 9 every Piece of up to 32 KiB does.
- A Suggest message comes back as a KeepAlive, since it has no decoder.
- The header of a message is read by a single Read. A stream is read right exactly when no chunk of it ends
  inside a header.
- A Piece received from a peer ends every request with its index or its offset, not only the one with both.
- After HaveAll a peer counts as having as many pieces as its bit field has bytes.
- The collecting loop for the info dictionary takes a reject for an empty piece 0.
- The chain of `GenFastSet` starts from three bytes of the address; BEP 6 has four, the last being zero. For every
  hash function the two give the same set exactly when no piece is asked for, or as many as there are or more.
  Of an IPv4 address in 16 bytes it takes three that are always 0, so that all such peers get the same set.
- An extended message with a code other than 0 and 2 is decoded to a nil message without an error.
- A failed handshake gives the slot back but leaves its entry in the map of hosts.
- An unverified save of a piece that is in the cache already is not seen by `Load`.

## Assumptions

The hash function is any function; where a theorem needs it, it has no collisions among the contents that
occur. Piece lengths are positive. `int` is unbounded, but message fields, frame lengths, the end of a
requested block and the offsets of requests wrap as `uint32`. What lies behind a piece in its buffer is any bytes.
Choosing from a map or at random is any choice.

## Model

| member | source | states |
|---|---|---|
| `Bits.Get` | pkg/bits/bits.go:69-84 | the bit of an index, 0 past the end |
| `Bits.IndicesAre` | pkg/bits/bits.go:69-84 | the set a field stands for holds exactly the indices Get reports, all below 8 times its bytes |
| `Bits.NewBitField` | pkg/bits/bits.go:136-142 | ceil(n/8) bytes that stand for the empty set |
| `Bits.Set` | pkg/bits/bits.go:87-102 | adds that index and no other, or fails and changes nothing exactly when it is past the end |
| `Bits.Unset` | pkg/bits/bits.go:104-119 | removes that index and no other |
| `Bits.Ones` | pkg/bits/bits.go:127-134 | stands for {0..n-1}, so the spare bits are 0 |
| `Bits.GetSum` | pkg/bits/bits.go:13-25 | the cardinality of the set |
| `Bits.GetMaxIndex` | pkg/bits/bits.go:28-47 | the maximum of a non-empty set, 0 for the empty one |
| `Bits.GetOnes` | pkg/bits/bits.go:55-67 | the set indices of one byte, ascending, none missing |
| `Bits.SumMeansAll` | internal/data/client.go:236-238 | with no bit at n or above, the sum is n if and only if all of 0..n-1 are set |
| `Bits.SpareBitFoolsSum` | internal/data/client.go:236-238 | without that proviso the sum can be right while a piece is missing |
| `Torrents.GroupBytes` | pkg/btorrent/torrent.go:200-218 | ceil(len/n) groups, group g being bytes g*n up to the next group or the end |
| `Torrents.GetPieces` | pkg/btorrent/file.go:43-63 | the hashes of as many pieces as the file touches, the overlap flag if it does not end on a boundary, a panic exactly when there are too few |
| `Torrents.GetFiles` | pkg/btorrent/torrent.go:254-282 | every file gets the hashes from its first piece on, the remaining list always starting at piece floor(sum/pieceLength); no panic exactly when all files are in range |
| `Torrents.FileEnds` | pkg/btorrent/torrent.go:254-282 | where a file's first and last piece lie around its bytes |
| `Torrents.PiecesMeetFile` | pkg/btorrent/torrent.go:254-282 | the pieces of a non-empty file are exactly those that contain one of its bytes |
| `Torrents.NeighboursShare` | pkg/btorrent/torrent.go:272-276 | a non-empty file shares its last piece with the next file if and only if that one does not start on a piece boundary |
| `Torrents.InRangeWhenFilled` | pkg/btorrent/file.go:55 | with ceil(total/pieceLength) pieces, an index goes out of range exactly when the last file is empty and the stream fills its pieces |
| `Torrents.Torrent.Files` | pkg/btorrent/torrent.go:221-252 | the single file with all pieces, or the laid out files, cached or not |
| `Torrents.Torrent.Length` | pkg/btorrent/torrent.go:287-295 | the total of the file lengths |
| `Torrents.SingleFileLayout` | pkg/btorrent/torrent.go:234-246 | the single file with all pieces is the layout of the general case if and only if there are as many pieces as the data needs, or one if there is no data |
| `Torrents.GetPieceIndex` | pkg/btorrent/torrent.go:400-408 | is the search function PieceIndex |
| `Torrents.PieceIndexIsFirst` | pkg/btorrent/torrent.go:400-408 | which finds the first index with the hash, or -1 exactly when there is none |
| `Torrents.ListedHashIsFound` | pkg/btorrent/torrent.go:400-408 | the hash of piece p is found at p or before it |
| `Torrents.VerifiedIsPiece` | pkg/btorrent/torrent.go:52-59 | without collisions, content that verifies for index p is piece p of the stream |
| `Assembler.GetFileOffset` | internal/assembler/service.go:64-75 | how far into its first piece the file starts, from the lengths of the files before it |
| `Assembler.LoadedPiece` | internal/assembler/service.go:129-134 | a piece found by first match of a hash is the right piece, also when hashes repeat |
| `Assembler.AssembleFile` | internal/assembler/service.go:118-154 | for any files: the panic at a file without pieces, and else what AssembleFrom says, slicing up to the capacity of each buffer |
| `Assembler.AssembledFile` | internal/assembler/service.go:118-154 | it panics if and only if its first piece loads and its overrun is more than lies behind that; otherwise it is done if and only if all its pieces load, and then has written its bytes up to the overrun and those behind the piece |
| `Assembler.RightIffFits` | internal/assembler/service.go:136-142 | with all pieces on disk, the output is the stream from the file's start to its end, whatever lies behind the pieces, if and only if the file fits |
| `Assembler.CleanIsRight` | internal/assembler/service.go:138-139 | what is written is right if and only if the overrun happens to find the missing bytes; a file that fits has none |
| `Assembler.StraddlingFile` | internal/assembler/service.go:138-139 | files of pl-1 and 2 bytes: the second panics if nothing lies behind the first piece, and else is written with the byte behind it as its last |
| `Assembler.FileDone` | internal/assembler/service.go:48-62 | true exactly when the first match of every hash of the file is held |
| `Assembler.Assembler.AssembleTorrent` | internal/assembler/service.go:77-105 | for any files and any state left by other torrents: the new state and whether the call survives are those of the function Pass; nothing is touched under a name whose files were all marked or lack a held piece; a newly marked name has a file with all its pieces held and on disk, and as many bytes as it announces |
| `Assembler.LaidOutPass` | internal/assembler/service.go:77-105 | for files laid out over the pieces that is WholePass, which the results below are about |
| `Assembler.Pieceless` | internal/assembler/service.go:127 | with a single file that has no pieces, a pass goes through if and only if its name was marked before |
| `Assembler.PassEffect` | internal/assembler/service.go:77-105 | also for equal names: a pass panics at the first file that does and is not passed over; otherwise it marks exactly the files that finish, and writes each that it does not pass over |
| `Assembler.PassUntouched` | internal/assembler/service.go:77-105 | nothing changes in other directories or under names marked before |
| `Assembler.FateIs` | internal/assembler/service.go:79-100 | which files finish and which panic, and when what they finish with is right |
| `Assembler.MarkedAre` | internal/assembler/service.go:100 | with distinct names, a pass marks the name of a file if and only if the file is ready |
| `Assembler.GoesThroughIff` | internal/assembler/service.go:77-105 | with distinct names, a pass goes through if and only if every faulty file was marked before |
| `Assembler.FileAfterPass` | internal/assembler/service.go:77-105 | file by file: marked before, it stays as it is; else, if ready, it is there rightly if and only if it is clean |
| `Assembler.SoundIff` | internal/assembler/service.go:77-105 | a pass keeps every marked file right if and only if each file it marks is clean |
| `Assembler.UnloadedAfterPass` | internal/assembler/service.go:90-93 | a file that is done but has a piece that cannot be loaded is not marked, and what comes before that piece is left in its place |
| `Assembler.AfterPanic` | internal/assembler/service.go:79-90 | a pass that panics has come to the first faulty file that was not marked, and leaves an empty file under its name; those after it are as before |
| `Assembler.AllReadyIff` | internal/assembler/service.go:79-100 | every ready file is there rightly after a pass if and only if it is clean, or was marked and there before |
| `Assembler.OtherTorrent` | internal/assembler/service.go:79-100 | a pass for one torrent leaves another one sound if and only if no name it marks is that of a file of the other that is not there yet |
| `Assembler.FilesConcatenate` | internal/assembler/service.go:118-154 | slices of the stream, one per file, concatenate to the stream |
| `Assembler.DownloadsAreStream` | internal/assembler/service.go:77-105 | in a sound session with all files marked, the contents of the directory in order are the stream |
| `Workers.Worker.Receive` | internal/data/worker.go:69-87 | keeps the first block of an offset, and exits when complete |
| `Workers.Worker.GetBytes` | internal/data/worker.go:96-106 | whatever the order of the map, each byte comes from a block that covers it, or is 0; a panic exactly when a block is out of bounds |
| `Workers.Worker.RequestPiece` | internal/data/worker.go:108-146 | the list Missing of requests, for the piece length modulo 2^32 |
| `Workers.CompleteMeansAll` | internal/data/worker.go:92-94 | for genuine blocks, isComplete if and only if every block of the piece has arrived |
| `Workers.CompleteOverlayIsPiece` | internal/data/worker.go:96-106 | and then bytes is the piece, whatever the order |
| `Transfers.MissingAre` | internal/data/worker.go:108-146 | the requests are exactly the blocks not there yet, the last one shortened |
| `Transfers.MissingAscend` | internal/data/worker.go:108-121 | in ascending order, none twice |
| `Transfers.RequestIsServed` | internal/data/message.go:56-70 | a holder of the piece answers each with the genuine block, whatever lies behind the piece |
| `Transfers.ServedRightIff` | internal/data/message.go:66 | a request is answered with as many bytes of the piece as it asks for, whatever lies behind it, if and only if it ends within the piece |
| `Transfers.FirstIsKept` | internal/data/worker.go:69-76 | whatever the messages, a worker has at each offset the block it had or the first that came for it, and misses none while its loop goes on |
| `Transfers.EndsWhenComplete` | internal/data/worker.go:78-87 | its loop ends with exactly the block that makes the count complete |
| `Transfers.FeedKeeps` | internal/data/worker.go:69-87 | blocks in any order keep the worker's blocks genuine |
| `Transfers.FeedCompletes` | internal/data/worker.go:69-106 | once every block is there or among the messages, the worker is complete and bytes gives exactly the piece |
| `Transfers.TransferIsExact` | internal/data/worker.go:96-146 | the answers to all requests, in any order and with repeats, complete the worker with exactly the piece |
| `Transfers.RequestsAddUp` | internal/data/worker.go:108-146 | the requests of a whole piece add up to its length |
| `Clients.ServePiece` | internal/data/message.go:56-70 | serving all requests for a piece that a fresh worker makes answers each with its block, and Uploaded grows by the length of the piece |
| `Downloads.RunKeeps` | internal/data/client.go:129-177 | in every reachable state: pieces in flight are in range and neither held before nor ignored, at most maxPending+1 workers, held bits only grow, and every held piece is on disk, pending or rejected, unless its worker was given length 0 |
| `Downloads.MissingIsMeasure` | internal/data/client.go:158-177 | no piece is announced twice, and pieces announced plus pieces missing is constant |
| `Outcomes.RejectedIff` | internal/data/worker.go:148-153 | a save of a piece was rejected if and only if the run has a save of it whose bytes do not have the listed hash |
| `Outcomes.HeldIffSaved` | internal/data/worker.go:78-84 | whatever blocks arrive, a held piece is verified on disk or can still be saved if and only if it was there at the start or its worker took a block in during the run, no save of it failed, and no block that was taken in goes past its end; only a worker of length 0 is cleared without a block |
| `Outcomes.HeldIffNoneFailed` | internal/data/worker.go:78-84 | when no block for it went past its end: if and only if no save of it failed, and, should its worker have got length 0, it was there at the start or a block was taken in |
| `Outcomes.CorruptPieceIsHeld` | internal/data/client.go:162-165 | for any corrupt content of a piece of any length, a run in which it ends up held but nowhere on disk |
| `Outcomes.StuckPieceIsHeld` | internal/data/worker.go:102-104 | a run in which a piece is held while bytes panics, so that it can never be saved |
| `Downloads.WorkerLengthRight` | internal/data/client.go:306-308 | the worker's length is the piece's, but for the last one when the total is a multiple of the piece length |
| `Downloads.GenuineRunKeeps` | internal/data/client.go:158-177 | with genuine blocks, every step keeps workers, pending saves and disk genuine |
| `Downloads.HeldIsSecuredIff` | internal/data/client.go:158-177 | every run with genuine blocks has every held piece's true bytes on disk or in a pending save, and none rejected, if and only if the last piece is safe |
| `Downloads.EmptyLastPiece` | internal/data/client.go:306-308 | the run that breaks it otherwise |
| `Completion.CanComplete` | internal/data/client.go:291-336 | from every state that a run with genuine blocks reaches, some more of it leads to every piece that is not ignored being held and no save outstanding; it may count on peers to have pieces started |
| `Loops.PlayIsTrace` | internal/data/client.go:179-234 | what the loop does is a run of the downloader |
| `Loops.BeatHolds` | internal/data/client.go:158-177 | at a tick a piece is held from then on, and announced, exactly if its worker has as many blocks as it is long; the other workers stay |
| `Loops.BeatStartsFirst` | internal/data/client.go:207-210 | a new worker comes for a piece exactly if it is the first one left and fewer than maxPending workers stay |
| `Loops.LoopCompletesIff` | internal/data/client.go:208 | from every such state the loop alone can go on to that end if and only if maxPending is positive or all missing pieces are in flight |
| `Loops.StartedLoopIff` | internal/data/client.go:187-210 | after the unguarded first piece: if and only if maxPending is positive or that piece is the only one missing |
| `Loops.BeatsGain` | internal/data/client.go:206-210 | over every run in which each worker has its blocks at each tick, whatever else happens: there is always a worker after the first tick, and each later one takes at least one missing piece, until none is left |
| `Loops.ServedLoopCompletes` | internal/data/client.go:206-210 | so after one tick more than there are missing pieces every piece that is not ignored is held |
| `Clients.MayStartIff` | internal/data/client.go:22-24 | maxPending is the largest number of pieces that fit into 50 MiB, and positive if and only if pieces are no longer than that |
| `Clients.Client.DownloadPiece` | internal/data/client.go:291-336 | starts a worker of the right length unless the piece is in flight or ignored or there are too many; panics exactly when it would start one for an index past the pieces |
| `Clients.Client.StartMissing` | internal/data/client.go:291-336 | for a missing piece this is the step Spawn, and starts nothing exactly when the step is not enabled |
| `Clients.Client.RequestPiece` | internal/data/service.go:167-175 | the step Spawn if it is enabled; panics exactly when a peer names an index past the pieces and there is room |
| `Clients.Client.HandleAllowedFast` | internal/data/message.go:44-54 | the step Spawn if it is enabled, for any index |
| `Clients.Client.NextNPieces` | internal/data/client.go:129-156 | pieces neither held, ignored nor in flight; empty exactly when n is not positive or there are none; for n = 1 the first one |
| `Clients.Client.DownloadN` | internal/data/client.go:240-244 | a run of Spawn steps, not empty if a piece is left and there is room; for n = 1 at most one, of the first piece left |
| `Clients.Client.OnTick` | internal/data/client.go:206-210 | is the beat of the loop: the step Tick, and then the step Spawn of the first piece left if fewer than maxPending are in flight |
| `Clients.Client.SaveWorker` | internal/data/worker.go:78-84 | is the step Save, with the piece manager's files as the disk; a panic exactly when a block is out of bounds |
| `Clients.Client.StartDownload` | internal/data/client.go:100-109 | verifyPieces on a new client leads to a started download, held being what is on disk, if and only if all that is on disk has the listed hash |
| `Clients.Client.Done` | internal/data/client.go:236-238 | true exactly when every piece is held |
| `Clients.Client.HandlePieceMessage` | internal/data/message.go:19-30 | is the step Block |
| `Clients.Client.ClearCompletedPieces` | internal/data/client.go:158-177 | is the step Tick |
| `Clients.Client.VerifyPieces` | internal/data/client.go:339-355 | succeeds exactly when all that is on disk verifies, and adds all of it; otherwise stops at the first that does not |
| `Clients.Client.HandleRequestMessage` | internal/data/message.go:56-70 | refused exactly if the piece is not held or cannot be loaded; sent exactly if offset <= (offset + length) mod 2^32 <= capacity, and then those bytes, by whose number Uploaded grows |
| `Clients.Client.WithFiles` | internal/data/client.go:359-381 | a piece is ignored exactly if it is not the first match of a hash of a selected file; panics exactly when a file index is out of range |
| `Clients.PartialIsEnough` | internal/data/client.go:359-381 | once every piece that is not ignored is held, fileDone is true of every selected file, also when hashes repeat |
| `WholeDownloads.RunDisk` | internal/data/worker.go:148-155 | over every run, whatever blocks arrive, every piece on disk is that piece of the stream |
| `WholeDownloads.ReachedIsGiven` | internal/data/client.go:206-225 | after any run the assembler's assumptions hold, and every held piece is on disk or lost (its save outstanding or failed, or a last piece of length 0), never both |
| `WholeDownloads.ReadyIff` | internal/assembler/service.go:77-105 | a file can then be assembled if and only if it is done, none of its pieces is lost, and enough lies behind its first piece |
| `WholeDownloads.FaultyIff` | internal/assembler/service.go:77-105 | it makes the pass panic if and only if it is done, its first piece is not lost, and too little lies behind that |
| `WholeDownloads.PassKeepsSound` | internal/data/client.go:222 | when each file fits, was marked, or can never be done, a pass at any state of any run goes through and keeps the session sound |
| `WholeDownloads.AssembleAtTick` | internal/data/client.go:206-225 | a pass at any tick of any run, also with corrupt blocks, saves outstanding or failed: when it goes through, what it marks, that what it writes is right if and only if the file is clean, and when that keeps the session sound |
| `WholeDownloads.CompleteIff` | internal/data/client.go:222 | once all pieces are held and none is lost, a pass leaves all files, concatenated the whole stream, if and only if each is clean or marked before |
| `WholeDownloads.SelectedAreDone` | internal/data/client.go:359-381 | once every piece of the selection is held, the selected files are done |
| `WholeRuns.CourseKeepsSound` | internal/data/client.go:179-234 | over every interleaving of downloader steps and passes from a sound session, with any blocks and anything behind the pieces: when all files are harmless, every pass goes through and the session stays sound |
| `WholeRuns.BreaksOtherwise` | internal/assembler/service.go:138-139 | when some file is not, there is a run with genuine blocks and a pass after every tick that ends with a panic |
| `WholeRuns.SoundIffHarmless` | internal/data/client.go:179-234 | every run stays up and sound if and only if each file fits, or was marked at the start, or lists a piece that is ignored and not there |
| `WholeRuns.CanDeliverIff` | internal/data/client.go:179-234 | with genuine blocks and a safe last piece: from every system reached from a sound session one can go on, with a pass after every tick, to have every file that can be had written rightly, if and only if that holds |
| `WholeRuns.CanBeAssembled` | internal/data/client.go:179-234 | the run that does so; if nothing is ignored, it leaves the whole stream |
| `WholeRuns.LoopCanAssemble` | internal/data/client.go:179-234 | the same by the loop of the client alone, if maxPending is positive or all missing pieces are in flight |
| `WholeRuns.LastNeverSaved` | internal/data/client.go:306-308 | an unsafe last piece never gets on disk in any run |
| `WholeRuns.AllSavedIff` | internal/data/client.go:306-308 | some run with genuine blocks gets every piece that is not ignored on disk if and only if the last piece is safe |
| `WholeRuns.LastNeverDelivered` | internal/data/client.go:306-308 | if it is not, no run ever marks a file that needs it |
| `Wire.ParseBody` | pkg/btorrent/peer/message.go:375-486 | the decoders undo the encoders on every body but Suggest and an extended one without a known code |
| `Wire.FrameOf` | pkg/btorrent/peer/message.go:58-304 | the exact bytes of each message: length, type number, big-endian fields |
| `Wire.FrameGives` | pkg/btorrent/peer/message.go:334-486 | what each type number and payload is taken for, with every malformed length |
| `Wire.NoFrame` | pkg/btorrent/peer/message.go:334-368 | the end of the stream, a length of 0 or above 32 KiB, and a body that is cut short |
| `Wire.RoundTrip` | pkg/btorrent/peer/message.go:58-486 | a message comes back, what follows it untouched, if and only if it is supported |
| `Wire.PieceLosesLastByte` | pkg/btorrent/peer/message.go:199 | with the code's prefix the last data byte is cut off and stays in the stream; without data, decoding panics |
| `Wire.SuggestBecomesKeepAlive` | pkg/btorrent/peer/message.go:405-406 | a Suggest is decoded as KeepAlive |
| `Wire.StreamRoundTrip` | pkg/btorrent/peer/message.go:334-408 | a list of messages comes back from its concatenated encodings, nothing left, if and only if each is supported |
| `Wire.UnmarshalHandshake` | pkg/btorrent/peer/message.go:309-332 | takes 68 bytes or fails, and encoding what it gives restores them |
| `Wire.HandshakeAt` | pkg/btorrent/peer/message.go:321-329 | each field at its position in the 68 bytes, read |
| `Wire.HandshakeWrites` | pkg/btorrent/peer/message.go:42-56 | and written |
| `Wire.HandshakeRoundTrip` | pkg/btorrent/peer/message.go:42-56 | a handshake comes back if and only if its protocol string has 19 bytes |
| `Readers.Reader.UnmarshallMessage` | pkg/btorrent/peer/message.go:334-373 | result and remaining chunks are those of Receive |
| `Readers.Reader.ReadBody` | pkg/btorrent/peer/message.go:356-368 | the loop fills the buffer with the next bytes however they are chunked, or runs out exactly when there are too few |
| `Readers.WholeHeader` | pkg/btorrent/peer/message.go:334-373 | behind a whole header, receiving from chunks is decoding their concatenation, also for malformed input |
| `Readers.ChunkedRoundTrip` | pkg/btorrent/peer/message.go:334-408 | any list of supported messages in chunks of any sizes is received as that list if and only if no chunk ends inside a header |
| `Exchanges.BlocksSurviveIff` | pkg/btorrent/peer/message.go:196-208 | the blocks of a piece come back from the wire if and only if the prefix counts 9 bytes or there are none |
| `Exchanges.ExchangeIsExact` | internal/data/worker.go:96-146 | requests and answers over the wire, in any order with repeats and with the right prefix, give the worker exactly the piece |
| `Exchanges.OneBlockLosesItsEnd` | pkg/btorrent/peer/message.go:199 | with the code's prefix, a worker with a piece of one block takes it for complete, and its bytes are right if and only if the last one is 0 |
| `Tracker.Response.Unmarshal` | pkg/btorrent/tracker/udp.go:193-224 | the four outcomes and what each fills in, as the function Unmarshalled; peers are appended |
| `Tracker.DatagramRead` | pkg/btorrent/tracker/udp.go:193-224 | an announce byte by byte: five numbers by position, and the address and port of each peer from its own six bytes |
| `Tracker.DatagramRefused` | pkg/btorrent/tracker/udp.go:193-206 | the other answers by length and action, and that peers are appended |
| `Tracker.DatagramWritten` | pkg/btorrent/tracker/tracker.go:176-191 | what is written, byte by byte |
| `Tracker.To4Is` | pkg/btorrent/tracker/tracker.go:187 | which addresses are IPv4, and which four bytes of them are written |
| `Tracker.PeersInAt` | pkg/btorrent/tracker/udp.go:213-221 | the i-th peer is read from its own 6 bytes |
| `Tracker.Response.Bytes` | pkg/btorrent/tracker/tracker.go:176-191 | the header and then 6 bytes a peer, 2 for one without an IPv4 address |
| `Tracker.OutcomeOf` | pkg/btorrent/tracker/udp.go:198-206 | an encoded response is taken if and only if its action is ANNOUNCE |
| `Tracker.UnmarshalsNormal` | pkg/btorrent/tracker/udp.go:193-224 | an announce with IPv4 peers comes back with its addresses in 4-byte form |
| `Tracker.RoundTrip` | pkg/btorrent/tracker/tracker.go:176-191 | a response comes back as it was if and only if it is an announce and all addresses have 4 bytes |
| `Tracker.EncodesBack` | pkg/btorrent/tracker/udp.go:193-224 | encoding what was unmarshalled gives the datagram back up to an incomplete last peer |
| `Metadata.RequestInfoDict` | pkg/btorrent/peer/meta.go:20-37 | one request for each of ceil(size/16384) pieces, in order |
| `Metadata.SizeOf` | pkg/btorrent/peer/util.go:3-10 | the sum of the lengths |
| `Metadata.Flatten` | pkg/btorrent/peer/util.go:12-19 | the concatenation |
| `Metadata.GetInfoDict` | pkg/btorrent/peer/meta.go:107-140 | is the function Collect of the messages |
| `Metadata.ArrivedAtAll` | pkg/btorrent/peer/meta.go:122-128 | without rejects, a slot is filled exactly when its slice is among the messages |
| `Metadata.CompleteMeansArrived` | pkg/btorrent/peer/meta.go:128-131 | from true slices and rejects, in any order with repeats, the sizes add up if and only if every slot has its slice, and then flatten is the dictionary |
| `Metadata.FetchIsExact` | pkg/btorrent/peer/meta.go:107-140 | the loop ends with the dictionary if and only if some prefix of the messages has brought everything, and otherwise waits |
| `FastSets.PieceIn` | pkg/btorrent/torrent.go:450-458 | membership |
| `FastSets.GenFastSet` | pkg/btorrent/torrent.go:416-442 | the first k different draws in order, stopping at the k-th; draw q is the big-endian word q % 5 of the hash that is the (q / 5 + 1)-th over three address bytes and the info hash, modulo the number of pieces |
| `FastSets.DrawAt` | pkg/btorrent/torrent.go:420-431 | word i of the hash after j others, byte by byte |
| `FastSets.StandardDraws` | pkg/btorrent/torrent.go:410-415 | the draws of BEP 6, from the address with 0 as its last byte |
| `FastSets.DistinctAre` | pkg/btorrent/torrent.go:433-437 | all the values drawn, none twice |
| `FastSets.InOrder` | pkg/btorrent/torrent.go:428-438 | in the order of their first occurrences |
| `FastSets.SmallerIsPrefix` | pkg/btorrent/torrent.go:416-442 | a smaller set is a prefix of a larger one, so the result does not depend on the number of draws |
| `FastSets.SetOfPieces` | pkg/btorrent/torrent.go:431 | all in range, none twice, not more than there are pieces |
| `FastSets.ImpossibleBeyondPieces` | pkg/btorrent/torrent.go:424 | with fewer than k pieces no number of hashes is enough |
| `FastSets.StandardIff` | pkg/btorrent/torrent.go:420-422 | for an IPv4 address in 4 or 16 bytes, the code and BEP 6 give the same set for every hash function if and only if k is 0 or at least the piece count |
| `FastSets.MappedAlike` | pkg/btorrent/torrent.go:421 | IPv4 peers whose addresses have 16 bytes all get the same set |
| `Connections.ConnectionService.TakeSlot` | internal/conn/service.go:69-79 | takes a slot exactly when there is one |
| `Connections.ConnectionService.CloseConn` | internal/conn/service.go:42-52 | gives the slot of a listed connection back, once |
| `Connections.StateRecordsRun` | internal/conn/service.go:42-155 | over every run, the state of a connection tells exactly which of its events have happened, and how many closings are on their way |
| `Connections.TakesIfFree` | internal/conn/service.go:69-79 | a connection gets a slot if there is one and is refused otherwise |
| `Connections.InAndOut` | internal/conn/service.go:42-155 | from every such state, a connection can come in by dialling or accepting and go out again, leaving slots and hosts as they were |
| `Connections.StepKeepsConsistent` | internal/conn/service.go:42-155 | every step keeps what holds of each connection |
| `Connections.RunKeepsInv` | internal/conn/service.go:42-155 | every interleaving keeps slots in use equal to connections that hold one |
| `Connections.SlotsAreCounted` | internal/conn/service.go:42-155 | over every interleaving, slots in use stay within the limit, are those acquired and not released, and none is released twice |
| `Connections.ReceivesDoNotBlock` | internal/conn/service.go:50-51 | no receive of a slot ever blocks, and a finished Close has given its slot back |
| `Connections.HostsAreHoldersAndFailures` | internal/conn/service.go:110-116 | what the map of hosts holds: entered connections in use, and every failed handshake |
| `Connections.FailureStays` | internal/conn/service.go:110-116 | a failed handshake leaves its entry |
| `Connections.CloseConnIsLockAndReceive` | internal/conn/service.go:42-52 | closeConn is the protocol's two steps, and may be called where the protocol takes the lock |
| `Peers.Peer.Send` | pkg/btorrent/peer/peer.go:116-142 | is the step Sends |
| `Peers.Peer.Handle` | pkg/btorrent/peer/peer.go:205-245 | is the step Receives, and what it does to the set of the peer's pieces |
| `Peers.Peer.Listen` | pkg/btorrent/peer/peer.go:205-233 | over any messages received, an index is in the peer's field exactly if the last BitField or HaveAll, or the start, has it, or a Have that the field has room for came after that |
| `Peers.Peer.IsServing` | pkg/btorrent/peer/peer.go:106-114 | some outstanding request has both index and offset |
| `Peers.Peer.OnClose` | pkg/btorrent/peer/peer.go:102-104 | adds a hook at the end |
| `Peers.Peer.Close` | pkg/btorrent/peer/peer.go:84-100 | the hooks are run by the first call only |
| `Peers.RequestsAreOutstanding` | pkg/btorrent/peer/peer.go:208-244 | after any history the list is exactly the requests sent since which no Choke, no Reject with the index and no Piece with the index or offset came |
| `Peers.IntendedRequests` | pkg/btorrent/peer/peer.go:214 | it is the list with index and offset if and only if no Piece for another block has taken a request along |
| `Peers.AnswerEndsBoth` | pkg/btorrent/peer/peer.go:214 | the answer to one of two requested blocks ends both requests |
| `Peers.InterestAlternates` | pkg/btorrent/peer/peer.go:122-128 | two Interested messages never go on the wire without a NotInterested between them |
| `Peers.WireIs` | pkg/btorrent/peer/peer.go:116-142 | over any history, exactly which messages have gone on the wire, and whether the peer is closed |
| `Peers.FlagsFollow` | pkg/btorrent/peer/peer.go:116-245 | Blocking, Interested, Choked and Interesting each say which of their messages came last in the history |
| `Peers.CountersAddUp` | pkg/btorrent/peer/peer.go:116-245 | the counters are the bytes of all pieces sent and received |
| `Peers.HaveAllIsTooLittle` | pkg/btorrent/peer/peer.go:233 | after HaveAll all n pieces count as there if and only if n is at most 1 |
| `PieceCache.PieceManager.Load` | internal/pieces/service.go:43-64 | answers from the cache, or from disk into the cache |
| `PieceCache.PieceManager.Save` | internal/pieces/service.go:31-41 | writes the disk and leaves the cache alone |
| `PieceCache.PieceManager.Verify` | internal/pieces/service.go:66-80 | accepts exactly the content with the listed hash |
| `PieceCache.PieceManager.SavePiece` | internal/data/worker.go:148-155 | saves only what verifies |
| `PieceCache.SaveKeepsAgreement` | internal/pieces/service.go:31-64 | every step keeps cache and disk in agreement, a save if and only if the piece is not cached or has the same bytes |
| `PieceCache.CacheIsTransparent` | internal/pieces/service.go:31-80 | over every run with verified saves, all answers are those of a service without a cache, and the cache agrees with the disk |
| `PieceCache.UnverifiedSaveIsNotSeen` | internal/pieces/service.go:51-53 | after an unverified save Load gives the old bytes |
| `Choking.PeerService.GetPeersSorted` | internal/peers/service.go:56-70 | all peers, each once, and sorted if an order is asked for |
| `Choking.PeerService.Get` | internal/peers/service.go:72-92 | peers that pass the filter, none twice, at most the limit, and all of them if the limit is not reached; with an order, sorted, and none left out that is before one taken |
| `Choking.PeerService.ChooseServer` | internal/session/events.go:29-61 | a block is asked of one that can serve it and has fewer than five before it in the order of upload rate and bytes; of nobody exactly when none can |
| `Choking.PeerService.Swarms` | internal/peers/service.go:94-133 | the numbers of open peers by flag |
| `Choking.PeerService.Add` | internal/peers/service.go:135-167 | adds an open peer that is not there yet |
| `Choking.PeerService.Remove` | internal/peers/service.go:169-178 | removes that peer only |
| `Choking.PeerService.Unchoke` | internal/session/session.go:203-230 | is a round of the protocol: a choked and interested peer is unchoked if there is one, at most one other is choked, and nothing else changes |
| `Choking.StepsOfPeers` | pkg/btorrent/peer/peer.go:205-233 | the other steps are what receiving the message, or closing, does to that peer; no other changes |
| `Choking.ToldByRound` | pkg/btorrent/peer/peer.go:116-122 | choking and unchoking are what sending the message does |
| `Choking.OtherChanges` | pkg/btorrent/peer/peer.go:205-233 | whatever else the session asks of a peer may change at any time |
| `Choking.JoinsAs` | internal/peers/service.go:135-156 | a peer joins in its initial state, or after an Interested message |
| `Choking.RoundAccounts` | internal/session/session.go:203-230 | a round unchokes one peer if there is a candidate and chokes one if four open ones were unchoked |
| `Choking.UnchokedIsBounded` | internal/session/session.go:203-230 | over every run, at most 4 unchoked peers plus the Interested messages and the closings so far |
| `Choking.QuietRoundsShrink` | internal/session/session.go:216-227 | in an open swarm, rounds without candidates take the number down to 3 one by one |

## Left out

- The command line, the HTTP server, statistics, size formatting: user interface.
- Sockets, deadlines, tickers, UPnP, UDP dialling and retries: I/O and time; only the state changes they trigger are there.
- bencode, magnet links, torrent files on disk: metadata is a record (`Torrents.Meta`). The payload of extended messages stays uninterpreted behind its code, so that a malformed one is not told from a good one.
- Data races and the Go memory model: every step is atomic. In the downloader, looking at the state and starting a worker is one step, and so is looking a worker up and handing it a block; a block, a save, a tick and a pass of the assembler are separate.
- WholeRuns.CanDeliverIff: for a safe last piece; otherwise WholeRuns.LastNeverDelivered says which files are never written.
- Choking.PeerService.ChooseServer: the set of pieces that a choked peer may ask for is a field of the peer here; the source computes it anew by GenFastSet, which does not return for a torrent of fewer than ten pieces.
- Workers.Worker.RequestPiece: for a piece length whose remainder modulo 2^32 is at most 2^32 - 2^14; otherwise the loop of the source does not end.
- Clients.Client.Done: for a field without spare bits; Bits.SpareBitFoolsSum shows why.
- `Clients.Client` holds the progress of its workers and `Choking.PeerService` the flags of its peers as values, not as references to `Workers.Worker` and `Peers.Peer`; aliasing between them is not modelled.
- WholeDownloads.AssembleAtTick: the assembler reads the disk directly; that the cache of the piece manager makes no difference is PieceCache.CacheIsTransparent.
- Outcomes.StuckPieceIsHeld: the panic of one goroutine ends the whole program; the model's run goes on without it.
- Connections.ConnectionService.TakeSlot: the checks of Dial for the client's own address and for one that has been dialled are left out, and so is the map of torrents.
- Torrents.GetFiles: the files of a dictionary are given as lengths and names; entries that are not dictionaries, which the source skips, are not modelled.
- Assembler.Assembler.AssembleTorrent: creating and writing a file succeeds; two torrents of the same name would share a directory, which only the results that ask for different directories exclude.
- PieceCache.PieceManager.Save: a write to disk succeeds; the source ignores its errors.
- FastSets.GenFastSet: requires three address bytes, a piece, and that the chain has k different values at all; otherwise the source panics or does not return.
- Choking.PeerService.GetPeersSorted: the order in which peers that are not told apart come is any; for an order that is not a weak one nothing is said.
- Peers.Peer.Handle: extended handshakes, the upload rate and the channels are left out.
- Trackers over HTTP, announce requests, peer discovery, peer-id names, session events: they would only add easy members.
