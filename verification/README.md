# The aesdchar device and the aesdsocket server, in Dafny

The repository holds a Linux character device that remembers the last ten lines written to it
(`aesd-char-driver`), and a TCP server that stores its clients' lines in that device and sends its
content back (`server`). This project models both and proves what they promise.

- `Bytes`, `Positions`: byte strings; byte offsets against places (line, offset in the line).
- `DeviceSpec`: the driver on values. A device is the log of all committed lines and the bytes still
  pending; its content is the last ten lines, end to end. Writes, reads, seeks and all their failures.
- `KernelHeap`, `CircularBuffer`, `CharDevice`: the driver as it is written, on heap blocks, with the
  ring's indices and its loops, proved against `DeviceSpec` on every path. The ring is proved for any
  capacity and used with ten.
- `Framing`, `SeekPacket`, `Sending`, `ServerSpec`: how a byte stream falls into packets, which packets
  are seek commands, what a client receives for given results of the send calls, and what one packet
  is answered with.
- `Stdio`, `ClientHandler`, `Connection`: one connection of the server as it is written, over the
  driver above. What each realloc, malloc and send meets, what other clients commit before a packet is
  served, and where their `strtok` calls fall, all is given, as are the receives; log and bytes sent are
  proved to be the only ones that allows (`DialogueOnce`). How stdio cuts its driver calls is left open.
- `Serving`, `ServerRuns`, `ServerTheorems`, `ServerWitnesses`: all clients together, over every
  interleaving of received bytes, `strtok` calls and packets served; each packet is served by driver
  calls and sends cut in any way, and what comes out is proved to be what `ServerSpec` says.
- `ThreadList`: the SLIST of client threads, linked and filtered in place.
- `ThreadProtocol`, `ThreadProofs`, `ThreadTheorems`, `ThreadWitnesses`: accept loop, joiner, clients
  and the stop flag as interleaved atomic steps, with the clients' waits for `log_file_mutex` and for
  their peers; an invariant, safety in every run, and where shutdown ends.

Calls that can fail take the failure as a parameter. The C library's
`strncpy`, `strtok` and `strtol` follow sections 7.24.2.4, 7.24.5.8 and 7.22.1.4 of ISO C11 with a
64-bit `long`. What the repository's design suggests but its code does not do:

- Shutdown need not end. The joiner closes the listed sockets once; a client listed after that waits in
  `recv` on a socket nobody closes, the joiner waits for it, and main for the joiner
  (`ServerCanHang`). Main gets done exactly when each client created after that pass and before the
  joiner has gone is ended by its peer (`ShutdownCompletesExactly`); clients created later hold up
  nobody.
- Not every client thread is joined at shutdown (`LateClientIsNotJoined`); all are exactly when none is
  created after the joiner has gone (`AllJoinedIffNoneLate`).
- Seek commands can be taken for others, or for data, and freed memory can be read: the packets are
  parsed with no lock held, and `strtok` keeps one position for the whole process
  (`OperandsCanMix`, `SeekCommandCanBecomeData`, `FreedCopyCanBeRead`, `TokenOfFreedCopyCanBeRead`). A packet between whose two
  calls no other client calls `strtok` is parsed right (`UndisturbedIsParsedRight`); in general exactly
  when the token the second call got converts as its own would, as long as no freed copy is read
  (`ParsedRightExactly`).
- Pending bytes can end in a newline: exactly after a commit that was interrupted
  (`PendingNewlineExactly`). Splitting a write changes the result exactly when the first part ends in a
  newline (`WriteSplit`).
- After a failed send the bytes sent need not be a prefix of the file (`FailedSendLeavesGap`), since the
  outer loop of `send_file` goes on with the next buffer. They are contiguous exactly when no send takes
  bytes after a failed one (`ContiguousExactly`).

## Model

| member | source | states |
|---|---|---|
| Positions.OffsetsFollowLexOrder | aesd-char-driver/aesd-circular-buffer.c:112-143 | absolute offsets order the valid (command, offset) pairs exactly as the lexicographic order does |
| Positions.LocateFromCorrect | aesd-char-driver/aesd-circular-buffer.c:53-71 | from any entry on, the place found lies exactly that many bytes further, and none is found only past the end |
| Positions.LocateThenOffset | aesd-char-driver/aesd-circular-buffer.c:45-72 | a position has an entry exactly when it is before the end of file, and the absolute offset of that place is the position again |
| Positions.OffsetThenLocate | aesd-char-driver/aesd-circular-buffer.c:112-143 | -1 exactly outside the valid pairs; inside, looking the absolute offset up gives the pair back |
| Positions.LineInConcat | aesd-char-driver/aesd-circular-buffer.c:34-36 | in all entries laid end to end, entry i is found at the sum of the sizes before it |
| Positions.ByteAtPlace | aesd-char-driver/aesd-circular-buffer.c:105-111 | the byte at the absolute offset of (x, y) is byte y of entry x |
| Positions.BytesAtOffset | aesd-char-driver/aesd-circular-buffer.c:34-44 | from a position to the end of its entry, content and entry agree byte for byte |
| DeviceSpec.ContentLength | aesd-char-driver/aesd-circular-buffer.c:78-98 | the sum of the entry sizes is the length of the readable content |
| DeviceSpec.WriteSplit | aesd-char-driver/main.c:204-263 | writing w1 then w2 equals writing w1 w2 if and only if w1 does not end in a newline, also when w2 runs out of memory or its commit is interrupted |
| DeviceSpec.SplitInvariance | aesd-char-driver/main.c:204-263 | any number of writes of which only the last may end in a newline equals one write of their concatenation |
| DeviceSpec.PacketBecomesOneLine | aesd-char-driver/main.c:238-257 | a packet whose only newline is its last byte becomes exactly one entry under every cut into non-empty writes |
| DeviceSpec.RunKeepsLinesWellFormed | aesd-char-driver/main.c:240-252 | over all runs with all failures, committed lines stay, and each is non-empty and ends in a newline |
| DeviceSpec.PendingNewlineExactly | aesd-char-driver/main.c:238-249 | over all runs, pending bytes end in a newline if and only if the last effective write ended in one and its commit was interrupted |
| DeviceSpec.WriteReturns | aesd-char-driver/main.c:191-274 | a write returns a non-negative value exactly when all its bytes are kept and nothing failed, and then their number; which failure gives which error, and what each leaves behind: out of memory the pending bytes are lost, after an interrupted commit the new ones are kept |
| DeviceSpec.WriteConservesBytes | aesd-char-driver/main.c:204-274 | but for failed allocation, a write adds its bytes at the end of log and pending, or nothing |
| DeviceSpec.RunConservesBytes | aesd-char-driver/main.c:204-274 | over all runs without failed allocation, log followed by pending is exactly the bytes accepted, in order |
| DeviceSpec.ContentAfterCommits | aesd-char-driver/aesd-circular-buffer.c:153-173 | after any commits the content is the old content and the new lines, less the evicted bytes at the front |
| DeviceSpec.EvictedExactly | aesd-char-driver/aesd-circular-buffer.c:159-163 | bytes are evicted exactly when old and new lines together exceed the capacity |
| DeviceSpec.ContentAfterCommit | aesd-char-driver/aesd-circular-buffer.c:153-173 | one commit takes the evicted line off the front of the content and puts the new one at its end |
| DeviceSpec.ReadingStep | aesd-char-driver/main.c:171-181 | a chunk that is copied extends what was read so far to the content up to the new position, and is not empty |
| DeviceSpec.ReadingDone | aesd-char-driver/main.c:165-186 | when the loop stops, it has read the content from the old position to the new one, and stopped early only for a failed copy |
| DeviceSpec.AdvanceReachesEnd | aesd-char-driver/main.c:165-182 | chunks never pass the end, and as many chunks as bytes asked for always reach it |
| DeviceSpec.AdvanceExactly | aesd-char-driver/main.c:165-182 | the k-th chunk ends at the end of the k-th entry from where the read starts, or where the bytes asked for end; so this is where a failed copy leaves f_pos |
| DeviceSpec.ReadsAreContiguous | aesd-char-driver/main.c:165-188 | successive reads of any counts deliver one contiguous range of the content |
| DeviceSpec.ReadUntilZero | aesd-char-driver/main.c:165-188 | reading until a read of a positive count returns 0 delivers exactly the content from the start position on |
| DeviceSpec.WholeRead | aesd-char-driver/main.c:165-188 | a read in which nothing fails delivers the bytes asked for, or all the rest if that is less |
| DeviceSpec.LlseekExact | aesd-char-driver/main.c:75-94 | under 64-bit wrap-around each whence succeeds exactly when the mathematical target lies in [0, EOF], and else leaves f_pos |
| DeviceSpec.SeekAcrossCommits | aesd-char-driver/main.c:116-133 | with any commits between the two critical sections the position set is within the second end of file, and addresses the byte that lies the evicted bytes further |
| DeviceSpec.SeekWithoutCommit | aesd-char-driver/main.c:116-133 | with none, seeking to an existing place succeeds and addresses byte y of line x |
| KernelHeap.Heap.Kmalloc | aesd-char-driver/main.c:215 | environment: a new block with at least the room asked for, or null and nothing changed |
| KernelHeap.Heap.Krealloc | aesd-char-driver/main.c:218-220 | environment: the block itself when it has room enough, or a new one with the old bytes instead; or null and the old block still live |
| KernelHeap.Heap.Kfree | aesd-char-driver/main.c:225 | environment: demands a live block, which is live no more; null is allowed |
| KernelHeap.Heap.LoadByte | aesd-char-driver/main.c:240-241 | environment: a load demands a live block and an index inside it |
| KernelHeap.Heap.CopyFromUser | aesd-char-driver/main.c:230-233 | environment: all bytes land at their place, or some of them do and nothing before is touched |
| KernelHeap.Heap.CopyToUser | aesd-char-driver/main.c:172-175 | environment: all bytes land at their place, or some do; nothing outside the range is touched |
| CircularBuffer.WrapOnce | aesd-char-driver/aesd-circular-buffer.c:25-26 | for the sums of offsets that occur, modulo subtracts the capacity at most once |
| CircularBuffer.SlotsAfterAdd | aesd-char-driver/aesd-circular-buffer.c:159-171 | an add shifts the entries held by one place if the ring was full, and puts the new one last |
| CircularBuffer.WalkFrom | aesd-char-driver/aesd-circular-buffer.c:53-58 | a scan from the k-th slot to the first NULL meets exactly the entries held from the k-th on |
| CircularBuffer.Ring.constructor | aesd-char-driver/aesd-circular-buffer.c:178-181 | an empty ring satisfies the ring's invariant |
| CircularBuffer.Ring.ReaderMeetsLastAdded | aesd-char-driver/aesd-circular-buffer.c:153-173 | after any number n of adds, the slots from out_offs to the first NULL are the last min(n, N) adds in order |
| CircularBuffer.Ring.GetEntryByOffset | aesd-char-driver/aesd-circular-buffer.c:20-29 | the k-th oldest entry; an empty slot when fewer are held; NULL exactly from the capacity on |
| CircularBuffer.Ring.FindEntryOffsetForFpos | aesd-char-driver/aesd-circular-buffer.c:45-72 | the loop returns the entry and offset of the position, and NULL exactly when there is none |
| CircularBuffer.Ring.FindEofOffset | aesd-char-driver/aesd-circular-buffer.c:78-98 | the loop sums the sizes of exactly the entries held |
| CircularBuffer.Ring.FindAbsoluteOffset | aesd-char-driver/aesd-circular-buffer.c:112-143 | the absolute offset of a valid pair, -1 for every other pair |
| CircularBuffer.Ring.AddEntry | aesd-char-driver/aesd-circular-buffer.c:153-173 | the entry is added last, the invariant on in_offs, out_offs and full is kept, and the oldest pointer is returned exactly when full |
| CharDevice.OwnershipAfterCommit | aesd-char-driver/main.c:251-257 | passing the pending block to the ring and freeing the evicted one leaves every live block with exactly one owner |
| CharDevice.StoresAfterCommit | aesd-char-driver/main.c:251-257 | the blocks still hold the lines of the log, the evicted one dropped and the new one last |
| CharDevice.Device.constructor | aesd-char-driver/main.c:310-317 | a new device has an empty log, nothing pending and no block |
| CharDevice.Device.HeldSizes | aesd-char-driver/aesd-circular-buffer.c:25-34 | the sizes in the ring are the lengths of the lines |
| CharDevice.Device.Allocate | aesd-char-driver/main.c:214-221 | room for the new bytes behind the pending ones, which are kept; on failure the old block is still live and nobody's |
| CharDevice.Device.GrowPending | aesd-char-driver/main.c:214-228 | ownership holds on both paths; on failure all pending bytes are dropped and their block freed |
| CharDevice.Device.AppendPending | aesd-char-driver/main.c:230-241 | the user's bytes follow the pending ones, or the pending ones are unchanged |
| CharDevice.Device.CommitPending | aesd-char-driver/main.c:251-257 | the pending line is the newest of the log and nothing is pending; no block is left over |
| CharDevice.Device.AesdWrite | aesd-char-driver/main.c:191-274 | which calls succeed, and -EINTR, -ENOMEM or -EFAULT for each failure; a write that succeeds returns the number of bytes it was given; log and pending bytes afterwards on every path, as the write specification has them; the invariant is kept |
| CharDevice.Device.FindChunk | aesd-char-driver/main.c:166-171 | the chunk lies in a live block, is not empty, and is the content at the position |
| CharDevice.Device.ReadChunk | aesd-char-driver/main.c:166-178 | the chunk is delivered behind the bytes already read, or the copy failed and those are untouched |
| CharDevice.Device.AesdRead | aesd-char-driver/main.c:144-189 | delivers the content between old and new f_pos and nothing behind it; without a failure it returns the smaller of count and the bytes left; f_pos moves by exactly the chunks fully copied, on -EFAULT too |
| CharDevice.Device.FindEof | aesd-char-driver/main.c:71 | the end of file is the length of the content |
| CharDevice.Device.AesdLlseek | aesd-char-driver/main.c:61-98 | result and f_pos are those of the seek specification on the current content, or -EINTR and nothing changed |
| CharDevice.Device.LookUpSeek | aesd-char-driver/main.c:116-126 | the absolute offset of the operands among the lines held now |
| CharDevice.Device.OthersWrite | aesd-char-driver/main.c:191-274 | any sequence of write calls keeps the invariant and acts as its run on values |
| CharDevice.Device.AesdIoctl | aesd-char-driver/main.c:100-142 | for any writes between the critical sections and any failure, which error is returned; f_pos changes on success only, to the place found in the first section if it is within the second end of file |
| CharDevice.Device.EverySlotOwned | aesd-char-driver/main.c:328-338 | the live blocks are those of the physical slots and the pending one, each once |
| CharDevice.Device.Cleanup | aesd-char-driver/main.c:328-355 | every block is freed, none twice, and none is left |
| Framing.FeedAppend | server/src/aesdsocket_client.c:311-339 | framing a stream in two parts equals framing it whole |
| Framing.ChunkingIndependence | server/src/aesdsocket_client.c:365-376 | the packets depend only on the concatenation of all receives |
| Framing.FeedSegment | server/src/aesdsocket_client.c:319-335 | between packets, the next newline-terminated segment becomes the next packet, or the stream ends there if it is too long |
| Framing.FeedIsSegments | server/src/aesdsocket_client.c:311-339 | the packets are the newline-terminated segments up to the first longer than 32762 bytes; else the unfinished tail carries over |
| Framing.FeedKeepsGood | server/src/aesdsocket_client.c:107-133 | every packet ends in its only newline and has at most 32762 bytes |
| Framing.SizeGrows | server/src/aesdsocket_client.c:107-133 | the least buffer size that holds everything received so far doubles at exactly the bytes that find the buffer full |
| SeekPacket.StrToLReadsNumerals | server/src/aesdsocket_client.c:141 | strtol reads a whole numeral (spaces, sign, digits) to its end and gives its clamped value |
| SeekPacket.WholeReadIsNumeral | server/src/aesdsocket_client.c:143-147 | what strtol reads to the end is a numeral of that value |
| SeekPacket.ConvertExactly | server/src/aesdsocket_client.c:135-157 | a token converts to v if and only if it denotes v and v is in [0, 2^32-1] |
| SeekPacket.SeekArgsExactly | server/src/aesdsocket_client.c:159-234 | a packet is a seek to (x, y) if and only if it has the prefix and its first two tokens denote x and y in range |
| SeekPacket.StrTokExactly | server/src/aesdsocket_client.c:165-166 | a token is the first run of bytes other than commas, and the next call goes on behind the comma at its end; none exactly when only commas are left |
| SeekPacket.OperandsWithOtherToken | server/src/aesdsocket_client.c:165-184 | with some other token from the second call, the operands are still the packet's own if and only if the first does not convert or the token converts as the packet's second does |
| SeekPacket.Strtok.First | server/src/aesdsocket_client.c:165 | environment: the first token of a string, and the shared position behind it |
| SeekPacket.Strtok.Next | server/src/aesdsocket_client.c:166 | environment: the next token from the shared position, whoever has set it |
| SeekPacket.Strtok.OthersCall | server/src/aesdsocket_client.c:297-302 | environment: given calls of other threads move the shared position; without one it stays |
| SeekPacket.PositionSinceStart | server/src/aesdsocket_client.c:165-166 | where the position stands depends only on the calls since the last one that started a string |
| SeekPacket.SeekRoundTrip | server/src/aesdsocket_client.c:215-234 | prefix, decimal x, comma, decimal y, newline parses to (x, y) for all 32-bit x and y |
| SeekPacket.CopyDropsLastByte | server/src/aesdsocket_client.c:203-207 | strncpy and the overwritten last byte leave the operand string without the packet's last byte |
| SeekPacket.ConvertStrToLong | server/src/aesdsocket_client.c:135-157 | accepts exactly the numerals whose clamped value is within the bounds, and returns that value |
| SeekPacket.ParseXStrAndYStr | server/src/aesdsocket_client.c:159-187 | the operands, or failure, of its own first token and of the token at the position that the given calls of other threads have left; its own two when there are none |
| SeekPacket.IsSeektoPacket | server/src/aesdsocket_client.c:189-234 | given whether malloc succeeds and the strtok calls of others, exactly what the packet is taken for; what it is, when malloc succeeds and there are no such calls; the packet is not written to |
| SeekPacket.TakenForExactly | server/src/aesdsocket_client.c:189-234 | without the prefix a packet is data; out of memory too; else it is taken for what it is if and only if its first token is no operand or the token at the position others have left converts as its own second |
| ServerSpec.ContentBounded | server/src/aesdsocket_client.c:246-257 | the content never exceeds 327620 bytes, so every position survives the int it is kept in |
| ServerSpec.DataReplyEndsWithPacket | server/src/aesdsocket_client.c:277-279 | the reply to data is the last nine lines before it and then the packet |
| Sending.PayloadSnoc | server/src/aesdsocket_client.c:82-93 | a failed send adds nothing to what the client receives, another adds the bytes it takes |
| Sending.ProgressBounds | server/src/aesdsocket_client.c:78-95 | what is offered always lies within the data, and there is something to offer until its end |
| Sending.ContiguousExactly | server/src/aesdsocket_client.c:78-95 | the ranges sent are contiguous from the first byte if and only if no send takes bytes after a failed one |
| Sending.PayloadIsPrefix | server/src/aesdsocket_client.c:78-95 | then the client receives a prefix of the data |
| Sending.PayloadIsAll | server/src/aesdsocket_client.c:63-105 | without a failed send the client receives all the data, once and in order |
| Sending.FailedAsDrawn | server/src/aesdsocket_client.c:82-93 | a send of a reply has failed exactly when one of the outcomes its calls meet says so |
| Sending.DrawnOnce | server/src/aesdsocket_client.c:78-95 | the outcomes settle how many calls of send a reply takes and what each returns |
| Sending.DrawnFromOutcomes | server/src/aesdsocket_client.c:78-95 | every legal course of the send calls is one that some outcomes lead to |
| ServerSpec.SeekReplyStartsAtPlace | server/src/aesdsocket_client.c:246-258 | a seek is refused exactly when its place does not exist; else the reply is the content from byte y of line x on |
| ServerSpec.SeekOutcome | server/src/aesdsocket_client.c:246-257 | the int the server keeps of the ioctl's long is negative exactly for an invalid place, else the exact position |
| ServerSpec.WholeIsReply | server/src/aesdsocket_client.c:63-105 | a packet answered without failed send: the bytes sent are the reply |
| ServerSpec.DeliveredIsReplies | server/src/aesdsocket_client.c:292-339 | a client whose packets were all answered so has the replies, in the order of its packets, and nothing else |
| Stdio.Stream.Fseek | server/src/aesdsocket_client.c:71 | environment: succeeds exactly for positions within the content, and drops what was read ahead |
| Stdio.Stream.Refill | server/src/aesdsocket_client.c:79 | environment: a driver read of any size keeps the stream in place, and finds nothing exactly at the end |
| Stdio.Stream.Fread | server/src/aesdsocket_client.c:79 | for all driver read sizes, the next bytes of the content, fewer than asked for only at its end |
| Stdio.Stream.TakeAhead | server/src/aesdsocket_client.c:79 | bytes read ahead are handed out in order, once |
| Stdio.Stream.FwriteAndFlush | server/src/aesdsocket_client.c:277-278 | for all cuts into driver writes, each advancing by the count returned, the packet becomes one new line and nothing stays pending |
| Stdio.Socket.Send | server/src/aesdsocket_client.c:82-85 | environment: the outcome given for this call decides whether it fails or takes a non-empty prefix of what it is offered |
| ClientHandler.SendRest | server/src/aesdsocket_client.c:82-93 | one call of send, offered the rest of the buffer-full: its result is the one the next outcome gives, and what is sent is what that says |
| ClientHandler.SendBuffer | server/src/aesdsocket_client.c:80-94 | the loop goes on through the next outcomes until the buffer-full is sent or one fails, sends what they say, and reports exactly whether one failed |
| ClientHandler.SendFile | server/src/aesdsocket_client.c:63-105 | for all reads and all outcomes of the send calls, the client receives what those make of content[seek_pos..]; it succeeds exactly when none of the calls made fails, and then all of content[seek_pos..] is sent |
| ClientHandler.OthersServe | server/src/aesdsocket_client.c:242 | environment: other clients, before the mutex is taken, commit the given packets and nothing else |
| ClientHandler.FlushPacketToClient | server/src/aesdsocket_client.c:267-290 | behind the packets other clients commit first, the packet is committed once, and what the outcomes of the send calls make of the whole content after it is sent; all of it when none fails |
| ClientHandler.ProcessSeektoPacket | server/src/aesdsocket_client.c:236-265 | commits nothing itself; an invalid place sends nothing, for a valid one what the outcomes of the send calls make of the content from it on is sent |
| ClientHandler.ProcessPacket | server/src/aesdsocket_client.c:292-309 | in given surroundings, the record of how the packet is served is the one ServerSpec allows, and log, send calls and bytes sent follow from it, on failure too, though the packet buffer is reused for sending; a packet is taken for what it is when malloc succeeds and no other thread calls strtok |
| ServerSpec.ServedOneMore | server/src/aesdsocket_client.c:328-334 | one packet more adds its bytes to those sent, and may be the first not answered whole only as the last |
| ServerSpec.ServeOneMore | server/src/aesdsocket_client.c:328-331 | one packet more served in its surroundings extends the conversation: the log it leaves, the bytes sent and the send calls |
| ServerSpec.DialogueOnce | server/src/aesdsocket_client.c:292-339 | the packets of a connection, the log it meets, its surroundings and the outcomes of its send calls settle how each packet is served: one way only |
| ServerSpec.AloneInLog | server/src/aesdsocket_client.c:267-290 | while no other client commits anything, the log grows by exactly the packets taken for data, in order and once each |
| ServerSpec.AloneInParsing | server/src/aesdsocket_client.c:215-234 | while malloc succeeds and no other thread calls strtok, every packet is taken for what it is |
| ServerSpec.NotWhole | server/src/aesdsocket_client.c:292-309 | a packet goes without its whole reply if and only if its place does not exist or one of its own send calls fails |
| Connection.Client.constructor | server/src/aesdsocket_client.c:355-359 | an empty packet in a buffer of SOCKET_BUFFER_SIZE bytes |
| Connection.Client.EnsurePacketCapacity | server/src/aesdsocket_client.c:107-133 | the 16-bit size doubles without wrapping and stays the capacity; realloc is called exactly when the buffer is full below 32762 bytes, and the check fails exactly at 32762 bytes or when that call fails |
| Connection.Client.MakeRoom | server/src/aesdsocket_client.c:107-133 | there is room for the next byte in a buffer of the least size that has ever been needed; else the given outcome of the last realloc is a failure, the first one, or the packet is too long |
| Connection.Client.StoreByte | server/src/aesdsocket_client.c:326-327 | the byte is appended within the buffer; a newline completes a packet of legal size |
| Connection.Client.FailedInStream | server/src/aesdsocket_client.c:372-374 | a failure within one receive is the same failure of the whole stream |
| Connection.Client.FailsOnlyThen | server/src/aesdsocket_client.c:311-339 | a connection fails only if a realloc or a send fails, a place does not exist, or a packet is too long |
| Connection.Client.TakeByte | server/src/aesdsocket_client.c:326-335 | one received byte acts on packets and tail as the framing specification says |
| Connection.Client.ServePacket | server/src/aesdsocket_client.c:328-334 | a complete packet is served once and the buffer starts over |
| Connection.Client.ProcessReceivedData | server/src/aesdsocket_client.c:311-339 | all bytes are framed and every packet they complete is served in its surroundings; it consumes them all when no realloc and no send fails, every place exists and no packet is too long; else it says which byte failed and why |
| Connection.HandleClientCommunication | server/src/aesdsocket_client.c:346-377 | for all receive sizes, surroundings and outcomes, the log and the bytes sent are those of the conversation about the packets of the bytes consumed; it ends only at end of input, stop flag or failure; when nothing fails it serves all segments of the stream and sends their replies, and without other clients the log ends with the packets taken for data, once each |
| Serving.FileStartIsPlace | server/src/aesdsocket_client.c:246-257 | through the ioctl, the int and the seek of the file, reading starts at the place asked for, and not at all exactly when there is none |
| Serving.DeviceAfterServing | server/src/aesdsocket_client.c:277-278 | however the packet is cut into driver writes, the device has one line more and nothing pending |
| Serving.ReplyIsDataRead | server/src/aesdsocket_client.c:71-95 | however the content is cut into driver reads, what is read is the specified reply |
| Serving.ServingMeetsSpec | server/src/aesdsocket_client.c:236-309 | for all cuts and send results, log, bytes sent and success are those of the specification |
| ServerRuns.ServeKeepsInv | server/src/aesdsocket_client.c:236-309 | serving a packet, call by call, keeps log, turns and bytes sent in agreement |
| ServerRuns.StepKeepsInv | server/src/aesdsocket_client.c:215-339 | every step of every client keeps framing, parsing, log and bytes sent in agreement |
| ServerRuns.RunKeepsInv | server/src/aesdsocket_client.c:215-339 | so does every run |
| ServerTheorems.UndisturbedIsParsedRight | server/src/aesdsocket_client.c:159-234 | in every run, a packet parsed undisturbed is taken for what it is |
| ServerTheorems.UndisturbedExactly | server/src/aesdsocket_client.c:165-166 | a client is undisturbed exactly when no event since the one with its own first strtok call has called strtok |
| ServerTheorems.ParsedRightExactly | server/src/aesdsocket_client.c:159-187 | in every run that reads no freed copy, a packet is taken for what it is if and only if its first token is no operand or the second call's token converts as its own |
| ServerTheorems.UndefinedOnlyWhenDisturbed | server/src/aesdsocket_client.c:165-211 | a freed copy is read only by a client that another has disturbed between its two calls |
| ServerTheorems.ServedPacketsAreSegments | server/src/aesdsocket_client.c:311-339 | in every run, the packets served to a client are the segments of its own stream |
| ServerTheorems.LogIsData | server/src/aesdsocket_client.c:267-290 | in every run the device holds the packets taken for data, one line each, and nothing pending |
| ServerTheorems.UndisturbedLog | server/src/aesdsocket_client.c:292-309 | when no client was disturbed in parsing a packet with the prefix, these are exactly the packets that are no seek commands |
| ServerTheorems.DataRepliesEndToEnd | server/src/aesdsocket_client.c:267-290 | in every run, for a packet taken for data whose sends succeed, the bytes the client is sent next are the last min(n, 10) such packets of all clients, itself last; packets without the prefix, and undisturbed ones that are no seek commands, are taken for data |
| ServerTheorems.SeekRepliesEndToEnd | server/src/aesdsocket_client.c:236-265 | in every run, a packet taken for a seek commits nothing; nothing is sent if its place does not exist, else, when the sends succeed, the content from that place on; undisturbed seek commands are taken for what they are |
| ServerTheorems.ContentBoundedInEveryRun | server/src/aesdsocket_client.c:113-127 | in every reachable state the content has at most 327620 bytes |
| ServerTheorems.PartOfRun | server/src/aesdsocket_client.c:292-309 | one client's packets, in a run of all, make a dialogue with the device, each in surroundings the other clients can make |
| ServerTheorems.ServedInItsSurroundings | server/src/aesdsocket_client.c:292-309 | any way the runs let a packet be served is the way of some surroundings and some outcomes of the send calls |
| ServerTheorems.EachClientIsAConnection | server/src/aesdsocket_client.c:346-377 | what HandleClientCommunication guarantees of one connection, log, bytes and outcomes included, holds of each client's part of every run: an open one has exactly its replies, a closed one all but the last whole |
| ServerWitnesses.OperandsCanMix | server/src/aesdsocket_client.c:159-187 | a run in which clients asking for (1, 2) and (3, 4) are taken to ask for (1, 4) and to send data |
| ServerWitnesses.SeekCommandCanBecomeData | server/src/aesdsocket_client.c:297-307 | and the second one's seek command becomes a line of the device |
| ServerWitnesses.FreedCopyCanBeRead | server/src/aesdsocket_client.c:165-211 | a run in which a client's second strtok call reads the copy another has freed |
| ServerWitnesses.TokenOfFreedCopyCanBeRead | server/src/aesdsocket_client.c:180-211 | a run in which a client converts a token that lay in a freed copy, while the copy's owner holds its next one |
| ServerWitnesses.FailedSendLeavesGap | server/src/aesdsocket_client.c:78-95 | a run in which the first send of a reply of 1026 bytes fails, and the client receives the last two of them, which are no prefix |
| ThreadList.List.InsertHead | server/api/queue.h:241-244 | the node becomes the first, the others follow unchanged |
| ThreadList.List.RemoveHead | server/api/queue.h:267-269 | the first node leaves, and was not a freed one |
| ThreadList.List.RemoveAfter | server/api/queue.h:262-265 | exactly the follower leaves the list |
| ThreadList.List.FindBefore | server/api/queue.h:254-256 | the search ends at the predecessor and never runs off the list |
| ThreadList.List.Remove | server/api/queue.h:248-260 | exactly the node leaves, wherever it is |
| ThreadList.List.OneThreadCompleted | server/src/aesdsocket_threads.c:55-69 | true exactly when some listed thread has completed |
| ThreadList.List.Reap | server/src/aesdsocket_threads.c:81-84 | the node's thread is joined, the node unlinked and freed |
| ThreadList.List.VisitNode | server/api/queue.h:217-220 | the saved successor is the next node even when the visited one is freed |
| ThreadList.WithoutInOrder | server/src/aesdsocket_threads.c:72-87 | what a join of the completed threads leaves is the other nodes, each in its place |
| ThreadList.IdsInOrder | server/src/aesdsocket_threads.c:72-87 | the threads joined are those of the completed nodes, once each, in list order |
| ThreadList.OpenSocketsInOrder | server/src/aesdsocket_threads.c:90-101 | the sockets closed are those of the nodes that have one open, once for each, in list order |
| ThreadList.List.JoinCompletedClientThreads | server/src/aesdsocket_threads.c:72-87 | exactly the completed nodes leave, are joined in list order and freed; the others keep order and fields; no freed node is touched |
| ThreadList.List.CloseClientSockets | server/src/aesdsocket_threads.c:90-101 | exactly the open sockets are closed, once each, and all are marked closed |
| ThreadList.List.CreateClientThread | server/src/aesdsocket_threads.c:139-249 | a new first node with the real thread id, or the list as before, no leaked node, and the socket closed |
| ThreadProofs.JoinOneEffect | server/src/aesdsocket_threads.c:80-84 | the join takes the node's own thread, which has exited, for the first time, and never while its creation is under way |
| ThreadProofs.MainKeepsInv | server/src/aesdsocket.c:130-161 | every step of main keeps the invariant: accept, creation and its failures, stop, wake, join |
| ThreadProofs.JoinerKeepsInv | server/src/aesdsocket_threads.c:103-137 | every step of the joiner keeps it: waits, joins, forced closing |
| ThreadProofs.ClientKeepsInv | server/src/aesdsocket_client.c:389-398 | every step of a client's completion tail keeps it |
| ThreadProofs.StepKeepsInv | server/src/aesdsocket_threads.c:72-137 | every step of every thread, the stop flag and spurious wakeups keep the invariant |
| ThreadProofs.RunKeepsInv | server/src/aesdsocket_threads.c:72-137 | so does every run of any number of clients |
| ThreadTheorems.ListHoldsTheUnjoined | server/src/aesdsocket_threads.c:213-249 | whenever the mutex is free, the list holds exactly the created and not yet joined clients, once each |
| ThreadTheorems.ThreadsJoinedOnce | server/src/aesdsocket_threads.c:72-87 | a completed node has its real thread id; each thread is joined and each node freed at most once, and no freed node is touched |
| ThreadTheorems.SocketsClosedOnce | server/src/aesdsocket_client.c:389-396 | an accepted socket is closed at most once, and exactly once when its thread is joined or its creation has failed |
| ThreadTheorems.JoinNeedsNoMutex | server/src/aesdsocket_threads.c:80-82 | joining under the mutex waits only for a thread that will not lock it again |
| ThreadTheorems.NoLostWakeup | server/src/aesdsocket_threads.c:103-137 | after the broadcast the joiner is not in its first wait, and it sleeps on a completed node only while that node's signal is under way |
| ThreadTheorems.AllJoinedIffNoneLate | server/src/aesdsocket.c:272-279 | when the server is done, every thread was joined if and only if none was created after the joiner had gone |
| ThreadTheorems.JoinLoopFilters | server/src/aesdsocket_threads.c:72-87 | the joiner's steps of one call join exactly the completed threads, once each, and leave the other nodes in their order |
| ThreadTheorems.StepLowersRank | server/src/aesdsocket_threads.c:103-137 | after the broadcast every step of a thread or a peer lowers a measure |
| ThreadTheorems.ShutdownIsBounded | server/src/aesdsocket.c:272-279 | so only boundedly many of them are left, in any order |
| ThreadTheorems.StuckExactly | server/src/aesdsocket_threads.c:103-137 | after the broadcast no thread can go on exactly when main is done, or waits for the joiner in its second wait, and each client has ended, waits in recv or send on an open socket, or waits for a taken log_file_mutex |
| ThreadTheorems.SomebodyIsMissed | server/src/aesdsocket_client.c:242-279 | then each client that has not ended waits for the peer of a client created after the close pass, its own or that of the owner of log_file_mutex |
| ThreadTheorems.DoneExactly | server/src/aesdsocket.c:272-279 | then main is done if and only if the peer has ended each client created after the close pass and before the joiner went |
| ThreadTheorems.AllEndedExactly | server/src/aesdsocket_client.c:389-398 | and all client threads have ended if and only if the peer has ended the late ones, too |
| ThreadTheorems.ShutdownCompletesExactly | server/src/aesdsocket.c:272-279 | from every reachable state past the broadcast, every maximal run of the threads ends with main done if and only if that holds in that state, so always when no client was created after the close pass; and with all threads ended likewise |
| ThreadTheorems.WhenMainIsDone | server/src/aesdsocket.c:272-279 | when main is done, every client not late is joined, every accepted socket of such is closed exactly once, and the list holds the late ones only |
| ThreadWitnesses.Creates | server/src/aesdsocket_threads.c:213-249 | an undisturbed creation lists one node with its real thread id, for a client that is missed or late according to where the joiner is |
| ThreadWitnesses.LateClientIsNotJoined | server/src/aesdsocket.c:130-151 | a run in which the flag falls between accept and thread creation, and the server ends with that thread unjoined |
| ThreadWitnesses.ServerCanHang | server/src/aesdsocket_threads.c:103-116 | a run in which it falls there while another client is listed, and main, joiner and the new client wait for each other and for a silent peer |

## Left out

- CharDevice: sizes and positions are unbounded numbers except in `llseek`; `size_t` overflow of sums is not modelled.
- CharDevice: each file operation is one critical section, which the driver's locks make it; only the seek ioctl has two, with writes between them. Reads of `f_pos` outside the lock by two threads sharing one open file are not modelled.
- CircularBuffer: the `uint8_t` indices fit the capacity of ten; their wrap for capacities over 255 is not modelled.
- KernelHeap.Heap: internals of kmalloc, the user copies, mutexes and the semaphore; device numbers and module registration.
- SeekPacket.IsSeektoPacket: what the out-parameters hold after a failed parse.
- SeekPacket.Strtok: each call is one step, and a call that finds no token leaves the position at the end of the string. Where a disturbed call would read memory another client has freed, the method goes on with the bytes that were there; `ServerRuns` ends the run there instead.
- Stdio: failing fopen, fwrite, fread and fseek, and the internals of stdio; the server ignores most of these failures, and its promise to clients assumes there are none.
- Connection.HandleClientCommunication: what other clients commit behind its last packet, and the failing allocations of its two buffers, which end the connection at once.
- ServerRuns: the stop flag. Waiting for `log_file_mutex` is the choice of the next client to step.
- ThreadList: the client_ip field, and errors of pthread_join and close.
- ThreadProtocol: a connection stands for its socket, so reuse of descriptor numbers after close does not arise; nor does it matter whether a thread's unlocked read of `client_sock_fd` at its start (server/src/aesdsocket_client.c:350) comes before or after the close pass, since its receives fail either way. That close_socket ends a recv or send under way on the socket is what its shutdown call is for (server/src/aesdsocket_socket.c:100-105), and is taken for granted. Failed setup of the joiner thread leaves nothing to wait for and is not modelled, nor is the socket the listener uses, nor what main does after it has joined the joiner.
- The time-stamping thread, which the configuration compiles out (server/cfg/aesdsocket_cfg.h:9).
- Socket setup, daemon mode, signal registration, argument handling and syslog.
- The queue.h macros other than the SLIST ones in use, and the finder-app, examples and scripts.
