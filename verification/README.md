# Verified models of tx

tx is a file-transfer client with an encrypted record layer, a connection
pool and verification tooling. This project models its hardest components in
Dafny and proves what they promise, over every input and every run:

- **Record layer** (`Bytes`, `RecordCipher`, `Records`, `WriteSide`,
  `ReadSide`, `Session`): messages sealed into records in a shared write
  buffer, read back through a read buffer that decrypts in place. The AEAD is
  ideal: opening succeeds only on the exact ciphertext sealed with the same
  key, nonce and associated data. Nonces and REKEY follow sections 4.2, 5.1,
  11.3, 12.3 and 12.4 of the Noise Protocol Framework, revision 34. `Session.RoundTrip`
  and `Session.Receive` are the two main results: exactness on the honest
  stream and prefix safety on every other one.
- **Connection pool** (`Pool`, `PoolProofs`, `PoolRuns`): a transition system with any
  number of threads, each lock region, channel operation and atomic access one
  step. The results hold in every state of every run.
- **Events target** (`Events`): a bounded drop-oldest queue with partial writes
  and a protected head, its emitters and flusher interleaved at will.
- **Fault-injecting writer** (`Faults`): block-wise decisions refined to a
  position-wise file image, so that the cutting of writes does not matter.
- **ID set** (`Bits`, `IdSet`): a bitset and a sorted slice with a pending
  buffer, refined to a mathematical set.
- **Sampler** (`Sampler`): systematic rounding, bucketed sampling and a coprime
  modular walk.
- **Split download, response stream, batching** (`SplitDownload`, `FileStream`,
  `Batching`): contiguous acknowledgement, a frame-stream state machine with
  sticky errors, and an optimal greedy cut.
- **Bech32 data** (`Bech32`): 5-to-8-bit regrouping in a wrapping 32-bit
  accumulator, per the Bech32 section of BIP 173.

`Wrappers`, `Sequences` and `Division` hold what several of these share.

Objects the program updates in place are classes; each class has a pure view
of its state, the invariants are predicates on that view, and one lemma per
transition shows that it keeps them. `dafny verify dfyconfig.toml` checks
everything.

## Model

| member | source | states |
|---|---|---|
| `Bytes.BigEndianAt` | internal/aead/session.go:105-112 | Byte i of k, most significant first, is the base-256 digit k-1-i of the number. |
| `Bytes.LittleEndianAt` | internal/aead/session.go:105-112 | Byte i, least significant first, is the base-256 digit i. |
| `RecordCipher.NonceDigits` | internal/aead/session.go:105-112 | A nonce is four zero bytes and then the counter's eight base-256 digits, the highest first for AES and the lowest first for ChaCha20. |
| `RecordCipher.NonceBytesInjective` | internal/aead/session.go:105-112 | Distinct counters up to 2^64-1 give distinct 12-byte nonces, big-endian for AES and little-endian for ChaCha20. |
| `RecordCipher.DirectionCipher.constructor` | internal/aead/session.go:94-102 | A fresh direction holds the handshake key with counter 0 and has encrypted nothing. |
| `RecordCipher.DirectionCipher.SetNonce` | internal/aead/session.go:105-112 | The reused nonce buffer keeps its four zero bytes and holds the counter's base-256 digits behind them, highest first for AES and lowest first for ChaCha20. |
| `RecordCipher.DirectionCipher.Seal` | internal/aead/session.go:116-122 | Record k is sealed with the key of its epoch at nonce k; at counter 2^64-1 sealing refuses and changes nothing, so it never wraps; the encryptions made are exactly the history of the records sealed. |
| `RecordCipher.DirectionCipher.Open` | internal/aead/session.go:126-136 | Opens exactly a ciphertext sealed as record k with this header, and then stands where a sender that sealed k+1 records stands; anything else leaves key and counter alone. |
| `RecordCipher.DirectionCipher.Advance` | internal/aead/session.go:139-147 | After k+1 records key and counter are the same function of k+1 for sender and receiver; a REKEY happens exactly at multiples of the interval. |
| `RecordCipher.DirectionCipher.Rekey` | internal/aead/session.go:151-161 | REKEY encrypts 32 zero bytes at nonce 2^64-1 and the result is the next epoch's key. |
| `RecordCipher.Agreement` | internal/aead/session.go:105-161 | For any records, a fresh sender and a fresh receiver that opens what it sealed: every record opens to its plaintext, after each k both have the key of epoch k/16384 and counter k, and no (key, nonce) pair encrypts twice. |
| `RecordCipher.NonceNeverReused` | internal/aead/session.go:105-161 | Over every run of a direction, no (key, nonce) pair encrypts twice, records and REKEYs together. |
| `RecordCipher.ReservedNonceOnlyRekeys` | internal/aead/session.go:105-161 | An encryption in a direction is at nonce 2^64-1 if and only if it is the REKEY of an epoch already over. |
| `RecordCipher.AeadOpen` | internal/aead/session.go:126-136 | The idealised AEAD opens a byte string if and only if it is the whole ciphertext of something sealed with that key, nonce and associated data. |
| `Records.Header` | internal/aead/session.go:505-513 | A record header is the ciphertext length in two bytes, the high one first, and the kind. |
| `Records.EncodeSnoc` | internal/aead/session.go:496-522 | The bytes of a longer log are the bytes of the shorter one followed by the new record's header and ciphertext. |
| `Records.RecordsAtMostItems` | internal/aead/session.go:346-451 | A log never has more records than bytes and marks to deliver, so counting what is delivered bounds the nonces used. |
| `WriteSide.Room` | internal/aead/session.go:473-475 | An open record may take all that a record may carry or all that the buffer still has, whichever is less. |
| `WriteSide.SealKeeps` | internal/aead/session.go:505-522 | Sealing a record in the shared buffer keeps the write-side invariant: what is on the wire and queued is the encoding of the log, and no plaintext is left outside the open record. |
| `WriteSide.CopyKeeps` | internal/aead/session.go:365-385 | Copying caller bytes behind the open record's header keeps the write-side invariant. |
| `WriteSide.RefusalKeeps` | internal/aead/session.go:505-522 | A refused seal leaves a buffer that still satisfies the poisoned session's invariant. |
| `WriteSide.SealGives` | internal/aead/session.go:496-522 | Sealing moves the open bytes into the log and adds only the record's own mark, so the stream given to the peer does not change. |
| `WriteSide.SealInto` | internal/aead/session.go:505-522 | The bytes written in place are exactly record number k on the wire; a refusal leaves only the header. |
| `WriteSide.Sender.constructor` | internal/aead/session.go:213-235 | A fresh sender satisfies the invariant with nothing written. |
| `WriteSide.Sender.WriteAll` | internal/aead/session.go:536-549 | The connection gets a prefix of the bytes, and all of them when the write succeeds. |
| `WriteSide.Sender.WriteConn` | internal/aead/session.go:536-549 | Writing in progress-deadline pieces puts on the wire the same bytes in the same order as one write. |
| `WriteSide.Sender.WriteQueued` | internal/aead/session.go:524-534 | On success everything sealed is on the wire, exactly the encoding of the log; on failure the session is poisoned and the wire has a prefix. |
| `WriteSide.Sender.OpenRecord` | internal/aead/session.go:453-470 | Makes room, writing out the queue or taking a buffer as needed, and opens an empty record; a buffer that cannot be had, or a failed write, poisons the session. |
| `WriteSide.Sender.SealPayload` | internal/aead/session.go:505-522 | Seals the payload as the next record if and only if it fits and the nonces last; otherwise the session is poisoned and nothing is logged. |
| `WriteSide.Sender.SealRecord` | internal/aead/session.go:496-499 | The open bytes become the next record of the log. |
| `WriteSide.Sender.AfterSeal` | internal/aead/session.go:486-491 | Afterwards nothing is queued, or fewer records than the batch are and the buffer has room for another. |
| `WriteSide.Sender.SealDirect` | internal/aead/session.go:346-389 | Sealing straight from the caller's slice gives the peer the same bytes as copying them would. |
| `WriteSide.Sender.CopyPart` | internal/aead/session.go:346-389 | Copied bytes are given to the peer once, in order, and a full record is sealed. |
| `WriteSide.Sender.CopyIn` | internal/aead/session.go:376-380 | The copied bytes extend the open record and what the peer will get. |
| `WriteSide.Sender.Writer` | internal/aead/session.go:334-344 | Opens a message whose queue is bounded by one record when paced and by the batch otherwise, the bound Write and AfterSeal keep. |
| `WriteSide.Sender.WriteNext` | internal/aead/session.go:346-389 | One turn gives a prefix of the rest to the peer, all that it counts; a copy counts even if the seal after it fails, a direct seal that fails does not. |
| `WriteSide.Sender.Write` | internal/aead/session.go:346-389 | Success takes the whole slice and extends what the peer will get by exactly it, with fewer than a batch of new records queued; the count returned never exceeds what was taken; a failed or ended writer changes nothing; with a connection that takes every byte it can fail only for want of nonces. |
| `WriteSide.Sender.Flush` | internal/aead/session.go:393-409 | On success everything given so far is on the wire and no record is open; the message's contents do not change. |
| `WriteSide.Sender.Close` | internal/aead/session.go:422-451 | Closing with END or FINISH adds exactly that mark and, on success, leaves everything on the wire; it tells whether the record was sealed. |
| `WriteSide.Sender.End` | internal/aead/session.go:413-436 | The log gains exactly one END after the message's bytes and everything is on the wire; once END is sealed the buffer is given back without plaintext, also when the final write fails; a second End is refused. |
| `WriteSide.Sender.WriteFinish` | internal/aead/session.go:439-451 | FINISH is one empty record, written out at once; once it is sealed the buffer is given back without plaintext, also when the write fails. |
| `WriteSide.Sender.Release` | internal/aead/session.go:554-568 | The buffer given back to the pool holds no plaintext. |
| `WriteSide.Sender.Poison` | internal/aead/session.go:290-299 | A poisoned session keeps its invariant and stays failed. |
| `ReadSide.Authentic` | internal/aead/session.go:671-709 | Whatever an attacker made of the stream, a ciphertext that opens as record k is record k of the peer's log, header and payload. |
| `ReadSide.EncodeGenuine` | internal/aead/session.go:496-534 | The peer's own bytes are among the streams the adversary model allows. |
| `ReadSide.MoveKeeps` | internal/aead/session.go:715-754 | Moving the unconsumed region to the front of the buffer keeps the read-buffer invariant and every byte still ahead. |
| `ReadSide.ReceiveKeeps` | internal/aead/session.go:715-754 | Filling past the unconsumed region overwrites nothing ahead and keeps the invariant. |
| `ReadSide.OpenKeeps` | internal/aead/session.go:671-709 | Decrypting in place puts plaintext only below the high mark and outside the unconsumed region, and consumes exactly one record. |
| `ReadSide.ZeroedKeeps` | internal/aead/session.go:671-709 | A record that fails to authenticate is zeroed without disturbing the bytes around it. |
| `ReadSide.ClearKeeps` | internal/aead/session.go:759-778 | Clearing up to the high mark leaves no plaintext in the buffer and every unconsumed byte in place. |
| `ReadSide.OpensOnlyNext` | internal/aead/session.go:671-709 | On an adversarial stream the reader at record k opens only the peer's record k, with its kind and length. |
| `ReadSide.HonestOpens` | internal/aead/session.go:671-709 | On the peer's own stream the next record always opens. |
| `ReadSide.Accepts` | internal/aead/session.go:671-709 | A record that opened is the peer's next one, the buffer keeps its invariant and what lies ahead is what lay behind the record. |
| `ReadSide.Receiver.ConnRead` | internal/aead/session.go:715-754 | One connection read takes at most the room given, from the front of what is still to arrive, and nothing is lost or repeated. |
| `ReadSide.Receiver.FillTo` | internal/aead/session.go:715-754 | Returns with the bytes needed buffered, every index in range and nothing still ahead lost; or because the connection is exhausted or no buffer could be had. |
| `ReadSide.Receiver.Receive` | internal/aead/session.go:715-754 | The read loop keeps the buffer invariant and reports a clean or broken end exactly when the bytes run out. |
| `ReadSide.Receiver.AwaitHeader` | internal/aead/session.go:671-690 | The header is buffered and its length legal, or the session fails; PeerClosed exactly for a clean end between messages with nothing ahead. |
| `ReadSide.Receiver.AwaitRecord` | internal/aead/session.go:671-700 | A whole record with a legal length is buffered, or the session fails; on an honest stream it cannot fail and the length is the next record's. |
| `ReadSide.Receiver.ReadRecord` | internal/aead/session.go:671-709 | Returns exactly the next record of the peer's log, directly into the caller's slice when it fits and in place otherwise; on an honest stream it cannot fail. |
| `ReadSide.Receiver.OpenBuffered` | internal/aead/session.go:671-709 | An opened record is the peer's next one; a failed one poisons the session and counts nothing. |
| `ReadSide.Receiver.Decrypt` | internal/aead/session.go:671-709 | Succeeds if and only if the buffered body is the ciphertext of record k under its header; the buffer then differs from before only as the in-place or direct path says. |
| `ReadSide.Receiver.Store` | internal/aead/session.go:671-709 | Plaintext lands in the caller's slice or over its own ciphertext and nowhere else. |
| `ReadSide.Receiver.Discard` | internal/aead/session.go:671-709 | A record that failed leaves no trace of plaintext and poisons the session. |
| `ReadSide.Receiver.Reader` | internal/aead/session.go:583-596 | A new message reader is granted if and only if the session is sound and the last message was read to its END. |
| `ReadSide.Receiver.Read` | internal/aead/session.go:602-644 | Returns the next bytes of the message, EOF once its END was authenticated and nothing is owed, or fails for good; on an honest stream it fails only where the stream does; once the message is read out no plaintext is left in the buffer, which is held only for bytes of the next one. |
| `ReadSide.Receiver.NextRecord` | internal/aead/session.go:602-644 | Takes one record: its bytes are delivered, owed, or it is the END; kinds out of place fail. |
| `ReadSide.Receiver.Settle` | internal/aead/session.go:602-644 | A record read directly is delivered at once, and if it ends the message the buffer is wiped; one decrypted in place is owed in full. |
| `ReadSide.Receiver.Owe` | internal/aead/session.go:602-644 | The bytes owed to the caller are the record's payload in the buffer. |
| `ReadSide.Receiver.Consume` | internal/aead/session.go:602-644 | Taking owed bytes takes them from the front. |
| `ReadSide.Receiver.Deliver` | internal/aead/session.go:602-644 | Owed bytes go to the caller in order, at least one when there is room; after the last of an ended message the buffer is wiped. |
| `ReadSide.Receiver.FinishDelivery` | internal/aead/session.go:602-644 | Once nothing of an ended message is owed, no plaintext is left in the buffer, which is held only for bytes already received. |
| `ReadSide.Receiver.Release` | internal/aead/session.go:759-778 | No plaintext remains whether the buffer is kept or given back, and it is given back exactly when nothing is buffered. |
| `ReadSide.Receiver.ReadFinish` | internal/aead/session.go:648-663 | Succeeds only on the peer's FINISH as its very first record, and always on an honest stream that has it; either way no plaintext stays in the buffer. |
| `ReadSide.Receiver.DeliveredIsPrefix` | internal/aead/session.go:602-644 | At every moment, under any attack, what was delivered and is owed is a prefix of what the peer sent. |
| `ReadSide.Receiver.Poison` | internal/aead/session.go:290-299 | A poisoned receiver keeps its invariant. |
| `Session.Send` | internal/aead/session.go:334-436 | A message written by any mix of writes and flushes, paced or batched, adds exactly its bytes and one END to the stream. |
| `Session.SendAll` | internal/aead/session.go:334-451 | Every message of a direction, after FINISH when asked, is on the wire as one encoding of a log whose stream is those messages; only 2^64-1 records or more can stop it. |
| `Session.ReadMessage` | internal/aead/session.go:602-644 | Reading with any non-empty buffers returns the message's bytes up to EOF or failure; at EOF no plaintext is left in the read buffer. |
| `Session.Receive` | internal/aead/session.go:583-663 | On any tampered, cut, reordered or replayed stream the messages returned whole are the first the peer sent, in order, a last partial one is a prefix of the next, and without a confirmed FINISH nothing is returned; on the honest stream all messages are returned, whatever size each read of each message has. |
| `Session.ReceiveFrom` | internal/aead/session.go:583-644 | The same, from after FINISH. |
| `Session.JoinedInjective` | internal/aead/session.go:413-436 | The END marks determine the messages: two sequences of messages with the same stream are the same. |
| `Session.EverySplitIsAChop` | internal/aead/session.go:715-754 | Every way a transport can split bytes into arrivals is covered by the round trip. |
| `Session.RoundTrip` | internal/aead/session.go:346-754 | For every sequence of messages, way of writing them, split of the bytes in transit and size of each read of each message, the reader gets exactly those messages, each ended by EOF, and not a byte of the next. |
| `PoolProofs.TokenDiscipline` | client_pool.go:249-370 | In every reachable interleaving the idle stack's length is the ready tokens plus tokens claimed and not yet used plus pushes not yet signalled, at most the capacity; takeTop and drain never see an empty stack and the send on ready never blocks. |
| `PoolProofs.SlotDiscipline` | client_pool.go:208-245 | In every reachable interleaving of a limited pool the slots taken are the connections idle, dialing, borrowed, being closed or out for a probe, never over the limit, and a slot given back is always there to give, so each is given back exactly once. |
| `PoolProofs.SoleHolder` | client_pool.go:271-411 | No connection is ever in two hands: one held by a thread is open, not idle and held by no other thread. |
| `PoolProofs.StoppedAndQuiet` | client_pool.go:375-411 | Once the pool is stopped and no thread is in an operation, nothing is idle, no token and no slot is left and every connection dialed is closed, however the threads interleaved with the stop. |
| `PoolProofs.RunInv` | client_pool.go:208-703 | The invariant behind these holds in every state of every run. |
| `PoolProofs.InvStep` | client_pool.go:208-703 | Every step of every thread keeps the invariant. |
| `PoolProofs.Progress` | client_pool.go:208-703 | In every reachable state a thread has a step other than giving up if and only if it has not finished and does not wait for idleMu, for a token or a slot that is not there, or, in stop, for background threads still running. |
| `PoolProofs.HolderMoves` | client_pool.go:332-370 | While idleMu is held the thread that holds it has a step, in every reachable state. |
| `PoolProofs.WaiterServed` | client_pool.go:433-465 | No slot and no token is ever lost to the waiters: when every thread has finished or waits, in an acquire or in stop, a waiting acquire finds a token or a slot. |
| `PoolProofs.RunPlaced` | client_pool.go:375-465 | In every run only an acquire of a limited pool ever waits for a slot, and no thread that stop waits for is itself stopping the pool. |
| `PoolProofs.NoDeadlock` | client_pool.go:208-703 | In every reachable state, if any thread has not finished, some thread has a step, a waiting caller's giving up not counted. |
| `PoolRuns.ReturnedIsKept` | client_pool.go:280-330 | In every run a connection put back is closed if the pool is stopped when that is looked at or the stack is full when it would be pushed, and for no other reason; otherwise it is idle and one more token is ready or owed. |
| `PoolRuns.IdleFirst` | client_pool.go:249-465 | In every run a caller goes past the idle stack of a running pool only when no token is ready, waits only when every slot is taken, takes the connection on top, and leaves a stopped pool's idle connections alone. |
| `PoolRuns.TrimsOldest` | client_pool.go:332-346 | In every run a trim takes connections from the bottom of the stack, as many as it was told to unless connections or tokens run out. |
| `PoolRuns.StopStays` | client_pool.go:375-388 | In every run the stop flag and the cancellation stay set, a stop sets the one and then the other and the second stop does nothing, and a heartbeat ends only when cancelled. |
| `PoolRuns.Refused` | client_pool.go:433-437 | A caller that comes to a stopped pool gets no further in any continuation of the run. |
| `PoolRuns.StartsNothing` | client_pool.go:390-404 | A stopped pool starts no background thread but probes of a heartbeat not yet cancelled. |
| `PoolRuns.Reuse` | client_pool.go:271-303 | From every state of every run where the pool is running, has room and is not locked, the connection a caller uses can go back and be the next caller's. |
| `PoolRuns.Reused` | client_pool.go:271-303 | Every pool that keeps idle connections has a run in which one connection is used by two callers, one after the other. |
| `PoolRuns.Prefilled` | client_pool.go:551-606 | From every such state with a slot free, a refill starts a background thread whose dialed connection can be the next caller's. |
| `PoolRuns.Probed` | client_pool.go:348-703 | A heartbeat can take an idle connection, have a background thread probe it and put it back, and the next caller can get it. |
| `PoolRuns.Trims` | client_pool.go:332-346 | A heartbeat can trim an idle connection, which is then closed and its token gone. |
| `PoolRuns.ShutsDown` | client_pool.go:375-411 | Every pool that keeps idle connections has a run in which a connection is used and put back and a stop, with the heartbeat running, ends with everything closed and every thread finished. |
| `Events.WriteTarget` | internal/events/target.go:182-260 | The buffer written is the rest of a begun piece, the dropped record and the whole records, in that order; the remainder after any partial write of it is the unwritten rest of the piece it stopped in, the records not begun in order, and the dropped count if its record was not begun. |
| `Events.Split` | internal/events/target.go:237-259 | The splitting loop leaves exactly that remainder. |
| `Events.StopsAt` | internal/events/target.go:227-249 | A write of n bytes is some whole texts and a proper prefix of the next. |
| `Events.WriteBytes` | internal/events/target.go:182-260 | Bytes taken and the rest left still add up to whole pieces begun. |
| `Events.WriteKeeps` | internal/events/target.go:182-260 | A write that takes any number of bytes keeps the target's invariant. |
| `Events.AddKeeps` | internal/events/target.go:103-124 | Emitting a record, during a flush or not, keeps the invariant. |
| `Events.TrimKeeps` | internal/events/target.go:129-142 | Trimming keeps the invariant, drops only the oldest whole records and never the partly written head. |
| `Events.TrimMinimal` | internal/events/target.go:129-142 | Trimming drops no more than the limit asks: with the record dropped last the queue would still be over it. |
| `Events.Trimmed` | internal/events/target.go:129-142 | A trimmed queue is within the limit or holds only what may not be removed; one within the limit is untouched. |
| `Events.TakeKeeps` | internal/events/target.go:146-156 | Swapping the queue out for a flush keeps the invariant. |
| `Events.PutBackKeeps` | internal/events/target.go:163-174 | Putting the rest back ahead of what came since keeps the invariant and the order. |
| `Events.InvGives` | internal/events/target.go:103-260 | The invariant means: the stream is a prefix of whole pieces whose records are emitted ones in emission order; between flushes it stops inside a piece if and only if partial is set, and queue[0] is then exactly what is missing; emitted = begun + queued + in flight + unreported drops + drops reported. |
| `Events.Target.constructor` | internal/events/target.go:58-69 | A new target is empty and satisfies the invariant. |
| `Events.Target.TrimLocked` | internal/events/target.go:129-142 | The in-place loop computes exactly the trimmed queue and its size. |
| `Events.Target.Add` | internal/events/target.go:103-124 | An open target queues the record and trims; a closed one changes nothing; a kick is asked for exactly at half the limit. |
| `Events.Target.Take` | internal/events/target.go:146-159 | The flusher takes everything if there is anything, leaving an empty queue. |
| `Events.Target.Write` | internal/events/target.go:182-260 | The stream gains exactly the taken bytes of the buffer written; a target that cannot be opened changes nothing. |
| `Events.Target.PutBack` | internal/events/target.go:160-174 | What was not taken goes back ahead of newer records, with its dropped count and partial flag, and is trimmed; drained is reported if and only if nothing was left. |
| `Events.Run` | internal/events/target.go:103-260 | Over any run of adds, stops and flush steps taking any number of bytes: stream integrity, order, the meaning of partial, conservation and the queue bound hold, for exactly the records emitted before the stop. |
| `Faults.FailStable` | internal/faults/disk.go:150-189 | Deciding further blocks never changes the first failure already decided. |
| `Faults.ImageAt` | internal/faults/disk.go:191-280 | Every position of the resulting file: a written byte, flipped only at its block's flip position, the old byte in a lost block, zero in a gap. |
| `Faults.Landing` | internal/faults/disk.go:191-280 | An accepted position holds the old byte in a lost block, and otherwise a byte that differs from the one written if and only if the flip of its block was drawn at it, in bit position mod 8 and no other. |
| `Faults.Stopping` | internal/faults/disk.go:150-189 | The accepted length and the error, in terms of what was drawn: no block stops the write earlier, and one stops it there, EIO before ENOSPC before torn before short. |
| `Faults.SilentIs` | internal/faults/disk.go:176-186 | An undetected fault counts as decided exactly when a lost block, if the file can seek, or a flip was drawn in one of the blocks that start inside the window. |
| `Faults.ImageSkip` | internal/faults/disk.go:220-230 | Skipping lost bytes leaves the file as position-wise writing would. |
| `Faults.ImageWrite` | internal/faults/disk.go:233-245 | Writing a segment at once is writing its positions one by one. |
| `Faults.DifferenceIsSilent` | internal/faults/disk.go:150-189 | An accepted byte that is not in the file as written lies in a block where a lost write or a flip fired. |
| `Faults.Writer.constructor` | internal/faults/disk.go:110-121 | A wrapped writer starts at the window's offset with the first block at or after it to decide. |
| `Faults.Writer.PickFailure` | internal/faults/disk.go:160-171 | The pending failure is the first failing block's, EIO before ENOSPC before torn before short, at the block's start or strictly inside it. |
| `Faults.Writer.Decide` | internal/faults/disk.go:150-181 | Decides each block that starts before end once: the pending failure, flips, lost ranges and the hit record are functions of the blocks decided. |
| `Faults.Writer.LostRange` | internal/faults/disk.go:251-259 | Drops passed ranges and returns the first that ends after the position, if any. |
| `Faults.Writer.FlipIn` | internal/faults/disk.go:263-280 | The segment with every pending flip in it applied, once each; later flips stay pending. |
| `Faults.Writer.Emit` | internal/faults/disk.go:233-245 | Writes up to the next failure, lost block or end, corrupted exactly as decided. |
| `Faults.Writer.Turn` | internal/faults/disk.go:200-245 | One turn of the loop moves the position on and keeps file and position in step. |
| `Faults.Writer.Plain` | internal/faults/disk.go:191-196 | With the disk family off, or nothing to write, bytes pass through unchanged. |
| `Faults.Writer.Write` | internal/faults/disk.go:191-247 | Accepts bytes up to the first decided failure; the file is the position-wise image of what was accepted; the error is that failure's. |
| `Faults.WriteCuts` | internal/faults/disk.go:110-280 | For every cutting, stopping at the first short or failed write: accepted length, error and file are functions of the joined bytes alone. No block stops the write before the accepted length, and if there was more one stops it there: at its start for EIO and then ENOSPC, at the place drawn for a torn and then a short write. Every accepted position outside a lost block differs from the byte written if and only if its block's flip was drawn there, and then in bit position mod 8 alone. The file is recorded as hit exactly when it was before or an undetected fault was decided before the end of the last write attempted; if it was not, every accepted byte of the downloaded copy is as written. |
| `Faults.TwoCuttings` | internal/faults/disk.go:146-149 | Two cuttings of the same bytes leave the same file, accepted length and error, and the same hit record wherever that is settled. |
| `Faults.HitDependsOnCutting` | internal/faults/disk.go:150-189 | Two cuttings of the same bytes, both written, that leave different hit records: a large write decides blocks past a failure that small writes never reach. |
| `Faults.HitAgrees` | internal/faults/disk.go:150-189 | All cuttings of the same bytes leave the same hit record if and only if the file was hit before, the site is not the downloaded copy, nothing fails in the range, an undetected fault is decided no later than the failing block, or none is decided at all. |
| `Faults.AtFailure` | internal/faults/disk.go:150-171 | The blocks that start no later than the first refused byte are those up to the first failing block. |
| `Faults.ReachIs` | internal/faults/disk.go:191-199 | Blocks are decided up to the end of the write that asks for the first refused byte. |
| `Bits.MaskTests` | internal/idset/idset.go:70-73 | w & (1<<i) is non-zero if and only if bit i is set. |
| `Bits.MaskSets` | internal/idset/idset.go:93-97 | w | (1<<i) sets bit i and no other. |
| `Bits.ClearsLowest` | internal/idset/idset.go:207-209 | w & (w-1) clears the lowest set bit, the one TrailingZeros names, and no other. |
| `IdSet.PendingLimitIsRoot` | internal/idset/idset.go:119-121 | The pending buffer's limit is at least the square root of half the merged slice's length, and is 64 or at most the square root of twice that length. |
| `IdSet.BinarySearch` | internal/idset/idset.go:74-78 | Finds the insertion point of an ID in a sorted slice, and whether it is there. |
| `IdSet.WordMembers` | internal/idset/idset.go:207-213 | The nested bit loop yields the bitset's members once each, ascending, without leaving 64 bits. |
| `IdSet.MergeBack` | internal/idset/idset.go:145-162 | The in-place merge from the back yields the sorted union of two disjoint sorted slices; nothing is overwritten before it is read. |
| `IdSet.MergeAll` | internal/idset/idset.go:191-205 | Merging the two sorted slices front to back yields all members ascending. |
| `IdSet.MergeUnion` | internal/idset/idset.go:272-287 | The three-way merge yields the sorted union, equal members once. |
| `IdSet.Words` | internal/idset/idset.go:177-180 | Building a bitset from a list holds exactly the list. |
| `IdSet.CountAscending` | internal/idset/idset.go:57-63 | A strictly ascending list has as many entries as distinct members. |
| `IdSet.Set.constructor` | internal/idset/idset.go:42-49 | The zero value is the empty set in bitset form. |
| `IdSet.Set.Has` | internal/idset/idset.go:66-79 | Reports membership in the mathematical set, in either form. |
| `IdSet.Set.Add` | internal/idset/idset.go:83-102 | Adds exactly the ID, reports whether it was new, and keeps the representation: at most Len()+16 words with zero spare capacity, or sorted disjoint slices of Len() entries in all. |
| `IdSet.Set.SetWord` | internal/idset/idset.go:93-99 | The bitset path of Add. |
| `IdSet.Set.AddSparse` | internal/idset/idset.go:104-115 | The sparse path of Add, merging once the buffer passes its limit. |
| `IdSet.Set.GrowWords` | internal/idset/idset.go:124-132 | Growing, within spare capacity or past it, adds only zero words. |
| `IdSet.Set.ToSparse` | internal/idset/idset.go:135-141 | The conversion keeps every member. |
| `IdSet.Set.MergePending` | internal/idset/idset.go:145-162 | Afterwards nothing is pending and the members are the same. |
| `IdSet.Set.Flush` | internal/idset/idset.go:166-169 | Merging, then perhaps returning to bitset form, keeps every member. |
| `IdSet.Set.MaybeDense` | internal/idset/idset.go:173-182 | Converts to the bitset if and only if the span is under half the size in words, and keeps every member. |
| `IdSet.Set.All` | internal/idset/idset.go:186-215 | Yields each member once, ascending, in either form. |
| `IdSet.Set.Clone` | internal/idset/idset.go:218-229 | A fresh set with the same members and form. |
| `IdSet.Set.AddSome` | internal/idset/idset.go:240-266 | Adds a prefix of the list one by one, stopping only when sparse with more left than the pending buffer holds. |
| `IdSet.Set.MergeRest` | internal/idset/idset.go:271-289 | One linear merge adds exactly the rest. |
| `IdSet.Set.Union` | internal/idset/idset.go:232-290 | Adds exactly the other set's members, which is not changed; a set united with itself or with none stays as it is. |
| `IdSet.Run` | internal/idset/idset.go:66-290 | After every sequence of Add, Union and Clone over any family of sets, each set holds exactly what plain mathematical sets would. |
| `Sampler.Gcd` | internal/sampler/sampler.go:260-271 | The result divides both numbers and is a combination of them; both zero gives 1; negative numbers included. |
| `Sampler.CoprimeStep` | internal/sampler/sampler.go:246-258 | The step is the first number from seed mod (slots-1) + 1 on that has no divisor in common with the slots, is below them, and its Bezout combination with them is 1. |
| `Sampler.Consecutive` | internal/sampler/sampler.go:148-150 | From slot 0 in steps of 1 the walk is ascending. |
| `Sampler.WalkInjective` | internal/sampler/sampler.go:200-211 | A coprime walk repeats no slot within as many steps as there are slots. |
| `Sampler.WalkSurjective` | internal/sampler/sampler.go:200-211 | A coprime walk reaches every slot within as many steps. |
| `Sampler.SlotBytes` | internal/sampler/sampler.go:228-231 | A slot's sample is inside the file, not empty, and holds exactly the bytes whose offset divided by the frame size is the slot. |
| `Sampler.BucketsPartition` | internal/sampler/sampler.go:185-188 | Buckets are never empty, start at slot 0 and end at the last. |
| `Sampler.BucketsEven` | internal/sampler/sampler.go:185-188 | Every bucket has the average number of slots rounded down or up. |
| `Sampler.OnePerBucket` | internal/sampler/sampler.go:185-192 | A partial generator's sample lies in its own bucket. |
| `Sampler.AnySlotDrawn` | internal/sampler/sampler.go:185-192 | Any slot of its bucket may be a sample's: the one at distance d from the start is drawn exactly by the hashes that leave d modulo the width. |
| `Sampler.PartialIncreasing` | internal/sampler/sampler.go:178-194 | A partial generator's slots strictly increase and stay in the file. |
| `Sampler.FullTiles` | internal/sampler/sampler.go:178-231 | A fully covered file's samples tile it: each is inside and not empty, no two share a byte and every byte is in one. |
| `Sampler.Emitted` | internal/sampler/sampler.go:178-231 | The same, of the samples in the order they come. |
| `Sampler.Generator.constructor` | internal/sampler/sampler.go:139-154 | A new generator stands at its first sample. |
| `Sampler.Generator.Peek` | internal/sampler/sampler.go:178-194 | Gives the current sample if and only if one is left, without moving. |
| `Sampler.Generator.Advance` | internal/sampler/sampler.go:200-211 | Moves on by one sample and keeps the walk in step; at the end it does nothing. |
| `Sampler.Drain` | internal/sampler/sampler.go:170-211 | Peek and Advance to exhaustion give sampleCount samples: in a fully covered file they tile it, byte for byte; otherwise each ends before the next begins. |
| `Sampler.RoundedIsFloor` | internal/sampler/sampler.go:114-118 | The overflow-avoiding split equals floor((slots*pct+u)/100). |
| `Sampler.ShareWithin` | internal/sampler/sampler.go:127-133 | A file's share lies between none and all of its slots. |
| `Sampler.Plan.constructor` | internal/sampler/sampler.go:95-103 | A slot is forced if and only if the tree has data, the percentage is positive and the rounded total is zero; it is then the hash modulo the total. |
| `Sampler.Plan.Next` | internal/sampler/sampler.go:122-156 | A file draws exactly its share, gets a generator if and only if that is not zero, and moves the plan on by its slots; a fully sampled file not in sequence starts at its seed modulo the slots with the first coprime step. |
| `Sampler.PlanTree` | internal/sampler/sampler.go:95-156 | Over every tree: each file draws between 0 and its slots; the files up to any one draw floor((slots*pct+u)/100) of theirs; the counts sum to that for the whole tree, or to 1, at the slot drawn, when that is 0 and the tree has data, or to 0 for a percentage of 0. |
| `SplitDownload.BuildSplitWindows` | client.go:2078-2093 | Empty exactly for a non-positive limit or empty range; otherwise windows partition the range in order, none empty or over the limit, all but the last of the limit's size. |
| `SplitDownload.StartsRise` | client.go:2078-2093 | Later windows start later, so a start offset names one window. |
| `SplitDownload.DeltasCover` | client.go:2236-2255 | Acknowledged deltas of a prefix of windows sum to the distance it covers. |
| `SplitDownload.Collect` | client.go:2007-2017 | The batch is the acks of exactly the completed windows in line from the acknowledged offset. |
| `SplitDownload.Commit` | client.go:2032-2048 | After an acknowledged batch exactly its windows stop waiting, the offset is the batch's end and progress is reported for each in order. |
| `SplitDownload.SendsChecked` | client.go:2195-2257 | A window's worker sends its result if and only if the stream succeeded, offset and size are the window's, the output synced and the hashes agree. |
| `SplitDownload.AcksReached` | client.go:2240-2254 | Every ACK in line gives the offset reached by the deltas up to it. |
| `SplitDownload.DownloadWindows` | client.go:1962-2076 | Workers finish in any order, some never: each ACK batch is the next windows in line, in an unbroken chain, every one finished by then with its stream, offset, size, sync and hash right; the deltas of all the calls made sum to the acknowledged offset minus the resume offset, and each ACK gives the offset that it and those before it reach; with every ACK accepted all windows in line are acknowledged, up to the first that is not finished and right; success means every window is; and with no cancellation either, success comes if and only if every window is finished and right. |
| `SplitDownload.EarliestStep` | client.go:2279-2283 | The aggregate's header time is the earliest positive one. |
| `SplitDownload.Fold` | client.go:2273-2304 | Taking in one window keeps sizes, wire sizes, earliest header time and codec counts true of all windows so far. |
| `SplitDownload.Aggregate` | client.go:2258-2316 | Succeeds if and only if there are windows and each has a result; sizes and codec counts are sums, the trailer time the last window's, the codec the only one or the first window's. |
| `FileStream.Stream.constructor` | client.go:3585-3597 | A stream before its first header. |
| `FileStream.Stream.ReadLine` | client.go:3714-3714 | Takes the next line; past the last one, a bare end of input. |
| `FileStream.Stream.Begin` | client.go:3562-3602 | The first header opens the first frame, or the response is refused, and then it is not a well-formed one. |
| `FileStream.Stream.NextHeader` | client.go:3708-3759 | Reports a frame if and only if one was promised and its header parses; the end if and only if none was promised and the response closes cleanly (OK and, when authenticated, a verified END). |
| `FileStream.Stream.CheckFrame` | client.go:3760-3783 | A header passes if and only if it is non-negative, contiguous, of the same file and within the request; the first one names the file. |
| `FileStream.Stream.OpenFrame` | client.go:3760-3796 | An opened frame extends the frames contiguously within the request; a header is refused only in a response that is not well-formed. |
| `FileStream.Stream.OpenNext` | client.go:3708-3796 | Opens the next frame, or reports the end only where the last trailer names no next frame and the line after it ends the response cleanly. |
| `FileStream.Stream.Promise` | client.go:3814-3826 | A trailer's next offset is none, zero for the end, or exactly the frame's end. |
| `FileStream.Stream.FinishFrame` | client.go:3798-3853 | A frame whose payload is read out closes if and only if it is as long as declared and the next line is its trailer, which holds in every well-formed response; the file's sizes and codec are brought up to date. |
| `FileStream.Stream.Pull` | client.go:3645-3655 | Returns the next bytes of the frame's payload, at most the declared rest, and at least one where there are any, there is room and the decoder gives some; a payload that goes on past the declared size is noticed before a byte of it is returned. |
| `FileStream.Stream.ReadPayload` | client.go:3645-3671 | Returns payload, moves past a closed frame, or fails; an error met with data is reported by the next read. |
| `FileStream.Stream.Turn` | client.go:3633-3671 | One turn of the read loop. |
| `FileStream.Stream.ReadOnce` | client.go:3624-3672 | Terminates on every response; a finished stream stays finished. |
| `FileStream.Stream.Read` | client.go:3613-3622 | What has been returned in all is the start of the frames' payloads in order; a read with room returns a byte where the open frame has one and its decoder gives it, and comes back empty-handed only from a decoder that stalls; the first failure is kept, every later read returns it and takes no input, and it comes only of a response that is not well-formed or a decoder that fails; EOF only where the last frame's trailer line is terminal and the line after it ends the response cleanly. |
| `FileStream.ByteAt` | client.go:3645-3784 | Byte j returned is the byte, at file offset first+j, of the payload of the frame that covers that offset. |
| `FileStream.PayloadsDeclared` | client.go:3798-3801 | Closed frames have payloads exactly as long as they declared. |
| `FileStream.Agrees` | client.go:3708-3853 | The frames opened are the first frames of whatever makes the response well-formed. |
| `FileStream.CleanOpens` | client.go:3708-3759 | Between frames of a well-formed response comes the header that was promised, or a clean end. |
| `FileStream.CleanAccepts` | client.go:3760-3796 | Every header of a well-formed response passes the checks and has a decoder. |
| `FileStream.CleanCloses` | client.go:3798-3853 | Every payload of a well-formed response has its declared size and its trailer. |
| `FileStream.ReadOut` | client.go:3613-3672 | After enough reads of a well-formed response the stream is at its end with everything returned. |
| `FileStream.Run` | client.go:3562-3672 | For every response and read pattern: failures and EOF are sticky; frame i is the parse of line 2i and closed by line 2i+1, which names a next frame for all but the last; all are of one file at contiguous offsets within the request; every byte returned is the payload byte of the frame that covers its offset. EOF means that the response is well-formed, all its payloads were returned in full and sizes and codec are those of its frames; line 2n, the last one read, is an OK with a verified END or, only when not authenticated, may be a bare end of input. Conversely a well-formed response whose decoders do not fail is never refused, and enough reads with room, one more than its bytes and its stalling decoder reads, return exactly its payloads and then EOF. |
| `Batching.BuildBatches` | client.go:2853-2877 | The batches concatenate to the entries, each is one entry or within the limit given, 64 MiB if it is not positive, and no order-preserving cut that keeps to the rule has fewer. |
| `Batching.StaysAhead` | client.go:2853-2877 | A greedy cut of any suffix needs no more batches than any allowed cut of the whole. |
| `Batching.FirstReaches` | client.go:2853-2877 | The first greedy batch reaches at least as far as the other cut's. |
| `Bech32.ShiftOr` | internal/aead/aead.go:109-109 | acc<<5|v on 32 bits is acc*32+v wrapped. |
| `Bech32.MaskIsRemainder` | internal/aead/aead.go:116-116 | acc&(1<<bits-1) is the remainder by 1<<bits. |
| `Bech32.Step` | internal/aead/aead.go:104-115 | Despite the wrap, every step keeps: all bits seen are the bytes out and the bits left below them. |
| `Bech32.Finish` | internal/aead/aead.go:116-119 | The leftover bits are fewer than five and zero if and only if the symbols regroup some bytes, and then those are the bytes out. |
| `Bech32.Regroup5To8` | internal/aead/aead.go:100-119 | Returns bytes d if and only if the characters are symbols that are the zero-padded regrouping of d; fails on a foreign character if and only if there is one. |
| `Bech32.Bech32Data` | internal/aead/aead.go:94-120 | Returns (hrp, d) if and only if the string, lower-cased, is hrp, the last separator, such symbols of d and six characters; the separator error exactly for sep<1 or sep+7>len. |
| `Bech32.EncodeRegroups` | internal/aead/aead.go:94-120 | The encoder BIP 173 describes produces the zero-padded regrouping. |
| `Bech32.RegroupedOneToOne` | internal/aead/aead.go:94-120 | Bytes and symbols of a regrouping determine each other. |
| `Bech32.RoundTrip` | internal/aead/aead.go:94-120 | Decoding inverts encoding, with any of the string's ASCII letters in upper case. |
| `Bech32.SameMeaning` | internal/aead/aead.go:94-120 | Decoding is injective: strings with the same part and data have the same characters up to the checksum. |

## Left out

- The handshake, X25519, key files and HMAC tags (`internal/aead/handshake.go`, `internal/aead/credential.go`): a session starts with two keys, one per direction, and `Session.SendAll` and `Session.Receive` cover one direction each. The locks of `Session` are modelled by that split, not as locks.
- The AEAD itself, xxh3 and the codecs: the AEAD is ideal, hashes are parameters, and a frame's decoder is any byte source: some payload in any pieces, then its end or, at any point, a failure. Every decoder's Close in `internal/filexfer/encoding/codec.go` returns nil, so closing a frame cannot fail in `FileStream`.
- Deadlines, contexts, timers and the network: success, failure and cancellation are inputs or nondeterministic choices.
- Pool targets, counters and timing: trimming and staleness remove any permitted connections, refills start or not at will, and the heartbeat's own waits are left out, which allows more interleavings than the program has. That a thread able to step does so, fairness, is not claimed.
- PoolProofs.Progress: does not cover the heartbeat's waits for a probe's place and for its own probes, or the refill lock, which the model leaves out. A borrower counts as having a step: returning its connection is up to it.
- PoolProofs.NoDeadlock: does not cover those three waits either, and counts a borrower the same way.
- The idle stack's order by time, which the program does not guarantee either.
- Several events targets sharing one writer: the model has one target, since targets share only the lock. The JSON text of records is any non-empty text.
- An underlying writer or seeker that fails, in `Faults`: the cut-independence promise is about one that succeeds. Read faults and open faults are not modelled. Latency faults change nothing but time.
- Faults.Writer.Write: says nothing of calls after a failed or short write, since callers stop there (`internal/faults/disk.go:146-149`).
- Slice aliasing in `IdSet`: slices are sequences, so that Clone shares nothing is not a statement about memory. A nil set is modelled only as Union's argument.
- int64 overflow in the sampler's products and in frame and window offsets, and uint64 overflow of codec counts: mathematical integers are used there. Bitset words, IDs, nonces and the Bech32 accumulator keep their widths.
- The goroutines that start windows and their slots (`client.go:1915-1996`): the acknowledgement loop sees workers finish in any order, some never.
- `fileStream.Close` and connection reuse, metrics, traces and progress rendering.
- Which of its errors a failing `FileStream` read names: the model has them all, and what is proved is when a read fails.
- Trailer metadata, hash tokens and header times of `FileStream` frames, which no check in `Read` depends on.
- Case folding of non-ASCII characters and verifying the Bech32 checksum: age's parser has accepted the string before.
- Floating-point reports, CLI parsing, benchmarks and process supervision.
