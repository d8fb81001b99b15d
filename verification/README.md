# Verified model of duct's transports and queues

duct carries messages between processes over a shared-memory ring or a framed byte stream, optionally
through a bounded queue, and can redial a lost connection in the background. This project models those
parts in Dafny and proves what they promise. Everything that happens outside the process (the scheduler,
the clock, the kernel's choice of how many bytes to move, the outcome of a dial) is a free choice of the
environment in the theorems, so each of them holds for every schedule and every answer.

The model has three kinds of parts:

* **Protocols.** The ring (`RingProtocol`), the queue as a monitor (`QueueMonitor`), the reconnecting pipe
  (`ReconnectProtocol`) and the QoS pipe on top of the ring (`QosOverRing`) are transition systems: a state,
  actions that are enabled or not, and runs of any length. In the ring every load, store, copied byte and
  semaphore operation is its own step; in the other three every critical section is.
* **Objects.** `ShmPipe`, `MessageQueueClass`, `QosPipe`, `ReconnectPipe`, `WireIo` and `ReconnectOverWire`
  hold the classes and loops, which update arrays and fields in place. Their contracts give the whole new state as a function of
  the old one, and those functions are the ones the protocols' steps are made of.
* **Results.** `RingSafety`, `RingRefinement`, `RingCapacity`, `RingProgress`, `ShmLink`, `MessageQueue`,
  `QueueWakeUps`, `QueueStranding`, `QueueHistory`, `ReconnectSafety`, `WireFormat`, `QosQueue`, `QosProgress`,
  `QosGrowth`, `QosRingProgress`, `Backoff`, `ExpiryAgreement` and `Address` state and prove the properties.

Fields at the end of a state that are called history (what was sent, popped, dialled) are read by no step.

## Where the code does less than its description

Each of these is a theorem about the code as it is: the input on which it falls short, and exactly when it does.

* `try_pop` signals nobody when it finds only expired messages (`src/queue.cc:137-149`). A pusher can then
  sleep for ever before an empty, open queue (`LostWakeUp`). `TryPopServesPushersIff` gives the exact
  condition, and by `PushersAlwaysServed` this is the only way to leave a sleeping pusher with neither a
  queued message nor a notified pusher to wait for.
* A sleeping pusher may all the same stay asleep though there is room for its message and nobody has been
  notified: `pop` sends one signal for each message it removes, however many pushers then fit, and a pusher
  that goes on signals no other (`src/queue.cc:75`, `src/queue.cc:124`). Five steps without a TTL are enough
  (`StrandedPusher`). `StepStrandsIff` says which steps do this: the last notified pusher that runs while a
  sleeper still finds room after it, and the `try_pop` above; no others.
* kDropOld is described as dropping messages "to make room" (`include/duct/queue.h:32`). It stops as soon as
  the total is below the mark, so the new message may not fit; kBlock admits likewise. `OvershootsIff` says for
  which queues and messages that happens, `EveryRun` gives the bound, `hwm - 1` plus the longest message, and `BoundIsReached` shows
  that it is attained.
* Outside kDropOld, a `QosPipe` without a TTL whose queue reaches its mark stops for good: the worker refuses
  to send at the mark (`src/qos_pipe.cc:31-33`) and the senders wait for the count to drop (`StuckAtMark`).
  One message of exactly `snd_hwm_bytes` is enough (`LargestMessageIsStuck`).
* Such a `QosPipe` stops below its mark as well, behind a message that the pipe underneath refuses: `send`
  admits up to `snd_hwm_bytes`, 4 MiB by default, but every transport takes at most 64 KiB
  (`src/shm_transport.cc:385`, `src/win_shm.cc:331`, `src/wire.cc:160`), and a refusal that is not fatal leaves
  the message in front (`src/qos_pipe.cc:74-86`). One message of 65537 bytes is enough (`OversizedIsStuck`).
  `QosProgress.MovesIff` says exactly when a queue over a pipe with a size limit can still move, and
  `QosRingProgress.MovesIff` the same of the pipe on the ring.
* The `QosPipe` kDropOld policy evicts one message per send, whatever the sizes. Its bytes are bounded if and
  only if nobody sends empty messages, or the mark is zero (`DropOldBoundedIff`): after k empty ones the bound is
  `(hwm + k) * hwm` (`GrowthBound`), and it is reached (`GrowthReached`).
* The `QosPipe` worker keeps the lock while the pipe underneath sends, and gives it no timeout
  (`src/qos_pipe.cc:72-74`). `close` needs the lock, so it waits for as long as a full ring waits for a silent
  peer. `SilentPeer` is a run that gets there from a fresh start, `HeldUpReachableIff` says that any positive mark
  allows one, and `CloseIsHeldUpIff` gives the exact condition in any state.
* A dial that succeeds after `close` leaves its connection installed in the closed pipe (`LateConnection`).
  By `AfterClose` that can happen exactly when `close` finds the worker deciding to dial with attempts to
  spare, dialling, or about to install.
* A `max_attempts` of zero means that the pipe retries for ever (`include/duct/duct.h:38`), but a negative one
  means that it fails without a single dial (`NegativeNeverDials`). Failing for good without a dial is
  possible if and only if `max_attempts` is negative (`FailsUndialledIff`).
* The first backoff delay is not capped, so the delays are nondecreasing, and the formula for doubling holds
  for the first one, only if it is not above the maximum (`MonotoneIff`, `Doubling`).

## Model

| member | source | states |
|---|---|---|
| RingSafety.InitInv | src/shm_transport.cc:324-332 | Zeroed memory, no items and 64 spaces satisfy the ring invariant: conservation, counters equal to the true counts modulo 2^32, every unread message whole in its slot, both processes' locals consistent. |
| RingSafety.StepKeepsInv | src/shm_transport.cc:383-428 | Every single step of either process, byte copies in any order included, keeps the ring invariant. |
| RingSafety.FifoNoTearing | src/shm_transport.cc:383-428 | In every reachable interleaving, what `recv` returned and what `send` confirmed are prefixes, byte for byte, of the messages whose head store completed; nothing is lost beyond what the ring holds. |
| RingSafety.Conservation | src/shm_transport.cc:329-332 | Spaces, items, the space the producer holds and the item the consumer holds always add up to 64; head and tail are never more than 64 apart. |
| RingSafety.Exclusion | src/shm_transport.cc:396-424 | The producer never writes the slot the consumer is reading. |
| RingSafety.ErrorBranchesUnreachable | src/win_shm.cc:349-379 | Neither `ReleaseSemaphore` can exceed its maximum and no slot length is ever too large, so all three error branches are dead, with the cap or without. |
| RingSafety.NoDeadlock | src/shm_transport.cc:393-414 | Producer and consumer never wait for each other: one of the two semaphores can always be taken. |
| RingRefinement.ContentsAreWindow | src/shm_transport.cc:396-425 | Reading lengths and bytes out of the shared memory from tail to head, in 32-bit arithmetic, gives exactly the messages sent and not yet taken, however often the counters have wrapped. |
| RingRefinement.StepRefines | src/shm_transport.cc:396-425 | Every protocol step is a step of a FIFO of capacity 64: enqueue at the head store, dequeue of the oldest at the tail store, nothing otherwise. |
| RingRefinement.RingRefinesFifo | src/shm_transport.cc:383-428 | Every run from a fresh ring is a run of that FIFO from empty whose enqueues are the messages sent and whose dequeues are the messages taken out. |
| RingCapacity.SendAlone | src/shm_transport.cc:393-404 | A `send` that finds a space and meets no interference is a run of the protocol that changes exactly one slot, the head, the two counts and the histories. |
| RingCapacity.RecvAlone | src/shm_transport.cc:414-427 | A `recv` that finds an item and meets no interference returns the oldest message in the ring. |
| RingCapacity.ExactCapacity | src/shm_transport.cc:393-403 | With k messages in an idle ring and no receiver, any 64 - k sends succeed, and the next has to wait exactly when all 64 - k have been made. |
| RingProgress.NothingStranded | src/shm_transport.cc:383-428 | From every reachable state, with calls stopped at any byte, the calls can finish and receives alone then return every message sent, leaving all 64 spaces free. |
| ShmLink.DirectionsAreIndependent | src/shm_transport.cc:389-412 | In any run of a client and a server, each of the two rings goes through a run of its own. |
| ShmLink.LinkIsReliable | src/shm_transport.cc:389-412 | Whatever both sides do in both directions at once, what either side's `recv` returned is a prefix of what the other side's `send` confirmed, and no error branch is taken. |
| ShmPipe.Ring.Send | src/shm_transport.cc:383-405 | Over arrays updated in place: the status for every input, no change on failure, and on success the state that a protocol run of `send` ends in. |
| ShmPipe.Ring.Recv | src/shm_transport.cc:407-428 | Over the same arrays: timeout exactly on an empty ring, otherwise the oldest message and the state that a protocol run of `recv` ends in. |
| ShmPipe.Pipe.Send | src/shm_transport.cc:383-405 | Refuses when closed; the client sends on c2s and the server on s2c, which changes only on success; the other ring never changes. |
| ShmPipe.Pipe.Recv | src/shm_transport.cc:407-428 | The client receives on s2c and the server on c2s: the oldest message there, or a timeout exactly when there is none. |
| ShmPipe.Exchange | src/shm_transport.cc:383-428 | A client and a server object over the same rings, in any sequence of calls by either: what each end received is a prefix of what the other end confirmed. |
| MessageQueueClass.MessageQueue.Push | src/queue.cc:12-77 | The outcome, the new queue and byte total, and the calls on both condition variables, for every policy and state. |
| MessageQueueClass.MessageQueue.PushAwake | src/queue.cc:26-43 | A blocked push that wakes does what a new push would do in that state. |
| MessageQueueClass.MessageQueue.Pop | src/queue.cc:79-126 | Skips the expired front, takes the next message, and notifies one pusher for every message removed. |
| MessageQueueClass.MessageQueue.TryPop | src/queue.cc:128-157 | The same without waiting, and with a notification only when a message is returned. |
| MessageQueueClass.MessageQueue.EraseExpired | src/queue.cc:196-205 | The erasing loop leaves exactly the unexpired messages in order and takes their bytes off the total. |
| MessageQueueClass.MessageQueue.PurgeExpired | src/queue.cc:186-212 | The count returned, the new state, and `notify_all` exactly when something was purged. |
| MessageQueueClass.MessageQueue.Close | src/queue.cc:174-179 | Sets the flag and notifies all on both condition variables, changing nothing else. |
| MessageQueue.PushAdmitsIff | src/queue.cc:12-77 | Exactly which messages each policy lets in, in terms of the total, the size and the mark; a refused message leaves no trace, an admitted one is the newest and costs older ones only under kDropOld at the mark. |
| MessageQueue.PushAnswers | src/queue.cc:15-58 | What a refused message is told, under each policy and on a closed queue. |
| MessageQueue.AdmittedLives | src/queue.cc:62-73 | An admitted message expires exactly when more than the TTL has passed since its push, and never without a TTL. |
| MessageQueue.TakesOldestLive | src/queue.cc:99-126 | `pop` and `try_pop` deliver the oldest unexpired message and leave exactly the unexpired ones after it. |
| MessageQueue.PopAnswers | src/queue.cc:79-126 | The answer of `pop` in every state: the oldest live message, which is the one the history gains; closed or wait on an empty queue; closed or timeout if everything had expired. |
| MessageQueue.TryPopAnswers | src/queue.cc:128-157 | The answer of `try_pop`: nothing exactly when nothing is alive, and otherwise the oldest live message. |
| MessageQueue.EvictsShortestPrefix | src/queue.cc:50-55 | kDropOld evicts a prefix that brings the total below the mark, and no shorter prefix would. |
| MessageQueue.OvershootsIff | src/queue.cc:21-60 | An admitted message takes the queue above its mark, under kBlock exactly when it does not fit, under kDropOld exactly when some suffix of the queue is below the mark by itself but above it with the message, and under the other policies never. |
| MessageQueue.PushKeeps | src/queue.cc:12-77 | A push keeps the history exact: total equal to the queued bytes, queue a suffix of everything enqueued, every other message with exactly one truthful fate, deadlines nondecreasing. |
| MessageQueue.TakeKeeps | src/queue.cc:99-126 | So does the body of `pop` and `try_pop`; no message is popped past its deadline or expired before it. |
| MessageQueue.PurgeKeeps | src/queue.cc:186-212 | So does a purge. |
| MessageQueue.PurgeIsSkip | src/queue.cc:193-205 | The erase-anywhere loop does to the whole state exactly what the front-skipping loop of `pop` does. |
| MessageQueue.PushKeepsMark | src/queue.cc:21-60 | A push keeps its policy's byte bound: the mark for kDropNew and kFailFast, the mark less one plus the longest message for kBlock and kDropOld. |
| QueueWakeUps.PoppersAlwaysServed | src/queue.cc:79-126 | In every run by any number of threads, with barging, timeouts and spurious wake-ups: while a popper sleeps on an open queue, there are at least as many notified poppers as queued messages. |
| QueueWakeUps.PopWaitsIff | src/queue.cc:82-90 | A pop falls asleep exactly on an empty, open queue, unless its time is up; nobody else does. |
| QueueWakeUps.PushWaitsIff | src/queue.cc:24-38 | A push falls asleep exactly under kBlock at the mark when its message does not fit, unless its time is up. |
| QueueWakeUps.PushersAlwaysServed | src/queue.cc:24-44 | In every run in which no `try_pop` meets the condition of the next row: while a pusher sleeps, the queue is open and either nonempty or has a notified pusher pending. |
| QueueWakeUps.TryPopServesPushersIff | src/queue.cc:128-157 | A `try_pop` loses that guarantee exactly when a pusher sleeps, none is notified, and every queued message has expired. |
| QueueWakeUps.NobodySilenced | src/queue.cc:128-157 | In a run without `try_pop`, or without a TTL, no step meets that condition. |
| QueueWakeUps.EveryRunServesPushers | src/queue.cc:24-44 | The guarantee for every run from a new queue. |
| QueueWakeUps.LostWakeUp | src/queue.cc:137-149 | A three-step run in which this happens. |
| QueueStranding.StepStrandsIff | src/queue.cc:24-44 | The stronger guarantee, that no sleeping pusher could go on while nobody is notified, is lost by a step exactly when the last notified pusher runs and some sleeper still finds room after it, or a `try_pop` silently empties the queue. |
| QueueStranding.StrandedPusher | src/queue.cc:75-124 | A five-step run, without a TTL and without `try_pop`, that loses it. |
| QueueStranding.PushersNeverStranded | src/queue.cc:24-44 | In every run without such a step it holds. |
| QueueStranding.EveryRunStrandsNobody | src/queue.cc:24-44 | The stronger guarantee for every run from a new queue without such a step. |
| QueueHistory.NobodySleepsOnClosed | src/queue.cc:174-179 | `close` wakes everybody, and in no run does anybody sleep on a closed queue afterwards. |
| QueueHistory.NothingEntersClosed | src/queue.cc:15-42 | A closed queue stays closed and only shrinks, in every run: no push enters it, not even one that was waiting. |
| QueueHistory.CloseIsFinal | src/queue.cc:174-179 | The same from any `close` on. |
| QueueHistory.EveryRun | src/queue.cc:12-218 | In every run: enqueued messages split exactly into popped, evicted, expired and queued; the popped are an order-preserving selection; fates are truthful; the byte total and each policy's bound hold. |
| QueueHistory.BoundIsReached | src/queue.cc:220-223 | The bound of kBlock and kDropOld is attained for every mark and every longest message. |
| Expiry.SkipIsKeepOnlyThen | src/queue.cc:99-111 | Skipping at the front equals filtering if and only if no expired message stands behind a live one. |
| ExpiryAgreement.ThreeExpiriesAgree | src/qos_pipe.cc:47-63 | On the same messages at the same time, `pop`'s loop, `purge_expired` and the QoS pipe's compaction keep the same messages in the same order. |
| ReconnectSafety.StepKeepsInv | src/reconnect_pipe.cc:28-198 | Every step of the worker, of any call and of `close` keeps ownership of connections, the count of failures, and the consistency of every call. |
| ReconnectSafety.CallsNeverRetry | src/reconnect_pipe.cc:28-64 | Under any interleaving, the connections one call tries are strictly newer each time, all attempts but the last ended in a disconnect, and the answer is true: what the last use reported, or, after a disconnect or without a use, what the end of its last wait found: closed, else exhausted, else a timeout exactly if there was no connection. |
| ReconnectSafety.WaitEnds | src/reconnect_pipe.cc:102-115 | How a wait ends in every state: each of closed, exhausted, timeout and going on happens exactly when it should, and a timeout only when time is up. |
| ReconnectSafety.RoundEnds | src/reconnect_pipe.cc:33-43 | How the rest of a round ends: the connection in place is used; a disconnect is reported and the call waits again; any other report is returned; only the very connection reported is dropped. |
| ReconnectSafety.StaysUntilBlamed | src/reconnect_pipe.cc:117-130 | A connection stays in place through any run in which nobody closes the pipe and no call blames that very connection: stale errors never drop a newer one. |
| ReconnectSafety.MovedOutOnce | src/reconnect_pipe.cc:66-175 | Connections are installed once, moved out at most once and in order, and none is overwritten. |
| ReconnectSafety.FailsAfterExactlyMax | src/reconnect_pipe.cc:150-162 | `permanently_failed_` means the policy has a limit, exactly that many dials in a row failed last (none at all exactly under a negative limit), the worker has exited and no connection is in place. |
| ReconnectSafety.NegativeNeverDials | src/reconnect_pipe.cc:152-162 | Under a negative `max_attempts` no run ever starts a dial or installs a connection. |
| ReconnectSafety.FailsUndialledIff | src/reconnect_pipe.cc:152-162 | A pipe can fail for good without a dial if and only if `max_attempts` is negative; six steps of the worker are then enough. |
| ReconnectSafety.FailureIsPermanent | src/reconnect_pipe.cc:132-162 | From then on, in every run, no dial starts or ends and no connection appears. |
| ReconnectSafety.KeepsTrying | src/reconnect_pipe.cc:132-198 | In every run in which nobody closes a pipe without a connection, whatever the calls do: until another dial, a connection, or permanent failure, the worker is never blocked, and at most seven of its steps suffice. |
| ReconnectSafety.CloseEndsWorker | src/reconnect_pipe.cc:66-198 | After `close`, from wherever the worker is, at most one more dial starts and the worker exits within five of its own steps, never blocked before that. |
| ReconnectSafety.AfterClose | src/reconnect_pipe.cc:66-79 | After `close` at most one connection is ever installed, and then it is in place; that can happen if and only if `close` finds the worker in flight: deciding to dial with attempts to spare, dialling, or about to install. |
| ReconnectSafety.LateConnection | src/reconnect_pipe.cc:164-175 | A run in which a dial that ends after `close` leaves its connection in place. |
| ReconnectPipe.ReconnectPipe.Close | src/reconnect_pipe.cc:66-79 | Moves the connection out once and notifies once; a second call does nothing. |
| ReconnectPipe.ReconnectPipe.MarkDisconnected | src/reconnect_pipe.cc:117-130 | Moves out exactly the blamed connection, if it is in place and the pipe open, and notifies only then. |
| ReconnectPipe.ReconnectPipe.LeaveWaiting | src/reconnect_pipe.cc:102-115 | The order of the answers: closed, then exhausted, then connected, and a timeout only when none holds. |
| ReconnectPipe.ReconnectPipe.InstallConnection | src/reconnect_pipe.cc:166-172 | Puts the new connection in place and notifies. |
| ReconnectPipe.ReconnectPipe.CallLoop | src/reconnect_pipe.cc:28-64 | The retry loop makes of any sequence of encounters the call that the protocol's steps make of it. |
| ReconnectPipe.PlayEnds | src/reconnect_pipe.cc:28-64 | That call goes on past every encounter with a live pipe and no connection or a disconnect; the first other encounter decides the answer, in the right order; it has used exactly the connections met so far. |
| ReconnectOverWire.SendOver | src/reconnect_pipe.cc:28-45 | With framed connections underneath, a reconnecting `send` delivers at most once: whoever reads the connections tried to their ends gets the message from the last one exactly if that reported success, and from no other. |
| Backoff.DialRound | src/reconnect_pipe.cc:150-196 | The dial loop stops at the first success or at the limit, after that many failures, having asked for exactly the sum of those delays and jitters. |
| Backoff.RequestedIsSum | src/reconnect_pipe.cc:183-192 | The sleep requested is the sum of the delays and of the jitters. |
| Backoff.DelayBounds | src/reconnect_pipe.cc:194-195 | No delay is negative and none after the first is above the maximum. |
| Backoff.EachDelay | src/reconnect_pipe.cc:194-195 | For every multiplier, each delay after the first is the previous one times the multiplier, rounded down and capped at the maximum. |
| Backoff.MonotoneIff | src/reconnect_pipe.cc:150-195 | The delays are nondecreasing if and only if the first is not above the maximum. |
| Backoff.Doubling | src/reconnect_pipe.cc:194-195 | With multiplier 2 the k-th delay is the minimum of the maximum and the initial delay times 2^k; for the first delay exactly if it is not above the maximum. |
| Backoff.RequestedBound | src/reconnect_pipe.cc:183-195 | n failures in a row ask for at most 1.5 n maximal delays, jitter included, and 1.5 times what an initial delay above the maximum exceeds it by. |
| WireFormat.HeaderRoundTrip | src/wire.cc:22-69 | Decoding an encoded header gives it back exactly when magic, version, header length and payload limit are right, and a protocol error otherwise. |
| WireFormat.HeaderCanonical | src/wire.cc:36-69 | Sixteen bytes are accepted exactly when they are the encoding of an acceptable header, and then of the one decoded. |
| WireFormat.FrameLayout | src/wire.cc:22-34 | Where each byte of a frame is: magic, version and header length in network order, the payload length, the flags, the payload. |
| WireFormat.FrameReads | src/wire.cc:178-192 | What `read_frame` makes of any bytes: the message of a frame exactly if one is there, leaving what follows; a protocol error exactly if sixteen bytes are there that are no acceptable header; closed otherwise. |
| WireFormat.AnyStream | src/wire.cc:178-192 | Any bytes read to the first error give the messages of the whole frames in front, then a protocol error if a bad header follows and closed otherwise. |
| WireFormat.TruncatedStream | src/wire.cc:178-192 | A stream of frames cut at any byte reads as exactly the frames wholly before the cut, then closed. |
| WireFormat.WholeIsMaximal | src/wire.cc:159-192 | The number of frames counted as wholly before a cut is the largest that fits. |
| WireFormat.StreamRoundTrip | src/wire.cc:159-192 | An uncut stream reads as all its messages, then closed. |
| WireIo.WriteAll | src/wire.cc:104-131 | Under any short writes, interruptions and errors: all bytes in order on success, a proper prefix on failure; an error is kIoError exactly after a hard error and kClosed after a write of nothing. |
| WireIo.ReadExact | src/wire.cc:133-155 | Under any short reads, interruptions and errors: exactly the next bytes of the stream, closed only if it ends first, and kIoError only after a hard error. |
| WireIo.EncodeHeader | src/wire.cc:22-34 | The buffer filled field by field holds the header's bytes. |
| WireIo.DecodeHeader | src/wire.cc:36-69 | The checks in order give the result of the format. |
| WireIo.WriteFrame | src/wire.cc:159-176 | Refuses an oversized message before writing; otherwise writes the frame, or a proper prefix of it before an error. |
| WireIo.ReadFrame | src/wire.cc:178-192 | Unless the socket breaks, the result and the rest of the stream are those of the format. |
| WireIo.SendFrames | src/wire.cc:159-176 | A sender that stops leaves on the wire the frames whose write returned Ok and at most a proper part of the next. |
| WireIo.Conversation | src/wire.cc:104-192 | A sender and a receiver under any chunking and failures, frames cut in the middle and oversized messages included: exactly the messages whose write returned Ok arrive, and then the connection is closed; a prefix of them if the receiver breaks. |
| QosPipe.QosPipe.SendLocked | src/qos_pipe.cc:114-155 | The outcome and the whole new state for every policy and state. |
| QosPipe.QosPipe.RemoveExpired | src/qos_pipe.cc:47-63 | The in-place compaction leaves the unexpired messages in order and corrects both counters. |
| QosPipe.QosPipe.WorkerRound | src/qos_pipe.cc:38-102 | When the underlying pipe is asked (running, below the mark, the front message not too old), and what each answer does: handed over and gone, kept, or kept and the pipe stopped. |
| QosPipe.QosPipe.Send | src/qos_pipe.cc:104-156 | What each answer of `send` means to its caller: Ok means queued as the newest message except under kDropNew at the mark, every error means that nothing was queued and nothing changed, and each error has its one cause. |
| QosQueue.RoundKeeps | src/qos_pipe.cc:38-102 | A turn of the worker keeps the accounts, the history, the stamps and the bound. |
| QosQueue.SendKeeps | src/qos_pipe.cc:104-156 | So does a send. |
| QosQueue.SendAdmitsIff | src/qos_pipe.cc:116-150 | Exactly which messages are queued under the lock, and when that costs the oldest one; a message that is not queued leaves no trace. |
| QosQueue.EveryRun | src/qos_pipe.cc:38-156 | In every run: byte and message counts equal the queue's; outside kDropOld at most 2 hwm - 1 bytes; what was handed over is an order-preserving selection; without TTL and outside kDropOld nothing is lost. |
| QosQueue.BoundIsReached | src/qos_pipe.cc:109-150 | The bound 2 hwm - 1 is attained. |
| QosProgress.StuckAtMark | src/qos_pipe.cc:30-33 | At the mark, without a TTL and outside kDropOld, no run hands over or accepts another message. |
| QosProgress.MovesIff | src/qos_pipe.cc:30-86 | Over a pipe that takes messages up to some size, any size, and under any options: a message can still be handed over if and only if the worker runs and either the mark is positive and there is a TTL or the policy is kDropOld, or the queue is below its mark and its front message is not too large. |
| QosProgress.LargestMessageIsStuck | src/qos_pipe.cc:109-150 | A message as large as the mark is accepted by a fresh pipe and, in every run, never handed over. |
| QosProgress.FatalStops | src/qos_pipe.cc:79-86 | After kClosed or kIoError from the underlying pipe the message stays queued, and no run hands anything over or restarts the pipe. |
| QosProgress.CloseStops | src/qos_pipe.cc:162-169 | The same after `close`. |
| QosGrowth.GrowthBound | src/qos_pipe.cc:104-156 | In every run, under every policy, the queue holds at most hwm + k messages and (hwm + k) * hwm bytes, where k is the number of empty messages sent. |
| QosGrowth.GrowthReached | src/qos_pipe.cc:126-133 | kDropOld reaches that bound for every k and every positive mark. |
| QosGrowth.DropOldBoundedIff | src/qos_pipe.cc:126-133 | The bytes kDropOld holds are bounded if and only if empty messages are never sent, or the mark is zero. |
| QosGrowth.DropOldUnbounded | src/qos_pipe.cc:126-133 | With empty messages the queue reaches n times the mark for every n. |
| QosOverRing.StepKeepsInv | src/qos_pipe.cc:38-156 | With the ring underneath, every step of callers, worker, producer bytes and receiver keeps both invariants and the correspondence of hand-over and ring. |
| QosOverRing.EndToEnd | src/qos_pipe.cc:72-78 | In every run the peer receives an order-preserving selection of the queued messages, byte for byte. |
| QosOverRing.EndToEndPrefix | src/duct.cc:75-79 | Without a TTL and outside kDropOld the peer receives a prefix of the queued messages. |
| QosOverRing.NothingLostEndToEnd | src/qos_pipe.cc:72-81 | In such a run what was queued is, in order, what the receiver has taken out, what the shared memory holds, and what is still queued: nothing is lost or doubled on the way. |
| QosRingProgress.CloseIsHeldUpIff | src/qos_pipe.cc:162-167 | `close` can get the lock without the receiver taking a step if and only if the worker is not waiting for a slot of a full ring. |
| QosRingProgress.SilentPeer | src/qos_pipe.cc:72-74 | A run from a fresh start, with any positive mark, in which 64 messages fill the ring and the worker waits for a slot with the lock held. |
| QosRingProgress.HeldUpReachableIff | src/qos_pipe.cc:104-112 | Such a run exists if and only if the mark is positive. |
| QosRingProgress.MovesIff | src/qos_pipe.cc:38-102 | On the ring, from every state the invariant allows: a message can still be handed over if and only if one is on its way, or the worker runs and its queue can move past a slot of 64 KiB. |
| QosRingProgress.OversizedIsStuck | src/qos_pipe.cc:109-150 | A first message larger than a slot and below the mark is accepted, and then no run, without a TTL and outside kDropOld, ever puts anything into the ring. |
| QosRingProgress.SemaphoreErrorStops | src/qos_pipe.cc:79-86 | On the ring, an error of the semaphore stops the pipe: no run hands over another message. |
| QosRingProgress.CloseStops | src/qos_pipe.cc:162-169 | So does `close`, once it has the lock. |
| Address.BuildThenParse | include/duct/utils.h:42-44 | For every host, colons and separators included, and every 16-bit port, parsing the built address gives them back; an empty host becomes the loopback address. |
| Address.BuildsTcp | include/duct/utils.h:42-44 | The text that is built. |
| Address.DecimalIsShortest | include/duct/utils.h:42-44 | The port is written without leading zeros. |
| Address.ParseThenBuild | src/address.cc:43-58 | Every accepted tcp address has a host and a 16-bit port that building and parsing again does not change. |
| Address.TcpAcceptedIff | src/address.cc:43-58 | A tcp body is accepted exactly when it is a host, a colon and digits whose value fits 16 bits. |
| Address.AcceptedIff | src/address.cc:23-77 | Exactly which strings are addresses: a tcp body without a separator, or what the first separator splits into "tcp" and a tcp body, or into another known scheme and a nonempty name. |
| Address.AcceptedSays | src/address.cc:23-77 | What every accepted address says, field by field; what is not accepted is an invalid argument. |
| Address.BodyParses | src/address.cc:30-57 | `host:port` without a scheme gives that host and that port. |
| Address.NamesParse | src/address.cc:60-74 | The other schemes keep any nonempty name whole and refuse an empty one. |
| Address.ParseU16 | src/address.cc:9-19 | Accepts exactly the nonempty digit strings up to 65535, with their value. |
| Address.ValuePlaces | src/address.cc:9-19 | Digits are read in base ten, most significant first. |
| Address.ParseAddress | src/address.cc:23-77 | The step-by-step parser computes the result the address lemmas are about. |

## Left out

- Sockets, name lookup, `shm_open`, `mmap`, semaphore objects, named pipes, handles and their cleanup: only their outcomes appear (bytes moved, end of stream, errors, semaphore counts).
- `src/tcp_transport.cc`, `src/uds_transport.cc`, `src/pipe_transport.cc`, `src/socket_utils.cc`: wrappers over system calls around the framing.
- Several senders or several receivers on one side of a ring: the code takes no lock there.
- Weak memory: the semaphores and atomics are taken as sequentially consistent.
- ShmPipe.Ring.Send: runs without interference, so a full ring is a timeout; the interleaved call is `RingProtocol`, and `RingCapacity.SendAlone` joins the two.
- ShmPipe.Ring.Recv: likewise for an empty ring.
- Closing a shared-memory pipe while the other side is in a call: the theorems cover a side that stops at any step, not the unmapping.
- MessageQueueClass.MessageQueue.Push: reports that it has to wait instead of sleeping; sleeping and waking are in `QueueMonitor`.
- QueueWakeUps.PushersAlwaysServed: says that somebody will still come by who signals, not that no sleeper could go on, which is false; `StepStrandsIff` has the exact condition.
- Wake-ups of `QosPipe`, and that what `MovesIff` says can still happen does happen: that would need the threads to be scheduled fairly.
- QosQueue.EveryRun: its byte bound is for the policies other than kDropOld; that one's is in `GrowthBound`, and depends on the number of empty messages.
- ReconnectPipe: the state callbacks, `last_error_` and the order in which both become visible, which follow the release of the lock.
- ReconnectPipe.ReconnectPipe.CallLoop: the environment's encounters are an input list; the concurrent call is in `ReconnectProtocol`.
- ReconnectSafety.CloseEndsWorker: the worker counts as able to take its next step while it dials, so it assumes that every dial returns.
- ReconnectSafety.KeepsTrying: likewise.
- Backoff.DialRound: the dial results and the jitter are input lists, and the multiplier is a real number, so floating-point rounding is not modelled.
- WireIo.Conversation: interruptions are finitely many, since a call that is interrupted for ever does not return.
- Overflow of byte counters and of clock arithmetic: numbers are unbounded except the ring's 32-bit counters and the 16- and 32-bit header fields.
- QosQueue.SendKeeps: a send may be queued after `close` at any time, which includes the race in the code between the unlocked test of `running_` and the lock.
- Parsing of scheme names other than by exact comparison, name sanitising and hashing, message builders, logging, asynchronous and convenience wrappers: easy members or wrappers.
