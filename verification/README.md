# A model of the MT RPC host stack

The host side of the TI Z-Stack ZNP examples talks to a network processor over a serial line. This
project models the parts of it in which state, concurrency and byte-level arithmetic meet, and proves
what they guarantee.

| module | what it models |
|---|---|
| `Bytes`, `Frames` | octets and words; the frame `SOF len cmd0 cmd1 payload fcs` and its check octet |
| `Transport` | the serial port: reads in arbitrary pieces that may fail, writes in chunks of eight |
| `Receiver` | one call of the frame reader as a function of the octets and of what each read meets |
| `Rpc` | the reader and the writer as they run, over buffers and eight-bit counters, refining `Receiver` |
| `Streams` | many calls in a row over frames and line noise |
| `MessageQueue` | the linked message queue as a heap structure that refines a sequence |
| `QueueRuns` | the same queue under any number of threads, one semaphore operation or access a step |
| `Handshake`, `HandshakeSafety`, `Pairing`, `Timeouts` | requests and responses between application threads, reader thread and device, as a step system |
| `Agreement` | that the steps of the handshake do what the code of single calls does |
| `Threads`, `Numbers` | counting threads by where they are, for the two step systems; minimum and maximum |
| `Messages`, `LqiCodec` | the neighbour table response and its parser |
| `EndToEnd` | from the octets on the line to the callback |
| `Requests` | request builders with lists, and decoders that take their octets apart again |
| `Topology`, `LateResponses` | network discovery through callbacks that re-enter themselves; responses to an earlier discovery |
| `LineEditor` | the console's in-place line editor and its history |
| `Completion` | command name completion |
| `StressTest` | the sequence number accounting of the stress test |

Code that updates state in place is modelled by classes and methods with loops; each such method is
proved to compute a specification function or to keep an invariant, and the lemmas are about that.
The concurrent parts are step relations; a theorem about them is about every interleaving of every
length, and about any number of threads unless it says otherwise.

## Assumptions

- The build is the one for a UART with start-of-frame and check octets.
- The port is opened with VMIN 1, so a `read` that does not fail returns at least one octet or does
  not return. Which reads fail, and how many octets each finds, is an arbitrary schedule.
- A payload has at most 250 octets, as framework/rpc/rpc.h:73-75 says, wherever a theorem speaks of
  frames that are sent. What the code does beyond that is kept in the model (see below).
- Semaphores behave as in the System Interfaces volume of IEEE Std 1003.1-2017. In particular
  `sem_timedwait` does not time out when the semaphore can be locked at once. How long anything takes
  is not modelled: where a wait may time out, that is a step that may happen or not.
- The entries of a neighbour table have the fields of section 2.4.4.3.2 (Mgmt_Lqi_rsp) of the ZigBee
  Specification 053474r17.
- In the handshake, `HandshakeSafety` and `Pairing` are about a device that answers each synchronous
  request once, in the same subsystem, and sends no other responses; indications are unrestricted, and
  no wait for a response times out. `Timeouts` allows timeouts, and `Handshake.ConservationOverRuns`
  any device as well.
- Topology discovery is about networks in which no router is the child of two devices, with at most 64
  responding devices and at most 20 children each. A router may fail to answer or answer with an
  error, and the wait that ends the discovery may time out early; the theorem then says which devices
  are found. A device answers each request with the same table.

## Where the code does not do what one would expect

Each of these has the exact condition under which the code does what it promises, in both
directions, and where a counterexample is not immediate from the condition, a concrete one.

- A damaged length octet makes the reader take another number of octets for the frame, and it accepts
  them if they happen to XOR to 0 with that octet (`Streams.DamagedLength`); one damaged bit suffices
  (`Streams.DamagedLengthIsAccepted`). Damage behind the length octet is detected unless the
  differences cancel out.
- A payload of 251 octets fits the send buffer, but the length handed to the transport wraps to 0 and
  nothing is written; a longer payload overruns the buffer (`Rpc.Host.WriteFrame`).
- A received length octet of 253 or more, or of 252 when the first read of the body fails, takes the
  reader outside its buffer or lets it pass over a buffer it has not filled
  (`Receiver.UndefinedExactly`). With a sane length the failed read, 255 as an octet, is always
  recognised.
- The reader wakes the sender before it queues the response. A sender quick enough to take a message
  in between gets an older indication, and its status is that of an earlier response
  (`Pairing.OwnResponseExactly`, `Pairing.RaceTakesAnIndication`).
- After a wait has timed out, the next synchronous request can be woken by something else than its own
  response: by a token left behind (`Pairing.TimeoutLeavesAToken`), or by the late response, which
  passes the comparison if the subsystem is the same and is then what the request takes
  (`Pairing.LateResponseIsTaken`). It cannot, for any number of threads, if and only if at the moment it
  sets `expectedSrspCmdId` there is no token, no response about to be posted, and no request at the
  device and no response on its way for that subsystem (`Timeouts.OwnWakeExactly`).
- Completion keeps one letter too many if that letter makes the line a command name, although other
  commands still match. That every line is completed right is a property of the command table alone
  (`Completion.CompletesAllExactly`); with "abc" and "abd" it fails (`Completion.OneLetterTooMany`).
- Going down in the history leaves the cursor where it is counted from the end. Unless the line that
  comes back ends with the text after the cursor, the two buffers no longer describe one line
  (`LineEditor.Console.HistoryDown`, `LineEditor.CursorCanBeLost`).
- A discovery that ends at an early timeout leaves responses on their way, and the next one takes them
  for its own. It does no harm exactly if none of them reports success: then the list is right whatever
  comes when (`Topology.Discovery.Discover`), and otherwise its device is recorded twice in some order
  (`LateResponses.LeftoverIsRecordedTwice`). With a coordinator and one router the list gets three rows
  (`LateResponses.TwoDevicesThreeRows`).
- A node that announces itself again gets a second row in the stress test, unless no row is free
  (`StressTest.AnnouncementKeepsDistinct`). Its echoes go to the first row: the second row counts errors
  that are none, the first row may miss its own (`StressTest.RejoinedExactly`,
  `StressTest.FirstRowIsMiscounted`). The table is accounted right under every schedule of echoes if and
  only if each node has one row (`StressTest.AlwaysExactExactly`).
- An echo that is later than the node's next turn is stored all the same. It makes an error of a number
  that is back, or hides that one is lost, under the condition in `StressTest.LateEchoExactly`; the
  second can happen because numbers start again after an error (`StressTest.LateEchoHidesALoss`).

## Model

| member | source | states |
|---|---|---|
| Frames.ChecksIsXorZero | framework/rpc/rpc.c:358-365 | a received body passes the test exactly if all its octets XOR to 0 |
| Frames.CorruptionDetection | framework/rpc/rpc.c:358-365 | what arrives in place of a frame that was sent, with the same length octet, passes the test exactly if the bit differences cancel out |
| Frames.SingleOctetDamageIsDetected | framework/rpc/rpc.c:529-540 | with the length octet intact, exactly one damaged octet behind it never passes the test |
| Frames.CommandOctet | framework/rpc/rpc.h:67-71 | the upper three bits of the first command octet are the type, 1 for a synchronous request, 2 for an asynchronous one, 3 for a response; the lower five are the subsystem |
| Frames.FrameOctets | framework/rpc/rpc.c:446-474 | a frame is 0xFE, the payload length, the two command octets, the payload and an octet that makes all behind 0xFE XOR to 0; the message the receiver passes on is all behind the length |
| Frames.StoredOctets | framework/mt/mtParser.c:83-116 | responses are stored exactly if their first octet is 0x61, 0x64, 0x65 or 0x66 |
| Transport.ReadAt | framework/platform/gnu/rpcTransportUart.c:221-231 | a read delivers at least one and at most the wanted number of octets, from the front of the line; it stalls only on an empty line |
| Transport.Port.Read | framework/platform/gnu/rpcTransportUart.c:221-231 | a failure comes back as 255 and leaves the buffer alone; otherwise exactly the octets read are stored and taken from the line |
| Transport.Port.Write | framework/platform/gnu/rpcTransportUart.c:184-210 | the chunks put together are the octets to be written; every chunk but the last has eight |
| Receiver.FillIsExact | framework/rpc/rpc.c:307-353 | however the reads split and fail, the loop ends with exactly the next wanted octets after at most five failures, gives up at the sixth, or waits for octets that are not there; it takes nothing else from the line, and only the first of 255 octets can be missed |
| Receiver.FillWithoutFailures | framework/rpc/rpc.c:307-353 | without failed reads the loop fills the buffer, for every split, if there are enough octets, and waits for ever if there are not |
| Receiver.UndefinedExactly | framework/rpc/rpc.c:292-359 | the call leaves the buffer or misses a failed read if and only if the length octet is 253 or more, or 252 with a failing first read |
| Receiver.UnreadExactly | framework/rpc/rpc.c:312-353 | a failed read passes for data if and only if 255 octets are wanted and the very first read fails |
| Receiver.BodyLength | framework/rpc/rpc.c:302-304 | the eight-bit sum is the length plus three up to 252 and less than three from there on |
| Receiver.RouteInNumbers | framework/rpc/rpc.c:367-405 | with 3 in the upper three bits a message is a response, accepted if its lower five bits are the subsystem expected and else dropped; with anything else it is an indication |
| Rpc.CalcFcs | framework/rpc/rpc.c:529-540 | the loop computes the XOR of the octets it is given |
| Rpc.FcsMatches | framework/rpc/rpc.c:358-365 | the comparison in the buffer is the test on the octets received |
| Rpc.BuildFrame | framework/rpc/rpc.c:446-466 | the buffer starts with the encoding of the frame whenever the payload fits; it is overrun exactly if the payload is longer than 251 octets |
| Rpc.Host.FillBuffer | framework/rpc/rpc.c:307-353 | the loop over eight-bit index and counter terminates, ends as `FillFrom` says and leaves exactly its octets in the buffer; index plus remaining octets stay `len + 4`, and no write leaves the 256 octets |
| Rpc.Host.ReadFrame | framework/rpc/rpc.c:276-365 | one call reads from the port what `Receive` says and delivers its message, or fails as it says |
| Rpc.Host.Dispatch | framework/rpc/rpc.c:367-407 | an SRSP (`cmd0 & 0xE0 == 0x60`) whose lower five bits are `expectedSrspCmdId` goes to the head and is posted once; one whose bits differ leaves queue and semaphore as they are; anything else goes to the tail without a post; the status is 0 |
| Rpc.Host.RpcProcess | framework/rpc/rpc.c:276-423 | a whole call refines `Receive`: line, queue contents, semaphore and status |
| Rpc.Host.WriteFrame | framework/rpc/rpc.c:435-474 | up to 250 octets of payload the frame's encoding is written and nothing else; at 251 nothing is, and beyond that the buffer is overrun; `expectedSrspCmdId` becomes the lower five bits of `cmd0` if its upper three are 1, and else stays |
| Streams.ReceiveWithRetries | framework/rpc/rpc.c:276-365 | a body on the line is taken whole and judged by its check octet alone, whatever the split, unless six reads of this frame fail |
| Streams.FrameShape | framework/rpc/rpc.c:447-473 | what follows SOF in an encoded frame passes the receiver's test |
| Streams.LengthOctetDecides | framework/rpc/rpc.c:292-365 | whatever stands behind SOF and however reads fail: the length octet decides how many octets are taken, they are accepted exactly if they and it XOR to 0, the call fails at the sixth failed read and waits if there are too few octets |
| Streams.ReceiveFrame | framework/rpc/rpc.c:276-407 | the reader accepts every frame the writer builds, whatever the split, and leaves what follows it untouched, unless six reads of its body fail |
| Streams.ReceiveDamaged | framework/rpc/rpc.c:358-365 | a frame damaged behind its length octet is accepted exactly if the differences XOR to 0, and in both cases the reader stands behind it, unless six reads of its body fail |
| Streams.SingleOctetDamage | framework/rpc/rpc.c:358-365 | a frame with exactly one damaged octet behind its length octet is never accepted, whatever reads fail |
| Streams.DamagedLength | framework/rpc/rpc.c:302-365 | a frame with a damaged length octet is accepted if and only if the octets which that announces are on the line and XOR to 0 with it, and at most five reads fail, not the first one of the longest body |
| Streams.DamagedLengthIsAccepted | framework/rpc/rpc.c:302-365 | the frame FE 01 45 01 44 01, received with 00 for 01, is taken for an indication of three octets |
| Streams.ReceiveNoise | framework/rpc/rpc.c:283-285 | an octet other than SOF costs one failed call and only itself |
| Streams.FailedFirstRead | framework/rpc/rpc.c:283-285 | a call whose first read fails takes nothing from the line |
| Streams.StreamIsDelivered | framework/rpc/rpc.c:276-423 | any sequence of frames with SOF-free noise between them, split in any way, with failed reads that cost no frame: apart from calls whose first read fails, one failed call for each octet of noise and one result for each frame, in order, and nothing beyond is consumed |
| Streams.ReliableSpares | framework/rpc/rpc.c:307-341 | without failed reads no call costs a frame and every call counts |
| Streams.IndicationsKeepTheirOrder | framework/rpc/rpc.c:367-405 | the results of any stream put the accepted responses before what was queued, the last first, and each indication behind it once, in the order of the line |
| Streams.StreamReachesTheQueue | framework/rpc/rpc.c:276-423 | both together: any stream of frames and noise in, messages on the queue out |
| MessageQueue.Queue.Open | framework/rpc/queue.c:105-110 | an opened queue is the empty sequence with a free access semaphore and count 0 |
| MessageQueue.Queue.AddToHead | framework/rpc/queue.c:48-69 | the linked nodes become the new message followed by the old contents, from empty as from any length |
| MessageQueue.Queue.AddToTail | framework/rpc/queue.c:71-94 | the linked nodes become the old contents followed by the new message |
| MessageQueue.Queue.Add | framework/rpc/queue.c:213-236 | priority 1 puts the message first, anything else last, and the count is the length again |
| MessageQueue.Queue.TimedReceive | framework/rpc/queue.c:129-182 | takes the first message and leaves the rest, down to the empty queue; times out exactly on an empty one |
| QueueRuns.TokensStep | framework/rpc/queue.c:129-236 | every step of any thread keeps: list length = count + insertions not yet counted + claims not yet served |
| QueueRuns.InvariantOverRuns | framework/rpc/queue.c:129-236 | tokens, two-class order and conservation hold after every run |
| QueueRuns.NoReceiverIsEmptyHanded | framework/rpc/queue.c:145-175 | in every run, timeouts included, no receiver that passed the counting semaphore finds or follows a null head, and delivered plus queued messages are those added |
| QueueRuns.PriorityThenArrivalOrder | framework/rpc/queue.c:147-171 | in every run ordinary messages leave in order of arrival, none while a priority message is queued, and of those the newest goes first |
| QueueRuns.OrderedInsert | framework/rpc/queue.c:218-230 | an insertion keeps the list in two classes and the ordinary messages in arrival order |
| QueueRuns.OrderedRemove | framework/rpc/queue.c:152-171 | a removal does too |
| QueueRuns.MutualExclusion | framework/rpc/queue.c:150-174 | two threads are never both between waiting for and posting the access semaphore |
| QueueRuns.AddAlone | framework/rpc/queue.c:213-236 | an addition nobody disturbs can run to its end and leaves exactly this message at the end its priority says, and one token more |
| QueueRuns.ReceiveAlone | framework/rpc/queue.c:129-182 | a reception nobody disturbs can run to its end and takes exactly the message at the head, and one token |
| QueueRuns.SomeoneCanGoOn | framework/rpc/queue.c:129-236 | in every run, a thread inside a call can take its next step, or the one that holds the access semaphore can: no deadlock |
| Handshake.ConservedStep | framework/rpc/rpc.c:435-513 | every step of threads, reader and device keeps the conservation invariant, timeouts and stray responses included |
| Handshake.ConservationOverRuns | framework/rpc/rpc.c:443-510 | in every run `rpcSem` and the sender inside make 1, `srspSem` is posts minus waits, and after the first request a response arriving while none is pending is dropped |
| Handshake.InsiderIsAlone | framework/rpc/rpc.c:443-510 | whoever is between wait and post of `rpcSem` is alone there |
| Agreement.ReaderStepsAreOneCall | framework/rpc/rpc.c:367-405 | the steps of the reader for a frame do to the queue and the semaphore what one call of the reader does with its message |
| Agreement.ReaderInNumbers | framework/rpc/rpc.c:367-405 | and in numbers: 3 in the upper three bits and the expected subsystem in the others, and the frame is posted once and goes first; another subsystem, and it is dropped; another type, and it goes last |
| Agreement.SendInNumbers | framework/rpc/rpc.c:452-456 | the step before writing sets `expected` to the lower five bits of a synchronous request and changes nothing else |
| Agreement.WaitInNumbers | framework/rpc/rpc.c:479-491 | exactly a synchronous request waits and is to be answered by the device |
| Agreement.ClearInNumbers | framework/rpc/rpc.c:505-506 | after the wait `expected` is 0xFF, which no subsystem equals |
| Agreement.TakeInNumbers | framework/rpc/rpc.c:172-197 | whoever takes a message gets the first on the queue, and only a response of SYS, AF, ZDO or SAPI goes to the response buffer |
| HandshakeSafety.ServedByOther | framework/rpc/rpc.c:367-405 | steps of device and reader keep: in flight is exactly what the waiting thread is owed |
| HandshakeSafety.ServedByThread | framework/rpc/rpc.c:435-513 | steps of any thread keep it |
| HandshakeSafety.ExactlyOneAnswer | framework/rpc/rpc.c:367-510 | over every interleaving without timeouts: while a thread waits exactly one of request at the device, response on the wire, response in the reader, token exists and is for that request; otherwise none; `srspSem` is at most 1 and no response is dropped |
| HandshakeSafety.SomeStepIsEnabled | framework/rpc/rpc.c:443-510 | a state that is not settled has a step to take: no deadlock |
| HandshakeSafety.WorkDecreases | framework/rpc/rpc.c:367-510 | each internal step lowers a measure of the work left |
| HandshakeSafety.EveryRequestEnds | framework/rpc/rpc.c:435-513 | from every reachable state internal steps alone end within that bound, with no thread waiting for a semaphore and nothing on the way; only a take from an empty queue may still wait |
| Pairing.PairedByOther | framework/rpc/rpc.c:376-384 | steps of device and reader keep: the own response is first on the queue or about to be |
| Pairing.PairedByThread | framework/rpc/rpc.c:479-512 | steps of the one application thread keep it |
| Pairing.OwnResponseExactly | framework/mt/Zdo/mtZdo.c:2798-2810 | after a successful send the next message taken is the request's own response, which goes to the response buffer if its first octet is 0x61, 0x64, 0x65 or 0x66, if and only if the reader is not between post and enqueueing; with any indications queued and for requests from callbacks |
| Pairing.AnEmptyQueueIsFilledByTheResponse | framework/rpc/rpc.c:376-384 | if the queue is empty then, the response is what the reader is about to put on it |
| Pairing.OrdinaryRequest | framework/rpc/rpc.c:435-513 | the ordinary course of any synchronous request is such a run: written, answered and woken it is ready to take its response, the only message on the queue |
| Pairing.RaceTakesAnIndication | framework/rpc/rpc.c:376-384 | a run in which the request takes an older indication instead |
| Pairing.TimeoutLeavesAToken | framework/rpc/rpc.c:491-506 | a run in which a timed-out request leaves a token that wakes the next one unanswered |
| Pairing.LateResponseIsTaken | framework/rpc/rpc.c:370-384 | a run in which a late response passes the comparison for the next request, wakes it and is what it takes, while the device still has that request |
| Timeouts.CleanSuffices | framework/rpc/rpc.c:452-506 | with timeouts and any number of threads, a request that finds nothing left over is woken by nothing but its own response, however the run goes on |
| Timeouts.LeftoverSteals | framework/rpc/rpc.c:367-384 | if anything is left over, device and reader alone bring it to the waiting request before its own response |
| Timeouts.OwnWakeExactly | framework/rpc/rpc.c:367-506 | after any run a synchronous request is always woken by its own response if and only if, when it sets `expectedSrspCmdId`, there is no token, no response about to be posted, and no request or response of that subsystem on its way |
| Timeouts.OwnResponseAfterTimeouts | framework/rpc/rpc.c:367-512 | with one application thread, under that condition, the message a woken request takes is its own response, unless the reader is between post and enqueueing, and then what it is about to enqueue is |
| Bytes.WordRoundTrip | framework/mt/mtParser.h:52-53 | the macro undoes the split of a word into low and high octet |
| Bytes.WordBits | framework/mt/mtParser.h:52-53 | the first of two octets holds bits 0 to 7 of the word, the second bits 8 to 15 |
| LqiCodec.LittleEndianAppend | framework/mt/Zdo/mtZdo.c:2207-2209 | shifting one more octet into place and joining it extends the little-endian number by that octet |
| LqiCodec.WideRoundTrip | framework/mt/Zdo/mtZdo.c:2205-2213 | eight octets joined that way give back the 64-bit address they came from |
| LqiCodec.WideInBits | framework/mt/Zdo/mtZdo.c:2205-2209 | octet i of eight holds bits 8 i to 8 i + 7 of the number |
| LqiCodec.NeighbourRoundTrip | framework/mt/Zdo/mtZdo.c:2205-2221 | an entry's 22 octets give back every field |
| LqiCodec.ListRoundTrip | framework/mt/Zdo/mtZdo.c:2201-2223 | entries one after the other, up to eleven, are all found where the cursor goes |
| LqiCodec.ResponseRoundTrip | framework/mt/Zdo/mtZdo.c:2193-2224 | the parser's result on any buffer that holds an encoded response is that response |
| LqiCodec.HeaderPositions | framework/mt/Zdo/mtZdo.c:2193-2198 | source address, status, table entries, start index and list count are octets 2 to 7 of the message |
| LqiCodec.EntryPositions | framework/mt/Zdo/mtZdo.c:2202-2223 | entry k starts at octet 8 + 22 k, with the two long addresses, the short one, flags, joining, depth and link quality at offsets 0, 8, 16, 18, 19, 20 and 21 |
| LqiCodec.ParseWide | framework/mt/Zdo/mtZdo.c:2205-2209 | the shift-and-join loop computes the little-endian number under an eight-bit cursor |
| LqiCodec.ParseNeighbour | framework/mt/Zdo/mtZdo.c:2205-2221 | one turn reads the 22 octets from the cursor on, wrapping where the cursor does |
| LqiCodec.ProcessMgmtLqiRsp | framework/mt/Zdo/mtZdo.c:2180-2228 | on every message the parser's loops compute `ResponseOf`, except that a count above 66 overruns the structure and a message of six octets or fewer leaves a counted list unset |
| EndToEnd.Parser.MtProcess | framework/mt/mtParser.c:83-116 | a message that starts with 0x61, 0x64, 0x65 or 0x66 goes to the response buffer, all of it; one that starts with 0x45, or another type of that subsystem but the response, and 0xB1 goes to the callback, parsed; nothing else does, and nothing else changes the buffer |
| EndToEnd.LqiMessageRoundTrip | framework/mt/Zdo/mtZdo.c:2180-2228 | the message of a table's frame parses back to the table whatever the buffer held before |
| EndToEnd.ReadAndTake | framework/rpc/rpc.c:172-197 | one frame from the line, one message from the queue, whatever was queued: the message taken and what is left are together the old queue with the frame's message at its place |
| EndToEnd.ReadStream | framework/rpc/rpc.c:276-423 | the reader run over a stream leaves accepted responses before and indications behind what was queued |
| EndToEnd.ReadCalls | framework/rpc/rpc.c:276-423 | the reader run call by call leaves line, queue and semaphore as the outcomes of `Receive` in a row say |
| EndToEnd.TakeAll | framework/rpc/rpc.c:172-197 | the queue is worked off in order, each message dispatched from its buffer |
| EndToEnd.DeliverLqi | framework/mt/Zdo/mtZdo.c:2831-2926 | frames of any kind, some of them tables of up to eleven entries, with noise between them, split in any way, with failed reads that cost no frame and with anything queued before: the callback gets exactly the tables sent, in order and with every field, behind what was queued |
| EndToEnd.GotJoins | framework/mt/Zdo/mtZdo.c:2923-2926 | the callback gets what is handled in order, each table once |
| EndToEnd.DeliverResponse | framework/mt/Zdo/mtZdo.c:3012-3016 | a response of SYS, AF, ZDO or SAPI overtakes all that is queued and its status is what the request reads at index 2 of the response buffer |
| Requests.RegisterRoundTrip | framework/mt/Af/mtAf.c:69-102 | the octets of a registration determine all its fields, both cluster lists included |
| Requests.MatchDescRoundTrip | framework/mt/Zdo/mtZdo.c:360-392 | the same for a search for matching endpoints |
| Requests.EndDeviceBindRoundTrip | framework/mt/Zdo/mtZdo.c:640-675 | the same for an end device binding |
| Requests.BindRoundTrip | framework/mt/Zdo/mtZdo.c:702-728 | the same for a binding, in both address modes: everything that is sent comes back |
| Requests.SourceRoutedRoundTrip | framework/mt/Af/mtAf.c:214-248 | the same for data along a route, relay list and data included |
| Requests.ExtendedRoundTrip | framework/mt/Af/mtAf.c:165-197 | the same for data to an extended address |
| Requests.RegisterOctets | framework/mt/Af/mtAf.c:81-97 | where each field of a registration stands, low octets first, and each cluster list behind its count |
| Requests.MatchDescOctets | framework/mt/Zdo/mtZdo.c:360-392 | the same for a search for matching endpoints |
| Requests.EndDeviceBindOctets | framework/mt/Zdo/mtZdo.c:640-675 | the same for an end device binding |
| Requests.BindOctets | framework/mt/Zdo/mtZdo.c:702-728 | the same for a binding: 23 octets in address mode 3, with extended target address and endpoint, and 16 in any other |
| Requests.SourceRoutedOctets | framework/mt/Af/mtAf.c:214-248 | the same for data along a route |
| Requests.ExtendedOctets | framework/mt/Af/mtAf.c:165-197 | the same for data to an extended address |
| Requests.AfRegister | framework/mt/Af/mtAf.c:69-102 | the cursor loops fill the allocated buffer exactly, with these octets |
| Requests.ZdoMatchDescReq | framework/mt/Zdo/mtZdo.c:360-392 | likewise |
| Requests.ZdoEndDeviceBindReq | framework/mt/Zdo/mtZdo.c:640-675 | likewise |
| Requests.ZdoBindReq | framework/mt/Zdo/mtZdo.c:702-728 | likewise; address mode 3 sends eight octets and an endpoint, any other two octets |
| Requests.AfDataRequestSrcRtg | framework/mt/Af/mtAf.c:214-248 | likewise |
| Requests.AfDataRequestExt | framework/mt/Af/mtAf.c:165-197 | likewise |
| Topology.DiscoveryIsExact | examples/nwkTopology/nwkTopology.c:245-288 | once every table received has been looked at, each row is a device reachable through answering routers, once, with its children in table order; they are all such devices if and only if no response that would add one is still to come |
| Topology.FlagBits | examples/nwkTopology/nwkTopology.c:263-265 | bits 0 and 1 of the flags are the device type, bits 4 to 6 the relation, and the other bits do not matter |
| Topology.ChildrenByPosition | examples/nwkTopology/nwkTopology.c:261-272 | the children of a table are exactly its entries with relation 1, routers and end devices, in table order, each with its address and type |
| Topology.ChainIsRequested | examples/nwkTopology/nwkTopology.c:273-278 | by then every device on a chain of child routers from the coordinator has been asked |
| Topology.RowOpened | examples/nwkTopology/nwkTopology.c:252-259 | a response that reports success finds a free row and is recorded once |
| Topology.LinkIsNew | examples/nwkTopology/nwkTopology.c:273-278 | a child router that comes up has never been asked and has no row |
| Topology.LinkAsked | examples/nwkTopology/nwkTopology.c:266-279 | recording a child router and asking it keeps recorded, outstanding and unreached apart |
| Topology.EntryPassed | examples/nwkTopology/nwkTopology.c:261-280 | so does passing any other entry |
| Topology.FailureStruckOff | examples/nwkTopology/nwkTopology.c:282-285 | so does a response that reports a failure |
| Topology.Discovery.MgmtLqiReq | framework/mt/Zdo/mtZdo.c:853-884 | a request, and any callbacks entered while it waits, add only complete rows and touch no other; the address has been asked then |
| Topology.Discovery.MgmtLqiRspCb | examples/nwkTopology/nwkTopology.c:245-288 | the callback keeps the invariant and terminates; with status 0 the row it opens ends up with the address, type 0 for address 0 and else 1, and all children of the table, whatever is nested in it; with any other status nothing changes |
| Topology.Discovery.StoreEntry | examples/nwkTopology/nwkTopology.c:263-273 | an entry with relation 1 is appended to the row with its address and type, any other leaves the row alone, and no other row changes; it is to be asked exactly if its type is 1 as well |
| Topology.Discovery.LookAtEntry | examples/nwkTopology/nwkTopology.c:261-280 | one turn of its loop records the entry in its own row, although nested callbacks change `nodeCount`; an entry with relation 1 and type 1 has been asked then, and for any other nothing is asked |
| Topology.Discovery.Discover | examples/nwkTopology/nwkTopology.c:586-598 | for any order and nesting of responses, whenever the wait times out, and with failure reports left over from earlier discoveries, the node list holds no wrong row, and it is complete if and only if no response that would add a row is outstanding then |
| LateResponses.LeftoverIsRecordedTwice | examples/nwkTopology/nwkTopology.c:245-288 | any single response left over that reports success lets some order of the responses record its device twice |
| LateResponses.TwoDevicesThreeRows | examples/nwkTopology/nwkTopology.c:586-598 | with a coordinator and one router, whose response is left over, the list ends with three rows |
| LateResponses.PairIsTree | examples/nwkTopology/nwkTopology.c:61-62 | that network meets every condition of a discovery |
| LineEditor.WalkRoundTrip | framework/platform/gnu/hostConsole.c:208-245 | as many keys down as up bring back the typed line, cursor at its end, with the history unchanged |
| LineEditor.WalkUp | framework/platform/gnu/hostConsole.c:208-226 | each key up shows the row before, and writing back changes nothing |
| LineEditor.CursorCanBeLost | framework/platform/gnu/hostConsole.c:227-245 | with "a" typed and "x" recalled, one key left and one down leave a text after the cursor that is not in the line |
| LineEditor.SafeWithoutDown | framework/platform/gnu/hostConsole.c:160-294 | any mix of insertions, also of the letter B, backspaces, left, right and up keys meets the condition of `GetLine` |
| LineEditor.SafeWithoutLeft | framework/platform/gnu/hostConsole.c:160-294 | so does any mix of all keys but left, also with the letter D as text, and the cursor stays at the end |
| LineEditor.SessionStaysPlain | framework/platform/gnu/hostConsole.c:139-303 | without NUL among the keys no line gets one, so NUL always marks its end |
| LineEditor.HistoryOfLines | framework/platform/gnu/hostConsole.c:146-156 | until 256 lines are stored, the history is the lines added without those that repeat the one before |
| LineEditor.PressByKey | framework/platform/gnu/hostConsole.c:160-294 | what each key but up and down does to the text before and after the cursor: 127 removes the character before it, 27 begins an arrow key, the letters C and D of one move it by one within the line, and any other key outside of one inserts itself |
| LineEditor.PressUp | framework/platform/gnu/hostConsole.c:208-226 | the letter A keeps the line, as the one typed or in its row, and shows the row before, if there is one |
| LineEditor.PressDown | framework/platform/gnu/hostConsole.c:227-245 | the letter B keeps the line in its row and shows the row after or the line typed |
| LineEditor.TypedAndErased | framework/platform/gnu/hostConsole.c:162-175 | a character and backspace change nothing, wherever the cursor is |
| LineEditor.LeftAndRight | framework/platform/gnu/hostConsole.c:246-263 | a step to one side and one back change nothing |
| LineEditor.TextIsInserted | framework/platform/gnu/hostConsole.c:271-289 | text that fits into the buffer is inserted as it is at the cursor, and then the other keys have their effect |
| LineEditor.TextIsTheLine | framework/platform/gnu/hostConsole.c:139-303 | keys that are text, fewer than the buffer holds, and newline give a finished line that is exactly the text |
| LineEditor.ErasedInSession | framework/platform/gnu/hostConsole.c:139-303 | a character and backspace anywhere in a session make no difference to what follows, if the buffer has room for two more |
| LineEditor.NewlineFinishes | framework/platform/gnu/hostConsole.c:140-159 | newline ends the line wherever it comes |
| LineEditor.Console.ScratchMirrorsLine | framework/platform/gnu/hostConsole.c:255-263 | the scratch buffer is the line read backwards from its end, up to the cursor |
| LineEditor.Console.Backspace | framework/platform/gnu/hostConsole.c:162-175 | the shifting loop removes from the line buffer the character before the cursor, and does nothing at the start of the line |
| LineEditor.Console.Insert | framework/platform/gnu/hostConsole.c:271-289 | the shifting loop puts the character between what is before and what is after the cursor in the line buffer, inside the line as at its end |
| LineEditor.Console.HistoryUp | framework/platform/gnu/hostConsole.c:208-226 | the line is saved as the one typed or written to its row, and the buffer gets the row before; without one nothing changes |
| LineEditor.Console.HistoryDown | framework/platform/gnu/hostConsole.c:227-245 | the line is written to its row and the buffer gets the row after or the line typed; the buffers still describe an editor if and only if the line that comes back ends with the text after the cursor, and then it is that editor |
| LineEditor.Console.CursorLeft | framework/platform/gnu/hostConsole.c:255-263 | the cursor moves by one unless it is at the start, the line stays, and the character goes to the scratch buffer |
| LineEditor.Console.CursorRight | framework/platform/gnu/hostConsole.c:246-254 | the cursor moves by one unless it is at the end, and the line stays |
| LineEditor.Console.Key | framework/platform/gnu/hostConsole.c:160-294 | any key has the effect of `Press` on the text before and after the cursor, except for a step down after which the buffers describe no editor at all, and which step that is; ordinary keys and backspace are stated on the line buffer as well |
| LineEditor.Console.StoreLine | framework/platform/gnu/hostConsole.c:143-157 | a line goes to the history unless it repeats the last one, every other row stays, and the index goes from 255 back to 0 |
| LineEditor.Console.ReadKeys | framework/platform/gnu/hostConsole.c:137-301 | the loop ends at the first newline or the first key on a full buffer, and leaves the line of the keys before |
| LineEditor.Console.GetLine | framework/platform/gnu/hostConsole.c:132-303 | for any safe key sequence the buffer ends up with the line of the abstract editor, shorter than the buffer, without NUL and ended by NUL, and the history with that line added once it is finished; text and newline give exactly the text |
| Completion.LcpIsUnique | examples/cmdLine/cmdLine.c:3139-3190 | there is only one longest common prefix, so the results below determine the line |
| Completion.MatchesInOrder | examples/cmdLine/cmdLine.c:3148-3171 | the matches are exactly the commands that begin with the line, each once and in table order |
| Completion.NextLetter | examples/cmdLine/cmdLine.c:3173-3179 | with several matches and no exact one there is a letter to add, and the first match stays first: the recursion ends |
| Completion.LcpWhenMatchesAreLost | examples/cmdLine/cmdLine.c:3185-3187 | if adding the letter loses matches, the line without it was the longest common prefix |
| Completion.ExactAfterLetter | examples/cmdLine/cmdLine.c:3157-3163 | what the line is when the added letter makes it a command |
| Completion.Completer.Scan | examples/cmdLine/cmdLine.c:3148-3171 | the table scan finds exactly the commands with the prefix, or the exact match alone |
| Completion.Completer.GetMatched | examples/cmdLine/cmdLine.c:3139-3190 | started with length 0 it reports the exact match, or all matches; an ambiguous line becomes their longest common prefix if and only if that is a command or one letter more is none, and else has that letter too many; it terminates |
| Completion.LongestCommonPrefixExactly | examples/cmdLine/cmdLine.c:3173-3187 | the completed line is a longest common prefix of the matches if and only if the one there is, is a command or is not followed by a letter that makes one |
| Completion.CompletesAllExactly | examples/cmdLine/cmdLine.c:3139-3190 | every typed line is completed to the longest common prefix of its matches if and only if the table has no trap: a command one letter longer than a prefix that is none, at which the matches divide and the first of them goes on with that letter |
| Completion.WrongLetterIsTrap | examples/cmdLine/cmdLine.c:3157-3187 | a line completed with a letter too many shows such a command in the table |
| Completion.TrapCatches | examples/cmdLine/cmdLine.c:3157-3187 | the prefix of such a command, typed, is completed wrong |
| Completion.OneLetterTooMany | examples/cmdLine/cmdLine.c:3157-3187 | with the commands "abc" and "abd" the line "a" becomes "abc" |
| StressTest.TurnIsAccounted | examples/stressTest/stressTest.c:670-709 | a turn and the pause behind it keep a row's passes and errors in step with the echoes lost since its node joined, over wraps and resets |
| StressTest.AccountingIsExact | examples/stressTest/stressTest.c:664-714 | a node that has its first turn in round r0 has after n rounds as errors exactly the echoes lost in rounds r0 to n - 2, and passes plus errors are n - r0, whenever before its next turn the other echoes arrive and whenever other devices join |
| StressTest.JoinStarts | examples/stressTest/stressTest.c:268-279 | a device that announces itself in a pause has the first free row from then on, and that row has its first turn in use as its next one, so the accounting applies to it |
| StressTest.AnnouncedRow | examples/stressTest/stressTest.c:268-279 | an announcement gives the first free row the address and both numbers 0, leaves its counts, and changes no other row |
| StressTest.EchoedRow | examples/stressTest/stressTest.c:312-323 | a number goes to the first row of its sender and changes nothing else |
| StressTest.TurnedRow | examples/stressTest/stressTest.c:670-696 | a turn counts a pass and sends the next number if the numbers are equal, counts an error and sends 1 if not, and passes a free row by |
| StressTest.AnnouncementKeepsDistinct | examples/stressTest/stressTest.c:262-281 | a node keeps a single row if and only if it had none yet or none is free |
| StressTest.RejoinedNodeIsMiscounted | examples/stressTest/stressTest.c:262-281 | from the moment a node has a second row, that row counts n - 1 errors in n rounds, whatever comes back |
| StressTest.RejoinedExactly | examples/stressTest/stressTest.c:312-323 | that count is the number of echoes lost if and only if none of these echoes came back |
| StressTest.FirstRowIsMiscounted | examples/stressTest/stressTest.c:312-323 | the echo of the second row hides that the echo of the first is lost |
| StressTest.AlwaysExactExactly | examples/stressTest/stressTest.c:664-714 | each row in use counts exactly the echoes lost, under every schedule of echoes and for every number of rounds, if and only if no node has two rows |
| StressTest.LateEchoExactly | examples/stressTest/stressTest.c:312-323 | an echo of an older number changes the next judgement if and only if the last number is back and differs from it, or is not back and equals it |
| StressTest.LateEchoHidesALoss | examples/stressTest/stressTest.c:677-696 | after an error the numbers repeat, so that a late echo can pass for one that is lost |
| StressTest.StressTest.EndDeviceAnnce | examples/stressTest/stressTest.c:262-281 | the first row with address 0 gets the announced address and both numbers 0 and keeps its counts, every other row stays, and without such a row all do |
| StressTest.HeardRow | examples/stressTest/stressTest.c:312-323 | with one row a node, a row's received number becomes its sent one exactly if its echo is among what happens in the pause, in any order with joins and other echoes |
| StressTest.StressTest.IncomingMsg | examples/stressTest/stressTest.c:301-339 | with cluster 6 and a single octet the coordinator stores it in the first row of the sender and nowhere else, and a test node sends it back and stores nothing; any other message does nothing |
| StressTest.StressTest.Turn | examples/stressTest/stressTest.c:670-696 | one turn judges the row of that node and touches no other |
| StressTest.StressTest.Run | examples/stressTest/stressTest.c:664-714 | n rounds, with echoes and joins in each pause, compute `After` |

## Left out

- LineEditor.Console.GetLine: only key sequences in which every step down keeps the cursor's place (`SafeWithoutDown` and `SafeWithoutLeft` name two large families); what a step does otherwise is stated by `Key`, and after it the C code may index before its buffers. NUL among the keys is excluded.
- EndToEnd.Parser.MtProcess: of all indications only the neighbour table is parsed; the special handling of single ZDO responses that only prints or has a callback of its own is not modelled.
- StressTest.AccountingIsExact: an echo that comes after the node's next turn counts as lost and is not heard; what it would change is `LateEchoExactly`.
- Agreement.ReaderStepsAreOneCall: of a message the step system shows the first octet and not the others.
- StressTest.StressTest.Run: echoes and joins are handled between turns, not in the middle of one.
- Transport.Port.Write: the result of `write`, partial writes and the flush of the output queue after each chunk are not modelled.
- MessageQueue.Queue.TimedReceive: the node is dropped, not freed, and the message is returned, not copied into a buffer of given size.
- EndToEnd.TakeAll: callbacks that send requests and take messages themselves, as the discovery callback does; they are in `Topology`, where messages are not octets.
- Pairing.OwnResponseExactly: one application thread; with several, any of them may take a response that is on the queue.
- LateResponses.LeftoverIsRecordedTwice: the order it gives has no nested callbacks, and what happens beyond the 64 rows is not followed.
- Rows and messages are values: a row of the node list holds its children as a sequence in place of an array with a count.
- Opening the device, terminal settings, sleeping, printing, wall-clock time, and failing allocation.
- The build for IP transport.
- Neighbour tables in several pages; the code asks for start index 0 only.
- The codecs without lists, and the parsers of the other ZDO, AF, SAPI and SYS messages; they would only add easy members.
- Codecs whose length or loop variable does not fit their own format: `processMgmtBindRsp`, `zdoUnbindReq`, `sysRamWrite`, `zbWriteConfiguration`, `afInterPanCtl`.
- The copy of the discovery callback in the dataSendRcv example, which indexes by the global count.
- Echoing and cursor movement on the terminal.
