# Models of the Yate telephony engine and the YateBTS transceiver module

Dafny models of four parts of the repository, with proofs about them:

- **Calls** (`bts/yate/engine/Channel.cpp`). `CallEndpoint.dfy` is the pairing of endpoints and the references it
  holds; `DisconnectRace.dfy` runs any number of `disconnect` calls on it, step by step. `ChannelTimers.dfy` and
  `Dtmf.dfy` say what the operations of a channel make of its call state and of its DTMF memory, `ChannelDeadlines.dfy`
  when its timers fire, and `Channel.dfy` is the class whose methods do just that. `Driver.dfy` is the list of channels and the scans over it, `Router.dfy` a
  routing thread, `DriverThreads.dfy` the interleavings of timer, drop and routing threads, and `Relays.dfy` the
  message relays of a module.
- **Base64** (`bts/yate/engine/Base64.cpp`). `Base64Tables.dfy` and `Base64Text.dfy` define the text format of
  RFC 4648 with the line ends of RFC 2045; `Base64Laws.dfy` proves its laws and
  `Base64Standard.dfy` relates it to the standard's own table; `Base64.dfy` and `Base64Decode.dfy` are
  the encoder and the decoders, loops over a preallocated buffer, proved to produce and accept exactly that format.
- **Vectors** (`bts/yate/yatemath.h`). `SliceVector.dfy` has the vectors, which are windows on shared
  reference-counted storage, `SliceVectorLaws.dfy` slices of slices, head and tail, and runs of operations, and
  `SliceVectorFailures.dfy` concrete inputs for what can go wrong.
- **Transceiver** (`bts/yatebts/gsmtrx.cpp`). `GsmTrx.dfy` has the regions under the state mutex as methods of the
  module, and the control, timer, init and halt threads as instruction lists that any sequence of events interleaves;
  `GsmTrxCommands.dfy` has what each of them achieves undisturbed.

## How to read the models

- `Options.dfy` and `Chunks.dfy` hold what several models share: optional values, and work on a text group by group.
- What the code does with numbers of 32 bits is written out where it matters: the availability test of a slice wraps
  around, the DTMF counter counts modulo 2^32, the relay mask is a 32-bit vector. Times are unbounded.
- Clocks, sockets, the radio, message dispatch and lock timeouts are parameters of methods or choices of an event; one
  operation reads the clock once. Where a parameter says whether a lock was had, the proofs hold for both answers.
- The ghost sets `U` and `S` of `CallEndpoint.dfy` and `SliceVector.dfy` are all the objects of a run. The
  preconditions `Paired(U)` and `Linked(U, S)` are invariants: every operation keeps them, and `Run` starts with nothing.
- The state machines take one step per use of a mutex or unguarded access to shared state. In `GsmTrx.dfy` a region
  under the mutex is one step, since what other threads read without the mutex is a single variable that a region
  changes at most once.
- Virtual methods behave as in the base classes.

Where the code does something its own documentation or its callers might not expect, the model follows the code:

- The encoder fills the buffer with padding and never moves past it. When a line end is due between the two pads, it
  is lost and its two places hold two more pads (`Base64Laws.LostLineEnd`; `Base64Laws.LostForOneByte` has one byte and
  lines of three). The decoders refuse empty input.
- A slice of length 0 asks for the length of the whole vector, not for the rest from the offset. A slice whose offset
  and length wrap around is granted outside the storage (`SliceVectorFailures.WrappingSlice`).
- Stealing into a vector that has storage leaves a reference too many (`SliceVector.Steal`: exactly then;
  `SliceVectorFailures.StealOver`). In-place arithmetic with a vector that starts before this one in the same storage
  and reaches into it reads its own results (`SliceVector.Combine` says exactly when that shows;
  `SliceVectorFailures.SumFedBack` is a sum for which it does).
- A masqueraded answer does not set the answered flag, and dropping a call with the reason "answered" does
  (`ChannelTimers.AnswersExactly`).
- Uninstalling a relay by identifier reports failure even when it succeeds, and installing one that shares some bit
  with an installed one reports success though nothing is installed.
- `connect` without the common mutex leaves the matching intact exactly when there was nothing to take apart where the
  mutex could not be had.
- A router whose channel has vanished never drops the routing reference; a call that is refused after it was routed
  still counts as routed.
- A start of the control thread is tried again only while the planned time has not passed: timer messages start it
  exactly when one of them is not late (`GsmTrx.StartedIffTimely`), and once all are late none ever does, whatever other
  threads do (`GsmTrx.MissedForever`; `GsmTrx.CanBeMissed` shows that it happens).

## Model

| member | source | states |
|---|---|---|
| Base64Tables.TablesInverse | bts/yate/engine/Base64.cpp:32-61 | the alphabet and the translation table are inverse to each other, no byte outside the alphabet is valid, and no alphabet character is ignored |
| Base64Tables.ValidLiberal | bts/yate/engine/Base64.cpp:63-72 | the skipped characters are exactly pad, CR, LF, tab and space; one is rejected exactly when it is neither in the alphabet nor skipped |
| Base64Standard.AlphabetIsTable1 | bts/yate/engine/Base64.cpp:32-35 | the alphabet is, character by character, Table 1 of RFC 4648, written out |
| Base64Standard.GroupsOfTable1 | bts/yate/engine/Base64.cpp:165-187 | for all data each group of four characters is the one section 4 of RFC 4648 gives in terms of Table 1, pads included |
| Base64Standard.FinalLineEnd | bts/yate/engine/Base64.cpp:188-190 | a final line end is the bytes 13 and 10 |
| Base64Standard.SkippedAnywhere | bts/yate/engine/Base64.cpp:63-72 | inserting byte 61, 13, 10, 9 or 32 anywhere in a text changes neither whether the liberal decoder accepts it nor the bytes |
| Base64Standard.RefusedAnywhere | bts/yate/engine/Base64.cpp:200-211 | any other byte outside Table 1 makes it refuse the text |
| Base64Text.PackKeepsBits | bts/yate/engine/Base64.cpp:165-187 | the four 6-bit groups written for up to three bytes are, side by side, the 24-bit input group of RFC 4648 section 4, missing bytes read as zero |
| Base64Text.BytesOfSextets | bts/yate/engine/Base64.cpp:102-187 | decoding the 6-bit groups of any bytes gives the bytes back, and their leftover bits are zero |
| Base64Text.SextetsOfBytes | bts/yate/engine/Base64.cpp:102-187 | a decodable number of 6-bit groups with zero leftover bits is exactly what its bytes encode to (RFC 4648 section 3.5) |
| Base64.AddEoln | bts/yate/engine/Base64.cpp:74-86 | writes CR LF exactly at the end of a full line while line ends are left, and changes nothing else |
| Base64.AddEnc | bts/yate/engine/Base64.cpp:88-98 | after every character the buffer holds the correctly broken text of the characters so far and padding after it; the write is inside the buffer |
| Base64.EncodeInto | bts/yate/engine/Base64.cpp:165-187 | the loop and the rest fill the buffer with exactly the encoded body, for every input and line length |
| Base64.CountLines | bts/yate/engine/Base64.cpp:153-158 | the quotient, less one for an exact multiple, is (length - 1) / line length line ends, and none for a line length of zero |
| Base64.Encode | bts/yate/engine/Base64.cpp:136-191 | the result is the text the format prescribes: nothing for empty data, else the broken body and the final line end if asked for; on one line, group by group the characters of Table 1 |
| Base64.RestIsPadding | bts/yate/engine/Base64.cpp:159-187 | once the alphabet characters are written, the prefilled rest completes the encoded body, whether or not a line end was due inside the padding |
| Base64Laws.EncodedLength | bts/yate/engine/Base64.cpp:151-159 | the body is the unbroken text plus two characters for each line but the last, for every line length |
| Base64Laws.EncodedLines | bts/yate/engine/Base64.cpp:74-98 | unless a line end is due inside the padding, all lines but the last have exactly the line length and together spell the unbroken text |
| Base64Laws.LostLineEnd | bts/yate/engine/Base64.cpp:176-187 | if one is due there, the lines spell the unbroken text and two more pads |
| Base64Laws.LostForOneByte | bts/yate/engine/Base64.cpp:153-187 | a failing input: every single byte in lines of three characters gives two characters and four pads, without a line end |
| Base64Laws.EvenNeverPadBroken | bts/yate/engine/Base64.cpp:153-187 | which no even line length, such as the 76 of RFC 2045 section 6.8, can bring about |
| Base64Laws.RoundTrip | bts/yate/engine/Base64.cpp:136-288 | for every non-empty byte string, line length and end-of-line choice, the liberal decoder accepts the encoding and returns the bytes |
| Base64Laws.StrictRoundTrip | bts/yate/engine/Base64.cpp:136-288 | the strict decoder accepts the encoding, and then returns the bytes, exactly when no final line end is asked for and the text fits on a line, or would but for the second of two pads: a condition on the lengths alone |
| Base64Laws.AcceptedIsCanonical | bts/yate/engine/Base64.cpp:194-288 | re-encoding what the liberal decoder returns gives exactly the alphabet characters of the text plus canonical padding |
| Base64Laws.AcceptedIffSpelled | bts/yate/engine/Base64.cpp:194-288 | the liberal decoder accepts a text exactly when its alphabet characters are those of the encoding of some non-empty byte string and all others are ignorable |
| Base64Laws.StrictImpliesLiberal | bts/yate/engine/Base64.cpp:194-288 | everything the strict decoder accepts, the liberal one accepts with the same bytes |
| Base64Laws.StrictIffSpelled | bts/yate/engine/Base64.cpp:212-266 | the strict decoder accepts exactly the alphabet characters of the encoding of some non-empty byte string, followed by any number of pads |
| Base64Decode.AddDec | bts/yate/engine/Base64.cpp:100-134 | stores the bytes of two to four groups if there is room, reports leftover bits and impossible counts, and touches nothing else |
| Base64Decode.AddQuad | bts/yate/engine/Base64.cpp:249-282 | a group of four always finds room in the precomputed destination |
| Base64Decode.AddLast | bts/yate/engine/Base64.cpp:284-287 | the last short group fills the destination exactly, and succeeds exactly when the leftover bits are zero |
| Base64Decode.StrictFill | bts/yate/engine/Base64.cpp:234-266 | the strict loop stops at the first group with an invalid character, leaving the bytes of the groups before it, else decodes all |
| Base64Decode.LiberalFill | bts/yate/engine/Base64.cpp:267-284 | the liberal loop decodes exactly the alphabet characters, skipping the others |
| Base64Decode.Decode | bts/yate/engine/Base64.cpp:193-288 | success exactly on the texts the laws speak of, with their bytes; what is left in the destination on every kind of failure |
| CallEndpoints.CallEndpoint.Ref | bts/yate/yateclass.h:979-983 | takes a reference unless the counter is zero, keeping the matching and the counts |
| CallEndpoints.CallEndpoint.Deref | bts/yate/yateclass.h:985-993 | drops one; an endpoint destroyed by it has no peer and nobody points at it |
| CallEndpoints.CallEndpoint.SetLastPeerId | bts/yate/engine/Channel.cpp:264-281 | caches pointer and id of the current peer, unless it is cached already or the lock fails |
| CallEndpoints.CallEndpoint.SetPeer | bts/yate/engine/Channel.cpp:204-218 | sets the peer and refreshes or clears the cache |
| CallEndpoints.CallEndpoint.Disconnect | bts/yate/engine/Channel.cpp:167-202 | takes exactly this pair apart, dropping one reference of each end, or changes nothing if there is no peer or no lock; matching, counts and cache stay right |
| CallEndpoints.CallEndpoint.Connect | bts/yate/engine/Channel.cpp:119-165 | result and peers of all endpoints in every case (no peer given, same peer, itself, either one dead); outside references unchanged; the matching survives exactly when every pairing to be taken apart could be locked |
| CallEndpoints.CallEndpoint.GetPeerId | bts/yate/engine/Channel.cpp:220-244 | while cached ids are current, the fast path returns the id of the peer; only an empty id makes its result differ |
| CallEndpoints.Run | bts/yate/engine/Channel.cpp:119-281 | after any single-threaded sequence of operations on any endpoints, peering is a symmetric irreflexive matching, counters are outside references plus one if paired, caches point at the current peer, and hold its id unless an id was changed; `CallEndpoints.Step` says what each operation did |
| CallEndpoints.DeadIsAlone | bts/yate/engine/Channel.cpp:119-218 | in such a run a dead endpoint has no peer, is nobody's peer and is cached by nobody |
| DisconnectRace.NextInv | bts/yate/engine/Channel.cpp:167-218 | every step of every thread keeps the invariant of the race |
| DisconnectRace.HolderFindsIntact | bts/yate/engine/Channel.cpp:173-184 | who has the mutex and finds a peer finds a pair no other call has touched |
| DisconnectRace.AtMostOncePerPair | bts/yate/engine/Channel.cpp:167-202 | under every interleaving at most one call takes a pair apart, both ends of it; each end's reference is dropped at most once; counters are always the references held; an end at zero is nobody's peer |
| DisconnectRace.ExactlyOnceWhenQuiet | bts/yate/engine/Channel.cpp:167-202 | when all calls have returned the mutex is free and each pair is as it was, or gone with exactly one reference of each end dropped |
| DisconnectRace.ReturnedDisconnected | bts/yate/engine/Channel.cpp:167-202 | under every interleaving, a call whose own attempt at the mutex does not fail has, when it returns, left its end without a peer and the pair taken apart exactly once |
| DisconnectRace.AllDisconnectedWhenQuiet | bts/yate/engine/Channel.cpp:167-202 | and when all calls have returned exactly one reference of that end was dropped if it had a peer |
| DisconnectRace.TrueWhenDestroyed | bts/yate/engine/Channel.cpp:200-201 | a call returns true exactly when its own drop took the last reference of its end |
| DisconnectRace.StepProgress | bts/yate/engine/Channel.cpp:167-202 | every step of a call that does not wait brings it closer to returning |
| DisconnectRace.NeverStuck | bts/yate/engine/Channel.cpp:173-199 | as long as some call has not returned, one can make a step |
| DisconnectRace.NeverDeadInside | bts/yate/engine/Channel.cpp:194-201 | no call finds its own end dead, so each that parts a pair drops both references |
| ChannelTimers.ExecInv | bts/yate/engine/Channel.cpp:582-637 | in every run an answered call has neither maxcall nor post-dial timer, and the answered flag is never cleared |
| ChannelTimers.AnsweredForGood | bts/yate/engine/Channel.cpp:862-870 | so a timer check drops an answered call for "timeout" only |
| ChannelTimers.AnswersExactly | bts/yate/engine/Channel.cpp:737-796 | which events set the answered flag: answering, accepting with automatic answer, dropping with the reason "answered"; not a masqueraded answer |
| ChannelTimers.QuietStep | bts/yate/engine/Channel.cpp:601-637 | exactly which events set a timer of a call without timers |
| ChannelTimers.SilentAfterTimerDrop | bts/yate/engine/Channel.cpp:751-757 | in every run, after a timer has dropped the call none fires again until an event sets one |
| ChannelDeadlines.NoanswerExactly | bts/yate/engine/Channel.cpp:617-624 | over every run: once a message has given an unanswered call T milliseconds, and until an event sets or clears that, a check at t reports "noanswer" exactly when t is more than 1000 T after the message and the timeout is not due |
| ChannelDeadlines.PostdialdelayExactly | bts/yate/engine/Channel.cpp:627-638 | likewise for "postdialdelay", which comes after both other timers |
| ChannelDeadlines.TimeoutExactly | bts/yate/engine/Channel.cpp:604-615 | likewise for "timeout", which comes first, set by a message, by a default or by being answered |
| ChannelDeadlines.TimeoutFromAnswer | bts/yate/engine/Channel.cpp:586-593 | a timeout of T milliseconds given before the answer starts again with it |
| Channels.Channel.Status | bts/yate/engine/Channel.cpp:582-597 | every field after it, spelled out and as the specification of runs has it; references and DTMF memory stay |
| Channels.Channel.SetMaxcall | bts/yate/engine/Channel.cpp:604-625 | likewise, for all combinations of parameters given, zero, negative and absent, in microseconds |
| Channels.Channel.SetMaxPDD | bts/yate/engine/Channel.cpp:627-638 | likewise |
| Channels.Channel.MsgAnswered | bts/yate/engine/Channel.cpp:729-739 | likewise |
| Channels.Channel.MsgDrop | bts/yate/engine/Channel.cpp:751-757 | likewise |
| Channels.Channel.CallAccept | bts/yate/engine/Channel.cpp:891-918 | likewise, with the order of preferences for answering, ringing and progressing |
| Channels.Channel.CheckTimers | bts/yate/engine/Channel.cpp:862-870 | drops the call for the first timer that has run out |
| Channels.Channel.Perform | bts/yate/engine/Channel.cpp:713-942 | every event of a run does to the channel what the specification says, so the laws about runs hold of it |
| Channels.Channel.DtmfSequence | bts/yate/engine/Channel.cpp:944-968 | number and duplicate mark of a message, and the memory after it |
| Channels.Channel.DtmfEnqueue | bts/yate/engine/Channel.cpp:970-981 | queues unless the message is a duplicate and those are to be stopped |
| Channels.EnqueueAll | bts/yate/engine/Channel.cpp:944-981 | of any stream to a channel that stops duplicates, one message of each group is queued, and the queued numbers are one, two, three and so on |
| Dtmf.MemoryOfLeader | bts/yate/engine/Channel.cpp:944-968 | what is remembered is the last new tone, and its number counts the new tones, modulo 2^32 |
| Dtmf.DuplicateOfLeader | bts/yate/engine/Channel.cpp:952-957 | a message is a duplicate exactly when it has the text of the last new tone, was detected differently and is stamped less than four seconds after it |
| Dtmf.NumbersStep | bts/yate/engine/Channel.cpp:952-965 | before the counter wraps, numbers start at one and step by one exactly on new tones |
| Dtmf.SameNumber | bts/yate/engine/Channel.cpp:944-968 | messages share a number exactly when they share the tone that leads their group |
| Dtmf.NewNumbersGrow | bts/yate/engine/Channel.cpp:958-961 | in any stream, also with messages that are not numbered, the numbers of new tones grow strictly |
| Dtmf.GroupOf | bts/yate/engine/Channel.cpp:944-968 | all of a group have the text of its leader, and each but the leader is a duplicate, detected differently and less than four seconds later |
| Drivers.Driver.InitChan | bts/yate/engine/Channel.cpp:471-487 | the list grows by the channel, and the counter counts it; a channel listed already is refused by builds that check for it, and only otherwise listed twice |
| Drivers.Driver.DropChan | bts/yate/engine/Channel.cpp:489-502 | the list loses exactly this channel, if it had it, and the counter still counts it |
| Drivers.NextAlive | bts/yate/engine/Iterator.cpp:106-132 | the iterator skips the channels that are dead or have left the list, and no others |
| Drivers.Driver.EachAlive | bts/yate/engine/Channel.cpp:1435-1445 | whatever leaves the list, dies or arrives while the mutex is released: the loop acts on every channel that stays listed and alive, on none that was dead, and ends with the mutex released |
| Drivers.Driver.TimerScan | bts/yate/engine/Channel.cpp:1430-1451 | a scan, or none if one is on or the lock fails: which channels are checked under every interference; leaves the mutex and its own latch as they were |
| Drivers.Driver.DropAll | bts/yate/engine/Channel.cpp:1549-1565 | likewise for dropping, with the mutex left as it was |
| DriverThreads.OneScanAtATime | bts/yate/engine/Channel.cpp:1430-1451 | in every interleaving at most one thread scans, and the latch is down while it does |
| DriverThreads.LatchHasScan | bts/yate/engine/Channel.cpp:1430-1451 | and when the latch is down there is a thread in a scan that will lift it |
| DriverThreads.MutexBalanced | bts/yate/engine/Channel.cpp:1430-1565 | a thread that is done does not have the mutex, and no two have it |
| DriverThreads.RoutersCounted | bts/yate/engine/Channel.cpp:1708-1723 | the counter of routers is the number of threads between its two updates, and routed calls are at most the routers that finished |
| DriverThreads.QuietDriver | bts/yate/engine/Channel.cpp:1430-1723 | when all threads are done nobody has the mutex, the latch is up and no router is counted |
| DriverThreads.TimerScans | bts/yate/engine/Channel.cpp:1430-1447 | a timer message that finds latch and mutex free holds the latch down while it visits each channel, and lifts it in the end |
| DriverThreads.TimerStays | bts/yate/engine/Channel.cpp:1431 | one that finds the latch down changes nothing |
| DriverThreads.DropAllRuns | bts/yate/engine/Channel.cpp:1549-1565 | dropping all calls visits each channel and gives the mutex back |
| DriverThreads.RouterEnters | bts/yate/engine/Channel.cpp:1712-1715 | a router is counted when it starts to route |
| DriverThreads.RouterLeaves | bts/yate/engine/Channel.cpp:1717-1722 | and when done is not any more, one being added to the routed calls exactly on success |
| DriverThreads.RouterLooksUp | bts/yate/engine/Channel.cpp:1737-1739 | looking up its channel it takes the mutex and gives it back |
| Routers.Route | bts/yate/engine/Channel.cpp:1725-1830 | whatever other threads do to the counter: the routing reference is dropped exactly once if the last lookup found the channel and the driver's channels are dynamic, else never; no drop frees the channel while the router points at it; references are conserved; result and fate of the call in every case |
| Routers.Conclude | bts/yate/engine/Channel.cpp:1784-1824 | result, fate and status of a call found for routing, for every target, loop count and answer |
| Routers.RunRouter | bts/yate/engine/Channel.cpp:1708-1723 | the routing counter returns to its value, and the routed one grows exactly on success |
| Relays.UnionWithout | bts/yate/engine/Channel.cpp:1132-1141 | clearing the bits of one of several disjoint identifiers leaves the union of the others |
| Relays.Module.InstallId | bts/yate/engine/Channel.cpp:1095-1110 | keeps identifiers disjoint with the mask as their union and the engine's relays as the list; true without an effect if a bit is taken |
| Relays.Module.Install | bts/yate/engine/Channel.cpp:1122-1130 | likewise for a given relay, refused if a bit is taken or it is listed |
| Relays.Module.Uninstall | bts/yate/engine/Channel.cpp:1132-1141 | takes exactly this relay out of list, mask and engine |
| Relays.Module.UninstallId | bts/yate/engine/Channel.cpp:1143-1157 | takes out the one relay with this identifier, if any; always false |
| Relays.Module.UninstallAll | bts/yate/engine/Channel.cpp:1160-1168 | ends with mask, list and engine empty, and true |
| Relays.Run | bts/yate/engine/Channel.cpp:1095-1157 | after any sequence of installs and uninstalls identifiers are pairwise disjoint, the mask is their union and the engine has exactly the relays listed |
| Relays.RunToEnd | bts/yate/engine/Channel.cpp:1095-1168 | so uninstalling everything then succeeds and leaves nothing behind |
| SliceVectors.SliceVector.Clear | bts/yate/yatemath.h:1218-1231 | gives up the storage, whose counter drops by one, and no other's does |
| SliceVectors.SliceVector.InitSlice | bts/yate/yatemath.h:1248-1270 | the new window, or what becomes of a refused one; counters stay right, and the window is inside the storage exactly when the 32-bit sum of offset and length did not wrap around |
| SliceVectors.SliceVector.InitStorage | bts/yate/yatemath.h:1232-1247 | fresh storage with one reference, holding the data given and zeros |
| SliceVectors.SliceVector.Resize | bts/yate/yatemath.h:625-637 | changes the length within the maximum, and nothing else |
| SliceVectors.SliceVector.Steal | bts/yate/yatemath.h:645-657 | moves the window over; counters stay right exactly when the receiver had no storage |
| SliceVectors.SliceVector.Concat2 | bts/yate/yatemath.h:450-457 | fresh storage with exactly the joined contents, for empty vectors too |
| SliceVectors.SliceVector.Concat3 | bts/yate/yatemath.h:465-475 | likewise for three |
| SliceVectors.SliceVector.Copy | bts/yate/yatemath.h:744-756 | copies a block between vectors, or nothing if either does not have the elements |
| SliceVectors.SliceVector.Fill | bts/yate/yatemath.h:772-780 | sets every element and no cell outside the window |
| SliceVectors.SliceVector.Combine | bts/yate/yatemath.h:830-893 | sum, sub and mul: pointwise on the original contents unless the other vector starts before this one and reaches into it, then with its own results fed back, and pointwise exactly when no element notices; no cell outside the window changes; lengths that differ are refused |
| SliceVectors.CombineCells | bts/yate/yatemath.h:838-842 | the same for the loop over the cells |
| SliceVectors.FedBackIsPointwise | bts/yate/yatemath.h:838-893 | for every operation, sum, sub and mul included: with operands fed back the result is pointwise exactly when each element combined with the fed-back value is what it would be combined with the original one |
| SliceVectorFailures.SumFedBack | bts/yate/yatemath.h:835-843 | a failing input: summing the first two of three ones onto the last two gives 2 and 3 |
| SliceVectorFailures.ProductOfZero | bts/yate/yatemath.h:885-893 | an input on which the product is pointwise all the same, since a zero hides what is fed back |
| SliceVectorFailures.WrappingSlice | bts/yate/yatemath.h:1250-1261 | a failing input for any vector with elements: offset 2^32 - 1 and length 1 give a window outside the storage |
| SliceVectorFailures.StealOver | bts/yate/yatemath.h:649-657 | a failing input: stealing over storage leaves it with one reference and no vector on it |
| SliceVectorLaws.Slice | bts/yate/yatemath.h:722-730 | a slice is a window on the same storage with that part of the elements, or empty |
| SliceVectorLaws.Head | bts/yate/yatemath.h:681-687 | the first elements; all for zero; none if there are not that many |
| SliceVectorLaws.Tail | bts/yate/yatemath.h:698-707 | the last elements, if there are more than that |
| SliceVectorLaws.SliceOfSlice | bts/yate/yatemath.h:722-730 | a slice of a slice is the slice at the summed offset |
| SliceVectorLaws.JoinHeadTail | bts/yate/yatemath.h:450-457 | head and tail joined give the elements back, in storage of their own |
| SliceVectorLaws.Run | bts/yate/yatemath.h:427-492 | after any sequence of new, allocate, slice, resize, reset, destroy and steal-into-empty each counter is the number of vectors on the storage, zero exactly when none is, and every vector's window lies inside storage that is not released |
| GsmTrx.GsmTrxModule.GetTransceiver | bts/yatebts/gsmtrx.cpp:81-90 | refines the region: taking the transceiver out leaves running for waiting |
| GsmTrx.GsmTrxModule.FinishTrxStart | bts/yatebts/gsmtrx.cpp:528-555 | after success the module runs with the new transceiver, else the state stays; which transceivers it let go of |
| GsmTrx.GsmTrxModule.HaltControl | bts/yatebts/gsmtrx.cpp:479-485 | the first region of stopping the control thread: idle, all else as it was |
| GsmTrx.GsmTrxModule.DropControl | bts/yatebts/gsmtrx.cpp:488-496 | the second one: no control thread any more, and which one to kill |
| GsmTrx.GsmTrxModule.StartCtrl | bts/yatebts/gsmtrx.cpp:454-473 | refines the region that starts the control thread |
| GsmTrx.GsmTrxModule.WorkerTerminated | bts/yatebts/gsmtrx.cpp:276-292 | acts only for the present control thread, and tells an expected end from an unexpected one |
| GsmTrx.GsmTrxModule.Retry | bts/yatebts/gsmtrx.cpp:388-409 | refines the decision of the timer |
| GsmTrx.NextInv | bts/yatebts/gsmtrx.cpp:276-576 | every event keeps the invariant of the threads |
| GsmTrx.RunningOnlyFromWaiting | bts/yatebts/gsmtrx.cpp:500-556 | in every interleaving running implies a transceiver, and the state becomes running if and only if, waiting, the second half of a start has its radio and starts the transceiver it makes |
| GsmTrx.StoppedAtMostOnce | bts/yatebts/gsmtrx.cpp:558-567 | in every interleaving each transceiver made is in exactly one place: in use, taken by one thread, stopped, or let go of by a start or a killed thread; so none is stopped twice |
| GsmTrx.NoneLostWhenQuiet | bts/yatebts/gsmtrx.cpp:500-567 | when all threads are done none is in between |
| GsmTrx.TerminationActsOnce | bts/yatebts/gsmtrx.cpp:276-292 | a control thread reports its end up to three times (at the end of run, in cleanup and when destroyed), and at most one report is acted on |
| GsmTrx.IntervalBounded | bts/yatebts/gsmtrx.cpp:400-408 | the interval is one second doubled at most seven times, and there is one exactly when a start is planned |
| GsmTrx.MissedForever | bts/yatebts/gsmtrx.cpp:386-410 | once the planned start is overdue for every timer message still to come and no thread is in the middle of a start, the module stays idle and no control thread is ever started, whatever else happens but a new initialization |
| GsmTrx.StartedIffTimely | bts/yatebts/gsmtrx.cpp:370-410 | of any timer messages handled one after the other by an idle module with a planned start that would succeed, the control thread is started, once, if and only if one is stamped no later than planned; else the plan stands |
| GsmTrx.CanBeMissed | bts/yatebts/gsmtrx.cpp:386-410 | for every time and clock, a run of five events after which the start is planned and would be missed |
| GsmTrxCommands.ResetStarts | bts/yatebts/gsmtrx.cpp:229-235 | a control thread that executes RESET undisturbed stops the transceiver in use, and the module runs afterwards with a new one exactly if it was not idle, a radio was made and the transceiver started |
| GsmTrxCommands.StopStops | bts/yatebts/gsmtrx.cpp:237-240 | STOP, or a failure to answer, leaves no transceiver in use and the old one stopped |
| GsmTrxCommands.HaltEnds | bts/yatebts/gsmtrx.cpp:342-346 | halting leaves the module idle, without transceiver and control thread |
| GsmTrxCommands.ControlThreadEnds | bts/yatebts/gsmtrx.cpp:276-302 | the unexpected end of the control thread makes the module idle without a transceiver; an expected one changes nothing else |
| GsmTrxCommands.ErrorStops | bts/yatebts/gsmtrx.cpp:372-385 | a transceiver in error is stopped by the timer message that was asked to look |
| GsmTrxCommands.FailedRetryPlans | bts/yatebts/gsmtrx.cpp:390-408 | a failed retry is planned again, after one second or twice the last interval |
| GsmTrxCommands.InitializeStarts | bts/yatebts/gsmtrx.cpp:304-317 | initializing an idle module starts the control thread and clears the plan |

## Left out

- Data endpoints, message parameters, billing and target identifiers, and the callbacks of endpoints and channels: they
  change neither peers nor counters nor timers; `disconnect` inside `msgDrop` is modelled in `CallEndpoint.dfy` only.
- Concurrent `connect` calls: its lock is compiled out, so `CallEndpoint.Connect` is for one thread at a time.
- The lock around the cached peer id, and reads of it by other threads.
- Public setters of timers, called by drivers that are not part of this model, and overrides of virtual methods.
- Overflow of times, of the counters of channels and routers, of the length of an encoded text, and of sizes in bytes
  or sums of lengths of vectors: such inputs are outside the bounds the code states.
- The translation tables are written as ranges of characters rather than 256 entries.
- The encoder's loop body, its rest and the loop itself are methods of their own (`EncodeFull`, `EncodeRest`,
  `EncodeInto`).
- Elements of vectors are of any type and compared exactly: rounding of float and complex elements, the other
  element-wise functions, hexadecimal forms and bit vectors.
- Overlapping block copies, whose result the code leaves undefined.
- The branch of a slice whose storage cannot be referenced: storage in use is never dead, so it cannot be reached.
- The overloads of head, tail and slice that store into a given vector: they are `InitSlice` with deletion asked for.
- Routers.Route: says nothing about the texts of errors and reasons, and assumes that other threads leave the call state
  alone while it runs; return values come without spaces around them.
- Kill of a control thread is possible at any of its steps, which is more than the code does; two threads never get the
  same address.
- The gap check of the GSM time sync, reloading of the configuration and re-initialization of a running transceiver:
  they change no state but their own.
- GsmTrx.GsmTrxModule.StartCtrl: a control thread whose startup fails is deleted under the state mutex, and its
  destructor takes that mutex again, which is not recursive (lines 463-467); the model returns an ordinary failure.
- Changes other threads make to the call state of a channel during a scan, and the return of a channel to a list it has
  left.
- Calls to the radio and the transceiver made under the state mutex are taken to return without calling back.
- Status texts, debug output, alarms and command completion.
- Other files of the repository, such as `bts/yate/engine/Array.cpp`, `ocp/ocp-common/sarqueue.cpp` and the user
  interfaces.
